/** The client of domo/mqtt/mqtt.c as a machine: one atomic step per callback, timer tick, task run or API call. */
module Session {
  import opened Bytes
  import opened Proto
  import opened Queues
  import opened MqttMsg
  import opened MqttDecode
  import opened RingBuffers

  const MQTT_SEND_TIMOUT := 5
  const MQTT_RECONNECT_TIMEOUT := 5

  /** The values of tConnState that the client takes. */
  datatype ConnState =
    | WifiInit | TcpDisconnecting | TcpDisconnected | TcpReconnectDisconnecting | TcpReconnectReq | TcpReconnect
    | TcpConnecting | MqttConnectSending | MqttData | MqttKeepaliveSend | MqttDeleting | MqttDeleted

  /** Buffer sizes and connect_info, fixed once the client is initialised. */
  datatype Config = Config(bufSize: nat, ringSize: nat, info: ConnectInfo) {
    ghost predicate Ok() {
      && 5 <= bufSize <= MAX_REMAINING + MAX_FIXED_HEADER_SIZE
      && 2 <= ringSize <= MAX_RING
      && (Present(info.willTopic) ==> info.willMessage.Some?)
    }
  }

  /**
   * MQTT_Client. `con`: pCon is not NULL. `posted`: the one-slot task queue holds an event. `outByte`: the first byte
   * of the output buffer.
   */
  datatype Client = Client(
    alive: bool, connState: ConnState, con: bool,
    keepAliveTick: nat, reconnectTick: nat, sendTimeout: nat,
    pendingType: int, messageId: u16, posted: bool,
    inBuffer: seq<byte>, outByte: byte, queue: seq<Packet>)

  /** What an observer of the client sees: packets offered to the queue and sent, connections, time. */
  datatype Act =
    | Offer(packet: Packet)                      // handed to QUEUE_Puts
    | Dequeue(packet: Packet)                    // taken out of the queue by MQTT_Task and handed to espconn_send
    | SendConnect(packet: Packet)                // sent past the queue
    | SendPing(packet: Packet)
    | Opened | Closed                            // espconn objects
    | Connack(segment: seq<byte>, buffer: seq<byte>)  // an accepted session: the segment, and in_buffer with it
    | Deliver(topic: Option<seq<byte>>, payload: seq<byte>)  // dataCb; None is a NULL topic
    | Sent                                       // the sent callback
    | Tick                                       // one period of mqtt_timer

  datatype Event =
    | Publish(topic: Option<seq<byte>>, payload: seq<byte>, qos: int, retain: int)
    | Subscribe(topic: Option<seq<byte>>, reqQos: byte)
    | Unsubscribe(topic: Option<seq<byte>>)
    | Ping
    | Connect | Disconnect | Delete
    | Timer
    | Task(sendOk: bool, stale: byte)   // `stale`: what uninitialised memory holds where the code reads it
    | DnsFound(addr: Option<nat>, ip: nat)  // `ip`: what the resolver left in the client's own ip field
    | ConnectCb
    | DisconCb | ReconCb | SentCb
    | Recv(segment: seq<byte>, rounds: nat)  // the receive callback, watched for `rounds` passes of its loop

  /** espconn calls back only on a live connection object; the task runs only on a posted event. */
  predicate Enabled(c: Client, e: Event) {
    && c.alive
    && (e.Task? ==> c.posted)
    && (e.DnsFound? || e.ConnectCb? || e.DisconCb? || e.ReconCb? || e.SentCb? || e.Recv? ==> c.con)
  }

  predicate Open(c: Client) { c.connState == MqttData || c.connState == MqttKeepaliveSend }

  /** MQTT_InitConnection and MQTT_InitClient. */
  function Init(cfg: Config): Client {
    Client(true, WifiInit, false, 0, 0, 0, 0, 0, true, seq(cfg.bufSize, _ => 0), 0, [])
  }

  // ---------------------------------------------------------------- API calls

  function Post(c: Client): Client { c.(posted := true) }

  /** MQTT_Publish. */
  function PublishStep(cfg: Config, c: Client, e: Event): (r: (Client, seq<Act>))
    requires cfg.Ok() && e.Publish?
    ensures r.0.inBuffer == c.inBuffer
  {
    var m := PublishMessage(e.topic, e.payload, e.qos, e.retain, cfg.bufSize, c.messageId);
    var c1 := c.(messageId := PublishCounter(e.topic, e.qos, cfg.bufSize, c.messageId),
                 outByte := FirstByte(c.outByte, m));
    if m == [] then (c1, [])
    else if |m| + 2 > cfg.ringSize then (c1.(queue := []), [])
    else (Post(Enqueue(cfg, c1.(queue := Kept(c.queue, |m| + 2, cfg.ringSize)), m)), [Offer(m)])
  }

  /** QUEUE_Puts. */
  function Enqueue(cfg: Config, c: Client, m: Packet): Client {
    if |Frames(c.queue)| + |Frame(m)| <= cfg.ringSize then c.(queue := c.queue + [m]) else c
  }

  /** The retry loop and the post behind it, in MQTT_Subscribe, MQTT_UnSubscribe and MQTT_Ping. */
  function Retry(cfg: Config, c: Client, m: Packet): (Client, seq<Act>) {
    if |Frame(m)| <= cfg.ringSize
    then (Post(c.(queue := Kept(c.queue, |Frame(m)|, cfg.ringSize) + [m])), [Offer(m)])
    else (c.(queue := []), [Offer(m)])
  }

  /** The client once the request `m` for `topic` has been built. */
  function Requested(c: Client, topic: Option<seq<byte>>, m: Packet): Client {
    c.(messageId := if Present(topic) then NextId(c.messageId) else c.messageId, outByte := FirstByte(c.outByte, m))
  }

  function SubscribeStep(cfg: Config, c: Client, type_: int, topic: Option<seq<byte>>, qos: Option<byte>)
      : (r: (Client, seq<Act>))
    requires cfg.Ok()
    ensures r.0.inBuffer == c.inBuffer
  {
    var m := SubscribeMessage(type_, topic, qos, cfg.bufSize, c.messageId);
    Retry(cfg, Requested(c, topic, m), m)
  }

  /** mqtt_tcpclient_delete. */
  function CloseCon(c: Client): (Client, seq<Act>) { (c.(con := false), if c.con then [Closed] else []) }

  /** MQTT_Connect. */
  function ConnectStep(c: Client): (Client, seq<Act>) {
    (c.(con := true, keepAliveTick := 0, reconnectTick := 0, connState := TcpConnecting), CloseCon(c).1 + [Opened])
  }

  function DisconnectStep(c: Client): Client { Post(c.(connState := TcpDisconnecting)) }

  function DeleteStep(c: Client): Client { Post(c.(connState := MqttDeleted)) }

  // ---------------------------------------------------------------- timer and task

  function TimerStep(cfg: Config, c: Client): Client {
    var c1 :=
      if c.connState == MqttData then
        var t := c.keepAliveTick + 1;
        if t > cfg.info.keepalive / 2 then Post(c.(keepAliveTick := t, connState := MqttKeepaliveSend))
        else c.(keepAliveTick := t)
      else if c.connState == TcpReconnectReq then
        var t := c.reconnectTick + 1;
        if t > MQTT_RECONNECT_TIMEOUT then Post(c.(reconnectTick := 0, connState := TcpReconnect))
        else c.(reconnectTick := t)
      else c;
    c1.(sendTimeout := if c.sendTimeout > 0 then c.sendTimeout - 1 else 0)
  }

  /** mqtt_send_keepalive. */
  function KeepaliveStep(c: Client, sendOk: bool): (Client, seq<Act>) {
    var m := Encode(PINGREQ, 0, 0, 0, []);
    var c1 := c.(pendingType := PINGREQ, sendTimeout := MQTT_SEND_TIMOUT);
    (Post(if sendOk then c1.(keepAliveTick := 0, connState := MqttData)
          else c1.(connState := TcpReconnectDisconnecting)),
     [SendPing(m)])
  }

  /** The MQTT_DATA case of MQTT_Task; the packet is read back into a buffer of the size it was built in. */
  function DataStep(cfg: Config, c: Client, stale: byte): (Client, seq<Act>) {
    if c.queue == [] || c.sendTimeout != 0 then (c, [])
    else
      var p := Limit(c.queue[0], cfg.bufSize);
      (c.(queue := c.queue[1..], sendTimeout := MQTT_SEND_TIMOUT,
          pendingType := if p == [] then stale / 16 else GetType(p)),
       [Dequeue(p)])
  }

  /** MQTT_Task, which has taken its event out of the queue. */
  function TaskStep(cfg: Config, c0: Client, sendOk: bool, stale: byte): (r: (Client, seq<Act>))
    ensures r.0.inBuffer == c0.inBuffer
  {
    var c := c0.(posted := false);
    match c.connState
    case TcpReconnect => var (c1, closed) := CloseCon(c); var (c2, acts) := ConnectStep(c1); (c2, closed + acts)
    case TcpDisconnected => CloseCon(c)
    case MqttDeleted => var (c1, closed) := CloseCon(c); (c1.(alive := false, connState := WifiInit), closed)
    case MqttKeepaliveSend => KeepaliveStep(c, sendOk)
    case MqttData => DataStep(cfg, c, stale)
    case _ => (c, [])
  }

  // ---------------------------------------------------------------- espconn callbacks

  /** mqtt_tcpclient_connect_cb; without a CONNECT, the first byte of the output buffer passes for its type. */
  function ConnectCbStep(cfg: Config, c: Client): (Client, seq<Act>)
    requires cfg.Ok()
  {
    var m := ConnectMessage(cfg.info, cfg.bufSize);
    (Post(c.(messageId := 0, pendingType := if m == [] then c.outByte / 16 else GetType(m),
             outByte := FirstByte(c.outByte, m), sendTimeout := MQTT_SEND_TIMOUT, connState := MqttConnectSending)),
     [SendConnect(m)])
  }

  function DisconCbStep(c: Client): Client {
    Post(c.(connState :=
      if c.connState == TcpDisconnecting then TcpDisconnected
      else if c.connState == MqttDeleting then MqttDeleted
      else TcpReconnectReq))
  }

  function ReconCbStep(c: Client): Client { Post(c.(connState := TcpReconnectReq)) }

  function SentCbStep(c: Client): Client { Post(c.(sendTimeout := 0, keepAliveTick := 0)) }

  function DnsFoundStep(c: Client, addr: Option<nat>, ip: nat): Client {
    if addr.None? then c.(connState := TcpReconnectReq)
    else Post(if ip == 0 && addr.value != 0 then c.(connState := TcpConnecting) else c)
  }

  // ---------------------------------------------------------------- the receive callback

  /** The acknowledgement that a packet of this type and QoS calls for: its type and header QoS. */
  function Reply(type_: int, qos: int): Option<(int, int)> {
    if type_ == PUBLISH && qos == 1 then Some((PUBACK, 0))
    else if type_ == PUBLISH && qos == 2 then Some((PUBREC, 0))
    else if type_ == PUBREC then Some((PUBREL, 1))
    else if type_ == PUBREL then Some((PUBCOMP, 0))
    else None
  }

  /** The packets queued in answer to the packet at the start of `b`. */
  function Answer(cfg: Config, c: Client, b: seq<byte>): (r: (Client, seq<Act>))
    requires 0 < |b| == cfg.bufSize
    ensures r.0.inBuffer == c.inBuffer
  {
    var id := Id(b, cfg.bufSize);
    match Reply(GetType(b), GetQos(b))
    case Some((ackType, ackQos)) =>
      var m := AckMessage(ackType, ackQos, id, cfg.bufSize, c.messageId);
      (Enqueue(cfg, c.(messageId := if id == 0 then NextId(c.messageId) else c.messageId), m), [Offer(m)])
    case None =>
      if GetType(b) == PINGREQ then
        var m := Encode(PINGRESP, 0, 0, 0, []);
        (Enqueue(cfg, c, m), [Offer(m)])
      else (c, [])
  }

  /** deliver_publish. */
  function Delivery(b: seq<byte>, length: nat): (a: Act)
    requires 0 < length <= |b|
    ensures a.Deliver?
  {
    Deliver(match Topic(b, length) case None => None case Some(t) => Some(b[t.0..t.1]),
            match Payload(b, length) case None => [] case Some(d) => b[d.0..d.1])
  }

  /** os_memcpy into in_buffer, whose tail keeps what earlier segments left there. */
  function Overlay(b: seq<byte>, data: seq<byte>): (r: seq<byte>)
    requires |data| <= |b|
    ensures |r| == |b|
  {
    data + b[|data|..]
  }

  /** One pass from READPACKET on: client, acts, and what is left of the segment if the pass ends in the goto. */
  function Pass(cfg: Config, c: Client, data: seq<byte>): (r: (Client, seq<Act>, Option<seq<byte>>))
    requires |c.inBuffer| == cfg.bufSize >= 5
    ensures |r.0.inBuffer| == cfg.bufSize
  {
    if !(0 < |data| < cfg.bufSize) then (Post(c), [], None)
    else Read(cfg, c.(inBuffer := Overlay(c.inBuffer, data)), data)
  }

  /** The switch on the connection state, once the segment is in in_buffer. */
  function Read(cfg: Config, c: Client, data: seq<byte>): (r: (Client, seq<Act>, Option<seq<byte>>))
    requires |c.inBuffer| == cfg.bufSize >= 5 && 0 < |data| < cfg.bufSize
    ensures r.0.inBuffer == c.inBuffer
  {
    var b := c.inBuffer;
    match c.connState
    case MqttConnectSending =>
      if GetType(b) == CONNACK && c.pendingType == CONNECT && b[3] == 0
      then (Post(c.(connState := MqttData)), [Connack(data, b)], None)
      else (Post(c), [], None)
    case MqttData => SessionPass(cfg, c, data)
    case MqttKeepaliveSend => SessionPass(cfg, c, data)
    case _ => (Post(c), [], None)
  }

  /** The MQTT_DATA and MQTT_KEEPALIVE_SEND case; message_length is a 16-bit field. */
  function SessionPass(cfg: Config, c: Client, data: seq<byte>): (r: (Client, seq<Act>, Option<seq<byte>>))
    requires |c.inBuffer| == cfg.bufSize >= 5 && 0 < |data| < cfg.bufSize
    ensures r.0.inBuffer == c.inBuffer
  {
    var b := c.inBuffer;
    var (c1, acts) := Answer(cfg, c, b);
    if GetType(b) != PUBLISH then (Post(c1), acts, None)
    else
      var total := TotalLength(b, |data|) % 0x1_0000;
      var acts' := acts + [Delivery(b, |data|)];
      if total < |data| then (c1, acts', Some(data[total..])) else (Post(c1), acts', None)
  }

  /** `rounds` passes of the receive loop, or fewer if it ends before; the third part is what is left to read. */
  function Passes(cfg: Config, c: Client, data: seq<byte>, rounds: nat): (r: (Client, seq<Act>, Option<seq<byte>>))
    requires |c.inBuffer| == cfg.bufSize >= 5
    ensures |r.0.inBuffer| == cfg.bufSize
    decreases rounds
  {
    if rounds == 0 then (c, [], Some(data))
    else
      var (c1, acts, rest) := Passes(cfg, c, data, rounds - 1);
      if rest.None? then (c1, acts, rest)
      else var (c2, more, rest') := Pass(cfg, c1, rest.value); (c2, acts + more, rest')
  }

  // ---------------------------------------------------------------- the machine

  function Next(cfg: Config, c: Client, e: Event): (r: (Client, seq<Act>))
    requires cfg.Ok() && |c.inBuffer| == cfg.bufSize
    ensures |r.0.inBuffer| == cfg.bufSize
  {
    match e
    case Publish(_, _, _, _) => PublishStep(cfg, c, e)
    case Subscribe(topic, qos) => SubscribeStep(cfg, c, SUBSCRIBE, topic, Some(qos))
    case Unsubscribe(topic) => SubscribeStep(cfg, c, UNSUBSCRIBE, topic, None)
    case Ping => Retry(cfg, c, Encode(PINGREQ, 0, 0, 0, []))
    case Connect => ConnectStep(c)
    case Disconnect => (DisconnectStep(c), [])
    case Delete => (DeleteStep(c), [])
    case Timer => (TimerStep(cfg, c), [Tick])
    case Task(sendOk, stale) => TaskStep(cfg, c, sendOk, stale)
    case DnsFound(addr, ip) => (DnsFoundStep(c, addr, ip), [])
    case ConnectCb => ConnectCbStep(cfg, c)
    case DisconCb => (DisconCbStep(c), [])
    case ReconCb => (ReconCbStep(c), [])
    case SentCb => (SentCbStep(c), [Sent])
    case Recv(segment, rounds) => var (c', acts, _) := Passes(cfg, c.(keepAliveTick := 0), segment, rounds); (c', acts)
  }
}
