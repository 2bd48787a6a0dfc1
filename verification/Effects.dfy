/** What each step of the client does to its state, in terms of packets, frames and bytes only. */
module Effects {
  import opened Bytes
  import opened Proto
  import opened Queues
  import opened MqttMsg
  import opened MqttDecode
  import opened Session
  import opened Runs
  import opened Safety
  import opened Receive

  // ---------------------------------------------------------------- the API

  /**
   * MQTT_Publish. A packet that could not be built changes nothing. One that the ring can never hold, unstuffed, costs
   * the whole queue. Any other makes room by dropping the fewest oldest packets, and is then queued if and only if its
   * frame fits; an event is posted in any case.
   */
  lemma {:induction false} PublishEffect(cfg: Config, c: Client, topic: Option<seq<byte>>, payload: seq<byte>, qos: int,
                                         retain: int) returns (k: nat)
    requires cfg.Ok() && |c.inBuffer| == cfg.bufSize
    ensures var m := PublishMessage(topic, payload, qos, retain, cfg.bufSize, c.messageId);
            var (c', acts) := Next(cfg, c, Publish(topic, payload, qos, retain));
            && (m == [] ==> c'.queue == c.queue && c'.posted == c.posted && acts == [])
            && (m != [] && |m| + 2 > cfg.ringSize ==> c'.queue == [] && c'.posted == c.posted && acts == [])
            && (m != [] && |m| + 2 <= cfg.ringSize ==>
                  && k <= |c.queue| && |Frames(c.queue[k..])| + |m| + 2 <= cfg.ringSize
                  && (forall j: nat | j < k :: |Frames(c.queue[j..])| + |m| + 2 > cfg.ringSize)
                  && c'.queue == (if |Frames(c.queue[k..])| + |Frame(m)| <= cfg.ringSize
                                  then c.queue[k..] + [m] else c.queue[k..])
                  && c'.posted && acts == [Offer(m)])
            && c' == c.(queue := c'.queue, posted := c'.posted, messageId := c'.messageId, outByte := c'.outByte)
            && (m != [] && qos > 0 ==> c'.messageId == NextId(c.messageId))
  {
    hide PublishMessage, PublishCounter, Frame, Frames, Kept;
    var m := PublishMessage(topic, payload, qos, retain, cfg.bufSize, c.messageId);
    k := 0;
    if m != [] {
      CounterAfter(topic, payload, qos, retain, cfg.bufSize, c.messageId);
      if |m| + 2 <= cfg.ringSize { k := KeptDropsFewest(c.queue, |m| + 2, cfg.ringSize); }
    }
  }

  lemma CounterAfter(topic: Option<seq<byte>>, payload: seq<byte>, qos: int, retain: int, bufLen: nat, counter: u16)
    requires bufLen < 0x1_0000 && PublishMessage(topic, payload, qos, retain, bufLen, counter) != []
    ensures PublishCounter(topic, qos, bufLen, counter) == if qos > 0 then NextId(counter) else counter
  {}

  /** The packet that a request builds. */
  function Request(cfg: Config, c: Client, e: Event): Packet
    requires cfg.Ok() && (e.Subscribe? || e.Unsubscribe? || e.Ping?)
  {
    match e
    case Subscribe(topic, qos) => SubscribeMessage(SUBSCRIBE, topic, Some(qos), cfg.bufSize, c.messageId)
    case Unsubscribe(topic) => SubscribeMessage(UNSUBSCRIBE, topic, None, cfg.bufSize, c.messageId)
    case Ping => [0xC0, 0]
  }

  /**
   * MQTT_Subscribe, MQTT_UnSubscribe and MQTT_Ping. A packet whose frame fits the ring is queued, behind the old
   * packets without the fewest oldest ones, and an event posted; any other costs the whole queue.
   */
  lemma {:induction false} RequestEffect(cfg: Config, c: Client, e: Event) returns (k: nat)
    requires cfg.Ok() && |c.inBuffer| == cfg.bufSize && (e.Subscribe? || e.Unsubscribe? || e.Ping?)
    ensures var m := Request(cfg, c, e);
            var (c', acts) := Next(cfg, c, e);
            && acts == [Offer(m)]
            && (|Frame(m)| > cfg.ringSize ==> c'.queue == [] && c'.posted == c.posted)
            && (|Frame(m)| <= cfg.ringSize ==>
                  && k <= |c.queue| && |Frames(c.queue[k..])| + |Frame(m)| <= cfg.ringSize
                  && (forall j: nat | j < k :: |Frames(c.queue[j..])| + |Frame(m)| > cfg.ringSize)
                  && c'.queue == c.queue[k..] + [m] && c'.posted)
            && c' == c.(queue := c'.queue, posted := c'.posted, messageId := c'.messageId, outByte := c'.outByte)
            && (if !e.Ping? && Present(e.topic) then c'.messageId == NextId(c.messageId) != 0
                else c'.messageId == c.messageId)
  {
    var m := Request(cfg, c, e);
    assert Encode(PINGREQ, 0, 0, 0, []) == [0xC0, 0];
    hide SubscribeMessage, Frame, Frames, Kept, Encode;
    k := 0;
    if |Frame(m)| <= cfg.ringSize { k := KeptDropsFewest(c.queue, |Frame(m)|, cfg.ringSize); }
  }

  /** MQTT_Connect, MQTT_Disconnect and MQTT_DeleteClient. */
  lemma {:induction false} CommandEffect(cfg: Config, c: Client)
    requires cfg.Ok() && |c.inBuffer| == cfg.bufSize
    ensures var (c', acts) := Next(cfg, c, Event.Connect);
            && c' == c.(con := true, connState := TcpConnecting, keepAliveTick := 0, reconnectTick := 0)
            && acts == if c.con then [Closed, Opened] else [Opened]
    ensures Next(cfg, c, Disconnect) == (c.(connState := TcpDisconnecting, posted := true), [])
    ensures Next(cfg, c, Delete) == (c.(connState := MqttDeleted, posted := true), [])
  {}

  // ---------------------------------------------------------------- the task

  /**
   * MQTT_Task in MQTT_DATA takes the oldest packet out of the queue and sends it, exactly when the last send was
   * confirmed or timed out; the send timeout starts again, and the pending type is the packet's.
   */
  lemma {:induction false} SendEffect(cfg: Config, c: Client, sendOk: bool, stale: byte)
    requires cfg.Ok() && |c.inBuffer| == cfg.bufSize && c.connState == MqttData && Bounded(c.queue, cfg.bufSize)
    ensures var (c', acts) := Next(cfg, c, Task(sendOk, stale));
            if c.queue != [] && c.sendTimeout == 0 then
              && acts == [Dequeue(c.queue[0])]
              && c' == c.(queue := c.queue[1..], sendTimeout := MQTT_SEND_TIMOUT, posted := false,
                          pendingType := if c.queue[0] == [] then stale / 16 else c.queue[0][0] / 16)
            else c' == c.(posted := false) && acts == []
  {
    if c.queue != [] { assert c.queue[0] in c.queue; }
  }

  /** MQTT_Task in every other state. */
  lemma {:induction false} TaskEffect(cfg: Config, c: Client, sendOk: bool, stale: byte)
    requires cfg.Ok() && |c.inBuffer| == cfg.bufSize
    ensures var (c', acts) := Next(cfg, c, Task(sendOk, stale));
            var done := c.(posted := false);
            match c.connState
            case MqttKeepaliveSend =>
              var sent := done.(pendingType := PINGREQ, sendTimeout := MQTT_SEND_TIMOUT, posted := true);
              && acts == [SendPing([0xC0, 0])]
              && c' == if sendOk then sent.(keepAliveTick := 0, connState := MqttData)
                       else sent.(connState := TcpReconnectDisconnecting)
            case TcpReconnect =>
              && acts == (if c.con then [Closed, Opened] else [Opened])
              && c' == done.(con := true, connState := TcpConnecting, keepAliveTick := 0, reconnectTick := 0)
            case TcpDisconnected => acts == (if c.con then [Closed] else []) && c' == done.(con := false)
            case MqttDeleted =>
              && acts == (if c.con then [Closed] else [])
              && c' == done.(con := false, alive := false, connState := WifiInit)
            case MqttData => true
            case _ => c' == done && acts == []
  {
    assert Encode(PINGREQ, 0, 0, 0, []) == [0xC0, 0];
    hide Encode, DataStep;
  }

  // ---------------------------------------------------------------- callbacks

  lemma {:induction false} CallbackEffect(cfg: Config, c: Client)
    requires cfg.Ok() && |c.inBuffer| == cfg.bufSize
    ensures Next(cfg, c, SentCb) == (c.(sendTimeout := 0, keepAliveTick := 0, posted := true), [Sent])
    ensures Next(cfg, c, ReconCb) == (c.(connState := TcpReconnectReq, posted := true), [])
    ensures Next(cfg, c, DisconCb)
         == (c.(connState := if c.connState == TcpDisconnecting then TcpDisconnected
                             else if c.connState == MqttDeleting then MqttDeleted else TcpReconnectReq,
                posted := true), [])
    ensures forall ip :: Next(cfg, c, DnsFound(None, ip)) == (c.(connState := TcpReconnectReq), [])
    ensures forall addr, ip ::
              (Next(cfg, c, DnsFound(Some(addr), ip))
               == (c.(connState := if ip == 0 && addr != 0 then TcpConnecting else c.connState, posted := true), []))
  {}

  /** mqtt_tcpclient_connect_cb sends CONNECT and starts the identifiers and the send timeout again. */
  lemma {:induction false} ConnectCbEffect(cfg: Config, c: Client)
    requires cfg.Ok() && |c.inBuffer| == cfg.bufSize
    ensures var m := ConnectMessage(cfg.info, cfg.bufSize);
            var (c', acts) := Next(cfg, c, ConnectCb);
            && acts == [SendConnect(m)]
            && c' == c.(connState := MqttConnectSending, messageId := 0, sendTimeout := MQTT_SEND_TIMOUT,
                        posted := true, pendingType := if m == [] then c.outByte / 16 else CONNECT,
                        outByte := c'.outByte)
  {
    if ConnectMessage(cfg.info, cfg.bufSize) != [] {
      HeaderBits(CONNECT, 0, 0, 0);
      hide ConnectBody;
    }
  }

  /** What the receive callback may change when no session is about to open, and what it always clears. */
  lemma {:induction false} RecvEffect(cfg: Config, c: Client, segment: seq<byte>, rounds: nat)
    requires cfg.Ok() && |c.inBuffer| == cfg.bufSize && c.connState != MqttConnectSending
    ensures var (c', acts) := Next(cfg, c, Recv(segment, rounds));
            && c' == c.(keepAliveTick := 0, inBuffer := c'.inBuffer, messageId := c'.messageId, queue := c'.queue,
                        posted := c'.posted)
            && (c.posted ==> c'.posted)
            && (forall a | a in acts :: a.Offer? || a.Deliver?)
            && (!Open(c) ==> c'.queue == c.queue && acts == [] && (rounds > 0 ==> c'.posted))
  {
    hide Next, Passes;
    RecvIsPasses(cfg, c, segment, rounds);
    PassesEffect(cfg, c.(keepAliveTick := 0), segment, rounds);
  }

  lemma {:induction false} PassesEffect(cfg: Config, c: Client, data: seq<byte>, rounds: nat)
    requires cfg.Ok() && |c.inBuffer| == cfg.bufSize && c.connState != MqttConnectSending
    ensures var (c', acts, rest) := Passes(cfg, c, data, rounds);
            && c' == c.(inBuffer := c'.inBuffer, messageId := c'.messageId, queue := c'.queue, posted := c'.posted)
            && (c.posted ==> c'.posted) && (forall a | a in acts :: a.Offer? || a.Deliver?)
            && (!Open(c) ==> c'.queue == c.queue && acts == [] && (rounds > 0 ==> c'.posted && rest.None?))
    decreases rounds
  {
    hide Pass;
    if rounds > 0 {
      PassesEffect(cfg, c, data, rounds - 1);
      var (c1, _, rest) := Passes(cfg, c, data, rounds - 1);
      if rest.Some? { PassEffect(cfg, c1, rest.value); }
    }
  }

  lemma {:induction false} PassEffect(cfg: Config, c: Client, data: seq<byte>)
    requires cfg.Ok() && |c.inBuffer| == cfg.bufSize && c.connState != MqttConnectSending
    ensures var (c', acts, rest) := Pass(cfg, c, data);
            && c' == c.(inBuffer := c'.inBuffer, messageId := c'.messageId, queue := c'.queue, posted := c'.posted)
            && (c.posted ==> c'.posted) && (forall a | a in acts :: a.Offer? || a.Deliver?)
            && (!Open(c) ==> c'.queue == c.queue && acts == [] && c'.posted && rest.None?)
  {
    hide Answer, Delivery, TotalLength, GetType;
    if 0 < |data| < cfg.bufSize {
      var b := Overlay(c.inBuffer, data);
      AnswerKeeps(cfg, c.(inBuffer := b));
    }
  }

  /** An empty segment, and one as long as the receive buffer, is dropped as a whole. */
  lemma {:induction false} SegmentIgnored(cfg: Config, c: Client, segment: seq<byte>, rounds: nat)
    requires cfg.Ok() && |c.inBuffer| == cfg.bufSize && rounds > 0 && (segment == [] || |segment| >= cfg.bufSize)
    ensures Next(cfg, c, Recv(segment, rounds)) == (c.(keepAliveTick := 0, posted := true), [])
  {
    var start := c.(keepAliveTick := 0);
    hide Passes, Next, Read;
    RecvIsPasses(cfg, c, segment, rounds);
    OnePass(cfg, start, segment);
    PassesSettle(cfg, start, segment, 1, rounds);
  }

  /** While CONNECT is pending, a segment opens the session or does nothing but fill the receive buffer. */
  lemma {:induction false} ConnackEffect(cfg: Config, c: Client, segment: seq<byte>, rounds: nat)
    requires cfg.Ok() && |c.inBuffer| == cfg.bufSize && rounds > 0
    requires c.connState == MqttConnectSending && 0 < |segment| < cfg.bufSize
    ensures var b := segment + c.inBuffer[|segment|..];
            var c1 := c.(keepAliveTick := 0, inBuffer := b, posted := true);
            var opens := segment[0] / 16 == 2 && c.pendingType == 1 && b[3] == 0;
            Next(cfg, c, Recv(segment, rounds))
              == if opens then (c1.(connState := MqttData), [Connack(segment, b)]) else (c1, [])
  {
    var start := c.(keepAliveTick := 0);
    hide Passes, Next, SessionPass;
    RecvIsPasses(cfg, c, segment, rounds);
    OnePass(cfg, start, segment);
    PassesSettle(cfg, start, segment, 1, rounds);
  }

  // ---------------------------------------------------------------- nothing is lost but to make room

  predicate Api(e: Event) { e.Publish? || e.Subscribe? || e.Unsubscribe? || e.Ping? }

  /** What went out and what is still queued is what was queued before, and some of what was offered. */
  ghost predicate Conserves(c: Client, c': Client, acts: seq<Act>, sub: seq<Packet>) {
    Dequeued(acts) + c'.queue == c.queue + sub && Subsequence(sub, Offered(acts))
  }

  lemma {:induction false} ConservesMore(c: Client, c1: Client, c2: Client, acts: seq<Act>, more: seq<Act>,
                                         sub: seq<Packet>, sub': seq<Packet>)
    requires Conserves(c, c1, acts, sub) && Conserves(c1, c2, more, sub')
    ensures Conserves(c, c2, acts + more, sub + sub')
  {
    hide Subsequence, Dequeued, Offered;
    ActsAdd(acts, more);
    SubsequenceJoin(sub, sub', Offered(acts), Offered(more));
    assert Dequeued(acts) + Dequeued(more) + c2.queue == Dequeued(acts) + (Dequeued(more) + c2.queue);
    ConcatAssoc(Dequeued(acts), c1.queue, sub');
    ConcatAssoc(c.queue, sub, sub');
  }

  lemma {:induction false} ActsAdd(acts: seq<Act>, more: seq<Act>)
    ensures Offered(acts + more) == Offered(acts) + Offered(more)
    ensures Dequeued(acts + more) == Dequeued(acts) + Dequeued(more)
    decreases |more|
  {
    if more == [] {
      assert acts + more == acts;
    } else {
      var n := |more| - 1;
      assert (acts + more)[..|acts + more| - 1] == acts + more[..n];
      ActsAdd(acts, more[..n]);
    }
  }

  /** Acts that neither offer nor dequeue, around a queue that stays as it is. */
  lemma {:induction false} QuietConserves(c: Client, c': Client, acts: seq<Act>)
    requires c'.queue == c.queue && forall a | a in acts :: Quiet(a)
    ensures Conserves(c, c', acts, [])
    decreases |acts|
  {
    if acts != [] {
      assert acts[|acts| - 1] in acts;
      QuietConserves(c, c', acts[..|acts| - 1]);
    }
  }

  lemma {:induction false} EnqueueConserves(cfg: Config, c: Client, m: Packet) returns (sub: seq<Packet>)
    requires |m| <= cfg.bufSize && Bounded(c.queue, cfg.bufSize)
    ensures Conserves(c, Enqueue(cfg, c, m), [Offer(m)], sub) && Bounded(Enqueue(cfg, c, m).queue, cfg.bufSize)
  {
    hide Frames, Frame, Subsequence, Offered, Dequeued;
    sub := if |Frames(c.queue)| + |Frame(m)| <= cfg.ringSize then [m] else [];
    OneOffer(m);
    SubsequenceRefl([m]);
    NoneIsSubsequence([m]);
    assert c.queue + [] == c.queue && [] + c.queue == c.queue && [] + (c.queue + [m]) == c.queue + [m];
  }

  lemma OneOffer(m: Packet)
    ensures Offered([Offer(m)]) == [m] && Dequeued([Offer(m)]) == []
  {
    assert [Offer(m)][..0] == [];
    assert Offered([]) == [] && Dequeued([]) == [];
  }

  lemma NoneIsSubsequence(ys: seq<Packet>)
    ensures Subsequence([], ys)
  {}

  lemma {:induction false} AnswerConserves(cfg: Config, c: Client, b: seq<byte>) returns (sub: seq<Packet>)
    requires cfg.Ok() && |b| == cfg.bufSize && Bounded(c.queue, cfg.bufSize)
    ensures var (c', acts) := Answer(cfg, c, b); Conserves(c, c', acts, sub) && Bounded(c'.queue, cfg.bufSize)
  {
    hide Conserves, Enqueue, Id, GetType, GetQos, AckMessage;
    match Reply(GetType(b), GetQos(b))
    case Some((ackType, ackQos)) =>
      var id := Id(b, cfg.bufSize);
      AckBound(cfg, ackType, ackQos, id, c.messageId);
      var c1 := c.(messageId := if id == 0 then NextId(c.messageId) else c.messageId);
      sub := EnqueueConserves(cfg, c1, AckMessage(ackType, ackQos, id, cfg.bufSize, c.messageId));
      OtherId(cfg, c, c1, AckMessage(ackType, ackQos, id, cfg.bufSize, c.messageId), sub);
    case None =>
      if GetType(b) == PINGREQ {
        sub := EnqueueConserves(cfg, c, Encode(PINGRESP, 0, 0, 0, []));
      } else {
        sub := [];
        QuietConserves(c, c, []);
      }
  }

  lemma OtherId(cfg: Config, c: Client, c1: Client, m: Packet, sub: seq<Packet>)
    requires c1.queue == c.queue && Conserves(c1, Enqueue(cfg, c1, m), [Offer(m)], sub)
    ensures Conserves(c, Enqueue(cfg, c1, m), [Offer(m)], sub)
  {
    hide Enqueue, Subsequence;
  }

  lemma {:induction false} SessionConserves(cfg: Config, c: Client, data: seq<byte>) returns (sub: seq<Packet>)
    requires cfg.Ok() && |c.inBuffer| == cfg.bufSize && 0 < |data| < cfg.bufSize && Bounded(c.queue, cfg.bufSize)
    ensures var (c', acts, _) := SessionPass(cfg, c, data);
            Conserves(c, c', acts, sub) && Bounded(c'.queue, cfg.bufSize)
  {
    hide Answer, Delivery, TotalLength, GetType, Conserves, Bounded;
    var b := c.inBuffer;
    sub := AnswerConserves(cfg, c, b);
    var (c1, answers) := Answer(cfg, c, b);
    var c' := SessionPass(cfg, c, data).0;
    var more := if GetType(b) == PUBLISH then [Delivery(b, |data|)] else [];
    QuietConserves(c1, c', more);
    ConservesMore(c, c1, c', answers, more, sub, []);
    assert answers + [] == answers && sub + [] == sub;
  }

  lemma {:induction false} PassConserves(cfg: Config, c: Client, data: seq<byte>) returns (sub: seq<Packet>)
    requires cfg.Ok() && |c.inBuffer| == cfg.bufSize && Bounded(c.queue, cfg.bufSize)
    ensures var (c', acts, _) := Pass(cfg, c, data); Conserves(c, c', acts, sub) && Bounded(c'.queue, cfg.bufSize)
  {
    hide SessionPass, Conserves, Bounded, GetType;
    var (c', acts, _) := Pass(cfg, c, data);
    if 0 < |data| < cfg.bufSize && Open(c) {
      var c0 := c.(inBuffer := Overlay(c.inBuffer, data));
      sub := SessionConserves(cfg, c0, data);
      SameQueue(c0, c, c', acts, sub);
    } else {
      sub := [];
      QuietConserves(c, c', acts);
    }
  }

  lemma SameQueue(c0: Client, c: Client, c': Client, acts: seq<Act>, sub: seq<Packet>)
    requires c0.queue == c.queue && Conserves(c0, c', acts, sub)
    ensures Conserves(c, c', acts, sub)
  {
    hide Subsequence;
  }

  lemma {:induction false} PassesConserve(cfg: Config, c: Client, data: seq<byte>, rounds: nat)
      returns (sub: seq<Packet>)
    requires cfg.Ok() && |c.inBuffer| == cfg.bufSize && Bounded(c.queue, cfg.bufSize)
    ensures var (c', acts, _) := Passes(cfg, c, data, rounds);
            Conserves(c, c', acts, sub) && Bounded(c'.queue, cfg.bufSize)
    decreases rounds
  {
    hide Pass, Conserves, Bounded;
    if rounds == 0 {
      sub := [];
      QuietConserves(c, c, []);
    } else {
      sub := PassesConserve(cfg, c, data, rounds - 1);
      var (c1, acts, rest) := Passes(cfg, c, data, rounds - 1);
      if rest.Some? {
        var more := PassConserves(cfg, c1, rest.value);
        ConservesMore(c, c1, Pass(cfg, c1, rest.value).0, acts, Pass(cfg, c1, rest.value).1, sub, more);
        sub := sub + more;
      }
    }
  }

  /** Every step but those of the API, which make room: what leaves the queue was sent. */
  lemma {:induction false} StepConserves(cfg: Config, c: Client, e: Event) returns (sub: seq<Packet>)
    requires cfg.Ok() && |c.inBuffer| == cfg.bufSize && !Api(e) && Bounded(c.queue, cfg.bufSize)
    ensures var (c', acts) := Next(cfg, c, e); Conserves(c, c', acts, sub) && Bounded(c'.queue, cfg.bufSize)
  {
    if e.Recv? {
      hide Next, Passes, Bounded, Conserves;
      RecvIsPasses(cfg, c, e.segment, e.rounds);
      var c0 := c.(keepAliveTick := 0);
      sub := PassesConserve(cfg, c0, e.segment, e.rounds);
      var (c', acts, _) := Passes(cfg, c0, e.segment, e.rounds);
      SameQueue(c0, c, c', acts, sub);
    } else if e.Task? && c.connState == MqttData {
      hide Next;
      SendEffect(cfg, c, e.sendOk, e.stale);
      sub := [];
      var (c', acts) := Next(cfg, c, e);
      if acts == [] {
        QuietConserves(c, c', acts);
      } else {
        OneDequeue(c.queue[0]);
        assert [c.queue[0]] + c.queue[1..] == c.queue + [];
      }
    } else {
      hide Next, Conserves;
      QuietSteps(cfg, c, e);
      sub := [];
      QuietConserves(c, Next(cfg, c, e).0, Next(cfg, c, e).1);
    }
  }

  lemma OneDequeue(p: Packet)
    ensures Dequeued([Dequeue(p)]) == [p] && Offered([Dequeue(p)]) == []
  {
    assert [Dequeue(p)][..0] == [];
    assert Dequeued([]) == [] && Offered([]) == [];
  }
}
