/** MQTT_Client and the functions of domo/mqtt/mqtt.c that update it in place, each one step of the Session. */
module Clients {
  import opened Bytes
  import opened RingBuffers
  import opened Proto
  import opened Queues
  import opened MqttMsg
  import opened MqttDecode
  import opened Session
  import opened Receive

  lemma PingBytes()
    ensures Encode(PINGREQ, 0, 0, 0, []) == [0xC0, 0]
  {}

  lemma PingHasType()
    ensures Encode(PINGREQ, 0, 0, 0, []) != [] && GetType(Encode(PINGREQ, 0, 0, 0, [])) == PINGREQ
  {
    HeaderBits(PINGREQ, 0, 0, 0);
  }

  class MqttClient {
    const bufSize: nat
    const info: ConnectInfo
    const msgQueue: Queue
    const connection: Connection
    const inBuffer: array<byte>
    var alive: bool
    var connState: ConnState
    var pCon: bool
    var keepAliveTick: nat
    var reconnectTick: nat
    var sendTimeout: nat
    var pendingMsgType: int
    var posted: bool
    ghost var Log: seq<Act>

    ghost function Cfg(): Config { Config(bufSize, msgQueue.rb.size, info) }

    ghost predicate Valid()
      reads this, msgQueue, msgQueue.rb, msgQueue.rb.buf, connection, connection.buffer
    {
      && Cfg().Ok()
      && msgQueue.Valid() && connection.Valid()
      && inBuffer.Length == connection.buffer.Length == bufSize
      && inBuffer != connection.buffer && inBuffer != msgQueue.rb.buf && connection.buffer != msgQueue.rb.buf
    }

    ghost function Abs(): Client
      reads this, msgQueue, connection, inBuffer
    {
      Client(alive, connState, pCon, keepAliveTick, reconnectTick, sendTimeout, pendingMsgType, connection.messageId,
             posted, inBuffer[..], connection.First, msgQueue.Packets)
    }

    /** MQTT_InitConnection and MQTT_InitClient. */
    constructor (bufSize: nat, queueSize: nat, info: ConnectInfo)
      requires Config(bufSize, queueSize, info).Ok()
      ensures Valid() && Cfg() == Config(bufSize, queueSize, info)
      ensures Abs() == Session.Init(Cfg()) && Log == []
      ensures alive && connState == WifiInit && !pCon && posted && msgQueue.Packets == [] && connection.messageId == 0
      ensures keepAliveTick == reconnectTick == sendTimeout == 0
    {
      var space := new byte[bufSize](_ => 0);
      this.bufSize, this.info := bufSize, info;
      inBuffer := new byte[bufSize](_ => 0);
      connection := new Connection(space);
      msgQueue := new Queue(queueSize);
      alive, connState, pCon, posted := true, WifiInit, false, true;
      keepAliveTick, reconnectTick, sendTimeout, pendingMsgType := 0, 0, 0, 0;
      Log := [];
    }

    method Post()
      modifies this`posted
      ensures posted
    {
      posted := true;
    }

    // ------------------------------------------------------------ API

    method Publish(topic: Option<seq<byte>>, payload: seq<byte>, qos: int, retain: int) returns (ok: bool)
      requires Valid()
      modifies this, msgQueue, msgQueue.rb, msgQueue.rb.buf, connection, connection.buffer
      ensures Valid()
      ensures var r := PublishStep(Cfg(), old(Abs()), Event.Publish(topic, payload, qos, retain));
              Abs() == r.0 && Log == old(Log) + r.1
      ensures var m := PublishMessage(topic, payload, qos, retain, bufSize, old(connection.messageId));
              && ok == (m != [] && |m| + 2 <= msgQueue.rb.size)
              && (ok ==> Pushed(old(msgQueue.Packets), msgQueue.Packets, m, |m| + 2, msgQueue.rb.size))
              && (m == [] ==> msgQueue.Packets == old(msgQueue.Packets))
      ensures posted == (old(posted) || ok)
    {
      hide PublishMessage, PublishCounter, Kept, Frames, Window;
      var _ := connection.Publish(topic, payload, qos, retain);
      assert Log + [] == Log;
      if connection.length == 0 { return false; }
      var m := connection.Message();
      ok := PutsIfLucky(msgQueue, m, bufSize);
      if !ok { return false; }
      Log := Log + [Offer(m)];
      Post();
      return true;
    }

    /** The common end of MQTT_Subscribe, MQTT_UnSubscribe and MQTT_Ping: the message just built goes to the queue. */
    method QueueOrDrop() returns (ok: bool)
      requires Valid()
      modifies this, msgQueue, msgQueue.rb, msgQueue.rb.buf
      ensures Valid()
      ensures var r := Retry(Cfg(), old(Abs()), connection.Message()); Abs() == r.0 && Log == old(Log) + r.1
      ensures var m := connection.Message();
              && ok == (|Frame(m)| <= msgQueue.rb.size)
              && (ok ==> Pushed(old(msgQueue.Packets), msgQueue.Packets, m, |Frame(m)|, msgQueue.rb.size))
              && (ok ==> m in msgQueue.Packets)
      ensures posted == (old(posted) || ok)
    {
      hide Pushed, Kept, Frame, Queue.Valid, Connection.Valid, Config.Ok;
      var m := connection.Message();
      ok := PutsOrDrop(msgQueue, m, bufSize);
      Log := Log + [Offer(m)];
      if ok { Post(); }
    }

    method Subscribe(topic: Option<seq<byte>>, qos: byte) returns (ok: bool)
      requires Valid()
      modifies this, msgQueue, msgQueue.rb, msgQueue.rb.buf, connection, connection.buffer
      ensures Valid()
      ensures var r := SubscribeStep(Cfg(), old(Abs()), SUBSCRIBE, topic, Some(qos));
              Abs() == r.0 && Log == old(Log) + r.1
      ensures var m := SubscribeMessage(SUBSCRIBE, topic, Some(qos), bufSize, old(connection.messageId));
              && ok == (|Frame(m)| <= msgQueue.rb.size)
              && (ok ==> Pushed(old(msgQueue.Packets), msgQueue.Packets, m, |Frame(m)|, msgQueue.rb.size))
              && (ok ==> m in msgQueue.Packets)
      ensures posted == (old(posted) || ok)
    {
      hide SubscribeMessage, Kept, Frames, Window;
      var _ := connection.Subscribe(SUBSCRIBE, topic, Some(qos));
      ok := QueueOrDrop();
    }

    method Unsubscribe(topic: Option<seq<byte>>) returns (ok: bool)
      requires Valid()
      modifies this, msgQueue, msgQueue.rb, msgQueue.rb.buf, connection, connection.buffer
      ensures Valid()
      ensures var r := SubscribeStep(Cfg(), old(Abs()), UNSUBSCRIBE, topic, None);
              Abs() == r.0 && Log == old(Log) + r.1
      ensures var m := SubscribeMessage(UNSUBSCRIBE, topic, None, bufSize, old(connection.messageId));
              && ok == (|Frame(m)| <= msgQueue.rb.size)
              && (ok ==> Pushed(old(msgQueue.Packets), msgQueue.Packets, m, |Frame(m)|, msgQueue.rb.size))
              && (ok ==> m in msgQueue.Packets)
      ensures posted == (old(posted) || ok)
    {
      hide SubscribeMessage, Kept, Frames, Window;
      var _ := connection.Subscribe(UNSUBSCRIBE, topic, None);
      ok := QueueOrDrop();
    }

    method Ping() returns (ok: bool)
      requires Valid()
      modifies this, msgQueue, msgQueue.rb, msgQueue.rb.buf, connection, connection.buffer
      ensures Valid()
      ensures var r := Retry(Cfg(), old(Abs()), Encode(PINGREQ, 0, 0, 0, []));
              Abs() == r.0 && Log == old(Log) + r.1
      ensures var m: Packet := [0xC0, 0];
              && ok == (|Frame(m)| <= msgQueue.rb.size)
              && (ok ==> Pushed(old(msgQueue.Packets), msgQueue.Packets, m, |Frame(m)|, msgQueue.rb.size))
              && (ok ==> m in msgQueue.Packets)
      ensures posted == (old(posted) || ok)
    {
      hide Kept, Frames, Window, Encode;
      PingBytes();
      var _ := BuildPing(PINGREQ);
      ok := QueueOrDrop();
    }

    /** mqtt_tcpclient_delete. */
    method DeleteTcp()
      modifies this`pCon, this`Log
      ensures var r := CloseCon(old(Abs())); Abs() == r.0 && Log == old(Log) + r.1
    {
      assert Log + [] == Log;
      if pCon {
        pCon := false;
        Log := Log + [Closed];
      }
    }

    /** MQTT_Connect. */
    method Connect()
      modifies this`pCon, this`keepAliveTick, this`reconnectTick, this`connState, this`Log
      ensures var r := ConnectStep(old(Abs())); Abs() == r.0 && Log == old(Log) + r.1
    {
      ghost var was := Log;
      if pCon { DeleteTcp(); }
      pCon := true;
      Log := Log + [Opened];
      assert [] + [Opened] == [Opened] && was + [Closed] + [Opened] == was + ([Closed] + [Opened]);
      keepAliveTick, reconnectTick := 0, 0;
      connState := TcpConnecting;
    }

    /** MQTT_Disconnect. */
    method Disconnect()
      modifies this`connState, this`posted
      ensures Abs() == DisconnectStep(old(Abs()))
    {
      connState := TcpDisconnecting;
      Post();
    }

    /** MQTT_DeleteClient. */
    method DeleteClient()
      modifies this`connState, this`posted
      ensures Abs() == DeleteStep(old(Abs()))
    {
      connState := MqttDeleted;
      Post();
    }

    // ------------------------------------------------------------ timer and task

    /** mqtt_timer. */
    method Timer()
      modifies this`connState, this`posted, this`keepAliveTick, this`reconnectTick, this`sendTimeout, this`Log
      ensures Abs() == TimerStep(Cfg(), old(Abs())) && Log == old(Log) + [Tick]
      ensures old(connState) == MqttData ==>
                && keepAliveTick == old(keepAliveTick) + 1
                && (if keepAliveTick > info.keepalive / 2 then connState == MqttKeepaliveSend && posted
                    else connState == MqttData)
      ensures old(connState) == TcpReconnectReq ==>
                if old(reconnectTick) >= MQTT_RECONNECT_TIMEOUT
                then connState == TcpReconnect && posted && reconnectTick == 0
                else connState == TcpReconnectReq && reconnectTick == old(reconnectTick) + 1
      ensures sendTimeout == if old(sendTimeout) == 0 then 0 else old(sendTimeout) - 1
    {
      if connState == MqttData {
        keepAliveTick := keepAliveTick + 1;
        if keepAliveTick > info.keepalive / 2 {
          connState := MqttKeepaliveSend;
          Post();
        }
      } else if connState == TcpReconnectReq {
        reconnectTick := reconnectTick + 1;
        if reconnectTick > MQTT_RECONNECT_TIMEOUT {
          reconnectTick := 0;
          connState := TcpReconnect;
          Post();
        }
      }
      if sendTimeout > 0 { sendTimeout := sendTimeout - 1; }
      Log := Log + [Tick];
    }

    /** mqtt_msg_pingreq or mqtt_msg_pingresp in the output buffer. */
    method BuildPing(type_: int) returns (m: Packet)
      requires Valid()
      modifies connection, connection.buffer
      ensures Valid() && Abs() == old(Abs())
      ensures m == connection.Message() == Encode(type_, 0, 0, 0, [])
    {
      hide Encode, Queue.Valid;
      connection.Ping(type_);
      m := connection.Message();
    }

    /** mqtt_send_keepalive; `sendOk` is what espconn_send returns. */
    method SendKeepalive(sendOk: bool)
      requires Valid()
      modifies this`pendingMsgType, this`sendTimeout, this`keepAliveTick, this`connState, this`posted, this`Log,
               connection, connection.buffer
      ensures Valid()
      ensures var r := KeepaliveStep(old(Abs()), sendOk); Abs() == r.0 && Log == old(Log) + r.1
    {
      hide Encode, Queue.Valid, Connection.Valid, Config.Ok;
      var m := BuildPing(PINGREQ);
      PingHasType();
      pendingMsgType := GetType(m);
      sendTimeout := MQTT_SEND_TIMOUT;
      Log := Log + [SendPing(m)];
      if sendOk {
        keepAliveTick := 0;
        connState := MqttData;
      } else {
        connState := TcpReconnectDisconnecting;
      }
      Post();
    }

    /** The TCP_RECONNECT case of MQTT_Task. */
    method Reopen()
      modifies this`pCon, this`keepAliveTick, this`reconnectTick, this`connState, this`Log
      ensures Abs() == ConnectStep(CloseCon(old(Abs())).0).0
      ensures Log == old(Log) + (CloseCon(old(Abs())).1 + ConnectStep(CloseCon(old(Abs())).0).1)
    {
      ghost var was := Log;
      DeleteTcp();
      Connect();
      assert [] + [Opened] == [Opened] && was + [Closed] + [Opened] == was + ([Closed] + [Opened]);
    }

    /** The MQTT_DATA case of MQTT_Task. `stale` is what dataBuffer held before. */
    method SendQueued() returns (ghost stale: byte)
      requires Valid()
      modifies this, msgQueue, msgQueue.rb
      ensures Valid()
      ensures var r := DataStep(Cfg(), old(Abs()), stale); Abs() == r.0 && Log == old(Log) + r.1
      ensures if old(msgQueue.Packets) != [] && old(sendTimeout) == 0 then
                && Log == old(Log) + [Dequeue(Limit(old(msgQueue.Packets)[0], bufSize))]
                && msgQueue.Packets == old(msgQueue.Packets)[1..] && sendTimeout == MQTT_SEND_TIMOUT
              else Log == old(Log) && msgQueue.Packets == old(msgQueue.Packets)
    {
      hide Frames, Window;
      var dataBuffer := new byte[bufSize];
      stale := dataBuffer[0];
      assert Log + [] == Log;
      var empty := msgQueue.IsEmpty();
      if empty || sendTimeout != 0 { return; }
      var got, dataLen := msgQueue.Gets(dataBuffer, bufSize);
      if got {
        pendingMsgType := dataBuffer[0] / 16;
        stale := dataBuffer[0];
        sendTimeout := MQTT_SEND_TIMOUT;
        Log := Log + [Dequeue(dataBuffer[..dataLen])];
      }
    }

    /** MQTT_Task on an event that was posted. */
    method Task(sendOk: bool) returns (ghost stale: byte)
      requires Valid() && posted
      modifies this, msgQueue, msgQueue.rb, connection, connection.buffer
      ensures Valid()
      ensures var r := TaskStep(Cfg(), old(Abs()), sendOk, stale); Abs() == r.0 && Log == old(Log) + r.1
      ensures old(connState) == MqttData && old(msgQueue.Packets) != [] && old(sendTimeout) == 0 ==>
                && Log == old(Log) + [Dequeue(Limit(old(msgQueue.Packets)[0], bufSize))]
                && msgQueue.Packets == old(msgQueue.Packets)[1..] && sendTimeout == MQTT_SEND_TIMOUT
    {
      hide Encode, DataStep, KeepaliveStep, Limit, Queue.Valid, Connection.Valid, Config.Ok;
      posted := false;
      stale := 0;
      assert Log + [] == Log;
      match connState
      case TcpReconnect => Reopen();
      case TcpDisconnected => DeleteTcp();
      case MqttDeleted =>
        DeleteTcp();
        alive, connState := false, WifiInit;
      case MqttKeepaliveSend => SendKeepalive(sendOk);
      case MqttData => stale := SendQueued();
      case _ =>
    }

    // ------------------------------------------------------------ espconn callbacks

    /** CONNECT in the output buffer, and the type that `mqtt_get_type` finds at message.data. */
    method BuildConnect() returns (m: Packet, type_: int)
      requires Valid()
      modifies connection, connection.buffer
      ensures Valid() && m == ConnectMessage(info, bufSize)
      ensures type_ == if m == [] then old(connection.First) / 16 else GetType(m)
      ensures Abs() == old(Abs()).(messageId := 0, outByte := FirstByte(old(connection.First), m))
    {
      hide ConnectMessage, Queue.Valid;
      connection.Init();
      connection.Connect(info);
      m := connection.Message();
      type_ := connection.buffer[connection.data] / 16;
    }

    /** mqtt_tcpclient_connect_cb. */
    method ConnectCb()
      requires Valid()
      modifies this`pendingMsgType, this`sendTimeout, this`connState, this`posted, this`Log,
               connection, connection.buffer
      ensures Valid()
      ensures var r := ConnectCbStep(Cfg(), old(Abs())); Abs() == r.0 && Log == old(Log) + r.1
    {
      hide ConnectMessage, Queue.Valid, Connection.Valid, Config.Ok;
      var m, type_ := BuildConnect();
      pendingMsgType := type_;
      sendTimeout := MQTT_SEND_TIMOUT;
      Log := Log + [SendConnect(m)];
      connState := MqttConnectSending;
      Post();
    }

    /** mqtt_tcpclient_discon_cb. */
    method DisconCb()
      modifies this`connState, this`posted
      ensures Abs() == DisconCbStep(old(Abs()))
    {
      if connState == TcpDisconnecting {
        connState := TcpDisconnected;
      } else if connState == MqttDeleting {
        connState := MqttDeleted;
      } else {
        connState := TcpReconnectReq;
      }
      Post();
    }

    /** mqtt_tcpclient_recon_cb. */
    method ReconCb()
      modifies this`connState, this`posted
      ensures Abs() == ReconCbStep(old(Abs()))
    {
      connState := TcpReconnectReq;
      Post();
    }

    /** mqtt_dns_found: the address that came back, if any, and what the resolver left in `client->ip`. */
    method DnsFound(addr: Option<nat>, ip: nat)
      modifies this`connState, this`posted
      ensures Abs() == DnsFoundStep(old(Abs()), addr, ip)
    {
      if addr.None? {
        connState := TcpReconnectReq;
        return;
      }
      if ip == 0 && addr.value != 0 { connState := TcpConnecting; }
      Post();
    }

    /** mqtt_tcpclient_sent_cb. */
    method SentCb()
      modifies this`sendTimeout, this`keepAliveTick, this`posted, this`Log
      ensures Abs() == SentCbStep(old(Abs())) && Log == old(Log) + [Sent]
    {
      sendTimeout, keepAliveTick := 0, 0;
      Log := Log + [Sent];
      Post();
    }

    /** Build an answer and put it into the queue, as every answering case of the receive callback does. */
    method PutMessage()
      requires Valid()
      modifies this`Log, msgQueue, msgQueue.rb, msgQueue.rb.buf
      ensures Valid()
      ensures Abs() == Enqueue(Cfg(), old(Abs()), connection.Message())
      ensures Log == old(Log) + [Offer(connection.Message())]
    {
      var m := connection.Message();
      Log := Log + [Offer(m)];
      var _ := msgQueue.Puts(m);
    }

    /** An acknowledgement, built and put. */
    method Acknowledge(type_: int, qos: int, msgId: u16)
      requires Valid()
      modifies this`Log, msgQueue, msgQueue.rb, msgQueue.rb.buf, connection, connection.buffer
      ensures Valid()
      ensures var m, was := AckMessage(type_, qos, msgId, bufSize, old(connection.messageId)), old(Abs());
              var id := if msgId == 0 then NextId(was.messageId) else was.messageId;
              && Abs() == Enqueue(Cfg(), was.(messageId := id), m)
              && Log == old(Log) + [Offer(m)]
    {
      hide AckMessage, Enqueue, Queue.Valid;
      connection.Ack(type_, qos, msgId);
      PutMessage();
    }

    /** The packets that the receive callback queues for the packet in in_buffer. */
    method AnswerIn(msgId: u16)
      requires Valid() && msgId == Id(inBuffer[..], bufSize)
      modifies this`Log, msgQueue, msgQueue.rb, msgQueue.rb.buf, connection, connection.buffer
      ensures Valid()
      ensures var r := Answer(Cfg(), old(Abs()), inBuffer[..]); Abs() == r.0 && Log == old(Log) + r.1
    {
      hide Id, Encode, AckMessage, Enqueue, Queue.Valid, Connection.Valid;
      var type_, qos := GetType(inBuffer[..]), GetQos(inBuffer[..]);
      assert Log + [] == Log;
      if type_ == PUBLISH {
        if qos == 1 {
          Acknowledge(PUBACK, 0, msgId);
        } else if qos == 2 {
          Acknowledge(PUBREC, 0, msgId);
        }
      } else if type_ == PUBREC {
        Acknowledge(PUBREL, 1, msgId);
      } else if type_ == PUBREL {
        Acknowledge(PUBCOMP, 0, msgId);
      } else if type_ == PINGREQ {
        var _ := BuildPing(PINGRESP);
        PutMessage();
      }
    }

    /** deliver_publish: the call of dataCb. */
    method DeliverPublish(length: nat)
      requires 0 < length <= inBuffer.Length
      modifies this`Log
      ensures Log == old(Log) + [Delivery(inBuffer[..], length)]
    {
      hide VarEnd, TotalLength, WordOf;
      var topicPtr, topicLen := GetPublishTopic(inBuffer[..], length);
      var dataPtr, dataLen := GetPublishData(inBuffer[..], length);
      var topic := match topicPtr case None => None case Some(i) => Some(inBuffer[i..i + topicLen]);
      var payload := match dataPtr case None => [] case Some(i) => inBuffer[i..i + dataLen];
      Log := Log + [Deliver(topic, payload)];
    }

    /** The MQTT_DATA and MQTT_KEEPALIVE_SEND case of a pass, on the `len` bytes copied into in_buffer. */
    method ReadInSession(pdata: seq<byte>, msgId: u16) returns (more: Option<seq<byte>>)
      requires Valid() && 0 < |pdata| < bufSize && pdata <= inBuffer[..] && msgId == Id(inBuffer[..], bufSize)
      modifies this, msgQueue, msgQueue.rb, msgQueue.rb.buf, connection, connection.buffer
      ensures Valid()
      ensures var r := SessionPass(Cfg(), old(Abs()), pdata); Abs() == r.0 && Log == old(Log) + r.1 && more == r.2
    {
      hide Id, Answer, Delivery, TotalLength, Window, Frames;
      var messageLengthRead := |pdata|;
      var total := GetTotalLength(inBuffer[..], messageLengthRead);
      var messageLength := total % 0x1_0000;
      ghost var was := Log;
      AnswerIn(msgId);
      ghost var acts := Answer(Cfg(), old(Abs()), inBuffer[..]).1;
      if GetType(inBuffer[..]) == PUBLISH {
        DeliverPublish(messageLengthRead);
        ConcatAssoc(was, acts, [Delivery(inBuffer[..], messageLengthRead)]);
        if messageLength < messageLengthRead { return Some(pdata[messageLength..]); }
      }
      Post();
      return None;
    }

    /** os_memcpy into in_buffer. */
    method CopyIn(pdata: seq<byte>)
      requires Valid() && |pdata| < bufSize
      modifies inBuffer
      ensures Valid() && Abs() == old(Abs()).(inBuffer := Overlay(old(inBuffer[..]), pdata)) && pdata <= inBuffer[..]
    {
      hide Queue.Valid, Connection.Valid;
      forall i | 0 <= i < |pdata| { inBuffer[i] := pdata[i]; }
      assert inBuffer[..] == Overlay(old(inBuffer[..]), pdata);
    }

    /** The switch on the connection state. */
    method ReadCopied(pdata: seq<byte>) returns (more: Option<seq<byte>>)
      requires Valid() && 0 < |pdata| < bufSize && pdata <= inBuffer[..]
      modifies this, msgQueue, msgQueue.rb, msgQueue.rb.buf, connection, connection.buffer
      ensures Valid()
      ensures var r := Read(Cfg(), old(Abs()), pdata); Abs() == r.0 && Log == old(Log) + r.1 && more == r.2
    {
      hide Id, SessionPass, GetType, Queue.Valid, Connection.Valid;
      assert Log + [] == Log;
      var msgId := GetId(inBuffer[..], bufSize);
      if connState == MqttData || connState == MqttKeepaliveSend {
        more := ReadInSession(pdata, msgId);
        return;
      }
      if connState == MqttConnectSending {
        if GetType(inBuffer[..]) == CONNACK && pendingMsgType == CONNECT && inBuffer[3] == 0 {
          connState := MqttData;
          Log := Log + [Connack(pdata, inBuffer[..])];
        }
      }
      Post();
      return None;
    }

    /** One pass of mqtt_tcpclient_recv from READPACKET on; `more` when it ends in the goto. */
    method ReadPacket(pdata: seq<byte>) returns (more: Option<seq<byte>>)
      requires Valid()
      modifies this, inBuffer, msgQueue, msgQueue.rb, msgQueue.rb.buf, connection, connection.buffer
      ensures Valid()
      ensures var r := Pass(Cfg(), old(Abs()), pdata); Abs() == r.0 && Log == old(Log) + r.1 && more == r.2
    {
      hide Read, Queue.Valid, Connection.Valid;
      assert Log + [] == Log;
      if !(0 < |pdata| < bufSize) {
        Post();
        return None;
      }
      CopyIn(pdata);
      more := ReadCopied(pdata);
    }

    /**
     * mqtt_tcpclient_recv, watched for `rounds` passes of its loop; `rest` is what is left to read if it has not ended
     * by then.
     */
    method Watch(segment: seq<byte>, rounds: nat) returns (rest: Option<seq<byte>>)
      requires Valid()
      modifies this, inBuffer, msgQueue, msgQueue.rb, msgQueue.rb.buf, connection, connection.buffer
      ensures Valid()
      ensures var r := Passes(Cfg(), old(Abs()).(keepAliveTick := 0), segment, rounds);
              Abs() == r.0 && Log == old(Log) + r.1 && rest == r.2
    {
      hide Pass, Passes, Queue.Valid, Connection.Valid;
      keepAliveTick := 0;
      ghost var start, startLog := Abs(), Log;
      var k := 0;
      assert Log + [] == Log;
      NoPasses(Cfg(), start, segment);
      rest := Some(segment);
      while rest.Some? && k < rounds
        invariant Valid() && k <= rounds
        invariant var r := Passes(Cfg(), start, segment, k); Abs() == r.0 && Log == startLog + r.1 && rest == r.2
      {
        OnePassMore(Cfg(), start, segment, k);
        ConcatAssoc(startLog, Passes(Cfg(), start, segment, k).1, Pass(Cfg(), Abs(), rest.value).1);
        rest := ReadPacket(rest.value);
        k := k + 1;
      }
      if rest.None? { PassesSettle(Cfg(), start, segment, k, rounds); }
    }

    /** mqtt_tcpclient_recv, on a segment at which its loop ends: no more passes than the segment has bytes, and one. */
    method Recv(segment: seq<byte>)
      requires Valid() && (connState == MqttData || connState == MqttKeepaliveSend ==> Halts(segment, bufSize))
      modifies this, inBuffer, msgQueue, msgQueue.rb, msgQueue.rb.buf, connection, connection.buffer
      ensures Valid()
      ensures forall n: nat | n > |segment| ::
                var r := Passes(Cfg(), old(Abs()).(keepAliveTick := 0), segment, n);
                Abs() == r.0 && Log == old(Log) + r.1 && r.2.None?
    {
      hide Passes, Halts, Queue.Valid, Connection.Valid;
      ghost var start := Abs().(keepAliveTick := 0);
      HaltingShrinks(Cfg(), start, segment, |segment| + 1);
      var _ := Watch(segment, |segment| + 1);
      forall n: nat | n > |segment|
        ensures Passes(Cfg(), start, segment, n) == Passes(Cfg(), start, segment, |segment| + 1)
      {
        PassesSettle(Cfg(), start, segment, |segment| + 1, n);
      }
    }
  }

  /** MQTT_InitClient in the build with the 3.1 protocol name, which refuses a client without an identifier. */
  method InitClient(bufSize: nat, queueSize: nat, info: ConnectInfo) returns (client: MqttClient?)
    requires Config(bufSize, queueSize, info).Ok()
    ensures client == null <==> info.clientId.None?
    ensures client != null ==>
              && fresh(client) && client.Valid() && client.Cfg() == Config(bufSize, queueSize, info)
              && client.Abs() == Session.Init(client.Cfg()) && client.Log == []
  {
    if info.clientId.None? { return null; }
    client := new MqttClient(bufSize, queueSize, info);
  }
}
