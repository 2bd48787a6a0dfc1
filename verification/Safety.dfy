/** More of what holds over every run of the MQTT client: sessions, keep alive and wake-up, pacing. */
module Safety {
  import opened Bytes
  import opened Queues
  import opened MqttMsg
  import opened MqttDecode
  import opened Session
  import opened Runs

  // ---------------------------------------------------------------- sessions

  /** The connection object stayed the same from act `i` on. */
  ghost predicate SameCon(log: seq<Act>, i: nat) {
    forall k | i <= k < |log| :: !log[k].Opened? && !log[k].Closed?
  }

  /** The client's CONNECT could be built. */
  predicate Built(cfg: Config)
    requires cfg.Ok()
  {
    ConnectMessage(cfg.info, cfg.bufSize) != []
  }

  /** CONNECT, a whole packet, went out on the current connection object, at act `i`. */
  ghost predicate ConnectOut(cfg: Config, log: seq<Act>, i: nat)
    requires cfg.Ok()
  {
    Built(cfg) && i < |log| && log[i] == SendConnect(ConnectMessage(cfg.info, cfg.bufSize)) && SameCon(log, i)
  }

  /** A segment that begins like a CONNACK and that the client took for an accepting one. */
  ghost predicate Accepts(a: Act) {
    && a.Connack? && a.segment != [] && GetType(a.segment) == CONNACK
    && |a.segment| <= |a.buffer| && |a.buffer| > 3
    && (if |a.segment| > 3 then a.segment[3] else a.buffer[3]) == 0
  }

  /** An accepting CONNACK that carries its return code itself. */
  ghost predicate AcceptsItself(a: Act) {
    a.Connack? && |a.segment| > 3 && GetType(a.segment) == CONNACK && a.segment[3] == 0
  }

  /** After its CONNECT went out, an accepting CONNACK came in on the current connection object. */
  ghost predicate InSession(cfg: Config, log: seq<Act>)
    requires cfg.Ok()
  {
    exists i: nat, j: nat :: i < j < |log| && ConnectOut(cfg, log, i) && Accepts(log[j])
  }

  predicate Plain(a: Act) { !a.Opened? && !a.Closed? }

  lemma {:induction false} SessionLasts(cfg: Config, log: seq<Act>, acts: seq<Act>)
    requires cfg.Ok() && forall a | a in acts :: Plain(a)
    ensures forall i: nat :: ConnectOut(cfg, log, i) ==> ConnectOut(cfg, log + acts, i)
    ensures InSession(cfg, log) ==> InSession(cfg, log + acts)
  {
    hide ConnectMessage;
    forall i: nat | ConnectOut(cfg, log, i) ensures ConnectOut(cfg, log + acts, i) {
      forall k | i <= k < |log + acts| ensures Plain((log + acts)[k]) {
        if k >= |log| { assert (log + acts)[k] == acts[k - |log|]; }
      }
    }
    if InSession(cfg, log) {
      var i: nat, j: nat :| i < j < |log| && ConnectOut(cfg, log, i) && Accepts(log[j]);
      assert ConnectOut(cfg, log + acts, i) && (log + acts)[j] == log[j];
    }
  }

  predicate Sends(a: Act) { a.Dequeue? || a.SendPing? }

  ghost predicate Sessions(cfg: Config, c: Client, log: seq<Act>)
    requires cfg.Ok()
  {
    && (!Built(cfg) ==> c.outByte / 16 != CONNECT)
    && (c.connState == MqttConnectSending ==>
          c.con && (c.pendingType == CONNECT ==> exists i: nat :: ConnectOut(cfg, log, i)))
    && (c.connState == MqttData || c.connState == MqttKeepaliveSend ==> c.con && InSession(cfg, log))
    && forall k: nat | k < |log| && Sends(log[k]) :: InSession(cfg, log[..k])
  }

  lemma {:induction false} SendsPersist(cfg: Config, log: seq<Act>, acts: seq<Act>)
    requires cfg.Ok()
    requires forall k: nat | k < |log| && Sends(log[k]) :: InSession(cfg, log[..k])
    requires forall a | a in acts :: Sends(a) ==> acts == [a] && InSession(cfg, log)
    ensures forall k: nat | k < |log + acts| && Sends((log + acts)[k]) :: InSession(cfg, (log + acts)[..k])
  {
    hide InSession;
    forall k: nat | k < |log + acts| && Sends((log + acts)[k]) ensures InSession(cfg, (log + acts)[..k]) {
      if k < |log| {
        assert (log + acts)[..k] == log[..k];
      } else {
        assert (log + acts)[k] == acts[k - |log|] && acts[k - |log|] in acts;
        assert (log + acts)[..k] == log;
      }
    }
  }

  lemma {:induction false} PassSessions(cfg: Config, c: Client, log: seq<Act>, data: seq<byte>)
    requires cfg.Ok() && |c.inBuffer| == cfg.bufSize && Sessions(cfg, c, log)
    ensures var (c', acts, _) := Pass(cfg, c, data); Sessions(cfg, c', log + acts)
  {
    hide ConnectOut, ConnectMessage, Answer, Delivery;
    var (c', acts, _) := Pass(cfg, c, data);
    AnswerKeeps(cfg, c.(inBuffer := c'.inBuffer));
    SessionLasts(cfg, log, acts);
    SendsPersist(cfg, log, acts);
    if c.connState == MqttConnectSending && c'.connState == MqttData {
      var i: nat :| ConnectOut(cfg, log, i);
      OutIsInLog(cfg, log, i);
      var j := |log|;
      assert (log + acts)[j] == acts[0] && Accepts(acts[0]);
      assert i < j < |log + acts| && ConnectOut(cfg, log + acts, i) && Accepts((log + acts)[j]);
    }
  }

  lemma OutIsInLog(cfg: Config, log: seq<Act>, i: nat)
    requires cfg.Ok() && ConnectOut(cfg, log, i)
    ensures i < |log|
  {}

  lemma {:induction false} PassesSessions(cfg: Config, c: Client, log: seq<Act>, data: seq<byte>, rounds: nat)
    requires cfg.Ok() && |c.inBuffer| == cfg.bufSize && Sessions(cfg, c, log)
    ensures var (c', acts, _) := Passes(cfg, c, data, rounds); Sessions(cfg, c', log + acts)
    decreases rounds
  {
    hide Sessions, Pass;
    assert log + [] == log;
    if rounds > 0 {
      PassesSessions(cfg, c, log, data, rounds - 1);
      var (c1, acts, rest) := Passes(cfg, c, data, rounds - 1);
      if rest.Some? {
        PassSessions(cfg, c1, log + acts, rest.value);
        ConcatAssoc(log, acts, Pass(cfg, c1, rest.value).1);
      }
    }
  }

  /** A step that sends only inside a session, and enters the states of a session only from within or by CONNECT. */
  ghost predicate Shaped(cfg: Config, c: Client, c': Client, acts: seq<Act>)
    requires cfg.Ok()
  {
    && (forall a | a in acts && Sends(a) :: acts == [a] && c.connState in {MqttData, MqttKeepaliveSend})
    && (c'.connState in {MqttData, MqttKeepaliveSend, MqttConnectSending} ==>
          c'.con == c.con && forall a | a in acts :: Plain(a))
    && (c'.connState in {MqttData, MqttKeepaliveSend} ==> c.connState in {MqttData, MqttKeepaliveSend})
    && (c'.connState == MqttConnectSending ==>
          || (c.connState == MqttConnectSending && c'.pendingType == c.pendingType)
          || (c.con && acts == [SendConnect(ConnectMessage(cfg.info, cfg.bufSize))]
              && (!Built(cfg) ==> c'.pendingType == c.outByte / 16)))
    && (!Built(cfg) && c.outByte / 16 != CONNECT ==> c'.outByte / 16 != CONNECT)
  }

  lemma HeaderType(type_: int, dup: int, qos: int, retain: int)
    requires 0 <= type_ < 16
    ensures HeaderByte(type_, dup, qos, retain) / 16 == type_
  {}

  /** Building a packet other than CONNECT leaves no CONNECT type in the first byte of the output buffer. */
  lemma {:induction false} NoConnectByte(before: byte, type_: int, dup: int, qos: int, retain: int, body: seq<byte>)
    requires 0 <= type_ < 16 && type_ != CONNECT && before / 16 != CONNECT
    ensures FirstByte(before, Encode(type_, dup, qos, retain, body)) / 16 != CONNECT
  {
    HeaderType(type_, dup, qos, retain);
  }

  lemma {:induction false} TaskShaped(cfg: Config, c: Client, sendOk: bool, stale: byte)
    requires cfg.Ok()
    ensures var (c', acts) := TaskStep(cfg, c, sendOk, stale); Shaped(cfg, c, c', acts)
  {
    hide Built, ConnectMessage, Encode, DataStep, KeepaliveStep;
    match c.connState
    case MqttKeepaliveSend => KeepaliveShaped(cfg, c.(posted := false), sendOk);
    case MqttData => DataShaped(cfg, c.(posted := false), stale);
    case _ =>
  }

  lemma {:induction false} KeepaliveShaped(cfg: Config, c: Client, sendOk: bool)
    requires cfg.Ok() && c.connState == MqttKeepaliveSend
    ensures var (c', acts) := KeepaliveStep(c, sendOk); Shaped(cfg, c, c', acts)
  {
    hide Built, ConnectMessage, Encode;
  }

  lemma {:induction false} DataShaped(cfg: Config, c: Client, stale: byte)
    requires cfg.Ok() && c.connState == MqttData
    ensures var (c', acts) := DataStep(cfg, c, stale); Shaped(cfg, c, c', acts)
  {
    hide Built, ConnectMessage;
  }

  lemma {:induction false} PublishShaped(cfg: Config, c: Client, e: Event)
    requires cfg.Ok() && e.Publish?
    ensures var (c', acts) := PublishStep(cfg, c, e); Shaped(cfg, c, c', acts)
  {
    hide ConnectMessage, PublishCounter, PublishBody, Encode, Kept, Frames, FirstByte;
    var m := PublishMessage(e.topic, e.payload, e.qos, e.retain, cfg.bufSize, c.messageId);
    if c.outByte / 16 != CONNECT {
      if m == [] {
        NothingBuilt(c.outByte);
      } else {
        NoConnectByte(c.outByte, PUBLISH, 0, e.qos, e.retain,
                      PublishBody(e.topic.value, e.payload, e.qos, NextId(c.messageId)));
      }
    }
  }

  lemma NothingBuilt(before: byte)
    ensures FirstByte(before, []) == before
  {}

  lemma {:induction false} RetryKeeps(cfg: Config, c: Client, m: Packet)
    ensures var (c', acts) := Retry(cfg, c, m);
            c' == c.(queue := c'.queue, posted := c'.posted) && acts == [Offer(m)]
  {
    hide Kept;
  }

  lemma {:induction false} SubscribeShaped(cfg: Config, c: Client, type_: int, topic: Option<seq<byte>>,
                                           qos: Option<byte>)
    requires cfg.Ok() && type_ in {SUBSCRIBE, UNSUBSCRIBE}
    ensures var (c', acts) := SubscribeStep(cfg, c, type_, topic, qos); Shaped(cfg, c, c', acts)
  {
    hide ConnectMessage, SubscribeBody, Encode, Retry, FirstByte;
    var m := SubscribeMessage(type_, topic, qos, cfg.bufSize, c.messageId);
    RetryKeeps(cfg, Requested(c, topic, m), m);
    if c.outByte / 16 != CONNECT {
      if m == [] {
        NothingBuilt(c.outByte);
      } else {
        NoConnectByte(c.outByte, type_, 0, 1, 0, SubscribeBody(topic.value, qos, NextId(c.messageId)));
      }
    }
  }

  lemma {:induction false} PingShaped(cfg: Config, c: Client)
    requires cfg.Ok()
    ensures var (c', acts) := Retry(cfg, c, Encode(PINGREQ, 0, 0, 0, [])); Shaped(cfg, c, c', acts)
  {
    hide ConnectMessage, Encode, Retry;
    RetryKeeps(cfg, c, Encode(PINGREQ, 0, 0, 0, []));
  }

  lemma {:induction false} ConnectCbShaped(cfg: Config, c: Client)
    requires cfg.Ok() && c.con
    ensures var (c', acts) := ConnectCbStep(cfg, c); Shaped(cfg, c, c', acts)
  {
    hide ConnectMessage;
    if !Built(cfg) { NothingBuilt(c.outByte); }
  }

  lemma {:induction false} StepShaped(cfg: Config, c: Client, e: Event)
    requires cfg.Ok() && |c.inBuffer| == cfg.bufSize && Enabled(c, e) && !e.Recv?
    ensures var (c', acts) := Next(cfg, c, e); Shaped(cfg, c, c', acts)
  {
    hide TaskStep, PublishStep, SubscribeStep, Retry, ConnectCbStep, ConnectMessage, Encode;
    if e.Task? || e.Publish? || e.Subscribe? || e.Unsubscribe? || e.Ping? || e.ConnectCb? {
      hide Shaped;
      match e
      case Task(sendOk, stale) => TaskShaped(cfg, c, sendOk, stale);
      case Publish(_, _, _, _) => PublishShaped(cfg, c, e);
      case Subscribe(topic, qos) => SubscribeShaped(cfg, c, SUBSCRIBE, topic, Some(qos));
      case Unsubscribe(topic) => SubscribeShaped(cfg, c, UNSUBSCRIBE, topic, None);
      case Ping => PingShaped(cfg, c);
      case ConnectCb => ConnectCbShaped(cfg, c);
    }
  }

  lemma {:induction false} NextSessions(cfg: Config, c: Client, log: seq<Act>, e: Event)
    requires cfg.Ok() && |c.inBuffer| == cfg.bufSize && Enabled(c, e) && Sessions(cfg, c, log)
    ensures var (c', acts) := Next(cfg, c, e); Sessions(cfg, c', log + acts)
  {
    hide Built, InSession, ConnectOut;
    if e.Recv? {
      hide Next, Passes, Sessions;
      RecvIsPasses(cfg, c, e.segment, e.rounds);
      PassesSessions(cfg, c.(keepAliveTick := 0), log, e.segment, e.rounds) by { OtherTick(cfg, c, log); }
    } else {
      hide Next, Sessions, Shaped;
      StepShaped(cfg, c, e);
      ShapedSessions(cfg, c, log, Next(cfg, c, e).0, Next(cfg, c, e).1);
    }
  }

  lemma OtherTick(cfg: Config, c: Client, log: seq<Act>)
    requires cfg.Ok() && Sessions(cfg, c, log)
    ensures Sessions(cfg, c.(keepAliveTick := 0), log)
  {
    hide ConnectOut, InSession, ConnectMessage;
  }

  lemma {:induction false} ShapedSessions(cfg: Config, c: Client, log: seq<Act>, c': Client, acts: seq<Act>)
    requires cfg.Ok() && Sessions(cfg, c, log) && Shaped(cfg, c, c', acts)
    ensures Sessions(cfg, c', log + acts)
  {
    hide ConnectMessage, InSession;
    SendsPersist(cfg, log, acts);
    if c'.connState in {MqttConnectSending, MqttData, MqttKeepaliveSend} { SessionLasts(cfg, log, acts); }
    var sent := [SendConnect(ConnectMessage(cfg.info, cfg.bufSize))];
    if c'.connState == MqttConnectSending && acts == sent && Built(cfg) {
      assert (log + acts)[|log|] == acts[0];
      assert ConnectOut(cfg, log + acts, |log|);
    }
  }

  /**
   * Over every run: a client in MQTT_DATA or MQTT_KEEPALIVE_SEND has a connection object on which its CONNECT
   * went out and something it took for an accepting CONNACK came back, and every packet that left the queue, and
   * every keep alive ping, left inside such a session.
   */
  lemma {:induction false} OnlyInSession(cfg: Config, es: seq<Event>)
    requires cfg.Ok() && Exec(cfg, es).Some?
    ensures var (c, log) := Exec(cfg, es).value; Sessions(cfg, c, log)
    decreases |es|
  {
    hide Sessions, Next;
    if es == [] {
      InitSessions(cfg);
    } else {
      OnlyInSession(cfg, es[..|es| - 1]);
      var (c, log) := Exec(cfg, es[..|es| - 1]).value;
      NextSessions(cfg, c, log, es[|es| - 1]);
    }
  }

  lemma InitSessions(cfg: Config)
    requires cfg.Ok()
    ensures Sessions(cfg, Init(cfg), [])
  {}

  /** A client whose CONNECT cannot be built never opens a session. */
  lemma {:induction false} UnbuiltNeverOpens(cfg: Config, es: seq<Event>)
    requires cfg.Ok() && Exec(cfg, es).Some? && !Built(cfg)
    ensures var (c, log) := Exec(cfg, es).value;
            && c.connState !in {MqttData, MqttKeepaliveSend}
            && forall a | a in log :: !Sends(a)
  {
    hide Exec, ConnectMessage;
    OnlyInSession(cfg, es);
    var log := Exec(cfg, es).value.1;
    forall a | a in log ensures !Sends(a) {
      var k :| 0 <= k < |log| && log[k] == a;
    }
  }

  // ---------------------------------------------------------------- whose return code it was

  /**
   * When a segment opens a session: it begins like a CONNACK, and the fourth byte of in_buffer, its own only if it is
   * long enough, is zero.
   */
  lemma {:induction false} OpensSession(cfg: Config, c: Client, data: seq<byte>)
    requires cfg.Ok() && |c.inBuffer| == cfg.bufSize
    requires c.connState == MqttConnectSending && c.pendingType == CONNECT && 0 < |data| < cfg.bufSize
    ensures Pass(cfg, c, data).0.connState == MqttData <==>
              GetType(data) == CONNACK && (if |data| > 3 then data[3] else c.inBuffer[3]) == 0
  {
    hide SessionPass;
  }

  /** Every client after its first connection. */
  lemma {:induction false} FirstConnection(cfg: Config)
    requires cfg.Ok() && Built(cfg)
    ensures var r := Exec(cfg, [Event.Connect, ConnectCb]);
            && r.Some? && r.value.0.connState == MqttConnectSending && r.value.0.pendingType == CONNECT
            && r.value.0.con && r.value.0.alive && r.value.0.inBuffer == Init(cfg).inBuffer
  {
    hide ConnectMessage;
    var c0 := Init(cfg);
    var (c1, acts1) := Next(cfg, c0, Event.Connect);
    ExecMore(cfg, [], Event.Connect, c0, []);
    ExecMore(cfg, [Event.Connect], ConnectCb, c1, [] + acts1);
    ConnectHasType(cfg);
    assert [] + [Event.Connect] == [Event.Connect];
    assert [Event.Connect] + [ConnectCb] == [Event.Connect, ConnectCb];
  }

  /** Two bytes of a CONNACK, with no return code among them, open the first session of every client. */
  lemma {:induction false} ShortConnackOpens(cfg: Config)
    requires cfg.Ok() && Built(cfg)
    ensures var r := Exec(cfg, [Event.Connect, ConnectCb, Recv([0x20, 2], 1)]);
            && r.Some? && r.value.0.connState == MqttData
            && Connack([0x20, 2], [0x20, 2] + Init(cfg).inBuffer[2..]) in r.value.1
  {
    hide ConnectMessage, Passes, SessionPass, Exec;
    FirstConnection(cfg);
    var (c, log) := Exec(cfg, [Event.Connect, ConnectCb]).value;
    OnePass(cfg, c.(keepAliveTick := 0), [0x20, 2]);
    ExecMore(cfg, [Event.Connect, ConnectCb], Recv([0x20, 2], 1), c, log);
    assert [Event.Connect, ConnectCb] + [Recv([0x20, 2], 1)] == [Event.Connect, ConnectCb, Recv([0x20, 2], 1)];
    assert c.inBuffer[3] == 0;
  }

  lemma OnePass(cfg: Config, c: Client, data: seq<byte>)
    requires cfg.Ok() && |c.inBuffer| == cfg.bufSize
    ensures Passes(cfg, c, data, 1) == Pass(cfg, c, data)
  {
    hide Pass;
    assert Passes(cfg, c, data, 0) == (c, [], Some(data));
    assert [] + Pass(cfg, c, data).1 == Pass(cfg, c, data).1;
  }

  lemma {:induction false} ConnectHasType(cfg: Config)
    requires cfg.Ok() && Built(cfg)
    ensures GetType(ConnectMessage(cfg.info, cfg.bufSize)) == CONNECT
  {
    hide ConnectBody;
    HeaderType(CONNECT, 0, 0, 0);
  }

  /** No segment that arrives is shorter than a CONNACK. */
  predicate WholeSegments(es: seq<Event>) {
    forall i | 0 <= i < |es| && es[i].Recv? :: es[i].segment == [] || |es[i].segment| > 3
  }

  ghost predicate WholeConnacks(acts: seq<Act>) { forall a | a in acts && a.Connack? :: |a.segment| > 3 }

  lemma {:induction false} PassConnacks(cfg: Config, c: Client, data: seq<byte>)
    requires cfg.Ok() && |c.inBuffer| == cfg.bufSize && (data == [] || |data| > 3 || Open(c))
    ensures var (c', acts, rest) := Pass(cfg, c, data); WholeConnacks(acts) && (rest.Some? ==> Open(c'))
  {
    hide Answer, Delivery, TotalLength;
    if 0 < |data| < cfg.bufSize { AnswerKeeps(cfg, c.(inBuffer := Overlay(c.inBuffer, data))); }
  }

  lemma {:induction false} PassesConnacks(cfg: Config, c: Client, data: seq<byte>, rounds: nat)
    requires cfg.Ok() && |c.inBuffer| == cfg.bufSize && (data == [] || |data| > 3)
    ensures var (c', acts, rest) := Passes(cfg, c, data, rounds);
            WholeConnacks(acts) && (rest.Some? ==> rest.value == data || Open(c'))
    decreases rounds
  {
    hide Pass;
    if rounds > 0 {
      PassesConnacks(cfg, c, data, rounds - 1);
      var (c1, _, rest) := Passes(cfg, c, data, rounds - 1);
      if rest.Some? { PassConnacks(cfg, c1, rest.value); }
    }
  }

  lemma {:induction false} NextConnacks(cfg: Config, c: Client, e: Event)
    requires cfg.Ok() && |c.inBuffer| == cfg.bufSize && WholeSegments([e])
    ensures WholeConnacks(Next(cfg, c, e).1)
  {
    hide ConnectMessage, SubscribeMessage, PublishMessage, Encode, Kept, Frames, Enqueue, Passes;
    if e.Recv? {
      assert [e][0] == e;
      PassesConnacks(cfg, c.(keepAliveTick := 0), e.segment, e.rounds);
    }
  }

  lemma {:induction false} RunConnacks(cfg: Config, es: seq<Event>)
    requires cfg.Ok() && Exec(cfg, es).Some? && WholeSegments(es)
    ensures WholeConnacks(Exec(cfg, es).value.1)
    decreases |es|
  {
    if es != [] {
      hide Next;
      var init, e := es[..|es| - 1], es[|es| - 1];
      assert forall i | 0 <= i < |init| :: init[i] == es[i];
      RunConnacks(cfg, init);
      NextConnacks(cfg, Exec(cfg, init).value.0, e);
    }
  }

  /** CONNECT went out and a CONNACK whose own return code accepts it came in on the current connection object. */
  ghost predicate Accepted(cfg: Config, log: seq<Act>)
    requires cfg.Ok()
  {
    exists i: nat, j: nat :: i < j < |log| && ConnectOut(cfg, log, i) && AcceptsItself(log[j])
  }

  lemma {:induction false} SessionIsAccepted(cfg: Config, log: seq<Act>)
    requires cfg.Ok() && InSession(cfg, log) && WholeConnacks(log)
    ensures Accepted(cfg, log)
  {
    hide ConnectOut;
    var i: nat, j: nat :| i < j < |log| && ConnectOut(cfg, log, i) && Accepts(log[j]);
    assert log[j] in log;
    assert AcceptsItself(log[j]);
  }

  /**
   * Over every run in which no segment shorter than four bytes arrives, the session of `OnlyInSession` was accepted by
   * the CONNACK's own return code.
   */
  lemma {:induction false} OnlyWhenAccepted(cfg: Config, es: seq<Event>)
    requires cfg.Ok() && Exec(cfg, es).Some? && WholeSegments(es)
    ensures var (c, log) := Exec(cfg, es).value;
            && (c.connState in {MqttData, MqttKeepaliveSend} ==> c.con && Accepted(cfg, log))
            && forall k: nat | k < |log| && Sends(log[k]) :: Accepted(cfg, log[..k])
  {
    hide Exec, InSession, Accepted;
    OnlyInSession(cfg, es);
    RunConnacks(cfg, es);
    var (c, log) := Exec(cfg, es).value;
    if c.connState in {MqttData, MqttKeepaliveSend} { SessionIsAccepted(cfg, log); }
    forall k: nat | k < |log| && Sends(log[k]) ensures Accepted(cfg, log[..k]) {
      assert forall a | a in log[..k] :: a in log;
      SessionIsAccepted(cfg, log[..k]);
    }
  }

  // ---------------------------------------------------------------- keep alive and wake-up

  /** Keep alive pings are at most half the keep alive time apart; no state waits for an event that is not posted. */
  predicate Awake(cfg: Config, c: Client) {
    && c.keepAliveTick <= cfg.info.keepalive / 2 + 1
    && (c.connState == MqttData ==> c.keepAliveTick <= cfg.info.keepalive / 2)
    && (c.connState == MqttKeepaliveSend || c.connState == TcpReconnect || c.connState == MqttDeleted ==> c.posted)
  }

  lemma {:induction false} PassAwake(cfg: Config, c: Client, data: seq<byte>)
    requires cfg.Ok() && |c.inBuffer| == cfg.bufSize && Awake(cfg, c) && c.keepAliveTick == 0
    ensures var (c', _, _) := Pass(cfg, c, data); Awake(cfg, c') && c'.keepAliveTick == 0
  {
    hide Answer, Delivery;
    AnswerKeeps(cfg, c.(inBuffer := Pass(cfg, c, data).0.inBuffer));
  }

  lemma {:induction false} PassesAwake(cfg: Config, c: Client, data: seq<byte>, rounds: nat)
    requires cfg.Ok() && |c.inBuffer| == cfg.bufSize && Awake(cfg, c) && c.keepAliveTick == 0
    ensures var (c', _, _) := Passes(cfg, c, data, rounds); Awake(cfg, c') && c'.keepAliveTick == 0
    decreases rounds
  {
    hide Awake, Pass;
    if rounds > 0 {
      PassesAwake(cfg, c, data, rounds - 1);
      var (c1, _, rest) := Passes(cfg, c, data, rounds - 1);
      if rest.Some? { PassAwake(cfg, c1, rest.value); }
    }
  }

  lemma AnswerKeeps(cfg: Config, c: Client)
    requires 0 < |c.inBuffer| == cfg.bufSize
    ensures var c' := Answer(cfg, c, c.inBuffer).0;
            c' == c.(messageId := c'.messageId, queue := c'.queue)
    ensures forall a | a in Answer(cfg, c, c.inBuffer).1 :: a.Offer?
  {
    hide Id, AckMessage, Encode, Frames;
  }

  lemma {:induction false} NextAwake(cfg: Config, c: Client, e: Event)
    requires cfg.Ok() && |c.inBuffer| == cfg.bufSize && Enabled(c, e) && Awake(cfg, c)
    ensures Awake(cfg, Next(cfg, c, e).0)
  {
    hide ConnectMessage, SubscribeMessage, PublishMessage, Encode, Kept, Enqueue, Passes;
    if e.Recv? {
      PassesAwake(cfg, c.(keepAliveTick := 0), e.segment, e.rounds);
    } else if e.Publish? {
      hide *;
      PublishKeeps(cfg, c, e);
    }
  }

  lemma PublishKeeps(cfg: Config, c: Client, e: Event)
    requires cfg.Ok() && |c.inBuffer| == cfg.bufSize && e.Publish? && Awake(cfg, c)
    ensures Awake(cfg, Next(cfg, c, e).0)
  {
    hide PublishMessage, Kept, Frames;
  }

  /**
   * Over every run: the keep alive counter stays within half the keep alive time (plus the tick that ends
   * MQTT_DATA), and although posts into the one-slot task queue may fail, MQTT_KEEPALIVE_SEND, TCP_RECONNECT and
   * MQTT_DELETED never wait in vain: an event for the task is pending.
   */
  lemma {:induction false} NeverAsleep(cfg: Config, es: seq<Event>)
    requires cfg.Ok() && Exec(cfg, es).Some?
    ensures Awake(cfg, Exec(cfg, es).value.0)
    decreases |es|
  {
    if es != [] {
      hide Awake, Next;
      NeverAsleep(cfg, es[..|es| - 1]);
      NextAwake(cfg, Exec(cfg, es[..|es| - 1]).value.0, es[|es| - 1]);
    } else {
      hide Encode;
    }
  }

  /** What the posted event then does: it pings or gives the connection up, opens a new connection, or deletes. */
  lemma WakesUp(cfg: Config, c: Client, sendOk: bool, stale: byte)
    requires cfg.Ok() && |c.inBuffer| == cfg.bufSize && Awake(cfg, c) && c.alive
    requires c.connState in {MqttKeepaliveSend, TcpReconnect, MqttDeleted}
    ensures Enabled(c, Task(sendOk, stale))
    ensures var (c', acts) := Next(cfg, c, Task(sendOk, stale));
            match c.connState
            case MqttKeepaliveSend => acts == [SendPing(Encode(PINGREQ, 0, 0, 0, []))]
                                      && c'.connState == if sendOk then MqttData else TcpReconnectDisconnecting
            case TcpReconnect => c'.connState == TcpConnecting && c'.con && acts != [] && acts[|acts| - 1] == Opened
            case _ => !c'.alive && !c'.con
  {
    hide Encode;
  }

  // ---------------------------------------------------------------- pacing

  /** Timer ticks after act `i`. */
  function TicksSince(log: seq<Act>, i: nat): nat {
    if |log| <= i + 1 then 0 else TicksSince(log[..|log| - 1], i) + if log[|log| - 1].Tick? then 1 else 0
  }

  /** No sent callback after act `i`. */
  ghost predicate Unconfirmed(log: seq<Act>, i: nat) { forall k | i < k < |log| :: !log[k].Sent? }

  /**
   * Each unconfirmed dequeued send is old enough, counting what is left of the send timeout; and so was it at every
   * later one.
   */
  ghost predicate Paced(log: seq<Act>, left: nat) {
    && (forall i: nat | i < |log| && log[i].Dequeue? && Unconfirmed(log, i) ::
          TicksSince(log, i) + left >= MQTT_SEND_TIMOUT)
    && (forall i: nat, k: nat | i < k < |log| && log[i].Dequeue? && log[k].Dequeue? && Unconfirmed(log[..k], i) ::
          TicksSince(log[..k], i) >= MQTT_SEND_TIMOUT)
  }

  lemma {:induction false} PacedAct(log: seq<Act>, left: nat, a: Act)
    requires Paced(log, left) && (a.Dequeue? ==> left == 0)
    ensures Paced(log + [a], if a.Dequeue? then MQTT_SEND_TIMOUT else if a.Tick? && left > 0 then left - 1 else left)
  {
    var all := log + [a];
    assert all[..|log|] == log;
    forall i: nat | i < |all| && all[i].Dequeue? && Unconfirmed(all, i)
      ensures i == |log| ||
              (&& log[i].Dequeue? && Unconfirmed(log, i)
               && TicksSince(all, i) == TicksSince(log, i) + if a.Tick? then 1 else 0)
    {
      if i < |log| { assert forall k | i < k < |log| :: all[k] == log[k]; }
    }
    forall i: nat, k: nat | i < k < |all| && all[i].Dequeue? && all[k].Dequeue? && Unconfirmed(all[..k], i)
      ensures TicksSince(all[..k], i) >= MQTT_SEND_TIMOUT
    {
      assert all[..k] == log[..k] && log[..|log|] == log;
    }
  }

  lemma {:induction false} PacedActs(log: seq<Act>, left: nat, acts: seq<Act>)
    requires Paced(log, left) && forall a | a in acts :: Timeless(a)
    ensures Paced(log + acts, left)
    decreases |acts|
  {
    hide Paced;
    if acts == [] {
      assert log + acts == log;
    } else {
      var n := |acts| - 1;
      PacedActs(log, left, acts[..n]);
      assert acts[n] in acts;
      PacedAct(log + acts[..n], left, acts[n]);
      assert log + acts[..n] + [acts[n]] == log + acts;
    }
  }

  predicate Timeless(a: Act) { !a.Dequeue? && !a.Tick? }

  lemma {:induction false} PassPaced(cfg: Config, c: Client, data: seq<byte>)
    requires cfg.Ok() && |c.inBuffer| == cfg.bufSize
    ensures var (c', acts, _) := Pass(cfg, c, data);
            c'.sendTimeout == c.sendTimeout && forall a | a in acts :: Timeless(a)
  {
    hide Answer, Delivery;
    AnswerKeeps(cfg, c.(inBuffer := Pass(cfg, c, data).0.inBuffer));
  }

  lemma {:induction false} PassesPaced(cfg: Config, c: Client, data: seq<byte>, rounds: nat)
    requires cfg.Ok() && |c.inBuffer| == cfg.bufSize
    ensures var (c', acts, _) := Passes(cfg, c, data, rounds);
            c'.sendTimeout == c.sendTimeout && forall a | a in acts :: Timeless(a)
    decreases rounds
  {
    hide Pass;
    if rounds > 0 {
      PassesPaced(cfg, c, data, rounds - 1);
      var (c1, _, rest) := Passes(cfg, c, data, rounds - 1);
      if rest.Some? { PassPaced(cfg, c1, rest.value); }
    }
  }

  lemma {:induction false} NextPaced(cfg: Config, c: Client, log: seq<Act>, e: Event)
    requires cfg.Ok() && |c.inBuffer| == cfg.bufSize && Enabled(c, e) && Paced(log, c.sendTimeout)
    ensures var (c', acts) := Next(cfg, c, e); Paced(log + acts, c'.sendTimeout)
  {
    hide Paced, ConnectMessage, SubscribeMessage, PublishMessage, Encode, Kept, Passes, Frames;
    var (c', acts) := Next(cfg, c, e);
    assert log + [] == log;
    if e.Timer? {
      PacedAct(log, c.sendTimeout, Tick);
    } else if e.SentCb? {
      SentPaced(log, c.sendTimeout);
    } else if e.Task? && c.connState == MqttData {
      if acts != [] { PacedAct(log, 0, acts[0]); }
    } else {
      if e.Recv? { PassesPaced(cfg, c.(keepAliveTick := 0), e.segment, e.rounds); }
      PacedActs(log, c.sendTimeout, acts);
      if e.Task? || e.ConnectCb? { AtLimit(log + acts, c.sendTimeout); }
    }
  }

  /** A sent callback confirms everything. */
  lemma {:induction false} SentPaced(log: seq<Act>, left: nat)
    requires Paced(log, left)
    ensures Paced(log + [Sent], 0)
  {
    PacedAct(log, left, Sent);
    assert (log + [Sent])[|log|].Sent?;
  }

  lemma {:induction false} AtLimit(log: seq<Act>, left: nat)
    requires Paced(log, left)
    ensures Paced(log, MQTT_SEND_TIMOUT)
  {}

  /**
   * Over every run, with no sent callback between them, two dequeued sends are at least MQTT_SEND_TIMOUT timer
   * ticks apart, whatever reconnects, pings and keep alives happen in between.
   */
  lemma {:induction false} SendsAreSpaced(cfg: Config, es: seq<Event>)
    requires cfg.Ok() && Exec(cfg, es).Some?
    ensures var (c, log) := Exec(cfg, es).value; Paced(log, c.sendTimeout)
    decreases |es|
  {
    if es != [] {
      hide Paced, Next;
      SendsAreSpaced(cfg, es[..|es| - 1]);
      var (c, log) := Exec(cfg, es[..|es| - 1]).value;
      NextPaced(cfg, c, log, es[|es| - 1]);
    }
  }
}
