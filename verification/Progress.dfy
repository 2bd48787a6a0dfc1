/** How the client moves on in time: keep alive pings fall due, lost connections are reopened, closed ones are not. */
module Progress {
  import opened Bytes
  import opened Queues
  import opened MqttMsg
  import opened MqttDecode
  import opened Session
  import opened Runs
  import opened Safety
  import opened Effects

  // ---------------------------------------------------------------- runs from any client

  /** The client and its acts after some events; None if one of them could not occur. */
  function Continue(cfg: Config, c: Client, es: seq<Event>): (r: Option<(Client, seq<Act>)>)
    requires cfg.Ok() && |c.inBuffer| == cfg.bufSize
    ensures r.Some? ==> |r.value.0.inBuffer| == cfg.bufSize
    decreases |es|
  {
    if es == [] then Some((c, []))
    else
      var e := es[|es| - 1];
      match Continue(cfg, c, es[..|es| - 1])
      case None => None
      case Some((c1, acts)) =>
        if Enabled(c1, e) then var (c', more) := Next(cfg, c1, e); Some((c', acts + more)) else None
  }

  /** Every run from the start, at any point, goes on like this. */
  lemma {:induction false} RunsContinue(cfg: Config, es: seq<Event>, more: seq<Event>)
    requires cfg.Ok() && Exec(cfg, es).Some?
    ensures var (c, log) := Exec(cfg, es).value;
            match Continue(cfg, c, more)
            case None => Exec(cfg, es + more) == None
            case Some((c', acts)) => Exec(cfg, es + more) == Some((c', log + acts))
    decreases |more|
  {
    var (c, log) := Exec(cfg, es).value;
    if more == [] {
      assert es + more == es && log + [] == log;
    } else {
      var n := |more| - 1;
      RunsContinue(cfg, es, more[..n]);
      assert (es + more)[..|es + more| - 1] == es + more[..n];
      LastStep(cfg, c, more);
      LastOfRun(cfg, es + more);
      hide Next, Enabled, Continue, Exec;
      if Continue(cfg, c, more[..n]).Some? {
        var (c1, acts) := Continue(cfg, c, more[..n]).value;
        if Enabled(c1, more[n]) { ConcatAssoc(log, acts, Next(cfg, c1, more[n]).1); }
      }
    }
  }

  /** A run from `before`, where its last event takes it. */
  function Last(cfg: Config, before: Option<(Client, seq<Act>)>, e: Event): Option<(Client, seq<Act>)>
    requires cfg.Ok() && (before.Some? ==> |before.value.0.inBuffer| == cfg.bufSize)
  {
    if before.None? || !Enabled(before.value.0, e) then None
    else var (c', more) := Next(cfg, before.value.0, e); Some((c', before.value.1 + more))
  }

  lemma LastStep(cfg: Config, c: Client, es: seq<Event>)
    requires cfg.Ok() && |c.inBuffer| == cfg.bufSize && es != []
    ensures Continue(cfg, c, es) == Last(cfg, Continue(cfg, c, es[..|es| - 1]), es[|es| - 1])
  {
    hide Next, Enabled;
  }

  lemma LastOfRun(cfg: Config, es: seq<Event>)
    requires cfg.Ok() && es != []
    ensures Exec(cfg, es) == Last(cfg, Exec(cfg, es[..|es| - 1]), es[|es| - 1])
  {
    hide Next, Enabled;
  }

  lemma {:induction false} OneMore(cfg: Config, c: Client, es: seq<Event>, e: Event)
    requires cfg.Ok() && |c.inBuffer| == cfg.bufSize && Continue(cfg, c, es + [e]).Some?
    ensures Continue(cfg, c, es).Some?
    ensures var (c1, acts) := Continue(cfg, c, es).value;
            var (c2, more) := Next(cfg, c1, e);
            Enabled(c1, e) && Continue(cfg, c, es + [e]) == Some((c2, acts + more))
  {
    hide Next, Enabled;
    assert (es + [e])[..|es|] == es;
  }

  lemma {:induction false} CanGoOn(cfg: Config, c: Client, es: seq<Event>, e: Event)
    requires cfg.Ok() && |c.inBuffer| == cfg.bufSize && Continue(cfg, c, es).Some?
    requires Enabled(Continue(cfg, c, es).value.0, e)
    ensures Continue(cfg, c, es + [e]).Some?
  {
    hide Next, Enabled;
    assert (es + [e])[..|es|] == es;
  }

  /** A run goes on from where its beginning led. */
  lemma {:induction false} Split(cfg: Config, c: Client, es: seq<Event>, more: seq<Event>)
    requires cfg.Ok() && |c.inBuffer| == cfg.bufSize && Continue(cfg, c, es + more).Some?
    ensures Continue(cfg, c, es).Some?
    ensures var (c1, acts) := Continue(cfg, c, es).value;
            && Continue(cfg, c1, more).Some?
            && var (c2, acts') := Continue(cfg, c1, more).value;
               Continue(cfg, c, es + more) == Some((c2, acts + acts'))
    decreases |more|
  {
    if more == [] {
      assert es + more == es;
      var acts := Continue(cfg, c, es).value.1;
      assert acts + [] == acts;
    } else {
      hide Next, Enabled, Continue;
      var n := |more| - 1;
      assert es + more == es + more[..n] + [more[n]] && more == more[..n] + [more[n]];
      OneMore(cfg, c, es + more[..n], more[n]);
      Split(cfg, c, es, more[..n]);
      var (c1, acts) := Continue(cfg, c, es).value;
      var (c2, acts') := Continue(cfg, c1, more[..n]).value;
      CanGoOn(cfg, c1, more[..n], more[n]);
      OneMore(cfg, c1, more[..n], more[n]);
      ConcatAssoc(acts, acts', Next(cfg, c2, more[n]).1);
    }
  }

  lemma {:induction false} InitLast(es: seq<Event>)
    requires es != []
    ensures es == es[..|es| - 1] + [es[|es| - 1]]
  {}

  /** Periods of mqtt_timer. */
  function Periods(es: seq<Event>): nat {
    if es == [] then 0 else Periods(es[..|es| - 1]) + if es[|es| - 1].Timer? then 1 else 0
  }

  /** The resolver's answer is of no use. */
  predicate Useless(e: Event) { e.DnsFound? && e.addr.Some? && (e.ip != 0 || e.addr.value == 0) }

  // ---------------------------------------------------------------- keep alive

  /** Neither clears the keep alive counter nor leaves MQTT_DATA. */
  predicate Idle(e: Event) { Api(e) || e.Task? || e.Timer? || Useless(e) }

  ghost predicate AllIdle(es: seq<Event>) { forall i | 0 <= i < |es| :: Idle(es[i]) }

  lemma {:induction false} IdleStep(cfg: Config, c: Client, e: Event)
    requires cfg.Ok() && |c.inBuffer| == cfg.bufSize && c.connState == MqttData && Idle(e)
    ensures var c' := Next(cfg, c, e).0;
            var t := c.keepAliveTick + if e.Timer? then 1 else 0;
            && c'.keepAliveTick == t && c'.alive == c.alive
            && c'.connState == (if e.Timer? && t > cfg.info.keepalive / 2 then MqttKeepaliveSend else MqttData)
            && (c'.connState == MqttKeepaliveSend ==> c'.posted)
  {
    if e.Publish? {
      hide Next;
      var _ := PublishEffect(cfg, c, e.topic, e.payload, e.qos, e.retain);
    } else if Api(e) {
      hide Next;
      var _ := RequestEffect(cfg, c, e);
    } else {
      hide PublishStep, SubscribeStep, Retry, ConnectCbStep, Passes;
    }
  }

  /** Without anything that clears it, the keep alive counter counts the periods while they are within its bound. */
  lemma {:induction false} CountsUp(cfg: Config, c: Client, es: seq<Event>)
    requires cfg.Ok() && |c.inBuffer| == cfg.bufSize && c.connState == MqttData
    requires AllIdle(es) && c.keepAliveTick + Periods(es) <= cfg.info.keepalive / 2
    ensures var r := Continue(cfg, c, es);
            r.Some? ==> r.value.0.connState == MqttData && r.value.0.keepAliveTick == c.keepAliveTick + Periods(es)
    decreases |es|
  {
    if es != [] && Continue(cfg, c, es).Some? {
      hide Next, Idle;
      var init, e := es[..|es| - 1], es[|es| - 1];
      InitLast(es);
      OneMore(cfg, c, init, e);
      assert AllIdle(init) && Idle(e);
      CountsUp(cfg, c, init);
      IdleStep(cfg, Continue(cfg, c, init).value.0, e);
    }
  }

  /** Keeps the connection state, unless that is waiting for the timer, the task or a CONNACK. */
  predicate Still(e: Event) { Api(e) || e.Timer? || e.SentCb? || e.Recv? || Useless(e) }

  ghost predicate AllStill(es: seq<Event>) { forall i | 0 <= i < |es| :: Still(es[i]) }

  lemma {:induction false} StillStep(cfg: Config, c: Client, e: Event)
    requires cfg.Ok() && |c.inBuffer| == cfg.bufSize && Still(e)
    requires c.connState !in {MqttData, TcpReconnectReq, MqttConnectSending}
    ensures var c' := Next(cfg, c, e).0;
            c'.connState == c.connState && c'.con == c.con && c'.alive == c.alive && (c.posted ==> c'.posted)
  {
    if e.Publish? {
      hide Next;
      var _ := PublishEffect(cfg, c, e.topic, e.payload, e.qos, e.retain);
    } else if Api(e) {
      hide Next;
      var _ := RequestEffect(cfg, c, e);
    } else if e.Recv? {
      hide Next;
      RecvEffect(cfg, c, e.segment, e.rounds);
    } else {
      hide PublishStep, SubscribeStep, Retry, ConnectCbStep, Passes, TaskStep;
    }
  }

  lemma {:induction false} StaysStill(cfg: Config, c: Client, es: seq<Event>)
    requires cfg.Ok() && |c.inBuffer| == cfg.bufSize && AllStill(es) && Continue(cfg, c, es).Some?
    requires c.connState !in {MqttData, TcpReconnectReq, MqttConnectSending}
    ensures var c' := Continue(cfg, c, es).value.0;
            c'.connState == c.connState && c'.con == c.con && c'.alive == c.alive && (c.posted ==> c'.posted)
    decreases |es|
  {
    if es != [] {
      hide Next, Still;
      var init, e := es[..|es| - 1], es[|es| - 1];
      InitLast(es);
      OneMore(cfg, c, init, e);
      assert AllStill(init) && Still(e);
      StaysStill(cfg, c, init);
      StillStep(cfg, Continue(cfg, c, init).value.0, e);
    }
  }

  /** An act of the task follows: the event is enabled, and does what `TaskEffect` says. */
  lemma {:induction false} TaskFollows(cfg: Config, c: Client, es: seq<Event>, sendOk: bool, stale: byte)
    requires cfg.Ok() && |c.inBuffer| == cfg.bufSize && Continue(cfg, c, es).Some?
    requires var c1 := Continue(cfg, c, es).value.0; c1.alive && c1.posted
    ensures var (c1, acts) := Continue(cfg, c, es).value;
            var (c2, more) := Next(cfg, c1, Task(sendOk, stale));
            Continue(cfg, c, es + [Task(sendOk, stale)]) == Some((c2, acts + more))
  {
    hide Next;
    CanGoOn(cfg, c, es, Task(sendOk, stale));
    OneMore(cfg, c, es, Task(sendOk, stale));
  }

  lemma {:induction false} LivesToTick(cfg: Config, c: Client, es: seq<Event>)
    requires cfg.Ok() && |c.inBuffer| == cfg.bufSize && Continue(cfg, c, es + [Timer]).Some?
    ensures Continue(cfg, c, es).Some? && Continue(cfg, c, es).value.0.alive
  {
    OneMore(cfg, c, es, Timer);
  }

  /**
   * From MQTT_DATA with keep alive counter t, and with nothing that clears it, the timer period number
   * keepalive / 2 + 1 - t moves the client to MQTT_KEEPALIVE_SEND; whatever comes before the task then runs, an event
   * is pending for it, and it sends a ping.
   */
  lemma {:induction false} PingFallsDue(cfg: Config, c: Client, before: seq<Event>, after: seq<Event>,
                                        sendOk: bool, stale: byte)
    requires cfg.Ok() && |c.inBuffer| == cfg.bufSize && c.connState == MqttData
    requires AllIdle(before) && c.keepAliveTick + Periods(before) == cfg.info.keepalive / 2 && AllStill(after)
    requires Continue(cfg, c, before + [Timer] + after).Some?
    ensures var (c1, acts) := Continue(cfg, c, before + [Timer] + after).value;
            var r := Continue(cfg, c, before + [Timer] + after + [Task(sendOk, stale)]);
            && c1.connState == MqttKeepaliveSend && c1.posted
            && r.Some? && r.value.1 == acts + [SendPing([0xC0, 0])]
            && r.value.0.connState == if sendOk then MqttData else TcpReconnectDisconnecting
  {
    hide Next;
    Split(cfg, c, before + [Timer], after);
    OneMore(cfg, c, before, Timer);
    LivesToTick(cfg, c, before);
    CountsUp(cfg, c, before);
    IdleStep(cfg, Continue(cfg, c, before).value.0, Timer);
    var due := Continue(cfg, c, before + [Timer]).value.0;
    StaysStill(cfg, due, after);
    TaskFollows(cfg, c, before + [Timer] + after, sendOk, stale);
    TaskEffect(cfg, Continue(cfg, c, before + [Timer] + after).value.0, sendOk, stale);
  }

  // ---------------------------------------------------------------- lost connections

  /** Leaves TCP_RECONNECT_REQ alone. */
  predicate Waits(e: Event) {
    Still(e) || e.Task? || e.DisconCb? || e.ReconCb? || (e.DnsFound? && e.addr.None?)
  }

  ghost predicate AllWait(es: seq<Event>) { forall i | 0 <= i < |es| :: Waits(es[i]) }

  lemma {:induction false} WaitStep(cfg: Config, c: Client, e: Event)
    requires cfg.Ok() && |c.inBuffer| == cfg.bufSize && c.connState == TcpReconnectReq && Waits(e)
    ensures var c' := Next(cfg, c, e).0;
            && c'.con == c.con && c'.alive == c.alive
            && (if e.Timer? && c.reconnectTick >= MQTT_RECONNECT_TIMEOUT
                then c'.connState == TcpReconnect && c'.posted && c'.reconnectTick == 0
                else c'.connState == TcpReconnectReq && c'.reconnectTick == c.reconnectTick + if e.Timer? then 1 else 0)
  {
    if e.Publish? {
      hide Next;
      var _ := PublishEffect(cfg, c, e.topic, e.payload, e.qos, e.retain);
    } else if Api(e) {
      hide Next;
      var _ := RequestEffect(cfg, c, e);
    } else if e.Recv? {
      hide Next;
      RecvEffect(cfg, c, e.segment, e.rounds);
    } else {
      hide PublishStep, SubscribeStep, Retry, ConnectCbStep, Passes;
    }
  }

  lemma {:induction false} WaitsOn(cfg: Config, c: Client, es: seq<Event>)
    requires cfg.Ok() && |c.inBuffer| == cfg.bufSize && c.connState == TcpReconnectReq
    requires AllWait(es) && c.reconnectTick + Periods(es) <= MQTT_RECONNECT_TIMEOUT && Continue(cfg, c, es).Some?
    ensures var c' := Continue(cfg, c, es).value.0;
            c'.connState == TcpReconnectReq && c'.reconnectTick == c.reconnectTick + Periods(es) && c'.con == c.con
    decreases |es|
  {
    if es != [] {
      hide Next, Waits;
      var init, e := es[..|es| - 1], es[|es| - 1];
      InitLast(es);
      OneMore(cfg, c, init, e);
      assert AllWait(init) && Waits(e);
      WaitsOn(cfg, c, init);
      WaitStep(cfg, Continue(cfg, c, init).value.0, e);
    }
  }

  /**
   * From TCP_RECONNECT_REQ with counter r, period number MQTT_RECONNECT_TIMEOUT + 1 - r moves the client to
   * TCP_RECONNECT; an event is then pending for the task, which opens a new connection.
   */
  lemma {:induction false} ReconnectFallsDue(cfg: Config, c: Client, before: seq<Event>, after: seq<Event>,
                                             sendOk: bool, stale: byte)
    requires cfg.Ok() && |c.inBuffer| == cfg.bufSize && c.connState == TcpReconnectReq
    requires AllWait(before) && c.reconnectTick + Periods(before) == MQTT_RECONNECT_TIMEOUT && AllStill(after)
    ensures var r1 := Continue(cfg, c, before + [Timer] + after);
            var r := Continue(cfg, c, before + [Timer] + after + [Task(sendOk, stale)]);
            r1.Some? ==>
              var (c1, acts) := r1.value;
              && c1.connState == TcpReconnect && c1.posted
              && r.Some? && r.value.1 == acts + (if c1.con then [Closed, Opened] else [Opened])
              && r.value.0.connState == TcpConnecting && r.value.0.con
  {
    hide Next, Continue;
    if Continue(cfg, c, before + [Timer] + after).Some? {
      Split(cfg, c, before + [Timer], after);
      OneMore(cfg, c, before, Timer);
      LivesToTick(cfg, c, before);
      WaitsOn(cfg, c, before);
      WaitStep(cfg, Continue(cfg, c, before).value.0, Timer);
      var due := Continue(cfg, c, before + [Timer]).value.0;
      StaysStill(cfg, due, after);
      TaskFollows(cfg, c, before + [Timer] + after, sendOk, stale);
      TaskEffect(cfg, Continue(cfg, c, before + [Timer] + after).value.0, sendOk, stale);
    }
  }

  /** The counter never passes its bound, so a reconnect is never more than MQTT_RECONNECT_TIMEOUT + 1 periods away. */
  lemma {:induction false} ReconnectIsNear(cfg: Config, es: seq<Event>)
    requires cfg.Ok() && Exec(cfg, es).Some?
    ensures Exec(cfg, es).value.0.reconnectTick <= MQTT_RECONNECT_TIMEOUT
    decreases |es|
  {
    if es != [] {
      hide Next;
      ReconnectIsNear(cfg, es[..|es| - 1]);
      NearStep(cfg, Exec(cfg, es[..|es| - 1]).value.0, es[|es| - 1]);
    }
  }

  lemma {:induction false} NearStep(cfg: Config, c: Client, e: Event)
    requires cfg.Ok() && |c.inBuffer| == cfg.bufSize && c.reconnectTick <= MQTT_RECONNECT_TIMEOUT
    ensures Next(cfg, c, e).0.reconnectTick <= MQTT_RECONNECT_TIMEOUT
  {
    if e.Publish? {
      hide Next;
      var _ := PublishEffect(cfg, c, e.topic, e.payload, e.qos, e.retain);
    } else if Api(e) {
      hide Next;
      var _ := RequestEffect(cfg, c, e);
    } else if e.Recv? {
      hide Next, Passes;
      RecvIsPasses(cfg, c, e.segment, e.rounds);
      PassesKeepTick(cfg, c.(keepAliveTick := 0), e.segment, e.rounds);
    } else if e.Task? && c.connState != MqttData {
      hide Next;
      TaskEffect(cfg, c, e.sendOk, e.stale);
    } else {
      hide PublishStep, SubscribeStep, Retry, ConnectMessage, Passes, ConnectStep, KeepaliveStep;
      if e.Connect? { CommandEffect(cfg, c); }
    }
  }

  lemma {:induction false} PassesKeepTick(cfg: Config, c: Client, data: seq<byte>, rounds: nat)
    requires cfg.Ok() && |c.inBuffer| == cfg.bufSize
    ensures Passes(cfg, c, data, rounds).0.reconnectTick == c.reconnectTick
    decreases rounds
  {
    hide Pass;
    if rounds > 0 {
      PassesKeepTick(cfg, c, data, rounds - 1);
      var (c1, _, rest) := Passes(cfg, c, data, rounds - 1);
      if rest.Some? { PassKeepsTick(cfg, c1, rest.value); }
    }
  }

  lemma {:induction false} PassKeepsTick(cfg: Config, c: Client, data: seq<byte>)
    requires cfg.Ok() && |c.inBuffer| == cfg.bufSize
    ensures Pass(cfg, c, data).0.reconnectTick == c.reconnectTick
  {
    if c.connState == MqttConnectSending {
      hide GetType, SessionPass;
    } else {
      hide Pass;
      PassEffect(cfg, c, data);
    }
  }

  /** A connection that is lost without having been asked to close is waited for, and then reopened as above. */
  lemma {:induction false} LostIsAwaited(cfg: Config, c: Client, e: Event)
    requires cfg.Ok() && |c.inBuffer| == cfg.bufSize
    requires e.ReconCb? || (e.DisconCb? && c.connState !in {TcpDisconnecting, MqttDeleting})
    ensures var (c', acts) := Next(cfg, c, e);
            c'.connState == TcpReconnectReq && c'.posted && c'.reconnectTick == c.reconnectTick && acts == []
  {
    CallbackEffect(cfg, c);
  }

  // ---------------------------------------------------------------- closed connections

  /** Leaves TCP_DISCONNECTING alone; the task, too, has nothing to do there. */
  ghost predicate AllClosing(es: seq<Event>) { forall i | 0 <= i < |es| :: Still(es[i]) || es[i].Task? }

  lemma {:induction false} StaysClosing(cfg: Config, c: Client, es: seq<Event>)
    requires cfg.Ok() && |c.inBuffer| == cfg.bufSize && AllClosing(es) && Continue(cfg, c, es).Some?
    requires c.connState == TcpDisconnecting
    ensures var c' := Continue(cfg, c, es).value.0; c'.connState == c.connState && c'.con == c.con
    decreases |es|
  {
    if es != [] {
      hide Next, Still;
      var init, e := es[..|es| - 1], es[|es| - 1];
      InitLast(es);
      OneMore(cfg, c, init, e);
      assert AllClosing(init) && (Still(e) || e.Task?);
      StaysClosing(cfg, c, init);
      var c1 := Continue(cfg, c, init).value.0;
      if e.Task? { TaskEffect(cfg, c1, e.sendOk, e.stale); } else { StillStep(cfg, c1, e); }
    }
  }

  /**
   * A connection asked to close is closed by the first task after the disconnect callback, whatever comes between that
   * opens or loses no connection.
   */
  lemma {:induction false} ClosesOnRequest(cfg: Config, c: Client, mid: seq<Event>, after: seq<Event>,
                                           sendOk: bool, stale: byte)
    requires cfg.Ok() && |c.inBuffer| == cfg.bufSize && AllClosing(mid) && AllStill(after)
    ensures Continue(cfg, c, [Disconnect] + mid + [DisconCb] + after).Some? ==>
              var r := Continue(cfg, c, [Disconnect] + mid + [DisconCb] + after + [Task(sendOk, stale)]);
              && r.Some? && Shut(r.value.0) && r.value.1 != [] && r.value.1[|r.value.1| - 1] == Closed
  {
    hide Next;
    var es := [Disconnect] + mid + [DisconCb];
    if Continue(cfg, c, es + after).Some? {
      Split(cfg, c, es, after);
      OneMore(cfg, c, [Disconnect] + mid, DisconCb);
      Split(cfg, c, [Disconnect], mid);
      assert [] + [Disconnect] == [Disconnect];
      OneMore(cfg, c, [], Disconnect);
      CommandEffect(cfg, c);
      StaysClosing(cfg, Continue(cfg, c, [Disconnect]).value.0, mid);
      var closing := Continue(cfg, c, [Disconnect] + mid).value.0;
      CallbackEffect(cfg, closing);
      var down := Continue(cfg, c, es).value.0;
      StaysStill(cfg, down, after);
      TaskFollows(cfg, c, es + after, sendOk, stale);
      TaskEffect(cfg, Continue(cfg, c, es + after).value.0, sendOk, stale);
    }
  }

  /** No connection object, and no state that the timer or the task leaves for another connection. */
  predicate Shut(c: Client) {
    !c.con && c.connState in {TcpDisconnecting, TcpDisconnected, MqttDeleted, WifiInit}
  }

  /** Once closed, no connection is opened and nothing sent until MQTT_Connect is called. */
  lemma {:induction false} ClosedStaysClosed(cfg: Config, c: Client, es: seq<Event>)
    requires cfg.Ok() && |c.inBuffer| == cfg.bufSize && Shut(c) && forall i | 0 <= i < |es| :: !es[i].Connect?
    ensures var r := Continue(cfg, c, es);
            r.Some? ==> Shut(r.value.0) && forall a | a in r.value.1 :: a.Offer? || a.Tick?
    decreases |es|
  {
    if es != [] && Continue(cfg, c, es).Some? {
      hide Next, Shut;
      var init, e := es[..|es| - 1], es[|es| - 1];
      InitLast(es);
      OneMore(cfg, c, init, e);
      assert forall i | 0 <= i < |init| :: init[i] == es[i];
      ClosedStaysClosed(cfg, c, init);
      ShutStep(cfg, Continue(cfg, c, init).value.0, e);
    }
  }

  lemma {:induction false} ShutStep(cfg: Config, c: Client, e: Event)
    requires cfg.Ok() && |c.inBuffer| == cfg.bufSize && Shut(c) && Enabled(c, e) && !e.Connect?
    ensures var (c', acts) := Next(cfg, c, e); Shut(c') && forall a | a in acts :: a.Offer? || a.Tick?
  {
    if e.Publish? {
      hide Next;
      var _ := PublishEffect(cfg, c, e.topic, e.payload, e.qos, e.retain);
    } else if Api(e) {
      hide Next;
      var _ := RequestEffect(cfg, c, e);
    } else {
      hide PublishStep, SubscribeStep, Retry, ConnectCbStep, Passes;
    }
  }

  // ---------------------------------------------------------------- sends

  /** Starts no send timeout and ends none. */
  predicate Sendless(e: Event) { !e.Task? && !e.ConnectCb? && !e.SentCb? }

  /** Left alone, the send timeout runs down with the periods, to zero. */
  lemma {:induction false} TimeoutRunsDown(cfg: Config, c: Client, es: seq<Event>)
    requires cfg.Ok() && |c.inBuffer| == cfg.bufSize && Continue(cfg, c, es).Some?
    requires forall i | 0 <= i < |es| :: Sendless(es[i])
    ensures var c' := Continue(cfg, c, es).value.0;
            c'.sendTimeout == if Periods(es) >= c.sendTimeout then 0 else c.sendTimeout - Periods(es)
    decreases |es|
  {
    if es != [] {
      hide Next, Sendless;
      var init, e := es[..|es| - 1], es[|es| - 1];
      InitLast(es);
      OneMore(cfg, c, init, e);
      assert forall i | 0 <= i < |init| :: init[i] == es[i];
      TimeoutRunsDown(cfg, c, init);
      SendlessStep(cfg, Continue(cfg, c, init).value.0, e);
    }
  }

  lemma {:induction false} SendlessStep(cfg: Config, c: Client, e: Event)
    requires cfg.Ok() && |c.inBuffer| == cfg.bufSize && Sendless(e)
    ensures Next(cfg, c, e).0.sendTimeout == if e.Timer? && c.sendTimeout > 0 then c.sendTimeout - 1 else c.sendTimeout
  {
    if e.Publish? {
      hide Next;
      var _ := PublishEffect(cfg, c, e.topic, e.payload, e.qos, e.retain);
    } else if Api(e) {
      hide Next;
      var _ := RequestEffect(cfg, c, e);
    } else if e.Recv? {
      hide Next, Passes;
      RecvIsPasses(cfg, c, e.segment, e.rounds);
      PassesPaced(cfg, c.(keepAliveTick := 0), e.segment, e.rounds);
    } else {
      hide PublishStep, SubscribeStep, Retry, ConnectCbStep, Passes, TaskStep;
    }
  }

  /** In an open session the sent callback lets the next packet out. */
  lemma {:induction false} SentReleases(cfg: Config, c: Client, sendOk: bool, stale: byte)
    requires cfg.Ok() && |c.inBuffer| == cfg.bufSize && c.connState == MqttData && c.alive && c.con
    requires c.queue != [] && Bounded(c.queue, cfg.bufSize)
    ensures var r := Continue(cfg, c, [SentCb, Task(sendOk, stale)]);
            r.Some? && r.value.1 == [Sent, Dequeue(c.queue[0])] && r.value.0.queue == c.queue[1..]
  {
    hide Next;
    assert Continue(cfg, c, []) == Some((c, []));
    CanGoOn(cfg, c, [], SentCb);
    OneMore(cfg, c, [], SentCb);
    assert [] + [SentCb] == [SentCb] && [SentCb] + [Task(sendOk, stale)] == [SentCb, Task(sendOk, stale)];
    CallbackEffect(cfg, c);
    TaskFollows(cfg, c, [SentCb], sendOk, stale);
    SendEffect(cfg, Continue(cfg, c, [SentCb]).value.0, sendOk, stale);
  }

  // ---------------------------------------------------------------- conservation

  /**
   * Between two calls of the API nothing leaves the queue unsent: what was dequeued and sent and what is still queued
   * is what was queued before and, behind it, some of the answers offered since.
   */
  lemma {:induction false} NothingLost(cfg: Config, c: Client, es: seq<Event>) returns (sub: seq<Packet>)
    requires cfg.Ok() && |c.inBuffer| == cfg.bufSize && Bounded(c.queue, cfg.bufSize)
    requires Continue(cfg, c, es).Some? && forall i | 0 <= i < |es| :: !Api(es[i])
    ensures var (c', acts) := Continue(cfg, c, es).value;
            && Dequeued(acts) + c'.queue == c.queue + sub && Subsequence(sub, Offered(acts))
            && Bounded(c'.queue, cfg.bufSize)
    decreases |es|
  {
    hide Next, Bounded, Api;
    if es == [] {
      sub := [];
      QuietConserves(c, c, []);
    } else {
      var init, e := es[..|es| - 1], es[|es| - 1];
      InitLast(es);
      OneMore(cfg, c, init, e);
      assert forall i | 0 <= i < |init| :: init[i] == es[i];
      sub := NothingLost(cfg, c, init);
      var (c1, acts) := Continue(cfg, c, init).value;
      var more := StepConserves(cfg, c1, e);
      ConservesMore(c, c1, Next(cfg, c1, e).0, acts, Next(cfg, c1, e).1, sub, more);
      sub := sub + more;
    }
  }
}
