/** What the packets mean that the queue carries from the API calls and answers of a run to espconn_send. */
module Carried {
  import opened Bytes
  import opened Proto
  import opened Queues
  import opened MqttMsg
  import opened MqttDecode
  import opened MqttConnect
  import opened Session
  import opened Runs

  /** Its remaining length tells its size. */
  ghost predicate Whole(p: Packet) { p != [] && TotalLength(p, |p|) == |p| }

  /** A PUBLISH of this topic and payload, with an identifier where the QoS asks for one and the reader can find it. */
  ghost predicate Publishes(p: Packet, topic: seq<byte>, payload: seq<byte>, qos: int, retain: int) {
    && Whole(p) && p[0] == 0x30 + 2 * (qos % 4) + retain % 2
    && (0 <= qos < 4 ==>
          && GetQos(p) == qos && DecodesAs(p, |p|, topic, payload)
          && (qos > 0 && payload != [] ==> Id(p, |p|) != 0))
  }

  /** A request with this first byte, topic and tail, and an identifier that is not zero. */
  ghost predicate Requests(p: Packet, first: byte, topic: seq<byte>, tail: seq<byte>) {
    Whole(p) && p[0] == first && match ReadSubscribe(p)
      case None => false
      case Some((id, t, rest)) => id != 0 && t == topic && rest == tail
  }

  /** PUBACK, PUBREC, PUBREL or PUBCOMP with an identifier that is not zero. */
  ghost predicate Acknowledges(p: Packet) {
    Whole(p) && |p| == 4 && GetType(p) in {PUBACK, PUBREC, PUBREL, PUBCOMP} && Id(p, 4) != 0
  }

  predicate Requestable(cfg: Config, topic: Option<seq<byte>>, qos: Option<byte>) {
    Present(topic) && SubscribeSize(topic.value, qos) <= cfg.bufSize
  }

  /** `p` is what event `e` asks the client to send. Empty packets come from requests that could not be built. */
  ghost predicate Supplies(cfg: Config, e: Event, p: Packet) {
    match e
    case Publish(topic, payload, qos, retain) => Present(topic) && Publishes(p, topic.value, payload, qos, retain)
    case Subscribe(topic, qos) =>
      if Requestable(cfg, topic, Some(qos)) then Requests(p, 0x82, topic.value, [qos]) else p == []
    case Unsubscribe(topic) => if Requestable(cfg, topic, None) then Requests(p, 0xA2, topic.value, []) else p == []
    case Ping => p == [0xC0, 0]
    case Recv(_, _) => p == [0xD0, 0] || Acknowledges(p)
    case _ => false
  }

  ghost predicate AllSupplied(cfg: Config, e: Event, acts: seq<Act>) {
    forall a | a in acts && a.Offer? :: Supplies(cfg, e, a.packet)
  }

  // ---------------------------------------------------------------- one step

  lemma {:induction false} PublishSupplies(cfg: Config, c: Client, e: Event)
    requires cfg.Ok() && e.Publish?
    ensures AllSupplied(cfg, e, PublishStep(cfg, c, e).1)
  {
    hide PublishCounter, Kept, Enqueue, TotalLength, Id, DecodesAs, GetQos, GetType;
    var m := PublishMessage(e.topic, e.payload, e.qos, e.retain, cfg.bufSize, c.messageId);
    if m != [] {
      var body := PublishBody(e.topic.value, e.payload, e.qos, NextId(c.messageId));
      HeaderReadsBack(PUBLISH, 0, e.qos, e.retain, body, m, |m|);
      if 0 <= e.qos < 4 { PublishDecodes(cfg, e, c.messageId); }
      hide PublishMessage, PublishSize, Encode;
    }
  }

  lemma {:induction false} PublishDecodes(cfg: Config, e: Event, counter: u16)
    requires cfg.Ok() && e.Publish? && 0 <= e.qos < 4
    ensures var p := PublishMessage(e.topic, e.payload, e.qos, e.retain, cfg.bufSize, counter);
            p != [] ==>
              && Present(e.topic) && GetQos(p) == e.qos && DecodesAs(p, |p|, e.topic.value, e.payload)
              && (e.qos > 0 && e.payload != [] ==> Id(p, |p|) != 0)
  {
    hide PublishMessage, TotalLength, Id, DecodesAs, GetQos, GetType;
    var p := PublishMessage(e.topic, e.payload, e.qos, e.retain, cfg.bufSize, counter);
    PublishedReadsBack(e.topic, e.payload, e.qos, e.retain, cfg.bufSize, counter, []);
    assert p + [] == p;
    if p != [] && e.qos > 0 { CounterMoves(e.topic, e.payload, e.qos, cfg.bufSize, counter); }
  }

  lemma CounterMoves(topic: Option<seq<byte>>, payload: seq<byte>, qos: int, bufLen: nat, counter: u16)
    requires qos > 0 && Present(topic) && PublishSize(topic.value, payload, qos) <= bufLen
    ensures PublishCounter(topic, qos, bufLen, counter) == NextId(counter) != 0
  {}

  lemma {:induction false} SubscribeSupplies(cfg: Config, c: Client, e: Event, topic: Option<seq<byte>>,
                                             qos: Option<byte>)
    requires cfg.Ok() && e == if qos.Some? then Subscribe(topic, qos.value) else Unsubscribe(topic)
    ensures var type_ := if qos.Some? then SUBSCRIBE else UNSUBSCRIBE;
            AllSupplied(cfg, e, SubscribeStep(cfg, c, type_, topic, qos).1)
  {
    hide SubscribeMessage, ReadSubscribe, Kept, TotalLength, Id, SubscribeSize;
    SubscribeReadsBack(topic, qos, cfg.bufSize, c.messageId);
    var type_ := if qos.Some? then SUBSCRIBE else UNSUBSCRIBE;
    ReadMeansWhole(SubscribeMessage(type_, topic, qos, cfg.bufSize, c.messageId));
  }

  lemma ReadMeansWhole(p: Packet)
    ensures p != [] && ReadSubscribe(p).Some? ==> Whole(p)
  {
    hide TotalLength;
  }

  lemma {:induction false} AnswerSupplies(cfg: Config, c: Client, b: seq<byte>, e: Event)
    requires cfg.Ok() && |b| == cfg.bufSize && e.Recv?
    ensures AllSupplied(cfg, e, Answer(cfg, c, b).1)
  {
    hide AckMessage, Enqueue, Id, GetType, GetQos, TotalLength;
    match Reply(GetType(b), GetQos(b))
    case Some((ackType, ackQos)) => AckIsWhole(cfg, ackType, ackQos, Id(b, cfg.bufSize), c.messageId);
    case None => assert Encode(PINGRESP, 0, 0, 0, []) == [0xD0, 0];
  }

  lemma {:induction false} AckIsWhole(cfg: Config, type_: int, qos: nat, wanted: u16, counter: u16)
    requires cfg.Ok() && type_ in {PUBACK, PUBREC, PUBREL, PUBCOMP} && qos < 4
    ensures Acknowledges(AckMessage(type_, qos, wanted, cfg.bufSize, counter))
  {
    var p := AckMessage(type_, qos, wanted, cfg.bufSize, counter);
    AckReadsBack(type_, qos, wanted, cfg.bufSize, counter, []);
    assert p + [] == p;
    HeaderReadsBack(type_, 0, qos, 0, Word(IdFor(wanted, counter)), p, 4);
  }

  lemma {:induction false} PassSupplies(cfg: Config, c: Client, data: seq<byte>, e: Event)
    requires cfg.Ok() && |c.inBuffer| == cfg.bufSize && e.Recv?
    ensures AllSupplied(cfg, e, Pass(cfg, c, data).1)
  {
    hide Answer, Delivery, Supplies, TotalLength, GetType;
    if 0 < |data| < cfg.bufSize {
      var b := Overlay(c.inBuffer, data);
      AnswerSupplies(cfg, c.(inBuffer := b), b, e);
    }
  }

  lemma {:induction false} PassesSupply(cfg: Config, c: Client, data: seq<byte>, rounds: nat, e: Event)
    requires cfg.Ok() && |c.inBuffer| == cfg.bufSize && e.Recv?
    ensures AllSupplied(cfg, e, Passes(cfg, c, data, rounds).1)
    decreases rounds
  {
    hide Pass, Supplies;
    if rounds > 0 {
      PassesSupply(cfg, c, data, rounds - 1, e);
      var (c1, _, rest) := Passes(cfg, c, data, rounds - 1);
      if rest.Some? { PassSupplies(cfg, c1, rest.value, e); }
    }
  }

  lemma {:induction false} OtherSteps(cfg: Config, c: Client, e: Event)
    requires cfg.Ok() && |c.inBuffer| == cfg.bufSize
    requires !e.Publish? && !e.Subscribe? && !e.Unsubscribe? && !e.Ping? && !e.Recv?
    ensures AllSupplied(cfg, e, Next(cfg, c, e).1)
  {
    hide ConnectMessage, Encode, PublishStep, SubscribeStep, Retry, Passes, Supplies;
    if !e.Task? { hide TaskStep; }
  }

  /** Whatever a step offers to the queue is what its event supplied. */
  lemma {:induction false} StepSupplies(cfg: Config, c: Client, e: Event)
    requires cfg.Ok() && |c.inBuffer| == cfg.bufSize
    ensures AllSupplied(cfg, e, Next(cfg, c, e).1)
  {
    hide PublishStep, SubscribeStep, Passes;
    if e.Ping? {
      assert Encode(PINGREQ, 0, 0, 0, []) == [0xC0, 0];
    } else {
      hide AllSupplied;
      match e
      case Publish(_, _, _, _) => PublishSupplies(cfg, c, e);
      case Subscribe(topic, qos) => SubscribeSupplies(cfg, c, e, topic, Some(qos));
      case Unsubscribe(topic) => SubscribeSupplies(cfg, c, e, topic, None);
      case Recv(segment, rounds) => PassesSupply(cfg, c.(keepAliveTick := 0), segment, rounds, e);
      case _ => OtherSteps(cfg, c, e);
    }
  }

  // ---------------------------------------------------------------- whole runs

  /** Some event of the run supplied this packet. */
  ghost predicate Supplied(cfg: Config, es: seq<Event>, p: Packet) {
    exists i: nat :: i < |es| && Supplies(cfg, es[i], p)
  }

  lemma {:induction false} OffersAreSupplied(cfg: Config, es: seq<Event>)
    requires cfg.Ok() && Exec(cfg, es).Some?
    ensures forall a | a in Exec(cfg, es).value.1 && a.Offer? :: Supplied(cfg, es, a.packet)
    decreases |es|
  {
    if es != [] {
      hide Next, Supplies;
      var n := |es| - 1;
      OffersAreSupplied(cfg, es[..n]);
      var (c, log) := Exec(cfg, es[..n]).value;
      StepSupplies(cfg, c, es[n]);
      var acts := Next(cfg, c, es[n]).1;
      forall a | a in log + acts && a.Offer? ensures Supplied(cfg, es, a.packet) {
        if a in log {
          var i: nat :| i < n && Supplies(cfg, es[..n][i], a.packet);
          assert es[i] == es[..n][i];
        } else {
          assert Supplies(cfg, es[n], a.packet);
        }
      }
    }
  }

  lemma {:induction false} InOffered(log: seq<Act>, p: Packet)
    requires p in Offered(log)
    ensures Offer(p) in log
    decreases |log|
  {
    var n := |log| - 1;
    if p in Offered(log[..n]) {
      InOffered(log[..n], p);
    } else {
      assert log[n] == Offer(p);
    }
  }

  lemma {:induction false} InSubsequence<T(!new)>(xs: seq<T>, ys: seq<T>, x: T)
    requires Subsequence(xs, ys) && x in xs
    ensures x in ys
    decreases |ys|
  {
    if Subsequence(xs, ys[..|ys| - 1]) {
      InSubsequence(xs, ys[..|ys| - 1], x);
    } else if x != ys[|ys| - 1] {
      var n := |xs| - 1;
      assert xs == xs[..n] + [xs[n]];
      InSubsequence(xs[..n], ys[..|ys| - 1], x);
    }
  }

  /**
   * Over every run, each packet that was taken out of the queue and sent, and each one still queued, is what some event
   * of the run supplied: it is empty and comes from a request for no topic or for one too long, or its remaining
   * length tells its size and it reads back as the topic and payload published, the request made, the ping, or an
   * acknowledgement.
   */
  lemma {:induction false} SentAsSupplied(cfg: Config, es: seq<Event>)
    requires cfg.Ok() && Exec(cfg, es).Some?
    ensures var (c, log) := Exec(cfg, es).value;
            forall p | p in Dequeued(log) + c.queue :: Supplied(cfg, es, p)
  {
    hide Exec, Dequeued, Supplied, Subsequence;
    FirstInFirstOut(cfg, es);
    OffersAreSupplied(cfg, es);
    var (c, log) := Exec(cfg, es).value;
    forall p | p in Dequeued(log) + c.queue ensures Supplied(cfg, es, p) {
      InSubsequence(Dequeued(log) + c.queue, Offered(log), p);
      InOffered(log, p);
      assert Offer(p).Offer?;
    }
  }

  /** So what is sent is empty or a whole packet. */
  lemma {:induction false} SentWhole(cfg: Config, es: seq<Event>)
    requires cfg.Ok() && Exec(cfg, es).Some?
    ensures forall p | p in Dequeued(Exec(cfg, es).value.1) :: p == [] || Whole(p)
  {
    hide Exec, Dequeued, Supplies, Whole;
    SentAsSupplied(cfg, es);
    var (c, log) := Exec(cfg, es).value;
    forall p | p in Dequeued(log) ensures p == [] || Whole(p) {
      assert p in Dequeued(log) + c.queue;
      var i: nat :| i < |es| && Supplies(cfg, es[i], p);
      SuppliedIsWhole(cfg, es[i], p);
    }
  }

  lemma {:induction false} SuppliedIsWhole(cfg: Config, e: Event, p: Packet)
    requires Supplies(cfg, e, p)
    ensures p == [] || Whole(p)
  {
    hide Whole;
    PingsAreWhole();
  }

  lemma PingsAreWhole()
    ensures Whole([0xC0, 0]) && Whole([0xD0, 0])
  {
    var p: Packet, q: Packet := [0xC0, 0], [0xD0, 0];
    assert VarSum(p, 1, 2) == 0 && VarEnd(p, 1, 2) == 2;
    assert VarSum(q, 1, 2) == 0 && VarEnd(q, 1, 2) == 2;
  }
}
