/** What holds over every run of the MQTT client: queue order, session, keep alive and wake-up, pacing. */
module Runs {
  import opened Bytes
  import opened Proto
  import opened Queues
  import opened MqttMsg
  import opened MqttDecode
  import opened Session

  /** The client and its log after a sequence of events from initialisation; None if some event could not occur. */
  function Exec(cfg: Config, es: seq<Event>): (r: Option<(Client, seq<Act>)>)
    requires cfg.Ok()
    ensures r.Some? ==> |r.value.0.inBuffer| == cfg.bufSize
    decreases |es|
  {
    if es == [] then Some((Init(cfg), []))
    else
      var e := es[|es| - 1];
      match Exec(cfg, es[..|es| - 1])
      case None => None
      case Some((c, log)) =>
        if Enabled(c, e) then var (c', acts) := Next(cfg, c, e); Some((c', log + acts)) else None
  }

  lemma {:induction false} ExecMore(cfg: Config, es: seq<Event>, e: Event, c: Client, log: seq<Act>)
    requires cfg.Ok() && |c.inBuffer| == cfg.bufSize && Exec(cfg, es) == Some((c, log)) && Enabled(c, e)
    ensures var (c', acts) := Next(cfg, c, e); Exec(cfg, es + [e]) == Some((c', log + acts))
  {
    hide Next;
    assert (es + [e])[..|es|] == es;
  }

  lemma RecvIsPasses(cfg: Config, c: Client, segment: seq<byte>, rounds: nat)
    requires cfg.Ok() && |c.inBuffer| == cfg.bufSize
    ensures var (c', acts, _) := Passes(cfg, c.(keepAliveTick := 0), segment, rounds);
            Next(cfg, c, Recv(segment, rounds)) == (c', acts)
  {
    hide Passes;
  }

  // ---------------------------------------------------------------- first in, first out

  function Offered(log: seq<Act>): seq<Packet> {
    if log == [] then []
    else Offered(log[..|log| - 1]) + if log[|log| - 1].Offer? then [log[|log| - 1].packet] else []
  }

  function Dequeued(log: seq<Act>): seq<Packet> {
    if log == [] then []
    else Dequeued(log[..|log| - 1]) + if log[|log| - 1].Dequeue? then [log[|log| - 1].packet] else []
  }

  ghost predicate Bounded(ps: seq<Packet>, n: nat) { forall p | p in ps :: |p| <= n }

  /** Everything sent or still queued was offered, in this order. */
  ghost predicate Fifo(log: seq<Act>, q: seq<Packet>) { Subsequence(Dequeued(log) + q, Offered(log)) }

  predicate Quiet(a: Act) { !a.Offer? && !a.Dequeue? }

  lemma {:induction false} FifoQuiet(log: seq<Act>, a: Act, q: seq<Packet>)
    requires Fifo(log, q) && Quiet(a)
    ensures Fifo(log + [a], q)
  {
    assert (log + [a])[..|log|] == log;
    assert Dequeued(log) + [] == Dequeued(log) && Offered(log) + [] == Offered(log);
  }

  /** Oldest packets dropped. */
  lemma {:induction false} FifoDrop(log: seq<Act>, q: seq<Packet>, k: nat)
    requires Fifo(log, q) && k <= |q|
    ensures Fifo(log, q[k..])
  {
    assert Dequeued(log) + q == Dequeued(log) + q[..k] + q[k..];
    SubsequenceDrop(Dequeued(log), q[..k], q[k..], Offered(log));
  }

  /** One packet offered, and queued or not. */
  lemma {:induction false} FifoOffer(log: seq<Act>, q: seq<Packet>, m: Packet)
    requires Fifo(log, q)
    ensures Fifo(log + [Offer(m)], q) && Fifo(log + [Offer(m)], q + [m])
  {
    assert (log + [Offer(m)])[..|log|] == log;
    assert Dequeued(log) + [] == Dequeued(log);
    SubsequenceOffer(Dequeued(log) + q, Offered(log), m);
    assert Dequeued(log) + (q + [m]) == Dequeued(log) + q + [m];
  }

  lemma {:induction false} FifoDequeue(log: seq<Act>, q: seq<Packet>)
    requires Fifo(log, q) && q != []
    ensures Fifo(log + [Dequeue(q[0])], q[1..])
  {
    assert (log + [Dequeue(q[0])])[..|log|] == log;
    assert Offered(log) + [] == Offered(log);
    assert Dequeued(log) + q == Dequeued(log) + [q[0]] + q[1..];
  }

  // What a builder returns fits the buffer it was built in, and so the buffer it is read back into.

  lemma {:induction false} PublishBound(cfg: Config, e: Event, counter: u16)
    requires cfg.Ok() && e.Publish?
    ensures |PublishMessage(e.topic, e.payload, e.qos, e.retain, cfg.bufSize, counter)| <= cfg.bufSize
  {}

  lemma {:induction false} SubscribeBound(cfg: Config, type_: int, topic: Option<seq<byte>>, qos: Option<byte>,
                                          counter: u16)
    requires cfg.Ok()
    ensures |SubscribeMessage(type_, topic, qos, cfg.bufSize, counter)| <= cfg.bufSize
  {}

  lemma {:induction false} AckBound(cfg: Config, type_: int, qos: int, id: u16, counter: u16)
    requires cfg.Ok()
    ensures |AckMessage(type_, qos, id, cfg.bufSize, counter)| <= cfg.bufSize
  {}

  ghost predicate Ordered(cfg: Config, c: Client, log: seq<Act>) {
    Fifo(log, c.queue) && Bounded(c.queue, cfg.bufSize)
  }

  lemma {:induction false} EnqueueOrdered(cfg: Config, c: Client, log: seq<Act>, m: Packet)
    requires |m| <= cfg.bufSize && Ordered(cfg, c, log)
    ensures Ordered(cfg, Enqueue(cfg, c, m), log + [Offer(m)])
  {
    hide Fifo;
    FifoOffer(log, c.queue, m);
  }

  lemma {:induction false} RetryOrdered(cfg: Config, c: Client, log: seq<Act>, m: Packet)
    requires |m| <= cfg.bufSize && Ordered(cfg, c, log)
    ensures var (c', acts) := Retry(cfg, c, m); Ordered(cfg, c', log + acts)
  {
    hide Fifo, LeastDrop, Kept, Frame, Frames;
    var k := KeptDropsFewest(c.queue, |Frame(m)|, cfg.ringSize);
    var k' := if |Frame(m)| <= cfg.ringSize then k else |c.queue|;
    FifoDrop(log, c.queue, k');
    FifoOffer(log, c.queue[k'..], m);
    assert k' == |c.queue| ==> c.queue[k'..] == [];
    var kept := c.queue[k'..];
    assert forall p | p in kept + [m] :: p in c.queue || p == m;
  }

  lemma {:induction false} PublishOrdered(cfg: Config, c: Client, log: seq<Act>, e: Event)
    requires cfg.Ok() && e.Publish? && Ordered(cfg, c, log)
    ensures var (c', acts) := PublishStep(cfg, c, e); Ordered(cfg, c', log + acts)
  {
    hide Fifo, Frame, Frames, Enqueue, Kept, PublishMessage, PublishCounter;
    var m := PublishMessage(e.topic, e.payload, e.qos, e.retain, cfg.bufSize, c.messageId);
    var c1 := c.(messageId := PublishCounter(e.topic, e.qos, cfg.bufSize, c.messageId),
                 outByte := FirstByte(c.outByte, m));
    PublishBound(cfg, e, c.messageId);
    if m == [] {
      assert log + [] == log;
    } else if |m| + 2 > cfg.ringSize {
      FifoDrop(log, c.queue, |c.queue|);
      assert log + [] == log && c.queue[|c.queue|..] == [];
    } else {
      var k := KeptDropsFewest(c.queue, |m| + 2, cfg.ringSize);
      FifoDrop(log, c.queue, k);
      EnqueueOrdered(cfg, c1.(queue := c.queue[k..]), log, m);
    }
  }

  lemma {:induction false} DataOrdered(cfg: Config, c: Client, log: seq<Act>, stale: byte)
    requires Ordered(cfg, c, log)
    ensures var (c', acts) := DataStep(cfg, c, stale); Ordered(cfg, c', log + acts)
  {
    hide Fifo;
    assert log + [] == log;
    if c.queue != [] && c.sendTimeout == 0 {
      assert c.queue[0] in c.queue;
      FifoDequeue(log, c.queue);
    }
  }

  lemma {:induction false} AnswerOrdered(cfg: Config, c: Client, log: seq<Act>, b: seq<byte>)
    requires cfg.Ok() && |b| == cfg.bufSize && Ordered(cfg, c, log)
    ensures var (c', acts) := Answer(cfg, c, b); Ordered(cfg, c', log + acts)
  {
    hide Fifo, Id, GetType, GetQos;
    var (c', acts) := Answer(cfg, c, b);
    assert log + [] == log;
    match Reply(GetType(b), GetQos(b))
    case Some((ackType, ackQos)) =>
      AckBound(cfg, ackType, ackQos, Id(b, cfg.bufSize), c.messageId);
      EnqueueOrdered(cfg, c.(messageId := c'.messageId), log, acts[0].packet);
    case None =>
      if acts != [] { EnqueueOrdered(cfg, c, log, acts[0].packet); }
  }

  lemma {:induction false} PassOrdered(cfg: Config, c: Client, log: seq<Act>, data: seq<byte>)
    requires cfg.Ok() && |c.inBuffer| == cfg.bufSize && Ordered(cfg, c, log)
    ensures var (c', acts, _) := Pass(cfg, c, data); Ordered(cfg, c', log + acts)
  {
    hide Fifo, Answer, Delivery;
    assert log + [] == log;
    if 0 < |data| < cfg.bufSize {
      var b := Overlay(c.inBuffer, data);
      var c1 := c.(inBuffer := b);
      FifoQuiet(log, Connack(data, b), c.queue);
      AnswerOrdered(cfg, c1, log, b);
      var (c2, answers) := Answer(cfg, c1, b);
      FifoQuiet(log + answers, Delivery(b, |data|), c2.queue);
      ConcatAssoc(log, answers, [Delivery(b, |data|)]);
    }
  }

  lemma {:induction false} PassesOrdered(cfg: Config, c: Client, log: seq<Act>, data: seq<byte>, rounds: nat)
    requires cfg.Ok() && |c.inBuffer| == cfg.bufSize && Ordered(cfg, c, log)
    ensures var (c', acts, _) := Passes(cfg, c, data, rounds); Ordered(cfg, c', log + acts)
    decreases rounds
  {
    hide Ordered, Pass;
    assert log + [] == log;
    if rounds > 0 {
      PassesOrdered(cfg, c, log, data, rounds - 1);
      var (c1, acts, rest) := Passes(cfg, c, data, rounds - 1);
      if rest.Some? {
        PassOrdered(cfg, c1, log + acts, rest.value);
        ConcatAssoc(log, acts, Pass(cfg, c1, rest.value).1);
      }
    }
  }

  lemma {:induction false} FifoQuietAll(log: seq<Act>, acts: seq<Act>, q: seq<Packet>)
    requires Fifo(log, q) && forall a | a in acts :: Quiet(a)
    ensures Fifo(log + acts, q)
    decreases |acts|
  {
    hide Fifo;
    if acts == [] {
      assert log + acts == log;
    } else {
      var n := |acts| - 1;
      FifoQuietAll(log, acts[..n], q);
      FifoQuiet(log + acts[..n], acts[n], q);
      assert log + acts[..n] + [acts[n]] == log + acts;
    }
  }

  /** The steps that neither offer nor dequeue. */
  lemma {:induction false} QuietSteps(cfg: Config, c: Client, e: Event)
    requires cfg.Ok() && |c.inBuffer| == cfg.bufSize
    requires !e.Publish? && !e.Subscribe? && !e.Unsubscribe? && !e.Ping? && !e.Recv?
    requires !(e.Task? && c.connState == MqttData)
    ensures var (c', acts) := Next(cfg, c, e); c'.queue == c.queue && forall a | a in acts :: Quiet(a)
  {
    hide ConnectMessage, PublishStep, SubscribeStep, Retry, TaskStep, Passes;
    if e.Task? { TaskIsQuiet(cfg, c, e.sendOk, e.stale); }
  }

  lemma {:induction false} TaskIsQuiet(cfg: Config, c: Client, sendOk: bool, stale: byte)
    requires c.connState != MqttData
    ensures var (c', acts) := TaskStep(cfg, c, sendOk, stale); c'.queue == c.queue && forall a | a in acts :: Quiet(a)
  {
    hide Encode, DataStep;
  }

  lemma {:induction false} NextOrdered(cfg: Config, c: Client, log: seq<Act>, e: Event)
    requires cfg.Ok() && |c.inBuffer| == cfg.bufSize && Ordered(cfg, c, log)
    ensures var (c', acts) := Next(cfg, c, e); Ordered(cfg, c', log + acts)
  {
    hide Fifo, Passes, Retry, PublishStep, DataStep, SubscribeMessage, ConnectMessage, Encode;
    if e.Publish? {
      PublishOrdered(cfg, c, log, e);
    } else if e.Subscribe? {
      SubscribeOrdered(cfg, c, log, SUBSCRIBE, e.topic, Some(e.reqQos));
    } else if e.Unsubscribe? {
      SubscribeOrdered(cfg, c, log, UNSUBSCRIBE, e.topic, None);
    } else if e.Ping? {
      PingBound();
      RetryOrdered(cfg, c, log, Encode(PINGREQ, 0, 0, 0, []));
    } else if e.Recv? {
      PassesOrdered(cfg, c.(keepAliveTick := 0), log, e.segment, e.rounds);
    } else if e.Task? && c.connState == MqttData {
      DataOrdered(cfg, c.(posted := false), log, e.stale);
    } else {
      QuietSteps(cfg, c, e);
      FifoQuietAll(log, Next(cfg, c, e).1, c.queue);
    }
  }

  lemma {:induction false} SubscribeOrdered(cfg: Config, c: Client, log: seq<Act>, type_: int, topic: Option<seq<byte>>,
                                            qos: Option<byte>)
    requires cfg.Ok() && Ordered(cfg, c, log)
    ensures var (c', acts) := SubscribeStep(cfg, c, type_, topic, qos); Ordered(cfg, c', log + acts)
  {
    hide Fifo, Retry;
    SubscribeBound(cfg, type_, topic, qos, c.messageId);
    var m := SubscribeMessage(type_, topic, qos, cfg.bufSize, c.messageId);
    RetryOrdered(cfg, Requested(c, topic, m), log, m);
  }

  lemma PingBound()
    ensures |Encode(PINGREQ, 0, 0, 0, [])| == 2
  {}

  /**
   * First in, first out, over every run: the packets MQTT_Task took out of the queue and sent, followed by
   * those still queued, are a subsequence of the packets offered to the queue. So none is sent twice, cut,
   * merged or overtaken, whatever reconnects, failed puts and drops happen in between.
   */
  lemma {:induction false} FirstInFirstOut(cfg: Config, es: seq<Event>)
    requires cfg.Ok() && Exec(cfg, es).Some?
    ensures var (c, log) := Exec(cfg, es).value;
            Subsequence(Dequeued(log) + c.queue, Offered(log)) && Bounded(c.queue, cfg.bufSize)
    decreases |es|
  {
    if es != [] {
      var init, e := es[..|es| - 1], es[|es| - 1];
      FirstInFirstOut(cfg, init);
      var (c, log) := Exec(cfg, init).value;
      NextOrdered(cfg, c, log, e);
    }
  }

  /**
   * A call that MQTT_Publish answers with TRUE (its packet and two delimiters fit the ring) and whose packet is in no
   * queue: 504 bytes 0x7D on topic "a", at QoS 0, in the build with 1280 and 512 bytes of buffers and an empty queue.
   */
  lemma {:induction false} LuckCanFail(cfg: Config)
    requires cfg.Ok() && cfg.bufSize == 0x500 && cfg.ringSize == 512
    ensures var m, (c', acts) := Spiky(504, 0x500, 0),
                                 Next(cfg, Init(cfg), Publish(Some([97]), seq(504, _ => ESC), 0, 0));
            m != [] && |m| + 2 <= cfg.ringSize && acts == [Offer(m)] && c'.queue == []
  {
    hide PublishMessage, PublishCounter, Stuff;
    SpikyFrame(504, 0x500, 0);
  }
}
