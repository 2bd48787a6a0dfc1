/** The READPACKET loop of mqtt_tcpclient_recv: when it ends, and what it does with a segment of PUBLISH packets. */
module Receive {
  import opened Bytes
  import opened Proto
  import opened Queues
  import opened MqttMsg
  import opened MqttDecode
  import opened Session
  import opened Runs

  /** The 16-bit message_length of the packet at the start of a segment. */
  function MessageLength(data: seq<byte>): nat { TotalLength(data, |data|) % 0x1_0000 }

  /** In an open session, no packet that the loop reaches has a total length divisible by 0x10000. */
  predicate Halts(data: seq<byte>, bufSize: nat)
    decreases |data|
  {
    0 < |data| < bufSize && GetType(data) == PUBLISH && MessageLength(data) < |data| ==>
      MessageLength(data) > 0 && Halts(data[MessageLength(data)..], bufSize)
  }

  lemma {:induction false} LengthIgnoresTail(b: seq<byte>, data: seq<byte>, i: nat)
    requires data <= b && i >= 1
    ensures VarEnd(b, i, |data|) == VarEnd(data, i, |data|) && VarSum(b, i, |data|) == VarSum(data, i, |data|)
    decreases |data| - i
  {
    if i < |data| {
      assert b[i] == data[i];
      if b[i] >= 0x80 { LengthIgnoresTail(b, data, i + 1); }
    }
  }

  /** A pass goes back to READPACKET exactly on a PUBLISH in an open session that ends before the segment does. */
  lemma {:induction false} PassProgress(cfg: Config, c: Client, data: seq<byte>)
    requires cfg.Ok() && |c.inBuffer| == cfg.bufSize
    ensures var (c', _, rest) := Pass(cfg, c, data);
            && (rest.Some? <==>
                  Open(c) && 0 < |data| < cfg.bufSize && GetType(data) == PUBLISH && MessageLength(data) < |data|)
            && (rest.Some? ==> rest.value == data[MessageLength(data)..] && c'.connState == c.connState)
  {
    hide Answer, Delivery, VarEnd, VarSum;
    if 0 < |data| < cfg.bufSize {
      var b := Overlay(c.inBuffer, data);
      LengthIgnoresTail(b, data, 1);
      assert b[0] == data[0];
      AnswerState(cfg, c.(inBuffer := b), b);
    }
  }

  lemma AnswerState(cfg: Config, c: Client, b: seq<byte>)
    requires 0 < |b| == cfg.bufSize
    ensures Answer(cfg, c, b).0.connState == c.connState
  {
    hide Id, Encode, Frames;
  }

  /** On a halting segment each pass that goes back leaves a shorter halting segment. */
  lemma {:induction false} PassShrinks(cfg: Config, c: Client, data: seq<byte>)
    requires cfg.Ok() && |c.inBuffer| == cfg.bufSize && (Open(c) ==> Halts(data, cfg.bufSize))
    ensures var (c', _, rest) := Pass(cfg, c, data);
            rest.Some? ==> |rest.value| < |data| && Open(c') && Halts(rest.value, cfg.bufSize)
  {
    hide Pass, TotalLength, GetType;
    PassProgress(cfg, c, data);
  }

  lemma NoPasses(cfg: Config, c: Client, data: seq<byte>)
    requires |c.inBuffer| == cfg.bufSize >= 5
    ensures Passes(cfg, c, data, 0) == (c, [], Some(data))
  {}

  lemma {:induction false} OnePassMore(cfg: Config, c: Client, data: seq<byte>, k: nat)
    requires cfg.Ok() && |c.inBuffer| == cfg.bufSize
    ensures var (c1, acts, rest) := Passes(cfg, c, data, k);
            rest.Some? ==> var (c2, more, rest') := Pass(cfg, c1, rest.value);
                           Passes(cfg, c, data, k + 1) == (c2, acts + more, rest')
  {
    hide Pass;
  }

  /** Once the loop has ended, more rounds change nothing. */
  lemma {:induction false} PassesSettle(cfg: Config, c: Client, data: seq<byte>, k: nat, n: nat)
    requires cfg.Ok() && |c.inBuffer| == cfg.bufSize && k <= n
    ensures Passes(cfg, c, data, k).2.None? ==> Passes(cfg, c, data, n) == Passes(cfg, c, data, k)
    decreases n
  {
    hide Pass;
    if k < n { PassesSettle(cfg, c, data, k, n - 1); }
  }

  lemma {:induction false} HaltingShrinks(cfg: Config, c: Client, data: seq<byte>, k: nat)
    requires cfg.Ok() && |c.inBuffer| == cfg.bufSize && (Open(c) ==> Halts(data, cfg.bufSize))
    ensures var (c', _, rest) := Passes(cfg, c, data, k);
            rest.Some? ==> k + |rest.value| <= |data| && (Open(c') ==> Halts(rest.value, cfg.bufSize))
    decreases k
  {
    hide Pass, Halts;
    if k > 0 {
      HaltingShrinks(cfg, c, data, k - 1);
      var (c1, _, rest) := Passes(cfg, c, data, k - 1);
      if rest.Some? { PassShrinks(cfg, c1, rest.value); }
    }
  }

  lemma {:induction false} StuckStays(cfg: Config, c: Client, data: seq<byte>, k: nat)
    requires cfg.Ok() && |c.inBuffer| == cfg.bufSize && Open(c) && !Halts(data, cfg.bufSize)
    ensures var (c', _, rest) := Passes(cfg, c, data, k);
            rest.Some? && Open(c') && !Halts(rest.value, cfg.bufSize)
    decreases k
  {
    hide Pass, TotalLength;
    if k > 0 {
      StuckStays(cfg, c, data, k - 1);
      var (c1, _, rest) := Passes(cfg, c, data, k - 1);
      PassProgress(cfg, c1, rest.value);
      if MessageLength(rest.value) == 0 { assert rest.value[0..] == rest.value; }
    }
  }

  /** The READPACKET loop ends exactly when the session is not open or the segment halts. */
  lemma {:induction false} LoopEnds(cfg: Config, c: Client, data: seq<byte>)
    requires cfg.Ok() && |c.inBuffer| == cfg.bufSize
    ensures (exists k: nat :: Passes(cfg, c, data, k).2.None?) <==> (Open(c) ==> Halts(data, cfg.bufSize))
  {
    hide Passes, Halts;
    if Open(c) && !Halts(data, cfg.bufSize) {
      forall k: nat ensures Passes(cfg, c, data, k).2.Some? { StuckStays(cfg, c, data, k); }
    } else {
      HaltingShrinks(cfg, c, data, |data| + 1);
      assert Passes(cfg, c, data, |data| + 1).2.None?;
    }
  }

  /** A header that announces 65536 bytes in all, which the 16-bit message_length cuts to none. */
  lemma SomeSegmentIsStuck()
    ensures !Halts([0x30, 0xFC, 0xFF, 0x03], 0x500)
  {
    var b: seq<byte> := [0x30, 0xFC, 0xFF, 0x03];
    assert Pow128(0) == 1 && Pow128(1) == 128 && Pow128(2) == 16384;
    assert VarSum(b, 3, 4) == 3 * 16384 && VarEnd(b, 3, 4) == 4;
    assert VarSum(b, 2, 4) == 127 * 128 + 3 * 16384 && VarEnd(b, 2, 4) == 4;
    assert TotalLength(b, 4) == 0x1_0000;
  }

  // ---------------------------------------------------------------- a segment of PUBLISH packets

  /** A PUBLISH as a server may send it: non-empty topic, QoS 0 to 2, an identifier where the QoS asks for one. */
  datatype Message = Message(topic: seq<byte>, payload: seq<byte>, dup: nat, qos: nat, retain: nat, id: u16) {
    predicate WellFormed() {
      topic != [] && |topic| < 0x1_0000 && qos <= 2 && (qos > 0 ==> id != 0)
    }
  }

  function Wire(m: Message): seq<byte>
    requires m.WellFormed()
  {
    Encode(PUBLISH, m.dup, m.qos, m.retain, PublishBody(m.topic, m.payload, m.qos, m.id))
  }

  predicate AllWellFormed(ms: seq<Message>) { forall i | 0 <= i < |ms| :: ms[i].WellFormed() }

  function Segment(ms: seq<Message>): seq<byte>
    requires AllWellFormed(ms)
  {
    if ms == [] then [] else Wire(ms[0]) + Segment(ms[1..])
  }

  /** The acknowledgement of sections 4.3.2 and 4.3.3 of MQTT 3.1.1: PUBACK or PUBREC with the same identifier. */
  function AckOf(m: Message): seq<Packet> {
    if m.qos == 1 then [[0x40, 2, m.id / 0x100, m.id % 0x100]]
    else if m.qos == 2 then [[0x50, 2, m.id / 0x100, m.id % 0x100]]
    else []
  }

  lemma AckBytes(id: u16)
    ensures Encode(PUBACK, 0, 0, 0, Word(id)) == [0x40, 2, id / 0x100, id % 0x100]
    ensures Encode(PUBREC, 0, 0, 0, Word(id)) == [0x50, 2, id / 0x100, id % 0x100]
  {}

  function Acks(ms: seq<Message>): seq<Packet> {
    if ms == [] then [] else Acks(ms[..|ms| - 1]) + AckOf(ms[|ms| - 1])
  }

  /** What a PUBLISH makes the client do: offer the acknowledgement, call dataCb. */
  function ActsOf(m: Message): seq<Act> {
    (if AckOf(m) == [] then [] else [Offer(AckOf(m)[0])]) + [Deliver(Some(m.topic), m.payload)]
  }

  function AllActs(ms: seq<Message>): seq<Act> {
    if ms == [] then [] else AllActs(ms[..|ms| - 1]) + ActsOf(ms[|ms| - 1])
  }

  /** The queue after each acknowledgement has been put if it fitted. */
  function QueueAfter(q: seq<Packet>, ms: seq<Message>, ringSize: nat): seq<Packet> {
    if ms == [] then q
    else
      var q' := QueueAfter(q, ms[..|ms| - 1], ringSize);
      var ack := AckOf(ms[|ms| - 1]);
      if ack != [] && |Frames(q')| + |Frame(ack[0])| <= ringSize then q' + ack else q'
  }

  lemma {:induction false} AnswersPublish(cfg: Config, c: Client, m: Message, b: seq<byte>)
    requires cfg.Ok() && |b| == cfg.bufSize && m.WellFormed() && Wire(m) <= b && |Wire(m)| < |b|
    ensures var (c', acts) := Answer(cfg, c, b);
            && GetType(b) == PUBLISH
            && acts == (if AckOf(m) == [] then [] else [Offer(AckOf(m)[0])])
            && c' == c.(queue := if AckOf(m) == [] then c.queue else Enqueue(cfg, c, AckOf(m)[0]).queue)
  {
    hide Encode, Frames, Id, GetType, GetQos, TotalLength;
    WireSize(cfg, m);
    var n := |Wire(m)|;
    assert Wire(m) + b[n..] == b;
    PublishRoundTrip(m.topic, m.payload, m.dup, m.qos, m.retain, m.id, b[n..], cfg.bufSize - n);
    AckBytes(m.id);
  }

  /**
   * The other answers, byte for byte as sections 3.5, 3.6, 3.7 and 3.13 of MQTT 3.1.1 have them: PUBREC is answered
   * by PUBREL and PUBREL by PUBCOMP, each with the same identifier, PINGREQ by PINGRESP, and nothing else by anything.
   */
  lemma {:induction false} AnswersFlow(cfg: Config, c: Client, id: u16, b: seq<byte>)
    requires cfg.Ok() && |b| == cfg.bufSize && id != 0
    ensures [0x50, 2] + Word(id) <= b ==>
              var m := [0x62, 2] + Word(id); Answer(cfg, c, b) == (Enqueue(cfg, c, m), [Offer(m)])
    ensures [0x62, 2] + Word(id) <= b ==>
              var m := [0x70, 2] + Word(id); Answer(cfg, c, b) == (Enqueue(cfg, c, m), [Offer(m)])
    ensures [0xC0, 0] <= b ==> Answer(cfg, c, b) == (Enqueue(cfg, c, [0xD0, 0]), [Offer([0xD0, 0])])
    ensures GetType(b) !in {PUBLISH, PUBREC, PUBREL, PINGREQ} ==> Answer(cfg, c, b) == (c, [])
  {
    hide Enqueue, VarEnd, Topic;
    if [0x50, 2] + Word(id) <= b {
      var p := [0x50, 2] + Word(id);
      assert b[0] == p[0] && b[1] == p[1] && b[2] == p[2] && b[3] == p[3];
      assert Encode(PUBREL, 0, 1, 0, Word(id)) == [0x62, 2] + Word(id);
    }
    if [0x62, 2] + Word(id) <= b {
      var p := [0x62, 2] + Word(id);
      assert b[0] == p[0] && b[1] == p[1] && b[2] == p[2] && b[3] == p[3];
      assert Encode(PUBCOMP, 0, 0, 0, Word(id)) == [0x70, 2] + Word(id);
    }
    if [0xC0, 0] <= b {
      assert b[0] == 0xC0;
      assert Encode(PINGRESP, 0, 0, 0, []) == [0xD0, 0];
    }
  }

  lemma {:induction false} WireSize(cfg: Config, m: Message)
    requires cfg.Ok() && m.WellFormed() && |Wire(m)| < cfg.bufSize
    ensures |PublishBody(m.topic, m.payload, m.qos, m.id)| <= MAX_REMAINING && |Wire(m)| >= 2
  {}

  lemma {:induction false} DeliversPublish(cfg: Config, m: Message, b: seq<byte>, length: nat)
    requires cfg.Ok() && m.WellFormed() && Wire(m) <= b && |Wire(m)| <= length <= |b| && |Wire(m)| < cfg.bufSize
    ensures Delivery(b, length) == Deliver(Some(m.topic), m.payload) && TotalLength(b, length) == |Wire(m)|
  {
    hide Encode, Id, GetType, GetQos, TotalLength, Topic, Payload;
    WireSize(cfg, m);
    var n := |Wire(m)|;
    assert Wire(m) + b[n..] == b;
    PublishRoundTrip(m.topic, m.payload, m.dup, m.qos, m.retain, m.id, b[n..], length - n);
  }

  /** One pass over a PUBLISH with more bytes, or none, behind it. */
  lemma {:induction false} PassOverPublish(cfg: Config, c: Client, m: Message, tail: seq<byte>)
    requires cfg.Ok() && |c.inBuffer| == cfg.bufSize && Open(c) && m.WellFormed() && |Wire(m) + tail| < cfg.bufSize
    ensures var (c', acts, rest) := Pass(cfg, c, Wire(m) + tail);
            && acts == ActsOf(m) && rest == (if tail == [] then None else Some(tail))
            && c'.queue == QueueAfter(c.queue, [m], cfg.ringSize)
            && c' == c.(inBuffer := c'.inBuffer, queue := c'.queue, posted := if tail == [] then true else c.posted)
  {
    hide Wire, Answer, Delivery, TotalLength, GetType, Frames;
    var data := Wire(m) + tail;
    var b := Overlay(c.inBuffer, data);
    assert Wire(m) <= b;
    AnswersPublish(cfg, c.(inBuffer := b), m, b);
    WireSize(cfg, m);
    DeliversPublish(cfg, m, b, |data|);
    assert data[|Wire(m)|..] == tail;
    assert [m][..0] == [] && QueueAfter(c.queue, [], cfg.ringSize) == c.queue;
    assert data[0..] == data;
  }

  lemma {:induction false} SegmentFrom(ms: seq<Message>, k: nat)
    requires AllWellFormed(ms) && k < |ms|
    ensures Segment(ms[k..]) == Wire(ms[k]) + Segment(ms[k + 1..])
    ensures |Segment(ms[k..])| <= |Segment(ms)|
    ensures k + 1 < |ms| ==> Segment(ms[k + 1..]) != []
    decreases k
  {
    hide Wire;
    assert ms[k..][0] == ms[k] && ms[k..][1..] == ms[k + 1..];
    if k > 0 {
      SegmentFrom(ms, k - 1);
    } else {
      assert ms[0..] == ms;
    }
    if k + 1 < |ms| {
      assert ms[k + 1..][0] == ms[k + 1];
      WireNotEmpty(ms[k + 1]);
    }
  }

  lemma WireNotEmpty(m: Message)
    requires m.WellFormed()
    ensures Wire(m) != []
  {}

  /** After `k` passes over PUBLISH packets and a tail, the first `k` packets are delivered and answered. */
  lemma {:induction false} PassesOverSegment(cfg: Config, c: Client, ms: seq<Message>, tail: seq<byte>, k: nat)
    requires cfg.Ok() && |c.inBuffer| == cfg.bufSize && Open(c) && AllWellFormed(ms)
    requires 0 < |Segment(ms) + tail| < cfg.bufSize && k <= |ms|
    ensures var (c', acts, rest) := Passes(cfg, c, Segment(ms) + tail, k);
            var done := k == |ms| && tail == [];
            && acts == AllActs(ms[..k]) && c'.queue == QueueAfter(c.queue, ms[..k], cfg.ringSize)
            && rest == (if done then None else Some(Segment(ms[k..]) + tail))
            && c' == c.(inBuffer := c'.inBuffer, queue := c'.queue, posted := if done then true else c.posted)
    decreases k
  {
    hide Pass, Wire, Segment, ActsOf, Frames, Frame;
    NoSegment();
    if k == 0 {
      assert ms[0..] == ms;
    } else {
      PassesOverSegment(cfg, c, ms, tail, k - 1);
      var (c1, acts, rest) := Passes(cfg, c, Segment(ms) + tail, k - 1);
      SegmentFrom(ms, k - 1);
      ConcatAssoc(Wire(ms[k - 1]), Segment(ms[k..]), tail);
      PassOverPublish(cfg, c1, ms[k - 1], Segment(ms[k..]) + tail);
      assert k == |ms| ==> ms[k..] == [];
      assert ms[..k][..k - 1] == ms[..k - 1] && [ms[k - 1]][..0] == [];
    }
  }

  lemma {:induction false} QueueAfterGrows(q: seq<Packet>, ms: seq<Message>, ringSize: nat) returns (sub: seq<Packet>)
    ensures QueueAfter(q, ms, ringSize) == q + sub && Subsequence(sub, Acks(ms))
    decreases |ms|
  {
    hide Frames, Encode, Subsequence;
    if ms == [] {
      sub := [];
      SubsequenceRefl(sub);
    } else {
      var init, ack := ms[..|ms| - 1], AckOf(ms[|ms| - 1]);
      sub := QueueAfterGrows(q, init, ringSize);
      assert Acks(init) + [] == Acks(init);
      if ack != [] {
        SubsequenceOffer(sub, Acks(init), ack[0]);
        if |Frames(q + sub)| + |Frame(ack[0])| <= ringSize {
          assert q + sub + ack == q + (sub + [ack[0]]);
          sub := sub + [ack[0]];
        }
      }
    }
  }

  lemma {:induction false} QueueAfterHasAll(q: seq<Packet>, ms: seq<Message>, ringSize: nat)
    requires |Frames(q)| + |Frames(Acks(ms))| <= ringSize
    ensures QueueAfter(q, ms, ringSize) == q + Acks(ms)
    decreases |ms|
  {
    hide Frames, Encode;
    if ms != [] {
      var init, ack := ms[..|ms| - 1], AckOf(ms[|ms| - 1]);
      assert Acks(init) + [] == Acks(init);
      if ack != [] { FramesAppend(Acks(init), ack[0]); }
      QueueAfterHasAll(q, init, ringSize);
      FramesConcat(q, Acks(init));
      ConcatAssoc(q, Acks(init), ack);
    }
  }

  lemma {:induction false} FramesConcat(p: seq<Packet>, q: seq<Packet>)
    ensures Frames(p + q) == Frames(p) + Frames(q)
    decreases |p|
  {
    hide Frame;
    if p == [] {
      assert p + q == q;
    } else {
      assert (p + q)[1..] == p[1..] + q;
      FramesConcat(p[1..], q);
      ConcatAssoc(Frame(p[0]), Frames(p[1..]), Frames(q));
    }
  }

  function Deliveries(acts: seq<Act>): seq<Act> {
    if acts == [] then []
    else Deliveries(acts[..|acts| - 1]) + if acts[|acts| - 1].Deliver? then [acts[|acts| - 1]] else []
  }

  lemma {:induction false} OneMoreAct(acts: seq<Act>, a: Act)
    ensures Offered(acts + [a]) == Offered(acts) + if a.Offer? then [a.packet] else []
    ensures Deliveries(acts + [a]) == Deliveries(acts) + if a.Deliver? then [a] else []
  {
    assert (acts + [a])[..|acts|] == acts;
  }

  lemma {:induction false} ActsAre(ms: seq<Message>)
    ensures Offered(AllActs(ms)) == Acks(ms)
    ensures Deliveries(AllActs(ms)) == seq(|ms|, i requires 0 <= i < |ms| => Deliver(Some(ms[i].topic), ms[i].payload))
    decreases |ms|
  {
    hide Encode, Offered, Deliveries;
    if ms == [] {
      NoActs();
    } else {
      var init, m := ms[..|ms| - 1], ms[|ms| - 1];
      ActsAre(init);
      var acts, d := AllActs(init), Deliver(Some(m.topic), m.payload);
      if AckOf(m) == [] {
        assert AllActs(ms) == acts + [d] && Offered(acts) + [] == Offered(acts);
        OneMoreAct(acts, d);
      } else {
        var o := Offer(AckOf(m)[0]);
        assert AllActs(ms) == acts + [o] + [d] && Offered(acts + [o]) + [] == Offered(acts + [o]);
        OneMoreAct(acts, o);
        OneMoreAct(acts + [o], d);
        assert Deliveries(acts) + [] == Deliveries(acts);
      }
    }
  }

  lemma NoActs()
    ensures Offered([]) == [] && Deliveries([]) == []
  {}

  /**
   * In an open session, a segment that is a concatenation of whole PUBLISH packets and shorter than the buffer is
   * read in as many passes as it has packets: dataCb is called once per packet, in order, with its topic and
   * payload, and the matching PUBACK and PUBREC packets are offered to the queue in order; the queue gains a
   * subsequence of them, all of them if there is room. Nothing else but in_buffer and the pending event changes.
   */
  lemma {:induction false} SegmentIsDelivered(cfg: Config, c: Client, ms: seq<Message>, rounds: nat)
      returns (sub: seq<Packet>)
    requires cfg.Ok() && |c.inBuffer| == cfg.bufSize && Open(c) && AllWellFormed(ms)
    requires 0 < |Segment(ms)| < cfg.bufSize && rounds >= |ms|
    ensures var (c', acts, rest) := Passes(cfg, c, Segment(ms), rounds);
            && rest == None
            && Deliveries(acts) == seq(|ms|, i requires 0 <= i < |ms| => Deliver(Some(ms[i].topic), ms[i].payload))
            && Offered(acts) == Acks(ms) && |acts| == |ms| + |Acks(ms)|
            && c' == c.(inBuffer := c'.inBuffer, queue := c.queue + sub, posted := true)
    ensures Subsequence(sub, Acks(ms))
    ensures |Frames(c.queue)| + |Frames(Acks(ms))| <= cfg.ringSize ==> sub == Acks(ms)
  {
    hide Passes, AllActs, QueueAfter, Frames, Acks, Segment, Deliveries, Offered;
    assert Segment(ms) + [] == Segment(ms);
    PassesOverSegment(cfg, c, ms, [], |ms|);
    assert ms[..|ms|] == ms;
    PassesSettle(cfg, c, Segment(ms), |ms|, rounds);
    ActsAre(ms);
    ActsCount(ms);
    sub := QueueAfterGrows(c.queue, ms, cfg.ringSize);
    if |Frames(c.queue)| + |Frames(Acks(ms))| <= cfg.ringSize {
      QueueAfterHasAll(c.queue, ms, cfg.ringSize);
      assert (c.queue + sub)[|c.queue|..] == sub && (c.queue + Acks(ms))[|c.queue|..] == Acks(ms);
    }
  }

  lemma {:induction false} ActsCount(ms: seq<Message>)
    ensures |AllActs(ms)| == |ms| + |Acks(ms)|
    decreases |ms|
  {
    hide Encode;
    if ms != [] { ActsCount(ms[..|ms| - 1]); }
  }

  lemma {:induction false} PassOverOther(cfg: Config, c: Client, data: seq<byte>)
    requires cfg.Ok() && |c.inBuffer| == cfg.bufSize && Open(c) && 0 < |data| < cfg.bufSize && GetType(data) != PUBLISH
    ensures var (c', acts, rest) := Pass(cfg, c, data);
            && rest.None? && c'.inBuffer == Overlay(c.inBuffer, data)
            && acts == Answer(cfg, c.(inBuffer := c'.inBuffer), c'.inBuffer).1
  {
    hide Answer;
    assert Overlay(c.inBuffer, data)[0] == data[0];
  }

  lemma AnswerIgnoresQueue(cfg: Config, c: Client, c1: Client, b: seq<byte>)
    requires 0 < |b| == cfg.bufSize && c1.messageId == c.messageId
    ensures Answer(cfg, c1, b).1 == Answer(cfg, c, b).1 && forall a | a in Answer(cfg, c, b).1 :: a.Offer?
  {
    hide Id, AckMessage, Encode, Enqueue;
  }

  lemma {:induction false} NoDeliveries(acts: seq<Act>, more: seq<Act>)
    requires forall a | a in more :: a.Offer?
    ensures Deliveries(acts + more) == Deliveries(acts)
    decreases |more|
  {
    if more == [] {
      assert acts + more == acts;
    } else {
      var n := |more| - 1;
      assert more[n] in more;
      NoDeliveries(acts, more[..n]);
      assert acts + more == acts + more[..n] + [more[n]];
      OneMoreAct(acts + more[..n], more[n]);
      assert Deliveries(acts) + [] == Deliveries(acts);
    }
  }

  /**
   * A packet of any other type ends the loop: it is answered, but what stands behind it in the segment, PUBLISH packets
   * included, is neither delivered nor answered.
   */
  lemma {:induction false} OtherPacketEndsSegment(cfg: Config, c: Client, ms: seq<Message>, other: seq<byte>,
                                                  lost: seq<byte>, rounds: nat)
    requires cfg.Ok() && |c.inBuffer| == cfg.bufSize && Open(c) && AllWellFormed(ms)
    requires other != [] && GetType(other) != PUBLISH
    requires |Segment(ms) + (other + lost)| < cfg.bufSize && rounds > |ms|
    ensures var (c', acts, rest) := Passes(cfg, c, Segment(ms) + (other + lost), rounds);
            && rest == None && other <= c'.inBuffer
            && Deliveries(acts) == seq(|ms|, i requires 0 <= i < |ms| => Deliver(Some(ms[i].topic), ms[i].payload))
            && acts == AllActs(ms) + Answer(cfg, c, c'.inBuffer).1
  {
    hide Pass, Passes, AllActs, QueueAfter, Segment, Deliveries, Answer;
    var n, tail := |ms|, other + lost;
    var data := Segment(ms) + tail;
    PassesOverSegment(cfg, c, ms, tail, n);
    assert ms[..n] == ms && ms[n..] == [];
    NoSegment();
    assert [] + tail == tail;
    var c1 := Passes(cfg, c, data, n).0;
    PassOverOther(cfg, c1, tail);
    OnePassMore(cfg, c, data, n);
    PassesSettle(cfg, c, data, n + 1, rounds);
    var b := Pass(cfg, c1, tail).0.inBuffer;
    AnswerIgnoresQueue(cfg, c, c1.(inBuffer := b), b);
    ActsAre(ms);
    NoDeliveries(AllActs(ms), Answer(cfg, c, b).1);
  }

  lemma NoSegment()
    ensures Segment([]) == []
  {}
}
