/** The older queue of esp_mqtt-master/mqtt/queue.c, which leaves torn frames behind when the ring is full. */
module LegacyQueues {
  import opened Bytes
  import opened RingBuffers
  import opened Proto
  import opened Queues
  import opened MqttMsg

  /** A frame in the ring: complete, or cut after `n` bytes because the ring was full. */
  datatype Item = Whole(packet: Packet) | Torn(packet: Packet, n: nat)
  {
    ghost predicate Ok() { Torn? ==> n < |Frame(packet)| }

    function Bytes(): seq<byte> requires Ok() {
      if Whole? then Frame(packet) else Frame(packet)[..n]
    }
  }

  type OkItem = i: Item | i.Ok() witness Whole([])

  function Stream(items: seq<OkItem>): seq<byte> {
    if items == [] then [] else items[0].Bytes() + Stream(items[1..])
  }

  /** The packets of the complete frames, in order. */
  function Wholes(items: seq<OkItem>): seq<Packet> {
    if items == [] then []
    else (if items[0].Whole? then [items[0].packet] else []) + Wholes(items[1..])
  }

  /** What is left behind the first complete frame. */
  function AfterWhole(items: seq<OkItem>): seq<OkItem> {
    if items == [] then [] else if items[0].Whole? then items[1..] else AfterWhole(items[1..])
  }

  lemma {:induction false} StreamAppend(items: seq<OkItem>, i: OkItem)
    ensures Stream(items + [i]) == Stream(items) + i.Bytes()
    decreases |items|
  {
    var all := items + [i];
    if items == [] {
      assert all[1..] == [];
    } else {
      StreamAppend(items[1..], i);
      assert all[1..] == items[1..] + [i];
      ConcatAssoc(items[0].Bytes(), Stream(items[1..]), i.Bytes());
    }
  }

  lemma {:induction false} WholesAppend(items: seq<OkItem>, i: OkItem)
    ensures Wholes(items + [i]) == Wholes(items) + if i.Whole? then [i.packet] else []
    decreases |items|
  {
    var all := items + [i];
    if items == [] {
      assert all[1..] == [];
    } else {
      WholesAppend(items[1..], i);
      assert all[1..] == items[1..] + [i];
    }
  }

  lemma {:induction false} TornHasNoEnd(p: Packet, n: nat)
    requires n < |Frame(p)|
    ensures END !in Frame(p)[..n]
  {
    StuffHasNoDelimiter(p);
    assert forall b | b in Frame(p)[..n] :: b in [BEGIN] + Stuff(p);
  }

  lemma {:induction false} Unfold(items: seq<OkItem>)
    requires items != []
    ensures Stream(items) == items[0].Bytes() + Stream(items[1..])
    ensures items[0].Torn? ==> Wholes(items) == Wholes(items[1..]) && AfterWhole(items) == AfterWhole(items[1..])
    ensures items[0].Whole? ==>
              && Wholes(items) != [] && Wholes(items)[0] == items[0].packet && Wholes(items)[1..] == Wholes(items[1..])
              && AfterWhole(items) == items[1..] && items[0].Bytes() == Frame(items[0].packet)
  {
    hide Frame;
  }

  /** Self-synchronisation: from any parser state, torn frames are skipped and the first complete one is read whole. */
  lemma {:induction false} ParseStream(q: Parser, items: seq<OkItem>, max: nat)
    ensures Parse(q, Stream(items), max)
         == if Wholes(items) == [] then NoFrame
            else Parsed.Packet(Limit(Wholes(items)[0], max), Stream(AfterWhole(items)))
    ensures Wholes(items) != [] ==> Wholes(AfterWhole(items)) == Wholes(items)[1..]
    decreases |items|
  {
    if items != [] {
      hide Stream, Wholes, AfterWhole, Frame, Limit, Parse;
      Unfold(items);
      if items[0].Whole? {
        ParseFrame(q, items[0].packet, Stream(items[1..]), max);
      } else {
        TornHasNoEnd(items[0].packet, items[0].n);
        var q' := ParseSkips(q, items[0].Bytes(), Stream(items[1..]), max);
        ParseStream(q', items[1..], max);
      }
    }
  }

  /** END bytes in the ring are exactly the complete frames: the count the retry loop brings down. */
  lemma {:induction false} EndsAreWholes(items: seq<OkItem>)
    ensures multiset(Stream(items))[END] == |Wholes(items)|
    decreases |items|
  {
    if items != [] {
      EndsAreWholes(items[1..]);
      if items[0].Whole? {
        StuffHasNoDelimiter(items[0].packet);
      } else {
        TornHasNoEnd(items[0].packet, items[0].n);
      }
    }
  }

  /** Some complete frame, together with the torn bytes right before it, is at least `need` bytes long. */
  predicate Gap(items: seq<OkItem>, torn: nat, need: nat) {
    items != [] &&
    var n := torn + |items[0].Bytes()|;
    if items[0].Torn? then Gap(items[1..], n, need) else n >= need || Gap(items[1..], 0, need)
  }

  lemma {:induction false} GapTorn(items: seq<OkItem>, i: OkItem, torn: nat, need: nat)
    requires i.Torn?
    ensures Gap(items + [i], torn, need) == Gap(items, torn, need)
    decreases |items|
  {
    if items == [] {
      assert items + [i] == [i];
    } else {
      assert (items + [i])[1..] == items[1..] + [i];
      GapTorn(items[1..], i, torn + |items[0].Bytes()|, need);
      GapTorn(items[1..], i, 0, need);
    }
  }

  /** How many complete frames have to go until one of them opens such a gap. */
  function FirstGap(items: seq<OkItem>, torn: nat, need: nat): (k: nat)
    requires Gap(items, torn, need)
    ensures 1 <= k <= |Wholes(items)|
  {
    var n := torn + |items[0].Bytes()|;
    if items[0].Torn? then FirstGap(items[1..], n, need)
    else if n >= need then 1
    else 1 + FirstGap(items[1..], 0, need)
  }

  lemma {:induction false} FirstGapTorn(items: seq<OkItem>, i: OkItem, torn: nat, need: nat)
    requires i.Torn? && Gap(items, torn, need)
    ensures Gap(items + [i], torn, need) && FirstGap(items + [i], torn, need) == FirstGap(items, torn, need)
    decreases |items|
  {
    GapTorn(items, i, torn, need);
    assert (items + [i])[1..] == items[1..] + [i];
    var n := torn + |items[0].Bytes()|;
    if items[0].Torn? {
      FirstGapTorn(items[1..], i, n, need);
    } else if n < need {
      FirstGapTorn(items[1..], i, 0, need);
    }
  }

  /** The items behind the first `k` complete frames. */
  function Behind(items: seq<OkItem>, k: nat): seq<OkItem> {
    if k == 0 then items else AfterWhole(Behind(items, k - 1))
  }

  /** What dropping the complete frame number `k`, counted from zero, frees. */
  function Freed(items: seq<OkItem>, k: nat): int { |Stream(Behind(items, k))| - |Stream(Behind(items, k + 1))| }

  lemma {:induction false} BehindNext(items: seq<OkItem>, k: nat)
    ensures Behind(items, k + 1) == Behind(AfterWhole(items), k)
    decreases k
  {
    assert Behind(items, 0) == items;
    if k > 0 { BehindNext(items, k - 1); }
  }

  /** Dropping the complete frame number `k` frees `need` bytes, where `torn` bytes more stand before the first one. */
  predicate Opens(items: seq<OkItem>, torn: nat, need: nat, k: nat) {
    Freed(items, k) + (if k == 0 then torn else 0) >= need
  }

  lemma {:induction false} OpensTorn(items: seq<OkItem>, torn: nat, need: nat, k: nat)
    requires items != [] && items[0].Torn?
    ensures Opens(items, torn, need, k) == Opens(items[1..], torn + |items[0].Bytes()|, need, k)
  {
    hide FirstGap, Gap;
    BehindNext(items, k);
    BehindNext(items[1..], k);
    if k > 0 {
      BehindNext(items, k - 1);
      BehindNext(items[1..], k - 1);
    }
  }

  lemma {:induction false} OpensWhole(items: seq<OkItem>, torn: nat, need: nat, k: nat)
    requires items != [] && items[0].Whole?
    ensures Opens(items, torn, need, 0) == (torn + |items[0].Bytes()| >= need)
    ensures Opens(items, torn, need, k + 1) == Opens(items[1..], 0, need, k)
  {
    BehindNext(items, 0);
    BehindNext(items, k);
    BehindNext(items, k + 1);
  }

  /** The gap of `FirstGap` is big enough, and every gap before it is too small. */
  lemma {:induction false} FirstGapIsFirst(items: seq<OkItem>, torn: nat, need: nat)
    requires Gap(items, torn, need)
    ensures var k := FirstGap(items, torn, need);
            && Opens(items, torn, need, k - 1)
            && (forall j: nat | j < k - 1 :: !Opens(items, torn, need, j))
    decreases |items|
  {
    hide Opens, Wholes, Stream, Item.Bytes;
    var k, n := FirstGap(items, torn, need), torn + |items[0].Bytes()|;
    if items[0].Torn? {
      FirstGapIsFirst(items[1..], n, need);
      forall j: nat ensures Opens(items, torn, need, j) == Opens(items[1..], n, need, j) {
        OpensTorn(items, torn, need, j);
      }
    } else {
      OpensWhole(items, torn, need, 0);
      if n < need {
        FirstGapIsFirst(items[1..], 0, need);
        OpensWhole(items, torn, need, k - 2);
        forall j: nat | j < k - 1 ensures !Opens(items, torn, need, j) {
          if j > 0 { OpensWhole(items, torn, need, j - 1); }
        }
      }
    }
  }

  // ---------------------------------------------------------------- puts and gets on items

  predicate Fits(items: seq<OkItem>, p: Packet, size: nat) { |Stream(items)| + |Frame(p)| <= size }

  /** A frame that does not fit fills the ring to the brim with its own beginning. */
  function AfterPut(items: seq<OkItem>, p: Packet, size: nat): seq<OkItem>
    requires |Stream(items)| <= size
  {
    items + [if Fits(items, p, size) then Whole(p) else Torn(p, size - |Stream(items)|)]
  }

  ghost predicate SameGap(items: seq<OkItem>, items': seq<OkItem>, need: nat) {
    && Gap(items', 0, need) == Gap(items, 0, need)
    && (Gap(items, 0, need) ==> FirstGap(items', 0, need) == FirstGap(items, 0, need))
  }

  /** A torn frame at the end opens no gap. */
  ghost predicate SameGaps(items: seq<OkItem>, items': seq<OkItem>) { forall need: nat :: SameGap(items, items', need) }

  lemma {:induction false} PutEffect(items: seq<OkItem>, p: Packet, size: nat)
    requires |Stream(items)| <= size
    ensures var items', fits := AfterPut(items, p, size), Fits(items, p, size);
            && Stream(items') == Truncate(Stream(items) + Frame(p), size)
            && Wholes(items') == (if fits then Wholes(items) + [p] else Wholes(items))
            && (fits || |Stream(items')| == size)
            && (fits || SameGaps(items, items'))
  {
    var i := AfterPut(items, p, size)[|items|];
    StreamAppend(items, i);
    WholesAppend(items, i);
    assert i.Torn? ==> Truncate(Stream(items) + Frame(p), size) == Stream(items) + i.Bytes();
    if i.Torn? {
      forall need: nat ensures SameGap(items, items + [i], need) {
        GapTorn(items, i, 0, need);
        if Gap(items, 0, need) { FirstGapTorn(items, i, 0, need); }
      }
    }
  }

  /** A ring without a complete frame is emptied by the search for one. */
  function AfterGet(items: seq<OkItem>): seq<OkItem> {
    if Wholes(items) == [] then [] else AfterWhole(items)
  }

  lemma {:induction false} GetEffect(items: seq<OkItem>)
    ensures |Stream(AfterWhole(items))| <= |Stream(items)|
    ensures Wholes(AfterWhole(items)) == if Wholes(items) == [] then [] else Wholes(items)[1..]
    decreases |items|
  {
    if items != [] {
      hide Stream, Wholes, AfterWhole, Frame;
      Unfold(items);
      if items[0].Torn? { GetEffect(items[1..]); }
    }
  }

  datatype Op = Put(packet: Packet) | Get

  /** What a run of puts and gets leaves, which of its puts succeeded, and what its gets returned. */
  datatype Outcome = Outcome(items: seq<OkItem>, accepted: seq<Packet>, got: seq<Packet>)

  function Run(ops: seq<Op>, start: seq<OkItem>, size: nat): (r: Outcome)
    requires |Stream(start)| <= size
    ensures |Stream(r.items)| <= size
    decreases |ops|
  {
    if ops == [] then Outcome(start, [], [])
    else
      var r := Run(ops[..|ops| - 1], start, size);
      match ops[|ops| - 1]
      case Put(p) =>
        PutEffect(r.items, p, size);
        Outcome(AfterPut(r.items, p, size), if Fits(r.items, p, size) then r.accepted + [p] else r.accepted, r.got)
      case Get =>
        GetEffect(r.items);
        Outcome(AfterGet(r.items), r.accepted, if Wholes(r.items) == [] then r.got else r.got + [Wholes(r.items)[0]])
  }

  /**
   * Whatever torn frames failed puts leave behind, the packets got plus the complete frames still in the
   * ring are the complete frames of the start plus the accepted packets, in order.
   */
  lemma {:induction false} TornFramesAreHarmless(ops: seq<Op>, start: seq<OkItem>, size: nat)
    requires |Stream(start)| <= size
    ensures var r := Run(ops, start, size);
            Wholes(start) + r.accepted == r.got + Wholes(r.items)
    decreases |ops|
  {
    hide Wholes, Stream, AfterWhole, Gap, Frame;
    NoWholes();
    if ops != [] {
      TornFramesAreHarmless(ops[..|ops| - 1], start, size);
      var r := Run(ops[..|ops| - 1], start, size);
      match ops[|ops| - 1]
      case Put(p) =>
        PutEffect(r.items, p, size);
        ConcatAssoc(Wholes(start), r.accepted, [p]);
        ConcatAssoc(r.got, Wholes(r.items), [p]);
      case Get =>
        GetEffect(r.items);
        if Wholes(r.items) != [] {
          ConcatAssoc(r.got, [Wholes(r.items)[0]], Wholes(r.items)[1..]);
          assert [Wholes(r.items)[0]] + Wholes(r.items)[1..] == Wholes(r.items);
        }
    }
  }

  lemma NoWholes()
    ensures Wholes([]) == []
  {}

  class LegacyQueue {
    const rb: Ring
    ghost var Items: seq<OkItem>

    ghost predicate Valid()
      reads this, rb, rb.buf
    {
      rb.Valid() && rb.Contents == Stream(Items)
    }

    constructor (bufferSize: nat)
      requires bufferSize <= MAX_RING
      ensures Valid() && Items == [] && fresh(rb) && fresh(rb.buf)
      ensures rb.size == if bufferSize < 2 then 0 else bufferSize
    {
      var space := new byte[bufferSize];
      rb := new Ring(space);
      Items := [];
    }

    method Puts(packet: Packet) returns (ret: int)
      requires Valid()
      modifies this, rb, rb.buf
      ensures Valid()
      ensures |Stream(old(Items))| <= rb.size && Items == AfterPut(old(Items), packet, rb.size)
      ensures ret == if Fits(old(Items), packet, rb.size) then |Frame(packet)| else -1
      ensures ret == -1 ==> |Stream(Items)| == rb.size
      ensures ret == -1 ==> SameGaps(old(Items), Items)
      ensures Wholes(Items) == if ret == -1 then Wholes(old(Items)) else Wholes(old(Items)) + [packet]
    {
      PutEffect(Items, packet, rb.size);
      ret := AddRb(rb, packet);
      Items := AfterPut(Items, packet, rb.size);
    }

    method Gets(out: array<byte>, maxLen: nat) returns (ok: bool, len: nat)
      requires Valid() && maxLen <= out.Length && out != rb.buf
      modifies this, rb, out
      ensures Valid()
      ensures ok == (Wholes(old(Items)) != [])
      ensures ok ==> len <= out.Length && out[..len] == Limit(Wholes(old(Items))[0], maxLen)
      ensures Items == AfterGet(old(Items))
      ensures Wholes(Items) == if ok then Wholes(old(Items))[1..] else []
    {
      var begin: bool := *;
      ParseStream(Fresh(begin), Items, maxLen);
      ok, len := ParseRb(rb, out, maxLen, begin);
      Items := if ok then AfterWhole(Items) else [];
    }
  }

  /** Dropping the first complete frame frees the torn bytes before it and the frame itself. */
  lemma {:induction false} GapStep(items: seq<OkItem>, torn: nat, need: nat)
    ensures Gap(items, torn, need) <==>
            Wholes(items) != [] &&
            (torn + |Stream(items)| - |Stream(AfterWhole(items))| >= need || Gap(AfterWhole(items), 0, need))
    ensures Gap(items, torn, need) ==>
              FirstGap(items, torn, need)
              == if torn + |Stream(items)| - |Stream(AfterWhole(items))| >= need then 1
                 else 1 + FirstGap(AfterWhole(items), 0, need)
    decreases |items|
  {
    if items != [] && items[0].Torn? { GapStep(items[1..], torn + |items[0].Bytes()|, need); }
  }

  /** After `dropped` dequeues and failed puts the gaps of `items` are those left of the gaps of `was`. */
  ghost predicate GapsLeft(was: seq<OkItem>, items: seq<OkItem>, dropped: nat, need: nat) {
    && Gap(items, 0, need) == Gap(was, 0, need)
    && (Gap(items, 0, need) ==> dropped + FirstGap(items, 0, need) == FirstGap(was, 0, need))
  }

  lemma {:induction false} GapsStayLeft(was: seq<OkItem>, items: seq<OkItem>, dropped: nat, need: nat,
                                        items': seq<OkItem>)
    requires GapsLeft(was, items, dropped, need) && SameGaps(items, items')
    ensures GapsLeft(was, items', dropped, need)
  {
    hide Gap, FirstGap;
    assert SameGap(items, items', need);
  }

  /** A dequeue either opens the first gap that is big enough, or goes one frame further towards it. */
  lemma {:induction false} GapsAfterGet(was: seq<OkItem>, items: seq<OkItem>, dropped: nat, need: nat)
    requires GapsLeft(was, items, dropped, need)
    ensures Wholes(items) == [] ==> !Gap(was, 0, need)
    ensures Wholes(items) != [] ==>
              if |Stream(items)| - |Stream(AfterWhole(items))| >= need
              then Gap(was, 0, need) && dropped + 1 == FirstGap(was, 0, need)
              else GapsLeft(was, AfterWhole(items), dropped + 1, need)
  {
    GapStep(items, 0, need);
    hide Gap, FirstGap, Wholes, AfterWhole, Stream;
  }

  /**
   * The retry loop of the older MQTT_Publish. It terminates because every dequeue takes an END byte out
   * of the ring; and it succeeds not when the frame fits an empty ring, but when the frame fits the room
   * left or the gap that one dequeue opens. It then has dropped the fewest packets that open such a gap.
   */
  method LegacyPublish(q: LegacyQueue, packet: Packet, maxLen: nat) returns (ok: bool, ghost dropped: nat)
    requires q.Valid()
    modifies q, q.rb, q.rb.buf
    ensures q.Valid()
    ensures ok <==> Fits(old(q.Items), packet, q.rb.size) || Gap(old(q.Items), 0, |Frame(packet)|)
    ensures ok ==>
              dropped == if Fits(old(q.Items), packet, q.rb.size) then 0 else FirstGap(old(q.Items), 0, |Frame(packet)|)
    ensures ok ==> dropped <= |Wholes(old(q.Items))| && Wholes(q.Items) == Wholes(old(q.Items))[dropped..] + [packet]
    ensures !ok ==> q.Items == []
  {
    hide Gap, FirstGap, SameGaps, GapsLeft, Stream, AfterWhole, Wholes, AfterPut, Window, Frame, Limit, Ring.Valid;
    ghost var was, need, left := q.Items, |Frame(packet)|, Wholes(q.Items);
    dropped := 0;
    var dataBuffer := new byte[maxLen];
    NothingDropped(was, need);
    var ret := q.Puts(packet);
    if ret == -1 { GapsStayLeft(was, was, 0, need, q.Items); }
    while ret == -1
      invariant q.Valid() && dropped <= |Wholes(was)| && left == Wholes(was)[dropped..]
      invariant Wholes(q.Items) == if ret == -1 then left else left + [packet]
      invariant if ret == -1
                then |Stream(q.Items)| == q.rb.size < |Stream(was)| + need && GapsLeft(was, q.Items, dropped, need)
                else if |Stream(was)| + need <= q.rb.size then dropped == 0
                else Gap(was, 0, need) && dropped == FirstGap(was, 0, need)
      decreases ret == -1, |Wholes(q.Items)|
    {
      GapsAfterGet(was, q.Items, dropped, need);
      var got, _ := q.Gets(dataBuffer, maxLen);
      if !got { return false, dropped; }
      left, dropped := left[1..], dropped + 1;
      ghost var items := q.Items;
      ret := q.Puts(packet);
      if ret == -1 { GapsStayLeft(was, items, dropped, need, q.Items); }
    }
    return true, dropped;
  }

  lemma NothingDropped(was: seq<OkItem>, need: nat)
    ensures GapsLeft(was, was, 0, need)
  {}

  /**
   * With one short PUBLISH in a ring of 2048 bytes, a PUBLISH of 1018 bytes 0x7D from a buffer of 1024 is refused by
   * the older loop, although its frame fits an empty ring, so that domo's loop would queue it.
   */
  lemma {:induction false} LegacyRefusesWhatFits()
    ensures var short := PublishMessage(Some([97]), [], 0, 0, 1024, 0);
            var long := Spiky(1018, 1024, 0);
            var r := Run([Put(short)], [], 2048);
            && short != [] && long != [] && r.accepted == [short] && Wholes(r.items) == [short]
            && |Frame(long)| <= 2048
            && !(Fits(r.items, long, 2048) || Gap(r.items, 0, |Frame(long)|))
  {
    hide Stuff, Run, SameGaps;
    var short := PublishMessage(Some([97]), [], 0, 0, 1024, 0);
    assert short == [0x30, 3, 0, 1, 97];
    NoEscapes(short);
    FrameLength(short);
    SpikyFrame(1018, 1024, 0);
    OnePut(short, 2048);
    hide PublishMessage, Spiky, Gap, Frame;
    NoGap(short, |Frame(Spiky(1018, 1024, 0))|);
  }

  lemma NoGap(p: Packet, need: nat)
    requires |Frame(p)| < need
    ensures !Gap([Whole(p)], 0, need)
  {
    hide Frame;
    var items: seq<OkItem> := [Whole(p)];
    assert items[1..] == [];
  }

  lemma {:induction false} OnePut(p: Packet, size: nat)
    requires |Frame(p)| <= size
    ensures Run([Put(p)], [], size) == Outcome([Whole(p)], [p], [])
    ensures Stream([Whole(p)]) == Frame(p) && Wholes([Whole(p)]) == [p]
  {
    hide Frame;
    var start: seq<OkItem> := [];
    assert [Put(p)][..0] == [];
    assert start + [Whole(p)] == [Whole(p)];
    StreamAppend(start, Whole(p));
    WholesAppend(start, Whole(p));
  }
}
