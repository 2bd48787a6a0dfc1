/** The packet queue of domo/mqtt/queue.c: whole frames in a ring, with rollback of a frame that does not fit. */
module Queues {
  import opened Bytes
  import opened RingBuffers
  import opened Proto
  import opened MqttMsg

  type Packet = seq<byte>

  function Frames(ps: seq<Packet>): seq<byte> {
    if ps == [] then [] else Frame(ps[0]) + Frames(ps[1..])
  }

  lemma {:induction false} FramesAppend(ps: seq<Packet>, p: Packet)
    ensures Frames(ps + [p]) == Frames(ps) + Frame(p)
    decreases |ps|
  {
    if ps == [] {
      assert ps + [p] == [p];
    } else {
      assert (ps + [p])[1..] == ps[1..] + [p];
      FramesAppend(ps[1..], p);
    }
  }

  /** Fewer cells of the same window are a prefix of it: what makes rolling `fill_cnt` back sound. */
  lemma WindowPrefix(cells: seq<byte>, r: nat, n: nat, m: nat)
    requires n <= m <= |cells| && (r < |cells| || r == 0 == m)
    ensures Window(cells, r, n) == Window(cells, r, m)[..n]
  {}

  /** The old contents are still there behind a torn frame. */
  lemma {:induction false} RollBack(cells: seq<byte>, r: nat, n: nat, m: nat, was: seq<byte>, s: seq<byte>, size: nat)
    requires n <= |cells| && m <= |cells| && (r < |cells| || r == 0 == m)
    requires n == |was| <= size && Window(cells, r, m) == Truncate(was + s, size)
    ensures n <= m && Window(cells, r, n) == was
  {
    hide Window;
    WindowPrefix(cells, r, n, m);
  }

  class Queue {
    const rb: Ring
    ghost var Packets: seq<Packet>  // the packets enqueued and not yet dequeued, oldest first

    ghost predicate Valid()
      reads this, rb, rb.buf
    {
      rb.Valid() && rb.Contents == Frames(Packets)
    }

    constructor (bufferSize: nat)
      requires bufferSize <= MAX_RING
      ensures Valid() && Packets == [] && fresh(rb) && fresh(rb.buf)
      ensures rb.size == if bufferSize < 2 then 0 else bufferSize
    {
      var space := new byte[bufferSize];
      rb := new Ring(space);
      Packets := [];
    }

    /** All or nothing: a frame that does not fit leaves no trace in the queue, whatever cells it overwrote. */
    method Puts(packet: Packet) returns (ret: int)
      requires Valid()
      modifies this, rb, rb.buf
      ensures Valid()
      ensures ret == if |Frames(old(Packets))| + |Frame(packet)| <= rb.size then |Frame(packet)| else -1
      ensures Packets == if ret == -1 then old(Packets) else old(Packets) + [packet]
    {
      hide Window, Truncate, Frame, Frames;
      ghost var was := rb.Contents;
      var lastR, lastW, lastFillCnt := rb.r, rb.w, rb.fillCnt;
      ret := AddRb(rb, packet);
      if ret == -1 {
        RollBack(rb.buf[..], rb.r, lastFillCnt, rb.fillCnt, was, Frame(packet), rb.size);
        rb.r, rb.w, rb.fillCnt, rb.Contents := lastR, lastW, lastFillCnt, was;
      } else {
        FramesAppend(Packets, packet);
        TruncateAll(was + Frame(packet), rb.size);
        Packets := Packets + [packet];
      }
    }

    /** The oldest packet, cut to `maxLen`, whatever the parser's uninitialised `isBegin` held. */
    method Gets(out: array<byte>, maxLen: nat) returns (ok: bool, len: nat)
      requires Valid() && maxLen <= out.Length && out != rb.buf
      modifies this, rb, out
      ensures Valid()
      ensures ok == (old(Packets) != [])
      ensures ok ==> len <= out.Length && out[..len] == Limit(old(Packets)[0], maxLen)
      ensures Packets == if ok then old(Packets)[1..] else []
    {
      var begin: bool := *;
      if Packets != [] {
        ParseFrame(Fresh(begin), Packets[0], Frames(Packets[1..]), maxLen);
      }
      ok, len := ParseRb(rb, out, maxLen, begin);
      Packets := if ok then Packets[1..] else [];
    }

    method IsEmpty() returns (empty: bool)
      requires Valid()
      ensures empty == (Packets == [])
    {
      return rb.fillCnt <= 0;
    }
  }

  // ---------------------------------------------------------------- making room

  /** The packets left after dequeuing the oldest ones until `need` more bytes fit. */
  function Kept(ps: seq<Packet>, need: nat, size: nat): seq<Packet> {
    if ps == [] || |Frames(ps)| + need <= size then ps else Kept(ps[1..], need, size)
  }

  /** `k` is the least number of oldest packets without which `need` more bytes fit. */
  ghost predicate LeastDrop(ps: seq<Packet>, k: nat, need: nat, size: nat) {
    && k <= |ps| && |Frames(ps[k..])| + need <= size
    && forall j: nat | j < k :: |Frames(ps[j..])| + need > size
  }

  /**
   * The queue `now` is `was` without the fewest oldest packets that leave room for `need` bytes, and behind them `p`
   * if its frame fits.
   */
  ghost predicate Pushed(was: seq<Packet>, now: seq<Packet>, p: Packet, need: nat, size: nat) {
    exists k: nat :: LeastDrop(was, k, need, size)
      && now == was[k..] + if |Frames(was[k..])| + |Frame(p)| <= size then [p] else []
  }

  /** `Kept` drops the fewest oldest packets that will do, and keeps the others as they were. */
  lemma {:induction false} KeptDropsFewest(ps: seq<Packet>, need: nat, size: nat) returns (k: nat)
    ensures k <= |ps| && Kept(ps, need, size) == ps[k..]
    ensures forall j: nat | j < k :: |Frames(ps[j..])| + need > size
    ensures need <= size ==> LeastDrop(ps, k, need, size)
    decreases |ps|
  {
    if ps == [] || |Frames(ps)| + need <= size {
      k := 0;
      assert ps[0..] == ps;
    } else {
      var k' := KeptDropsFewest(ps[1..], need, size);
      k := k' + 1;
      forall j: nat | j < k ensures |Frames(ps[j..])| + need > size {
        if j == 0 { assert ps[0..] == ps; } else { assert ps[j..] == ps[1..][j - 1..]; }
      }
    }
  }

  lemma {:induction false} KeptPushes(ps: seq<Packet>, p: Packet, need: nat, size: nat)
    requires need <= size
    ensures var kept := Kept(ps, need, size);
            Pushed(ps, kept + if |Frames(kept)| + |Frame(p)| <= size then [p] else [], p, need, size)
  {
    hide Kept, LeastDrop, Frame, Frames;
    var k := KeptDropsFewest(ps, need, size);
  }

  lemma {:induction false} KeptFits(ps: seq<Packet>, need: nat, size: nat)
    requires need <= size
    ensures |Frames(Kept(ps, need, size))| + need <= size
  {
    hide Kept;
    var k := KeptDropsFewest(ps, need, size);
  }

  /** The retry loop shared by MQTT_Subscribe, MQTT_UnSubscribe and MQTT_Ping. */
  method PutsOrDrop(q: Queue, packet: Packet, maxLen: nat) returns (ok: bool)
    requires q.Valid()
    modifies q, q.rb, q.rb.buf
    ensures q.Valid()
    ensures ok == (|Frame(packet)| <= q.rb.size)
    ensures q.Packets == if ok then Kept(old(q.Packets), |Frame(packet)|, q.rb.size) + [packet] else []
    ensures ok ==> Pushed(old(q.Packets), q.Packets, packet, |Frame(packet)|, q.rb.size) && packet in q.Packets
  {
    ghost var kept := Kept(q.Packets, |Frame(packet)|, q.rb.size);
    var dataBuffer := new byte[maxLen];
    var ret := q.Puts(packet);
    while ret == -1
      invariant q.Valid()
      invariant if ret == -1
                then && |Frames(q.Packets)| + |Frame(packet)| > q.rb.size
                     && Kept(q.Packets, |Frame(packet)|, q.rb.size) == kept
                else |Frame(packet)| <= q.rb.size && q.Packets == kept + [packet]
      decreases ret == -1, |q.Packets|
    {
      var got, _ := q.Gets(dataBuffer, maxLen);
      if !got { return false; }
      ret := q.Puts(packet);
    }
    KeptPushes(old(q.Packets), packet, |Frame(packet)|, q.rb.size);
    KeptFits(old(q.Packets), |Frame(packet)|, q.rb.size);
    return true;
  }

  /** The loop of domo's MQTT_Publish: it makes room for the unstuffed length and two delimiters, then puts. */
  method PutsIfLucky(q: Queue, packet: Packet, maxLen: nat) returns (ok: bool)
    requires q.Valid()
    modifies q, q.rb, q.rb.buf
    ensures q.Valid()
    ensures ok == (|packet| + 2 <= q.rb.size)
    ensures var kept := Kept(old(q.Packets), |packet| + 2, q.rb.size);
            q.Packets == if !ok then []
                         else if |Frames(kept)| + |Frame(packet)| <= q.rb.size then kept + [packet]
                         else kept
    ensures ok ==> Pushed(old(q.Packets), q.Packets, packet, |packet| + 2, q.rb.size)
  {
    ghost var kept := Kept(q.Packets, |packet| + 2, q.rb.size);
    var dataBuffer := new byte[maxLen];
    while q.rb.size - q.rb.fillCnt < |packet| + 2
      invariant q.Valid() && Kept(q.Packets, |packet| + 2, q.rb.size) == kept
      decreases |q.Packets|
    {
      var got, _ := q.Gets(dataBuffer, maxLen);
      if !got { return false; }
    }
    var _ := q.Puts(packet);
    KeptPushes(old(q.Packets), packet, |packet| + 2, q.rb.size);
    return true;
  }

  // ---------------------------------------------------------------- the publish loop's gamble

  function Escapes(p: Packet): nat {
    if p == [] then 0 else (if Special(p[0]) then 1 else 0) + Escapes(p[1..])
  }

  lemma {:induction false} FrameLength(p: Packet)
    ensures |Frame(p)| == |p| + 2 + Escapes(p)
    decreases |p|
  {
    if p != [] {
      FrameLength(p[1..]);
      assert |Stuff(p)| == |StuffByte(p[0])| + |Stuff(p[1..])|;
    }
  }

  /** After MQTT_Publish's loop, the packet still has to bring room for its escape bytes. */
  lemma {:induction false} LuckIsEscapes(ps: seq<Packet>, p: Packet, size: nat)
    requires |p| + 2 <= size
    ensures var kept := Kept(ps, |p| + 2, size);
            && |Frames(kept)| + |p| + 2 <= size
            && (|Frames(kept)| + |Frame(p)| <= size <==> Escapes(p) <= size - (|Frames(kept)| + |p| + 2))
  {
    var k := KeptDropsFewest(ps, |p| + 2, size);
    FrameLength(p);
  }

  lemma {:induction false} EscapesAdd(p: Packet, q: Packet)
    ensures Escapes(p + q) == Escapes(p) + Escapes(q)
    decreases |p|
  {
    if p == [] {
      assert p + q == q;
    } else {
      assert (p + q)[1..] == p[1..] + q;
      EscapesAdd(p[1..], q);
    }
  }

  lemma {:induction false} AllEscapes(p: Packet)
    requires forall i | 0 <= i < |p| :: p[i] == ESC
    ensures Escapes(p) == |p|
  {
    if p != [] { AllEscapes(p[1..]); }
  }

  lemma {:induction false} NoEscapes(p: Packet)
    requires forall i | 0 <= i < |p| :: !Special(p[i])
    ensures Escapes(p) == 0
  {
    if p != [] { NoEscapes(p[1..]); }
  }

  /** A PUBLISH on topic "a" of `n` bytes 0x7D, each of which needs an escape in the queue. */
  function Spiky(n: nat, bufLen: nat, counter: u16): Packet
    requires bufLen < 0x1_0000
  {
    PublishMessage(Some([97]), seq(n, _ => ESC), 0, 0, bufLen, counter)
  }

  lemma {:induction false} SpikyBytes(n: nat, bufLen: nat, counter: u16)
    requires 125 <= n < 0x3000 && n + 6 <= bufLen < 0x1_0000
    ensures Spiky(n, bufLen, counter) == [0x30, 0x80 + (n + 3) % 128, (n + 3) / 128, 0, 1, 97] + seq(n, _ => ESC)
  {
    var payload := seq(n, _ => ESC);
    var body := PublishBody([97], payload, 0, NextId(counter));
    assert body == [0, 1, 97] + payload;
    assert RemainingLength(|body|) == [0x80 + (n + 3) % 128, (n + 3) / 128];
  }

  lemma {:induction false} SpikyFrame(n: nat, bufLen: nat, counter: u16)
    requires 125 <= n < 0x3000 && n + 6 <= bufLen < 0x1_0000
    ensures |Spiky(n, bufLen, counter)| == n + 6 && |Frame(Spiky(n, bufLen, counter))| == 2 * n + 8
  {
    var payload := seq(n, _ => ESC);
    var head: Packet := [0x30, 0x80 + (n + 3) % 128, (n + 3) / 128, 0, 1, 97];
    assert Spiky(n, bufLen, counter) == head + payload by { hide Escapes, Frame; SpikyBytes(n, bufLen, counter); }
    hide Escapes, Frame, Spiky;
    EscapesAdd(head, payload);
    NoEscapes(head);
    AllEscapes(payload);
    FrameLength(head + payload);
  }
}
