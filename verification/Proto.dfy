/** Byte stuffing of packets into frames and the parser that undoes it: domo/mqtt/proto.c. */
module Proto {
  import opened Bytes
  import opened RingBuffers

  const ESC: byte := 0x7D
  const BEGIN: byte := 0x7E
  const END: byte := 0x7F

  predicate Special(b: byte) { b == ESC || b == BEGIN || b == END }

  function StuffByte(b: byte): seq<byte> { if Special(b) then [ESC, Xor20(b)] else [b] }

  function Stuff(p: seq<byte>): seq<byte> {
    if p == [] then [] else StuffByte(p[0]) + Stuff(p[1..])
  }

  function Frame(p: seq<byte>): seq<byte> { [BEGIN] + Stuff(p) + [END] }

  // ---------------------------------------------------------------- parser as a function

  /** The parser fields that change byte by byte; `data` is the filled part of the output buffer. */
  datatype Parser = Parser(isBegin: bool, isEsc: bool, data: seq<byte>)

  /** One byte other than END. `max` is the size of the output buffer. */
  function Step(p: Parser, b: byte, max: nat): Parser {
    if b == ESC then p.(isEsc := true)
    else if b == BEGIN then Parser(true, false, [])
    else if !p.isBegin then p
    else
      var v := if p.isEsc then Xor20(b) else b;
      p.(isEsc := false, data := if |p.data| < max then p.data + [v] else p.data)
  }

  datatype Parsed = NoFrame | Packet(packet: seq<byte>, rest: seq<byte>)

  /** What a parser in state `p` makes of the stream `s`: the packet closed by the first END, and what follows. */
  function Parse(p: Parser, s: seq<byte>, max: nat): Parsed
    decreases |s|
  {
    if s == [] then NoFrame
    else if s[0] == END then Packet(p.data, s[1..])
    else Parse(Step(p, s[0], max), s[1..], max)
  }

  /** The state in which `PROTO_ParseRb` starts: `isBegin` is not initialised there. */
  function Fresh(isBegin: bool): Parser { Parser(isBegin, false, []) }

  function Limit(p: seq<byte>, max: nat): seq<byte> { if |p| <= max then p else p[..max] }

  // ---------------------------------------------------------------- facts about frames

  lemma {:induction false} StuffHasNoDelimiter(p: seq<byte>)
    ensures BEGIN !in Stuff(p) && END !in Stuff(p)
    ensures |p| <= |Stuff(p)| <= 2 * |p|
  {
    if p != [] { StuffHasNoDelimiter(p[1..]); }
  }

  /** The frame, byte by byte: the two delimiters, and three bytes that take an escape. */
  lemma {:induction false} FrameBytes(p: seq<byte>, b: byte)
    ensures |Frame(p)| >= 2 && Frame(p)[0] == 0x7E && Frame(p)[|Frame(p)| - 1] == 0x7F
    ensures StuffByte(b) == if b == 0x7D then [0x7D, 0x5D] else if b == 0x7E then [0x7D, 0x5E]
                            else if b == 0x7F then [0x7D, 0x5F] else [b]
  {
    hide Stuff;
  }

  /** One packet byte, stuffed, arrives in an open frame as itself. */
  lemma {:induction false} ParseStuffByte(done: seq<byte>, b: byte, tail: seq<byte>, max: nat)
    ensures Parse(Parser(true, false, Limit(done, max)), StuffByte(b) + tail, max)
         == Parse(Parser(true, false, Limit(done + [b], max)), tail, max)
  {
    var q := Parser(true, false, Limit(done, max));
    var s := StuffByte(b) + tail;
    assert Limit(done + [b], max) == if |q.data| < max then q.data + [b] else q.data;
    if Special(b) {
      var q1 := Step(q, ESC, max);
      assert s[1..] == [Xor20(b)] + tail && s[1..][1..] == tail;
      assert Parse(q, s, max) == Parse(q1, s[1..], max);
      assert Parse(q1, s[1..], max) == Parse(Step(q1, Xor20(b), max), tail, max);
    } else {
      assert s[1..] == tail;
      assert Parse(q, s, max) == Parse(Step(q, b, max), tail, max);
    }
  }

  /** Inside an open frame the parser recovers exactly the stuffed bytes, up to the buffer size. */
  lemma {:induction false} ParseStuffed(p: seq<byte>, done: seq<byte>, tail: seq<byte>, max: nat)
    ensures Parse(Parser(true, false, Limit(done, max)), Stuff(p) + tail, max)
         == Parse(Parser(true, false, Limit(done + p, max)), tail, max)
    decreases |p|
  {
    if p == [] {
      assert Stuff(p) + tail == tail && done + p == done;
    } else {
      assert Stuff(p) + tail == StuffByte(p[0]) + (Stuff(p[1..]) + tail);
      ParseStuffByte(done, p[0], Stuff(p[1..]) + tail, max);
      ParseStuffed(p[1..], done + [p[0]], tail, max);
      assert done + [p[0]] + p[1..] == done + p;
    }
  }

  /** A parser in any state, started on any whole frame, yields that frame's packet and stops behind it. */
  lemma {:induction false} ParseFrame(q: Parser, p: seq<byte>, tail: seq<byte>, max: nat)
    ensures Parse(q, Frame(p) + tail, max) == Packet(Limit(p, max), tail)
  {
    var s := Frame(p) + tail;
    assert s[1..] == Stuff(p) + ([END] + tail);
    ParseStuffed(p, [], [END] + tail, max);
    assert [] + p == p && ([END] + tail)[1..] == tail;
  }

  /** Bytes without END only change the parser's state. */
  lemma {:induction false} ParseSkips(q: Parser, junk: seq<byte>, tail: seq<byte>, max: nat) returns (q': Parser)
    requires END !in junk
    decreases |junk|
    ensures Parse(q, junk + tail, max) == Parse(q', tail, max)
  {
    if junk == [] {
      assert junk + tail == tail;
      q' := q;
    } else {
      assert (junk + tail)[1..] == junk[1..] + tail;
      q' := ParseSkips(Step(q, junk[0], max), junk[1..], tail, max);
    }
  }

  // ---------------------------------------------------------------- proto.c itself

  /** PROTO_PARSER without its callback, which `PROTO_ParseRb` leaves NULL. */
  class ProtoParser {
    const out: array<byte>
    const bufSize: nat
    var dataLen: nat
    var isEsc: bool
    var isBegin: bool

    ghost predicate Valid() reads this { dataLen <= bufSize <= out.Length }

    ghost function State(): Parser requires Valid() reads this, out {
      Parser(isBegin, isEsc, out[..dataLen])
    }

    constructor (out: array<byte>, bufSize: nat, begin: bool)
      requires bufSize <= out.Length
      ensures Valid() && this.out == out && this.bufSize == bufSize && State() == Fresh(begin)
    {
      this.out, this.bufSize := out, bufSize;
      dataLen, isEsc, isBegin := 0, false, begin;
    }

    /** True when `value` closes a frame. */
    method ParseByte(value: byte) returns (complete: bool)
      requires Valid()
      modifies this, out
      ensures Valid()
      ensures complete == (value == END)
      ensures complete ==> State().data == old(State().data)
      ensures !complete ==> State() == Step(old(State()), value, bufSize)
    {
      if value == ESC {
        isEsc := true;
      } else if value == BEGIN {
        dataLen := 0;
        isEsc := false;
        isBegin := true;
      } else if value == END {
        isBegin := false;
        return true;
      } else if isBegin {
        var v := value;
        if isEsc {
          v := Xor20(v);
          isEsc := false;
        }
        if dataLen < bufSize {
          out[dataLen] := v;
          dataLen := dataLen + 1;
        }
      }
      return false;
    }
  }

  /** `PROTO_ParseRb`: `begin` is whatever the uninitialised `isBegin` held. */
  method ParseRb(rb: Ring, out: array<byte>, maxBufLen: nat, begin: bool) returns (ok: bool, len: nat)
    requires rb.Valid() && maxBufLen <= out.Length && out != rb.buf
    modifies rb, out
    ensures rb.Valid()
    ensures match old(Parse(Fresh(begin), rb.Contents, maxBufLen))
            case NoFrame => !ok && rb.Contents == []
            case Packet(p, rest) => ok && len <= out.Length && out[..len] == p && rb.Contents == rest
  {
    var proto := new ProtoParser(out, maxBufLen, begin);
    len := 0;
    var more, c := rb.Get();
    while more
      invariant rb.Valid()
      invariant proto.Valid() && proto.out == out && proto.bufSize == maxBufLen && fresh(proto)
      invariant old(Parse(Fresh(begin), rb.Contents, maxBufLen))
             == Parse(proto.State(), if more then [c] + rb.Contents else [], maxBufLen)
      invariant !more ==> rb.Contents == []
      decreases more, |rb.Contents|
    {
      ghost var s := [c] + rb.Contents;
      assert s[1..] == rb.Contents;
      var complete := proto.ParseByte(c);
      if complete {
        return true, proto.dataLen;
      }
      more, c := rb.Get();
    }
    return false, 0;
  }

  /** The switch inside `PROTO_AddRb`: one packet byte, as one or two ring bytes. */
  method PutStuffed(rb: Ring, b: byte) returns (ok: bool)
    requires rb.Valid()
    modifies rb, rb.buf
    ensures rb.Valid() && rb.r == old(rb.r)
    ensures ok == (|old(rb.Contents) + StuffByte(b)| <= rb.size)
    ensures rb.Contents == Truncate(old(rb.Contents) + StuffByte(b), rb.size)
  {
    if Special(b) {
      ok := rb.Put(ESC);
      if !ok { return false; }
      ok := rb.Put(Xor20(b));
    } else {
      ok := rb.Put(b);
    }
  }

  /** The part of `s` that fits into `size` bytes. */
  function Truncate(s: seq<byte>, size: nat): seq<byte> { if |s| <= size then s else s[..size] }

  lemma TruncateAll(s: seq<byte>, size: nat)
    requires |s| <= size
    ensures Truncate(s, size) == s
  {}

  lemma {:induction false} TruncateMore(s: seq<byte>, t: seq<byte>, size: nat)
    requires |s| > size
    ensures Truncate(s + t, size) == Truncate(s, size)
  {}

  lemma {:induction false} StuffConcat(p: seq<byte>, q: seq<byte>)
    ensures Stuff(p + q) == Stuff(p) + Stuff(q)
    decreases |p|
  {
    if p == [] {
      assert p + q == q;
    } else {
      assert (p + q)[1..] == p[1..] + q;
      StuffConcat(p[1..], q);
    }
  }

  lemma {:induction false} StuffOnto(was: seq<byte>, p: seq<byte>, q: seq<byte>)
    ensures was + Stuff(p + q) == was + Stuff(p) + Stuff(q)
  {
    StuffConcat(p, q);
  }

  lemma {:induction false} StuffNext(was: seq<byte>, p: seq<byte>, k: nat)
    requires k < |p|
    ensures was + Stuff(p[..k + 1]) == was + Stuff(p[..k]) + StuffByte(p[k])
    ensures was + Stuff(p) == was + Stuff(p[..k + 1]) + Stuff(p[k + 1..])
  {
    assert p[..k] + [p[k]] == p[..k + 1] && p[..k + 1] + p[k + 1..] == p;
    StuffOnto(was, p[..k], [p[k]]);
    StuffOnto(was, p[..k + 1], p[k + 1..]);
    assert Stuff([p[k]]) == StuffByte(p[k]);
  }

  lemma {:induction false} StuffNone(was: seq<byte>)
    ensures Stuff([]) == [] && was + Stuff([]) == was
  {}

  /** The loop of `PROTO_AddRb`; `n` counts the ring bytes it used. */
  method PutAllStuffed(rb: Ring, packet: seq<byte>) returns (ok: bool, n: nat)
    requires rb.Valid()
    modifies rb, rb.buf
    ensures rb.Valid() && rb.r == old(rb.r)
    ensures ok == (|old(rb.Contents) + Stuff(packet)| <= rb.size)
    ensures ok ==> n == |Stuff(packet)|
    ensures rb.Contents == Truncate(old(rb.Contents) + Stuff(packet), rb.size)
  {
    hide Stuff;
    ghost var was := rb.Contents;
    var k := 0;
    n, ok := 0, true;
    StuffNone(was);
    while k < |packet|
      invariant 0 <= k <= |packet| && n == |Stuff(packet[..k])|
      invariant rb.Valid() && rb.r == old(rb.r)
      invariant rb.Contents == was + Stuff(packet[..k]) && ok
    {
      StuffNext(was, packet, k);
      ok := PutStuffed(rb, packet[k]);
      if !ok {
        TruncateMore(was + Stuff(packet[..k + 1]), Stuff(packet[k + 1..]), rb.size);
        return false, n;
      }
      n := n + if Special(packet[k]) then 2 else 1;
      k := k + 1;
    }
    assert packet[..k] == packet;
  }

  /** `PROTO_AddRb`: a full ring stops it with a proper prefix of the frame behind the old contents. */
  method AddRb(rb: Ring, packet: seq<byte>) returns (ret: int)
    requires rb.Valid()
    modifies rb, rb.buf
    ensures rb.Valid() && rb.r == old(rb.r)
    ensures ret == if |old(rb.Contents)| + |Frame(packet)| <= rb.size then |Frame(packet)| else -1
    ensures rb.Contents == Truncate(old(rb.Contents) + Frame(packet), rb.size)
  {
    ghost var was := rb.Contents;
    assert was + Frame(packet) == was + [BEGIN] + Stuff(packet) + [END];
    var ok := rb.Put(BEGIN);
    if !ok { return -1; }
    var n;
    ok, n := PutAllStuffed(rb, packet);
    if !ok { return -1; }
    ok := rb.Put(END);
    return if ok then n + 2 else -1;
  }
}
