/** Bytes, 16-bit words and the few sequence facts that every other module uses. */
module Bytes {

  type byte = b: int | 0 <= b < 0x100
  type u16 = w: int | 0 <= w < 0x1_0000

  function Min(a: int, b: int): int { if a <= b then a else b }

  /** `b ^ 0x20`: flips bit 5 of a byte and leaves the other seven alone. */
  function Xor20(b: byte): (r: byte)
    ensures r / 0x40 == b / 0x40 && r % 0x20 == b % 0x20 && (r / 0x20) % 2 != (b / 0x20) % 2
  {
    if (b / 0x20) % 2 == 0 then b + 0x20 else b - 0x20
  }

  /** Big-endian 16-bit word, as MQTT writes lengths and packet identifiers. */
  function Word(w: u16): (s: seq<byte>)
    ensures |s| == 2 && s[0] == w / 0x100 && s[1] == w % 0x100
  {
    [w / 0x100, w % 0x100]
  }

  function WordOf(hi: byte, lo: byte): (w: u16)
    ensures w / 0x100 == hi && w % 0x100 == lo
  {
    hi * 0x100 + lo
  }

  lemma ConcatAssoc<T>(a: seq<T>, b: seq<T>, c: seq<T>)
    ensures (a + b) + c == a + (b + c)
  {}

  /** `xs` occurs in `ys` in order, not necessarily contiguously. */
  ghost predicate Subsequence<T(!new)>(xs: seq<T>, ys: seq<T>)
    decreases |ys|
  {
    xs == [] ||
    (ys != [] &&
     var init := ys[..|ys| - 1];
     Subsequence(xs, init) ||
     (xs[|xs| - 1] == ys[|ys| - 1] && Subsequence(xs[..|xs| - 1], init)))
  }

  lemma SubsequenceOffer<T(!new)>(xs: seq<T>, ys: seq<T>, y: T)
    requires Subsequence(xs, ys)
    ensures Subsequence(xs, ys + [y]) && Subsequence(xs + [y], ys + [y])
  {
    assert (ys + [y])[..|ys|] == ys;
    assert (xs + [y])[..|xs|] == xs;
  }

  lemma {:induction false} SubsequenceDrop<T(!new)>(a: seq<T>, b: seq<T>, c: seq<T>, ys: seq<T>)
    requires Subsequence(a + b + c, ys)
    ensures Subsequence(a + c, ys)
    decreases |ys|
  {
    if ys != [] && a + c != [] {
      var xs, init := a + b + c, ys[..|ys| - 1];
      if Subsequence(xs, init) {
        SubsequenceDrop(a, b, c, init);
      } else if c != [] {
        var c' := c[..|c| - 1];
        assert xs[..|xs| - 1] == a + b + c';
        SubsequenceDrop(a, b, c', init);
        assert (a + c)[..|a + c| - 1] == a + c';
      } else if b != [] {
        var b' := b[..|b| - 1];
        assert xs[..|xs| - 1] == a + b' + c;
        SubsequenceDrop(a, b', c, init);
      } else {
        assert xs == a + c;
      }
    }
  }

  lemma {:induction false} SubsequenceJoin<T(!new)>(a: seq<T>, b: seq<T>, ys: seq<T>, zs: seq<T>)
    requires Subsequence(a, ys) && Subsequence(b, zs)
    ensures Subsequence(a + b, ys + zs)
    decreases |zs|
  {
    if zs == [] {
      assert b == [] && a + b == a && ys + zs == ys;
    } else {
      var init, z := zs[..|zs| - 1], zs[|zs| - 1];
      assert ys + zs == ys + init + [z];
      if Subsequence(b, init) {
        SubsequenceJoin(a, b, ys, init);
        SubsequenceOffer(a + b, ys + init, z);
      } else {
        var b' := b[..|b| - 1];
        SubsequenceJoin(a, b', ys, init);
        SubsequenceOffer(a + b', ys + init, z);
        assert a + b == a + b' + [z];
      }
    }
  }

  lemma {:induction false} SubsequenceRefl<T(!new)>(xs: seq<T>)
    ensures Subsequence(xs, xs)
    decreases |xs|
  {
    if xs != [] { SubsequenceRefl(xs[..|xs| - 1]); }
  }
}
