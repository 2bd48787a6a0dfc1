/** The circular byte buffer of domo/mqtt/ringbuf.c. */
module RingBuffers {
  import opened Bytes

  /** Frame lengths travel through 16-bit signed results, so a ring holds fewer than 0x8000 bytes. */
  const MAX_RING := 0x7FFF

  /** The bytes of a ring: `n` cells of `cells` read from index `r`, wrapping at the end. */
  ghost function Window(cells: seq<byte>, r: nat, n: nat): (s: seq<byte>)
    requires n <= |cells| && (r < |cells| || r == 0 == n)
    ensures |s| == n
  {
    if r + n <= |cells| then cells[r..r + n] else cells[r..] + cells[..r + n - |cells|]
  }

  class Ring {
    const buf: array<byte>
    const size: nat
    var r: nat
    var w: nat
    var fillCnt: nat
    ghost var Contents: seq<byte>  // the bytes put and not yet got, oldest first

    ghost predicate Valid()
      reads this, buf
    {
      && size == buf.Length <= MAX_RING
      && fillCnt <= size
      && (if size == 0 then r == w == 0 else r < size && w < size)
      && w == (if r + fillCnt < size || size == 0 then r + fillCnt else r + fillCnt - size)
      && Contents == Window(buf[..], r, fillCnt)
    }

    /** A zeroed RINGBUF followed by `RINGBUF_Init`, which refuses buffers below two bytes. */
    constructor (space: array<byte>)
      requires space.Length <= MAX_RING
      ensures Valid() && Contents == []
      ensures size == if space.Length < 2 then 0 else space.Length
      ensures space.Length >= 2 ==> buf == space
      ensures space.Length < 2 ==> fresh(buf)
    {
      r, w, fillCnt, Contents := 0, 0, 0, [];
      if space.Length < 2 {
        buf := new byte[0];
        size := 0;
      } else {
        buf := space;
        size := space.Length;
      }
    }

    /** Appends a byte unless the ring is full. */
    method Put(c: byte) returns (ok: bool)
      requires Valid()
      modifies this, buf
      ensures Valid() && r == old(r)
      ensures ok == (|old(Contents)| < size)
      ensures Contents == if ok then old(Contents) + [c] else old(Contents)
      ensures !ok ==> w == old(w)
    {
      if fillCnt >= size { return false; }
      ghost var cells := buf[..];
      fillCnt := fillCnt + 1;
      buf[w] := c;
      w := w + 1;
      if w >= size { w := 0; }
      assert buf[..] == cells[old(w) := c];
      Contents := Contents + [c];
      return true;
    }

    /** Removes the oldest byte. */
    method Get() returns (ok: bool, c: byte)
      requires Valid()
      modifies this
      ensures Valid()
      ensures ok == (old(Contents) != [])
      ensures ok ==> [c] + Contents == old(Contents)
      ensures !ok ==> Contents == []
    {
      if fillCnt <= 0 { return false, 0; }
      fillCnt := fillCnt - 1;
      c := buf[r];
      assert Contents[0] == buf[..][r] == c;
      assert [c] + Contents[1..] == Contents;
      r := r + 1;
      if r >= size { r := 0; }
      Contents := Contents[1..];
      return true, c;
    }
  }
}
