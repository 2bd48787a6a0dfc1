/** The receive and transmit rings of driver_lib/driver/uart.c: block copies on one side, single bytes on the other. */
module Uart {
  import opened Bytes
  import opened RingBuffers

  const UART_FIFO_LEN := 128

  // ---------------------------------------------------------------- byte queues

  /** What `Uart_rx_buff_enq` makes of a FIFO content: all of it if that leaves a free byte, else nothing. */
  function RxEnqueue(q: seq<byte>, fifo: seq<byte>, size: nat): seq<byte> {
    if |fifo| >= size - |q| then q else q + fifo
  }

  /** What `tx_buff_enq` makes of a block: all of it if it fits, else nothing. */
  function TxEnqueue(q: seq<byte>, data: seq<byte>, size: nat): seq<byte> {
    if |data| <= size - |q| then q + data else q
  }

  function Take(q: seq<byte>, n: nat): seq<byte> { q[..Min(n, |q|)] }

  function Drop(q: seq<byte>, n: nat): seq<byte> { q[Min(n, |q|)..] }

  /** `rx`: the receive ring, filled from the FIFO and read in blocks; otherwise the transmit ring. */
  datatype Op = Enqueue(data: seq<byte>) | Dequeue(n: nat)

  /** What a run leaves in the ring, what it took in and what it gave out. */
  datatype Outcome = Outcome(queue: seq<byte>, accepted: seq<byte>, delivered: seq<byte>)

  function Run(ops: seq<Op>, rx: bool, size: nat): Outcome {
    if ops == [] then Outcome([], [], [])
    else
      var r := Run(ops[..|ops| - 1], rx, size);
      match ops[|ops| - 1]
      case Enqueue(data) =>
        var q := if rx then RxEnqueue(r.queue, data, size) else TxEnqueue(r.queue, data, size);
        Outcome(q, r.accepted + q[|r.queue|..], r.delivered)
      case Dequeue(n) => Outcome(Drop(r.queue, n), r.accepted, r.delivered + Take(r.queue, n))
  }

  /**
   * Any interleaving of enqueues and dequeues delivers the accepted bytes in order, and holds back exactly those
   * still queued; the receive ring never fills its last byte, the transmit ring never overflows.
   */
  lemma {:induction false} RingsAreQueues(ops: seq<Op>, rx: bool, size: nat)
    requires size > 0
    ensures var r := Run(ops, rx, size);
            && r.accepted == r.delivered + r.queue
            && (if rx then |r.queue| < size else |r.queue| <= size)
    decreases |ops|
  {
    if ops != [] {
      RingsAreQueues(ops[..|ops| - 1], rx, size);
      var r := Run(ops[..|ops| - 1], rx, size);
      match ops[|ops| - 1]
      case Enqueue(data) =>
        var q := if rx then RxEnqueue(r.queue, data, size) else TxEnqueue(r.queue, data, size);
        assert q == r.queue + q[|r.queue|..];
        ConcatAssoc(r.delivered, r.queue, q[|r.queue|..]);
      case Dequeue(n) =>
        assert r.queue == Take(r.queue, n) + Drop(r.queue, n);
        ConcatAssoc(r.delivered, Take(r.queue, n), Drop(r.queue, n));
    }
  }

  /** What one step of a run does: a block goes in whole exactly if there is room, and as much comes out as there is. */
  lemma {:induction false} RunStep(ops: seq<Op>, op: Op, rx: bool, size: nat)
    requires size > 0
    ensures var r, r' := Run(ops, rx, size), Run(ops + [op], rx, size);
            match op
            case Enqueue(data) =>
              var room := size - |r.queue| - if rx then 1 else 0;
              && r'.delivered == r.delivered
              && r'.accepted == (if |data| <= room then r.accepted + data else r.accepted)
              && r'.queue == (if |data| <= room then r.queue + data else r.queue)
            case Dequeue(n) =>
              && r'.accepted == r.accepted && |r'.queue| == |r.queue| - Min(n, |r.queue|)
              && exists out :: |out| == Min(n, |r.queue|)
                   && r'.delivered == r.delivered + out && r.queue == out + r'.queue
  {
    assert (ops + [op])[..|ops|] == ops;
    var r := Run(ops, rx, size);
    match op
    case Enqueue(data) =>
      assert (r.queue + data)[|r.queue|..] == data && r.queue[|r.queue|..] == [];
      assert r.accepted + [] == r.accepted;
    case Dequeue(n) =>
      assert r.queue == Take(r.queue, n) + Drop(r.queue, n);
  }

  /** A transmit ring, unlike a receive ring, can be full. */
  lemma TransmitRingFills(size: nat)
    requires size > 0
    ensures |Run([Enqueue(seq(size, _ => 0))], false, size).queue| == size
    ensures |Run([Enqueue(seq(size, _ => 0))], true, size).queue| == 0
  {
    assert [Enqueue(seq(size, _ => 0))][..0] == [];
  }

  /** Where the write position stands when `n` bytes are queued from read position `r` on. */
  function WriteAt(r: nat, n: nat, size: nat): nat { if r + n < size then r + n else r + n - size }

  /**
   * `rx_buff_deq` copies in one block when `pOutPos <= pInPos`, and does not wrap the read position behind it.
   * A block of all `n` queued bytes leaves that position inside the buffer exactly when the ring is not full.
   */
  lemma OneBlockNeedsSpace(r: nat, n: nat, size: nat)
    requires r < size && n <= size && r <= WriteAt(r, n, size)
    ensures r + n < size <==> n < size
  {}

  // ---------------------------------------------------------------- struct UartBuffer

  class UartBuffer {
    const buf: array<byte>
    const size: nat
    var pIn: nat
    var pOut: nat
    var space: nat
    ghost var Contents: seq<byte>

    ghost predicate Valid()
      reads this, buf
    {
      && 0 < size == buf.Length < 0x1_0000
      && pIn < size && pOut < size && space <= size
      && |Contents| == size - space && pIn == WriteAt(pOut, |Contents|, size)
      && Contents == Window(buf[..], pOut, size - space)
    }

    /** Uart_Buf_Init when there is heap for it. */
    constructor (bufSize: nat)
      requires 0 < bufSize < 0x1_0000
      ensures Valid() && size == bufSize && Contents == [] && fresh(buf)
    {
      buf, size := new byte[bufSize], bufSize;
      pIn, pOut, space, Contents := 0, 0, bufSize, [];
    }

    /** One of the memcpy blocks of `Uart_Buf_Cpy`, which ends at the end of the buffer at the latest. */
    method PutBlock(data: seq<byte>)
      requires Valid() && |data| <= space && pIn + |data| <= size
      modifies this`pIn, this`space, this`Contents, buf
      ensures Valid() && Contents == old(Contents) + data && space == old(space) - |data|
      ensures pIn == if old(pIn) + |data| == size then 0 else old(pIn) + |data|
    {
      hide Window;
      ghost var cells := buf[..];
      forall i | 0 <= i < |data| { buf[pIn + i] := data[i]; }
      BlockWritten(cells, buf[..], pOut, |Contents|, data);
      WrapAtEnd(pIn + |data|, size);
      pIn := (pIn + |data|) % size;
      space := space - |data|;
      Contents := Contents + data;
    }

    /** `Uart_Buf_Cpy`. */
    method Copy(data: seq<byte>)
      requires Valid() && |data| <= space
      modifies this`pIn, this`space, this`Contents, buf
      ensures Valid() && Contents == old(Contents) + data && space == old(space) - |data|
    {
      if |data| == 0 {
        assert Contents + data == Contents;
        return;
      }
      var tailLen := size - pIn;
      if tailLen >= |data| {
        PutBlock(data);
      } else {
        assert data == data[..tailLen] + data[tailLen..];
        PutBlock(data[..tailLen]);
        PutBlock(data[tailLen..]);
      }
    }

    /** `tx_buff_enq` on a buffer that was created. */
    method TxEnq(data: seq<byte>)
      requires Valid()
      modifies this`pIn, this`space, this`Contents, buf
      ensures Valid() && Contents == TxEnqueue(old(Contents), data, size)
      ensures Contents == if |data| <= old(space) then old(Contents) + data else old(Contents)
    {
      if |data| <= space { Copy(data); }
    }

    /** `tx_fifo_insert`: `sent` is what goes into the UART's FIFO. */
    method TxFifoInsert(dataLen: nat) returns (sent: seq<byte>)
      requires Valid() && dataLen <= |Contents|
      modifies this`pOut, this`space, this`Contents
      ensures Valid() && sent == Take(old(Contents), dataLen) && Contents == Drop(old(Contents), dataLen)
    {
      hide Window;
      ghost var was, rest := Contents, Contents;
      sent := [];
      var i := 0;
      while i < dataLen
        modifies this`pOut
        invariant i == |sent| <= dataLen && was == sent + rest && pOut < size
        invariant pIn == WriteAt(pOut, |rest|, size) && rest == Window(buf[..], pOut, |rest|)
      {
        NextByte(buf[..], pOut, |rest|);
        assert sent + rest == sent + [rest[0]] + rest[1..];
        sent := sent + [buf[pOut]];
        pOut := pOut + 1;
        if pOut == size { pOut := 0; }
        i, rest := i + 1, rest[1..];
      }
      WrapAtEnd(pOut, size);
      pOut := pOut % size;
      space := space + dataLen;
      Contents := rest;
    }

    /** `tx_start_uart_buffer`: the FIFO, which holds `fifoLen` bytes, is filled up from the ring. */
    method TxStart(fifoLen: nat) returns (sent: seq<byte>)
      requires Valid() && fifoLen <= UART_FIFO_LEN
      modifies this`pOut, this`space, this`Contents
      ensures Valid() && sent == Take(old(Contents), UART_FIFO_LEN - fifoLen)
      ensures Contents == Drop(old(Contents), UART_FIFO_LEN - fifoLen)
      ensures sent + Contents == old(Contents) && |sent| == Min(UART_FIFO_LEN - fifoLen, |old(Contents)|)
    {
      var fifoRemain := UART_FIFO_LEN - fifoLen;
      var dataLen := size - space;
      if dataLen > fifoRemain {
        sent := TxFifoInsert(fifoRemain);
      } else {
        sent := TxFifoInsert(dataLen);
      }
    }

    /** One byte of the loop in `Uart_rx_buff_enq`, behind the bytes `now`; `Space` is updated after the loop. */
    method StoreByte(c: byte, ghost now: seq<byte>)
      requires pIn < size == buf.Length && pOut < size && |now| < size && pIn == WriteAt(pOut, |now|, size)
      requires now == Window(buf[..], pOut, |now|)
      modifies this`pIn, buf
      ensures pIn < size && pIn == WriteAt(pOut, |now| + 1, size)
      ensures now + [c] == Window(buf[..], pOut, |now| + 1)
    {
      hide Window;
      ByteWritten(buf[..], pOut, |now|, c);
      ghost var before := buf[..];
      buf[pIn] := c;
      assert buf[..] == before[pIn := c];
      pIn := pIn + 1;
      if pIn == size { pIn := 0; }
    }

    /** `Uart_rx_buff_enq`: `fifo` is what the UART's FIFO holds. */
    method RxEnq(fifo: seq<byte>)
      requires Valid() && space >= 1
      modifies this`pIn, this`space, this`Contents, buf
      ensures Valid() && space >= 1 && Contents == RxEnqueue(old(Contents), fifo, size)
      ensures Contents == if |fifo| < old(space) then old(Contents) + fifo else old(Contents)
    {
      hide Window;
      if |fifo| >= space { return; }
      ghost var was, now := Contents, Contents;
      assert was + fifo[..0] == was && fifo[..|fifo|] == fifo;
      var i := 0;
      while i < |fifo|
        modifies this`pIn, buf
        invariant i <= |fifo| && now == was + fifo[..i] && pIn < size
        invariant pIn == WriteAt(pOut, |now|, size) && now == Window(buf[..], pOut, |now|)
      {
        StoreByte(fifo[i], now);
        assert now + [fifo[i]] == was + fifo[..i + 1];
        i, now := i + 1, now + [fifo[i]];
      }
      space := space - |fifo|;
      Contents := now;
    }

    /** One memcpy block of `rx_buff_deq`, up to the end of the buffer at the latest; `wrap` is the modulo behind it. */
    method GetBlock(pdata: array<byte>, at: nat, len: nat, wrap: bool)
      requires Valid() && pdata != buf && at + len <= pdata.Length && len <= |Contents| && pOut + len <= size
      requires wrap || pOut + len < size
      modifies this`pOut, this`space, this`Contents, pdata
      ensures Valid() && pdata[..] == old(pdata[..at]) + old(Contents)[..len] + old(pdata[at + len..])
      ensures Contents == old(Contents)[len..]
      ensures pOut == if old(pOut) + len == size then 0 else old(pOut) + len
    {
      hide Window;
      BlockRead(buf[..], pOut, |Contents|, len);
      WrapAtEnd(pOut + len, size);
      ghost var block := buf[pOut..pOut + len];
      forall i | 0 <= i < len { pdata[at + i] := buf[pOut + i]; }
      assert buf[..] == old(buf[..]);
      assert pdata[..] == old(pdata[..at]) + block + old(pdata[at + len..]);
      pOut := pOut + len;
      if wrap { pOut := pOut % size; }
      space := space + len;
      Contents := Contents[len..];
    }

    /** `rx_buff_deq`. */
    method RxDeq(pdata: array<byte>, dataLen: nat) returns (n: nat)
      requires Valid() && space >= 1 && pdata != buf && dataLen <= pdata.Length
      modifies this`pOut, this`space, this`Contents, pdata
      ensures Valid() && space >= 1
      ensures n <= pdata.Length && pdata[..n] == Take(old(Contents), dataLen)
      ensures Contents == Drop(old(Contents), dataLen)
      ensures n == Min(dataLen, |old(Contents)|) && pdata[..n] + Contents == old(Contents)
    {
      hide Window;
      var bufLen := size - space;
      var tailLen := size - pOut;
      n := if dataLen > bufLen then bufLen else dataLen;
      if pOut <= pIn {
        GetBlock(pdata, 0, n, false);
      } else if n > tailLen {
        ghost var was := Contents;
        GetBlock(pdata, 0, tailLen, true);
        GetBlock(pdata, tailLen, n - tailLen, true);
        assert was[..tailLen] + was[tailLen..][..n - tailLen] == was[..n];
      } else {
        GetBlock(pdata, 0, n, true);
      }
    }
  }

  const UART_TX_BUFFER_SIZE := 256

  /** Uart_Buf_Init: NULL unless the heap has more free bytes than the buffer takes. */
  method UartBufInit(bufSize: nat, heapSize: nat) returns (b: UartBuffer?)
    requires 0 < bufSize < 0x1_0000
    ensures b == null <==> heapSize <= bufSize
    ensures b != null ==> fresh(b) && fresh(b.buf) && b.Valid() && b.size == bufSize && b.Contents == []
  {
    if heapSize <= bufSize { return null; }
    b := new UartBuffer(bufSize);
  }

  /** The transmit ring behind its global pointer. */
  class Transmitter {
    var pTxBuffer: UartBuffer?

    /**
     * tx_buff_enq. A missing ring is created and the block copied into it without a look at its space, so the caller
     * has to keep the first block within the ring; if there is no heap for a ring, the block is dropped.
     */
    method TxBuffEnq(data: seq<byte>, heapSize: nat)
      requires pTxBuffer != null ==> pTxBuffer.Valid()
      requires pTxBuffer == null && heapSize > UART_TX_BUFFER_SIZE ==> |data| <= UART_TX_BUFFER_SIZE
      modifies this, pTxBuffer, if pTxBuffer == null then {} else {pTxBuffer.buf}
      ensures pTxBuffer != null ==> pTxBuffer.Valid()
      ensures old(pTxBuffer) != null ==>
                && pTxBuffer == old(pTxBuffer)
                && pTxBuffer.Contents == TxEnqueue(old(pTxBuffer.Contents), data, pTxBuffer.size)
      ensures old(pTxBuffer) == null ==> (pTxBuffer == null <==> heapSize <= UART_TX_BUFFER_SIZE)
      ensures old(pTxBuffer) == null && pTxBuffer != null ==>
                && fresh(pTxBuffer) && fresh(pTxBuffer.buf)
                && pTxBuffer.size == UART_TX_BUFFER_SIZE && pTxBuffer.Contents == data
    {
      hide Window;
      if pTxBuffer == null {
        pTxBuffer := UartBufInit(UART_TX_BUFFER_SIZE, heapSize);
        if pTxBuffer != null {
          assert [] + data == data;
          pTxBuffer.Copy(data);
        }
      } else {
        pTxBuffer.TxEnq(data);
      }
    }
  }

  // ---------------------------------------------------------------- windows of the buffer

  lemma WrapAtEnd(i: nat, size: nat)
    requires 0 < size && i <= size
    ensures i % size == if i == size then 0 else i
  {
    if i < size { assert i % size == i; }
  }

  lemma WindowAt(cells: seq<byte>, r: nat, n: nat, i: nat)
    requires r < |cells| && i < n <= |cells|
    ensures Window(cells, r, n)[i] == cells[WriteAt(r, i, |cells|)]
  {}

  lemma {:induction false} ByteWritten(cells: seq<byte>, r: nat, n: nat, c: byte)
    requires r < |cells| && n < |cells|
    ensures Window(cells[WriteAt(r, n, |cells|) := c], r, n + 1) == Window(cells, r, n) + [c]
  {}

  lemma {:induction false} NextByte(cells: seq<byte>, r: nat, n: nat)
    requires r < |cells| && 0 < n <= |cells|
    ensures Window(cells, r, n)[0] == cells[r]
    ensures Window(cells, r, n)[1..] == Window(cells, if r + 1 == |cells| then 0 else r + 1, n - 1)
  {}

  lemma {:induction false} BlockWritten(cells: seq<byte>, cells': seq<byte>, r: nat, n: nat, d: seq<byte>)
    requires r < |cells| == |cells'| && n + |d| <= |cells| && WriteAt(r, n, |cells|) + |d| <= |cells|
    requires forall i | 0 <= i < |cells| :: cells'[i] == var w := WriteAt(r, n, |cells|);
                                              if w <= i < w + |d| then d[i - w] else cells[i]
    ensures Window(cells', r, n + |d|) == Window(cells, r, n) + d
  {
    hide Window;
    forall i | 0 <= i < n + |d| ensures Window(cells', r, n + |d|)[i] == (Window(cells, r, n) + d)[i] {
      WindowAt(cells', r, n + |d|, i);
      if i < n { WindowAt(cells, r, n, i); }
    }
  }

  lemma {:induction false} BlockRead(cells: seq<byte>, r: nat, n: nat, len: nat)
    requires r < |cells| && n <= |cells| && len <= n && r + len <= |cells|
    ensures Window(cells, r, n)[..len] == cells[r..r + len]
    ensures Window(cells, r, n)[len..] == Window(cells, if r + len == |cells| then 0 else r + len, n - len)
  {
    hide Window;
    var r' := if r + len == |cells| then 0 else r + len;
    forall i | 0 <= i < len ensures Window(cells, r, n)[i] == cells[r..r + len][i] { WindowAt(cells, r, n, i); }
    forall i | 0 <= i < n - len ensures Window(cells, r, n)[len..][i] == Window(cells, r', n - len)[i] {
      WindowAt(cells, r, n, len + i);
      WindowAt(cells, r', n - len, i);
    }
  }
}
