/** The four linked buffers of driver_lib/driver/sdio_slv.c: a free list, filled at its head, and a to-send list. */
module Sdio {
  import opened Bytes

  const RX_BUFFER_SIZE := 512
  const RX_BUFFER_NUM := 4

  function Flatten(chunks: seq<seq<byte>>): seq<byte> {
    if chunks == [] then [] else chunks[0] + Flatten(chunks[1..])
  }

  lemma {:induction false} FlattenAppend(chunks: seq<seq<byte>>, c: seq<byte>)
    ensures Flatten(chunks + [c]) == Flatten(chunks) + c
    decreases |chunks|
  {
    if chunks == [] {
      assert chunks + [c] == [c];
    } else {
      assert (chunks + [c])[1..] == chunks[1..] + [c];
      FlattenAppend(chunks[1..], c);
      ConcatAssoc(chunks[0], Flatten(chunks[1..]), c);
    }
  }

  /** struct sdio_list, with `tail` as an index into `buffer`. */
  class Node {
    const buffer: array<byte>
    var tail: nat
    var next: Node?
    ghost var Content: seq<byte>  // the filled part of the buffer

    ghost predicate Ok()
      reads this`tail, this`Content, buffer
    {
      buffer.Length == RX_BUFFER_SIZE && tail <= RX_BUFFER_SIZE && Content == buffer[..tail]
    }

    constructor ()
      ensures Ok() && fresh(buffer) && Content == [] && next == null
    {
      buffer := new byte[RX_BUFFER_SIZE];
      tail, next, Content := 0, null, [];
    }

    /** os_memcpy behind the filled part. */
    method Append(data: seq<byte>)
      requires Ok() && |Content| + |data| <= RX_BUFFER_SIZE
      modifies this`tail, this`Content, buffer
      ensures Ok() && Content == old(Content) + data
    {
      forall i | 0 <= i < |data| { buffer[tail + i] := data[i]; }
      tail := tail + |data|;
      Content := Content + data;
    }

    method Clear()
      requires Ok()
      modifies this`tail, this`Content
      ensures Ok() && Content == []
    {
      tail, Content := 0, [];
    }
  }

  ghost predicate Distinct(ns: seq<Node>) {
    forall i, j | 0 <= i < j < |ns| :: ns[i] != ns[j] && ns[i].buffer != ns[j].buffer
  }

  lemma RotateDistinct(ns: seq<Node>)
    requires ns != [] && Distinct(ns)
    ensures var r := ns[1..] + [ns[0]];
            && Distinct(r) && r[|ns| - 1] == ns[0]
            && (forall i | 0 <= i < |ns| - 1 :: r[i] == ns[i + 1])
            && (forall n | n in ns :: n in r)
  {
    var r := ns[1..] + [ns[0]];
    forall n | n in ns ensures n in r {
      var i :| 0 <= i < |ns| && ns[i] == n;
      assert i > 0 ==> r[i - 1] == n;
      assert r[|ns| - 1] == ns[0];
    }
  }

  /** The links once the first of the to-send nodes `ns[..k]` hangs behind the last of all. */
  ghost predicate Hung(ns: seq<Node>, k: nat)
    requires 0 < k <= |ns|
    reads ns
  {
    && ns[0].next == null
    && forall i {:trigger ns[i].next} | 1 <= i < |ns| ::
         ns[i].next == if i + 1 == k then null else if i + 1 == |ns| then ns[0] else ns[i + 1]
  }

  /** Links of a list pair whose first node was hung behind its last one, read off after rotation. */
  lemma RotateLinks(was: seq<Node>, k: nat, r: seq<Node>)
    requires 0 < k <= |was| && Hung(was, k)
    requires |r| == |was| && r[|r| - 1] == was[0] && forall i | 0 <= i < |r| - 1 :: r[i] == was[i + 1]
    ensures forall i {:trigger r[i].next} | 0 <= i < |r| ::
               r[i].next == if i + 1 == k - 1 || i + 1 == |r| then null else r[i + 1]
  {
    forall i {:trigger r[i].next} | 0 <= i < |r|
      ensures r[i].next == if i + 1 == k - 1 || i + 1 == |r| then null else r[i + 1]
    {
      if i < |r| - 1 { assert r[i].next == was[i + 1].next; }
    }
  }

  /** Every to-send buffer holds data; of the free ones only the first may, and it is not full. */
  ghost predicate Shape(chunks: seq<seq<byte>>, k: nat) {
    && k <= |chunks|
    && (forall i | 0 <= i < k :: chunks[i] != [])
    && (forall i | k < i < |chunks| :: chunks[i] == [])
    && (k < |chunks| ==> |chunks[k]| < RX_BUFFER_SIZE)
  }

  /** What the free buffers, from index `k` on, can still take. */
  function Room(chunks: seq<seq<byte>>, k: nat): int
    requires k <= |chunks|
  {
    (|chunks| - k) * RX_BUFFER_SIZE - if k < |chunks| then |chunks[k]| else 0
  }

  lemma {:induction false} FlattenEmpty(chunks: seq<seq<byte>>)
    requires forall i | 0 <= i < |chunks| :: chunks[i] == []
    ensures Flatten(chunks) == []
    decreases |chunks|
  {
    if chunks != [] { FlattenEmpty(chunks[1..]); }
  }

  /** Data added to the free list's head comes last in the stream. */
  lemma {:induction false} ChunkGrows(chunks: seq<seq<byte>>, k: nat, d: seq<byte>)
    requires k < |chunks| && forall i | k < i < |chunks| :: chunks[i] == []
    ensures Flatten(chunks[k := chunks[k] + d]) == Flatten(chunks) + d
    decreases k
  {
    var chunks' := chunks[k := chunks[k] + d];
    if k == 0 {
      FlattenEmpty(chunks[1..]);
      assert chunks'[1..] == chunks[1..];
    } else {
      ChunkGrows(chunks[1..], k - 1, d);
      assert chunks'[1..] == chunks[1..][k - 1 := chunks[1..][k - 1] + d];
      ConcatAssoc(chunks[0], Flatten(chunks[1..]), d);
    }
  }

  lemma {:induction false} DataGrows(before: seq<byte>, chunks: seq<seq<byte>>, k: nat, data: seq<byte>, i: nat, n: nat)
    requires k < |chunks| && forall i | k < i < |chunks| :: chunks[i] == []
    requires i + n <= |data| && Flatten(chunks) == before + data[..i]
    ensures Flatten(chunks[k := chunks[k] + data[i..][..n]]) == before + data[..i + n]
  {
    ChunkGrows(chunks, k, data[i..][..n]);
    ConcatAssoc(before, data[..i], data[i..][..n]);
    assert data[..i] + data[i..][..n] == data[..i + n];
  }

  ghost predicate NewNodes(ns: seq<Node>)
    reads ns, set n | n in ns :: n.buffer
  {
    && Distinct(ns)
    && (forall i | 0 <= i < |ns| :: ns[i].Ok() && ns[i].Content == [])
    && (forall i {:trigger ns[i].next} | 0 <= i < |ns| :: ns[i].next == if i + 1 == |ns| then null else ns[i + 1])
  }

  /** The loop of sdio_slave_init. */
  method MakeNodes()
      returns (head: Node, p: Node, ghost ns: seq<Node>, ghost all: set<Node>, ghost bufs: set<array<byte>>)
    ensures |ns| == RX_BUFFER_NUM && head == ns[0] && p == ns[RX_BUFFER_NUM - 1] && NewNodes(ns)
    ensures (forall n | n in all :: n in ns) && forall i | 0 <= i < |ns| :: ns[i] in all && ns[i].buffer in bufs
    ensures fresh(all) && fresh(bufs)
  {
    hide NewNodes, Node.Ok;
    var loop := RX_BUFFER_NUM - 1;
    head := new Node();
    p := head;
    ns := [head];
    OneNode(head);
    while loop > 0
      invariant 0 <= loop < RX_BUFFER_NUM && |ns| == RX_BUFFER_NUM - loop
      invariant head == ns[0] && p == ns[|ns| - 1] && NewNodes(ns)
      invariant forall i | 0 <= i < |ns| :: fresh(ns[i]) && fresh(ns[i].buffer)
    {
      loop := loop - 1;
      var n := new Node();
      LinkNew(ns, p, n);
      p := n;
      ns := ns + [n];
    }
    all, bufs := set n | n in ns, set n | n in ns :: n.buffer;
  }

  lemma OneNode(n: Node)
    requires n.Ok() && n.Content == [] && n.next == null
    ensures NewNodes([n])
  {}

  /** `p->next = (struct sdio_list*)os_malloc(...)` */
  method LinkNew(ghost ns: seq<Node>, p: Node, n: Node)
    requires ns != [] && p == ns[|ns| - 1] && NewNodes(ns) && n.Ok() && n.Content == [] && n.next == null
    requires forall i | 0 <= i < |ns| :: ns[i] != n && ns[i].buffer != n.buffer
    modifies p`next
    ensures NewNodes(ns + [n])
  {
    p.next := n;
    ghost var all := ns + [n];
    forall i {:trigger all[i].next} | 0 <= i < |all|
      ensures all[i].next == if i + 1 == |all| then null else all[i + 1]
    {
      if i < |ns| { assert old(ns[i].next) == if i + 1 == |ns| then null else ns[i + 1]; }
    }
  }

  class SdioSlave {
    var headToSend: Node?
    var tailToSend: Node?
    var headSended: Node?
    var tailSended: Node?
    var hasRead: bool
    var bufPtr: array?<byte>  // rx_que.buf_ptr and datalen: the transfer the host was told about
    var dataLen: nat
    ghost const All: set<Node>
    ghost const Buffers: set<array<byte>>
    ghost var Nodes: seq<Node>        // the to-send list, the first `k`, and then the free list
    ghost var k: nat
    ghost var Chunks: seq<seq<byte>>  // what each of the Nodes holds
    ghost var Accepted: seq<byte>     // every byte taken by LoadData
    ghost var HostRead: seq<byte>     // every byte of a completed transfer

    /** No buffer is lost or shared. */
    ghost predicate Partition()
      reads this`Nodes, this`k
    {
      && k <= |Nodes| && (forall n | n in All :: n in Nodes)
      && (forall i | 0 <= i < |Nodes| :: Nodes[i] in All)
      && Distinct(Nodes)
      && (forall i | 0 <= i < |Nodes| :: Nodes[i].buffer in Buffers)
    }

    /** The pointers make two lists of the Nodes, each ended by NULL. */
    ghost predicate Lists()
      reads this`Nodes, this`k, this`headToSend, this`tailToSend, this`headSended, this`tailSended, All`next
      requires Partition()
    {
      && (forall i {:trigger Nodes[i].next} | 0 <= i < |Nodes| ::
            Nodes[i].next == if i + 1 == k || i + 1 == |Nodes| then null else Nodes[i + 1])
      && headToSend == (if k == 0 then null else Nodes[0])
      && headSended == (if k == |Nodes| then null else Nodes[k])
      && (k > 0 ==> tailToSend == Nodes[k - 1])
      && (k < |Nodes| ==> tailSended == Nodes[|Nodes| - 1])
    }

    /** Chunks is what the buffers hold. */
    ghost predicate Contents()
      reads this`Nodes, this`Chunks, All`tail, All`Content, Buffers
    {
      |Chunks| == |Nodes| && forall i | 0 <= i < |Nodes| ::
        Nodes[i] in All && Nodes[i].buffer in Buffers && Nodes[i].Ok() && Nodes[i].Content == Chunks[i]
    }

    ghost predicate Valid()
      reads this, All, Buffers
    {
      && Partition() && Lists() && Contents() && Shape(Chunks, k)
      && Accepted == HostRead + Flatten(Chunks)
      && (!hasRead ==> k > 0 && bufPtr == Nodes[0].buffer && dataLen == |Chunks[0]|)
    }

    /** The lists that sdio_slave_init sets up. */
    constructor ()
      ensures Valid() && fresh(All) && fresh(Buffers)
      ensures k == 0 && |Nodes| == RX_BUFFER_NUM && hasRead && Accepted == [] && HostRead == []
    {
      var head, p, ns, all, bufs := MakeNodes();
      headSended, tailSended, headToSend, tailToSend := head, p, null, null;
      hasRead, bufPtr, dataLen := true, null, 0;
      All, Buffers, Nodes, k := all, bufs, ns, 0;
      Chunks, Accepted, HostRead := [[], [], [], []], [], [];
      new;
      hide NewNodes;
      StartsValid();
    }

    lemma StartsValid()
      requires |Nodes| == RX_BUFFER_NUM && NewNodes(Nodes) && k == 0 && hasRead
      requires (forall n | n in All :: n in Nodes)
      requires forall i | 0 <= i < |Nodes| :: Nodes[i] in All && Nodes[i].buffer in Buffers
      requires headSended == Nodes[0] && tailSended == Nodes[RX_BUFFER_NUM - 1] && headToSend == null
      requires Chunks == [[], [], [], []] && Accepted == [] && HostRead == []
      ensures Valid()
    {
      hide Node.Ok;
      FlattenEmpty(Chunks);
    }

    lemma Heads()
      requires Partition() && Lists()
      ensures k <= |Nodes|
      ensures headToSend == if k == 0 then null else Nodes[0]
      ensures headSended == if k == |Nodes| then null else Nodes[k]
      ensures (k > 0 ==> tailToSend == Nodes[k - 1])
    {}

    lemma Length()
      requires Contents()
      ensures |Chunks| == |Nodes|
    {}

    lemma Holds(i: nat)
      requires Partition() && Contents() && i < |Nodes|
      ensures |Chunks| == |Nodes| && Nodes[i].tail == |Chunks[i]| <= RX_BUFFER_SIZE == Nodes[i].buffer.Length
      ensures Nodes[i].buffer[..Nodes[i].tail] == Chunks[i]
    {}

    lemma Link(i: nat)
      requires Partition() && Lists() && i < |Nodes|
      ensures Nodes[i] in All && Nodes[i].next == if i + 1 == k || i + 1 == |Nodes| then null else Nodes[i + 1]
      ensures forall j | 0 <= j < |Nodes| && j != i :: Nodes[j] != Nodes[i]
    {}

    /** Both ways in which the code moves the head of the free list to the end of the to-send list. */
    method MoveHead()
      requires Partition() && Lists() && k < |Nodes|
      modifies this`headToSend, this`tailToSend, this`headSended, this`k, All`next
      ensures Partition() && Lists() && k == old(k) + 1
    {
      Heads();
      Link(k);
      if k > 0 { Link(k - 1); }
      hide Partition, Lists;
      if headToSend == null {
        tailToSend := headSended;
        headToSend := tailToSend;
      } else {
        tailToSend.next := headSended;
        tailToSend := tailToSend.next;
      }
      headSended := headSended.next;
      tailToSend.next := null;
      k := k + 1;
      MovedHead();
    }

    /** The lists once the free list's head has gone to the end of the to-send list. */
    twostate lemma MovedHead()
      requires old(Partition() && Lists()) && Nodes == old(Nodes) && 0 < k == old(k) + 1 <= |Nodes|
      requires forall n | n in All && n != Nodes[k - 1] && (k == 1 || n != Nodes[k - 2]) :: n.next == old(n.next)
      requires Nodes[k - 1].next == null && (k > 1 ==> Nodes[k - 2].next == Nodes[k - 1])
      requires headToSend == Nodes[0] && tailToSend == Nodes[k - 1] && tailSended == old(tailSended)
      requires headSended == if k == |Nodes| then null else Nodes[k]
      ensures Partition() && Lists()
    {
      forall i {:trigger Nodes[i].next} | 0 <= i < |Nodes|
        ensures Nodes[i].next == if i + 1 == k || i + 1 == |Nodes| then null else Nodes[i + 1]
      {
        assert old(Nodes[i].next) == if i + 1 == old(k) || i + 1 == |Nodes| then null else Nodes[i + 1];
        assert i != k - 1 ==> Nodes[i] != Nodes[k - 1];
        assert k > 1 && i != k - 2 ==> Nodes[i] != Nodes[k - 2];
      }
    }

    /** rx_buff_load_done on the head of the to-send list, and what goes with it: the host may start reading. */
    method StartTransfer()
      requires Partition() && Lists() && Contents() && k > 0
      modifies this`bufPtr, this`dataLen, this`hasRead
      ensures !hasRead && bufPtr == Nodes[0].buffer && dataLen == |Chunks[0]|
    {
      Heads();
      Holds(0);
      bufPtr := headToSend.buffer;
      dataLen := headToSend.tail;
      hasRead := false;
    }

    /** Copies into the free list's head, which has the room. */
    method CopyToHead(data: seq<byte>)
      requires Partition() && Lists() && Contents() && k < |Nodes| && |Chunks[k]| + |data| <= RX_BUFFER_SIZE
      modifies this`Chunks, All`tail, All`Content, Buffers
      ensures Partition() && Lists() && Contents()
      ensures Chunks == old(Chunks)[k := old(Chunks)[k] + data]
    {
      assert Nodes[k] in All && headSended == Nodes[k];
      hide Lists;
      headSended.Append(data);
      Chunks := Chunks[k := Chunks[k] + data];
    }

    /** The head of the to-send list is hung behind the end of the free list. */
    method HangHead()
      requires Partition() && Lists() && k > 0
      modifies this`headToSend, this`headSended, this`tailSended, All`next
      ensures Hung(Nodes, k)
      ensures headToSend == if k == 1 then null else Nodes[1]
      ensures headSended == if k == |Nodes| then Nodes[0] else Nodes[k]
      ensures tailSended == Nodes[0]
    {
      ghost var n := |Nodes|;
      assert Nodes[0] in All && Nodes[n - 1] in All;
      assert Nodes[0].next == if 1 == k || 1 == n then null else Nodes[1];
      if headSended != null {
        tailSended.next := headToSend;
        tailSended := tailSended.next;
      } else {
        tailSended := headToSend;
        headSended := tailSended;
      }
      headToSend := headToSend.next;
      tailSended.next := null;
    }

    twostate predicate Rotated()
      reads this
    {
      && old(Nodes) != [] && Nodes == old(Nodes)[1..] + [old(Nodes)[0]] && k == old(k) - 1
      && old(Chunks) != [] && Chunks == old(Chunks)[1..] + [old(Chunks)[0]]
    }

    twostate lemma RotatedPartition()
      requires old(Partition()) && Rotated()
      ensures Partition()
    {
      hide Node.Ok;
      RotateDistinct(old(Nodes));
      hide Distinct;
    }

    twostate lemma RotatedLists()
      requires old(Partition()) && Partition() && Rotated() && unchanged(All)
      requires old(Hung(Nodes, k))
      requires headToSend == (if k == 0 then null else Nodes[0]) && tailSended == Nodes[|Nodes| - 1]
      requires headSended == (if k + 1 == |Nodes| then Nodes[k] else old(Nodes[k]))
      requires k > 0 ==> tailToSend == Nodes[k - 1]
      ensures Lists()
    {
      RotateLinks(old(Nodes), old(k), Nodes);
      hide Hung, Distinct;
    }

    twostate lemma RotatedContents()
      requires old(Contents()) && Rotated() && unchanged(All) && unchanged(Buffers)
      ensures Contents()
    {
      forall i | 0 <= i < |Nodes|
        ensures Nodes[i] in All && Nodes[i].buffer in Buffers && Nodes[i].Ok() && Nodes[i].Content == Chunks[i]
      {
        var j := if i + 1 == |Nodes| then 0 else i + 1;
        assert Nodes[i] == old(Nodes)[j] && Chunks[i] == old(Chunks)[j];
      }
    }

    /** Renames the nodes accordingly. */
    ghost method Rotate()
      requires Partition() && k > 0 && Hung(Nodes, k) && Contents()
      requires headToSend == if k == 1 then null else Nodes[1]
      requires headSended == if k == |Nodes| then Nodes[0] else Nodes[k]
      requires tailSended == Nodes[0] && tailToSend == Nodes[k - 1]
      modifies this`Nodes, this`k, this`Chunks
      ensures Partition() && Lists() && Contents()
      ensures k == old(k) - 1 && Chunks == old(Chunks)[1..] + [old(Chunks)[0]]
    {
      Length();
      hide Lists, Contents, Hung, Distinct;
      Nodes, k, Chunks := Nodes[1..] + [Nodes[0]], k - 1, Chunks[1..] + [Chunks[0]];
      RotatedPartition();
      RotatedLists();
      RotatedContents();
    }

    /** The head of the to-send list becomes the last free one. */
    method HeadToEnd()
      requires Partition() && Lists() && Contents() && k > 0
      modifies this`headToSend, this`headSended, this`tailSended, this`k, this`Nodes, this`Chunks, All`next
      ensures Partition() && Lists() && Contents()
      ensures k == old(k) - 1 && Chunks == old(Chunks)[1..] + [old(Chunks)[0]]
    {
      Heads();
      Length();
      hide Partition, Lists, Contents, Hung;
      HangHead();
      Rotate();
    }

    method ClearHead()
      requires Partition() && Lists() && Contents() && k > 0
      modifies this`Chunks, All`tail, All`Content
      ensures Partition() && Lists() && Contents()
      ensures Chunks == old(Chunks)[0 := []]
    {
      assert Nodes[0] in All && headToSend == Nodes[0];
      hide Lists;
      headToSend.Clear();
      Chunks := Chunks[0 := []];
    }

    /** The second half of sdio_read_done_process: what to offer the host next. */
    method NextTransfer()
      requires Partition() && Lists() && Contents() && Shape(Chunks, k) && hasRead
      requires Accepted == HostRead + Flatten(Chunks)
      modifies this`headToSend, this`tailToSend, this`headSended, this`k, this`bufPtr, this`dataLen, this`hasRead,
               All`next
      ensures Valid()
      ensures hasRead <==> Flatten(Chunks) == []
    {
      hide Lists, Distinct, Contents;
      Heads();
      Length();
      if k == 0 && (|Chunks| == 0 || Chunks[0] == []) { FlattenEmpty(Chunks); }
      if headToSend != null {
        StartTransfer();
      } else if headSended != null {
        Holds(k);
        if headSended.tail != 0 {
          MoveHead();
          StartTransfer();
        }
      }
    }

    /** sdio_read_done_process: the transfer that the host was told about has been read. */
    method ReadDone()
      requires Valid() && !hasRead
      modifies this, All
      ensures Valid() && Accepted == old(Accepted)
      ensures HostRead == old(HostRead) + old(bufPtr[..dataLen])
      ensures hasRead <==> HostRead == Accepted
      ensures !hasRead ==> 0 < dataLen <= bufPtr.Length && HostRead + bufPtr[..dataLen] <= Accepted
    {
      hide Lists, Distinct, Contents;
      Holds(0);
      ghost var first, rest := Chunks[0], Chunks[1..];
      ghost var cleared := Chunks[0 := []];
      assert cleared[1..] == rest && cleared[0] == [];
      FlattenAppend(rest, []);
      ConcatAssoc(HostRead, first, Flatten(rest));
      hasRead := true;
      ClearHead();
      HeadToEnd();
      HostRead := HostRead + first;
      NextTransfer();
      ReadUpToDate();
      if !hasRead { NextPart(); }
    }

    lemma ReadUpToDate()
      requires Accepted == HostRead + Flatten(Chunks)
      ensures HostRead == Accepted <==> Flatten(Chunks) == []
    {}

    /** The transfer that the host is told about is the next part of what it has not read. */
    lemma NextPart()
      requires Valid() && !hasRead
      ensures 0 < dataLen <= bufPtr.Length && HostRead + bufPtr[..dataLen] <= Accepted
    {
      Transfer();
      hide Partition, Lists, Contents;
      Length();
      ConcatAssoc(HostRead, Chunks[0], Flatten(Chunks[1..]));
    }

    // ------------------------------------------------------------ loading

    /** One round of the loop in sdio_load_data: the head takes what it can; once full, it is queued. */
    method LoadChunk(data: seq<byte>) returns (n: nat, full: bool)
      requires Partition() && Lists() && Contents() && Shape(Chunks, k) && k < |Nodes| && data != []
      modifies this`headToSend, this`tailToSend, this`headSended, this`k, this`Chunks, All, Buffers
      ensures Partition() && Lists() && Contents() && Shape(Chunks, k)
      ensures n == Min(|data|, RX_BUFFER_SIZE - |old(Chunks)[old(k)]|)
      ensures Chunks == old(Chunks)[old(k) := old(Chunks)[old(k)] + data[..n]]
      ensures full == (|data| >= RX_BUFFER_SIZE - |old(Chunks)[old(k)]|) && k == old(k) + if full then 1 else 0
    {
      hide Partition, Lists, Contents;
      Heads();
      Holds(k);
      var left := RX_BUFFER_SIZE - headSended.tail;
      full := |data| >= left;
      if !full {
        n := |data|;
        assert data[..n] == data;
        CopyToHead(data);
      } else {
        n := left;
        CopyToHead(data[..left]);
        MoveHead();
      }
    }

    /** The loop of sdio_load_data; `off` is how far it gets in `data`. */
    method FillBuffers(data: seq<byte>) returns (ret: nat, ghost off: nat)
      requires Partition() && Lists() && Contents() && Shape(Chunks, k) && k < |Nodes| && data != []
      modifies this`headToSend, this`tailToSend, this`headSended, this`k, this`Chunks, All, Buffers
      ensures Partition() && Lists() && Contents() && Shape(Chunks, k)
      ensures |Chunks| == |old(Chunks)| && off == Min(|data|, Room(old(Chunks), old(k)))
      ensures Flatten(Chunks) == Flatten(old(Chunks)) + data[..off]
      ensures ret <= off < ret + RX_BUFFER_SIZE
      ensures old(k) > 0 ==> Chunks[0] == old(Chunks)[0]
      ensures if |data| < RX_BUFFER_SIZE - |old(Chunks)[old(k)]| then k == old(k) && Chunks[k] != [] else k > old(k)
    {
      hide Partition, Lists, Contents, Flatten;
      Length();
      ghost var was, k0 := Chunks, k;
      var i := 0;
      ret := 0;
      assert data[..0] == [] && Flatten(was) + [] == Flatten(was);
      while i < |data|
        invariant |Chunks| == |Nodes| == |was|
        invariant Partition() && Lists() && Contents() && Shape(Chunks, k)
        invariant i <= |data| && k0 <= k && (i < |data| ==> k < |Nodes|)
        invariant Flatten(Chunks) == Flatten(was) + data[..i]
        invariant Room(Chunks, k) + i == Room(was, k0)
        invariant ret <= i < ret + RX_BUFFER_SIZE && (i < |data| ==> ret == i)
        invariant k0 > 0 ==> Chunks[0] == was[0]
        invariant if k == k0 then k < |Nodes| && |Chunks[k]| == |was[k]| + i else |data| >= RX_BUFFER_SIZE - |was[k0]|
        decreases |data| - i
      {
        ghost var chunks, k1 := Chunks, k;
        var n, full := LoadChunk(data[i..]);
        DataGrows(Flatten(was), chunks, k1, data, i, n);
        if full { ret := ret + n; }
        i := i + n;
        Heads();
        if headSended == null { break; }
      }
      off := i;
    }

    /**
     * sdio_load_data. It takes as many bytes as the free buffers hold; the count it returns leaves out the bytes
     * that end up in a buffer it does not fill. It starts a transfer exactly when nothing was queued and no
     * buffer was filled.
     */
    method LoadData(data: seq<byte>) returns (ret: nat)
      requires Valid() && data != []
      modifies this, All, Buffers
      ensures Valid() && HostRead == old(HostRead)
      ensures Accepted == old(Accepted) + data[..Min(|data|, Room(old(Chunks), old(k)))]
      ensures ret <= Min(|data|, Room(old(Chunks), old(k))) < ret + RX_BUFFER_SIZE
      ensures old(headToSend) != null ==> hasRead == old(hasRead)
      ensures !old(hasRead) ==> bufPtr == old(bufPtr) && dataLen == old(dataLen)
      ensures !old(hasRead) ==> dataLen <= bufPtr.Length && bufPtr[..dataLen] == old(bufPtr[..dataLen])
      ensures old(headToSend) == null && old(headSended) != null ==>
                (!hasRead <==> |data| < RX_BUFFER_SIZE - |old(Chunks)[old(k)]|)
    {
      hide Partition, Lists, Contents, Flatten;
      Heads();
      Length();
      if !hasRead { Transfer(); }
      if headSended == null {
        assert Accepted + [] == Accepted;
        return 0;
      }
      ghost var off;
      ConcatAssoc(HostRead, Flatten(Chunks), data[..Min(|data|, Room(Chunks, k))]);
      ret, off := FillBuffers(data);
      Accepted := Accepted + data[..off];
      Heads();
      Length();
      if headToSend == null { QueueHead(); }
      if !hasRead && k > 0 { Transfer(); }
    }

    /** What sdio_load_data does if no buffer is to be sent yet: the partly filled one is. */
    method QueueHead()
      requires Partition() && Lists() && Contents() && k == 0 < |Nodes|
      modifies this`headToSend, this`tailToSend, this`headSended, this`k, this`bufPtr, this`dataLen, this`hasRead,
               All`next
      ensures Partition() && Lists() && Contents() && k == 1 && !hasRead
      ensures if old(hasRead) then bufPtr == Nodes[0].buffer && dataLen == |Chunks[0]|
              else bufPtr == old(bufPtr) && dataLen == old(dataLen)
    {
      hide Partition, Lists, Contents;
      MoveHead();
      TryToLoad();
    }

    /** What the host reads in the transfer that it was told about. */
    lemma Transfer()
      requires Valid() && !hasRead
      ensures k > 0 && bufPtr == Nodes[0].buffer
      ensures dataLen == |Chunks[0]| <= bufPtr.Length && bufPtr[..dataLen] == Chunks[0]
    {
      hide Lists, Distinct, Shape;
      Holds(0);
    }

    /** sdio_try_to_load. */
    method TryToLoad()
      requires Partition() && Lists() && Contents()
      modifies this`bufPtr, this`dataLen, this`hasRead
      ensures hasRead == (old(hasRead) && k == 0)
      ensures if old(hasRead) && k > 0 then bufPtr == Nodes[0].buffer && dataLen == |Chunks[0]|
              else bufPtr == old(bufPtr) && dataLen == old(dataLen)
    {
      Heads();
      Length();
      if hasRead && headToSend != null { StartTransfer(); }
    }
  }
}
