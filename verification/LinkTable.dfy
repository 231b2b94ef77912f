/** The link table at call granularity (src/lib_bsp/shmc/shm_link_table.h). */
module LinkTable {
  import opened Bytes
  import opened LinkRep
  import opened Tags
  import opened LinkOps
  import opened Trails

  /** A call of New or Free. */
  datatype Call = NewBuf(buf: seq<Byte>) | FreeBuf(lb: Handle)

  class ShmLinkTable {
    const unit: nat
    const crc: Crc
    const nodes: array<Node>
    var freeList: nat
    var tagSeqNext: nat
    var freeNodeNum: nat
    var bufUsedNum: nat
    var bufUsedBytes: nat
    ghost var view: View
    ghost var draws: nat
    ghost var latest: map<nat, nat>
    /** The memory after every store of Free and HealthCheck so far. */
    ghost var trace: seq<Snap>

    ghost function Tab(): Table
      reads this, nodes
    {
      Table(unit, nodes[..], freeList, tagSeqNext, freeNodeNum, bufUsedNum, bufUsedBytes)
    }

    ghost predicate Valid()
      reads this, nodes
    {
      Sound(Tab(), view)
    }

    /** The tags of the live chains come from the last draws used for their first nodes. */
    ghost predicate Known()
      reads this, nodes
    {
      Dated(Tab(), view, draws, latest)
    }

    /** A newly created segment: all nodes are on the free list. */
    constructor (userNodeSize: nat, userNodeNum: nat, crc: Crc)
      requires userNodeSize >= 8 && 0 < userNodeNum < U32 - 1
      ensures Valid() && Known() && AllExact(Tab(), view) && fresh(nodes)
      ensures unit == userNodeSize && nodes.Length == userNodeNum + 1 && this.crc == crc
      ensures view.chains == map[] && freeNodeNum == userNodeNum && draws == 0 && latest == map[] && tagSeqNext == 1
    {
      var n := userNodeNum + 1;
      unit, this.crc := userNodeSize, crc;
      var a := new Node[n](_ => Node(0, 0, seq(userNodeSize, _ => 0)));
      nodes := a;
      tagSeqNext, freeNodeNum, bufUsedNum, bufUsedBytes, freeList := 1, userNodeNum, 0, 0, 1;
      view, draws, latest, trace := NewView(n), 0, map[], [];
      var i := n - 1;
      while i > 0
        invariant 0 <= i < n == a.Length
        invariant forall k :: 0 <= k <= i ==> a[k] == Node(0, 0, seq(userNodeSize, _ => 0))
        invariant forall k :: i < k < n ==> a[k] == NewTable(userNodeSize, n).nodes[k]
      {
        a[i] := a[i].(next := if i == n - 1 then 0 else i + 1);
        i := i - 1;
      }
      new;
      assert nodes[..] == NewTable(userNodeSize, n).nodes;
      NewTableSound(userNodeSize, n);
    }

    /** Takes the top of the free list; 0 if there is none. */
    method AllocNode() returns (n: nat)
      requires Rep(Tab(), view)
      modifies this`freeList, this`freeNodeNum, this`view
      ensures n == old(freeList) && (n == 0 <==> old(view).free == [])
      ensures n == 0 ==> Tab() == old(Tab()) && view == old(view)
      ensures n != 0 ==> n < nodes.Length && view == PopView(old(view)) && old(view).place[n] != Spare
      ensures n != 0 ==>
                Tab() == old(Tab()).(freeList := old(nodes[..])[n].next, freeNodeNum := Dec32(old(freeNodeNum)))
      ensures n != 0 ==> view.place[n] == Spare && !old(view).place[n].In?
      ensures Rep(Tab(), view)
    {
      ghost var t, v := Tab(), view;
      n := freeList;
      if v.free != [] { assert FreeLinkOk(t, v, |v.free| - 1); }
      if freeList == 0 {
        return;
      }
      PopFree(t, v);
      freeList := nodes[n].next;
      freeNodeNum := Dec32(freeNodeNum);
      view := PopView(v);
      SameLinks(t.(freeList := t.nodes[n].next), Tab(), view);
    }

    /** Puts a node on the free list; the tag is cleared first, so a chain's first node may be passed. */
    method FreeNode(n: nat)
      requires 0 < n < nodes.Length
      requires Rep(Set(Tab(), n, nodes[n].(tag := 0)), view) && view.place[n] == Spare
      modifies this`freeList, this`freeNodeNum, this`view, this`trace, nodes
      ensures Tab() == Freed(old(Tab()), n) && view == PushView(old(view), n)
      ensures old(freeNodeNum == |view.free|) ==> freeNodeNum == |view.free|
      ensures Rep(Tab(), view)
      ensures var untagged := Snap(Set(old(Tab()), n, old(nodes[n]).(tag := 0)), old(view));
              Logged(old(trace) + [untagged], trace, untagged, Snap(Tab(), view))
    {
      ghost var t, v := Tab(), view;
      FreedRep(t, v, n);
      FreeFits(Freed(t, n), PushView(v, n));
      nodes[n] := nodes[n].(tag := 0);
      ghost var t1 := Set(t, n, t.nodes[n].(tag := 0));
      assert Tab() == t1;
      trace := trace + [Snap(Tab(), view)];
      ghost var trace1 := trace;
      nodes[n] := nodes[n].(next := freeList);
      assert Tab() == FreeNodeTrail(t1, v, n)[0].t;
      trace := trace + [Snap(Tab(), view)];
      freeList := n;
      view := PushView(v, n);
      trace := trace + [Snap(Tab(), view)];
      freeNodeNum := (freeNodeNum + 1) % U32;
      trace := trace + [Snap(Tab(), view)];
      assert nodes[..] == t.nodes[n := t.nodes[n].(tag := 0, next := t.freeList)];
      assert trace == trace1 + FreeNodeTrail(t1, v, n);
      FreeNodeLogged(trace1, t1, v, n);
    }

    /** A new tag: after `d` draws the counter and the tag are those of draw `d + 1`, across the wrap. */
    method TagSeq() returns (tag: nat)
      modifies this`tagSeqNext
      ensures tagSeqNext == NextSeq(old(tagSeqNext)) && tag == tagSeqNext % 0x8000_0000
      ensures old(tagSeqNext) < 0xffff_ffff ==> tagSeqNext == old(tagSeqNext) + 1
      ensures old(tagSeqNext) == 0xffff_ffff ==> tagSeqNext == 1
      ensures forall d: nat :: SeqOk(old(tagSeqNext), d) ==> tagSeqNext == SeqAt(d + 1) && tag == TagAt(d + 1)
    {
      ghost var t := tagSeqNext;
      tagSeqNext := (tagSeqNext + 1) % U32;
      if tagSeqNext == 0 {
        tagSeqNext := (tagSeqNext + 1) % U32;
      }
      tag := tagSeqNext % HEAD_FLAG;
      forall d: nat | SeqOk(t, d) ensures tagSeqNext == SeqAt(d + 1) { DrawStep(d, t); }
    }

    /** The body of New's loop up to the link: tag, header and data of the node. */
    method FillNode(n: nat, buf: seq<Byte>, tag: nat, off: nat, ghost l: seq<nat>, first: bool) returns (copyLen: nat)
      requires n < nodes.Length && unit >= 8 && |nodes[n].payload| == unit && off <= |buf| && (first <==> l == [])
      modifies nodes
      ensures nodes[..] == old(nodes[..])[n := NewNode(crc, unit, tag, buf, l, off, old(nodes[n]))]
      ensures copyLen == ShareLen(unit, buf, l, off)
    {
      nodes[n] := nodes[n].(next := 0);
      nodes[n] := nodes[n].(tag := tag);
      var at := 0;
      if first {
        nodes[n] := nodes[n].(tag := tag + HEAD_FLAG);
        nodes[n] := nodes[n].(payload := Splice(nodes[n].payload, 0, LE(|buf|, 4)));
        var sum := crc(buf[..Min(unit - 8, |buf|)]);
        nodes[n] := nodes[n].(payload := Splice(nodes[n].payload, 4, LE(sum, 4)));
        at := 8;
      }
      copyLen := Min(unit - at, |buf| - off);
      nodes[n] := nodes[n].(payload := Splice(nodes[n].payload, at, buf[off..off + copyLen]));
    }

    /** One round of New's loop. */
    method AppendNode(buf: seq<Byte>, tag: nat, off: nat, last: nat, ghost l: seq<nat>, first: bool)
      returns (n: nat, copyLen: nat)
      requires Rep(Tab(), view) && view.free != [] && off <= |buf| && InRange(nodes[..], l)
      requires (first <==> l == []) && (l != [] ==> last == l[|l| - 1] && l[0] in view.chains && view.place[last].In?)
      modifies this`freeList, this`freeNodeNum, this`view, nodes
      ensures copyLen == ShareLen(unit, buf, l, off) && n == old(freeList)
      ensures Tab() == AppendTable(crc, old(Tab()), tag, buf, l, off) && view == AppendView(old(view), l)
    {
      ghost var t, v := Tab(), view;
      assert FreeLinkOk(t, v, |v.free| - 1);
      n := AllocNode();
      assert NodeOk(t, t.nodes[n]);
      copyLen := FillNode(n, buf, tag, off, l, first);
      ghost var t1 := Tab();
      if first {
        view := StartView(view, n);
      } else {
        nodes[last] := nodes[last].(next := n);
        view := ExtendView(view, l[0], n);
        assert nodes[..] == t1.nodes[last := t1.nodes[last].(next := n)];
      }
    }

    /**
     * Stores a buffer in a new chain.  Refused, without any change, for an empty or oversized
     * buffer and when the free nodes do not suffice; otherwise the free list never runs out.
     */
    method New(buf: seq<Byte>) returns (lb: Handle)
      requires Valid()
      modifies this, nodes
      ensures Valid()
      ensures lb.IsSet() <==> 0 < |buf| < 0x1_0000_0000 && 8 + |buf| <= old(freeNodeNum) * unit
      ensures lb.IsSet() <==> 0 < |buf| < U32 && BufNodes(unit, |buf|) <= old(freeNodeNum)
      ensures !lb.IsSet() ==> Tab() == old(Tab()) && view == old(view) && draws == old(draws) && latest == old(latest)
      ensures lb.IsSet() ==> Stored(crc, old(view), Tab(), view, lb, buf)
      ensures lb.IsSet() ==> lb.tag < HEAD_FLAG && draws == old(draws) + 1 && latest == old(latest)[lb.head := draws]
      ensures old(Known()) ==> Known() && (lb.IsSet() ==> lb.tag == TagAt(draws))
      ensures old(AllExact(Tab(), view)) ==> AllExact(Tab(), view)
      ensures Keeps(old(Tab()), old(view), Tab(), view)
    {
      if |buf| == 0 || |buf| >= U32 {
        return NO_BUF;
      }
      var needNodes := BufNodes(unit, |buf|);
      BufNodesLeast(unit, |buf|, freeNodeNum);
      if needNodes > freeNodeNum {
        return NO_BUF;
      }
      lb := Store(buf, needNodes);
    }

    /** New, once it is clear that the buffer fits: the tag, the chain and the counters. */
    method Store(buf: seq<Byte>, needNodes: nat) returns (lb: Handle)
      requires Valid() && 0 < |buf| < U32 && needNodes == BufNodes(unit, |buf|) <= freeNodeNum
      modifies this, nodes
      ensures Valid() && lb.tag < HEAD_FLAG && lb.IsSet() && Stored(crc, old(view), Tab(), view, lb, buf)
      ensures draws == old(draws) + 1 && latest == old(latest)[lb.head := draws]
      ensures old(Known()) ==> Known() && lb.tag == TagAt(draws)
      ensures old(AllExact(Tab(), view)) ==> AllExact(Tab(), view)
      ensures Keeps(old(Tab()), old(view), Tab(), view)
    {
      ghost var t0, v0 := Tab(), view;
      var tag := TagSeq();
      SameLinks(t0, Tab(), view);
      var head;
      ghost var l, off;
      head, l, off := Build(buf, tag, needNodes, t0, v0);
      ghost var t1 := Tab();
      assert t1.bufUsedNum == t0.bufUsedNum && t1.bufUsedBytes == t0.bufUsedBytes;
      bufUsedNum := (bufUsedNum + 1) % U32;
      bufUsedBytes := (bufUsedBytes + |buf|) % U64;
      assert Tab() == t1.(bufUsedNum := (t0.bufUsedNum + 1) % U32, bufUsedBytes := (t0.bufUsedBytes + |buf|) % U64);
      draws := draws + 1;
      latest := latest[head := draws];
      lb := Handle(head, tag);
      BuiltDone(crc, t0, v0, t1, Tab(), view, tag, l, lb, buf, off);
      BuiltKnown(t0, v0, Tab(), view, tag, l, old(draws), old(latest), draws, latest);
    }

    /** The loop of New: the free list, which has enough nodes, gives one node per round. */
    method Build(buf: seq<Byte>, tag: nat, needNodes: nat, ghost t0: Table, ghost v0: View)
      returns (head: nat, ghost l: seq<nat>, ghost off: nat)
      requires Building(t0, v0, Tab(), view, tag, []) && tag < HEAD_FLAG && freeNodeNum == |view.free|
      requires needNodes == BufNodes(unit, |buf|) <= |view.free|
      modifies this`freeList, this`freeNodeNum, this`view, nodes
      ensures l != [] && |l| == needNodes && Building(t0, v0, Tab(), view, tag, l) && Written(crc, Tab(), buf, l, off)
      ensures head == l[0] && freeNodeNum == |view.free|
    {
      BufNodesLeast(unit, |buf|, 0);
      var last: nat, at: nat := 0, 0;
      head, l := 0, [];
      var i := 0;
      while i < needNodes
        invariant 0 <= i <= needNodes && |l| == i
        invariant Building(t0, v0, Tab(), view, tag, l) && Written(crc, Tab(), buf, l, at)
        invariant l != [] ==> head == l[0] && last == l[|l| - 1]
        invariant freeNodeNum == |view.free|
      {
        var n;
        n, at := BuildOne(buf, tag, at, last, i == 0, t0, v0, l);
        if i == 0 { head := n; }
        l := l + [n];
        last, i := n, i + 1;
      }
      off := at;
    }

    /** One round of the loop, with what it means for the chain under construction. */
    method BuildOne(buf: seq<Byte>, tag: nat, at: nat, last: nat, first: bool, ghost t0: Table, ghost v0: View,
                    ghost l: seq<nat>)
      returns (n: nat, off: nat)
      requires Building(t0, v0, Tab(), view, tag, l) && Written(crc, Tab(), buf, l, at) && tag < HEAD_FLAG
      requires |l| < BufNodes(unit, |buf|) && view.free != [] && freeNodeNum == |view.free|
      requires (first <==> l == []) && (l != [] ==> last == l[|l| - 1])
      modifies this`freeList, this`freeNodeNum, this`view, nodes
      ensures Building(t0, v0, Tab(), view, tag, l + [n]) && Written(crc, Tab(), buf, l + [n], off)
      ensures freeNodeNum == |view.free|
    {
      AppendOk(crc, t0, v0, Tab(), view, tag, buf, l, at);
      var copyLen;
      n, copyLen := AppendNode(buf, tag, at, last, l, first);
      off := at + copyLen;
    }

    /**
     * Reads at most `bufSize` bytes of a buffer and reports its true size.  A handle that does not
     * match its node is refused, and so is a buffer whose first node fails the checksum.
     */
    method Read(lb: Handle, bufSize: nat) returns (ok: bool, out: seq<Byte>, size: nat)
      requires Rep(Tab(), view) && (lb.head in view.chains ==> Whole(Tab(), view, lb.head))
      ensures ok ==> Holds(crc, Tab(), view, lb)
      ensures lb.tag < HEAD_FLAG && Holds(crc, Tab(), view, lb) ==> ok
      ensures ok ==>
                && 0 < lb.head < nodes.Length
                && nodes[lb.head].tag == lb.tag + (if lb.tag < 0x8000_0000 then 0x8000_0000 else 0)
                && unit >= 8 && |nodes[lb.head].payload| == unit && Val(nodes[lb.head].payload[0..4]) == size
                && crc(nodes[lb.head].payload[8..8 + Min(unit - 8, size)]) % 0x1_0000_0000 ==
                     Val(nodes[lb.head].payload[4..8])
      ensures ok ==> size == |Value(Tab(), view.chains[lb.head])|
      ensures ok ==> out == Value(Tab(), view.chains[lb.head])[..Min(bufSize, size)]
    {
      out, size := [], 0;
      if lb.head <= 0 || lb.head >= nodes.Length {
        return false, out, size;
      }
      if nodes[lb.head].tag != WithFlag(lb.tag) {
        return false, out, size;
      }
      NamedChain(Tab(), view, lb);
      var dataSize := BufLen(nodes[lb.head]);
      var first := Min(unit - 8, dataSize);
      var copyLen := Min(first, bufSize);
      out := nodes[lb.head].payload[8..8 + copyLen];
      if crc(nodes[lb.head].payload[8..8 + first]) % U32 != BufCrc(nodes[lb.head]) {
        return false, out, size;
      }
      FirstSlice(Tab(), view.chains[lb.head], copyLen);
      if bufSize - copyLen <= 0 {
        return true, out, dataSize;
      }
      ok, out := ReadRest(lb, bufSize, dataSize, out);
      size := dataSize;
    }

    /**
     * The loop of Read over the nodes after the first one.  It cannot fail for a handle made by
     * New, whose tag is below the head flag.
     */
    method ReadRest(lb: Handle, bufSize: nat, dataSize: nat, start: seq<Byte>) returns (ok: bool, out: seq<Byte>)
      requires Rep(Tab(), view) && Names(Tab(), lb) && lb.head in view.chains
      requires Whole(Tab(), view, lb.head) && dataSize == |Value(Tab(), view.chains[lb.head])|
      requires |start| == Min(unit - 8, dataSize) < bufSize && start == Value(Tab(), view.chains[lb.head])[..|start|]
      ensures lb.tag < HEAD_FLAG ==> ok
      ensures ok ==> out == Value(Tab(), view.chains[lb.head])[..Min(bufSize, dataSize)]
    {
      ghost var t, l := Tab(), view.chains[lb.head];
      ghost var val := Value(t, l);
      NamedChain(t, view, lb);
      assert LinkOk(t, view, lb.head, 0);
      out := start;
      var left, dstLeft := dataSize - |start|, bufSize - |start|;
      var node := nodes[lb.head].next;
      ghost var k := 1;
      while left > 0
        invariant 0 <= left && dstLeft > 0 && left + |out| == dataSize && dstLeft + |out| == bufSize
        invariant out == val[..|out|]
        invariant left > 0 ==> ReadAt(t, l, k, |out|, node)
        decreases left
      {
        NextInChain(t, view, lb.head, k, |out|);
        if node == 0 {
          assert false;
        }
        if nodes[node].tag != lb.tag {
          return false, out;
        }
        var copyLen := Min(Min(unit, left), dstLeft);
        NodeSlice(t, l, k, |out|, copyLen);
        ghost var off := |out|;
        out := out + nodes[node].payload[..copyLen];
        left, dstLeft := left - copyLen, dstLeft - copyLen;
        if dstLeft <= 0 { break; }
        node := nodes[node].next;
        if left > 0 { ReadNext(t, view, lb.head, k, off, node); }
        k := k + 1;
      }
      ok := true;
    }

    /** Reads a whole buffer: once for its size, once for its bytes. */
    method ReadString(lb: Handle) returns (ok: bool, out: seq<Byte>)
      requires Rep(Tab(), view) && (lb.head in view.chains ==> Whole(Tab(), view, lb.head))
      ensures ok ==> Holds(crc, Tab(), view, lb)
      ensures lb.tag < HEAD_FLAG && Holds(crc, Tab(), view, lb) ==> ok
      ensures ok ==> out == Value(Tab(), view.chains[lb.head])
    {
      var bufLen;
      ok, out, bufLen := Read(lb, 0);
      if !ok {
        return;
      }
      ok, out, bufLen := Read(lb, bufLen);
    }

    /**
     * Frees a buffer: its nodes go to the free list and every other chain stays as it is.  A handle
     * that does not match its node is refused and nothing changes.  The counters wrap.  A handle whose
     * tag carries the head flag, which New never returns, frees the first node only: the others leak.
     */
    method Free(lb: Handle) returns (ok: bool)
      requires Rep(Tab(), view)
      modifies this`freeList, this`freeNodeNum, this`bufUsedNum, this`bufUsedBytes, this`view, this`trace, nodes
      ensures Logged(old(trace), trace, old(Snap(Tab(), view)), Snap(Tab(), view))
      ensures !Names(Tab(), lb)
      ensures !old(Names(Tab(), lb)) ==> !ok && Tab() == old(Tab()) && view == old(view)
      ensures old(Names(Tab(), lb)) ==> lb.head in old(view).chains
      ensures old(Names(Tab(), lb)) && lb.tag < HEAD_FLAG ==>
                ok && Released(old(Tab()), old(view), Tab(), view, lb.head, [])
      ensures old(Names(Tab(), lb)) ==>
                && bufUsedNum == Dec32(old(bufUsedNum))
                && bufUsedBytes == Less64(old(bufUsedBytes), LenOf(old(nodes[..])[lb.head]))
      ensures old(Names(Tab(), lb)) && lb.tag >= HEAD_FLAG ==>
                && old(view).chains[lb.head] != []
                && var rest := old(view).chains[lb.head][1..];
                   (ok <==> rest == []) && Released(old(Tab()), old(view), Tab(), view, lb.head, rest)
      ensures old(freeNodeNum == |view.free|) ==> freeNodeNum == |view.free|
      ensures Rep(Tab(), view)
      ensures old(Valid()) && lb.tag < HEAD_FLAG ==> Valid() && (old(AllExact(Tab(), view)) ==> AllExact(Tab(), view))
      ensures old(Known()) && lb.tag < HEAD_FLAG ==> Known()
    {
      ghost var t0, v0 := Tab(), view;
      if lb.head <= 0 || lb.head >= nodes.Length {
        LoggedNothing(trace, Snap(t0, v0));
        return false;
      }
      if nodes[lb.head].tag != WithFlag(lb.tag) {
        LoggedNothing(trace, Snap(t0, v0));
        return false;
      }
      HeadFlagMarksChains(t0, v0, lb.head);
      ghost var todo;
      ok, todo := FreeChain(lb);
      HeadFlagMarksChains(Tab(), view, lb.head);
      if lb.tag < HEAD_FLAG {
        if old(Valid()) { ReleasedSound(t0, v0, Tab(), view, lb.head); }
        if old(Known()) { ReleasedDated(t0, v0, Tab(), view, lb.head, draws, latest); }
      }
    }

    /** Free, past its checks: the nodes, then the counters. */
    method FreeChain(lb: Handle) returns (ok: bool, ghost todo: seq<nat>)
      requires Rep(Tab(), view) && Names(Tab(), lb) && lb.head in view.chains
      modifies this`freeList, this`freeNodeNum, this`bufUsedNum, this`bufUsedBytes, this`view, this`trace, nodes
      ensures Logged(old(trace), trace, old(Snap(Tab(), view)), Snap(Tab(), view))
      ensures Released(old(Tab()), old(view), Tab(), view, lb.head, todo)
      ensures lb.tag < HEAD_FLAG ==> ok && todo == []
      ensures lb.tag >= HEAD_FLAG ==> todo == old(view).chains[lb.head][1..] && (ok <==> todo == [])
      ensures bufUsedNum == Dec32(old(bufUsedNum))
      ensures bufUsedBytes == Less64(old(bufUsedBytes), LenOf(old(nodes[..])[lb.head]))
      ensures old(freeNodeNum == |view.free|) ==> freeNodeNum == |view.free|
    {
      ghost var t0, v0, h, trace0 := Tab(), view, lb.head, trace;
      assert NodeOk(t0, t0.nodes[h]);
      var bufLen := BufLen(nodes[lb.head]);
      ok, todo := FreeNodes(lb);
      ghost var t1 := Tab();
      SetCounters(Dec32(bufUsedNum), Less64(bufUsedBytes, bufLen), trace0, Snap(t0, v0));
      SameReleased(t0, v0, t1, Tab(), view, h, todo);
    }

    /** The first node, then the others. */
    method FreeNodes(lb: Handle) returns (ok: bool, ghost todo: seq<nat>)
      requires Rep(Tab(), view) && Names(Tab(), lb) && lb.head in view.chains
      modifies this`freeList, this`freeNodeNum, this`view, this`trace, nodes
      ensures Logged(old(trace), trace, old(Snap(Tab(), view)), Snap(Tab(), view))
      ensures Released(old(Tab()), old(view), Tab(), view, lb.head, todo)
      ensures lb.tag < HEAD_FLAG ==> ok && todo == []
      ensures lb.tag >= HEAD_FLAG ==> todo == old(view).chains[lb.head][1..] && (ok <==> todo == [])
      ensures old(freeNodeNum == |view.free|) ==> freeNodeNum == |view.free|
    {
      ghost var t0, v0, h, trace0 := Tab(), view, lb.head, trace;
      ReleaseHead(t0, v0, h);
      var node := nodes[lb.head].next;
      ghost var a := FreeHead(lb.head);
      ghost var trace1 := trace;
      todo := v0.chains[h][1..];
      ok, todo := FreeRest(lb, node, t0, v0, h, todo);
      LoggedTwice(trace0, trace1, trace, Snap(t0, v0), a, Snap(Tab(), view));
    }

    /** FreeNode for the first node of a chain. */
    method FreeHead(h: nat) returns (ghost a: Snap)
      requires Rep(Tab(), view) && h in view.chains && 0 < h < nodes.Length
      requires Rep(Set(Tab(), h, nodes[h].(tag := 0)), DropView(view, h)) && DropView(view, h).place[h] == Spare
      modifies this`freeList, this`freeNodeNum, this`view, this`trace, nodes
      ensures a == Snap(Tab(), view) && Logged(old(trace), trace, old(Snap(Tab(), view)), a)
      ensures Tab() == Freed(old(Tab()), h) && view == PushView(DropView(old(view), h), h)
      ensures old(freeNodeNum == |view.free|) ==> freeNodeNum == |view.free|
    {
      ghost var t, v, trace0 := Tab(), view, trace;
      UntagHead(t, v, h);
      view := DropView(view, h);
      FreeNode(h);
      a := Snap(Tab(), view);
      UntaggedLogged(trace0, trace, Snap(t, v), Snap(Set(t, h, t.nodes[h].(tag := 0)), DropView(v, h)), a);
    }

    /** The loop of Free over the nodes after the first one. */
    method FreeRest(lb: Handle, start: nat, ghost t0: Table, ghost v0: View, ghost h: nat, ghost todo0: seq<nat>)
      returns (ok: bool, ghost todo: seq<nat>)
      requires h in v0.chains && h < |t0.nodes| && t0.nodes[h].tag >= HEAD_FLAG
      requires Released(t0, v0, Tab(), view, h, todo0) && Pend(Tab(), view, todo0, t0.nodes[h].tag - HEAD_FLAG)
      requires start == (if todo0 == [] then 0 else todo0[0]) && (start > 0 <==> todo0 != [])
      requires t0.freeNodeNum == |v0.free| ==> freeNodeNum == |view.free|
      modifies this`freeList, this`freeNodeNum, this`view, this`trace, nodes
      ensures Logged(old(trace), trace, old(Snap(Tab(), view)), Snap(Tab(), view))
      ensures Released(t0, v0, Tab(), view, h, todo)
      ensures t0.nodes[h].tag == lb.tag + HEAD_FLAG ==> ok && todo == []
      ensures t0.nodes[h].tag == lb.tag ==> todo == todo0 && (ok <==> todo0 == [])
      ensures t0.freeNodeNum == |v0.free| ==> freeNodeNum == |view.free|
    {
      todo := todo0;
      ghost var tag := t0.nodes[h].tag - HEAD_FLAG;
      ghost var a, trace0 := Snap(Tab(), view), trace;
      LoggedNothing(trace, a);
      var node := start;
      while node > 0
        invariant Released(t0, v0, Tab(), view, h, todo) && Pend(Tab(), view, todo, tag)
        invariant node == (if todo == [] then 0 else todo[0]) && (node > 0 <==> todo != [])
        invariant t0.freeNodeNum == |v0.free| ==> freeNodeNum == |view.free|
        invariant Logged(trace0, trace, a, Snap(Tab(), view))
        invariant t0.nodes[h].tag == lb.tag ==> todo == todo0
        decreases |todo|
      {
        ReleaseNext(t0, v0, Tab(), view, h, todo, tag);
        if nodes[node].tag != lb.tag {
          ok := false;
          return;
        }
        var next := nodes[node].next;
        FreeSpare(node, a, trace0);
        todo := todo[1..];
        node := next;
      }
      ok := true;
    }

    /** FreeNode for a node that is in no chain; its trail goes on from `a`. */
    method FreeSpare(n: nat, ghost a: Snap, ghost trace0: seq<Snap>)
      requires 0 < n < nodes.Length && Rep(Tab(), view) && view.place[n] == Spare
      requires Rep(Set(Tab(), n, nodes[n].(tag := 0)), view) && Logged(trace0, trace, a, Snap(Tab(), view))
      modifies this`freeList, this`freeNodeNum, this`view, this`trace, nodes
      ensures Tab() == Freed(old(Tab()), n) && view == PushView(old(view), n)
      ensures old(freeNodeNum == |view.free|) ==> freeNodeNum == |view.free|
      ensures Rep(Tab(), view) && Logged(trace0, trace, a, Snap(Tab(), view))
    {
      ghost var t, v, trace1 := Tab(), view, trace;
      UntagSpare(t, v, n);
      FreeNode(n);
      UntaggedLogged(trace1, trace, Snap(t, v), Snap(Set(t, n, t.nodes[n].(tag := 0)), v), Snap(Tab(), view));
      LoggedTwice(trace0, trace1, trace, a, Snap(t, v), Snap(Tab(), view));
    }

    /** A call after the buffer that draw `b` created at a handle's node is gone. */
    method PerformAfter(call: Call, ghost lb: Handle, ghost b: nat)
      requires Valid() && Known() && b <= draws && Gone(view, latest, lb, b)
      requires (call.FreeBuf? ==> call.lb.tag < HEAD_FLAG)
      modifies this, nodes
      ensures Valid() && Known() && b <= draws && Gone(view, latest, lb, b)
    {
      match call
      case NewBuf(buf) =>
        var other := New(buf);
      case FreeBuf(other) =>
        var freed := Free(other);
    }

    /**
     * A freed handle stays refused: after any run of New and Free both Read and Free return false
     * for it, as long as fewer than TAG_WINDOW tags have been drawn since draw `b` created it.
     */
    method FreedIsRefused(lb: Handle, run: seq<Call>, ghost b: nat) returns (readOk: bool, freeOk: bool)
      requires Valid() && Known() && Names(Tab(), lb) && lb.tag < HEAD_FLAG && lb.head in latest && b == latest[lb.head]
      requires forall i :: 0 <= i < |run| && run[i].FreeBuf? ==> run[i].lb.tag < HEAD_FLAG
      modifies this, nodes
      ensures Valid() && Known()
      ensures draws - b < TAG_WINDOW ==> !readOk && !freeOk
    {
      HeadFlagMarksChains(Tab(), view, lb.head);
      var freed := Free(lb);
      for i := 0 to |run|
        invariant Valid() && Known() && b <= draws && Gone(view, latest, lb, b)
      {
        PerformAfter(run[i], lb, b);
      }
      if draws - b < TAG_WINDOW { StaleHandleRefused(Tab(), view, draws, latest, lb, b); }
      var out, size;
      readOk, out, size := Read(lb, 0);
      freeOk := Free(lb);
    }

    /**
     * The chain round trip: a buffer that was stored is read back whole after any run of New and
     * Free that does not free it.
     */
    method StoredIsRead(buf: seq<Byte>, run: seq<Call>) returns (lb: Handle, ok: bool, out: seq<Byte>)
      requires Valid()
      requires forall i :: 0 <= i < |run| && run[i].FreeBuf? ==> run[i].lb.tag < HEAD_FLAG
      modifies this, nodes
      ensures Valid()
      ensures lb.IsSet() <==> 0 < |buf| < U32 && BufNodes(unit, |buf|) <= old(freeNodeNum)
      ensures lb.IsSet() ==> ok && out == buf
    {
      ok, out := false, [];
      lb := New(buf);
      if !lb.IsSet() {
        return;
      }
      for i := 0 to |run|
        invariant Valid() && Holds(crc, Tab(), view, lb) && Value(Tab(), view.chains[lb.head]) == buf
      {
        match run[i]
        case NewBuf(other) => OtherNew(lb, buf, other);
        case FreeBuf(other) => if other != lb { OtherFree(lb, buf, other); }
      }
      ok, out := ReadString(lb);
    }

    /** Another call leaves the buffer of a handle. */
    method OtherNew(lb: Handle, ghost buf: seq<Byte>, other: seq<Byte>)
      requires Valid() && Holds(crc, Tab(), view, lb) && Value(Tab(), view.chains[lb.head]) == buf
      modifies this, nodes
      ensures Valid() && Holds(crc, Tab(), view, lb) && Value(Tab(), view.chains[lb.head]) == buf
    {
      ghost var t, v := Tab(), view;
      var lb' := New(other);
      KeepsHolds(crc, t, v, Tab(), view, lb);
    }

    method OtherFree(lb: Handle, ghost buf: seq<Byte>, other: Handle)
      requires Valid() && Holds(crc, Tab(), view, lb) && Value(Tab(), view.chains[lb.head]) == buf
      requires other.tag < HEAD_FLAG && lb.tag < HEAD_FLAG && other != lb
      modifies this, nodes
      ensures Valid() && Holds(crc, Tab(), view, lb) && Value(Tab(), view.chains[lb.head]) == buf
    {
      ghost var t, v := Tab(), view;
      var freed := Free(other);
      if freed { ReleaseHolds(crc, t, v, Tab(), view, other.head, lb); }
    }

    /** Marks the nodes of the chain at `h` and counts them. */
    method MarkChain(h: nat, bitmap: array<bool>) returns (count: nat)
      requires Rep(Tab(), view) && h in view.chains && 0 < h < nodes.Length == bitmap.Length
      modifies bitmap
      ensures count == |view.chains[h]|
      ensures forall m :: 0 <= m < bitmap.Length ==>
                (bitmap[m] <==> old(bitmap[m]) || (view.place[m].In? && view.place[m].head == h))
    {
      ghost var t, l := Tab(), view.chains[h];
      assert LinkOk(t, view, h, 0);
      if |l| > 1 { assert LinkOk(t, view, h, 1); }
      AllPlaces(t, view);
      bitmap[h] := true;
      var node := nodes[h].next;
      count := 1;
      while node > 0
        invariant 1 <= count <= |l| && node == (if count < |l| then l[count] else 0)
        invariant node > 0 <==> count < |l|
        invariant forall m :: 0 <= m < bitmap.Length ==>
                    (bitmap[m] <==>
                       old(bitmap[m]) || (view.place[m].In? && view.place[m].head == h && view.place[m].pos < count))
        decreases |l| - count
      {
        assert LinkOk(t, view, h, count);
        if nodes[node].tag != nodes[h].tag - HEAD_FLAG {
          assert false;
        }
        bitmap[node] := true;
        node := nodes[node].next;
        if count + 1 < |l| { assert LinkOk(t, view, h, count + 1); }
        count := count + 1;
      }
    }

    /** Marks the nodes of the free list and counts them. */
    method MarkFree(bitmap: array<bool>) returns (count: nat)
      requires Rep(Tab(), view) && nodes.Length == bitmap.Length
      modifies bitmap
      ensures count == |view.free|
      ensures forall m :: 0 <= m < bitmap.Length ==> (bitmap[m] <==> old(bitmap[m]) || view.place[m].Free?)
    {
      ghost var t := Tab();
      AllPlaces(t, view);
      var n := freeList;
      count := 0;
      if |view.free| > 0 { assert FreeLinkOk(t, view, |view.free| - 1); }
      while n != 0
        invariant count <= |view.free| && n == (if count < |view.free| then view.free[|view.free| - 1 - count] else 0)
        invariant n > 0 <==> count < |view.free|
        invariant forall m :: 0 <= m < bitmap.Length ==>
                    (bitmap[m] <==> old(bitmap[m]) || (view.place[m].Free? && view.place[m].pos >= |view.free| - count))
        decreases |view.free| - count
      {
        assert FreeLinkOk(t, view, |view.free| - 1 - count);
        bitmap[n] := true;
        n := nodes[n].next;
        if count + 1 < |view.free| { assert FreeLinkOk(t, view, |view.free| - 2 - count); }
        count := count + 1;
      }
    }

    /** First pass: looks at every chain, marks its nodes, and releases those that are too short. */
    method CheckChains(autoFix: bool, bitmap: array<bool>) returns (stat: HealthStat)
      requires Rep(Tab(), view) && nodes.Length == bitmap.Length && Marked(view, bitmap[..], 0)
      modifies this`freeList, this`freeNodeNum, this`bufUsedNum, this`bufUsedBytes, this`view, this`trace, nodes, bitmap
      ensures PassOk(old(Tab()), old(view), Tab(), view, bitmap[..], nodes.Length, autoFix, stat)
      ensures Logged(old(trace), trace, old(Snap(Tab(), view)), Snap(Tab(), view))
    {
      ghost var t0, v0, trace0 := Tab(), view, trace;
      LoggedNothing(trace, Snap(t0, v0));
      stat := HealthStat(0, 0, 0, 0, 0, 0, 0);
      PassBegins(t0, v0, bitmap[..], autoFix);
      var n := 1;
      while n < nodes.Length
        invariant 1 <= n <= nodes.Length && Passed(t0, v0, Tab(), view, bitmap[..], n, autoFix, stat)
        invariant Logged(trace0, trace, Snap(t0, v0), Snap(Tab(), view))
      {
        ghost var a, trace1 := Snap(Tab(), view), trace;
        stat := CheckNext(n, autoFix, bitmap, stat, t0, v0);
        LoggedTwice(trace0, trace1, trace, Snap(t0, v0), a, Snap(Tab(), view));
        n := n + 1;
      }
      assert OpenPass(n, 0);
    }

    method CheckNext(n: nat, autoFix: bool, bitmap: array<bool>, stat: HealthStat, ghost t0: Table, ghost v0: View)
      returns (s: HealthStat)
      requires 1 <= n < nodes.Length == bitmap.Length && Passed(t0, v0, Tab(), view, bitmap[..], n, autoFix, stat)
      modifies this`freeList, this`freeNodeNum, this`bufUsedNum, this`bufUsedBytes, this`view, this`trace, nodes, bitmap
      ensures Passed(t0, v0, Tab(), view, bitmap[..], n + 1, autoFix, s)
      ensures Logged(old(trace), trace, old(Snap(Tab(), view)), Snap(Tab(), view))
    {
      assert OpenPass(n, 0);
      s := CheckOne(n, autoFix, bitmap, stat, t0, v0);
      ShortNext(t0, v0, n);
      LongNext(t0, v0, n);
      WholeNext(t0, v0, n);
      if n in v0.chains { ChainSize(t0, v0, n); }
    }

    /** One round of the first pass. */
    method CheckOne(n: nat, autoFix: bool, bitmap: array<bool>, stat: HealthStat, ghost t0: Table, ghost v0: View)
      returns (s: HealthStat)
      requires 1 <= n < nodes.Length == bitmap.Length
      requires Checked(t0, v0, Tab(), view, n, autoFix) && Marked(v0, bitmap[..], n)
      requires stat.linkBufs == Heads(nodes[..], n) && stat.linkBufBytes == HeadBytes(nodes[..], n)
      modifies this`freeList, this`freeNodeNum, this`bufUsedNum, this`bufUsedBytes, this`view, this`trace, nodes, bitmap
      ensures Checked(t0, v0, Tab(), view, n + 1, autoFix) && Marked(v0, bitmap[..], n + 1)
      ensures s.linkBufs == Heads(nodes[..], n + 1) && s.linkBufBytes == HeadBytes(nodes[..], n + 1)
      ensures s.tooShort == stat.tooShort + (if TooShort(t0, v0, n) then 1 else 0)
      ensures s.cleared == stat.cleared + (if autoFix && TooShort(t0, v0, n) then 1 else 0)
      ensures s.tooLong == stat.tooLong + (if TooLong(t0, v0, n) then 1 else 0)
      ensures s.freeNodes == stat.freeNodes && s.leaked == stat.leaked
      ensures !autoFix || s.tooShort == stat.tooShort ==> Tab() == old(Tab()) && view == old(view)
      ensures Logged(old(trace), trace, old(Snap(Tab(), view)), Snap(Tab(), view))
    {
      ghost var t, v := Tab(), view;
      LoggedNothing(trace, Snap(t, v));
      HeadFlagMarksChains(t, v, n);
      s := stat;
      if nodes[n].tag < HEAD_FLAG {
        CheckKeeps(t0, v0, t, v, n, autoFix);
        AllPlaces(t0, v0);
        return;
      }
      CheckedChain(t0, v0, t, v, n, autoFix, n);
      ChainSize(t, v, n);
      ChainSize(t0, v0, n);
      assert NodeOk(t, t.nodes[n]);
      var len := BufLen(nodes[n]);
      s := s.(linkBufs := s.linkBufs + 1, linkBufBytes := s.linkBufBytes + len);
      var need := BufNodes(unit, len);
      var count := MarkChain(n, bitmap);
      MarkedNext(t0, v0, t, v, n, autoFix);
      if count > need {
        s := s.(tooLong := s.tooLong + 1);
        CheckKeeps(t0, v0, t, v, n, autoFix);
      } else if count < need {
        s := s.(tooShort := s.tooShort + 1);
        if autoFix {
          var lb := Handle(n, nodes[n].tag - HEAD_FLAG);
          var freed := Free(lb);
          s := s.(cleared := s.cleared + 1, linkBufs := s.linkBufs - 1, linkBufBytes := s.linkBufBytes - len);
          CheckReleases(t0, v0, t, v, Tab(), view, n);
          ReleasedBelow(t, v, Tab(), view, n);
        } else {
          CheckKeeps(t0, v0, t, v, n, autoFix);
        }
      } else {
        CheckKeeps(t0, v0, t, v, n, autoFix);
      }
    }

    /**
     * Repairs the table.  With `autoFix`, chains that are too short are released, nodes in neither
     * a chain nor the free list are recycled, every other chain keeps its nodes and bytes, and the
     * counters become exact.  Without it only the counters are set.  A sound table is not changed.
     */
    method HealthCheck(autoFix: bool) returns (stat: HealthStat)
      requires Rep(Tab(), view)
      modifies this`freeList, this`freeNodeNum, this`bufUsedNum, this`bufUsedBytes, this`view, this`trace, nodes
      ensures Logged(old(trace), trace, old(Snap(Tab(), view)), Snap(Tab(), view))
      ensures Rep(Tab(), view) && CountersExact(Tab(), view)
      ensures autoFix ==> Repaired(old(Tab()), old(view), Tab(), view) && Valid()
      ensures !autoFix ==> nodes[..] == old(nodes[..]) && view == old(view)
      ensures old(Sound(Tab(), view)) ==> Tab() == old(Tab()) && view == old(view)
      ensures stat.freeNodes == |view.free| && stat.linkBufs == bufUsedNum && stat.linkBufBytes == bufUsedBytes
      ensures stat.leaked == |SpareOnes(old(view), nodes.Length)|
      ensures stat.tooShort == |ShortOnes(old(Tab()), old(view), nodes.Length)|
      ensures stat.tooLong == |LongOnes(old(Tab()), old(view), nodes.Length)|
      ensures stat.cleared == if autoFix then stat.tooShort else 0
      ensures stat.tooShort == 0 <==> forall h :: h in old(view).chains ==> Whole(old(Tab()), old(view), h)
    {
      ghost var t0, v0, trace0 := Tab(), view, trace;
      if Sound(t0, v0) { SoundIsHealthy(t0, v0); }
      var bitmap := new bool[nodes.Length](_ => false);
      stat := CheckChains(autoFix, bitmap);
      ghost var t1 := Tab();
      PassEnds(t0, v0, t1, view, bitmap[..], autoFix, stat);
      SetCounters(stat.linkBufs, stat.linkBufBytes, trace0, Snap(t0, v0));
      ghost var a, trace1 := Snap(Tab(), view), trace;
      SameChecked(t0, v0, t1, Tab(), view, nodes.Length, autoFix);
      stat := Collect(autoFix, bitmap, stat, t0, v0);
      LoggedTwice(trace0, trace1, trace, Snap(t0, v0), a, Snap(Tab(), view));
    }

    /** Resets two counters; the trail from `a` goes on. */
    method SetCounters(num: nat, bytes: nat, ghost trace0: seq<Snap>, ghost a: Snap)
      requires Logged(trace0, trace, a, Snap(Tab(), view))
      modifies this`bufUsedNum, this`bufUsedBytes, this`trace
      ensures bufUsedNum == num && bufUsedBytes == bytes && Logged(trace0, trace, a, Snap(Tab(), view))
    {
      ghost var b, trace1 := Snap(Tab(), view), trace;
      bufUsedNum := num;
      ghost var b1 := Snap(Tab(), view);
      trace := trace + [b1];
      bufUsedBytes := bytes;
      ghost var b2 := Snap(Tab(), view);
      trace := trace + [b2];
      TwoCounters(trace0, trace1, a, b, b1, b2);
    }

    /** The second and the last pass: the free list is counted and unmarked nodes are freed. */
    method Collect(autoFix: bool, bitmap: array<bool>, found: HealthStat, ghost t0: Table, ghost v0: View)
      returns (stat: HealthStat)
      requires Checked(t0, v0, Tab(), view, nodes.Length, autoFix) && Marked(v0, bitmap[..], nodes.Length)
      requires bitmap.Length == nodes.Length && tagSeqNext == t0.tagSeqNext
      requires bufUsedNum == Heads(nodes[..], nodes.Length) && bufUsedBytes == HeadBytes(nodes[..], nodes.Length)
      modifies this`freeList, this`freeNodeNum, this`view, this`trace, nodes, bitmap
      ensures Logged(old(trace), trace, old(Snap(Tab(), view)), Snap(Tab(), view))
      ensures Rep(Tab(), view) && CountersExact(Tab(), view)
      ensures autoFix ==> Repaired(t0, v0, Tab(), view) && Valid()
      ensures stat == found.(freeNodes := |view.free|, leaked := stat.leaked)
      ensures stat.leaked == |SpareOnes(v0, nodes.Length)|
      ensures !autoFix || stat.leaked == 0 ==>
                Tab() == old(Tab()).(freeNodeNum := |view.free|) && view == old(view)
    {
      ghost var t1, v1, chains := Tab(), view, bitmap[..];
      var free := MarkFree(bitmap);
      UnmarkedAreSpare(t0, v0, t1, v1, autoFix, chains, bitmap[..]);
      SameSpares(t0, v0, t1, v1, autoFix);
      ghost var trace1 := trace;
      var leaked := Recycle(autoFix, bitmap);
      ghost var t2, trace2 := Tab(), trace;
      freeNodeNum := if autoFix then free + leaked else free;
      trace := trace + [Snap(Tab(), view)];
      CounterStore(t2, Tab(), view);
      LoggedOne(trace2, Snap(t2, view), Snap(Tab(), view));
      LoggedTwice(trace1, trace2, trace, Snap(t1, v1), Snap(t2, view), Snap(Tab(), view));
      stat := found.(freeNodes := freeNodeNum, leaked := leaked);
      SameLinks(t2, Tab(), view);
      if autoFix {
        RecycledRepaired(t0, v0, t1, v1, t2, view, Tab());
        RepairedSound(t0, v0, Tab(), view);
      }
    }

    /** Last pass: frees every node that is not marked. */
    method Recycle(autoFix: bool, bitmap: array<bool>) returns (leaked: nat)
      requires Rep(Tab(), view) && nodes.Length == bitmap.Length
      requires forall m :: 0 < m < nodes.Length ==> (bitmap[m] <==> view.place[m] != Spare)
      modifies this`freeList, this`freeNodeNum, this`view, this`trace, nodes
      ensures Logged(old(trace), trace, old(Snap(Tab(), view)), Snap(Tab(), view))
      ensures Recycled(old(Tab()), old(view), Tab(), view)
      ensures autoFix ==> NoSpare(view) && |view.free| == |old(view).free| + leaked
      ensures !autoFix || leaked == 0 ==> Tab() == old(Tab()) && view == old(view)
      ensures leaked == 0 <==> NoSpare(old(view))
      ensures leaked == |SpareOnes(old(view), nodes.Length)|
    {
      ghost var t0, v0, trace0 := Tab(), view, trace;
      AllPlaces(t0, v0);
      LoggedNothing(trace, Snap(t0, v0));
      RecyclingBegins(t0, v0, autoFix);
      leaked := 0;
      var i := 1;
      while i < nodes.Length
        invariant 1 <= i <= nodes.Length && Recycling(t0, v0, Tab(), view, i, autoFix, leaked)
        invariant Logged(trace0, trace, Snap(t0, v0), Snap(Tab(), view))
      {
        if !bitmap[i] {
          leaked := leaked + 1;
          if autoFix {
            RecyclingFrees(t0, v0, Tab(), view, i, leaked - 1);
            FreeSpare(i, Snap(t0, v0), trace0);
          } else {
            RecyclingCounts(t0, v0, Tab(), view, i, autoFix, leaked - 1);
          }
        } else {
          RecyclingCounts(t0, v0, Tab(), view, i, autoFix, leaked);
        }
        i := i + 1;
      }
    }
  }
}
