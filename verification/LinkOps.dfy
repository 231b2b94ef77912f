/**
 * What the calls of the link table (src/lib_bsp/shmc/shm_link_table.h) do to its memory, and why they keep it sound.
 */
module LinkOps {
  import opened Bytes
  import opened LinkRep
  import opened Tags

  // ---------------------------------------------------------------------------
  // What the counters summarise

  predicate IsHead(n: Node) { n.tag >= HEAD_FLAG }

  function LenOf(n: Node): nat { if |n.payload| >= 8 && IsHead(n) then BufLen(n) else 0 }

  /** Link-bufs that start below `k`. */
  function Heads(nodes: seq<Node>, k: nat): nat
    requires k <= |nodes|
  {
    if k == 0 then 0 else Heads(nodes, k - 1) + if k > 1 && IsHead(nodes[k - 1]) then 1 else 0
  }

  /** Bytes of the link-bufs that start below `k`. */
  function HeadBytes(nodes: seq<Node>, k: nat): nat
    requires k <= |nodes|
  {
    if k == 0 then 0 else HeadBytes(nodes, k - 1) + if k > 1 then LenOf(nodes[k - 1]) else 0
  }

  /** A store into node `n` moves the sums by what the node stands for. */
  lemma {:induction false} SumsUpdate(nodes: seq<Node>, n: nat, node: Node, k: nat)
    requires 0 < n < |nodes| && k <= |nodes|
    ensures Heads(nodes[n := node], k) + (if n < k && IsHead(nodes[n]) then 1 else 0)
         == Heads(nodes, k) + (if n < k && IsHead(node) then 1 else 0)
    ensures HeadBytes(nodes[n := node], k) + (if n < k then LenOf(nodes[n]) else 0)
         == HeadBytes(nodes, k) + (if n < k then LenOf(node) else 0)
  {
    if k > 0 { SumsUpdate(nodes, n, node, k - 1); }
  }

  lemma {:induction false} SumsSame(a: seq<Node>, b: seq<Node>, k: nat)
    requires |a| == |b| && k <= |a|
    requires forall n :: 0 < n < k ==> IsHead(a[n]) == IsHead(b[n]) && LenOf(a[n]) == LenOf(b[n])
    ensures Heads(a, k) == Heads(b, k) && HeadBytes(a, k) == HeadBytes(b, k)
  {
    if k > 0 { SumsSame(a, b, k - 1); }
  }

  lemma {:induction false} SumsBound(t: Table, k: nat)
    requires WellSized(t) && k <= |t.nodes|
    ensures k > 0 ==> Heads(t.nodes, k) <= k - 1 && HeadBytes(t.nodes, k) <= (k - 1) * U32
  {
    if k > 0 {
      SumsBound(t, k - 1);
      assert NodeOk(t, t.nodes[k - 1]);
      Spans();
      ValBound(t.nodes[k - 1].payload[0..4]);
    }
  }

  // ---------------------------------------------------------------------------
  // Valid tables

  ghost predicate CountersExact(t: Table, v: View) {
    && t.freeNodeNum == |v.free|
    && t.bufUsedNum == Heads(t.nodes, |t.nodes|)
    && t.bufUsedBytes == HeadBytes(t.nodes, |t.nodes|)
  }

  ghost predicate NoSpare(v: View) {
    forall n :: 0 < n < |v.place| ==> v.place[n] != Spare
  }

  /** The chain has exactly the nodes that its length calls for. */
  ghost predicate Exact(t: Table, l: seq<nat>)
    requires WellSized(t) && l != [] && InRange(t.nodes, l)
  {
    assert NodeOk(t, t.nodes[l[0]]);
    BufNodes(t.unit, BufLen(t.nodes[l[0]])) == |l|
  }

  /**
   * Between calls: every node but node 0 is on the free list or in exactly one chain, every chain
   * is long enough for its buffer, and the counters are exact.
   */
  ghost predicate Sound(t: Table, v: View) {
    && Rep(t, v) && NoSpare(v) && CountersExact(t, v)
    && forall h {:trigger v.chains[h]} :: h in v.chains ==> InRange(t.nodes, v.chains[h]) && Enough(t, v.chains[h])
  }

  /** No chain is longer than its buffer needs. */
  ghost predicate AllExact(t: Table, v: View)
    requires Rep(t, v)
  {
    forall h {:trigger v.chains[h]} :: h in v.chains ==> InRange(t.nodes, v.chains[h]) && Exact(t, v.chains[h])
  }

  /** The handle matches the chain that starts at its node. */
  ghost predicate Names(t: Table, lb: Handle) {
    0 < lb.head < |t.nodes| && t.nodes[lb.head].tag == WithFlag(lb.tag)
  }

  /** Every live chain carries the tag of the last draw that was used for its first node. */
  ghost predicate Dated(t: Table, v: View, draws: nat, latest: map<nat, nat>) {
    && SeqOk(t.tagSeqNext, draws)
    && (forall h :: h in latest ==> latest[h] <= draws)
    && forall h :: h in v.chains && h < |t.nodes| ==>
         h in latest && t.nodes[h].tag == TagAt(latest[h]) + HEAD_FLAG
  }

  /** A 32-bit counter that is decremented. */
  function Dec32(x: nat): nat { if x == 0 then U32 - 1 else x - 1 }

  /** Subtraction in 64 bits. */
  function Less64(x: nat, y: nat): nat { (x + U64 - y % U64) % U64 }

  /** FreeNode's three stores into the table, and its counter. */
  function Freed(t: Table, n: nat): Table
    requires n < |t.nodes|
  {
    Set(t, n, t.nodes[n].(tag := 0, next := t.freeList)).(freeList := n, freeNodeNum := (t.freeNodeNum + 1) % U32)
  }

  lemma FreedRep(t: Table, v: View, n: nat)
    requires 0 < n < |t.nodes| && Rep(Set(t, n, t.nodes[n].(tag := 0)), v) && v.place[n] == Spare
    ensures Rep(Freed(t, n), PushView(v, n))
  {
    var t1 := Set(t, n, t.nodes[n].(tag := 0));
    var node := t1.nodes[n].(next := t.freeList);
    assert NodeOk(t1, t1.nodes[n]);
    TouchSpare(t1, v, n, node);
    PushFree(Set(t1, n, node), v, n);
    SameLinks(Set(t1, n, node).(freeList := n), Freed(t, n), PushView(v, n));
  }

  lemma NewTableSound(unit: nat, nodeNum: nat)
    requires unit >= 8 && 2 <= nodeNum <= U32
    ensures Sound(NewTable(unit, nodeNum), NewView(nodeNum)) && AllExact(NewTable(unit, nodeNum), NewView(nodeNum))
    ensures Dated(NewTable(unit, nodeNum), NewView(nodeNum), 0, map[])
  {
    NewTableRep(unit, nodeNum);
    NoHeads(NewTable(unit, nodeNum).nodes, nodeNum);
  }

  lemma {:induction false} NoHeads(nodes: seq<Node>, k: nat)
    requires k <= |nodes| && forall n :: 0 <= n < |nodes| ==> nodes[n].tag == 0
    ensures Heads(nodes, k) == 0 && HeadBytes(nodes, k) == 0
  {
    if k > 0 { NoHeads(nodes, k - 1); }
  }

  /** The counter after one more draw. */
  function NextSeq(seq32: nat): nat {
    var n := Bump(seq32);
    if n == 0 then Bump(n) else n
  }

  // ---------------------------------------------------------------------------
  // Steps of New's loop

  /** What New keeps while it builds a chain: everything that was in a chain before. */
  ghost predicate Keeps(t0: Table, v0: View, t: Table, v: View) {
    && |t0.nodes| == |t.nodes| == |v0.place| == |v.place| && t.unit == t0.unit
    && forall n :: 0 <= n < |t.nodes| && v0.place[n].In? ==> t.nodes[n] == t0.nodes[n] && v.place[n] == v0.place[n]
  }

  /** The chain under construction next to the old ones. */
  ghost predicate Building(t0: Table, v0: View, t: Table, v: View, tag: nat, l: seq<nat>) {
    && Rep(t0, v0) && Rep(t, v) && NoSpare(v) && Keeps(t0, v0, t, v)
    && InRange(t.nodes, l)
    && v.chains == (if l == [] then v0.chains else v0.chains[l[0] := l])
    && (l != [] ==> l[0] !in v0.chains && t.nodes[l[0]].tag == tag + HEAD_FLAG)
    && v.free <= v0.free && |v.free| + |l| == |v0.free|
  }

  /** The node taken from the free list, once it is filled and tagged. */
  function NewNode(crc: Crc, unit: nat, tag: nat, val: seq<Byte>, l: seq<nat>, off: nat, was: Node): Node
    requires unit >= 8 && |was.payload| == unit && off <= |val|
  {
    var data := val[off..off + ShareLen(unit, val, l, off)];
    if l == [] then
      Node(0, tag + HEAD_FLAG,
           Splice(Splice(Splice(was.payload, 0, LE(|val|, 4)),
                         4, LE(crc(val[..Min(unit - 8, |val|)]), 4)), 8, data))
    else Node(0, tag, Splice(was.payload, 0, data))
  }

  lemma SpliceHeader(was: seq<Byte>, a: seq<Byte>, b: seq<Byte>, data: seq<Byte>)
    requires |a| == |b| == 4 && 8 + |data| <= |was|
    ensures Splice(Splice(Splice(was, 0, a), 4, b), 8, data)[..8 + |data|] == a + b + data
  {
  }

  lemma NewNodeFits(crc: Crc, t: Table, tag: nat, val: seq<Byte>, l: seq<nat>, off: nat, was: Node)
    requires WellSized(t) && InRange(t.nodes, l) && |was.payload| == t.unit
    requires Written(crc, t, val, l, off) && |l| < BufNodes(t.unit, |val|)
    ensures Fits(crc, t, val, l, NewNode(crc, t.unit, tag, val, l, off, was).payload,
                 HeaderLen(l) + ShareLen(t.unit, val, l, off))
  {
    Unfilled(crc, t, val, l, off);
    var record, share := Record(crc, t.unit, val), ShareLen(t.unit, val, l, off);
    var payload := NewNode(crc, t.unit, tag, val, l, off, was).payload;
    var data := val[off..off + share];
    if l == [] {
      var a, b := LE(|val|, 4), LE(crc(val[..Min(t.unit - 8, |val|)]), 4);
      SpliceHeader(was.payload, a, b, data);
      assert record[..8 + share] == a + b + data;
    } else {
      LaterShare(crc, t.unit, val, off, share);
      assert payload[..share] == data;
    }
  }

  lemma LaterShare(crc: Crc, unit: nat, val: seq<Byte>, off: nat, share: nat)
    requires unit >= 8 && off + share <= |val|
    ensures Record(crc, unit, val)[8 + off..8 + off + share] == val[off..off + share]
  {
    RecordParts(crc, unit, val);
    var record := Record(crc, unit, val);
    assert record[8 + off..8 + off + share] == record[8..][off..off + share];
  }

  /** The first node becomes a chain of its own. */
  lemma BuildFirst(t0: Table, v0: View, t: Table, v: View, tag: nat, n: nat, node: Node)
    requires Building(t0, v0, t, v, tag, []) && tag < HEAD_FLAG && v.free != []
    requires n == v.free[|v.free| - 1] == t.freeList < |v.place|
    requires NodeOk(t, node) && node.next == 0 && node.tag == tag + HEAD_FLAG
    ensures var t' := Set(t.(freeList := t.nodes[t.freeList].next), n, node);
            Building(t0, v0, t', StartView(PopView(v), n), tag, [n])
  {
    assert FreeLinkOk(t, v, |v.free| - 1);
    PopFree(t, v);
    var t1 := t.(freeList := t.nodes[t.freeList].next);
    StartChain(t1, PopView(v), n, node);
  }

  /** A later node is linked to the end of the chain. */
  lemma BuildNext(t0: Table, v0: View, t: Table, v: View, tag: nat, l: seq<nat>, n: nat, node: Node)
    requires Building(t0, v0, t, v, tag, l) && l != [] && tag < HEAD_FLAG && v.free != []
    requires n == v.free[|v.free| - 1] == t.freeList < |v.place|
    requires NodeOk(t, node) && node.next == 0 && node.tag == tag
    ensures var t1 := Set(t.(freeList := t.nodes[t.freeList].next), n, node);
            var last := l[|l| - 1];
            && last != n && t1.nodes[last] == t.nodes[last]
            && Building(t0, v0, Set(t1, last, t1.nodes[last].(next := n)), ExtendView(PopView(v), l[0], n),
                        tag, l + [n])
  {
    assert FreeLinkOk(t, v, |v.free| - 1);
    assert LinkOk(t, v, l[0], |l| - 1) && LinkOk(t, v, l[0], 0);
    assert PlaceOk(t0, v0, l[|l| - 1]);
    PopFree(t, v);
    var t0' := t.(freeList := t.nodes[t.freeList].next);
    TouchSpare(t0', PopView(v), n, node);
    ExtendChain(Set(t0', n, node), PopView(v), l[0], n);
  }

  lemma SameBuilding(t0: Table, v0: View, t: Table, t': Table, v: View, tag: nat, l: seq<nat>)
    requires Building(t0, v0, t, v, tag, l)
    requires t'.nodes == t.nodes && t'.freeList == t.freeList && t'.unit == t.unit
    ensures Building(t0, v0, t', v, tag, l)
  {
    SameLinks(t, t', v);
  }

  /** The chain grows by the node's share; links do not matter to the stream. */
  lemma AppendWritten(crc: Crc, t: Table, t': Table, buf: seq<Byte>, l: seq<nat>, off: nat, n: nat, node: Node)
    requires WellSized(t) && WellSized(t') && InRange(t.nodes, l) && n !in l && 0 < n < |t.nodes| == |t'.nodes|
    requires t'.unit == t.unit && Written(crc, t, buf, l, off) && |l| < BufNodes(t.unit, |buf|)
    requires |t.nodes[n].payload| == t.unit
    requires exists tag :: node == NewNode(crc, t.unit, tag, buf, l, off, t.nodes[n])
    requires t'.nodes[n].payload == node.payload
    requires forall m :: m in l ==> m < |t.nodes| && t'.nodes[m].payload == t.nodes[m].payload
    ensures InRange(t'.nodes, l + [n])
    ensures Written(crc, t', buf, l + [n], off + ShareLen(t.unit, buf, l, off))
  {
    var tag :| node == NewNode(crc, t.unit, tag, buf, l, off, t.nodes[n]);
    NewNodeFits(crc, t, tag, buf, l, off, t.nodes[n]);
    StreamFrame(t.nodes, t'.nodes, l);
    LinkedBytes(crc, t', buf, l, off, n);
  }

  /** The table after one round of New's loop. */
  function AppendTable(crc: Crc, t: Table, tag: nat, buf: seq<Byte>, l: seq<nat>, off: nat): Table
    requires WellSized(t) && t.freeList < |t.nodes| && off <= |buf| && InRange(t.nodes, l)
  {
    assert NodeOk(t, t.nodes[t.freeList]);
    var n := t.freeList;
    var t1 := Set(t.(freeList := t.nodes[n].next, freeNodeNum := Dec32(t.freeNodeNum)), n,
                  NewNode(crc, t.unit, tag, buf, l, off, t.nodes[n]));
    if l == [] then t1 else Set(t1, l[|l| - 1], t1.nodes[l[|l| - 1]].(next := n))
  }

  ghost function AppendView(v: View, l: seq<nat>): View
    requires v.free != [] && v.free[|v.free| - 1] < |v.place| && (l != [] ==> l[0] in v.chains)
  {
    var n := v.free[|v.free| - 1];
    if l == [] then StartView(PopView(v), n) else ExtendView(PopView(v), l[0], n)
  }

  lemma AppendBuilds(crc: Crc, t0: Table, v0: View, t: Table, v: View, tag: nat, buf: seq<Byte>, l: seq<nat>, off: nat)
    requires Building(t0, v0, t, v, tag, l) && tag < HEAD_FLAG && v.free != [] && off <= |buf|
    ensures v.free[|v.free| - 1] == t.freeList < |v.place| && (l != [] ==> l[0] in v.chains)
    ensures Building(t0, v0, AppendTable(crc, t, tag, buf, l, off), AppendView(v, l), tag, l + [t.freeList])
  {
    assert FreeLinkOk(t, v, |v.free| - 1);
    var n := t.freeList;
    assert NodeOk(t, t.nodes[n]);
    var node, t' := NewNode(crc, t.unit, tag, buf, l, off, t.nodes[n]), AppendTable(crc, t, tag, buf, l, off);
    var mid := t'.(freeNodeNum := t.freeNodeNum);
    if l == [] {
      assert l + [n] == [n];
      BuildFirst(t0, v0, t, v, tag, n, node);
    } else {
      BuildNext(t0, v0, t, v, tag, l, n, node);
    }
    SameBuilding(t0, v0, mid, t', AppendView(v, l), tag, l + [n]);
  }

  lemma AppendOk(crc: Crc, t0: Table, v0: View, t: Table, v: View, tag: nat, buf: seq<Byte>, l: seq<nat>, off: nat)
    requires Building(t0, v0, t, v, tag, l) && tag < HEAD_FLAG && v.free != []
    requires Written(crc, t, buf, l, off) && |l| < BufNodes(t.unit, |buf|)
    ensures v.free[|v.free| - 1] == t.freeList < |v.place| && (l != [] ==> l[0] in v.chains && v.place[l[|l| - 1]].In?)
    ensures var t', v', n := AppendTable(crc, t, tag, buf, l, off), AppendView(v, l), t.freeList;
            && Building(t0, v0, t', v', tag, l + [n])
            && Written(crc, t', buf, l + [n], off + ShareLen(t.unit, buf, l, off))
            && |v'.free| == |v.free| - 1
  {
    AppendBuilds(crc, t0, v0, t, v, tag, buf, l, off);
    assert FreeLinkOk(t, v, |v.free| - 1);
    var n := t.freeList;
    assert NodeOk(t, t.nodes[n]);
    if l != [] { assert LinkOk(t, v, l[0], |l| - 1); }
    forall m | m in l ensures m != n {
      var i :| 0 <= i < |l| && l[i] == m;
      assert LinkOk(t, v, l[0], i);
    }
    AppendWritten(crc, t, AppendTable(crc, t, tag, buf, l, off), buf, l, off, n,
                  NewNode(crc, t.unit, tag, buf, l, off, t.nodes[n]));
  }

  /** The handle names a chain of its own that holds the buffer; no other chain comes or goes. */
  ghost predicate Stored(crc: Crc, v0: View, t: Table, v: View, lb: Handle, buf: seq<Byte>) {
    && lb.head !in v0.chains && lb.head in v.chains && v.chains == v0.chains[lb.head := v.chains[lb.head]]
    && Names(t, lb) && WellSized(t) && InRange(t.nodes, v.chains[lb.head]) && v.chains[lb.head] != []
    && Readable(crc, t, v.chains[lb.head]) && Value(t, v.chains[lb.head]) == buf
  }

  /** The first node of a stored buffer: head flag, length, checksum, first bytes. */
  lemma StoredHeader(crc: Crc, v0: View, t: Table, v: View, lb: Handle, buf: seq<Byte>)
    requires Rep(t, v) && Stored(crc, v0, t, v, lb, buf) && lb.tag < HEAD_FLAG
    ensures 0 < lb.head < |t.nodes| && t.nodes[lb.head].tag == lb.tag + 0x8000_0000
    ensures t.unit >= 8 && |t.nodes[lb.head].payload| == t.unit && Val(t.nodes[lb.head].payload[0..4]) == |buf|
    ensures Val(t.nodes[lb.head].payload[4..8]) == crc(buf[..Min(t.unit - 8, |buf|)]) % 0x1_0000_0000
    ensures t.nodes[lb.head].payload[8..8 + Min(t.unit - 8, |buf|)] == buf[..Min(t.unit - 8, |buf|)]
  {
    NamedChain(t, v, lb);
    FirstSlice(t, v.chains[lb.head], Min(t.unit - 8, |buf|));
  }

  /** A finished chain changes the sums by one link-buf and its bytes. */
  lemma BuiltSums(t0: Table, v0: View, t: Table, v: View, tag: nat, l: seq<nat>, len: nat)
    requires Building(t0, v0, t, v, tag, l) && l != [] && |t.nodes[l[0]].payload| >= 8 && BufLen(t.nodes[l[0]]) == len
    ensures Heads(t.nodes, |t.nodes|) == Heads(t0.nodes, |t0.nodes|) + 1
    ensures HeadBytes(t.nodes, |t.nodes|) == HeadBytes(t0.nodes, |t0.nodes|) + len
  {
    var h := l[0];
    var mid := t0.nodes[h := t.nodes[h]];
    HeadFlagMarksChains(t0, v0, h);
    forall n | 0 < n < |t.nodes| ensures IsHead(mid[n]) == IsHead(t.nodes[n]) && LenOf(mid[n]) == LenOf(t.nodes[n]) {
      if n != h {
        HeadFlagMarksChains(t0, v0, n);
        HeadFlagMarksChains(t, v, n);
        if n in v0.chains { assert LinkOk(t0, v0, n, 0); }
      }
    }
    SumsSame(mid, t.nodes, |t.nodes|);
    SumsUpdate(t0.nodes, h, t.nodes[h], |t.nodes|);
  }

  lemma BuiltCounted(t0: Table, v0: View, t: Table, v: View, tag: nat, l: seq<nat>, len: nat)
    requires Building(t0, v0, t, v, tag, l) && CountersExact(t0, v0) && l != [] && t.freeNodeNum == |v.free|
    requires |t.nodes[l[0]].payload| >= 8 && BufLen(t.nodes[l[0]]) == len
    requires t.bufUsedNum == (t0.bufUsedNum + 1) % U32 && t.bufUsedBytes == (t0.bufUsedBytes + len) % U64
    ensures CountersExact(t, v)
  {
    BuiltSums(t0, v0, t, v, tag, l, len);
    SumsBound(t, |t.nodes|);
  }

  lemma BuiltSound(crc: Crc, t0: Table, v0: View, t: Table, v: View, tag: nat, l: seq<nat>, lb: Handle,
                   buf: seq<Byte>, off: nat)
    requires Building(t0, v0, t, v, tag, l) && Sound(t0, v0) && tag < HEAD_FLAG
    requires l != [] ==> lb == Handle(l[0], tag)
    requires Written(crc, t, buf, l, off) && |l| == BufNodes(t.unit, |buf|) && 0 < |buf| < U32
    requires t.freeNodeNum == |v.free|
    requires t.bufUsedNum == (t0.bufUsedNum + 1) % U32 && t.bufUsedBytes == (t0.bufUsedBytes + |buf|) % U64
    ensures l != [] && Sound(t, v) && lb.IsSet() && Stored(crc, v0, t, v, lb, buf)
    ensures AllExact(t0, v0) ==> AllExact(t, v)
  {
    FullChain(crc, t, buf, l, off);
    BuiltCounted(t0, v0, t, v, tag, l, |buf|);
    assert v0.chains[l[0] := l] == v0.chains[l[0] := v.chains[l[0]]];
    forall h | h in v.chains
      ensures InRange(t.nodes, v.chains[h]) && Enough(t, v.chains[h]) && (AllExact(t0, v0) ==> Exact(t, v.chains[h]))
    {
      ChainInRange(t, v, h);
      if h != l[0] {
        assert LinkOk(t0, v0, h, 0);
        assert v0.chains[h] == v.chains[h] && t.nodes[h] == t0.nodes[h];
      }
    }
  }

  /** The end of New: the counters follow the finished chain. */
  lemma BuiltDone(crc: Crc, t0: Table, v0: View, t: Table, t': Table, v: View, tag: nat, l: seq<nat>, lb: Handle,
                  buf: seq<Byte>, off: nat)
    requires Building(t0, v0, t, v, tag, l) && Sound(t0, v0) && tag < HEAD_FLAG && Written(crc, t, buf, l, off)
    requires |l| == BufNodes(t.unit, |buf|) && 0 < |buf| < U32 && l != [] && lb == Handle(l[0], tag)
    requires t'.nodes == t.nodes && t'.freeList == t.freeList && t'.unit == t.unit && t'.freeNodeNum == |v.free|
    requires t'.bufUsedNum == (t0.bufUsedNum + 1) % U32 && t'.bufUsedBytes == (t0.bufUsedBytes + |buf|) % U64
    ensures Building(t0, v0, t', v, tag, l) && Sound(t', v) && lb.IsSet() && Stored(crc, v0, t', v, lb, buf)
    ensures Keeps(t0, v0, t', v) && (AllExact(t0, v0) ==> AllExact(t', v))
  {
    SameBuilding(t0, v0, t, t', v, tag, l);
    BuiltSound(crc, t0, v0, t', v, tag, l, lb, buf, off);
  }

  lemma BuiltKnown(t0: Table, v0: View, t: Table, v: View, tag: nat, l: seq<nat>,
                   draws: nat, latest: map<nat, nat>, draws': nat, latest': map<nat, nat>)
    requires Building(t0, v0, t, v, tag, l) && l != []
    requires t.tagSeqNext == NextSeq(t0.tagSeqNext) && tag == t.tagSeqNext % HEAD_FLAG
    requires draws' == draws + 1 && latest' == latest[l[0] := draws']
    ensures Dated(t0, v0, draws, latest) ==> tag == TagAt(draws') && Dated(t, v, draws', latest')
  {
    if Dated(t0, v0, draws, latest) { BuiltDated(t0, v0, t, v, tag, l, draws, latest); }
  }

  lemma BuiltDated(t0: Table, v0: View, t: Table, v: View, tag: nat, l: seq<nat>, draws: nat, latest: map<nat, nat>)
    requires Building(t0, v0, t, v, tag, l) && l != [] && Dated(t0, v0, draws, latest)
    requires t.tagSeqNext == NextSeq(t0.tagSeqNext) && tag == t.tagSeqNext % HEAD_FLAG
    ensures tag == TagAt(draws + 1) && Dated(t, v, draws + 1, latest[l[0] := draws + 1])
  {
    DrawStep(draws, t0.tagSeqNext);
    forall h | h in v.chains && h < |t.nodes| && h != l[0] ensures t.nodes[h] == t0.nodes[h] {
      assert LinkOk(t0, v0, h, 0);
    }
  }

  // ---------------------------------------------------------------------------
  // Reading

  /** The handle names a chain with a readable buffer. */
  ghost predicate Holds(crc: Crc, t: Table, v: View, lb: Handle) {
    && Names(t, lb) && lb.head in v.chains && WellSized(t) && InRange(t.nodes, v.chains[lb.head])
    && v.chains[lb.head] != [] && Readable(crc, t, v.chains[lb.head])
  }

  /** A buffer whose chain and nodes are as they were holds what it held. */
  lemma HoldsFrame(crc: Crc, t: Table, v: View, t': Table, v': View, lb: Handle)
    requires Rep(t, v) && Rep(t', v') && Holds(crc, t, v, lb) && |t'.nodes| == |t.nodes| && t'.unit == t.unit
    requires lb.head in v'.chains && v'.chains[lb.head] == v.chains[lb.head]
    requires forall n :: n in v.chains[lb.head] && n < |t.nodes| ==> t'.nodes[n] == t.nodes[n]
    ensures Holds(crc, t', v', lb) && Value(t', v'.chains[lb.head]) == Value(t, v.chains[lb.head])
  {
    var l := v.chains[lb.head];
    assert l[0] in l && l[0] == lb.head by { assert LinkOk(t, v, lb.head, 0); }
    ChainInRange(t', v', lb.head);
    forall i | 0 <= i < |l| ensures t.nodes[l[i]] == t'.nodes[l[i]] { assert l[i] in l; }
    StreamFrame(t.nodes, t'.nodes, l);
  }

  /** New and the release of another chain keep a buffer. */
  lemma KeepsHolds(crc: Crc, t: Table, v: View, t': Table, v': View, lb: Handle)
    requires Rep(t, v) && Rep(t', v') && Holds(crc, t, v, lb) && Keeps(t, v, t', v')
    requires lb.head in v'.chains && v'.chains[lb.head] == v.chains[lb.head]
    ensures Holds(crc, t', v', lb) && Value(t', v'.chains[lb.head]) == Value(t, v.chains[lb.head])
  {
    ChainNodes(t, v, lb.head);
    HoldsFrame(crc, t, v, t', v', lb);
  }

  lemma ReleaseHolds(crc: Crc, t: Table, v: View, t': Table, v': View, g: nat, lb: Handle)
    requires g in v.chains && g != lb.head && Released(t, v, t', v', g, []) && Holds(crc, t, v, lb)
    ensures Holds(crc, t', v', lb) && Value(t', v'.chains[lb.head]) == Value(t, v.chains[lb.head])
  {
    ChainNodes(t, v, lb.head);
    HoldsFrame(crc, t, v, t', v', lb);
  }

  /** A matching handle names a chain, which is long enough and starts with the header. */
  lemma NamedChain(t: Table, v: View, lb: Handle)
    requires Rep(t, v) && Names(t, lb) && (lb.head in v.chains ==> Whole(t, v, lb.head))
    ensures lb.head in v.chains && lb.tag < U32
    ensures var l := v.chains[lb.head];
            && l != [] && l[0] == lb.head && InRange(t.nodes, l) && Enough(t, l)
            && |t.nodes[lb.head].payload| == t.unit && |Stream(t.nodes, l)| == |l| * t.unit
            && 8 + BufLen(t.nodes[lb.head]) <= |l| * t.unit
  {
    HeadFlagMarksChains(t, v, lb.head);
    assert NodeOk(t, t.nodes[lb.head]) && LinkOk(t, v, lb.head, 0);
    ChainStream(t, v.chains[lb.head]);
  }

  lemma FirstSlice(t: Table, l: seq<nat>, c: nat)
    requires WellSized(t) && l != [] && InRange(t.nodes, l) && Enough(t, l)
    requires |t.nodes[l[0]].payload| == t.unit && c <= t.unit - 8 && c <= BufLen(t.nodes[l[0]])
    ensures t.nodes[l[0]].payload[8..8 + c] == Value(t, l)[..c]
  {
    ChainStream(t, l);
    StreamPrefix(t, l);
    PrefixSlice(Stream(t.nodes, l), t.nodes[l[0]].payload, 8, 8 + c);
  }

  /** The bytes of node `k` continue the value. */
  lemma NodeSlice(t: Table, l: seq<nat>, k: nat, off: nat, c: nat)
    requires WellSized(t) && l != [] && InRange(t.nodes, l) && Enough(t, l)
    requires k < |l| && 8 + off == k * t.unit && c <= t.unit && off + c <= |Value(t, l)|
    ensures |t.nodes[l[k]].payload| == t.unit
    ensures Value(t, l)[..off] + t.nodes[l[k]].payload[..c] == Value(t, l)[..off + c]
  {
    forall i | 0 <= i < |l| ensures |t.nodes[l[i]].payload| == t.unit {
      assert NodeOk(t, t.nodes[l[i]]);
    }
    ChainStream(t, l);
    var v := Value(t, l);
    forall j | 0 <= j < c ensures t.nodes[l[k]].payload[j] == v[off + j] {
      StreamAt(t.nodes, l, t.unit, k, j);
    }
    assert v[..off + c] == v[..off] + v[off..off + c];
    assert t.nodes[l[k]].payload[..c] == v[off..off + c];
  }

  /** While bytes are left the chain goes on, with the chain's tag. */
  lemma NextInChain(t: Table, v: View, h: nat, k: nat, off: nat)
    requires Rep(t, v) && h in v.chains && InRange(t.nodes, v.chains[h]) && v.chains[h] != [] && Enough(t, v.chains[h])
    requires 1 <= k && 8 + off == k * t.unit && off < |Value(t, v.chains[h])|
    ensures k < |v.chains[h]| && LinkOk(t, v, h, k) && 0 < h < |t.nodes|
  {
    var l := v.chains[h];
    ChainStream(t, l);
    Shorter(k, |l|, t.unit);
    assert LinkOk(t, v, h, 0) && LinkOk(t, v, h, k);
  }

  /** Read is at node `k` of the chain, which starts at byte `off` of the value. */
  ghost predicate ReadAt(t: Table, l: seq<nat>, k: nat, off: nat, node: nat) {
    1 <= k && 8 + off == k * t.unit && node == (if k < |l| then l[k] else 0)
  }

  lemma ReadNext(t: Table, v: View, h: nat, k: nat, off: nat, next: nat)
    requires Rep(t, v) && h in v.chains && k < |v.chains[h]| && 0 < h < |t.nodes| && LinkOk(t, v, h, k)
    requires ReadAt(t, v.chains[h], k, off, v.chains[h][k]) && next == t.nodes[v.chains[h][k]].next
    ensures ReadAt(t, v.chains[h], k + 1, off + t.unit, next)
  {
    assert (k + 1) * t.unit == k * t.unit + t.unit;
  }

  // ---------------------------------------------------------------------------
  // The free list cannot hold more nodes than there are

  ghost function Below(n: nat): (r: set<nat>)
    requires n > 0
    ensures |r| == n - 1 && forall x :: x in r <==> 0 < x < n
  {
    if n == 1 then {} else Below(n - 1) + {n - 1}
  }

  ghost function Elements(s: seq<nat>): (r: set<nat>)
    ensures forall x :: x in r <==> x in s
  {
    set x | x in s
  }

  lemma {:induction false} DistinctCard(s: seq<nat>)
    requires forall i, j :: 0 <= i < j < |s| ==> s[i] != s[j]
    ensures |Elements(s)| == |s|
  {
    if s == [] {
      assert Elements(s) == {};
    } else {
      var r, x := s[..|s| - 1], s[|s| - 1];
      DistinctCard(r);
      assert s == r + [x];
      assert Elements(s) == Elements(r) + {x};
      assert x !in Elements(r);
    }
  }

  lemma FreeFits(t: Table, v: View)
    requires Rep(t, v)
    ensures |v.free| < |t.nodes|
  {
    forall i, j | 0 <= i < j < |v.free| ensures v.free[i] != v.free[j] {
      assert FreeLinkOk(t, v, i) && FreeLinkOk(t, v, j);
    }
    DistinctCard(v.free);
    var a, b := Elements(v.free), Below(|t.nodes|);
    forall x | x in a ensures x in b {
      var i :| 0 <= i < |v.free| && v.free[i] == x;
      assert FreeLinkOk(t, v, i);
    }
    assert b == a + (b - a);
  }

  // ---------------------------------------------------------------------------
  // Freeing

  /** The chain at `h` is gone, `todo` of its nodes are still spare, and nothing else has changed. */
  ghost predicate Released(t0: Table, v0: View, t: Table, v: View, h: nat, todo: seq<nat>)
    requires h in v0.chains
  {
    && Rep(t0, v0) && Rep(t, v) && |t.nodes| == |t0.nodes| && t.unit == t0.unit
    && v.chains == v0.chains - {h}
    && |v.free| + |todo| == |v0.free| + |v0.chains[h]|
    && (forall n :: n in todo ==> n < |v0.place| && v0.place[n].In?)
    && (forall n :: 0 <= n < |t.nodes| ==> (v.place[n] == Spare <==> v0.place[n] == Spare || n in todo))
    && (forall n :: 0 <= n < |t.nodes| && v0.place[n].In? && v0.place[n].head != h ==>
          v.place[n] == v0.place[n] && t.nodes[n] == t0.nodes[n])
  }

  lemma SameReleased(t0: Table, v0: View, t: Table, t': Table, v: View, h: nat, todo: seq<nat>)
    requires h in v0.chains && Released(t0, v0, t, v, h, todo)
    requires t'.nodes == t.nodes && t'.freeList == t.freeList && t'.unit == t.unit
    ensures Released(t0, v0, t', v, h, todo)
  {
    SameLinks(t, t', v);
  }

  /** Node `i` of what follows a chain's first node. */
  ghost predicate TailAt(t: Table, v: View, h: nat, todo: seq<nat>, i: nat)
    requires |t.nodes| == |v.place| && h < |t.nodes| && i < |todo|
  {
    && 0 < todo[i] < |t.nodes| && v.place[todo[i]] == In(h, i + 1) && todo[i] != h
    && t.nodes[todo[i]].tag == t.nodes[h].tag - HEAD_FLAG
    && t.nodes[todo[i]].next == (if i + 1 < |todo| then todo[i + 1] else 0)
  }

  ghost predicate TailOk(t: Table, v: View, h: nat, todo: seq<nat>)
    requires |t.nodes| == |v.place| && h < |t.nodes|
  {
    forall i {:trigger TailAt(t, v, h, todo, i)} :: 0 <= i < |todo| ==> TailAt(t, v, h, todo, i)
  }

  lemma ChainTail(t: Table, v: View, h: nat)
    requires Rep(t, v) && h in v.chains
    ensures 0 < h < |t.nodes| && v.chains[h] != [] && v.chains[h][0] == h && v.place[h] == In(h, 0)
    ensures HEAD_FLAG <= t.nodes[h].tag < U32
    ensures var todo := v.chains[h][1..];
            && TailOk(t, v, h, todo)
            && t.nodes[h].next == (if todo == [] then 0 else todo[0]) && (t.nodes[h].next > 0 <==> todo != [])
  {
    assert LinkOk(t, v, h, 0) && NodeOk(t, t.nodes[h]);
    var todo := v.chains[h][1..];
    forall i | 0 <= i < |todo| ensures TailAt(t, v, h, todo, i) { assert LinkOk(t, v, h, i + 1); }
    assert todo != [] ==> TailAt(t, v, h, todo, 0);
  }

  /** The freed first node is on the free list; the others are spare and linked as they were. */
  lemma HeadPend(t: Table, v: View, h: nat, t': Table, v': View, todo: seq<nat>, tag: nat)
    requires |t.nodes| == |v.place| && 0 < h < |t.nodes| && TailOk(t, v, h, todo)
    requires t.nodes[h].tag < U32 && tag + HEAD_FLAG == t.nodes[h].tag
    requires t' == Freed(t, h) && v' == PushView(DropView(v, h), h)
    ensures Pend(t', v', todo, tag)
  {
    forall i | 0 <= i < |todo| ensures PendAt(t', v', todo, tag, i) {
      assert TailAt(t, v, h, todo, i);
    }
    forall i, j | 0 <= i < j < |todo| ensures todo[i] != todo[j] {
      assert TailAt(t, v, h, todo, i) && TailAt(t, v, h, todo, j);
    }
  }

  /** Spare nodes after the first node of a chain is freed. */
  lemma HeadSpares(t: Table, v: View, h: nat, v': View, todo: seq<nat>, n: nat)
    requires Rep(t, v) && h in v.chains && h < |t.nodes| && todo == v.chains[h][1..] && TailOk(t, v, h, todo)
    requires v' == PushView(DropView(v, h), h) && n < |t.nodes| && v.place[h] == In(h, 0)
    ensures v'.place[n] == Spare <==> v.place[n] == Spare || n in todo
  {
    assert PlaceOk(t, v, n);
    if v.place[n].In? && v.place[n].head == h && n != h {
      assert LinkOk(t, v, h, v.place[n].pos) && v.place[n].pos > 0;
      assert todo[v.place[n].pos - 1] == n;
    }
    if n in todo {
      var i :| 0 <= i < |todo| && todo[i] == n;
      assert TailAt(t, v, h, todo, i);
    }
  }

  lemma HeadReleased(t: Table, v: View, h: nat, t': Table, v': View, todo: seq<nat>)
    requires Rep(t, v) && Rep(t', v') && 0 < h < |t.nodes| && h in v.chains && todo == v.chains[h][1..]
    requires v.chains[h] != []
    requires TailOk(t, v, h, todo) && v.place[h] == In(h, 0)
    requires t' == Freed(t, h) && v' == PushView(DropView(v, h), h)
    ensures Released(t, v, t', v', h, todo)
  {
    forall n | 0 <= n < |t.nodes| ensures v'.place[n] == Spare <==> v.place[n] == Spare || n in todo {
      HeadSpares(t, v, h, v', todo, n);
    }
    forall n | n in todo ensures n < |v.place| && v.place[n].In? {
      var i :| 0 <= i < |todo| && todo[i] == n;
      assert TailAt(t, v, h, todo, i);
    }
  }

  /** The first node loses its tag and is freed; the others are left to do. */
  lemma ReleaseHead(t: Table, v: View, h: nat)
    requires Rep(t, v) && h in v.chains
    ensures 0 < h < |t.nodes| && v.chains[h] != [] && v.chains[h][0] == h
    ensures Rep(Set(t, h, t.nodes[h].(tag := 0)), DropView(v, h)) && DropView(v, h).place[h] == Spare
    ensures var t', v', todo := Freed(t, h), PushView(DropView(v, h), h), v.chains[h][1..];
            && Released(t, v, t', v', h, todo) && t.nodes[h].tag >= HEAD_FLAG
            && Pend(t', v', todo, t.nodes[h].tag - HEAD_FLAG)
            && t.nodes[h].next == (if todo == [] then 0 else todo[0]) && (t.nodes[h].next > 0 <==> todo != [])
  {
    var t', v', todo := Freed(t, h), PushView(DropView(v, h), h), v.chains[h][1..];
    ChainTail(t, v, h);
    DropChain(t, v, h);
    FreedRep(t, DropView(v, h), h);
    HeadPend(t, v, h, t', v', todo, t.nodes[h].tag - HEAD_FLAG);
    HeadReleased(t, v, h, t', v', todo);
  }

  /** One more node of the chain is freed. */
  lemma ReleaseNext(t0: Table, v0: View, t: Table, v: View, h: nat, todo: seq<nat>, tag: nat)
    requires h in v0.chains && Released(t0, v0, t, v, h, todo) && Pend(t, v, todo, tag) && todo != []
    ensures var n := todo[0];
            && 0 < n < |t.nodes| && v.place[n] == Spare && t.nodes[n].tag == tag
            && t.nodes[n].next == (if |todo| > 1 then todo[1] else 0) && (t.nodes[n].next > 0 <==> |todo| > 1)
            && Rep(Set(t, n, t.nodes[n].(tag := 0)), v)
            && Released(t0, v0, Freed(t, n), PushView(v, n), h, todo[1..])
            && Pend(Freed(t, n), PushView(v, n), todo[1..], tag)
  {
    var n := todo[0];
    assert PendAt(t, v, todo, tag, 0) && NodeOk(t, t.nodes[n]);
    assert |todo| > 1 ==> PendAt(t, v, todo, tag, 1);
    TouchSpare(t, v, n, t.nodes[n].(tag := 0));
    FreedRep(t, v, n);
    forall i | 0 <= i < |todo[1..]| ensures PendAt(Freed(t, n), PushView(v, n), todo[1..], tag, i) {
      assert PendAt(t, v, todo, tag, i + 1);
    }
    assert forall m :: m in todo <==> m == n || m in todo[1..];
    assert n !in todo[1..];
  }

  /** Releasing a chain takes its link-buf and its bytes out of the sums. */
  lemma ReleasedSums(t0: Table, v0: View, t: Table, v: View, h: nat)
    requires h in v0.chains && Released(t0, v0, t, v, h, [])
    ensures 0 < h < |t0.nodes| && IsHead(t0.nodes[h])
    ensures Heads(t.nodes, |t.nodes|) + 1 == Heads(t0.nodes, |t0.nodes|)
    ensures HeadBytes(t.nodes, |t.nodes|) + LenOf(t0.nodes[h]) == HeadBytes(t0.nodes, |t0.nodes|)
  {
    assert LinkOk(t0, v0, h, 0);
    var mid := t0.nodes[h := t.nodes[h]];
    HeadFlagMarksChains(t, v, h);
    forall n | 0 < n < |t.nodes| ensures IsHead(mid[n]) == IsHead(t.nodes[n]) && LenOf(mid[n]) == LenOf(t.nodes[n]) {
      if n != h {
        HeadFlagMarksChains(t0, v0, n);
        HeadFlagMarksChains(t, v, n);
        if n in v0.chains { assert LinkOk(t0, v0, n, 0); }
      }
    }
    SumsSame(mid, t.nodes, |t.nodes|);
    SumsUpdate(t0.nodes, h, t.nodes[h], |t.nodes|);
  }

  /** Free keeps a sound table sound. */
  lemma ReleasedSound(t0: Table, v0: View, t: Table, v: View, h: nat)
    requires Sound(t0, v0) && h in v0.chains && Released(t0, v0, t, v, h, []) && t.freeNodeNum == |v.free|
    requires h < |t0.nodes| && t.bufUsedNum == Dec32(t0.bufUsedNum)
    requires t.bufUsedBytes == Less64(t0.bufUsedBytes, LenOf(t0.nodes[h]))
    ensures Sound(t, v) && (AllExact(t0, v0) ==> AllExact(t, v))
  {
    ReleasedCounted(t0, v0, t, v, h);
    forall g | g in v.chains
      ensures InRange(t.nodes, v.chains[g]) && Enough(t, v.chains[g]) && (AllExact(t0, v0) ==> Exact(t, v.chains[g]))
    {
      ReleasedOther(t0, v0, t, v, h, g);
    }
  }

  lemma ReleasedCounted(t0: Table, v0: View, t: Table, v: View, h: nat)
    requires h in v0.chains && Released(t0, v0, t, v, h, []) && CountersExact(t0, v0) && t.freeNodeNum == |v.free|
    requires h < |t0.nodes| && t.bufUsedNum == Dec32(t0.bufUsedNum)
    requires t.bufUsedBytes == Less64(t0.bufUsedBytes, LenOf(t0.nodes[h]))
    ensures CountersExact(t, v)
  {
    ReleasedSums(t0, v0, t, v, h);
    SumsBound(t0, |t0.nodes|);
  }

  /** The other chains are as they were. */
  lemma ReleasedOther(t0: Table, v0: View, t: Table, v: View, h: nat, g: nat)
    requires Sound(t0, v0) && h in v0.chains && Released(t0, v0, t, v, h, []) && g in v.chains
    ensures InRange(t.nodes, v.chains[g]) && Enough(t, v.chains[g]) && (AllExact(t0, v0) ==> Exact(t, v.chains[g]))
  {
    ChainInRange(t, v, g);
    assert LinkOk(t0, v0, g, 0);
    assert v0.chains[g] == v.chains[g] && t.nodes[g] == t0.nodes[g];
  }

  lemma ReleasedDated(t0: Table, v0: View, t: Table, v: View, h: nat, draws: nat, latest: map<nat, nat>)
    requires h in v0.chains && Released(t0, v0, t, v, h, []) && Dated(t0, v0, draws, latest)
    requires t.tagSeqNext == t0.tagSeqNext
    ensures Dated(t, v, draws, latest)
  {
    forall g | g in v.chains && g < |t.nodes| ensures t.nodes[g] == t0.nodes[g] {
      assert LinkOk(t0, v0, g, 0);
    }
  }

  // ---------------------------------------------------------------------------
  // Stale handles

  /** The buffer created by draw `b` at this handle's node is gone: the node is unused or was drawn anew. */
  ghost predicate Gone(v: View, latest: map<nat, nat>, lb: Handle, b: nat) {
    lb.head in v.chains ==> lb.head in latest && latest[lb.head] > b
  }

  /**
   * A handle whose buffer is gone is refused by Read and Free as long as fewer than TAG_WINDOW
   * tags have been drawn since the handle was created, across the wrap of the counter.
   */
  lemma StaleHandleRefused(t: Table, v: View, draws: nat, latest: map<nat, nat>, lb: Handle, b: nat)
    requires Rep(t, v) && Dated(t, v, draws, latest)
    requires lb.tag == TagAt(b) && Gone(v, latest, lb, b) && draws - b < TAG_WINDOW
    ensures !Names(t, lb)
  {
    if Names(t, lb) {
      HeadFlagMarksChains(t, v, lb.head);
      TagGap(b, latest[lb.head]);
    }
  }

  // ---------------------------------------------------------------------------
  // Health check

  datatype HealthStat = HealthStat(
    freeNodes: nat, linkBufs: nat, linkBufBytes: nat, leaked: nat, tooLong: nat, tooShort: nat, cleared: nat)

  /** The chain is long enough for the length that its header states. */
  ghost predicate Whole(t: Table, v: View, h: nat) {
    && h in v.chains && WellSized(t) && v.chains[h] != [] && InRange(t.nodes, v.chains[h])
    && Enough(t, v.chains[h])
  }

  ghost predicate WholeBelow(t: Table, v: View, n: nat) { forall h :: h in v.chains && h < n ==> Whole(t, v, h) }

  /** The nodes of the chain at `h` do not hold its buffer. */
  ghost predicate TooShort(t: Table, v: View, h: nat) {
    && h in v.chains && h < |t.nodes| && |t.nodes[h].payload| >= 8
    && |v.chains[h]| * t.unit < 8 + BufLen(t.nodes[h])
  }

  /** The nodes of the chain at `h` hold its buffer without the last node. */
  ghost predicate TooLong(t: Table, v: View, h: nat) {
    && h in v.chains && h < |t.nodes| && |t.nodes[h].payload| >= 8
    && (|v.chains[h]| - 1) * t.unit >= 8 + BufLen(t.nodes[h])
  }

  ghost function ShortOnes(t: Table, v: View, n: nat): set<nat> { set h: nat | h < n && TooShort(t, v, h) }

  ghost function LongOnes(t: Table, v: View, n: nat): set<nat> { set h: nat | h < n && TooLong(t, v, h) }

  /** Nodes in neither a chain nor the free list. */
  ghost function SpareOnes(v: View, n: nat): set<nat> { set m: nat | 0 < m < n && m < |v.place| && v.place[m] == Spare }

  lemma ShortNext(t: Table, v: View, n: nat)
    ensures |ShortOnes(t, v, n + 1)| == |ShortOnes(t, v, n)| + if TooShort(t, v, n) then 1 else 0
  {
    assert ShortOnes(t, v, n + 1) == ShortOnes(t, v, n) + if TooShort(t, v, n) then {n} else {};
  }

  lemma WholeNext(t: Table, v: View, n: nat)
    ensures WholeBelow(t, v, n + 1) <==> WholeBelow(t, v, n) && (n in v.chains ==> Whole(t, v, n))
  {
  }

  lemma LongNext(t: Table, v: View, n: nat)
    ensures |LongOnes(t, v, n + 1)| == |LongOnes(t, v, n)| + if TooLong(t, v, n) then 1 else 0
  {
    assert LongOnes(t, v, n + 1) == LongOnes(t, v, n) + if TooLong(t, v, n) then {n} else {};
  }

  lemma SpareNext(v: View, n: nat)
    requires 0 < n < |v.place|
    ensures |SpareOnes(v, n + 1)| == |SpareOnes(v, n)| + if v.place[n] == Spare then 1 else 0
  {
    assert SpareOnes(v, n + 1) == SpareOnes(v, n) + if v.place[n] == Spare then {n} else {};
  }

  lemma SameSpares(t0: Table, v0: View, t: Table, v: View, fix: bool)
    requires Checked(t0, v0, t, v, |t.nodes|, fix)
    ensures SpareOnes(v, |t.nodes|) == SpareOnes(v0, |t.nodes|)
  {
  }

  /** A chain is too short or too long exactly if its node count is below or above the one that is needed. */
  lemma ChainSize(t: Table, v: View, h: nat)
    requires Rep(t, v) && h in v.chains
    ensures h < |t.nodes| && t.unit > 0 && |t.nodes[h].payload| >= 8
    ensures TooShort(t, v, h) <==> |v.chains[h]| < BufNodes(t.unit, BufLen(t.nodes[h]))
    ensures TooLong(t, v, h) <==> |v.chains[h]| > BufNodes(t.unit, BufLen(t.nodes[h]))
    ensures TooShort(t, v, h) <==> !Whole(t, v, h)
  {
    ChainInRange(t, v, h);
    var l := v.chains[h];
    assert NodeOk(t, t.nodes[h]);
    BufNodesLeast(t.unit, BufLen(t.nodes[h]), |l|);
    BufNodesLeast(t.unit, BufLen(t.nodes[h]), |l| - 1);
  }

  /** The chains starting below `n` have been looked at: too short ones are gone if `fix` is set. */
  ghost predicate Checked(t0: Table, v0: View, t: Table, v: View, n: nat, fix: bool) {
    && Rep(t0, v0) && Rep(t, v) && |t.nodes| == |t0.nodes| && t.unit == t0.unit
    && (forall h :: h in v.chains ==> h in v0.chains && v.chains[h] == v0.chains[h])
    && (forall h :: h in v0.chains ==> (h in v.chains <==> n <= h || !fix || Whole(t0, v0, h)))
    && (forall m :: 0 <= m < |t.nodes| ==> (v.place[m] == Spare <==> v0.place[m] == Spare))
    && (forall m :: 0 <= m < |t.nodes| && v0.place[m].In? && v0.place[m].head in v.chains ==>
          v.place[m] == v0.place[m] && t.nodes[m] == t0.nodes[m])
  }

  /** `bitmap` marks the nodes of the chains that start below `n`. */
  ghost predicate Marked(v0: View, bitmap: seq<bool>, n: nat) {
    && |bitmap| == |v0.place|
    && forall m :: 0 <= m < |bitmap| ==> (bitmap[m] <==> v0.place[m].In? && v0.place[m].head < n)
  }

  /** The first pass has looked at the chains below `n`; `stat` counts what it found. */
  ghost predicate PassOk(t0: Table, v0: View, t: Table, v: View, bitmap: seq<bool>, n: nat, fix: bool,
                         stat: HealthStat) {
    && Checked(t0, v0, t, v, n, fix) && Marked(v0, bitmap, n) && n <= |t.nodes|
    && stat.linkBufs == Heads(t.nodes, n) && stat.linkBufBytes == HeadBytes(t.nodes, n)
    && stat.freeNodes == stat.leaked == 0
    && stat.tooShort == |ShortOnes(t0, v0, n)| && stat.cleared == (if fix then stat.tooShort else 0)
    && stat.tooLong == |LongOnes(t0, v0, n)|
    && (stat.tooShort == 0 <==> WholeBelow(t0, v0, n))
    && (!fix || stat.tooShort == 0 ==> Untouched(t0, v0, t, v))
  }

  /** PassOk for the loop, which does not look into it. */
  ghost predicate Passed(t0: Table, v0: View, t: Table, v: View, bitmap: seq<bool>, n: nat, fix: bool,
                         stat: HealthStat) {
    forall i {:trigger OpenPass(n, i)} :: OpenPass(n, i) ==> PassOk(t0, v0, t, v, bitmap, n, fix, stat)
  }

  ghost predicate OpenPass(n: nat, i: int) { true }

  ghost predicate Untouched(t0: Table, v0: View, t: Table, v: View) {
    t.nodes == t0.nodes && v == v0 && t.freeList == t0.freeList && t.freeNodeNum == t0.freeNodeNum
  }

  lemma PassBegins(t: Table, v: View, bitmap: seq<bool>, fix: bool)
    requires Rep(t, v) && Marked(v, bitmap, 0)
    ensures PassOk(t, v, t, v, bitmap, 1, fix, HealthStat(0, 0, 0, 0, 0, 0, 0))
  {
    HeadsInRange(t, v);
    assert ShortOnes(t, v, 1) == {} && LongOnes(t, v, 1) == {};
  }

  lemma PassEnds(t0: Table, v0: View, t: Table, v: View, bitmap: seq<bool>, fix: bool, stat: HealthStat)
    requires PassOk(t0, v0, t, v, bitmap, |t.nodes|, fix, stat)
    ensures stat.tooShort == 0 <==> forall h :: h in v0.chains ==> Whole(t0, v0, h)
  {
    HeadsInRange(t0, v0);
  }

  /** A chain that is kept, looked at in the original table or in the current one. */
  lemma CheckedChain(t0: Table, v0: View, t: Table, v: View, n: nat, fix: bool, h: nat)
    requires Checked(t0, v0, t, v, n, fix) && h in v.chains
    ensures 0 < h < |t.nodes| && InRange(t.nodes, v.chains[h]) && v.chains[h] != [] && t.nodes[h] == t0.nodes[h]
    ensures Whole(t, v, h) <==> Whole(t0, v0, h)
  {
    assert LinkOk(t0, v0, h, 0) && LinkOk(t, v, h, 0);
    ChainInRange(t, v, h);
    ChainInRange(t0, v0, h);
  }

  /** A node without the head flag, or a chain that stays, takes the check one node further. */
  lemma CheckKeeps(t0: Table, v0: View, t: Table, v: View, n: nat, fix: bool)
    requires Checked(t0, v0, t, v, n, fix) && n < |t.nodes|
    requires n in v.chains ==> !fix || Whole(t0, v0, n)
    ensures Checked(t0, v0, t, v, n + 1, fix)
  {
  }

  /** A chain that is too short is released. */
  lemma CheckReleases(t0: Table, v0: View, t: Table, v: View, t': Table, v': View, n: nat)
    requires Checked(t0, v0, t, v, n, true) && n in v.chains && !Whole(t0, v0, n) && n < |t.nodes|
    requires Released(t, v, t', v', n, [])
    ensures Checked(t0, v0, t', v', n + 1, true)
  {
    forall m | 0 <= m < |t.nodes| && v0.place[m].In? && v0.place[m].head in v'.chains
      ensures v'.place[m] == v0.place[m] && t'.nodes[m] == t0.nodes[m]
    {
      assert v.place[m] == v0.place[m];
    }
  }

  /** Releasing the chain at `n` leaves the sums below `n` alone. */
  lemma ReleasedBelow(t: Table, v: View, t': Table, v': View, n: nat)
    requires n in v.chains && Released(t, v, t', v', n, []) && 0 < n < |t.nodes|
    ensures Heads(t'.nodes, n + 1) == Heads(t.nodes, n) && HeadBytes(t'.nodes, n + 1) == HeadBytes(t.nodes, n)
  {
    HeadFlagMarksChains(t', v', n);
    forall m | 0 < m < n ensures IsHead(t'.nodes[m]) == IsHead(t.nodes[m]) && LenOf(t'.nodes[m]) == LenOf(t.nodes[m]) {
      HeadFlagMarksChains(t', v', m);
      HeadFlagMarksChains(t, v, m);
      if m in v.chains { assert LinkOk(t, v, m, 0); }
    }
    SumsSame(t'.nodes, t.nodes, n);
  }

  /** Recycling a spare node leaves the chains, and what the sums count, alone. */
  ghost predicate Recycled(t0: Table, v0: View, t: Table, v: View) {
    && Rep(t, v) && |t.nodes| == |t0.nodes| == |v0.place| && t.unit == t0.unit && v.chains == v0.chains
    && (forall m :: 0 <= m < |t.nodes| && v0.place[m].In? ==> v.place[m] == v0.place[m] && t.nodes[m] == t0.nodes[m])
    && (forall m :: 0 <= m < |t.nodes| && v.place[m].In? ==> v0.place[m].In?)
    && Heads(t.nodes, |t.nodes|) == Heads(t0.nodes, |t0.nodes|)
    && HeadBytes(t.nodes, |t.nodes|) == HeadBytes(t0.nodes, |t0.nodes|)
  }

  /** The spare nodes below `i` have been counted, and recycled if `fix` is set. */
  ghost predicate Recycling(t0: Table, v0: View, t: Table, v: View, i: nat, fix: bool, leaked: nat) {
    && Recycled(t0, v0, t, v) && 0 < i <= |t.nodes| == |v.place|
    && t.bufUsedNum == t0.bufUsedNum && t.bufUsedBytes == t0.bufUsedBytes
    && leaked == |SpareOnes(v0, i)| && (leaked == 0 <==> forall m :: 0 < m < i ==> v0.place[m] != Spare)
    && (if fix then |v.free| == |v0.free| + leaked && forall m :: 0 < m < i ==> v.place[m] != Spare
        else t == t0 && v == v0)
    && (leaked == 0 ==> t == t0 && v == v0)
    && (forall m :: i <= m < |t.nodes| ==> v.place[m] == v0.place[m])
  }

  lemma RecyclingBegins(t: Table, v: View, fix: bool)
    requires Rep(t, v)
    ensures Recycling(t, v, t, v, 1, fix, 0)
  {
    assert PlaceOk(t, v, 0);
    assert SpareOnes(v, 1) == {};
  }

  /** A node that is marked, or is only counted. */
  lemma RecyclingCounts(t0: Table, v0: View, t: Table, v: View, i: nat, fix: bool, leaked: nat)
    requires Recycling(t0, v0, t, v, i, fix, leaked) && i < |t.nodes| && (!fix || v.place[i] != Spare)
    ensures Recycling(t0, v0, t, v, i + 1, fix, leaked + if v.place[i] == Spare then 1 else 0)
  {
    SpareNext(v0, i);
  }

  lemma RecyclingFrees(t0: Table, v0: View, t: Table, v: View, i: nat, leaked: nat)
    requires Recycling(t0, v0, t, v, i, true, leaked) && i < |t.nodes| && v.place[i] == Spare
    ensures Rep(Set(t, i, t.nodes[i].(tag := 0)), v)
    ensures Recycling(t0, v0, Freed(t, i), PushView(v, i), i + 1, true, leaked + 1)
  {
    SpareNext(v0, i);
    RecycleOne(t0, v0, t, v, i);
  }

  lemma RecycleOne(t0: Table, v0: View, t: Table, v: View, n: nat)
    requires Recycled(t0, v0, t, v) && 0 < n < |t.nodes| && v.place[n] == Spare
    ensures Rep(Set(t, n, t.nodes[n].(tag := 0)), v)
    ensures Recycled(t0, v0, Freed(t, n), PushView(v, n))
  {
    assert NodeOk(t, t.nodes[n]) && PlaceOk(t, v, n);
    TouchSpare(t, v, n, t.nodes[n].(tag := 0));
    FreedRep(t, v, n);
    SumsUpdate(t.nodes, n, Freed(t, n).nodes[n], |t.nodes|);
  }

  /** Places and positions are inverse to each other. */
  lemma AllPlaces(t: Table, v: View)
    requires Rep(t, v)
    ensures forall m :: 0 <= m < |v.place| && v.place[m].In? ==>
              v.place[m].head in v.chains && v.place[m].pos < |v.chains[v.place[m].head]|
              && v.chains[v.place[m].head][v.place[m].pos] == m
    ensures forall m :: 0 <= m < |v.place| && v.place[m].Free? ==>
              v.place[m].pos < |v.free| && v.free[v.place[m].pos] == m
  {
    forall m | 0 <= m < |v.place| && v.place[m].In?
      ensures v.place[m].head in v.chains && v.place[m].pos < |v.chains[v.place[m].head]|
      ensures v.chains[v.place[m].head][v.place[m].pos] == m
    {
      assert PlaceOk(t, v, m);
    }
    forall m | 0 <= m < |v.place| && v.place[m].Free? ensures v.place[m].pos < |v.free| && v.free[v.place[m].pos] == m {
      assert PlaceOk(t, v, m);
    }
  }

  lemma HeadsInRange(t: Table, v: View)
    requires Rep(t, v)
    ensures forall h :: h in v.chains ==> 0 < h < |t.nodes|
    ensures forall m :: 0 <= m < |v.place| && v.place[m].In? ==> 0 < v.place[m].head < |t.nodes|
  {
    AllPlaces(t, v);
    forall h | h in v.chains ensures 0 < h < |t.nodes| { assert LinkOk(t, v, h, 0); }
  }

  /** While the chain at `n` is there, its nodes are where they were. */
  lemma MarkedNext(t0: Table, v0: View, t: Table, v: View, n: nat, fix: bool)
    requires Checked(t0, v0, t, v, n, fix) && n in v.chains
    ensures forall m :: 0 <= m < |v.place| ==>
            (v.place[m].In? && v.place[m].head == n <==> v0.place[m].In? && v0.place[m].head == n)
  {
    AllPlaces(t0, v0);
    AllPlaces(t, v);
    forall m | 0 <= m < |v.place| && v.place[m].In? && v.place[m].head == n ensures v0.place[m] == v.place[m] {
      var i := v.place[m].pos;
      assert LinkOk(t0, v0, n, 0) && LinkOk(t0, v0, n, i);
    }
  }

  /**
   * The outcome of a repair: no node is lost, and the chains are exactly those that were whole,
   * with the same nodes and bytes.
   */
  ghost predicate Repaired(t0: Table, v0: View, t: Table, v: View) {
    && Rep(t, v) && NoSpare(v) && |t.nodes| == |t0.nodes| && t.unit == t0.unit && t.tagSeqNext == t0.tagSeqNext
    && (forall h :: h in v.chains ==> h in v0.chains && v.chains[h] == v0.chains[h])
    && (forall h :: h in v0.chains ==> (h in v.chains <==> Whole(t0, v0, h)))
    && (forall m :: 0 <= m < |t.nodes| && m < |v0.place| && v0.place[m].In? && v0.place[m].head in v.chains ==>
          t.nodes[m] == t0.nodes[m])
  }

  lemma RecycledRepaired(t0: Table, v0: View, t1: Table, v1: View, t2: Table, v2: View, t: Table)
    requires Checked(t0, v0, t1, v1, |t1.nodes|, true) && Recycled(t1, v1, t2, v2) && NoSpare(v2)
    requires t == t2.(freeNodeNum := t.freeNodeNum) && t.tagSeqNext == t0.tagSeqNext
    ensures Repaired(t0, v0, t, v2)
  {
    SameLinks(t2, t, v2);
    HeadsInRange(t0, v0);
  }

  /** After a repair the table is sound, once its counters are exact; lengths are as they were. */
  lemma RepairedSound(t0: Table, v0: View, t: Table, v: View)
    requires Rep(t0, v0) && Repaired(t0, v0, t, v) && CountersExact(t, v)
    ensures Sound(t, v)
    ensures (forall h :: h in v0.chains && Whole(t0, v0, h) ==> Exact(t0, v0.chains[h])) ==> AllExact(t, v)
  {
    forall h | h in v.chains
      ensures InRange(t.nodes, v.chains[h]) && t.nodes[h] == t0.nodes[h] && Enough(t, v.chains[h])
    {
      ChainInRange(t, v, h);
      ChainInRange(t0, v0, h);
      assert LinkOk(t0, v0, h, 0);
    }
  }

  /** After both marking passes exactly the spare nodes are unmarked. */
  lemma UnmarkedAreSpare(t0: Table, v0: View, t: Table, v: View, fix: bool, chains: seq<bool>, all: seq<bool>)
    requires Checked(t0, v0, t, v, |t.nodes|, fix) && Marked(v0, chains, |t.nodes|) && |all| == |chains|
    requires forall m :: 0 <= m < |all| ==> (all[m] <==> chains[m] || v.place[m].Free?)
    ensures forall m :: 0 < m < |all| ==> (all[m] <==> v.place[m] != Spare)
  {
    HeadsInRange(t0, v0);
    AllPlaces(t, v);
    AllPlaces(t0, v0);
    forall m | 0 < m < |all| && v.place[m].In? ensures v0.place[m].In? {
      var h, i := v.place[m].head, v.place[m].pos;
      assert LinkOk(t0, v0, h, 0) && LinkOk(t0, v0, h, i);
    }
  }

  lemma SameChecked(t0: Table, v0: View, t: Table, t': Table, v: View, n: nat, fix: bool)
    requires Checked(t0, v0, t, v, n, fix) && t'.nodes == t.nodes && t'.freeList == t.freeList && t'.unit == t.unit
    ensures Checked(t0, v0, t', v, n, fix)
  {
    SameLinks(t, t', v);
  }

  /** A sound table passes: every chain is whole and no node is spare. */
  lemma SoundIsHealthy(t: Table, v: View)
    requires Sound(t, v)
    ensures NoSpare(v) && forall h :: h in v.chains ==> Whole(t, v, h)
  {
    forall h | h in v.chains ensures Whole(t, v, h) {
      assert LinkOk(t, v, h, 0) && Enough(t, v.chains[h]);
    }
  }
}
