/**
 * Memory layout of the link table (src/lib_bsp/shmc/shm_link_table.h) and its representation
 * invariant.
 *
 * A `Table` is exactly what is in shared memory.  A `View` explains it: which nodes are on the
 * free list, which form the chain of a link-buf, and which are spare, that is, in neither (a node
 * is spare only while an operation is under way, or leaked after the writer died).  `Rep` relates
 * the two and holds at every single store of every operation.
 */
module LinkRep {
  import opened Bytes

  /** Set in the tag of a chain's first node. */
  const HEAD_FLAG := 0x8000_0000

  datatype Node = Node(next: nat, tag: nat, payload: seq<Byte>)

  /** `unit` is the payload size of a node; node 0 is never used, index 0 means "none". */
  datatype Table = Table(
    unit: nat,
    nodes: seq<Node>,
    freeList: nat,
    tagSeqNext: nat,
    freeNodeNum: nat,
    bufUsedNum: nat,
    bufUsedBytes: nat)

  datatype Handle = Handle(head: nat, tag: nat) {
    predicate IsSet() { head != 0 || tag != 0 }
  }

  const NO_BUF := Handle(0, 0)

  datatype Place = Spare | Free(pos: nat) | In(head: nat, pos: nat)

  /** `free` is the free list as a stack, top last; `chains` is indexed by first node. */
  datatype View = View(free: seq<nat>, chains: map<nat, seq<nat>>, place: seq<Place>)

  // ---------------------------------------------------------------------------
  // Fields of a buffer

  function BufLen(n: Node): nat
    requires |n.payload| >= 8
  {
    Val(n.payload[0..4])
  }

  function BufCrc(n: Node): nat
    requires |n.payload| >= 8
  {
    Val(n.payload[4..8])
  }

  /** Data bytes that the first node of a buffer holds. */
  function FirstPart(n: Node): (r: seq<Byte>)
    requires |n.payload| >= 8
    ensures |r| == Min(|n.payload| - 8, BufLen(n))
  {
    n.payload[8..8 + Min(|n.payload| - 8, BufLen(n))]
  }

  /** Nodes needed for a buffer of `len` bytes and its 8-byte header. */
  function BufNodes(unit: nat, len: nat): nat
    requires unit > 0
  {
    (8 + len + unit - 1) / unit
  }

  /** `BufNodes` is the least number of nodes whose payloads hold the header and the data. */
  lemma BufNodesLeast(unit: nat, len: nat, k: nat)
    requires unit > 0
    ensures BufNodes(unit, len) <= k <==> 8 + len <= k * unit
    ensures BufNodes(unit, len) >= 1
  {
    var need := BufNodes(unit, len);
    var r := (8 + len + unit - 1) % unit;
    assert 8 + len + unit - 1 == need * unit + r;
    if need <= k {
      if need < k { Scale(k - need, unit); }
      assert k * unit == need * unit + (k - need) * unit;
    } else {
      Scale(need - k, unit);
      assert need * unit == k * unit + (need - k) * unit;
    }
  }

  ghost predicate InRange(nodes: seq<Node>, l: seq<nat>) {
    forall i :: 0 <= i < |l| ==> 0 < l[i] < |nodes|
  }

  /** The payloads of a chain, one after the other. */
  ghost function Stream(nodes: seq<Node>, l: seq<nat>): seq<Byte>
    requires InRange(nodes, l)
  {
    if l == [] then [] else nodes[l[0]].payload + Stream(nodes, l[1..])
  }

  lemma {:induction false} StreamSnoc(nodes: seq<Node>, l: seq<nat>, n: nat)
    requires InRange(nodes, l) && 0 < n < |nodes|
    ensures InRange(nodes, l + [n])
    ensures Stream(nodes, l + [n]) == Stream(nodes, l) + nodes[n].payload
  {
    if l == [] {
      assert Stream(nodes, [n]) == nodes[n].payload + Stream(nodes, []);
    } else {
      StreamSnoc(nodes, l[1..], n);
      assert (l + [n])[1..] == l[1..] + [n];
    }
  }

  lemma {:induction false} StreamFrame(a: seq<Node>, b: seq<Node>, l: seq<nat>)
    requires InRange(a, l) && InRange(b, l)
    requires forall i :: 0 <= i < |l| ==> a[l[i]].payload == b[l[i]].payload
    ensures Stream(a, l) == Stream(b, l)
  {
    if l == [] {
    } else {
      assert a[l[0]].payload == b[l[0]].payload;
      assert forall i :: 0 <= i < |l[1..]| ==> l[1..][i] == l[i + 1];
      StreamFrame(a, b, l[1..]);
    }
  }

  lemma {:induction false} StreamLength(nodes: seq<Node>, l: seq<nat>, unit: nat)
    requires InRange(nodes, l)
    requires forall i :: 0 <= i < |l| ==> |nodes[l[i]].payload| == unit
    ensures |Stream(nodes, l)| == |l| * unit
  {
    if l == [] {
    } else {
      assert forall i :: 0 <= i < |l[1..]| ==> l[1..][i] == l[i + 1];
      StreamLength(nodes, l[1..], unit);
      assert |l| * unit == unit + (|l| - 1) * unit;
    }
  }

  /** Stream of a chain cut after its first `k` nodes. */
  lemma {:induction false} StreamSplit(nodes: seq<Node>, l: seq<nat>, k: nat)
    requires InRange(nodes, l) && k <= |l|
    ensures InRange(nodes, l[..k]) && InRange(nodes, l[k..])
    ensures Stream(nodes, l) == Stream(nodes, l[..k]) + Stream(nodes, l[k..])
  {
    if k == 0 {
      assert l[0..] == l && l[..0] == [];
    } else {
      assert l[1..][..k - 1] == l[..k][1..];
      assert l[1..][k - 1..] == l[k..];
      StreamSplit(nodes, l[1..], k - 1);
    }
  }

  /** Byte `j` of node `k` of a chain, in the chain's stream. */
  lemma StreamAt(nodes: seq<Node>, l: seq<nat>, unit: nat, k: nat, j: nat)
    requires InRange(nodes, l) && k < |l| && j < unit
    requires forall i :: 0 <= i < |l| ==> |nodes[l[i]].payload| == unit
    ensures k * unit + j < |Stream(nodes, l)|
    ensures Stream(nodes, l)[k * unit + j] == nodes[l[k]].payload[j]
  {
    StreamSplit(nodes, l, k);
    StreamLength(nodes, l[..k], unit);
    assert l[k..][0] == l[k];
    assert Stream(nodes, l[k..])[..unit] == nodes[l[k]].payload;
  }

  // ---------------------------------------------------------------------------
  // Representation invariant

  ghost predicate WellSized(t: Table) {
    && t.unit >= 8
    && 2 <= |t.nodes| <= U32
    && t.freeList < |t.nodes|
    && forall n {:trigger NodeOk(t, t.nodes[n])} :: 0 <= n < |t.nodes| ==> NodeOk(t, t.nodes[n])
  }

  ghost predicate NodeOk(t: Table, n: Node) {
    n.next < |t.nodes| && n.tag < U32 && |n.payload| == t.unit
  }

  /** Node `i` of the free list, counted from its end. */
  ghost predicate FreeLinkOk(t: Table, v: View, i: nat)
    requires |v.place| == |t.nodes| && i < |v.free|
  {
    && 0 < v.free[i] < |t.nodes|
    && v.place[v.free[i]] == Free(i)
    && t.nodes[v.free[i]].tag == 0
    && t.nodes[v.free[i]].next == (if i == 0 then 0 else v.free[i - 1])
  }

  ghost predicate FreeOk(t: Table, v: View)
    requires |v.place| == |t.nodes|
  {
    && t.freeList == (if v.free == [] then 0 else v.free[|v.free| - 1])
    && forall i {:trigger FreeLinkOk(t, v, i)} :: 0 <= i < |v.free| ==> FreeLinkOk(t, v, i)
  }

  /** Node `i` of the chain starting at `h`. */
  ghost predicate LinkOk(t: Table, v: View, h: nat, i: nat)
    requires |v.place| == |t.nodes| && h in v.chains && i < |v.chains[h]| && 0 < h < |t.nodes|
  {
    var l := v.chains[h];
    && 0 < l[i] < |t.nodes|
    && v.place[l[i]] == In(h, i)
    && t.nodes[l[i]].next == (if i + 1 < |l| then l[i + 1] else 0)
    && t.nodes[h].tag >= HEAD_FLAG
    && t.nodes[l[i]].tag == (if i == 0 then t.nodes[h].tag else t.nodes[h].tag - HEAD_FLAG)
  }

  ghost predicate ChainsOk(t: Table, v: View)
    requires |v.place| == |t.nodes|
  {
    forall h :: h in v.chains ==>
      && 0 < h < |t.nodes|
      && 0 < |v.chains[h]|
      && v.chains[h][0] == h
      && forall i {:trigger LinkOk(t, v, h, i)} :: 0 <= i < |v.chains[h]| ==> LinkOk(t, v, h, i)
  }

  ghost predicate PlaceOk(t: Table, v: View, n: nat)
    requires n < |t.nodes| && n < |v.place|
  {
    match v.place[n]
    case Spare => t.nodes[n].tag < HEAD_FLAG
    case Free(i) => i < |v.free| && v.free[i] == n
    case In(h, i) => h in v.chains && i < |v.chains[h]| && v.chains[h][i] == n
  }

  ghost predicate Rep(t: Table, v: View) {
    && WellSized(t)
    && |v.place| == |t.nodes|
    && v.place[0] == Spare
    && FreeOk(t, v)
    && ChainsOk(t, v)
    && forall n {:trigger PlaceOk(t, v, n)} :: 0 <= n < |t.nodes| ==> PlaceOk(t, v, n)
  }

  /** Under `Rep` the head flag marks exactly the first nodes of chains. */
  lemma HeadFlagMarksChains(t: Table, v: View, n: nat)
    requires Rep(t, v) && n < |t.nodes|
    ensures t.nodes[n].tag >= HEAD_FLAG <==> n in v.chains
  {
    assert PlaceOk(t, v, n);
    if n in v.chains {
      assert LinkOk(t, v, n, 0);
    }
    match v.place[n]
    case Spare =>
    case Free(i) => assert FreeLinkOk(t, v, i);
    case In(h, i) =>
      assert LinkOk(t, v, h, i) && NodeOk(t, t.nodes[h]);
  }

  /** A chain that is long enough for the length stored in it. */
  ghost predicate Enough(t: Table, l: seq<nat>)
    requires WellSized(t) && l != [] && InRange(t.nodes, l)
  {
    assert NodeOk(t, t.nodes[l[0]]);
    BufNodes(t.unit, BufLen(t.nodes[l[0]])) <= |l|
  }

  lemma ChainInRange(t: Table, v: View, h: nat)
    requires Rep(t, v) && h in v.chains
    ensures InRange(t.nodes, v.chains[h])
  {
    forall i | 0 <= i < |v.chains[h]| ensures 0 < v.chains[h][i] < |t.nodes| {
      assert LinkOk(t, v, h, i);
    }
  }

  lemma ChainStream(t: Table, l: seq<nat>)
    requires WellSized(t) && l != [] && InRange(t.nodes, l)
    ensures |Stream(t.nodes, l)| == |l| * t.unit
    ensures |t.nodes[l[0]].payload| == t.unit
    ensures Enough(t, l) <==> 8 + BufLen(t.nodes[l[0]]) <= |Stream(t.nodes, l)|
  {
    forall i | 0 <= i < |l| ensures |t.nodes[l[i]].payload| == t.unit {
      assert NodeOk(t, t.nodes[l[i]]);
    }
    StreamLength(t.nodes, l, t.unit);
    BufNodesLeast(t.unit, BufLen(t.nodes[l[0]]), |l|);
  }

  /** The bytes of the buffer stored in a chain. */
  ghost function Value(t: Table, l: seq<nat>): (r: seq<Byte>)
    requires WellSized(t) && l != [] && InRange(t.nodes, l) && Enough(t, l)
    ensures |t.nodes[l[0]].payload| == t.unit && |r| == BufLen(t.nodes[l[0]])
  {
    ChainStream(t, l);
    Stream(t.nodes, l)[8..8 + BufLen(t.nodes[l[0]])]
  }

  type Crc = seq<Byte> -> nat

  /** A complete buffer whose header checksum covers its first node's data. */
  ghost predicate Readable(crc: Crc, t: Table, l: seq<nat>)
    requires WellSized(t) && l != [] && InRange(t.nodes, l)
  {
    assert NodeOk(t, t.nodes[l[0]]);
    Enough(t, l) && BufCrc(t.nodes[l[0]]) == crc(FirstPart(t.nodes[l[0]])) % U32
  }

  /** Header and data of a buffer, as the chain's nodes hold them one after the other. */
  function Record(crc: Crc, unit: nat, val: seq<Byte>): (r: seq<Byte>)
    requires unit >= 8
    ensures |r| == 8 + |val|
  {
    LE(|val|, 4) + LE(crc(val[..Min(unit - 8, |val|)]), 4) + val
  }

  lemma RecordParts(crc: Crc, unit: nat, val: seq<Byte>)
    requires unit >= 8
    ensures var record := Record(crc, unit, val);
            && record[0..4] == LE(|val|, 4)
            && record[4..8] == LE(crc(val[..Min(unit - 8, |val|)]), 4)
            && record[8..] == val
            && forall i :: 0 <= i < |val| ==> record[8 + i] == val[i]
  {
  }

  lemma PrefixSlice(s: seq<Byte>, p: seq<Byte>, i: nat, j: nat)
    requires i <= j <= |p| <= |s| && s[..|p|] == p
    ensures s[i..j] == p[i..j]
  {
    forall k | 0 <= k < j - i ensures s[i..j][k] == p[i..j][k] {
      assert s[..|p|][i + k] == s[i + k];
    }
  }

  /** A chain's stream begins with its first payload. */
  lemma StreamPrefix(t: Table, l: seq<nat>)
    requires WellSized(t) && l != [] && InRange(t.nodes, l)
    ensures |t.nodes[l[0]].payload| == t.unit <= |Stream(t.nodes, l)|
    ensures Stream(t.nodes, l)[..t.unit] == t.nodes[l[0]].payload
  {
    assert NodeOk(t, t.nodes[l[0]]);
  }

  /** The first node of a chain that holds a record has the record's header and first bytes. */
  lemma HoldsHeader(crc: Crc, t: Table, l: seq<nat>, val: seq<Byte>)
    requires WellSized(t) && l != [] && InRange(t.nodes, l) && |val| < U32
    requires 8 + |val| <= |Stream(t.nodes, l)|
    requires Stream(t.nodes, l)[..8 + |val|] == Record(crc, t.unit, val)
    ensures |t.nodes[l[0]].payload| == t.unit
    ensures BufLen(t.nodes[l[0]]) == |val|
    ensures BufCrc(t.nodes[l[0]]) == crc(val[..Min(t.unit - 8, |val|)]) % U32
    ensures FirstPart(t.nodes[l[0]]) == val[..Min(t.unit - 8, |val|)]
  {
    var stream, record, first := Stream(t.nodes, l), Record(crc, t.unit, val), t.nodes[l[0]].payload;
    var part := Min(t.unit - 8, |val|);
    StreamPrefix(t, l);
    RecordParts(crc, t.unit, val);
    assert Val(first[0..4]) == |val| by {
      ValOf32(|val|);
      SharedSlice(stream, first, record, 0, 4);
    }
    assert Val(first[4..8]) == crc(val[..part]) % U32 by {
      ValOf32(crc(val[..part]));
      SharedSlice(stream, first, record, 4, 8);
    }
    assert first[8..8 + part] == val[..part] by {
      SharedSlice(stream, first, record, 8, 8 + part);
      assert record[8..8 + part] == record[8..][..part];
    }
  }

  lemma SharedSlice(s: seq<Byte>, p: seq<Byte>, q: seq<Byte>, i: nat, j: nat)
    requires i <= j <= |p| <= |s| && s[..|p|] == p
    requires j <= |q| <= |s| && s[..|q|] == q
    ensures p[i..j] == q[i..j]
  {
    PrefixSlice(s, p, i, j);
    PrefixSlice(s, q, i, j);
  }

  /** A chain that holds the whole record is readable and has the value. */
  lemma HoldsRecord(crc: Crc, t: Table, l: seq<nat>, val: seq<Byte>)
    requires WellSized(t) && l != [] && InRange(t.nodes, l) && |val| < U32
    requires 8 + |val| <= |Stream(t.nodes, l)|
    requires Stream(t.nodes, l)[..8 + |val|] == Record(crc, t.unit, val)
    ensures Readable(crc, t, l) && Value(t, l) == val
    ensures BufLen(t.nodes[l[0]]) == |val|
  {
    HoldsHeader(crc, t, l, val);
    ChainStream(t, l);
    RecordParts(crc, t.unit, val);
    PrefixSlice(Stream(t.nodes, l), Record(crc, t.unit, val), 8, 8 + |val|);
  }

  function WithFlag(tag: nat): nat { if tag >= HEAD_FLAG then tag else tag + HEAD_FLAG }

  // ---------------------------------------------------------------------------
  // A chain under construction: `l` are the nodes linked so far, `off` the bytes copied so far

  /** Bytes of the header in the next node. */
  function HeaderLen(l: seq<nat>): nat { if l == [] then 8 else 0 }

  /** Bytes of the value that go into the next node. */
  function ShareLen(unit: nat, val: seq<Byte>, l: seq<nat>, off: nat): nat
    requires unit >= 8 && off <= |val|
  {
    Min(unit - HeaderLen(l), |val| - off)
  }

  /** The chain's stream is the record as far as it goes. */
  ghost predicate Written(crc: Crc, t: Table, val: seq<Byte>, l: seq<nat>, off: nat)
    requires t.unit >= 8 && InRange(t.nodes, l)
  {
    var record, stream := Record(crc, t.unit, val), Stream(t.nodes, l);
    var done := Min(|stream|, |record|);
    && stream[..done] == record[..done]
    && off == (if l == [] then 0 else done - 8)
    && off <= |val|
  }

  /** The first `k` bytes of `payload` are those that the record has after the chain's stream. */
  ghost predicate Fits(crc: Crc, t: Table, val: seq<Byte>, l: seq<nat>, payload: seq<Byte>, k: nat)
    requires t.unit >= 8 && InRange(t.nodes, l)
  {
    var record, base := Record(crc, t.unit, val), |Stream(t.nodes, l)|;
    && base + k <= |record| && k <= |payload| == t.unit
    && payload[..k] == record[base..base + k]
  }

  /** A chain that is still too short leaves bytes of the record over. */
  lemma Unfilled(crc: Crc, t: Table, val: seq<Byte>, l: seq<nat>, off: nat)
    requires WellSized(t) && InRange(t.nodes, l)
    requires Written(crc, t, val, l, off) && |l| < BufNodes(t.unit, |val|)
    ensures var base := |Stream(t.nodes, l)|;
            && base < 8 + |val|
            && base + HeaderLen(l) == 8 + off
            && base + HeaderLen(l) + ShareLen(t.unit, val, l, off) <= 8 + |val|
            && HeaderLen(l) + ShareLen(t.unit, val, l, off) == Min(t.unit, 8 + |val| - base)
  {
    forall i | 0 <= i < |l| ensures |t.nodes[l[i]].payload| == t.unit {
      assert NodeOk(t, t.nodes[l[i]]);
    }
    StreamLength(t.nodes, l, t.unit);
    BufNodesLeast(t.unit, |val|, |l|);
  }

  /** Linking a filled node adds its share of the record. */
  lemma LinkedBytes(crc: Crc, t: Table, val: seq<Byte>, l: seq<nat>, off: nat, n: nat)
    requires WellSized(t) && InRange(t.nodes, l) && 0 < n < |t.nodes|
    requires Written(crc, t, val, l, off) && |l| < BufNodes(t.unit, |val|)
    requires Fits(crc, t, val, l, t.nodes[n].payload, HeaderLen(l) + ShareLen(t.unit, val, l, off))
    ensures InRange(t.nodes, l + [n])
    ensures Written(crc, t, val, l + [n], off + ShareLen(t.unit, val, l, off))
  {
    var record, stream := Record(crc, t.unit, val), Stream(t.nodes, l);
    StreamSnoc(t.nodes, l, n);
    Unfilled(crc, t, val, l, off);
    assert record[..|stream|] == stream;
    Joined(stream, t.nodes[n].payload, record, HeaderLen(l) + ShareLen(t.unit, val, l, off));
  }

  lemma Joined(stream: seq<Byte>, payload: seq<Byte>, record: seq<Byte>, k: nat)
    requires |stream| + k <= |record| && stream == record[..|stream|]
    requires k <= |payload| && payload[..k] == record[|stream|..|stream| + k]
    ensures (stream + payload)[..|stream| + k] == record[..|stream| + k]
  {
    assert (stream + payload)[..|stream| + k] == stream + payload[..k];
    assert record[..|stream| + k] == record[..|stream|] + record[|stream|..|stream| + k];
  }

  /** A chain of enough nodes holds the whole record. */
  lemma FullChain(crc: Crc, t: Table, val: seq<Byte>, l: seq<nat>, off: nat)
    requires WellSized(t) && InRange(t.nodes, l) && |val| < U32
    requires Written(crc, t, val, l, off) && BufNodes(t.unit, |val|) <= |l|
    ensures l != [] && Readable(crc, t, l) && Value(t, l) == val && BufLen(t.nodes[l[0]]) == |val|
  {
    BufNodesLeast(t.unit, |val|, |l|);
    forall i | 0 <= i < |l| ensures |t.nodes[l[i]].payload| == t.unit {
      assert NodeOk(t, t.nodes[l[i]]);
    }
    StreamLength(t.nodes, l, t.unit);
    var record := Record(crc, t.unit, val);
    assert record[..|record|] == record;
    HoldsRecord(crc, t, l, val);
  }

  // ---------------------------------------------------------------------------
  // Moves.  Every store of AllocNode, FreeNode, New and Free is one of these.

  function Set(t: Table, n: nat, node: Node): Table
    requires n < |t.nodes|
  {
    t.(nodes := t.nodes[n := node])
  }

  /** The first store of AllocNode takes the top of the free list. */
  ghost function PopView(v: View): View
    requires v.free != [] && v.free[|v.free| - 1] < |v.place|
  {
    v.(free := v.free[..|v.free| - 1], place := v.place[v.free[|v.free| - 1] := Spare])
  }

  lemma PopFree(t: Table, v: View)
    requires Rep(t, v) && t.freeList != 0
    ensures v.free != [] && v.free[|v.free| - 1] == t.freeList
    ensures Rep(t.(freeList := t.nodes[t.freeList].next), PopView(v))
  {
    var n := t.freeList;
    var t' := t.(freeList := t.nodes[n].next);
    var v' := PopView(v);
    assert FreeLinkOk(t, v, |v.free| - 1);
    assert NodeOk(t, t.nodes[n]);
    KeepFree(t, v, t', v');
    assert t'.nodes == t.nodes;
    KeepChains(t, v, t', v');
    forall m | 0 <= m < |t.nodes| ensures PlaceOk(t', v', m) {
      assert PlaceOk(t, v, m);
    }
    assert WellSized(t') by {
      forall m | 0 <= m < |t'.nodes| ensures NodeOk(t', t'.nodes[m]) { assert NodeOk(t, t.nodes[m]); }
    }
  }

  /** The rest of the free list stays as it is when its nodes and places do. */
  lemma KeepFree(t: Table, v: View, t': Table, v': View)
    requires |v.place| == |t.nodes| == |t'.nodes| == |v'.place|
    requires v'.free <= v.free
    requires forall i :: 0 <= i < |v.free| ==> FreeLinkOk(t, v, i)
    requires forall n :: 0 <= n < |t.nodes| && v.place[n].Free? && v.place[n].pos < |v'.free| ==>
               v'.place[n] == v.place[n] && t'.nodes[n].next == t.nodes[n].next && t'.nodes[n].tag == t.nodes[n].tag
    ensures forall i :: 0 <= i < |v'.free| ==> FreeLinkOk(t', v', i)
  {
    forall i | 0 <= i < |v'.free| ensures FreeLinkOk(t', v', i) {
      assert FreeLinkOk(t, v, i);
    }
  }

  /** Chains stay as they are when their nodes and places do. */
  lemma KeepChains(t: Table, v: View, t': Table, v': View)
    requires |v.place| == |t.nodes| == |t'.nodes| == |v'.place| && ChainsOk(t, v)
    requires v'.chains == v.chains
    requires forall n :: 0 <= n < |t.nodes| && v.place[n].In? ==>
               v'.place[n] == v.place[n] && t'.nodes[n].next == t.nodes[n].next && t'.nodes[n].tag == t.nodes[n].tag
    ensures ChainsOk(t', v')
  {
    forall h | h in v'.chains
      ensures 0 < h < |t'.nodes| && 0 < |v'.chains[h]| && v'.chains[h][0] == h
      ensures forall i :: 0 <= i < |v'.chains[h]| ==> LinkOk(t', v', h, i)
    {
      assert LinkOk(t, v, h, 0);
      forall i | 0 <= i < |v'.chains[h]| ensures LinkOk(t', v', h, i) {
        assert LinkOk(t, v, h, i);
      }
    }
  }

  /** A spare node may hold anything that does not carry the head flag. */
  lemma TouchSpare(t: Table, v: View, n: nat, node: Node)
    requires Rep(t, v) && 0 < n < |t.nodes| && v.place[n] == Spare
    requires NodeOk(t, node) && node.tag < HEAD_FLAG
    ensures Rep(Set(t, n, node), v)
  {
    var t' := Set(t, n, node);
    KeepFree(t, v, t', v);
    KeepChains(t, v, t', v);
    forall m | 0 <= m < |t.nodes| ensures PlaceOk(t', v, m) {
      assert PlaceOk(t, v, m);
    }
    forall m | 0 <= m < |t'.nodes| ensures NodeOk(t', t'.nodes[m]) { assert NodeOk(t, t.nodes[m]); }
  }

  /** The third store of FreeNode puts a spare node on the free list. */
  function PushView(v: View, n: nat): View
    requires n < |v.place|
  {
    v.(free := v.free + [n], place := v.place[n := Free(|v.free|)])
  }

  lemma PushFree(t: Table, v: View, n: nat)
    requires Rep(t, v) && 0 < n < |t.nodes| && v.place[n] == Spare
    requires t.nodes[n].tag == 0 && t.nodes[n].next == t.freeList
    ensures Rep(t.(freeList := n), PushView(v, n))
  {
    var t' := t.(freeList := n);
    var v' := PushView(v, n);
    forall i | 0 <= i < |v'.free| ensures FreeLinkOk(t', v', i) {
      if i < |v.free| { assert FreeLinkOk(t, v, i); }
    }
    KeepChains(t, v, t', v');
    forall m | 0 <= m < |t.nodes| ensures PlaceOk(t', v', m) {
      assert PlaceOk(t, v, m);
    }
    forall m | 0 <= m < |t'.nodes| ensures NodeOk(t', t'.nodes[m]) { assert NodeOk(t, t.nodes[m]); }
  }

  /** Setting the head flag on a spare, unlinked node turns it into a chain of one node. */
  function StartView(v: View, n: nat): View
    requires n < |v.place|
  {
    v.(chains := v.chains[n := [n]], place := v.place[n := In(n, 0)])
  }

  lemma StartChain(t: Table, v: View, n: nat, node: Node)
    requires Rep(t, v) && 0 < n < |t.nodes| && v.place[n] == Spare
    requires NodeOk(t, node) && node.next == 0 && node.tag >= HEAD_FLAG
    ensures n !in v.chains
    ensures Rep(Set(t, n, node), StartView(v, n))
  {
    HeadFlagMarksChains(t, v, n);
    assert PlaceOk(t, v, n);
    var t' := Set(t, n, node);
    var v' := StartView(v, n);
    KeepFree(t, v, t', v');
    forall h | h in v'.chains
      ensures 0 < h < |t'.nodes| && 0 < |v'.chains[h]| && v'.chains[h][0] == h
      ensures forall i :: 0 <= i < |v'.chains[h]| ==> LinkOk(t', v', h, i)
    {
      if h != n {
        assert LinkOk(t, v, h, 0);
        forall i | 0 <= i < |v'.chains[h]| ensures LinkOk(t', v', h, i) {
          assert LinkOk(t, v, h, i);
        }
      }
    }
    forall m | 0 <= m < |t.nodes| ensures PlaceOk(t', v', m) {
      assert PlaceOk(t, v, m);
    }
    forall m | 0 <= m < |t'.nodes| ensures NodeOk(t', t'.nodes[m]) { assert NodeOk(t, t.nodes[m]); }
  }

  /** Linking a spare, unlinked node that carries the chain's tag extends the chain. */
  function ExtendView(v: View, h: nat, n: nat): View
    requires n < |v.place| && h in v.chains
  {
    v.(chains := v.chains[h := v.chains[h] + [n]], place := v.place[n := In(h, |v.chains[h]|)])
  }

  lemma ExtendChain(t: Table, v: View, h: nat, n: nat)
    requires Rep(t, v) && 0 < n < |t.nodes| && v.place[n] == Spare && h in v.chains
    requires t.nodes[n].next == 0 && t.nodes[n].tag + HEAD_FLAG == t.nodes[h].tag
    ensures v.chains[h] != []
    ensures var last := v.chains[h][|v.chains[h]| - 1];
            && last < |t.nodes|
            && Rep(Set(t, last, t.nodes[last].(next := n)), ExtendView(v, h, n))
  {
    var l := v.chains[h];
    assert LinkOk(t, v, h, 0);
    assert LinkOk(t, v, h, |l| - 1);
    var last := l[|l| - 1];
    var t' := Set(t, last, t.nodes[last].(next := n));
    var v' := ExtendView(v, h, n);
    KeepFree(t, v, t', v');
    forall g | g in v'.chains
      ensures 0 < g < |t'.nodes| && 0 < |v'.chains[g]| && v'.chains[g][0] == g
      ensures forall i :: 0 <= i < |v'.chains[g]| ==> LinkOk(t', v', g, i)
    {
      assert LinkOk(t, v, g, 0);
      forall i | 0 <= i < |v'.chains[g]| ensures LinkOk(t', v', g, i) {
        if i < |v.chains[g]| { assert LinkOk(t, v, g, i); }
      }
    }
    forall m | 0 <= m < |t.nodes| ensures PlaceOk(t', v', m) {
      assert PlaceOk(t, v, m);
    }
    forall m | 0 <= m < |t'.nodes| ensures NodeOk(t', t'.nodes[m]) { assert NodeOk(t, t.nodes[m]); }
  }

  /** Payload stores never disturb the linkage. */
  lemma TouchPayload(t: Table, v: View, n: nat, payload: seq<Byte>)
    requires Rep(t, v) && 0 < n < |t.nodes| && |payload| == t.unit
    ensures Rep(Set(t, n, t.nodes[n].(payload := payload)), v)
  {
    var t' := Set(t, n, t.nodes[n].(payload := payload));
    KeepFree(t, v, t', v);
    KeepChains(t, v, t', v);
    forall m | 0 <= m < |t.nodes| ensures PlaceOk(t', v, m) {
      assert PlaceOk(t, v, m);
    }
    forall m | 0 <= m < |t'.nodes| ensures NodeOk(t', t'.nodes[m]) { assert NodeOk(t, t.nodes[m]); }
  }

  /** Clearing the tag of a chain's first node turns all of its nodes into spare ones. */
  ghost function DropView(v: View, h: nat): View {
    v.(chains := v.chains - {h},
       place := seq(|v.place|, n requires 0 <= n < |v.place| =>
                  if v.place[n].In? && v.place[n].head == h then Spare else v.place[n]))
  }

  lemma DropChain(t: Table, v: View, h: nat)
    requires Rep(t, v) && h in v.chains
    ensures h < |t.nodes| && Rep(Set(t, h, t.nodes[h].(tag := 0)), DropView(v, h))
  {
    assert LinkOk(t, v, h, 0);
    var t' := Set(t, h, t.nodes[h].(tag := 0));
    var v' := DropView(v, h);
    KeepFree(t, v, t', v');
    forall g | g in v'.chains
      ensures 0 < g < |t'.nodes| && 0 < |v'.chains[g]| && v'.chains[g][0] == g
      ensures forall i :: 0 <= i < |v'.chains[g]| ==> LinkOk(t', v', g, i)
    {
      assert LinkOk(t, v, g, 0);
      forall i | 0 <= i < |v'.chains[g]| ensures LinkOk(t', v', g, i) {
        assert LinkOk(t, v, g, i);
      }
    }
    forall m | 0 <= m < |t.nodes| ensures PlaceOk(t', v', m) {
      assert PlaceOk(t, v, m);
      if v.place[m].In? { assert LinkOk(t, v, v.place[m].head, v.place[m].pos) && NodeOk(t, t.nodes[v.place[m].head]); }
    }
    forall m | 0 <= m < |t'.nodes| ensures NodeOk(t', t'.nodes[m]) { assert NodeOk(t, t.nodes[m]); }
  }

  /** The counters and the tag sequence do not concern the linkage. */
  lemma SameLinks(t: Table, t': Table, v: View)
    requires Rep(t, v) && t'.nodes == t.nodes && t'.freeList == t.freeList && t'.unit == t.unit
    ensures Rep(t', v)
  {
    KeepFree(t, v, t', v);
    KeepChains(t, v, t', v);
    forall m | 0 <= m < |t.nodes| ensures PlaceOk(t', v, m) && NodeOk(t', t'.nodes[m]) {
      assert PlaceOk(t, v, m) && NodeOk(t, t.nodes[m]);
    }
  }

  /** The nodes of a chain have their place in it. */
  lemma ChainNodes(t: Table, v: View, h: nat)
    requires Rep(t, v) && h in v.chains
    ensures forall n :: n in v.chains[h] ==> 0 < n < |t.nodes| && v.place[n].In? && v.place[n].head == h
  {
    forall n | n in v.chains[h] ensures 0 < n < |t.nodes| && v.place[n].In? && v.place[n].head == h {
      var j :| 0 <= j < |v.chains[h]| && v.chains[h][j] == n;
      assert LinkOk(t, v, h, j);
    }
  }

  ghost predicate PendAt(t: Table, v: View, todo: seq<nat>, tag: nat, i: nat)
    requires |t.nodes| == |v.place| && i < |todo|
  {
    && 0 < todo[i] < |t.nodes| && v.place[todo[i]] == Spare && t.nodes[todo[i]].tag == tag
    && t.nodes[todo[i]].next == (if i + 1 < |todo| then todo[i + 1] else 0)
  }

  /** Nodes of the chain that are still to be freed, linked as they were. */
  ghost predicate Pend(t: Table, v: View, todo: seq<nat>, tag: nat) {
    && |t.nodes| == |v.place| && tag < HEAD_FLAG
    && (forall i, j :: 0 <= i < j < |todo| ==> todo[i] != todo[j])
    && forall i {:trigger PendAt(t, v, todo, tag, i)} :: 0 <= i < |todo| ==> PendAt(t, v, todo, tag, i)
  }

  /** The table that InitForWrite leaves in a zero-filled segment. */
  function NewTable(unit: nat, nodeNum: nat): Table {
    Table(unit,
          seq(nodeNum, n requires 0 <= n =>
            Node(if n == 0 || n == nodeNum - 1 then 0 else n + 1, 0, seq(unit, _ => 0))),
          1, 1, if nodeNum == 0 then 0 else nodeNum - 1, 0, 0)
  }

  ghost function NewView(nodeNum: nat): View
    requires nodeNum >= 2
  {
    View(seq(nodeNum - 1, i requires 0 <= i < nodeNum - 1 => nodeNum - 1 - i), map[],
         seq(nodeNum, n requires 0 <= n < nodeNum => if n == 0 then Spare else Free(nodeNum - 1 - n)))
  }

  lemma NewTableRep(unit: nat, nodeNum: nat)
    requires unit >= 8 && 2 <= nodeNum <= U32
    ensures Rep(NewTable(unit, nodeNum), NewView(nodeNum))
  {
    var t, v := NewTable(unit, nodeNum), NewView(nodeNum);
    forall i | 0 <= i < |v.free| ensures FreeLinkOk(t, v, i) {}
    forall n | 0 <= n < |t.nodes| ensures NodeOk(t, t.nodes[n]) && PlaceOk(t, v, n) {}
  }
}
