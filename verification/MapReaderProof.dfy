/** What a reader sees, in every interleaving of its loads with the writer's stores. */
module MapReaderProof {
  import opened Bytes
  import opened LinkRep
  import opened Cells
  import opened Tags
  import opened MapWriter
  import opened MapWriterProof
  import opened MapReader

  /** The cell still holds the very handle that the round started with. */
  ghost predicate Stable(s: State, k: Look) {
    && k.lb.IsSet() && k.q.cell < |s.cells| && s.cells[k.q.cell].lb == k.lb
    && k.lb.head in s.g.birth && s.g.birth[k.lb.head] == k.born
  }

  /** The value that a stable round reads. */
  ghost function Seen(c: Config, s: State, k: Look): seq<Byte>
    requires Base(c, s) && Stable(s, k)
  {
    assert CellOk(c, s, k.q.cell);
    Value(s.t, s.g.view.chains[k.lb.head])
  }

  /** The cell holds the handle of the round, or one that was published since it was loaded. */
  ghost predicate Track(c: Config, s: State, k: Look) {
    && k.q.cell < |s.cells| && |k.q.key| == c.keyLen
    && k.born < k.next <= NextDraw(s)
    && (k.lb.IsSet() ==> TagAt(k.born) == k.lb.tag)
    && (s.cells[k.q.cell].lb.IsSet() && s.cells[k.q.cell].lb.head in s.g.birth ==>
          var b := s.g.birth[s.cells[k.q.cell].lb.head]; b == k.born || k.next <= b)
  }

  ghost predicate HasHead(s: State, k: Look) { 0 < k.lb.head < |s.t.nodes| }

  /** A stable round has the right length and the first `off` bytes of the value. */
  ghost predicate Got(c: Config, s: State, k: Look, len: nat, off: nat)
    requires Base(c, s)
  {
    Stable(s, k) ==>
      len == |Seen(c, s, k)| == |k.out| && off <= len && k.out[..off] == Seen(c, s, k)[..off]
  }

  /** A stable round is at node `n`, which has index `hops` in the chain and starts at byte `at` of its stream. */
  ghost predicate At(c: Config, s: State, k: Look, at: nat, n: nat, hops: nat)
    requires Base(c, s)
  {
    Stable(s, k) ==>
      k.lb.head in s.g.view.chains
      && hops < |s.g.view.chains[k.lb.head]| && n == s.g.view.chains[k.lb.head][hops]
      && at == hops * s.t.unit
  }

  /** A stable round has read all of node `n`, which has index `hops`, and with it `off` bytes of the value. */
  ghost predicate Past(c: Config, s: State, k: Look, off: nat, n: nat, hops: nat)
    requires Base(c, s)
  {
    Stable(s, k) ==> s.t.unit <= 8 + off && At(c, s, k, 8 + off - s.t.unit, n, hops)
  }

  ghost predicate RInv(c: Config, s: State, r: RPc)
    requires Base(c, s)
  {
    match r
    case RIdle => true
    case Probe(key, i, acc) => |key| == c.keyLen && i < |c.probe(key)| && |acc| < c.keyLen
    case ProbeLb(key, i, acc) => |key| == c.keyLen && i < |c.probe(key)|
    case LoadLb(q, _) => q.cell < |s.cells| && |q.key| == c.keyLen
    case Tag1(k) => Track(c, s, k)
    case Len1(k) => Track(c, s, k) && HasHead(s, k)
    case Sum1(k, len, acc) =>
      && Track(c, s, k) && HasHead(s, k) && |acc| < First(s.t.unit, len)
      && (Stable(s, k) ==> len == |Seen(c, s, k)|)
    case Crc1(k, len, acc) =>
      Track(c, s, k) && HasHead(s, k) && (Stable(s, k) ==> len == |Seen(c, s, k)|)
    case Tag2(k) => Track(c, s, k) && Got(c, s, k, |k.out|, 0)
    case Len2(k) => Track(c, s, k) && HasHead(s, k) && Got(c, s, k, |k.out|, 0)
    case Copy2(k, len, j) =>
      Track(c, s, k) && HasHead(s, k) && j < Room2(s.t.unit, k, len) && Got(c, s, k, len, j)
    case Sum2(k, len, acc) =>
      && Track(c, s, k) && HasHead(s, k) && |acc| < First(s.t.unit, len)
      && Got(c, s, k, len, Room2(s.t.unit, k, len))
    case Crc2(k, len, acc) =>
      Track(c, s, k) && HasHead(s, k) && Got(c, s, k, len, Room2(s.t.unit, k, len))
    case Next2(k, len, off) =>
      && Track(c, s, k) && HasHead(s, k) && Got(c, s, k, len, off)
      && off == First(s.t.unit, len) < |k.out|
    case NodeTag(k, len, off, n, hops) =>
      && Track(c, s, k) && HasHead(s, k) && 0 < n < |s.t.nodes| && off < len && off < |k.out|
      && Got(c, s, k, len, off) && At(c, s, k, 8 + off, n, hops)
    case NodeCopy(k, len, off, n, hops, j) =>
      && Track(c, s, k) && HasHead(s, k) && 0 < n < |s.t.nodes| && off < len && off < |k.out|
      && j < Share(s.t.unit, k, len, off)
      && Got(c, s, k, len, off + j) && At(c, s, k, 8 + off, n, hops)
    case NodeNext(k, len, off, n, hops) =>
      && Track(c, s, k) && HasHead(s, k) && 0 < n < |s.t.nodes| && off < |k.out|
      && Got(c, s, k, len, off) && Past(c, s, k, off, n, hops)
    case CheckKey(k, acc) =>
      && Track(c, s, k) && HasHead(s, k) && |acc| < c.keyLen && Got(c, s, k, |k.out|, |k.out|)
      && (Stable(s, k) ==> acc == s.cells[k.q.cell].key[..|acc|])
    case Recheck(k, ret) =>
      && Track(c, s, k)
      && (ret ==> HasHead(s, k) && Got(c, s, k, |k.out|, |k.out|))
      && (ret && Stable(s, k) ==> s.cells[k.q.cell].key == k.q.key)
    case Done(_, _, _) => true
  }

  // ---------------------------------------------------------------------------
  // Steps of the reader

  /** What a used cell offers to a stable round. */
  lemma StableCell(c: Config, s: State, k: Look)
    requires Base(c, s) && Stable(s, k)
    ensures CellOk(c, s, k.q.cell)
    ensures var l := s.g.view.chains[k.lb.head];
            && l != [] && l[0] == k.lb.head && InRange(s.t.nodes, l)
            && |Stream(s.t.nodes, l)| == |l| * s.t.unit
            && Seen(c, s, k) == Value(s.t, l)
            && 8 + |Seen(c, s, k)| <= |l| * s.t.unit
            && |s.t.nodes[k.lb.head].payload| == s.t.unit && BufLen(s.t.nodes[k.lb.head]) == |Seen(c, s, k)|
  {
    assert CellOk(c, s, k.q.cell);
    assert LinkOk(s.t, s.g.view, k.lb.head, 0);
    ChainStream(s.t, s.g.view.chains[k.lb.head]);
  }

  /** Byte `i` of the value lies in node `hops` of the chain at `j`. */
  lemma SeenAt(c: Config, s: State, k: Look, hops: nat, j: nat, i: nat)
    requires Base(c, s) && Stable(s, k) && k.lb.head in s.g.view.chains
    requires hops < |s.g.view.chains[k.lb.head]| && j < s.t.unit && 8 + i == hops * s.t.unit + j
    requires i < |Seen(c, s, k)|
    ensures var n := s.g.view.chains[k.lb.head][hops];
            0 < n < |s.t.nodes| && j < |s.t.nodes[n].payload| && s.t.nodes[n].payload[j] == Seen(c, s, k)[i]
  {
    StableCell(c, s, k);
    var l := s.g.view.chains[k.lb.head];
    forall m | 0 <= m < |l| ensures |s.t.nodes[l[m]].payload| == s.t.unit {
      assert NodeOk(s.t, s.t.nodes[l[m]]);
    }
    StreamAt(s.t.nodes, l, s.t.unit, hops, j);
  }

  /** A tag that is drawn and not yet published is younger than every published one. */
  ghost predicate Youngest(s: State) {
    Drawn(s.pc) ==>
      1 <= s.g.draws && forall h :: h in s.g.own && h in s.g.birth ==> s.g.birth[h] < s.g.draws
  }

  lemma DrawnIsYoungest(c: Config, s: State)
    requires Inv(c, s)
    ensures Youngest(s)
  {
    if Drawn(s.pc) { assert AllocOk(c, s, s.pc.a); }
  }

  lemma LoadOk(c: Config, s: State, q: Quest, out: seq<Byte>)
    requires Base(c, s) && Youngest(s) && q.cell < |s.cells| && |q.key| == c.keyLen
    ensures var lb := s.cells[q.cell].lb;
            Track(c, s, Look(q, lb, BornAt(s, lb), NextDraw(s), out))
  {
    if s.cells[q.cell].lb.IsSet() { assert CellOk(c, s, q.cell); }
  }

  /** One more byte of the value. */
  lemma GotByte(c: Config, s: State, k: Look, len: nat, off: nat, b: Byte)
    requires Base(c, s) && Got(c, s, k, len, off) && off < len && off < |k.out|
    requires Stable(s, k) ==> b == Seen(c, s, k)[off]
    ensures Got(c, s, k.(out := k.out[off := b]), len, off + 1)
  {
    var k' := k.(out := k.out[off := b]);
    if Stable(s, k') {
      assert Stable(s, k) && Seen(c, s, k') == Seen(c, s, k);
      var v := Seen(c, s, k);
      assert k'.out[..off + 1] == k.out[..off] + [b];
      assert v[..off + 1] == v[..off] + [v[off]];
    }
  }

  /** The string is resized to the length of the value; none of it has been read yet. */
  lemma Resized(c: Config, s: State, k: Look, len: nat)
    requires Base(c, s) && (Stable(s, k) ==> len == |Seen(c, s, k)|)
    ensures var k' := k.(out := Resize(k.out, len)); Got(c, s, k', len, 0)
  {
    var k' := k.(out := Resize(k.out, len));
    if Stable(s, k') {
      assert Stable(s, k) && Seen(c, s, k') == Seen(c, s, k);
    }
  }

  lemma LenOk(c: Config, s: State, k: Look)
    requires Base(c, s) && HasHead(s, k)
    ensures |s.t.nodes[k.lb.head].payload| == s.t.unit
    ensures Stable(s, k) ==> BufLen(s.t.nodes[k.lb.head]) == |Seen(c, s, k)|
  {
    assert NodeOk(s.t, s.t.nodes[k.lb.head]);
    if Stable(s, k) { StableCell(c, s, k); }
  }

  lemma Copy2Ok(c: Config, s: State, k: Look, len: nat, j: nat)
    requires Base(c, s) && HasHead(s, k) && j < Room2(s.t.unit, k, len) && Got(c, s, k, len, j)
    ensures |s.t.nodes[k.lb.head].payload| == s.t.unit
    ensures Got(c, s, k.(out := k.out[j := s.t.nodes[k.lb.head].payload[8 + j]]), len, j + 1)
  {
    assert NodeOk(s.t, s.t.nodes[k.lb.head]);
    if Stable(s, k) {
      StableCell(c, s, k);
      SeenAt(c, s, k, 0, 8 + j, j);
    }
    GotByte(c, s, k, len, j, s.t.nodes[k.lb.head].payload[8 + j]);
  }

  lemma NodeCopyOk(c: Config, s: State, k: Look, len: nat, off: nat, n: nat, hops: nat, j: nat)
    requires Base(c, s) && 0 < n < |s.t.nodes| && off < len && off < |k.out|
    requires j < Share(s.t.unit, k, len, off) && Got(c, s, k, len, off + j) && At(c, s, k, 8 + off, n, hops)
    ensures |s.t.nodes[n].payload| == s.t.unit
    ensures Got(c, s, k.(out := k.out[off + j := s.t.nodes[n].payload[j]]), len, off + (j + 1))
  {
    assert NodeOk(s.t, s.t.nodes[n]);
    if Stable(s, k) {
      SeenAt(c, s, k, hops, j, off + j);
    }
    GotByte(c, s, k, len, off + j, s.t.nodes[n].payload[j]);
  }

  /** From node to node: `from` is at index `hops - 1`, and `8 + off` bytes have been passed. */
  lemma WalkOk(c: Config, s: State, k: Look, len: nat, off: nat, from: nat, hops: nat)
    requires Base(c, s) && Track(c, s, k) && HasHead(s, k) && 0 < from < |s.t.nodes| && off < |k.out| && hops >= 1
    requires Got(c, s, k, len, off) && Past(c, s, k, off, from, hops - 1)
    ensures RInv(c, s, Walk(c, k, len, off, s.t.nodes[from].next, hops))
  {
    assert NodeOk(s.t, s.t.nodes[from]);
    var n := s.t.nodes[from].next;
    if off < len {
      if Stable(s, k) {
        StableCell(c, s, k);
        var l := s.g.view.chains[k.lb.head];
        assert 8 + off == hops * s.t.unit by {
          assert hops * s.t.unit == (hops - 1) * s.t.unit + s.t.unit;
        }
        Shorter(hops, |l|, s.t.unit);
        assert LinkOk(s.t, s.g.view, k.lb.head, hops - 1);
      }
    } else {
      ReadDone(c, s, k, len, off);
    }
  }

  /** A string that holds all bytes is the value. */
  lemma ReadDone(c: Config, s: State, k: Look, len: nat, off: nat)
    requires Base(c, s) && Track(c, s, k) && HasHead(s, k) && Got(c, s, k, len, off) && (off >= len || off >= |k.out|)
    ensures RInv(c, s, AfterRead(c, k))
  {
    assert Got(c, s, k, |k.out|, |k.out|);
  }

  /** After some bytes of the first node: the next byte, or the checksum. */
  lemma AfterCopy2Ok(c: Config, s: State, k: Look, len: nat, j: nat)
    requires Base(c, s) && Track(c, s, k) && HasHead(s, k)
    requires j <= Room2(s.t.unit, k, len) && Got(c, s, k, len, j)
    ensures RInv(c, s, AfterCopy2(s.t.unit, k, len, j))
  {
    if j == Room2(s.t.unit, k, len) { assert Got(c, s, k, len, Room2(s.t.unit, k, len)); }
  }

  lemma AfterNodeCopyOk(c: Config, s: State, k: Look, len: nat, off: nat, n: nat, hops: nat, j: nat)
    requires Base(c, s) && Track(c, s, k) && HasHead(s, k) && 0 < n < |s.t.nodes| && off < len && off < |k.out|
    requires j <= Share(s.t.unit, k, len, off) && Got(c, s, k, len, off + j) && At(c, s, k, 8 + off, n, hops)
    requires Stable(s, k) ==> s.t.unit <= 8 + off
    ensures RInv(c, s, AfterNodeCopy(c, s.t.unit, k, len, off, n, hops, j))
  {
    if j < Share(s.t.unit, k, len, off) {
    } else if off + j >= |k.out| {
      ReadDone(c, s, k, len, off + j);
    } else {
      assert Past(c, s, k, off + j, n, hops);
    }
  }

  predicate IsRead1(r: RPc) { r.LoadLb? || r.Tag1? || r.Len1? || r.Sum1? || r.Crc1? }
  predicate IsRead2(r: RPc) { r.Tag2? || r.Len2? || r.Copy2? || r.Sum2? || r.Crc2? }
  predicate IsCopy2(r: RPc) { r.Tag2? || r.Len2? || r.Copy2? }
  predicate IsLaterNode(r: RPc) { r.Next2? || r.NodeTag? || r.NodeCopy? || r.NodeNext? }

  lemma Read1Ok(c: Config, s: State, r: RPc, r': RPc)
    requires Base(c, s) && Youngest(s) && RInv(c, s, r) && RInBounds(c, s, r) && IsRead1(r)
    requires r' == RAdvance(c, s, r)
    ensures RInv(c, s, r')
  {
    match r
    case LoadLb(q, out) => LoadOk(c, s, q, out);
    case Tag1(k) =>
    case Len1(k) => LenOk(c, s, k);
    case Sum1(k, len, acc) =>
    case Crc1(k, len, acc) => Resized(c, s, k, len);
  }

  lemma Len2Step(c: Config, s: State, k: Look)
    requires Base(c, s) && RInv(c, s, Len2(k)) && |s.t.nodes[k.lb.head].payload| >= 8
    ensures RInv(c, s, AfterCopy2(s.t.unit, k, BufLen(s.t.nodes[k.lb.head]), 0))
  {
    LenOk(c, s, k);
    AfterCopy2Ok(c, s, k, BufLen(s.t.nodes[k.lb.head]), 0);
  }

  lemma Crc2Step(c: Config, s: State, k: Look, len: nat, acc: seq<Byte>)
    requires Base(c, s) && RInv(c, s, Crc2(k, len, acc))
    ensures if Room2(s.t.unit, k, len) >= |k.out| then RInv(c, s, AfterRead(c, k))
            else RInv(c, s, Next2(k, len, Room2(s.t.unit, k, len)))
  {
    if Room2(s.t.unit, k, len) >= |k.out| { ReadDone(c, s, k, len, Room2(s.t.unit, k, len)); }
  }

  lemma Read2CopyOk(c: Config, s: State, r: RPc, r': RPc)
    requires Base(c, s) && RInv(c, s, r) && RInBounds(c, s, r) && IsCopy2(r)
    requires r' == RAdvance(c, s, r)
    ensures RInv(c, s, r')
  {
    match r
    case Tag2(k) =>
    case Len2(k) =>
      assert NodeOk(s.t, s.t.nodes[k.lb.head]);
      Len2Step(c, s, k);
    case Copy2(k, len, j) =>
      assert NodeOk(s.t, s.t.nodes[k.lb.head]);
      Copy2Step(c, s, k, len, j);
  }

  lemma Read2SumOk(c: Config, s: State, r: RPc, r': RPc)
    requires Base(c, s) && RInv(c, s, r) && RInBounds(c, s, r) && IsRead2(r) && !IsCopy2(r)
    requires r' == RAdvance(c, s, r)
    ensures RInv(c, s, r')
  {
    match r
    case Sum2(k, len, acc) =>
    case Crc2(k, len, acc) => Crc2Step(c, s, k, len, acc);
  }

  lemma NodeCopyStep(c: Config, s: State, k: Look, len: nat, off: nat, n: nat, hops: nat, j: nat)
    requires Base(c, s) && RInv(c, s, NodeCopy(k, len, off, n, hops, j))
    requires |s.t.nodes[n].payload| == s.t.unit
    ensures var k' := k.(out := k.out[off + j := s.t.nodes[n].payload[j]]);
            RInv(c, s, AfterNodeCopy(c, s.t.unit, k', len, off, n, hops, j + 1))
  {
    NodeCopyOk(c, s, k, len, off, n, hops, j);
    NotFirst(c, s, k, off, n, hops);
    var k' := k.(out := k.out[off + j := s.t.nodes[n].payload[j]]);
    assert At(c, s, k', 8 + off, n, hops);
    AfterNodeCopyOk(c, s, k', len, off, n, hops, j + 1);
  }

  lemma Copy2Step(c: Config, s: State, k: Look, len: nat, j: nat)
    requires Base(c, s) && RInv(c, s, Copy2(k, len, j)) && |s.t.nodes[k.lb.head].payload| == s.t.unit
    ensures var k' := k.(out := k.out[j := s.t.nodes[k.lb.head].payload[8 + j]]);
            RInv(c, s, AfterCopy2(s.t.unit, k', len, j + 1))
  {
    Copy2Ok(c, s, k, len, j);
    AfterCopy2Ok(c, s, k.(out := k.out[j := s.t.nodes[k.lb.head].payload[8 + j]]), len, j + 1);
  }

  lemma Next2Step(c: Config, s: State, k: Look, len: nat, off: nat)
    requires Base(c, s) && RInv(c, s, Next2(k, len, off))
    ensures RInv(c, s, Walk(c, k, len, off, s.t.nodes[k.lb.head].next, 1))
  {
    if off < len {
      assert Past(c, s, k, off, k.lb.head, 0) by { if Stable(s, k) { StableCell(c, s, k); } }
      WalkOk(c, s, k, len, off, k.lb.head, 1);
    } else {
      ReadDone(c, s, k, len, off);
    }
  }

  lemma NodeTagStep(c: Config, s: State, k: Look, len: nat, off: nat, n: nat, hops: nat)
    requires Base(c, s) && RInv(c, s, NodeTag(k, len, off, n, hops))
    ensures RInv(c, s, AfterNodeCopy(c, s.t.unit, k, len, off, n, hops, 0))
  {
    NotFirst(c, s, k, off, n, hops);
    AfterNodeCopyOk(c, s, k, len, off, n, hops, 0);
  }

  lemma NodeTagOkStep(c: Config, s: State, r: RPc, r': RPc)
    requires Base(c, s) && RInv(c, s, r) && RInBounds(c, s, r) && (r.Next2? || r.NodeTag?)
    requires r' == RAdvance(c, s, r)
    ensures RInv(c, s, r')
  {
    match r
    case Next2(k, len, off) => Next2Step(c, s, k, len, off);
    case NodeTag(k, len, off, n, hops) => NodeTagStep(c, s, k, len, off, n, hops);
  }

  lemma NodeCopyOkStep(c: Config, s: State, r: RPc, r': RPc)
    requires Base(c, s) && RInv(c, s, r) && RInBounds(c, s, r) && r.NodeCopy?
    requires r' == RAdvance(c, s, r)
    ensures RInv(c, s, r')
  {
    assert NodeOk(s.t, s.t.nodes[r.n]);
    NodeCopyStep(c, s, r.k, r.len, r.off, r.n, r.hops, r.j);
  }

  lemma NodeNextOkStep(c: Config, s: State, r: RPc, r': RPc)
    requires Base(c, s) && RInv(c, s, r) && RInBounds(c, s, r) && r.NodeNext?
    requires r' == RAdvance(c, s, r)
    ensures RInv(c, s, r')
  {
    WalkOk(c, s, r.k, r.len, r.off, r.n, r.hops + 1);
  }

  lemma NodeOkStep(c: Config, s: State, r: RPc, r': RPc)
    requires Base(c, s) && RInv(c, s, r) && RInBounds(c, s, r) && IsLaterNode(r)
    requires r' == RAdvance(c, s, r)
    ensures RInv(c, s, r')
  {
    if r.NodeCopy? {
      NodeCopyOkStep(c, s, r, r');
    } else if r.NodeNext? {
      NodeNextOkStep(c, s, r, r');
    } else {
      NodeTagOkStep(c, s, r, r');
    }
  }

  /** The nodes after the first one start at a multiple of the node size. */
  lemma NotFirst(c: Config, s: State, k: Look, off: nat, n: nat, hops: nat)
    requires Base(c, s) && At(c, s, k, 8 + off, n, hops)
    ensures Stable(s, k) ==> s.t.unit <= 8 + off
  {
    if Stable(s, k) && hops >= 1 { Scale(hops, s.t.unit); }
  }

  /** Every load keeps the reader's invariant. */
  lemma RAdvanceOk(c: Config, s: State, r: RPc, r': RPc)
    requires Base(c, s) && Youngest(s) && RInv(c, s, r) && RInBounds(c, s, r)
    requires r' == RAdvance(c, s, r)
    ensures RInv(c, s, r')
  {
    if IsRead1(r) {
      Read1Ok(c, s, r, r');
    } else if IsCopy2(r) {
      Read2CopyOk(c, s, r, r');
    } else if IsRead2(r) {
      Read2SumOk(c, s, r, r');
    } else if IsLaterNode(r) {
      NodeOkStep(c, s, r, r');
    } else if r.CheckKey? {
      CheckKeyOk(c, s, r.k, r.acc);
    }
  }

  lemma CheckKeyOk(c: Config, s: State, k: Look, acc: seq<Byte>)
    requires Base(c, s) && RInv(c, s, CheckKey(k, acc)) && RInBounds(c, s, CheckKey(k, acc))
    ensures RInv(c, s, RAdvance(c, s, CheckKey(k, acc)))
  {
    var key := s.cells[k.q.cell].key;
    var acc' := acc + [key[|acc|]];
    if Stable(s, k) {
      assert key[..|acc'|] == key[..|acc|] + [key[|acc|]];
      assert |acc'| == c.keyLen ==> key[..|acc'|] == key;
    }
  }

  /** Every load that the reader can reach lies inside the tables. */
  lemma RInvInBounds(c: Config, s: State, r: RPc)
    requires Base(c, s) && RInv(c, s, r)
    ensures RInBounds(c, s, r)
  {
  }

  // ---------------------------------------------------------------------------
  // Interference

  /** What was stable stays the same, and what was not does not become stable. */
  lemma StableBack(c: Config, s: State, s': State, k: Look)
    requires Base(c, s) && Base(c, s') && Calm(s, s') && Track(c, s, k)
    ensures Track(c, s', k)
    ensures Stable(s', k) ==>
              && Stable(s, k) && Seen(c, s', k) == Seen(c, s, k)
              && s'.cells[k.q.cell] == s.cells[k.q.cell]
              && k.lb.head in s.g.view.chains && k.lb.head in s'.g.view.chains
              && s'.g.view.chains[k.lb.head] == s.g.view.chains[k.lb.head]
  {
    var i := k.q.cell;
    if s'.cells[i].lb.IsSet() {
      assert Kept(s, s', i) || !Kept(s, s', i);
      if Kept(s, s', i) && Stable(s', k) {
        StableCell(c, s, k);
        ReadableFrame(c.crc, s.t, s'.t, s.g.view.chains[k.lb.head]);
      }
    }
  }

  /** The reader's invariant survives every step of the writer. */
  lemma CalmKeepsReader(c: Config, s: State, s': State, r: RPc)
    requires Base(c, s) && Base(c, s') && Calm(s, s') && RInv(c, s, r)
    ensures RInv(c, s', r)
  {
    match r
    case RIdle =>
    case Probe(_, _, _) =>
    case ProbeLb(_, _, _) =>
    case LoadLb(_, _) =>
    case Done(_, _, _) =>
    case _ => StableBack(c, s, s', r.k);
  }

  // ---------------------------------------------------------------------------
  // Termination

  datatype Rank = Rank(round: nat, stage: nat, left: nat, turn: nat, bytes: nat)

  predicate Below(a: Rank, b: Rank) {
    || a.round < b.round
    || (a.round == b.round && a.stage < b.stage)
    || (a.round == b.round && a.stage == b.stage && a.left < b.left)
    || (a.round == b.round && a.stage == b.stage && a.left == b.left && a.turn < b.turn)
    || (a.round == b.round && a.stage == b.stage && a.left == b.left && a.turn == b.turn && a.bytes < b.bytes)
  }

  function Minus(a: nat, b: nat): nat { if a <= b then 0 else a - b }

  /** How much is left to do: rounds of DoRead, then stages of a round, then bytes. */
  function RankOf(c: Config, unit: nat, r: RPc): Rank {
    match r
    case RIdle => Rank(0, 0, 0, 0, 0)
    case Done(_, _, _) => Rank(0, 0, 0, 0, 0)
    case Probe(key, i, acc) => Rank(READ_TRIES + 2, Minus(|c.probe(key)|, i), Minus(c.keyLen, |acc|), 0, 0)
    case ProbeLb(key, i, acc) => Rank(READ_TRIES + 2, Minus(|c.probe(key)|, i), 0, 0, 0)
    case LoadLb(q, _) => Rank(1 + Minus(READ_TRIES, q.tries), 13, 0, 0, 0)
    case Tag1(k) => Rank(1 + Minus(READ_TRIES, k.q.tries), 12, 0, 0, 0)
    case Len1(k) => Rank(1 + Minus(READ_TRIES, k.q.tries), 11, 0, 0, 0)
    case Sum1(k, len, acc) => Rank(1 + Minus(READ_TRIES, k.q.tries), 10, Minus(len, |acc|), 0, 0)
    case Crc1(k, _, _) => Rank(1 + Minus(READ_TRIES, k.q.tries), 9, 0, 0, 0)
    case Tag2(k) => Rank(1 + Minus(READ_TRIES, k.q.tries), 8, 0, 0, 0)
    case Len2(k) => Rank(1 + Minus(READ_TRIES, k.q.tries), 7, 0, 0, 0)
    case Copy2(k, len, j) => Rank(1 + Minus(READ_TRIES, k.q.tries), 6, Minus(len, j), 0, 0)
    case Sum2(k, len, acc) => Rank(1 + Minus(READ_TRIES, k.q.tries), 5, Minus(len, |acc|), 0, 0)
    case Crc2(k, _, _) => Rank(1 + Minus(READ_TRIES, k.q.tries), 4, 0, 0, 0)
    case Next2(k, _, _) => Rank(1 + Minus(READ_TRIES, k.q.tries), 3, 0, 0, 0)
    case NodeTag(k, len, off, _, _) => Rank(1 + Minus(READ_TRIES, k.q.tries), 2, Minus(len, off), 1, 0)
    case NodeCopy(k, len, off, _, _, j) => Rank(1 + Minus(READ_TRIES, k.q.tries), 2, Minus(len, off), 0, Minus(unit, j))
    case NodeNext(k, len, off, _, _) => Rank(1 + Minus(READ_TRIES, k.q.tries), 2, Minus(len, off), 2, 0)
    case CheckKey(k, acc) => Rank(1 + Minus(READ_TRIES, k.q.tries), 1, Minus(c.keyLen, |acc|), 0, 0)
    case Recheck(k, _) => Rank(1 + Minus(READ_TRIES, k.q.tries), 0, 0, 0, 0)
  }

  lemma FirstReadTerminates(c: Config, s: State, r: RPc, r': RPc)
    requires RInBounds(c, s, r) && r' == RAdvance(c, s, r) && IsRead1(r)
    ensures Below(RankOf(c, s.t.unit, r'), RankOf(c, s.t.unit, r))
  {
  }

  lemma SecondReadTerminates(c: Config, s: State, r: RPc, r': RPc)
    requires RInBounds(c, s, r) && r' == RAdvance(c, s, r) && IsRead2(r)
    ensures Below(RankOf(c, s.t.unit, r'), RankOf(c, s.t.unit, r))
  {
  }

  lemma NodesTerminate(c: Config, s: State, r: RPc, r': RPc)
    requires RInBounds(c, s, r) && r' == RAdvance(c, s, r) && IsLaterNode(r)
    ensures Below(RankOf(c, s.t.unit, r'), RankOf(c, s.t.unit, r))
  {
    if r.NodeCopy? {
      NodeCopyTerminates(c, s, r, r');
    }
  }

  lemma NodeCopyTerminates(c: Config, s: State, r: RPc, r': RPc)
    requires RInBounds(c, s, r) && r' == RAdvance(c, s, r) && r.NodeCopy?
    ensures Below(RankOf(c, s.t.unit, r'), RankOf(c, s.t.unit, r))
  {
  }

  /**
   * Every load brings the reader nearer to its end, whatever the writer does between two loads:
   * the rank depends on the reader's own locals only.
   */
  lemma ReaderTerminates(c: Config, s: State, r: RPc, r': RPc)
    requires RInBounds(c, s, r) && r' == RAdvance(c, s, r) && !r.RIdle? && !r.Done?
    ensures Below(RankOf(c, s.t.unit, r'), RankOf(c, s.t.unit, r))
  {
    if IsRead1(r) {
      FirstReadTerminates(c, s, r, r');
    } else if IsRead2(r) {
      SecondReadTerminates(c, s, r, r');
    } else if IsLaterNode(r) {
      NodesTerminate(c, s, r, r');
    }
  }
}
