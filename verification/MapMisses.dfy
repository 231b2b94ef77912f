/**
 * When a Find that returns false is right: a key that is in the map during the whole call is missed
 * only if every round is overtaken by the writer, if the handle's tag is drawn again, or if the search
 * ended at a cell of another key.
 */
module MapMisses {
  import opened Bytes
  import opened Paths
  import opened LinkRep
  import opened Cells
  import opened Tags
  import opened MapWriter
  import opened MapWriterProof
  import opened MapReader
  import opened MapReaderProof
  import opened MapRuns
  import opened MapCalls

  // ---------------------------------------------------------------------------
  // A stable round never fails to read

  /** A stable round sums bytes of the value. */
  ghost predicate Summed(c: Config, s: State, k: Look, acc: seq<Byte>)
    requires Base(c, s)
  {
    Stable(s, k) ==> |acc| <= |Seen(c, s, k)| && acc == Seen(c, s, k)[..|acc|]
  }

  /** All of its first node's. */
  ghost predicate AllSummed(c: Config, s: State, k: Look, acc: seq<Byte>)
    requires Base(c, s)
  {
    Summed(c, s, k, acc) && (Stable(s, k) ==> |acc| == First(s.t.unit, |Seen(c, s, k)|))
  }

  ghost predicate Fine(c: Config, s: State, r: RPc)
    requires Base(c, s)
  {
    match r
    case Sum1(k, _, acc) => Summed(c, s, k, acc)
    case Crc1(k, _, acc) => AllSummed(c, s, k, acc)
    case Sum2(k, _, acc) => Summed(c, s, k, acc)
    case Crc2(k, _, acc) => AllSummed(c, s, k, acc)
    case Recheck(k, ret) => ret || !Stable(s, k)
    case _ => true
  }

  /** The tag of a stable round's first node matches, and so does its checksum. */
  lemma StableHead(c: Config, s: State, k: Look, acc: seq<Byte>)
    requires Base(c, s) && Stable(s, k)
    ensures 0 < k.lb.head < |s.t.nodes| && s.t.nodes[k.lb.head].tag == WithFlag(k.lb.tag)
    ensures AllSummed(c, s, k, acc) ==>
              |s.t.nodes[k.lb.head].payload| >= 8 && BufCrc(s.t.nodes[k.lb.head]) == c.crc(acc) % U32
  {
    StableCell(c, s, k);
    if AllSummed(c, s, k, acc) {
      var node := s.t.nodes[k.lb.head];
      StableFirst(c, s, k);
      assert acc == FirstPart(node);
    }
  }

  /** The data of its first node is the beginning of the value. */
  lemma StableFirst(c: Config, s: State, k: Look)
    requires Base(c, s) && Stable(s, k)
    ensures 0 < k.lb.head < |s.t.nodes| && |s.t.nodes[k.lb.head].payload| == s.t.unit
    ensures var v := Seen(c, s, k);
            FirstPart(s.t.nodes[k.lb.head]) == v[..First(s.t.unit, |v|)]
  {
    StableCell(c, s, k);
    var node, v := s.t.nodes[k.lb.head], Seen(c, s, k);
    forall i | 0 <= i < First(s.t.unit, |v|) ensures FirstPart(node)[i] == v[i] {
      SeenAt(c, s, k, 0, 8 + i, i);
    }
  }

  /** One more byte of the first node. */
  lemma SummedByte(c: Config, s: State, k: Look, acc: seq<Byte>, b: Byte)
    requires Base(c, s) && Summed(c, s, k, acc)
    requires Stable(s, k) ==>
               && |acc| < First(s.t.unit, |Seen(c, s, k)|)
               && 0 < k.lb.head < |s.t.nodes| && |s.t.nodes[k.lb.head].payload| == s.t.unit
               && b == s.t.nodes[k.lb.head].payload[8 + |acc|]
    ensures Summed(c, s, k, acc + [b])
  {
    if Stable(s, k) {
      StableCell(c, s, k);
      SeenAt(c, s, k, 0, 8 + |acc|, |acc|);
      var v := Seen(c, s, k);
      assert v[..|acc| + 1] == v[..|acc|] + [v[|acc|]];
    }
  }

  lemma SumFine(c: Config, s: State, r: RPc, r': RPc)
    requires Base(c, s) && RInv(c, s, r) && RInBounds(c, s, r) && Fine(c, s, r) && r' == RAdvance(c, s, r)
    requires r.Sum1? || r.Sum2?
    ensures Fine(c, s, r')
  {
    LenOk(c, s, r.k);
    SummedByte(c, s, r.k, r.acc, s.t.nodes[r.k.lb.head].payload[8 + |r.acc|]);
  }

  lemma StartFine(c: Config, s: State, r: RPc, r': RPc)
    requires Base(c, s) && RInv(c, s, r) && RInBounds(c, s, r) && Fine(c, s, r) && r' == RAdvance(c, s, r)
    requires r.Tag1? || r.Tag2? || r.Len1? || r.Len2? || r.Copy2?
    ensures Fine(c, s, r')
  {
    LenOkIf(c, s, r);
    if Stable(s, r.k) { StableHead(c, s, r.k, []); }
  }

  lemma LenOkIf(c: Config, s: State, r: RPc)
    requires Base(c, s) && RInv(c, s, r)
    ensures (r.Len1? || r.Len2? || r.Copy2?) ==>
              && |s.t.nodes[r.k.lb.head].payload| == s.t.unit
              && (Stable(s, r.k) ==> BufLen(s.t.nodes[r.k.lb.head]) == |Seen(c, s, r.k)|)
  {
    if r.Len1? || r.Len2? || r.Copy2? { LenOk(c, s, r.k); }
  }

  lemma CrcFine(c: Config, s: State, r: RPc, r': RPc)
    requires Base(c, s) && RInv(c, s, r) && RInBounds(c, s, r) && Fine(c, s, r) && r' == RAdvance(c, s, r)
    requires r.Crc1? || r.Crc2?
    ensures Fine(c, s, r')
  {
    if Stable(s, r.k) { StableHead(c, s, r.k, r.acc); }
  }

  lemma Next2Fine(c: Config, s: State, k: Look, len: nat, off: nat)
    requires Base(c, s) && RInv(c, s, Next2(k, len, off))
    ensures Fine(c, s, Walk(c, k, len, off, s.t.nodes[k.lb.head].next, 1))
  {
    if Stable(s, k) {
      StableCell(c, s, k);
      StableNext(c, s, k, off, 1);
    }
  }

  lemma NodeNextFine(c: Config, s: State, k: Look, len: nat, off: nat, n: nat, hops: nat)
    requires Base(c, s) && RInv(c, s, NodeNext(k, len, off, n, hops))
    ensures Fine(c, s, Walk(c, k, len, off, s.t.nodes[n].next, hops + 1))
  {
    if Stable(s, k) {
      assert (hops + 1) * s.t.unit == hops * s.t.unit + s.t.unit;
      StableNext(c, s, k, off, hops + 1);
    }
  }

  lemma NodeTagFine(c: Config, s: State, k: Look, len: nat, off: nat, n: nat, hops: nat)
    requires Base(c, s) && RInv(c, s, NodeTag(k, len, off, n, hops))
    ensures Stable(s, k) ==> s.t.nodes[n].tag == k.lb.tag
  {
    if Stable(s, k) {
      assert CellOk(c, s, k.q.cell);
      LaterTag(s, k.lb, off, n, hops);
    }
  }

  lemma LaterTag(s: State, lb: Handle, off: nat, n: nat, hops: nat)
    requires Rep(s.t, s.g.view) && lb.head in s.g.view.chains && hops < |s.g.view.chains[lb.head]|
    requires n == s.g.view.chains[lb.head][hops] && 8 + off == hops * s.t.unit
    requires 0 < lb.head < |s.t.nodes| && s.t.nodes[lb.head].tag == lb.tag + HEAD_FLAG
    ensures n < |s.t.nodes| && s.t.nodes[n].tag == lb.tag
  {
    assert LinkOk(s.t, s.g.view, lb.head, hops);
    assert hops > 0;
  }

  lemma NodeFine(c: Config, s: State, r: RPc, r': RPc)
    requires Base(c, s) && RInv(c, s, r) && RInBounds(c, s, r) && r' == RAdvance(c, s, r)
    requires r.Next2? || r.NodeTag? || r.NodeNext?
    ensures Fine(c, s, r')
  {
    match r
    case Next2(k, len, off) => Next2Fine(c, s, k, len, off);
    case NodeTag(k, len, off, n, hops) => NodeTagFine(c, s, k, len, off, n, hops);
    case NodeNext(k, len, off, n, hops) => NodeNextFine(c, s, k, len, off, n, hops);
  }

  /** A stable round never fails to read: every load keeps that. */
  lemma FineStep(c: Config, s: State, r: RPc, r': RPc)
    requires Base(c, s) && RInv(c, s, r) && RInBounds(c, s, r) && Fine(c, s, r) && r' == RAdvance(c, s, r)
    ensures Fine(c, s, r')
  {
    if r.Sum1? || r.Sum2? {
      SumFine(c, s, r, r');
    } else if r.Tag1? || r.Tag2? || r.Len1? || r.Len2? || r.Copy2? {
      StartFine(c, s, r, r');
    } else if r.Crc1? || r.Crc2? {
      CrcFine(c, s, r, r');
    } else if r.Next2? || r.NodeTag? || r.NodeNext? {
      NodeFine(c, s, r, r');
    }
  }

  /** The writer does not disturb it. */
  lemma CalmKeepsFine(c: Config, s: State, s': State, r: RPc)
    requires Base(c, s) && Base(c, s') && Calm(s, s') && RInv(c, s, r) && Fine(c, s, r)
    ensures Fine(c, s', r)
  {
    if r.Sum1? || r.Crc1? || r.Sum2? || r.Crc2? || r.Recheck? { StableBack(c, s, s', r.k); }
  }

  /** A chain goes on while bytes are missing. */
  lemma StableNext(c: Config, s: State, k: Look, off: nat, hops: nat)
    requires Base(c, s) && Stable(s, k) && off < |Seen(c, s, k)| && hops >= 1 && 8 + off == hops * s.t.unit
    requires k.lb.head in s.g.view.chains && hops <= |s.g.view.chains[k.lb.head]|
    ensures 0 < s.g.view.chains[k.lb.head][hops - 1] < |s.t.nodes|
    ensures s.t.nodes[s.g.view.chains[k.lb.head][hops - 1]].next != 0
  {
    StableCell(c, s, k);
    var l := s.g.view.chains[k.lb.head];
    Shorter(hops, |l|, s.t.unit);
    assert LinkOk(s.t, s.g.view, k.lb.head, hops - 1) && LinkOk(s.t, s.g.view, k.lb.head, hops);
  }

  // ---------------------------------------------------------------------------
  // The search for a key that stays in the map

  /** Some probe from the `i`-th on is the key's cell. */
  ghost predicate Ahead(c: Config, s: State, key: Key, i: nat)
    requires key in s.g.slot
  {
    exists p :: i <= p < |c.probe(key)| && c.probe(key)[p] == s.g.slot[key]
  }

  /** The bytes that were loaded from the key's own cell are the key's. */
  ghost predicate Seeks(c: Config, s: State, r: RPc, key: Key)
    requires key in s.g.slot
  {
    match r
    case RIdle => false
    case Probe(k, i, acc) =>
      && k == key && Ahead(c, s, key, i)
      && (i < |c.probe(key)| && c.probe(key)[i] == s.g.slot[key] ==> |acc| <= |key| && acc == key[..|acc|])
    case ProbeLb(k, i, acc) =>
      && k == key && Ahead(c, s, key, i)
      && (i < |c.probe(key)| && c.probe(key)[i] == s.g.slot[key] ==> acc == key)
    case LoadLb(q, _) => q.key == key
    case CheckKey(k, acc) =>
      k.q.key == key && (k.q.cell == s.g.slot[key] ==> |acc| <= |key| && acc == key[..|acc|])
    case Done(_, _, _) => true
    case _ => r.k.q.key == key
  }

  /** How the search for a key that is in the map can fail with the next load. */
  ghost predicate Excused(c: Config, s: State, r: RPc, key: Key)
    requires key in s.g.slot
  {
    // the last of 64 rounds was overtaken, as all those before it
    || (r.Recheck? && r.k.q.tries >= 64 && r.k.q.cell < |s.cells| && s.cells[r.k.q.cell].lb != r.k.lb)
    || (r.Recheck? && Reissued(r.k, s.g.draws))
    // the search ended at a cell of another key, whose bytes were loaded while they changed
    || ((r.Recheck? || r.CheckKey?) && r.k.q.cell != s.g.slot[key])
  }

  /** The cell of a key that is in the map. */
  lemma KeyCell(c: Config, s: State, key: Key)
    requires Base(c, s) && key in s.g.now && |key| == c.keyLen
    ensures key in s.g.slot && s.g.slot[key] < |s.cells|
    ensures s.cells[s.g.slot[key]].lb.IsSet() && s.cells[s.g.slot[key]].key == key && Ahead(c, s, key, 0)
  {
    assert KeyOk(s.cells, s.g.slot, key);
    assert UsedOk(s.cells, c.probe, s.g.slot, s.g.slot[key]);
  }

  lemma NextSeeks(c: Config, s: State, key: Key, i: nat)
    requires key in s.g.slot && |key| == c.keyLen && Ahead(c, s, key, i)
    requires i < |c.probe(key)| && c.probe(key)[i] != s.g.slot[key]
    ensures Seeks(c, s, NextProbe(c, key, i + 1), key) && !NextProbe(c, key, i + 1).Done?
  {
    var p :| i <= p < |c.probe(key)| && c.probe(key)[p] == s.g.slot[key];
  }

  lemma ProbeStep(c: Config, s: State, r: RPc, key: Key)
    requires Base(c, s) && key in s.g.now && |key| == c.keyLen && RInBounds(c, s, r) && (r.Probe? || r.ProbeLb?)
    requires key in s.g.slot && Seeks(c, s, r, key)
    ensures var r' := RAdvance(c, s, r); Seeks(c, s, r', key) && !r'.Done?
  {
    KeyCell(c, s, key);
    var i := r.r;
    if r.Probe? {
      var cell := s.cells[c.probe(key)[i]];
      var acc := r.acc + [cell.key[|r.acc|]];
      assert r.acc == key[..|r.acc|] && cell.key == key ==> acc == key[..|acc|];
      assert key[..|key|] == key;
    } else if c.probe(key)[i] != s.g.slot[key] {
      NextSeeks(c, s, key, i);
    }
  }

  lemma CheckStep(c: Config, s: State, k: Look, acc: seq<Byte>, key: Key)
    requires Base(c, s) && key in s.g.now && |key| == c.keyLen && RInBounds(c, s, CheckKey(k, acc))
    requires key in s.g.slot && Seeks(c, s, CheckKey(k, acc), key)
    ensures var r' := RAdvance(c, s, CheckKey(k, acc));
            Seeks(c, s, r', key) && (r'.Done? ==> k.q.cell != s.g.slot[key])
  {
    KeyCell(c, s, key);
    var acc' := acc + [s.cells[k.q.cell].key[|acc|]];
    if k.q.cell == s.g.slot[key] {
      assert acc' == key[..|acc'|];
      assert key[..|key|] == key;
    }
  }

  /** An unsuccessful read at the key's cell was overtaken, or the tag was drawn again. */
  lemma RecheckStep(c: Config, s: State, k: Look, ret: bool, key: Key)
    requires Base(c, s) && key in s.g.now && |key| == c.keyLen
    requires RInv(c, s, Recheck(k, ret)) && Fine(c, s, Recheck(k, ret)) && RInBounds(c, s, Recheck(k, ret))
    requires key in s.g.slot && k.q.key == key
    ensures var r' := RAdvance(c, s, Recheck(k, ret));
            Seeks(c, s, r', key) && (r'.Done? && !r'.ok ==> Excused(c, s, Recheck(k, ret), key))
  {
    KeyCell(c, s, key);
    if s.cells[k.q.cell].lb == k.lb && !ret && k.q.cell == s.g.slot[key] {
      assert CellOk(c, s, k.q.cell);
      var b := s.g.birth[k.lb.head];
      assert b != k.born;
      assert k.next <= b <= s.g.draws && TagAt(b) == k.lb.tag;
    }
  }

  predicate IsBetween(r: RPc) {
    !r.RIdle? && !r.Probe? && !r.ProbeLb? && !r.CheckKey? && !r.Recheck? && !r.Done?
  }

  lemma BetweenStep(c: Config, s: State, r: RPc, key: Key)
    requires RInBounds(c, s, r) && IsBetween(r) && |key| == c.keyLen
    requires key in s.g.slot && Seeks(c, s, r, key)
    ensures var r' := RAdvance(c, s, r); Seeks(c, s, r', key) && !r'.Done?
  {
  }

  /** A load of the search. */
  lemma SeekStep(c: Config, s: State, r: RPc, key: Key)
    requires Base(c, s) && key in s.g.now && |key| == c.keyLen && !r.Done?
    requires RInv(c, s, r) && Fine(c, s, r) && RInBounds(c, s, r)
    requires key in s.g.slot && Seeks(c, s, r, key)
    ensures var r' := RAdvance(c, s, r);
            Seeks(c, s, r', key) && (r'.Done? && !r'.ok ==> Excused(c, s, r, key))
  {
    if r.Probe? || r.ProbeLb? {
      ProbeStep(c, s, r, key);
    } else if r.CheckKey? {
      CheckStep(c, s, r.k, r.acc, key);
    } else if r.Recheck? {
      RecheckStep(c, s, r.k, r.ret, key);
    } else {
      BetweenStep(c, s, r, key);
    }
  }

  // ---------------------------------------------------------------------------
  // Runs

  /** A key that stays in the map stays in its cell. */
  lemma StoreKeepsSlot(c: Config, s: State, s': State, junk: Byte, key: Key)
    requires Sane(c, s) && InBounds(c, s) && s' == Advance(c, s, junk) && key in s.g.slot && key in s'.g.slot
    ensures s'.g.slot[key] == s.g.slot[key]
  {
    if s.pc.Publish? {
      SaneInv(c, s);
      PublishKeepsSlot(c, s, s.pc.a, key);
    } else {
      OthersKeepSlot(c, s, s', junk, key);
    }
  }

  lemma OthersKeepSlot(c: Config, s: State, s': State, junk: Byte, key: Key)
    requires InBounds(c, s) && s' == Advance(c, s, junk) && !s.pc.Publish? && key in s.g.slot && key in s'.g.slot
    ensures s'.g.slot[key] == s.g.slot[key]
  {
    if Drawn(s.pc) {
      NewKeepsSlots(c, s, s', junk);
    } else if !s.pc.Clear? {
      FreeKeepsSlots(c, s, s', junk);
    }
  }

  lemma NewKeepsSlots(c: Config, s: State, s': State, junk: Byte)
    requires InBounds(c, s) && s' == Advance(c, s, junk) && Drawn(s.pc) && !s.pc.Publish?
    ensures s'.g.slot == s.g.slot
  {
    if s.pc.Take? || s.pc.TakeCount? || s.pc.ClearNext? || s.pc.SetTag? || s.pc.FlagHead? || s.pc.SetLen? {
      NodeKeepsSlots(c, s, s', junk);
    }
  }

  lemma NodeKeepsSlots(c: Config, s: State, s': State, junk: Byte)
    requires InBounds(c, s) && s' == Advance(c, s, junk)
    requires s.pc.Take? || s.pc.TakeCount? || s.pc.ClearNext? || s.pc.SetTag? || s.pc.FlagHead? || s.pc.SetLen?
    ensures s'.g.slot == s.g.slot
  {
  }

  lemma FreeKeepsSlots(c: Config, s: State, s': State, junk: Byte)
    requires InBounds(c, s) && s' == Advance(c, s, junk) && !Drawn(s.pc) && !s.pc.Clear?
    ensures s'.g.slot == s.g.slot
  {
    if s.pc.Untag? || s.pc.Relink? || s.pc.PushTop? || s.pc.CountFree? { DropKeepsSlots(c, s, s', junk); }
  }

  lemma DropKeepsSlots(c: Config, s: State, s': State, junk: Byte)
    requires InBounds(c, s) && s' == Advance(c, s, junk)
    requires s.pc.Untag? || s.pc.Relink? || s.pc.PushTop? || s.pc.CountFree?
    ensures s'.g.slot == s.g.slot
  {
  }

  lemma PublishKeepsSlot(c: Config, s: State, a: Alloc, key: Key)
    requires Base(c, s) && PcOk(c, s) && s.pc == Publish(a) && InBounds(c, s) && key in s.g.slot
    ensures key in DoPublish(s, a).g.slot && DoPublish(s, a).g.slot[key] == s.g.slot[key]
  {
    assert JobOk(c, s, a.job);
    if a.job.found { assert UsedOk(s.cells, c.probe, s.g.slot, a.job.cell); }
  }

  ghost predicate SearchOk(c: Config, s: State, r: RPc, key: Key) {
    && Base(c, s) && RInv(c, s, r) && Fine(c, s, r)
    && key in s.g.now && key in s.g.slot && Seeks(c, s, r, key)
  }

  /** The same for proofs about whole runs. */
  ghost function Searching(c: Config, key: Key): World -> bool {
    (x: World) => forall i {:trigger OpenSearch(c, x, key, i)} ::
      OpenSearch(c, x, key, i) ==> SearchOk(c, x.w, x.r, key)
  }

  ghost predicate OpenSearch(c: Config, x: World, key: Key, i: int) { true }

  lemma SearchingOk(c: Config, x: World, key: Key)
    requires Searching(c, key)(x)
    ensures SearchOk(c, x.w, x.r, key)
  {
    assert OpenSearch(c, x, key, 0);
  }

  lemma CalmKeepsSearch(c: Config, s: State, s': State, r: RPc, key: Key)
    requires SearchOk(c, s, r, key) && Base(c, s') && Calm(s, s') && key in s'.g.now
    requires key in s'.g.slot && s'.g.slot[key] == s.g.slot[key]
    ensures SearchOk(c, s', r, key)
  {
    CalmKeepsReader(c, s, s', r);
    CalmKeepsFine(c, s, s', r);
  }

  lemma CallSearches(c: Config, x: World, op: Op, y: World, key: Key)
    requires Sane(c, x.w) && Follows(c, x, Call(op), y) && Searching(c, key)(x)
    ensures Searching(c, key)(y)
  {
    SearchingOk(c, x, key);
    SaneInv(c, x.w);
    FollowsNext(c, x, Call(op), y);
    BeginOk(c, x.w, op);
    CalmKeepsSearch(c, x.w, y.w, x.r, key);
  }

  lemma StoreSearches(c: Config, x: World, junk: Byte, y: World, key: Key)
    requires Sane(c, x.w) && Follows(c, x, Store(junk), y) && Searching(c, key)(x) && key in y.w.g.now
    ensures Searching(c, key)(y)
  {
    SearchingOk(c, x, key);
    SaneInv(c, x.w);
    FollowsNext(c, x, Store(junk), y);
    AdvanceOk(c, x.w, y.w, junk);
    StoreKeepsSlot(c, x.w, y.w, junk, key);
    CalmKeepsSearch(c, x.w, y.w, x.r, key);
  }

  lemma LoadSearches(c: Config, x: World, y: World, key: Key)
    requires Sane(c, x.w) && Follows(c, x, Load, y) && Searching(c, key)(x) && |key| == c.keyLen
    ensures Searching(c, key)(y)
  {
    SearchingOk(c, x, key);
    SaneInv(c, x.w);
    FollowsNext(c, x, Load, y);
    DrawnIsYoungest(c, x.w);
    RAdvanceOk(c, x.w, x.r, y.r);
    FineStep(c, x.w, x.r, y.r);
    if !x.r.Done? { SeekStep(c, x.w, x.r, key); }
  }

  lemma CrashSearches(c: Config, x: World, y: World, key: Key)
    requires Sane(c, x.w) && Follows(c, x, Crash, y) && Searching(c, key)(x)
    ensures Searching(c, key)(y)
  {
    SearchingOk(c, x, key);
    SaneInv(c, x.w);
    FollowsNext(c, x, Crash, y);
    DeathOk(c, x.w);
    CalmKeepsSearch(c, x.w, y.w, x.r, key);
  }

  lemma MendSearches(c: Config, x: World, e: Event, y: World, key: Key)
    requires Sane(c, x.w) && Follows(c, x, e, y) && (e.Mend? || e.Recover?) && Searching(c, key)(x)
    ensures Searching(c, key)(y)
  {
    SearchingOk(c, x, key);
    SaneInv(c, x.w);
    FollowsNext(c, x, e, y);
    MendedBase(c, x.w, y.w);
    MendedCalm(c, x.w, y.w);
    CalmKeepsSearch(c, x.w, y.w, x.r, key);
  }

  lemma AskSearches(c: Config, x: World, y: World, key: Key)
    requires Sane(c, x.w) && Follows(c, x, Ask(key), y) && key in x.w.g.now
    ensures Searching(c, key)(y)
  {
    SaneBase(c, x.w);
    FollowsNext(c, x, Ask(key), y);
    KeyCell(c, x.w, key);
  }

  lemma NextSearches(c: Config, x: World, e: Event, y: World, key: Key)
    requires Sane(c, x.w) && Follows(c, x, e, y) && !e.Ask?
    requires Searching(c, key)(x) && |key| == c.keyLen && key in y.w.g.now
    ensures Searching(c, key)(y)
  {
    match e
    case Call(op) => CallSearches(c, x, op, y, key);
    case Store(junk) => StoreSearches(c, x, junk, y, key);
    case Load => LoadSearches(c, x, y, key);
    case Crash => CrashSearches(c, x, y, key);
    case Mend => MendSearches(c, x, e, y, key);
    case Recover => MendSearches(c, x, e, y, key);
  }

  /** A step of the Find. */
  ghost function SearchStepping(c: Config, key: Key): (World, Event, World) -> bool {
    (x: World, e: Event, y: World) =>
      Sane(c, x.w) && Follows(c, x, e, y) && !e.Ask? && |key| == c.keyLen && key in y.w.g.now
  }

  lemma SteppingSearches(c: Config, key: Key)
    ensures forall x, e, y {:trigger SearchStepping(c, key)(x, e, y)} ::
              Searching(c, key)(x) && SearchStepping(c, key)(x, e, y) ==> Searching(c, key)(y)
  {
    forall x, e, y | Searching(c, key)(x) && SearchStepping(c, key)(x, e, y) ensures Searching(c, key)(y) {
      NextSearches(c, x, e, y, key);
    }
  }

  lemma RunSearches(c: Config, xs: seq<World>, es: seq<Event>, i: nat, key: Key, j: nat)
    requires FindRun(c, {key}, xs, es, i, key) && i < j <= |es|
    ensures j < |xs| && |key| == c.keyLen && Searching(c, key)(xs[j])
  {
    SearchBegins(c, xs, es, i, key);
    var ys, fs := xs[i + 1..], es[i + 1..];
    forall m | 0 <= m < |fs| ensures SearchStepping(c, key)(ys[m], fs[m], ys[m + 1]) {
      SearchStep(c, xs, es, i, key, i + 1 + m);
    }
    SteppingSearches(c, key);
    Along(SearchStepping(c, key), Searching(c, key), ys, fs, j - i - 1);
  }

  lemma SearchBegins(c: Config, xs: seq<World>, es: seq<Event>, i: nat, key: Key)
    requires FindRun(c, {key}, xs, es, i, key)
    ensures i + 1 < |xs| == |es| + 1 && |key| == c.keyLen && Searching(c, key)(xs[i + 1])
  {
    SearchStep(c, xs, es, i, key, i);
    assert es[i] == Ask(key) && Follows(c, xs[i], es[i], xs[i + 1]);
    AskSearches(c, xs[i], xs[i + 1], key);
  }

  /** What the run says of its step `j`. */
  lemma SearchStep(c: Config, xs: seq<World>, es: seq<Event>, i: nat, key: Key, j: nat)
    requires FindRun(c, {key}, xs, es, i, key) && i <= j < |es|
    ensures |xs| == |es| + 1 && |key| == c.keyLen && Sane(c, xs[j].w) && Follows(c, xs[j], es[j], xs[j + 1])
    ensures key in xs[j + 1].w.g.now && if j == i then es[j] == Ask(key) && key in xs[j].w.g.now else !es[j].Ask?
  {
    RunSane(c, xs, es, j);
    assert Follows(c, xs[i], es[i], xs[i + 1]) && Follows(c, xs[j], es[j], xs[j + 1]);
    AskKey(c, xs[i], key, xs[i + 1]);
    assert {key} <= xs[i + 1].w.g.now.Keys && {key} <= xs[j + 1].w.g.now.Keys;
  }

  lemma AskKey(c: Config, x: World, key: Key, y: World)
    requires Follows(c, x, Ask(key), y)
    ensures |key| == c.keyLen && y.w == x.w
  {
    FollowsNext(c, x, Ask(key), y);
  }

  /**
   * Find misses only absent keys: if the key is in the map during the whole call and Find returns
   * false, then all rounds were overtaken by the writer, or the handle's tag was drawn again during
   * the last one, or the search ended at a cell that is not the key's.
   */
  lemma FindMissesOnlyAbsent(c: Config, xs: seq<World>, es: seq<Event>, i: nat, key: Key)
    requires FindRun(c, {key}, xs, es, i, key) && i + 1 < |es| && es[|es| - 1] == Load
    requires |xs| == |es| + 1 && !xs[|es| - 1].r.Done? && xs[|es|].r.Done? && !xs[|es|].r.ok
    ensures key in xs[|es| - 1].w.g.slot && Excused(c, xs[|es| - 1].w, xs[|es| - 1].r, key)
  {
    var j := |es| - 1;
    RunSearches(c, xs, es, i, key, j);
    LoadStep(c, xs, es, j);
    MissIsExcused(c, xs[j], xs[j + 1], key);
  }

  lemma MissIsExcused(c: Config, x: World, y: World, key: Key)
    requires Searching(c, key)(x) && |key| == c.keyLen && RInBounds(c, x.w, x.r)
    requires y.r == RAdvance(c, x.w, x.r) && !x.r.Done? && y.r.Done? && !y.r.ok
    ensures key in x.w.g.slot && Excused(c, x.w, x.r, key)
  {
    SearchingOk(c, x, key);
    SeekStep(c, x.w, x.r, key);
  }
}
