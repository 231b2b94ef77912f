/** Every store of the writer keeps the invariant, and disturbs no published value. */
module MapWriterProof {
  import opened Bytes
  import opened LinkRep
  import opened Cells
  import opened Tags
  import opened MapWriter

  /** Cell `i` still holds the same handle from the same draw, and all that hangs on it is as it was. */
  ghost predicate Kept(s: State, s': State, i: nat)
    requires i < |s.cells| && i < |s'.cells|
  {
    var h := s.cells[i].lb.head;
    && s'.cells[i] == s.cells[i]
    && h in s.g.birth && h in s'.g.birth && s'.g.birth[h] == s.g.birth[h]
    && h in s.g.view.chains && h in s'.g.view.chains && s'.g.view.chains[h] == s.g.view.chains[h]
    && forall n :: n in s.g.view.chains[h] ==> n < |s.t.nodes| && n < |s'.t.nodes| && s'.t.nodes[n] == s.t.nodes[n]
  }

  /** What a step means to a concurrent reader. */
  ghost predicate Calm(s: State, s': State) {
    && s'.t.unit == s.t.unit && |s'.t.nodes| == |s.t.nodes| && |s'.cells| == |s.cells|
    && s.g.draws <= s'.g.draws
    && (Drawn(s'.pc) ==> Drawn(s.pc) || s.g.draws < s'.g.draws)
    && forall i {:trigger Kept(s, s', i)} :: 0 <= i < |s.cells| && s'.cells[i].lb.IsSet() ==>
         || Kept(s, s', i)
         || (Drawn(s.pc) && s'.cells[i].lb.head in s'.g.birth && s'.g.birth[s'.cells[i].lb.head] == s.g.draws)
  }

  /** The table changes, but no node of a published chain does. */
  ghost predicate OwnedSame(s: State, s': State) {
    && |s.g.view.place| == |s.t.nodes| == |s'.t.nodes| && s'.t.unit == s.t.unit
    && (forall h :: h in s.g.own && h in s.g.view.chains ==>
          h in s'.g.view.chains && s'.g.view.chains[h] == s.g.view.chains[h])
    && (forall n :: 0 <= n < |s.t.nodes| && s.g.view.place[n].In? && s.g.view.place[n].head in s.g.own ==>
          s'.t.nodes[n] == s.t.nodes[n])
  }

  lemma OwnedNodes(c: Config, s: State, s': State, h: nat)
    requires Rep(s.t, s.g.view) && OwnedSame(s, s') && h in s.g.own && h in s.g.view.chains
    ensures forall n :: n in s.g.view.chains[h] ==> 0 < n < |s.t.nodes| && s'.t.nodes[n] == s.t.nodes[n]
  {
    forall n | n in s.g.view.chains[h]
      ensures 0 < n < |s.t.nodes| && s'.t.nodes[n] == s.t.nodes[n]
    {
      var j :| 0 <= j < |s.g.view.chains[h]| && s.g.view.chains[h][j] == n;
      assert LinkOk(s.t, s.g.view, h, j);
    }
  }

  /** Length, checksum and bytes of a chain depend on its nodes only. */
  lemma ReadableFrame(crc: Crc, t: Table, t': Table, l: seq<nat>)
    requires WellSized(t) && WellSized(t') && t.unit == t'.unit && l != [] && InRange(t.nodes, l)
    requires InRange(t'.nodes, l)
    requires forall n :: n in l ==> t'.nodes[n].payload == t.nodes[n].payload
    ensures Readable(crc, t', l) == Readable(crc, t, l)
    ensures Enough(t, l) ==> Enough(t', l) && Value(t', l) == Value(t, l)
  {
    assert l[0] in l;
    StreamFrame(t.nodes, t'.nodes, l);
  }

  lemma KeepCell(c: Config, s: State, s': State, i: nat)
    requires Rep(s.t, s.g.view) && Rep(s'.t, s'.g.view)
    requires i < |s.cells| && i < |s'.cells| && s'.cells[i] == s.cells[i]
    requires CellOk(c, s, i)
    requires OwnedSame(s, s')
    requires s.cells[i].lb.head in s'.g.own && s'.g.own[s.cells[i].lb.head] == i
    requires s.cells[i].lb.head in s'.g.birth && s'.g.birth[s.cells[i].lb.head] == s.g.birth[s.cells[i].lb.head]
    requires s.cells[i].key in s'.g.now && s'.g.now[s.cells[i].key] == s.g.now[s.cells[i].key]
    requires s'.g.draws >= s.g.draws
    ensures CellOk(c, s', i) && Kept(s, s', i)
  {
    var h := s.cells[i].lb.head;
    OwnedNodes(c, s, s', h);
    ChainInRange(s'.t, s'.g.view, h);
    assert h in s.g.view.chains[h] by { assert LinkOk(s.t, s.g.view, h, 0); }
    ReadableFrame(c.crc, s.t, s'.t, s.g.view.chains[h]);
  }

  /** Steps that store into the table only. */
  lemma KeepBase(c: Config, s: State, s': State)
    requires Base(c, s) && Rep(s'.t, s'.g.view) && OwnedSame(s, s')
    requires s'.cells == s.cells && s'.g.own == s.g.own && s'.g.slot == s.g.slot && s'.g.birth == s.g.birth
    requires s'.g.now == s.g.now && s'.g.draws >= s.g.draws && SeqOk(s'.t.tagSeqNext, s'.g.draws)
    requires Drawn(s'.pc) ==> Drawn(s.pc) || s.g.draws < s'.g.draws
    ensures Base(c, s') && Calm(s, s')
  {
    forall i | 0 <= i < |s.cells| && s.cells[i].lb.IsSet()
      ensures CellOk(c, s', i) && Kept(s, s', i)
    {
      assert CellOk(c, s, i);
      KeepCell(c, s, s', i);
    }
    forall h | h in s'.g.own ensures OwnOk(s', h) { assert OwnOk(s, h); }
  }

  /** The chain under construction is untouched: it holds what it held. */
  lemma KeepAlloc(c: Config, s: State, s': State, a: Alloc)
    requires Rep(s.t, s.g.view) && Rep(s'.t, s'.g.view) && AllocOk(c, s, a)
    requires |s'.t.nodes| == |s.t.nodes| && s'.t.unit == s.t.unit
    requires forall n :: n in a.chain && n < |s.t.nodes| ==> s'.t.nodes[n] == s.t.nodes[n]
    requires a.chain != [] ==> a.chain[0] in s'.g.view.chains && s'.g.view.chains[a.chain[0]] == a.chain
    requires s'.g == s.g.(view := s'.g.view) && s'.cells == s.cells && s'.t.tagSeqNext == s.t.tagSeqNext
    ensures AllocOk(c, s', a) && Stream(s'.t.nodes, a.chain) == Stream(s.t.nodes, a.chain)
  {
    forall i | 0 <= i < |a.chain| ensures s.t.nodes[a.chain[i]].payload == s'.t.nodes[a.chain[i]].payload {
      assert a.chain[i] in a.chain;
    }
    StreamFrame(s.t.nodes, s'.t.nodes, a.chain);
    if a.chain != [] { assert a.chain[0] in a.chain; }
  }

  /** A draw: the counter moves on, and the new tag is younger than every published one. */
  lemma DrawOk(c: Config, s: State, job: Job)
    requires Base(c, s) && AtDraw(c, s, job) && !Drawn(s.pc)
    ensures var s' := DoDraw(s, job);
            && Base(c, s') && Calm(s, s')
            && (s'.pc == DrawAgain(job) ==> AtDraw(c, s', job) && s'.t.tagSeqNext == 0)
            && (s'.pc != DrawAgain(job) ==> s'.pc.Take? && AtTake(c, s', s'.pc.a))
  {
    var s' := DoDraw(s, job);
    DrawStep(s.g.draws, s.t.tagSeqNext);
    assert Base(c, s') && Calm(s, s') by {
      SameLinks(s.t, s'.t, s.g.view);
      KeepBase(c, s, s');
    }
    assert JobOk(c, s', job);
    if s'.pc.Take? {
      FreshAlloc(c, s, s', job);
    }
  }

  lemma FreshAlloc(c: Config, s: State, s': State, job: Job)
    requires Base(c, s) && Base(c, s') && AtDraw(c, s, job) && JobOk(c, s', job)
    requires s'.g == s.g.(draws := s.g.draws + 1) && s'.cells == s.cells
    requires s'.t == s.t.(tagSeqNext := SeqAt(s'.g.draws))
    ensures AtTake(c, s', Alloc(job, TagAt(s'.g.draws), [], 0))
  {
    forall h | h in s'.g.own && h in s'.g.birth ensures s'.g.birth[h] < s'.g.draws {
      assert OwnOk(s, h) && CellOk(c, s, s.g.own[h]);
    }
    BufNodesLeast(s.t.unit, |job.val|, 0);
    assert AllocOk(c, s', Alloc(job, TagAt(s'.g.draws), [], 0));
  }

  lemma TakeOk(c: Config, s: State, a: Alloc)
    requires Base(c, s) && AtTake(c, s, a) && Drawn(s.pc)
    ensures 0 < s.t.freeList && s.g.view.free != [] && s.g.view.free[|s.g.view.free| - 1] == s.t.freeList
    ensures var s' := DoTake(s, a);
            && Base(c, s') && Calm(s, s') && InHand(c, s', a, s.t.freeList)
            && s'.t.freeNodeNum == |s'.g.view.free| + 1
  {
    assert FreeLinkOk(s.t, s.g.view, |s.g.view.free| - 1);
    var s' := DoTake(s, a);
    PopFree(s.t, s.g.view);
    assert Base(c, s') && Calm(s, s') by { KeepBase(c, s, s'); }
    KeepAlloc(c, s, s', a);
  }

  lemma TakeCountOk(c: Config, s: State, a: Alloc, n: nat)
    requires Base(c, s) && InHand(c, s, a, n) && s.t.freeNodeNum == |s.g.view.free| + 1 && Drawn(s.pc)
    ensures var s' := DoTakeCount(s, a, n);
            Base(c, s') && Calm(s, s') && InHand(c, s', a, n) && Counted(s')
  {
    var s' := DoTakeCount(s, a, n);
    SameLinks(s.t, s'.t, s.g.view);
    KeepBase(c, s, s');
    KeepAlloc(c, s, s', a);
  }

  /** A store into the node at hand keeps everything else. */
  lemma KeepHand(c: Config, s: State, s': State, a: Alloc, n: nat, node: Node)
    requires Base(c, s) && InHand(c, s, a, n) && Drawn(s.pc)
    requires NodeOk(s.t, node) && node.tag < HEAD_FLAG
    requires s' == SetNode(s, n, node).(pc := s'.pc)
    ensures Base(c, s') && Calm(s, s') && InHand(c, s', a, n)
  {
    TouchSpare(s.t, s.g.view, n, node);
    assert Base(c, s') && Calm(s, s') by { KeepBase(c, s, s'); }
    if a.chain != [] { ChainNodes(s.t, s.g.view, a.chain[0]); }
    KeepAlloc(c, s, s', a);
  }

  lemma ClearNextOk(c: Config, s: State, a: Alloc, n: nat)
    requires Base(c, s) && InHand(c, s, a, n) && Counted(s) && Drawn(s.pc)
    ensures var s' := DoClearNext(s, a, n); Base(c, s') && Calm(s, s') && AtSetTag(c, s', a, n)
  {
    assert PlaceOk(s.t, s.g.view, n) && NodeOk(s.t, s.t.nodes[n]);
    KeepHand(c, s, DoClearNext(s, a, n), a, n, s.t.nodes[n].(next := 0));
  }

  lemma SetTagOk(c: Config, s: State, a: Alloc, n: nat)
    requires Base(c, s) && AtSetTag(c, s, a, n) && Drawn(s.pc)
    ensures var s' := DoSetTag(s, a, n);
            && Base(c, s') && Calm(s, s')
            && if a.chain == [] then AtSetTag(c, s', a, n) else Filling(c, s', a, n, 0)
  {
    assert PlaceOk(s.t, s.g.view, n) && NodeOk(s.t, s.t.nodes[n]);
    var s' := DoSetTag(s, a, n);
    KeepHand(c, s, s', a, n, s.t.nodes[n].(tag := a.tag));
    if a.chain != [] {
      assert Filled(c, s', a, n, 0) by {
        Unfilled(c.crc, s'.t, a.job.val, a.chain, a.off);
        assert s'.t.nodes[n].payload[..0] == [];
      }
    }
  }

  lemma FlagHeadKeeps(c: Config, s: State, a: Alloc, n: nat)
    requires Base(c, s) && AtSetTag(c, s, a, n) && a.chain == [] && Drawn(s.pc)
    ensures n !in s.g.own && n !in s.g.view.chains
    ensures var s' := DoFlagHead(s, a, n); Base(c, s') && Calm(s, s') && AllocOk(c, s', a)
  {
    assert PlaceOk(s.t, s.g.view, n) && NodeOk(s.t, s.t.nodes[n]);
    var s' := DoFlagHead(s, a, n);
    StartChain(s.t, s.g.view, n, s.t.nodes[n].(tag := a.tag + HEAD_FLAG));
    NotOwned(c, s, n);
    assert Base(c, s') && Calm(s, s') by { KeepBase(c, s, s'); }
    KeepAlloc(c, s, s', a);
  }

  lemma FlagHeadOk(c: Config, s: State, a: Alloc, n: nat)
    requires Base(c, s) && AtSetTag(c, s, a, n) && a.chain == [] && Drawn(s.pc)
    ensures var s' := DoFlagHead(s, a, n); Base(c, s') && Calm(s, s') && Filling(c, s', a, n, 0)
  {
    var s' := DoFlagHead(s, a, n);
    FlagHeadKeeps(c, s, a, n);
    assert NodeOk(s.t, s.t.nodes[n]);
    assert s'.t.nodes[n].payload[..0] == [];
    assert Filled(c, s', a, n, 0);
  }

  /** Only chains are owned. */
  lemma NotOwned(c: Config, s: State, n: nat)
    requires Base(c, s) && n !in s.g.view.chains
    ensures n !in s.g.own
  {
    assert n in s.g.own ==> OwnOk(s, n) && CellOk(c, s, s.g.own[n]);
  }

  /** A payload store into the node at hand. */
  lemma FillKeeps(c: Config, s: State, s': State, a: Alloc, n: nat, k: nat, payload: seq<Byte>)
    requires Base(c, s) && Filling(c, s, a, n, k) && Drawn(s.pc) && Drawn(s'.pc)
    requires |payload| == s.t.unit
    requires s' == SetNode(s, n, s.t.nodes[n].(payload := payload)).(pc := s'.pc)
    ensures Base(c, s') && Calm(s, s') && Growing(c, s', a, 1) && Counted(s')
    ensures Stream(s'.t.nodes, a.chain) == Stream(s.t.nodes, a.chain)
  {
    TouchPayload(s.t, s.g.view, n, payload);
    if a.chain == [] {
      ChainNodes(s.t, s.g.view, n);
      assert n in s.g.view.chains[n];
    } else {
      ChainNodes(s.t, s.g.view, a.chain[0]);
    }
    assert Base(c, s') && Calm(s, s') by { KeepBase(c, s, s'); }
    KeepAlloc(c, s, s', a);
  }

  lemma FillOk(c: Config, s: State, s': State, a: Alloc, n: nat, k: nat, payload: seq<Byte>, k': nat)
    requires Base(c, s) && Filling(c, s, a, n, k) && Drawn(s.pc) && Drawn(s'.pc)
    requires Fits(c.crc, s.t, a.job.val, a.chain, payload, k')
    requires s' == SetNode(s, n, s.t.nodes[n].(payload := payload)).(pc := s'.pc)
    ensures Base(c, s') && Calm(s, s') && Filling(c, s', a, n, k')
  {
    FillKeeps(c, s, s', a, n, k, payload);
  }

  lemma SetLenOk(c: Config, s: State, a: Alloc, n: nat)
    requires Base(c, s) && Filling(c, s, a, n, 0) && a.chain == [] && Drawn(s.pc)
    ensures |s.t.nodes[n].payload| == s.t.unit
    ensures var s' := DoSetLen(s, a, n); Base(c, s') && Calm(s, s') && Filling(c, s', a, n, 4)
  {
    assert NodeOk(s.t, s.t.nodes[n]);
    var s' := DoSetLen(s, a, n);
    var payload, record := s'.t.nodes[n].payload, Record(c.crc, s.t.unit, a.job.val);
    assert payload[..4] == LE(|a.job.val|, 4) == record[..4];
    FillOk(c, s, s', a, n, 0, payload, 4);
  }

  lemma SetCrcOk(c: Config, s: State, a: Alloc, n: nat)
    requires Base(c, s) && Filling(c, s, a, n, 4) && a.chain == [] && Drawn(s.pc)
    ensures |s.t.nodes[n].payload| == s.t.unit
    ensures var s' := DoSetCrc(c, s, a, n); Base(c, s') && Calm(s, s') && Filling(c, s', a, n, 8)
  {
    assert NodeOk(s.t, s.t.nodes[n]);
    var s' := DoSetCrc(c, s, a, n);
    var payload, record := s'.t.nodes[n].payload, Record(c.crc, s.t.unit, a.job.val);
    assert payload[..8] == record[..8] by {
      assert s.t.nodes[n].payload[..4] == record[..4];
      assert payload[..8] == payload[..4] + payload[4..8];
      assert payload[..4] == s.t.nodes[n].payload[..4];
      assert record[..8] == record[..4] + record[4..8];
    }
    FillOk(c, s, s', a, n, 4, payload, 8);
  }

  /** The byte that is copied next is the record's next byte. */
  lemma CopyByte(crc: Crc, t: Table, a: Alloc, n: nat, j: nat)
    requires WellSized(t) && InRange(t.nodes, a.chain) && 0 < n < |t.nodes|
    requires Written(crc, t, a.job.val, a.chain, a.off) && |a.chain| < BufNodes(t.unit, |a.job.val|)
    requires j < CopyLen(t, a) && Fits(crc, t, a.job.val, a.chain, t.nodes[n].payload, HeaderLen(a.chain) + j)
    ensures var k := HeaderLen(a.chain) + j;
            && k < |t.nodes[n].payload|
            && Fits(crc, t, a.job.val, a.chain, t.nodes[n].payload[k := a.job.val[a.off + j]], k + 1)
  {
    Unfilled(crc, t, a.job.val, a.chain, a.off);
    var record, base := Record(crc, t.unit, a.job.val), |Stream(t.nodes, a.chain)|;
    assert record[8 + a.off + j] == a.job.val[a.off + j] by {
      RecordParts(crc, t.unit, a.job.val);
    }
    var k := HeaderLen(a.chain) + j;
    OneMore(t.nodes[n].payload, t.nodes[n].payload[k := record[base + k]], record, base, k);
  }

  lemma CopyOk(c: Config, s: State, s': State, a: Alloc, n: nat, j: nat)
    requires Base(c, s) && a.off <= |a.job.val| && j < CopyLen(s.t, a) && Drawn(s.pc)
    requires Filling(c, s, a, n, HeaderLen(a.chain) + j)
    requires HeaderLen(a.chain) + j < |s.t.nodes[n].payload| && s' == DoCopy(s, a, n, j)
    ensures Base(c, s') && Calm(s, s') && Filling(c, s', a, n, HeaderLen(a.chain) + (j + 1))
  {
    CopyByte(c.crc, s.t, a, n, j);
    var k := HeaderLen(a.chain) + j;
    var payload := s.t.nodes[n].payload[k := a.job.val[a.off + j]];
    FillOk(c, s, s', a, n, k, payload, k + 1);
  }

  lemma OneMore(was: seq<Byte>, now: seq<Byte>, record: seq<Byte>, base: nat, k: nat)
    requires k < |was| && base + k < |record| && was[..k] == record[base..base + k]
    requires now == was[k := record[base + k]]
    ensures now[..k + 1] == record[base..base + k + 1]
  {
    assert now[..k + 1] == was[..k] + [record[base + k]];
    assert record[base..base + k + 1] == record[base..base + k] + [record[base + k]];
  }

  lemma LinkedAlloc(c: Config, s: State, s': State, a: Alloc, n: nat)
    requires Base(c, s) && a.off <= |a.job.val|
    requires Filling(c, s, a, n, HeaderLen(a.chain) + CopyLen(s.t, a))
    requires Rep(s'.t, s'.g.view) && |s'.t.nodes| == |s.t.nodes| && s'.t.unit == s.t.unit
    requires forall m :: 0 <= m < |s.t.nodes| ==>
               s'.t.nodes[m].payload == s.t.nodes[m].payload && s'.t.nodes[m].tag == s.t.nodes[m].tag
    requires s'.g == s.g.(view := s'.g.view) && s'.cells == s.cells && s'.t.tagSeqNext == s.t.tagSeqNext
    requires var l := a.chain + [n]; l[0] in s'.g.view.chains && s'.g.view.chains[l[0]] == l
    ensures AllocOk(c, s', a.(chain := a.chain + [n], off := a.off + CopyLen(s.t, a)))
  {
    var l := a.chain + [n];
    LinkedBytes(c.crc, s.t, a.job.val, a.chain, a.off, n);
    WrittenFrame(c.crc, s.t, s'.t, a.job.val, l, a.off + CopyLen(s.t, a));
  }

  lemma WrittenFrame(crc: Crc, t: Table, t': Table, val: seq<Byte>, l: seq<nat>, off: nat)
    requires t.unit >= 8 && t'.unit == t.unit && |t'.nodes| == |t.nodes| && InRange(t.nodes, l)
    requires forall m :: 0 <= m < |t.nodes| ==> t'.nodes[m].payload == t.nodes[m].payload
    requires Written(crc, t, val, l, off)
    ensures Written(crc, t', val, l, off)
  {
    StreamFrame(t.nodes, t'.nodes, l);
  }

  lemma ExtendOwned(s: State, s': State, a: Alloc, n: nat)
    requires Rep(s.t, s.g.view) && 0 < n < |s.t.nodes| && a.chain != [] && a.chain[0] !in s.g.own
    requires a.chain[0] in s.g.view.chains && s.g.view.chains[a.chain[0]] == a.chain
    requires a.chain[|a.chain| - 1] < |s.t.nodes| && a.off <= |a.job.val| && s' == DoLink(s, a, n)
    ensures OwnedSame(s, s')
  {
    assert LinkOk(s.t, s.g.view, a.chain[0], |a.chain| - 1);
  }

  lemma LinkBase(c: Config, s: State, s': State, a: Alloc, n: nat)
    requires Base(c, s) && a.off <= |a.job.val| && Drawn(s.pc)
    requires Filling(c, s, a, n, HeaderLen(a.chain) + CopyLen(s.t, a))
    requires a.chain != [] ==> a.chain[|a.chain| - 1] < |s.t.nodes|
    requires s' == DoLink(s, a, n)
    ensures Base(c, s') && Calm(s, s')
  {
    if a.chain != [] {
      ExtendChain(s.t, s.g.view, a.chain[0], n);
      ExtendOwned(s, s', a, n);
    }
    KeepBase(c, s, s');
  }

  lemma LinkKeeps(c: Config, s: State, a: Alloc, n: nat)
    requires Rep(s.t, s.g.view) && a.off <= |a.job.val|
    requires Filling(c, s, a, n, HeaderLen(a.chain) + CopyLen(s.t, a))
    ensures a.chain != [] ==> a.chain[|a.chain| - 1] < |s.t.nodes|
    ensures var s' := DoLink(s, a, n);
            && s'.g.view.free == s.g.view.free
            && (a.chain + [n])[0] in s'.g.view.chains && s'.g.view.chains[(a.chain + [n])[0]] == a.chain + [n]
            && Spares(s', {}) && Orphans(s', {(a.chain + [n])[0]}) && Counted(s')
  {
    if a.chain == [] { assert a.chain + [n] == [n]; }
  }

  lemma LinkOkStep(c: Config, s: State, a: Alloc, n: nat)
    requires Base(c, s) && a.off <= |a.job.val| && Drawn(s.pc)
    requires Filling(c, s, a, n, HeaderLen(a.chain) + CopyLen(s.t, a))
    ensures a.chain != [] ==> a.chain[|a.chain| - 1] < |s.t.nodes|
    ensures var s' := DoLink(s, a, n);
            var a' := a.(chain := a.chain + [n], off := a.off + CopyLen(s.t, a));
            && Base(c, s') && Calm(s, s')
            && if |a'.chain| < BufNodes(s.t.unit, |a.job.val|) then AtTake(c, s', a') else Ready(c, s', a')
  {
    LinkKeeps(c, s, a, n);
    var s' := DoLink(s, a, n);
    LinkBase(c, s, s', a, n);
    LinkedAlloc(c, s, s', a, n);
    LinkEnd(c, s', a.(chain := a.chain + [n], off := a.off + CopyLen(s.t, a)), |s.g.view.free|);
  }

  /** New goes on with the next node, or the chain is complete. */
  lemma LinkEnd(c: Config, s: State, a: Alloc, free: nat)
    requires Rep(s.t, s.g.view) && AllocOk(c, s, a) && a.chain != [] && |s.g.view.free| == free
    requires |a.chain| <= BufNodes(s.t.unit, |a.job.val|) <= free + |a.chain|
    requires Spares(s, {}) && Orphans(s, {a.chain[0]}) && Counted(s)
    ensures if |a.chain| < BufNodes(s.t.unit, |a.job.val|) then AtTake(c, s, a) else Ready(c, s, a)
  {
    if |a.chain| >= BufNodes(s.t.unit, |a.job.val|) {
      FullChain(c.crc, s.t, a.job.val, a.chain, a.off);
    }
  }

  // ---------------------------------------------------------------------------
  // Publishing and withdrawing

  lemma KeepReady(c: Config, s: State, s': State, a: Alloc)
    requires Base(c, s) && Ready(c, s, a) && Rep(s'.t, s'.g.view)
    requires s'.t == s.t.(bufUsedNum := s'.t.bufUsedNum, bufUsedBytes := s'.t.bufUsedBytes)
    requires s'.cells == s.cells && s'.g == s.g
    ensures Ready(c, s', a)
  {
    ReadableFrame(c.crc, s.t, s'.t, a.chain);
    KeepAlloc(c, s, s', a);
  }

  lemma CountOk(c: Config, s: State, s': State, a: Alloc)
    requires Base(c, s) && Ready(c, s, a) && Drawn(s.pc)
    requires s'.t == s.t.(bufUsedNum := s'.t.bufUsedNum, bufUsedBytes := s'.t.bufUsedBytes)
    requires s'.cells == s.cells && s'.g == s.g
    ensures Base(c, s') && Calm(s, s') && Ready(c, s', a)
  {
    SameLinks(s.t, s'.t, s.g.view);
    assert Base(c, s') && Calm(s, s') by { KeepBase(c, s, s'); }
    KeepReady(c, s, s', a);
  }

  /** The key is complete once its last byte is written. */
  lemma WholeKey(c: Config, s: State, a: Alloc)
    requires Base(c, s) && Ready(c, s, a)
    requires s.cells[a.job.cell].key[..c.keyLen] == a.job.key[..c.keyLen]
    ensures AtPublish(c, s, a)
  {
    assert s.cells[a.job.cell].key[..c.keyLen] == s.cells[a.job.cell].key;
    assert a.job.key[..c.keyLen] == a.job.key;
  }

  /** One cell changes and the table does not: the other cells are as they were. */
  lemma OtherCells(c: Config, s: State, s': State, i: nat)
    requires Base(c, s) && s'.t == s.t && s'.g.view == s.g.view && s'.g.draws == s.g.draws
    requires |s'.cells| == |s.cells| && i < |s.cells|
    requires forall m :: 0 <= m < |s.cells| && m != i ==> s'.cells[m] == s.cells[m]
    requires forall h :: h in s.g.own && s.g.own[h] != i ==>
               h in s'.g.own && s'.g.own[h] == s.g.own[h]
               && (h in s.g.birth ==> h in s'.g.birth && s'.g.birth[h] == s.g.birth[h])
    requires forall k :: k in s.g.slot && k in s.g.now && s.g.slot[k] != i ==>
               k in s'.g.now && s'.g.now[k] == s.g.now[k]
    ensures forall m :: 0 <= m < |s.cells| && m != i && s.cells[m].lb.IsSet() ==>
              CellOk(c, s', m) && Kept(s, s', m)
  {
    forall m | 0 <= m < |s.cells| && m != i && s.cells[m].lb.IsSet()
      ensures CellOk(c, s', m) && Kept(s, s', m)
    {
      assert CellOk(c, s, m) && UsedOk(s.cells, c.probe, s.g.slot, m);
      KeepCell(c, s, s', m);
    }
  }

  /** The key of an unused cell may be overwritten. */
  lemma KeepUnusedKey(c: Config, s: State, s': State, i: nat, key: Key)
    requires Base(c, s) && i < |s.cells| && !s.cells[i].lb.IsSet() && |key| == c.keyLen
    requires s' == s.(cells := s.cells[i := s.cells[i].(key := key)], pc := s'.pc)
    requires Drawn(s'.pc) ==> Drawn(s.pc)
    ensures Base(c, s') && Calm(s, s')
  {
    OtherCells(c, s, s', i);
    OtherSlots(c, s, s', i);
  }

  /** Keys keep their cells when one unused cell changes or one cell is cleared with its key. */
  lemma OtherSlots(c: Config, s: State, s': State, i: nat)
    requires Base(c, s) && |s'.cells| == |s.cells| && i < |s.cells| && !s'.cells[i].lb.IsSet()
    requires forall m :: 0 <= m < |s.cells| && m != i ==> s'.cells[m] == s.cells[m]
    requires s'.g.slot == (if s.cells[i].lb.IsSet() then s.g.slot - {s.cells[i].key} else s.g.slot)
    requires s'.g.own == (if s.cells[i].lb.IsSet() then s.g.own - {s.cells[i].lb.head} else s.g.own)
    ensures SlotsOk(s'.cells, c.probe, s'.g.slot)
    ensures forall h {:trigger OwnOk(s', h)} :: h in s'.g.own ==> OwnOk(s', h)
  {
    forall m | 0 <= m < |s'.cells| && s'.cells[m].lb.IsSet() ensures UsedOk(s'.cells, c.probe, s'.g.slot, m) {
      assert UsedOk(s.cells, c.probe, s.g.slot, m);
      if s.cells[i].lb.IsSet() { assert UsedOk(s.cells, c.probe, s.g.slot, i); }
    }
    forall k | k in s'.g.slot ensures KeyOk(s'.cells, s'.g.slot, k) {
      assert KeyOk(s.cells, s.g.slot, k);
    }
    forall h | h in s'.g.own ensures OwnOk(s', h) { assert OwnOk(s, h); }
  }

  lemma WriteKeyOk(c: Config, s: State, a: Alloc, j: nat)
    requires Base(c, s) && AtWriteKey(c, s, a, j) && Drawn(s.pc)
    ensures var s' := DoWriteKey(c, s, a, j);
            && Base(c, s') && Calm(s, s')
            && if j + 1 < c.keyLen then AtWriteKey(c, s', a, j + 1) else AtPublish(c, s', a)
  {
    var s' := DoWriteKey(c, s, a, j);
    var was := s.cells[a.job.cell].key;
    KeepUnusedKey(c, s, s', a.job.cell, was[j := a.job.key[j]]);
    assert s'.cells[a.job.cell].key[..j + 1] == a.job.key[..j + 1] by {
      assert s'.cells[a.job.cell].key[..j + 1] == was[..j] + [a.job.key[j]];
      assert a.job.key[..j + 1] == a.job.key[..j] + [a.job.key[j]];
    }
    assert Ready(c, s', a);
    if j + 1 == c.keyLen { WholeKey(c, s', a); }
  }

  /** Free accepts the handle of a chain that has just been withdrawn. */
  lemma StartFreeOk(c: Config, s: State, lb: Handle)
    requires Base(c, s) && AtHead(s, lb) && s.pc == StartFree(s.t, lb)
    ensures s.pc.Untag? && AtUntag(s, s.pc.d)
  {
    assert LinkOk(s.t, s.g.view, lb.head, 0) && NodeOk(s.t, s.t.nodes[lb.head]);
  }

  /** Publishing stores the only handle that changes. */
  lemma PublishBase(c: Config, s: State, a: Alloc)
    requires Base(c, s) && AtPublish(c, s, a) && Drawn(s.pc)
    ensures var s' := DoPublish(s, a); Base(c, s') && Calm(s, s')
  {
    var s', i, h := DoPublish(s, a), a.job.cell, a.chain[0];
    var was := s.cells[i].lb;
    assert s'.pc.Idle? || s'.pc.Untag?;
    if a.job.found { assert CellOk(c, s, i) && UsedOk(s.cells, c.probe, s.g.slot, i); }
    PublishSlots(c, s, a);
    OtherCells(c, s, s', i);
    assert CellOk(c, s', i) by { ChainInRange(s.t, s.g.view, h); }
  }

  lemma PublishSlots(c: Config, s: State, a: Alloc)
    requires Base(c, s) && AtPublish(c, s, a)
    ensures var s' := DoPublish(s, a);
            && SlotsOk(s'.cells, c.probe, s'.g.slot) && s'.g.now.Keys == s'.g.slot.Keys
            && forall h {:trigger OwnOk(s', h)} :: h in s'.g.own ==> OwnOk(s', h)
  {
    var s', i := DoPublish(s, a), a.job.cell;
    if a.job.found { assert CellOk(c, s, i) && UsedOk(s.cells, c.probe, s.g.slot, i); }
    forall h | h in s'.g.own ensures OwnOk(s', h) {
      assert h in s.g.own ==> OwnOk(s, h);
    }
    forall m | 0 <= m < |s'.cells| && s'.cells[m].lb.IsSet() ensures UsedOk(s'.cells, c.probe, s'.g.slot, m) {
      assert m != i ==> UsedOk(s.cells, c.probe, s.g.slot, m);
    }
    forall k | k in s'.g.slot ensures KeyOk(s'.cells, s'.g.slot, k) {
      assert k in s.g.slot ==> KeyOk(s.cells, s.g.slot, k);
    }
  }

  lemma PublishOk(c: Config, s: State, a: Alloc)
    requires Base(c, s) && AtPublish(c, s, a) && Drawn(s.pc)
    ensures var s' := DoPublish(s, a);
            && Base(c, s') && Calm(s, s')
            && if a.job.found then s'.pc.Untag? && AtUntag(s', s'.pc.d) else AtIdle(s')
  {
    var s', was := DoPublish(s, a), s.cells[a.job.cell].lb;
    PublishBase(c, s, a);
    if a.job.found {
      assert CellOk(c, s, a.job.cell);
      assert LinkOk(s.t, s.g.view, was.head, 0);
      assert s.g.view.chains[was.head] == [was.head] + s'.g.todo;
      assert AtHead(s', was);
      StartFreeOk(c, s', was);
    }
  }

  lemma ClearBase(c: Config, s: State, i: nat)
    requires Base(c, s) && AtClear(s, i) && !Drawn(s.pc)
    ensures var s' := DoClear(c, s, i); Base(c, s') && Calm(s, s')
  {
    var s', was := DoClear(c, s, i), s.cells[i].lb;
    assert s'.pc.Idle? || s'.pc.Untag? || s'.pc.ClearKey?;
    assert !s'.cells[i].lb.IsSet();
    assert CellOk(c, s, i) && UsedOk(s.cells, c.probe, s.g.slot, i);
    OtherCells(c, s, s', i);
    OtherSlots(c, s, s', i);
  }

  lemma AfterClearOk(c: Config, s: State, i: nat, lb: Handle, j: nat)
    requires Base(c, s) && i < |s.cells| && !s.cells[i].lb.IsSet() && AtHead(s, lb)
    requires s.pc == AfterClear(c, s.t, i, lb, j)
    ensures if j < c.keyLen then AtClearKey(c, s, i, lb, j) else s.pc.Untag? && AtUntag(s, s.pc.d)
  {
    if j >= c.keyLen { StartFreeOk(c, s, lb); }
  }

  lemma ClearOk(c: Config, s: State, i: nat)
    requires Base(c, s) && AtClear(s, i) && !Drawn(s.pc)
    ensures var s' := DoClear(c, s, i);
            && Base(c, s') && Calm(s, s')
            && if 0 < c.keyLen then AtClearKey(c, s', i, s.cells[i].lb, 0) else s'.pc.Untag? && AtUntag(s', s'.pc.d)
  {
    var s', was := DoClear(c, s, i), s.cells[i].lb;
    ClearBase(c, s, i);
    assert AtHead(s', was) by {
      assert CellOk(c, s, i);
      assert LinkOk(s.t, s.g.view, was.head, 0);
      assert s.g.view.chains[was.head] == [was.head] + s'.g.todo;
    }
    AfterClearOk(c, s', i, was, 0);
  }

  lemma ClearKeyOk(c: Config, s: State, i: nat, lb: Handle, j: nat, junk: Byte)
    requires Base(c, s) && AtClearKey(c, s, i, lb, j) && !Drawn(s.pc)
    ensures var s' := DoClearKey(c, s, i, lb, j, junk);
            && Base(c, s') && Calm(s, s')
            && if j + 1 < c.keyLen then AtClearKey(c, s', i, lb, j + 1) else s'.pc.Untag? && AtUntag(s', s'.pc.d)
  {
    var s' := DoClearKey(c, s, i, lb, j, junk);
    assert !Drawn(s'.pc);
    KeepUnusedKey(c, s, s', i, s.cells[i].key[j := junk]);
    AfterClearOk(c, s', i, lb, j + 1);
  }

  // ---------------------------------------------------------------------------
  // Freeing

  /** The tail of a chain, as nodes still to be freed. */
  lemma TailPending(s: State, s': State, lb: Handle)
    requires Rep(s.t, s.g.view) && AtHead(s, lb) && Rep(s'.t, s'.g.view)
    requires s'.t == Set(s.t, lb.head, s.t.nodes[lb.head].(tag := 0))
    requires s'.g == s.g.(view := DropView(s.g.view, lb.head))
    ensures Pend(s'.t, s'.g.view, s'.g.todo, lb.tag) && lb.head !in s'.g.todo
    ensures Spares(s', {lb.head} + NodesOf(s'.g.todo))
  {
    var h, v, todo := lb.head, s.g.view, s.g.todo;
    var l := v.chains[h];
    assert LinkOk(s.t, v, h, 0) && NodeOk(s.t, s.t.nodes[h]);
    forall i | 0 <= i < |todo|
      ensures 0 < todo[i] < |s.t.nodes| && v.place[todo[i]] == In(h, i + 1) && todo[i] != h
      ensures PendAt(s'.t, s'.g.view, todo, lb.tag, i)
    {
      assert l[i + 1] == todo[i];
      assert i + 1 < |todo| ==> l[i + 2] == todo[i + 1];
      assert LinkOk(s.t, v, h, i + 1);
    }
    forall n | 0 < n < |s'.g.view.place| && s'.g.view.place[n] == Spare
      ensures n in {h} + NodesOf(todo)
    {
      assert PlaceOk(s.t, v, n);
      if v.place[n].In? {
        var i := v.place[n].pos;
        if i > 0 { assert n == todo[i - 1]; }
      }
    }
  }

  lemma UntagHeadOk(c: Config, s: State, d: Drop)
    requires Base(c, s) && AtUntag(s, d) && d.n == d.lb.head && !Drawn(s.pc)
    ensures var s' := DoUntag(s, d); Base(c, s') && Calm(s, s') && AtRelink(s', d)
  {
    var s', h := DoUntag(s, d), d.lb.head;
    DropChain(s.t, s.g.view, h);
    assert Base(c, s') && Calm(s, s') by {
      ChainNodes(s.t, s.g.view, h);
      assert LinkOk(s.t, s.g.view, h, 0);
      KeepBase(c, s, s');
    }
    TailPending(s, s', d.lb);
    assert NodeOk(s.t, s.t.nodes[h]);
  }

  /** A store into the spare node that Free holds. */
  lemma KeepDrop(c: Config, s: State, s': State, d: Drop, node: Node)
    requires Base(c, s) && Dropping(s, d) && !Drawn(s.pc) && !Drawn(s'.pc)
    requires NodeOk(s.t, node) && node.tag < HEAD_FLAG
    requires s' == SetNode(s, d.n, node).(pc := s'.pc)
    ensures Base(c, s') && Calm(s, s') && Dropping(s', d)
  {
    TouchSpare(s.t, s.g.view, d.n, node);
    assert Base(c, s') && Calm(s, s') by { KeepBase(c, s, s'); }
    forall i | 0 <= i < |s.g.todo| ensures PendAt(s'.t, s'.g.view, s.g.todo, d.lb.tag, i) {
      assert PendAt(s.t, s.g.view, s.g.todo, d.lb.tag, i);
    }
  }

  lemma UntagRestOk(c: Config, s: State, d: Drop)
    requires Base(c, s) && AtUntag(s, d) && d.n != d.lb.head && !Drawn(s.pc)
    ensures var s' := DoUntag(s, d); Base(c, s') && Calm(s, s') && AtRelink(s', d)
  {
    assert NodeOk(s.t, s.t.nodes[d.n]);
    KeepDrop(c, s, DoUntag(s, d), d, s.t.nodes[d.n].(tag := 0));
  }

  lemma RelinkOk(c: Config, s: State, d: Drop)
    requires Base(c, s) && AtRelink(s, d) && !Drawn(s.pc)
    ensures var s' := DoRelink(s, d); Base(c, s') && Calm(s, s') && AtPushTop(s', d)
  {
    assert NodeOk(s.t, s.t.nodes[d.n]);
    KeepDrop(c, s, DoRelink(s, d), d, s.t.nodes[d.n].(next := s.t.freeList));
  }

  lemma PushTopOk(c: Config, s: State, d: Drop)
    requires Base(c, s) && AtPushTop(s, d) && !Drawn(s.pc)
    ensures var s' := DoPushTop(s, d); Base(c, s') && Calm(s, s') && AtCountFree(s', d)
  {
    var s' := DoPushTop(s, d);
    PushFree(s.t, s.g.view, d.n);
    assert Base(c, s') && Calm(s, s') by { KeepBase(c, s, s'); }
    forall i | 0 <= i < |s.g.todo| ensures PendAt(s'.t, s'.g.view, s.g.todo, d.lb.tag, i) {
      assert PendAt(s.t, s.g.view, s.g.todo, d.lb.tag, i);
    }
  }

  /** Stores into the table header at the end of a loop round or of Free. */
  lemma KeepHeader(c: Config, s: State, s': State)
    requires Base(c, s) && !Drawn(s.pc) && !Drawn(s'.pc)
    requires s'.t == s.t.(freeNodeNum := s'.t.freeNodeNum, bufUsedNum := s'.t.bufUsedNum,
                          bufUsedBytes := s'.t.bufUsedBytes)
    requires s'.cells == s.cells && s'.g == s.g.(todo := s'.g.todo)
    ensures Base(c, s') && Calm(s, s')
  {
    SameLinks(s.t, s'.t, s.g.view);
    KeepBase(c, s, s');
  }

  lemma CountFreeOk(c: Config, s: State, d: Drop)
    requires Base(c, s) && AtCountFree(s, d) && !Drawn(s.pc)
    ensures d.rest < |s.t.nodes|
    ensures var s' := DoCountFree(s, d);
            && Base(c, s') && Calm(s, s')
            && if s.g.todo == [] then s'.pc == DropBuf(d) && Quiet(s') && Committed(s')
               else s'.pc.Untag? && AtUntag(s', s'.pc.d)
  {
    var todo := s.g.todo;
    if todo != [] { assert PendAt(s.t, s.g.view, todo, d.lb.tag, 0); }
    var s' := DoCountFree(s, d);
    KeepHeader(c, s, s');
    if todo == [] {
      assert NodesOf(todo) == {};
    } else {
      NextPending(s, s', d);
    }
  }

  lemma NextPending(s: State, s': State, d: Drop)
    requires Rep(s.t, s.g.view) && Rep(s'.t, s'.g.view) && AtCountFree(s, d) && s.g.todo != []
    requires d.rest < |s.t.nodes| && s' == DoCountFree(s, d)
    ensures s'.pc == Untag(d.(n := s.g.todo[0], rest := Head0(s'.g.todo)))
    ensures Dropping(s', s'.pc.d) && s'.pc.d.n != d.lb.head
  {
    var todo, todo' := s.g.todo, s'.g.todo;
    assert PendAt(s.t, s.g.view, todo, d.lb.tag, 0);
    forall i | 0 <= i < |todo'| ensures todo'[i] == todo[i + 1] && PendAt(s'.t, s'.g.view, todo', d.lb.tag, i) {
      assert PendAt(s.t, s.g.view, todo, d.lb.tag, i + 1);
    }
    assert NodesOf(todo) <= {todo[0]} + NodesOf(todo') by {
      forall n | n in NodesOf(todo) ensures n in {todo[0]} + NodesOf(todo') {
        var i :| 0 <= i < |todo| && todo[i] == n;
        if i > 0 { assert todo'[i - 1] == n; }
      }
    }
  }

  // ---------------------------------------------------------------------------
  // Whole steps

  /** Every store that the writer can reach lies inside the tables. */
  lemma InvInBounds(c: Config, s: State)
    requires Inv(c, s)
    ensures InBounds(c, s)
  {
    if Drawn(s.pc) { DrawnInBounds(c, s); } else { RestInBounds(c, s); }
  }

  lemma DrawnInBounds(c: Config, s: State)
    requires Inv(c, s) && Drawn(s.pc)
    ensures InBounds(c, s)
  {
    match s.pc
    case Take(a) => assert FreeLinkOk(s.t, s.g.view, |s.g.view.free| - 1);
    case Copy(a, n, j) => CopyByte(c.crc, s.t, a, n, j);
    case _ =>
  }

  lemma RestInBounds(c: Config, s: State)
    requires Inv(c, s) && !Drawn(s.pc)
    ensures InBounds(c, s)
  {
    match s.pc
    case CountFree(d) => assert s.g.todo != [] ==> PendAt(s.t, s.g.view, s.g.todo, d.lb.tag, 0);
    case _ =>
  }

  /** After a byte has been copied: the next byte, or the link. */
  lemma AfterCopyOk(c: Config, s: State, a: Alloc, n: nat, j: nat)
    requires Base(c, s) && a.off <= |a.job.val| && j <= CopyLen(s.t, a)
    requires Filling(c, s, a, n, HeaderLen(a.chain) + j) && s.pc == AfterCopy(s.t, a, n, j)
    ensures PcOk(c, s)
  {
    if j < CopyLen(s.t, a) {
      assert s.pc == Copy(a, n, j);
    } else {
      assert s.pc == Link(a, n) && j == CopyLen(s.t, a);
    }
  }

  predicate IsNew(pc: Pc) { pc.Take? || pc.TakeCount? || pc.ClearNext? }

  predicate IsFirst(pc: Pc) { pc.SetTag? || pc.FlagHead? || pc.SetLen? || pc.SetCrc? }

  predicate IsNewNode(pc: Pc) { IsNew(pc) || IsFirst(pc) }

  /** The invariant and a store, for proofs that look into them only where they mention `Open...`. */
  ghost predicate Sane(c: Config, s: State) {
    forall i {:trigger OpenInv(c, s, i)} :: OpenInv(c, s, i) ==> Inv(c, s)
  }

  ghost predicate OpenInv(c: Config, s: State, i: int) { true }

  ghost predicate Stored(c: Config, s: State, s': State, junk: Byte) {
    forall i {:trigger OpenStore(s, s', i)} :: OpenStore(s, s', i) ==> InBounds(c, s) && s' == Advance(c, s, junk)
  }

  ghost predicate OpenStore(s: State, s': State, i: int) { true }

  lemma InvSane(c: Config, s: State)
    requires Inv(c, s)
    ensures Sane(c, s)
  {
  }

  lemma SaneInv(c: Config, s: State)
    requires Sane(c, s)
    ensures Inv(c, s)
  {
    assert OpenInv(c, s, 0);
  }

  lemma AdvanceIdle(c: Config, s: State, s': State, junk: Byte)
    requires Sane(c, s) && Stored(c, s, s', junk) && (s.pc.Idle? || s.pc.Dead?)
    ensures Sane(c, s') && Calm(s, s')
  {
    assert OpenInv(c, s, 0) && OpenStore(s, s', 0);
    KeepHeader(c, s, s');
  }

  lemma AdvanceDraw(c: Config, s: State, s': State, junk: Byte)
    requires Sane(c, s) && Stored(c, s, s', junk) && (s.pc.Draw? || s.pc.DrawAgain?)
    ensures Sane(c, s') && Calm(s, s')
  {
    assert OpenInv(c, s, 0) && OpenStore(s, s', 0);
    DrawOk(c, s, s.pc.job);
  }

  lemma AdvanceTake(c: Config, s: State, s': State, junk: Byte)
    requires Sane(c, s) && Stored(c, s, s', junk) && s.pc.Take?
    ensures Sane(c, s') && Calm(s, s')
  {
    assert OpenInv(c, s, 0) && OpenStore(s, s', 0);
    TakeOk(c, s, s.pc.a);
  }

  lemma AdvanceTakeCount(c: Config, s: State, s': State, junk: Byte)
    requires Sane(c, s) && Stored(c, s, s', junk) && s.pc.TakeCount?
    ensures Sane(c, s') && Calm(s, s')
  {
    assert OpenInv(c, s, 0) && OpenStore(s, s', 0);
    TakeCountOk(c, s, s.pc.a, s.pc.n);
  }

  lemma AdvanceClearNext(c: Config, s: State, s': State, junk: Byte)
    requires Sane(c, s) && Stored(c, s, s', junk) && s.pc.ClearNext?
    ensures Sane(c, s') && Calm(s, s')
  {
    assert OpenInv(c, s, 0) && OpenStore(s, s', 0);
    ClearNextOk(c, s, s.pc.a, s.pc.n);
  }

  lemma AdvanceTag(c: Config, s: State, s': State, junk: Byte)
    requires Sane(c, s) && Stored(c, s, s', junk) && (s.pc.SetTag? || s.pc.FlagHead?)
    ensures Sane(c, s') && Calm(s, s')
  {
    assert OpenInv(c, s, 0) && OpenStore(s, s', 0);
    match s.pc
    case SetTag(a, n) =>
      SetTagOk(c, s, a, n);
      if a.chain != [] { AfterCopyOk(c, s', a, n, 0); }
    case FlagHead(a, n) => FlagHeadOk(c, s, a, n);
  }

  lemma AdvanceHead(c: Config, s: State, s': State, junk: Byte)
    requires Sane(c, s) && Stored(c, s, s', junk) && (s.pc.SetLen? || s.pc.SetCrc?)
    ensures Sane(c, s') && Calm(s, s')
  {
    assert OpenInv(c, s, 0) && OpenStore(s, s', 0);
    match s.pc
    case SetLen(a, n) => SetLenOk(c, s, a, n);
    case SetCrc(a, n) =>
      SetCrcOk(c, s, a, n);
      AfterCopyOk(c, s', a, n, 0);
  }

  lemma CopyStep(c: Config, s: State, s': State, a: Alloc, n: nat, j: nat)
    requires Base(c, s) && a.off <= |a.job.val| && j < CopyLen(s.t, a) && Drawn(s.pc)
    requires Filling(c, s, a, n, HeaderLen(a.chain) + j)
    requires HeaderLen(a.chain) + j < |s.t.nodes[n].payload| && s' == DoCopy(s, a, n, j)
    ensures Base(c, s') && PcOk(c, s') && Calm(s, s')
  {
    CopyOk(c, s, s', a, n, j);
    AfterCopyOk(c, s', a, n, j + 1);
  }

  lemma AdvanceCopy(c: Config, s: State, s': State, junk: Byte)
    requires Sane(c, s) && Stored(c, s, s', junk) && s.pc.Copy?
    ensures Sane(c, s') && Calm(s, s')
  {
    assert OpenInv(c, s, 0) && OpenStore(s, s', 0);
    CopyStep(c, s, s', s.pc.a, s.pc.n, s.pc.j);
  }

  lemma LinkStep(c: Config, s: State, s': State, a: Alloc, n: nat)
    requires Base(c, s) && a.off <= |a.job.val| && Drawn(s.pc)
    requires Filling(c, s, a, n, HeaderLen(a.chain) + CopyLen(s.t, a))
    requires a.chain != [] ==> a.chain[|a.chain| - 1] < |s.t.nodes|
    requires s' == DoLink(s, a, n)
    ensures Base(c, s') && PcOk(c, s') && Calm(s, s')
  {
    LinkOkStep(c, s, a, n);
    LinkPc(c, s, s', a, n);
  }

  lemma LinkPc(c: Config, s: State, s': State, a: Alloc, n: nat)
    requires n < |s.t.nodes| == |s.g.view.place| && a.off <= |a.job.val| && s.t.unit >= 8 && Base(c, s')
    requires a.chain != [] ==> a.chain[|a.chain| - 1] < |s.t.nodes| && a.chain[0] in s.g.view.chains
    requires s' == DoLink(s, a, n)
    requires var a' := a.(chain := a.chain + [n], off := a.off + CopyLen(s.t, a));
             if |a'.chain| < BufNodes(s.t.unit, |a.job.val|) then AtTake(c, s', a') else Ready(c, s', a')
    ensures PcOk(c, s')
  {
  }

  lemma LinkAt(c: Config, s: State, a: Alloc, n: nat)
    requires Base(c, s) && PcOk(c, s) && s.pc == Link(a, n)
    ensures a.off <= |a.job.val| && Filling(c, s, a, n, HeaderLen(a.chain) + CopyLen(s.t, a))
  {
  }

  lemma AdvanceLink(c: Config, s: State, s': State, junk: Byte)
    requires Sane(c, s) && Stored(c, s, s', junk) && s.pc.Link?
    ensures Sane(c, s') && Calm(s, s')
  {
    assert OpenInv(c, s, 0) && OpenStore(s, s', 0);
    LinkAt(c, s, s.pc.a, s.pc.n);
    LinkStep(c, s, s', s.pc.a, s.pc.n);
  }

  lemma CountBufStep(c: Config, s: State, s': State, a: Alloc)
    requires Base(c, s) && Ready(c, s, a) && Drawn(s.pc) && s' == DoCountBuf(s, a)
    ensures Base(c, s') && PcOk(c, s') && Calm(s, s')
  {
    CountOk(c, s, s', a);
  }

  lemma AdvanceCountBuf(c: Config, s: State, s': State, junk: Byte)
    requires Sane(c, s) && Stored(c, s, s', junk) && s.pc.CountBuf?
    ensures Sane(c, s') && Calm(s, s')
  {
    assert OpenInv(c, s, 0) && OpenStore(s, s', 0);
    CountBufStep(c, s, s', s.pc.a);
  }

  lemma CountBytesStep(c: Config, s: State, s': State, a: Alloc)
    requires Base(c, s) && Ready(c, s, a) && Drawn(s.pc) && s' == DoCountBytes(c, s, a)
    ensures Base(c, s') && PcOk(c, s') && Calm(s, s')
  {
    CountOk(c, s, s', a);
    assert s.cells[a.job.cell].key[..0] == a.job.key[..0];
    if c.keyLen == 0 { WholeKey(c, s', a); }
  }

  lemma AdvanceCountBytes(c: Config, s: State, s': State, junk: Byte)
    requires Sane(c, s) && Stored(c, s, s', junk) && s.pc.CountBytes?
    ensures Sane(c, s') && Calm(s, s')
  {
    assert OpenInv(c, s, 0) && OpenStore(s, s', 0);
    CountBytesStep(c, s, s', s.pc.a);
  }

  lemma AdvanceWriteKey(c: Config, s: State, s': State, junk: Byte)
    requires Sane(c, s) && Stored(c, s, s', junk) && s.pc.WriteKey?
    ensures Sane(c, s') && Calm(s, s')
  {
    assert OpenInv(c, s, 0) && OpenStore(s, s', 0);
    WriteKeyOk(c, s, s.pc.a, s.pc.j);
  }

  lemma PublishStep(c: Config, s: State, s': State, a: Alloc)
    requires Base(c, s) && AtPublish(c, s, a) && Drawn(s.pc) && s' == DoPublish(s, a)
    ensures Base(c, s') && PcOk(c, s') && Calm(s, s')
  {
    PublishOk(c, s, a);
  }

  lemma AdvancePublish(c: Config, s: State, s': State, junk: Byte)
    requires Sane(c, s) && Stored(c, s, s', junk) && s.pc.Publish?
    ensures Sane(c, s') && Calm(s, s')
  {
    assert OpenInv(c, s, 0) && OpenStore(s, s', 0);
    PublishStep(c, s, s', s.pc.a);
  }

  lemma AdvanceErase(c: Config, s: State, s': State, junk: Byte)
    requires Sane(c, s) && Stored(c, s, s', junk) && (s.pc.Clear? || s.pc.ClearKey?)
    ensures Sane(c, s') && Calm(s, s')
  {
    assert OpenInv(c, s, 0) && OpenStore(s, s', 0);
    match s.pc
    case Clear(i) => ClearOk(c, s, i);
    case ClearKey(i, lb, j) => ClearKeyOk(c, s, i, lb, j, junk);
  }

  lemma AdvanceUntag(c: Config, s: State, s': State, junk: Byte)
    requires Sane(c, s) && Stored(c, s, s', junk) && s.pc.Untag?
    ensures Sane(c, s') && Calm(s, s')
  {
    assert OpenInv(c, s, 0) && OpenStore(s, s', 0);
    var d := s.pc.d;
    if d.n == d.lb.head { UntagHeadOk(c, s, d); } else { UntagRestOk(c, s, d); }
  }

  lemma AdvanceRelink(c: Config, s: State, s': State, junk: Byte)
    requires Sane(c, s) && Stored(c, s, s', junk) && s.pc.Relink?
    ensures Sane(c, s') && Calm(s, s')
  {
    assert OpenInv(c, s, 0) && OpenStore(s, s', 0);
    RelinkOk(c, s, s.pc.d);
  }

  lemma AdvancePushTop(c: Config, s: State, s': State, junk: Byte)
    requires Sane(c, s) && Stored(c, s, s', junk) && s.pc.PushTop?
    ensures Sane(c, s') && Calm(s, s')
  {
    assert OpenInv(c, s, 0) && OpenStore(s, s', 0);
    PushTopOk(c, s, s.pc.d);
  }

  lemma AdvanceCountFree(c: Config, s: State, s': State, junk: Byte)
    requires Sane(c, s) && Stored(c, s, s', junk) && s.pc.CountFree?
    ensures Sane(c, s') && Calm(s, s')
  {
    assert OpenInv(c, s, 0) && OpenStore(s, s', 0);
    CountFreeOk(c, s, s.pc.d);
  }

  lemma AdvanceDrop(c: Config, s: State, s': State, junk: Byte)
    requires Sane(c, s) && Stored(c, s, s', junk) && (s.pc.DropBuf? || s.pc.DropBytes?)
    ensures Sane(c, s') && Calm(s, s')
  {
    assert OpenInv(c, s, 0) && OpenStore(s, s', 0);
    KeepHeader(c, s, s');
  }

  lemma AdvanceSane(c: Config, s: State, s': State, junk: Byte)
    requires Sane(c, s) && Stored(c, s, s', junk)
    ensures Sane(c, s') && Calm(s, s')
  {
    match s.pc
    case Idle => AdvanceIdle(c, s, s', junk);
    case Dead => AdvanceIdle(c, s, s', junk);
    case Draw(_) => AdvanceDraw(c, s, s', junk);
    case DrawAgain(_) => AdvanceDraw(c, s, s', junk);
    case Take(_) => AdvanceTake(c, s, s', junk);
    case TakeCount(_, _) => AdvanceTakeCount(c, s, s', junk);
    case ClearNext(_, _) => AdvanceClearNext(c, s, s', junk);
    case SetTag(_, _) => AdvanceTag(c, s, s', junk);
    case FlagHead(_, _) => AdvanceTag(c, s, s', junk);
    case SetLen(_, _) => AdvanceHead(c, s, s', junk);
    case SetCrc(_, _) => AdvanceHead(c, s, s', junk);
    case Copy(_, _, _) => AdvanceCopy(c, s, s', junk);
    case Link(_, _) => AdvanceLink(c, s, s', junk);
    case CountBuf(_) => AdvanceCountBuf(c, s, s', junk);
    case CountBytes(_) => AdvanceCountBytes(c, s, s', junk);
    case WriteKey(_, _) => AdvanceWriteKey(c, s, s', junk);
    case Publish(_) => AdvancePublish(c, s, s', junk);
    case Clear(_) => AdvanceErase(c, s, s', junk);
    case ClearKey(_, _, _) => AdvanceErase(c, s, s', junk);
    case Untag(_) => AdvanceUntag(c, s, s', junk);
    case Relink(_) => AdvanceRelink(c, s, s', junk);
    case PushTop(_) => AdvancePushTop(c, s, s', junk);
    case CountFree(_) => AdvanceCountFree(c, s, s', junk);
    case DropBuf(_) => AdvanceDrop(c, s, s', junk);
    case DropBytes(_) => AdvanceDrop(c, s, s', junk);
  }

  /** Every store keeps the invariant and disturbs no published value. */
  lemma AdvanceOk(c: Config, s: State, s': State, junk: Byte)
    requires Inv(c, s) && InBounds(c, s) && s' == Advance(c, s, junk)
    ensures Inv(c, s') && Calm(s, s')
  {
    AdvanceSane(c, s, s', junk);
    assert OpenInv(c, s', 0);
  }

  /** A call keeps the invariant; the refused calls are exactly those that cannot be carried out, and store nothing. */
  lemma BeginOk(c: Config, s: State, op: Op)
    requires Inv(c, s) && s.pc.Idle? && |op.key| == c.keyLen
    requires ProbesOk(|s.cells|, c.probe(op.key))
    ensures Inv(c, Begin(c, s, op)) && Calm(s, Begin(c, s, op))
    ensures Begin(c, s, op).g.accepted <==> Accepts(c, s, op)
    ensures !Accepts(c, s, op) ==> Begin(c, s, op) == Refused(s, op)
  {
    BeginInv(c, s, Begin(c, s, op), op);
    BeginAccepts(c, s, op);
  }

  lemma BeginInv(c: Config, s: State, s': State, op: Op)
    requires Inv(c, s) && s.pc.Idle? && |op.key| == c.keyLen
    requires ProbesOk(|s.cells|, c.probe(op.key)) && s' == Begin(c, s, op)
    ensures Inv(c, s') && Calm(s, s')
  {
    BeginFrame(c, s, s', op);
    BeginBase(c, s, s', op);
    BeginPc(c, s, op);
  }

  /** Which calls are refused, in terms of the map and the free nodes. */
  lemma BeginAccepts(c: Config, s: State, op: Op)
    requires Base(c, s) && AtIdle(s) && s.pc.Idle? && ProbesOk(|s.cells|, c.probe(op.key))
    ensures Begin(c, s, op).g.accepted <==> Accepts(c, s, op)
    ensures !Accepts(c, s, op) ==> Begin(c, s, op) == Refused(s, op)
  {
    FindOrAllocRefinesMap(s.cells, c.probe, s.g.slot, op.key);
    var found := FindOrAlloc(s.cells, c.probe(op.key), op.key);
    if found.Vacant? {
      var r :| 0 <= r < |c.probe(op.key)| && c.probe(op.key)[r] == found.cell;
      assert EmptyProbe(s.cells, c.probe(op.key), r);
    }
  }

  lemma BeginFrame(c: Config, s: State, s': State, op: Op)
    requires s.pc.Idle? && WellSized(s.t) && ProbesOk(|s.cells|, c.probe(op.key)) && s' == Begin(c, s, op)
    ensures s'.t == s.t && s'.cells == s.cells && s'.g == s.g.(op := op, accepted := s'.g.accepted, before := s.g.now)
    ensures !Drawn(s'.pc)
  {
  }

  lemma BeginBase(c: Config, s: State, s': State, op: Op)
    requires Base(c, s) && s'.t == s.t && s'.cells == s.cells
    requires s'.g == s.g.(op := op, accepted := s'.g.accepted, before := s.g.now)
    requires !Drawn(s'.pc)
    ensures Base(c, s') && Calm(s, s')
  {
    KeepBase(c, s, s');
  }

  lemma BeginPc(c: Config, s: State, op: Op)
    requires Inv(c, s) && s.pc.Idle? && |op.key| == c.keyLen
    requires ProbesOk(|s.cells|, c.probe(op.key)) && Base(c, Begin(c, s, op))
    ensures PcOk(c, Begin(c, s, op))
  {
    var s' := Begin(c, s, op);
    FindOrAllocRefinesMap(s.cells, c.probe, s.g.slot, op.key);
    if op.key in s.g.slot { assert KeyOk(s.cells, s.g.slot, op.key); }
    if s'.pc.Draw? { assert AtDraw(c, s', s'.pc.job); }
  }
}
