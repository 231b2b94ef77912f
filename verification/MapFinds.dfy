/**
 * What a whole Find returns, in terms of what the memory held at the moments of its loads: every
 * round that is lost, every byte of a key and every handle that it met.
 */
module MapFinds {
  import opened Bytes
  import opened LinkRep
  import opened Cells
  import opened Tags
  import opened MapWriter
  import opened MapWriterProof
  import opened MapReader
  import opened MapReaderProof
  import opened MapRuns
  import opened MapCalls
  import opened MapMisses

  // ---------------------------------------------------------------------------
  // What has been seen since position `i`

  ghost predicate ByteAt(s: State, cell: nat, b: nat, v: Byte) {
    cell < |s.cells| && b < |s.cells[cell].key| && s.cells[cell].key[b] == v
  }

  ghost predicate UsedAt(s: State, cell: nat) { cell < |s.cells| && s.cells[cell].lb.IsSet() }

  ghost predicate LookAt(s: State, cell: nat, lb: Handle, next: nat) {
    cell < |s.cells| && s.cells[cell].lb == lb && next == NextDraw(s)
  }

  ghost predicate ByteSeen(xs: seq<World>, i: nat, j: nat, cell: nat, b: nat, v: Byte) {
    exists m :: i <= m <= j && m < |xs| && ByteAt(xs[m].w, cell, b, v)
  }

  ghost predicate UsedSeen(xs: seq<World>, i: nat, j: nat, cell: nat) {
    exists m :: i <= m <= j && m < |xs| && UsedAt(xs[m].w, cell)
  }

  ghost predicate LookSeen(xs: seq<World>, i: nat, j: nat, cell: nat, lb: Handle, next: nat) {
    exists m :: i <= m <= j && m < |xs| && LookAt(xs[m].w, cell, lb, next)
  }

  ghost predicate BytesSeen(xs: seq<World>, i: nat, j: nat, cell: nat, s: seq<Byte>) {
    forall b :: 0 <= b < |s| ==> ByteSeen(xs, i, j, cell, b, s[b])
  }

  /** The cell was in use at one moment, and at some moment each of its key bytes was the key's. */
  ghost predicate Met(xs: seq<World>, i: nat, j: nat, cell: nat, key: Key) {
    UsedSeen(xs, i, j, cell) && BytesSeen(xs, i, j, cell, key)
  }

  /** The load ends a round whose cell has another handle than at the round's start. */
  ghost predicate LostAt(x: World, e: Event) {
    && e.Load? && x.r.Recheck? && x.r.k.q.cell < |x.w.cells|
    && x.w.cells[x.r.k.q.cell].lb != x.r.k.lb
  }

  /** Rounds that were lost from position `i` to `j`. */
  ghost function Lost(xs: seq<World>, es: seq<Event>, i: nat, j: nat): nat
    requires j <= |es| < |xs|
  {
    if j <= i then 0 else Lost(xs, es, i, j - 1) + if LostAt(xs[j - 1], es[j - 1]) then 1 else 0
  }

  /** What the reader's locals say of the run so far. */
  ghost predicate Records(c: Config, xs: seq<World>, i: nat, j: nat, key: Key, r: RPc, lost: nat) {
    match r
    case RIdle => false
    case Probe(k, p, acc) =>
      && k == key && lost == 0
      && p < |c.probe(key)| && BytesSeen(xs, i, j, c.probe(key)[p], acc)
    case ProbeLb(k, p, acc) =>
      && k == key && lost == 0
      && p < |c.probe(key)| && BytesSeen(xs, i, j, c.probe(key)[p], acc)
    case LoadLb(q, _) => q.key == key && q.tries == lost + 1 <= 64 && Met(xs, i, j, q.cell, key)
    case Done(_, k, _) => k == key
    case _ =>
      && r.k.q.key == key && r.k.q.tries == lost + 1 <= 64 && Met(xs, i, j, r.k.q.cell, key)
      && LookSeen(xs, i, j, r.k.q.cell, r.k.lb, r.k.next)
  }

  lemma RecordsLater(c: Config, xs: seq<World>, i: nat, j: nat, key: Key, r: RPc, lost: nat)
    requires Records(c, xs, i, j, key, r, lost)
    ensures Records(c, xs, i, j + 1, key, r, lost)
  {
    match r
    case RIdle =>
    case Probe(_, p, acc) => SeenLater(xs, i, j, c.probe(key)[p], acc);
    case ProbeLb(_, p, acc) => SeenLater(xs, i, j, c.probe(key)[p], acc);
    case LoadLb(q, _) => SeenLater(xs, i, j, q.cell, key);
    case Done(_, _, _) =>
    case _ => SeenLater(xs, i, j, r.k.q.cell, key);
  }

  lemma SeenLater(xs: seq<World>, i: nat, j: nat, cell: nat, s: seq<Byte>)
    requires BytesSeen(xs, i, j, cell, s)
    ensures BytesSeen(xs, i, j + 1, cell, s)
  {
    forall b | 0 <= b < |s| ensures ByteSeen(xs, i, j + 1, cell, b, s[b]) {
      assert ByteSeen(xs, i, j, cell, b, s[b]);
    }
  }

  // ---------------------------------------------------------------------------
  // Loads

  lemma ProbeRecords(c: Config, xs: seq<World>, i: nat, j: nat, key: Key, s: State, r: RPc)
    requires i <= j < |xs| && xs[j] == World(s, r) && (r.Probe? || r.ProbeLb?) && |key| == c.keyLen
    requires Records(c, xs, i, j, key, r, 0) && RInBounds(c, s, r)
    ensures Records(c, xs, i, j, key, RAdvance(c, s, r), 0)
  {
    var cell := c.probe(key)[r.r];
    if r.Probe? {
      var v := s.cells[cell].key[|r.acc|];
      assert ByteAt(xs[j].w, cell, |r.acc|, v);
      assert BytesSeen(xs, i, j, cell, r.acc + [v]);
    } else if s.cells[cell].lb.IsSet() {
      assert UsedAt(xs[j].w, cell);
    }
  }

  lemma LookRecords(c: Config, xs: seq<World>, i: nat, j: nat, key: Key, s: State, r: RPc, lost: nat)
    requires i <= j < |xs| && xs[j] == World(s, r) && r.LoadLb?
    requires Records(c, xs, i, j, key, r, lost) && RInBounds(c, s, r)
    ensures Records(c, xs, i, j, key, RAdvance(c, s, r), lost)
  {
    assert LookAt(xs[j].w, r.q.cell, s.cells[r.q.cell].lb, NextDraw(s));
  }

  lemma RecheckRecords(c: Config, xs: seq<World>, i: nat, j: nat, key: Key, s: State, r: RPc, lost: nat)
    requires r.Recheck? && Records(c, xs, i, j, key, r, lost) && RInBounds(c, s, r)
    ensures var moved := s.cells[r.k.q.cell].lb != r.k.lb;
            Records(c, xs, i, j, key, RAdvance(c, s, r), lost + if moved then 1 else 0)
  {
  }

  predicate IsReading(r: RPc) {
    !r.RIdle? && !r.Probe? && !r.ProbeLb? && !r.LoadLb? && !r.Recheck? && !r.Done?
  }

  lemma ReadRecords(c: Config, xs: seq<World>, i: nat, j: nat, key: Key, s: State, r: RPc, lost: nat)
    requires IsReading(r) && Records(c, xs, i, j, key, r, lost) && RInBounds(c, s, r) && |key| == c.keyLen
    ensures Records(c, xs, i, j, key, RAdvance(c, s, r), lost)
  {
    ReadKeepsLook(c, s, r);
  }

  lemma ReadKeepsLook(c: Config, s: State, r: RPc)
    requires IsReading(r) && RInBounds(c, s, r) && |r.k.q.key| == c.keyLen
    ensures var r' := RAdvance(c, s, r);
            if r'.Done? then r'.key == r.k.q.key && !r'.ok && r.CheckKey?
            else && (IsReading(r') || r'.Recheck?)
                 && r'.k.q == r.k.q && r'.k.lb == r.k.lb && r'.k.next == r.k.next
  {
  }

  lemma LoadRecords(c: Config, xs: seq<World>, i: nat, j: nat, key: Key, x: World, lost: nat)
    requires i <= j < |xs| && xs[j] == x && |key| == c.keyLen && RInBounds(c, x.w, x.r)
    requires Records(c, xs, i, j, key, x.r, lost)
    ensures Records(c, xs, i, j + 1, key, RAdvance(c, x.w, x.r), lost + if LostAt(x, Load) then 1 else 0)
  {
    var r' := RAdvance(c, x.w, x.r);
    if x.r.Probe? || x.r.ProbeLb? {
      ProbeRecords(c, xs, i, j, key, x.w, x.r);
    } else if x.r.LoadLb? {
      LookRecords(c, xs, i, j, key, x.w, x.r, lost);
    } else if x.r.Recheck? {
      RecheckRecords(c, xs, i, j, key, x.w, x.r, lost);
    } else if IsReading(x.r) {
      ReadRecords(c, xs, i, j, key, x.w, x.r, lost);
    }
    RecordsLater(c, xs, i, j, key, r', lost + if LostAt(x, Load) then 1 else 0);
  }

  /** A round goes on only with the handle's tag and a matching checksum. */
  lemma MismatchIsRefused(c: Config, s: State, r: RPc)
    requires RInBounds(c, s, r) && (r.Tag1? || r.Tag2? || r.NodeTag? || r.Crc1? || r.Crc2?)
    ensures (r.Tag1? || r.Tag2?) && r.k.lb.head < |s.t.nodes|
              && s.t.nodes[r.k.lb.head].tag != r.k.lb.tag + (if r.k.lb.tag < 0x8000_0000 then 0x8000_0000 else 0) ==>
              RAdvance(c, s, r) == Recheck(r.k, false)
    ensures r.NodeTag? && s.t.nodes[r.n].tag != r.k.lb.tag ==> RAdvance(c, s, r) == Recheck(r.k, false)
    ensures (r.Crc1? || r.Crc2?) && |s.t.nodes[r.k.lb.head].payload| >= 8
              && Val(s.t.nodes[r.k.lb.head].payload[4..8]) != c.crc(r.acc) % 0x1_0000_0000 ==>
              RAdvance(c, s, r) == Recheck(r.k, false)
    ensures r.Crc1? && RAdvance(c, s, r) != Recheck(r.k, false) ==>
              RAdvance(c, s, r).Tag2? && |RAdvance(c, s, r).k.out| == r.len
  {
  }

  // ---------------------------------------------------------------------------
  // Runs

  /** An event other than a load or a new Find leaves the reader alone. */
  lemma OthersLeaveReader(c: Config, x: World, e: Event, y: World)
    requires Follows(c, x, e, y) && !e.Ask? && !e.Load?
    ensures y.r == x.r
  {
    FollowsNext(c, x, e, y);
  }

  lemma AskRecords(c: Config, xs: seq<World>, i: nat, key: Key, x: World, y: World)
    requires Follows(c, x, Ask(key), y)
    ensures |key| == c.keyLen && Records(c, xs, i, i, key, y.r, 0)
  {
    FollowsNext(c, x, Ask(key), y);
  }

  lemma LoadReads(c: Config, x: World, y: World)
    requires Follows(c, x, Load, y)
    ensures RInBounds(c, x.w, x.r) && y.r == RAdvance(c, x.w, x.r)
  {
    FollowsNext(c, x, Load, y);
  }

  lemma StepRecords(c: Config, xs: seq<World>, i: nat, j: nat, key: Key, x: World, e: Event, y: World, lost: nat)
    requires i <= j < |xs| && xs[j] == x && |key| == c.keyLen && Follows(c, x, e, y) && !e.Ask?
    requires Records(c, xs, i, j, key, x.r, lost)
    ensures Records(c, xs, i, j + 1, key, y.r, lost + if LostAt(x, e) then 1 else 0)
  {
    if e.Load? {
      LoadReads(c, x, y);
      LoadRecords(c, xs, i, j, key, x, lost);
    } else {
      OthersLeaveReader(c, x, e, y);
      RecordsLater(c, xs, i, j, key, y.r, lost);
    }
  }

  /** What the run says of its step `j`. */
  lemma FindStep(c: Config, keep: set<Key>, xs: seq<World>, es: seq<Event>, i: nat, key: Key, j: nat)
    requires FindRun(c, keep, xs, es, i, key) && i <= j < |es|
    ensures |xs| == |es| + 1 && Follows(c, xs[j], es[j], xs[j + 1])
    ensures if j == i then es[j] == Ask(key) else !es[j].Ask?
  {
  }

  /** Records for proofs about whole runs, which look into it only where they mention `OpenRecords`. */
  ghost predicate Recorded(c: Config, xs: seq<World>, i: nat, j: nat, key: Key, r: RPc, lost: nat) {
    forall n {:trigger OpenRecords(r, n)} :: OpenRecords(r, n) ==> Records(c, xs, i, j, key, r, lost)
  }

  ghost predicate OpenRecords(r: RPc, n: int) { true }

  lemma AskRecorded(c: Config, xs: seq<World>, es: seq<Event>, i: nat, key: Key, j: nat)
    requires j == i + 1 <= |es| < |xs| && Follows(c, xs[j - 1], Ask(key), xs[j])
    ensures |key| == c.keyLen && Recorded(c, xs, i + 1, j, key, xs[j].r, Lost(xs, es, i + 1, j))
  {
    AskRecords(c, xs, j, key, xs[i], xs[j]);
  }

  lemma StepRecorded(c: Config, xs: seq<World>, es: seq<Event>, i: nat, key: Key, j: nat)
    requires i < j <= |es| < |xs| && |key| == c.keyLen && Follows(c, xs[j - 1], es[j - 1], xs[j]) && !es[j - 1].Ask?
    requires Recorded(c, xs, i, j - 1, key, xs[j - 1].r, Lost(xs, es, i, j - 1))
    ensures Recorded(c, xs, i, j, key, xs[j].r, Lost(xs, es, i, j))
  {
    assert OpenRecords(xs[j - 1].r, 0);
    StepRecords(c, xs, i, j - 1, key, xs[j - 1], es[j - 1], xs[j], Lost(xs, es, i, j - 1));
  }

  lemma {:induction false} FindRecorded(c: Config, keep: set<Key>, xs: seq<World>, es: seq<Event>, i: nat, key: Key,
                                        j: nat)
    requires FindRun(c, keep, xs, es, i, key) && i < j <= |es|
    ensures |key| == c.keyLen && |xs| == |es| + 1
    ensures Recorded(c, xs, i + 1, j, key, xs[j].r, Lost(xs, es, i + 1, j))
  {
    FindStep(c, keep, xs, es, i, key, j - 1);
    if j == i + 1 {
      AskRecorded(c, xs, es, i, key, j);
    } else {
      FindRecorded(c, keep, xs, es, i, key, j - 1);
      StepRecorded(c, xs, es, i + 1, key, j);
    }
  }

  lemma FindRecords(c: Config, keep: set<Key>, xs: seq<World>, es: seq<Event>, i: nat, key: Key, j: nat)
    requires FindRun(c, keep, xs, es, i, key) && i < j <= |es|
    ensures |key| == c.keyLen && |xs| == |es| + 1
    ensures Records(c, xs, i + 1, j, key, xs[j].r, Lost(xs, es, i + 1, j))
  {
    FindRecorded(c, keep, xs, es, i, key, j);
    assert OpenRecords(xs[j].r, 0);
  }

  /** A Find of the key that returns with the run's last load. */
  ghost predicate FindEnds(c: Config, keep: set<Key>, xs: seq<World>, es: seq<Event>, i: nat, key: Key) {
    && FindRun(c, keep, xs, es, i, key) && i + 1 < |es| && es[|es| - 1] == Load && |xs| == |es| + 1
    && !xs[|es| - 1].r.Done? && xs[|es|].r.Done?
  }

  /**
   * A Find that returns true returns at a second load of a handle, and yields what the map holds at
   * that load for the very key it was asked for, unless the handle's tag was drawn again.
   */
  lemma FoundIsCurrent(c: Config, xs: seq<World>, es: seq<Event>, i: nat, key: Key)
    requires FindEnds(c, {}, xs, es, i, key) && xs[|es|].r.ok
    ensures var x, y := xs[|es| - 1], xs[|es|];
            && x.r.Recheck? && y.r.key == key
            && (Reissued(x.r.k, x.w.g.draws) || (key in x.w.g.now && x.w.g.now[key] == y.r.val))
  {
    FindRecorded(c, {}, xs, es, i, key, |es| - 1);
    FinalLoad(c, {}, xs, es, i, key);
    FoundAt(c, xs, es, i, key);
  }

  lemma FoundAt(c: Config, xs: seq<World>, es: seq<Event>, i: nat, key: Key)
    requires |xs| == |es| + 1 && |es| > 0 && |key| == c.keyLen
    requires Reading(c, xs[|es| - 1]) && Follows(c, xs[|es| - 1], Load, xs[|es|])
    requires Recorded(c, xs, i + 1, |es| - 1, key, xs[|es| - 1].r, Lost(xs, es, i + 1, |es| - 1))
    requires !xs[|es| - 1].r.Done? && xs[|es|].r.Done? && xs[|es|].r.ok
    ensures var x, y := xs[|es| - 1], xs[|es|];
            && x.r.Recheck? && y.r.key == key
            && (Reissued(x.r.k, x.w.g.draws) || (key in x.w.g.now && x.w.g.now[key] == y.r.val))
  {
    FoundNow(c, xs, i + 1, |es| - 1, key, xs[|es| - 1], xs[|es|], Lost(xs, es, i + 1, |es| - 1));
  }

  lemma FinalLoad(c: Config, keep: set<Key>, xs: seq<World>, es: seq<Event>, i: nat, key: Key)
    requires FindEnds(c, keep, xs, es, i, key)
    ensures |es| > 0 && |xs| == |es| + 1 && Follows(c, xs[|es| - 1], Load, xs[|es|])
    ensures Reading(c, xs[|es| - 1])
  {
    FindStep(c, keep, xs, es, i, key, |es| - 1);
    assert xs[|es| - 1 + 1] == xs[|es|];
    RunReading(c, xs, es, |es| - 1);
  }

  /** The invariants at a load, for proofs that look into them only where they mention `OpenReading`. */
  ghost predicate Reading(c: Config, x: World) {
    forall n {:trigger OpenReading(x, n)} :: OpenReading(x, n) ==> Base(c, x.w) && RInv(c, x.w, x.r)
  }

  ghost predicate OpenReading(x: World, n: int) { true }

  lemma RunReading(c: Config, xs: seq<World>, es: seq<Event>, j: nat)
    requires Run(c, xs, es) && j < |xs|
    ensures Reading(c, xs[j])
  {
    RunReads(c, xs, es, j);
  }

  lemma FoundNow(c: Config, xs: seq<World>, i: nat, j: nat, key: Key, x: World, y: World, lost: nat)
    requires Reading(c, x) && Follows(c, x, Load, y) && |key| == c.keyLen
    requires Recorded(c, xs, i, j, key, x.r, lost) && !x.r.Done? && y.r.Done? && y.r.ok
    ensures x.r.Recheck? && y.r.key == key
    ensures Reissued(x.r.k, x.w.g.draws) || (key in x.w.g.now && x.w.g.now[key] == y.r.val)
  {
    assert OpenReading(x, 0) && OpenRecords(x.r, 0);
    LoadReads(c, x, y);
    OkIsRecheck(c, xs, i, j, key, x, lost);
    if !Reissued(x.r.k, x.w.g.draws) { RecheckIsExact(c, x.w, x.r.k); }
  }

  lemma OkIsRecheck(c: Config, xs: seq<World>, i: nat, j: nat, key: Key, x: World, lost: nat)
    requires RInBounds(c, x.w, x.r) && Records(c, xs, i, j, key, x.r, lost) && |key| == c.keyLen
    requires !x.r.Done? && RAdvance(c, x.w, x.r).Done? && RAdvance(c, x.w, x.r).ok
    ensures x.r.Recheck? && x.r.ret && RAdvance(c, x.w, x.r).key == key
  {
    if IsReading(x.r) { ReadKeepsLook(c, x.w, x.r); }
  }

  /** How a Find can miss a key that is in the map all the time. */
  ghost predicate Explained(c: Config, xs: seq<World>, es: seq<Event>, i: nat, key: Key)
    requires |xs| == |es| + 1 && |es| > 0 && key in xs[|es| - 1].w.g.slot
  {
    var x, from, last := xs[|es| - 1], i + 1, |es| - 1;
    // 64 rounds were lost to the writer
    || Lost(xs, es, from, |es|) == 64
    // the tag of the last round's handle was drawn again
    || (x.r.Recheck? && Reissued(x.r.k, x.w.g.draws))
    // in another cell each byte of the key was met, at one moment or another
    || exists cell :: cell != x.w.g.slot[key] && Met(xs, from, last, cell, key)
  }

  /** Find misses a present key in no other way. */
  lemma MissIsExplained(c: Config, xs: seq<World>, es: seq<Event>, i: nat, key: Key)
    requires FindEnds(c, {key}, xs, es, i, key) && !xs[|es|].r.ok
    ensures key in xs[|es| - 1].w.g.slot && Explained(c, xs, es, i, key)
  {
    FindMissesOnlyAbsent(c, xs, es, i, key);
    FindRecorded(c, {key}, xs, es, i, key, |es| - 1);
    ExcuseExplains(c, xs, es, i, key);
  }

  lemma ExcuseExplains(c: Config, xs: seq<World>, es: seq<Event>, i: nat, key: Key)
    requires |xs| == |es| + 1 && i + 1 < |es| && es[|es| - 1] == Load
    requires key in xs[|es| - 1].w.g.slot && Excused(c, xs[|es| - 1].w, xs[|es| - 1].r, key)
    requires Recorded(c, xs, i + 1, |es| - 1, key, xs[|es| - 1].r, Lost(xs, es, i + 1, |es| - 1))
    ensures Explained(c, xs, es, i, key)
  {
    var x := xs[|es| - 1];
    assert OpenRecords(x.r, 0);
    assert x.r.k.q.cell == x.w.g.slot[key] || Met(xs, i + 1, |es| - 1, x.r.k.q.cell, key);
  }

  // ---------------------------------------------------------------------------
  // No insert and no erase during the Find

  ghost predicate Resting(xs: seq<World>, i: nat) {
    forall m {:trigger xs[m]} :: i <= m < |xs| ==>
      xs[m].w.cells == xs[i].w.cells && xs[m].w.g.draws == xs[i].w.g.draws && !Drawn(xs[m].w.pc)
  }

  /** No draw gives the handle's tag away. */
  lemma RestingKeepsTag(c: Config, xs: seq<World>, i: nat, j: nat, key: Key, r: RPc, lost: nat)
    requires i <= j < |xs| && Resting(xs, i) && r.Recheck? && Records(c, xs, i, j, key, r, lost)
    ensures !Reissued(r.k, xs[j].w.g.draws)
  {
    var m :| i <= m <= j && m < |xs| && LookAt(xs[m].w, r.k.q.cell, r.k.lb, r.k.next);
  }

  /** Equal cells hold the same keys. */
  lemma SameKeys(c: Config, s: State, s': State, key: Key)
    requires Sane(c, s) && Sane(c, s') && s'.cells == s.cells && key in s.g.now
    ensures key in s'.g.now
  {
    SaneBase(c, s);
    SaneBase(c, s');
    assert KeyOk(s.cells, s.g.slot, key);
    assert UsedOk(s'.cells, c.probe, s'.g.slot, s.g.slot[key]);
  }

  lemma KeyStays(c: Config, xs: seq<World>, es: seq<Event>, i: nat, key: Key, j: nat)
    requires FindRun(c, {}, xs, es, i, key) && Resting(xs, i + 1) && i < j < |xs| && key in xs[j].w.g.now
    ensures FindRun(c, {key}, xs, es, i, key)
  {
    forall m {:trigger xs[m]} | i < m <= |es| ensures {key} <= xs[m].w.g.now.Keys {
      RunSane(c, xs, es, j);
      RunSane(c, xs, es, m);
      SameKeys(c, xs[j].w, xs[m].w, key);
    }
  }

  /** No round is lost. */
  lemma {:induction false} RestingLosesNothing(c: Config, xs: seq<World>, es: seq<Event>, i: nat, key: Key, j: nat)
    requires FindRun(c, {}, xs, es, i, key) && Resting(xs, i + 1) && i < j <= |es| && |xs| == |es| + 1
    ensures Lost(xs, es, i + 1, j) == 0
  {
    if j > i + 1 {
      RestingLosesNothing(c, xs, es, i, key, j - 1);
      FindRecords(c, {}, xs, es, i, key, j - 1);
      RestingKeepsHandle(c, xs, i + 1, j - 1, key, xs[j - 1].r, Lost(xs, es, i + 1, j - 1), es[j - 1]);
    }
  }

  lemma RestingKeepsHandle(c: Config, xs: seq<World>, i: nat, j: nat, key: Key, r: RPc, lost: nat, e: Event)
    requires i <= j < |xs| && Resting(xs, i) && xs[j].r == r && Records(c, xs, i, j, key, r, lost)
    ensures !LostAt(xs[j], e)
  {
    if r.Recheck? {
      var m :| i <= m <= j && m < |xs| && LookAt(xs[m].w, r.k.q.cell, r.k.lb, r.k.next);
    }
  }

  /** Only the key's own cell is met with the key's bytes. */
  lemma RestingMeetsKey(c: Config, xs: seq<World>, es: seq<Event>, i: nat, key: Key, j: nat, cell: nat)
    requires Run(c, xs, es) && i <= j < |xs| && Resting(xs, i) && key in xs[j].w.g.slot && |key| == c.keyLen
    requires Met(xs, i, j, cell, key)
    ensures cell == xs[j].w.g.slot[key]
  {
    RunSane(c, xs, es, j);
    SaneBase(c, xs[j].w);
    var s := xs[j].w;
    var m :| i <= m <= j && m < |xs| && UsedAt(xs[m].w, cell);
    assert UsedAt(s, cell);
    forall b | 0 <= b < |key| ensures s.cells[cell].key[b] == key[b] {
      assert ByteSeen(xs, i, j, cell, b, key[b]);
      var p :| i <= p <= j && p < |xs| && ByteAt(xs[p].w, cell, b, key[b]);
    }
    assert s.cells[cell].key == key;
    assert UsedOk(s.cells, c.probe, s.g.slot, cell);
  }

  /**
   * If no cell changes and no tag is drawn during a Find, it returns true exactly for the keys that
   * are in the map, and yields their values; the writer may free nodes, die, or be repaired meanwhile.
   */
  lemma RestingFindIsExact(c: Config, xs: seq<World>, es: seq<Event>, i: nat, key: Key)
    requires FindEnds(c, {}, xs, es, i, key) && Resting(xs, i + 1)
    ensures xs[|es|].r.ok <==> key in xs[|es|].w.g.now
    ensures xs[|es|].r.ok ==> xs[|es|].r.val == xs[|es|].w.g.now[key]
  {
    var j := |es| - 1;
    LoadStep(c, xs, es, j);
    FindRecords(c, {}, xs, es, i, key, j);
    if xs[|es|].r.ok {
      FoundIsCurrent(c, xs, es, i, key);
      RestingKeepsTag(c, xs, i + 1, j, key, xs[j].r, Lost(xs, es, i + 1, j));
    } else if key in xs[j].w.g.now {
      KeyStays(c, xs, es, i, key, j);
      MissIsExplained(c, xs, es, i, key);
      RestingLosesNothing(c, xs, es, i, key, |es|);
      if xs[j].r.Recheck? { RestingKeepsTag(c, xs, i + 1, j, key, xs[j].r, Lost(xs, es, i + 1, j)); }
      var cell :| cell != xs[j].w.g.slot[key] && Met(xs, i + 1, j, cell, key);
      RestingMeetsKey(c, xs, es, i + 1, key, j, cell);
      assert false;
    }
  }
}
