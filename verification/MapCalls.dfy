/**
 * Whole calls of the writer, store by store to their end, for values that fit one node: which node
 * a call takes or gives back, and what is left as it was.
 */
module MapCalls {
  import opened Bytes
  import opened Paths
  import opened LinkRep
  import opened Cells
  import opened Tags
  import opened MapWriter
  import opened MapWriterProof
  import opened MapReader
  import opened MapRuns

  // ---------------------------------------------------------------------------
  // Stretches of a run

  /** A step of a run, other than the start of a Find, while the map holds the keys `keep`. */
  ghost function Stepping(c: Config, keep: set<Key>): (World, Event, World) -> bool {
    (x: World, e: Event, y: World) =>
      Follows(c, x, e, y) && !e.Ask? && keep <= x.w.g.now.Keys && keep <= y.w.g.now.Keys
  }

  /** A run that ends in the Find which its event `i` starts, and during which the map holds the keys `keep`. */
  ghost predicate FindRun(c: Config, keep: set<Key>, xs: seq<World>, es: seq<Event>, i: nat, key: Key) {
    && Run(c, xs, es) && i < |es| && es[i] == Ask(key)
    && (forall j {:trigger es[j]} :: i < j < |es| ==> !es[j].Ask?)
    && forall j {:trigger xs[j]} :: i < j <= |es| ==> keep <= xs[j].w.g.now.Keys
  }

  /** What leads to a Find and through it makes such a run. */
  lemma RunOf(c: Config, keep: set<Key>, x: World, y: World, key: Key, z: World)
      returns (xs: seq<World>, es: seq<Event>, i: nat)
    requires Init(c, x) && Leads(Stepping(c, {}), x, y) && y.r.RIdle? && |key| == c.keyLen
    requires Leads(Stepping(c, keep), y.(r := NextProbe(c, key, 0)), z) && keep <= y.w.g.now.Keys
    ensures FindRun(c, keep, xs, es, i, key) && i < |es| && |xs| == |es| + 1 && xs[i] == y && xs[|es|] == z
  {
    var a: seq<World>, d: seq<Event> :| Path(Stepping(c, {}), a, d) && a[0] == x && a[|d|] == y;
    var b: seq<World>, e: seq<Event> :|
      Path(Stepping(c, keep), b, e) && b[0] == y.(r := NextProbe(c, key, 0)) && b[|e|] == z;
    SteppingRuns(c, {});
    SteppingRuns(c, keep);
    AskFollows(c, y, key);
    Join(Stepping(c, {}), Stepping(c, keep), Running(c), a, d, Ask(key), b, e);
    xs, es, i := a + b, d + [Ask(key)] + e, |d|;
    RunningSteps(c, xs, es);
    forall j | i < j < |es| ensures !es[j].Ask? { Stepped(c, keep, xs[j], es[j], xs[j + 1]); }
    forall j | i < j <= |es| ensures keep <= xs[j].w.g.now.Keys {
      if j == i + 1 { assert xs[j] == b[0]; } else { Stepped(c, keep, xs[j - 1], es[j - 1], xs[j - 1 + 1]); }
    }
  }

  lemma SteppingRuns(c: Config, keep: set<Key>)
    ensures forall x, e, y :: Stepping(c, keep)(x, e, y) ==> Running(c)(x, e, y)
  {
  }

  lemma Stepped(c: Config, keep: set<Key>, x: World, e: Event, y: World)
    requires Stepping(c, keep)(x, e, y)
    ensures !e.Ask? && keep <= x.w.g.now.Keys && keep <= y.w.g.now.Keys
  {
  }

  /** One load more. */
  lemma LastLoad(c: Config, keep: set<Key>, xs: seq<World>, es: seq<Event>, i: nat, key: Key, z: World)
    requires FindRun(c, keep, xs, es, i, key) && Next(c, xs[|es|], Load, z)
    ensures FindRun(c, keep, xs + [z], es + [Load], i, key)
  {
    var ys, fs := xs + [z], es + [Load];
    NextFollows(c, xs[|es|], Load, z);
    forall j | 0 <= j < |fs| ensures Follows(c, ys[j], fs[j], ys[j + 1]) {
      if j < |es| { assert Follows(c, xs[j], es[j], xs[j + 1]); }
    }
  }

  /** A new segment with two usable nodes of 9 bytes. */
  ghost function NewWorld(c: Config): World {
    World(State(NewTable(9, 3),
                seq(c.cellNum, i requires 0 <= i < c.cellNum => Cell(seq(c.keyLen, _ => 0), NO_BUF)), Idle,
                Ghost(NewView(3), map[], map[], map[], 0, [], Del([]), false, map[], map[])),
          RIdle)
  }

  /** A search of a key with one probe. */
  lemma OneProbe(cells: seq<Cell<Key>>, i: nat, key: Key)
    requires i < |cells|
    ensures ProbesOk(|cells|, [i])
    ensures FindOrAlloc(cells, [i], key) ==
              if !cells[i].lb.IsSet() then Vacant(i) else if cells[i].key == key then Found(i) else Full
  {
  }

  lemma TopIsNode(t: Table, v: View)
    requires Rep(t, v) && v.free != []
    ensures 0 < v.free[|v.free| - 1] < |t.nodes|
  {
    assert FreeLinkOk(t, v, |v.free| - 1);
  }

  // ---------------------------------------------------------------------------
  // Insert of a new key

  function Top(s: State): nat
    requires s.g.view.free != []
  {
    s.g.view.free[|s.g.view.free| - 1]
  }

  ghost function Rest(s: State): seq<nat>
    requires s.g.view.free != []
  {
    s.g.view.free[..|s.g.view.free| - 1]
  }

  /** Cells other than `i` and the tables' sizes stay. */
  ghost predicate Around(s0: State, s: State, i: nat) {
    && s.t.unit == s0.t.unit && |s.t.nodes| == |s0.t.nodes| && |s.cells| == |s0.cells|
    && forall j :: 0 <= j < |s.cells| && j != i ==> s.cells[j] == s0.cells[j]
  }

  /** Nothing is published yet. */
  ghost predicate Hidden(s0: State, s: State, i: nat)
    requires i < |s0.cells|
  {
    && Around(s0, s, i) && s.cells[i].lb == s0.cells[i].lb
    && s.g.own == s0.g.own && s.g.slot == s0.g.slot && s.g.birth == s0.g.birth && s.g.now == s0.g.now
  }

  /** New has drawn a tag, and the node `Top(s0)` is on the free list, at hand, or a chain. */
  ghost predicate Growth(s0: State, s: State, job: Job, a: Alloc, taken: bool, started: bool, linked: bool)
    requires s0.g.view.free != []
  {
    && a.job == job && s.g.draws == s0.g.draws + 1
    && a.chain == (if linked then [Top(s0)] else [])
    && s.g.view.free == (if taken then Rest(s0) else s0.g.view.free)
    && s.g.view.chains == (if started then s0.g.view.chains[Top(s0) := [Top(s0)]] else s0.g.view.chains)
  }

  /** The insert is done: the value is in node `Top(s0)`, with the next tag. */
  ghost predicate Inserted(s0: State, s: State, job: Job)
    requires s0.g.view.free != [] && job.cell < |s0.cells|
  {
    var top, d, g, g0 := Top(s0), s0.g.draws + 1, s.g, s0.g;
    && Around(s0, s, job.cell) && s.cells[job.cell] == Cell(job.key, Handle(top, TagAt(d)))
    && g.draws == d && g.view.free == Rest(s0) && g.view.chains == g0.view.chains[top := [top]]
    && g.own == g0.own[top := job.cell] && g.slot == g0.slot[job.key := job.cell]
    && g.birth == g0.birth[top := d] && g.now == g0.now[job.key := job.val]
  }

  /** Where an insert that began in `s0` has got to. */
  ghost predicate Inserting(s0: State, s: State, job: Job)
    requires s0.g.view.free != [] && job.cell < |s0.cells|
  {
    var top := Top(s0);
    match s.pc
    case Idle => Inserted(s0, s, job)
    case Draw(j) => Hidden(s0, s, job.cell) && j == job && s.g.draws == s0.g.draws && s.g.view == s0.g.view
    case DrawAgain(j) => Hidden(s0, s, job.cell) && j == job && s.g.draws == s0.g.draws && s.g.view == s0.g.view
    case Take(a) => Hidden(s0, s, job.cell) && Growth(s0, s, job, a, false, false, false)
    case TakeCount(a, n) => n == top && Hidden(s0, s, job.cell) && Growth(s0, s, job, a, true, false, false)
    case ClearNext(a, n) => n == top && Hidden(s0, s, job.cell) && Growth(s0, s, job, a, true, false, false)
    case SetTag(a, n) => n == top && Hidden(s0, s, job.cell) && Growth(s0, s, job, a, true, false, false)
    case FlagHead(a, n) => n == top && Hidden(s0, s, job.cell) && Growth(s0, s, job, a, true, false, false)
    case SetLen(a, n) => n == top && Hidden(s0, s, job.cell) && Growth(s0, s, job, a, true, true, false)
    case SetCrc(a, n) => n == top && Hidden(s0, s, job.cell) && Growth(s0, s, job, a, true, true, false)
    case Copy(a, n, j) => n == top && Hidden(s0, s, job.cell) && Growth(s0, s, job, a, true, true, false)
    case Link(a, n) => n == top && Hidden(s0, s, job.cell) && Growth(s0, s, job, a, true, true, false)
    case CountBuf(a) => Hidden(s0, s, job.cell) && Growth(s0, s, job, a, true, true, true)
    case CountBytes(a) => Hidden(s0, s, job.cell) && Growth(s0, s, job, a, true, true, true)
    case WriteKey(a, j) => Hidden(s0, s, job.cell) && Growth(s0, s, job, a, true, true, true)
    case Publish(a) => Hidden(s0, s, job.cell) && Growth(s0, s, job, a, true, true, true)
    case _ => false
  }

  /** Stores still to come. */
  function InsertRank(c: Config, pc: Pc, len: nat): int {
    var k := c.keyLen;
    match pc
    case Publish(_) => 1
    case WriteKey(_, j) => 1 + k - j
    case CountBytes(_) => 2 + k
    case CountBuf(_) => 3 + k
    case Link(_, _) => 4 + k
    case Copy(_, _, j) => 4 + k + len - j
    case SetCrc(_, _) => 5 + k + len
    case SetLen(_, _) => 6 + k + len
    case FlagHead(_, _) => 7 + k + len
    case SetTag(_, _) => 8 + k + len
    case ClearNext(_, _) => 9 + k + len
    case TakeCount(_, _) => 10 + k + len
    case Take(_) => 11 + k + len
    case DrawAgain(_) => 12 + k + len
    case Draw(_) => 13 + k + len
    case _ => 0
  }

  /** The value fits one node. */
  predicate Short(t: Table, val: seq<Byte>) { t.unit >= 8 && 0 < |val| <= t.unit - 8 }

  ghost predicate InsertingAt(c: Config, s0: State, s: State, job: Job) {
    && s0.g.view.free != [] && job.cell < |s0.cells| && !job.found && Short(s0.t, job.val) && |job.key| == c.keyLen
    && Sane(c, s) && Inserting(s0, s, job)
  }

  lemma InsertDraws(c: Config, s0: State, s: State, job: Job, s': State)
    requires InsertingAt(c, s0, s, job) && InBounds(c, s) && s' == Advance(c, s, 0)
    requires s.pc.Draw? || s.pc.DrawAgain? || s.pc.Take? || s.pc.TakeCount? || s.pc.ClearNext?
    ensures Inserting(s0, s', job) && 0 <= InsertRank(c, s'.pc, |job.val|) < InsertRank(c, s.pc, |job.val|)
  {
    SaneInv(c, s);
  }

  lemma InsertStarts(c: Config, s0: State, s: State, job: Job, s': State)
    requires InsertingAt(c, s0, s, job) && InBounds(c, s) && s' == Advance(c, s, 0)
    requires s.pc.SetTag? || s.pc.FlagHead? || s.pc.SetLen?
    ensures Inserting(s0, s', job) && 0 <= InsertRank(c, s'.pc, |job.val|) < InsertRank(c, s.pc, |job.val|)
  {
    SaneInv(c, s);
  }

  lemma InsertFills(c: Config, s0: State, s: State, job: Job, s': State)
    requires InsertingAt(c, s0, s, job) && InBounds(c, s) && s' == Advance(c, s, 0)
    requires s.pc.SetCrc? || s.pc.Copy? || s.pc.Link?
    ensures Inserting(s0, s', job) && 0 <= InsertRank(c, s'.pc, |job.val|) < InsertRank(c, s.pc, |job.val|)
  {
    SaneInv(c, s);
    BufNodesLeast(s.t.unit, |job.val|, 1);
  }

  lemma InsertCounts(c: Config, s0: State, s: State, job: Job, s': State)
    requires InsertingAt(c, s0, s, job) && InBounds(c, s) && s' == Advance(c, s, 0)
    requires s.pc.CountBuf? || s.pc.CountBytes? || s.pc.WriteKey?
    ensures Inserting(s0, s', job) && 0 <= InsertRank(c, s'.pc, |job.val|) < InsertRank(c, s.pc, |job.val|)
  {
    SaneInv(c, s);
  }

  lemma InsertEnds(c: Config, s0: State, s: State, job: Job, s': State)
    requires InsertingAt(c, s0, s, job) && InBounds(c, s) && s' == Advance(c, s, 0) && s.pc.Publish?
    ensures Inserting(s0, s', job) && 0 <= InsertRank(c, s'.pc, |job.val|) < InsertRank(c, s.pc, |job.val|)
  {
    SaneInv(c, s);
  }

  lemma InsertStep(c: Config, s0: State, s: State, job: Job)
    requires InsertingAt(c, s0, s, job) && !s.pc.Idle?
    ensures InBounds(c, s)
    ensures var s' := Advance(c, s, 0);
            && InsertingAt(c, s0, s', job)
            && 0 <= InsertRank(c, s'.pc, |job.val|) < InsertRank(c, s.pc, |job.val|)
  {
    SaneStep(c, s, 0);
    var s' := Advance(c, s, 0);
    if s.pc.Draw? || s.pc.DrawAgain? || s.pc.Take? || s.pc.TakeCount? || s.pc.ClearNext? {
      InsertDraws(c, s0, s, job, s');
    } else if s.pc.SetTag? || s.pc.FlagHead? || s.pc.SetLen? {
      InsertStarts(c, s0, s, job, s');
    } else if s.pc.SetCrc? || s.pc.Copy? || s.pc.Link? {
      InsertFills(c, s0, s, job, s');
    } else if s.pc.Publish? {
      InsertEnds(c, s0, s, job, s');
    } else {
      InsertCounts(c, s0, s, job, s');
    }
  }

  /** The map holds the keys while an insert is under way. */
  lemma InsertKeeps(s0: State, s: State, job: Job, keep: set<Key>)
    requires s0.g.view.free != [] && job.cell < |s0.cells| && Inserting(s0, s, job) && keep <= s0.g.now.Keys
    ensures keep <= s.g.now.Keys
  {
  }

  /** An insert that is under way ends. */
  lemma {:induction false} InsertRuns(c: Config, keep: set<Key>, s0: State, x: World, job: Job) returns (y: World)
    requires InsertingAt(c, s0, x.w, job) && keep <= s0.g.now.Keys
    ensures Leads(Stepping(c, keep), x, y) && y.r == x.r && y.w.pc.Idle?
    ensures Sane(c, y.w) && Inserted(s0, y.w, job)
    decreases InsertRank(c, x.w.pc, |job.val|)
  {
    if x.w.pc.Idle? {
      LeadsNowhere(Stepping(c, keep), x);
      return x;
    }
    InsertStep(c, s0, x.w, job);
    var z := x.(w := Advance(c, x.w, 0));
    InsertKeeps(s0, x.w, job, keep);
    InsertKeeps(s0, z.w, job, keep);
    StoreLeads(c, keep, x, z);
    y := InsertRuns(c, keep, s0, z, job);
    LeadsOn(Stepping(c, keep), x, z, y);
  }

  lemma StoreLeads(c: Config, keep: set<Key>, x: World, y: World)
    requires InBounds(c, x.w) && y == x.(w := Advance(c, x.w, 0))
    requires keep <= x.w.g.now.Keys && keep <= y.w.g.now.Keys
    ensures Leads(Stepping(c, keep), x, y)
  {
    StoreFollows(c, x, 0);
    LeadsOnce(Stepping(c, keep), x, Store(0), y);
  }

  lemma CallLeads(c: Config, keep: set<Key>, x: World, op: Op)
    requires Sane(c, x.w) && x.w.pc.Idle? && |op.key| == c.keyLen && keep <= x.w.g.now.Keys
    ensures WellSized(x.w.t) && ProbesOk(|x.w.cells|, c.probe(op.key))
    ensures var y := x.(w := Begin(c, x.w, op));
            Sane(c, y.w) && y.w.g.now == x.w.g.now && Leads(Stepping(c, keep), x, y)
  {
    SaneCall(c, x.w, op);
    CallFollows(c, x, op);
    LeadsOnce(Stepping(c, keep), x, Call(op), x.(w := Begin(c, x.w, op)));
  }

  lemma InsertBegins(c: Config, s: State, key: Key, val: seq<Byte>, cell: nat)
    requires Sane(c, s) && s.pc.Idle? && ProbesOk(|s.cells|, c.probe(key)) && WellSized(s.t)
    requires FindOrAlloc(s.cells, c.probe(key), key) == Vacant(cell) && cell < |s.cells|
    requires s.g.view.free != [] && Short(s.t, val) && |val| < U32
    ensures Inserting(s, Begin(c, s, Put(key, val, false)), Job(cell, key, val, false))
  {
    SaneInv(c, s);
    BufNodesLeast(s.t.unit, |val|, 1);
  }

  /** Insert of a new key into the vacant cell that FindOrAlloc finds. */
  lemma InsertCall(c: Config, keep: set<Key>, x: World, key: Key, val: seq<Byte>, cell: nat) returns (y: World)
    requires Sane(c, x.w) && x.w.pc.Idle? && |key| == c.keyLen && ProbesOk(|x.w.cells|, c.probe(key))
    requires FindOrAlloc(x.w.cells, c.probe(key), key) == Vacant(cell) && cell < |x.w.cells|
    requires x.w.g.view.free != [] && Short(x.w.t, val) && |val| < U32 && keep <= x.w.g.now.Keys
    ensures Leads(Stepping(c, keep), x, y) && y.r == x.r && y.w.pc.Idle?
    ensures Sane(c, y.w) && Inserted(x.w, y.w, Job(cell, key, val, false))
  {
    var op := Put(key, val, false);
    CallLeads(c, keep, x, op);
    InsertBegins(c, x.w, key, val, cell);
    var z := x.(w := Begin(c, x.w, op));
    y := InsertRuns(c, keep, x.w, z, Job(cell, key, val, false));
    LeadsOn(Stepping(c, keep), x, z, y);
  }

  // ---------------------------------------------------------------------------
  // Erase

  /** The handle is out of its cell `i`, which held `cell`. */
  ghost predicate Unpublished(s0: State, s: State, i: nat, free: seq<nat>, chained: bool)
    requires i < |s0.cells|
  {
    var cell, g, g0 := s0.cells[i], s.g, s0.g;
    && Around(s0, s, i) && !s.cells[i].lb.IsSet() && g.draws == g0.draws && g.birth == g0.birth
    && g.own == g0.own - {cell.lb.head} && g.slot == g0.slot - {cell.key} && g.now == g0.now - {cell.key}
    && g.todo == [] && g.view.free == free
    && g.view.chains == (if chained then g0.view.chains else g0.view.chains - {cell.lb.head})
  }

  /** The erase is done: the cell is empty and its node on top of the free list. */
  ghost predicate Erased(s0: State, s: State, i: nat)
    requires i < |s0.cells|
  {
    Unpublished(s0, s, i, s0.g.view.free + [s0.cells[i].lb.head], false)
  }

  /** Where an erase that began in `s0` has got to. */
  ghost predicate Erasing(s0: State, s: State, i: nat)
    requires i < |s0.cells|
  {
    var lb, free := s0.cells[i].lb, s0.g.view.free;
    match s.pc
    case Idle => Erased(s0, s, i)
    case Clear(j) => j == i && Around(s0, s, i) && s.cells[i] == s0.cells[i] && s.g.view == s0.g.view
                     && s.g.draws == s0.g.draws && s.g.birth == s0.g.birth && s.g.own == s0.g.own
                     && s.g.slot == s0.g.slot && s.g.now == s0.g.now
    case ClearKey(j, b, _) => j == i && b == lb && Unpublished(s0, s, i, free, true)
    case Untag(d) => d.lb == lb && d.n == lb.head && Unpublished(s0, s, i, free, true)
    case Relink(d) => d.lb == lb && d.n == lb.head && d.rest == 0 && Unpublished(s0, s, i, free, false)
    case PushTop(d) => d.lb == lb && d.n == lb.head && d.rest == 0 && Unpublished(s0, s, i, free, false)
    case CountFree(d) => d.rest == 0 && Erased(s0, s, i)
    case DropBuf(_) => Erased(s0, s, i)
    case DropBytes(_) => Erased(s0, s, i)
    case _ => false
  }

  function EraseRank(c: Config, pc: Pc): int {
    match pc
    case DropBytes(_) => 1
    case DropBuf(_) => 2
    case CountFree(_) => 3
    case PushTop(_) => 4
    case Relink(_) => 5
    case Untag(_) => 6
    case ClearKey(_, _, j) => 6 + c.keyLen - j
    case Clear(_) => 7 + c.keyLen
    case _ => 0
  }

  /** The cell holds a chain of one node. */
  ghost predicate ErasingAt(c: Config, s0: State, s: State, i: nat) {
    && i < |s0.cells| && c.keyLen > 0
    && s0.cells[i].lb.tag < HEAD_FLAG && s0.cells[i].lb.head in s0.g.view.chains
    && s0.g.view.chains[s0.cells[i].lb.head] == [s0.cells[i].lb.head]
    && Sane(c, s) && Erasing(s0, s, i)
  }

  lemma EraseClears(c: Config, s0: State, s: State, i: nat, s': State)
    requires ErasingAt(c, s0, s, i) && InBounds(c, s) && s' == Advance(c, s, 0) && (s.pc.Clear? || s.pc.ClearKey?)
    ensures Erasing(s0, s', i) && 0 <= EraseRank(c, s'.pc) < EraseRank(c, s.pc)
  {
    SaneInv(c, s);
  }

  lemma EraseFrees(c: Config, s0: State, s: State, i: nat, s': State)
    requires ErasingAt(c, s0, s, i) && InBounds(c, s) && s' == Advance(c, s, 0) && !s.pc.Idle?
    requires !s.pc.Clear? && !s.pc.ClearKey?
    ensures Erasing(s0, s', i) && 0 <= EraseRank(c, s'.pc) < EraseRank(c, s.pc)
  {
    SaneInv(c, s);
  }

  lemma EraseStep(c: Config, s0: State, s: State, i: nat)
    requires ErasingAt(c, s0, s, i) && !s.pc.Idle?
    ensures InBounds(c, s)
    ensures var s' := Advance(c, s, 0);
            ErasingAt(c, s0, s', i) && 0 <= EraseRank(c, s'.pc) < EraseRank(c, s.pc)
  {
    SaneStep(c, s, 0);
    var s' := Advance(c, s, 0);
    if s.pc.Clear? || s.pc.ClearKey? { EraseClears(c, s0, s, i, s'); } else { EraseFrees(c, s0, s, i, s'); }
  }

  lemma EraseKeeps(s0: State, s: State, i: nat, keep: set<Key>)
    requires i < |s0.cells| && Erasing(s0, s, i) && keep <= s0.g.now.Keys - {s0.cells[i].key}
    ensures keep <= s.g.now.Keys
  {
  }

  /** An erase that is under way ends. */
  lemma {:induction false} EraseRuns(c: Config, keep: set<Key>, s0: State, x: World, i: nat) returns (y: World)
    requires ErasingAt(c, s0, x.w, i) && keep <= s0.g.now.Keys - {s0.cells[i].key}
    ensures Leads(Stepping(c, keep), x, y) && y.r == x.r && y.w.pc.Idle?
    ensures Sane(c, y.w) && Erased(s0, y.w, i)
    decreases EraseRank(c, x.w.pc)
  {
    if x.w.pc.Idle? {
      LeadsNowhere(Stepping(c, keep), x);
      return x;
    }
    EraseStep(c, s0, x.w, i);
    var z := x.(w := Advance(c, x.w, 0));
    EraseKeeps(s0, x.w, i, keep);
    EraseKeeps(s0, z.w, i, keep);
    StoreLeads(c, keep, x, z);
    y := EraseRuns(c, keep, s0, z, i);
    LeadsOn(Stepping(c, keep), x, z, y);
  }

  /** Erase of the key in the cell that the search finds. */
  lemma EraseCall(c: Config, keep: set<Key>, x: World, key: Key, cell: nat) returns (y: World)
    requires Sane(c, x.w) && x.w.pc.Idle? && |key| == c.keyLen > 0 && ProbesOk(|x.w.cells|, c.probe(key))
    requires FindOrAlloc(x.w.cells, c.probe(key), key) == Found(cell) && cell < |x.w.cells|
    requires x.w.cells[cell].lb.head in x.w.g.view.chains
    requires x.w.g.view.chains[x.w.cells[cell].lb.head] == [x.w.cells[cell].lb.head]
    requires x.w.cells[cell].lb.IsSet() && keep <= x.w.g.now.Keys - {x.w.cells[cell].key}
    ensures Leads(Stepping(c, keep), x, y) && y.r == x.r && y.w.pc.Idle?
    ensures Sane(c, y.w) && Erased(x.w, y.w, cell)
  {
    CallLeads(c, keep, x, Del(key));
    SaneBase(c, x.w);
    assert CellOk(c, x.w, cell);
    var z := x.(w := Begin(c, x.w, Del(key)));
    assert Erasing(x.w, z.w, cell);
    y := EraseRuns(c, keep, x.w, z, cell);
    LeadsOn(Stepping(c, keep), x, z, y);
  }

  // ---------------------------------------------------------------------------
  // A read while the writer rests

  /** A cell whose chain is one node with the value `[v]`. */
  ghost predicate Shows(c: Config, s: State, i: nat, v: Byte) {
    && WellSized(s.t) && i < |s.cells| && (forall j :: 0 <= j < |s.cells| ==> |s.cells[j].key| == c.keyLen)
    && var lb := s.cells[i].lb;
       && 0 < lb.head < |s.t.nodes| && lb.tag < HEAD_FLAG && s.t.unit >= 9 && |s.t.nodes[lb.head].payload| == s.t.unit
       && s.t.nodes[lb.head].tag == lb.tag + HEAD_FLAG
       && BufLen(s.t.nodes[lb.head]) == 1 && s.t.nodes[lb.head].payload[8] == v
       && BufCrc(s.t.nodes[lb.head]) == c.crc([v]) % U32
  }

  lemma NodeShows(crc: Crc, t: Table, h: nat, v: Byte)
    requires WellSized(t) && t.unit >= 9 && 0 < h < |t.nodes| && InRange(t.nodes, [h])
    requires Readable(crc, t, [h]) && Value(t, [h]) == [v]
    ensures |t.nodes[h].payload| == t.unit && BufLen(t.nodes[h]) == 1 && t.nodes[h].payload[8] == v
    ensures BufCrc(t.nodes[h]) == crc([v]) % U32
  {
    var node := t.nodes[h];
    assert NodeOk(t, node);
    assert Stream(t.nodes, [h]) == node.payload + Stream(t.nodes, []) == node.payload;
    assert node.payload[8..9] == [v] && node.payload[8..9][0] == node.payload[8];
    assert FirstPart(node) == [v];
  }

  lemma CellShows(c: Config, s: State, i: nat, v: Byte)
    requires Base(c, s) && i < |s.cells| && s.cells[i].lb.IsSet() && s.t.unit >= 9
    requires s.cells[i].key in s.g.now && s.g.now[s.cells[i].key] == [v]
    requires s.cells[i].lb.head in s.g.view.chains && s.g.view.chains[s.cells[i].lb.head] == [s.cells[i].lb.head]
    ensures Shows(c, s, i, v)
  {
    assert CellOk(c, s, i);
    NodeShows(c.crc, s.t, s.cells[i].lb.head, v);
  }

  lemma LoadLeads(c: Config, keep: set<Key>, x: World, y: World)
    requires RInBounds(c, x.w, x.r) && y == x.(r := RAdvance(c, x.w, x.r)) && keep <= x.w.g.now.Keys
    ensures Leads(Stepping(c, keep), x, y)
  {
    LoadFollows(c, x);
    LeadsOnce(Stepping(c, keep), x, Load, y);
  }

  lemma LoadsLead(c: Config, keep: set<Key>, x: World, y: World, z: World)
    requires Leads(Stepping(c, keep), x, y) && keep <= y.w.g.now.Keys
    requires RInBounds(c, y.w, y.r) && z == y.(r := RAdvance(c, y.w, y.r))
    ensures Leads(Stepping(c, keep), x, z)
  {
    LoadLeads(c, keep, y, z);
    LeadsOn(Stepping(c, keep), x, y, z);
  }

  /** The read for the length. */
  lemma LengthRead(c: Config, keep: set<Key>, x: World, k: Look, v: Byte)
    requires Shows(c, x.w, k.q.cell, v) && k.lb == x.w.cells[k.q.cell].lb && k.out == []
    requires x.r == Tag1(k) && keep <= x.w.g.now.Keys
    ensures Leads(Stepping(c, keep), x, x.(r := Tag2(k.(out := [0]))))
  {
    assert [] + [v] == [v] && Resize([], 1) == [0];
    LoadLeads(c, keep, x, x.(r := Len1(k)));
    LoadsLead(c, keep, x, x.(r := Len1(k)), x.(r := Sum1(k, 1, [])));
    LoadsLead(c, keep, x, x.(r := Sum1(k, 1, [])), x.(r := Crc1(k, 1, [v])));
    LoadsLead(c, keep, x, x.(r := Crc1(k, 1, [v])), x.(r := Tag2(k.(out := [0]))));
  }

  /** The read for the bytes. */
  lemma BytesRead(c: Config, keep: set<Key>, x: World, k: Look, v: Byte)
    requires Shows(c, x.w, k.q.cell, v) && k.lb == x.w.cells[k.q.cell].lb && k.out == [0]
    requires x.r == Tag2(k) && keep <= x.w.g.now.Keys && c.keyLen > 0
    ensures Leads(Stepping(c, keep), x, x.(r := CheckKey(k.(out := [v]), [])))
  {
    var k' := k.(out := [v]);
    assert [] + [v] == [v] && k.out[0 := v] == [v];
    LoadLeads(c, keep, x, x.(r := Len2(k)));
    LoadsLead(c, keep, x, x.(r := Len2(k)), x.(r := Copy2(k, 1, 0)));
    LoadsLead(c, keep, x, x.(r := Copy2(k, 1, 0)), x.(r := Sum2(k', 1, [])));
    LoadsLead(c, keep, x, x.(r := Sum2(k', 1, [])), x.(r := Crc2(k', 1, [v])));
    LoadsLead(c, keep, x, x.(r := Crc2(k', 1, [v])), x.(r := CheckKey(k', [])));
  }

  /** A round of DoRead up to the check of the key. */
  lemma RoundReads(c: Config, keep: set<Key>, x: World, q: Quest, v: Byte)
    requires x.r == LoadLb(q, []) && Shows(c, x.w, q.cell, v) && keep <= x.w.g.now.Keys && c.keyLen > 0
    ensures var lb := x.w.cells[q.cell].lb;
            var k := Look(q, lb, BornAt(x.w, lb), NextDraw(x.w), [v]);
            Leads(Stepping(c, keep), x, x.(r := CheckKey(k, [])))
  {
    var lb := x.w.cells[q.cell].lb;
    var k := Look(q, lb, BornAt(x.w, lb), NextDraw(x.w), []);
    var y, z := x.(r := Tag1(k)), x.(r := Tag2(k.(out := [0])));
    LoadLeads(c, keep, x, y);
    LengthRead(c, keep, y, k, v);
    LeadsOn(Stepping(c, keep), x, y, z);
    BytesRead(c, keep, z, k.(out := [0]), v);
    LeadsOn(Stepping(c, keep), x, z, x.(r := CheckKey(k.(out := [v]), [])));
  }
}
