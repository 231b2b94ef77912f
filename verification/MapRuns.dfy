/**
 * Whole runs of the hash map: one writer and one reader, interleaved load by load and store by
 * store, from a newly created segment.  The writer may die before any store; the table is then
 * repaired and the run goes on.
 */
module MapRuns {
  import opened Bytes
  import opened Paths
  import opened LinkRep
  import opened Cells
  import opened Tags
  import opened MapWriter
  import opened MapWriterProof
  import opened MapReader
  import opened MapReaderProof
  import LinkOps
  import MapRep

  datatype World = World(w: State, r: RPc)

  /**
   * A call or a store of the writer, a call or a load of the reader; the death of the writer, a store
   * of a repair, and the end of a repair.
   */
  datatype Event = Call(op: Op) | Store(junk: Byte) | Ask(key: Key) | Load | Crash | Mend | Recover

  // ---------------------------------------------------------------------------
  // The new segment

  ghost predicate Init(c: Config, x: World) {
    && ConfigOk(c)
    && 2 <= |x.w.t.nodes| <= U32 && x.w.t.unit >= 8
    && x.w.t == NewTable(x.w.t.unit, |x.w.t.nodes|)
    && |x.w.cells| == c.cellNum
    && (forall i :: 0 <= i < |x.w.cells| ==> x.w.cells[i] == Cell(seq(c.keyLen, _ => 0), NO_BUF))
    && x.w.pc == Idle
    && x.w.g == Ghost(NewView(|x.w.t.nodes|), map[], map[], map[], 0, [], Del([]), false, map[], map[])
    && x.r == RIdle
  }

  // ---------------------------------------------------------------------------
  // Runs

  /**
   * What a repair does to the memory that a dead writer left, at every store (MapCrash.Repair shows
   * that HealthCheck does this): cells and published values stay.
   */
  ghost predicate Mended(s: State, s': State) {
    && s'.cells == s.cells && s'.t.tagSeqNext == s.t.tagSeqNext
    && s'.g == s.g.(view := s'.g.view, accepted := s'.g.accepted)
    && Rep(s'.t, s'.g.view)
    && MapRep.OwnedKept(s.t, s.g.view, s'.t, s'.g.view, s.g.own)
  }

  /** At its end nothing is leaked any more. */
  ghost predicate Revived(s: State, s': State) {
    && Mended(s, s') && s'.pc == Idle && s'.g.accepted == (s.g.now == Effect(s.g.op, s.g.before))
    && LinkOps.Sound(s'.t, s'.g.view) && MapRep.NoOrphan(s'.g.view, s.g.own)
  }

  ghost predicate Next(c: Config, x: World, e: Event, y: World) {
    match e
    case Call(op) =>
      && x.w.pc.Idle? && |op.key| == c.keyLen && WellSized(x.w.t) && ProbesOk(|x.w.cells|, c.probe(op.key))
      && y == x.(w := Begin(c, x.w, op))
    case Store(junk) => InBounds(c, x.w) && y == x.(w := Advance(c, x.w, junk))
    case Ask(key) => (x.r.RIdle? || x.r.Done?) && |key| == c.keyLen && y == x.(r := NextProbe(c, key, 0))
    case Load => RInBounds(c, x.w, x.r) && y == x.(r := RAdvance(c, x.w, x.r))
    case Crash => y == x.(w := x.w.(pc := Dead))
    case Mend => x.w.pc.Dead? && y.r == x.r && y.w.pc.Dead? && y.w.g.accepted == x.w.g.accepted && Mended(x.w, y.w)
    case Recover => x.w.pc.Dead? && y.r == x.r && Revived(x.w, y.w)
  }

  /** `Follows` is Next for proofs about whole runs, which look into Next only where they mention `OpenNext`. */
  ghost predicate Follows(c: Config, x: World, e: Event, y: World) {
    forall i {:trigger OpenNext(c, x, e, y, i)} :: OpenNext(c, x, e, y, i) ==> Next(c, x, e, y)
  }

  ghost predicate OpenNext(c: Config, x: World, e: Event, y: World, i: int) { true }

  lemma SaneBase(c: Config, s: State)
    requires Sane(c, s)
    ensures Base(c, s)
  {
    assert OpenInv(c, s, 0);
  }

  lemma SaneStep(c: Config, s: State, junk: Byte)
    requires Sane(c, s)
    ensures InBounds(c, s) && Sane(c, Advance(c, s, junk))
  {
    SaneInv(c, s);
    InvInBounds(c, s);
    AdvanceSane(c, s, Advance(c, s, junk), junk);
  }

  lemma SaneCall(c: Config, s: State, op: Op)
    requires Sane(c, s) && s.pc.Idle? && |op.key| == c.keyLen
    ensures WellSized(s.t) && ProbesOk(|s.cells|, c.probe(op.key)) && Sane(c, Begin(c, s, op))
  {
    SaneInv(c, s);
    BeginOk(c, s, op);
    InvSane(c, Begin(c, s, op));
  }

  lemma StoreFollows(c: Config, x: World, junk: Byte)
    requires InBounds(c, x.w)
    ensures Follows(c, x, Store(junk), x.(w := Advance(c, x.w, junk)))
  {
    NextFollows(c, x, Store(junk), x.(w := Advance(c, x.w, junk)));
  }

  lemma CallFollows(c: Config, x: World, op: Op)
    requires x.w.pc.Idle? && |op.key| == c.keyLen && WellSized(x.w.t) && ProbesOk(|x.w.cells|, c.probe(op.key))
    ensures Follows(c, x, Call(op), x.(w := Begin(c, x.w, op)))
  {
    NextFollows(c, x, Call(op), x.(w := Begin(c, x.w, op)));
  }

  lemma LoadFollows(c: Config, x: World)
    requires RInBounds(c, x.w, x.r)
    ensures Follows(c, x, Load, x.(r := RAdvance(c, x.w, x.r)))
  {
    NextFollows(c, x, Load, x.(r := RAdvance(c, x.w, x.r)));
  }

  lemma AskFollows(c: Config, x: World, key: Key)
    requires x.r.RIdle? && |key| == c.keyLen
    ensures Follows(c, x, Ask(key), x.(r := NextProbe(c, key, 0)))
  {
    NextFollows(c, x, Ask(key), x.(r := NextProbe(c, key, 0)));
  }

  lemma CrashFollows(c: Config, x: World)
    ensures Follows(c, x, Crash, x.(w := x.w.(pc := Dead)))
  {
    NextFollows(c, x, Crash, x.(w := x.w.(pc := Dead)));
  }

  lemma MendFollows(c: Config, x: World, y: World)
    requires x.w.pc.Dead? && y.r == x.r && y.w.pc.Dead? && y.w.g.accepted == x.w.g.accepted && Mended(x.w, y.w)
    ensures Follows(c, x, Mend, y)
  {
    NextFollows(c, x, Mend, y);
  }

  lemma RecoverFollows(c: Config, x: World, y: World)
    requires x.w.pc.Dead? && y.r == x.r && Revived(x.w, y.w)
    ensures Follows(c, x, Recover, y)
  {
    NextFollows(c, x, Recover, y);
  }

  lemma NextFollows(c: Config, x: World, e: Event, y: World)
    requires Next(c, x, e, y)
    ensures Follows(c, x, e, y)
  {
  }

  lemma FollowsNext(c: Config, x: World, e: Event, y: World)
    requires Follows(c, x, e, y)
    ensures Next(c, x, e, y)
  {
    assert OpenNext(c, x, e, y, 0);
  }

  ghost predicate Steps(c: Config, xs: seq<World>, es: seq<Event>) {
    && |xs| == |es| + 1
    && forall i {:trigger es[i]} :: 0 <= i < |es| ==> Follows(c, xs[i], es[i], xs[i + 1])
  }

  /** The steps of a run as a relation. */
  ghost function Running(c: Config): (World, Event, World) -> bool {
    (x: World, e: Event, y: World) => Follows(c, x, e, y)
  }

  lemma RunningSteps(c: Config, xs: seq<World>, es: seq<Event>)
    requires Path(Running(c), xs, es)
    ensures Steps(c, xs, es)
  {
    forall j | 0 <= j < |es| ensures Follows(c, xs[j], es[j], xs[j + 1]) {
      assert Running(c)(xs[j], es[j], xs[j + 1]);
    }
  }

  ghost predicate Run(c: Config, xs: seq<World>, es: seq<Event>) {
    Steps(c, xs, es) && Init(c, xs[0])
  }

  ghost predicate Good(c: Config, x: World) {
    Inv(c, x.w) && RInv(c, x.w, x.r)
  }

  lemma InitGood(c: Config, x: World)
    requires Init(c, x)
    ensures Good(c, x)
  {
    NewTableRep(x.w.t.unit, |x.w.t.nodes|);
  }

  lemma CallGood(c: Config, x: World, op: Op, y: World)
    requires Good(c, x) && Next(c, x, Call(op), y)
    ensures Good(c, y)
  {
    BeginOk(c, x.w, op);
    CalmKeepsReader(c, x.w, y.w, x.r);
  }

  lemma StoreGood(c: Config, x: World, junk: Byte, y: World)
    requires Good(c, x) && Next(c, x, Store(junk), y)
    ensures Good(c, y)
  {
    AdvanceOk(c, x.w, y.w, junk);
    CalmKeepsReader(c, x.w, y.w, x.r);
  }

  lemma LoadGood(c: Config, x: World, y: World)
    requires Good(c, x) && Next(c, x, Load, y)
    ensures Good(c, y)
  {
    DrawnIsYoungest(c, x.w);
    RAdvanceOk(c, x.w, x.r, y.r);
  }

  lemma RecoverGood(c: Config, x: World, y: World)
    requires Good(c, x) && Next(c, x, Recover, y)
    ensures Good(c, y)
  {
    RevivedOk(c, x.w, y.w);
    MendedCalm(c, x.w, y.w);
    CalmKeepsReader(c, x.w, y.w, x.r);
  }

  lemma CrashGood(c: Config, x: World, y: World)
    requires Good(c, x) && Next(c, x, Crash, y)
    ensures Good(c, y)
  {
    DeathOk(c, x.w);
    CalmKeepsReader(c, x.w, y.w, x.r);
  }

  lemma MendGood(c: Config, x: World, y: World)
    requires Good(c, x) && Next(c, x, Mend, y)
    ensures Good(c, y)
  {
    MendedBase(c, x.w, y.w);
    MendedCalm(c, x.w, y.w);
    CalmKeepsReader(c, x.w, y.w, x.r);
  }

  lemma NextGood(c: Config, x: World, e: Event, y: World)
    requires Good(c, x) && Next(c, x, e, y)
    ensures Good(c, y)
  {
    match e
    case Call(op) => CallGood(c, x, op, y);
    case Store(junk) => StoreGood(c, x, junk, y);
    case Ask(key) =>
    case Load => LoadGood(c, x, y);
    case Crash => CrashGood(c, x, y);
    case Mend => MendGood(c, x, y);
    case Recover => RecoverGood(c, x, y);
  }

  /** Wherever the writer dies, the memory represents a map with the contents before the operation or after it. */
  lemma DeathOk(c: Config, s: State)
    requires Inv(c, s)
    ensures Inv(c, s.(pc := Dead)) && Calm(s, s.(pc := Dead))
  {
    var s' := s.(pc := Dead);
    forall i | 0 <= i < |s'.cells| && s'.cells[i].lb.IsSet() ensures CellOk(c, s', i) && Kept(s, s', i) {
      assert CellOk(c, s, i);
      ChainNodes(s.t, s.g.view, s.cells[i].lb.head);
    }
    forall h | h in s'.g.own ensures OwnOk(s', h) { assert OwnOk(s, h); }
    OldOrNew(c, s);
  }

  lemma MendedBase(c: Config, s: State, s': State)
    requires Base(c, s) && Mended(s, s')
    ensures Base(c, s')
  {
    forall i | 0 <= i < |s'.cells| && s'.cells[i].lb.IsSet() ensures CellOk(c, s', i) {
      assert CellOk(c, s, i);
      MapRep.ValueFrame(c.crc, s.t, s.g.view, s'.t, s'.g.view, s.g.own, s.cells[i].lb);
    }
    forall h | h in s'.g.own ensures OwnOk(s', h) { assert OwnOk(s, h); }
  }

  /** A repair leads to a state in which the writer can go on. */
  lemma RevivedOk(c: Config, s: State, s': State)
    requires Inv(c, s) && Revived(s, s')
    ensures Inv(c, s')
  {
    MendedBase(c, s, s');
    OldOrNew(c, s);
  }

  /** A store of a repair disturbs no reader: published values stay where they are. */
  lemma MendedCalm(c: Config, s: State, s': State)
    requires Base(c, s) && Mended(s, s') && !Drawn(s'.pc)
    ensures Calm(s, s')
  {
    forall i | 0 <= i < |s.cells| && s'.cells[i].lb.IsSet() ensures Kept(s, s', i) {
      assert CellOk(c, s, i);
      ChainNodes(s.t, s.g.view, s.cells[i].lb.head);
    }
  }

  /** At every store the contents are those before the operation or those after it. */
  lemma OldOrNew(c: Config, s: State)
    requires Inv(c, s)
    ensures s.g.now == s.g.before || s.g.now == Effect(s.g.op, s.g.before)
  {
    if Drawn(s.pc) { DrawnIsOld(c, s); }
  }

  lemma DrawnIsOld(c: Config, s: State)
    requires Base(c, s) && PcOk(c, s) && Drawn(s.pc)
    ensures s.g.now == s.g.before
  {
  }

  lemma {:induction false} StepsGood(c: Config, xs: seq<World>, es: seq<Event>, i: nat)
    requires Steps(c, xs, es) && i < |xs| && Good(c, xs[0])
    ensures Good(c, xs[i])
  {
    if i > 0 {
      StepsGood(c, xs, es, i - 1);
      assert Follows(c, xs[i - 1], es[i - 1], xs[i - 1 + 1]);
      FollowsNext(c, xs[i - 1], es[i - 1], xs[i]);
      NextGood(c, xs[i - 1], es[i - 1], xs[i]);
    }
  }

  lemma RunGood(c: Config, xs: seq<World>, es: seq<Event>, i: nat)
    requires Run(c, xs, es) && i < |xs|
    ensures Good(c, xs[i])
  {
    InitGood(c, xs[0]);
    StepsGood(c, xs, es, i);
  }

  lemma RunReads(c: Config, xs: seq<World>, es: seq<Event>, i: nat)
    requires Run(c, xs, es) && i < |xs|
    ensures Base(c, xs[i].w) && RInv(c, xs[i].w, xs[i].r)
  {
    RunGood(c, xs, es, i);
  }

  lemma RunSane(c: Config, xs: seq<World>, es: seq<Event>, i: nat)
    requires Run(c, xs, es) && i < |xs|
    ensures Sane(c, xs[i].w)
  {
    RunGood(c, xs, es, i);
    InvSane(c, xs[i].w);
  }

  lemma LoadStep(c: Config, xs: seq<World>, es: seq<Event>, i: nat)
    requires Run(c, xs, es) && i < |es| && es[i] == Load
    ensures RInBounds(c, xs[i].w, xs[i].r) && xs[i + 1] == xs[i].(r := RAdvance(c, xs[i].w, xs[i].r))
  {
    assert Follows(c, xs[i], es[i], xs[i + 1]);
    FollowsNext(c, xs[i], es[i], xs[i + 1]);
  }

  // ---------------------------------------------------------------------------
  // Main results

  /**
   * In every run, neither process touches memory outside the tables: the next store and the next
   * load are always within bounds.
   */
  lemma AlwaysInBounds(c: Config, xs: seq<World>, es: seq<Event>, i: nat)
    requires Run(c, xs, es) && i < |xs|
    ensures InBounds(c, xs[i].w) && RInBounds(c, xs[i].w, xs[i].r)
  {
    RunGood(c, xs, es, i);
    InvInBounds(c, xs[i].w);
    RInvInBounds(c, xs[i].w, xs[i].r);
  }

  /** A draw since the load, other than the handle's own, has given the handle's tag away again. */
  ghost predicate Reissued(k: Look, draws: nat) {
    exists e :: k.next <= e <= draws && e != k.born && TagAt(e) == k.lb.tag
  }

  /**
   * Optimistic reads are linearizable: when Find returns true, the map holds exactly the returned
   * value for the key at the moment of the second load of the handle, unless its tag was drawn
   * again during the round.
   */
  lemma FindIsLinearizable(c: Config, xs: seq<World>, es: seq<Event>, i: nat)
    requires Run(c, xs, es) && i < |es| && es[i] == Load
    requires xs[i].r.Recheck? && xs[i + 1].r.Done? && xs[i + 1].r.ok
    requires !Reissued(xs[i].r.k, xs[i].w.g.draws)
    ensures var now := xs[i].w.g.now;
            xs[i + 1].r.key in now && now[xs[i + 1].r.key] == xs[i + 1].r.val
  {
    RunReads(c, xs, es, i);
    LoadStep(c, xs, es, i);
    RecheckIsExact(c, xs[i].w, xs[i].r.k);
  }

  /** Two equal loads of the handle, whose tag was not drawn again, enclose no change of the cell. */
  lemma RecheckIsExact(c: Config, s: State, k: Look)
    requires Base(c, s) && RInv(c, s, Recheck(k, true)) && k.q.cell < |s.cells|
    requires s.cells[k.q.cell].lb == k.lb && k.lb.IsSet() && !Reissued(k, s.g.draws)
    ensures k.q.key in s.g.now && s.g.now[k.q.key] == k.out
  {
    assert CellOk(c, s, k.q.cell);
    var b := s.g.birth[k.lb.head];
    assert TagAt(b) == k.lb.tag;
    assert Stable(s, k);
    assert k.out[..|k.out|] == k.out;
    assert Seen(c, s, k)[..|k.out|] == Seen(c, s, k);
  }

  /** A tag is not drawn again for a window after its own draw, whatever happens to the handle. */
  lemma YoungIsNotReissued(k: Look, draws: nat)
    requires k.born < k.next && TagAt(k.born) == k.lb.tag && draws - k.born < TAG_WINDOW
    ensures !Reissued(k, draws)
  {
    forall e | k.next <= e <= draws && e != k.born ensures TagAt(e) != k.lb.tag {
      if TagAt(e) == TagAt(k.born) { TagGap(k.born, e); }
    }
  }
}
