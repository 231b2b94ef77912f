/**
 * Crash atomicity of the hash map: the small-step writer of MapWriter and the calls of HashMap work
 * on the same memory, so that HealthCheck can take over wherever the writer died.
 */
module MapCrash {
  import opened Bytes
  import opened Paths
  import opened LinkRep
  import opened Cells
  import opened Trails
  import opened MapWriter
  import opened MapWriterProof
  import opened MapRuns
  import MapReader
  import LinkOps
  import MapRep
  import opened HashMap

  /** The object's memory is the memory of the state. */
  ghost predicate SameMemory(c: Config, s: State, m: ShmHashMap<Key>)
    reads m, m.table.cells, m.links, m.links.nodes
  {
    && m.links.Tab() == s.t && m.table.cells[..] == s.cells
    && m.links.crc == c.crc && m.table.Shaped() && m.table.probe == c.probe
  }

  /** The writer's invariant implies what HealthCheck needs. */
  lemma StateRepresentsMap(c: Config, s: State)
    requires Base(c, s)
    ensures MapRep.MapOk(c.crc, c.probe, s.t, s.g.view, s.cells, s.g.own, s.g.slot, s.g.now)
  {
    forall i | 0 <= i < |s.cells| && s.cells[i].lb.IsSet()
      ensures MapRep.CellHolds(c.crc, s.t, s.g.view, s.cells, s.g.own, s.g.now, i)
    {
      assert CellOk(c, s, i) && NodeOk(s.t, s.t.nodes[s.cells[i].lb.head]);
    }
    forall h | h in s.g.own ensures MapRep.OwnerOk(s.cells, s.g.own, h) { assert OwnOk(s, h); }
  }

  /** A step of the run keeps the operation under way and the contents before it, unless it is a call. */
  lemma StoreKeepsCall(c: Config, x: World, e: Event, y: World)
    requires Next(c, x, e, y)
    ensures if e.Call? then y.w.g.op == e.op && y.w.g.before == x.w.g.now == y.w.g.now
            else y.w.g.op == x.w.g.op && y.w.g.before == x.w.g.before
    ensures !e.Call? && !e.Recover? ==> y.w.g.accepted == x.w.g.accepted
  {
    match e
    case Call(op) =>
    case Store(junk) => AdvanceKeepsCall(c, x.w, y.w, junk);
    case Ask(key) =>
    case Load =>
    case Crash =>
    case Mend =>
    case Recover =>
  }

  lemma AdvanceKeepsCall(c: Config, s: State, s': State, junk: Byte)
    requires InBounds(c, s) && s' == Advance(c, s, junk)
    ensures s'.g.op == s.g.op && s'.g.before == s.g.before && s'.g.accepted == s.g.accepted
  {
    if Drawn(s.pc) { InsertKeepsCall(c, s, s', junk); }
  }

  lemma InsertKeepsCall(c: Config, s: State, s': State, junk: Byte)
    requires InBounds(c, s) && s' == Advance(c, s, junk) && Drawn(s.pc)
    ensures s'.g.op == s.g.op && s'.g.before == s.g.before && s'.g.accepted == s.g.accepted
  {
    if IsNewNode(s.pc) { NodeKeepsCall(c, s, s', junk); }
  }

  lemma NodeKeepsCall(c: Config, s: State, s': State, junk: Byte)
    requires InBounds(c, s) && s' == Advance(c, s, junk) && IsNewNode(s.pc)
    ensures s'.g.op == s.g.op && s'.g.before == s.g.before && s'.g.accepted == s.g.accepted
  {
    if s.pc.SetLen? || s.pc.SetCrc? { HeaderKeepsCall(c, s, s', junk); }
  }

  lemma HeaderKeepsCall(c: Config, s: State, s': State, junk: Byte)
    requires InBounds(c, s) && s' == Advance(c, s, junk) && (s.pc.SetLen? || s.pc.SetCrc?)
    ensures s'.g == s.g
  {
  }

  /** The last call in a run, before position `i`. */
  ghost predicate LastCall(es: seq<Event>, k: nat, i: nat) {
    k < i <= |es| && es[k].Call? && forall j :: k < j < i ==> !es[j].Call?
  }

  lemma {:induction false} CallIsRemembered(c: Config, xs: seq<World>, es: seq<Event>, k: nat, i: nat)
    requires Steps(c, xs, es) && LastCall(es, k, i)
    ensures xs[i].w.g.op == es[k].op && xs[i].w.g.before == xs[k].w.g.now
    decreases i
  {
    assert Follows(c, xs[i - 1], es[i - 1], xs[i - 1 + 1]);
    FollowsNext(c, xs[i - 1], es[i - 1], xs[i]);
    StoreKeepsCall(c, xs[i - 1], es[i - 1], xs[i]);
    if k < i - 1 { CallIsRemembered(c, xs, es, k, i - 1); }
  }

  /** A call whose writer did not die is accepted exactly if it can be carried out. */
  lemma {:induction false} CallIsAccepted(c: Config, xs: seq<World>, es: seq<Event>, k: nat, i: nat)
    requires Run(c, xs, es) && LastCall(es, k, i) && forall j :: k < j < i ==> !es[j].Recover?
    ensures WellSized(xs[k].w.t) && (xs[i].w.g.accepted <==> Accepts(c, xs[k].w, es[k].op))
    decreases i
  {
    assert Follows(c, xs[i - 1], es[i - 1], xs[i - 1 + 1]);
    FollowsNext(c, xs[i - 1], es[i - 1], xs[i]);
    if k < i - 1 {
      StoreKeepsCall(c, xs[i - 1], es[i - 1], xs[i]);
      CallIsAccepted(c, xs, es, k, i - 1);
    } else {
      CallBegins(c, xs, es, k);
    }
  }

  lemma CallBegins(c: Config, xs: seq<World>, es: seq<Event>, k: nat)
    requires Run(c, xs, es) && k < |es| && es[k].Call?
    ensures WellSized(xs[k].w.t) && (xs[k + 1].w.g.accepted <==> Accepts(c, xs[k].w, es[k].op))
  {
    RunGood(c, xs, es, k);
    assert Follows(c, xs[k], es[k], xs[k + 1]);
    FollowsNext(c, xs[k], es[k], xs[k + 1]);
    BeginAccepts(c, xs[k].w, es[k].op);
  }

  /**
   * Every call that has returned took effect exactly if it could be carried out, and changed
   * nothing otherwise.
   */
  lemma ReturnedCallTookEffect(c: Config, xs: seq<World>, es: seq<Event>, k: nat, i: nat)
    requires Run(c, xs, es) && i < |xs| && LastCall(es, k, i) && forall j :: k < j < i ==> !es[j].Recover?
    requires xs[i].w.pc.Idle?
    ensures WellSized(xs[k].w.t)
    ensures var before := xs[k].w.g.now;
            xs[i].w.g.now == if Accepts(c, xs[k].w, es[k].op) then Effect(es[k].op, before) else before
  {
    CallIsAccepted(c, xs, es, k, i);
    CallIsRemembered(c, xs, es, k, i);
    RunGood(c, xs, es, i);
  }

  /** What the memory represents wherever the writer dies. */
  lemma CrashedState(c: Config, xs: seq<World>, es: seq<Event>, k: nat, i: nat)
    requires Run(c, xs, es) && i < |xs| && LastCall(es, k, i)
    ensures var s := xs[i].w; MapRep.MapOk(c.crc, c.probe, s.t, s.g.view, s.cells, s.g.own, s.g.slot, s.g.now)
    ensures var s, before := xs[i].w, xs[k].w.g.now; s.g.now == before || s.g.now == Effect(es[k].op, before)
    ensures xs[i].w.g.op == es[k].op && xs[i].w.g.before == xs[k].w.g.now
  {
    RunGood(c, xs, es, i);
    OldOrNew(c, xs[i].w);
    StateRepresentsMap(c, xs[i].w);
    CallIsRemembered(c, xs, es, k, i);
  }

  // ---------------------------------------------------------------------------
  // A repair, store by store

  /** The writer is dead, and a repair has got to the memory `e`. */
  ghost function Mending(s: State, e: Snap): State { s.(t := e.t, pc := Dead, g := s.g.(view := e.v)) }

  /** The memory that a dead writer left, and stores that keep what the cells own. */
  ghost predicate Repairs(c: Config, s: State, log: seq<Snap>, b: Snap) {
    && MapRep.MapOk(c.crc, c.probe, s.t, s.g.view, s.cells, s.g.own, s.g.slot, s.g.now)
    && Trail(Snap(s.t, s.g.view), log, b)
    && MapRep.OwnedKept(s.t, s.g.view, b.t, b.v, s.g.own)
  }

  lemma OwnedAreChains(c: Config, s: State, h: nat)
    requires MapRep.MapOk(c.crc, c.probe, s.t, s.g.view, s.cells, s.g.own, s.g.slot, s.g.now) && h in s.g.own
    ensures h in s.g.view.chains
  {
    assert MapRep.OwnerOk(s.cells, s.g.own, h);
    assert MapRep.CellHolds(c.crc, s.t, s.g.view, s.cells, s.g.own, s.g.now, s.g.own[h]);
  }

  /** The owned chains are the same in every memory between the ends. */
  lemma OwnedBetween(c: Config, s: State, b: Snap, e: Snap, h: nat)
    requires MapRep.MapOk(c.crc, c.probe, s.t, s.g.view, s.cells, s.g.own, s.g.slot, s.g.now) && h in s.g.own
    requires MapRep.OwnedKept(s.t, s.g.view, b.t, b.v, s.g.own)
    requires Shrinks(Snap(s.t, s.g.view), e) && Shrinks(e, b)
    ensures h in s.g.view.chains && h in e.v.chains && e.v.chains[h] == s.g.view.chains[h]
    ensures forall n :: n in s.g.view.chains[h] && n < |s.t.nodes| ==> e.t.nodes[n] == s.t.nodes[n]
  {
    OwnedAreChains(c, s, h);
    assert h in b.v.chains && b.v.chains[h] == s.g.view.chains[h];
    assert b.v.chains[h] == e.v.chains[h];
  }

  lemma MendStep(c: Config, s: State, b: Snap, e: Snap, e': Snap)
    requires MapRep.MapOk(c.crc, c.probe, s.t, s.g.view, s.cells, s.g.own, s.g.slot, s.g.now)
    requires MapRep.OwnedKept(s.t, s.g.view, b.t, b.v, s.g.own)
    requires Shrinks(Snap(s.t, s.g.view), e) && Shrinks(e, b) && Shrinks(Snap(s.t, s.g.view), e') && Shrinks(e', b)
    ensures Mended(Mending(s, e), Mending(s, e'))
  {
    forall h | h in s.g.own && h in e.v.chains
      ensures h in e'.v.chains && e'.v.chains[h] == e.v.chains[h]
      ensures forall n :: n in e.v.chains[h] && n < |e.t.nodes| ==> e'.t.nodes[n] == e.t.nodes[n]
    {
      OwnedBetween(c, s, b, e, h);
      OwnedBetween(c, s, b, e', h);
    }
  }

  function Worlds(s: State, r: MapReader.RPc, log: seq<Snap>): seq<World> {
    seq(|log|, j requires 0 <= j < |log| => World(s.(t := log[j].t, pc := Dead, g := s.g.(view := log[j].v)), r))
  }

  /** The stores are steps of a run. */
  lemma MendPath(c: Config, s: State, r: MapReader.RPc, log: seq<Snap>, b: Snap)
    requires Repairs(c, s, log, b)
    ensures Path(Running(c), [World(s.(pc := Dead), r)] + Worlds(s, r, log), seq(|log|, _ => Mend))
  {
    var xs, es := [World(s.(pc := Dead), r)] + Worlds(s, r, log), seq(|log|, _ => Mend);
    forall j | 0 <= j < |es| ensures Running(c)(xs[j], es[j], xs[j + 1]) {
      OneMend(c, s, r, log, b, j);
    }
  }

  lemma OneMend(c: Config, s: State, r: MapReader.RPc, log: seq<Snap>, b: Snap, j: nat)
    requires Repairs(c, s, log, b) && j < |log|
    ensures var xs := [World(s.(pc := Dead), r)] + Worlds(s, r, log);
            Running(c)(xs[j], Mend, xs[j + 1])
  {
    var a := Snap(s.t, s.g.view);
    var xs := [World(s.(pc := Dead), r)] + Worlds(s, r, log);
    TrailShrinks(a, log, b, j);
    TrailShrinks(a, log, b, j + 1);
    MendStep(c, s, b, ([a] + log)[j], ([a] + log)[j + 1]);
    assert xs[j].w == Mending(s, ([a] + log)[j]) && xs[j + 1].w == Mending(s, ([a] + log)[j + 1]);
    MendFollows(c, xs[j], xs[j + 1]);
  }

  /** The whole repair as the continuation of a run. */
  lemma RepairRun(c: Config, xs: seq<World>, es: seq<Event>, i: nat, log: seq<Snap>, b: Snap, s': State)
    returns (ys: seq<World>, fs: seq<Event>)
    requires Run(c, xs, es) && i < |xs| && Repairs(c, xs[i].w, log, b)
    requires s'.t == b.t && s'.g.view == b.v && Revived(xs[i].w, s')
    ensures Run(c, ys, fs) && Continues(xs, es, i, log, ys, fs) && ys[|fs|] == World(s', xs[i].r)
  {
    var s, r := xs[i].w, xs[i].r;
    ys := xs[..i + 1] + [World(s.(pc := Dead), r)] + Worlds(s, r, log) + [World(s', r)];
    fs := es[..i] + [Crash] + seq(|log|, _ => Mend) + [Recover];
    RepairPath(c, xs, es, i, log, b, s');
    RunningSteps(c, ys, fs);
    Continued(xs, es, i, log, ys, fs, s');
  }

  lemma RepairPath(c: Config, xs: seq<World>, es: seq<Event>, i: nat, log: seq<Snap>, b: Snap, s': State)
    requires Steps(c, xs, es) && i < |xs| && Repairs(c, xs[i].w, log, b)
    requires s'.t == b.t && s'.g.view == b.v && Revived(xs[i].w, s')
    ensures var s, r := xs[i].w, xs[i].r;
            Path(Running(c), xs[..i + 1] + [World(s.(pc := Dead), r)] + Worlds(s, r, log) + [World(s', r)],
                 es[..i] + [Crash] + seq(|log|, _ => Mend) + [Recover])
  {
    var s, r := xs[i].w, xs[i].r;
    var dead, mends := World(s.(pc := Dead), r), seq(|log|, _ => Mend);
    var ws := [dead] + Worlds(s, r, log);
    RunPrefix(c, xs, es, i);
    MendPath(c, s, r, log, b);
    RecoverStep(c, s, r, log, b, s');
    CrashFollows(c, xs[i]);
    Joined(Running(c), xs[..i + 1], es[..i], Crash, ws, mends, Recover, World(s', r));
    assert xs[..i + 1] + ws == xs[..i + 1] + [dead] + Worlds(s, r, log);
  }

  lemma Joined<X(!new), E(!new)>(step: (X, E, X) -> bool, xs: seq<X>, es: seq<E>, e: E,
                                 ws: seq<X>, fs: seq<E>, f: E, y: X)
    requires Path(step, xs, es) && Path(step, ws, fs) && step(xs[|es|], e, ws[0]) && step(ws[|fs|], f, y)
    ensures Path(step, xs + ws + [y], es + [e] + fs + [f])
  {
    Append(step, xs, es, e, ws[0]);
    PathOn(step, xs + [ws[0]], es + [e], ws, fs);
    assert xs + [ws[0]] + ws[1..] == xs + ws;
    Append(step, xs + ws, es + [e] + fs, f, y);
  }

  lemma Continued(xs: seq<World>, es: seq<Event>, i: nat, log: seq<Snap>, ys: seq<World>, fs: seq<Event>, s': State)
    requires i < |xs| && i <= |es|
    requires var s, r := xs[i].w, xs[i].r;
             ys == xs[..i + 1] + [World(s.(pc := Dead), r)] + Worlds(s, r, log) + [World(s', r)]
    requires fs == es[..i] + [Crash] + seq(|log|, _ => Mend) + [Recover]
    ensures Continues(xs, es, i, log, ys, fs)
  {
    var s, r := xs[i].w, xs[i].r;
    forall j | 0 <= j < |log|
      ensures fs[i + 1 + j] == Mend && ys[i + 2 + j].w.t == log[j].t && ys[i + 2 + j].w.cells == xs[i].w.cells
    {
      assert ys[i + 2 + j] == Worlds(s, r, log)[j];
    }
  }

  /** A run up to position `i`, the writer's death, the stores of a repair, and its end. */
  ghost predicate Continues(xs: seq<World>, es: seq<Event>, i: nat, log: seq<Snap>, ys: seq<World>, fs: seq<Event>) {
    && i < |xs| && i <= |es| && |fs| == i + 2 + |log| && |ys| == |fs| + 1
    && ys[..i + 1] == xs[..i + 1] && fs[..i] == es[..i] && fs[i] == Crash && fs[|fs| - 1] == Recover
    && forall j {:trigger log[j]} :: 0 <= j < |log| ==>
         fs[i + 1 + j] == Mend && ys[i + 2 + j].w.t == log[j].t && ys[i + 2 + j].w.cells == xs[i].w.cells
  }

  lemma RunPrefix(c: Config, xs: seq<World>, es: seq<Event>, i: nat)
    requires Steps(c, xs, es) && i < |xs|
    ensures Path(Running(c), xs[..i + 1], es[..i])
  {
    forall j | 0 <= j < i ensures Running(c)(xs[..i + 1][j], es[..i][j], xs[..i + 1][j + 1]) {
      assert Follows(c, xs[j], es[j], xs[j + 1]);
    }
  }

  lemma RecoverStep(c: Config, s: State, r: MapReader.RPc, log: seq<Snap>, b: Snap, s': State)
    requires Repairs(c, s, log, b) && s'.t == b.t && s'.g.view == b.v && Revived(s, s')
    ensures var ws := [World(s.(pc := Dead), r)] + Worlds(s, r, log);
            Running(c)(ws[|log|], Recover, World(s', r))
  {
    var ws := [World(s.(pc := Dead), r)] + Worlds(s, r, log);
    LastMended(s, r, log, b);
    RevivedLast(s, b, s');
    RecoverFollows(c, World(Mending(s, b), r), World(s', r));
  }

  lemma LastMended(s: State, r: MapReader.RPc, log: seq<Snap>, b: Snap)
    requires ([Snap(s.t, s.g.view)] + log)[|log|] == b
    ensures ([World(s.(pc := Dead), r)] + Worlds(s, r, log))[|log|] == World(Mending(s, b), r)
  {
  }

  lemma RevivedLast(s: State, b: Snap, s': State)
    requires s'.t == b.t && s'.g.view == b.v && Revived(s, s')
    ensures Revived(Mending(s, b), s')
  {
  }

  /**
   * Crash atomicity: take any run and any point in it, and let the writer be dead from then on.
   * HealthCheck on the memory as it is yields a map in which nothing is leaked and whose contents
   * are those before the last call or those after it.  Its stores, one by one, continue the run: so
   * readers may meet the repair half done, and whenever it is interrupted itself, CrashedState holds
   * again and another repair can follow.
   */
  method Repair(c: Config, ghost xs: seq<World>, ghost es: seq<Event>, ghost k: nat, ghost i: nat, m: ShmHashMap<Key>)
    returns (ghost ys: seq<World>, ghost fs: seq<Event>)
    requires Run(c, xs, es) && i < |xs| && LastCall(es, k, i) && SameMemory(c, xs[i].w, m)
    modifies m, m.links, m.links.nodes
    ensures m.Valid()
    ensures var before := xs[k].w.g.now; m.now == before || m.now == Effect(es[k].op, before)
    ensures Run(c, ys, fs) && old(m.links.trace) <= m.links.trace
    ensures Continues(xs, es, i, m.links.trace[|old(m.links.trace)|..], ys, fs)
    ensures SameMemory(c, ys[|fs|].w, m) && forall j :: i < j <= |fs| ==> LastCall(fs, k, j)
  {
    CrashedState(c, xs, es, k, i);
    ghost var log, s' := RepairMemory(c, xs[i].w, m);
    ys, fs := RepairRun(c, xs, es, i, log, Snap(s'.t, s'.g.view), s');
    RepairCalls(xs, es, k, i, log, ys, fs);
  }

  /** HealthCheck on memory that represents a map. */
  method RepairMemory(c: Config, ghost s: State, m: ShmHashMap<Key>) returns (ghost log: seq<Snap>, ghost s': State)
    requires MapRep.MapOk(c.crc, c.probe, s.t, s.g.view, s.cells, s.g.own, s.g.slot, s.g.now) && SameMemory(c, s, m)
    modifies m, m.links, m.links.nodes
    ensures m.Valid() && m.now == s.g.now && SameMemory(c, s', m)
    ensures old(m.links.trace) <= m.links.trace && log == m.links.trace[|old(m.links.trace)|..]
    ensures Repairs(c, s, log, Snap(s'.t, s'.g.view)) && Revived(s, s')
  {
    m.own, m.slot, m.now, m.links.view := s.g.own, s.g.slot, s.g.now, s.g.view;
    ghost var trace0 := m.links.trace;
    var stat := m.HealthCheck(true);
    s' := s.(t := m.links.Tab(), pc := Idle,
             g := s.g.(view := m.links.view, accepted := s.g.now == Effect(s.g.op, s.g.before)));
    log := m.links.trace[|trace0|..];
  }

  lemma RepairCalls(xs: seq<World>, es: seq<Event>, k: nat, i: nat, log: seq<Snap>, ys: seq<World>, fs: seq<Event>)
    requires LastCall(es, k, i) && Continues(xs, es, i, log, ys, fs)
    ensures forall j :: i < j <= |fs| ==> LastCall(fs, k, j)
  {
    assert fs[k] == fs[..i][k] == es[..i][k] == es[k];
    forall m | k < m < |fs| ensures !fs[m].Call? {
      if m < i {
        assert fs[m] == fs[..i][m] == es[..i][m] == es[m];
      } else if i < m < |fs| - 1 {
        assert log[m - i - 1] == log[m - i - 1];
        assert fs[i + 1 + (m - i - 1)] == Mend;
      }
    }
  }
}
