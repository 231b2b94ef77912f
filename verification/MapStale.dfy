/**
 * Reads that return a wrong value.  RecheckIsExact in MapRuns covers every round of a read whose
 * handle's tag was not drawn again; here is a run for every round whose tag was.
 */
module MapStale {
  import opened Bytes
  import opened Paths
  import opened LinkRep
  import opened Cells
  import opened Tags
  import opened MapWriter
  import opened MapWriterProof
  import opened MapReader
  import opened MapRuns
  import opened MapCalls

  const KEY: Key := [0]
  const OTHER: Key := [1]

  /** Two cells, one for `KEY` and one for all other keys, and keys of one byte. */
  function TwoCells(crc: Crc): Config { Config(crc, k => if k == KEY then [0] else [1], 2, 1) }

  // ---------------------------------------------------------------------------
  // A tag that is drawn again

  /** The writer rests, and the other key is not in the map. */
  ghost predicate Home(crc: Crc, s: State, d: nat) {
    && Sane(TwoCells(crc), s) && s.pc.Idle? && s.t.unit == 9 && |s.t.nodes| == 3 && |s.cells| == 2
    && !s.cells[1].lb.IsSet() && OTHER !in s.g.now && s.g.view.free != [] && s.g.draws == d
  }

  /** What an insert and an erase of the other key leave as it was. */
  ghost predicate Alike(s: State, s': State)
    requires s.g.view.free != []
  {
    && |s'.cells| == |s.cells| > 0 && s'.cells[0] == s.cells[0] && s'.g.now == s.g.now
    && s'.g.view.free == s.g.view.free
    && (forall h :: h in s.g.view.chains && h != Top(s) ==>
         h in s'.g.view.chains && s'.g.view.chains[h] == s.g.view.chains[h])
    && forall h :: h in s.g.birth && h != Top(s) ==> h in s'.g.birth && s'.g.birth[h] == s.g.birth[h]
  }

  /** Insert and erase of the other key: one more draw, and nothing else has changed for `KEY`. */
  lemma Cycle(crc: Crc, keep: set<Key>, x: World) returns (y: World)
    requires Home(crc, x.w, x.w.g.draws) && keep <= x.w.g.now.Keys
    ensures Leads(Stepping(TwoCells(crc), keep), x, y) && y.r == x.r
    ensures Home(crc, y.w, x.w.g.draws + 1) && Alike(x.w, y.w)
  {
    var z := InsertOther(crc, keep, x);
    y := EraseOther(crc, keep, z, Top(x.w));
    LeadsOn(Stepping(TwoCells(crc), keep), x, z, y);
    CycleAlike(x.w, z.w, y.w);
  }

  /** The other key is in the map, in node `top`. */
  ghost predicate Away(crc: Crc, s: State, d: nat, top: nat) {
    && Sane(TwoCells(crc), s) && s.pc.Idle? && s.t.unit == 9 && |s.t.nodes| == 3 && |s.cells| == 2 && s.g.draws == d
    && OTHER in s.g.now && s.cells[1].key == OTHER && s.cells[1].lb.IsSet() && s.cells[1].lb.head == top
    && top in s.g.view.chains && s.g.view.chains[top] == [top]
  }

  lemma InsertOther(crc: Crc, keep: set<Key>, x: World) returns (y: World)
    requires Home(crc, x.w, x.w.g.draws) && keep <= x.w.g.now.Keys
    ensures Leads(Stepping(TwoCells(crc), keep), x, y) && y.r == x.r
    ensures Inserted(x.w, y.w, Job(1, OTHER, [0], false)) && Away(crc, y.w, x.w.g.draws + 1, Top(x.w))
  {
    OneProbe(x.w.cells, 1, OTHER);
    y := InsertCall(TwoCells(crc), keep, x, OTHER, [0], 1);
    SaneBase(TwoCells(crc), x.w);
    TopIsNode(x.w.t, x.w.g.view);
    assert y.w.g.now[OTHER] == [0];
  }

  lemma CycleAlike(s0: State, s1: State, s: State)
    requires s0.g.view.free != [] && |s0.cells| == 2 && OTHER !in s0.g.now
    requires Inserted(s0, s1, Job(1, OTHER, [0], false)) && Erased(s1, s, 1)
    ensures Alike(s0, s)
  {
    assert Rest(s0) + [Top(s0)] == s0.g.view.free;
  }

  lemma EraseOther(crc: Crc, keep: set<Key>, x: World, top: nat) returns (y: World)
    requires Away(crc, x.w, x.w.g.draws, top) && keep <= x.w.g.now.Keys - {OTHER}
    ensures Leads(Stepping(TwoCells(crc), keep), x, y) && y.r == x.r
    ensures Erased(x.w, y.w, 1) && Home(crc, y.w, x.w.g.draws)
  {
    OneProbe(x.w.cells, 1, OTHER);
    y := EraseCall(TwoCells(crc), keep, x, OTHER, 1);
  }

  lemma {:induction false} Cycles(crc: Crc, keep: set<Key>, x: World, d: nat) returns (y: World)
    requires Home(crc, x.w, x.w.g.draws) && keep <= x.w.g.now.Keys && x.w.g.draws <= d
    ensures Leads(Stepping(TwoCells(crc), keep), x, y) && y.r == x.r && Home(crc, y.w, d) && Alike(x.w, y.w)
    decreases d - x.w.g.draws
  {
    if x.w.g.draws == d {
      LeadsNowhere(Stepping(TwoCells(crc), keep), x);
      return x;
    }
    var z := Cycle(crc, keep, x);
    y := Cycles(crc, keep, z, d);
    LeadsOn(Stepping(TwoCells(crc), keep), x, z, y);
  }

  /** `KEY` has the value `[v]`, in node 1, under the tag of draw `e`. */
  ghost predicate Holding(crc: Crc, s: State, d: nat, e: nat, v: Byte) {
    && Home(crc, s, d) && s.cells[0] == Cell(KEY, Handle(1, TagAt(e))) && s.g.now == map[KEY := [v]]
    && s.g.view.free == [2] && 1 in s.g.view.chains && s.g.view.chains[1] == [1]
    && 1 in s.g.birth && s.g.birth[1] == e
  }

  ghost predicate Vacated(crc: Crc, s: State, d: nat) {
    Home(crc, s, d) && s.g.now == map[] && s.g.view.free == [2, 1] && !s.cells[0].lb.IsSet()
  }

  lemma Started(crc: Crc)
    ensures var x := NewWorld(TwoCells(crc)); Init(TwoCells(crc), x) && Vacated(crc, x.w, 0)
  {
    var x := NewWorld(TwoCells(crc));
    InitGood(TwoCells(crc), x);
    InvSane(TwoCells(crc), x.w);
  }

  /** Insert of `KEY`: its value gets node 1 and the next tag. */
  lemma InsertKey(crc: Crc, x: World, d: nat, v: Byte) returns (y: World)
    requires Vacated(crc, x.w, d)
    ensures Leads(Stepping(TwoCells(crc), {}), x, y) && y.r == x.r && Holding(crc, y.w, d + 1, d + 1, v)
  {
    OneProbe(x.w.cells, 0, KEY);
    y := InsertCall(TwoCells(crc), {}, x, KEY, [v], 0);
    InsertedHolds(x.w, y.w, d, v);
  }

  lemma InsertedHolds(s0: State, s: State, d: nat, v: Byte)
    requires |s0.cells| == 2 && s0.g.now == map[] && s0.g.view.free == [2, 1] && s0.g.draws == d
    requires Inserted(s0, s, Job(0, KEY, [v], false))
    ensures s.cells[0] == Cell(KEY, Handle(1, TagAt(d + 1))) && s.cells[1] == s0.cells[1] && s.g.now == map[KEY := [v]]
    ensures s.g.view.free == [2] && 1 in s.g.view.chains && s.g.view.chains[1] == [1] && OTHER !in s.g.now
    ensures 1 in s.g.birth && s.g.birth[1] == d + 1 && s.t.unit == s0.t.unit && |s.t.nodes| == |s0.t.nodes|
  {
    assert Top(s0) == 1 && Rest(s0) == [2];
  }

  /** Erase of `KEY`: node 1 is on top of the free list again. */
  lemma EraseKey(crc: Crc, x: World, d: nat, e: nat, v: Byte) returns (y: World)
    requires Holding(crc, x.w, d, e, v)
    ensures Leads(Stepping(TwoCells(crc), {}), x, y) && y.r == x.r && Vacated(crc, y.w, d)
  {
    OneProbe(x.w.cells, 0, KEY);
    y := EraseCall(TwoCells(crc), {}, x, KEY, 0);
  }

  /** Other calls up to draw `d'` while `KEY` stays. */
  lemma Wait(crc: Crc, x: World, d: nat, e: nat, v: Byte, d': nat) returns (y: World)
    requires Holding(crc, x.w, d, e, v) && d <= d'
    ensures Leads(Stepping(TwoCells(crc), {}), x, y) && y.r == x.r && Holding(crc, y.w, d', e, v)
  {
    y := Cycles(crc, {}, x, d');
  }

  /** The round of a read that loaded the handle made by draw `born` before draw `next`, and has read `[a]`. */
  function OldLook(born: nat, next: nat, a: Byte): Look {
    Look(Quest(KEY, 0, 1), Handle(1, TagAt(born)), born, next, [a])
  }

  /** The reader, from the start of its search to the point before its second load of the handle. */
  lemma ReadUp(crc: Crc, x: World, next: nat, born: nat, v: Byte)
    requires 1 <= next && Holding(crc, x.w, next - 1, born, v) && x.r == Probe(KEY, 0, [])
    ensures Leads(Stepping(TwoCells(crc), {}), x, x.(r := Recheck(OldLook(born, next, v), true)))
  {
    var c, k := TwoCells(crc), OldLook(born, next, v);
    SaneBase(c, x.w);
    CellShows(c, x.w, 0, v);
    assert Look(Quest(KEY, 0, 1), x.w.cells[0].lb, BornAt(x.w, x.w.cells[0].lb), NextDraw(x.w), [v]) == k;
    Searches(crc, x, k, v);
  }

  lemma Searches(crc: Crc, x: World, k: Look, v: Byte)
    requires Shows(TwoCells(crc), x.w, 0, v) && x.w.cells[0].key == KEY && x.r == Probe(KEY, 0, [])
    requires k == Look(Quest(KEY, 0, 1), x.w.cells[0].lb, BornAt(x.w, x.w.cells[0].lb), NextDraw(x.w), [v])
    ensures Leads(Stepping(TwoCells(crc), {}), x, x.(r := Recheck(k, true)))
  {
    var c := TwoCells(crc);
    assert c.probe(KEY) == [0] && [] + [KEY[0]] == KEY;
    var y := x.(r := LoadLb(Quest(KEY, 0, 1), []));
    LoadLeads(c, {}, x, x.(r := ProbeLb(KEY, 0, KEY)));
    LoadsLead(c, {}, x, x.(r := ProbeLb(KEY, 0, KEY)), y);
    RoundReads(c, {}, y, Quest(KEY, 0, 1), v);
    LeadsOn(Stepping(c, {}), x, y, x.(r := CheckKey(k, [])));
    LoadsLead(c, {}, x, x.(r := CheckKey(k, [])), x.(r := Recheck(k, true)));
  }

  /** The last load of the run finds the very handle of the round, and Find returns `[a]`; the map holds `[b]`. */
  ghost predicate Misled(xs: seq<World>, es: seq<Event>, k: Look, draws: nat, b: Byte) {
    && 0 < |es| && |xs| == |es| + 1 && es[|es| - 1] == Load
    && var x, y := xs[|es| - 1], xs[|es|];
       && x.r == Recheck(k, true) && x.w.g.draws == draws
       && y.r == Done(true, KEY, k.out) && y.w == x.w && x.w.g.now == map[KEY := [b]]
  }

  /** The calls before the Find, up to draw `next - 1`. */
  lemma Prelude(crc: Crc, a: Byte, born: nat, next: nat) returns (y: World)
    requires 1 <= born < next
    ensures Leads(Stepping(TwoCells(crc), {}), NewWorld(TwoCells(crc)), y) && y.r == RIdle
    ensures Holding(crc, y.w, next - 1, born, a) && y.w.g.draws == next - 1
  {
    var c := TwoCells(crc);
    var x0 := NewWorld(c);
    Started(crc);
    var x1 := Cycles(crc, {}, x0, born - 1);
    var x2 := InsertKey(crc, x1, born - 1, a);
    LeadsOn(Stepping(c, {}), x0, x1, x2);
    y := Wait(crc, x2, born, born, a, next - 1);
    LeadsOn(Stepping(c, {}), x0, x2, y);
  }

  /** The calls during the round: `KEY` is erased and inserted again, and gets the same node and tag. */
  lemma Interlude(crc: Crc, x: World, a: Byte, b: Byte, born: nat, next: nat, e: nat, draws: nat) returns (y: World)
    requires 1 <= next <= e <= draws && Holding(crc, x.w, next - 1, born, a)
    ensures Leads(Stepping(TwoCells(crc), {}), x, y) && y.r == x.r && Holding(crc, y.w, draws, e, b)
  {
    var step := Stepping(TwoCells(crc), {});
    var x1 := Wait(crc, x, next - 1, born, a, e - 1);
    var x2 := EraseKey(crc, x1, e - 1, born, a);
    LeadsOn(step, x, x1, x2);
    var x3 := InsertKey(crc, x2, e - 1, b);
    LeadsOn(step, x, x2, x3);
    y := Wait(crc, x3, e, e, b, draws);
    LeadsOn(step, x, x3, y);
  }

  lemma FirstProbe(crc: Crc)
    ensures NextProbe(TwoCells(crc), KEY, 0) == Probe(KEY, 0, [])
  {
  }

  /** The Find, from the world `x` in which it is called to the point before its last load. */
  lemma Approach(crc: Crc, a: Byte, b: Byte, born: nat, next: nat, e: nat, draws: nat) returns (x: World, y: World)
    requires 1 <= born < next <= e <= draws && TagAt(born) == TagAt(e)
    ensures var step := Stepping(TwoCells(crc), {});
            Leads(step, NewWorld(TwoCells(crc)), x) && Leads(step, x.(r := NextProbe(TwoCells(crc), KEY, 0)), y)
    ensures x.r == RIdle && x.w.g.draws == next - 1
    ensures y.r == Recheck(OldLook(born, next, a), true) && Holding(crc, y.w, draws, e, b)
  {
    x := Prelude(crc, a, born, next);
    FirstProbe(crc);
    var asked := x.(r := Probe(KEY, 0, []));
    var read := x.(r := Recheck(OldLook(born, next, a), true));
    ReadUp(crc, asked, next, born, a);
    y := Interlude(crc, read, a, b, born, next, e, draws);
    LeadsOn(Stepping(TwoCells(crc), {}), asked, read, y);
  }

  /**
   * FindIsLinearizable's condition cannot be weakened: for any draw `born` that made the handle, any
   * first draw `next` after its load, and any later draw `e` of the same tag, up to any draw `draws`,
   * there is a run in which the round finds the same handle twice and Find returns a value that the
   * map no longer holds.
   */
  lemma ReissuedTagMisleads(crc: Crc, a: Byte, b: Byte, born: nat, next: nat, e: nat, draws: nat)
      returns (xs: seq<World>, es: seq<Event>, i: nat)
    requires 1 <= born < next <= e <= draws && TagAt(born) == TagAt(e) && a != b
    ensures FindRun(TwoCells(crc), {}, xs, es, i, KEY) && Misled(xs, es, OldLook(born, next, a), draws, b)
    ensures Reissued(OldLook(born, next, a), draws) && xs[i].w.g.draws == next - 1
  {
    var c, k := TwoCells(crc), OldLook(born, next, a);
    var x, y := Approach(crc, a, b, born, next, e, draws);
    Started(crc);
    xs, es, i := RunOf(c, {}, NewWorld(c), x, KEY, y);
    var z := y.(r := Done(true, KEY, [a]));
    LoadsAgain(crc, y, k, draws, e, b);
    LastLoad(c, {}, xs, es, i, KEY, z);
    MisledBy(xs, es, k, draws, b);
    xs, es := xs + [z], es + [Load];
    assert next <= e <= draws && e != born && TagAt(e) == k.lb.tag;
  }

  /** The second load of the handle. */
  lemma LoadsAgain(crc: Crc, x: World, k: Look, draws: nat, e: nat, b: Byte)
    requires Holding(crc, x.w, draws, e, b) && k.lb == Handle(1, TagAt(e)) && k.q.cell == 0 && x.r == Recheck(k, true)
    ensures Next(TwoCells(crc), x, Load, x.(r := Done(true, k.q.key, k.out)))
    ensures x.w.g.now == map[KEY := [b]] && x.w.g.draws == draws
  {
    SaneBase(TwoCells(crc), x.w);
  }

  lemma MisledBy(xs: seq<World>, es: seq<Event>, k: Look, draws: nat, b: Byte)
    requires |xs| == |es| + 1 && k.q.key == KEY
    requires var x := xs[|es|]; x.r == Recheck(k, true) && x.w.g.draws == draws && x.w.g.now == map[KEY := [b]]
    ensures Misled(xs + [xs[|es|].(r := Done(true, KEY, k.out))], es + [Load], k, draws, b)
  {
  }

  /**
   * The number of calls of New during the read is no safe condition: one is enough.  With the draw 2^31
   * and the next one of its tag, a run in which a single New happens during the Find.
   */
  lemma OneNewMisleads(crc: Crc) returns (xs: seq<World>, es: seq<Event>, i: nat)
    ensures FindRun(TwoCells(crc), {}, xs, es, i, KEY)
    ensures var e := 0x8000_0000 + TAG_WINDOW;
            xs[i].w.g.draws + 1 == e && Misled(xs, es, OldLook(0x8000_0000, e, 5), e, 7)
  {
    TagReturns();
    var e := 0x8000_0000 + TAG_WINDOW;
    xs, es, i := ReissuedTagMisleads(crc, 5, 7, 0x8000_0000, e, e, e);
  }
}
