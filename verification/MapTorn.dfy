/**
 * A Find that misses a key which is in the map during the whole call.  Keys are loaded byte by byte,
 * before the handle of their cell: if the key of a cell is replaced in between, the bytes can be those
 * of a third key, and the search ends at the wrong cell.
 */
module MapTorn {
  import opened Bytes
  import opened Paths
  import opened LinkRep
  import opened Cells
  import opened Tags
  import opened MapWriter
  import opened MapWriterProof
  import opened MapReader
  import opened MapRuns
  import opened MapCalls

  /** `FIRST` and `LAST` have the first cell only; `TORN` is torn from both. */
  const FIRST: Key := [0, 0]
  const LAST: Key := [1, 1]
  const TORN: Key := [0, 1]

  function TornCells(crc: Crc): Config { Config(crc, k => if k == TORN then [0, 1] else [0], 2, 2) }

  ghost function Step(crc: Crc): (World, Event, World) -> bool { Stepping(TornCells(crc), {TORN}) }

  /** The writer rests; `free` is the free list, and `now` has these keys, each with the value [0]. */
  ghost predicate AtRest(crc: Crc, s: State, free: seq<nat>, keys: set<Key>) {
    && Sane(TornCells(crc), s) && s.pc.Idle? && s.t.unit == 9 && |s.t.nodes| == 3 && |s.cells| == 2
    && s.g.view.free == free
    && s.g.now == map k | k in keys :: [0]
  }

  /** Cell `i` holds the key, whose value is node `n`. */
  ghost predicate Has(s: State, i: nat, key: Key, n: nat) {
    && i < |s.cells| && s.cells[i].key == key && s.cells[i].lb.IsSet() && s.cells[i].lb.head == n
    && n in s.g.view.chains && s.g.view.chains[n] == [n]
  }

  lemma TwoProbes(cells: seq<Cell<Key>>, key: Key)
    requires |cells| == 2 && cells[0].lb.IsSet() && cells[0].key != key && !cells[1].lb.IsSet()
    ensures ProbesOk(2, [0, 1]) && FindOrAlloc(cells, [0, 1], key) == Vacant(1)
  {
  }

  lemma TornStart(crc: Crc)
    ensures var x := NewWorld(TornCells(crc));
            && Init(TornCells(crc), x) && AtRest(crc, x.w, [2, 1], {})
            && |x.w.cells| == 2 && !x.w.cells[0].lb.IsSet() && !x.w.cells[1].lb.IsSet()
  {
    InitGood(TornCells(crc), NewWorld(TornCells(crc)));
    InvSane(TornCells(crc), NewWorld(TornCells(crc)).w);
  }

  /** The first key goes to the first cell. */
  lemma InsertFirst(crc: Crc, x: World) returns (y: World)
    requires AtRest(crc, x.w, [2, 1], {}) && !x.w.cells[0].lb.IsSet() && !x.w.cells[1].lb.IsSet()
    ensures Leads(Stepping(TornCells(crc), {}), x, y) && y.r == x.r
    ensures AtRest(crc, y.w, [2], {FIRST}) && Has(y.w, 0, FIRST, 1) && !y.w.cells[1].lb.IsSet()
  {
    OneProbe(x.w.cells, 0, FIRST);
    y := InsertCall(TornCells(crc), {}, x, FIRST, [0], 0);
    assert Top(x.w) == 1 && Rest(x.w) == [2];
  }

  /** `TORN` goes to the second cell, since the first one is used. */
  lemma InsertTorn(crc: Crc, x: World) returns (y: World)
    requires AtRest(crc, x.w, [2], {FIRST}) && Has(x.w, 0, FIRST, 1) && !x.w.cells[1].lb.IsSet()
    ensures Leads(Stepping(TornCells(crc), {}), x, y) && y.r == x.r
    ensures AtRest(crc, y.w, [], {FIRST, TORN}) && Has(y.w, 0, FIRST, 1) && Has(y.w, 1, TORN, 2)
  {
    TwoProbes(x.w.cells, TORN);
    y := InsertCall(TornCells(crc), {}, x, TORN, [0], 1);
    assert Top(x.w) == 2 && Rest(x.w) == [];
  }

  /** Erase of the first key, while the reader is between its two bytes. */
  lemma EraseFirst(crc: Crc, x: World) returns (y: World)
    requires AtRest(crc, x.w, [], {FIRST, TORN}) && Has(x.w, 0, FIRST, 1) && Has(x.w, 1, TORN, 2)
    ensures Leads(Step(crc), x, y) && y.r == x.r
    ensures AtRest(crc, y.w, [1], {TORN}) && !y.w.cells[0].lb.IsSet() && Has(y.w, 1, TORN, 2)
  {
    OneProbe(x.w.cells, 0, FIRST);
    y := EraseCall(TornCells(crc), {TORN}, x, FIRST, 0);
  }

  /** The last key gets the first cell. */
  lemma InsertLast(crc: Crc, x: World) returns (y: World)
    requires AtRest(crc, x.w, [1], {TORN}) && !x.w.cells[0].lb.IsSet() && Has(x.w, 1, TORN, 2)
    ensures Leads(Step(crc), x, y) && y.r == x.r
    ensures AtRest(crc, y.w, [], {TORN, LAST}) && Has(y.w, 0, LAST, 1) && Has(y.w, 1, TORN, 2)
  {
    OneProbe(x.w.cells, 0, LAST);
    y := InsertCall(TornCells(crc), {TORN}, x, LAST, [0], 0);
    assert Top(x.w) == 1 && Rest(x.w) == [];
  }

  /** The first byte of the first cell's key. */
  lemma LoadFirst(crc: Crc, x: World)
    requires AtRest(crc, x.w, [], {FIRST, TORN}) && Has(x.w, 0, FIRST, 1) && x.r == NextProbe(TornCells(crc), TORN, 0)
    ensures Leads(Step(crc), x, x.(r := Probe(TORN, 0, [0])))
  {
    SaneBase(TornCells(crc), x.w);
    assert [] + [FIRST[0]] == [0] && TornCells(crc).probe(TORN) == [0, 1];
    LoadLeads(TornCells(crc), {TORN}, x, x.(r := Probe(TORN, 0, [0])));
  }

  /** The second byte, of another key by now; the handle; the value; and the key once more. */
  lemma LoadLast(crc: Crc, x: World) returns (y: World)
    requires AtRest(crc, x.w, [], {TORN, LAST}) && Has(x.w, 0, LAST, 1) && x.r == Probe(TORN, 0, [0])
    ensures Leads(Step(crc), x, y) && y.w == x.w && y.r.CheckKey? && y.r.k.q == Quest(TORN, 0, 1) && y.r.acc == [1]
  {
    SaneBase(TornCells(crc), x.w);
    CellShows(TornCells(crc), x.w, 0, 0);
    y := TornSearch(crc, x);
  }

  lemma TornSearch(crc: Crc, x: World) returns (y: World)
    requires Shows(TornCells(crc), x.w, 0, 0) && x.w.cells[0].key == LAST && x.r == Probe(TORN, 0, [0])
    requires TORN in x.w.g.now
    ensures Leads(Step(crc), x, y) && y.w == x.w && y.r.CheckKey? && y.r.k.q == Quest(TORN, 0, 1) && y.r.acc == [1]
  {
    var c, keep := TornCells(crc), {TORN};
    assert c.probe(TORN) == [0, 1] && [0] + [1] == TORN && [] + [1] == [1];
    var z := x.(r := LoadLb(Quest(TORN, 0, 1), []));
    LoadLeads(c, keep, x, x.(r := ProbeLb(TORN, 0, TORN)));
    LoadsLead(c, keep, x, x.(r := ProbeLb(TORN, 0, TORN)), z);
    RoundReads(c, keep, z, Quest(TORN, 0, 1), 0);
    var lb := x.w.cells[0].lb;
    var k := Look(Quest(TORN, 0, 1), lb, BornAt(x.w, lb), NextDraw(x.w), [0]);
    LeadsOn(Step(crc), x, z, x.(r := CheckKey(k, [])));
    y := x.(r := CheckKey(k, [1]));
    LoadsLead(c, keep, x, x.(r := CheckKey(k, [])), y);
  }

  /** The last load: the key of the cell is not the one that is searched for. */
  lemma LoadsLast(crc: Crc, x: World)
    requires AtRest(crc, x.w, [], {TORN, LAST}) && Has(x.w, 0, LAST, 1)
    requires x.r.CheckKey? && x.r.k.q == Quest(TORN, 0, 1) && x.r.acc == [1]
    ensures Next(TornCells(crc), x, Load, x.(r := Done(false, TORN, x.r.k.out)))
  {
    SaneBase(TornCells(crc), x.w);
    assert [1] + [LAST[1]] == LAST;
  }

  /** The Find, up to its last load. */
  lemma TornApproach(crc: Crc) returns (x: World, y: World)
    ensures var c := TornCells(crc);
            && Leads(Stepping(c, {}), NewWorld(c), x) && x.r == RIdle && TORN in x.w.g.now
            && Leads(Step(crc), x.(r := NextProbe(c, TORN, 0)), y)
    ensures AtRest(crc, y.w, [], {TORN, LAST}) && Has(y.w, 0, LAST, 1) && Has(y.w, 1, TORN, 2)
    ensures y.r.CheckKey? && y.r.k.q == Quest(TORN, 0, 1) && y.r.acc == [1]
  {
    var c := TornCells(crc);
    TornStart(crc);
    var x0 := NewWorld(c);
    var x1 := InsertFirst(crc, x0);
    x := InsertTorn(crc, x1);
    LeadsOn(Stepping(c, {}), x0, x1, x);
    var asked, y0 := x.(r := NextProbe(c, TORN, 0)), x.(r := Probe(TORN, 0, [0]));
    LoadFirst(crc, asked);
    var y1 := EraseFirst(crc, y0);
    LeadsOn(Step(crc), asked, y0, y1);
    var y2 := InsertLast(crc, y1);
    LeadsOn(Step(crc), asked, y1, y2);
    y := LoadLast(crc, y2);
    LeadsOn(Step(crc), asked, y2, y);
  }

  /** The run ends with a load that makes Find fail, although cell 1 holds the key. */
  ghost predicate Missed(xs: seq<World>, es: seq<Event>) {
    && 0 < |es| && |xs| == |es| + 1 && es[|es| - 1] == Load
    && var x, y := xs[|es| - 1], xs[|es|];
       && x.r.CheckKey? && x.r.k.q == Quest(TORN, 0, 1) && Has(x.w, 1, TORN, 2)
       && y.w == x.w && y.r.Done? && !y.r.ok
  }

  lemma MissedBy(xs: seq<World>, es: seq<Event>)
    requires |xs| == |es| + 1 && xs[|es|].r.CheckKey? && xs[|es|].r.k.q == Quest(TORN, 0, 1)
    requires Has(xs[|es|].w, 1, TORN, 2)
    ensures Missed(xs + [xs[|es|].(r := Done(false, TORN, xs[|es|].r.k.out))], es + [Load])
  {
  }

  /**
   * A key that is in the map during the whole Find is missed in the first round, although no tag is
   * drawn again: the search ends at cell 0, and the key is in cell 1.
   */
  lemma TornKeyMisses(crc: Crc) returns (xs: seq<World>, es: seq<Event>, i: nat)
    ensures FindRun(TornCells(crc), {TORN}, xs, es, i, TORN) && Missed(xs, es) && i + 1 < |es|
  {
    var c := TornCells(crc);
    var x, y := TornApproach(crc);
    TornStart(crc);
    xs, es, i := RunOf(c, {TORN}, NewWorld(c), x, TORN, y);
    var z := y.(r := Done(false, TORN, y.r.k.out));
    LoadsLast(crc, y);
    LastLoad(c, {TORN}, xs, es, i, TORN, z);
    MissedBy(xs, es);
    xs, es := xs + [z], es + [Load];
  }
}
