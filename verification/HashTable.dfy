/** The multi-row hash table (src/lib_bsp/shmc/shm_hash_table.h): probing and resumable traversal. */
module HashTable {
  import opened Bytes
  import opened LinkRep
  import opened Cells
  import opened Geometry

  datatype TravelPos = TravelPos(row: nat, col: nat) {
    predicate AtOrigin() { row == 0 && col == 0 }
  }

  const ORIGIN := TravelPos(0, 0)

  // ---------------------------------------------------------------------------
  // Order of traversal

  /** Number of cells in the first `r` rows. */
  ghost function RowStart(mods: seq<nat>, r: nat): nat
    requires r <= |mods|
  {
    if r == 0 then 0 else RowStart(mods, r - 1) + mods[r - 1]
  }

  /** Cells of the first `r` rows, row by row. */
  ghost function Order(mods: seq<nat>, index: seq<nat>, r: nat): (o: seq<nat>)
    requires r <= |mods| == |index|
    ensures |o| == RowStart(mods, r)
  {
    if r == 0 then [] else Order(mods, index, r - 1) + seq(mods[r - 1], c => index[r - 1] + c)
  }

  ghost predicate PosOk(mods: seq<nat>, p: TravelPos) {
    p.row < |mods| && p.col < mods[p.row]
  }

  /** Number of cells before a position. */
  ghost function Rank(mods: seq<nat>, row: nat, col: nat): nat
    requires row <= |mods|
  {
    RowStart(mods, row) + col
  }

  lemma {:induction false} OrderPrefix(mods: seq<nat>, index: seq<nat>, r: nat, s: nat)
    requires r <= s <= |mods| == |index|
    ensures Order(mods, index, r) <= Order(mods, index, s)
  {
    if r < s {
      OrderPrefix(mods, index, r, s - 1);
    }
  }

  /** The cell at a position comes at the position's rank. */
  lemma OrderAt(mods: seq<nat>, index: seq<nat>, row: nat, col: nat)
    requires row < |mods| == |index| && col < mods[row]
    ensures Rank(mods, row, col) < |Order(mods, index, |mods|)|
    ensures Order(mods, index, |mods|)[Rank(mods, row, col)] == index[row] + col
  {
    OrderPrefix(mods, index, row + 1, |mods|);
    assert Order(mods, index, row + 1)[Rank(mods, row, col)] == index[row] + col;
  }

  lemma RowEnd(mods: seq<nat>, row: nat)
    requires row < |mods|
    ensures Rank(mods, row, mods[row]) == Rank(mods, row + 1, 0)
  {
  }

  /** The cells visited since rank `from`. */
  ghost predicate Sofar(order: seq<nat>, from: nat, visited: seq<nat>) {
    from + |visited| <= |order| && visited == order[from..from + |visited|]
  }

  lemma VisitNext(order: seq<nat>, from: nat, visited: seq<nat>)
    requires Sofar(order, from, visited) && from + |visited| < |order|
    ensures Sofar(order, from, visited + [order[from + |visited|]])
  {
  }

  /** The cells where a key may be, one per row. */
  function ProbesOf<K>(mods: seq<nat>, index: seq<nat>, hash: K -> nat, key: K): (p: seq<nat>)
    ensures |p| == |mods|
  {
    seq(|mods|, r requires 0 <= r < |mods| => ProbeAt(mods, index, hash(key), r))
  }

  function ProbeAt(mods: seq<nat>, index: seq<nat>, code: nat, r: nat): nat
    requires r < |mods|
  {
    if r < |index| && mods[r] > 0 then index[r] + code % mods[r] else 0
  }

  /** Every cell of the rows is visited, and none is visited twice. */
  lemma {:induction false} OrderDistinct(first: nat, mods: seq<nat>, index: seq<nat>, r: nat)
    requires RowsOk(first, ROW_RATIO, mods, index) && r <= |mods|
    ensures forall i :: 0 <= i < |Order(mods, index, r)| ==> Order(mods, index, r)[i] < RowBase(first, ROW_RATIO, r)
    ensures forall i, j :: 0 <= i < j < |Order(mods, index, r)| ==> Order(mods, index, r)[i] != Order(mods, index, r)[j]
  {
    if r > 0 {
      OrderDistinct(first, mods, index, r - 1);
      assert RowOk(first, ROW_RATIO, mods, index, r - 1);
      var o, p, n := Order(mods, index, r), Order(mods, index, r - 1), RowStart(mods, r - 1);
      forall i | 0 <= i < |o|
        ensures o[i] < RowBase(first, ROW_RATIO, r) && (i >= n ==> o[i] == index[r - 1] + (i - n))
      {
        if i < n { assert o[i] == p[i]; }
      }
      forall i, j | 0 <= i < j < |o| ensures o[i] != o[j] {
        if i < n { assert o[i] == p[i]; }
        if j < n { assert o[j] == p[j]; }
      }
    }
  }

  class ShmHashTable<K(==,!new)> {
    const mods: seq<nat>
    const index: seq<nat>
    const cells: array<Cell<K>>
    const hash: K -> nat
    ghost const first: nat
    ghost const probe: K -> seq<nat>
    var maxRowTouched: nat

    ghost predicate Shaped() {
      && RowsOk(first, ROW_RATIO, mods, index) && |mods| >= 1 && cells.Length == RowBase(first, ROW_RATIO, |mods|)
      && forall k {:trigger probe(k)} :: probe(k) == ProbesOf(mods, index, hash, k)
    }

    lemma ProbesInRange(key: K)
      requires Shaped()
      ensures ProbesOk(cells.Length, probe(key))
    {
      forall r | 0 <= r < |mods| ensures probe(key)[r] < cells.Length {
        assert RowOk(first, ROW_RATIO, mods, index, r);
        CellsDistinct(first, ROW_RATIO, mods, index, r, hash(key) % mods[r], r, hash(key) % mods[r]);
      }
    }

    /** A key's place in each row is in range. */
    lemma PlacesInRange(key: K)
      requires Shaped()
      ensures |index| == |mods| && forall r :: 0 <= r < |mods| ==>
                mods[r] > 0 && index[r] + hash(key) % mods[r] < cells.Length
    {
      forall r | 0 <= r < |mods| ensures mods[r] > 0 && index[r] + hash(key) % mods[r] < cells.Length {
        assert RowOk(first, ROW_RATIO, mods, index, r);
        CellsDistinct(first, ROW_RATIO, mods, index, r, hash(key) % mods[r], r, hash(key) % mods[r]);
      }
    }

    /** The cell of FindFrom by its row and column. */
    lemma FindPlaces(key: K)
      requires Shaped()
      ensures ProbesOk(cells.Length, probe(key)) && |index| == |mods|
      ensures forall r :: 0 <= r < |mods| ==> mods[r] > 0 && index[r] + hash(key) % mods[r] < cells.Length
      ensures var f := FindFrom(cells[..], probe(key), key, 0);
              && (f < |mods| ==> probe(key)[f] == index[f] + hash(key) % mods[f])
              && forall q :: 0 <= q < f ==>
                   var c := cells[index[q] + hash(key) % mods[q]];
                   !(c.lb.IsSet() && c.key == key)
    {
      ProbesInRange(key);
      PlacesInRange(key);
      var probes := probe(key);
      forall r | 0 <= r < |mods| ensures cells[..][probes[r]] == cells[index[r] + hash(key) % mods[r]] {
        assert probes[r] == ProbeAt(mods, index, hash(key), r);
      }
    }

    /** The cell of EmptyFrom by its row and column. */
    lemma SlotPlaces(key: K)
      requires Shaped()
      ensures ProbesOk(cells.Length, probe(key)) && |index| == |mods|
      ensures forall r :: 0 <= r < |mods| ==> mods[r] > 0 && index[r] + hash(key) % mods[r] < cells.Length
      ensures var e := EmptyFrom(cells[..], probe(key), 0);
              && (e < |mods| ==>
                    && probe(key)[e] == index[e] + hash(key) % mods[e]
                    && !cells[index[e] + hash(key) % mods[e]].lb.IsSet())
              && forall q :: 0 <= q < e ==> cells[index[q] + hash(key) % mods[q]].lb.IsSet()
    {
      ProbesInRange(key);
      PlacesInRange(key);
      var probes := probe(key);
      forall r | 0 <= r < |mods| ensures cells[..][probes[r]] == cells[index[r] + hash(key) % mods[r]] {
        assert probes[r] == ProbeAt(mods, index, hash(key), r);
      }
    }

    /**
     * Two keys share the cell of row `r` exactly if their hash codes are equal modulo the row's prime,
     * and column `c` of the row is the place of exactly the keys whose code is `c` modulo the prime.
     */
    lemma ProbesSpread(key: K, key': K, r: nat, c: nat)
      requires Shaped() && r < |mods| && c < mods[r]
      ensures |index| == |mods| && index[r] + c < cells.Length && |probe(key)| == |probe(key')| == |mods|
      ensures probe(key)[r] == probe(key')[r] <==> hash(key) % mods[r] == hash(key') % mods[r]
      ensures index[r] + c in probe(key) <==> hash(key) % mods[r] == c
    {
      CellsDistinct(first, ROW_RATIO, mods, index, r, c, r, c);
      assert probe(key)[r] == ProbeAt(mods, index, hash(key), r);
      assert probe(key')[r] == ProbeAt(mods, index, hash(key'), r);
      if index[r] + c in probe(key) {
        var q :| 0 <= q < |mods| && probe(key)[q] == index[r] + c;
        PlacesInRange(key);
        CellsDistinct(first, ROW_RATIO, mods, index, r, c, q, hash(key) % mods[q]);
      }
    }

    lemma OrderInRange()
      requires Shaped()
      ensures forall i :: 0 <= i < |Order(mods, index, |mods|)| ==> Order(mods, index, |mods|)[i] < cells.Length
    {
      OrderDistinct(first, mods, index, |mods|);
    }

    /** A key's cells are visited by a full traversal. */
    lemma ProbesVisited(key: K, i: nat)
      requires Shaped() && i in probe(key)
      ensures i in Order(mods, index, |mods|)
    {
      var r :| 0 <= r < |probe(key)| && probe(key)[r] == i;
      assert RowOk(first, ROW_RATIO, mods, index, r);
      assert i == ProbeAt(mods, index, hash(key), r);
      OrderAt(mods, index, r, hash(key) % mods[r]);
    }

    /** A table for `capacity` keys, all cells empty; `blank` is the zero-filled key. */
    constructor (capacity: nat, blank: K, hash: K -> nat)
      requires 1 <= capacity <= 0xffff_ffff * 80 / 100
      ensures Shaped() && fresh(cells) && this.hash == hash && capacity <= cells.Length < U32
      ensures forall i :: 0 <= i < cells.Length ==> cells[i] == Cell(blank, NO_BUF)
    {
      var ok, f, m, x, n := TableRows(capacity);
      mods, index, first, maxRowTouched := m, x, f, 0;
      this.hash := hash;
      probe := k => ProbesOf(m, x, hash, k);
      cells := new Cell<K>[n](_ => Cell(blank, NO_BUF));
    }

    /** The cell that holds the key, if any: the first probe with a handle set and an equal key. */
    method Find(key: K) returns (found: bool, cell: nat)
      requires Shaped()
      ensures ProbesOk(cells.Length, probe(key))
      ensures var q := FindFrom(cells[..], probe(key), key, 0);
              if q < |mods| then found && cell == probe(key)[q] else !found
      ensures |index| == |mods| && forall r :: 0 <= r < |mods| ==>
                mods[r] > 0 && index[r] + hash(key) % mods[r] < cells.Length
      ensures found ==> cell < cells.Length && cells[cell].lb.IsSet() && cells[cell].key == key
      ensures found ==> exists r :: 0 <= r < |mods| && cell == index[r] + hash(key) % mods[r]
      ensures !found ==> forall r :: 0 <= r < |mods| ==>
                var c := cells[index[r] + hash(key) % mods[r]];
                !(c.lb.IsSet() && c.key == key)
    {
      ProbesInRange(key);
      PlacesInRange(key);
      FindPlaces(key);
      ghost var probes := probe(key);
      found, cell := false, 0;
      var r := 0;
      while r < |mods|
        invariant 0 <= r <= |mods|
        invariant FindFrom(cells[..], probes, key, 0) == FindFrom(cells[..], probes, key, r)
      {
        assert RowOk(first, ROW_RATIO, mods, index, r);
        var i := index[r] + hash(key) % mods[r];
        assert i == probes[r] == ProbeAt(mods, index, hash(key), r);
        if cells[i].lb.IsSet() && cells[i].key == key {
          return true, i;
        }
        r := r + 1;
      }
    }

    /** The cell that holds the key, else the first empty probe. */
    method FindSlot(key: K) returns (slot: Slot)
      requires Shaped()
      modifies this`maxRowTouched
      ensures ProbesOk(cells.Length, probe(key))
      ensures slot == FindOrAlloc(cells[..], probe(key), key)
      ensures |index| == |mods| && forall r :: 0 <= r < |mods| ==>
                mods[r] > 0 && index[r] + hash(key) % mods[r] < cells.Length
      ensures slot.Found? ==> slot.cell < cells.Length && cells[slot.cell].lb.IsSet() && cells[slot.cell].key == key
      ensures slot.Found? ==> exists r :: 0 <= r < |mods| && slot.cell == index[r] + hash(key) % mods[r]
      ensures !slot.Found? ==> forall r :: 0 <= r < |mods| ==>
                var c := cells[index[r] + hash(key) % mods[r]];
                !(c.lb.IsSet() && c.key == key)
      ensures slot.Vacant? ==>
                exists r :: 0 <= r < |mods| && slot.cell == index[r] + hash(key) % mods[r] < cells.Length
                            && !cells[slot.cell].lb.IsSet()
                            && forall q :: 0 <= q < r ==> cells[index[q] + hash(key) % mods[q]].lb.IsSet()
      ensures slot.Full? <==> forall r :: 0 <= r < |mods| ==>
                var c := cells[index[r] + hash(key) % mods[r]]; c.lb.IsSet() && c.key != key
    {
      ProbesInRange(key);
      PlacesInRange(key);
      FindPlaces(key);
      SlotPlaces(key);
      ghost var probes := probe(key);
      slot := Full;
      var r := 0;
      while r < |mods|
        invariant 0 <= r <= |mods|
        invariant FindFrom(cells[..], probes, key, 0) == FindFrom(cells[..], probes, key, r)
        invariant slot.Full? || slot.Vacant?
        invariant slot.Full? ==> EmptyFrom(cells[..], probes, 0) == EmptyFrom(cells[..], probes, r)
        invariant slot.Vacant? ==>
                  EmptyFrom(cells[..], probes, 0) < |probes| && slot.cell == probes[EmptyFrom(cells[..], probes, 0)]
      {
        assert RowOk(first, ROW_RATIO, mods, index, r);
        var i := index[r] + hash(key) % mods[r];
        assert i == probes[r] == ProbeAt(mods, index, hash(key), r);
        if cells[i].lb.IsSet() {
          if cells[i].key == key {
            return Found(i);
          }
        } else if slot.Full? {
          slot := Vacant(i);
          if r > maxRowTouched { maxRowTouched := r; }
        }
        r := r + 1;
      }
    }

    /**
     * Visits cells from a saved position.  It stops after `max` cells, used or not (0 for all), and
     * saves the position; at the end it is back at the origin.
     */
    method Travel(pos: TravelPos, max: nat) returns (visited: seq<nat>, next: TravelPos)
      requires Shaped() && PosOk(mods, pos)
      ensures var order, from := Order(mods, index, |mods|), Rank(mods, pos.row, pos.col);
              && from < |order|
              && if max > 0 && from + max < |order|
                 then
                   && visited == order[from..from + max] && PosOk(mods, next)
                   && Rank(mods, next.row, next.col) == from + max
                 else visited == order[from..] && next == ORIGIN
    {
      ghost var order, from := Order(mods, index, |mods|), Rank(mods, pos.row, pos.col);
      OrderAt(mods, index, pos.row, pos.col);
      assert RowOk(first, ROW_RATIO, mods, index, 0);
      visited := [];
      var r := 0;
      while r < |mods|
        invariant 0 <= r <= |mods| && Sofar(order, from, visited)
        invariant (visited == [] && r == 0) || (1 <= r && Rank(mods, r, 0) == from + |visited|)
        invariant max > 0 ==> |visited| <= max
        decreases |order| - from - |visited|
      {
        var stop, c;
        stop, r, c, visited := TravelRow(pos, max, r, visited);
        if stop {
          return visited, TravelPos(r, c);
        }
        RowEnd(mods, r);
        r := r + 1;
      }
      next := ORIGIN;
    }

    lemma PlaceInOrder(r: nat, c: nat)
      requires |mods| == |index| && r < |mods| && c < mods[r]
      ensures Rank(mods, r, c) < |Order(mods, index, |mods|)|
    {
      OrderAt(mods, index, r, c);
    }

    lemma VisitCell(from: nat, visited: seq<nat>, r: nat, c: nat)
      requires |mods| == |index| && r < |mods| && c < mods[r] && Rank(mods, r, c) == from + |visited|
      requires Sofar(Order(mods, index, |mods|), from, visited)
      ensures Sofar(Order(mods, index, |mods|), from, visited + [index[r] + c])
      ensures Rank(mods, r, c + 1) == from + |visited| + 1
    {
      OrderAt(mods, index, r, c);
      VisitNext(Order(mods, index, |mods|), from, visited);
    }

    /** The inner loop of Travel; at its first cell it jumps to the saved position. */
    method TravelRow(pos: TravelPos, max: nat, row: nat, start: seq<nat>)
      returns (stop: bool, r: nat, c: nat, visited: seq<nat>)
      requires Shaped() && PosOk(mods, pos) && row < |mods|
      requires Sofar(Order(mods, index, |mods|), Rank(mods, pos.row, pos.col), start)
      requires (start == [] && row == 0) || (1 <= row && Rank(mods, row, 0) == Rank(mods, pos.row, pos.col) + |start|)
      requires max > 0 ==> |start| <= max
      ensures Sofar(Order(mods, index, |mods|), Rank(mods, pos.row, pos.col), visited)
      ensures r < |mods| && Rank(mods, r, c) == Rank(mods, pos.row, pos.col) + |visited|
      ensures if stop then c < mods[r] && max > 0 && |visited| == max && Rank(mods, r, c) < |Order(mods, index, |mods|)|
              else c == mods[r] && |visited| > |start| && (max > 0 ==> |visited| <= max)
    {
      ghost var order, from := Order(mods, index, |mods|), Rank(mods, pos.row, pos.col);
      assert RowOk(first, ROW_RATIO, mods, index, row);
      r, c, visited := row, 0, start;
      while c < mods[r]
        invariant r < |mods| && c <= mods[r] && Sofar(order, from, visited)
        invariant |start| <= |visited| && (c > 0 || r > row ==> |start| < |visited|)
        invariant (|start| == |visited| ==> r == row && c == 0)
        invariant (visited == [] && r == 0 && c == 0) || ((r > 0 || c > 0) && Rank(mods, r, c) == from + |visited|)
        invariant max > 0 ==> |visited| <= max
        decreases |order| - from - |visited|
      {
        if r == 0 && c == 0 {
          r, c := pos.row, pos.col;
        }
        PlaceInOrder(r, c);
        if max > 0 && |visited| >= max {
          return true, r, c, visited;
        }
        VisitCell(from, visited, r, c);
        visited := visited + [index[r] + c];
        c := c + 1;
      }
      stop := false;
    }

    /**
     * For every chunk size, repeating Travel until it is back at the origin visits every cell exactly
     * once, in the order of one full Travel.
     */
    method TravelInChunks(max: nat) returns (visited: seq<nat>)
      requires Shaped() && max >= 1
      ensures visited == Order(mods, index, |mods|)
    {
      ghost var order := Order(mods, index, |mods|);
      assert RowOk(first, ROW_RATIO, mods, index, 0);
      var pos;
      visited, pos := Travel(ORIGIN, max);
      while !pos.AtOrigin()
        invariant PosOk(mods, pos)
        invariant !pos.AtOrigin() ==>
                  Rank(mods, pos.row, pos.col) <= |order| && visited == order[..Rank(mods, pos.row, pos.col)]
        invariant pos.AtOrigin() ==> visited == order
        decreases !pos.AtOrigin(), |order| - Rank(mods, pos.row, pos.col)
      {
        var part;
        part, pos := Travel(pos, max);
        visited := visited + part;
      }
    }
  }
}
