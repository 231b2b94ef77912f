/**
 * Cells of the hash map (src/lib_bsp/shmc/shm_hash_map.h, HTNode) and the probing of the multi-row
 * hash table (src/lib_bsp/shmc/shm_hash_table.h) as functions of the cell contents.
 */
module Cells {
  import opened Bytes
  import opened LinkRep

  /** What a map holds. */
  type Contents<!K> = map<K, seq<Byte>>

  /** Rounds of an optimistic read. */
  const READ_TRIES := 64

  /** A cell is used exactly when its link-buf handle is set. */
  datatype Cell<K> = Cell(key: K, lb: Handle)

  datatype Slot = Found(cell: nat) | Vacant(cell: nat) | Full

  ghost predicate ProbesOk(n: nat, probes: seq<nat>) {
    forall r :: 0 <= r < |probes| ==> probes[r] < n
  }

  /** First probe, from `r` on, that holds the key; `|probes|` if none does. */
  function FindFrom<K(==)>(cells: seq<Cell<K>>, probes: seq<nat>, key: K, r: nat): (q: nat)
    requires ProbesOk(|cells|, probes) && r <= |probes|
    ensures r <= q <= |probes|
    ensures q < |probes| ==> cells[probes[q]].lb.IsSet() && cells[probes[q]].key == key
    ensures forall p :: r <= p < q ==> !(cells[probes[p]].lb.IsSet() && cells[probes[p]].key == key)
    decreases |probes| - r
  {
    if r == |probes| || (cells[probes[r]].lb.IsSet() && cells[probes[r]].key == key) then r
    else FindFrom(cells, probes, key, r + 1)
  }

  /** First probe, from `r` on, that is empty; `|probes|` if none is. */
  function EmptyFrom<K>(cells: seq<Cell<K>>, probes: seq<nat>, r: nat): (q: nat)
    requires ProbesOk(|cells|, probes) && r <= |probes|
    ensures r <= q <= |probes|
    ensures q < |probes| ==> !cells[probes[q]].lb.IsSet()
    ensures forall p :: r <= p < q ==> cells[probes[p]].lb.IsSet()
    decreases |probes| - r
  {
    if r == |probes| || !cells[probes[r]].lb.IsSet() then r
    else EmptyFrom(cells, probes, r + 1)
  }

  /** What FindOrAlloc yields: the key's cell, else the first empty probe, else nothing. */
  function FindOrAlloc<K(==)>(cells: seq<Cell<K>>, probes: seq<nat>, key: K): Slot
    requires ProbesOk(|cells|, probes)
  {
    var f := FindFrom(cells, probes, key, 0);
    if f < |probes| then Found(probes[f])
    else
      var e := EmptyFrom(cells, probes, 0);
      if e < |probes| then Vacant(probes[e]) else Full
  }

  /** A used cell is the one where `slot` places its key, and one of the key's probes. */
  ghost predicate UsedOk<K(!new)>(cells: seq<Cell<K>>, probe: K -> seq<nat>, slot: map<K, nat>, i: nat)
    requires i < |cells|
  {
    cells[i].key in slot && slot[cells[i].key] == i && i in probe(cells[i].key)
  }

  ghost predicate KeyOk<K(!new)>(cells: seq<Cell<K>>, slot: map<K, nat>, k: K)
    requires k in slot
  {
    slot[k] < |cells| && cells[slot[k]].lb.IsSet() && cells[slot[k]].key == k
  }

  /** `slot` places every stored key in one used cell, which is among the key's probes. */
  ghost predicate SlotsOk<K(!new)>(cells: seq<Cell<K>>, probe: K -> seq<nat>, slot: map<K, nat>) {
    && (forall i {:trigger UsedOk(cells, probe, slot, i)} ::
          0 <= i < |cells| && cells[i].lb.IsSet() ==> UsedOk(cells, probe, slot, i))
    && (forall k {:trigger KeyOk(cells, slot, k)} :: k in slot ==> KeyOk(cells, slot, k))
  }

  /**
   * The table refines a finite map: a search succeeds exactly for the stored keys and yields the
   * key's only cell, and an insert is refused exactly when every probe of the key holds another
   * key.
   */
  lemma FindOrAllocRefinesMap<K(!new)>(cells: seq<Cell<K>>, probe: K -> seq<nat>, slot: map<K, nat>, key: K)
    requires ProbesOk(|cells|, probe(key)) && SlotsOk(cells, probe, slot)
    ensures var f := FindOrAlloc(cells, probe(key), key);
            && (f.Found? <==> key in slot)
            && (f.Found? ==> f.cell == slot[key])
            && (f.Vacant? ==> f.cell in probe(key) && f.cell < |cells| && !cells[f.cell].lb.IsSet())
            && (f.Full? <==> key !in slot && forall r :: 0 <= r < |probe(key)| ==>
                  cells[probe(key)[r]].lb.IsSet() && cells[probe(key)[r]].key != key)
  {
    var probes := probe(key);
    var f := FindFrom(cells, probes, key, 0);
    if key in slot {
      assert KeyOk(cells, slot, key);
      var i := slot[key];
      assert UsedOk(cells, probe, slot, i);
      var r :| 0 <= r < |probes| && probes[r] == i;
      assert !(f > r);
    }
    if f < |probes| { assert UsedOk(cells, probe, slot, probes[f]); }
    if FindOrAlloc(cells, probes, key).Full? {
      assert EmptyFrom(cells, probes, 0) == |probes|;
      forall r | 0 <= r < |probes|
        ensures cells[probes[r]].lb.IsSet() && cells[probes[r]].key != key
      {
        assert r < f && r < EmptyFrom(cells, probes, 0);
      }
    }
  }
}
