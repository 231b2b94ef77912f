/** What cells and link table together say about the map (src/lib_bsp/shmc/shm_hash_map.h). */
module MapRep {
  import opened Bytes
  import opened LinkRep
  import opened LinkOps
  import opened Cells

  /** A used cell has the handle of a readable buffer with the key's value, and it is the chain's owner. */
  ghost predicate CellHolds<K(!new)>(crc: Crc, t: Table, v: View, cells: seq<Cell<K>>, own: map<nat, nat>,
                              now: Contents<K>, i: nat)
    requires i < |cells|
  {
    var lb := cells[i].lb;
    && Holds(crc, t, v, lb) && lb.tag < HEAD_FLAG
    && lb.head in own && own[lb.head] == i
    && cells[i].key in now && now[cells[i].key] == Value(t, v.chains[lb.head])
  }

  ghost predicate OwnerOk<K(!new)>(cells: seq<Cell<K>>, own: map<nat, nat>, h: nat)
    requires h in own
  {
    own[h] < |cells| && cells[own[h]].lb.IsSet() && cells[own[h]].lb.head == h
  }

  /** The memory represents the map `now`. */
  ghost predicate MapOk<K(!new)>(crc: Crc, probe: K -> seq<nat>, t: Table, v: View, cells: seq<Cell<K>>,
                                 own: map<nat, nat>, slot: map<K, nat>, now: Contents<K>) {
    && Rep(t, v)
    && SlotsOk(cells, probe, slot)
    && now.Keys == slot.Keys
    && (forall i {:trigger CellHolds(crc, t, v, cells, own, now, i)} ::
          0 <= i < |cells| && cells[i].lb.IsSet() ==> CellHolds(crc, t, v, cells, own, now, i))
    && (forall h {:trigger OwnerOk(cells, own, h)} :: h in own ==> OwnerOk(cells, own, h))
  }

  /** Every chain belongs to a used cell. */
  ghost predicate NoOrphan(v: View, own: map<nat, nat>) { v.chains.Keys == own.Keys }

  /** Every chain but the one at `h` belongs to a used cell. */
  ghost predicate OneOrphan(v: View, own: map<nat, nat>, h: nat) { h !in own && v.chains.Keys == own.Keys + {h} }

  /** Owned chains keep their nodes. */
  ghost predicate OwnedKept(t: Table, v: View, t': Table, v': View, own: map<nat, nat>) {
    && |t'.nodes| == |t.nodes| && t'.unit == t.unit
    && forall h {:trigger h in v'.chains} {:trigger v.chains[h]} :: h in own && h in v.chains ==>
         && h in v'.chains && v'.chains[h] == v.chains[h]
         && forall n :: n in v.chains[h] && n < |t.nodes| ==> t'.nodes[n] == t.nodes[n]
  }

  lemma OwnedKeptTwice(t: Table, v: View, t1: Table, v1: View, t2: Table, v2: View, own: map<nat, nat>)
    requires OwnedKept(t, v, t1, v1, own) && OwnedKept(t1, v1, t2, v2, own)
    ensures OwnedKept(t, v, t2, v2, own)
  {
    forall h | h in own && h in v.chains
      ensures h in v2.chains && v2.chains[h] == v.chains[h]
      ensures forall n :: n in v.chains[h] && n < |t.nodes| ==> t2.nodes[n] == t.nodes[n]
    {
      assert h in v1.chains && v1.chains[h] == v.chains[h];
    }
  }

  /** The map does not depend on anything but the cells and the owned chains. */
  lemma MapFrame<K(!new)>(crc: Crc, probe: K -> seq<nat>, t: Table, v: View, t': Table, v': View, cells: seq<Cell<K>>,
                          own: map<nat, nat>, slot: map<K, nat>, now: Contents<K>)
    requires MapOk(crc, probe, t, v, cells, own, slot, now) && Rep(t', v') && OwnedKept(t, v, t', v', own)
    ensures MapOk(crc, probe, t', v', cells, own, slot, now)
  {
    forall i | 0 <= i < |cells| && cells[i].lb.IsSet() ensures CellHolds(crc, t', v', cells, own, now, i) {
      assert CellHolds(crc, t, v, cells, own, now, i);
      ValueFrame(crc, t, v, t', v', own, cells[i].lb);
    }
  }

  lemma ValueFrame(crc: Crc, t: Table, v: View, t': Table, v': View, own: map<nat, nat>, lb: Handle)
    requires Rep(t, v) && Rep(t', v') && OwnedKept(t, v, t', v', own) && lb.head in own && Holds(crc, t, v, lb)
    ensures Holds(crc, t', v', lb) && v'.chains[lb.head] == v.chains[lb.head]
    ensures Value(t', v'.chains[lb.head]) == Value(t, v.chains[lb.head])
  {
    assert v'.chains[lb.head] == v.chains[lb.head];
    HoldsFrame(crc, t, v, t', v', lb);
  }

  /** New and the release of an unowned chain keep the owned ones. */
  lemma NewKeepsOwned(crc: Crc, t: Table, v: View, t': Table, v': View, own: map<nat, nat>, lb: Handle, buf: seq<Byte>)
    requires Rep(t, v) && Keeps(t, v, t', v') && Stored(crc, v, t', v', lb, buf)
    ensures OwnedKept(t, v, t', v', own)
  {
    forall h | h in own && h in v.chains
      ensures forall n :: n in v.chains[h] && n < |t.nodes| ==> t'.nodes[n] == t.nodes[n]
    {
      ChainNodes(t, v, h);
    }
  }

  lemma ReleaseKeepsOwned(t: Table, v: View, t': Table, v': View, own: map<nat, nat>, h: nat)
    requires h in v.chains && h !in own && Released(t, v, t', v', h, [])
    ensures OwnedKept(t, v, t', v', own)
  {
    forall g | g in own && g in v.chains
      ensures forall n :: n in v.chains[g] && n < |t.nodes| ==> t'.nodes[n] == t.nodes[n]
    {
      ChainNodes(t, v, g);
    }
  }

  /** A repair keeps every chain that is whole, in particular every readable one. */
  lemma RepairKeepsOwned<K(!new)>(crc: Crc, probe: K -> seq<nat>, t: Table, v: View, t': Table, v': View,
                           cells: seq<Cell<K>>,
                                  own: map<nat, nat>, slot: map<K, nat>, now: Contents<K>)
    requires MapOk(crc, probe, t, v, cells, own, slot, now) && Repaired(t, v, t', v')
    ensures OwnedKept(t, v, t', v', own)
  {
    forall h | h in own && h in v.chains
      ensures h in v'.chains && v'.chains[h] == v.chains[h]
      ensures forall n :: n in v.chains[h] && n < |t.nodes| ==> t'.nodes[n] == t.nodes[n]
    {
      assert OwnerOk(cells, own, h) && CellHolds(crc, t, v, cells, own, now, own[h]);
      ChainNodes(t, v, h);
    }
  }

  /** Storing a new handle in a cell publishes the key's value. */
  lemma PublishMap<K(!new)>(crc: Crc, probe: K -> seq<nat>, t: Table, v: View, cells: seq<Cell<K>>,
                            own: map<nat, nat>, slot: map<K, nat>, now: Contents<K>, i: nat, key: K, lb: Handle)
    requires MapOk(crc, probe, t, v, cells, own, slot, now) && i < |cells| && i in probe(key)
    requires if cells[i].lb.IsSet() then cells[i].key == key else key !in slot
    requires Holds(crc, t, v, lb) && lb.tag < HEAD_FLAG && lb.head !in own
    ensures var own' := (if cells[i].lb.IsSet() then own - {cells[i].lb.head} else own)[lb.head := i];
            MapOk(crc, probe, t, v, cells[i := Cell(key, lb)], own', slot[key := i],
                  now[key := Value(t, v.chains[lb.head])])
  {
    var cells' := cells[i := Cell(key, lb)];
    var own' := (if cells[i].lb.IsSet() then own - {cells[i].lb.head} else own)[lb.head := i];
    var slot', now' := slot[key := i], now[key := Value(t, v.chains[lb.head])];
    if cells[i].lb.IsSet() {
      assert CellHolds(crc, t, v, cells, own, now, i) && UsedOk(cells, probe, slot, i);
    }
    forall m | 0 <= m < |cells'| && cells'[m].lb.IsSet()
      ensures CellHolds(crc, t, v, cells', own', now', m) && UsedOk(cells', probe, slot', m)
    {
      if m != i { assert CellHolds(crc, t, v, cells, own, now, m) && UsedOk(cells, probe, slot, m); }
    }
    forall k | k in slot' ensures KeyOk(cells', slot', k) { assert k in slot ==> KeyOk(cells, slot, k); }
    forall h | h in own' ensures OwnerOk(cells', own', h) { assert h in own ==> OwnerOk(cells, own, h); }
  }

  /** Clearing a cell's handle withdraws its key. */
  lemma ClearMap<K(!new)>(crc: Crc, probe: K -> seq<nat>, t: Table, v: View, cells: seq<Cell<K>>,
                          own: map<nat, nat>, slot: map<K, nat>, now: Contents<K>, i: nat, junk: K)
    requires MapOk(crc, probe, t, v, cells, own, slot, now) && i < |cells| && cells[i].lb.IsSet()
    ensures var k, h := cells[i].key, cells[i].lb.head;
            MapOk(crc, probe, t, v, cells[i := Cell(junk, NO_BUF)], own - {h}, slot - {k}, now - {k})
  {
    var k, h := cells[i].key, cells[i].lb.head;
    var cells', own', slot', now' := cells[i := Cell(junk, NO_BUF)], own - {h}, slot - {k}, now - {k};
    assert CellHolds(crc, t, v, cells, own, now, i) && UsedOk(cells, probe, slot, i);
    assert !cells'[i].lb.IsSet();
    forall m | 0 <= m < |cells'| && cells'[m].lb.IsSet()
      ensures CellHolds(crc, t, v, cells', own', now', m) && UsedOk(cells', probe, slot', m)
    {
      assert CellHolds(crc, t, v, cells, own, now, m) && UsedOk(cells, probe, slot, m);
    }
    forall j | j in slot' ensures KeyOk(cells', slot', j) { assert KeyOk(cells, slot, j); }
    forall g | g in own' ensures OwnerOk(cells', own', g) { assert OwnerOk(cells, own, g); }
  }
}
