/** The hash map at call granularity (src/lib_bsp/shmc/shm_hash_map.h). */
module HashMap {
  import opened Bytes
  import opened LinkRep
  import opened LinkOps
  import opened Trails
  import opened LinkTable
  import opened Cells
  import opened Geometry
  import opened HashTable
  import opened MapRep

  datatype MapStat = MapStat(total: nat, bad: nat, leaked: nat, recycled: nat)

  /** The entries that an erasing traversal of the cells `seen` leaves. */
  ghost function KeptBy<K(!new)>(m: Contents<K>, slot: map<K, nat>, drop: (K, seq<Byte>) -> bool,
                          seen: seq<nat>): Contents<K> {
    map k | k in m && !(k in slot && slot[k] in seen && drop(k, m[k])) :: m[k]
  }

  lemma KeptNext<K(!new)>(m: Contents<K>, slot: map<K, nat>, drop: (K, seq<Byte>) -> bool, seen: seq<nat>, i: nat,
                   key: K)
    requires var cur := KeptBy(m, slot, drop, seen);
             key in cur && key in slot && slot[key] == i && forall k :: k in cur && k in slot && slot[k] == i ==>
                  k == key
    ensures var cur := KeptBy(m, slot, drop, seen);
            KeptBy(m, slot, drop, seen + [i]) == if drop(key, cur[key]) then cur - {key} else cur
  {
  }

  lemma KeptSame<K(!new)>(m: Contents<K>, slot: map<K, nat>, drop: (K, seq<Byte>) -> bool, seen: seq<nat>, i: nat)
    requires forall k :: k in KeptBy(m, slot, drop, seen) && k in slot ==> slot[k] != i
    ensures KeptBy(m, slot, drop, seen + [i]) == KeptBy(m, slot, drop, seen)
  {
  }

  /** Two traversals one after the other. */
  lemma KeptTwice<K(!new)>(m: Contents<K>, slot: map<K, nat>, slot1: map<K, nat>, drop: (K, seq<Byte>) -> bool,
                    a: seq<nat>, b: seq<nat>)
    requires var cur := KeptBy(m, slot, drop, a);
             cur.Keys == slot1.Keys && forall k :: k in slot1 ==> k in slot && slot1[k] == slot[k]
    ensures KeptBy(KeptBy(m, slot, drop, a), slot1, drop, b) == KeptBy(m, slot, drop, a + b)
  {
  }

  /** Cells `from` to `upto` of the order are traversed after those before them. */
  lemma KeptChunk<K(!new)>(m: Contents<K>, slot: map<K, nat>, slot1: map<K, nat>, drop: (K, seq<Byte>) -> bool,
                           order: seq<nat>, from: nat, upto: nat)
    requires from <= upto <= |order|
    requires var cur := KeptBy(m, slot, drop, order[..from]);
             cur.Keys == slot1.Keys && forall k :: k in slot1 ==> k in slot && slot1[k] == slot[k]
    ensures KeptBy(KeptBy(m, slot, drop, order[..from]), slot1, drop, order[from..upto])
         == KeptBy(m, slot, drop, order[..upto])
  {
    assert order[..from] + order[from..upto] == order[..upto];
    KeptTwice(m, slot, slot1, drop, order[..from], order[from..upto]);
  }

  /** What a full traversal keeps. */
  ghost function Remaining<K(!new)>(m: Contents<K>, drop: (K, seq<Byte>) -> bool): Contents<K> {
    map k | k in m && !drop(k, m[k]) :: m[k]
  }

  lemma KeptAll<K(!new)>(m: Contents<K>, slot: map<K, nat>, drop: (K, seq<Byte>) -> bool, order: seq<nat>)
    requires m.Keys == slot.Keys && forall k :: k in slot ==> slot[k] in order
    ensures KeptBy(m, slot, drop, order) == Remaining(m, drop) && KeptBy(m, slot, drop, []) == m
  {
  }

  /** The bitmap marks the chains owned by the cells `seen`. */
  ghost predicate MarksOwned(bitmap: seq<bool>, own: map<nat, nat>, seen: seq<nat>) {
    forall h :: 0 <= h < |bitmap| ==> (bitmap[h] <==> h in own && own[h] in seen)
  }

  class ShmHashMap<K(==,!new)> {
    const table: ShmHashTable<K>
    const links: ShmLinkTable
    /** What the key's destructor leaves in a cell. */
    const destroy: K -> K
    ghost var own: map<nat, nat>
    ghost var slot: map<K, nat>
    ghost var now: Contents<K>

    /** The memory represents `now`, with room for leaked nodes and chains, as after a crash. */
    ghost predicate Consistent()
      reads this, table.cells, links, links.nodes
    {
      && table.Shaped()
      && MapOk(links.crc, table.probe, links.Tab(), links.view, table.cells[..], own, slot, now)
    }

    /** Between calls nothing is leaked. */
    ghost predicate Valid()
      reads this, table.cells, links, links.nodes
    {
      Consistent() && links.Valid() && NoOrphan(links.view, own)
    }

    /** An empty map on newly created segments. */
    constructor (keyNum: nat, valNodeSize: nat, valNodeNum: nat, blank: K, hash: K -> nat, crc: Crc, destroy: K -> K)
      requires 1 <= keyNum <= 0xffff_ffff * 80 / 100 && valNodeSize >= 8 && 0 < valNodeNum < U32 - 1
      ensures Valid() && now == map[] && links.freeNodeNum == valNodeNum && links.unit == valNodeSize
      ensures keyNum <= table.cells.Length && table.hash == hash
      ensures fresh(table) && fresh(table.cells) && fresh(links) && fresh(links.nodes)
    {
      table := new ShmHashTable<K>(keyNum, blank, hash);
      links := new ShmLinkTable(valNodeSize, valNodeNum, crc);
      this.destroy := destroy;
      own, slot, now := map[], map[], map[];
    }

    /**
     * Stores a value under a key.  It succeeds exactly when the key is present and may be replaced,
     * or is absent and has an empty probe, and the value fits; a refusal changes nothing.
     */
    method DoInsert(key: K, val: seq<Byte>, replace: bool) returns (ok: bool)
      requires Valid()
      modifies this, table`maxRowTouched, table.cells, links, links.nodes
      ensures Valid()
      ensures |table.index| == |table.mods| && forall r :: 0 <= r < |table.mods| ==>
                table.mods[r] > 0 && table.index[r] + table.hash(key) % table.mods[r] < table.cells.Length
      ensures ok <==> && (if key in old(now) then replace
                          else exists r ::
                                 && 0 <= r < |table.mods|
                                 && !old(table.cells[table.index[r] + table.hash(key) % table.mods[r]].lb).IsSet())
                      && 0 < |val| < 0x1_0000_0000 && 8 + |val| <= old(links.freeNodeNum) * links.unit
      ensures now == if ok then old(now)[key := val] else old(now)
      ensures !ok ==> links.Tab() == old(links.Tab()) && table.cells[..] == old(table.cells[..])
      ensures forall k :: k in old(slot) ==> k in slot && slot[k] == old(slot)[k]
    {
      table.PlacesInRange(key);
      BufNodesLeast(links.unit, |val|, links.freeNodeNum);
      var found := table.FindSlot(key);
      SlotFacts(key, found);
      if found.Full? {
        return false;
      }
      if found.Found? && !replace {
        return false;
      }
      ok := Store(found.cell, key, val, found.Found?);
    }

    /** What the search for a cell says about the map. */
    lemma SlotFacts(key: K, found: Slot)
      requires Consistent() && ProbesOk(table.cells.Length, table.probe(key))
      requires found == FindOrAlloc(table.cells[..], table.probe(key), key)
      ensures found.Found? <==> key in now
      ensures !found.Full? ==> found.cell < table.cells.Length && found.cell in table.probe(key)
      ensures !found.Full? ==> found.Found? == table.cells[found.cell].lb.IsSet()
      ensures found.Found? ==> slot[key] == found.cell && table.cells[found.cell].key == key
    {
      FindOrAllocRefinesMap(table.cells[..], table.probe, slot, key);
      if found.Found? {
        assert KeyOk(table.cells[..], slot, key) && UsedOk(table.cells[..], table.probe, slot, found.cell);
      }
    }

    /** DoInsert, once the cell is known: the new value, the commit, the release of the old value. */
    method Store(i: nat, key: K, val: seq<Byte>, found: bool) returns (ok: bool)
      requires Valid() && i < table.cells.Length && i in table.probe(key) && found == table.cells[i].lb.IsSet()
      requires if found then table.cells[i].key == key && key in slot && slot[key] == i else key !in slot
      modifies this, table.cells, links, links.nodes
      ensures Valid()
      ensures ok <==> 0 < |val| < U32 && BufNodes(links.unit, |val|) <= old(links.freeNodeNum)
      ensures now == if ok then old(now)[key := val] else old(now)
      ensures !ok ==> links.Tab() == old(links.Tab()) && table.cells[..] == old(table.cells[..])
      ensures slot == if ok then old(slot)[key := i] else old(slot)
    {
      var lb := NewValue(val);
      if !lb.IsSet() {
        return false;
      }
      var oldLb := table.cells[i].lb;
      Publish(i, key, lb, found);
      if found {
        FreeOld(oldLb);
      }
      ok := true;
    }

    /** Stores the value in a chain that no cell owns yet. */
    method NewValue(val: seq<Byte>) returns (lb: Handle)
      requires Valid()
      modifies links, links.nodes
      ensures Consistent() && links.Valid()
      ensures lb.IsSet() <==> 0 < |val| < U32 && BufNodes(links.unit, |val|) <= old(links.freeNodeNum)
      ensures !lb.IsSet() ==> links.Tab() == old(links.Tab()) && links.view == old(links.view)
      ensures lb.IsSet() ==>
              Holds(links.crc, links.Tab(), links.view, lb) && Value(links.Tab(), links.view.chains[lb.head]) == val
      ensures lb.IsSet() ==> lb.tag < HEAD_FLAG && OneOrphan(links.view, own, lb.head)
    {
      ghost var t0, v0 := links.Tab(), links.view;
      lb := links.New(val);
      if lb.IsSet() {
        NewKeepsOwned(links.crc, t0, v0, links.Tab(), links.view, own, lb, val);
        MapFrame(links.crc, table.probe, t0, v0, links.Tab(), links.view, table.cells[..], own, slot, now);
      }
    }

    /** Writes the handle into the key's cell, for a new key after the key itself. */
    method Publish(i: nat, key: K, lb: Handle, found: bool)
      requires Consistent() && i < table.cells.Length && i in table.probe(key) && found == table.cells[i].lb.IsSet()
      requires if found then table.cells[i].key == key else key !in slot
      requires Holds(links.crc, links.Tab(), links.view, lb) && lb.tag < HEAD_FLAG
      requires OneOrphan(links.view, own, lb.head)
      modifies this, table.cells
      ensures Consistent() && now == old(now)[key := Value(links.Tab(), links.view.chains[lb.head])]
      ensures slot == old(slot)[key := i]
      ensures !found ==> NoOrphan(links.view, own)
      ensures found ==> var was := old(table.cells[i]).lb;
                Names(links.Tab(), was) && was.tag < HEAD_FLAG && OneOrphan(links.view, own, was.head)
    {
      ghost var cells0, oldLb := table.cells[..], table.cells[i].lb;
      if found { assert CellHolds(links.crc, links.Tab(), links.view, cells0, own, now, i); }
      PublishMap(links.crc, table.probe, links.Tab(), links.view, cells0, own, slot, now, i, key, lb);
      if !found {
        table.cells[i] := table.cells[i].(key := key);
      }
      table.cells[i] := table.cells[i].(lb := lb);
      own := (if oldLb.IsSet() then own - {oldLb.head} else own)[lb.head := i];
      slot, now := slot[key := i], now[key := Value(links.Tab(), links.view.chains[lb.head])];
      assert table.cells[..] == cells0[i := Cell(key, lb)];
    }

    /** Frees the buffer of a handle that was taken out of its cell. */
    method FreeOld(lb: Handle)
      requires Consistent() && links.Valid() && Names(links.Tab(), lb) && lb.tag < HEAD_FLAG && lb.head !in own
      modifies links, links.nodes
      ensures Consistent() && links.Valid()
      ensures lb.head in old(links.view).chains && links.view.chains == old(links.view).chains - {lb.head}
      ensures OwnedKept(old(links.Tab()), old(links.view), links.Tab(), links.view, own)
      ensures links.tagSeqNext == old(links.tagSeqNext)
      ensures old(OneOrphan(links.view, own, lb.head)) ==> NoOrphan(links.view, own)
      ensures Logged(old(links.trace), links.trace, old(Snap(links.Tab(), links.view)), Snap(links.Tab(), links.view))
    {
      ghost var t, v := links.Tab(), links.view;
      var freed := links.Free(lb);
      ReleaseKeepsOwned(t, v, links.Tab(), links.view, own, lb.head);
      MapFrame(links.crc, table.probe, t, v, links.Tab(), links.view, table.cells[..], own, slot, now);
    }

    /** Reads the value of a cell; no other process writes, so that the first try decides. */
    method DoRead(key: K, i: nat) returns (ok: bool, val: seq<Byte>)
      requires Consistent() && i < table.cells.Length && table.cells[i].lb.IsSet()
      ensures ok <==> table.cells[i].key == key
      ensures ok ==> key in now && val == now[key]
    {
      assert CellHolds(links.crc, links.Tab(), links.view, table.cells[..], own, now, i);
      ok, val := false, [];
      var tries, lb := 0, NO_BUF;
      while tries == 0 || lb != table.cells[i].lb
        invariant tries == 0 || (tries == 1 && lb == table.cells[i].lb && (ok <==> table.cells[i].key == key))
        invariant ok ==> key in now && val == now[key]
        decreases 1 - tries
      {
        tries := tries + 1;
        if tries > READ_TRIES {
          assert false;
        }
        lb := table.cells[i].lb;
        ok, val := links.ReadString(lb);
        if ok && table.cells[i].key != key {
          return false, val;
        }
      }
    }

    /** Finds exactly the present keys, with their values. */
    method Find(key: K) returns (ok: bool, val: seq<Byte>)
      requires Valid()
      ensures ok <==> key in now
      ensures ok ==> val == now[key]
    {
      var found, i := table.Find(key);
      FindOrAllocRefinesMap(table.cells[..], table.probe, slot, key);
      if !found {
        return false, [];
      }
      ok, val := DoRead(key, i);
    }

    /** Removes a key and frees its value. */
    method Erase(key: K) returns (ok: bool)
      requires Valid()
      modifies this, table.cells, links, links.nodes
      ensures Valid()
      ensures ok <==> key in old(now)
      ensures now == old(now) - {key} && slot == old(slot) - {key}
      ensures forall i :: 0 <= i < table.cells.Length && (key !in old(slot) || i != old(slot)[key]) ==>
                table.cells[i] == old(table.cells[i])
      ensures key in old(slot) ==> old(slot)[key] < table.cells.Length && !table.cells[old(slot)[key]].lb.IsSet()
    {
      ghost var cells0 := table.cells[..];
      var found, i := table.Find(key);
      FindOrAllocRefinesMap(cells0, table.probe, slot, key);
      if !found {
        return false;
      }
      assert KeyOk(cells0, slot, key) && slot[key] == i < table.cells.Length;
      EraseCell(key, i);
      ok := true;
    }

    /** Erase, once the key's cell has been found: the handle, the key, the value. */
    method EraseCell(key: K, i: nat)
      requires Valid() && key in slot && slot[key] == i < table.cells.Length
      requires table.cells[i].lb.IsSet() && table.cells[i].key == key
      modifies this, table.cells, links, links.nodes
      ensures Valid() && now == old(now) - {key} && slot == old(slot) - {key}
      ensures table.cells[..] == old(table.cells[..])[i := Cell(destroy(key), NO_BUF)]
    {
      ghost var cells0 := table.cells[..];
      assert CellHolds(links.crc, links.Tab(), links.view, cells0, own, now, i);
      ClearMap(links.crc, table.probe, links.Tab(), links.view, cells0, own, slot, now, i, destroy(key));
      var lb := table.cells[i].lb;
      table.cells[i] := table.cells[i].(lb := NO_BUF);
      table.cells[i] := table.cells[i].(key := destroy(table.cells[i].key));
      own, slot, now := own - {lb.head}, slot - {key}, now - {key};
      assert table.cells[..] == cells0[i := Cell(destroy(key), NO_BUF)];
      FreeOld(lb);
    }

    lemma OneKeyAt(i: nat)
      requires Consistent() && i < table.cells.Length
      ensures forall k :: k in slot && slot[k] == i ==> table.cells[i].lb.IsSet() && table.cells[i].key == k
      ensures table.cells[i].lb.IsSet() ==> table.cells[i].key in slot && slot[table.cells[i].key] == i
    {
      forall k | k in slot && slot[k] == i ensures table.cells[i].lb.IsSet() && table.cells[i].key == k {
        assert KeyOk(table.cells[..], slot, k);
      }
      assert table.cells[i].lb.IsSet() ==> UsedOk(table.cells[..], table.probe, slot, i);
    }

    /** One round of the traversal. */
    method EraseAt(i: nat, drop: (K, seq<Byte>) -> bool, ghost now0: Contents<K>, ghost slot0: map<K, nat>,
                   ghost seen: seq<nat>)
      requires Valid() && i < table.cells.Length && now == KeptBy(now0, slot0, drop, seen)
      requires forall k :: k in slot ==> k in slot0 && slot[k] == slot0[k]
      modifies this, table.cells, links, links.nodes
      ensures Valid() && now == KeptBy(now0, slot0, drop, seen + [i])
      ensures forall k :: k in slot ==> k in slot0 && slot[k] == slot0[k]
    {
      OneKeyAt(i);
      if table.cells[i].lb.IsSet() {
        var key := table.cells[i].key;
        var ok, val := DoRead(key, i);
        KeptNext(now0, slot0, drop, seen, i, key);
        if !ok || drop(key, val) {
          var erased := Erase(key);
        }
      } else {
        KeptSame(now0, slot0, drop, seen, i);
      }
    }

    /** Erases the visited entries that the predicate selects, and no others. */
    method TravelEraseIf(pos: TravelPos, drop: (K, seq<Byte>) -> bool, max: nat)
      returns (next: TravelPos, seen: seq<nat>)
      requires Valid() && PosOk(table.mods, pos)
      modifies this, table.cells, links, links.nodes
      ensures Valid()
      ensures now == KeptBy(old(now), old(slot), drop, seen)
      ensures forall k :: k in old(now) ==>
                if k in old(slot) && old(slot)[k] in seen && drop(k, old(now)[k]) then k !in now
                else k in now && now[k] == old(now)[k]
      ensures forall k :: k in slot ==> k in old(slot) && slot[k] == old(slot)[k]
      ensures var order, from := Order(table.mods, table.index, |table.mods|), Rank(table.mods, pos.row, pos.col);
              && from < |order|
              && if max > 0 && from + max < |order|
                 then
                   && seen == order[from..from + max] && PosOk(table.mods, next)
                   && Rank(table.mods, next.row, next.col) == from + max
                 else seen == order[from..] && next == ORIGIN
    {
      seen, next := table.Travel(pos, max);
      table.OrderInRange();
      var j := 0;
      while j < |seen|
        invariant 0 <= j <= |seen| && Valid()
        invariant now == KeptBy(old(now), old(slot), drop, seen[..j])
        invariant forall k :: k in slot ==> k in old(slot) && slot[k] == old(slot)[k]
      {
        assert seen[..j + 1] == seen[..j] + [seen[j]];
        EraseAt(seen[j], drop, old(now), old(slot), seen[..j]);
        j := j + 1;
      }
      assert seen[..|seen|] == seen;
    }

    /** One full traversal leaves exactly the entries that the predicate keeps. */
    method EraseIf(drop: (K, seq<Byte>) -> bool)
      requires Valid()
      modifies this, table.cells, links, links.nodes
      ensures Valid()
      ensures now == Remaining(old(now), drop) && now.Keys <= old(now).Keys
      ensures forall k :: k in old(now) ==>
                if drop(k, old(now)[k]) then k !in now else k in now && now[k] == old(now)[k]
    {
      assert RowOk(table.first, ROW_RATIO, table.mods, table.index, 0);
      AllVisited();
      KeptAll(now, slot, drop, Order(table.mods, table.index, |table.mods|));
      var next, seen := TravelEraseIf(ORIGIN, drop, 0);
      assert Rank(table.mods, 0, 0) == 0;
    }

    lemma AllVisited()
      requires Consistent()
      ensures forall k :: k in slot ==> slot[k] in Order(table.mods, table.index, |table.mods|)
    {
      forall k | k in slot ensures slot[k] in Order(table.mods, table.index, |table.mods|) {
        assert KeyOk(table.cells[..], slot, k) && UsedOk(table.cells[..], table.probe, slot, slot[k]);
        table.ProbesVisited(k, slot[k]);
      }
    }

    /** The same for traversals in chunks of any size, from the saved position, until it is back at the origin. */
    method EraseIfInChunks(drop: (K, seq<Byte>) -> bool, max: nat)
      requires Valid() && max >= 1
      modifies this, table.cells, links, links.nodes
      ensures Valid()
      ensures now == Remaining(old(now), drop) && now.Keys <= old(now).Keys
      ensures forall k :: k in old(now) ==>
                if drop(k, old(now)[k]) then k !in now else k in now && now[k] == old(now)[k]
    {
      ghost var order := Order(table.mods, table.index, |table.mods|);
      assert RowOk(table.first, ROW_RATIO, table.mods, table.index, 0) && Rank(table.mods, 0, 0) == 0;
      AllVisited();
      KeptAll(now, slot, drop, order);
      assert order[..0] == [] && order[..|order|] == order;
      ghost var upto;
      var pos;
      pos, upto := EraseChunk(ORIGIN, drop, max, now, slot);
      while !pos.AtOrigin()
        invariant Valid() && upto <= |order|
        invariant forall k :: k in slot ==> k in old(slot) && slot[k] == old(slot)[k]
        invariant if pos.AtOrigin() then upto == |order|
                  else PosOk(table.mods, pos) && upto == Rank(table.mods, pos.row, pos.col)
        invariant now == KeptBy(old(now), old(slot), drop, order[..upto])
        decreases |order| - upto
      {
        pos, upto := EraseChunk(pos, drop, max, old(now), old(slot));
      }
    }

    /** One chunk of an erasing traversal that began with the contents `now0`. */
    method EraseChunk(pos: TravelPos, drop: (K, seq<Byte>) -> bool, max: nat, ghost now0: Contents<K>,
                      ghost slot0: map<K, nat>)
      returns (next: TravelPos, ghost upto: nat)
      requires Valid() && PosOk(table.mods, pos) && max >= 1
      requires Rank(table.mods, pos.row, pos.col) <= |Order(table.mods, table.index, |table.mods|)|
      requires now == KeptBy(now0, slot0, drop,
                             Order(table.mods, table.index, |table.mods|)[..Rank(table.mods, pos.row, pos.col)])
      requires forall k :: k in slot ==> k in slot0 && slot[k] == slot0[k]
      modifies this, table.cells, links, links.nodes
      ensures Valid() && Rank(table.mods, pos.row, pos.col) < upto <= |Order(table.mods, table.index, |table.mods|)|
      ensures if next.AtOrigin() then upto == |Order(table.mods, table.index, |table.mods|)|
              else PosOk(table.mods, next) && upto == Rank(table.mods, next.row, next.col)
      ensures now == KeptBy(now0, slot0, drop, Order(table.mods, table.index, |table.mods|)[..upto])
      ensures forall k :: k in slot ==> k in slot0 && slot[k] == slot0[k]
    {
      ghost var order, slot1 := Order(table.mods, table.index, |table.mods|), slot;
      ghost var from := Rank(table.mods, pos.row, pos.col);
      var seen;
      next, seen := TravelEraseIf(pos, drop, max);
      upto := from + |seen|;
      assert seen == order[from..upto];
      KeptChunk(now0, slot0, slot1, drop, order, from, upto);
    }

    /**
     * Repairs the map after its writer died: no node stays leaked, every chain belongs to one cell,
     * and cells and values, hence the contents, do not change.  A map between calls is not changed at all.
     */
    method HealthCheck(autoFix: bool) returns (stat: MapStat)
      requires Consistent()
      modifies links, links.nodes
      ensures Consistent() && links.tagSeqNext == old(links.tagSeqNext)
      ensures OwnedKept(old(links.Tab()), old(links.view), links.Tab(), links.view, own)
      ensures autoFix ==> Valid()
      ensures old(Valid()) ==> links.Tab() == old(links.Tab()) && links.view == old(links.view) && stat.leaked == 0
      ensures stat.bad == 0
      ensures Logged(old(links.trace), links.trace, old(Snap(links.Tab(), links.view)), Snap(links.Tab(), links.view))
    {
      ghost var t0, v0, trace0 := links.Tab(), links.view, links.trace;
      CheckLinks(autoFix);
      var bitmap := new bool[links.nodes.Length](_ => false);
      stat := MarkValues(bitmap);
      ghost var t1, v1, trace1 := links.Tab(), links.view, links.trace;
      stat := FreeLeaked(autoFix, bitmap, stat);
      LoggedTwice(trace0, trace1, links.trace, Snap(t0, v0), Snap(t1, v1), Snap(links.Tab(), links.view));
      OwnedKeptTwice(t0, v0, t1, v1, links.Tab(), links.view, own);
    }

    /** The check of the link table below. */
    method CheckLinks(autoFix: bool)
      requires Consistent()
      modifies links, links.nodes
      ensures Consistent() && links.tagSeqNext == old(links.tagSeqNext) && (autoFix ==> links.Valid())
      ensures OwnedKept(old(links.Tab()), old(links.view), links.Tab(), links.view, own)
      ensures old(links.Valid()) ==> links.Tab() == old(links.Tab()) && links.view == old(links.view)
      ensures Logged(old(links.trace), links.trace, old(Snap(links.Tab(), links.view)), Snap(links.Tab(), links.view))
    {
      ghost var t0, v0 := links.Tab(), links.view;
      var linkStat := links.HealthCheck(autoFix);
      if autoFix {
        RepairKeepsOwned(links.crc, table.probe, t0, v0, links.Tab(), links.view, table.cells[..], own, slot, now);
      }
      MapFrame(links.crc, table.probe, t0, v0, links.Tab(), links.view, table.cells[..], own, slot, now);
    }

    /** Marks the first node of every key's value; no value is bad. */
    method MarkValues(bitmap: array<bool>) returns (stat: MapStat)
      requires Consistent() && bitmap.Length == links.nodes.Length && forall h :: 0 <= h < bitmap.Length ==> !bitmap[h]
      modifies bitmap
      ensures Consistent() && forall h :: 0 <= h < bitmap.Length ==> (bitmap[h] <==> h in own)
      ensures stat.bad == stat.leaked == stat.recycled == 0
    {
      stat := MapStat(0, 0, 0, 0);
      assert RowOk(table.first, ROW_RATIO, table.mods, table.index, 0) && Rank(table.mods, 0, 0) == 0;
      var seen, next := table.Travel(ORIGIN, 0);
      table.OrderInRange();
      var j := 0;
      while j < |seen|
        invariant 0 <= j <= |seen| && Consistent()
        invariant stat.bad == stat.leaked == stat.recycled == 0
        invariant MarksOwned(bitmap[..], own, seen[..j])
      {
        assert seen[..j + 1] == seen[..j] + [seen[j]];
        var used := MarkValue(seen[j], bitmap, seen[..j]);
        stat := stat.(total := stat.total + used);
        j := j + 1;
      }
      assert seen[..|seen|] == seen;
      OwnersVisited();
    }

    /** One round of the traversal: the number of values found, 0 or 1. */
    method MarkValue(i: nat, bitmap: array<bool>, ghost seen: seq<nat>) returns (used: nat)
      requires Consistent() && i < table.cells.Length && bitmap.Length == links.nodes.Length
      requires MarksOwned(bitmap[..], own, seen)
      modifies bitmap
      ensures Consistent() && MarksOwned(bitmap[..], own, seen + [i])
      ensures used == if table.cells[i].lb.IsSet() then 1 else 0
    {
      used := 0;
      OwnerAt(i);
      if table.cells[i].lb.IsSet() {
        assert CellHolds(links.crc, links.Tab(), links.view, table.cells[..], own, now, i);
        used := 1;
        var ok, val := DoRead(table.cells[i].key, i);
        if ok {
          bitmap[table.cells[i].lb.head] := true;
        } else {
          assert false;
        }
      }
    }

    lemma OwnerAt(i: nat)
      requires Consistent() && i < table.cells.Length
      ensures forall h :: h in own && own[h] == i ==> table.cells[i].lb.IsSet() && table.cells[i].lb.head == h
    {
      forall h | h in own && own[h] == i ensures table.cells[i].lb.IsSet() && table.cells[i].lb.head == h {
        assert OwnerOk(table.cells[..], own, h);
      }
    }

    lemma OwnersVisited()
      requires Consistent()
      ensures forall h :: h in own ==> own[h] in Order(table.mods, table.index, |table.mods|)
    {
      AllVisited();
      forall h | h in own ensures own[h] in Order(table.mods, table.index, |table.mods|) {
        assert OwnerOk(table.cells[..], own, h) && UsedOk(table.cells[..], table.probe, slot, own[h]);
      }
    }

    /** Frees the chains whose first node is not marked. */
    method FreeLeaked(autoFix: bool, bitmap: array<bool>, start: MapStat) returns (stat: MapStat)
      requires Consistent() && (autoFix ==> links.Valid())
      requires bitmap.Length == links.nodes.Length && forall h :: 0 <= h < bitmap.Length ==> (bitmap[h] <==> h in own)
      modifies links, links.nodes
      ensures Consistent() && (autoFix ==> Valid()) && links.tagSeqNext == old(links.tagSeqNext)
      ensures OwnedKept(old(links.Tab()), old(links.view), links.Tab(), links.view, own)
      ensures stat.bad == start.bad && stat.leaked >= start.leaked
      ensures !autoFix || stat.leaked == start.leaked ==>
              links.Tab() == old(links.Tab()) && links.view == old(links.view)
      ensures old(NoOrphan(links.view, own)) ==> stat.leaked == start.leaked
      ensures Logged(old(links.trace), links.trace, old(Snap(links.Tab(), links.view)), Snap(links.Tab(), links.view))
    {
      stat := start;
      ghost var a, trace0 := Snap(links.Tab(), links.view), links.trace;
      LoggedNothing(trace0, a);
      HeadsInRange(links.Tab(), links.view);
      var n := 1;
      while n < links.nodes.Length
        invariant 1 <= n <= links.nodes.Length && LeaksFreed(n, autoFix, start, stat, a, trace0)
      {
        stat := FreeNext(n, autoFix, bitmap, start, stat, a, trace0);
        n := n + 1;
      }
      if autoFix {
        HeadsInRange(links.Tab(), links.view);
        OwnersLive();
      }
    }

    /** The nodes below `n` have been looked at, from the memory `a` on. */
    ghost predicate LeaksFreed(n: nat, autoFix: bool, start: MapStat, stat: MapStat, a: Snap, trace0: seq<Snap>)
      reads this, table.cells, links, links.nodes
    {
      && Consistent() && stat.bad == start.bad && stat.leaked >= start.leaked
      && OwnedKept(a.t, a.v, links.Tab(), links.view, own) && links.tagSeqNext == a.t.tagSeqNext
      && (autoFix ==> links.Valid() && forall h :: h in links.view.chains && h < n ==> h in own)
      && (!autoFix || stat.leaked == start.leaked ==> links.Tab() == a.t && links.view == a.v)
      && (NoOrphan(a.v, own) ==> stat.leaked == start.leaked)
      && Logged(trace0, links.trace, a, Snap(links.Tab(), links.view))
    }

    /** One round of the last pass. */
    method FreeNext(n: nat, autoFix: bool, bitmap: array<bool>, ghost start: MapStat, found: MapStat,
                    ghost a: Snap, ghost trace0: seq<Snap>) returns (stat: MapStat)
      requires 0 < n < links.nodes.Length == bitmap.Length && LeaksFreed(n, autoFix, start, found, a, trace0)
      requires forall h :: 0 <= h < bitmap.Length ==> (bitmap[h] <==> h in own)
      modifies links, links.nodes
      ensures LeaksFreed(n + 1, autoFix, start, stat, a, trace0)
    {
      stat := found;
      HeadFlagMarksChains(links.Tab(), links.view, n);
      if links.nodes[n].tag >= HEAD_FLAG {
        if !bitmap[n] {
          stat := stat.(leaked := stat.leaked + 1);
          if autoFix {
            FreeOrphan(n, a, trace0);
            stat := stat.(recycled := stat.recycled + 1);
          }
        }
      }
    }

    /** Frees a chain that belongs to no cell; the trail from `a` goes on. */
    method FreeOrphan(n: nat, ghost a: Snap, ghost trace0: seq<Snap>)
      requires Consistent() && links.Valid() && n !in own
      requires 0 < n < links.nodes.Length && links.nodes[n].tag >= HEAD_FLAG
      requires OwnedKept(a.t, a.v, links.Tab(), links.view, own)
      requires Logged(trace0, links.trace, a, Snap(links.Tab(), links.view))
      modifies links, links.nodes
      ensures Consistent() && links.Valid() && links.view.chains == old(links.view.chains) - {n}
      ensures OwnedKept(a.t, a.v, links.Tab(), links.view, own) && links.tagSeqNext == old(links.tagSeqNext)
      ensures Logged(trace0, links.trace, a, Snap(links.Tab(), links.view))
    {
      ghost var t, v, trace1 := links.Tab(), links.view, links.trace;
      assert NodeOk(t, t.nodes[n]);
      FreeOld(Handle(n, links.nodes[n].tag - HEAD_FLAG));
      LoggedTwice(trace0, trace1, links.trace, a, Snap(t, v), Snap(links.Tab(), links.view));
      OwnedKeptTwice(a.t, a.v, t, v, links.Tab(), links.view, own);
    }

    lemma OwnersLive()
      requires Consistent()
      ensures forall h :: h in own ==> h in links.view.chains
    {
      forall h | h in own ensures h in links.view.chains {
        assert OwnerOk(table.cells[..], own, h);
        assert CellHolds(links.crc, links.Tab(), links.view, table.cells[..], own, now, own[h]);
      }
    }
  }
}
