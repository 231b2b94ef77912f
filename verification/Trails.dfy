/** The link table at every single store of Free and HealthCheck (src/lib_bsp/shmc/shm_link_table.h). */
module Trails {
  import opened Bytes
  import opened LinkRep
  import opened LinkOps

  /** The memory after a store, and what it stands for. */
  datatype Snap = Snap(t: Table, v: View)

  /** One field of one node differs. */
  ghost predicate OneNodeField(t: Table, t': Table, n: nat)
    requires n < |t.nodes|
  {
    || (exists x :: t' == Set(t, n, t.nodes[n].(tag := x)))
    || (exists x :: t' == Set(t, n, t.nodes[n].(next := x)))
  }

  /** One field differs at most. */
  ghost predicate OneField(t: Table, t': Table) {
    || t' == t.(freeList := t'.freeList) || t' == t.(freeNodeNum := t'.freeNodeNum)
    || t' == t.(bufUsedNum := t'.bufUsedNum) || t' == t.(bufUsedBytes := t'.bufUsedBytes)
    || exists n :: 0 <= n < |t.nodes| && OneNodeField(t, t', n)
  }

  /** Chains may go, but those that are left have the same nodes. */
  ghost predicate Shrinks(a: Snap, b: Snap) {
    && Rep(a.t, a.v) && Rep(b.t, b.v)
    && |b.t.nodes| == |a.t.nodes| && b.t.unit == a.t.unit && b.t.tagSeqNext == a.t.tagSeqNext
    && forall h {:trigger b.v.chains[h]} :: h in b.v.chains ==>
         && h in a.v.chains && b.v.chains[h] == a.v.chains[h]
         && forall n :: n in a.v.chains[h] && n < |a.t.nodes| ==> b.t.nodes[n] == a.t.nodes[n]
  }

  lemma ShrinksTwice(a: Snap, b: Snap, d: Snap)
    requires Shrinks(a, b) && Shrinks(b, d)
    ensures Shrinks(a, d)
  {
    forall h | h in d.v.chains
      ensures h in a.v.chains && d.v.chains[h] == a.v.chains[h]
      ensures forall n :: n in a.v.chains[h] && n < |a.t.nodes| ==> d.t.nodes[n] == a.t.nodes[n]
    {
      assert d.v.chains[h] == b.v.chains[h] == a.v.chains[h];
    }
  }

  /** The stores `log` lead from `a` to `b`, one field at a time. */
  ghost predicate Trail(a: Snap, log: seq<Snap>, b: Snap) {
    && ([a] + log)[|log|] == b && Rep(a.t, a.v)
    && forall j {:trigger log[j]} :: 0 <= j < |log| ==> StoreOf(([a] + log)[j], log[j])
  }

  ghost predicate StoreOf(a: Snap, b: Snap) { OneField(a.t, b.t) && Shrinks(a, b) }

  lemma TrailOn(a: Snap, log: seq<Snap>, b: Snap, more: seq<Snap>, d: Snap)
    requires Trail(a, log, b) && Trail(b, more, d)
    ensures Trail(a, log + more, d)
  {
    var all := log + more;
    forall j | 0 <= j < |all| ensures StoreOf(([a] + all)[j], all[j]) {
      if j < |log| {
        assert StoreOf(([a] + log)[j], log[j]);
      } else {
        assert StoreOf(([b] + more)[j - |log|], more[j - |log|]);
      }
    }
  }

  /** Every memory on a trail lies between its ends. */
  lemma {:induction false} TrailShrinks(a: Snap, log: seq<Snap>, b: Snap, j: nat)
    requires Trail(a, log, b) && j <= |log|
    ensures Shrinks(a, ([a] + log)[j]) && Shrinks(([a] + log)[j], b)
    decreases |log| - j
  {
    FromStart(a, log, b, j);
    if j < |log| {
      TrailShrinks(a, log, b, j + 1);
      assert StoreOf(([a] + log)[j], log[j]);
      ShrinksTwice(([a] + log)[j], log[j], b);
    } else {
      SelfShrinks(b);
    }
  }

  lemma {:induction false} FromStart(a: Snap, log: seq<Snap>, b: Snap, j: nat)
    requires Trail(a, log, b) && j <= |log|
    ensures Shrinks(a, ([a] + log)[j])
  {
    if j == 0 {
      SelfShrinks(a);
    } else {
      FromStart(a, log, b, j - 1);
      assert StoreOf(([a] + log)[j - 1], log[j - 1]);
      ShrinksTwice(a, ([a] + log)[j - 1], log[j - 1]);
    }
  }

  lemma SelfShrinks(a: Snap)
    requires Rep(a.t, a.v)
    ensures Shrinks(a, a)
  {
  }

  /** A trace that has grown by a trail. */
  ghost predicate Logged(trace0: seq<Snap>, trace: seq<Snap>, a: Snap, b: Snap) {
    trace0 <= trace && Trail(a, trace[|trace0|..], b)
  }

  lemma LoggedNothing(trace: seq<Snap>, a: Snap)
    requires Rep(a.t, a.v)
    ensures Logged(trace, trace, a, a)
  {
  }

  lemma LoggedOne(trace: seq<Snap>, a: Snap, b: Snap)
    requires StoreOf(a, b)
    ensures Logged(trace, trace + [b], a, b)
  {
    assert (trace + [b])[|trace|..] == [b];
    assert StoreOf(([a] + [b])[0], [b][0]);
  }

  lemma LoggedTwice(trace0: seq<Snap>, trace1: seq<Snap>, trace2: seq<Snap>, a: Snap, b: Snap, d: Snap)
    requires Logged(trace0, trace1, a, b) && Logged(trace1, trace2, b, d)
    ensures Logged(trace0, trace2, a, d)
  {
    TrailOn(a, trace1[|trace0|..], b, trace2[|trace1|..], d);
    assert trace2[|trace0|..] == trace1[|trace0|..] + trace2[|trace1|..];
  }

  /** The store of a tag, and what follows it. */
  lemma UntaggedLogged(trace0: seq<Snap>, trace: seq<Snap>, a: Snap, untagged: Snap, b: Snap)
    requires StoreOf(a, untagged) && Logged(trace0 + [untagged], trace, untagged, b)
    ensures Logged(trace0, trace, a, b)
  {
    LoggedOne(trace0, a, untagged);
    LoggedTwice(trace0, trace0 + [untagged], trace, a, untagged, b);
  }

  /** Two counters at the end of a trail. */
  lemma TwoCounters(trace0: seq<Snap>, trace: seq<Snap>, a: Snap, b: Snap, b1: Snap, b2: Snap)
    requires Logged(trace0, trace, a, b) && b1.v == b2.v == b.v
    requires b1.t == b.t.(bufUsedNum := b1.t.bufUsedNum) && b2.t == b1.t.(bufUsedBytes := b2.t.bufUsedBytes)
    ensures Logged(trace0, trace + [b1] + [b2], a, b2)
  {
    TrailShrinks(a, trace[|trace0|..], b, 0);
    CounterStore(b.t, b1.t, b.v);
    CounterStore(b1.t, b2.t, b.v);
    LoggedOne(trace, b, b1);
    LoggedTwice(trace0, trace, trace + [b1], a, b, b1);
    LoggedOne(trace + [b1], b1, b2);
    LoggedTwice(trace0, trace + [b1], trace + [b1] + [b2], a, b1, b2);
  }

  // ---------------------------------------------------------------------------
  // The stores

  /** A counter. */
  lemma CounterStore(t: Table, t': Table, v: View)
    requires Rep(t, v)
    requires || t' == t.(freeNodeNum := t'.freeNodeNum) || t' == t.(bufUsedNum := t'.bufUsedNum)
             || t' == t.(bufUsedBytes := t'.bufUsedBytes)
    ensures StoreOf(Snap(t, v), Snap(t', v))
  {
    SameLinks(t, t', v);
  }

  /** The tag of the first node of a chain, which takes the chain away. */
  lemma UntagHead(t: Table, v: View, h: nat)
    requires Rep(t, v) && h in v.chains
    ensures h < |t.nodes| && StoreOf(Snap(t, v), Snap(Set(t, h, t.nodes[h].(tag := 0)), DropView(v, h)))
  {
    DropChain(t, v, h);
    var t' := Set(t, h, t.nodes[h].(tag := 0));
    assert OneNodeField(t, t', h);
    forall g | g in v.chains && g != h
      ensures forall n :: n in v.chains[g] && n < |t.nodes| ==> t'.nodes[n] == t.nodes[n]
    {
      ChainNodes(t, v, g);
      assert LinkOk(t, v, h, 0);
    }
  }

  /** The tag of a spare node. */
  lemma UntagSpare(t: Table, v: View, n: nat)
    requires Rep(t, v) && 0 < n < |t.nodes| && v.place[n] == Spare
    ensures StoreOf(Snap(t, v), Snap(Set(t, n, t.nodes[n].(tag := 0)), v))
  {
    assert NodeOk(t, t.nodes[n]);
    var t' := Set(t, n, t.nodes[n].(tag := 0));
    TouchSpare(t, v, n, t.nodes[n].(tag := 0));
    assert OneNodeField(t, t', n);
    SpareInNoChain(t, v, n);
  }

  lemma SpareInNoChain(t: Table, v: View, n: nat)
    requires Rep(t, v) && 0 < n < |t.nodes| && v.place[n] == Spare
    ensures forall h :: h in v.chains ==> n !in v.chains[h]
  {
    forall h | h in v.chains ensures n !in v.chains[h] { ChainNodes(t, v, h); }
  }

  /** The link of a spare node. */
  lemma RelinkSpare(t: Table, v: View, n: nat)
    requires Rep(t, v) && 0 < n < |t.nodes| && v.place[n] == Spare && t.nodes[n].tag == 0
    ensures StoreOf(Snap(t, v), Snap(Set(t, n, t.nodes[n].(next := t.freeList)), v))
  {
    assert NodeOk(t, t.nodes[n]);
    var t' := Set(t, n, t.nodes[n].(next := t.freeList));
    TouchSpare(t, v, n, t.nodes[n].(next := t.freeList));
    assert OneNodeField(t, t', n);
    SpareInNoChain(t, v, n);
  }

  /** The top of the free list. */
  lemma PushStore(t: Table, v: View, n: nat)
    requires Rep(t, v) && 0 < n < |t.nodes| && v.place[n] == Spare
    requires t.nodes[n].tag == 0 && t.nodes[n].next == t.freeList
    ensures StoreOf(Snap(t, v), Snap(t.(freeList := n), PushView(v, n)))
  {
    PushFree(t, v, n);
  }

  /** What FreeNode leaves in the trace, after the store of the tag. */
  function FreeNodeTrail(t: Table, v: View, n: nat): seq<Snap>
    requires n < |t.nodes| && n < |v.place|
  {
    var t2 := Set(t, n, t.nodes[n].(next := t.freeList));
    var t3 := t2.(freeList := n);
    [Snap(t2, v), Snap(t3, PushView(v, n)), Snap(t3.(freeNodeNum := (t.freeNodeNum + 1) % U32), PushView(v, n))]
  }

  lemma FreeNodeLogged(trace: seq<Snap>, t: Table, v: View, n: nat)
    requires Rep(t, v) && 0 < n < |t.nodes| && v.place[n] == Spare && t.nodes[n].tag == 0
    ensures Logged(trace, trace + FreeNodeTrail(t, v, n), Snap(t, v), Snap(Freed(t, n), PushView(v, n)))
  {
    var log := FreeNodeTrail(t, v, n);
    RelinkSpare(t, v, n);
    PushStore(log[0].t, v, n);
    CounterStore(log[1].t, log[2].t, log[1].v);
    LoggedOne(trace, Snap(t, v), log[0]);
    LoggedOne(trace + [log[0]], log[0], log[1]);
    LoggedTwice(trace, trace + [log[0]], trace + [log[0]] + [log[1]], Snap(t, v), log[0], log[1]);
    LoggedOne(trace + [log[0]] + [log[1]], log[1], log[2]);
    LoggedTwice(trace, trace + [log[0]] + [log[1]], trace + [log[0]] + [log[1]] + [log[2]], Snap(t, v), log[1], log[2]);
    assert trace + [log[0]] + [log[1]] + [log[2]] == trace + log;
  }
}
