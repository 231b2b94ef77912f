/**
 * Progress of the queue (src/lib_bsp/shmc/shm_queue.h): when a push gets room, and that every push
 * that got room and every pop that finds a message come to their end, whatever the other process
 * does meanwhile.
 */
module QueueProgress {
  import opened Bytes
  import opened QueueRep
  import opened QueueRuns
  import opened QueueProof
  import opened Wrappers

  /** A node takes the least multiple of 64 bytes that holds its head of 8 bytes and the data. */
  lemma NodeSizeLeast(len: nat)
    ensures NodeSize(len) == (8 + len + 63) / 64 * 64
    ensures NodeSize(len) % 64 == 0 && 8 + len <= NodeSize(len)
    ensures forall n: nat :: n % 64 == 0 && 8 + len <= n ==> NodeSize(len) <= n
  {
    forall n: nat | n % 64 == 0 && 8 + len <= n ensures NodeSize(len) <= n {
      if n < NodeSize(len) { AlignGap(n, NodeSize(len)); }
    }
  }

  // ---------------------------------------------------------------------------
  // Room

  /** There is room behind the tail. */
  predicate RoomBehind(r: Ring, len: nat) {
    r.tail + (8 + len + 63) / 64 * 64 < if r.head <= r.tail then |r.mem| else r.head
  }

  /** There is none, but there is room at the start, before the head. */
  predicate RoomInFront(r: Ring, len: nat) {
    r.head <= r.tail && !RoomBehind(r, len) && (8 + len + 63) / 64 * 64 < r.head
  }

  /** Prepare looks at the positions once: it grants the place behind the tail, or the start, or refuses. */
  lemma PrepExact(xs: seq<World>, es: seq<Event>, i: nat)
    requires Run(xs, es) && i < |es| && es[i] == Produce && xs[i].prod.Prep?
    ensures var x, y, len, data := xs[i], xs[i + 1], xs[i].prod.len, xs[i].prod.data;
            && (RoomBehind(x.r, len) ==>
                  y == if data.None? then x.(prod := Ready, descs := x.descs + {Desc(x.r.tail, len)})
                       else x.(prod := if data.value == [] then Seal(Desc(x.r.tail, len), [], 0)
                                       else Fill(Desc(x.r.tail, len), data.value, 0), descs := {}))
            && (RoomInFront(x.r, len) ==> y == x.(prod := Flag(Desc(0, len), data, 0)))
            && (!RoomBehind(x.r, len) && !RoomInFront(x.r, len) ==> y == x.(prod := Ready))
  {
    NodeSizeLeast(xs[i].prod.len);
    assert Next(xs[i], es[i], xs[i + 1]);
  }

  // ---------------------------------------------------------------------------
  // The producer comes to its end

  /** Steps of the producer from event `i` to event `j`. */
  ghost function Produces(es: seq<Event>, i: nat, j: nat): nat
    requires j <= |es|
  {
    if j <= i then 0 else Produces(es, i, j - 1) + if es[j - 1] == Produce then 1 else 0
  }

  /** The producer is about to push the message. */
  ghost predicate Pushing(x: World, msg: Msg) {
    match x.prod
    case Flag(_, data, k) => data == Some(msg) && k < 4
    case Fill(_, m, j) => m == msg && j < |m|
    case Check(d) => DataAt(x.r.mem, d.w, msg) && |msg| == d.len
    case Seal(_, m, k) => m == msg && k <= 4
    case _ => false
  }

  /** Steps that it takes at most. */
  function PushRank(p: Producer): nat {
    match p
    case Flag(_, data, k) => if data.Some? && k < 4 then 4 - k + |data.value| + 5 else 0
    case Fill(_, m, j) => if j < |m| then |m| - j + 5 else 0
    case Check(_) => 6
    case Seal(_, _, k) => if k <= 4 then 5 - k else 0
    case _ => 0
  }

  lemma PushingStep(x: World, msg: Msg, y: World)
    requires Inv(x) && Pushing(x, msg) && Next(x, Produce, y)
    ensures || y.pushed == x.pushed + [msg]
            || (y.pushed == x.pushed && Pushing(y, msg) && PushRank(y.prod) < PushRank(x.prod))
  {
    if x.prod.Check? { CheckGoesOn(x, msg, y); } else { StoreGoesOn(x, msg, y); }
  }

  lemma CheckGoesOn(x: World, msg: Msg, y: World)
    requires Inv(x) && Pushing(x, msg) && x.prod.Check? && ProducerInBounds(x) && y == Produced(x)
    ensures y.pushed == x.pushed && Pushing(y, msg) && PushRank(y.prod) == 5
  {
    CheckResult(x, x.prod.d);
  }

  lemma StoreGoesOn(x: World, msg: Msg, y: World)
    requires Pushing(x, msg) && !x.prod.Check? && ProducerInBounds(x) && y == Produced(x)
    ensures || y.pushed == x.pushed + [msg]
            || (y.pushed == x.pushed && Pushing(y, msg) && PushRank(y.prod) < PushRank(x.prod))
  {
  }

  lemma PushingWaits(x: World, msg: Msg, e: Event, y: World)
    requires Pushing(x, msg) && Next(x, e, y) && e != Produce
    ensures y.pushed == x.pushed && y.prod == x.prod && Pushing(y, msg)
  {
  }

  lemma {:induction false} ProducesFrom(es: seq<Event>, i: nat, j: nat)
    requires i < j <= |es|
    ensures Produces(es, i, j) == (if es[i] == Produce then 1 else 0) + Produces(es, i + 1, j)
  {
    if i + 1 < j { ProducesFrom(es, i, j - 1); }
  }

  /** After as many steps of the producer the message has been added. */
  lemma {:induction false} PushingDone(xs: seq<World>, es: seq<Event>, i: nat, j: nat, msg: Msg) returns (m: nat)
    requires Run(xs, es) && i <= j <= |es| && Pushing(xs[i], msg) && Produces(es, i, j) >= PushRank(xs[i].prod)
    ensures i < m <= j && xs[m].pushed == xs[i].pushed + [msg]
    decreases j - i
  {
    assert PushRank(xs[i].prod) > 0;
    ProducesFrom(es, i, j);
    RunOk(xs, es, i);
    assert Next(xs[i], es[i], xs[i + 1]);
    if es[i] == Produce {
      PushingStep(xs[i], msg, xs[i + 1]);
      if xs[i + 1].pushed == xs[i].pushed + [msg] { return i + 1; }
    } else {
      PushingWaits(xs[i], msg, es[i], xs[i + 1]);
    }
    m := PushingDone(xs, es, i + 1, j, msg);
  }

  /**
   * A Push for which there is room when Prepare looks adds its message to the queue within the
   * producer's next |msg| + 9 steps, whatever the consumer does in between.
   */
  lemma PushIsDelivered(xs: seq<World>, es: seq<Event>, i: nat, j: nat, msg: Msg) returns (m: nat)
    requires Run(xs, es) && i < j <= |es| && es[i] == Produce && xs[i].prod == Prep(|msg|, Some(msg))
    requires RoomBehind(xs[i].r, |msg|) || RoomInFront(xs[i].r, |msg|)
    requires Produces(es, i + 1, j) >= |msg| + 9
    ensures i < m <= j && xs[m].pushed == xs[i].pushed + [msg]
  {
    PrepExact(xs, es, i);
    m := PushingDone(xs, es, i + 1, j, msg);
  }

  /** A Commit of a prepared buffer adds its bytes within the producer's next 6 steps. */
  lemma CommitIsDelivered(xs: seq<World>, es: seq<Event>, i: nat, j: nat, d: Desc) returns (m: nat)
    requires Run(xs, es) && i < j <= |es| && es[i] == CallCommit(d) && Produces(es, i + 1, j) >= 6
    ensures i < m <= j && d.w + 8 + d.len <= |xs[i].r.mem|
    ensures xs[m].pushed == xs[i].pushed + [xs[i].r.mem[d.w + 8..d.w + 8 + d.len]]
  {
    RunOk(xs, es, i);
    assert Next(xs[i], es[i], xs[i + 1]);
    CommitBegins(xs[i], d, xs[i + 1]);
    m := PushingDone(xs, es, i + 1, j, xs[i].r.mem[d.w + 8..d.w + 8 + d.len]);
  }

  lemma CommitBegins(x: World, d: Desc, y: World)
    requires Inv(x) && Next(x, CallCommit(d), y)
    ensures d.w + 8 + d.len <= |x.r.mem| && y.pushed == x.pushed && PushRank(y.prod) == 6
    ensures Pushing(y, x.r.mem[d.w + 8..d.w + 8 + d.len])
  {
    assert DescOk(x.r, d);
    EmptyPart(x.r, x.l, d, []);
  }

  /** A Prepare for which there is room hands out a buffer within the producer's next 5 steps. */
  lemma PrepareIsGranted(xs: seq<World>, es: seq<Event>, i: nat, j: nat) returns (m: nat, d: Desc)
    requires Run(xs, es) && i < j <= |es| && es[i] == Produce && xs[i].prod.Prep? && xs[i].prod.data == None
    requires RoomBehind(xs[i].r, xs[i].prod.len) || RoomInFront(xs[i].r, xs[i].prod.len)
    requires Produces(es, i + 1, j) >= 4
    ensures i < m <= j && d.len == xs[i].prod.len && xs[m].prod == Ready && xs[m].descs == xs[i].descs + {d}
    ensures d.w == if RoomBehind(xs[i].r, xs[i].prod.len) then xs[i].r.tail else 0
  {
    PrepExact(xs, es, i);
    if RoomBehind(xs[i].r, xs[i].prod.len) {
      m, d := i + 1, Desc(xs[i].r.tail, xs[i].prod.len);
    } else {
      d := Desc(0, xs[i].prod.len);
      m := FlagEnds(xs, es, i + 1, j, d, 0);
    }
  }

  lemma {:induction false} FlagEnds(xs: seq<World>, es: seq<Event>, i: nat, j: nat, d: Desc, k: nat) returns (m: nat)
    requires Run(xs, es) && i <= j <= |es| && xs[i].prod == Flag(d, None, k) && k < 4
    requires Produces(es, i, j) >= 4 - k
    ensures i < m <= j && xs[m].prod == Ready && xs[m].descs == xs[i].descs + {d}
    decreases j - i
  {
    assert Next(xs[i], es[i], xs[i + 1]);
    ProducesFrom(es, i, j);
    if es[i] == Produce && k == 3 { return i + 1; }
    m := FlagEnds(xs, es, i + 1, j, d, if es[i] == Produce then k + 1 else k);
  }

  /** A queue whose messages are all consumed takes every node shorter than half the ring. */
  lemma EmptyHasRoom(x: World, len: nat)
    requires Inv(x) && x.popped == x.pushed && 2 * ((8 + len + 63) / 64 * 64) < |x.r.mem|
    ensures RoomBehind(x.r, len) || RoomInFront(x.r, len)
  {
    assert x.l.Msgs() == [];
    EmptyIff(x.r, x.l);
  }

  // ---------------------------------------------------------------------------
  // The consumer comes to its end

  /** Steps of the consumer from event `i` to event `j`. */
  ghost function Consumes(es: seq<Event>, i: nat, j: nat): nat
    requires j <= |es|
  {
    if j <= i then 0 else Consumes(es, i, j - 1) + if es[j - 1] == Consume then 1 else 0
  }

  /** A pop finds the queue empty exactly if every message is consumed; otherwise it goes on to the first one. */
  lemma LoadTailExact(xs: seq<World>, es: seq<Event>, i: nat)
    requires Run(xs, es) && i < |es| && es[i] == Consume && xs[i].cons.LoadTail?
    ensures var x, y := xs[i], xs[i + 1];
            y == x.(cons := if x.popped == x.pushed then Resting else LoadTag(x.cons.copy, x.r.tail))
  {
    RunOk(xs, es, i);
    assert Next(xs[i], es[i], xs[i + 1]);
    EmptyIff(xs[i].r, xs[i].l);
    assert xs[i].popped == xs[i].pushed ==> xs[i].l.Msgs() == (xs[i].popped + xs[i].l.Msgs())[|xs[i].popped|..];
  }

  /** The consumer looks for the message, copies it, or takes it off the queue. */
  ghost predicate Popping(x: World, n: nat, copy: bool) {
    && |x.popped| == n < |x.pushed|
    && match x.cons
       case LoadTag(c, _) => c == copy
       case LoadType(c, _) => c == copy
       case LoadFirstTag(c, _) => c == copy
       case LoadFirstType(c, _) => c == copy
       case LoadLen(c, _, _) => c == copy
       case CopyOut(_, _, _) => copy
       case AgainTail(_, _) => copy
       case AgainTag(_, _) => copy
       case AgainType(_, _) => copy
       case AgainLen(_, _) => copy
       case StoreHead(_, _, _) => copy
       case _ => false
  }

  /** Steps that it takes at most, for a message of `len` bytes. */
  function PopRank(c: Consumer, len: nat): nat {
    match c
    case LoadTag(_, _) => 6 + len
    case LoadType(_, _) => 5 + len
    case LoadFirstTag(_, _) => 4 + len
    case LoadFirstType(_, _) => 3 + len
    case LoadLen(_, _, _) => 2 + len
    case CopyOut(_, _, out) => if |out| < len then 1 + len - |out| else 1
    case AgainTail(_, _) => 5
    case AgainTag(_, _) => 4
    case AgainType(_, _) => 3
    case AgainLen(_, _) => 2
    case StoreHead(_, _, _) => 1
    case _ => 0
  }

  /** Message `n` has been consumed, or its descriptor handed out. */
  ghost predicate Taken(x: World, y: World, n: nat, copy: bool)
    requires n < |x.pushed|
  {
    if copy then y.popped == x.popped + [x.pushed[n]] else y.popped == x.popped && y.cons.Held?
  }

  lemma LoadsGoOn(x: World, n: nat, copy: bool, y: World, len: nat)
    requires ConsumerOk(x.r.head, x.l, x.cons) && ConsumerOk(x.r.head, x.l, y.cons) && x.l.Msgs() != []
    requires Popping(x, n, copy) && !x.cons.StoreHead? && ConsumerInBounds(x) && y == Consumed(x)
    requires len == |x.l.Msgs()[0]|
    ensures (!copy && y.cons.Held?) || (Popping(y, n, copy) && PopRank(y.cons, len) < PopRank(x.cons, len))
  {
    if x.cons.LoadLen? || x.cons.CopyOut? { CopyGoesOn(x, n, copy, y, len); }
  }

  lemma CopyGoesOn(x: World, n: nat, copy: bool, y: World, len: nat)
    requires ConsumerOk(x.r.head, x.l, x.cons) && ConsumerOk(x.r.head, x.l, y.cons) && x.l.Msgs() != []
    requires Popping(x, n, copy) && (x.cons.LoadLen? || x.cons.CopyOut?) && ConsumerInBounds(x) && y == Consumed(x)
    requires len == |x.l.Msgs()[0]|
    ensures (!copy && y.cons.Held?) || (Popping(y, n, copy) && PopRank(y.cons, len) < PopRank(x.cons, len))
  {
  }

  lemma PoppingStep(x: World, n: nat, copy: bool, y: World)
    requires Inv(x) && Popping(x, n, copy) && Next(x, Consume, y)
    ensures y.pushed == x.pushed
    ensures || Taken(x, y, n, copy)
            || (y.popped == x.popped && Popping(y, n, copy)
                && PopRank(y.cons, |x.pushed[n]|) < PopRank(x.cons, |x.pushed[n]|))
  {
    assert x.l.Msgs()[0] == (x.popped + x.l.Msgs())[n];
    if !x.cons.StoreHead? {
      LoadOk(x, y);
      LoadsGoOn(x, n, copy, y, |x.pushed[n]|);
    }
  }

  lemma PoppingWaits(x: World, n: nat, copy: bool, e: Event, y: World)
    requires Popping(x, n, copy) && Next(x, e, y) && e != Consume
    ensures x.pushed <= y.pushed && y.popped == x.popped && y.cons == x.cons && Popping(y, n, copy)
  {
  }

  /** A step of either process, or a call. */
  lemma PopStep(x: World, n: nat, copy: bool, e: Event, y: World)
    requires Inv(x) && Popping(x, n, copy) && Next(x, e, y)
    ensures n < |x.pushed| && x.pushed <= y.pushed
    ensures || Taken(x, y, n, copy)
            || (y.popped == x.popped && Popping(y, n, copy)
                && PopRank(y.cons, |x.pushed[n]|) + (if e == Consume then 1 else 0) <= PopRank(x.cons, |x.pushed[n]|))
  {
    if e == Consume { PoppingStep(x, n, copy, y); } else { PoppingWaits(x, n, copy, e, y); }
  }

  lemma {:induction false} ConsumesFrom(es: seq<Event>, i: nat, j: nat)
    requires i < j <= |es|
    ensures Consumes(es, i, j) == (if es[i] == Consume then 1 else 0) + Consumes(es, i + 1, j)
  {
    if i + 1 < j { ConsumesFrom(es, i, j - 1); }
  }

  /** After as many steps of the consumer it has. */
  lemma {:induction false} PoppingDone(xs: seq<World>, es: seq<Event>, i: nat, j: nat, n: nat, copy: bool)
    returns (m: nat)
    requires Run(xs, es) && i <= j <= |es| && Popping(xs[i], n, copy)
    requires Consumes(es, i, j) >= PopRank(xs[i].cons, |xs[i].pushed[n]|)
    ensures i < m <= j && Taken(xs[i], xs[m], n, copy)
    decreases j - i
  {
    assert PopRank(xs[i].cons, |xs[i].pushed[n]|) > 0;
    ConsumesFrom(es, i, j);
    RunOk(xs, es, i);
    assert Next(xs[i], es[i], xs[i + 1]);
    PopStep(xs[i], n, copy, es[i], xs[i + 1]);
    if Taken(xs[i], xs[i + 1], n, copy) { return i + 1; }
    m := PoppingDone(xs, es, i + 1, j, n, copy);
  }

  lemma TailLoaded(x: World, y: World)
    requires x.cons.LoadTail? && |x.popped| < |x.pushed| && y == x.(cons := LoadTag(x.cons.copy, x.r.tail))
    ensures y.popped == x.popped && y.pushed == x.pushed && Popping(y, |x.popped|, x.cons.copy)
    ensures PopRank(y.cons, |x.pushed[|x.popped|]|) == 6 + |x.pushed[|x.popped|]|
    ensures forall z :: Taken(y, z, |x.popped|, x.cons.copy) <==> Taken(x, z, |x.popped|, x.cons.copy)
  {
  }

  /**
   * A Pop that loads the tail while a message is left returns the oldest one within the consumer's
   * next steps, 6 and one for each byte, whatever the producer does in between.
   */
  lemma PopIsDelivered(xs: seq<World>, es: seq<Event>, i: nat, j: nat) returns (m: nat)
    requires Run(xs, es) && i < j <= |es| && es[i] == Consume && xs[i].cons == LoadTail(true)
    requires |xs[i].popped| < |xs[i].pushed|
    requires Consumes(es, i + 1, j) >= 6 + |xs[i].pushed[|xs[i].popped|]|
    ensures i < m <= j && xs[m].popped == xs[i].popped + [xs[i].pushed[|xs[i].popped|]]
  {
    LoadTailExact(xs, es, i);
    TailLoaded(xs[i], xs[i + 1]);
    m := PoppingDone(xs, es, i + 1, j, |xs[i].popped|, true);
  }

  /** A zero-copy pop hands out its descriptor in the same way; HeldShowsOldest says what it shows. */
  lemma PopIsShown(xs: seq<World>, es: seq<Event>, i: nat, j: nat) returns (m: nat)
    requires Run(xs, es) && i < j <= |es| && es[i] == Consume && xs[i].cons == LoadTail(false)
    requires |xs[i].popped| < |xs[i].pushed|
    requires Consumes(es, i + 1, j) >= 6 + |xs[i].pushed[|xs[i].popped|]|
    ensures i < m <= j && xs[m].popped == xs[i].popped && xs[m].cons.Held?
  {
    LoadTailExact(xs, es, i);
    TailLoaded(xs[i], xs[i + 1]);
    m := PoppingDone(xs, es, i + 1, j, |xs[i].popped|, false);
  }

  /** The release of a held descriptor consumes the message it shows within the consumer's next 5 steps. */
  lemma ReleaseIsDelivered(xs: seq<World>, es: seq<Event>, i: nat, j: nat) returns (m: nat)
    requires Run(xs, es) && i < j <= |es| && es[i] == CallRelease && Consumes(es, i + 1, j) >= 5
    ensures i < m <= j && |xs[i].popped| < |xs[i].pushed|
    ensures xs[m].popped == xs[i].popped + [xs[i].pushed[|xs[i].popped|]]
  {
    assert Next(xs[i], es[i], xs[i + 1]);
    HeldShowsOldest(xs, es, i);
    m := PoppingDone(xs, es, i + 1, j, |xs[i].popped|, true);
  }
}
