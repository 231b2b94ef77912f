/** Safety of the queue in every interleaving. */
module QueueProof {
  import opened Bytes
  import opened QueueRep
  import opened QueueRuns
  import opened Wrappers

  // ---------------------------------------------------------------------------
  // Stores of the producer

  lemma StoreFieldPart(mem: seq<Byte>, p: nat, h: seq<Byte>, k: nat, mem': seq<Byte>)
    requires p + NODE_HEAD <= |mem| && |h| == NODE_HEAD && k < 4 && mem' == StoreField(mem, p, h, k)
    requires PartAt(mem, p, h, FieldAt(k))
    ensures PartAt(mem', p, h, FieldAt(k + 1))
    ensures forall i :: 0 <= i < |mem| && !(p <= i < p + NODE_HEAD) ==> mem'[i] == mem[i]
    ensures |mem'| == |mem|
  {
    var n := FieldAt(k + 1);
    forall i | 0 <= i < n ensures mem'[p + i] == h[i] {
      assert i < FieldAt(k) ==> mem[p..p + FieldAt(k)][i] == h[..FieldAt(k)][i];
    }
    assert mem'[p..p + n] == h[..n];
  }

  lemma StoreFieldSame(mem: seq<Byte>, p: nat, h: seq<Byte>, k: nat, mem': seq<Byte>)
    requires p + NODE_HEAD <= |mem| && |h| == NODE_HEAD && k < 4 && mem' == StoreField(mem, p, h, k)
    requires mem[p..p + NODE_HEAD] == h
    ensures mem' == mem
  {
    forall i | 0 <= i < |mem| ensures mem'[i] == mem[i] {
      assert p <= i < p + NODE_HEAD ==> mem[p..p + NODE_HEAD][i - p] == h[i - p];
    }
  }

  /** Storing a field of the end flag leaves the descriptors good. */
  lemma FlagKeepsDesc(r: Ring, d: Desc, k: nat, r': Ring)
    requires r.tail + NODE_HEAD <= |r.mem| && k < 4 && r' == r.(mem := StoreField(r.mem, r.tail, EndHeader(r), k))
    requires DescOk(r, d)
    ensures DescOk(r', d)
  {
    if d.w != r.tail { StoreFieldSame(r.mem, r.tail, EndHeader(r), k, r'.mem); }
  }

  lemma FlagStore(r: Ring, l: Layout, d: Desc, k: nat, r': Ring, h: seq<Byte>)
    requires RingOk(r, l) && r.tail + NODE_HEAD <= |r.mem| && k < 4 && PartAt(r.mem, r.tail, EndHeader(r), FieldAt(k))
    requires d.w == 0 != r.tail && RoomAt(r, d.w, d.len) && d.len < U32
    requires r' == r.(mem := StoreField(r.mem, r.tail, EndHeader(r), k))
    ensures RingOk(r', l) && r'.tail + NODE_HEAD <= |r'.mem| && RoomAt(r', d.w, d.len)
    ensures PartAt(r'.mem, r'.tail, EndHeader(r'), FieldAt(k + 1))
    ensures k == 3 ==> DescOk(r', d) && Blank(r', d, h)
  {
    StoreFieldPart(r.mem, r.tail, EndHeader(r), k, r'.mem);
    WriteUnused(r, l, r.tail, r.tail + NODE_HEAD, r'.mem);
    if k == 3 {
      FlagDone(r');
      EmptyPart(r', l, d, h);
    }
  }

  lemma FlagOk(x: World, d: Desc, data: Option<Msg>, k: nat, y: World)
    requires Inv(x) && x.prod == Flag(d, data, k) && ProducerInBounds(x) && y == DoFlag(x, d, data, k)
    ensures Inv(y)
  {
    FlagStore(x.r, x.l, d, k, y.r, if data.None? then [] else data.value);
    forall e | e in x.descs ensures DescOk(y.r, e) {
      assert DescOk(x.r, e);
      FlagKeepsDesc(x.r, e, k, y.r);
    }
  }

  lemma FlagDone(r: Ring)
    requires r.tail + NODE_HEAD <= |r.mem| && PartAt(r.mem, r.tail, EndHeader(r), NODE_HEAD)
    ensures EndAt(r.mem, r.tail)
  {
    assert EndHeader(r)[..NODE_HEAD] == EndHeader(r);
  }

  /** A granted buffer of which nothing is written yet. */
  ghost predicate Blank(r: Ring, d: Desc, h: seq<Byte>) {
    && d.w + NODE_HEAD + d.len <= |r.mem| && PartAt(r.mem, d.w, Header(DATA_NODE, d.len), 0)
    && PartAt(r.mem, d.w + NODE_HEAD, h, 0) && DataAt(r.mem, d.w, [])
  }

  lemma EmptyPart(r: Ring, l: Layout, d: Desc, h: seq<Byte>)
    requires RingOk(r, l) && DescOk(r, d)
    ensures Blank(r, d, h)
  {
    RoomUnused(r, l, d.w, d.len);
  }

  lemma GrantOk(x: World, d: Desc, data: Option<Msg>, y: World)
    requires RingOk(x.r, x.l) && DescsOk(x) && DescOk(x.r, d) && y == Grant(x, d, data)
    requires (data.Some? ==> |data.value| == d.len)
    ensures DescsOk(y) && ProducerOk(y)
  {
    EmptyPart(x.r, x.l, d, if data.None? then [] else data.value);
    forall e | e in y.descs ensures DescOk(y.r, e) { assert e in x.descs ==> DescOk(x.r, e); }
  }

  lemma PrepOk(x: World, len: nat, data: Option<Msg>, y: World)
    requires Inv(x) && x.prod == Prep(len, data) && y == DoPrep(x, len, data)
    ensures Inv(y)
  {
    if RoomAt(x.r, x.r.tail, len) {
      assert DescOk(x.r, Desc(x.r.tail, len));
      GrantOk(x, Desc(x.r.tail, len), data, y);
    } else {
      assert y.prod.Flag? ==> PartAt(y.r.mem, y.r.tail, EndHeader(y.r), 0);
      forall e | e in x.descs ensures DescOk(y.r, e) { assert DescOk(x.r, e); }
    }
  }

  /** A store into the data of a granted buffer. */
  lemma DataStore(r: Ring, l: Layout, d: Desc, j: nat, b: Byte, r': Ring)
    requires RingOk(r, l) && DescOk(r, d) && j < d.len && d.w + NODE_HEAD + j < |r.mem|
    requires r' == r.(mem := r.mem[d.w + NODE_HEAD + j := b])
    ensures RingOk(r', l) && forall e :: DescOk(r, e) ==> DescOk(r', e)
  {
    RoomUnused(r, l, d.w, d.len);
    WriteUnused(r, l, d.w + NODE_HEAD + j, d.w + NODE_HEAD + j + 1, r'.mem);
    forall e | DescOk(r, e) ensures DescOk(r', e) {
      if e.w != r.tail { EndFrame(r.mem, r'.mem, r.tail); }
    }
  }

  lemma FillStore(r: Ring, l: Layout, d: Desc, msg: Msg, j: nat, r': Ring)
    requires RingOk(r, l) && DescOk(r, d) && j < |msg| == d.len && PartAt(r.mem, d.w + NODE_HEAD, msg, j)
    requires d.w + NODE_HEAD + j < |r.mem| && r' == r.(mem := r.mem[d.w + NODE_HEAD + j := msg[j]])
    ensures RingOk(r', l) && DescOk(r', d) && PartAt(r'.mem, d.w + NODE_HEAD, msg, j + 1)
    ensures j + 1 == |msg| ==> DataAt(r'.mem, d.w, msg) && PartAt(r'.mem, d.w, Header(DATA_NODE, d.len), 0)
  {
    DataStore(r, l, d, j, msg[j], r');
    PartGrows(r.mem, d.w + NODE_HEAD, msg, j, r'.mem);
    EmptyPart(r', l, d, msg);
    if j + 1 == |msg| { PartIsData(r'.mem, d.w, msg); }
  }

  lemma PartIsData(mem: seq<Byte>, w: nat, msg: Msg)
    requires PartAt(mem, w + NODE_HEAD, msg, |msg|)
    ensures DataAt(mem, w, msg)
  {
    assert msg[..|msg|] == msg;
  }

  lemma FillOk(x: World, d: Desc, msg: Msg, j: nat, y: World)
    requires Inv(x) && x.prod == Fill(d, msg, j) && ProducerInBounds(x) && y == DoFill(x, d, msg, j)
    ensures Inv(y)
  {
    FillStore(x.r, x.l, d, msg, j, y.r);
  }

  lemma PartGrows(mem: seq<Byte>, p: nat, h: seq<Byte>, j: nat, mem': seq<Byte>)
    requires j < |h| && p + j < |mem| && PartAt(mem, p, h, j) && mem' == mem[p + j := h[j]]
    ensures PartAt(mem', p, h, j + 1)
  {
    forall i | 0 <= i < j + 1 ensures mem'[p + i] == h[i] {
      assert i < j ==> mem[p..p + j][i] == h[..j][i];
    }
    assert mem'[p..p + (j + 1)] == h[..j + 1];
  }

  lemma PokeOk(x: World, d: Desc, j: nat, b: Byte, y: World)
    requires Inv(x) && Next(x, Poke(d, j, b), y)
    ensures Inv(y)
  {
    assert DescOk(x.r, d);
    DataStore(x.r, x.l, d, j, b, y.r);
    forall e | e in y.descs ensures DescOk(y.r, e) { assert DescOk(x.r, e); }
  }

  /** What Commit checks is true of every granted buffer. */
  lemma CheckPasses(r: Ring, l: Layout, d: Desc)
    requires RingOk(r, l) && DescOk(r, d) && r.tail + NODE_HEAD <= |r.mem|
    ensures d.w + NODE_HEAD + d.len <= |r.mem|
    ensures d.w == r.tail ==> d.w + NodeSize(d.len) < (if r.head <= r.tail then |r.mem| else r.head)
    ensures d.w != r.tail ==>
              && d.w == 0 && NodeSize(d.len) < r.head
              && r.mem[r.tail] == 0xec && r.mem[r.tail + 1] == 0x9c && r.mem[r.tail + 2] == END_NODE
  {
    EmptyPart(r, l, d, []);
    if d.w != r.tail { FieldsOfEnd(r.mem, r.tail); }
  }

  lemma CheckResult(x: World, d: Desc)
    requires RingOk(x.r, x.l) && DescOk(x.r, d) && x.r.tail + NODE_HEAD <= |x.r.mem|
    ensures d.w + NODE_HEAD + d.len <= |x.r.mem|
    ensures DoCheck(x, d) == x.(prod := Seal(d, x.r.mem[d.w + NODE_HEAD..d.w + NODE_HEAD + d.len], 0))
  {
    CheckPasses(x.r, x.l, d);
  }

  lemma SealStarts(x: World, d: Desc, y: World)
    requires Inv(x) && x.prod == Check(d) && d.w + NODE_HEAD + d.len <= |x.r.mem|
    requires y == x.(prod := Seal(d, x.r.mem[d.w + NODE_HEAD..d.w + NODE_HEAD + d.len], 0))
    ensures Inv(y)
  {
    EmptyPart(x.r, x.l, d, []);
  }

  lemma CheckOk(x: World, d: Desc, y: World)
    requires Inv(x) && x.prod == Check(d) && ProducerInBounds(x) && y == DoCheck(x, d)
    ensures Inv(y) && y.prod.Seal?
  {
    CheckResult(x, d);
    SealStarts(x, d, y);
  }

  lemma SealFieldOk(x: World, d: Desc, msg: Msg, k: nat, y: World)
    requires Inv(x) && x.prod == Seal(d, msg, k) && k < 4 && ProducerInBounds(x) && y == DoSeal(x, d, msg, k)
    ensures Inv(y)
  {
    FieldStore(x.r, x.l, d, msg, k, y.r);
  }

  lemma FieldStore(r: Ring, l: Layout, d: Desc, msg: Msg, k: nat, r': Ring)
    requires RingOk(r, l) && DescOk(r, d) && |msg| == d.len && DataAt(r.mem, d.w, msg) && k < 4
    requires d.w + NODE_HEAD <= |r.mem| && PartAt(r.mem, d.w, Header(DATA_NODE, d.len), FieldAt(k))
    requires r' == r.(mem := StoreField(r.mem, d.w, Header(DATA_NODE, d.len), k))
    ensures RingOk(r', l) && DescOk(r', d) && DataAt(r'.mem, d.w, msg)
    ensures PartAt(r'.mem, d.w, Header(DATA_NODE, d.len), FieldAt(k + 1))
  {
    RoomUnused(r, l, d.w, d.len);
    StoreFieldPart(r.mem, d.w, Header(DATA_NODE, d.len), k, r'.mem);
    WriteUnused(r, l, d.w, d.w + NODE_HEAD, r'.mem);
    SliceFrame(r.mem, r'.mem, d.w + NODE_HEAD, d.w + NODE_HEAD + |msg|);
    if d.w != r.tail { EndFrame(r.mem, r'.mem, r.tail); }
  }

  lemma TailStore(r: Ring, l: Layout, d: Desc, msg: Msg, r': Ring)
    requires RingOk(r, l) && DescOk(r, d) && |msg| == d.len && DataAt(r.mem, d.w, msg)
    requires PartAt(r.mem, d.w, Header(DATA_NODE, d.len), NODE_HEAD)
    requires r' == r.(tail := RoundAlign(d.w + NODE_HEAD + d.len, ALIGN))
    ensures RingOk(r', Pushed(r, l, d.w, msg)) && Pushed(r, l, d.w, msg).Msgs() == l.Msgs() + [msg] && r'.tail > 0
  {
    var h := Header(DATA_NODE, d.len);
    assert h[..NODE_HEAD] == h;
    RoomUnused(r, l, d.w, d.len);
    NodeEnd(d.w, d.len);
    PushOk(r, l, d.w, msg);
  }

  /** The store of tail_pos makes the message visible. */
  lemma SealTailOk(x: World, d: Desc, msg: Msg, y: World)
    requires Inv(x) && x.prod == Seal(d, msg, 4) && ProducerInBounds(x) && y == DoSeal(x, d, msg, 4)
    ensures Inv(y)
  {
    TailStore(x.r, x.l, d, msg, y.r);
    assert x.popped + x.l.Msgs() + [msg] == x.popped + (x.l.Msgs() + [msg]);
    PushKeepsConsumer(x, d.w, msg, y);
  }

  /** The consumer's knowledge is about the first message, which a push does not change. */
  lemma PushKeepsConsumer(x: World, w: nat, m: Msg, y: World)
    requires RingOk(x.r, x.l) && RoomAt(x.r, w, |m|) && ConsumerOk(x.r.head, x.l, x.cons)
    requires y.r == x.r.(tail := y.r.tail) && y.l == Pushed(x.r, x.l, w, m) && y.cons == x.cons
    ensures ConsumerOk(y.r.head, y.l, y.cons)
  {
    FrontOk(x.r, x.l);
    if x.l.Msgs() != [] {
      assert Front(y.l, y.r.head) == Front(x.l, x.r.head) && y.l.Msgs()[0] == x.l.Msgs()[0];
      assert x.l.up == [] ==> y.l.up == [];
    }
  }

  // ---------------------------------------------------------------------------
  // Steps of the consumer

  /** Loads of PopPrepare and of Pop: the checks never fail, and what is copied is the first message. */
  lemma LoadSeenOk(x: World, y: World)
    requires FrontMarks(x.r, x.l) && ConsumerOk(x.r.head, x.l, x.cons) && ConsumerInBounds(x) && y == Consumed(x)
    requires x.cons.LoadTail? || x.cons.LoadTag? || x.cons.LoadType?
    ensures ConsumerOk(x.r.head, x.l, y.cons)
  {
  }

  lemma LoadFirstOk(x: World, y: World)
    requires FrontMarks(x.r, x.l) && ConsumerOk(x.r.head, x.l, x.cons) && ConsumerInBounds(x) && y == Consumed(x)
    requires x.cons.LoadFirstTag? || x.cons.LoadFirstType?
    ensures ConsumerOk(x.r.head, x.l, y.cons)
  {
  }

  lemma LoadLenOk(x: World, y: World)
    requires FrontSeen(x.r, x.l) && ConsumerOk(x.r.head, x.l, x.cons) && ConsumerInBounds(x) && y == Consumed(x)
    requires x.cons.LoadLen?
    ensures ConsumerOk(x.r.head, x.l, y.cons)
  {
    assert x.l.Msgs()[0] == [] ==> x.l.Msgs()[0][..0] == [];
  }

  lemma CopyOutOk(x: World, y: World)
    requires FrontSeen(x.r, x.l) && ConsumerOk(x.r.head, x.l, x.cons) && ConsumerInBounds(x) && y == Consumed(x)
    requires x.cons.CopyOut?
    ensures ConsumerOk(x.r.head, x.l, y.cons)
  {
    var m := x.l.Msgs()[0];
    CopyByte(x.r.mem, x.cons.p, m, x.cons.out);
    assert m[..|m|] == m;
  }

  /** Loads of PopCommit. */
  lemma LoadAgainOk(x: World, y: World)
    requires FrontSeen(x.r, x.l) && ConsumerOk(x.r.head, x.l, x.cons) && ConsumerInBounds(x) && y == Consumed(x)
    requires x.cons.AgainTail? || x.cons.AgainTag? || x.cons.AgainType? || x.cons.AgainLen?
    ensures ConsumerOk(x.r.head, x.l, y.cons)
  {
  }

  lemma LoadOk(x: World, y: World)
    requires RingOk(x.r, x.l) && ConsumerOk(x.r.head, x.l, x.cons)
    requires !x.cons.StoreHead? && ConsumerInBounds(x) && y == Consumed(x)
    ensures ConsumerOk(x.r.head, x.l, y.cons) && y == x.(cons := y.cons)
  {
    if x.l.Msgs() == [] {
      FrontOk(x.r, x.l);
    } else {
      FrontLoads(x.r, x.l);
      match x.cons
      case LoadLen(_, _, _) => LoadLenOk(x, y);
      case CopyOut(_, _, _) => CopyOutOk(x, y);
      case AgainTail(_, _) => LoadAgainOk(x, y);
      case AgainTag(_, _) => LoadAgainOk(x, y);
      case AgainType(_, _) => LoadAgainOk(x, y);
      case AgainLen(_, _) => LoadAgainOk(x, y);
      case Resting =>
      case Held(_, _) =>
      case LoadFirstTag(_, _) => LoadFirstOk(x, y);
      case LoadFirstType(_, _) => LoadFirstOk(x, y);
      case _ => LoadSeenOk(x, y);
    }
  }

  lemma CopyByte(mem: seq<Byte>, p: nat, m: Msg, out: Msg)
    requires DataAt(mem, p, m) && |out| < |m| && out == m[..|out|]
    ensures out + [mem[p + NODE_HEAD + |out|]] == m[..|out| + 1]
  {
    assert mem[p + NODE_HEAD..p + NODE_HEAD + |m|][|out|] == m[|out|];
  }

  /** What the producer relies on still holds after a pop. */
  lemma PopKeepsProducer(x: World, y: World)
    requires RingOk(x.r, x.l) && x.l.Msgs() != [] && DescsOk(x) && ProducerOk(x)
    requires y.r == x.r.(head := Front(x.l, x.r.head) + NodeSize(|x.l.Msgs()[0]|)) && y.prod == x.prod
    requires y.descs == x.descs
    ensures DescsOk(y) && ProducerOk(y)
  {
    GrantedAfterPop(x.r, x.l);
    forall e | DescOk(x.r, e) ensures DescOk(y.r, e) {}
    forall e | e in y.descs ensures DescOk(y.r, e) { assert DescOk(x.r, e); }
    if x.prod.Flag? { PopKeepsRoom(x.r, x.l, x.prod.d.w, x.prod.d.len, 0, 0); }
  }

  /** The store of head_pos gives the room back. */
  lemma StoreHeadOk(x: World, y: World)
    requires Inv(x) && x.cons.StoreHead? && ConsumerInBounds(x) && y == Consumed(x)
    ensures Inv(y)
  {
    HeadStore(x.r, x.l, x.cons.p, x.cons.len, y.r);
    PopKeepsProducer(x, y);
    PoppedNext(x.popped, x.l.Msgs());
  }

  lemma PoppedNext(popped: seq<Msg>, msgs: seq<Msg>)
    requires msgs != []
    ensures popped + msgs == popped + [msgs[0]] + msgs[1..]
  {
  }

  // ---------------------------------------------------------------------------
  // Runs

  lemma ProduceOk(x: World, y: World)
    requires Inv(x) && Next(x, Produce, y)
    ensures Inv(y)
  {
    match x.prod
    case Prep(len, data) => PrepOk(x, len, data, y);
    case Flag(d, data, k) => FlagOk(x, d, data, k, y);
    case Fill(d, msg, j) => FillOk(x, d, msg, j, y);
    case Check(d) => CheckOk(x, d, y);
    case Seal(d, msg, k) => if k < 4 { SealFieldOk(x, d, msg, k, y); } else { SealTailOk(x, d, msg, y); }
    case _ =>
  }

  lemma ConsumeOk(x: World, y: World)
    requires Inv(x) && Next(x, Consume, y)
    ensures Inv(y)
  {
    if x.cons.StoreHead? { StoreHeadOk(x, y); } else { LoadOk(x, y); SameProducer(x, y); }
  }

  lemma SameProducer(x: World, y: World)
    requires DescsOk(x) && ProducerOk(x) && y.r == x.r && y.prod == x.prod && y.descs == x.descs
    ensures DescsOk(y) && ProducerOk(y)
  {
    forall e | e in y.descs ensures DescOk(y.r, e) { assert DescOk(x.r, e); }
  }

  lemma CallOk(x: World, e: Event, y: World)
    requires Inv(x) && Next(x, e, y) && !e.Produce? && !e.Consume? && !e.Poke?
    ensures Inv(y)
  {
    forall d | d in x.descs ensures DescOk(x.r, d) {}
    if e.CallCommit? { assert DescOk(x.r, e.d); }
    forall d | d in y.descs ensures DescOk(y.r, d) { assert DescOk(x.r, d); }
  }

  lemma NextOk(x: World, e: Event, y: World)
    requires Inv(x) && Next(x, e, y)
    ensures Inv(y)
  {
    match e
    case Produce => ProduceOk(x, y);
    case Consume => ConsumeOk(x, y);
    case Poke(d, j, b) => PokeOk(x, d, j, b, y);
    case _ => CallOk(x, e, y);
  }

  lemma {:induction false} RunOk(xs: seq<World>, es: seq<Event>, i: nat)
    requires Run(xs, es) && i < |xs|
    ensures Inv(xs[i])
  {
    if i > 0 {
      RunOk(xs, es, i - 1);
      assert Next(xs[i - 1], es[i - 1], xs[i - 1 + 1]);
      NextOk(xs[i - 1], es[i - 1], xs[i]);
    }
  }

  // ---------------------------------------------------------------------------
  // Main results

  /** In every run the popped messages are the first of the pushed ones, byte for byte and in order. */
  lemma PoppedIsPrefixOfPushed(xs: seq<World>, es: seq<Event>, i: nat)
    requires Run(xs, es) && i < |xs|
    ensures xs[i].popped <= xs[i].pushed
  {
    RunOk(xs, es, i);
  }

  /** The producer never stores into a message that is not consumed, nor outside the buffer. */
  lemma StoresAreSafe(xs: seq<World>, es: seq<Event>, i: nat)
    requires Run(xs, es) && i < |xs|
    ensures StoreIsSafe(xs[i]) && ProducerInBounds(xs[i])
  {
    RunOk(xs, es, i);
    var x := xs[i];
    match x.prod
    case Fill(d, _, j) => RoomUnused(x.r, x.l, d.w, d.len);
    case Seal(d, _, _) => RoomUnused(x.r, x.l, d.w, d.len);
    case _ =>
  }

  /** No integrity check of either process ever fails, and the consumer's loads stay inside the buffer. */
  lemma ChecksNeverFail(xs: seq<World>, es: seq<Event>, i: nat)
    requires Run(xs, es) && i < |xs|
    ensures !xs[i].prod.Refused? && !xs[i].cons.Corrupt? && ConsumerInBounds(xs[i])
  {
    RunOk(xs, es, i);
    var x := xs[i];
    if x.l.Msgs() != [] { FrontLoads(x.r, x.l); }
  }

  /** Positions stay aligned and in range, and the tail never returns to 0 once something was pushed. */
  lemma PositionsOk(xs: seq<World>, es: seq<Event>, i: nat)
    requires Run(xs, es) && i < |xs|
    ensures var r := xs[i].r;
            && r.head % ALIGN == 0 && r.tail % ALIGN == 0 && r.head < |r.mem| && r.tail < |r.mem|
            && (xs[i].pushed != [] ==> r.tail > 0)
  {
    RunOk(xs, es, i);
  }

  /** While the consumer holds a descriptor it sees the oldest message that is not consumed. */
  lemma HeldShowsOldest(xs: seq<World>, es: seq<Event>, i: nat)
    requires Run(xs, es) && i < |xs| && xs[i].cons.Held?
    ensures var x := xs[i];
            && |x.popped| < |x.pushed|
            && DataAt(x.r.mem, x.cons.p, x.pushed[|x.popped|]) && x.cons.len == |x.pushed[|x.popped|]|
  {
    RunOk(xs, es, i);
    FrontLoads(xs[i].r, xs[i].l);
  }

  /**
   * Every descriptor from Prepare that is committed is accepted, whatever the consumer did in
   * between, and its buffer's bytes are what is pushed.
   */
  lemma CommitIsAccepted(xs: seq<World>, es: seq<Event>, i: nat)
    requires Run(xs, es) && i < |es| && es[i] == Produce && xs[i].prod.Check?
    ensures var x, y := xs[i], xs[i + 1];
            && y.prod.Seal? && y.prod.d == x.prod.d && y.prod.k == 0 && DataAt(x.r.mem, x.prod.d.w, y.prod.msg)
  {
    RunOk(xs, es, i);
    assert Next(xs[i], es[i], xs[i + 1]);
    CheckOk(xs[i], xs[i].prod.d, xs[i + 1]);
  }

  lemma OthersPushNothing(x: World)
    requires ProducerInBounds(x) && !(x.prod.Seal? && x.prod.k >= 4)
    ensures Produced(x).l == x.l
  {
  }

  /** Until the store of tail_pos nothing that the producer does is visible; that store appends one message. */
  lemma OnlyTailStorePushes(xs: seq<World>, es: seq<Event>, i: nat)
    requires Run(xs, es) && i < |es| && !es[i].Consume?
    ensures var x, y := xs[i], xs[i + 1];
            y.l.Msgs() ==
            if es[i].Produce? && x.prod.Seal? && x.prod.k == 4 then x.l.Msgs() + [x.prod.msg] else x.l.Msgs()
  {
    RunOk(xs, es, i);
    RunOk(xs, es, i + 1);
    assert Next(xs[i], es[i], xs[i + 1]);
    if es[i].Produce? && !(xs[i].prod.Seal? && xs[i].prod.k == 4) {
      OthersPushNothing(xs[i]);
    } else if es[i].Produce? {
      var x, d := xs[i], xs[i].prod.d;
      assert x.popped + x.l.Msgs() + [x.prod.msg] == x.popped + xs[i + 1].l.Msgs();
      assert xs[i + 1].l.Msgs() == (x.popped + xs[i + 1].l.Msgs())[|x.popped|..];
    }
  }
}
