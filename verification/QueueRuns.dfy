/**
 * Whole runs of the queue (src/lib_bsp/shmc/shm_queue.h): the producer and the consumer interleave
 * store by store and load by load.  What a process loads from the other's position may be old by
 * the time it is used.
 */
module QueueRuns {
  import opened Bytes
  import opened QueueRep
  import opened Wrappers

  /** A buffer handed out by ZeroCopyPushPrepare: the node's place and the length of the data. */
  datatype Desc = Desc(w: nat, len: nat)

  /** The producer's next access to shared memory. */
  datatype Producer =
    | Ready
    | Prep(len: nat, data: Option<Msg>)
    | Flag(d: Desc, data: Option<Msg>, k: nat)
    | Fill(d: Desc, msg: Msg, j: nat)
    | Check(d: Desc)
    | Seal(d: Desc, msg: Msg, k: nat)
    | Refused

  /** The consumer's next access; `t` is the tail position as it was loaded, `copy` tells Pop from a zero-copy pop. */
  datatype Consumer =
    | Resting
    | LoadTail(copy: bool)
    | LoadTag(copy: bool, t: nat)
    | LoadType(copy: bool, t: nat)
    | LoadFirstTag(copy: bool, t: nat)
    | LoadFirstType(copy: bool, t: nat)
    | LoadLen(copy: bool, t: nat, p: nat)
    | CopyOut(p: nat, len: nat, out: Msg)
    | Held(p: nat, len: nat)
    | AgainTail(p: nat, len: nat)
    | AgainTag(p: nat, len: nat)
    | AgainType(p: nat, len: nat)
    | AgainLen(p: nat, len: nat)
    | StoreHead(p: nat, len: nat, out: Msg)
    | Corrupt

  /** `descs` are the buffers prepared since the last commit; `pushed` and `popped` record the messages. */
  datatype World = World(
    r: Ring,
    l: Layout,
    prod: Producer,
    cons: Consumer,
    descs: set<Desc>,
    pushed: seq<Msg>,
    popped: seq<Msg>)

  datatype Event =
    | CallPrepare(len: nat)
    | CallPush(data: Msg)
    | Poke(d: Desc, j: nat, b: Byte)
    | CallCommit(d: Desc)
    | Produce
    | CallPop(copy: bool)
    | CallRelease
    | Consume

  // ---------------------------------------------------------------------------
  // Steps of the producer

  /** The fields of a node head are stored one at a time. */
  function FieldAt(k: nat): (r: nat)
    ensures r <= NODE_HEAD
  {
    if k == 0 then 0 else if k == 1 then 2 else if k == 2 then 3 else if k == 3 then 4 else 8
  }

  function StoreField(mem: seq<Byte>, p: nat, h: seq<Byte>, k: nat): seq<Byte>
    requires p + NODE_HEAD <= |mem| && |h| == NODE_HEAD && k < 4
  {
    Splice(mem, p + FieldAt(k), h[FieldAt(k)..FieldAt(k + 1)])
  }

  function EndHeader(r: Ring): (h: seq<Byte>)
    requires r.tail + NODE_HEAD <= |r.mem|
    ensures |h| == NODE_HEAD
  {
    Header(END_NODE, |r.mem| - r.tail - NODE_HEAD)
  }

  /** The buffer is handed out, to the caller or to Push. */
  function Grant(x: World, d: Desc, data: Option<Msg>): World {
    if data.None? then x.(prod := Ready, descs := x.descs + {d})
    else x.(prod := StartFill(d, data.value, 0), descs := {})
  }

  function StartFill(d: Desc, msg: Msg, j: nat): Producer {
    if j < |msg| then Fill(d, msg, j) else Seal(d, msg, 0)
  }

  /** Prepare loads head_pos and looks for room. */
  function DoPrep(x: World, len: nat, data: Option<Msg>): World {
    var r := x.r;
    if r.head <= r.tail then
      if r.tail + NodeSize(len) < |r.mem| then Grant(x, Desc(r.tail, len), data)
      else if NodeSize(len) < r.head then x.(prod := Flag(Desc(0, len), data, 0))
      else x.(prod := Ready)
    else if r.tail + NodeSize(len) < r.head then Grant(x, Desc(r.tail, len), data)
    else x.(prod := Ready)
  }

  /** Prepare stores a field of the end flag. */
  function DoFlag(x: World, d: Desc, data: Option<Msg>, k: nat): World
    requires x.r.tail + NODE_HEAD <= |x.r.mem| && k < 4
  {
    var y := x.(r := x.r.(mem := StoreField(x.r.mem, x.r.tail, EndHeader(x.r), k)));
    if k < 3 then y.(prod := Flag(d, data, k + 1)) else Grant(y, d, data)
  }

  /** Push stores a byte of the data. */
  function DoFill(x: World, d: Desc, msg: Msg, j: nat): World
    requires j < |msg| && d.w + NODE_HEAD + j < |x.r.mem|
  {
    x.(r := x.r.(mem := x.r.mem[d.w + NODE_HEAD + j := msg[j]]), prod := StartFill(d, msg, j + 1))
  }

  /** Commit loads head_pos and checks the descriptor. */
  function DoCheck(x: World, d: Desc): World
    requires x.r.tail + 2 < |x.r.mem|
  {
    var r := x.r;
    var good :=
      if d.w == r.tail then d.w + NodeSize(d.len) < (if r.head <= r.tail then |r.mem| else r.head)
      else d.w == 0 && r.mem[r.tail] == 0xec && r.mem[r.tail + 1] == 0x9c && r.mem[r.tail + 2] == END_NODE
           && NodeSize(d.len) < r.head;
    if good && d.w + NODE_HEAD + d.len <= |r.mem| then
      x.(prod := Seal(d, r.mem[d.w + NODE_HEAD..d.w + NODE_HEAD + d.len], 0))
    else x.(prod := Refused)
  }

  /** Commit stores a field of the header and, in the end, tail_pos. */
  function DoSeal(x: World, d: Desc, msg: Msg, k: nat): World
    requires k < 4 ==> d.w + NODE_HEAD <= |x.r.mem|
  {
    if k < 4 then
      x.(r := x.r.(mem := StoreField(x.r.mem, d.w, Header(DATA_NODE, d.len), k)), prod := Seal(d, msg, k + 1))
    else
      x.(r := x.r.(tail := RoundAlign(d.w + NODE_HEAD + d.len, ALIGN)), l := Pushed(x.r, x.l, d.w, msg),
         prod := Ready, pushed := x.pushed + [msg])
  }

  /** The bytes that the producer's next step stores lie inside the buffer. */
  predicate ProducerInBounds(x: World) {
    && x.r.tail + NODE_HEAD <= |x.r.mem|
    && match x.prod
       case Flag(_, _, k) => k < 4
       case Fill(d, msg, j) => j < |msg| && d.w + NODE_HEAD + j < |x.r.mem|
       case Seal(d, _, k) => d.w + NODE_HEAD <= |x.r.mem|
       case _ => true
  }

  function Produced(x: World): World
    requires ProducerInBounds(x)
  {
    match x.prod
    case Prep(len, data) => DoPrep(x, len, data)
    case Flag(d, data, k) => DoFlag(x, d, data, k)
    case Fill(d, msg, j) => DoFill(x, d, msg, j)
    case Check(d) => DoCheck(x, d)
    case Seal(d, msg, k) => DoSeal(x, d, msg, k)
    case _ => x
  }

  /** The bytes that the next step of the producer stores, if any, are unused. */
  predicate StoreIsSafe(x: World) {
    match x.prod
    case Flag(_, _, k) => Unused(x.r, x.r.tail, x.r.tail + NODE_HEAD)
    case Fill(d, _, j) => Unused(x.r, d.w + NODE_HEAD + j, d.w + NODE_HEAD + j + 1)
    case Seal(d, _, k) => k < 4 ==> Unused(x.r, d.w, d.w + NODE_HEAD)
    case _ => true
  }

  // ---------------------------------------------------------------------------
  // Steps of the consumer

  /** The consumer's next load lies inside the buffer. */
  predicate ConsumerInBounds(x: World) {
    match x.cons
    case LoadTag(_, _) => x.r.head + 2 <= |x.r.mem|
    case LoadType(_, _) => x.r.head + 3 <= |x.r.mem|
    case LoadFirstTag(_, _) => 2 <= |x.r.mem|
    case LoadFirstType(_, _) => 3 <= |x.r.mem|
    case LoadLen(_, _, p) => p + NODE_HEAD <= |x.r.mem| && ALIGN <= |x.r.mem|
    case CopyOut(p, len, out) => |out| < len && p + NODE_HEAD + |out| < |x.r.mem|
    case AgainTag(p, len) => x.r.head + 2 <= |x.r.mem|
    case AgainType(p, len) => x.r.head + 3 <= |x.r.mem|
    case AgainLen(p, len) => p + NODE_HEAD + len <= |x.r.mem|
    case StoreHead(_, _, _) => x.l.Msgs() != []
    case _ => true
  }

  function StartCopy(p: nat, len: nat, out: Msg): Consumer {
    if |out| < len then CopyOut(p, len, out) else StoreHead(p, len, out)
  }

  /** The checks of ZeroCopyPopPrepare and ZeroCopyPopCommit, one load at a time, and the copy of Pop. */
  function Consumed(x: World): World
    requires ConsumerInBounds(x)
  {
    var r := x.r;
    match x.cons
    case LoadTail(copy) => if r.head == r.tail then x.(cons := Resting) else x.(cons := LoadTag(copy, r.tail))
    case LoadTag(copy, t) =>
      if r.mem[r.head] == 0xec && r.mem[r.head + 1] == 0x9c then x.(cons := LoadType(copy, t)) else x.(cons := Corrupt)
    case LoadType(copy, t) =>
      if r.mem[r.head + 2] == END_NODE then
        if t == 0 then x.(cons := Corrupt) else x.(cons := LoadFirstTag(copy, t))
      else if r.mem[r.head + 2] == DATA_NODE then x.(cons := LoadLen(copy, t, r.head))
      else x.(cons := Corrupt)
    case LoadFirstTag(copy, t) =>
      if r.mem[0] == 0xec && r.mem[1] == 0x9c then x.(cons := LoadFirstType(copy, t)) else x.(cons := Corrupt)
    case LoadFirstType(copy, t) =>
      if r.mem[2] == DATA_NODE then x.(cons := LoadLen(copy, t, 0)) else x.(cons := Corrupt)
    case LoadLen(copy, t, p) =>
      var len := Val(r.mem[p + 4..p + 8]);
      if p + NodeSize(len) > (if p <= t then t else |r.mem| - ALIGN) then x.(cons := Corrupt)
      else x.(cons := if copy then StartCopy(p, len, []) else Held(p, len))
    case CopyOut(p, len, out) => x.(cons := StartCopy(p, len, out + [r.mem[p + NODE_HEAD + |out|]]))
    case AgainTail(p, len) =>
      if r.head == r.tail then x.(cons := Corrupt)
      else if p == r.head then x.(cons := AgainLen(p, len))
      else if p == 0 then x.(cons := AgainTag(p, len))
      else x.(cons := Corrupt)
    case AgainTag(p, len) =>
      if r.mem[r.head] == 0xec && r.mem[r.head + 1] == 0x9c then x.(cons := AgainType(p, len)) else x.(cons := Corrupt)
    case AgainType(p, len) =>
      if r.mem[r.head + 2] == END_NODE then x.(cons := AgainLen(p, len)) else x.(cons := Corrupt)
    case AgainLen(p, len) =>
      if Val(r.mem[p + 4..p + 8]) != len then x.(cons := Corrupt)
      else x.(cons := StoreHead(p, len, r.mem[p + NODE_HEAD..p + NODE_HEAD + len]))
    case StoreHead(p, len, out) =>
      x.(r := r.(head := RoundAlign(p + NODE_HEAD + len, ALIGN)), l := Popped(r, x.l), cons := Resting,
         popped := x.popped + [out])
    case _ => x
  }

  // ---------------------------------------------------------------------------
  // Runs

  ghost predicate Init(x: World) {
    && |x.r.mem| >= 1024 && |x.r.mem| % ALIGN == 0 && x.r.head == x.r.tail == 0
    && x.l == Layout([], 0, []) && x.prod == Ready && x.cons == Resting
    && x.descs == {} && x.pushed == [] && x.popped == []
  }

  ghost predicate Next(x: World, e: Event, y: World) {
    match e
    case CallPrepare(len) => x.prod.Ready? && len < U32 && y == x.(prod := Prep(len, None))
    case CallPush(data) => x.prod.Ready? && |data| < U32 && y == x.(prod := Prep(|data|, Some(data)))
    case Poke(d, j, b) =>
      && x.prod.Ready? && d in x.descs && j < d.len && d.w + NODE_HEAD + j < |x.r.mem|
      && y == x.(r := x.r.(mem := x.r.mem[d.w + NODE_HEAD + j := b]))
    case CallCommit(d) => x.prod.Ready? && d in x.descs && y == x.(prod := Check(d), descs := {})
    case Produce => ProducerInBounds(x) && y == Produced(x)
    case CallPop(copy) => (x.cons.Resting? || x.cons.Held?) && y == x.(cons := LoadTail(copy))
    case CallRelease => x.cons.Held? && y == x.(cons := AgainTail(x.cons.p, x.cons.len))
    case Consume => ConsumerInBounds(x) && y == Consumed(x)
  }

  ghost predicate Steps(xs: seq<World>, es: seq<Event>) {
    && |xs| == |es| + 1
    && forall i {:trigger es[i]} :: 0 <= i < |es| ==> Next(xs[i], es[i], xs[i + 1])
  }

  ghost predicate Run(xs: seq<World>, es: seq<Event>) {
    Steps(xs, es) && Init(xs[0])
  }

  // ---------------------------------------------------------------------------
  // Invariant

  /** The first `n` bytes of a header are in place. */
  ghost predicate PartAt(mem: seq<Byte>, p: nat, h: seq<Byte>, n: nat) {
    p + n <= |mem| && n <= |h| && mem[p..p + n] == h[..n]
  }

  ghost predicate DescOk(r: Ring, d: Desc) {
    d.len < U32 && Granted(r, d.w, d.len)
  }

  ghost predicate DescsOk(x: World) {
    forall d {:trigger DescOk(x.r, d)} :: d in x.descs ==> DescOk(x.r, d)
  }

  ghost predicate ProducerOk(x: World) {
    match x.prod
    case Ready => true
    case Prep(len, data) => len < U32 && (data.Some? ==> |data.value| == len)
    case Flag(d, data, k) =>
      && k < 4 && d.w == 0 != x.r.tail && RoomAt(x.r, d.w, d.len) && d.len < U32 && (data.Some? ==>
           |data.value| == d.len)
      && x.r.tail + NODE_HEAD <= |x.r.mem| && PartAt(x.r.mem, x.r.tail, EndHeader(x.r), FieldAt(k))
    case Fill(d, msg, j) =>
      && x.descs == {} && DescOk(x.r, d) && j < |msg| == d.len && PartAt(x.r.mem, d.w + NODE_HEAD, msg, j)
    case Check(d) => x.descs == {} && DescOk(x.r, d)
    case Seal(d, msg, k) =>
      && k <= 4 && x.descs == {} && DescOk(x.r, d) && |msg| == d.len && DataAt(x.r.mem, d.w, msg)
      && PartAt(x.r.mem, d.w, Header(DATA_NODE, d.len), FieldAt(k))
    case Refused => false
  }

  /** The loaded tail position lies behind the first message. */
  predicate Behind(head: nat, l: Layout, t: nat) {
    && l.Msgs() != [] && t != head
    && var p := Front(l, head);
       (p <= t ==> p + NodeSize(|l.Msgs()[0]|) <= t) && (p != head ==> t != 0)
  }

  /** The descriptor is that of the first message. */
  predicate AtFront(head: nat, l: Layout, p: nat, len: nat) {
    l.Msgs() != [] && p == Front(l, head) && len == |l.Msgs()[0]|
  }

  predicate ConsumerOk(head: nat, l: Layout, c: Consumer) {
    match c
    case Resting => true
    case LoadTail(_) => true
    case LoadTag(_, t) => Behind(head, l, t)
    case LoadType(_, t) => Behind(head, l, t)
    case LoadFirstTag(_, t) => Behind(head, l, t) && l.up == []
    case LoadFirstType(_, t) => Behind(head, l, t) && l.up == []
    case LoadLen(_, t, p) => Behind(head, l, t) && p == Front(l, head)
    case CopyOut(p, len, out) => AtFront(head, l, p, len) && |out| < len && out == l.Msgs()[0][..|out|]
    case Held(p, len) => AtFront(head, l, p, len)
    case AgainTail(p, len) => AtFront(head, l, p, len)
    case AgainTag(p, len) => AtFront(head, l, p, len) && p != head
    case AgainType(p, len) => AtFront(head, l, p, len) && p != head
    case AgainLen(p, len) => AtFront(head, l, p, len)
    case StoreHead(p, len, out) => AtFront(head, l, p, len) && out == l.Msgs()[0]
    case Corrupt => false
  }

  ghost predicate Inv(x: World) {
    && RingOk(x.r, x.l)
    && x.pushed == x.popped + x.l.Msgs() && (x.pushed != [] ==> x.r.tail > 0)
    && DescsOk(x) && ProducerOk(x) && ConsumerOk(x.r.head, x.l, x.cons)
  }
}
