/**
 * The writer of the hash map, one store to shared memory per step
 * (src/lib_bsp/shmc/shm_hash_map.h, DoInsert and Erase; src/lib_bsp/shmc/shm_link_table.h, New,
 * Free, AllocNode, FreeNode and tag_seq).
 *
 * Bytes of keys and values are stored one at a time, so that a crash or a concurrent reader can
 * meet them half written; a handle is stored as a whole.
 */
module MapWriter {
  import opened Bytes
  import opened LinkRep
  import opened Cells
  import opened Tags

  type Key = seq<Byte>

  datatype Config = Config(crc: Crc, probe: Key -> seq<nat>, cellNum: nat, keyLen: nat)

  ghost predicate ConfigOk(c: Config) {
    forall k: Key :: |k| == c.keyLen ==> ProbesOk(c.cellNum, c.probe(k))
  }

  datatype Op = Put(key: Key, val: seq<Byte>, replace: bool) | Del(key: Key)

  /** What a completed operation does to the map. */
  function Effect(op: Op, m: Contents<Key>): Contents<Key> {
    match op
    case Put(k, v, _) => m[k := v]
    case Del(k) => m - {k}
  }

  /** Locals of DoInsert. */
  datatype Job = Job(cell: nat, key: Key, val: seq<Byte>, found: bool)

  /** Locals of New: the nodes linked so far and the bytes copied so far. */
  datatype Alloc = Alloc(job: Job, tag: nat, chain: seq<nat>, off: nat)

  /** Locals of Free: the node at hand and the one that follows it. */
  datatype Drop = Drop(lb: Handle, len: nat, n: nat, rest: nat)

  /** The store that the writer performs next; a dead writer performs none. */
  datatype Pc =
    | Idle
    | Draw(job: Job)
    | DrawAgain(job: Job)
    | Take(a: Alloc)
    | TakeCount(a: Alloc, n: nat)
    | ClearNext(a: Alloc, n: nat)
    | SetTag(a: Alloc, n: nat)
    | FlagHead(a: Alloc, n: nat)
    | SetLen(a: Alloc, n: nat)
    | SetCrc(a: Alloc, n: nat)
    | Copy(a: Alloc, n: nat, j: nat)
    | Link(a: Alloc, n: nat)
    | CountBuf(a: Alloc)
    | CountBytes(a: Alloc)
    | WriteKey(a: Alloc, j: nat)
    | Publish(a: Alloc)
    | Clear(cell: nat)
    | ClearKey(cell: nat, lb: Handle, j: nat)
    | Untag(d: Drop)
    | Relink(d: Drop)
    | PushTop(d: Drop)
    | CountFree(d: Drop)
    | DropBuf(d: Drop)
    | DropBytes(d: Drop)
    | Dead

  /**
   * Explanation of the memory: its view, the cell that owns each published chain, the cell of each
   * key, the draw that each published chain's tag came from, the nodes still to be freed, and the
   * map's contents now and before the operation; `accepted` tells that the operation is carried out.
   */
  datatype Ghost = Ghost(
    view: View,
    own: map<nat, nat>,
    slot: map<Key, nat>,
    birth: map<nat, nat>,
    draws: nat,
    todo: seq<nat>,
    op: Op,
    accepted: bool,
    before: Contents<Key>,
    now: Contents<Key>)

  /** New has drawn its tag and has not published it yet. */
  predicate Drawn(pc: Pc) {
    || pc.Take? || pc.TakeCount? || pc.ClearNext? || pc.SetTag? || pc.FlagHead? || pc.SetLen?
    || pc.SetCrc? || pc.Copy? || pc.Link? || pc.CountBuf? || pc.CountBytes? || pc.WriteKey? || pc.Publish?
  }

  datatype State = State(t: Table, cells: seq<Cell<Key>>, pc: Pc, g: Ghost)

  // ---------------------------------------------------------------------------
  // Steps

  /** Bytes of the value that go into the node at hand. */
  function CopyLen(t: Table, a: Alloc): nat
    requires t.unit >= 8 && a.off <= |a.job.val|
  {
    ShareLen(t.unit, a.job.val, a.chain, a.off)
  }

  function Head0(l: seq<nat>): nat { if l == [] then 0 else l[0] }

  function SetNode(s: State, n: nat, node: Node): State
    requires n < |s.t.nodes|
  {
    s.(t := Set(s.t, n, node))
  }

  /** The pc after node `chain[|chain| - 1]` has been linked: another round of New's loop, or its end. */
  function AfterLink(t: Table, a: Alloc): Pc
    requires t.unit >= 8
  {
    if |a.chain| < BufNodes(t.unit, |a.job.val|) then Take(a) else CountBuf(a)
  }

  /** The pc that starts Free; a handle that does not match its node is refused at once. */
  function StartFree(t: Table, lb: Handle): Pc
    requires WellSized(t)
  {
    if 0 < lb.head < |t.nodes| && t.nodes[lb.head].tag == WithFlag(lb.tag) then
      assert NodeOk(t, t.nodes[lb.head]);
      Untag(Drop(lb, BufLen(t.nodes[lb.head]), lb.head, t.nodes[lb.head].next))
    else Idle
  }

  ghost function TodoOf(v: View, h: nat): seq<nat> {
    if h in v.chains && v.chains[h] != [] then v.chains[h][1..] else []
  }

  // One function per store.  Its precondition says that the addresses used lie inside their tables.

  /** ++tag_seq_next; a counter that becomes 0 is incremented again. */
  function DoDraw(s: State, job: Job): State {
    var n := Bump(s.t.tagSeqNext);
    if n == 0 then s.(t := s.t.(tagSeqNext := 0), pc := DrawAgain(job))
    else s.(t := s.t.(tagSeqNext := n), g := s.g.(draws := s.g.draws + 1),
            pc := Take(Alloc(job, n % HEAD_FLAG, [], 0)))
  }

  /** AllocNode: free_list = node->next. */
  ghost function DoTake(s: State, a: Alloc): State
    requires 0 < s.t.freeList < |s.t.nodes| == |s.g.view.place|
    requires s.g.view.free != [] && s.g.view.free[|s.g.view.free| - 1] == s.t.freeList
  {
    s.(t := s.t.(freeList := s.t.nodes[s.t.freeList].next), g := s.g.(view := PopView(s.g.view)),
       pc := TakeCount(a, s.t.freeList))
  }

  /** AllocNode: free_node_num--. */
  function DoTakeCount(s: State, a: Alloc, n: nat): State
    requires s.t.freeNodeNum > 0
  {
    s.(t := s.t.(freeNodeNum := s.t.freeNodeNum - 1), pc := ClearNext(a, n))
  }

  function DoClearNext(s: State, a: Alloc, n: nat): State
    requires 0 < n < |s.t.nodes|
  {
    SetNode(s, n, s.t.nodes[n].(next := 0)).(pc := SetTag(a, n))
  }

  function DoSetTag(s: State, a: Alloc, n: nat): State
    requires 0 < n < |s.t.nodes| && s.t.unit >= 8
  {
    SetNode(s, n, s.t.nodes[n].(tag := a.tag)).(
      pc := if a.chain == [] then FlagHead(a, n) else AfterCopy(s.t, a, n, 0))
  }

  function DoFlagHead(s: State, a: Alloc, n: nat): State
    requires 0 < n < |s.t.nodes| == |s.g.view.place|
  {
    SetNode(s, n, s.t.nodes[n].(tag := a.tag + HEAD_FLAG)).(
      g := s.g.(view := StartView(s.g.view, n)), pc := SetLen(a, n))
  }

  function DoSetLen(s: State, a: Alloc, n: nat): State
    requires 0 < n < |s.t.nodes| && |s.t.nodes[n].payload| >= 8
  {
    SetNode(s, n, s.t.nodes[n].(payload := Splice(s.t.nodes[n].payload, 0, LE(|a.job.val|, 4)))).(
      pc := SetCrc(a, n))
  }

  function DoSetCrc(c: Config, s: State, a: Alloc, n: nat): State
    requires 0 < n < |s.t.nodes| && |s.t.nodes[n].payload| == s.t.unit >= 8
  {
    var sum := c.crc(a.job.val[..Min(s.t.unit - 8, |a.job.val|)]);
    SetNode(s, n, s.t.nodes[n].(payload := Splice(s.t.nodes[n].payload, 4, LE(sum, 4)))).(
      pc := AfterCopy(s.t, a, n, 0))
  }

  /** memcpy of New: one byte of the value. */
  function DoCopy(s: State, a: Alloc, n: nat, j: nat): State
    requires 0 < n < |s.t.nodes| && a.off + j < |a.job.val| && s.t.unit >= 8
    requires HeaderLen(a.chain) + j < |s.t.nodes[n].payload|
  {
    var payload := s.t.nodes[n].payload[HeaderLen(a.chain) + j := a.job.val[a.off + j]];
    SetNode(s, n, s.t.nodes[n].(payload := payload)).(pc := AfterCopy(s.t, a, n, j + 1))
  }

  /** *next_ptr = n; for the first node next_ptr is a local variable. */
  function DoLink(s: State, a: Alloc, n: nat): State
    requires n < |s.t.nodes| == |s.g.view.place| && a.off <= |a.job.val| && s.t.unit >= 8
    requires a.chain != [] ==> a.chain[|a.chain| - 1] < |s.t.nodes| && a.chain[0] in s.g.view.chains
  {
    var a' := a.(chain := a.chain + [n], off := a.off + CopyLen(s.t, a));
    if a.chain == [] then s.(pc := AfterLink(s.t, a'))
    else
      var last := a.chain[|a.chain| - 1];
      SetNode(s, last, s.t.nodes[last].(next := n)).(
        g := s.g.(view := ExtendView(s.g.view, a.chain[0], n)), pc := AfterLink(s.t, a'))
  }

  function DoCountBuf(s: State, a: Alloc): State {
    s.(t := s.t.(bufUsedNum := (s.t.bufUsedNum + 1) % U32), pc := CountBytes(a))
  }

  function DoCountBytes(c: Config, s: State, a: Alloc): State {
    s.(t := s.t.(bufUsedBytes := (s.t.bufUsedBytes + |a.job.val|) % U64),
       pc := if a.job.found then Publish(a) else AfterKey(c, a, 0))
  }

  /** DoInsert, new key: one byte of the key. */
  function DoWriteKey(c: Config, s: State, a: Alloc, j: nat): State
    requires a.job.cell < |s.cells| && j < |s.cells[a.job.cell].key| == |a.job.key|
  {
    var cell := s.cells[a.job.cell];
    s.(cells := s.cells[a.job.cell := cell.(key := cell.key[j := a.job.key[j]])],
       pc := AfterKey(c, a, j + 1))
  }

  /** DoInsert: key_node->link_buf = lb, the commit of an insert or a replace. */
  ghost function DoPublish(s: State, a: Alloc): State
    requires a.job.cell < |s.cells| && a.chain != [] && WellSized(s.t)
  {
    var g, i, h := s.g, a.job.cell, a.chain[0];
    var was := s.cells[i].lb;
    var own' := (if was.IsSet() then g.own - {was.head} else g.own)[h := i];
    s.(cells := s.cells[i := s.cells[i].(lb := Handle(h, a.tag))],
       g := g.(own := own', slot := g.slot[a.job.key := i], birth := g.birth[h := g.draws],
               now := g.now[a.job.key := a.job.val], todo := TodoOf(g.view, was.head)),
       pc := if a.job.found then StartFree(s.t, was) else Idle)
  }

  /** Erase: link_buf.clear(), the commit of an erase. */
  ghost function DoClear(c: Config, s: State, i: nat): State
    requires i < |s.cells| && WellSized(s.t)
  {
    var g, lb := s.g, s.cells[i].lb;
    s.(cells := s.cells[i := s.cells[i].(lb := NO_BUF)],
       g := g.(own := g.own - {lb.head}, slot := g.slot - {s.cells[i].key},
               now := g.now - {s.cells[i].key}, todo := TodoOf(g.view, lb.head)),
       pc := AfterClear(c, s.t, i, lb, 0))
  }

  /** Erase: the destruction of the key leaves `junk` in one of its bytes. */
  function DoClearKey(c: Config, s: State, i: nat, lb: Handle, j: nat, junk: Byte): State
    requires i < |s.cells| && j < |s.cells[i].key| && WellSized(s.t)
  {
    s.(cells := s.cells[i := s.cells[i].(key := s.cells[i].key[j := junk])],
       pc := AfterClear(c, s.t, i, lb, j + 1))
  }

  /** FreeNode: node->tag = 0. */
  ghost function DoUntag(s: State, d: Drop): State
    requires 0 < d.n < |s.t.nodes|
  {
    SetNode(s, d.n, s.t.nodes[d.n].(tag := 0)).(
      g := s.g.(view := if d.n == d.lb.head then DropView(s.g.view, d.n) else s.g.view), pc := Relink(d))
  }

  /** FreeNode: node->next = free_list. */
  function DoRelink(s: State, d: Drop): State
    requires 0 < d.n < |s.t.nodes|
  {
    SetNode(s, d.n, s.t.nodes[d.n].(next := s.t.freeList)).(pc := PushTop(d))
  }

  /** FreeNode: free_list = n. */
  function DoPushTop(s: State, d: Drop): State
    requires 0 < d.n < |s.t.nodes| == |s.g.view.place|
  {
    s.(t := s.t.(freeList := d.n), g := s.g.(view := PushView(s.g.view, d.n)), pc := CountFree(d))
  }

  /** FreeNode: free_node_num++; then the loop of Free goes on to the next node. */
  function DoCountFree(s: State, d: Drop): State
    requires d.rest < |s.t.nodes|
  {
    s.(t := s.t.(freeNodeNum := s.t.freeNodeNum + 1),
       g := s.g.(todo := if s.g.todo == [] then [] else s.g.todo[1..]),
       pc := if d.rest == 0 || s.t.nodes[d.rest].tag != d.lb.tag then DropBuf(d)
             else Untag(d.(n := d.rest, rest := s.t.nodes[d.rest].next)))
  }

  function DoDropBuf(s: State, d: Drop): State {
    s.(t := s.t.(bufUsedNum := (s.t.bufUsedNum + U32 - 1) % U32), pc := DropBytes(d))
  }

  function DoDropBytes(s: State, d: Drop): State {
    s.(t := s.t.(bufUsedBytes := (s.t.bufUsedBytes + U64 - d.len % U64) % U64), pc := Idle)
  }

  function AfterCopy(t: Table, a: Alloc, n: nat, j: nat): Pc
    requires t.unit >= 8
  {
    if a.off <= |a.job.val| && j < CopyLen(t, a) then Copy(a, n, j) else Link(a, n)
  }

  function AfterKey(c: Config, a: Alloc, j: nat): Pc {
    if j < c.keyLen then WriteKey(a, j) else Publish(a)
  }

  function AfterClear(c: Config, t: Table, i: nat, lb: Handle, j: nat): Pc
    requires WellSized(t)
  {
    if j < c.keyLen then ClearKey(i, lb, j) else StartFree(t, lb)
  }

  /** Every address that the next store uses lies inside its table. */
  ghost predicate InBounds(c: Config, s: State) {
    && WellSized(s.t)
    && |s.g.view.place| == |s.t.nodes|
    && match s.pc
       case Take(a) =>
         && 0 < s.t.freeList && s.g.view.free != []
         && s.g.view.free[|s.g.view.free| - 1] == s.t.freeList
       case TakeCount(_, _) => s.t.freeNodeNum > 0
       case ClearNext(_, n) => 0 < n < |s.t.nodes|
       case SetTag(_, n) => 0 < n < |s.t.nodes|
       case FlagHead(_, n) => 0 < n < |s.t.nodes|
       case SetLen(_, n) => 0 < n < |s.t.nodes| && |s.t.nodes[n].payload| == s.t.unit
       case SetCrc(_, n) => 0 < n < |s.t.nodes| && |s.t.nodes[n].payload| == s.t.unit
       case Copy(a, n, j) =>
         && 0 < n < |s.t.nodes| && a.off + j < |a.job.val|
         && HeaderLen(a.chain) + j < |s.t.nodes[n].payload|
       case Link(a, n) =>
         && n < |s.t.nodes| && a.off <= |a.job.val|
         && (a.chain != [] ==> a.chain[|a.chain| - 1] < |s.t.nodes| && a.chain[0] in s.g.view.chains)
       case WriteKey(a, j) => a.job.cell < |s.cells| && j < |s.cells[a.job.cell].key| == |a.job.key|
       case Publish(a) => a.job.cell < |s.cells| && a.chain != []
       case Clear(i) => i < |s.cells|
       case ClearKey(i, lb, j) => i < |s.cells| && j < |s.cells[i].key|
       case Untag(d) => 0 < d.n < |s.t.nodes|
       case Relink(d) => 0 < d.n < |s.t.nodes|
       case PushTop(d) => 0 < d.n < |s.t.nodes|
       case CountFree(d) => d.rest < |s.t.nodes|
       case _ => true
  }

  /** The next store.  `junk` is what the destruction of a key leaves in a key byte. */
  ghost function Advance(c: Config, s: State, junk: Byte): State
    requires InBounds(c, s)
  {
    match s.pc
    case Idle => s
    case Dead => s
    case Draw(job) => DoDraw(s, job)
    case DrawAgain(job) => DoDraw(s, job)
    case Take(a) => DoTake(s, a)
    case TakeCount(a, n) => DoTakeCount(s, a, n)
    case ClearNext(a, n) => DoClearNext(s, a, n)
    case SetTag(a, n) => DoSetTag(s, a, n)
    case FlagHead(a, n) => DoFlagHead(s, a, n)
    case SetLen(a, n) => DoSetLen(s, a, n)
    case SetCrc(a, n) => DoSetCrc(c, s, a, n)
    case Copy(a, n, j) => DoCopy(s, a, n, j)
    case Link(a, n) => DoLink(s, a, n)
    case CountBuf(a) => DoCountBuf(s, a)
    case CountBytes(a) => DoCountBytes(c, s, a)
    case WriteKey(a, j) => DoWriteKey(c, s, a, j)
    case Publish(a) => DoPublish(s, a)
    case Clear(i) => DoClear(c, s, i)
    case ClearKey(i, lb, j) => DoClearKey(c, s, i, lb, j, junk)
    case Untag(d) => DoUntag(s, d)
    case Relink(d) => DoRelink(s, d)
    case PushTop(d) => DoPushTop(s, d)
    case CountFree(d) => DoCountFree(s, d)
    case DropBuf(d) => DoDropBuf(s, d)
    case DropBytes(d) => DoDropBytes(s, d)
  }

  /** A refused call changes no memory. */
  function Refused(s: State, op: Op): State { s.(g := s.g.(op := op, accepted := false, before := s.g.now)) }

  /** The call of Insert, Replace or Erase, up to its first store; refused calls store nothing. */
  ghost function Begin(c: Config, s: State, op: Op): State
    requires s.pc.Idle? && WellSized(s.t) && ProbesOk(|s.cells|, c.probe(op.key))
  {
    var s0 := Refused(s, op);
    var s1 := s0.(g := s0.g.(accepted := true));
    var slot := FindOrAlloc(s.cells, c.probe(op.key), op.key);
    match op
    case Put(key, val, replace) =>
      if slot.Full? || (slot.Found? && !replace) then s0
      else if |val| == 0 || |val| >= U32 || BufNodes(s.t.unit, |val|) > s.t.freeNodeNum then s0
      else s1.(pc := Draw(Job(slot.cell, key, val, slot.Found?)))
    case Del(key) =>
      if slot.Found? then s1.(pc := Clear(slot.cell)) else s0
  }

  ghost predicate EmptyProbe(cells: seq<Cell<Key>>, probes: seq<nat>, r: nat) {
    r < |probes| && probes[r] < |cells| && !cells[probes[r]].lb.IsSet()
  }

  /** The calls that are carried out. */
  ghost predicate Accepts(c: Config, s: State, op: Op)
    requires WellSized(s.t)
  {
    match op
    case Put(key, val, replace) =>
      && (if key in s.g.now then replace else exists r :: EmptyProbe(s.cells, c.probe(key), r))
      && 0 < |val| < U32 && BufNodes(s.t.unit, |val|) <= |s.g.view.free|
    case Del(key) => key in s.g.now
  }

  // ---------------------------------------------------------------------------
  // Invariant

  /** A used cell holds the handle of a readable chain with the key's current value. */
  ghost predicate CellOk(c: Config, s: State, i: nat)
    requires Rep(s.t, s.g.view) && i < |s.cells|
  {
    var g, h := s.g, s.cells[i].lb.head;
    && h in g.view.chains && InRange(s.t.nodes, g.view.chains[h]) && g.view.chains[h] != []
    && 0 < h < |s.t.nodes|
    && s.t.nodes[h].tag == s.cells[i].lb.tag + HEAD_FLAG
    && h in g.own && g.own[h] == i
    && Readable(c.crc, s.t, g.view.chains[h])
    && s.cells[i].key in g.now
    && g.now[s.cells[i].key] == Value(s.t, g.view.chains[h])
    && h in g.birth && 1 <= g.birth[h] <= g.draws && TagAt(g.birth[h]) == s.cells[i].lb.tag
  }

  /** The owner of a chain holds its handle. */
  ghost predicate OwnOk(s: State, h: nat)
    requires h in s.g.own
  {
    s.g.own[h] < |s.cells| && s.cells[s.g.own[h]].lb.IsSet() && s.cells[s.g.own[h]].lb.head == h
  }

  ghost predicate Base(c: Config, s: State) {
    && ConfigOk(c)
    && Rep(s.t, s.g.view)
    && |s.cells| == c.cellNum
    && (forall i :: 0 <= i < |s.cells| ==> |s.cells[i].key| == c.keyLen)
    && SlotsOk(s.cells, c.probe, s.g.slot)
    && s.g.now.Keys == s.g.slot.Keys
    && (forall i {:trigger CellOk(c, s, i)} :: 0 <= i < |s.cells| && s.cells[i].lb.IsSet() ==> CellOk(c, s, i))
    && (forall h {:trigger OwnOk(s, h)} :: h in s.g.own ==> OwnOk(s, h))
    && SeqOk(s.t.tagSeqNext, s.g.draws)
  }

  ghost predicate Spares(s: State, ns: set<nat>) {
    forall n :: 0 < n < |s.g.view.place| && s.g.view.place[n] == Spare ==> n in ns
  }

  ghost predicate Orphans(s: State, hs: set<nat>) {
    forall h :: h in s.g.view.chains && h !in s.g.own ==> h in hs
  }

  ghost predicate JobOk(c: Config, s: State, job: Job) {
    && job.cell < |s.cells|
    && |job.key| == c.keyLen
    && 0 < |job.val| < U32
    && s.cells[job.cell].lb.IsSet() == job.found
    && (job.found ==> s.cells[job.cell].key == job.key)
    && (!job.found ==> job.key !in s.g.slot && job.cell in c.probe(job.key))
    && s.g.op.Put? && s.g.op.key == job.key && s.g.op.val == job.val
    && s.g.accepted && s.g.now == s.g.before
  }

  /** The chain under construction holds the first bytes of the record. */
  ghost predicate AllocOk(c: Config, s: State, a: Alloc)
    requires Rep(s.t, s.g.view)
  {
    && JobOk(c, s, a.job)
    && s.g.draws >= 1 && s.t.tagSeqNext == SeqAt(s.g.draws) && a.tag == TagAt(s.g.draws)
    && (forall h :: h in s.g.own && h in s.g.birth ==> s.g.birth[h] < s.g.draws)
    && InRange(s.t.nodes, a.chain)
    && (a.chain != [] ==>
          && a.chain[0] in s.g.view.chains && a.chain[0] !in s.g.own
          && s.g.view.chains[a.chain[0]] == a.chain
          && s.t.nodes[a.chain[0]].tag == a.tag + HEAD_FLAG)
    && Written(c.crc, s.t, a.job.val, a.chain, a.off)
  }

  /** Still looking for the node with index |a.chain|. */
  ghost predicate Growing(c: Config, s: State, a: Alloc, inHand: nat)
    requires Rep(s.t, s.g.view)
  {
    && AllocOk(c, s, a)
    && |a.chain| < BufNodes(s.t.unit, |a.job.val|) <= |s.g.view.free| + |a.chain| + inHand
  }

  ghost predicate Counted(s: State) { s.t.freeNodeNum == |s.g.view.free| }

  /** The unfinished chain, including a node at hand that already carries the head flag. */
  ghost function Unfinished(a: Alloc): set<nat> {
    if a.chain == [] then {} else {a.chain[0]}
  }

  /** The node at hand holds `k` bytes of its share of the record. */
  ghost predicate Filled(c: Config, s: State, a: Alloc, n: nat, k: nat)
    requires Rep(s.t, s.g.view) && AllocOk(c, s, a) && 0 < n < |s.t.nodes|
  {
    && Fits(c.crc, s.t, a.job.val, a.chain, s.t.nodes[n].payload, k)
    && s.t.nodes[n].next == 0
    && if a.chain == [] then
         && n in s.g.view.chains && s.g.view.chains[n] == [n] && n !in s.g.own
         && s.t.nodes[n].tag == a.tag + HEAD_FLAG
         && Spares(s, {}) && Orphans(s, {n})
       else
         && s.g.view.place[n] == Spare && s.t.nodes[n].tag == a.tag
         && Spares(s, {n}) && Orphans(s, Unfinished(a))
  }

  /** New is done: the chain holds the value and is not yet published. */
  ghost predicate Ready(c: Config, s: State, a: Alloc)
    requires Rep(s.t, s.g.view)
  {
    && AllocOk(c, s, a)
    && a.chain != [] && Readable(c.crc, s.t, a.chain) && Value(s.t, a.chain) == a.job.val
    && Spares(s, {}) && Orphans(s, Unfinished(a)) && Counted(s)
  }

  ghost predicate Committed(s: State) {
    s.g.accepted && s.g.now == Effect(s.g.op, s.g.before)
  }

  /** Free is about to take the first node of an unpublished chain. */
  ghost predicate AtHead(s: State, lb: Handle)
    requires Rep(s.t, s.g.view)
  {
    && lb.head in s.g.view.chains && lb.head !in s.g.own
    && s.g.view.chains[lb.head] == [lb.head] + s.g.todo
    && 0 < lb.head < |s.t.nodes| && s.t.nodes[lb.head].tag == lb.tag + HEAD_FLAG
    && Spares(s, {}) && Orphans(s, {lb.head}) && Counted(s) && Committed(s)
  }

  /** Free is past its first node; `n` is the spare node at hand. */
  ghost predicate InDrop(s: State, d: Drop)
    requires Rep(s.t, s.g.view)
  {
    && Committed(s) && Orphans(s, {})
    && d.lb.tag < HEAD_FLAG
    && d.rest == Head0(s.g.todo)
    && Pend(s.t, s.g.view, s.g.todo, d.lb.tag)
    && d.n !in s.g.todo && d.lb.head !in s.g.todo
  }

  ghost function NodesOf(l: seq<nat>): set<nat> { set i | 0 <= i < |l| :: l[i] }

  /** No operation holds a node or a chain. */
  ghost predicate Quiet(s: State) { Spares(s, {}) && Orphans(s, {}) && Counted(s) }

  ghost predicate AtIdle(s: State) { Quiet(s) && (if s.g.accepted then Committed(s) else s.g.now == s.g.before) }

  ghost predicate AtDraw(c: Config, s: State, job: Job)
    requires Rep(s.t, s.g.view)
  {
    JobOk(c, s, job) && BufNodes(s.t.unit, |job.val|) <= |s.g.view.free| && Quiet(s)
  }

  ghost predicate AtTake(c: Config, s: State, a: Alloc)
    requires Rep(s.t, s.g.view)
  {
    Growing(c, s, a, 0) && Spares(s, {}) && Orphans(s, Unfinished(a)) && Counted(s)
  }

  /** A node has left the free list and is not in use yet. */
  ghost predicate InHand(c: Config, s: State, a: Alloc, n: nat)
    requires Rep(s.t, s.g.view)
  {
    && Growing(c, s, a, 1) && 0 < n < |s.t.nodes| && s.g.view.place[n] == Spare
    && Spares(s, {n}) && Orphans(s, Unfinished(a))
  }

  ghost predicate AtSetTag(c: Config, s: State, a: Alloc, n: nat)
    requires Rep(s.t, s.g.view)
  {
    InHand(c, s, a, n) && Counted(s) && s.t.nodes[n].next == 0
  }

  /** The node at hand is being filled; `k` bytes of it are in place. */
  ghost predicate Filling(c: Config, s: State, a: Alloc, n: nat, k: nat)
    requires Rep(s.t, s.g.view)
  {
    Growing(c, s, a, 1) && 0 < n < |s.t.nodes| && Filled(c, s, a, n, k) && Counted(s)
  }

  ghost predicate AtWriteKey(c: Config, s: State, a: Alloc, j: nat)
    requires Base(c, s)
  {
    Ready(c, s, a) && !a.job.found && j < c.keyLen && s.cells[a.job.cell].key[..j] == a.job.key[..j]
  }

  ghost predicate AtPublish(c: Config, s: State, a: Alloc)
    requires Base(c, s)
  {
    Ready(c, s, a) && s.cells[a.job.cell].key == a.job.key
  }

  ghost predicate AtClear(s: State, i: nat) {
    && i < |s.cells| && s.cells[i].lb.IsSet() && Quiet(s)
    && s.g.op.Del? && s.cells[i].key == s.g.op.key && s.g.accepted && s.g.now == s.g.before
  }

  ghost predicate AtClearKey(c: Config, s: State, i: nat, lb: Handle, j: nat)
    requires Base(c, s)
  {
    i < |s.cells| && !s.cells[i].lb.IsSet() && j < c.keyLen && AtHead(s, lb)
  }

  /** Free holds the spare node `d.n`. */
  ghost predicate Dropping(s: State, d: Drop)
    requires Rep(s.t, s.g.view)
  {
    && InDrop(s, d) && 0 < d.n < |s.t.nodes| && s.g.view.place[d.n] == Spare && Counted(s)
    && Spares(s, {d.n} + NodesOf(s.g.todo))
  }

  ghost predicate AtUntag(s: State, d: Drop)
    requires Rep(s.t, s.g.view)
  {
    if d.n == d.lb.head then AtHead(s, d.lb) && d.rest == Head0(s.g.todo) else Dropping(s, d)
  }

  ghost predicate AtRelink(s: State, d: Drop)
    requires Rep(s.t, s.g.view)
  {
    Dropping(s, d) && s.t.nodes[d.n].tag == 0
  }

  ghost predicate AtPushTop(s: State, d: Drop)
    requires Rep(s.t, s.g.view)
  {
    Dropping(s, d) && s.t.nodes[d.n].tag == 0 && s.t.nodes[d.n].next == s.t.freeList
  }

  ghost predicate AtCountFree(s: State, d: Drop)
    requires Rep(s.t, s.g.view)
  {
    InDrop(s, d) && s.t.freeNodeNum + 1 == |s.g.view.free| && Spares(s, NodesOf(s.g.todo))
  }

  ghost predicate PcOk(c: Config, s: State)
    requires Base(c, s)
  {
    match s.pc
    case Idle => AtIdle(s)
    case Draw(job) => AtDraw(c, s, job)
    case DrawAgain(job) => AtDraw(c, s, job) && s.t.tagSeqNext == 0
    case Take(a) => AtTake(c, s, a)
    case TakeCount(a, n) => InHand(c, s, a, n) && s.t.freeNodeNum == |s.g.view.free| + 1
    case ClearNext(a, n) => InHand(c, s, a, n) && Counted(s)
    case SetTag(a, n) => AtSetTag(c, s, a, n)
    case FlagHead(a, n) => AtSetTag(c, s, a, n) && a.chain == []
    case SetLen(a, n) => Filling(c, s, a, n, 0) && a.chain == []
    case SetCrc(a, n) => Filling(c, s, a, n, 4) && a.chain == []
    case Copy(a, n, j) => Filling(c, s, a, n, HeaderLen(a.chain) + j) && j < CopyLen(s.t, a)
    case Link(a, n) => a.off <= |a.job.val| && Filling(c, s, a, n, HeaderLen(a.chain) + CopyLen(s.t, a))
    case CountBuf(a) => Ready(c, s, a)
    case CountBytes(a) => Ready(c, s, a)
    case WriteKey(a, j) => AtWriteKey(c, s, a, j)
    case Publish(a) => AtPublish(c, s, a)
    case Clear(i) => AtClear(s, i)
    case ClearKey(i, lb, j) => AtClearKey(c, s, i, lb, j)
    case Untag(d) => AtUntag(s, d)
    case Relink(d) => AtRelink(s, d)
    case PushTop(d) => AtPushTop(s, d)
    case CountFree(d) => AtCountFree(s, d)
    case DropBuf(d) => Quiet(s) && Committed(s)
    case DropBytes(d) => Quiet(s) && Committed(s)
    case Dead => s.g.now == s.g.before || s.g.now == Effect(s.g.op, s.g.before)
  }

  ghost predicate Inv(c: Config, s: State) {
    Base(c, s) && PcOk(c, s)
  }
}
