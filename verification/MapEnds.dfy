/**
 * Every call of the writer comes to its end, for values of any number of nodes, and at its end the
 * counters of the link table are exact.
 */
module MapEnds {
  import opened Bytes
  import opened LinkRep
  import opened Cells
  import opened MapWriter
  import opened MapWriterProof
  import opened MapReader
  import opened MapReaderProof
  import opened MapRuns
  import LinkOps
  import Trails
  import MapCrash

  // ---------------------------------------------------------------------------
  // Termination

  /** Nodes that New has still to link. */
  function NodesLeft(unit: nat, a: Alloc): nat {
    if unit == 0 then 0 else Minus(BufNodes(unit, |a.job.val|), |a.chain|)
  }

  /** Bytes of the node's share that are still to be copied. */
  function BytesLeft(t: Table, a: Alloc, j: nat): nat {
    if t.unit >= 8 && a.off <= |a.job.val| then Minus(CopyLen(t, a), j) else 0
  }

  /** How much a call has left to do: parts of the call, then nodes, then stores for a node, then bytes. */
  function CallRank(c: Config, s: State): Rank {
    match s.pc
    case Idle => Rank(0, 0, 0, 0, 0)
    case Dead => Rank(0, 0, 0, 0, 0)
    case DropBytes(_) => Rank(1, 0, 0, 0, 0)
    case DropBuf(_) => Rank(1, 1, 0, 0, 0)
    case CountFree(_) => Rank(2, |s.g.todo|, 0, 0, 0)
    case PushTop(_) => Rank(2, |s.g.todo|, 1, 0, 0)
    case Relink(_) => Rank(2, |s.g.todo|, 2, 0, 0)
    case Untag(_) => Rank(2, |s.g.todo|, 3, 0, 0)
    case ClearKey(_, _, j) => Rank(3, Minus(c.keyLen, j), 0, 0, 0)
    case Clear(_) => Rank(4, 0, 0, 0, 0)
    case Publish(_) => Rank(4, 0, 0, 0, 0)
    case WriteKey(_, j) => Rank(5, Minus(c.keyLen, j), 0, 0, 0)
    case CountBytes(_) => Rank(6, 0, 0, 0, 0)
    case CountBuf(_) => Rank(6, 1, 0, 0, 0)
    case Link(a, _) => Rank(7, NodesLeft(s.t.unit, a), 0, 0, 0)
    case Copy(a, _, j) => Rank(7, NodesLeft(s.t.unit, a), 1, BytesLeft(s.t, a, j), 0)
    case SetCrc(a, _) => Rank(7, NodesLeft(s.t.unit, a), 2, 0, 0)
    case SetLen(a, _) => Rank(7, NodesLeft(s.t.unit, a), 3, 0, 0)
    case FlagHead(a, _) => Rank(7, NodesLeft(s.t.unit, a), 4, 0, 0)
    case SetTag(a, _) => Rank(7, NodesLeft(s.t.unit, a), 5, 0, 0)
    case ClearNext(a, _) => Rank(7, NodesLeft(s.t.unit, a), 6, 0, 0)
    case TakeCount(a, _) => Rank(7, NodesLeft(s.t.unit, a), 7, 0, 0)
    case Take(a) => Rank(7, NodesLeft(s.t.unit, a), 8, 0, 0)
    case DrawAgain(_) => Rank(8, 0, 0, 0, 0)
    case Draw(_) => Rank(8, 1, 0, 0, 0)
  }

  lemma NewNodeEnds(c: Config, s: State, s': State, junk: Byte)
    requires Stored(c, s, s', junk) && IsNew(s.pc)
    ensures Below(CallRank(c, s'), CallRank(c, s)) && !s'.pc.Dead?
  {
    assert OpenStore(s, s', 0);
  }

  lemma TagsEnd(c: Config, s: State, s': State, junk: Byte)
    requires Stored(c, s, s', junk) && (s.pc.SetTag? || s.pc.FlagHead?)
    ensures Below(CallRank(c, s'), CallRank(c, s)) && !s'.pc.Dead?
  {
    assert OpenStore(s, s', 0);
  }

  lemma HeaderEnds(c: Config, s: State, s': State, junk: Byte)
    requires Stored(c, s, s', junk) && (s.pc.SetLen? || s.pc.SetCrc?)
    ensures Below(CallRank(c, s'), CallRank(c, s)) && !s'.pc.Dead?
  {
    assert OpenStore(s, s', 0);
  }

  lemma CopyEnds(c: Config, s: State, s': State, junk: Byte)
    requires Sane(c, s) && Stored(c, s, s', junk) && s.pc.Copy?
    ensures Below(CallRank(c, s'), CallRank(c, s)) && !s'.pc.Dead?
  {
    CopyLeft(c, s);
    assert OpenStore(s, s', 0);
  }

  lemma CopyLeft(c: Config, s: State)
    requires Sane(c, s) && s.pc.Copy?
    ensures BytesLeft(s.t, s.pc.a, s.pc.j) > 0
  {
    assert OpenInv(c, s, 0);
  }

  lemma LinkEnds(c: Config, s: State, s': State, junk: Byte)
    requires Sane(c, s) && Stored(c, s, s', junk) && s.pc.Link?
    ensures Below(CallRank(c, s'), CallRank(c, s)) && !s'.pc.Dead?
  {
    LinkLeft(c, s);
    assert OpenStore(s, s', 0);
  }

  lemma LinkLeft(c: Config, s: State)
    requires Sane(c, s) && s.pc.Link?
    ensures NodesLeft(s.t.unit, s.pc.a) > 0
  {
    SaneInv(c, s);
    LinkAt(c, s, s.pc.a, s.pc.n);
  }

  lemma InsertEnds(c: Config, s: State, s': State, junk: Byte)
    requires Sane(c, s) && Stored(c, s, s', junk) && (s.pc.CountBuf? || s.pc.CountBytes? || s.pc.WriteKey?)
    ensures Below(CallRank(c, s'), CallRank(c, s)) && !s'.pc.Dead?
  {
    KeyLeft(c, s);
    assert OpenStore(s, s', 0);
  }

  lemma KeyLeft(c: Config, s: State)
    requires Sane(c, s)
    ensures s.pc.WriteKey? ==> s.pc.j < c.keyLen
    ensures s.pc.ClearKey? ==> s.pc.j < c.keyLen
    ensures s.pc.DrawAgain? ==> s.t.tagSeqNext == 0
  {
    assert OpenInv(c, s, 0);
  }

  lemma DrawEnds(c: Config, s: State, s': State, junk: Byte)
    requires Sane(c, s) && Stored(c, s, s', junk) && (s.pc.Draw? || s.pc.DrawAgain?)
    ensures Below(CallRank(c, s'), CallRank(c, s)) && !s'.pc.Dead?
  {
    KeyLeft(c, s);
    assert OpenStore(s, s', 0);
  }

  lemma CommitEnds(c: Config, s: State, s': State, junk: Byte)
    requires Sane(c, s) && Stored(c, s, s', junk) && (s.pc.Publish? || s.pc.Clear? || s.pc.ClearKey?)
    ensures Below(CallRank(c, s'), CallRank(c, s)) && !s'.pc.Dead?
  {
    KeyLeft(c, s);
    assert OpenStore(s, s', 0);
  }

  lemma FreeNodeEnds(c: Config, s: State, s': State, junk: Byte)
    requires Stored(c, s, s', junk) && (s.pc.Untag? || s.pc.Relink? || s.pc.PushTop?)
    ensures Below(CallRank(c, s'), CallRank(c, s)) && !s'.pc.Dead?
  {
    assert OpenStore(s, s', 0);
  }

  lemma FreeEnds(c: Config, s: State, s': State, junk: Byte)
    requires Sane(c, s) && Stored(c, s, s', junk) && (s.pc.CountFree? || s.pc.DropBuf? || s.pc.DropBytes?)
    ensures Below(CallRank(c, s'), CallRank(c, s)) && !s'.pc.Dead?
  {
    if s.pc.CountFree? { RestLeft(c, s); }
    assert OpenStore(s, s', 0);
  }

  lemma RestLeft(c: Config, s: State)
    requires Sane(c, s) && s.pc.CountFree?
    ensures s.pc.d.rest != 0 ==> s.g.todo != []
  {
    assert OpenInv(c, s, 0);
  }

  /** Every store of a call leaves less to do. */
  lemma WriterTerminates(c: Config, s: State, s': State, junk: Byte)
    requires Sane(c, s) && Stored(c, s, s', junk) && !s.pc.Idle? && !s.pc.Dead?
    ensures Below(CallRank(c, s'), CallRank(c, s)) && !s'.pc.Dead?
  {
    match s.pc
    case Draw(_) => DrawEnds(c, s, s', junk);
    case DrawAgain(_) => DrawEnds(c, s, s', junk);
    case Take(_) => NewNodeEnds(c, s, s', junk);
    case TakeCount(_, _) => NewNodeEnds(c, s, s', junk);
    case ClearNext(_, _) => NewNodeEnds(c, s, s', junk);
    case SetTag(_, _) => TagsEnd(c, s, s', junk);
    case FlagHead(_, _) => TagsEnd(c, s, s', junk);
    case SetLen(_, _) => HeaderEnds(c, s, s', junk);
    case SetCrc(_, _) => HeaderEnds(c, s, s', junk);
    case Copy(_, _, _) => CopyEnds(c, s, s', junk);
    case Link(_, _) => LinkEnds(c, s, s', junk);
    case CountBuf(_) => InsertEnds(c, s, s', junk);
    case CountBytes(_) => InsertEnds(c, s, s', junk);
    case WriteKey(_, _) => InsertEnds(c, s, s', junk);
    case Publish(_) => CommitEnds(c, s, s', junk);
    case Clear(_) => CommitEnds(c, s, s', junk);
    case ClearKey(_, _, _) => CommitEnds(c, s, s', junk);
    case Untag(_) => FreeNodeEnds(c, s, s', junk);
    case Relink(_) => FreeNodeEnds(c, s, s', junk);
    case PushTop(_) => FreeNodeEnds(c, s, s', junk);
    case CountFree(_) => FreeEnds(c, s, s', junk);
    case DropBuf(_) => FreeEnds(c, s, s', junk);
    case DropBytes(_) => FreeEnds(c, s, s', junk);
  }

  // ---------------------------------------------------------------------------
  // The counters

  ghost function LenAt(t: Table, h: nat): nat { if 0 < h < |t.nodes| then LinkOps.LenOf(t.nodes[h]) else 0 }

  /** The first node of the chain that New has flagged and not counted yet; 0 if there is none. */
  function Uncounted(pc: Pc): nat {
    match pc
    case Take(a) => Head0(a.chain)
    case TakeCount(a, _) => Head0(a.chain)
    case ClearNext(a, _) => Head0(a.chain)
    case SetTag(a, _) => Head0(a.chain)
    case FlagHead(a, _) => Head0(a.chain)
    case SetLen(a, n) => Head0(a.chain + [n])
    case SetCrc(a, n) => Head0(a.chain + [n])
    case Copy(a, n, _) => Head0(a.chain + [n])
    case Link(a, n) => Head0(a.chain + [n])
    case CountBuf(a) => Head0(a.chain)
    case _ => 0
  }

  /** Free has untagged a chain of this length and not subtracted it yet. */
  function Owed(pc: Pc): nat {
    match pc
    case Untag(d) => if d.n == d.lb.head then 0 else d.len
    case Relink(d) => d.len
    case PushTop(d) => d.len
    case CountFree(d) => d.len
    case DropBuf(d) => d.len
    case DropBytes(d) => d.len
    case _ => 0
  }

  predicate OwesBuf(pc: Pc) {
    || (pc.Untag? && pc.d.n != pc.d.lb.head)
    || pc.Relink? || pc.PushTop? || pc.CountFree? || pc.DropBuf?
  }

  /** The counters and the chains agree up to the chain in work. */
  ghost predicate Tallied(s: State) {
    var t := s.t;
    && t.bufUsedNum + (if Uncounted(s.pc) != 0 then 1 else 0) ==
         LinkOps.Heads(t.nodes, |t.nodes|) + (if OwesBuf(s.pc) then 1 else 0)
    && t.bufUsedBytes + LenAt(t, if s.pc.CountBytes? then Head0(s.pc.a.chain) else Uncounted(s.pc)) ==
         LinkOps.HeadBytes(t.nodes, |t.nodes|) + Owed(s.pc)
    && Owed(s.pc) < U32
    && (s.pc.Untag? && s.pc.d.n == s.pc.d.lb.head ==> s.pc.d.len == LenAt(t, s.pc.d.n) < U32)
  }

  /** A node in hand carries no head flag, and the chain under construction does. */
  lemma HandFacts(c: Config, s: State)
    requires Sane(c, s) && (s.pc.ClearNext? || s.pc.SetTag? || s.pc.FlagHead?)
    ensures 0 < s.pc.n < |s.t.nodes| && !LinkOps.IsHead(s.t.nodes[s.pc.n]) && s.pc.a.tag < HEAD_FLAG
    ensures s.pc.a.chain != [] ==>
              0 < s.pc.a.chain[0] < |s.t.nodes| && LinkOps.IsHead(s.t.nodes[s.pc.a.chain[0]]) && !s.pc.FlagHead?
  {
    assert OpenInv(c, s, 0);
    HeadFlagMarksChains(s.t, s.g.view, s.pc.n);
    Trails.SpareInNoChain(s.t, s.g.view, s.pc.n);
    if s.pc.a.chain != [] { assert LinkOk(s.t, s.g.view, s.pc.a.chain[0], 0); }
  }

  lemma CopyFacts(c: Config, s: State)
    requires Sane(c, s) && (s.pc.Copy? || s.pc.SetLen? || s.pc.SetCrc?)
    ensures 0 < s.pc.n < |s.t.nodes| && ((s.pc.SetLen? || s.pc.SetCrc?) ==> s.pc.a.chain == [])
    ensures s.pc.a.chain != [] ==>
              && 0 < s.pc.a.chain[0] < |s.t.nodes| && LinkOps.IsHead(s.t.nodes[s.pc.a.chain[0]])
              && !LinkOps.IsHead(s.t.nodes[s.pc.n])
  {
    assert OpenInv(c, s, 0);
    if s.pc.a.chain != [] {
      HeadFlagMarksChains(s.t, s.g.view, s.pc.n);
      Trails.SpareInNoChain(s.t, s.g.view, s.pc.n);
      assert LinkOk(s.t, s.g.view, s.pc.a.chain[0], 0);
    }
  }

  lemma LinkFacts(c: Config, s: State)
    requires Sane(c, s) && s.pc.Link?
    ensures 0 < s.pc.n < |s.t.nodes| && (s.pc.a.chain != [] ==> s.pc.a.chain[|s.pc.a.chain| - 1] > 0)
  {
    SaneInv(c, s);
    LinkAt(c, s, s.pc.a, s.pc.n);
    var l := s.pc.a.chain;
    if l != [] { assert LinkOk(s.t, s.g.view, l[0], |l| - 1) && LinkOk(s.t, s.g.view, l[0], 0); }
  }

  lemma CountFacts(c: Config, s: State)
    requires Sane(c, s) && (s.pc.CountBuf? || s.pc.CountBytes?)
    ensures s.pc.a.chain != [] && 0 < s.pc.a.chain[0] < |s.t.nodes|
    ensures LenAt(s.t, s.pc.a.chain[0]) == |s.pc.a.job.val| < U32
  {
    assert OpenInv(c, s, 0);
    var h := s.pc.a.chain[0];
    assert LinkOk(s.t, s.g.view, h, 0) && NodeOk(s.t, s.t.nodes[h]);
    HeadFlagMarksChains(s.t, s.g.view, h);
  }

  lemma UntagFacts(c: Config, s: State)
    requires Sane(c, s) && s.pc.Untag?
    ensures 0 < s.pc.d.n < |s.t.nodes|
    ensures LinkOps.IsHead(s.t.nodes[s.pc.d.n]) <==> s.pc.d.n == s.pc.d.lb.head
  {
    assert OpenInv(c, s, 0);
    HeadFlagMarksChains(s.t, s.g.view, s.pc.d.n);
    if s.pc.d.n != s.pc.d.lb.head { Trails.SpareInNoChain(s.t, s.g.view, s.pc.d.n); }
  }

  lemma SizesFit(c: Config, s: State)
    requires Sane(c, s)
    ensures WellSized(s.t)
    ensures LinkOps.Heads(s.t.nodes, |s.t.nodes|) < U32 && LinkOps.HeadBytes(s.t.nodes, |s.t.nodes|) <= U64 - U32
    ensures forall h :: LenAt(s.t, h) < U32
  {
    SaneBase(c, s);
    LinkOps.SumsBound(s.t, |s.t.nodes|);
    forall h | 0 < h < |s.t.nodes| ensures LenAt(s.t, h) < U32 {
      assert NodeOk(s.t, s.t.nodes[h]);
      Spans();
      ValBound(s.t.nodes[h].payload[0..4]);
    }
  }

  lemma DrawTally(c: Config, s: State, s': State, junk: Byte)
    requires Stored(c, s, s', junk) && Tallied(s) && (s.pc.Draw? || s.pc.DrawAgain? || s.pc.Take? || s.pc.TakeCount?)
    ensures Tallied(s')
  {
    assert OpenStore(s, s', 0);
  }

  lemma HandTally(c: Config, s: State, s': State, junk: Byte)
    requires Sane(c, s) && Stored(c, s, s', junk) && Tallied(s)
    requires s.pc.ClearNext? || s.pc.SetTag? || s.pc.FlagHead?
    ensures Tallied(s')
  {
    HandFacts(c, s);
    assert OpenStore(s, s', 0);
    LinkOps.SumsUpdate(s.t.nodes, s.pc.n, s'.t.nodes[s.pc.n], |s.t.nodes|);
  }

  lemma HeaderTally(c: Config, s: State, s': State, junk: Byte)
    requires Sane(c, s) && Stored(c, s, s', junk) && Tallied(s) && (s.pc.SetLen? || s.pc.SetCrc?)
    ensures Tallied(s')
  {
    CopyFacts(c, s);
    assert OpenStore(s, s', 0);
    LinkOps.SumsUpdate(s.t.nodes, s.pc.n, s'.t.nodes[s.pc.n], |s.t.nodes|);
  }

  lemma CopyTally(c: Config, s: State, s': State, junk: Byte)
    requires Sane(c, s) && Stored(c, s, s', junk) && Tallied(s) && s.pc.Copy?
    ensures Tallied(s')
  {
    CopyFacts(c, s);
    assert OpenStore(s, s', 0);
    LinkOps.SumsUpdate(s.t.nodes, s.pc.n, s'.t.nodes[s.pc.n], |s.t.nodes|);
  }

  lemma LinkTally(c: Config, s: State, s': State, junk: Byte)
    requires Sane(c, s) && Stored(c, s, s', junk) && Tallied(s) && s.pc.Link?
    ensures Tallied(s')
  {
    LinkFacts(c, s);
    assert OpenStore(s, s', 0);
    var l := s.pc.a.chain;
    if l != [] { LinkOps.SumsUpdate(s.t.nodes, l[|l| - 1], s'.t.nodes[l[|l| - 1]], |s.t.nodes|); }
  }

  lemma CountTally(c: Config, s: State, s': State, junk: Byte)
    requires Sane(c, s) && Stored(c, s, s', junk) && Tallied(s) && (s.pc.CountBuf? || s.pc.CountBytes?)
    ensures Tallied(s')
  {
    CountFacts(c, s);
    SizesFit(c, s);
    assert OpenStore(s, s', 0);
  }

  /** A call of Free that is not refused has read the length of the chain. */
  lemma StartFreeTally(t: Table, lb: Handle)
    requires WellSized(t)
    ensures var pc := StartFree(t, lb);
            pc.Idle? || (pc.Untag? && pc.d.n == pc.d.lb.head && pc.d.len == LenAt(t, pc.d.n))
  {
    if 0 < lb.head < |t.nodes| { assert NodeOk(t, t.nodes[lb.head]); }
  }

  lemma KeyTally(c: Config, s: State, s': State, junk: Byte)
    requires Sane(c, s) && Stored(c, s, s', junk) && Tallied(s) && s.pc.WriteKey?
    ensures Tallied(s')
  {
    assert OpenStore(s, s', 0);
  }

  lemma PublishTally(c: Config, s: State, s': State, junk: Byte)
    requires Sane(c, s) && Stored(c, s, s', junk) && Tallied(s) && s.pc.Publish?
    ensures Tallied(s')
  {
    SizesFit(c, s);
    assert OpenStore(s, s', 0);
    StartFreeTally(s.t, s.cells[s.pc.a.job.cell].lb);
  }

  lemma EraseTally(c: Config, s: State, s': State, junk: Byte)
    requires Sane(c, s) && Stored(c, s, s', junk) && Tallied(s) && (s.pc.Clear? || s.pc.ClearKey?)
    ensures Tallied(s')
  {
    SizesFit(c, s);
    assert OpenStore(s, s', 0);
    StartFreeTally(s.t, if s.pc.Clear? then s.cells[s.pc.cell].lb else s.pc.lb);
  }

  lemma UntagTally(c: Config, s: State, s': State, junk: Byte)
    requires Sane(c, s) && Stored(c, s, s', junk) && Tallied(s) && s.pc.Untag?
    ensures Tallied(s')
  {
    UntagFacts(c, s);
    assert OpenStore(s, s', 0);
    LinkOps.SumsUpdate(s.t.nodes, s.pc.d.n, s'.t.nodes[s.pc.d.n], |s.t.nodes|);
  }

  lemma RelinkTally(c: Config, s: State, s': State, junk: Byte)
    requires Stored(c, s, s', junk) && Tallied(s) && (s.pc.Relink? || s.pc.PushTop?)
    ensures Tallied(s')
  {
    assert OpenStore(s, s', 0);
    if s.pc.Relink? { LinkOps.SumsUpdate(s.t.nodes, s.pc.d.n, s'.t.nodes[s.pc.d.n], |s.t.nodes|); }
  }

  lemma FreeTally(c: Config, s: State, s': State, junk: Byte)
    requires Sane(c, s) && Stored(c, s, s', junk) && Tallied(s) && s.pc.CountFree?
    ensures Tallied(s')
  {
    RestIsOther(c, s);
    assert OpenStore(s, s', 0);
  }

  lemma DropTally(c: Config, s: State, s': State, junk: Byte)
    requires Sane(c, s) && Stored(c, s, s', junk) && Tallied(s) && (s.pc.DropBuf? || s.pc.DropBytes?)
    ensures Tallied(s')
  {
    SizesFit(c, s);
    assert OpenStore(s, s', 0);
  }

  lemma RestIsOther(c: Config, s: State)
    requires Sane(c, s) && s.pc.CountFree?
    ensures s.pc.d.rest != 0 ==> s.pc.d.rest != s.pc.d.lb.head
  {
    assert OpenInv(c, s, 0);
    if s.pc.d.rest != 0 { assert s.g.todo[0] in s.g.todo; }
  }

  /** Every store keeps the counters in step with the chains. */
  lemma StoreTallied(c: Config, s: State, s': State, junk: Byte)
    requires Sane(c, s) && Stored(c, s, s', junk) && Tallied(s) && !s.pc.Dead?
    ensures Tallied(s')
  {
    match s.pc
    case Idle => IdleStays(c, s, s', junk);
    case Draw(_) => DrawTally(c, s, s', junk);
    case DrawAgain(_) => DrawTally(c, s, s', junk);
    case Take(_) => DrawTally(c, s, s', junk);
    case TakeCount(_, _) => DrawTally(c, s, s', junk);
    case ClearNext(_, _) => HandTally(c, s, s', junk);
    case SetTag(_, _) => HandTally(c, s, s', junk);
    case FlagHead(_, _) => HandTally(c, s, s', junk);
    case SetLen(_, _) => HeaderTally(c, s, s', junk);
    case SetCrc(_, _) => HeaderTally(c, s, s', junk);
    case Copy(_, _, _) => CopyTally(c, s, s', junk);
    case Link(_, _) => LinkTally(c, s, s', junk);
    case CountBuf(_) => CountTally(c, s, s', junk);
    case CountBytes(_) => CountTally(c, s, s', junk);
    case WriteKey(_, _) => KeyTally(c, s, s', junk);
    case Publish(_) => PublishTally(c, s, s', junk);
    case Clear(_) => EraseTally(c, s, s', junk);
    case ClearKey(_, _, _) => EraseTally(c, s, s', junk);
    case Untag(_) => UntagTally(c, s, s', junk);
    case Relink(_) => RelinkTally(c, s, s', junk);
    case PushTop(_) => RelinkTally(c, s, s', junk);
    case CountFree(_) => FreeTally(c, s, s', junk);
    case DropBuf(_) => DropTally(c, s, s', junk);
    case DropBytes(_) => DropTally(c, s, s', junk);
  }

  /** Nothing is stored between calls. */
  lemma IdleStays(c: Config, s: State, s': State, junk: Byte)
    requires Stored(c, s, s', junk) && s.pc.Idle?
    ensures s' == s
  {
    assert OpenStore(s, s', 0);
  }

  /** In every run the counters are in step with the chains while the writer lives. */
  lemma {:induction false} RunTallied(c: Config, xs: seq<World>, es: seq<Event>, i: nat)
    requires Run(c, xs, es) && i < |xs|
    ensures xs[i].w.pc.Dead? || Tallied(xs[i].w)
  {
    if i == 0 {
      LinkOps.NoHeads(xs[0].w.t.nodes, |xs[0].w.t.nodes|);
    } else {
      RunTallied(c, xs, es, i - 1);
      RunSane(c, xs, es, i - 1);
      assert Follows(c, xs[i - 1], es[i - 1], xs[i - 1 + 1]);
      StepTallied(c, xs[i - 1], es[i - 1], xs[i]);
    }
  }

  lemma StepTallied(c: Config, x: World, e: Event, y: World)
    requires Sane(c, x.w) && (x.w.pc.Dead? || Tallied(x.w)) && Follows(c, x, e, y)
    ensures y.w.pc.Dead? || Tallied(y.w)
  {
    FollowsNext(c, x, e, y);
    match e
    case Call(op) => CallTallied(c, x.w, op);
    case Store(junk) => if x.w.pc.Dead? { DeadStays(c, x.w, junk); } else { StoreTallied(c, x.w, y.w, junk); }
    case _ =>
  }

  lemma CallTallied(c: Config, s: State, op: Op)
    requires s.pc.Idle? && WellSized(s.t) && ProbesOk(|s.cells|, c.probe(op.key)) && Tallied(s)
    ensures Tallied(Begin(c, s, op))
  {
  }

  lemma DeadStays(c: Config, s: State, junk: Byte)
    requires InBounds(c, s) && s.pc.Dead?
    ensures Advance(c, s, junk) == s
  {
  }

  /**
   * Whenever the writer is between two calls of a run, also after crashes and repairs, the table's
   * counters are exact: free nodes, link-bufs, and the bytes of the link-bufs.
   */
  lemma IdleCountersExact(c: Config, xs: seq<World>, es: seq<Event>, i: nat)
    requires Run(c, xs, es) && i < |xs| && xs[i].w.pc.Idle?
    ensures var t, v := xs[i].w.t, xs[i].w.g.view;
            && t.freeNodeNum == |v.free| && t.bufUsedNum == |v.chains|
            && t.bufUsedBytes == LinkOps.HeadBytes(t.nodes, |t.nodes|)
  {
    RunTallied(c, xs, es, i);
    RunSane(c, xs, es, i);
    IdleCounted(c, xs[i].w);
  }

  lemma IdleCounted(c: Config, s: State)
    requires Sane(c, s) && s.pc.Idle?
    ensures s.t.freeNodeNum == |s.g.view.free| && LinkOps.Heads(s.t.nodes, |s.t.nodes|) == |s.g.view.chains|
  {
    assert OpenInv(c, s, 0);
    HeadsAreChains(s.t, s.g.view, |s.t.nodes|);
    LinkOps.HeadsInRange(s.t, s.g.view);
    assert (set h | h in s.g.view.chains && h < |s.t.nodes|) == s.g.view.chains.Keys;
  }

  lemma {:induction false} HeadsAreChains(t: Table, v: View, k: nat)
    requires Rep(t, v) && k <= |t.nodes|
    ensures LinkOps.Heads(t.nodes, k) == |set h | h in v.chains && h < k|
  {
    if k == 0 {
      assert (set h | h in v.chains && h < k) == {};
    } else {
      HeadsAreChains(t, v, k - 1);
      HeadFlagMarksChains(t, v, k - 1);
      LinkOps.HeadsInRange(t, v);
      var below := set h | h in v.chains && h < k - 1;
      assert (set h | h in v.chains && h < k) == if k - 1 in v.chains then below + {k - 1} else below;
    }
  }

  // ---------------------------------------------------------------------------
  // Whole calls

  /** The stores of the writer from `s` on, up to the end of its call. */
  ghost predicate CallRun(c: Config, run: seq<State>, s: State) {
    && run != [] && run[0] == s && run[|run| - 1].pc.Idle?
    && forall i {:trigger run[i]} :: 0 <= i < |run| - 1 ==> Stored(c, run[i], run[i + 1], 0)
  }

  /** A call that has begun comes to its end. */
  lemma {:induction false} CallEnds(c: Config, s: State) returns (run: seq<State>)
    requires Sane(c, s) && !s.pc.Dead?
    ensures CallRun(c, run, s) && Sane(c, run[|run| - 1])
    ensures var e := run[|run| - 1]; e.g.op == s.g.op && e.g.before == s.g.before && e.g.accepted == s.g.accepted
    decreases CallRank(c, s).round, CallRank(c, s).stage, CallRank(c, s).left, CallRank(c, s).turn
  {
    if s.pc.Idle? { return [s]; }
    SaneStep(c, s, 0);
    var s' := Advance(c, s, 0);
    WriterTerminates(c, s, s', 0);
    MapCrash.AdvanceKeepsCall(c, s, s', 0);
    var rest := CallEnds(c, s');
    run := [s] + rest;
    forall i | 0 <= i < |run| - 1 ensures Stored(c, run[i], run[i + 1], 0) {
      if i > 0 { assert Stored(c, rest[i - 1], rest[i - 1 + 1], 0); }
    }
  }

  /**
   * An insert or replace between calls runs to its end, and then the map holds the new value exactly
   * if the key is present and may be replaced, or is absent and has an empty probe, and the value is
   * not empty and fits the free nodes; otherwise the map is as it was.
   */
  lemma PutEnds(c: Config, s: State, key: Key, val: seq<Byte>, replace: bool) returns (run: seq<State>)
    requires Sane(c, s) && s.pc.Idle? && |key| == c.keyLen
    ensures WellSized(s.t) && ProbesOk(|s.cells|, c.probe(key)) && CallRun(c, run, Begin(c, s, Put(key, val, replace)))
    ensures run[|run| - 1].g.now ==
              if && (if key in s.g.now then replace
                     else exists r :: 0 <= r < |c.probe(key)| && !s.cells[c.probe(key)[r]].lb.IsSet())
                 && 0 < |val| < 0x1_0000_0000 && 8 + |val| <= |s.g.view.free| * s.t.unit
              then s.g.now[key := val] else s.g.now
  {
    var op := Put(key, val, replace);
    SaneCall(c, s, op);
    run := CallEnds(c, Begin(c, s, op));
    PutAccepted(c, s, key, val, replace);
    BegunOp(c, s, op);
    IdleNow(c, run[|run| - 1]);
  }

  lemma PutAccepted(c: Config, s: State, key: Key, val: seq<Byte>, replace: bool)
    requires Sane(c, s) && s.pc.Idle? && WellSized(s.t) && ProbesOk(|s.cells|, c.probe(key))
    ensures Begin(c, s, Put(key, val, replace)).g.accepted <==>
              && (if key in s.g.now then replace
                  else exists r :: 0 <= r < |c.probe(key)| && !s.cells[c.probe(key)[r]].lb.IsSet())
              && 0 < |val| < 0x1_0000_0000 && 8 + |val| <= |s.g.view.free| * s.t.unit
  {
    SaneInv(c, s);
    BeginAccepts(c, s, Put(key, val, replace));
    BufNodesLeast(s.t.unit, |val|, |s.g.view.free|);
    forall r | 0 <= r < |c.probe(key)|
      ensures EmptyProbe(s.cells, c.probe(key), r) <==> !s.cells[c.probe(key)[r]].lb.IsSet() {}
  }

  /** An erase runs to its end, and then the map is without the key. */
  lemma DelEnds(c: Config, s: State, key: Key) returns (run: seq<State>)
    requires Sane(c, s) && s.pc.Idle? && |key| == c.keyLen
    ensures WellSized(s.t) && ProbesOk(|s.cells|, c.probe(key)) && CallRun(c, run, Begin(c, s, Del(key)))
    ensures run[|run| - 1].g.now == s.g.now - {key}
  {
    SaneCall(c, s, Del(key));
    run := CallEnds(c, Begin(c, s, Del(key)));
    SaneInv(c, s);
    BeginAccepts(c, s, Del(key));
    BegunOp(c, s, Del(key));
    IdleNow(c, run[|run| - 1]);
  }

  lemma BegunOp(c: Config, s: State, op: Op)
    requires s.pc.Idle? && WellSized(s.t) && ProbesOk(|s.cells|, c.probe(op.key))
    ensures Begin(c, s, op).g.op == op && Begin(c, s, op).g.before == s.g.now
  {
  }

  lemma IdleNow(c: Config, s: State)
    requires Sane(c, s) && s.pc.Idle?
    ensures s.g.now == if s.g.accepted then Effect(s.g.op, s.g.before) else s.g.before
  {
    assert OpenInv(c, s, 0);
  }
}
