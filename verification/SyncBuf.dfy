/** The broadcast ring at call granularity (src/lib_bsp/shmc/shm_sync_buf.h). */
module SyncBuf {
  import opened Bytes
  import opened SyncRep

  datatype Meta = Meta(seqNo: nat, sec: nat, usec: nat)

  /** Less than, on seconds and microseconds: the numbers compared. */
  predicate Before(sec: nat, usec: nat, sec': nat, usec': nat) {
    if sec == sec' then usec < usec' else sec < sec'
  }

  ghost predicate Earlier(e: Entry, sec: nat, usec: nat) { Before(e.sec, e.usec, sec, usec) }

  /** No message is stamped earlier than one before it. */
  ghost predicate Sorted(live: seq<Entry>) {
    forall i, j :: 0 <= i < j < |live| ==>
      live[i].sec < live[j].sec || (live[i].sec == live[j].sec && live[i].usec <= live[j].usec)
  }

  /** In a sorted log everything before an earlier message is earlier. */
  lemma EarlierBefore(live: seq<Entry>, k: nat, sec: nat, usec: nat)
    requires Sorted(live) && k < |live| && Earlier(live[k], sec, usec)
    ensures forall j :: 0 <= j <= k ==> Earlier(live[j], sec, usec)
  {
  }

  /** The middle of two sequence numbers, in 64-bit arithmetic. */
  function Middle(left: nat, right: nat): nat { ((left + right) % U64) / 2 }

  /** The middle lies between the two exactly if their sum fits in 64 bits. */
  lemma MiddleExact(left: nat, right: nat)
    requires left < right < U64
    ensures left <= Middle(left, right) < right <==> left + right < U64
  {
    if left + right >= U64 { assert (left + right) % U64 == left + right - U64; }
  }

  /** The search by time from sequence number `first` to `last` meets no sum that does not fit. */
  predicate SumsFit(first: nat, last: nat) { first >= last || 2 * last - 1 < U64 }

  /** SumsFit says exactly that in every range that ends at `last` or before the middle lies between its ends. */
  lemma SumsFitExactly(first: nat, last: nat)
    requires last < U64
    ensures SumsFit(first, last) <==>
              forall l, r {:trigger Middle(l, r)} :: first <= l < r <= last ==> l <= Middle(l, r) < r
  {
    forall l, r | first <= l < r <= last && SumsFit(first, last) ensures l <= Middle(l, r) < r { MiddleExact(l, r); }
    if first < last {
      var l := last - 1;
      MiddleExact(l, last);
      assert SumsFit(first, last) || !(l <= Middle(l, last) < last);
    }
  }

  /** The left end of the search after `n` rounds in which the probe was not late. */
  function Climb(left: nat, right: nat, n: nat): nat {
    if n == 0 then left else Middle(Climb(left, right, n - 1), right) + 1
  }

  /** If the sums do not fit, a search whose probes are never late never gets its left end to the right one. */
  lemma {:induction false} ClimbStays(first: nat, last: nat, n: nat)
    requires first < last < U64 && !SumsFit(first, last)
    ensures Climb(first, last, n) < last
  {
    if n > 0 {
      ClimbStays(first, last, n - 1);
      var left := Climb(first, last, n - 1);
      assert left + last >= U64 ==> (left + last) % U64 == left + last - U64;
    }
  }

  /** The log without its `k` oldest nodes. */
  function Dropped(g: Log, k: nat): Log
    requires k <= |g.at| == |g.live|
  {
    Log(g.at[k..], g.live[k..], g.end)
  }

  /** Without its `k` oldest nodes the log leaves room for a node of `n` bytes and the band. */
  ghost predicate Room(size: nat, g: Log, k: nat, n: nat) { size - 1 - (g.end - g.Start(k)) >= n + 16384 }

  /** A node is stored at the end of the log: head, data, tail. */
  lemma NodeStored(mem: seq<Byte>, m1: seq<Byte>, m2: seq<Byte>, m3: seq<Byte>, v: nat, e: Entry, h: seq<Byte>,
                   t: seq<Byte>)
    requires |e.data| < U32 && e.seqNo < U64 && e.sec < U32 && e.usec < U32
    requires NodeSize(|e.data|) <= |mem| && HeadOk(h, e) && TailOk(t, |e.data|)
    requires StoredAt(mem, m1, v, h) && StoredAt(m1, m2, v + NODE_HEAD, e.data)
    requires StoredAt(m2, m3, v + TailOffset(|e.data|), t)
    ensures NodeAt(m3, v, e) && Same(mem, m3, v + NodeSize(|e.data|) - |mem|, v)
  {
    var n, to := |e.data|, v + TailOffset(|e.data|);
    var low := v + NodeSize(n) - |mem|;
    SameWithin(mem, m1, v + NODE_HEAD - |mem|, v, low, v);
    SameWithin(m1, m2, v + NODE_HEAD + n - |mem|, v + NODE_HEAD, low, v + NODE_HEAD);
    SameTwice(mem, m1, m2, low, v);
    SameTwice(mem, m2, m3, low, v);
    PartKept(m1, m2, low, v + NODE_HEAD, v, NODE_HEAD);
    PartKept(m2, m3, low, to, v, NODE_HEAD);
    PartKept(m2, m3, low, to, v + NODE_HEAD, n);
  }

  lemma SameWithin(mem: seq<Byte>, mem': seq<Byte>, v: nat, w: nat, v': nat, w': nat)
    requires Same(mem, mem', v, w) && v <= v' && w' <= w
    ensures Same(mem, mem', v', w')
  {
  }

  lemma SameTwice(mem: seq<Byte>, m1: seq<Byte>, m2: seq<Byte>, v: nat, w: nat)
    requires Same(mem, m1, v, w) && Same(m1, m2, v, w)
    ensures Same(mem, m2, v, w)
  {
  }

  lemma PartKept(mem: seq<Byte>, mem': seq<Byte>, v: nat, w: nat, x: nat, n: nat)
    requires Same(mem, mem', v, w) && v <= x && x + n <= w
    ensures Part(mem', x, n) == Part(mem, x, n)
  {
    SameWithin(mem, mem', v, w, x, x + n);
    PartSame(mem, mem', x, n);
  }

  // ---------------------------------------------------------------------------
  // The memory at every store of a byte

  /** Each new snapshot differs from `mem` at the `n` places from `p` on at most. */
  ghost predicate SnapsOutside(snaps0: seq<seq<Byte>>, snaps: seq<seq<Byte>>, mem: seq<Byte>, p: nat, n: nat) {
    && snaps0 <= snaps
    && forall j {:trigger snaps[j]} :: |snaps0| <= j < |snaps| ==> Outside(mem, snaps[j], p, n)
  }

  ghost predicate Outside(mem: seq<Byte>, mem': seq<Byte>, p: nat, n: nat) {
    |mem'| == |mem| && forall i :: 0 <= i < |mem| && !(p <= i < p + n) ==> mem'[i] == mem[i]
  }

  /** In each new snapshot the bytes from `v` to `w` are as in `mem`. */
  ghost predicate SnapsKeep(snaps0: seq<seq<Byte>>, snaps: seq<seq<Byte>>, mem: seq<Byte>, v: nat, w: nat) {
    && snaps0 <= snaps
    && forall j {:trigger snaps[j]} :: |snaps0| <= j < |snaps| ==> Same(mem, snaps[j], v, w)
  }

  lemma SnapsWithin(snaps0: seq<seq<Byte>>, snaps: seq<seq<Byte>>, mem: seq<Byte>, v: nat, w: nat, v': nat, w': nat)
    requires SnapsKeep(snaps0, snaps, mem, v, w) && v <= v' && w' <= w
    ensures SnapsKeep(snaps0, snaps, mem, v', w')
  {
    forall j | |snaps0| <= j < |snaps| ensures Same(mem, snaps[j], v', w') { SameWithin(mem, snaps[j], v, w, v', w'); }
  }

  /** Snapshots of two stores one after the other. */
  lemma SnapsTwice(snaps0: seq<seq<Byte>>, snaps1: seq<seq<Byte>>, snaps: seq<seq<Byte>>, mem: seq<Byte>,
                   mem1: seq<Byte>, v: nat, w: nat)
    requires SnapsKeep(snaps0, snaps1, mem, v, w) && Same(mem, mem1, v, w) && SnapsKeep(snaps1, snaps, mem1, v, w)
    ensures SnapsKeep(snaps0, snaps, mem, v, w)
  {
    forall j | |snaps0| <= j < |snaps| ensures Same(mem, snaps[j], v, w) {
      if j >= |snaps1| { SameTwice(mem, mem1, snaps[j], v, w); } else { assert snaps[j] == snaps1[j]; }
    }
  }

  lemma SnapsAt(snaps0: seq<seq<Byte>>, snaps: seq<seq<Byte>>, mem: seq<Byte>, v: nat, p: nat, n: nat)
    requires 0 < |mem| <= v && p == Phys(|mem|, v) && p + n <= |mem| && SnapsOutside(snaps0, snaps, mem, p, n)
    ensures SnapsKeep(snaps0, snaps, mem, v + n - |mem|, v)
  {
    forall j | |snaps0| <= j < |snaps| ensures Same(mem, snaps[j], v + n - |mem|, v) {
      OutsideSame(mem, snaps[j], v, p, n);
    }
  }

  lemma OutsideSame(mem: seq<Byte>, mem': seq<Byte>, v: nat, p: nat, n: nat)
    requires 0 < |mem| <= v && p == Phys(|mem|, v) && p + n <= |mem| && Outside(mem, mem', p, n)
    ensures Same(mem, mem', v + n - |mem|, v)
  {
    forall x | v + n - |mem| <= x < v ensures ByteAt(mem', x) == ByteAt(mem, x) { AwayFrom(|mem|, v, n, x); }
  }

  lemma SnapsInOne(snaps0: seq<seq<Byte>>, snaps: seq<seq<Byte>>, mem: seq<Byte>, v: nat, p: nat, n: nat)
    requires 0 < |mem| <= v && p == Phys(|mem|, v) + NODE_HEAD && p + n <= |mem|
    requires SnapsOutside(snaps0, snaps, mem, p, n)
    ensures SnapsKeep(snaps0, snaps, mem, v + NODE_HEAD + n - |mem|, v + NODE_HEAD)
  {
    if n == 0 {
      forall j | |snaps0| <= j < |snaps| ensures snaps[j] == mem { assert Outside(mem, snaps[j], p, 0); }
    } else {
      PhysPlus(|mem|, v, NODE_HEAD);
      SnapsAt(snaps0, snaps, mem, v + NODE_HEAD, p, n);
    }
  }

  lemma SnapsInTwo(snaps0: seq<seq<Byte>>, snaps1: seq<seq<Byte>>, snaps: seq<seq<Byte>>, mem: seq<Byte>,
                   mem1: seq<Byte>,
                   v: nat, p: nat, n: nat, k: nat)
    requires 0 < |mem| <= v && |mem1| == |mem| && k <= n <= |mem| && p == Phys(|mem|, v) + NODE_HEAD && p + k == |mem|
    requires SnapsOutside(snaps0, snaps1, mem, p, k) && Outside(mem, mem1, p, k)
    requires SnapsOutside(snaps1, snaps, mem1, 0, n - k)
    ensures SnapsKeep(snaps0, snaps, mem, v + NODE_HEAD + n - |mem|, v + NODE_HEAD)
  {
    var w := v + NODE_HEAD;
    SnapsInOne(snaps0, snaps1, mem, v, p, k);
    SnapsWithin(snaps0, snaps1, mem, w + k - |mem|, w, w + n - |mem|, w);
    PartBefore(mem, mem1, v, p, k);
    SameWithin(mem, mem1, w + k - |mem|, w, w + n - |mem|, w);
    EndOfBuffer(|mem|, v, NODE_HEAD + k, w + k);
    SnapsAt(snaps1, snaps, mem1, w + k, 0, n - k);
    SnapsWithin(snaps1, snaps, mem1, w + k + (n - k) - |mem|, w + k, w + n - |mem|, w);
    SnapsTwice(snaps0, snaps1, snaps, mem, mem1, w + n - |mem|, w);
  }

  lemma PartBefore(mem: seq<Byte>, mem1: seq<Byte>, v: nat, p: nat, k: nat)
    requires 0 < |mem| <= v && p == Phys(|mem|, v) + NODE_HEAD && p + k == |mem| && Outside(mem, mem1, p, k)
    ensures Same(mem, mem1, v + NODE_HEAD + k - |mem|, v + NODE_HEAD)
  {
    if k == 0 {
      assert mem1 == mem;
    } else {
      PhysPlus(|mem|, v, NODE_HEAD);
      OutsideSame(mem, mem1, v + NODE_HEAD, p, k);
    }
  }

  /** Snapshots of the stores of a node: head, data, tail. */
  lemma NodeSnaps(snaps0: seq<seq<Byte>>, snaps1: seq<seq<Byte>>, snaps2: seq<seq<Byte>>, snaps: seq<seq<Byte>>,
                  mem: seq<Byte>, m1: seq<Byte>, m2: seq<Byte>, v: nat, n: nat)
    requires 0 < |mem| <= v && NodeSize(n) <= |mem| == |m1| == |m2| && TailOffset(n) + NODE_TAIL == NodeSize(n)
    requires SnapsKeep(snaps0, snaps1, mem, v + NODE_HEAD - |mem|, v) && Same(mem, m1, v + NODE_HEAD - |mem|, v)
    requires SnapsKeep(snaps1, snaps2, m1, v + NODE_HEAD + n - |mem|, v + NODE_HEAD)
    requires Same(m1, m2, v + NODE_HEAD + n - |mem|, v + NODE_HEAD)
    requires SnapsKeep(snaps2, snaps, m2, v + TailOffset(n) + NODE_TAIL - |mem|, v + TailOffset(n))
    ensures SnapsKeep(snaps0, snaps, mem, v + NodeSize(n) - |mem|, v)
  {
    var low := v + NodeSize(n) - |mem|;
    SnapsWithin(snaps0, snaps1, mem, v + NODE_HEAD - |mem|, v, low, v);
    SnapsWithin(snaps1, snaps2, m1, v + NODE_HEAD + n - |mem|, v + NODE_HEAD, low, v);
    SnapsWithin(snaps2, snaps, m2, low, v + TailOffset(n), low, v);
    SameWithin(mem, m1, v + NODE_HEAD - |mem|, v, low, v);
    SameWithin(m1, m2, v + NODE_HEAD + n - |mem|, v + NODE_HEAD, low, v);
    SnapsTwice(snaps0, snaps1, snaps2, mem, m1, low, v);
    SameTwice(mem, m1, m2, low, v);
    SnapsTwice(snaps0, snaps2, snaps, mem, m2, low, v);
  }

  lemma NothingStored(mem: seq<Byte>, v: nat)
    requires 0 < |mem| <= v
    ensures StoredAt(mem, mem, v, [])
  {
  }

  lemma StoredInOne(mem: seq<Byte>, v: nat, p: nat, data: seq<Byte>, mem': seq<Byte>)
    requires 0 < |mem| <= v && p == Phys(|mem|, v) + NODE_HEAD && Wrote(mem, p, data, mem')
    ensures StoredAt(mem, mem', v + NODE_HEAD, data)
  {
    if |data| == 0 {
      assert mem' == mem && data == [];
      NothingStored(mem, v + NODE_HEAD);
    } else {
      PhysPlus(|mem|, v, NODE_HEAD);
      WroteStores(mem, v + NODE_HEAD, p, data, mem');
    }
  }

  lemma EndOfBuffer(size: nat, v: nat, k: nat, w: nat)
    requires 0 < size && Phys(size, v) + k == size && w == v + k
    ensures Phys(size, w) == 0
  {
    PhysAdd(size, v, k);
  }

  lemma StoredInTwo(mem: seq<Byte>, v: nat, p: nat, a: seq<Byte>, b: seq<Byte>, mem1: seq<Byte>, mem2: seq<Byte>)
    requires 0 < |mem| <= v && |a| + |b| <= |mem| && p == Phys(|mem|, v) + NODE_HEAD && p + |a| == |mem|
    requires Wrote(mem, p, a, mem1) && Wrote(mem1, 0, b, mem2)
    ensures StoredAt(mem, mem2, v + NODE_HEAD, a + b)
  {
    var w := v + NODE_HEAD;
    StoredInOne(mem, v, p, a, mem1);
    EndOfBuffer(|mem|, v, NODE_HEAD + |a|, w + |a|);
    StoredOn(mem, w, a, b, mem1, mem2);
  }

  /** The second store begins at the start of the buffer. */
  lemma StoredOn(mem: seq<Byte>, w: nat, a: seq<Byte>, b: seq<Byte>, mem1: seq<Byte>, mem2: seq<Byte>)
    requires StoredAt(mem, mem1, w, a) && Wrote(mem1, 0, b, mem2) && |a| + |b| <= |mem|
    requires Phys(|mem|, w + |a|) == 0
    ensures StoredAt(mem, mem2, w, a + b)
  {
    WroteStores(mem1, w + |a|, 0, b, mem2);
    StoredTwice(mem, mem1, mem2, w, a, b);
  }

  lemma PartPrefix(mem: seq<Byte>, v: nat, n: nat, c: nat)
    requires mem != [] && c <= n
    ensures Part(mem, v, c) == Part(mem, v, n)[..c]
  {
  }

  /** The tail position that Push computes is the place of the next node's address. */
  lemma NextPlace(size: nat, v: nat, len: nat)
    requires 24 <= size && size % 8 == 0 && v % 8 == 0 && NodeSize(len) <= size
    ensures var next, p := NextStart(size, v, len), PosAdd(size, Phys(size, v), NodeSize(len));
            && v + NodeSize(len) <= next && Phys(size, next) == (if p + NODE_HEAD > size then 0 else p)
  {
    NextPlaced(size, v, len);
    PhysAdd(size, v, NodeSize(len));
  }

  /** Places fit in 32 bits once they are divided by 8. */
  lemma SlotHoldsPos(pos: nat)
    requires pos % 8 == 0 && pos < 0x8_0000_0000
    ensures ((pos / 8) % U32) * 8 == pos
  {
    assert pos / 8 < U32;
  }

  /** The node tail is never split, as its place is a multiple of 8. */
  lemma TailPlaced(size: nat, v: nat, k: nat)
    requires 0 < size && size % 8 == 0 && v % 8 == 0 && k % 8 == 0 && k <= size
    ensures PosAdd(size, Phys(size, v), k) == Phys(size, v + k)
    ensures Phys(size, v + k) + NODE_TAIL <= size && Phys(size, v + k) % 8 == 0
  {
    PhysAdd(size, v, k);
    Mod8(v, k);
    PhysAligned(size, v + k);
    Gap8(Phys(size, v + k), size);
  }

  lemma TailOffsetAligned(len: nat)
    ensures TailOffset(len) % 8 == 0 && TailOffset(len) + NODE_TAIL == NodeSize(len)
  {
    Mod8(RoundAlign(len, 8), NODE_HEAD);
  }

  /** What is found at the tail of a live node. */
  lemma TailSeen(mem: seq<Byte>, index: seq<nat>, nextSeq: nat, g: Log, i: nat, p: nat)
    requires SyncOk(mem, index, nextSeq, g) && i < |g.live|
    requires p == PosAdd(|mem|, Phys(|mem|, g.at[i]), TailOffset(|g.live[i].data|))
    ensures ValidPos(|mem|, Phys(|mem|, g.Start(0)), Phys(|mem|, g.end), p)
    ensures p % 8 == 0 && p + NODE_TAIL <= |mem| && TailSays(mem[p..p + NODE_TAIL], |g.live[i].data|)
  {
    TailIsAccepted(mem, index, nextSeq, g, i, p);
    LiveTail(mem, index, nextSeq, g, i, p);
  }

  lemma TailIsAccepted(mem: seq<Byte>, index: seq<nat>, nextSeq: nat, g: Log, i: nat, p: nat)
    requires SyncOk(mem, index, nextSeq, g) && i < |g.live|
    requires p == PosAdd(|mem|, Phys(|mem|, g.at[i]), TailOffset(|g.live[i].data|))
    ensures ValidPos(|mem|, Phys(|mem|, g.Start(0)), Phys(|mem|, g.end), p)
    ensures p % 8 == 0 && p + NODE_TAIL <= |mem| && p == Phys(|mem|, g.at[i] + TailOffset(|g.live[i].data|))
  {
    assert Placed(|mem|, g.at[i]) by { assert LiveOk(mem, index, nextSeq, g, i); }
    LiveAddress(mem, index, nextSeq, g, i);
    TailAccepted(mem, index, nextSeq, g, g.at[i], |g.live[i].data|);
  }

  lemma LiveTail(mem: seq<Byte>, index: seq<nat>, nextSeq: nat, g: Log, i: nat, p: nat)
    requires SyncOk(mem, index, nextSeq, g) && i < |g.live| && p + NODE_TAIL <= |mem|
    requires p == Phys(|mem|, g.at[i] + TailOffset(|g.live[i].data|))
    ensures TailSays(mem[p..p + NODE_TAIL], |g.live[i].data|)
  {
    assert LiveOk(mem, index, nextSeq, g, i);
    TailBytes(mem, g.at[i], p, g.live[i]);
  }

  lemma TailAccepted(mem: seq<Byte>, index: seq<nat>, nextSeq: nat, g: Log, v: nat, len: nat)
    requires SyncOk(mem, index, nextSeq, g) && Placed(|mem|, v) && g.Start(0) <= v && v + NodeSize(len) <= g.end
    ensures var tail := Phys(|mem|, v + TailOffset(len));
            && tail == PosAdd(|mem|, Phys(|mem|, v), TailOffset(len))
            && ValidPos(|mem|, Phys(|mem|, g.Start(0)), Phys(|mem|, g.end), tail)
            && tail % 8 == 0 && tail + NODE_TAIL <= |mem|
  {
    TailOffsetAligned(len);
    TailPlaced(|mem|, v, TailOffset(len));
    ValidPosIsWindow(mem, index, nextSeq, g, v + TailOffset(len));
  }

  lemma TailBytes(mem: seq<Byte>, v: nat, p: nat, e: Entry)
    requires NodeAt(mem, v, e) && p == Phys(|mem|, v + TailOffset(|e.data|)) && p + NODE_TAIL <= |mem|
    ensures TailSays(mem[p..p + NODE_TAIL], |e.data|)
  {
    PartInOne(mem, v + TailOffset(|e.data|), NODE_TAIL);
    TailFields(Part(mem, v + TailOffset(|e.data|), NODE_TAIL), |e.data|);
  }

  /** What is found at the head of a live node. */
  lemma HeadSeen(mem: seq<Byte>, index: seq<nat>, nextSeq: nat, g: Log, i: nat)
    requires SyncOk(mem, index, nextSeq, g) && i < |g.live|
    ensures var pos := Phys(|mem|, g.at[i]);
            && ValidPos(|mem|, Phys(|mem|, g.Start(0)), Phys(|mem|, g.end), pos)
            && pos % 8 == 0 && pos + NODE_HEAD <= |mem| && |g.live[i].data| < U32
            && HeadSays(mem[pos..pos + NODE_HEAD], g.live[i])
  {
    assert LiveOk(mem, index, nextSeq, g, i);
    HeadPlace(mem, index, nextSeq, g, i);
    HeadBytes(mem, g.at[i], g.live[i]);
  }

  lemma HeadPlace(mem: seq<Byte>, index: seq<nat>, nextSeq: nat, g: Log, i: nat)
    requires SyncOk(mem, index, nextSeq, g) && i < |g.live|
    ensures ValidPos(|mem|, Phys(|mem|, g.Start(0)), Phys(|mem|, g.end), Phys(|mem|, g.at[i]))
  {
    LiveAddress(mem, index, nextSeq, g, i);
    ValidPosIsWindow(mem, index, nextSeq, g, g.at[i]);
  }

  lemma HeadBytes(mem: seq<Byte>, v: nat, e: Entry)
    requires |mem| > 0 && |mem| % 8 == 0 && Placed(|mem|, v) && NodeAt(mem, v, e)
    ensures var pos := Phys(|mem|, v);
            pos % 8 == 0 && pos + NODE_HEAD <= |mem| && |e.data| < U32 && HeadSays(mem[pos..pos + NODE_HEAD], e)
  {
    PhysAligned(|mem|, v);
    PartInOne(mem, v, NODE_HEAD);
    FieldsSay(Part(mem, v, NODE_HEAD), e);
  }

  lemma FieldsSay(h: seq<Byte>, e: Entry)
    requires HeadOk(h, e) && |e.data| < U32 && e.seqNo < U64 && e.sec < U32 && e.usec < U32
    ensures HeadSays(h, e)
  {
    HeadFields(h, e);
  }

  ghost predicate TailSays(t: seq<Byte>, len: nat) {
    |t| == NODE_TAIL && Val(t[0..2]) == END_TAG && Val(t[4..8]) == len
  }

  ghost predicate HeadSays(h: seq<Byte>, e: Entry) {
    && |h| == NODE_HEAD
    && Val(h[0..2]) == START_TAG && Val(h[4..8]) == |e.data| && Val(h[8..16]) == e.seqNo
    && Val(h[16..20]) == e.sec && Val(h[20..24]) == e.usec
  }

  /** The bytes from the first address that IsValidPos accepts up to the tail are the same. */
  ghost predicate SameBand(mem: seq<Byte>, mem': seq<Byte>, g: Log) {
    && |mem'| == |mem| > 0
    && forall v: nat {:trigger ByteAt(mem', v)} :: Low(|mem|, g) <= v < g.end ==> ByteAt(mem', v) == ByteAt(mem, v)
  }

  lemma BandStays(mem: seq<Byte>, index: seq<nat>, nextSeq: nat, g: Log, mem': seq<Byte>, end: nat)
    requires SyncOk(mem, index, nextSeq, g) && |mem| <= end && end - g.end <= 12288
    requires Same(mem, mem', end - |mem|, g.end)
    ensures SameBand(mem, mem', g)
  {
    forall v: nat | Low(|mem|, g) <= v < g.end ensures ByteAt(mem', v) == ByteAt(mem, v) {
      BandIsLong(mem, index, nextSeq, g, v, end);
    }
  }

  /** A push after others that began at address `end`. */
  lemma OnePush(snaps0: seq<seq<Byte>>, snaps1: seq<seq<Byte>>, snaps: seq<seq<Byte>>,
                mem: seq<Byte>, mem1: seq<Byte>, mem2: seq<Byte>, end: nat, end1: nat, end2: nat)
    requires |mem| <= end <= end1 <= end2
    requires Same(mem, mem1, end1 - |mem|, end) && SnapsKeep(snaps0, snaps1, mem, end1 - |mem|, end)
    requires Same(mem1, mem2, end2 - |mem|, end1) && SnapsKeep(snaps1, snaps, mem1, end2 - |mem|, end1)
    ensures Same(mem, mem2, end2 - |mem|, end) && SnapsKeep(snaps0, snaps, mem, end2 - |mem|, end)
  {
    var low := end2 - |mem|;
    SameWithin(mem, mem1, end1 - |mem|, end, low, end);
    SameWithin(mem1, mem2, low, end1, low, end);
    SameTwice(mem, mem1, mem2, low, end);
    SnapsWithin(snaps0, snaps1, mem, end1 - |mem|, end, low, end);
    SnapsWithin(snaps1, snaps, mem1, low, end1, low, end);
    SnapsTwice(snaps0, snaps1, snaps, mem, mem1, low, end);
  }

  // ---------------------------------------------------------------------------
  // A read whose loads are spread over time

  /** What Read returns. */
  datatype Outcome = Outcome(r: int, meta: Meta, out: seq<Byte>, len: nat)

  /** A field of a node head or tail of `n` bytes. */
  ghost function FieldOf(mem: seq<Byte>, pos: nat, n: nat, a: nat, b: nat): nat
    requires a <= b <= n && pos + n <= |mem|
  {
    Val(mem[pos..pos + n][a..b])
  }

  /**
   * Read as a function of its loads: `mem(k)` is the memory at the `k`-th one, and `valid` the result
   * of IsValidPos for a place at the time it is checked.  Data bytes are loaded one by one.
   */
  ghost function Loaded(size: nat, tail: nat, nextSeq: nat, pos: nat, space: nat,
                        mem: nat -> seq<Byte>, valid: nat -> bool): Outcome
    requires forall k :: |mem(k)| == size
  {
    var none := Outcome(-1, Meta(nextSeq, 0, 0), [], 0);
    if pos == tail then none.(r := 0)
    else if !(valid(pos) && pos % 8 == 0 && pos + NODE_HEAD <= size) then none
    else if FieldOf(mem(0), pos, NODE_HEAD, 0, 2) != START_TAG then none
    else
      var n := FieldOf(mem(1), pos, NODE_HEAD, 4, 8);
      if NodeSize(n) > PosOff(size, tail, pos) then none
      else
        var meta := Meta(FieldOf(mem(2), pos, NODE_HEAD, 8, 16), FieldOf(mem(3), pos, NODE_HEAD, 16, 20),
                         FieldOf(mem(4), pos, NODE_HEAD, 20, 24));
        if space == 0 then Outcome(1, meta, [], n)
        else LoadedRest(size, pos, n, space, meta, mem, valid)
  }

  /** Read behind the head: the tail, then the data. */
  ghost function LoadedRest(size: nat, pos: nat, n: nat, space: nat, meta: Meta,
                            mem: nat -> seq<Byte>, valid: nat -> bool): Outcome
    requires forall k :: |mem(k)| == size
  {
    var t := PosAdd(size, pos, TailOffset(n));
    if !(valid(t) && t % 8 == 0 && t + NODE_TAIL <= size) then Outcome(-1, meta, [], n)
    else if FieldOf(mem(5), t, NODE_TAIL, 0, 2) != END_TAG || FieldOf(mem(6), t, NODE_TAIL, 4, 8) != n then
      Outcome(-1, meta, [], n)
    else Outcome(1, meta, LoadedData(size, pos, Min(n, space), mem), Min(n, space))
  }

  /** The payload bytes behind a node head, over the end of the buffer. */
  ghost function LoadedData(size: nat, pos: nat, n: nat, mem: nat -> seq<Byte>): seq<Byte>
    requires forall k :: |mem(k)| == size
  {
    seq<Byte>(n, j requires 0 <= j < n => LoadedByte(mem(7 + j), pos, j))
  }

  ghost function LoadedByte(mem: seq<Byte>, pos: nat, j: nat): Byte {
    var p := PosAdd(|mem|, pos, NODE_HEAD + j);
    if p < |mem| then mem[p] else 0
  }

  /** The loaded payload of a node at address `v` if its bytes are as in `mem0` whenever they are loaded. */
  lemma LoadedPart(mem0: seq<Byte>, v: nat, n: nat, mem: nat -> seq<Byte>)
    requires mem0 != [] && NODE_HEAD + n <= |mem0| && forall k :: |mem(k)| == |mem0|
    requires forall k :: Same(mem0, mem(k), v, v + NODE_HEAD + n)
    ensures LoadedData(|mem0|, Phys(|mem0|, v), n, mem) == Part(mem0, v + NODE_HEAD, n)
  {
    var loaded := LoadedData(|mem0|, Phys(|mem0|, v), n, mem);
    forall j | 0 <= j < n ensures loaded[j] == Part(mem0, v + NODE_HEAD, n)[j] {
      assert Same(mem0, mem(7 + j), v, v + NODE_HEAD + n);
      SameByte(mem0, mem(7 + j), v, v + NODE_HEAD + n, j);
    }
  }

  lemma SameByte(mem0: seq<Byte>, mem: seq<Byte>, v: nat, w: nat, j: nat)
    requires Same(mem0, mem, v, w) && v + NODE_HEAD + j < w && NODE_HEAD + j <= |mem0|
    ensures LoadedByte(mem, Phys(|mem0|, v), j) == ByteAt(mem0, v + NODE_HEAD + j)
  {
    PhysAdd(|mem0|, v, NODE_HEAD + j);
    assert ByteAt(mem, v + NODE_HEAD + j) == ByteAt(mem0, v + NODE_HEAD + j);
  }

  lemma SameSlice(mem0: seq<Byte>, mem: seq<Byte>, v: nat, n: nat)
    requires Same(mem0, mem, v, v + n) && Phys(|mem0|, v) + n <= |mem0|
    ensures var p := Phys(|mem0|, v); mem[p..p + n] == mem0[p..p + n]
  {
    PartInOne(mem0, v, n);
    PartInOne(mem, v, n);
    PartSame(mem0, mem, v, n);
  }

  ghost predicate HeadLoaded(mem: seq<Byte>, p: nat, e: Entry) {
    p % 8 == 0 && p + NODE_HEAD <= |mem| && HeadSays(mem[p..p + NODE_HEAD], e)
  }

  ghost predicate TailLoaded(mem: seq<Byte>, t: nat, len: nat) {
    t % 8 == 0 && t + NODE_TAIL <= |mem| && TailSays(mem[t..t + NODE_TAIL], len)
  }

  /** The head of a live node, as it is loaded later. */
  lemma HeadStays(mem0: seq<Byte>, index: seq<nat>, nextSeq: nat, g: Log, i: nat, mem: seq<Byte>)
    requires SyncOk(mem0, index, nextSeq, g) && i < |g.live| && SameBand(mem0, mem, g)
    ensures HeadLoaded(mem, Phys(|mem0|, g.at[i]), g.live[i])
  {
    NodeInBand(mem0, index, nextSeq, g, i, mem);
    HeadSeen(mem0, index, nextSeq, g, i);
    SameSlice(mem0, mem, g.at[i], NODE_HEAD);
  }

  /** Its tail. */
  lemma TailStays(mem0: seq<Byte>, index: seq<nat>, nextSeq: nat, g: Log, i: nat, mem: seq<Byte>, t: nat)
    requires SyncOk(mem0, index, nextSeq, g) && i < |g.live| && SameBand(mem0, mem, g)
    requires t == PosAdd(|mem0|, Phys(|mem0|, g.at[i]), TailOffset(|g.live[i].data|))
    ensures TailLoaded(mem, t, |g.live[i].data|)
  {
    NodeInBand(mem0, index, nextSeq, g, i, mem);
    TailSeen(mem0, index, nextSeq, g, i, t);
    TailIsAccepted(mem0, index, nextSeq, g, i, t);
    SameSlice(mem0, mem, g.at[i] + TailOffset(|g.live[i].data|), NODE_TAIL);
  }

  /** Its data. */
  lemma DataStays(mem0: seq<Byte>, index: seq<nat>, nextSeq: nat, g: Log, i: nat, mem: nat -> seq<Byte>, n: nat)
    requires SyncOk(mem0, index, nextSeq, g) && i < |g.live| && n <= |g.live[i].data|
    requires forall k :: |mem(k)| == |mem0| && SameBand(mem0, mem(k), g)
    ensures LoadedData(|mem0|, Phys(|mem0|, g.at[i]), n, mem) == g.live[i].data[..n]
  {
    var e := g.live[i];
    NodeInBand(mem0, index, nextSeq, g, i, mem(0));
    forall k: nat ensures Same(mem0, mem(k), g.at[i], g.at[i] + NODE_HEAD + n) {
      NodeInBand(mem0, index, nextSeq, g, i, mem(k));
      SameWithin(mem0, mem(k), g.at[i], g.at[i] + NODE_HEAD + |e.data|, g.at[i], g.at[i] + NODE_HEAD + n);
    }
    LoadedPart(mem0, g.at[i], n, mem);
    LiveData(mem0, index, nextSeq, g, i);
    PartPrefix(mem0, g.at[i] + NODE_HEAD, |e.data|, n);
  }

  lemma LiveData(mem: seq<Byte>, index: seq<nat>, nextSeq: nat, g: Log, i: nat)
    requires SyncOk(mem, index, nextSeq, g) && i < |g.live|
    ensures Part(mem, g.at[i] + NODE_HEAD, |g.live[i].data|) == g.live[i].data
  {
    assert LiveOk(mem, index, nextSeq, g, i);
  }

  /** The bytes of a live node lie in the band. */
  lemma NodeInBand(mem0: seq<Byte>, index: seq<nat>, nextSeq: nat, g: Log, i: nat, mem: seq<Byte>)
    requires SyncOk(mem0, index, nextSeq, g) && i < |g.live| && SameBand(mem0, mem, g)
    ensures var v, n := g.at[i], |g.live[i].data|;
            && Same(mem0, mem, v, v + NODE_HEAD) && Same(mem0, mem, v, v + NODE_HEAD + n)
            && Same(mem0, mem, v + TailOffset(n), v + TailOffset(n) + NODE_TAIL)
            && NODE_HEAD + n <= |mem0|
  {
    LiveAddress(mem0, index, nextSeq, g, i);
    TailOffsetAligned(|g.live[i].data|);
  }

  /** The place of a live node is not the tail, and its size is in front of the tail. */
  lemma TailAhead(mem0: seq<Byte>, index: seq<nat>, nextSeq: nat, g: Log, i: nat, v: nat)
    requires SyncOk(mem0, index, nextSeq, g) && i < |g.live| && g.end <= v <= g.end + 12288
    ensures var size := |mem0|; var pos, tail := Phys(size, g.at[i]), Phys(size, v);
            pos != tail && NodeSize(|g.live[i].data|) <= PosOff(size, tail, pos)
  {
    StartsGrow(mem0, index, nextSeq, g, 0, i);
    LiveAddress(mem0, index, nextSeq, g, i);
    PhysOff(|mem0|, g.at[i], v);
    PhysDistinct(|mem0|, g.at[i], v);
  }

  /** `mem(k)` is the memory at the start or after one of the stores since. */
  ghost predicate During(mem0: seq<Byte>, snaps0: seq<seq<Byte>>, snaps: seq<seq<Byte>>, mem: nat -> seq<Byte>) {
    forall k :: |mem(k)| == |mem0| && (mem(k) == mem0 || exists j :: |snaps0| <= j < |snaps| && mem(k) == snaps[j])
  }

  /** A read of the node `e` at address `a`, with the tail at `v`, fails in IsValidPos or yields the node. */
  ghost predicate ReadsNode(size: nat, v: nat, nextSeq: nat, a: nat, e: Entry, space: nat,
                            mem: nat -> seq<Byte>, valid: nat -> bool)
    requires size > 0 && forall k :: |mem(k)| == size
  {
    var pos := Phys(size, a);
    var x := Loaded(size, Phys(size, v), nextSeq, pos, space, mem, valid);
    && x.r == (if valid(pos) && (space == 0 || valid(PosAdd(size, pos, TailOffset(|e.data|)))) then 1 else -1)
    && (x.r == 1 ==>
          && x.meta == Meta(e.seqNo, e.sec, e.usec) && x.out == e.data[..Min(space, |e.data|)]
          && x.len == if space == 0 then |e.data| else |x.out|)
  }

  /**
   * A read that is spread over any number of pushes: if these consume at most 12288 bytes of ring
   * after the moment of `g`, a node that was live then is read as it was, byte for byte, whenever
   * IsValidPos accepts its two places; and otherwise the read fails.  `v` is the address of the tail
   * when the read loads it.
   */
  lemma SplitReadIsExact(mem0: seq<Byte>, index: seq<nat>, seq0: nat, g: Log, i: nat, v: nat, nextSeq: nat, space: nat,
                         mem: nat -> seq<Byte>, valid: nat -> bool)
    requires SyncOk(mem0, index, seq0, g) && i < |g.live| && g.end <= v <= g.end + 12288
    requires forall k :: |mem(k)| == |mem0| && SameBand(mem0, mem(k), g)
    ensures ReadsNode(|mem0|, v, nextSeq, g.at[i], g.live[i], space, mem, valid)
  {
    var size, e := |mem0|, g.live[i];
    var pos := Phys(size, g.at[i]);
    var t := PosAdd(size, pos, TailOffset(|e.data|));
    TailAhead(mem0, index, seq0, g, i, v);
    forall k: nat ensures HeadLoaded(mem(k), pos, e) { HeadStays(mem0, index, seq0, g, i, mem(k)); }
    forall k: nat ensures TailLoaded(mem(k), t, |e.data|) { TailStays(mem0, index, seq0, g, i, mem(k), t); }
    DataStays(mem0, index, seq0, g, i, mem, Min(|e.data|, space));
    LoadsMakeNode(size, v, nextSeq, g.at[i], e, space, mem, valid);
  }

  /** Read makes the node of what it loads. */
  lemma LoadsMakeNode(size: nat, v: nat, nextSeq: nat, a: nat, e: Entry, space: nat,
                      mem: nat -> seq<Byte>, valid: nat -> bool)
    requires size > 0 && forall k :: |mem(k)| == size
    requires var pos, tail := Phys(size, a), Phys(size, v);
             pos != tail && NodeSize(|e.data|) <= PosOff(size, tail, pos)
    requires forall k :: HeadLoaded(mem(k), Phys(size, a), e)
    requires forall k :: TailLoaded(mem(k), PosAdd(size, Phys(size, a), TailOffset(|e.data|)), |e.data|)
    requires LoadedData(size, Phys(size, a), Min(|e.data|, space), mem) == e.data[..Min(|e.data|, space)]
    ensures ReadsNode(size, v, nextSeq, a, e, space, mem, valid)
  {
    var pos := Phys(size, a);
    var t := PosAdd(size, pos, TailOffset(|e.data|));
    assert HeadLoaded(mem(0), pos, e) && HeadLoaded(mem(1), pos, e) && HeadLoaded(mem(2), pos, e);
    assert HeadLoaded(mem(3), pos, e) && HeadLoaded(mem(4), pos, e);
    TailMakesNode(size, pos, t, e, space, Meta(e.seqNo, e.sec, e.usec), mem, valid);
  }

  lemma TailMakesNode(size: nat, pos: nat, t: nat, e: Entry, space: nat, meta: Meta,
                      mem: nat -> seq<Byte>, valid: nat -> bool)
    requires (forall k :: |mem(k)| == size) && t == PosAdd(size, pos, TailOffset(|e.data|))
    requires TailLoaded(mem(5), t, |e.data|) && TailLoaded(mem(6), t, |e.data|)
    requires LoadedData(size, pos, Min(|e.data|, space), mem) == e.data[..Min(|e.data|, space)]
    ensures LoadedRest(size, pos, |e.data|, space, meta, mem, valid) ==
            if valid(t) then Outcome(1, meta, e.data[..Min(|e.data|, space)], Min(|e.data|, space))
            else Outcome(-1, meta, [], |e.data|)
  {
  }

  class ShmSyncBuf {
    const buf: array<Byte>
    const index: array<nat>
    var headPos: nat
    var tailPos: nat
    var nextSeq: nat
    ghost var log: Log
    /** The memory after every store of a byte so far. */
    ghost var snaps: seq<seq<Byte>>

    ghost predicate Valid()
      reads this, buf, index
    {
      && SyncOk(buf[..], index[..], nextSeq, log)
      && headPos == Phys(buf.Length, log.Start(0)) && tailPos == Phys(buf.Length, log.end)
    }

    /** The place of a live node. */
    ghost predicate At(pos: nat, i: nat)
      reads this
    {
      i < |log.at| && buf.Length > 0 && pos == Phys(buf.Length, log.at[i])
    }

    constructor (bufSize: nat, startSeq: nat)
      requires 32768 <= bufSize && RoundAlign(bufSize, 8) <= 0x8_0000_0000 && startSeq < U64
      ensures Valid() && log == Log([], [], buf.Length) && nextSeq == startSeq && fresh(buf) && fresh(index)
      ensures buf.Length == RoundAlign(bufSize, 8) && forall k :: 0 <= k < index.Length ==> index[k] == 0
    {
      var n := RoundAlign(bufSize, 8);
      buf := new Byte[n](_ => 0);
      index := new nat[RoundAlign(n / 32, 2)](_ => 0);
      headPos, tailPos, nextSeq, log, snaps := 0, 0, startSeq, Log([], [], n), [];
      new;
      PhysAdd(n, 0, n);
      assert Placed(n, n);
    }

    // -------------------------------------------------------------------------
    // Node heads

    /** The 2, 4 or 8 bytes of a field. */
    function Field(pos: nat, n: nat): (x: nat)
      requires pos + n <= buf.Length
      reads buf
    {
      Val(buf[pos..pos + n])
    }

    /** GetSyncNodeHead: the place is valid and has a start tag. */
    predicate IsNodeHead(pos: nat)
      reads this, buf
    {
      && ValidPos(buf.Length, headPos, tailPos, pos) && pos % 8 == 0 && pos + NODE_HEAD <= buf.Length
      && Field(pos, 2) == START_TAG
    }

    lemma FieldsOf(i: nat)
      requires Valid() && i < |log.live|
      ensures var pos, e := Phys(buf.Length, log.at[i]), log.live[i];
              && IsNodeHead(pos) && |e.data| < U32
              && Field(pos + 4, 4) == |e.data| && Field(pos + 8, 8) == e.seqNo
              && Field(pos + 16, 4) == e.sec && Field(pos + 20, 4) == e.usec
    {
      var pos := Phys(buf.Length, log.at[i]);
      HeadSeen(buf[..], index[..], nextSeq, log, i);
      FieldIn(pos, 0, 2);
      FieldIn(pos, 4, 8);
      FieldIn(pos, 8, 16);
      FieldIn(pos, 16, 20);
      FieldIn(pos, 20, 24);
    }

    lemma FieldIn(pos: nat, a: nat, b: nat)
      requires a <= b <= NODE_HEAD && pos + NODE_HEAD <= buf.Length
      ensures Field(pos + a, b - a) == Val(buf[..][pos..pos + NODE_HEAD][a..b])
    {
      var h := buf[..][pos..pos + NODE_HEAD];
      assert |h| == NODE_HEAD && forall i :: 0 <= i < NODE_HEAD ==> h[i] == buf[pos + i];
      assert pos + a + (b - a) == pos + b;
      assert buf[pos + a..pos + b] == h[a..b];
    }

    /** Distance to the tail; a live node ends before it. */
    lemma TailDistance(i: nat)
      requires Valid() && i < |log.live|
      ensures var pos, n := Phys(buf.Length, log.at[i]), NodeSize(|log.live[i].data|);
              && pos != tailPos && n <= PosOff(buf.Length, tailPos, pos) == log.end - log.at[i]
              && Phys(buf.Length, log.at[i] + n) == PosAdd(buf.Length, pos, n)
              && Phys(buf.Length, log.Start(i + 1)) ==
                   (if PosAdd(buf.Length, pos, n) + NODE_HEAD > buf.Length then 0 else PosAdd(buf.Length, pos, n))
    {
      var n := NodeSize(|log.live[i].data|);
      LiveAddress(buf[..], index[..], nextSeq, log, i);
      PhysOff(buf.Length, log.at[i], log.end);
      PhysAdd(buf.Length, log.at[i], n);
      assert LiveOk(buf[..], index[..], nextSeq, log, i);
      NextPlaced(buf.Length, log.at[i], |log.live[i].data|);
    }

    /** Moves an iterator to the next node; from a live node it gets to the following one, or to the tail. */
    method Next(pos: nat) returns (ok: bool, next: nat)
      requires Valid()
      ensures forall i: nat :: At(pos, i) ==> ok && next == Phys(buf.Length, log.Start(i + 1))
      ensures pos == tailPos ==> !ok
      ensures !ok ==> next == tailPos
    {
      forall i: nat | At(pos, i)
        ensures IsNodeHead(pos) && pos != tailPos && Field(pos + 4, 4) == |log.live[i].data|
        ensures NodeSize(|log.live[i].data|) <= PosOff(buf.Length, tailPos, pos)
        ensures var p := PosAdd(buf.Length, pos, NodeSize(|log.live[i].data|));
                Phys(buf.Length, log.Start(i + 1)) == (if p + NODE_HEAD > buf.Length then 0 else p)
      {
        FieldsOf(i);
        TailDistance(i);
      }
      if pos == tailPos {
        return false, pos;
      }
      if !IsNodeHead(pos) {
        return false, tailPos;
      }
      var len := Field(pos + 4, 4);
      if NodeSize(len) > PosOff(buf.Length, tailPos, pos) {
        return false, tailPos;
      }
      next := PosAdd(buf.Length, pos, NodeSize(len));
      if next + NODE_HEAD > buf.Length {
        next := 0;
      }
      ok := true;
    }

    /** Following Next from Head visits exactly the live nodes, oldest first, and ends at Tail. */
    method Walk() returns (visited: seq<nat>)
      requires Valid()
      ensures |visited| == |log.live| && forall i :: 0 <= i < |visited| ==> At(visited[i], i)
    {
      visited := [];
      var pos := headPos;
      PhysOff(buf.Length, log.Start(0), log.end);
      while pos != tailPos
        invariant |visited| <= |log.at| && pos == Phys(buf.Length, log.Start(|visited|))
        invariant forall i :: 0 <= i < |visited| ==> At(visited[i], i)
        decreases |log.at| - |visited|
      {
        ghost var k: nat := |visited|;
        visited := visited + [pos];
        var more, next := Next(pos);
        assert At(pos, k);
        pos := next;
      }
      if |visited| < |log.at| { TailDistance(|visited|); }
    }


    // -------------------------------------------------------------------------
    // Push

    /** Moves the head to the next node. */
    method DropOldest() returns (ok: bool)
      requires Valid()
      modifies this`headPos, this`log
      ensures Valid() && (ok <==> old(log).live != [])
      ensures |old(log).at| == |old(log).live| && log == if ok then DropFirst(old(log)) else old(log)
    {
      var pos;
      ok, pos := Next(headPos);
      assert log.at != [] ==> At(headPos, 0);
      if !ok {
        return;
      }
      DropOk(buf[..], index[..], nextSeq, log);
      log := DropFirst(log);
      headPos := pos;
    }

    function FreeSize(): int
      reads this
    {
      buf.Length - 1 - PosOff(buf.Length, tailPos, headPos)
    }

    lemma FreeIsRoom(g: Log, k: nat, n: nat)
      requires Valid() && k <= |g.at| == |g.live| && log == Dropped(g, k)
      ensures FreeSize() >= n + OVERWRITE <==> Room(buf.Length, g, k, n)
    {
      PhysOff(buf.Length, log.Start(0), log.end);
    }

    /** Drops the oldest nodes until there is room, and gives up after MAX_FREE + 1 of them. */
    method MakeRoom(n: nat) returns (ok: bool, ghost dropped: nat)
      requires Valid()
      modifies this`headPos, this`log
      ensures Valid() && dropped <= |old(log).live| == |old(log).at| && log == Dropped(old(log), dropped)
      ensures forall k :: 0 <= k < dropped && k <= MAX_FREE ==> !Room(buf.Length, old(log), k, n)
      ensures ok ==> dropped <= MAX_FREE && Room(buf.Length, old(log), dropped, n)
      ensures !ok ==> dropped == Min(MAX_FREE + 1, |old(log).live|)
      ensures !ok && dropped <= MAX_FREE ==> !Room(buf.Length, old(log), dropped, n)
    {
      ghost var g := log;
      dropped := 0;
      var count := 0;
      assert Dropped(g, 0) == g;
      while FreeSize() < n + OVERWRITE
        invariant Valid() && dropped == count <= MAX_FREE && dropped <= |g.live| == |g.at| && log == Dropped(g, dropped)
        invariant forall k :: 0 <= k < dropped ==> !Room(buf.Length, g, k, n)
        decreases |g.live| - dropped
      {
        FreeIsRoom(g, dropped, n);
        var more := DropOldest();
        if !more {
          return false, dropped;
        }
        assert DropFirst(Dropped(g, dropped)) == Dropped(g, dropped + 1);
        dropped, count := dropped + 1, count + 1;
        if count > MAX_FREE {
          return false, dropped;
        }
      }
      FreeIsRoom(g, dropped, n);
      ok := true;
    }

    method StoreBytes(pos: nat, b: seq<Byte>)
      requires pos + |b| <= buf.Length
      modifies buf, this`snaps
      ensures Wrote(old(buf[..]), pos, b, buf[..])
      ensures SnapsOutside(old(snaps), snaps, old(buf[..]), pos, |b|)
    {
      for i := 0 to |b|
        invariant SnapsOutside(old(snaps), snaps, old(buf[..]), pos, |b|)
        invariant forall k :: 0 <= k < buf.Length ==> buf[k] == if pos <= k < pos + i then b[k - pos] else old(buf[k])
      {
        buf[pos + i] := b[i];
        snaps := snaps + [buf[..]];
      }
    }

    /** The payload, in two parts if it crosses the end of the buffer; neither length is negative. */
    method StoreData(ghost v: nat, pos: nat, data: seq<Byte>)
      requires 0 < buf.Length <= v && buf.Length % 8 == 0 && pos % 8 == 0 && pos == Phys(buf.Length, v)
      requires pos + NODE_HEAD <= buf.Length && NodeSize(|data|) <= buf.Length
      modifies buf, this`snaps
      ensures StoredAt(old(buf[..]), buf[..], v + NODE_HEAD, data)
      ensures SnapsKeep(old(snaps), snaps, old(buf[..]), v + NODE_HEAD + |data| - buf.Length, v + NODE_HEAD)
    {
      ghost var mem, snaps0 := buf[..], snaps;
      if pos + TailOffset(|data|) <= buf.Length {
        StoreBytes(pos + NODE_HEAD, data);
        StoredInOne(mem, v, pos + NODE_HEAD, data, buf[..]);
        SnapsInOne(snaps0, snaps, mem, v, pos + NODE_HEAD, |data|);
      } else {
        var partLen := buf.Length - (pos + NODE_HEAD);
        PartShorter(|data|, partLen, buf.Length, pos);
        StoreBytes(pos + NODE_HEAD, data[..partLen]);
        ghost var mem1, snaps1 := buf[..], snaps;
        StoreBytes(0, data[partLen..]);
        StoredInTwo(mem, v, pos + NODE_HEAD, data[..partLen], data[partLen..], mem1, buf[..]);
        assert data[..partLen] + data[partLen..] == data;
        SnapsInTwo(snaps0, snaps1, snaps, mem, mem1, v, pos + NODE_HEAD, |data|, partLen);
      }
    }

    /** The part of the payload before the end of the buffer is shorter than the payload. */
    lemma PartShorter(len: nat, part: nat, size: nat, pos: nat)
      requires size % 8 == 0 && pos % 8 == 0 && part == size - (pos + NODE_HEAD) && pos + TailOffset(len) > size
      ensures part < len
    {
      assert part % 8 == 0;
      Gap8(part, RoundAlign(len, 8));
    }

    /** Writes the node at the tail; the bytes of the lap before it stay. */
    method StoreNode(e: Entry)
      requires Valid() && |e.data| < U32 && e.seqNo < U64 && e.sec < U32 && e.usec < U32
      requires NodeSize(|e.data|) <= buf.Length
      modifies buf, this`snaps
      ensures NodeAt(buf[..], log.end, e)
      ensures Same(old(buf[..]), buf[..], log.end + NodeSize(|e.data|) - buf.Length, log.end)
      ensures SnapsKeep(old(snaps), snaps, old(buf[..]), log.end + NodeSize(|e.data|) - buf.Length, log.end)
    {
      ghost var v, mem, snaps0 := log.end, buf[..], snaps;
      var pos, len := tailPos, |e.data|;
      PhysAligned(buf.Length, v);
      TailOffsetAligned(len);
      TailPlaced(buf.Length, v, TailOffset(len));
      ghost var h := StoreHead(v, pos, e);
      ghost var m1, snaps1 := buf[..], snaps;
      StoreData(v, pos, e.data);
      ghost var m2, snaps2 := buf[..], snaps;
      ghost var t := StoreTail(v + TailOffset(len), PosAdd(buf.Length, pos, TailOffset(len)), len);
      NodeStored(mem, m1, m2, buf[..], v, e, h, t);
      NodeSnaps(snaps0, snaps1, snaps2, snaps, mem, m1, m2, v, len);
    }

    method StoreHead(ghost v: nat, pos: nat, e: Entry) returns (ghost h: seq<Byte>)
      requires 0 < buf.Length <= v && pos == Phys(buf.Length, v) && pos + NODE_HEAD <= buf.Length
      modifies buf, this`snaps
      ensures HeadOk(h, e) && StoredAt(old(buf[..]), buf[..], v, h)
      ensures SnapsKeep(old(snaps), snaps, old(buf[..]), v + NODE_HEAD - buf.Length, v)
    {
      ghost var mem, snaps0 := buf[..], snaps;
      var head := HeadImage(buf[pos..pos + NODE_HEAD], e);
      HeadImageOk(buf[pos..pos + NODE_HEAD], e);
      StoreBytes(pos, head);
      WroteStores(mem, v, pos, head, buf[..]);
      SnapsAt(snaps0, snaps, mem, v, pos, NODE_HEAD);
      h := head;
    }

    method StoreTail(ghost v: nat, pos: nat, len: nat) returns (ghost t: seq<Byte>)
      requires 0 < buf.Length <= v && pos == Phys(buf.Length, v) && pos + NODE_TAIL <= buf.Length
      modifies buf, this`snaps
      ensures TailOk(t, len) && StoredAt(old(buf[..]), buf[..], v, t)
      ensures SnapsKeep(old(snaps), snaps, old(buf[..]), v + NODE_TAIL - buf.Length, v)
    {
      ghost var mem, snaps0 := buf[..], snaps;
      var tail := TailImage(buf[pos..pos + NODE_TAIL], len);
      TailImageOk(buf[pos..pos + NODE_TAIL], len);
      StoreBytes(pos, tail);
      WroteStores(mem, v, pos, tail, buf[..]);
      SnapsAt(snaps0, snaps, mem, v, pos, NODE_TAIL);
      t := tail;
    }

    /** The entry that a push of `data` appends. */
    ghost function NewEntry(data: seq<Byte>, sec: nat, usec: nat): Entry
      reads this
    {
      Entry(nextSeq, sec % 0x1_0000_0000, usec % 0x1_0000_0000, data)
    }

    /**
     * Appends a message.  The oldest messages are dropped, no more of them than make room; a push
     * that fails only drops.  It fails exactly when the node is too big or when dropping 522
     * messages does not make room.
     */
    method Push(data: seq<Byte>, sec: nat, usec: nat) returns (ok: bool, ghost dropped: nat)
      requires Valid() && |data| < U32 && nextSeq + 1 < U64
      modifies this, buf, index
      ensures Valid() && dropped <= |old(log).live|
      ensures ok <==> NodeSize(|data|) + 16384 <= buf.Length &&
                      exists k ::
                        0 <= k <= Min(522, |old(log).live|) && Room(buf.Length, old(log), k, NodeSize(|data|))
      ensures ok ==>
              log.live == old(log).live[dropped..] + [old(NewEntry(data, sec, usec))] && nextSeq == old(nextSeq) + 1
      ensures ok ==> Room(buf.Length, old(log), dropped, NodeSize(|data|))
      ensures ok ==>
                && |old(log).at| == |old(log).live|
                && log == Appended(Dropped(old(log), dropped), old(NewEntry(data, sec, usec)),
                                   NextStart(buf.Length, old(log).end, |data|))
      ensures forall k :: 0 <= k < index.Length && (!ok || k != old(nextSeq) % index.Length) ==>
              index[k] == old(index[k])
      ensures ok ==> forall k :: 0 <= k < dropped ==> !Room(buf.Length, old(log), k, NodeSize(|data|))
      ensures !ok ==>
                && log.live == old(log).live[dropped..] && nextSeq == old(nextSeq)
                && log.end == old(log.end) && buf[..] == old(buf[..])
      ensures !ok ==>
              dropped == if NodeSize(|data|) + 16384 > buf.Length then 0 else Min(523, |old(log).live|)
      ensures old(log.end) <= log.end && buf.Length <= log.end
      ensures Same(old(buf[..]), buf[..], log.end - buf.Length, old(log.end))
      ensures SnapsKeep(old(snaps), snaps, old(buf[..]), log.end - buf.Length, old(log.end))
    {
      var size := NodeSize(|data|);
      dropped := 0;
      if size + OVERWRITE > buf.Length {
        return false, 0;
      }
      ok, dropped := MakeRoom(size);
      if !ok {
        return;
      }
      Append(Entry(nextSeq, sec % U32, usec % U32, data));
    }

    /** Writes the node, its slot in the sequence index, and the tail position. */
    method Append(e: Entry)
      requires Valid() && |e.data| < U32 && nextSeq + 1 < U64 && e.seqNo == nextSeq && e.sec < U32 && e.usec < U32
      requires NodeSize(|e.data|) + OVERWRITE <= buf.Length - 1 - log.Used()
      modifies this, buf, index
      ensures Valid() && nextSeq == old(nextSeq) + 1
      ensures log == Appended(old(log), e, NextStart(buf.Length, old(log).end, |e.data|))
      ensures forall k :: 0 <= k < index.Length && k != old(nextSeq) % index.Length ==> index[k] == old(index[k])
      ensures old(log.end) <= log.end && buf.Length <= log.end
      ensures Same(old(buf[..]), buf[..], log.end - buf.Length, old(log.end))
      ensures SnapsKeep(old(snaps), snaps, old(buf[..]), log.end - buf.Length, old(log.end))
    {
      ghost var mem, slots, g, seq0 := buf[..], index[..], log, nextSeq;
      LiveFitsIndex(mem, slots, nextSeq, g);
      AppendUsed(mem, slots, nextSeq, g, |e.data|);
      NextPlace(buf.Length, g.end, |e.data|);
      StoreNode(e);
      SameWithin(mem, buf[..], g.end + NodeSize(|e.data|) - buf.Length, g.end, g.Start(0), g.end);
      SnapsWithin(old(snaps), snaps, mem, g.end + NodeSize(|e.data|) - buf.Length, g.end,
                  NextStart(buf.Length, g.end, |e.data|) - buf.Length, g.end);
      SameWithin(mem, buf[..], g.end + NodeSize(|e.data|) - buf.Length, g.end,
                 NextStart(buf.Length, g.end, |e.data|) - buf.Length, g.end);
      var pos, slot := tailPos, nextSeq % index.Length;
      PhysAligned(buf.Length, g.end);
      SlotHoldsPos(pos);
      index[slot] := (pos / 8) % U32;
      nextSeq := nextSeq + 1;
      var next := PosAdd(buf.Length, pos, NodeSize(|e.data|));
      if next + NODE_HEAD > buf.Length {
        next := 0;
      }
      tailPos := next;
      log := Appended(g, e, NextStart(buf.Length, g.end, |e.data|));
      assert index[..] == slots[slot := index[..][slot]];
      AppendOk(mem, slots, seq0, g, buf[..], index[..], nextSeq, log, e, slot);
    }

    // -------------------------------------------------------------------------
    // Searching and reading

    lemma TailFieldIn(pos: nat, a: nat, b: nat)
      requires a <= b <= NODE_TAIL && pos + NODE_TAIL <= buf.Length
      ensures Field(pos + a, b - a) == Val(buf[..][pos..pos + NODE_TAIL][a..b])
    {
      var h := buf[..][pos..pos + NODE_TAIL];
      assert |h| == NODE_TAIL && forall i :: 0 <= i < NODE_TAIL ==> h[i] == buf[pos + i];
      assert pos + a + (b - a) == pos + b;
      assert buf[pos + a..pos + b] == h[a..b];
    }

    /** For the sequence number of a live node the index leads to the node, as a walk from Head does. */
    method FindBySeq(seqNo: nat) returns (ok: bool, pos: nat)
      requires Valid() && seqNo < U64
      ensures forall i: nat :: i < |log.live| && log.live[i].seqNo == seqNo ==> ok && At(pos, i)
      ensures ok <==> Indexed(seqNo)
      ensures index.Length > 0 && pos == index[seqNo % index.Length] * 8
    {
      LiveFitsIndex(buf[..], index[..], nextSeq, log);
      pos := index[seqNo % index.Length] * 8;
      forall i: nat | i < |log.live| && log.live[i].seqNo == seqNo
        ensures pos == Phys(buf.Length, log.at[i]) && IsNodeHead(pos) && Field(pos + 8, 8) == seqNo
      {
        assert LiveOk(buf[..], index[..], nextSeq, log, i);
        FieldsOf(i);
      }
      if !IsNodeHead(pos) {
        return false, pos;
      }
      if Field(pos + 8, 8) != seqNo {
        return false, pos;
      }
      ok := true;
    }

    /** What Read returns if nothing is stored while it runs. */
    ghost function Now(pos: nat, space: nat): Outcome
      reads this, buf
    {
      var mem, size, head, tail := buf[..], buf.Length, headPos, tailPos;
      Loaded(size, tail, nextSeq, pos, space, (k: nat) => mem, (p: nat) => ValidPos(size, head, tail, p))
    }

    /**
     * Reads a node: 1 and the node's data, cut to `space` bytes, for a live node; 0 at the tail; -1
     * for a place that is not a node.  With no space only the meta data and the length are given.
     */
    method Read(pos: nat, space: nat) returns (r: int, meta: Meta, out: seq<Byte>, len: nat)
      requires Valid()
      ensures Outcome(r, meta, out, len) == Now(pos, space)
      ensures pos == tailPos ==> r == 0 && meta.seqNo == nextSeq
      ensures r == 1 ==>
                && pos != tailPos && IsNodeHead(pos) && NodeSize(Field(pos + 4, 4)) <= PosOff(buf.Length, tailPos, pos)
                && meta == Meta(Field(pos + 8, 8), Field(pos + 16, 4), Field(pos + 20, 4))
      ensures forall i: nat :: At(pos, i) ==>
                var e := log.live[i];
                && r == 1 && meta == Meta(e.seqNo, e.sec, e.usec)
                && out == e.data[..Min(space, |e.data|)] && len == if space == 0 then |e.data| else |out|
    {
      meta, out, len := Meta(nextSeq, 0, 0), [], 0;
      forall i: nat | At(pos, i) ensures LiveOutcome(pos, space, i) { LiveNow(pos, space, i); }
      if pos == tailPos {
        return 0, meta, out, len;
      }
      if !(ValidPos(buf.Length, headPos, tailPos, pos) && pos % 8 == 0 && pos + NODE_HEAD <= buf.Length) {
        return -1, meta, out, len;
      }
      FieldsIn(pos);
      if Field(pos, 2) != START_TAG {
        return -1, meta, out, len;
      }
      var dataLen := Field(pos + 4, 4);
      if NodeSize(dataLen) > PosOff(buf.Length, tailPos, pos) {
        return -1, meta, out, len;
      }
      meta := Meta(Field(pos + 8, 8), Field(pos + 16, 4), Field(pos + 20, 4));
      len := dataLen;
      if space == 0 {
        return 1, meta, out, len;
      }
      r, out := ReadData(pos, dataLen, space, meta);
      if r == 1 {
        len := |out|;
      }
    }

    /** What a read of live node `i` yields. */
    ghost predicate LiveOutcome(pos: nat, space: nat, i: nat)
      requires i < |log.live|
      reads this, buf
    {
      var e, x := log.live[i], Now(pos, space);
      && x.r == 1 && x.meta == Meta(e.seqNo, e.sec, e.usec) && x.out == e.data[..Min(space, |e.data|)]
      && x.len == if space == 0 then |e.data| else |x.out|
    }

    lemma LiveNow(pos: nat, space: nat, i: nat)
      requires Valid() && At(pos, i)
      ensures LiveOutcome(pos, space, i)
    {
      var mem, size, head, tail := buf[..], buf.Length, headPos, tailPos;
      TailSeen(mem, index[..], nextSeq, log, i, PosAdd(size, pos, TailOffset(|log.live[i].data|)));
      HeadSeen(mem, index[..], nextSeq, log, i);
      SplitReadIsExact(mem, index[..], nextSeq, log, i, log.end, nextSeq, space,
                       (k: nat) => mem, (p: nat) => ValidPos(size, head, tail, p));
    }

    lemma FieldsIn(pos: nat)
      requires pos + NODE_HEAD <= buf.Length
      ensures Field(pos, 2) == FieldOf(buf[..], pos, NODE_HEAD, 0, 2)
      ensures Field(pos + 4, 4) == FieldOf(buf[..], pos, NODE_HEAD, 4, 8)
      ensures Field(pos + 8, 8) == FieldOf(buf[..], pos, NODE_HEAD, 8, 16)
      ensures Field(pos + 16, 4) == FieldOf(buf[..], pos, NODE_HEAD, 16, 20)
      ensures Field(pos + 20, 4) == FieldOf(buf[..], pos, NODE_HEAD, 20, 24)
    {
      FieldIn(pos, 0, 2);
      FieldIn(pos, 4, 8);
      FieldIn(pos, 8, 16);
      FieldIn(pos, 16, 20);
      FieldIn(pos, 20, 24);
    }

    /** The node's tail is checked, then its payload is copied. */
    method ReadData(pos: nat, dataLen: nat, space: nat, ghost meta: Meta) returns (r: int, out: seq<Byte>)
      requires pos + NODE_HEAD <= buf.Length && NodeSize(dataLen) < buf.Length
      ensures var mem, size, head, tail := buf[..], buf.Length, headPos, tailPos;
              Outcome(r, meta, out, if r == 1 then |out| else dataLen) ==
                LoadedRest(size, pos, dataLen, space, meta, (k: nat) => mem, (p: nat) => ValidPos(size, head, tail, p))
    {
      out := [];
      var tail := PosAdd(buf.Length, pos, TailOffset(dataLen));
      if !(ValidPos(buf.Length, headPos, tailPos, tail) && tail % 8 == 0 && tail + NODE_TAIL <= buf.Length) {
        return -1, out;
      }
      TailFieldIn(tail, 0, 2);
      TailFieldIn(tail, 4, 8);
      if Field(tail, 2) != END_TAG || Field(tail + 4, 4) != dataLen {
        return -1, out;
      }
      out := Payload(pos, dataLen, Min(dataLen, space));
      r := 1;
    }

    /** The first bytes of the payload behind a node head, from two places if it crosses the end of the buffer. */
    method Payload(pos: nat, dataLen: nat, copyLen: nat) returns (out: seq<Byte>)
      requires pos + NODE_HEAD <= buf.Length && copyLen <= dataLen && NodeSize(dataLen) < buf.Length
      ensures var mem := buf[..]; out == LoadedData(buf.Length, pos, copyLen, (k: nat) => mem)
    {
      var p := pos + NODE_HEAD;
      if pos + TailOffset(dataLen) <= buf.Length {
        out := buf[..][p..p + copyLen];
      } else {
        var part := buf.Length - p;
        var first := Min(copyLen, part);
        out := buf[..][p..p + first] + buf[..][..copyLen - first];
      }
      ghost var mem := buf[..];
      ghost var loaded := LoadedData(buf.Length, pos, copyLen, (k: nat) => mem);
      forall j | 0 <= j < copyLen ensures out[j] == loaded[j] {
        assert loaded[j] == LoadedByte(mem, pos, j);
      }
    }

    /** Reads a whole node: once for its length, once for its bytes. */
    method ReadString(pos: nat) returns (r: int, meta: Meta, out: seq<Byte>)
      requires Valid()
      ensures pos == tailPos ==> r == 0
      ensures forall i: nat :: At(pos, i) ==>
                r == 1 && out == log.live[i].data && meta == Meta(log.live[i].seqNo, log.live[i].sec, log.live[i].usec)
    {
      var len, size;
      r, meta, out, size := Read(pos, 0);
      forall i: nat | At(pos, i) ensures r == 1 && size == |log.live[i].data| {}
      if r <= 0 {
        return;
      }
      r, meta, out, len := Read(pos, size);
      forall i: nat | At(pos, i) ensures r == 1 && out == log.live[i].data && len == size {
        assert log.live[i].data[..size] == log.live[i].data;
      }
      if r <= 0 {
        return;
      }
      if size != len {
        return -1, meta, out;
      }
    }

    /**
     * Binary search by time.  If the messages are in order of time it returns the oldest live one
     * that is not earlier than the given time, and fails exactly if there is none.  SumsFit is the
     * exact condition: without it the search for a time later than every message never ends.
     */
    method FindByTime(sec: nat, usec: nat) returns (ok: bool, pos: nat, ghost i: nat)
      requires Valid() && Sorted(log.live) && (log.live != [] ==> SumsFit(nextSeq - |log.live|, nextSeq - 1))
      ensures ok ==> At(pos, i) && i < |log.live|
      ensures ok ==>
                log.live[i].sec > sec || (log.live[i].sec == sec && log.live[i].usec >= usec)
      ensures ok ==> forall k :: 0 <= k < i ==>
                log.live[k].sec < sec || (log.live[k].sec == sec && log.live[k].usec < usec)
      ensures !ok ==> forall k :: 0 <= k < |log.live| ==>
                log.live[k].sec < sec || (log.live[k].sec == sec && log.live[k].usec < usec)
    {
      pos, i := 0, 0;
      HeadIsFirst();
      if !IsNodeHead(headPos) {
        return false, pos, i;
      }
      var first := Field(headPos + 8, 8);
      var right := Search(first, sec, usec);
      i := right - first;
      SeqOf(i);
      ok, pos := NotEarlier(right, sec, usec);
    }

    /** The loop of FindByTime. */
    method Search(first: nat, sec: nat, usec: nat) returns (right: nat)
      requires Valid() && Sorted(log.live) && log.live != [] && first + |log.live| == nextSeq
      requires SumsFit(first, nextSeq - 1)
      ensures first <= right < nextSeq
      ensures forall k :: 0 <= k < right - first ==> Earlier(log.live[k], sec, usec)
      ensures right < nextSeq - 1 ==> !Earlier(log.live[right - first], sec, usec)
    {
      var left := first;
      right := nextSeq - 1;
      while left < right
        invariant first <= left <= right < nextSeq
        invariant forall k :: 0 <= k < left - first ==> Earlier(log.live[k], sec, usec)
        invariant right < nextSeq - 1 ==> !Earlier(log.live[right - first], sec, usec)
        decreases right - left
      {
        left, right := SearchStep(first, left, right, sec, usec);
      }
    }

    /** A round, with what it means for the messages. */
    method SearchStep(first: nat, left: nat, right: nat, sec: nat, usec: nat) returns (l: nat, r: nat)
      requires Valid() && Sorted(log.live) && log.live != [] && first + |log.live| == nextSeq
      requires SumsFit(first, nextSeq - 1) && first <= left < right < nextSeq
      requires forall k :: 0 <= k < left - first ==> Earlier(log.live[k], sec, usec)
      requires right < nextSeq - 1 ==> !Earlier(log.live[right - first], sec, usec)
      ensures first <= l <= r < nextSeq && r - l < right - left
      ensures forall k :: 0 <= k < l - first ==> Earlier(log.live[k], sec, usec)
      ensures r < nextSeq - 1 ==> !Earlier(log.live[r - first], sec, usec)
    {
      MiddleExact(left, right);
      ghost var k := Middle(left, right) - first;
      SeqOf(k);
      ghost var late;
      l, r, late := SearchRound(left, right, sec, usec);
      if !late { EarlierBefore(log.live, k, sec, usec); }
    }

    /** One round of the loop: a probe in the middle halves the range. */
    method SearchRound(left: nat, right: nat, sec: nat, usec: nat) returns (l: nat, r: nat, ghost late: bool)
      requires Valid() && left < right < U64
      ensures var mid := Middle(left, right); if late then l == left && r == mid else l == mid + 1 && r == right
      ensures forall k: nat :: k < |log.live| && log.live[k].seqNo == Middle(left, right) ==>
                (late <==> !Earlier(log.live[k], sec, usec))
      ensures late ==> Late(Middle(left, right), sec, usec)
    {
      var mid := Middle(left, right);
      var found, pos := NotEarlier(mid, sec, usec);
      l, r, late := left, right, found;
      if !found {
        l := mid + 1;
      } else {
        r := mid;
      }
    }

    /** The index leads to a readable node with this sequence number, live or not. */
    ghost predicate Indexed(seqNo: nat)
      reads this, buf, index
    {
      && index.Length > 0
      && var pos := index[seqNo % index.Length] * 8;
         IsNodeHead(pos) && Field(pos + 8, 8) == seqNo
    }

    /** That node is whole and not earlier than the given time. */
    ghost predicate Late(seqNo: nat, sec: nat, usec: nat)
      reads this, buf, index
    {
      && Indexed(seqNo)
      && var pos := index[seqNo % index.Length] * 8;
         && pos != tailPos && NodeSize(Field(pos + 4, 4)) <= PosOff(buf.Length, tailPos, pos)
         && (Field(pos + 16, 4) > sec || (Field(pos + 16, 4) == sec && Field(pos + 20, 4) >= usec))
    }

    /** The probe of the search: the node is found and is not earlier than the given time. */
    method NotEarlier(seqNo: nat, sec: nat, usec: nat) returns (late: bool, pos: nat)
      requires Valid() && seqNo < U64
      ensures forall k: nat :: k < |log.live| && log.live[k].seqNo == seqNo ==>
                (late <==> !Earlier(log.live[k], sec, usec)) && (late ==> At(pos, k))
      ensures late ==> Late(seqNo, sec, usec)
    {
      var found;
      found, pos := FindBySeq(seqNo);
      var r, meta, out, len := Read(pos, 0);
      forall k: nat | k < |log.live| && log.live[k].seqNo == seqNo
        ensures found && At(pos, k) && r == 1 && meta.sec == log.live[k].sec && meta.usec == log.live[k].usec
      {
        assert found && At(pos, k);
      }
      late := found && r == 1 && !Before(meta.sec, meta.usec, sec, usec);
    }

    /**
     * The failing half of the search: if two or more messages are live, the sum of the last two
     * sequence numbers does not fit, and the index leads to no late node, then `n` rounds of the loop
     * leave a range that is not empty, for every `n`.
     */
    method SearchNeverEnds(sec: nat, usec: nat, n: nat) returns (left: nat, right: nat)
      requires Valid() && |log.live| >= 2 && !SumsFit(nextSeq - |log.live|, nextSeq - 1)
      requires forall seqNo: nat :: !Late(seqNo, sec, usec)
      ensures left == Climb(nextSeq - |log.live|, nextSeq - 1, n) < right == nextSeq - 1
    {
      HeadIsFirst();
      left, right := Field(headPos + 8, 8), nextSeq - 1;
      ghost var first := left;
      for i := 0 to n
        invariant left == Climb(first, nextSeq - 1, i) && right == nextSeq - 1
      {
        ClimbStays(first, right, i);
        ghost var late;
        left, right, late := SearchRound(left, right, sec, usec);
      }
      ClimbStays(first, right, n);
    }

    lemma SeqOf(k: nat)
      requires Valid() && k < |log.live|
      ensures log.live[k].seqNo + |log.live| == nextSeq + k && log.live[k].seqNo < U64
    {
      assert LiveOk(buf[..], index[..], nextSeq, log, k);
    }

    /** There is a node at the head exactly if there are live nodes, and it is the oldest one. */
    lemma HeadIsFirst()
      requires Valid()
      ensures IsNodeHead(headPos) <==> log.live != []
      ensures log.live != [] ==> Field(headPos + 8, 8) + |log.live| == nextSeq
    {
      if log.live == [] {
        ValidPosIsWindow(buf[..], index[..], nextSeq, log, log.end);
      } else {
        FieldsOf(0);
        SeqOf(0);
      }
    }

    // -------------------------------------------------------------------------
    // The overwrite band

    /**
     * Any number of pushes.  Unless they consume more than 12288 bytes of ring, every byte from an
     * address that IsValidPos accepts at the start, up to the tail, stays as it is after each store
     * of a byte, also within a push.
     */
    method PushAll(msgs: seq<(seq<Byte>, nat, nat)>)
      requires Valid() && nextSeq + |msgs| < U64 && forall i :: 0 <= i < |msgs| ==> |msgs[i].0| < U32
      modifies this, buf, index
      ensures Valid() && old(log.end) <= log.end && old(snaps) <= snaps
      ensures log.end - old(log.end) <= 12288 ==>
                && SameBand(old(buf[..]), buf[..], old(log))
                && forall j :: |old(snaps)| <= j < |snaps| ==> SameBand(old(buf[..]), snaps[j], old(log))
    {
      ghost var g, mem, slots, seq0, snaps0 := log, buf[..], index[..], nextSeq, snaps;
      for i := 0 to |msgs|
        invariant Valid() && g.end <= log.end && nextSeq <= seq0 + i && buf.Length <= log.end
        invariant Same(mem, buf[..], log.end - buf.Length, g.end)
        invariant SnapsKeep(snaps0, snaps, mem, log.end - buf.Length, g.end)
      {
        ghost var mem1, end1, snaps1 := buf[..], log.end, snaps;
        var ok, dropped := Push(msgs[i].0, msgs[i].1, msgs[i].2);
        OnePush(snaps0, snaps1, snaps, mem, mem1, buf[..], g.end, end1, log.end);
      }
      if log.end - g.end <= 12288 {
        BandStays(mem, slots, seq0, g, buf[..], log.end);
        forall j | |snaps0| <= j < |snaps| ensures SameBand(mem, snaps[j], g) {
          BandStays(mem, slots, seq0, g, snaps[j], log.end);
        }
      }
    }

    /**
     * A read of a live node whose loads are spread over any number of pushes, at any stores within
     * them: unless the pushes consume more than 12288 bytes of ring it returns the node, byte for
     * byte, or fails because IsValidPos refuses a place.
     */
    method PushDuringRead(msgs: seq<(seq<Byte>, nat, nat)>, ghost i: nat)
      requires Valid() && i < |log.live|
      requires nextSeq + |msgs| < U64 && forall k :: 0 <= k < |msgs| ==> |msgs[k].0| < U32
      modifies this, buf, index
      ensures Valid() && old(log.end) <= log.end && old(snaps) <= snaps && |old(log).at| == |old(log).live|
      ensures log.end - old(log.end) <= 12288 ==>
                forall v: nat, space: nat, mem: nat -> seq<Byte>, valid: nat -> bool ::
                  buf.Length > 0 && old(log.end) <= v <= log.end && During(old(buf[..]), old(snaps), snaps, mem) ==>
                    ReadsNode(buf.Length, v, old(nextSeq), old(log).at[i], old(log).live[i], space, mem, valid)
    {
      ghost var mem0, slots, seq0, g, snaps0 := buf[..], index[..], nextSeq, log, snaps;
      PushAll(msgs);
      if log.end - g.end <= 12288 {
        forall v: nat, space: nat, mem: nat -> seq<Byte>, valid: nat -> bool
          | g.end <= v <= log.end && During(mem0, snaps0, snaps, mem)
          ensures ReadsNode(buf.Length, v, seq0, g.at[i], g.live[i], space, mem, valid)
        {
          forall k ensures SameBand(mem0, mem(k), g) {}
          SplitReadIsExact(mem0, slots, seq0, g, i, v, seq0, space, mem, valid);
        }
      }
    }
  }

  /**
   * A segment that was created in 2038 or later and holds two messages: the search for a later time
   * never ends.
   */
  method SearchLoops(startSeq: nat, n: nat) returns (left: nat, right: nat)
    requires 0x8000_0000_0000_0000 <= startSeq < U64 - 2
    ensures left < right
  {
    var b := TwoMessages(startSeq);
    NothingLate(b);
    left, right := b.SearchNeverEnds(1, 0, n);
  }

  method TwoMessages(startSeq: nat) returns (b: ShmSyncBuf)
    requires startSeq < U64 - 2
    ensures b.Valid() && |b.log.live| == 2 == |b.log.at| && b.log.at[0] == b.buf.Length
    ensures b.log.live[0].sec == 0 && b.log.live[1].sec == 0 && b.nextSeq == startSeq + 2
    ensures forall k :: 0 <= k < b.index.Length ==>
              k == startSeq % b.index.Length || k == (startSeq + 1) % b.index.Length || b.index[k] == 0
  {
    b := new ShmSyncBuf(2 * OVERWRITE, startSeq);
    assert Room(b.buf.Length, b.log, 0, NodeSize(0));
    var ok, dropped := b.Push([], 0, 0);
    NextPlaced(b.buf.Length, b.buf.Length, 0);
    assert Room(b.buf.Length, b.log, 0, NodeSize(0));
    ok, dropped := b.Push([], 0, 0);
  }

  /** Each slot of the index leads to one of the two messages. */
  lemma NothingLate(b: ShmSyncBuf)
    requires b.Valid() && |b.log.live| == 2 && b.log.at[0] == b.buf.Length
    requires b.log.live[0].sec == 0 && b.log.live[1].sec == 0 && b.nextSeq >= 2
    requires forall k :: 0 <= k < b.index.Length ==>
               k == (b.nextSeq - 2) % b.index.Length || k == (b.nextSeq - 1) % b.index.Length || b.index[k] == 0
    ensures forall seqNo: nat :: !b.Late(seqNo, 1, 0)
  {
    LiveFitsIndex(b.buf[..], b.index[..], b.nextSeq, b.log);
    forall seqNo: nat ensures !b.Late(seqNo, 1, 0) {
      var k := seqNo % b.index.Length;
      SlotLeads(b, k);
      if b.At(b.index[k] * 8, 0) { LiveIsEarly(b, seqNo, 0); } else { LiveIsEarly(b, seqNo, 1); }
    }
  }

  lemma SlotLeads(b: ShmSyncBuf, k: nat)
    requires b.Valid() && |b.log.live| == 2 && b.log.at[0] == b.buf.Length && b.nextSeq >= 2 && k < b.index.Length
    requires k == (b.nextSeq - 2) % b.index.Length || k == (b.nextSeq - 1) % b.index.Length || b.index[k] == 0
    ensures b.At(b.index[k] * 8, 0) || b.At(b.index[k] * 8, 1)
  {
    assert LiveOk(b.buf[..], b.index[..], b.nextSeq, b.log, 0) && LiveOk(b.buf[..], b.index[..], b.nextSeq, b.log, 1);
    PhysAdd(b.buf.Length, 0, b.buf.Length);
  }

  lemma LiveIsEarly(b: ShmSyncBuf, seqNo: nat, i: nat)
    requires b.Valid() && i < |b.log.live| && b.log.live[i].sec == 0
    requires b.index.Length > 0 && b.At(b.index[seqNo % b.index.Length] * 8, i)
    ensures !b.Late(seqNo, 1, 0)
  {
    b.FieldsOf(i);
  }
}
