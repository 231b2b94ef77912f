/**
 * The broadcast ring of src/lib_bsp/shmc/shm_sync_buf.h as a log.
 *
 * Bytes of the log have ever growing addresses; address `v` is kept at place `Phys(size, v)` of the
 * buffer.  Nodes, and the gaps left at the end of the buffer, follow each other in the log; the
 * live ones are those from the head address to the end address.
 */
module SyncRep {
  import opened Bytes

  const NODE_HEAD := 24
  const NODE_TAIL := 8
  const START_TAG := 0x57c0
  const END_TAG := 0x57c1
  const OVERWRITE := 16384
  const MAX_FREE := 522

  datatype Entry = Entry(seqNo: nat, sec: nat, usec: nat, data: seq<Byte>)

  function TailOffset(len: nat): nat { NODE_HEAD + RoundAlign(len, 8) }

  function NodeSize(len: nat): (n: nat)
    ensures n % 8 == 0 && 32 + len <= n
  {
    NODE_HEAD + NODE_TAIL + RoundAlign(len, 8)
  }

  /** A node takes the least multiple of 8 bytes that holds its head, its tail and the data. */
  lemma NodeSizeLeast(len: nat)
    ensures NodeSize(len) % 8 == 0 && 24 + len + 8 <= NodeSize(len)
    ensures forall n: nat :: n % 8 == 0 && 24 + len + 8 <= n ==> NodeSize(len) <= n
    ensures TailOffset(len) + 8 == NodeSize(len)
  {
    forall n: nat | n % 8 == 0 && 32 + len <= n ensures NodeSize(len) <= n {
      if n < NodeSize(len) { Gap8(n, NodeSize(len)); }
    }
  }

  // ---------------------------------------------------------------------------
  // Addresses

  /** The place of an address in the buffer. */
  ghost function Phys(size: nat, v: nat): (p: nat)
    requires size > 0
    ensures p < size
  {
    if v < size then v else Phys(size, v - size)
  }

  lemma {:induction false} PhysIsMod(size: nat, v: nat)
    requires size > 0
    ensures Phys(size, v) == v % size
  {
    if v >= size {
      PhysIsMod(size, v - size);
      ModUnique(v, size, (v - size) / size + 1, (v - size) % size);
    }
  }

  /** Steps of less than a lap, as PosAdd computes them. */
  lemma {:induction false} PhysAdd(size: nat, v: nat, k: nat)
    requires 0 < size && k <= size
    ensures Phys(size, v + k) == PosAdd(size, Phys(size, v), k)
  {
    if v >= size { PhysAdd(size, v - size, k); }
  }

  function PosAdd(size: nat, pos: nat, k: nat): nat {
    if pos + k >= size then pos + k - size else pos + k
  }

  function PosSub(size: nat, pos: nat, k: nat): int {
    if pos + size - k >= size then pos - k else pos + size - k
  }

  function PosOff(size: nat, to: nat, from: nat): int {
    if to >= from then to - from else to + size - from
  }

  /** The distance of two addresses less than a lap apart, as PosOff computes it. */
  lemma PhysOff(size: nat, v: nat, w: nat)
    requires 0 < size && v <= w < v + size
    ensures PosOff(size, Phys(size, w), Phys(size, v)) == w - v
  {
    PhysAdd(size, v, w - v);
  }

  lemma PhysDistinct(size: nat, v: nat, w: nat)
    requires 0 < size && v < w < v + size
    ensures Phys(size, v) != Phys(size, w)
  {
    PhysAdd(size, v, w - v);
  }

  lemma {:induction false} PhysAligned(size: nat, v: nat)
    requires 0 < size && size % 8 == 0
    ensures Phys(size, v) % 8 == v % 8
  {
    if v >= size {
      PhysAligned(size, v - size);
      Mod8(v, size);
    }
  }

  lemma Mod8(a: nat, b: nat)
    requires b % 8 == 0
    ensures (a + b) % 8 == a % 8 && (b <= a ==> (a - b) % 8 == a % 8)
  {
    ModUnique(a + b, 8, a / 8 + b / 8, a % 8);
    ModUnique(a - b, 8, a / 8 - b / 8, a % 8);
  }

  /** Multiples of 8 that differ do so by at least 8. */
  lemma Gap8(a: nat, b: nat)
    requires a % 8 == 0 && b % 8 == 0 && a < b
    ensures a + 8 <= b
  {
  }

  ghost function ByteAt(mem: seq<Byte>, v: nat): Byte
    requires mem != []
  {
    mem[Phys(|mem|, v)]
  }

  /** The `n` bytes from address `v` on. */
  ghost function Part(mem: seq<Byte>, v: nat, n: nat): (s: seq<Byte>)
    requires mem != []
    ensures |s| == n
  {
    seq<Byte>(n, i requires 0 <= i < n => ByteAt(mem, v + i))
  }

  ghost predicate Same(mem: seq<Byte>, mem': seq<Byte>, v: nat, w: nat) {
    && |mem'| == |mem| > 0
    && forall x {:trigger ByteAt(mem, x)} {:trigger ByteAt(mem', x)} :: v <= x < w ==> ByteAt(mem', x) == ByteAt(mem, x)
  }

  lemma PartSame(mem: seq<Byte>, mem': seq<Byte>, v: nat, n: nat)
    requires Same(mem, mem', v, v + n)
    ensures Part(mem', v, n) == Part(mem, v, n)
  {
  }

  lemma PartWithin(mem: seq<Byte>, mem': seq<Byte>, v: nat, w: nat, x: nat, n: nat)
    requires Same(mem, mem', v, w) && v <= x && x + n <= w
    ensures Same(mem, mem', x, x + n)
  {
  }

  lemma PhysPlus(size: nat, v: nat, i: nat)
    requires 0 < size && Phys(size, v) + i < size
    ensures Phys(size, v + i) == Phys(size, v) + i
  {
    PhysAdd(size, v, i);
  }

  /** Bytes that do not cross the end of the buffer. */
  lemma PartInOne(mem: seq<Byte>, v: nat, n: nat)
    requires mem != [] && Phys(|mem|, v) + n <= |mem|
    ensures Part(mem, v, n) == mem[Phys(|mem|, v)..Phys(|mem|, v) + n]
  {
    forall i | 0 <= i < n ensures Part(mem, v, n)[i] == mem[Phys(|mem|, v)..Phys(|mem|, v) + n][i] {
      PhysPlus(|mem|, v, i);
    }
  }

  /** The bytes `b` are stored at `v`; the bytes of the lap before that address stay. */
  ghost predicate StoredAt(mem: seq<Byte>, mem': seq<Byte>, v: nat, b: seq<Byte>) {
    && |mem'| == |mem| > 0 && |b| <= |mem| <= v
    && Part(mem', v, |b|) == b && Same(mem, mem', v + |b| - |mem|, v)
  }

  /** The bytes `b` are stored at place `p`. */
  ghost predicate Wrote(mem: seq<Byte>, p: nat, b: seq<Byte>, mem': seq<Byte>) {
    && |mem'| == |mem| && p + |b| <= |mem|
    && forall i {:trigger mem'[i]} :: 0 <= i < |mem| ==> mem'[i] == if p <= i < p + |b| then b[i - p] else mem[i]
  }

  lemma WroteStores(mem: seq<Byte>, v: nat, p: nat, b: seq<Byte>, mem': seq<Byte>)
    requires 0 < |mem| <= v && p == Phys(|mem|, v) && Wrote(mem, p, b, mem')
    ensures StoredAt(mem, mem', v, b)
  {
    var n := |mem|;
    PartInOne(mem', v, |b|);
    assert mem'[p..p + |b|] == b;
    forall x | v + |b| - n <= x < v ensures ByteAt(mem', x) == ByteAt(mem, x) {
      AwayFrom(n, v, |b|, x);
    }
  }

  /** An address less than a lap before `v`, and not within `k` bytes after it a lap earlier, lies elsewhere. */
  lemma AwayFrom(size: nat, v: nat, k: nat, x: nat)
    requires 0 < size <= v && Phys(size, v) + k <= size && v + k - size <= x < v
    ensures !(Phys(size, v) <= Phys(size, x) < Phys(size, v) + k)
  {
    var q := Phys(size, x);
    if Phys(size, v) <= q < Phys(size, v) + k {
      PhysPlus(size, v, q - Phys(size, v));
      PhysDistinct(size, x, v + (q - Phys(size, v)));
    }
  }

  /** A store whose bytes go to the end of the buffer and then to its start. */
  lemma StoredTwice(mem: seq<Byte>, mem1: seq<Byte>, mem2: seq<Byte>, v: nat, a: seq<Byte>, b: seq<Byte>)
    requires StoredAt(mem, mem1, v, a) && StoredAt(mem1, mem2, v + |a|, b) && |a| + |b| <= |mem|
    ensures StoredAt(mem, mem2, v, a + b)
  {
    var n, k := |mem|, |a|;
    assert Part(mem2, v, k) == a by {
      PartWithin(mem1, mem2, v + k + |b| - n, v + k, v, k);
      PartSame(mem1, mem2, v, k);
    }
    PartJoin(mem2, v, a, b);
    forall x | v + k + |b| - n <= x < v ensures ByteAt(mem2, x) == ByteAt(mem, x) {
      assert ByteAt(mem1, x) == ByteAt(mem, x);
    }
  }

  lemma PartJoin(mem: seq<Byte>, v: nat, a: seq<Byte>, b: seq<Byte>)
    requires mem != [] && Part(mem, v, |a|) == a && Part(mem, v + |a|, |b|) == b
    ensures Part(mem, v, |a + b|) == a + b
  {
    forall i | 0 <= i < |a + b| ensures Part(mem, v, |a + b|)[i] == (a + b)[i] {
      if i < |a| {
        assert Part(mem, v, |a|)[i] == a[i];
      } else {
        assert Part(mem, v + |a|, |b|)[i - |a|] == b[i - |a|];
      }
    }
  }

  // ---------------------------------------------------------------------------
  // Nodes

  /** start_tag, len, seq, time; the reserved bytes may be anything. */
  ghost predicate HeadOk(h: seq<Byte>, e: Entry) {
    && |h| == NODE_HEAD
    && h[0..2] == LE(0x57c0, 2) && h[4..8] == LE(|e.data|, 4) && h[8..16] == LE(e.seqNo, 8)
    && h[16..20] == LE(e.sec, 4) && h[20..24] == LE(e.usec, 4)
  }

  ghost predicate TailOk(t: seq<Byte>, len: nat) {
    |t| == NODE_TAIL && t[0..2] == LE(0x57c1, 2) && t[4..8] == LE(len, 4)
  }

  function HeadImage(old24: seq<Byte>, e: Entry): (h: seq<Byte>)
    requires |old24| == NODE_HEAD
    ensures |h| == NODE_HEAD
  {
    LE(START_TAG, 2) + old24[2..4] + LE(|e.data|, 4) + LE(e.seqNo, 8) + LE(e.sec, 4) + LE(e.usec, 4)
  }

  function TailImage(old8: seq<Byte>, len: nat): (t: seq<Byte>)
    requires |old8| == NODE_TAIL
    ensures |t| == NODE_TAIL
  {
    LE(END_TAG, 2) + old8[2..4] + LE(len, 4)
  }

  lemma HeadImageOk(old24: seq<Byte>, e: Entry)
    requires |old24| == NODE_HEAD
    ensures HeadOk(HeadImage(old24, e), e)
  {
  }

  lemma TailImageOk(old8: seq<Byte>, len: nat)
    requires |old8| == NODE_TAIL
    ensures TailOk(TailImage(old8, len), len)
  {
  }

  /** What loads of the fields yield. */
  lemma HeadFields(h: seq<Byte>, e: Entry)
    requires HeadOk(h, e) && |e.data| < U32 && e.seqNo < U64 && e.sec < U32 && e.usec < U32
    ensures Val(h[0..2]) == START_TAG && Val(h[4..8]) == |e.data| && Val(h[8..16]) == e.seqNo
    ensures Val(h[16..20]) == e.sec && Val(h[20..24]) == e.usec
  {
    Spans();
    ValOfLE(START_TAG, 2);
    ValOf32(|e.data|);
    ValOfLE(e.seqNo, 8);
    ValOf32(e.sec);
    ValOf32(e.usec);
  }

  lemma TailFields(t: seq<Byte>, len: nat)
    requires TailOk(t, len) && len < U32
    ensures Val(t[0..2]) == END_TAG && Val(t[4..8]) == len
  {
    Spans();
    ValOfLE(END_TAG, 2);
    ValOf32(len);
  }

  /** A whole node at address `v`. */
  ghost predicate NodeAt(mem: seq<Byte>, v: nat, e: Entry) {
    && mem != [] && |e.data| < U32 && e.seqNo < U64 && e.sec < U32 && e.usec < U32
    && HeadOk(Part(mem, v, NODE_HEAD), e)
    && Part(mem, v + NODE_HEAD, |e.data|) == e.data
    && TailOk(Part(mem, v + TailOffset(|e.data|), NODE_TAIL), |e.data|)
  }

  lemma NodeSame(mem: seq<Byte>, mem': seq<Byte>, v: nat, e: Entry)
    requires NodeAt(mem, v, e) && Same(mem, mem', v, v + NodeSize(|e.data|))
    ensures NodeAt(mem', v, e)
  {
    var w := v + NodeSize(|e.data|);
    PartWithin(mem, mem', v, w, v, NODE_HEAD);
    PartSame(mem, mem', v, NODE_HEAD);
    PartWithin(mem, mem', v, w, v + NODE_HEAD, |e.data|);
    PartSame(mem, mem', v + NODE_HEAD, |e.data|);
    PartWithin(mem, mem', v, w, v + TailOffset(|e.data|), NODE_TAIL);
    PartSame(mem, mem', v + TailOffset(|e.data|), NODE_TAIL);
  }

  /** A node head is never split: where it would be, the node starts at the beginning of the buffer. */
  ghost predicate Placed(size: nat, v: nat)
    requires size > 0
  {
    v % 8 == 0 && Phys(size, v) + NODE_HEAD <= size
  }

  /** The next node's address: behind the node, and behind the gap if there is one. */
  ghost function NextStart(size: nat, v: nat, len: nat): nat
    requires size > 0
  {
    var e := v + NodeSize(len);
    if Phys(size, e) + NODE_HEAD > size then e + (size - Phys(size, e)) else e
  }

  lemma NextPlaced(size: nat, v: nat, len: nat)
    requires 24 <= size && size % 8 == 0 && v % 8 == 0
    ensures var e, w := v + NodeSize(len), NextStart(size, v, len);
            && Placed(size, w) && e <= w <= e + 16 && (w != e ==> Phys(size, w) == 0)
            && Phys(size, w) == (if Phys(size, e) + NODE_HEAD > size then 0 else Phys(size, e))
  {
    var e := v + NodeSize(len);
    Mod8(v, NodeSize(len));
    PhysAligned(size, e);
    if Phys(size, e) + NODE_HEAD > size { GapPlaced(size, e, Phys(size, e)); }
  }

  /** The gap at the end of the buffer has 8 or 16 bytes, and the next node starts at the beginning. */
  lemma GapPlaced(size: nat, e: nat, p: nat)
    requires 24 <= size && size % 8 == 0 && e % 8 == 0 && p == Phys(size, e) && p % 8 == 0 && p + NODE_HEAD > size
    ensures var w := e + (size - p); Phys(size, w) == 0 && w % 8 == 0 && w <= e + 16
  {
    PhysAdd(size, e, size - p);
    GapSize(p, size);
    PhysAligned(size, e + (size - p));
  }

  lemma GapSize(p: nat, size: nat)
    requires p % 8 == 0 && size % 8 == 0 && p < size < p + 24
    ensures size - p <= 16
  {
    Mod8(size, p);
  }

  // ---------------------------------------------------------------------------
  // The log

  /** Addresses and contents of the live nodes, oldest first, and the address of the next node. */
  datatype Log = Log(at: seq<nat>, live: seq<Entry>, end: nat) {
    function Start(k: nat): nat { if k < |at| then at[k] else end }
    function Used(): int { end - Start(0) }
  }

  ghost predicate LiveOk(mem: seq<Byte>, index: seq<nat>, nextSeq: nat, g: Log, i: nat)
    requires mem != [] && i < |g.at| == |g.live|
  {
    && Placed(|mem|, g.at[i]) && NodeAt(mem, g.at[i], g.live[i])
    && g.live[i].seqNo + |g.live| == nextSeq + i
    && g.Start(i + 1) == NextStart(|mem|, g.at[i], |g.live[i].data|)
    && IndexOk(|mem|, index, g.live[i].seqNo, g.at[i])
  }

  ghost predicate IndexOk(size: nat, index: seq<nat>, seqNo: nat, v: nat)
    requires size > 0
  {
    index != [] && index[seqNo % |index|] * 8 == Phys(size, v)
  }

  ghost predicate ShapeOk(size: nat, slots: nat) {
    size % 8 == 0 && 2 * OVERWRITE <= size <= 0x8_0000_0000 && slots == RoundAlign(size / 32, 2)
  }

  ghost predicate SyncOk(mem: seq<Byte>, index: seq<nat>, nextSeq: nat, g: Log) {
    && ShapeOk(|mem|, |index|)
    && |g.at| == |g.live| <= nextSeq && nextSeq < U64
    && |mem| <= g.Start(0) <= g.end && Placed(|mem|, g.end)
    && g.Used() + OVERWRITE + 8 <= |mem| + (if Phys(|mem|, g.end) == 0 then 16 else 0)
    && forall i {:trigger LiveOk(mem, index, nextSeq, g, i)} :: 0 <= i < |g.at| ==> LiveOk(mem, index, nextSeq, g, i)
  }

  lemma {:induction false} StartsGrow(mem: seq<Byte>, index: seq<nat>, nextSeq: nat, g: Log, i: nat, j: nat)
    requires SyncOk(mem, index, nextSeq, g) && i <= j <= |g.at|
    ensures g.Start(i) + 32 * (j - i) <= g.Start(j)
    ensures i < |g.at| && i < j ==> g.at[i] + NodeSize(|g.live[i].data|) <= g.Start(j)
    decreases j - i
  {
    if i < j {
      assert LiveOk(mem, index, nextSeq, g, i);
      NextPlaced(|mem|, g.at[i], |g.live[i].data|);
      StartsGrow(mem, index, nextSeq, g, i + 1, j);
    }
  }

  /** Live nodes never outnumber the slots of the sequence index. */
  lemma LiveFitsIndex(mem: seq<Byte>, index: seq<nat>, nextSeq: nat, g: Log)
    requires SyncOk(mem, index, nextSeq, g)
    ensures 0 < |index| && |g.live| < |index| && |mem| / 8 <= U32
  {
    StartsGrow(mem, index, nextSeq, g, 0, |g.at|);
  }

  /** A live node: its address lies within a lap of the head and of the end. */
  lemma LiveAddress(mem: seq<Byte>, index: seq<nat>, nextSeq: nat, g: Log, i: nat)
    requires SyncOk(mem, index, nextSeq, g) && i < |g.at|
    ensures g.Start(0) <= g.at[i] && g.at[i] + NodeSize(|g.live[i].data|) <= g.end < g.at[i] + |mem|
  {
    StartsGrow(mem, index, nextSeq, g, 0, i);
    StartsGrow(mem, index, nextSeq, g, i, |g.at|);
  }

  // ---------------------------------------------------------------------------
  // Dropping the oldest node

  function DropFirst(g: Log): Log
    requires |g.at| == |g.live| > 0
  {
    Log(g.at[1..], g.live[1..], g.end)
  }

  lemma DropOk(mem: seq<Byte>, index: seq<nat>, nextSeq: nat, g: Log)
    requires SyncOk(mem, index, nextSeq, g) && g.at != []
    ensures SyncOk(mem, index, nextSeq, DropFirst(g)) && DropFirst(g).Start(0) == g.Start(1)
  {
    var g' := DropFirst(g);
    StartsGrow(mem, index, nextSeq, g, 0, 1);
    StartsGrow(mem, index, nextSeq, g, 1, |g.at|);
    forall i | 0 <= i < |g'.at| ensures LiveOk(mem, index, nextSeq, g', i) {
      assert LiveOk(mem, index, nextSeq, g, i + 1);
      assert g'.Start(i + 1) == g.Start(i + 2);
    }
  }

  // ---------------------------------------------------------------------------
  // Appending a node

  function Appended(g: Log, e: Entry, end: nat): Log { Log(g.at + [g.end], g.live + [e], end) }

  /** The slots of fewer than a round of consecutive sequence numbers differ. */
  lemma SlotsDiffer(a: nat, b: nat, m: nat)
    requires a < b < a + m
    ensures a % m != b % m
  {
    if a % m == b % m {
      var qa, qb := a / m, b / m;
      assert a == qa * m + a % m && b == qb * m + b % m;
      assert (qb - qa) * m == b - a;
      if qb - qa >= 1 { Scale(qb - qa, m); } else if qb - qa <= -1 { Scale(qa - qb, m); }
    }
  }

  /** A live node next to the new one. */
  lemma LiveStays(mem: seq<Byte>, index: seq<nat>, nextSeq: nat, g: Log,
                  mem': seq<Byte>, index': seq<nat>, nextSeq': nat, g': Log, e: Entry, i: nat)
    requires SyncOk(mem, index, nextSeq, g) && i < |g.at| && nextSeq' == nextSeq + 1
    requires Same(mem, mem', g.Start(0), g.end) && g' == Appended(g, e, g'.end)
    requires |index'| == |index| > 0
    requires (forall k :: 0 <= k < |index| && k != nextSeq % |index| ==> index'[k] == index[k])
    ensures LiveOk(mem', index', nextSeq', g', i)
  {
    assert LiveOk(mem, index, nextSeq, g, i);
    LiveAddress(mem, index, nextSeq, g, i);
    LiveFitsIndex(mem, index, nextSeq, g);
    PartWithin(mem, mem', g.Start(0), g.end, g.at[i], NodeSize(|g.live[i].data|));
    NodeSame(mem, mem', g.at[i], g.live[i]);
    SlotsDiffer(g.live[i].seqNo, nextSeq, |index|);
    assert g'.Start(i + 1) == g.Start(i + 1);
  }

  /** The commit of a push. */
  lemma AppendOk(mem: seq<Byte>, index: seq<nat>, nextSeq: nat, g: Log,
                 mem': seq<Byte>, index': seq<nat>, nextSeq': nat, g': Log, e: Entry, slot: nat)
    requires SyncOk(mem, index, nextSeq, g) && nextSeq' == nextSeq + 1 < U64
    requires Same(mem, mem', g.Start(0), g.end) && NodeAt(mem', g.end, e) && e.seqNo == nextSeq
    requires |index'| == |index| && slot < |index| && slot == nextSeq % |index| && index' == index[slot := index'[slot]]
    requires index'[slot] * 8 == Phys(|mem|, g.end)
    requires g' == Appended(g, e, NextStart(|mem|, g.end, |e.data|))
    requires NodeSize(|e.data|) + OVERWRITE <= |mem| - 1 - g.Used()
    ensures SyncOk(mem', index', nextSeq', g')
  {
    var n := |g.at|;
    assert g'.Start(0) == g.Start(0) && g'.Start(n) == g.end;
    AppendUsed(mem, index, nextSeq, g, |e.data|);
    NextPlaced(|mem|, g.end, |e.data|);
    forall i | 0 <= i < |g'.at| ensures LiveOk(mem', index', nextSeq', g', i) {
      if i < n { LiveStays(mem, index, nextSeq, g, mem', index', nextSeq', g', e, i); }
      else { PhysAligned(|mem|, g.end); }
    }
  }

  lemma AppendUsed(mem: seq<Byte>, index: seq<nat>, nextSeq: nat, g: Log, len: nat)
    requires SyncOk(mem, index, nextSeq, g) && NodeSize(len) + OVERWRITE <= |mem| - 1 - g.Used()
    ensures var w := NextStart(|mem|, g.end, len);
            && g.end <= w
            && w - g.Start(0) + OVERWRITE + 8 <= |mem| + (if Phys(|mem|, w) == 0 then 16 else 0)
  {
    NextPlaced(|mem|, g.end, len);
    UsedAligned(mem, index, nextSeq, g);
    Mod8(g.Used(), NodeSize(len));
    Gap8(g.Used() + NodeSize(len) + OVERWRITE, |mem|);
  }

  lemma UsedAligned(mem: seq<Byte>, index: seq<nat>, nextSeq: nat, g: Log)
    requires SyncOk(mem, index, nextSeq, g)
    ensures g.Used() % 8 == 0
  {
    assert g.Start(0) % 8 == 0 by {
      if g.at != [] { assert LiveOk(mem, index, nextSeq, g, 0); }
    }
    Mod8(g.end, g.Start(0));
  }

  // ---------------------------------------------------------------------------
  // The band behind the head

  /** IsValidPos: between the head, or 4096 bytes before it, and the tail. */
  predicate ValidPos(size: nat, head: nat, tail: nat, pos: nat) {
    if head >= size || tail >= size || pos >= size then false
    else
      var low := LowPos(size, head, tail);
      if low <= tail then low <= pos < tail else !(pos < low && pos >= tail)
  }

  /** The head, or the place 4096 bytes before it; `head - 1` wraps. */
  function LowPos(size: nat, head: nat, tail: nat): int {
    var before := if head == 0 then U64 - 1 else head - 1;
    if PosOff(size, before, tail) >= OVERWRITE then PosSub(size, head, OVERWRITE / 4) else head
  }

  /** First address that IsValidPos accepts. */
  ghost function Low(size: nat, g: Log): int
    requires size > 0
  {
    if size - 1 - g.Used() >= 16384 || Phys(size, g.Start(0)) == 0 then g.Start(0) - 4096 else g.Start(0)
  }

  /** IsValidPos accepts exactly the places of the addresses from `Low` to the end. */
  lemma ValidPosIsWindow(mem: seq<Byte>, index: seq<nat>, nextSeq: nat, g: Log, v: nat)
    requires SyncOk(mem, index, nextSeq, g) && Low(|mem|, g) <= v < Low(|mem|, g) + |mem|
    ensures ValidPos(|mem|, Phys(|mem|, g.Start(0)), Phys(|mem|, g.end), Phys(|mem|, v)) <==> v < g.end
  {
    LowPlace(mem, index, nextSeq, g);
    WindowPlaces(|mem|, Low(|mem|, g), v, g.end);
  }

  /** IsValidPos computes the place of the first address that it accepts. */
  lemma LowPlace(mem: seq<Byte>, index: seq<nat>, nextSeq: nat, g: Log)
    requires SyncOk(mem, index, nextSeq, g)
    ensures 0 <= Low(|mem|, g) <= g.end < Low(|mem|, g) + |mem|
    ensures Phys(|mem|, Low(|mem|, g)) == LowPos(|mem|, Phys(|mem|, g.Start(0)), Phys(|mem|, g.end))
  {
    var size, low := |mem|, Low(|mem|, g);
    PhysOff(size, g.Start(0), g.end);
    PhysAdd(size, low, g.Start(0) - low);
  }

  /** The places of the addresses from `low` to `end` among those of a whole lap. */
  lemma WindowPlaces(size: nat, low: nat, v: nat, end: nat)
    requires 0 < size && low <= v < low + size && low <= end < low + size
    ensures var a, p, b := Phys(size, low), Phys(size, v), Phys(size, end);
            (if a <= b then a <= p < b else !(p < a && p >= b)) <==> v < end
  {
    PhysAdd(size, low, v - low);
    PhysAdd(size, low, end - low);
  }

  /**
   * The overwrite band: until 12288 bytes of ring, gaps included, have been consumed after a
   * moment between pushes, no address accepted by IsValidPos at that moment has been reused.
   */
  lemma BandIsLong(mem: seq<Byte>, index: seq<nat>, nextSeq: nat, g: Log, v: nat, end: nat)
    requires SyncOk(mem, index, nextSeq, g) && Low(|mem|, g) <= v < g.end && end - g.end <= 12288
    ensures end <= v + |mem|
  {
    UsedAligned(mem, index, nextSeq, g);
    if Phys(|mem|, g.end) == 0 == Phys(|mem|, g.Start(0)) && g.at != [] {
      PhysOff(|mem|, g.Start(0), g.end);
    }
  }
}
