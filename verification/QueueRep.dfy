/**
 * Memory of the single-producer single-consumer queue (src/lib_bsp/shmc/shm_queue.h) and what it
 * represents.
 */
module QueueRep {
  import opened Bytes

  const ALIGN := 64
  const NODE_HEAD := 8
  const DATA_NODE: Byte := 1
  const END_NODE: Byte := 2

  type Msg = seq<Byte>

  /** The queue buffer and the two positions. */
  datatype Ring = Ring(mem: seq<Byte>, head: nat, tail: nat) {
    predicate Wrapped() { tail < head }
  }

  /**
   * Messages from the head up to `end`, and messages from the start of the buffer up to the tail.
   * The second part is empty unless the tail has wrapped, and then `end` is the end flag's place.
   */
  datatype Layout = Layout(up: seq<Msg>, end: nat, low: seq<Msg>) {
    function Msgs(): seq<Msg> { up + low }
  }

  /** Bytes that a message of `len` bytes occupies. */
  function NodeSize(len: nat): (n: nat)
    ensures n % ALIGN == 0 && NODE_HEAD + len <= n < NODE_HEAD + len + ALIGN
  {
    RoundAlign(NODE_HEAD + len, ALIGN)
  }

  /** start_tag, type, flags, len */
  function Header(kind: Byte, len: nat): (h: seq<Byte>)
    ensures |h| == NODE_HEAD
  {
    [0xec, 0x9c, kind, 0] + LE(len, 4)
  }

  ghost predicate HeadAt(mem: seq<Byte>, p: nat, kind: Byte, len: nat) {
    p + NODE_HEAD <= |mem| && mem[p..p + NODE_HEAD] == Header(kind, len)
  }

  ghost predicate DataAt(mem: seq<Byte>, p: nat, m: Msg) {
    p + NODE_HEAD + |m| <= |mem| && mem[p + NODE_HEAD..p + NODE_HEAD + |m|] == m
  }

  ghost predicate NodeAt(mem: seq<Byte>, p: nat, m: Msg) {
    |m| < U32 && HeadAt(mem, p, DATA_NODE, |m|) && DataAt(mem, p, m)
  }

  ghost predicate EndAt(mem: seq<Byte>, p: nat) {
    p + NODE_HEAD <= |mem| && HeadAt(mem, p, END_NODE, |mem| - p - NODE_HEAD)
  }

  /** What the loads of a header's fields yield. */
  lemma HeaderFields(mem: seq<Byte>, p: nat, kind: Byte, len: nat)
    requires HeadAt(mem, p, kind, len)
    ensures mem[p] == 0xec && mem[p + 1] == 0x9c && mem[p + 2] == kind
    ensures Val(mem[p + 4..p + 8]) == len % U32 && (len < U32 ==> Val(mem[p + 4..p + 8]) == len)
  {
    var h := Header(kind, len);
    assert mem[p..p + 8][0] == h[0] && mem[p..p + 8][1] == h[1] && mem[p..p + 8][2] == h[2];
    assert mem[p + 4..p + 8] == mem[p..p + 8][4..8] == LE(len, 4);
    ValOf32(len);
  }

  /** The messages stored one after the other from `a` up to `b`. */
  ghost predicate Seg(mem: seq<Byte>, a: nat, b: nat, msgs: seq<Msg>)
    decreases |msgs|
  {
    if msgs == [] then a == b
    else NodeAt(mem, a, msgs[0]) && Seg(mem, a + NodeSize(|msgs[0]|), b, msgs[1..])
  }

  lemma {:induction false} SegBounds(mem: seq<Byte>, a: nat, b: nat, msgs: seq<Msg>)
    requires Seg(mem, a, b, msgs)
    ensures a <= b && (a == b <==> msgs == []) && a % ALIGN == b % ALIGN
    ensures msgs != [] ==> a + NodeSize(|msgs[0]|) <= b
    decreases |msgs|
  {
    if msgs != [] {
      SegBounds(mem, a + NodeSize(|msgs[0]|), b, msgs[1..]);
      AlignKeep(a, NodeSize(|msgs[0]|));
    }
  }

  lemma {:induction false} SegFrame(mem: seq<Byte>, mem': seq<Byte>, a: nat, b: nat, msgs: seq<Msg>)
    requires Seg(mem, a, b, msgs) && b <= |mem| == |mem'| && forall i :: a <= i < b ==> mem'[i] == mem[i]
    ensures Seg(mem', a, b, msgs)
    decreases |msgs|
  {
    if msgs != [] {
      var next := a + NodeSize(|msgs[0]|);
      SegBounds(mem, next, b, msgs[1..]);
      NodeFrame(mem, mem', a, msgs[0]);
      SegFrame(mem, mem', next, b, msgs[1..]);
    }
  }

  lemma NodeFrame(mem: seq<Byte>, mem': seq<Byte>, p: nat, m: Msg)
    requires NodeAt(mem, p, m) && |mem| == |mem'|
    requires forall i :: p <= i < p + NODE_HEAD + |m| ==> mem'[i] == mem[i]
    ensures NodeAt(mem', p, m)
  {
    assert mem'[p..p + NODE_HEAD] == mem[p..p + NODE_HEAD];
    assert mem'[p + NODE_HEAD..p + NODE_HEAD + |m|] == mem[p + NODE_HEAD..p + NODE_HEAD + |m|];
  }

  lemma {:induction false} SegSnoc(mem: seq<Byte>, a: nat, b: nat, msgs: seq<Msg>, m: Msg)
    requires Seg(mem, a, b, msgs) && NodeAt(mem, b, m)
    ensures Seg(mem, a, b + NodeSize(|m|), msgs + [m])
    decreases |msgs|
  {
    if msgs == [] {
      assert Seg(mem, b + NodeSize(|m|), b + NodeSize(|m|), [m][1..]);
    } else {
      assert (msgs + [m])[1..] == msgs[1..] + [m];
      SegSnoc(mem, a + NodeSize(|msgs[0]|), b, msgs[1..], m);
    }
  }

  // ---------------------------------------------------------------------------
  // The invariant

  /** Positions are aligned and inside the buffer, and the layout's messages are in place. */
  ghost predicate RingOk(r: Ring, l: Layout) {
    && |r.mem| % ALIGN == 0 && r.head % ALIGN == 0 && r.tail % ALIGN == 0
    && r.head < |r.mem| && r.tail < |r.mem|
    && Seg(r.mem, r.head, l.end, l.up) && l.end + ALIGN <= |r.mem|
    && if r.Wrapped() then
         0 < r.tail && EndAt(r.mem, l.end) && Seg(r.mem, 0, r.tail, l.low)
       else l.end == r.tail && l.low == []
  }

  /** The place of the first message. */
  function Front(l: Layout, head: nat): nat { if l.up != [] then head else 0 }

  /** The queue is empty exactly when the positions agree; otherwise the first message is in place. */
  lemma FrontOk(r: Ring, l: Layout)
    requires RingOk(r, l)
    ensures r.head == r.tail <==> l.Msgs() == []
    ensures l.Msgs() != [] ==>
              var p, m := Front(l, r.head), l.Msgs()[0];
              && NodeAt(r.mem, p, m) && p + NodeSize(|m|) + ALIGN <= |r.mem|
              && (p <= r.tail ==> p + NodeSize(|m|) <= r.tail)
              && (p != r.head ==> EndAt(r.mem, r.head) && p == 0)
  {
    SegBounds(r.mem, r.head, l.end, l.up);
    if r.Wrapped() { SegBounds(r.mem, 0, r.tail, l.low); }
  }

  /** Tags and types that a consumer finds at the head of a queue that is not empty. */
  ghost predicate FrontMarks(r: Ring, l: Layout) {
    && l.Msgs() != [] && r.head != r.tail && r.head + NODE_HEAD <= |r.mem|
    && r.mem[r.head] == 0xec && r.mem[r.head + 1] == 0x9c
    && var p := Front(l, r.head);
       && (r.mem[r.head + 2] == END_NODE <==> p != r.head)
       && (p != r.head ==> p == 0 && r.tail != 0)
       && p + NODE_HEAD <= |r.mem|
       && r.mem[p] == 0xec && r.mem[p + 1] == 0x9c && r.mem[p + 2] == DATA_NODE
       && (p <= r.tail ==> p + NodeSize(|l.Msgs()[0]|) <= r.tail)
  }

  /** Length and data of the first message. */
  ghost predicate FrontData(r: Ring, l: Layout) {
    && l.Msgs() != []
    && var p, m := Front(l, r.head), l.Msgs()[0];
       && p + NODE_HEAD + |m| <= |r.mem| && p % ALIGN == 0
       && Val(r.mem[p + 4..p + 8]) == |m|
       && p + NodeSize(|m|) <= |r.mem| - ALIGN && DataAt(r.mem, p, m)
  }

  ghost predicate FrontSeen(r: Ring, l: Layout) { FrontMarks(r, l) && FrontData(r, l) }

  /** The first message ends before the tail or, if it lies behind the tail, before the ring's last 64 bytes. */
  lemma FrontFits(r: Ring, l: Layout)
    requires FrontSeen(r, l)
    ensures var p := Front(l, r.head);
            p + NodeSize(|l.Msgs()[0]|) <= if p <= r.tail then r.tail else |r.mem| - ALIGN
  {
  }

  /** None of PopPrepare's integrity checks fails. */
  lemma FrontLoads(r: Ring, l: Layout)
    requires RingOk(r, l) && l.Msgs() != []
    ensures FrontSeen(r, l)
  {
    FrontOk(r, l);
    FieldsOfNode(r.mem, Front(l, r.head), l.Msgs()[0]);
    if l.up == [] { FieldsOfEnd(r.mem, r.head); }
  }

  /** A message in the ring: start tag, type, flags, length, data. */
  lemma FieldsOfNode(mem: seq<Byte>, p: nat, m: Msg)
    requires NodeAt(mem, p, m)
    ensures mem[p] == 0xec && mem[p + 1] == 0x9c && mem[p + 2] == DATA_NODE == 1 && mem[p + 3] == 0
    ensures Val(mem[p + 4..p + 8]) == |m| && mem[p + 8..p + 8 + |m|] == m
  {
    HeaderFields(mem, p, DATA_NODE, |m|);
    assert mem[p..p + 8][3] == Header(DATA_NODE, |m|)[3];
  }

  lemma FieldsOfEnd(mem: seq<Byte>, p: nat)
    requires EndAt(mem, p)
    ensures mem[p] == 0xec && mem[p + 1] == 0x9c && mem[p + 2] == END_NODE == 2
  {
    HeaderFields(mem, p, END_NODE, |mem| - p - NODE_HEAD);
  }

  lemma EmptyIff(r: Ring, l: Layout)
    requires RingOk(r, l)
    ensures r.head == r.tail <==> l.Msgs() == []
  {
    FrontOk(r, l);
  }

  /** The bytes from `a` up to `b` belong to no message and to no end flag. */
  predicate Unused(r: Ring, a: nat, b: nat) {
    a <= b <= |r.mem| && if r.Wrapped() then r.tail <= a && b <= r.head else b <= r.head || r.tail <= a
  }

  /** Stores into unused bytes do not change the queue. */
  lemma WriteUnused(r: Ring, l: Layout, a: nat, b: nat, mem': seq<Byte>)
    requires RingOk(r, l) && Unused(r, a, b)
    requires |mem'| == |r.mem| && forall i :: 0 <= i < |r.mem| && !(a <= i < b) ==> mem'[i] == r.mem[i]
    ensures RingOk(r.(mem := mem'), l)
  {
    SegBounds(r.mem, r.head, l.end, l.up);
    SegAway(r.mem, mem', r.head, l.end, l.up, a, b);
    if r.Wrapped() {
      SegAway(r.mem, mem', 0, r.tail, l.low, a, b);
      EndFrame(r.mem, mem', l.end);
    }
  }

  lemma SegAway(mem: seq<Byte>, mem': seq<Byte>, p: nat, q: nat, msgs: seq<Msg>, a: nat, b: nat)
    requires Seg(mem, p, q, msgs) && q <= |mem| == |mem'| && (b <= p || q <= a)
    requires forall i :: 0 <= i < |mem| && !(a <= i < b) ==> mem'[i] == mem[i]
    ensures Seg(mem', p, q, msgs)
  {
    SegFrame(mem, mem', p, q, msgs);
  }

  lemma SliceFrame(mem: seq<Byte>, mem': seq<Byte>, a: nat, b: nat)
    requires a <= b <= |mem| == |mem'| && forall i :: a <= i < b ==> mem'[i] == mem[i]
    ensures mem'[a..b] == mem[a..b]
  {
  }

  /** First position behind the room for new messages at the tail. */
  function Limit(r: Ring): nat { if r.head <= r.tail then |r.mem| else r.head }

  /** A node of `len` bytes at `w` fits: at the tail, or at the start with room before the head. */
  predicate RoomAt(r: Ring, w: nat, len: nat) {
    if w == r.tail then r.tail + NodeSize(len) < Limit(r)
    else w == 0 && r.head <= r.tail && NodeSize(len) < r.head
  }

  lemma RoomUnused(r: Ring, l: Layout, w: nat, len: nat)
    requires RingOk(r, l) && RoomAt(r, w, len)
    ensures Unused(r, w, w + NodeSize(len)) && w % ALIGN == 0
    ensures w != r.tail ==> Unused(r, r.tail, r.tail + NODE_HEAD) && NodeSize(len) < r.head <= r.tail
    ensures w + NodeSize(len) < |r.mem|
  {
  }

  /** The layout once the message at `w` is part of the queue. */
  function Pushed(r: Ring, l: Layout, w: nat, m: Msg): Layout {
    if w != r.tail then Layout(l.up, r.tail, [m])
    else if r.Wrapped() then l.(low := l.low + [m])
    else Layout(l.up + [m], r.tail + NodeSize(|m|), [])
  }

  /** Moving the tail behind a node that is in place appends the message. */
  lemma PushOk(r: Ring, l: Layout, w: nat, m: Msg)
    requires RingOk(r, l) && RoomAt(r, w, |m|) && NodeAt(r.mem, w, m) && (w != r.tail ==> EndAt(r.mem, r.tail))
    ensures RingOk(r.(tail := w + NodeSize(|m|)), Pushed(r, l, w, m))
    ensures Pushed(r, l, w, m).Msgs() == l.Msgs() + [m]
  {
    var r' := r.(tail := w + NodeSize(|m|));
    AlignSum(w, NodeSize(|m|));
    SegBounds(r.mem, r.head, l.end, l.up);
    if w != r.tail {
      SegSnoc(r.mem, 0, 0, [], m);
      assert [] + [m] == [m];
      assert r'.tail == NodeSize(|m|) < r'.head;
    } else if r.Wrapped() {
      SegSnoc(r.mem, 0, r.tail, l.low, m);
      assert l.up + (l.low + [m]) == l.up + l.low + [m];
    } else {
      SegSnoc(r.mem, r.head, r.tail, l.up, m);
      AlignGap(r'.tail, |r.mem|);
    }
  }

  lemma AlignSum(a: nat, b: nat)
    requires a % ALIGN == 0 && b % ALIGN == 0
    ensures (a + b) % ALIGN == 0
  {
  }

  lemma AlignKeep(a: nat, n: nat)
    requires n % ALIGN == 0
    ensures (a + n) % ALIGN == a % ALIGN
  {
  }

  lemma AlignGap(a: nat, b: nat)
    requires a % ALIGN == 0 && b % ALIGN == 0 && a < b
    ensures a + ALIGN <= b
  {
  }

  /** The end of a node at an aligned position, rounded up. */
  lemma NodeEnd(w: nat, len: nat)
    requires w % ALIGN == 0
    ensures RoundAlign(w + NODE_HEAD + len, ALIGN) == w + NodeSize(len)
  {
    AlignSum(w, NodeSize(len));
    var a, b := RoundAlign(w + NODE_HEAD + len, ALIGN), w + NodeSize(len);
    if a < b { AlignGap(a, b); } else if b < a { AlignGap(b, a); }
  }

  /** The layout once the first message is gone. */
  function Popped(r: Ring, l: Layout): Layout
    requires l.Msgs() != []
  {
    if l.up != [] then l.(up := l.up[1..]) else Layout(l.low[1..], r.tail, [])
  }

  /** Moving the head behind the first message removes it. */
  lemma PopOk(r: Ring, l: Layout)
    requires RingOk(r, l) && l.Msgs() != []
    ensures RingOk(r.(head := Front(l, r.head) + NodeSize(|l.Msgs()[0]|)), Popped(r, l))
    ensures Popped(r, l).Msgs() == l.Msgs()[1..]
  {
    var m := l.Msgs()[0];
    AlignSum(Front(l, r.head), NodeSize(|m|));
    SegBounds(r.mem, r.head, l.end, l.up);
    if l.up != [] {
      SegBounds(r.mem, r.head + NodeSize(|m|), l.end, l.up[1..]);
    } else {
      SegBounds(r.mem, 0, r.tail, l.low);
      SegBounds(r.mem, NodeSize(|m|), r.tail, l.low[1..]);
    }
  }

  /** More room after a pop: what fitted still fits, and unused bytes stay unused. */
  lemma PopKeepsRoom(r: Ring, l: Layout, w: nat, len: nat, a: nat, b: nat)
    requires RingOk(r, l) && l.Msgs() != []
    ensures var r' := r.(head := Front(l, r.head) + NodeSize(|l.Msgs()[0]|));
            && (RoomAt(r, w, len) ==> RoomAt(r', w, len))
            && (Unused(r, a, b) ==> Unused(r', a, b))
  {
    PopOk(r, l);
    FrontOk(r, l);
    SegBounds(r.mem, r.head, l.end, l.up);
  }

  ghost predicate Granted(r: Ring, w: nat, len: nat) {
    RoomAt(r, w, len) && (w != r.tail ==> EndAt(r.mem, r.tail))
  }

  /** A header in front of the data makes the node that a push adds. */
  lemma NodeStored(r: Ring, l: Layout, w: nat, m: Msg, mem: seq<Byte>)
    requires RingOk(r, l) && Granted(r, w, |m|) && |m| < U32
    requires DataAt(r.mem, w, m) && mem == Splice(r.mem, w, Header(DATA_NODE, |m|))
    ensures RingOk(Ring(mem, r.head, w + NodeSize(|m|)), Pushed(r, l, w, m)) && w % ALIGN == 0
    ensures Pushed(r, l, w, m).Msgs() == l.Msgs() + [m]
  {
    RoomUnused(r, l, w, |m|);
    WriteUnused(r, l, w, w + NODE_HEAD, mem);
    NodeMade(r.mem, w, m, mem);
    if w != r.tail { EndFrame(r.mem, mem, r.tail); }
    PushOk(r.(mem := mem), l, w, m);
    assert Pushed(r.(mem := mem), l, w, m) == Pushed(r, l, w, m);
  }

  lemma NodeMade(was: seq<Byte>, w: nat, m: Msg, mem: seq<Byte>)
    requires |m| < U32 && DataAt(was, w, m) && mem == Splice(was, w, Header(DATA_NODE, |m|))
    ensures NodeAt(mem, w, m)
  {
    SliceFrame(was, mem, w + NODE_HEAD, w + NODE_HEAD + |m|);
    assert mem[w..w + NODE_HEAD] == Header(DATA_NODE, |m|);
  }

  lemma EndFrame(mem: seq<Byte>, mem': seq<Byte>, p: nat)
    requires EndAt(mem, p) && |mem'| == |mem| && forall i :: p <= i < p + NODE_HEAD ==> mem'[i] == mem[i]
    ensures EndAt(mem', p)
  {
    SliceFrame(mem, mem', p, p + NODE_HEAD);
  }

  /** The end flag that PushPrepare writes changes neither the queue nor the descriptors given out before. */
  lemma EndStored(r: Ring, l: Layout, mem: seq<Byte>)
    requires RingOk(r, l) && !r.Wrapped()
    requires mem == Splice(r.mem, r.tail, Header(END_NODE, |r.mem| - r.tail - NODE_HEAD))
    ensures RingOk(r.(mem := mem), l) && EndAt(mem, r.tail)
    ensures forall w, len :: Granted(r, w, len) ==> Granted(r.(mem := mem), w, len)
  {
    WriteUnused(r, l, r.tail, r.tail + NODE_HEAD, mem);
    assert mem[r.tail..r.tail + NODE_HEAD] == Header(END_NODE, |r.mem| - r.tail - NODE_HEAD);
    assert EndAt(mem, r.tail);
  }

  /** Data written into a granted buffer. */
  lemma DataStored(r: Ring, l: Layout, w: nat, data: Msg, r': Ring)
    requires RingOk(r, l) && Granted(r, w, |data|) && w + NODE_HEAD + |data| <= |r.mem|
    requires r'.mem == Splice(r.mem, w + NODE_HEAD, data) && r'.head == r.head && r'.tail == r.tail
    ensures RingOk(r', l) && Granted(r', w, |data|) && DataAt(r'.mem, w, data)
  {
    RoomUnused(r, l, w, |data|);
    WriteUnused(r, l, w + NODE_HEAD, w + NODE_HEAD + |data|, r'.mem);
    if w != r.tail { EndFrame(r.mem, r'.mem, r.tail); }
    assert r'.mem[w + NODE_HEAD..w + NODE_HEAD + |data|] == data;
  }

  /** The commit of a push: the header, then the tail. */
  lemma CommitOk(r: Ring, l: Layout, w: nat, m: Msg, r': Ring)
    requires RingOk(r, l) && Granted(r, w, |m|) && |m| < U32 && DataAt(r.mem, w, m)
    requires r'.mem == Splice(r.mem, w, Header(DATA_NODE, |m|))
    requires r'.head == r.head && r'.tail == RoundAlign(w + NODE_HEAD + |m|, ALIGN)
    ensures RingOk(r', Pushed(r, l, w, m)) && Pushed(r, l, w, m).Msgs() == l.Msgs() + [m] && r'.tail > 0
  {
    NodeStored(r, l, w, m, r'.mem);
    NodeEnd(w, |m|);
  }

  /** The store of the head position behind the first message. */
  lemma HeadStore(r: Ring, l: Layout, p: nat, len: nat, r': Ring)
    requires RingOk(r, l) && l.Msgs() != [] && p == Front(l, r.head) && len == |l.Msgs()[0]|
    requires r'.mem == r.mem && r'.tail == r.tail && r'.head == RoundAlign(p + NODE_HEAD + len, ALIGN)
    ensures r'.head == p + NodeSize(len) && RingOk(r', Popped(r, l)) && Popped(r, l).Msgs() == l.Msgs()[1..]
  {
    FrontOk(r, l);
    NodeEnd(p, len);
    PopOk(r, l);
  }

  lemma GrantedAfterPop(r: Ring, l: Layout)
    requires RingOk(r, l) && l.Msgs() != []
    ensures var r' := r.(head := Front(l, r.head) + NodeSize(|l.Msgs()[0]|));
            forall w, len :: Granted(r, w, len) ==> Granted(r', w, len)
  {
    var r' := r.(head := Front(l, r.head) + NodeSize(|l.Msgs()[0]|));
    forall w, len | Granted(r, w, len) ensures Granted(r', w, len) { PopKeepsRoom(r, l, w, len, 0, 0); }
  }

  /** An empty queue takes every message that is shorter than half the buffer. */
  lemma EmptyTakesHalf(r: Ring, l: Layout, len: nat)
    requires RingOk(r, l) && l.Msgs() == []
    ensures RoomAt(r, r.tail, len) || RoomAt(r, 0, len) <==> r.tail + NodeSize(len) < |r.mem| || NodeSize(len) < r.tail
    ensures 2 * NodeSize(len) < |r.mem| ==> RoomAt(r, r.tail, len) || RoomAt(r, 0, len)
  {
    FrontOk(r, l);
    var n := NodeSize(len);
    if 2 * n < |r.mem| && r.tail + n >= |r.mem| { assert n < r.tail; }
  }
}
