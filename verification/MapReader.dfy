/**
 * A reader of the hash map, one load from shared memory per step
 * (src/lib_bsp/shmc/shm_hash_map.h, Find and DoRead; src/lib_bsp/shmc/shm_hash_table.h, Find;
 * src/lib_bsp/shmc/shm_link_table.h, both forms of Read).
 *
 * Keys and payloads are loaded byte by byte, so that the reader can meet them half written.
 */
module MapReader {
  import opened Bytes
  import opened LinkRep
  import opened Cells
  import opened Tags
  import opened MapWriter

  /** The search for a key, once its cell has been found. */
  datatype Quest = Quest(key: Key, cell: nat, tries: nat)

  /**
   * One round of DoRead: the handle loaded at its start and the output string.  `born` is the draw
   * that the handle's tag came from, and `next` the first draw that had not been published when the
   * handle was loaded; they only serve the proof.
   */
  datatype Look = Look(q: Quest, lb: Handle, born: nat, next: nat, out: seq<Byte>)

  datatype RPc =
    | RIdle
    | Probe(key: Key, r: nat, acc: seq<Byte>)
    | ProbeLb(key: Key, r: nat, acc: seq<Byte>)
    | LoadLb(q: Quest, out: seq<Byte>)
    // Read with a buffer of size 0, for the length
    | Tag1(k: Look)
    | Len1(k: Look)
    | Sum1(k: Look, len: nat, acc: seq<Byte>)
    | Crc1(k: Look, len: nat, acc: seq<Byte>)
    // Read into the resized string
    | Tag2(k: Look)
    | Len2(k: Look)
    | Copy2(k: Look, len: nat, j: nat)
    | Sum2(k: Look, len: nat, acc: seq<Byte>)
    | Crc2(k: Look, len: nat, acc: seq<Byte>)
    | Next2(k: Look, len: nat, off: nat)
    | NodeTag(k: Look, len: nat, off: nat, n: nat, hops: nat)
    | NodeCopy(k: Look, len: nat, off: nat, n: nat, hops: nat, j: nat)
    | NodeNext(k: Look, len: nat, off: nat, n: nat, hops: nat)
    | CheckKey(k: Look, acc: seq<Byte>)
    | Recheck(k: Look, ret: bool)
    | Done(ok: bool, key: Key, val: seq<Byte>)

  /** Data bytes in the first node, as Read computes them. */
  function First(unit: nat, len: nat): nat
    requires unit >= 8
  {
    Min(unit - 8, len)
  }

  /** std::string::resize. */
  function Resize(s: seq<Byte>, n: nat): (r: seq<Byte>)
    ensures |r| == n
  {
    if n <= |s| then s[..n] else s + seq(n - |s|, _ => 0)
  }

  // ---------------------------------------------------------------------------
  // Steps

  /** The next probe of Find, or failure after the last one. */
  function NextProbe(c: Config, key: Key, r: nat): RPc {
    if r < |c.probe(key)| then (if c.keyLen == 0 then ProbeLb(key, r, []) else Probe(key, r, []))
    else Done(false, key, [])
  }

  /** The start of a round of DoRead. */
  function Round(q: Quest, out: seq<Byte>): RPc {
    if q.tries >= READ_TRIES then Done(false, q.key, out) else LoadLb(q.(tries := q.tries + 1), out)
  }

  /** After a successful Read the key is loaded again. */
  function AfterRead(c: Config, k: Look): RPc {
    if c.keyLen == 0 then (if k.q.key == [] then Recheck(k, true) else Done(false, k.q.key, k.out))
    else CheckKey(k, [])
  }

  function AfterLen1(unit: nat, k: Look, len: nat, acc: seq<Byte>): RPc
    requires unit >= 8
  {
    if |acc| < First(unit, len) then Sum1(k, len, acc) else Crc1(k, len, acc)
  }

  /** Bytes of the first node that fit the string. */
  function Room2(unit: nat, k: Look, len: nat): nat
    requires unit >= 8
  {
    Min(First(unit, len), |k.out|)
  }

  function AfterCopy2(unit: nat, k: Look, len: nat, j: nat): RPc
    requires unit >= 8
  {
    if j < Room2(unit, k, len) then Copy2(k, len, j) else AfterSum2(unit, k, len, [])
  }

  function AfterSum2(unit: nat, k: Look, len: nat, acc: seq<Byte>): RPc
    requires unit >= 8
  {
    if |acc| < First(unit, len) then Sum2(k, len, acc) else Crc2(k, len, acc)
  }

  /** The loop head of Read: done when nothing is left, failure when the list ends too soon. */
  function Walk(c: Config, k: Look, len: nat, off: nat, n: nat, hops: nat): RPc {
    if off >= len then AfterRead(c, k)
    else if n == 0 then Recheck(k, false)
    else NodeTag(k, len, off, n, hops)
  }

  /** Bytes of a later node that Read copies. */
  function Share(unit: nat, k: Look, len: nat, off: nat): nat
    requires off <= len && off <= |k.out|
  {
    Min(Min(unit, len - off), |k.out| - off)
  }

  function AfterNodeCopy(c: Config, unit: nat, k: Look, len: nat, off: nat, n: nat, hops: nat, j: nat): RPc
    requires off <= len && off <= |k.out|
  {
    if j < Share(unit, k, len, off) then NodeCopy(k, len, off, n, hops, j)
    else if off + j >= |k.out| then AfterRead(c, k)
    else NodeNext(k, len, off + j, n, hops)
  }

  /** Every address that the next load uses lies inside its table. */
  ghost predicate RInBounds(c: Config, s: State, r: RPc) {
    && WellSized(s.t)
    && (forall i :: 0 <= i < |s.cells| ==> |s.cells[i].key| == c.keyLen)
    && match r
       case Probe(key, i, acc) => i < |c.probe(key)| && c.probe(key)[i] < |s.cells| && |acc| < c.keyLen
       case ProbeLb(key, i, acc) => i < |c.probe(key)| && c.probe(key)[i] < |s.cells|
       case LoadLb(q, _) => q.cell < |s.cells|
       case Len1(k) => 0 < k.lb.head < |s.t.nodes|
       case Sum1(k, len, acc) => 0 < k.lb.head < |s.t.nodes| && |acc| < First(s.t.unit, len)
       case Crc1(k, len, acc) => 0 < k.lb.head < |s.t.nodes|
       case Len2(k) => 0 < k.lb.head < |s.t.nodes|
       case Copy2(k, len, j) => 0 < k.lb.head < |s.t.nodes| && j < Room2(s.t.unit, k, len)
       case Sum2(k, len, acc) => 0 < k.lb.head < |s.t.nodes| && |acc| < First(s.t.unit, len)
       case Crc2(k, len, acc) => 0 < k.lb.head < |s.t.nodes|
       case Next2(k, len, off) => 0 < k.lb.head < |s.t.nodes|
       case NodeTag(k, len, off, n, _) => 0 < n < |s.t.nodes| && off < len && off < |k.out|
       case NodeCopy(k, len, off, n, _, j) =>
         0 < n < |s.t.nodes| && off < len && off < |k.out| && j < Share(s.t.unit, k, len, off)
       case NodeNext(k, len, off, n, _) => 0 < n < |s.t.nodes|
       case CheckKey(k, acc) => k.q.cell < |s.cells| && |acc| < c.keyLen
       case Recheck(k, _) => k.q.cell < |s.cells|
       case _ => true
  }

  /** The draw that a handle's tag came from. */
  ghost function BornAt(s: State, lb: Handle): nat {
    if lb.IsSet() && lb.head in s.g.birth then s.g.birth[lb.head] else 0
  }

  /** The first draw that is not published yet: the one under way, or else the next one. */
  ghost function NextDraw(s: State): nat { if Drawn(s.pc) then s.g.draws else s.g.draws + 1 }

  /** The next load. */
  ghost function RAdvance(c: Config, s: State, r: RPc): RPc
    requires RInBounds(c, s, r)
  {
    match r
    case RIdle => r
    case Probe(key, i, acc) =>
      var acc' := acc + [s.cells[c.probe(key)[i]].key[|acc|]];
      if |acc'| < c.keyLen then Probe(key, i, acc') else ProbeLb(key, i, acc')
    case ProbeLb(key, i, acc) =>
      if s.cells[c.probe(key)[i]].lb.IsSet() && acc == key then Round(Quest(key, c.probe(key)[i], 0), [])
      else NextProbe(c, key, i + 1)
    case LoadLb(q, out) =>
      var lb := s.cells[q.cell].lb;
      Tag1(Look(q, lb, BornAt(s, lb), NextDraw(s), out))
    case Tag1(k) =>
      if 0 < k.lb.head < |s.t.nodes| && s.t.nodes[k.lb.head].tag == WithFlag(k.lb.tag) then Len1(k)
      else Recheck(k, false)
    case Len1(k) => assert NodeOk(s.t, s.t.nodes[k.lb.head]);
      AfterLen1(s.t.unit, k, BufLen(s.t.nodes[k.lb.head]), [])
    case Sum1(k, len, acc) => assert NodeOk(s.t, s.t.nodes[k.lb.head]);
      AfterLen1(s.t.unit, k, len, acc + [s.t.nodes[k.lb.head].payload[8 + |acc|]])
    case Crc1(k, len, acc) => assert NodeOk(s.t, s.t.nodes[k.lb.head]);
      if BufCrc(s.t.nodes[k.lb.head]) == c.crc(acc) % U32 then Tag2(k.(out := Resize(k.out, len)))
      else Recheck(k, false)
    case Tag2(k) =>
      if 0 < k.lb.head < |s.t.nodes| && s.t.nodes[k.lb.head].tag == WithFlag(k.lb.tag) then Len2(k)
      else Recheck(k, false)
    case Len2(k) => assert NodeOk(s.t, s.t.nodes[k.lb.head]);
      AfterCopy2(s.t.unit, k, BufLen(s.t.nodes[k.lb.head]), 0)
    case Copy2(k, len, j) => assert NodeOk(s.t, s.t.nodes[k.lb.head]);
      AfterCopy2(s.t.unit, k.(out := k.out[j := s.t.nodes[k.lb.head].payload[8 + j]]), len, j + 1)
    case Sum2(k, len, acc) => assert NodeOk(s.t, s.t.nodes[k.lb.head]);
      AfterSum2(s.t.unit, k, len, acc + [s.t.nodes[k.lb.head].payload[8 + |acc|]])
    case Crc2(k, len, acc) => assert NodeOk(s.t, s.t.nodes[k.lb.head]);
      if BufCrc(s.t.nodes[k.lb.head]) != c.crc(acc) % U32 then Recheck(k, false)
      else if Room2(s.t.unit, k, len) >= |k.out| then AfterRead(c, k)
      else Next2(k, len, Room2(s.t.unit, k, len))
    case Next2(k, len, off) => Walk(c, k, len, off, s.t.nodes[k.lb.head].next, 1)
    case NodeTag(k, len, off, n, hops) =>
      if s.t.nodes[n].tag != k.lb.tag then Recheck(k, false)
      else AfterNodeCopy(c, s.t.unit, k, len, off, n, hops, 0)
    case NodeCopy(k, len, off, n, hops, j) => assert NodeOk(s.t, s.t.nodes[n]);
      AfterNodeCopy(c, s.t.unit, k.(out := k.out[off + j := s.t.nodes[n].payload[j]]), len, off, n, hops, j + 1)
    case NodeNext(k, len, off, n, hops) => Walk(c, k, len, off, s.t.nodes[n].next, hops + 1)
    case CheckKey(k, acc) =>
      var acc' := acc + [s.cells[k.q.cell].key[|acc|]];
      if |acc'| < c.keyLen then CheckKey(k, acc')
      else if acc' == k.q.key then Recheck(k, true) else Done(false, k.q.key, k.out)
    case Recheck(k, ret) =>
      if s.cells[k.q.cell].lb == k.lb then Done(ret, k.q.key, k.out) else Round(k.q, k.out)
    case Done(_, _, _) => r
  }
}
