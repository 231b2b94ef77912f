/**
 * Tags of link-bufs: the 32-bit counter `tag_seq_next`, its skip of 0, and the 31-bit tag taken
 * from it (src/lib_bsp/shmc/shm_link_table.h, tag_seq).
 */
module Tags {
  import opened Bytes
  import opened LinkRep

  /** The counter after `d` draws from a new table. */
  function SeqAt(d: nat): (r: nat)
    ensures 1 <= r < U32
  {
    1 + d % (U32 - 1)
  }

  function TagAt(d: nat): (r: nat)
    ensures r < HEAD_FLAG
  {
    SeqAt(d) % HEAD_FLAG
  }

  /** Any this many consecutive draws yield distinct tags. */
  const TAG_WINDOW := 0x7fff_ffff

  /** One increment of the counter; 0 is left by a second one. */
  function Bump(seq32: nat): nat { (seq32 + 1) % U32 }

  /** The counter after `d` draws; the writer may have died just before it left 0. */
  predicate SeqOk(seq32: nat, d: nat) {
    seq32 == SeqAt(d) || (seq32 == 0 && SeqAt(d) == U32 - 1)
  }

  /** One or two increments lead from draw `d` to draw `d + 1`. */
  lemma DrawStep(d: nat, seq32: nat)
    requires SeqOk(seq32, d)
    ensures var n := Bump(seq32); (if n == 0 then Bump(n) else n) == SeqAt(d + 1)
    ensures Bump(seq32) == 0 ==> SeqAt(d) == U32 - 1
  {
    var m := U32 - 1;
    var q, r := d / m, d % m;
    assert d == q * m + r;
    if r + 1 < m {
      ModUnique(d + 1, m, q, r + 1);
    } else {
      assert d + 1 == (q + 1) * m;
      ModUnique(d + 1, m, q + 1, 0);
    }
  }

  /** Two draws of the same tag are at least a window apart. */
  lemma TagGap(d: nat, e: nat)
    requires d < e && TagAt(d) == TagAt(e)
    ensures e - d >= TAG_WINDOW
  {
    var m := U32 - 1;
    var p, x := d / m, d % m;
    var q, y := e / m, e % m;
    assert d == p * m + x && e == q * m + y;
    assert (q - p) * m == q * m - p * m;
    if q - p >= 1 {
      Scale(q - p, m);
    } else if q - p <= -1 {
      Scale(p - q, m);
    }
  }

  /** The window is tight: across the counter's wrap a tag returns after exactly that many draws. */
  lemma TagReturns()
    ensures TagAt(0x8000_0000) == TagAt(0x8000_0000 + TAG_WINDOW)
  {
  }
}
