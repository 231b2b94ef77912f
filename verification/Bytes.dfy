/** Bytes of a shared-memory segment, and the little-endian fixed-width fields stored in them. */
module Bytes {

  type Byte = x: int | 0 <= x < 256

  const U32 := 0x1_0000_0000
  const U64 := 0x1_0000_0000_0000_0000

  /** Number of distinct values of a field of `w` bytes. */
  function Span(w: nat): (r: nat)
    ensures r > 0
  {
    if w == 0 then 1 else 256 * Span(w - 1)
  }

  /** The `w` bytes an unsigned field of that width occupies; higher bits are dropped. */
  function LE(n: nat, w: nat): (r: seq<Byte>)
    ensures |r| == w
  {
    if w == 0 then [] else [n % 256] + LE(n / 256, w - 1)
  }

  /** The number a field's bytes denote. */
  function Val(s: seq<Byte>): nat {
    if s == [] then 0 else s[0] + 256 * Val(s[1..])
  }

  /** Storing a number in a field and loading it back yields the number modulo the field's span. */
  lemma {:induction false} ValOfLE(n: nat, w: nat)
    ensures Val(LE(n, w)) == n % Span(w)
  {
    if w == 0 {
    } else {
      ValOfLE(n / 256, w - 1);
      assert LE(n, w)[1..] == LE(n / 256, w - 1);
      ModSplit(n, Span(w - 1));
    }
  }

  /** The bytes of a field, the low one first. */
  lemma LittleEndian(n: nat)
    ensures LE(n, 2) == [n % 0x100, n / 0x100 % 0x100]
    ensures LE(n, 4) == [n % 0x100, n / 0x100 % 0x100, n / 0x100 / 0x100 % 0x100, n / 0x100 / 0x100 / 0x100 % 0x100]
  {
    var m, k, j := n / 256, n / 256 / 256, n / 256 / 256 / 256;
    assert LE(j, 1) == [j % 256] + LE(j / 256, 0) == [j % 256];
    assert LE(k, 1) == [k % 256] + LE(j, 0) == [k % 256];
    assert LE(k, 2) == [k % 256] + LE(j, 1) == [k % 256, j % 256];
    assert LE(m, 1) == [m % 256] + LE(k, 0) == [m % 256];
    assert LE(m, 3) == [m % 256] + LE(k, 2) == [m % 256, k % 256, j % 256];
    assert LE(n, 4) == [n % 256] + LE(m, 3);
    assert LE(n, 2) == [n % 256] + LE(m, 1);
  }

  lemma ModSplit(n: nat, m: nat)
    requires m > 0
    ensures n % (256 * m) == n % 256 + 256 * ((n / 256) % m)
  {
    var q, r := (n / 256) / m, (n / 256) % m;
    assert n / 256 == q * m + r;
    assert n == 256 * (q * m + r) + n % 256;
    assert 256 * (q * m) == q * (256 * m);
    var rest := n % 256 + 256 * r;
    assert 0 <= rest < 256 * m;
    assert n == q * (256 * m) + rest;
    ModUnique(n, 256 * m, q, rest);
  }

  /** A factor of at least one scales a positive number to at least itself. */
  lemma Scale(k: int, m: int)
    requires k >= 1 && m > 0
    ensures k * m >= m
  {}

  lemma Shorter(a: nat, b: nat, unit: nat)
    requires a * unit < b * unit
    ensures a < b
  {
    assert a >= b ==> (a - b) * unit >= 0;
    assert a * unit == b * unit + (a - b) * unit;
  }

  lemma ModUnique(n: int, m: int, q: int, r: int)
    requires m > 0 && 0 <= r < m && n == q * m + r
    ensures n % m == r && n / m == q
  {
    var q', r' := n / m, n % m;
    assert n == q' * m + r';
    var d := q - q';
    assert d * m == q * m - q' * m;
    if d >= 1 {
      Scale(d, m);
    } else if d <= -1 {
      Scale(-d, m);
    }
  }

  lemma Spans()
    ensures Span(1) == 256 && Span(2) == 65536 && Span(4) == U32 && Span(8) == U64
  {
    assert Span(3) == 256 * Span(2);
    assert Span(5) == 256 * Span(4);
    assert Span(6) == 256 * Span(5);
    assert Span(7) == 256 * Span(6);
  }

  lemma ValOf32(n: nat)
    ensures Val(LE(n, 4)) == n % U32
    ensures n < U32 ==> Val(LE(n, 4)) == n
  {
    Spans();
    ValOfLE(n, 4);
  }

  lemma {:induction false} ValBound(s: seq<Byte>)
    ensures Val(s) < Span(|s|)
  {
    if s == [] {
    } else {
      ValBound(s[1..]);
    }
  }

  /** Overwrites `|b|` bytes at `p`. */
  function Splice(m: seq<Byte>, p: nat, b: seq<Byte>): (r: seq<Byte>)
    requires p + |b| <= |m|
    ensures |r| == |m|
    ensures forall i :: 0 <= i < |m| ==> r[i] == if p <= i < p + |b| then b[i - p] else m[i]
  {
    m[..p] + b + m[p + |b|..]
  }

  function Min(a: nat, b: nat): nat { if a <= b then a else b }

  /** Rounds up to a multiple of `n`. */
  function RoundAlign(x: nat, n: nat): (r: nat)
    requires n > 0
    ensures x <= r < x + n && r % n == 0
  {
    var k := (x + n - 1) / n;
    assert x + n - 1 == k * n + (x + n - 1) % n;
    ModUnique(k * n, n, k, 0);
    k * n
  }
}
