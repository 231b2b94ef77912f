/**
 * Rows of the multi-row hash table: prime moduli, row sizes and indexes
 * (src/lib_bsp/shmc/common_utils.h, IsPrime and GetPrimeArray; src/lib_bsp/shmc/shm_hash_table.h,
 * CalcAllRows, SquareRoot and the geometry part of InitForWrite and InitForRead).
 */
module Geometry {
  import opened Bytes

  // ---------------------------------------------------------------------------
  // Primes

  /** No proper divisor; 0 and 1 pass, as they do in the code. */
  ghost predicate NoDivisor(n: nat) {
    forall d {:trigger n % d} :: 2 <= d < n ==> n % d != 0
  }

  ghost predicate Prime(n: nat) { n >= 2 && NoDivisor(n) }

  /** A number above half of `n` does not divide it. */
  lemma BigDivisor(n: nat, d: nat)
    requires n / 2 < d < n
    ensures n % d != 0
  {
    ModUnique(n, d, 1, n - d);
  }

  method IsPrime(num: nat) returns (r: bool)
    ensures r <==> NoDivisor(num)
  {
    var i := 2;
    while i <= num / 2
      invariant i >= 2
      invariant forall d {:trigger num % d} :: 2 <= d < i && d < num ==> num % d != 0
    {
      if num % i == 0 {
        return false;
      }
      i := i + 1;
    }
    forall d | 2 <= d < num ensures num % d != 0 {
      if d >= i { BigDivisor(num, d); }
    }
    r := true;
  }

  /** Numbers up to `top` that pass for primes. */
  ghost function PrimesUpTo(top: nat): nat {
    if top == 0 then 0 else PrimesUpTo(top - 1) + if NoDivisor(top) then 1 else 0
  }

  /** The numbers found are the largest ones up to `top`, in falling order, with none left out. */
  ghost predicate Largest(top: nat, low: nat, primes: seq<nat>) {
    && (forall i :: 0 <= i < |primes| ==> low < primes[i] <= top && NoDivisor(primes[i]))
    && (forall i, j :: 0 <= i < j < |primes| ==> primes[i] > primes[j])
    && (forall x {:trigger NoDivisor(x)} :: low < x <= top && NoDivisor(x) ==> x in primes)
  }

  /**
   * Finds the `num` largest primes up to `top`.  It fails exactly when there are too few; 1 counts
   * as a prime.
   */
  method GetPrimeArray(top: nat, num: nat) returns (ok: bool, primes: seq<nat>)
    ensures ok <==> num <= PrimesUpTo(top)
    ensures ok ==> |primes| == num && exists low: nat :: low <= top && Largest(top, low, primes)
  {
    primes := [];
    var t: nat, left: nat := top, num;
    while t > 0 && left > 0
      invariant t <= top && left + |primes| == num
      invariant Largest(top, t, primes) && PrimesUpTo(t) + |primes| == PrimesUpTo(top)
    {
      var p := IsPrime(t);
      if p {
        primes := primes + [t];
        left := left - 1;
      }
      t := t - 1;
    }
    ok := left == 0;
  }

  /** The largest prime up to `n`. */
  ghost predicate LargestPrime(n: nat, p: nat) {
    Prime(p) && p <= n && forall q {:trigger NoDivisor(q)} :: p < q <= n ==> !NoDivisor(q)
  }

  lemma LargestPrimeUnique(n: nat, p: nat, q: nat)
    requires LargestPrime(n, p) && LargestPrime(n, q)
    ensures p == q
  {
    assert NoDivisor(p) && NoDivisor(q);
  }

  lemma {:induction false} SomePrime(top: nat)
    requires top >= 2
    ensures PrimesUpTo(top) >= 2
  {
    assert NoDivisor(1) && NoDivisor(2);
    if top == 2 {
      assert PrimesUpTo(1) == 1;
    } else {
      SomePrime(top - 1);
    }
  }

  // ---------------------------------------------------------------------------
  // Rows

  const MAX_ROWS := 100
  const ROW_RATIO := 60

  /** Size of row `i`: every row has `ratio` percent of the one before it. */
  function RowSize(first: nat, ratio: nat, i: nat): nat {
    if i == 0 then first else RowSize(first, ratio, i - 1) * ratio / 100
  }

  /** Index of the first node of row `i`. */
  function RowBase(first: nat, ratio: nat, i: nat): nat {
    if i == 0 then 0 else RowBase(first, ratio, i - 1) + RowSize(first, ratio, i - 1)
  }

  ghost predicate RowsOk(first: nat, ratio: nat, mods: seq<nat>, index: seq<nat>) {
    && |mods| == |index|
    && forall r {:trigger RowOk(first, ratio, mods, index, r)} :: 0 <= r < |mods| ==>
         RowOk(first, ratio, mods, index, r)
  }

  ghost predicate RowOk(first: nat, ratio: nat, mods: seq<nat>, index: seq<nat>, r: nat)
    requires r < |mods| == |index|
  {
    && RowSize(first, ratio, r) >= 2
    && LargestPrime(RowSize(first, ratio, r), mods[r])
    && index[r] == RowBase(first, ratio, r)
  }

  lemma AddRow(first: nat, ratio: nat, mods: seq<nat>, index: seq<nat>, p: nat)
    requires RowsOk(first, ratio, mods, index)
    requires RowSize(first, ratio, |mods|) >= 2 && LargestPrime(RowSize(first, ratio, |mods|), p)
    ensures RowsOk(first, ratio, mods + [p], index + [RowBase(first, ratio, |mods|)])
    ensures Sum(mods + [p]) == Sum(mods) + p
    ensures RowBase(first, ratio, |mods| + 1) == RowBase(first, ratio, |mods|) + RowSize(first, ratio, |mods|)
    ensures RowSize(first, ratio, |mods| + 1) == RowSize(first, ratio, |mods|) * ratio / 100
  {
    var mods', index' := mods + [p], index + [RowBase(first, ratio, |mods|)];
    assert mods'[..|mods|] == mods;
    forall r | 0 <= r < |mods'| ensures RowOk(first, ratio, mods', index', r) {
      if r < |mods| { assert RowOk(first, ratio, mods, index, r); }
    }
  }

  function Sum(s: seq<nat>): nat {
    if s == [] then 0 else Sum(s[..|s| - 1]) + s[|s| - 1]
  }

  /**
   * Computes the rows.  It stops after `maxRows` rows or when a row would be smaller than 2; so
   * the rows depend on the parameters only.
   */
  method CalcAllRows(first: nat, ratio: nat, maxRows: nat)
    returns (mods: seq<nat>, index: seq<nat>, nodeNum: nat, capacity: nat)
    ensures |mods| <= maxRows && RowsOk(first, ratio, mods, index)
    ensures |mods| == maxRows || RowSize(first, ratio, |mods|) < 2
    ensures nodeNum == RowBase(first, ratio, |mods|) && capacity == Sum(mods)
  {
    mods, index, nodeNum, capacity := [], [], 0, 0;
    var rowSize := first;
    while rowSize >= 2 && |mods| < maxRows
      invariant |mods| <= maxRows && rowSize == RowSize(first, ratio, |mods|)
      invariant RowsOk(first, ratio, mods, index)
      invariant nodeNum == RowBase(first, ratio, |mods|) && capacity == Sum(mods)
      decreases maxRows - |mods|
    {
      SomePrime(rowSize);
      var ok, p := GetPrimeArray(rowSize, 1);
      FirstIsLargest(rowSize, p);
      AddRow(first, ratio, mods, index, p[0]);
      index := index + [nodeNum];
      nodeNum := nodeNum + rowSize;
      capacity := capacity + p[0];
      mods := mods + [p[0]];
      rowSize := rowSize * ratio / 100;
    }
  }

  lemma FirstIsLargest(n: nat, p: seq<nat>)
    requires n >= 2 && |p| == 1 && exists low: nat :: low <= n && Largest(n, low, p)
    ensures LargestPrime(n, p[0])
  {
    var low: nat :| low <= n && Largest(n, low, p);
    assert NoDivisor(2);
    assert low < 2 ==> 2 in p;
    assert NoDivisor(p[0]);
    forall q | p[0] < q <= n ensures !NoDivisor(q) {
      assert NoDivisor(q) ==> q in p;
    }
  }

  /** A reader that starts from the stored parameters computes the writer's rows. */
  lemma RowsReproducible(first: nat, ratio: nat, mods: seq<nat>, index: seq<nat>, mods': seq<nat>, index': seq<nat>)
    requires RowsOk(first, ratio, mods, index) && RowsOk(first, ratio, mods', index')
    requires |mods'| <= |mods| && (|mods'| == |mods| || RowSize(first, ratio, |mods'|) < 2)
    ensures mods' == mods && index' == index
  {
    assert |mods'| < |mods| ==> RowOk(first, ratio, mods, index, |mods'|);
    forall r | 0 <= r < |mods| ensures mods[r] == mods'[r] && index[r] == index'[r] {
      assert RowOk(first, ratio, mods, index, r) && RowOk(first, ratio, mods', index', r);
      LargestPrimeUnique(RowSize(first, ratio, r), mods[r], mods'[r]);
    }
  }

  // ---------------------------------------------------------------------------
  // Cells of the rows

  lemma {:induction false} RowBaseGrows(first: nat, ratio: nat, i: nat, j: nat)
    requires i < j
    ensures RowBase(first, ratio, i) + RowSize(first, ratio, i) <= RowBase(first, ratio, j)
  {
    if i + 1 < j { RowBaseGrows(first, ratio, i, j - 1); }
  }

  /** Distinct (row, column) pairs have distinct indexes, and all of them lie in the node array. */
  lemma CellsDistinct(first: nat, ratio: nat, mods: seq<nat>, index: seq<nat>, r: nat, c: nat, r': nat, c': nat)
    requires RowsOk(first, ratio, mods, index)
    requires r < |mods| && c < mods[r] && r' < |mods| && c' < mods[r']
    ensures index[r] + c < RowBase(first, ratio, |mods|)
    ensures index[r] + c == index[r'] + c' ==> r == r' && c == c'
  {
    assert RowOk(first, ratio, mods, index, r) && RowOk(first, ratio, mods, index, r');
    RowBaseGrows(first, ratio, r, |mods|);
    if r < r' { RowBaseGrows(first, ratio, r, r'); }
    if r' < r { RowBaseGrows(first, ratio, r', r); }
  }

  /** With 60 percent per row the rows never take more than the planned allocation. */
  lemma {:induction false} RowsFit(first: nat, k: nat)
    ensures 40 * RowBase(first, ROW_RATIO, k) + 100 * RowSize(first, ROW_RATIO, k) <= 100 * first
  {
    if k > 0 { RowsFit(first, k - 1); }
  }

  // ---------------------------------------------------------------------------
  // Geometry of a new table

  lemma SquareAbove(n: nat)
    ensures n * n >= n
  {}

  ghost predicate IsRoot(n: nat, root: nat) {
    root * root <= n < (root + 1) * (root + 1)
  }

  method SquareRoot(n: nat) returns (root: nat)
    ensures IsRoot(n, root)
  {
    root := 0;
    var r := 0;
    while r <= n
      invariant 0 <= r <= n + 1 && (r > 0 ==> (r - 1) * (r - 1) < n)
    {
      var sq := r * r;
      if sq == n {
        assert (r + 1) * (r + 1) == r * r + 2 * r + 1;
        return r;
      } else if sq > n {
        return r - 1;
      }
      r := r + 1;
    }
    SquareAbove(n);
    assert false;
  }

  function AllocCap(capacity: nat): nat {
    if capacity < 50 then 100
    else if capacity < 1000 then capacity * 2
    else if capacity < 10000 then capacity * 3 / 2
    else capacity * 5 / 4
  }

  lemma FirstRow(capacity: nat)
    requires 1 <= capacity <= 0xffff_ffff * 80 / 100
    ensures var first := AllocCap(capacity) * (100 - ROW_RATIO) / 100;
            first >= 40 && 100 * first <= 40 * AllocCap(capacity) && AllocCap(capacity) < U32
  {
  }

  /** `n` rows are computed when at most `max` are allowed: those before the first row below 2. */
  ghost predicate RowCount(first: nat, max: nat, n: nat) {
    && n <= max
    && (forall r {:trigger RowSize(first, 60, r)} :: 0 <= r < n ==> RowSize(first, 60, r) >= 2)
    && (n == max || RowSize(first, 60, n) < 2)
  }

  /** The row count of a new table: at most three times the square root of the rows that are possible. */
  ghost predicate Planned(first: nat, n: nat) {
    exists full: nat, root: nat ::
      && RowCount(first, 100, full) && IsRoot(9 * full, root)
      && n == if root < full then root else full
  }

  lemma CountIs(first: nat, mods: seq<nat>, index: seq<nat>, max: nat)
    requires RowsOk(first, ROW_RATIO, mods, index)
    requires |mods| <= max && (|mods| == max || RowSize(first, ROW_RATIO, |mods|) < 2)
    ensures RowCount(first, max, |mods|)
  {
    forall r | 0 <= r < |mods| ensures RowSize(first, ROW_RATIO, r) >= 2 {
      assert RowOk(first, ROW_RATIO, mods, index, r);
    }
  }

  /** What the rows leave of the planned allocation: the next row and less than a node for each row. */
  lemma {:induction false} RowsFill(first: nat, k: nat)
    ensures 40 * RowBase(first, ROW_RATIO, k) + 100 * RowSize(first, ROW_RATIO, k) + 99 * k >= 100 * first
  {
    if k > 0 {
      RowsFill(first, k - 1);
      assert RowSize(first, ROW_RATIO, k) == RowSize(first, ROW_RATIO, k - 1) * 60 / 100;
    }
  }

  /** After `k` rows less than a hundredth is left from the tenth row on. */
  lemma {:induction false} RowsFall(first: nat, k: nat)
    requires k >= 9
    ensures 1000000000 * RowSize(first, ROW_RATIO, k) <= 10077696 * first
  {
    if k == 9 {
      var s := i requires i >= 0 => RowSize(first, ROW_RATIO, i);
      assert 100 * s(1) <= 60 * s(0) && 100 * s(2) <= 60 * s(1) && 100 * s(3) <= 60 * s(2);
      assert 100 * s(4) <= 60 * s(3) && 100 * s(5) <= 60 * s(4) && 100 * s(6) <= 60 * s(5);
      assert 100 * s(7) <= 60 * s(6) && 100 * s(8) <= 60 * s(7) && 100 * s(9) <= 60 * s(8);
    } else {
      RowsFall(first, k - 1);
    }
  }

  /** The planned rows of a table for `capacity` keys have at least as many nodes. */
  lemma Roomy(capacity: nat, first: nat, n: nat)
    requires 1 <= capacity <= 0xffff_ffff * 80 / 100 && first == AllocCap(capacity) * (100 - ROW_RATIO) / 100
    requires Planned(first, n)
    ensures capacity <= RowBase(first, ROW_RATIO, n)
  {
    RowsFill(first, n);
    FewRows(first, n);
    if n >= 9 && 2000000000 <= 10077696 * first { RowsFall(first, n); }
    Enough(capacity, first, n, RowBase(first, ROW_RATIO, n), RowSize(first, ROW_RATIO, n));
  }

  /** Either all rows are planned and there are few of them, or the first of at least nine is long. */
  lemma FewRows(first: nat, n: nat)
    requires Planned(first, n)
    ensures || (n <= 9 && RowSize(first, ROW_RATIO, n) < 2)
            || (9 <= n <= 30 && 2000000000 <= 10077696 * first)
  {
    var full: nat, root: nat :| RowCount(first, MAX_ROWS, full) && IsRoot(9 * full, root)
      && n == if root < full then root else full;
    RootOfRows(full, root);
    if root < full {
      assert RowSize(first, ROW_RATIO, 9) >= 2;
      RowsFall(first, 9);
    }
  }

  lemma RootOfRows(full: nat, root: nat)
    requires IsRoot(9 * full, root) && full <= 100
    ensures if full <= 9 then full <= root else 9 <= root < full && root <= 30
  {
    RootAtMost(9 * full, root, 30);
    if full <= 9 {
      assert full * full <= 9 * full;
      RootAtLeast(9 * full, root, full);
    } else {
      RootAtLeast(9 * full, root, 9);
      assert 9 * full < full * full == (full - 1 + 1) * (full - 1 + 1);
      RootAtMost(9 * full, root, full - 1);
    }
  }

  lemma RootAtLeast(n: nat, root: nat, k: nat)
    requires IsRoot(n, root) && k * k <= n
    ensures k <= root
  {
    if root < k { SquareGrows(root + 1, k); }
  }

  lemma RootAtMost(n: nat, root: nat, k: nat)
    requires IsRoot(n, root) && n < (k + 1) * (k + 1)
    ensures root <= k
  {
    if k < root { SquareGrows(k + 1, root); }
  }

  lemma Enough(capacity: nat, first: nat, n: nat, nodes: nat, next: nat)
    requires 1 <= capacity <= 0xffff_ffff * 80 / 100 && first == AllocCap(capacity) * 40 / 100
    requires 40 * nodes + 100 * next + 99 * n >= 100 * first
    requires || (n <= 9 && next < 2)
             || (n <= 30 && 2000000000 <= 10077696 * first && 1000000000 * next <= 10077696 * first)
    ensures capacity <= nodes
  {
  }

  /** A plan leaves no choice. */
  lemma PlannedUnique(first: nat, n: nat, n': nat)
    requires Planned(first, n) && Planned(first, n')
    ensures n == n'
  {
    var full: nat, root: nat :| RowCount(first, MAX_ROWS, full) && IsRoot(9 * full, root)
      && n == if root < full then root else full;
    var full': nat, root': nat :| RowCount(first, MAX_ROWS, full') && IsRoot(9 * full', root')
      && n' == if root' < full' then root' else full';
    assert RowSize(first, ROW_RATIO, full) >= 2 || full >= full';
    assert RowSize(first, ROW_RATIO, full') >= 2 || full' >= full;
    RootUnique(9 * full, root, root');
  }

  lemma RootUnique(n: nat, r: nat, r': nat)
    requires IsRoot(n, r) && IsRoot(n, r')
    ensures r == r'
  {
    if r < r' { SquareGrows(r + 1, r'); }
    if r' < r { SquareGrows(r' + 1, r); }
  }

  lemma SquareGrows(a: nat, b: nat)
    requires a <= b
    ensures a * a <= b * b
  {
    assert b * b - a * a == (b - a) * (b + a);
  }

  /**
   * The rows of a table for `capacity` keys.  For every capacity that InitForWrite accepts the
   * nodes fit the planned allocation and hence 32 bits, and there is at least one row.
   */
  method TableRows(capacity: nat)
    returns (ok: bool, first: nat, mods: seq<nat>, index: seq<nat>, nodeNum: nat)
    ensures ok <==> 1 <= capacity <= 0xffff_ffff * 80 / 100
    ensures ok ==> 100 * first <= 40 * AllocCap(capacity) < 100 * first + 100
    ensures ok ==> AllocCap(capacity) ==
                   if capacity < 50 then 100 else if capacity < 1000 then capacity * 2
                   else if capacity < 10000 then capacity * 3 / 2 else capacity * 5 / 4
    ensures ok ==> RowsOk(first, 60, mods, index) && Planned(first, |mods|) && 1 <= |mods| <= 100
    ensures ok ==> nodeNum == RowBase(first, 60, |mods|) <= AllocCap(capacity) < U32
    ensures ok ==> capacity <= nodeNum
  {
    first, mods, index, nodeNum := 0, [], [], 0;
    if capacity < 1 || capacity > 0xffff_ffff * 80 / 100 {
      return false, first, mods, index, nodeNum;
    }
    ok := true;
    first := AllocCap(capacity) * (100 - ROW_RATIO) / 100;
    FirstRow(capacity);
    mods, index, nodeNum := RowsFrom(first);
    Roomy(capacity, first, |mods|);
  }

  /** At most as many rows as three times the square root of what the first row allows. */
  method RowsFrom(first: nat) returns (mods: seq<nat>, index: seq<nat>, nodeNum: nat)
    requires first >= 2
    ensures RowsOk(first, ROW_RATIO, mods, index) && Planned(first, |mods|) && 1 <= |mods| <= MAX_ROWS
    ensures nodeNum == RowBase(first, ROW_RATIO, |mods|) && 40 * nodeNum <= 100 * first
  {
    var cap;
    mods, index, nodeNum, cap := CalcAllRows(first, ROW_RATIO, MAX_ROWS);
    CountIs(first, mods, index, MAX_ROWS);
    ghost var full := |mods|;
    assert full >= 1;
    var root := SquareRoot(|mods| * 9);
    assert IsRoot(9 * full, root);
    if root < |mods| {
      mods, index, nodeNum, cap := CalcAllRows(first, ROW_RATIO, root);
      assert RowSize(first, ROW_RATIO, |mods|) >= 2 || |mods| >= full;
    }
    assert |mods| == if root < full then root else full;
    RowsFit(first, |mods|);
  }

  // ---------------------------------------------------------------------------
  // Attaching to an existing table

  /** The geometry fields of the table's head. */
  datatype Head = Head(firstRowSize: nat, ratio: nat, rowNum: nat, nodeNum: nat)

  /** A head that some table can have: all its rows exist and the node count is their sum. */
  ghost predicate Consistent(h: Head) {
    && (forall r {:trigger RowSize(h.firstRowSize, h.ratio, r)} ::
          0 <= r < h.rowNum ==> RowSize(h.firstRowSize, h.ratio, r) >= 2)
    && h.nodeNum == RowBase(h.firstRowSize, h.ratio, h.rowNum)
  }

  /** A reader recomputes the rows from the head; it refuses exactly the inconsistent heads. */
  method AttachRows(h: Head) returns (ok: bool, mods: seq<nat>, index: seq<nat>)
    ensures ok <==> Consistent(h)
    ensures ok ==> |mods| == h.rowNum && RowsOk(h.firstRowSize, h.ratio, mods, index)
  {
    var nodeNum, cap;
    mods, index, nodeNum, cap := CalcAllRows(h.firstRowSize, h.ratio, h.rowNum);
    ok := |mods| == h.rowNum && nodeNum == h.nodeNum;
    forall r | 0 <= r < |mods| ensures RowSize(h.firstRowSize, h.ratio, r) >= 2 {
      assert RowOk(h.firstRowSize, h.ratio, mods, index, r);
    }
  }

  /**
   * Creating a table and attaching to it: the reader accepts the head that the writer stored and
   * ends up with the writer's rows, so both probe the same cells for a key.
   */
  method CreateThenAttach(capacity: nat)
    returns (ok: bool, attached: bool, mods: seq<nat>, index: seq<nat>, readMods: seq<nat>, readIndex: seq<nat>)
    ensures ok <==> 1 <= capacity <= 0xffff_ffff * 80 / 100
    ensures ok ==> attached && readMods == mods && readIndex == index && 1 <= |mods|
  {
    var first, nodeNum;
    readMods, readIndex, attached := [], [], false;
    ok, first, mods, index, nodeNum := TableRows(capacity);
    if ok {
      forall r | 0 <= r < |mods| ensures RowSize(first, ROW_RATIO, r) >= 2 {
        assert RowOk(first, ROW_RATIO, mods, index, r);
      }
      attached, readMods, readIndex := AttachRows(Head(first, ROW_RATIO, |mods|, nodeNum));
      RowsReproducible(first, ROW_RATIO, mods, index, readMods, readIndex);
    }
  }
}
