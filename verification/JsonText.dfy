/**
 * JSON values and the text that FastWriter produces for them
 * (src/third_part/json/jsoncpp.cpp).
 */
module JsonText {
  import opened Bytes

  type Text = seq<Byte>

  const QUOTE: Byte := 0x22
  const BACKSLASH: Byte := 0x5c
  const COMMA: Byte := 0x2c
  const COLON: Byte := 0x3a
  const MINUS: Byte := 0x2d
  const ZERO: Byte := 0x30
  const OPEN_ARRAY: Byte := 0x5b
  const CLOSE_ARRAY: Byte := 0x5d
  const OPEN_OBJECT: Byte := 0x7b
  const CLOSE_OBJECT: Byte := 0x7d
  const NEWLINE: Byte := 0x0a

  const TRUE_TEXT: Text := [0x74, 0x72, 0x75, 0x65]
  const FALSE_TEXT: Text := [0x66, 0x61, 0x6c, 0x73, 0x65]
  const NULL_TEXT: Text := [0x6e, 0x75, 0x6c, 0x6c]

  /** Integers carry no int/uint tag; a real is known by the text that it was read from. */
  datatype Json =
    | Null
    | Bool(b: bool)
    | Num(n: int)
    | Real(text: Text)
    | Str(s: Text)
    | Arr(items: seq<Json>)
    | Obj(members: seq<Member>)

  datatype Member = Member(name: Text, value: Json)

  const MAX_UINT := 0xffff_ffff_ffff_ffff
  const MIN_INT := -0x8000_0000_0000_0000

  // ---------------------------------------------------------------------------
  // Strings

  /** A C string ends at its first NUL. */
  function CStr(s: Text): (r: Text)
    ensures forall i :: 0 <= i < |r| ==> r[i] != 0
    ensures |r| <= |s| && r == s[..|r|] && (|r| < |s| ==> s[|r|] == 0)
  {
    if s == [] || s[0] == 0 then [] else [s[0]] + CStr(s[1..])
  }

  predicate NoNul(s: Text) { forall i :: 0 <= i < |s| ==> s[i] != 0 }

  lemma CStrSame(s: Text)
    ensures CStr(s) == s <==> NoNul(s)
  {
    assert |CStr(s)| < |s| ==> s[|CStr(s)|] == 0;
    if CStr(s) == s { assert forall i :: 0 <= i < |s| ==> CStr(s)[i] != 0; }
  }

  /** Upper-case hexadecimal digit. */
  function Hex(d: nat): Byte
    requires d < 16
  {
    if d < 10 then ZERO + d else 0x41 + d - 10
  }

  /** How one character of a string is written. */
  function Escape(c: Byte): (e: Text)
    ensures 1 <= |e| <= 6
  {
    if c == QUOTE || c == BACKSLASH then [BACKSLASH, c]
    else if c == 0x08 then [BACKSLASH, 0x62]
    else if c == 0x0c then [BACKSLASH, 0x66]
    else if c == 0x0a then [BACKSLASH, 0x6e]
    else if c == 0x0d then [BACKSLASH, 0x72]
    else if c == 0x09 then [BACKSLASH, 0x74]
    else if 0 < c <= 0x1f then [BACKSLASH, 0x75, ZERO, ZERO, Hex(c / 16), Hex(c % 16)]
    else [c]
  }

  function Escaped(s: Text): Text {
    if s == [] then [] else Escape(s[0]) + Escaped(s[1..])
  }

  lemma {:induction false} EscapedSnoc(s: Text, c: Byte)
    ensures Escaped(s + [c]) == Escaped(s) + Escape(c)
  {
    if s == [] {
      assert [] + [c] == [c] && [c][1..] == [];
      assert Escaped([c]) == Escape(c) + [] == Escape(c);
    } else {
      EscapedSnoc(s[1..], c);
      assert (s + [c])[1..] == s[1..] + [c] && (s + [c])[0] == s[0];
      var a, b := Escape(s[0]), Escaped(s[1..]);
      assert a + (b + Escape(c)) == a + b + Escape(c);
    }
  }

  function Quoted(s: Text): Text { [QUOTE] + Escaped(CStr(s)) + [QUOTE] }

  /** Characters that are written as they are. */
  predicate Plain(c: Byte) { Escape(c) == [c] }

  lemma {:induction false} PlainEscaped(s: Text)
    requires forall i :: 0 <= i < |s| ==> Plain(s[i])
    ensures Escaped(s) == s
  {
    if s != [] { PlainEscaped(s[1..]); }
  }

  // ---------------------------------------------------------------------------
  // Integers

  function Digits(n: nat): (d: Text)
    ensures |d| >= 1
  {
    if n < 10 then [ZERO + n] else Digits(n / 10) + [ZERO + n % 10]
  }

  function IntText(n: int): Text { if n < 0 then [MINUS] + Digits(-n) else Digits(n) }

  predicate IsDigit(c: Byte) { ZERO <= c <= 0x39 }

  predicate AllDigits(s: Text) { forall i :: 0 <= i < |s| ==> IsDigit(s[i]) }

  /** The number that decimal digits denote. */
  function DigitsVal(s: Text): nat
    requires AllDigits(s)
  {
    if s == [] then 0 else 10 * DigitsVal(s[..|s| - 1]) + (s[|s| - 1] - ZERO)
  }

  lemma {:induction false} DigitsDenote(n: nat)
    ensures AllDigits(Digits(n)) && DigitsVal(Digits(n)) == n
  {
    if n < 10 {
      assert Digits(n)[..0] == [];
    } else {
      DigitsDenote(n / 10);
      assert Digits(n)[..|Digits(n)| - 1] == Digits(n / 10);
    }
  }

  // ---------------------------------------------------------------------------
  // Values

  /** Number of children, for termination. */
  function Width(v: Json): nat {
    match v
    case Arr(items) => |items|
    case Obj(members) => |members|
    case _ => 0
  }

  /** What writeValue appends for a value. */
  function TextOf(v: Json): Text
    decreases v, Width(v) + 1
  {
    match v
    case Null => NULL_TEXT
    case Bool(b) => if b then TRUE_TEXT else FALSE_TEXT
    case Num(n) => IntText(n)
    case Real(text) => text
    case Str(s) => Quoted(s)
    case Arr(_) => [OPEN_ARRAY] + ItemsFrom(v, 0) + [CLOSE_ARRAY]
    case Obj(_) => [OPEN_OBJECT] + MembersFrom(v, 0) + [CLOSE_OBJECT]
  }

  /** The elements of an array from `k` on, with the commas before them. */
  function ItemsFrom(v: Json, k: nat): Text
    requires v.Arr? && k <= |v.items|
    decreases v, |v.items| - k
  {
    if k == |v.items| then []
    else (if k > 0 then [COMMA] else []) + TextOf(v.items[k]) + ItemsFrom(v, k + 1)
  }

  function MembersFrom(v: Json, k: nat): Text
    requires v.Obj? && k <= |v.members|
    decreases v, |v.members| - k
  {
    if k == |v.members| then []
    else (if k > 0 then [COMMA] else []) + MemberText(v, k) + MembersFrom(v, k + 1)
  }

  function MemberText(v: Json, k: nat): Text
    requires v.Obj? && k < |v.members|
    decreases v, 0
  {
    Quoted(v.members[k].name) + [COLON] + TextOf(v.members[k].value)
  }

  // ---------------------------------------------------------------------------
  // Well-formed values

  /** The order of names in an object: that of strcmp. */
  predicate Less(a: Text, b: Text) {
    b != [] && (a == [] || a[0] < b[0] || (a[0] == b[0] && Less(a[1..], b[1..])))
  }

  lemma {:induction false} LessIrreflexive(a: Text)
    ensures !Less(a, a)
  {
    if a != [] { LessIrreflexive(a[1..]); }
  }

  /** Integers fit in 64 bits; names are C strings, each once and in order. */
  ghost predicate Proper(v: Json) {
    match v
    case Num(n) => MIN_INT <= n <= MAX_UINT
    case Real(_) => false
    case Arr(items) => forall i :: 0 <= i < |items| ==> Proper(items[i])
    case Obj(members) =>
      && (forall i :: 0 <= i < |members| ==> NoNul(members[i].name) && Proper(members[i].value))
      && (forall i, j :: 0 <= i < j < |members| ==> Less(members[i].name, members[j].name))
    case _ => true
  }

  /** The value with every string cut at its first NUL. */
  function Cut(v: Json): Json
    decreases v
  {
    match v
    case Str(s) => Str(CStr(s))
    case Arr(items) => Arr(seq(|items|, i requires 0 <= i < |items| => Cut(items[i])))
    case Obj(members) =>
      Obj(seq(|members|, i requires 0 <= i < |members| => Member(members[i].name, Cut(members[i].value))))
    case _ => v
  }

  ghost predicate NulFree(v: Json) {
    match v
    case Str(s) => NoNul(s)
    case Arr(items) => forall i :: 0 <= i < |items| ==> NulFree(items[i])
    case Obj(members) => forall i :: 0 <= i < |members| ==> NulFree(members[i].value)
    case _ => true
  }

  /** A value survives exactly if no string in it has a NUL. */
  lemma {:induction false} CutSame(v: Json)
    ensures Cut(v) == v <==> NulFree(v)
    decreases v
  {
    match v
    case Str(s) => CStrSame(s);
    case Arr(items) =>
      forall i | 0 <= i < |items| ensures Cut(items[i]) == items[i] <==> NulFree(items[i]) { CutSame(items[i]); }
      if Cut(v) == v {
        forall i | 0 <= i < |items| ensures NulFree(items[i]) { assert Cut(v).items[i] == v.items[i]; }
      }
    case Obj(members) =>
      forall i | 0 <= i < |members| ensures Cut(members[i].value) == members[i].value <==> NulFree(members[i].value) {
        CutSame(members[i].value);
      }
      if Cut(v) == v {
        forall i | 0 <= i < |members| ensures NulFree(members[i].value) { assert Cut(v).members[i] == v.members[i]; }
      }
      if NulFree(v) {
        assert Cut(v).members == members;
      }
    case _ =>
  }

  /** Assigning a member: names stay in order, a name that is present gets the new value. */
  function Insert(ms: seq<Member>, m: Member): seq<Member> {
    if ms == [] || Less(m.name, ms[0].name) then [m] + ms
    else if ms[0].name == m.name then [m] + ms[1..]
    else [ms[0]] + Insert(ms[1..], m)
  }

  /** Members assigned one after the other; names are C strings. */
  function Assigned(ps: seq<Member>): seq<Member> {
    if ps == [] then []
    else
      var m := ps[|ps| - 1];
      Insert(Assigned(ps[..|ps| - 1]), Member(CStr(m.name), m.value))
  }

  lemma {:induction false} InsertLast(ms: seq<Member>, m: Member)
    requires forall i :: 0 <= i < |ms| ==> Less(ms[i].name, m.name)
    ensures Insert(ms, m) == ms + [m]
  {
    if ms != [] {
      LessAsymmetric(ms[0].name, m.name);
      LessIrreflexive(m.name);
      InsertLast(ms[1..], m);
      assert ms == [ms[0]] + ms[1..];
    }
  }

  lemma {:induction false} LessAsymmetric(a: Text, b: Text)
    requires Less(a, b)
    ensures !Less(b, a)
  {
    if a != [] && a[0] == b[0] { LessAsymmetric(a[1..], b[1..]); }
  }

  /** The order is that of the first byte that differs, as in strcmp; a proper prefix comes first. */
  lemma {:induction false} LessIsStrcmp(a: Text, b: Text)
    ensures Less(a, b) <==>
            exists k :: 0 <= k < |b| && k <= |a| && a[..k] == b[..k] && (k == |a| || a[k] < b[k])
  {
    if a != [] && b != [] && a[0] == b[0] {
      var c, d := a[1..], b[1..];
      LessIsStrcmp(c, d);
      if Less(c, d) {
        var k :| 0 <= k < |d| && k <= |c| && c[..k] == d[..k] && (k == |c| || c[k] < d[k]);
        assert a[..k + 1] == [a[0]] + c[..k] && b[..k + 1] == [b[0]] + d[..k];
        assert 0 <= k + 1 < |b| && (k + 1 == |a| || a[k + 1] < b[k + 1]);
      }
      if k :| 0 <= k < |b| && k <= |a| && a[..k] == b[..k] && (k == |a| || a[k] < b[k]) {
        assert k > 0 && a[..k][1..] == c[..k - 1] && b[..k][1..] == d[..k - 1];
        assert k - 1 == |c| || c[k - 1] < d[k - 1];
      }
    } else if b != [] {
      assert a[..0] == b[..0];
    }
  }

  ghost predicate InOrder(ms: seq<Member>) { forall i, j :: 0 <= i < j < |ms| ==> Less(ms[i].name, ms[j].name) }

  lemma {:induction false} LessTransitive(a: Text, b: Text, c: Text)
    requires Less(a, b) && Less(b, c)
    ensures Less(a, c)
  {
    if a != [] && a[0] == b[0] && b[0] == c[0] { LessTransitive(a[1..], b[1..], c[1..]); }
  }

  lemma {:induction false} LessTotal(a: Text, b: Text)
    ensures Less(a, b) || Less(b, a) || a == b
  {
    if a != [] && b != [] && a[0] == b[0] {
      LessTotal(a[1..], b[1..]);
      assert a == [a[0]] + a[1..] && b == [b[0]] + b[1..];
    }
  }

  /** An assignment sets one name and leaves the others; names stay in order, hence each occurs once. */
  lemma {:induction false} InsertSets(ms: seq<Member>, m: Member)
    requires InOrder(ms)
    ensures InOrder(Insert(ms, m)) && m in Insert(ms, m)
    ensures forall x :: x in Insert(ms, m) <==> x == m || (x in ms && x.name != m.name)
  {
    if ms == [] {
    } else if Less(m.name, ms[0].name) {
      InsertFront(ms, m);
    } else if ms[0].name == m.name {
      InsertOver(ms, m);
    } else {
      LessTotal(m.name, ms[0].name);
      InsertSets(ms[1..], m);
      InsertBehind(ms, m);
    }
  }

  lemma InsertFront(ms: seq<Member>, m: Member)
    requires InOrder(ms) && ms != [] && Less(m.name, ms[0].name)
    ensures InOrder([m] + ms) && forall x :: x in ms ==> x.name != m.name
  {
    forall i | 0 <= i < |ms| ensures Less(m.name, ms[i].name) && ms[i].name != m.name {
      if i > 0 { LessTransitive(m.name, ms[0].name, ms[i].name); }
      LessIrreflexive(m.name);
    }
  }

  lemma InsertOver(ms: seq<Member>, m: Member)
    requires InOrder(ms) && ms != [] && ms[0].name == m.name
    ensures InOrder([m] + ms[1..])
    ensures forall x :: x in [m] + ms[1..] <==> x == m || (x in ms && x.name != m.name)
  {
    forall x ensures x in [m] + ms[1..] <==> x == m || (x in ms && x.name != m.name) {
      if i :| 0 < i < |ms| && ms[i] == x {
        LessIrreflexive(m.name);
        assert Less(ms[0].name, ms[i].name);
        assert ms[1..][i - 1] == x;
      }
    }
  }

  lemma InsertBehind(ms: seq<Member>, m: Member)
    requires InOrder(ms) && ms != [] && Less(ms[0].name, m.name) && InOrder(Insert(ms[1..], m))
    requires forall x :: x in Insert(ms[1..], m) <==> x == m || (x in ms[1..] && x.name != m.name)
    ensures InOrder([ms[0]] + Insert(ms[1..], m))
    ensures forall x :: x in [ms[0]] + Insert(ms[1..], m) <==> x == m || (x in ms && x.name != m.name)
  {
    var rest := Insert(ms[1..], m);
    LessIrreflexive(m.name);
    forall i | 0 <= i < |rest| ensures Less(ms[0].name, rest[i].name) {
      assert rest[i] in rest;
      if rest[i] != m { var k :| 0 <= k < |ms[1..]| && ms[1..][k] == rest[i]; }
    }
    assert ms == [ms[0]] + ms[1..];
  }

  /** Assignment `i` is the last one to the name of `x`, and it gives it that value. */
  ghost predicate LastTo(ps: seq<Member>, i: nat, x: Member) {
    && i < |ps| && CStr(ps[i].name) == x.name && ps[i].value == x.value
    && forall j :: i < j < |ps| ==> CStr(ps[j].name) != x.name
  }

  /** In an object that was read each name has its last value, and there are no other members. */
  lemma {:induction false} LastAssigned(ps: seq<Member>)
    ensures InOrder(Assigned(ps))
    ensures forall x :: x in Assigned(ps) <==> exists i :: LastTo(ps, i, x)
  {
    if ps != [] {
      var n := |ps| - 1;
      var m := Member(CStr(ps[n].name), ps[n].value);
      LastAssigned(ps[..n]);
      InsertSets(Assigned(ps[..n]), m);
      forall x ensures x in Assigned(ps) <==> exists i :: LastTo(ps, i, x) { LastNext(ps, x); }
    }
  }

  lemma LastNext(ps: seq<Member>, x: Member)
    requires ps != []
    ensures var n := |ps| - 1;
            (exists i :: LastTo(ps, i, x)) <==>
              || x == Member(CStr(ps[n].name), ps[n].value)
              || (x.name != CStr(ps[n].name) && exists i :: LastTo(ps[..n], i, x))
  {
    var n := |ps| - 1;
    if i: nat :| LastTo(ps, i, x) && i < n { assert LastTo(ps[..n], i, x); }
    if x == Member(CStr(ps[n].name), ps[n].value) { assert LastTo(ps, n, x); }
    if i: nat :| LastTo(ps[..n], i, x) {
      if x.name != CStr(ps[n].name) { assert LastTo(ps, i, x); }
    }
  }
}
