/**
 * Tokens and escape sequences as functions of the document
 * (src/third_part/json/jsoncpp.cpp, Reader).
 */
module JsonScan {
  import opened Bytes
  import opened JsonText
  import opened Wrappers

  datatype Kind =
    | ObjectBegin | ObjectEnd | ArrayBegin | ArrayEnd | StringToken | NumberToken
    | TrueToken | FalseToken | NullToken | Separator | MemberSeparator | EndOfStream | ErrorToken

  datatype Token = Token(kind: Kind, start: nat, end: nat)

  // ---------------------------------------------------------------------------
  // Tokens

  /** The character at a place; the document is followed by a NUL. */
  function Char(doc: Text, i: nat): Byte { if i < |doc| then doc[i] else 0 }

  predicate IsSpace(c: Byte) { c == 0x20 || c == 0x09 || c == 0x0d || c == 0x0a }

  function SkipSpaces(doc: Text, i: nat): (j: nat)
    requires i <= |doc|
    ensures i <= j <= |doc|
    decreases |doc| - i
  {
    if i < |doc| && IsSpace(doc[i]) then SkipSpaces(doc, i + 1) else i
  }

  /** Digits, '.', 'e', 'E', '+', '-' */
  predicate IsNumberChar(c: Byte) {
    IsDigit(c) || c == 0x2e || c == 0x65 || c == 0x45 || c == 0x2b || c == MINUS
  }

  function NumberEnd(doc: Text, i: nat): (j: nat)
    requires i <= |doc|
    ensures i <= j <= |doc| && forall k :: i <= k < j ==> IsNumberChar(doc[k])
    decreases |doc| - i
  {
    if i < |doc| && IsNumberChar(doc[i]) then NumberEnd(doc, i + 1) else i
  }

  /** The place behind the closing quote, if there is one. */
  function StringEnd(doc: Text, i: nat): (r: Option<nat>)
    requires i <= |doc|
    ensures r.Some? ==> i < r.value <= |doc|
    decreases |doc| - i
  {
    if i == |doc| then None
    else if doc[i] == BACKSLASH then StringEnd(doc, Min(i + 2, |doc|))
    else if doc[i] == QUOTE then Some(i + 1)
    else StringEnd(doc, i + 1)
  }

  predicate Matches(doc: Text, i: nat, pattern: Text) {
    i + |pattern| <= |doc| && doc[i..i + |pattern|] == pattern
  }

  /** Letters of a keyword behind its first one. */
  function Keyword(doc: Text, start: nat, rest: Text, kind: Kind): (t: Token)
    requires start < |doc|
    ensures start < t.end <= |doc|
  {
    if Matches(doc, start + 1, rest) then Token(kind, start, start + 1 + |rest|)
    else Token(ErrorToken, start, start + 1)
  }

  function TokenAt(doc: Text, i: nat): (t: Token)
    requires i <= |doc|
    ensures t.start == i && i <= t.end <= |doc| && (t.end == i ==> t.kind == EndOfStream && i == |doc|)
    ensures t.kind == StringToken ==> i + 2 <= t.end
    ensures t.kind == NumberToken ==> i < t.end && forall k :: i <= k < t.end ==> IsNumberChar(doc[k])
  {
    if i == |doc| then Token(EndOfStream, i, i)
    else
      var c := doc[i];
      if c == OPEN_OBJECT then Token(ObjectBegin, i, i + 1)
      else if c == CLOSE_OBJECT then Token(ObjectEnd, i, i + 1)
      else if c == OPEN_ARRAY then Token(ArrayBegin, i, i + 1)
      else if c == CLOSE_ARRAY then Token(ArrayEnd, i, i + 1)
      else if c == QUOTE then
        var e := StringEnd(doc, i + 1);
        if e.Some? then Token(StringToken, i, e.value) else Token(ErrorToken, i, |doc|)
      else if IsDigit(c) || c == MINUS then Token(NumberToken, i, NumberEnd(doc, i + 1))
      else if c == 0x74 then Keyword(doc, i, TRUE_TEXT[1..], TrueToken)
      else if c == 0x66 then Keyword(doc, i, FALSE_TEXT[1..], FalseToken)
      else if c == 0x6e then Keyword(doc, i, NULL_TEXT[1..], NullToken)
      else if c == COMMA then Token(Separator, i, i + 1)
      else if c == COLON then Token(MemberSeparator, i, i + 1)
      else if c == 0 then Token(EndOfStream, i, i + 1)
      else Token(ErrorToken, i, i + 1)
  }

  /** The next token. */
  function TokenFrom(doc: Text, i: nat): (t: Token)
    requires i <= |doc|
    ensures i <= t.start <= |doc| && t == TokenAt(doc, t.start)
  {
    TokenAt(doc, SkipSpaces(doc, i))
  }

  // ---------------------------------------------------------------------------
  // Escape sequences

  function HexVal(c: Byte): Option<nat> {
    if IsDigit(c) then Some(c - ZERO)
    else if 0x61 <= c <= 0x66 then Some(c - 0x61 + 10)
    else if 0x41 <= c <= 0x46 then Some(c - 0x41 + 10)
    else None
  }

  /** The value of hexadecimal digits, if all are. */
  function HexNum(s: Text): Option<nat> {
    if s == [] then Some(0)
    else
      var high, low := HexNum(s[..|s| - 1]), HexVal(s[|s| - 1]);
      if high.Some? && low.Some? then Some(16 * high.value + low.value) else None
  }

  /** The code point of an escape sequence behind "\u", and the number of characters it takes. */
  function CodePoint(s: Text): (r: Option<(nat, nat)>)
    ensures r.Some? ==> 4 <= r.value.1 <= |s|
  {
    if |s| < 4 then None
    else
      var high := HexNum(s[..4]);
      if high.None? then None
      else if !(0xd800 <= high.value <= 0xdbff) then Some((high.value, 4))
      else if |s| < 10 || s[4] != BACKSLASH || s[5] != 0x75 then None
      else
        var low := HexNum(s[6..10]);
        if low.None? then None
        else Some((0x10000 + (high.value % 0x400) * 0x400 + low.value % 0x400, 10))
  }

  function Utf8(cp: nat): Text {
    if cp <= 0x7f then [cp]
    else if cp <= 0x7ff then [0xc0 + cp / 0x40 % 0x20, 0x80 + cp % 0x40]
    else if cp <= 0xffff then [0xe0 + cp / 0x1000 % 0x10, 0x80 + cp / 0x40 % 0x40, 0x80 + cp % 0x40]
    else if cp <= 0x10ffff then
      [0xf0 + cp / 0x40000 % 8, 0x80 + cp / 0x1000 % 0x40, 0x80 + cp / 0x40 % 0x40, 0x80 + cp % 0x40]
    else []
  }

  /** Six more bits per continuation byte. */
  function Continued(lead: nat, s: Text): nat {
    if s == [] then lead else Continued(lead, s[..|s| - 1]) * 0x40 + s[|s| - 1] % 0x40
  }

  /** The code point that the bytes of a UTF-8 sequence denote (section 3 of RFC 3629). */
  function Utf8Value(s: Text): nat
    requires 1 <= |s| <= 4
  {
    var mask := if |s| == 1 then 0x80 else if |s| == 2 then 0x20 else if |s| == 3 then 0x10 else 8;
    Continued(s[0] % mask, s[1..])
  }

  /** The bytes of a code point denote it; lead and continuation bytes are what UTF-8 prescribes. */
  lemma Utf8Denotes(cp: nat)
    requires cp <= 0x10ffff
    ensures |Utf8(cp)| == if cp < 0x80 then 1 else if cp < 0x800 then 2 else if cp < 0x10000 then 3 else 4
    ensures Utf8Value(Utf8(cp)) == cp
    ensures |Utf8(cp)| > 1 ==> 0xc0 <= Utf8(cp)[0] < 0xf8
    ensures forall i :: 1 <= i < |Utf8(cp)| ==> 0x80 <= Utf8(cp)[i] < 0xc0
  {
    if 0xffff < cp { Denotes4(cp); } else if 0x7ff < cp { Denotes3(cp); } else if 0x7f < cp { Denotes2(cp); }
  }

  lemma Denotes2(cp: nat)
    requires 0x7f < cp <= 0x7ff
    ensures Utf8Value(Utf8(cp)) == cp
  {
    var u := Utf8(cp);
    assert u[1..] == [0x80 + cp % 0x40];
    ContinuedOne(cp / 0x40, cp);
  }

  lemma Denotes3(cp: nat)
    requires 0x7ff < cp <= 0xffff
    ensures Utf8Value(Utf8(cp)) == cp
  {
    var u, a, b := Utf8(cp), cp / 0x40, cp / 0x1000;
    Shifts(cp);
    assert u[1..] == [0x80 + a % 0x40, 0x80 + cp % 0x40];
    ContinuedTwo(b, a, cp);
  }

  lemma Denotes4(cp: nat)
    requires 0xffff < cp <= 0x10ffff
    ensures Utf8Value(Utf8(cp)) == cp
  {
    var u, a, b := Utf8(cp), cp / 0x40, cp / 0x1000;
    Shifts(cp);
    assert u[1..] == [0x80 + b % 0x40, 0x80 + a % 0x40, 0x80 + cp % 0x40];
    ContinuedThree(cp / 0x40000, b, a, cp);
  }

  lemma Shifts(cp: nat)
    ensures cp / 0x1000 == cp / 0x40 / 0x40 && cp / 0x40000 == cp / 0x1000 / 0x40
  {
  }

  lemma Bits(x: nat)
    ensures (0x80 + x % 0x40) % 0x40 == x % 0x40 && x / 0x40 * 0x40 + x % 0x40 == x
  {
  }

  lemma ContinuedOne(a: nat, x: nat)
    requires a == x / 0x40
    ensures Continued(a, [0x80 + x % 0x40]) == x
  {
    Bits(x);
    assert [0x80 + x % 0x40][..0] == [];
  }

  lemma ContinuedTwo(b: nat, a: nat, x: nat)
    requires a == x / 0x40 && b == a / 0x40
    ensures Continued(b, [0x80 + a % 0x40, 0x80 + x % 0x40]) == x
  {
    Bits(x);
    ContinuedOne(b, a);
    assert [0x80 + a % 0x40, 0x80 + x % 0x40][..1] == [0x80 + a % 0x40];
  }

  lemma ContinuedThree(c: nat, b: nat, a: nat, x: nat)
    requires a == x / 0x40 && b == a / 0x40 && c == b / 0x40
    ensures Continued(c, [0x80 + b % 0x40, 0x80 + a % 0x40, 0x80 + x % 0x40]) == x
  {
    Bits(x);
    ContinuedTwo(c, b, a);
    assert [0x80 + b % 0x40, 0x80 + a % 0x40, 0x80 + x % 0x40][..2] == [0x80 + b % 0x40, 0x80 + a % 0x40];
  }

  /** The character of a two-character escape sequence. */
  function Unescape1(e: Byte): Option<Byte> {
    if e == QUOTE || e == 0x2f || e == BACKSLASH then Some(e)
    else if e == 0x62 then Some(0x08)
    else if e == 0x66 then Some(0x0c)
    else if e == 0x6e then Some(0x0a)
    else if e == 0x72 then Some(0x0d)
    else if e == 0x74 then Some(0x09)
    else None
  }

  function Prepend(a: Text, r: Option<Text>): Option<Text> { if r.Some? then Some(a + r.value) else None }

  /** The string that the characters between the quotes denote. */
  function Unescape(s: Text): Option<Text>
    decreases |s|
  {
    if s == [] || s[0] == QUOTE then Some([])
    else if s[0] != BACKSLASH then Prepend([s[0]], Unescape(s[1..]))
    else if |s| == 1 then None
    else if s[1] == 0x75 then
      var u := CodePoint(s[2..]);
      if u.None? then None else Prepend(Utf8(u.value.0), Unescape(s[2 + u.value.1..]))
    else
      var c := Unescape1(s[1]);
      if c.None? then None else Prepend([c.value], Unescape(s[2..]))
  }

  // ---------------------------------------------------------------------------
  // Numbers

  /** A '.', an exponent, or a sign that is not the first character. */
  predicate DoubleAt(text: Text, i: nat)
    requires i < |text|
  {
    text[i] == 0x2e || text[i] == 0x65 || text[i] == 0x45 || text[i] == 0x2b || (text[i] == MINUS && i > 0)
  }

  predicate IsDouble(text: Text) { exists i :: 0 <= i < |text| && DoubleAt(text, i) }

  function Magnitude(text: Text): Text { if text != [] && text[0] == MINUS then text[1..] else text }

  predicate IsNegative(text: Text) { text != [] && text[0] == MINUS }

  /** The greatest magnitude of an integer with that sign. */
  function MaxMagnitude(negative: bool): nat { if negative then -MIN_INT else MAX_UINT }

  /** A number token denotes an integer exactly if it has no part of a real and fits in 64 bits. */
  function NumberValue(text: Text): Json
    requires !IsDouble(text) ==> AllDigits(Magnitude(text))
  {
    if IsDouble(text) || DigitsVal(Magnitude(text)) > MaxMagnitude(IsNegative(text)) then Real(text)
    else if IsNegative(text) then var m: int := DigitsVal(Magnitude(text)); Num(-m)
    else Num(DigitsVal(text))
  }

  lemma NumberChars(text: Text)
    requires forall i :: 0 <= i < |text| ==> IsNumberChar(text[i])
    ensures !IsDouble(text) ==> AllDigits(Magnitude(text))
  {
    if !IsDouble(text) {
      forall i | 0 <= i < |text| ensures IsDigit(text[i]) || (i == 0 && text[i] == MINUS) { assert !DoubleAt(text, i); }
    }
  }

  /** Integers come back. */
  lemma NumberRoundTrip(n: int)
    requires MIN_INT <= n <= MAX_UINT
    ensures !IsDouble(IntText(n)) && AllDigits(Magnitude(IntText(n))) && NumberValue(IntText(n)) == Num(n)
    ensures forall i :: 0 <= i < |IntText(n)| ==> IsNumberChar(IntText(n)[i])
    ensures IsDigit(IntText(n)[0]) || IntText(n)[0] == MINUS
  {
    DigitsDenote(if n < 0 then -n else n);
    if n < 0 {
      assert IntText(n)[1..] == Digits(-n);
      forall i | 0 <= i < |IntText(n)| ensures !DoubleAt(IntText(n), i) && IsNumberChar(IntText(n)[i]) {
        assert i > 0 ==> IntText(n)[i] == Digits(-n)[i - 1];
      }
    } else {
      forall i | 0 <= i < |IntText(n)| ensures !DoubleAt(IntText(n), i) {}
    }
  }

  // ---------------------------------------------------------------------------
  // Places in the document

  lemma MatchesSplit(doc: Text, i: nat, a: Text, b: Text)
    ensures Matches(doc, i, a + b) <==> Matches(doc, i, a) && Matches(doc, i + |a|, b)
  {
    if Matches(doc, i, a + b) {
      assert a == (a + b)[..|a|] && b == (a + b)[|a|..];
      assert doc[i..i + |a|] == doc[i..i + |a + b|][..|a|];
      assert doc[i + |a|..i + |a| + |b|] == doc[i..i + |a + b|][|a|..];
    }
    if Matches(doc, i, a) && Matches(doc, i + |a|, b) {
      assert doc[i..i + |a + b|] == doc[i..i + |a|] + doc[i + |a|..i + |a| + |b|];
    }
  }

  lemma MatchesFirst(doc: Text, i: nat, t: Text)
    requires Matches(doc, i, t) && t != []
    ensures i < |doc| && doc[i] == t[0]
  {
    assert doc[i..i + |t|][0] == t[0];
  }

  lemma ScanQuote(doc: Text, i: nat)
    requires i <= |doc| && Char(doc, i) == QUOTE
    ensures StringEnd(doc, i) == Some(i + 1)
  {
    assert i < |doc| && doc[i] == QUOTE;
  }

  /** No number goes on at this place. */
  predicate Stops(doc: Text, i: nat) { !IsNumberChar(Char(doc, i)) }

  lemma {:induction false} ScanNumber(doc: Text, i: nat, j: nat)
    requires i <= j <= |doc| && (forall k :: i <= k < j ==> IsNumberChar(doc[k])) && Stops(doc, j)
    ensures NumberEnd(doc, i) == j
    decreases j - i
  {
    if i < j { ScanNumber(doc, i + 1, j); }
  }
}
