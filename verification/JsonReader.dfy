/**
 * Reader (src/third_part/json/jsoncpp.cpp), proved against the functions of JsonGrammar: it succeeds
 * exactly on a document that begins with the text of a value, and yields that value.
 */
module JsonReader {
  import opened Bytes
  import opened JsonText
  import opened JsonScan
  import opened JsonTree
  import opened JsonGrammar
  import opened JsonSound
  import opened JsonRound
  import opened JsonWriter
  import opened Wrappers

  /** How far the loop over the elements of an array or the members of an object has got. */
  datatype Step = More | Closed | Failed

  /** The loop of decodeNumber: the digits denote a number that fits, or they overflow. */
  method DecodeMagnitude(digits: Text, negative: bool) returns (fits: bool, value: nat)
    requires AllDigits(digits)
    ensures fits <==> DigitsVal(digits) <= MaxMagnitude(negative)
    ensures fits ==> value == DigitsVal(digits)
  {
    var max := MaxMagnitude(negative);
    var threshold := max / 10;
    value := 0;
    var i := 0;
    while i < |digits|
      invariant 0 <= i <= |digits| && value == DigitsVal(digits[..i]) <= max
    {
      var digit: nat := digits[i] - ZERO;
      assert digits[..i + 1][..i] == digits[..i];
      assert DigitsVal(digits[..i + 1]) == 10 * value + digit;
      if value >= threshold {
        if value > threshold || i + 1 != |digits| || digit > max % 10 {
          Overflow(digits, i, max);
          return false, value;
        }
      }
      value := value * 10 + digit;
      i := i + 1;
    }
    assert digits[..|digits|] == digits;
    fits := true;
  }

  /** Past the threshold, or at it with a digit too many or too big, the number does not fit. */
  lemma Overflow(digits: Text, i: nat, max: nat)
    requires AllDigits(digits) && i < |digits| && max >= 100
    requires var value := DigitsVal(digits[..i]);
             value > max / 10 || (value == max / 10 && (i + 1 != |digits| || digits[i] - ZERO > max % 10))
    ensures DigitsVal(digits) > max
  {
    assert digits[..i + 1][..i] == digits[..i];
    var next := DigitsVal(digits[..i + 1]);
    assert next == 10 * DigitsVal(digits[..i]) + (digits[i] - ZERO);
    if i + 1 < |digits| {
      assert digits[..i + 2][..i + 1] == digits[..i + 1];
      DigitsGrow(digits, i + 2);
    } else {
      assert digits[..i + 1] == digits;
    }
  }

  lemma {:induction false} DigitsGrow(digits: Text, k: nat)
    requires AllDigits(digits) && k <= |digits|
    ensures DigitsVal(digits[..k]) <= DigitsVal(digits)
    decreases |digits| - k
  {
    if k < |digits| {
      assert digits[..k + 1][..k] == digits[..k];
      DigitsGrow(digits, k + 1);
    } else {
      assert digits[..k] == digits;
    }
  }

  method HasDoubleMark(text: Text) returns (d: bool)
    ensures d <==> IsDouble(text)
  {
    d := false;
    for i := 0 to |text|
      invariant d <==> exists k :: 0 <= k < i && DoubleAt(text, k)
    {
      d := d || DoubleAt(text, i);
    }
  }

  /** A number token: an integer if it fits in 64 bits, else a real. */
  method DecodeNumber(text: Text) returns (v: Json)
    requires forall i :: 0 <= i < |text| ==> IsNumberChar(text[i])
    ensures !IsDouble(text) ==> AllDigits(Magnitude(text))
    ensures v == NumberValue(text)
  {
    NumberChars(text);
    var isDouble := HasDoubleMark(text);
    if isDouble {
      return Real(text);
    }
    var fits, value := DecodeMagnitude(Magnitude(text), IsNegative(text));
    if !fits {
      return Real(text);
    }
    var m: int := value;
    v := if IsNegative(text) then Num(-m) else Num(m);
  }

  /** The loop over the digits of a unicode escape sequence. */
  method DecodeHex(s: Text) returns (r: Option<nat>)
    ensures r == HexNum(s)
  {
    var value: nat := 0;
    for i := 0 to |s|
      invariant HexNum(s[..i]) == Some(value)
    {
      assert s[..i + 1][..i] == s[..i];
      var d := HexVal(s[i]);
      if d.None? {
        HexFails(s, i + 1);
        return None;
      }
      value := value * 16 + d.value;
    }
    assert s[..|s|] == s;
    r := Some(value);
  }

  lemma {:induction false} HexFails(s: Text, k: nat)
    requires k <= |s| && HexNum(s[..k]).None?
    ensures HexNum(s).None?
    decreases |s| - k
  {
    if k < |s| {
      assert s[..k + 1][..k] == s[..k];
      HexFails(s, k + 1);
    } else {
      assert s[..k] == s;
    }
  }

  method DecodeCodePoint(s: Text) returns (r: Option<(nat, nat)>)
    ensures r == CodePoint(s)
  {
    if |s| < 4 {
      return None;
    }
    var high := DecodeHex(s[..4]);
    if high.None? {
      return None;
    }
    if 0xd800 <= high.value <= 0xdbff {
      if |s| - 4 < 6 {
        return None;
      }
      if s[4] == BACKSLASH && s[5] == 0x75 {
        var low := DecodeHex(s[6..10]);
        if low.None? {
          return None;
        }
        return Some((0x10000 + (high.value % 0x400) * 0x400 + low.value % 0x400, 10));
      }
      return None;
    }
    r := Some((high.value, 4));
  }

  lemma PrependTwice(a: Text, b: Text, r: Option<Text>)
    ensures Prepend(a, Prepend(b, r)) == Prepend(a + b, r)
  {
    if r.Some? { assert a + (b + r.value) == a + b + r.value; }
  }

  /** The loop of decodeString over the characters between the quotes. */
  method DecodeString(s: Text) returns (r: Option<Text>)
    ensures r == Unescape(s)
  {
    var decoded: Text := [];
    var i := 0;
    assert s[0..] == s;
    if Unescape(s).Some? { assert [] + Unescape(s).value == Unescape(s).value; }
    while i < |s|
      invariant 0 <= i <= |s| && Unescape(s) == Prepend(decoded, Unescape(s[i..]))
    {
      var n, piece := 1, [s[i]];
      if s[i] == QUOTE {
        break;
      } else if s[i] == BACKSLASH {
        if i + 1 == |s| {
          return None;
        }
        if s[i + 1] == 0x75 {
          assert s[i..][2..] == s[i + 2..];
          var u := DecodeCodePoint(s[i + 2..]);
          if u.None? {
            return None;
          }
          n, piece := 2 + u.value.1, Utf8(u.value.0);
        } else {
          var c := Unescape1(s[i + 1]);
          if c.None? {
            return None;
          }
          n, piece := 2, [c.value];
        }
      }
      assert s[i..][n..] == s[i + n..];
      PrependTwice(decoded, piece, Unescape(s[i + n..]));
      decoded, i := decoded + piece, i + n;
    }
    assert Unescape(s[i..]) == Some([]) && decoded + [] == decoded;
    r := Some(decoded);
  }

  /** Elements or members that are read before others. */
  ghost function ItemsAfter(items: seq<Json>, r: Option<ReadItems>): Option<ReadItems> {
    if r.None? then None else Some(ReadItems(items + r.value.items, r.value.end))
  }

  ghost function MembersAfter(pairs: seq<Member>, r: Option<ReadMembers>): Option<ReadMembers> {
    if r.None? then None else Some(ReadMembers(pairs + r.value.pairs, r.value.end))
  }

  lemma NothingBefore(r: Option<ReadItems>, m: Option<ReadMembers>)
    ensures ItemsAfter([], r) == r && MembersAfter([], m) == m
  {
    if r.Some? { assert [] + r.value.items == r.value.items; }
    if m.Some? { assert [] + m.value.pairs == m.value.pairs; }
  }

  lemma ItemsAfterTwo(a: seq<Json>, b: seq<Json>, r: Option<ReadItems>)
    ensures ItemsAfter(a, ItemsAfter(b, r)) == ItemsAfter(a + b, r)
  {
    if r.Some? { assert a + (b + r.value.items) == a + b + r.value.items; }
  }

  lemma MembersAfterTwo(a: seq<Member>, b: seq<Member>, r: Option<ReadMembers>)
    ensures MembersAfter(a, MembersAfter(b, r)) == MembersAfter(a + b, r)
  {
    if r.Some? { assert a + (b + r.value.pairs) == a + b + r.value.pairs; }
  }

  lemma AssignedSnoc(ps: seq<Member>, m: Member)
    ensures Assigned(ps + [m]) == Insert(Assigned(ps), Member(CStr(m.name), m.value))
  {
    assert (ps + [m])[..|ps|] == ps;
  }

  /** Blanks in front of a value make no difference. */
  lemma SpacesRead(doc: Text, lex: Lexer, i: nat)
    requires Lexes(doc, lex) && i <= |doc|
    ensures ItemsAt(lex, SkipSpaces(doc, i)) == ItemsAt(lex, i)
  {
    var j := SkipSpaces(doc, i);
    SpacesTwice(doc, i);
    LexerOpens(doc, lex, i, TokenFrom(doc, i));
    LexerOpens(doc, lex, j, TokenFrom(doc, i));
    if TokenFrom(doc, i).end <= j {
      EndIsNoValue(doc, i);
      NoValue(lex, i);
      NoValue(lex, j);
    } else {
      SameToken(lex, i, j);
    }
    SameItems(lex, i, j);
  }

  lemma SameToken(lex: Lexer, i: nat, j: nat)
    requires lex.token(i) == lex.token(j) && lex.Goes(i) && lex.Goes(j)
    ensures ReadAt(lex, i) == ReadAt(lex, j)
  {
  }

  lemma SameItems(lex: Lexer, i: nat, j: nat)
    requires ReadAt(lex, i) == ReadAt(lex, j)
    ensures ItemsAt(lex, i) == ItemsAt(lex, j)
  {
  }

  lemma NoValue(lex: Lexer, i: nat)
    requires lex.token(i).kind == EndOfStream && lex.scalar(lex.token(i)).None?
    ensures ReadAt(lex, i).None?
  {
  }

  lemma {:induction false} SpacesTwice(doc: Text, i: nat)
    requires i <= |doc|
    ensures SkipSpaces(doc, SkipSpaces(doc, i)) == SkipSpaces(doc, i)
    decreases |doc| - i
  {
    if i < |doc| && IsSpace(doc[i]) { SpacesTwice(doc, i + 1); }
  }

  lemma EndIsNoValue(doc: Text, i: nat)
    requires i <= |doc| && TokenFrom(doc, i).end <= SkipSpaces(doc, i)
    ensures TokenFrom(doc, i).kind == EndOfStream && ScalarOf(doc, TokenFrom(doc, i)) == None
  {
  }

  lemma EndIsNoScalar(doc: Text, tok: Token)
    requires tok.kind == EndOfStream
    ensures ScalarOf(doc, tok) == None
  {
  }

  class Reader {
    const doc: Text
    ghost const lex: Lexer
    var current: nat

    ghost predicate Valid()
      reads this
    {
      Lexes(doc, lex) && current <= |doc|
    }

    constructor (document: Text)
      ensures Valid() && doc == document && current == 0
    {
      doc, current := document, 0;
      lex := LexerOf(document);
      new;
      LexesItself(document);
    }

    method SkipSpace()
      requires current <= |doc|
      modifies this
      ensures current == SkipSpaces(doc, old(current))
    {
      while current < |doc| && IsSpace(doc[current])
        invariant current <= |doc| && SkipSpaces(doc, old(current)) == SkipSpaces(doc, current)
      {
        current := current + 1;
      }
    }

    method ReadNumber()
      requires current <= |doc|
      modifies this
      ensures current == NumberEnd(doc, old(current))
    {
      while current < |doc| && IsNumberChar(doc[current])
        invariant current <= |doc| && NumberEnd(doc, old(current)) == NumberEnd(doc, current)
      {
        current := current + 1;
      }
    }

    method ReadString() returns (ok: bool)
      requires current <= |doc|
      modifies this
      ensures ok <==> StringEnd(doc, old(current)).Some?
      ensures current == if ok then StringEnd(doc, old(current)).value else |doc|
    {
      ok := false;
      while current < |doc|
        invariant current <= |doc| && StringEnd(doc, old(current)) == StringEnd(doc, current)
      {
        var c := doc[current];
        if c == BACKSLASH {
          current := Min(current + 2, |doc|);
        } else {
          current := current + 1;
          if c == QUOTE {
            return true;
          }
        }
      }
    }

    method Match(pattern: Text) returns (ok: bool)
      requires current <= |doc|
      modifies this
      ensures ok <==> Matches(doc, old(current), pattern)
      ensures current == if ok then old(current) + |pattern| else old(current)
    {
      if |doc| - current < |pattern| {
        return false;
      }
      var i := |pattern|;
      while i > 0
        invariant 0 <= i <= |pattern| && forall k :: i <= k < |pattern| ==> doc[current + k] == pattern[k]
      {
        i := i - 1;
        if doc[current + i] != pattern[i] {
          assert doc[current..current + |pattern|][i] != pattern[i];
          return false;
        }
      }
      current := current + |pattern|;
      ok := true;
    }

    /** Reads the next token. */
    method ReadToken() returns (tok: Token)
      requires current <= |doc|
      modifies this
      ensures tok == TokenFrom(doc, old(current)) && current == tok.end
    {
      SkipSpace();
      var start := current;
      if current == |doc| {
        return Token(EndOfStream, start, current);
      }
      var c := doc[current];
      current := current + 1;
      var ok, kind := true, ErrorToken;
      if c == OPEN_OBJECT { kind := ObjectBegin; }
      else if c == CLOSE_OBJECT { kind := ObjectEnd; }
      else if c == OPEN_ARRAY { kind := ArrayBegin; }
      else if c == CLOSE_ARRAY { kind := ArrayEnd; }
      else if c == QUOTE { kind := StringToken; ok := ReadString(); }
      else if IsDigit(c) || c == MINUS { kind := NumberToken; ReadNumber(); }
      else if c == 0x74 { kind := TrueToken; ok := Match(TRUE_TEXT[1..]); }
      else if c == 0x66 { kind := FalseToken; ok := Match(FALSE_TEXT[1..]); }
      else if c == 0x6e { kind := NullToken; ok := Match(NULL_TEXT[1..]); }
      else if c == COMMA { kind := Separator; }
      else if c == COLON { kind := MemberSeparator; }
      else if c == 0 { kind := EndOfStream; }
      else { ok := false; }
      tok := Token(if ok then kind else ErrorToken, start, current);
    }

    /** Skips tokens up to one of a kind, or to the end. */
    method Recover(kind: Kind)
      requires current <= |doc|
      modifies this
      ensures old(current) <= current <= |doc|
    {
      var tok := ReadToken();
      while tok.kind != kind && tok.kind != EndOfStream
        invariant old(current) <= current <= |doc|
        invariant tok.kind != EndOfStream ==> tok.start < tok.end == current
        decreases tok.kind != EndOfStream, |doc| - current
      {
        tok := ReadToken();
      }
    }

    /** Reads the next token; it is the lexer's. */
    method NextToken() returns (tok: Token)
      requires Valid()
      modifies this
      ensures Valid() && tok == lex.token(old(current)) && tok.start <= |doc| && tok == TokenAt(doc, tok.start)
      ensures old(current) <= current == tok.end && (lex.Goes(old(current)) || tok.kind == EndOfStream)
      ensures lex.scalar(tok) == ScalarOf(doc, tok) && lex.name(tok) == NameOf(doc, tok)
    {
      ghost var i := current;
      tok := ReadToken();
      LexerOpens(doc, lex, i, tok);
    }

    /** Reads a value. */
    method ReadValue() returns (ok: bool, v: Json)
      requires Valid()
      modifies this
      ensures Valid() && old(current) <= current && (ok ==> old(current) < current)
      ensures ok <==> ReadAt(lex, old(current)).Some?
      ensures ok ==> ReadAt(lex, old(current)) == Some(Read(v, current))
      decreases |doc| - current, 1
    {
      ghost var i := current;
      var tok := NextToken();
      if tok.kind == ObjectBegin {
        ok, v := ReadObject();
      } else if tok.kind == ArrayBegin {
        ok, v := ReadArray();
      } else {
        ok, v := ReadScalar(tok);
        if tok.kind == EndOfStream { EndIsNoScalar(doc, tok); }
      }
    }

    /** The value of a single token. */
    method ReadScalar(tok: Token) returns (ok: bool, v: Json)
      requires tok.start <= |doc| && tok == TokenAt(doc, tok.start)
      ensures ok <==> ScalarOf(doc, tok).Some?
      ensures ok ==> v == ScalarOf(doc, tok).value
    {
      ok, v := true, Null;
      match tok.kind
      case NumberToken =>
        v := DecodeNumber(doc[tok.start..tok.end]);
      case StringToken =>
        var s := DecodeString(doc[tok.start + 1..tok.end - 1]);
        ok, v := s.Some?, if s.Some? then Str(s.value) else Null;
      case TrueToken => v := Bool(true);
      case FalseToken => v := Bool(false);
      case NullToken => v := Null;
      case _ => ok := false;
    }

    /** Reads the elements and the bracket behind them. */
    method ReadArray() returns (ok: bool, v: Json)
      requires Valid()
      modifies this
      ensures Valid() && old(current) <= current && (ok ==> old(current) < current)
      ensures var i := old(current);
              if lex.empty(i).Some? then ok && v == Arr([]) && lex.empty(i) == Some(current)
              else
                && (ok <==> ItemsAt(lex, i).Some?)
                && (ok ==> v.Arr? && ItemsAt(lex, i) == Some(ReadItems(v.items, current)))
      decreases |doc| - current, 3
    {
      ghost var i := current;
      SkipSpace();
      ghost var j := current;
      assert lex.empty(i) == EmptyAt(doc, i) by { assert OpenLexer(lex, 0); }
      if Char(doc, current) == CLOSE_ARRAY {
        SpacesTwice(doc, i);
        var close := ReadToken();
        return true, Arr([]);
      }
      SpacesRead(doc, lex, i);
      NothingBefore(ItemsAt(lex, j), None);
      var items: seq<Json>, step := [], More;
      while step == More
        invariant Valid() && j <= current
        invariant step == More ==> ItemsAt(lex, j) == ItemsAfter(items, ItemsAt(lex, current))
        invariant step == Closed ==> ItemsAt(lex, j) == Some(ReadItems(items, current))
        invariant step == Failed ==> ItemsAt(lex, j).None?
        decreases step == More, |doc| - current
      {
        var item;
        ghost var k := current;
        step, item := ReadItem();
        if step == More { ItemsAfterTwo(items, [item], ItemsAt(lex, current)); }
        items := items + [item];
      }
      if step == Failed {
        Recover(ArrayEnd);
      }
      ok, v := step == Closed, Arr(items);
    }

    /** An element and the token behind it. */
    method ReadItem() returns (step: Step, v: Json)
      requires Valid()
      modifies this
      ensures Valid() && old(current) <= current && (step == More ==> old(current) < current)
      ensures step == More ==> ItemsAt(lex, old(current)) == ItemsAfter([v], ItemsAt(lex, current))
      ensures step == Closed ==> ItemsAt(lex, old(current)) == Some(ReadItems([v], current))
      ensures step == Failed ==> ItemsAt(lex, old(current)).None?
      decreases |doc| - current, 2
    {
      var ok;
      ok, v := ReadValue();
      if !ok {
        return Failed, v;
      }
      var tok := NextToken();
      step := if tok.kind == Separator then More else if tok.kind == ArrayEnd then Closed else Failed;
    }

    /** Reads the members and the brace behind them. */
    method ReadObject() returns (ok: bool, v: Json)
      requires Valid()
      modifies this
      ensures Valid() && old(current) <= current
      ensures ok <==> MembersAt(lex, old(current), []).Some?
      ensures ok ==> var m := MembersAt(lex, old(current), []).value; v == Obj(Assigned(m.pairs)) && m.end == current
      decreases |doc| - current, 5
    {
      ghost var i, pairs := current, [];
      NothingBefore(None, MembersAt(lex, i, []));
      var members: seq<Member>, name: Text, step := [], [], More;
      while step == More
        invariant Valid() && i <= current && members == Assigned(pairs)
        invariant step == More ==> MembersAt(lex, i, []) == MembersAfter(pairs, MembersAt(lex, current, name))
        invariant step == Closed ==> MembersAt(lex, i, []) == Some(ReadMembers(pairs, current))
        invariant step == Failed ==> MembersAt(lex, i, []).None?
        decreases step == More, |doc| - current
      {
        ghost var added;
        step, members, name, added := ReadEntry(members, name, pairs);
        if step == More { MembersAfterTwo(pairs, added, MembersAt(lex, current, name)); }
        pairs := pairs + added;
      }
      if step == Failed {
        Recover(ObjectEnd);
      }
      ok, v := step == Closed, Obj(members);
    }

    /** A member and the token behind it, or the brace that closes the object. */
    method ReadEntry(members: seq<Member>, name: Text, ghost pairs: seq<Member>)
      returns (step: Step, members': seq<Member>, name': Text, ghost added: seq<Member>)
      requires Valid() && members == Assigned(pairs)
      modifies this
      ensures Valid() && old(current) <= current && (step == More ==> old(current) < current)
      ensures members' == Assigned(pairs + added)
      ensures step == More ==> MembersAt(lex, old(current), name) == MembersAfter(added, MembersAt(lex, current, name'))
      ensures step == Closed ==> MembersAt(lex, old(current), name) == Some(ReadMembers(added, current))
      ensures step == Failed ==> MembersAt(lex, old(current), name).None?
      decreases |doc| - current, 4
    {
      members', name', added := members, [], [];
      assert pairs + [] == pairs;
      var tok := NextToken();
      if tok.kind == ObjectEnd && name == [] {
        return Closed, members', name', added;
      }
      if tok.kind != StringToken {
        return Failed, members', name', added;
      }
      step, members', name', added := ReadNamed(tok, members, pairs, name);
    }

    /** The same behind the token of the name. */
    method ReadNamed(tok: Token, members: seq<Member>, ghost pairs: seq<Member>, ghost last: Text)
      returns (step: Step, members': seq<Member>, name': Text, ghost added: seq<Member>)
      requires Valid() && members == Assigned(pairs) && lex.name(tok) == NameOf(doc, tok)
      requires tok.kind == StringToken && tok.start + 2 <= tok.end == current && tok.start <= |doc|
      modifies this
      ensures Valid() && old(current) <= current && members' == Assigned(pairs + added)
      ensures forall i: nat :: lex.token(i) == tok && lex.Goes(i) ==>
                && (step == More ==> MembersAt(lex, i, last) == MembersAfter(added, MembersAt(lex, current, name')))
                && (step == Closed ==> MembersAt(lex, i, last) == Some(ReadMembers(added, current)))
                && (step == Failed ==> MembersAt(lex, i, last).None?)
      decreases |doc| - current, 4
    {
      members', added := members, [];
      assert pairs + [] == pairs;
      var ok, v;
      ok, name', v := ReadMember(tok);
      if !ok {
        return Failed, members', name', added;
      }
      added := [Member(name', v)];
      AssignedSnoc(pairs, Member(name', v));
      members' := Insert(members, Member(CStr(name'), v));
      var comma := NextToken();
      step := if comma.kind == Separator then More else if comma.kind == ObjectEnd then Closed else Failed;
    }

    /** A member behind its name's token: the colon and the value. */
    method ReadMember(tok: Token) returns (ok: bool, name: Text, v: Json)
      requires Valid() && tok.kind == StringToken && tok.start + 2 <= tok.end == current
      requires lex.name(tok) == NameOf(doc, tok)
      modifies this
      ensures Valid() && old(current) <= current
      ensures lex.name(tok).Some? ==> lex.name(tok) == Some(name)
      ensures ok ==> Reads(lex, lex.token(tok.end).end, v, current)
      ensures ok <==>
                && lex.name(tok).Some? && lex.Goes(tok.end) && lex.token(tok.end).kind == MemberSeparator
                && ReadAt(lex, lex.token(tok.end).end).Some?
      decreases |doc| - current, 3
    {
      ok, name, v := false, [], Null;
      var s := DecodeString(doc[tok.start + 1..tok.end - 1]);
      if s.None? {
        return;
      }
      name := s.value;
      var colon := NextToken();
      if colon.kind != MemberSeparator {
        return;
      }
      ok, v := ReadValue();
    }

    /**
     * Parses the document: a value and whatever token follows it.  It succeeds exactly if the document
     * begins with the text of a value, and yields the value that the text spells.
     */
    method Parse() returns (ok: bool, v: Json)
      requires Valid()
      modifies this
      ensures ok <==> exists t :: Spells(doc, 0, t)
      ensures ok ==> forall t :: Spells(doc, 0, t) ==> v == Meaning(t)
    {
      current := 0;
      ReadExactly(doc, lex, 0);
      ok, v := ReadValue();
      var tok := ReadToken();
    }
  }

  /**
   * The round trip: parsing what FastWriter writes succeeds and yields the value with its strings
   * cut at the first NUL, so that it is the same value exactly if no string has a NUL.
   */
  method RoundTrip(v: Json) returns (ok: bool, r: Json)
    requires Proper(v)
    ensures ok && r == Cut(v) && (r == v <==> NulFree(v))
  {
    var writer := new FastWriter();
    var text := writer.Write(v);
    var reader := new Reader(text);
    ghost var t := WrittenSpells(v);
    ok, r := reader.Parse();
    CutSame(v);
  }
}
