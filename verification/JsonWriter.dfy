/** FastWriter (src/third_part/json/jsoncpp.cpp). */
module JsonWriter {
  import opened Bytes
  import opened JsonText

  /** The decimal digits of an unsigned integer, from the last one on. */
  method UIntToString(n: nat) returns (d: Text)
    ensures d == Digits(n)
  {
    d := [ZERO + n % 10];
    var value: nat := n / 10;
    while value != 0
      invariant Digits(n) == (if value == 0 then [] else Digits(value)) + d
    {
      assert value >= 10 ==> Digits(value) == Digits(value / 10) + [ZERO + value % 10];
      d := [ZERO + value % 10] + d;
      value := value / 10;
    }
  }

  /** The conversion of a negated value to unsigned; it is right for the least value, which has no negation. */
  function Negated(n: int): (m: nat)
    requires MIN_INT <= n <= MAX_UINT
    ensures m == if n < 0 then -n else n
  {
    if n < 0 then (-n) % U64 else n
  }

  /** A 64-bit integer, signed or unsigned. */
  method IntToString(n: int) returns (d: Text)
    requires MIN_INT <= n <= MAX_UINT
    ensures d == IntText(n)
  {
    var magnitude := Negated(n);
    d := UIntToString(magnitude);
    if n < 0 {
      d := [MINUS] + d;
    }
  }

  /** A string between quotes; the walk is needed only if some character has to be escaped. */
  method ValueToQuotedString(s: Text) returns (r: Text)
    ensures r == Quoted(s)
  {
    var value := CStr(s);
    var plain := AllPlain(value);
    if plain {
      PlainEscaped(value);
      return [QUOTE] + value + [QUOTE];
    }
    r := EscapeAll(value);
    r := [QUOTE] + r + [QUOTE];
  }

  method EscapeAll(value: Text) returns (r: Text)
    ensures r == Escaped(value)
  {
    r := [];
    for i := 0 to |value|
      invariant r == Escaped(value[..i])
    {
      EscapedSnoc(value[..i], value[i]);
      assert value[..i + 1] == value[..i] + [value[i]];
      r := r + Escape(value[i]);
    }
    assert value[..|value|] == value;
  }

  method AllPlain(s: Text) returns (plain: bool)
    ensures plain <==> forall i :: 0 <= i < |s| ==> Plain(s[i])
  {
    for i := 0 to |s|
      invariant forall k :: 0 <= k < i ==> Plain(s[k])
    {
      if !Plain(s[i]) {
        return false;
      }
    }
    plain := true;
  }

  class FastWriter {
    var document: Text

    constructor ()
      ensures document == []
    {
      document := [];
    }

    method Write(root: Json) returns (text: Text)
      requires Proper(root)
      modifies this
      ensures text == TextOf(root) + [NEWLINE]
    {
      document := [];
      WriteValue(root);
      document := document + [NEWLINE];
      text := document;
    }

    /** Appends the text of a value. */
    method WriteValue(v: Json)
      requires Proper(v)
      modifies this
      ensures document == old(document) + TextOf(v)
      decreases v, 1, 0
    {
      match v
      case Null => document := document + NULL_TEXT;
      case Bool(b) => document := document + if b then TRUE_TEXT else FALSE_TEXT;
      case Num(n) =>
        var d := IntToString(n);
        document := document + d;
      case Str(s) =>
        var q := ValueToQuotedString(s);
        document := document + q;
      case Arr(items) =>
        document := document + [OPEN_ARRAY];
        WriteItems(v);
        document := document + [CLOSE_ARRAY];
        Regroup(old(document), [OPEN_ARRAY], ItemsFrom(v, 0), [CLOSE_ARRAY]);
      case Obj(members) =>
        document := document + [OPEN_OBJECT];
        WriteMembers(v);
        document := document + [CLOSE_OBJECT];
        Regroup(old(document), [OPEN_OBJECT], MembersFrom(v, 0), [CLOSE_OBJECT]);
    }

    method WriteItems(v: Json)
      requires v.Arr? && Proper(v)
      modifies this
      ensures document == old(document) + ItemsFrom(v, 0)
      decreases v, 0, 1
    {
      var i := 0;
      while i < |v.items|
        invariant 0 <= i <= |v.items| && document + ItemsFrom(v, i) == old(document) + ItemsFrom(v, 0)
      {
        ghost var done := document;
        if i > 0 { document := document + [COMMA]; }
        WriteValue(v.items[i]);
        Regroup(done, if i > 0 then [COMMA] else [], TextOf(v.items[i]), ItemsFrom(v, i + 1));
        i := i + 1;
      }
    }

    lemma Regroup(a: Text, b: Text, c: Text, d: Text)
      ensures a + (b + c + d) == a + b + c + d
    {
    }

    method WriteMembers(v: Json)
      requires v.Obj? && Proper(v)
      modifies this
      ensures document == old(document) + MembersFrom(v, 0)
      decreases v, 0, 1
    {
      var i := 0;
      while i < |v.members|
        invariant 0 <= i <= |v.members| && document + MembersFrom(v, i) == old(document) + MembersFrom(v, 0)
      {
        ghost var done := document;
        if i > 0 { document := document + [COMMA]; }
        WriteMember(v, i);
        Regroup(done, if i > 0 then [COMMA] else [], MemberText(v, i), MembersFrom(v, i + 1));
        i := i + 1;
      }
    }

    method WriteMember(v: Json, i: nat)
      requires v.Obj? && Proper(v) && i < |v.members|
      modifies this
      ensures document == old(document) + MemberText(v, i)
      decreases v, 0, 0
    {
      var q := ValueToQuotedString(v.members[i].name);
      document := document + q;
      document := document + [COLON];
      WriteValue(v.members[i].value);
      Regroup(old(document), q, [COLON], TextOf(v.members[i].value));
    }
  }
}
