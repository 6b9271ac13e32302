/** Parsing what was written gives back the document. */
module JsonRoundTrips {
  import opened Basics
  import opened Json

  // ---- strings ----

  lemma {:induction false} HexDigits(d: nat)
    requires d < 16
    ensures HexDigit(HEX[d]) == Some(d)
  {}

  lemma {:induction false} HexTwo(h: char, l: char)
    requires HexDigit(h).Some? && HexDigit(l).Some?
    ensures HexCode(['0', '0', h, l]) == Some(HexDigit(h).value * 16 + HexDigit(l).value)
  {
    assert ['0', '0', h, l][..3] == ['0', '0', h];
    assert ['0', '0', h][..2] == ['0', '0'];
    assert ['0', '0'][..1] == ['0'];
    assert ['0'][..0] == [];
    assert HexCode([]) == Some(0);
    assert HexCode(['0']) == Some(0);
    assert HexCode(['0', '0']) == Some(0);
    assert HexCode(['0', '0', h]) == Some(HexDigit(h).value);
  }

  lemma {:induction false} ParseControl(ch: char, h: char, l: char, t: string, out: string)
    requires ch < ' ' && h == HEX[ch as int / 16] && l == HEX[ch as int % 16]
    ensures ParseChars(['\\', 'u', '0', '0', h, l] + t, out) == ParseChars(t, out + [ch])
  {
    var s := ['\\', 'u', '0', '0', h, l] + t;
    HexDigits(ch as int / 16);
    HexDigits(ch as int % 16);
    HexTwo(h, l);
    assert s[2..6] == ['0', '0', h, l] && s[6..] == t;
    assert Utf8(ch as int) == [ch];
  }

  /** Reading one escaped character. */
  lemma {:induction false} ParseEscape(ch: char, t: string, out: string)
    ensures ParseChars(Escape(ch) + t, out) == ParseChars(t, out + [ch])
  {
    var s := Escape(ch) + t;
    if Escape(ch) == [ch] {
      assert s[1..] == t;
    } else if |Escape(ch)| == 2 {
      assert s[2..] == t;
    } else {
      var h, l := HEX[ch as int / 16], HEX[ch as int % 16];
      assert Escape(ch) == ['\\', 'u', '0', '0', h, l];
      ParseControl(ch, h, l, t, out);
    }
  }

  lemma {:induction false} EscapedFrom(s: string, t: string)
    requires s != ""
    ensures Escaped(s) + "\"" + t == Escape(s[0]) + (Escaped(s[1..]) + "\"" + t)
  {
    AppendAfter(Escape(s[0]), Escaped(s[1..]), "\"");
    AppendAfter(Escape(s[0]), Escaped(s[1..]) + "\"", t);
  }

  lemma OneMore(out: string, s: string)
    requires s != ""
    ensures out + [s[0]] + s[1..] == out + s
  {}

  lemma {:induction false} ParseEscaped(s: string, t: string, out: string)
    ensures ParseChars(Escaped(s) + "\"" + t, out) == Done(out + s, t)
    decreases |s|
  {
    if s == "" {
      var u := Escaped(s) + "\"" + t;
      assert u[0] == '"' && u[1..] == t;
      assert out + s == out;
    } else {
      EscapedFrom(s, t);
      ParseEscape(s[0], Escaped(s[1..]) + "\"" + t, out);
      ParseEscaped(s[1..], t, out + [s[0]]);
      OneMore(out, s);
    }
  }

  /** Every string comes back, control characters included. */
  lemma {:induction false} ParseQuoted(s: string, t: string)
    ensures ParseText(Quoted(s) + t) == Done(s, t)
  {
    var u := Quoted(s) + t;
    assert u[0] == '"' && u[1..] == Escaped(s) + "\"" + t;
    ParseEscaped(s, t, "");
    assert "" + s == s;
  }

  // ---- numbers ----

  lemma {:induction false} DigitsOfDecimal(n: nat)
    ensures Digits(Decimal(n)) == Some(n)
  {
    var s := Decimal(n);
    var k := |s| - 1;
    if n < 10 {
      assert s[..k] == "";
      assert Digits("") == Some(0);
      DigitChar(n);
    } else {
      DigitsOfDecimal(n / 10);
      assert s[..k] == Decimal(n / 10);
      DigitChar(n % 10);
    }
  }

  lemma DigitChar(d: nat)
    requires d < 10
    ensures '0' <= DIGITS[d] <= '9' && DIGITS[d] as int - '0' as int == d
  {}

  lemma {:induction false} DigitsCounted(s: string, t: string)
    requires (forall i :: 0 <= i < |s| ==> IsDigit(s[i])) && (t == "" || !IsDigit(t[0]))
    ensures DigitCount(s + t) == |s|
    decreases |s|
  {
    if s == "" {
      assert s + t == t;
    } else {
      assert (s + t)[1..] == s[1..] + t;
      DigitsCounted(s[1..], t);
    }
  }

  lemma {:induction false} IntegerOfDigits(d: string, t: string, n: nat, sign: string)
    requires d != "" && (forall i :: 0 <= i < |d| ==> IsDigit(d[i])) && Digits(d) == Some(n) && n < WHOLE_LIMIT
    requires (t == "" || !IsDigit(t[0])) && !GoesOn(t) && sign in {"", "-", "+"}
    ensures IntegerOf(sign + d + t) == Some(if sign == "-" then -(n as int) else n)
  {
    var token := sign + d + t;
    DigitsCounted(d, t);
    assert (d + t)[..|d|] == d && (d + t)[|d|..] == t;
    if sign == "" {
      assert token == d + t && token[0] == d[0] && IsDigit(d[0]);
    } else {
      assert token[0] == sign[0] && token[1..] == d + t;
    }
  }

  /** An integer comes back from its text, whatever follows that is neither more digits nor a fraction or exponent. */
  lemma {:induction false} IntegerOfText(n: int, t: string)
    requires -WHOLE_LIMIT < n < WHOLE_LIMIT && (t == "" || !IsDigit(t[0])) && !GoesOn(t)
    ensures IntegerOf(IntText(n) + t) == Some(n)
  {
    var m: nat := if n < 0 then -n else n;
    var sign := if n < 0 then "-" else "";
    DigitsOfDecimal(m);
    IntegerOfDigits(Decimal(m), t, m, sign);
    assert sign + Decimal(m) == IntText(n);
  }

  /** What may follow a number. */
  predicate NumberEnds(t: string) { t == "" || !IsNumberChar(t[0]) }

  lemma {:induction false} NumberSpan(s: string, t: string)
    requires (forall i :: 0 <= i < |s| ==> IsNumberChar(s[i])) && NumberEnds(t)
    ensures NumberLength(s + t) == |s|
    decreases |s|
  {
    if s == "" {
      assert s + t == t;
    } else {
      assert (s + t)[1..] == s[1..] + t;
      NumberSpan(s[1..], t);
    }
  }

  lemma {:induction false} ParseWhole(n: int, t: string)
    requires -WHOLE_LIMIT < n < WHOLE_LIMIT && NumberEnds(t)
    ensures ParseNumber(NumberText(n) + t) == Done(Number(n), t)
  {
    var s := IntText(n);
    forall i | 0 <= i < |s| ensures IsNumberChar(s[i]) {
      if n < 0 && i > 0 { assert s[i] == Decimal(-n)[i - 1]; }
    }
    NumberSpan(s, t);
    IntegerOfText(n, "");
    assert s + "" == s;
    assert (s + t)[..|s|] == s && (s + t)[|s|..] == t;
  }

  // ---- documents ----

  /** All numbers are whole and below the limit. */
  predicate Plain(v: JsonValue) {
    match v
    case Number(n) => -WHOLE_LIMIT < n < WHOLE_LIMIT
    case Object(members) => forall i :: 0 <= i < |members| ==> Plain(members[i].value)
    case Array(items) => forall i :: 0 <= i < |items| ==> Plain(items[i])
    case _ => true
  }

  /** The first character of a document tells its kind. */
  lemma {:induction false} FirstChar(v: JsonValue)
    ensures Written(v) != ""
    ensures var ch := Written(v)[0];
            match v
            case Null => ch == 'n'
            case Bool(b) => ch == if b then 't' else 'f'
            case Number(n) => '0' <= ch <= '9' || ch == '-'
            case String(s) => ch == '"'
            case Object(members) => ch == '{'
            case Array(items) => ch == '['
  {
    if v.Number? && v.number >= 0 { assert IntText(v.number)[0] == Decimal(v.number)[0]; }
  }

  lemma {:induction false} NoSpace(s: string)
    requires s == "" || !IsSpace(s[0])
    ensures SkipSpace(s) == s
  {}

  lemma {:induction false} ParseLiteral(word: string, v: JsonValue, t: string)
    ensures ParseWord(word + t, word, v) == Done(v, t)
  {
    assert (word + t)[|word|..] == t && word <= word + t;
  }

  /** The round trip, with anything after the document that does not go on a number. */
  lemma {:induction false} ParseWritten(v: JsonValue, t: string)
    requires Plain(v) && NumberEnds(t)
    ensures ParseValue(Written(v) + t) == Done(v, t)
    decreases v, 1, 0
  {
    var s := Written(v) + t;
    FirstChar(v);
    assert s[0] == Written(v)[0];
    NoSpace(s);
    match v {
      case Null => ParseLiteral("null", v, t);
      case Bool(b) => ParseLiteral(if b then "true" else "false", v, t);
      case Number(n) => ParseWhole(n, t);
      case String(str) => ParseQuoted(str, t);
      case Object(members) => ParseWrittenObject(v, t);
      case Array(items) => ParseWrittenArray(v, t);
    }
  }

  lemma {:induction false} ParseWrittenObject(v: JsonValue, t: string)
    requires v.Object? && Plain(v)
    ensures ParseObject(Written(v) + t) == Done(v, t)
    decreases v, 0, |v.members| + 1
  {
    var s := Written(v) + t;
    var u := WrittenMembers(v, 0) + "}" + t;
    assert s[1..] == u;
    if v.members == [] {
      assert u[0] == '}' && u[1..] == t;
      NoSpace(u);
    } else {
      MembersFrom(v, 0, t);
      assert u[0] == '"';
      NoSpace(u);
      assert v.members[..0] == [];
      ParseWrittenMembers(v, 0, t);
    }
  }

  /** Reading one member, after which comes `y`. */
  lemma {:induction false} ParseMember(m: Member, y: string, out: seq<Member>, out': seq<Member>)
    requires ParseValue(Written(m.value) + y) == Done(m.value, y) && y != "" && (y[0] == ',' || y[0] == '}')
    requires out' == out + [m]
    ensures ParseMembers(Quoted(m.key) + (":" + (Written(m.value) + y)), out) ==
            if y[0] == ',' then ParseMembers(y[1..], out') else Done(Object(out'), y[1..])
  {
    var x := ":" + (Written(m.value) + y);
    var s := Quoted(m.key) + x;
    assert s[0] == '"';
    NoSpace(s);
    ParseQuoted(m.key, x);
    NoSpace(x);
    assert x[1..] == Written(m.value) + y;
    NoSpace(y);
  }

  /** What comes after the `i`-th member. */
  function AfterMember(v: JsonValue, i: nat, t: string): (y: string)
    requires v.Object? && i < |v.members|
    ensures y != "" && y[0] == if i + 1 < |v.members| then ',' else '}'
    ensures y[1..] == if i + 1 < |v.members| then WrittenMembers(v, i + 1) + "}" + t else t
  {
    if i + 1 < |v.members| then "," + (WrittenMembers(v, i + 1) + "}" + t) else "}" + t
  }

  lemma {:induction false} MembersFrom(v: JsonValue, i: nat, t: string)
    requires v.Object? && i < |v.members|
    ensures WrittenMembers(v, i) + "}" + t
         == Quoted(v.members[i].key) + (":" + (Written(v.members[i].value) + AfterMember(v, i, t)))
  {
    var comma := if i + 1 < |v.members| then "," else "";
    Spelled(Quoted(v.members[i].key), Written(v.members[i].value), comma, WrittenMembers(v, i + 1), t);
    assert comma + (WrittenMembers(v, i + 1) + "}" + t) == AfterMember(v, i, t);
  }

  lemma Spelled(key: string, value: string, comma: string, more: string, t: string)
    ensures key + ":" + value + comma + more + "}" + t == key + (":" + (value + (comma + (more + "}" + t))))
  {}

  lemma {:induction false} ParseWrittenMembers(v: JsonValue, i: nat, t: string)
    requires v.Object? && Plain(v) && i < |v.members|
    ensures ParseMembers(WrittenMembers(v, i) + "}" + t, v.members[..i]) == Done(v, t)
    decreases v, 0, |v.members| - i
  {
    var m, y := v.members[i], AfterMember(v, i, t);
    TakeNext(v.members, i);
    assert i + 1 == |v.members| ==> v.members[..i + 1] == v.members;
    MembersFrom(v, i, t);
    ParseWritten(m.value, y);
    ParseMember(m, y, v.members[..i], v.members[..i + 1]);
    if i + 1 < |v.members| { ParseWrittenMembers(v, i + 1, t); }
  }

  lemma {:induction false} ParseWrittenArray(v: JsonValue, t: string)
    requires v.Array? && Plain(v)
    ensures ParseArray(Written(v) + t) == Done(v, t)
    decreases v, 0, |v.items| + 1
  {
    var s := Written(v) + t;
    var u := WrittenItems(v, 0) + "]" + t;
    assert s[1..] == u;
    if v.items == [] {
      assert u[0] == ']' && u[1..] == t;
      NoSpace(u);
    } else {
      FirstChar(v.items[0]);
      assert u[0] == Written(v.items[0])[0];
      NoSpace(u);
      assert v.items[..0] == [];
      ParseWrittenItems(v, 0, t);
    }
  }

  /** What comes after the `i`-th item. */
  function AfterItem(v: JsonValue, i: nat, t: string): (y: string)
    requires v.Array? && i < |v.items|
    ensures y != "" && y[0] == if i + 1 < |v.items| then ',' else ']'
    ensures y[1..] == if i + 1 < |v.items| then WrittenItems(v, i + 1) + "]" + t else t
  {
    if i + 1 < |v.items| then "," + (WrittenItems(v, i + 1) + "]" + t) else "]" + t
  }

  lemma {:induction false} ItemsFrom(v: JsonValue, i: nat, t: string)
    requires v.Array? && i < |v.items|
    ensures WrittenItems(v, i) + "]" + t == Written(v.items[i]) + AfterItem(v, i, t)
  {
    var item, more := Written(v.items[i]), WrittenItems(v, i + 1);
    if i + 1 < |v.items| {
      assert WrittenItems(v, i) == item + "," + more;
      assert item + "," + more + "]" + t == item + ("," + (more + "]" + t));
    } else {
      assert WrittenItems(v, i) == item + "" + "";
    }
  }

  /** Reading one item, after which comes `y`. */
  lemma {:induction false} ParseItem(item: JsonValue, y: string, out: seq<JsonValue>, out': seq<JsonValue>)
    requires ParseValue(Written(item) + y) == Done(item, y) && y != "" && (y[0] == ',' || y[0] == ']')
    requires out' == out + [item]
    ensures ParseItems(Written(item) + y, out) == if y[0] == ',' then ParseItems(y[1..], out')
                                                  else Done(Array(out'), y[1..])
  {
    NoSpace(y);
  }

  lemma {:induction false} ParseWrittenItems(v: JsonValue, i: nat, t: string)
    requires v.Array? && Plain(v) && i < |v.items|
    ensures ParseItems(WrittenItems(v, i) + "]" + t, v.items[..i]) == Done(v, t)
    decreases v, 0, |v.items| - i
  {
    var y := AfterItem(v, i, t);
    TakeNext(v.items, i);
    assert i + 1 == |v.items| ==> v.items[..i + 1] == v.items;
    ItemsFrom(v, i, t);
    ParseWritten(v.items[i], y);
    ParseItem(v.items[i], y, v.items[..i], v.items[..i + 1]);
    if i + 1 < |v.items| { ParseWrittenItems(v, i + 1, t); }
  }

  /**
   Parsing the text of a document gives the document, for every document whose numbers are whole and below the limit.
   */
  lemma {:induction false} JsonRoundTrip(v: JsonValue)
    requires Plain(v)
    ensures ParseDocument(Written(v)) == Ok(v)
  {
    ParseWritten(v, "");
    assert Written(v) + "" == Written(v);
  }
}
