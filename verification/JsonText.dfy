/** The writer and the recursive-descent parser as loops over a buffer and a position. */
module JsonTexts {
  import opened Basics
  import opened Json
  import J = Json

  // ---- writing ----

  method JsonEscapeInto(out: string, s: string) returns (out': string)
    ensures out' == out + Escaped(s)
  {
    out' := out;
    for i := 0 to |s|
      invariant out' + Escaped(s[i..]) == out + Escaped(s)
    {
      assert s[i..][0] == s[i] && s[i..][1..] == s[i + 1..];
      AppendAfter(out', Escape(s[i]), Escaped(s[i + 1..]));
      out' := out' + Escape(s[i]);
    }
    assert out' + Escaped(s[|s|..]) == out';
  }

  method JsonString(s: string) returns (r: string)
    ensures r == Quoted(s)
  {
    r := "\"";
    r := JsonEscapeInto(r, s);
    r := r + "\"";
  }

  method WriteJson(v: JsonValue) returns (r: string)
    ensures r == Written(v)
    decreases v, 1
  {
    match v {
      case Null => r := "null";
      case Bool(b) => r := if b then "true" else "false";
      case Number(n) => r := NumberText(n);
      case String(s) => r := JsonString(s);
      case Object(members) => r := WriteMembers(v);
      case Array(items) => r := WriteItems(v);
    }
  }

  /** `r` holds the first `i` of `n` parts, and with the comma still due and the `rest` it is the whole. */
  ghost predicate Writing(r: string, i: nat, n: nat, rest: string, whole: string) {
    r + (if 0 < i < n then "," else "") + rest == whole
  }

  lemma WritingNext(r: string, i: nat, n: nat, part: string, rest: string, rest': string, whole: string)
    requires i < n && Writing(r, i, n, rest, whole)
    requires rest == part + (if i + 1 < n then "," else "") + rest'
    ensures Writing(r + (if i == 0 then "" else ",") + part, i + 1, n, rest', whole)
  {
    var comma, next := if i == 0 then "" else ",", if i + 1 < n then "," else "";
    AppendAfter(part, next, rest');
    AppendAfter(r + comma, part, next + rest');
    AppendAfter(r + comma + part, next, rest');
  }

  lemma WritingDone(r: string, n: nat, whole: string)
    requires Writing(r, n, n, "", whole)
    ensures r == whole
  {
    assert r + "" + "" == r;
  }

  lemma WritingStart(r: string, n: nat, rest: string)
    ensures Writing(r, 0, n, rest, r + rest)
  {
    assert r + "" == r;
  }

  method AppendPart(out: string, first: bool, part: string) returns (out': string)
    ensures out' == out + (if first then "" else ",") + part
  {
    out' := out;
    if !first { out' := out' + ","; }
    out' := out' + part;
    if first { assert out + "" == out; }
  }

  method WriteMembers(v: JsonValue) returns (r: string)
    requires v.Object?
    ensures r == Written(v)
    decreases v, 0
  {
    r := "{";
    var first := true;
    ghost var whole := "{" + WrittenMembers(v, 0);
    WritingStart(r, |v.members|, WrittenMembers(v, 0));
    for i := 0 to |v.members|
      invariant first <==> i == 0
      invariant Writing(r, i, |v.members|, WrittenMembers(v, i), whole)
    {
      var key := JsonString(v.members[i].key);
      var value := WriteJson(v.members[i].value);
      WritingNext(r, i, |v.members|, key + ":" + value, WrittenMembers(v, i), WrittenMembers(v, i + 1), whole);
      r := AppendPart(r, first, key + ":" + value);
      first := false;
    }
    WritingDone(r, |v.members|, whole);
    r := r + "}";
  }

  method WriteItems(v: JsonValue) returns (r: string)
    requires v.Array?
    ensures r == Written(v)
    decreases v, 0
  {
    r := "[";
    var first := true;
    ghost var whole := "[" + WrittenItems(v, 0);
    WritingStart(r, |v.items|, WrittenItems(v, 0));
    for i := 0 to |v.items|
      invariant first <==> i == 0
      invariant Writing(r, i, |v.items|, WrittenItems(v, i), whole)
    {
      var item := WriteJson(v.items[i]);
      WritingNext(r, i, |v.items|, item, WrittenItems(v, i), WrittenItems(v, i + 1), whole);
      r := AppendPart(r, first, item);
      first := false;
    }
    WritingDone(r, |v.items|, whole);
    r := r + "]";
  }

  // ---- parsing ----

  /** A step of the parser did what the function says: same value and same text left, or same failure. */
  ghost predicate Agrees<T>(p: Parsed<T>, r: Result<T, string>, left: string) {
    match p
    case Done(v, rest) => r == Ok(v) && left == rest
    case Failed(w) => r == Err(w)
  }

  class JsonParser {
    const src: string
    var pos: nat

    constructor (src: string)
      ensures this.src == src && pos == 0
    {
      this.src := src;
      pos := 0;
    }

    ghost predicate Valid()
      reads this
    {
      pos <= |src|
    }

    ghost function Left(): string
      reads this
      requires Valid()
    {
      src[pos..]
    }

    method SkipWs()
      requires Valid()
      modifies this`pos
      ensures Valid() && old(pos) <= pos && Left() == SkipSpace(old(Left()))
    {
      while pos < |src| && IsSpace(src[pos])
        invariant old(pos) <= pos <= |src|
        invariant SkipSpace(src[pos..]) == SkipSpace(old(Left()))
      {
        assert src[pos..][1..] == src[pos + 1..];
        pos := pos + 1;
      }
    }

    method Peek() returns (r: Result<char, string>)
      requires Valid()
      ensures if Left() == "" then r == Err(END_OF_INPUT) else r == Ok(Left()[0])
    {
      if pos >= |src| { return Err(END_OF_INPUT); }
      return Ok(src[pos]);
    }

    method ExpectChar(ch: char) returns (r: Result<(), string>)
      requires Valid()
      modifies this`pos
      ensures Valid() && Agrees(Expect(old(Left()), ch), r, Left())
    {
      var c := Peek();
      if c.Err? { return Err(c.error); }
      if c.value != ch { return Err(Expected(ch)); }
      assert src[pos..][1..] == src[pos + 1..];
      pos := pos + 1;
      return Ok(());
    }

    method Consume(word: string) returns (found: bool)
      requires Valid()
      modifies this`pos
      ensures Valid() && found == (word <= old(Left())) && Left() == if found then old(Left())[|word|..]
                                                                     else old(Left())
    {
      if pos + |word| > |src| || src[pos..pos + |word|] != word { return false; }
      assert src[pos..][..|word|] == word && src[pos..][|word|..] == src[pos + |word|..];
      pos := pos + |word|;
      return true;
    }

    method ParseLiteral(word: string, v: JsonValue) returns (r: Result<JsonValue, string>)
      requires Valid()
      modifies this`pos
      ensures Valid() && Agrees(ParseWord(old(Left()), word, v), r, Left())
    {
      var found := Consume(word);
      if !found { return Err("invalid literal"); }
      return Ok(v);
    }

    method ParseString() returns (r: Result<string, string>)
      requires Valid()
      modifies this`pos
      ensures Valid() && Agrees(ParseText(old(Left())), r, Left())
    {
      var quote := ExpectChar('"');
      if quote.Err? { return Err(quote.error); }
      ghost var p := ParseChars(Left(), "");
      var out := "";
      while true
        invariant Valid() && p == ParseChars(Left(), out)
        invariant p == ParseText(old(Left()))
        decreases |src| - pos
      {
        if pos >= |src| { return Err("unterminated string"); }
        var ch := src[pos];
        ghost var left := Left();
        pos := pos + 1;
        assert Left() == left[1..];
        if ch == '"' { return Ok(out); }
        if ch != '\\' {
          out := out + [ch];
          continue;
        }
        var more := ParseEscape(out, left);
        if more.Err? { return Err(more.error); }
        out := more.value;
      }
    }

    /** What follows a backslash; `left` is the text from the backslash on. */
    method ParseEscape(out: string, ghost left: string) returns (r: Result<string, string>)
      requires Valid() && left != "" && left[0] == '\\' && Left() == left[1..]
      modifies this`pos
      ensures Valid() && old(pos) <= pos
      ensures r.Ok? ==> old(pos) < pos && ParseChars(left, out) == ParseChars(Left(), r.value)
      ensures r.Err? ==> ParseChars(left, out) == Failed(r.error)
    {
      if pos >= |src| { return Err("unterminated escape"); }
      var esc := src[pos];
      pos := pos + 1;
      assert left[1] == esc && Left() == left[2..];
      if Unescape(esc).Some? { return Ok(out + [Unescape(esc).value]); }
      if esc != 'u' { return Err("unknown escape"); }
      if pos + 4 > |src| { return Err("bad \\u escape"); }
      assert left[2..][..4] == left[2..6] && left[2..][4..] == left[6..];
      var code := ParseHex();
      if code.None? { return Err("bad \\u escape"); }
      return Ok(out + Utf8(code.value));
    }

    method ParseNumber() returns (r: Result<JsonValue, string>)
      requires Valid()
      modifies this`pos
      ensures Valid() && Agrees(J.ParseNumber(old(Left())), r, Left())
    {
      var start := pos;
      ghost var left := Left();
      while pos < |src| && IsNumberChar(src[pos])
        invariant start <= pos <= |src|
        invariant NumberLength(left) == pos - start + NumberLength(src[pos..])
      {
        assert src[pos..][1..] == src[pos + 1..];
        pos := pos + 1;
      }
      assert src[start..pos] == left[..pos - start] && Left() == left[pos - start..];
      var n := IntegerOf(src[start..pos]);
      if n.None? { return Err("invalid number"); }
      return Ok(Number(n.value));
    }

    method ParseValue() returns (r: Result<JsonValue, string>)
      requires Valid()
      modifies this`pos
      ensures Valid() && Agrees(J.ParseValue(old(Left())), r, Left())
      decreases |src| - pos, 2
    {
      SkipWs();
      var ch := Peek();
      if ch.Err? { return Err(ch.error); }
      match ch.value {
        case '{' => r := ParseObject();
        case '[' => r := ParseArray();
        case '"' =>
          var text := ParseString();
          r := if text.Ok? then Ok(String(text.value)) else Err(text.error);
        case 't' => r := ParseLiteral("true", Bool(true));
        case 'f' => r := ParseLiteral("false", Bool(false));
        case 'n' => r := ParseLiteral("null", Null);
        case _ => r := ParseNumber();
      }
    }

    /** The part of the loop over an object's members that reads one. */
    method ParseMember() returns (r: Result<Member, string>)
      requires Valid()
      modifies this`pos
      ensures Valid() && Agrees(J.ParseMember(old(Left())), r, Left())
      ensures r.Ok? ==> old(pos) < pos
      decreases |src| - pos, 0
    {
      SkipWs();
      var key := ParseString();
      if key.Err? { return Err(key.error); }
      SkipWs();
      var colon := ExpectChar(':');
      if colon.Err? { return Err(colon.error); }
      var value := ParseValue();
      if value.Err? { return Err(value.error); }
      r := Ok(Member(key.value, value.value));
    }

    method ParseObject() returns (r: Result<JsonValue, string>)
      requires Valid() && Left() != "" && Left()[0] == '{'
      modifies this`pos
      ensures Valid() && Agrees(J.ParseObject(old(Left())), r, Left())
      decreases |src| - pos, 1
    {
      ghost var left := Left();
      var brace := ExpectChar('{');
      assert Left() == left[1..];
      SkipWs();
      var ch := Peek();
      if ch.Err? { return Err(ch.error); }
      if ch.value == '}' {
        Advance();
        return Ok(Object([]));
      }
      var members: seq<Member> := [];
      ghost var all := ParseMembers(Left(), []);
      while true
        invariant Valid() && old(pos) < pos && all == J.ParseMembers(Left(), members)
        decreases |src| - pos
      {
        var member := ParseMember();
        if member.Err? { return Err(member.error); }
        SkipWs();
        members := members + [member.value];
        ch := Peek();
        if ch.Err? { return Err(ch.error); }
        if ch.value == ',' {
          Advance();
          continue;
        }
        var close := ExpectChar('}');
        if close.Err? { return Err(close.error); }
        return Ok(Object(members));
      }
    }

    method ParseArray() returns (r: Result<JsonValue, string>)
      requires Valid() && Left() != "" && Left()[0] == '['
      modifies this`pos
      ensures Valid() && Agrees(J.ParseArray(old(Left())), r, Left())
      decreases |src| - pos, 1
    {
      ghost var left := Left();
      var bracket := ExpectChar('[');
      assert Left() == left[1..];
      SkipWs();
      var ch := Peek();
      if ch.Err? { return Err(ch.error); }
      if ch.value == ']' {
        Advance();
        return Ok(Array([]));
      }
      var items: seq<JsonValue> := [];
      ghost var all := ParseItems(Left(), []);
      while true
        invariant Valid() && old(pos) < pos && all == ParseItems(Left(), items)
        decreases |src| - pos
      {
        var value := ParseValue();
        if value.Err? { return Err(value.error); }
        SkipWs();
        items := items + [value.value];
        ch := Peek();
        if ch.Err? { return Err(ch.error); }
        if ch.value == ',' {
          Advance();
          continue;
        }
        var close := ExpectChar(']');
        if close.Err? { return Err(close.error); }
        return Ok(Array(items));
      }
    }

    method Advance()
      requires Valid() && Left() != ""
      modifies this`pos
      ensures Valid() && pos == old(pos) + 1 && Left() == old(Left())[1..]
    {
      assert src[pos..][1..] == src[pos + 1..];
      pos := pos + 1;
    }

    method Parse() returns (r: Result<JsonValue, string>)
      requires pos == 0
      modifies this`pos
      ensures r == ParseDocument(src)
    {
      assert src[0..] == src;
      r := ParseValue();
      if r.Err? { return; }
      SkipWs();
      if pos != |src| { return Err("trailing characters after JSON value"); }
    }

    /** The loop over the four digits of a `\u` escape. */
    method ParseHex() returns (code: Option<nat>)
      requires Valid() && pos + 4 <= |src|
      modifies this`pos
      ensures Valid() && old(pos) <= pos && code == HexCode(old(Left())[..4])
      ensures code.Some? ==> pos == old(pos) + 4 && Left() == old(Left())[4..]
    {
      var n: nat := 0;
      ghost var digits := src[pos..][..4];
      for i := 0 to 4
        invariant pos == old(pos) + i
        invariant HexCode(digits[..i]) == Some(n)
      {
        var d := HexDigit(src[pos]);
        assert digits[i] == src[pos];
        HexStep(digits, i);
        pos := pos + 1;
        if d.None? { return None; }
        n := n * 16 + d.value;
      }
      assert digits[..4] == digits;
      return Some(n);
    }
  }

  method ParseJson(src: string) returns (r: Result<JsonValue, string>)
    ensures r == ParseDocument(src)
  {
    var parser := new JsonParser(src);
    r := parser.Parse();
  }

  lemma {:induction false} HexStep(s: string, i: nat)
    requires |s| == 4 && i < 4
    ensures HexCode(s[..i]).Some? && HexDigit(s[i]).Some? ==>
      HexCode(s[..i + 1]) == Some(HexCode(s[..i]).value * 16 + HexDigit(s[i]).value)
    ensures HexCode(s[..i]).Some? && HexDigit(s[i]).None? ==> HexCode(s) == None
  {
    assert s[..i + 1][..i] == s[..i];
    if HexCode(s[..i + 1]).None? { HexNone(s, i + 1); }
  }

  lemma {:induction false} HexNone(s: string, k: nat)
    requires k <= |s| <= 4 && HexCode(s[..k]).None?
    ensures HexCode(s).None?
    decreases |s|
  {
    if k < |s| {
      assert s[..|s| - 1][..k] == s[..k];
      HexNone(s[..|s| - 1], k);
    } else {
      assert s[..k] == s;
    }
  }
}
