/** JSON documents: their text, and a parser as functions on what is left of the text. Characters stand for bytes. */
module Json {
  import opened Basics

  /** Numbers are integers; every other number token is outside this model. */
  datatype JsonValue =
    | Null
    | Bool(boolean: bool)
    | Number(number: int)
    | String(str: string)
    | Object(members: seq<Member>)
    | Array(items: seq<JsonValue>)

  datatype Member = Member(key: string, value: JsonValue)

  // ---- writing ----

  const HEX := "0123456789abcdef"

  function Escape(ch: char): (s: string)
    ensures s != ""
  {
    if ch == '"' then "\\\""
    else if ch == '\\' then "\\\\"
    else if ch == '\U{8}' then "\\b"
    else if ch == '\U{C}' then "\\f"
    else if ch == '\n' then "\\n"
    else if ch == '\r' then "\\r"
    else if ch == '\t' then "\\t"
    else if ch as int < 0x20 then "\\u00" + [HEX[ch as int / 16], HEX[ch as int % 16]]
    else [ch]
  }

  function Escaped(s: string): string {
    if s == "" then "" else Escape(s[0]) + Escaped(s[1..])
  }

  function Quoted(s: string): string { "\"" + Escaped(s) + "\"" }

  /** Beyond this, numbers are written with a fraction. */
  const WHOLE_LIMIT := 1_000_000_000_000_000

  function IntText(n: int): string { if n < 0 then "-" + Decimal(-n) else Decimal(n) }

  function NumberText(n: int): string {
    if -WHOLE_LIMIT < n < WHOLE_LIMIT then IntText(n) else IntText(n) + ".000000"
  }

  function Written(v: JsonValue): string
    decreases v, 1, 0
  {
    match v
    case Null => "null"
    case Bool(b) => if b then "true" else "false"
    case Number(n) => NumberText(n)
    case String(s) => Quoted(s)
    case Object(members) => "{" + WrittenMembers(v, 0) + "}"
    case Array(items) => "[" + WrittenItems(v, 0) + "]"
  }

  /** The members from the `i`-th on, separated by commas. */
  function WrittenMembers(v: JsonValue, i: nat): string
    requires v.Object? && i <= |v.members|
    decreases v, 0, |v.members| - i
  {
    if i == |v.members| then ""
    else
      Quoted(v.members[i].key) + ":" + Written(v.members[i].value)
      + (if i + 1 < |v.members| then "," else "") + WrittenMembers(v, i + 1)
  }

  function WrittenItems(v: JsonValue, i: nat): string
    requires v.Array? && i <= |v.items|
    decreases v, 0, |v.items| - i
  {
    if i == |v.items| then ""
    else Written(v.items[i]) + (if i + 1 < |v.items| then "," else "") + WrittenItems(v, i + 1)
  }

  // ---- parsing ----

  /** A value and what is left of the text, or a failure. */
  datatype Parsed<T> = Done(value: T, rest: string) | Failed(what: string)

  predicate IsSpace(ch: char) { ch == ' ' || ch == '\t' || ch == '\n' || ch == '\r' }

  function SkipSpace(s: string): (r: string)
    ensures |r| <= |s|
  {
    if s != "" && IsSpace(s[0]) then SkipSpace(s[1..]) else s
  }

  const END_OF_INPUT := "unexpected end of input"

  function Expected(ch: char): string { "expected '" + [ch] + "'" }

  /** The text after the character `ch`. */
  function Expect(s: string, ch: char): (r: Parsed<()>)
    ensures r.Done? ==> s != "" && s[0] == ch && r.rest == s[1..]
  {
    if s == "" then Failed(END_OF_INPUT) else if s[0] != ch then Failed(Expected(ch)) else Done((), s[1..])
  }

  function Unescape(esc: char): Option<char> {
    match esc
    case '"' => Some('"')
    case '\\' => Some('\\')
    case '/' => Some('/')
    case 'b' => Some('\U{8}')
    case 'f' => Some('\U{C}')
    case 'n' => Some('\n')
    case 'r' => Some('\r')
    case 't' => Some('\t')
    case _ => None
  }

  function HexDigit(h: char): (d: Option<nat>)
    ensures d.Some? ==> d.value < 16
  {
    if '0' <= h <= '9' then Some(h as int - '0' as int)
    else if 'a' <= h <= 'f' then Some(h as int - 'a' as int + 10)
    else if 'A' <= h <= 'F' then Some(h as int - 'A' as int + 10)
    else None
  }

  /** The code of up to four hexadecimal digits. */
  function HexCode(s: string): (code: Option<nat>)
    requires |s| <= 4
    ensures code.Some? ==>
      code.value < (if |s| == 0 then 1 else if |s| == 1 then 0x10 else if |s| == 2 then 0x100
                    else if |s| == 3 then 0x1000 else 0x10000)
  {
    if s == "" then Some(0)
    else
      var n := |s| - 1;
      match HexCode(s[..n])
      case None => None
      case Some(code) => if HexDigit(s[n]).None? then None else Some(code * 16 + HexDigit(s[n]).value)
  }

  /** The UTF-8 bytes of a code below 0x10000. */
  function Utf8(code: nat): string
    requires code < 0x10000
  {
    if code < 0x80 then [code as char]
    else if code < 0x800 then [(0xC0 + code / 64) as char, (0x80 + code % 64) as char]
    else [(0xE0 + code / 4096) as char, (0x80 + code / 64 % 64) as char, (0x80 + code % 64) as char]
  }

  /** The rest of a string after its opening quote; `out` is what was read so far. */
  function ParseChars(s: string, out: string): (r: Parsed<string>)
    ensures r.Done? ==> |r.rest| < |s|
    decreases |s|
  {
    if s == "" then Failed("unterminated string")
    else if s[0] == '"' then Done(out, s[1..])
    else if s[0] != '\\' then ParseChars(s[1..], out + [s[0]])
    else if |s| == 1 then Failed("unterminated escape")
    else if Unescape(s[1]).Some? then ParseChars(s[2..], out + [Unescape(s[1]).value])
    else if s[1] != 'u' then Failed("unknown escape")
    else if |s| < 6 || HexCode(s[2..6]).None? then Failed("bad \\u escape")
    else ParseChars(s[6..], out + Utf8(HexCode(s[2..6]).value))
  }

  function ParseText(s: string): (r: Parsed<string>)
    ensures r.Done? ==> |r.rest| < |s|
  {
    match Expect(s, '"')
    case Failed(w) => Failed(w)
    case Done(_, rest) => ParseChars(rest, "")
  }

  predicate IsNumberChar(ch: char) {
    '0' <= ch <= '9' || ch == '.' || ch == 'e' || ch == 'E' || ch == '+' || ch == '-'
  }

  function NumberLength(s: string): (n: nat)
    ensures n <= |s|
  {
    if s != "" && IsNumberChar(s[0]) then 1 + NumberLength(s[1..]) else 0
  }

  function Digits(s: string): (n: Option<nat>) {
    if s == "" then Some(0)
    else
      var last := s[|s| - 1];
      var before := Digits(s[..|s| - 1]);
      if before.None? || !('0' <= last <= '9') then None
      else Some(before.value * 10 + (last as int - '0' as int))
  }

  predicate IsDigit(ch: char) { '0' <= ch <= '9' }

  /** How many digits `s` starts with. */
  function DigitCount(s: string): (n: nat)
    ensures n <= |s|
  {
    if s != "" && IsDigit(s[0]) then 1 + DigitCount(s[1..]) else 0
  }

  predicate StartsExponent(s: string) {
    s != "" && (IsDigit(s[0]) || ((s[0] == '+' || s[0] == '-') && |s| > 1 && IsDigit(s[1])))
  }

  /** What follows the digits makes the number one with a fraction or an exponent. */
  predicate GoesOn(s: string) {
    s != "" && (s[0] == '.' || ((s[0] == 'e' || s[0] == 'E') && StartsExponent(s[1..])))
  }

  /**
   The value `std::stod` finds in a token: that of the longest number the token
   starts with, whatever follows. Only integers of which a double keeps every
   digit are modelled.
   */
  function IntegerOf(token: string): Option<int> {
    var negative := token != "" && token[0] == '-';
    var digits := if negative || (token != "" && token[0] == '+') then token[1..] else token;
    var k := DigitCount(digits);
    var value := Digits(digits[..k]);
    if k == 0 || GoesOn(digits[k..]) || value.None? || value.value >= WHOLE_LIMIT then None
    else
      var n: int := value.value;
      Some(if negative then -n else n)
  }

  function ParseNumber(s: string): (r: Parsed<JsonValue>)
    ensures r.Done? ==> |r.rest| < |s|
  {
    var n := NumberLength(s);
    if IntegerOf(s[..n]).None? then Failed("invalid number") else Done(Number(IntegerOf(s[..n]).value), s[n..])
  }

  /** The text after `word`. */
  function ParseWord(s: string, word: string, v: JsonValue): (r: Parsed<JsonValue>)
    ensures r.Done? ==> |r.rest| == |s| - |word|
  {
    if word <= s then Done(v, s[|word|..]) else Failed("invalid literal")
  }

  function ParseValue(s: string): (r: Parsed<JsonValue>)
    ensures r.Done? ==> |r.rest| < |s|
    decreases |s|, 2
  {
    var t := SkipSpace(s);
    if t == "" then Failed(END_OF_INPUT)
    else
      match t[0]
      case '{' => ParseObject(t)
      case '[' => ParseArray(t)
      case '"' => (match ParseText(t) case Done(str, rest) => Done(String(str), rest) case Failed(w) => Failed(w))
      case 't' => ParseWord(t, "true", Bool(true))
      case 'f' => ParseWord(t, "false", Bool(false))
      case 'n' => ParseWord(t, "null", Null)
      case _ => ParseNumber(t)
  }

  function ParseObject(s: string): (r: Parsed<JsonValue>)
    requires s != "" && s[0] == '{'
    ensures r.Done? ==> |r.rest| < |s|
    decreases |s|, 1
  {
    var t := SkipSpace(s[1..]);
    if t == "" then Failed(END_OF_INPUT)
    else if t[0] == '}' then Done(Object([]), t[1..])
    else ParseMembers(t, [])
  }

  /** One member: its key, a colon and its value. */
  function ParseMember(s: string): (r: Parsed<Member>)
    ensures r.Done? ==> |r.rest| < |s|
    decreases |s|, 0
  {
    match ParseText(SkipSpace(s))
    case Failed(w) => Failed(w)
    case Done(key, t) =>
      match Expect(SkipSpace(t), ':')
      case Failed(w) => Failed(w)
      case Done(_, u) =>
        match ParseValue(u)
        case Failed(w) => Failed(w)
        case Done(v, x) => Done(Member(key, v), x)
  }

  /** Members up to the closing brace; `out` are those before. */
  function ParseMembers(s: string, out: seq<Member>): (r: Parsed<JsonValue>)
    ensures r.Done? ==> |r.rest| < |s|
    decreases |s|, 1
  {
    match ParseMember(s)
    case Failed(w) => Failed(w)
    case Done(m, x) =>
      var y := SkipSpace(x);
      if y == "" then Failed(END_OF_INPUT)
      else if y[0] == ',' then ParseMembers(y[1..], out + [m])
      else if y[0] == '}' then Done(Object(out + [m]), y[1..])
      else Failed(Expected('}'))
  }

  function ParseArray(s: string): (r: Parsed<JsonValue>)
    requires s != "" && s[0] == '['
    ensures r.Done? ==> |r.rest| < |s|
    decreases |s|, 1
  {
    var t := SkipSpace(s[1..]);
    if t == "" then Failed(END_OF_INPUT)
    else if t[0] == ']' then Done(Array([]), t[1..])
    else ParseItems(t, [])
  }

  function ParseItems(s: string, out: seq<JsonValue>): (r: Parsed<JsonValue>)
    ensures r.Done? ==> |r.rest| < |s|
    decreases |s|, 3
  {
    match ParseValue(s)
    case Failed(w) => Failed(w)
    case Done(v, x) =>
      var y := SkipSpace(x);
      if y == "" then Failed(END_OF_INPUT)
      else if y[0] == ',' then ParseItems(y[1..], out + [v])
      else if y[0] == ']' then Done(Array(out + [v]), y[1..])
      else Failed(Expected(']'))
  }

  /** A document is one value and nothing but space after it. */
  function ParseDocument(s: string): Result<JsonValue, string> {
    match ParseValue(s)
    case Failed(w) => Err(w)
    case Done(v, rest) => if SkipSpace(rest) == "" then Ok(v) else Err("trailing characters after JSON value")
  }
}
