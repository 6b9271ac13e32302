/** The concrete syntax of documents, however they are laid out, and that the parser reads it. */
module JsonLayouts {
  import opened Basics
  import opened Json
  import opened JsonRoundTrips
  import J = Json

  // ---- concrete syntax ----

  /** Blanks, tabs and line ends. */
  predicate White(s: string) { forall i :: 0 <= i < |s| ==> s[i] in {' ', '\t', '\n', '\r'} }

  /** `h` is a hexadecimal digit for `n`. */
  predicate Nibble(h: char, n: nat) {
    n < 16 && (h == "0123456789abcdef"[n] || h == "0123456789ABCDEF"[n])
  }

  /** The bytes of a code point below 0x10000, as in section 3 of RFC 3629, for surrogates too. */
  predicate Encodes(code: nat, bytes: string) {
    || (|bytes| == 1 && code < 0x80 && bytes[0] as int == code)
    || (|bytes| == 2 && 0x80 <= code < 0x800 && 0xC0 <= bytes[0] as int < 0xE0 && Continues(bytes[1])
        && code == (bytes[0] as int - 0xC0) * 64 + (bytes[1] as int - 0x80))
    || (|bytes| == 3 && 0x800 <= code < 0x10000 && 0xE0 <= bytes[0] as int < 0xF0
        && Continues(bytes[1]) && Continues(bytes[2])
        && code == (bytes[0] as int - 0xE0) * 4096 + (bytes[1] as int - 0x80) * 64 + (bytes[2] as int - 0x80))
  }

  predicate Continues(byte: char) { 0x80 <= byte as int < 0xC0 }

  /** A part of a quoted string: a character as it is, a short escape for `ch`, or a code for `bytes`. */
  datatype Piece =
    | Raw(ch: char)
    | Short(esc: char, ch: char)
    | Unicode(hex: string, a: nat, b: nat, c: nat, d: nat, bytes: string)
  {
    predicate Valid() {
      match this
      case Raw(ch) => ch != '"' && ch != '\\'
      case Short(esc, ch) =>
        (esc, ch) in {('"', '"'), ('\\', '\\'), ('/', '/'), ('b', '\U{8}'), ('f', '\U{C}'), ('n', '\n'), ('r', '\r'),
                      ('t', '\t')}
      case Unicode(hex, a, b, c, d, bytes) =>
        && |hex| == 4 && Nibble(hex[0], a) && Nibble(hex[1], b) && Nibble(hex[2], c) && Nibble(hex[3], d)
        && Encodes(a * 4096 + b * 256 + c * 16 + d, bytes)
    }

    function Shown(): string {
      match this
      case Raw(ch) => [ch]
      case Short(esc, _) => ['\\', esc]
      case Unicode(hex, _, _, _, _, _) => "\\u" + hex
    }

    function Meaning(): string {
      match this
      case Raw(ch) => [ch]
      case Short(_, ch) => [ch]
      case Unicode(_, _, _, _, _, bytes) => bytes
    }
  }

  function ShownPieces(ps: seq<Piece>): string {
    if ps == [] then "" else ps[0].Shown() + ShownPieces(ps[1..])
  }

  function MeaningPieces(ps: seq<Piece>): string {
    if ps == [] then "" else ps[0].Meaning() + MeaningPieces(ps[1..])
  }

  predicate ValidPieces(ps: seq<Piece>) { forall i :: 0 <= i < |ps| ==> ps[i].Valid() }

  // ---- strings ----

  lemma NibbleDigit(h: char, n: nat)
    ensures Nibble(h, n) <==> HexDigit(h) == Some(n)
  {}

  lemma {:induction false} HexFour(hex: string, a: nat, b: nat, c: nat, d: nat)
    requires |hex| == 4
    requires HexDigit(hex[0]) == Some(a) && HexDigit(hex[1]) == Some(b)
    requires HexDigit(hex[2]) == Some(c) && HexDigit(hex[3]) == Some(d)
    ensures HexCode(hex) == Some(a * 4096 + b * 256 + c * 16 + d)
  {
    assert hex[..3][..2] == hex[..2] && hex[..2][..1] == hex[..1] && hex[..1][..0] == [];
    assert HexCode([]) == Some(0);
    assert HexCode(hex[..1]) == Some(a);
    assert HexCode(hex[..2]) == Some(a * 16 + b);
    assert HexCode(hex[..3]) == Some((a * 16 + b) * 16 + c);
  }

  /** There is one encoding, and it is the one made. */
  lemma EncodesExactly(code: nat, bytes: string)
    requires code < 0x10000
    ensures Encodes(code, bytes) <==> bytes == Utf8(code)
  {
    if Encodes(code, bytes) {
      if |bytes| == 2 {
        assert code / 64 == bytes[0] as int - 0xC0 && code % 64 == bytes[1] as int - 0x80;
      } else if |bytes| == 3 {
        var x := (bytes[0] as int - 0xE0) * 64 + (bytes[1] as int - 0x80);
        assert code / 64 == x && code % 64 == bytes[2] as int - 0x80;
        assert x / 64 == bytes[0] as int - 0xE0 && x % 64 == bytes[1] as int - 0x80;
        assert code / 4096 == x / 64;
      }
    }
    if bytes == Utf8(code) && code >= 0x800 {
      assert code == code / 64 * 64 + code % 64 && code / 64 == code / 64 / 64 * 64 + code / 64 % 64;
      assert code / 4096 == code / 64 / 64;
    }
  }

  lemma {:induction false} ParseUnicode(p: Piece, t: string, out: string)
    requires p.Valid() && p.Unicode?
    ensures ParseChars(p.Shown() + t, out) == ParseChars(t, out + p.bytes)
  {
    var s, hex := p.Shown() + t, p.hex;
    NibbleDigit(hex[0], p.a);
    NibbleDigit(hex[1], p.b);
    NibbleDigit(hex[2], p.c);
    NibbleDigit(hex[3], p.d);
    HexFour(hex, p.a, p.b, p.c, p.d);
    EncodesExactly(p.a * 4096 + p.b * 256 + p.c * 16 + p.d, p.bytes);
    assert s[0] == '\\' && s[1] == 'u' && s[2..6] == hex && s[6..] == t;
  }

  lemma {:induction false} ParsePiece(p: Piece, t: string, out: string)
    requires p.Valid()
    ensures ParseChars(p.Shown() + t, out) == ParseChars(t, out + p.Meaning())
  {
    var s := p.Shown() + t;
    match p {
      case Raw(ch) => assert s[1..] == t;
      case Short(esc, ch) =>
        assert s[0] == '\\' && s[1] == esc && s[2..] == t;
        assert Unescape(esc) == Some(ch);
      case Unicode(_, _, _, _, _, _) => ParseUnicode(p, t, out);
    }
  }

  lemma {:induction false} ParsePieces(ps: seq<Piece>, t: string, out: string)
    requires ValidPieces(ps)
    ensures ParseChars(ShownPieces(ps) + "\"" + t, out) == Done(out + MeaningPieces(ps), t)
    decreases |ps|
  {
    var s := ShownPieces(ps) + "\"" + t;
    if ps == [] {
      assert s[0] == '"' && s[1..] == t && out + "" == out;
    } else {
      var rest := ShownPieces(ps[1..]) + "\"" + t;
      assert s == ps[0].Shown() + rest;
      ParsePiece(ps[0], rest, out);
      ParsePieces(ps[1..], t, out + ps[0].Meaning());
      AppendAfter(out, ps[0].Meaning(), MeaningPieces(ps[1..]));
    }
  }

  /** A quoted string, followed by `t`. */
  function Quoting(pieces: seq<Piece>, t: string): string { "\"" + (ShownPieces(pieces) + "\"" + t) }

  lemma {:induction false} ParseQuotedPieces(ps: seq<Piece>, t: string)
    requires ValidPieces(ps)
    ensures ParseText(Quoting(ps, t)) == Done(MeaningPieces(ps), t)
  {
    var s := Quoting(ps, t);
    assert s[0] == '"' && s[1..] == ShownPieces(ps) + "\"" + t;
    ParsePieces(ps, t, "");
    assert "" + MeaningPieces(ps) == MeaningPieces(ps);
  }

  // ---- numbers ----

  /** The number that decimal digits stand for. */
  function Value(digits: string): nat
    requires forall i :: 0 <= i < |digits| ==> '0' <= digits[i] <= '9'
  {
    if digits == "" then 0
    else Value(digits[..|digits| - 1]) * 10 + (digits[|digits| - 1] as int - '0' as int)
  }

  lemma {:induction false} DigitsValue(digits: string)
    requires forall i :: 0 <= i < |digits| ==> '0' <= digits[i] <= '9'
    ensures Digits(digits) == Some(Value(digits))
  {
    if digits != "" { DigitsValue(digits[..|digits| - 1]); }
  }

  /** A fraction, or an exponent with a digit. */
  predicate Goes(tail: string) {
    tail != "" &&
    (tail[0] == '.'
     || (tail[0] in {'e', 'E'} && |tail| > 1
         && ('0' <= tail[1] <= '9' || (tail[1] in {'+', '-'} && |tail| > 2 && '0' <= tail[2] <= '9'))))
  }

  /** A number token: a sign or none, digits, and what may follow them without changing the number. */
  predicate Numeral(sign: string, digits: string, tail: string, n: int) {
    && sign in {"", "-", "+"}
    && digits != "" && (forall i :: 0 <= i < |digits| ==> '0' <= digits[i] <= '9')
    && (forall i :: 0 <= i < |tail| ==> '0' <= tail[i] <= '9' || tail[i] in {'.', 'e', 'E', '+', '-'})
    && (tail == "" || !('0' <= tail[0] <= '9')) && !Goes(tail)
    && Value(digits) < 1_000_000_000_000_000 && n == (if sign == "-" then -(Value(digits) as int) else Value(digits))
  }

  lemma GoesSame(tail: string)
    ensures Goes(tail) <==> GoesOn(tail)
  {}

  lemma {:induction false} ParseNumeral(sign: string, digits: string, tail: string, n: int, t: string)
    requires Numeral(sign, digits, tail, n) && NumberEnds(t)
    ensures ParseNumber(sign + digits + tail + t) == Done(Number(n), t)
  {
    var s := sign + digits + tail;
    forall i | 0 <= i < |s| ensures IsNumberChar(s[i]) {
      if i >= |sign| + |digits| { assert s[i] == tail[i - |sign| - |digits|]; }
    }
    NumberSpan(s, t);
    DigitsValue(digits);
    GoesSame(tail);
    IntegerOfDigits(digits, tail, Value(digits), sign);
    assert (s + t)[..|s|] == s && (s + t)[|s|..] == t;
  }

  // ---- documents ----

  /** The text of a document, token by token; white space is kept before and after each value and key. */
  datatype Layout =
    | NullText
    | TrueText
    | FalseText
    | NumberToken(sign: string, digits: string, tail: string, n: int)
    | Quotation(pieces: seq<Piece>)
    | Brackets(blank: string, items: seq<Item>)
    | Braces(blank: string, entries: seq<Entry>)

  /** A value with the white space around it. */
  datatype Item = Item(before: string, value: Layout, after: string)

  /** A key with the white space around it, and a value. */
  datatype Entry = Entry(before: string, key: seq<Piece>, after: string, item: Item)

  predicate Valid(l: Layout) {
    match l
    case NumberToken(sign, digits, tail, n) => Numeral(sign, digits, tail, n)
    case Quotation(pieces) => ValidPieces(pieces)
    case Brackets(blank, items) => White(blank) && ValidItems(items)
    case Braces(blank, entries) => White(blank) && ValidEntries(entries)
    case _ => true
  }

  predicate ValidItem(item: Item) { White(item.before) && Valid(item.value) && White(item.after) }

  predicate ValidItems(items: seq<Item>) { items != [] ==> ValidItem(items[0]) && ValidItems(items[1..]) }

  predicate ValidEntry(e: Entry) { White(e.before) && ValidPieces(e.key) && White(e.after) && ValidItem(e.item) }

  predicate ValidEntries(entries: seq<Entry>) {
    entries != [] ==> ValidEntry(entries[0]) && ValidEntries(entries[1..])
  }

  /** The text of a document, followed by `t`. */
  function Shown(l: Layout, t: string): string
    decreases l
  {
    match l
    case NullText => "null" + t
    case TrueText => "true" + t
    case FalseText => "false" + t
    case NumberToken(sign, digits, tail, _) => sign + digits + tail + t
    case Quotation(pieces) => Quoting(pieces, t)
    case Brackets(blank, items) => "[" + if items == [] then blank + ("]" + t) else ShownItems(items, t)
    case Braces(blank, entries) => "{" + if entries == [] then blank + ("}" + t) else ShownEntries(entries, t)
  }

  function ShownItem(item: Item, t: string): string
    decreases item
  {
    item.before + Shown(item.value, item.after + t)
  }

  /** Items separated by commas, then a closing bracket. */
  function ShownItems(items: seq<Item>, t: string): string
    requires items != []
    decreases items
  {
    ShownItem(items[0], if |items| == 1 then "]" + t else "," + ShownItems(items[1..], t))
  }

  function ShownEntry(e: Entry, t: string): string
    decreases e
  {
    e.before + Quoting(e.key, e.after + (":" + ShownItem(e.item, t)))
  }

  function ShownEntries(entries: seq<Entry>, t: string): string
    requires entries != []
    decreases entries
  {
    ShownEntry(entries[0], if |entries| == 1 then "}" + t else "," + ShownEntries(entries[1..], t))
  }

  /** The document a text stands for. */
  function Meaning(l: Layout): JsonValue {
    match l
    case NullText => Null
    case TrueText => Bool(true)
    case FalseText => Bool(false)
    case NumberToken(_, _, _, n) => Number(n)
    case Quotation(pieces) => String(MeaningPieces(pieces))
    case Brackets(_, items) => Array(MeaningItems(items))
    case Braces(_, entries) => Object(MeaningEntries(entries))
  }

  function MeaningItems(items: seq<Item>): seq<JsonValue> {
    if items == [] then [] else [Meaning(items[0].value)] + MeaningItems(items[1..])
  }

  function MeaningEntries(entries: seq<Entry>): seq<Member> {
    if entries == [] then []
    else [Member(MeaningPieces(entries[0].key), Meaning(entries[0].item.value))] + MeaningEntries(entries[1..])
  }

  // ---- every layout is read ----

  lemma {:induction false} SkipWhite(w: string, t: string)
    requires White(w) && (t == "" || t[0] !in {' ', '\t', '\n', '\r'})
    ensures SkipSpace(w + t) == t
  {
    if w == "" {
      assert w + t == t;
    } else {
      assert (w + t)[1..] == w[1..] + t;
      SkipWhite(w[1..], t);
    }
  }

  /** A document does not start with white space, and its first character tells its kind. */
  lemma {:induction false} Starts(l: Layout, t: string)
    requires Valid(l)
    ensures Shown(l, t) != "" && Shown(l, t)[0] !in {' ', '\t', '\n', '\r', ']', '}'}
    ensures var ch := Shown(l, t)[0];
            match l
            case NullText => ch == 'n'
            case TrueText => ch == 't'
            case FalseText => ch == 'f'
            case NumberToken(_, _, _, _) => '0' <= ch <= '9' || ch == '+' || ch == '-'
            case Quotation(_) => ch == '"'
            case Brackets(_, _) => ch == '['
            case Braces(_, _) => ch == '{'
  {
    if l.NumberToken? { assert Shown(l, t)[0] == if l.sign == "" then l.digits[0] else l.sign[0]; }
  }

  /** White space, a comma or a closing bracket end a number. */
  lemma EndsNumber(w: string, t: string)
    requires White(w) && (t == "" || t[0] in {',', ']', '}'})
    ensures NumberEnds(w + t)
  {}

  lemma SkipTwice(w: string, u: string)
    requires White(w) && (u == "" || u[0] !in {' ', '\t', '\n', '\r'})
    ensures SkipSpace(w + u) == u && SkipSpace(u) == u && ParseValue(w + u) == ParseValue(u)
  {
    SkipWhite(w, u);
    SkipWhite("", u);
    assert "" + u == u;
  }

  /** Reading a value. */
  lemma {:induction false} ParseShown(l: Layout, t: string)
    requires Valid(l) && NumberEnds(t)
    ensures ParseValue(Shown(l, t)) == Done(Meaning(l), t)
    decreases l, 2
  {
    var u := Shown(l, t);
    Starts(l, t);
    SkipTwice("", u);
    match l {
      case NullText => ParseLiteral("null", Null, t);
      case TrueText => ParseLiteral("true", Bool(true), t);
      case FalseText => ParseLiteral("false", Bool(false), t);
      case NumberToken(sign, digits, tail, n) => ParseNumeral(sign, digits, tail, n, t);
      case Quotation(pieces) => ParseQuotedPieces(pieces, t);
      case Brackets(blank, items) => ParseBrackets(l, t);
      case Braces(blank, entries) => ParseBraces(l, t);
    }
  }

  /** Reading a value with white space on both sides. */
  lemma {:induction false} ParseShownItem(item: Item, t: string)
    requires ValidItem(item) && (t == "" || t[0] in {',', ']', '}'})
    ensures ParseValue(ShownItem(item, t)) == Done(Meaning(item.value), item.after + t)
    ensures SkipSpace(item.after + t) == t
    ensures SkipSpace(ShownItem(item, t)) == Shown(item.value, item.after + t)
    decreases item, 3
  {
    EndsNumber(item.after, t);
    SkipWhite(item.after, t);
    ParseShown(item.value, item.after + t);
    Starts(item.value, item.after + t);
    SkipTwice(item.before, Shown(item.value, item.after + t));
  }

  /** Once an item is read, a comma leads to the next and a bracket ends the array. */
  lemma {:induction false} ItemThen(s: string, out: seq<JsonValue>, v: JsonValue, x: string, y: string)
    requires ParseValue(s) == Done(v, x) && SkipSpace(x) == y && y != ""
    ensures y[0] == ',' ==> ParseItems(s, out) == ParseItems(y[1..], out + [v])
    ensures y[0] == ']' ==> ParseItems(s, out) == Done(Array(out + [v]), y[1..])
    ensures y[0] != ',' && y[0] != ']' ==> ParseItems(s, out).Failed?
  {}

  lemma {:induction false} ParseShownItems(items: seq<Item>, t: string, out: seq<JsonValue>)
    requires items != [] && ValidItems(items)
    ensures ParseItems(ShownItems(items, t), out) == Done(Array(out + MeaningItems(items)), t)
    decreases items, 4
  {
    var item, y := items[0], if |items| == 1 then "]" + t else "," + ShownItems(items[1..], t);
    ParseShownItem(item, y);
    assert ShownItems(items, t) == ShownItem(item, y);
    ItemThen(ShownItem(item, y), out, Meaning(item.value), item.after + y, y);
    if |items| > 1 {
      ParseShownItems(items[1..], t, out + [Meaning(item.value)]);
      AppendAfter(out, [Meaning(item.value)], MeaningItems(items[1..]));
    } else {
      assert MeaningItems(items[1..]) == [] && MeaningItems(items) == [Meaning(item.value)] && y[1..] == t;
    }
  }

  /** White space before the first item makes no difference. */
  lemma {:induction false} ItemsSkip(s: string, u: string)
    requires SkipSpace(s) == u && SkipSpace(u) == u
    ensures ParseItems(s, []) == ParseItems(u, [])
  {
    assert ParseValue(s) == ParseValue(u);
  }

  /** Nor does it before the first member. */
  lemma {:induction false} MembersSkip(s: string, u: string)
    requires SkipSpace(s) == u && SkipSpace(u) == u
    ensures ParseMembers(s, []) == ParseMembers(u, [])
  {
    assert J.ParseMember(s) == J.ParseMember(u);
  }

  lemma {:induction false} ParseBrackets(l: Layout, t: string)
    requires l.Brackets? && Valid(l)
    ensures ParseArray(Shown(l, t)) == Done(Meaning(l), t)
    decreases l, 1
  {
    var s := Shown(l, t)[1..];
    if l.items == [] {
      assert s == l.blank + ("]" + t);
      SkipWhite(l.blank, "]" + t);
    } else {
      assert s == ShownItems(l.items, t) && ValidItems(l.items) && ValidItem(l.items[0]);
      var item, y := l.items[0], if |l.items| == 1 then "]" + t else "," + ShownItems(l.items[1..], t);
      Starts(item.value, item.after + y);
      SkipTwice(item.before, Shown(item.value, item.after + y));
      assert s == ShownItem(item, y) == item.before + Shown(item.value, item.after + y);
      ItemsSkip(s, Shown(item.value, item.after + y));
      ParseShownItems(l.items, t, []);
      assert [] + MeaningItems(l.items) == MeaningItems(l.items);
    }
  }

  // ---- objects ----

  /** Reading one member. */
  lemma {:induction false} ParseShownEntry(e: Entry, t: string)
    requires ValidEntry(e) && t != "" && t[0] in {',', '}'}
    ensures J.ParseMember(ShownEntry(e, t))
         == Done(Member(MeaningPieces(e.key), Meaning(e.item.value)), e.item.after + t)
    ensures SkipSpace(e.item.after + t) == t
    decreases e, 4
  {
    var u := ":" + ShownItem(e.item, t);
    SkipWhite(e.before, Quoting(e.key, e.after + u));
    ParseQuotedPieces(e.key, e.after + u);
    SkipWhite(e.after, u);
    assert u[0] == ':' && u[1..] == ShownItem(e.item, t);
    ParseShownItem(e.item, t);
  }

  /** Once a member is read, a comma leads to the next and a brace ends the object. */
  lemma {:induction false} MemberThen(s: string, out: seq<Member>, m: Member, x: string, y: string)
    requires J.ParseMember(s) == Done(m, x) && SkipSpace(x) == y && y != ""
    ensures y[0] == ',' ==> ParseMembers(s, out) == ParseMembers(y[1..], out + [m])
    ensures y[0] == '}' ==> ParseMembers(s, out) == Done(Object(out + [m]), y[1..])
    ensures y[0] != ',' && y[0] != '}' ==> ParseMembers(s, out).Failed?
  {}

  lemma {:induction false} ParseShownEntries(entries: seq<Entry>, t: string, out: seq<Member>)
    requires entries != [] && ValidEntries(entries)
    ensures ParseMembers(ShownEntries(entries, t), out) == Done(Object(out + MeaningEntries(entries)), t)
    decreases entries, 5
  {
    var e, y := entries[0], if |entries| == 1 then "}" + t else "," + ShownEntries(entries[1..], t);
    var m := Member(MeaningPieces(e.key), Meaning(e.item.value));
    ParseShownEntry(e, y);
    assert ShownEntries(entries, t) == ShownEntry(e, y);
    MemberThen(ShownEntry(e, y), out, m, e.item.after + y, y);
    if |entries| > 1 {
      assert y[1..] == ShownEntries(entries[1..], t);
      ParseShownEntries(entries[1..], t, out + [m]);
      AppendAfter(out, [m], MeaningEntries(entries[1..]));
    } else {
      assert MeaningEntries(entries[1..]) == [] && MeaningEntries(entries) == [m] && y[1..] == t;
    }
  }

  lemma {:induction false} ParseBraces(l: Layout, t: string)
    requires l.Braces? && Valid(l)
    ensures ParseObject(Shown(l, t)) == Done(Meaning(l), t)
    decreases l, 1
  {
    var s := Shown(l, t)[1..];
    if l.entries == [] {
      assert s == l.blank + ("}" + t);
      SkipWhite(l.blank, "}" + t);
    } else {
      assert s == ShownEntries(l.entries, t) && ValidEntries(l.entries) && ValidEntry(l.entries[0]);
      var e, y := l.entries[0], if |l.entries| == 1 then "}" + t else "," + ShownEntries(l.entries[1..], t);
      var u := Quoting(e.key, e.after + (":" + ShownItem(e.item, y)));
      SkipTwice(e.before, u);
      assert s == ShownEntry(e, y) == e.before + u;
      MembersSkip(s, u);
      ParseShownEntries(l.entries, t, []);
      assert [] + MeaningEntries(l.entries) == MeaningEntries(l.entries);
    }
  }

  /**
   Whatever white space stands before and after the tokens of a document, and
   however its strings are escaped, parsing its text gives the document.
   */
  lemma {:induction false} LayoutParses(before: string, l: Layout, after: string)
    requires White(before) && Valid(l) && White(after)
    ensures ParseDocument(before + Shown(l, after)) == Ok(Meaning(l))
  {
    EndsNumber(after, "");
    assert after + "" == after;
    Starts(l, after);
    SkipTwice(before, Shown(l, after));
    ParseShown(l, after);
    SkipWhite(after, "");
  }

  // ---- only layouts are read ----

  lemma {:induction false} SkippedWhite(s: string) returns (w: string)
    ensures White(w) && s == w + SkipSpace(s)
  {
    w := "";
    if s != "" && IsSpace(s[0]) {
      w := SkippedWhite(s[1..]);
      w := [s[0]] + w;
    }
  }

  lemma {:induction false} UnicodeRead(s: string, t: string) returns (p: Piece)
    requires |s| >= 6 && s[0] == '\\' && s[1] == 'u' && HexCode(s[2..6]).Some? && t == s[6..]
    ensures p.Valid() && p.Unicode? && p.bytes == Utf8(HexCode(s[2..6]).value) && s == p.Shown() + t
  {
    var hex := s[2..6];
    HexDigitsOf(hex);
    var a, b, c, d := HexDigit(hex[0]).value, HexDigit(hex[1]).value, HexDigit(hex[2]).value, HexDigit(hex[3]).value;
    NibbleDigit(hex[0], a);
    NibbleDigit(hex[1], b);
    NibbleDigit(hex[2], c);
    NibbleDigit(hex[3], d);
    HexFour(hex, a, b, c, d);
    EncodesExactly(a * 4096 + b * 256 + c * 16 + d, Utf8(HexCode(hex).value));
    p := Unicode(hex, a, b, c, d, Utf8(HexCode(hex).value));
  }

  lemma {:induction false} HexDigitsOf(hex: string)
    requires |hex| == 4 && HexCode(hex).Some?
    ensures forall i :: 0 <= i < 4 ==> HexDigit(hex[i]).Some?
  {
    assert hex[..3][..2] == hex[..2] && hex[..2][..1] == hex[..1];
    assert HexCode(hex[..3]).Some? && HexCode(hex[..2]).Some? && HexCode(hex[..1]).Some?;
  }

  /** One piece is what the parser takes from a string at a time, short of the closing quote. */
  lemma {:induction false} PieceRead(s: string, out: string) returns (p: Piece, t: string)
    requires ParseChars(s, out).Done? && s[0] != '"'
    ensures p.Valid() && s == p.Shown() + t && |t| < |s| && ParseChars(s, out) == ParseChars(t, out + p.Meaning())
  {
    if s[0] != '\\' {
      p, t := Raw(s[0]), s[1..];
    } else if Unescape(s[1]).Some? {
      p, t := Short(s[1], Unescape(s[1]).value), s[2..];
    } else {
      t := s[6..];
      p := UnicodeRead(s, t);
    }
  }

  lemma {:induction false} CharsRead(s: string, out: string) returns (ps: seq<Piece>)
    requires ParseChars(s, out).Done?
    ensures ValidPieces(ps) && s == ShownPieces(ps) + "\"" + ParseChars(s, out).rest
    ensures ParseChars(s, out).value == out + MeaningPieces(ps)
    decreases |s|
  {
    ps := [];
    if s[0] == '"' {
      assert s == "\"" + s[1..] && ShownPieces(ps) + "\"" == "\"" && out + "" == out;
    } else {
      var p, t := PieceRead(s, out);
      var more := CharsRead(t, out + p.Meaning());
      ps := [p] + more;
      assert ps[1..] == more;
      AppendAfter(out, p.Meaning(), MeaningPieces(more));
      Regrouped(p.Shown(), ShownPieces(more), "\"", ParseChars(s, out).rest);
    }
  }

  lemma Regrouped(a: string, b: string, c: string, d: string)
    ensures a + (b + c + d) == a + b + c + d
  {}

  lemma {:induction false} TextRead(s: string) returns (ps: seq<Piece>)
    requires ParseText(s).Done?
    ensures ValidPieces(ps) && s == Quoting(ps, ParseText(s).rest) && ParseText(s).value == MeaningPieces(ps)
  {
    ps := CharsRead(s[1..], "");
    assert "" + MeaningPieces(ps) == MeaningPieces(ps);
    assert s == "\"" + s[1..];
  }

  lemma {:induction false} DigitsRead(s: string)
    ensures forall i :: 0 <= i < DigitCount(s) ==> '0' <= s[i] <= '9'
    ensures DigitCount(s) < |s| ==> !('0' <= s[DigitCount(s)] <= '9')
  {
    if s != "" && IsDigit(s[0]) {
      DigitsRead(s[1..]);
      forall i | 0 <= i < DigitCount(s) ensures '0' <= s[i] <= '9' { assert i > 0 ==> s[i] == s[1..][i - 1]; }
    }
  }

  lemma {:induction false} DigitsTaken(s: string) returns (digits: string, tail: string)
    ensures s == digits + tail && digits == s[..DigitCount(s)] && tail == s[DigitCount(s)..]
    ensures forall i :: 0 <= i < |digits| ==> '0' <= digits[i] <= '9'
    ensures tail == "" || !('0' <= tail[0] <= '9')
  {
    DigitsRead(s);
    digits, tail := s[..DigitCount(s)], s[DigitCount(s)..];
  }

  lemma {:induction false} TokenRead(s: string)
    ensures forall i :: 0 <= i < NumberLength(s) ==> IsNumberChar(s[i])
  {
    if s != "" && IsNumberChar(s[0]) {
      TokenRead(s[1..]);
      forall i | 0 <= i < NumberLength(s) ensures IsNumberChar(s[i]) { assert i > 0 ==> s[i] == s[1..][i - 1]; }
    }
  }

  lemma {:induction false} IntegerRead(token: string) returns (sign: string, digits: string, tail: string)
    requires IntegerOf(token).Some? && forall i :: 0 <= i < |token| ==> IsNumberChar(token[i])
    ensures Numeral(sign, digits, tail, IntegerOf(token).value) && token == sign + digits + tail
  {
    var rest;
    sign, rest := SignRead(token);
    digits, tail := DigitsTaken(rest);
    AppendAfter(sign, digits, tail);
    DigitsValue(digits);
    GoesSame(tail);
    TailChars(token, sign + digits, tail);
  }

  /** A token is its sign, if it has one, and the rest; the number is that of the rest with the sign. */
  lemma {:induction false} SignRead(token: string) returns (sign: string, rest: string)
    requires IntegerOf(token).Some?
    ensures sign in {"", "-", "+"} && token == sign + rest
    ensures var k := DigitCount(rest);
            var value := Digits(rest[..k]);
            && k > 0 && !GoesOn(rest[k..]) && value.Some? && value.value < WHOLE_LIMIT
            && IntegerOf(token).value == if sign == "-" then -(value.value as int) else value.value
  {
    var signed := token != "" && (token[0] == '-' || token[0] == '+');
    sign := if signed then [token[0]] else "";
    rest := if signed then token[1..] else token;
  }

  lemma TailChars(token: string, before: string, tail: string)
    requires token == before + tail && forall i :: 0 <= i < |token| ==> IsNumberChar(token[i])
    ensures forall i :: 0 <= i < |tail| ==> '0' <= tail[i] <= '9' || tail[i] in {'.', 'e', 'E', '+', '-'}
  {
    forall i | 0 <= i < |tail| ensures IsNumberChar(tail[i]) { assert tail[i] == token[|before| + i]; }
  }

  lemma {:induction false} NumberRead(s: string) returns (l: Layout)
    requires ParseNumber(s).Done?
    ensures Valid(l) && s == Shown(l, ParseNumber(s).rest) && Meaning(l) == ParseNumber(s).value
  {
    var n := NumberLength(s);
    TokenRead(s);
    var sign, digits, tail := IntegerRead(s[..n]);
    l := NumberToken(sign, digits, tail, IntegerOf(s[..n]).value);
    assert s == s[..n] + s[n..];
  }

  lemma WordRead(s: string, word: string, v: JsonValue)
    requires ParseWord(s, word, v).Done?
    ensures s == word + ParseWord(s, word, v).rest
  {}

  lemma WhiteConcat(v: string, w: string)
    requires White(v) && White(w)
    ensures White(v + w)
  {}

  /** What the parser takes for a value is white space and a layout of it. */
  lemma {:induction false} ValueRead(s: string) returns (w: string, l: Layout)
    requires ParseValue(s).Done?
    ensures White(w) && Valid(l) && s == w + Shown(l, ParseValue(s).rest) && Meaning(l) == ParseValue(s).value
    decreases |s|, 2
  {
    w := SkippedWhite(s);
    var t := SkipSpace(s);
    match t[0] {
      case '{' => l := ObjectRead(t);
      case '[' => l := ArrayRead(t);
      case '"' =>
        var ps := TextRead(t);
        l := Quotation(ps);
      case 't' =>
        l := TrueText;
        WordRead(t, "true", Bool(true));
      case 'f' =>
        l := FalseText;
        WordRead(t, "false", Bool(false));
      case 'n' =>
        l := NullText;
        WordRead(t, "null", Null);
      case _ => l := NumberRead(t);
    }
  }

  /** One item, the white space after it included. */
  lemma {:induction false} ItemRead(s: string) returns (item: Item, y: string)
    requires ParseValue(s).Done?
    ensures ValidItem(item) && y == SkipSpace(ParseValue(s).rest) && s == ShownItem(item, y)
    ensures Meaning(item.value) == ParseValue(s).value
    decreases |s|, 3
  {
    var w, l := ValueRead(s);
    var after := SkippedWhite(ParseValue(s).rest);
    y := SkipSpace(ParseValue(s).rest);
    item := Item(w, l, after);
  }

  lemma {:induction false} ItemsRead(s: string, out: seq<JsonValue>) returns (items: seq<Item>)
    requires ParseItems(s, out).Done?
    ensures items != [] && ValidItems(items) && s == ShownItems(items, ParseItems(s, out).rest)
    ensures ParseItems(s, out).value == Array(out + MeaningItems(items))
    decreases |s|, 4
  {
    var item, y := ItemRead(s);
    var v := ParseValue(s).value;
    assert ParseValue(s) == Done(v, ParseValue(s).rest);
    ItemThen(s, out, v, ParseValue(s).rest, y);
    if y[0] == ',' {
      var more := ItemsRead(y[1..], out + [v]);
      items := [item] + more;
      ItemsMore(item, more, y, ParseItems(y[1..], out + [v]).rest);
      AppendAfter(out, [v], MeaningItems(more));
    } else {
      items := [item];
      ItemsOne(item, y);
    }
  }

  lemma {:induction false} ItemsMore(item: Item, more: seq<Item>, y: string, r: string)
    requires ValidItem(item) && more != [] && ValidItems(more)
    requires y != "" && y[0] == ',' && y[1..] == ShownItems(more, r)
    ensures ValidItems([item] + more) && ShownItems([item] + more, r) == ShownItem(item, y)
    ensures MeaningItems([item] + more) == [Meaning(item.value)] + MeaningItems(more)
  {
    assert ([item] + more)[1..] == more && y == "," + y[1..];
  }

  lemma {:induction false} ItemsOne(item: Item, y: string)
    requires ValidItem(item) && y != "" && y[0] == ']'
    ensures ValidItems([item]) && ShownItems([item], y[1..]) == ShownItem(item, y)
    ensures MeaningItems([item]) == [Meaning(item.value)]
  {
    assert y == "]" + y[1..] && [item][1..] == [] && MeaningItems([item][1..]) == [];
  }

  /** White space before the first item belongs to it. */
  lemma {:induction false} IndentItems(w: string, items: seq<Item>, t: string) returns (items': seq<Item>)
    requires White(w) && items != [] && ValidItems(items)
    ensures items' != [] && ValidItems(items') && ShownItems(items', t) == w + ShownItems(items, t)
    ensures MeaningItems(items') == MeaningItems(items)
  {
    var item := items[0];
    var first := item.(before := w + item.before);
    assert ValidItem(item);
    WhiteConcat(w, item.before);
    items' := [first] + items[1..];
    var y := if |items| == 1 then "]" + t else "," + ShownItems(items[1..], t);
    assert items'[1..] == items[1..];
    assert ShownItems(items', t) == ShownItem(first, y) && ShownItems(items, t) == ShownItem(item, y);
    AppendAfter(w, item.before, Shown(item.value, item.after + y));
  }

  /** An opening bracket or brace, white space, and the rest. */
  lemma {:induction false} Opened(s: string, ch: char) returns (w: string, t: string)
    requires s != "" && s[0] == ch
    ensures White(w) && t == SkipSpace(s[1..]) && s == [ch] + (w + t) && |t| < |s|
  {
    w := SkippedWhite(s[1..]);
    t := SkipSpace(s[1..]);
  }

  /** After an opening bracket and white space comes a closing one or the items. */
  lemma {:induction false} ArrayThen(s: string, t: string)
    requires s != "" && s[0] == '[' && ParseArray(s).Done? && t == SkipSpace(s[1..])
    ensures t != "" && ParseArray(s) == if t[0] == ']' then Done(Array([]), t[1..]) else ParseItems(t, [])
  {}

  lemma {:induction false} ArrayRead(s: string) returns (l: Layout)
    requires s != "" && s[0] == '[' && ParseArray(s).Done?
    ensures Valid(l) && s == Shown(l, ParseArray(s).rest) && Meaning(l) == ParseArray(s).value
    decreases |s|, 1
  {
    var w, t := Opened(s, '[');
    ArrayThen(s, t);
    if t[0] == ']' {
      l := Brackets(w, []);
      assert t == "]" + t[1..];
    } else {
      var items := ItemsRead(t, []);
      assert [] + MeaningItems(items) == MeaningItems(items);
      l := Enclosed(w, items, ParseArray(s).rest);
    }
  }

  /** White space and items in brackets are a layout. */
  lemma {:induction false} Enclosed(w: string, items: seq<Item>, r: string) returns (l: Layout)
    requires White(w) && items != [] && ValidItems(items)
    ensures Valid(l) && Shown(l, r) == "[" + (w + ShownItems(items, r)) && Meaning(l) == Array(MeaningItems(items))
  {
    var items' := IndentItems(w, items, r);
    l := Brackets("", items');
  }

  /** The parts of a member: what is left from its key on, after its key, and from its colon on. */
  lemma {:induction false} MemberParts(s: string) returns (t: string, u: string, x: string)
    requires J.ParseMember(s).Done?
    ensures t == SkipSpace(s) && ParseText(t).Done? && u == ParseText(t).rest && x == SkipSpace(u)
    ensures x != "" && x[0] == ':' && ParseValue(x[1..]).Done?
    ensures J.ParseMember(s) == Done(Member(ParseText(t).value, ParseValue(x[1..]).value), ParseValue(x[1..]).rest)
    ensures |t| <= |s| && |u| < |t| && |x| <= |u|
  {
    t := SkipSpace(s);
    u := ParseText(t).rest;
    x := SkipSpace(u);
  }

  /** One member, the white space after it included. */
  lemma {:induction false} EntryRead(s: string) returns (e: Entry, y: string)
    requires J.ParseMember(s).Done?
    ensures ValidEntry(e) && y == SkipSpace(J.ParseMember(s).rest) && s == ShownEntry(e, y)
    ensures J.ParseMember(s).value == Member(MeaningPieces(e.key), Meaning(e.item.value))
    decreases |s|, 3
  {
    var t, u, x := MemberParts(s);
    var before := SkippedWhite(s);
    var key := TextRead(t);
    var after := SkippedWhite(u);
    var item;
    item, y := ItemRead(x[1..]);
    e := Entry(before, key, after, item);
    assert x == ":" + ShownItem(item, y);
  }

  lemma {:induction false} EntriesRead(s: string, out: seq<Member>) returns (entries: seq<Entry>)
    requires ParseMembers(s, out).Done?
    ensures entries != [] && ValidEntries(entries) && s == ShownEntries(entries, ParseMembers(s, out).rest)
    ensures ParseMembers(s, out).value == Object(out + MeaningEntries(entries))
    decreases |s|, 4
  {
    var e, y := EntryRead(s);
    var m := J.ParseMember(s).value;
    assert J.ParseMember(s) == Done(m, J.ParseMember(s).rest);
    MemberThen(s, out, m, J.ParseMember(s).rest, y);
    if y[0] == ',' {
      var more := EntriesRead(y[1..], out + [m]);
      entries := [e] + more;
      EntriesMore(e, more, y, ParseMembers(y[1..], out + [m]).rest);
      AppendAfter(out, [m], MeaningEntries(more));
    } else {
      entries := [e];
      EntriesOne(e, y);
    }
  }

  lemma {:induction false} EntriesMore(e: Entry, more: seq<Entry>, y: string, r: string)
    requires ValidEntry(e) && more != [] && ValidEntries(more)
    requires y != "" && y[0] == ',' && y[1..] == ShownEntries(more, r)
    ensures ValidEntries([e] + more) && ShownEntries([e] + more, r) == ShownEntry(e, y)
    ensures MeaningEntries([e] + more) == [Member(MeaningPieces(e.key), Meaning(e.item.value))] + MeaningEntries(more)
  {
    assert ([e] + more)[1..] == more && y == "," + y[1..];
  }

  lemma {:induction false} EntriesOne(e: Entry, y: string)
    requires ValidEntry(e) && y != "" && y[0] == '}'
    ensures ValidEntries([e]) && ShownEntries([e], y[1..]) == ShownEntry(e, y)
    ensures MeaningEntries([e]) == [Member(MeaningPieces(e.key), Meaning(e.item.value))]
  {
    assert y == "}" + y[1..] && [e][1..] == [] && MeaningEntries([e][1..]) == [];
  }

  lemma {:induction false} IndentEntries(w: string, entries: seq<Entry>, t: string) returns (entries': seq<Entry>)
    requires White(w) && entries != [] && ValidEntries(entries)
    ensures entries' != [] && ValidEntries(entries') && ShownEntries(entries', t) == w + ShownEntries(entries, t)
    ensures MeaningEntries(entries') == MeaningEntries(entries)
  {
    var e := entries[0];
    var first := e.(before := w + e.before);
    assert ValidEntry(e);
    WhiteConcat(w, e.before);
    entries' := [first] + entries[1..];
    var y := if |entries| == 1 then "}" + t else "," + ShownEntries(entries[1..], t);
    assert entries'[1..] == entries[1..];
    assert ShownEntries(entries', t) == ShownEntry(first, y) && ShownEntries(entries, t) == ShownEntry(e, y);
    AppendAfter(w, e.before, Quoting(e.key, e.after + (":" + ShownItem(e.item, y))));
  }

  /** After an opening brace and white space comes a closing one or the members. */
  lemma {:induction false} ObjectThen(s: string, t: string)
    requires s != "" && s[0] == '{' && ParseObject(s).Done? && t == SkipSpace(s[1..])
    ensures t != "" && ParseObject(s) == if t[0] == '}' then Done(Object([]), t[1..]) else ParseMembers(t, [])
  {}

  lemma {:induction false} ObjectRead(s: string) returns (l: Layout)
    requires s != "" && s[0] == '{' && ParseObject(s).Done?
    ensures Valid(l) && s == Shown(l, ParseObject(s).rest) && Meaning(l) == ParseObject(s).value
    decreases |s|, 1
  {
    var w, t := Opened(s, '{');
    ObjectThen(s, t);
    if t[0] == '}' {
      l := Braces(w, []);
      assert t == "}" + t[1..];
    } else {
      var entries := EntriesRead(t, []);
      assert [] + MeaningEntries(entries) == MeaningEntries(entries);
      l := Embraced(w, entries, ParseObject(s).rest);
    }
  }

  /** White space and members in braces are a layout. */
  lemma {:induction false} Embraced(w: string, entries: seq<Entry>, r: string) returns (l: Layout)
    requires White(w) && entries != [] && ValidEntries(entries)
    ensures Valid(l) && Shown(l, r) == "{" + (w + ShownEntries(entries, r))
    ensures Meaning(l) == Object(MeaningEntries(entries))
  {
    var entries' := IndentEntries(w, entries, r);
    l := Braces("", entries');
  }

  /** `s` is a text of `v`: white space, a layout of `v` and white space. */
  ghost predicate TextOf(s: string, v: JsonValue) {
    exists before, l, after {:trigger before + Shown(l, after)} ::
      White(before) && Valid(l) && White(after) && s == before + Shown(l, after) && Meaning(l) == v
  }

  /** The parser gives exactly the documents of which its input is a text, and fails on everything else. */
  lemma {:induction false} ParsesExactly(s: string, v: JsonValue)
    ensures ParseDocument(s) == Ok(v) <==> TextOf(s, v)
  {
    if ParseDocument(s) == Ok(v) {
      var before, l := ValueRead(s);
      var after := SkippedWhite(ParseValue(s).rest);
      assert after + "" == after;
    }
    if TextOf(s, v) {
      var before, l, after :| White(before) && Valid(l) && White(after) && s == before + Shown(l, after)
                              && Meaning(l) == v;
      LayoutParses(before, l, after);
    }
  }

  /** What the writer writes is such a text. */
  lemma WrittenIsText(v: JsonValue)
    requires JsonRoundTrips.Plain(v)
    ensures TextOf(Written(v), v)
  {
    JsonRoundTrip(v);
    ParsesExactly(Written(v), v);
  }

  /** Numbers are written in decimal; from 10 to the 15th on, with six zeros for the fraction. */
  lemma WrittenNumber(n: int)
    ensures Written(Number(n)) ==
            (if n < 0 then "-" + Decimal(-n) else Decimal(n))
            + if -1_000_000_000_000_000 < n < 1_000_000_000_000_000 then "" else ".000000"
  {}
}
