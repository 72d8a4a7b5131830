/**
 Compact JSON text (sections 4 to 7 of RFC 8259) as the two languages print it, and a
 reader that inverts both printers.

 Python's `json.dumps(.., separators=(",", ":"))` escapes everything outside U+0020..U+007E;
 serde_json escapes only quotes, backslashes and control characters below U+0020.
 */
module JsonText {
  import opened Results
  import opened Json
  import opened KeySort

  datatype Style = Python | Rust

  // ----- printing -----

  predicate IsDigit(c: char) {
    '0' <= c <= '9'
  }

  function Digit(n: nat): char
    requires n < 10
  {
    ('0' as int + n) as char
  }

  function HexDigit(n: nat): char
    requires n < 16
  {
    if n < 10 then Digit(n) else ('a' as int + n - 10) as char
  }

  function Hex4(n: nat): string
    requires n < 0x10000
  {
    [HexDigit(n / 4096), HexDigit(n / 256 % 16), HexDigit(n / 16 % 16), HexDigit(n % 16)]
  }

  function UnicodeEscape(n: nat): string
    requires n < 0x10000
  {
    ['\\', 'u'] + Hex4(n)
  }

  /** Python writes a code point beyond U+FFFF as two escapes. */
  function SurrogatePair(n: nat): string
    requires 0x10000 <= n < 0x110000
  {
    UnicodeEscape(0xD800 + (n - 0x10000) / 1024) + UnicodeEscape(0xDC00 + (n - 0x10000) % 1024)
  }

  /** The letter of a two-character escape, which both languages prefer where there is one. */
  function ShortEscape(c: char): Option<char> {
    if c == '\"' || c == '\\' then Some(c)
    else if c == '\n' then Some('n')
    else if c == '\r' then Some('r')
    else if c == '\t' then Some('t')
    else if c as int == 0x08 then Some('b')
    else if c as int == 0x0C then Some('f')
    else None
  }

  predicate PrintsRaw(style: Style, c: char) {
    0x20 <= c as int && (style.Rust? || c as int <= 0x7E)
  }

  function EscapeChar(style: Style, c: char): string {
    var n := c as int;
    if ShortEscape(c).Some? then ['\\', ShortEscape(c).value]
    else if PrintsRaw(style, c) then [c]
    else if n < 0x10000 then UnicodeEscape(n)
    else SurrogatePair(n)
  }

  /** The escaped characters and the closing quote. */
  function EscapeRest(style: Style, s: string): string {
    if s == "" then ['\"'] else EscapeChar(style, s[0]) + EscapeRest(style, s[1..])
  }

  function Quote(style: Style, s: string): string {
    ['\"'] + EscapeRest(style, s)
  }

  function Natural(n: nat): (text: string)
    ensures |text| > 0 && IsDigit(text[0])
  {
    if n < 10 then [Digit(n)] else Natural(n / 10) + [Digit(n % 10)]
  }

  function Decimal(n: int): string {
    if n < 0 then "-" + Natural(-n) else Natural(n)
  }

  /** `Some(order)`: sort the keys of each object while printing it. `None`: print fields as stored. */
  function Arrange(sorting: Option<KeyOrder>, fields: seq<Field>): (r: seq<Field>)
    ensures FieldsSize(r) == FieldsSize(fields) && |r| == |fields|
  {
    match sorting
    case None => fields
    case Some(order) => SortFields(order, fields)
  }

  function Print(style: Style, sorting: Option<KeyOrder>, v: Value): string
    decreases Size(v)
  {
    match v
    case Null => "null"
    case Bool(b) => if b then "true" else "false"
    case Int(n) => Decimal(n)
    case Str(s) => Quote(style, s)
    case Arr(items) => if items == [] then "[]" else "[" + PrintItems(style, sorting, items)
    case Obj(fields) =>
      var arranged := Arrange(sorting, fields);
      if arranged == [] then "{}" else "{" + PrintFields(style, sorting, arranged)
  }

  function PrintItems(style: Style, sorting: Option<KeyOrder>, items: seq<Value>): string
    requires items != []
    decreases ItemsSize(items)
  {
    Print(style, sorting, items[0]) +
    if |items| == 1 then "]" else "," + PrintItems(style, sorting, items[1..])
  }

  function PrintFields(style: Style, sorting: Option<KeyOrder>, fields: seq<Field>): string
    requires fields != []
    decreases FieldsSize(fields)
  {
    Quote(style, fields[0].key) + ":" + Print(style, sorting, fields[0].value) +
    if |fields| == 1 then "}" else "," + PrintFields(style, sorting, fields[1..])
  }

  /** A number has no leading zero. */
  lemma {:induction false} NaturalHasNoLeadingZero(n: nat)
    ensures n == 0 ==> Natural(n) == "0"
    ensures n > 0 ==> Natural(n)[0] != '0'
    ensures forall i | 0 <= i < |Natural(n)| :: IsDigit(Natural(n)[i])
  {
    if n >= 10 {
      NaturalHasNoLeadingZero(n / 10);
    }
  }

  /** And only a negative number has a sign. */
  lemma DecimalSign(n: int)
    ensures Decimal(n)[0] == '-' <==> n < 0
  {
  }

  // ----- reading -----

  function HexValue(c: char): Option<nat> {
    if '0' <= c <= '9' then Some(c as int - '0' as int)
    else if 'a' <= c <= 'f' then Some(c as int - 'a' as int + 10)
    else None
  }

  function ReadHex4(s: string): (r: Option<nat>)
    ensures r.Some? ==> |s| >= 4 && r.value < 0x10000
  {
    if |s| < 4 then None
    else
      var a :- HexValue(s[0]);
      var b :- HexValue(s[1]);
      var c :- HexValue(s[2]);
      var d :- HexValue(s[3]);
      Some(4096 * a + 256 * b + 16 * c + d)
  }

  /** After a backslash and `u`: one escape, or a surrogate pair of escapes. */
  function ReadUnicodeEscape(s: string): (r: Option<(char, string)>)
    ensures r.Some? ==> |r.value.1| < |s|
  {
    var n :- ReadHex4(s);
    if 0xD800 <= n < 0xDC00 then
      if |s| >= 6 && s[4] == '\\' && s[5] == 'u' then
        var m :- ReadHex4(s[6..]);
        if 0xDC00 <= m < 0xE000 then Some(((0x10000 + 1024 * (n - 0xD800) + (m - 0xDC00)) as char, s[10..]))
        else None
      else None
    else if 0xDC00 <= n < 0xE000 then None
    else Some((n as char, s[4..]))
  }

  function ShortMeaning(x: char): Option<char> {
    if x == '\"' || x == '\\' then Some(x)
    else if x == 'n' then Some('\n')
    else if x == 'r' then Some('\r')
    else if x == 't' then Some('\t')
    else if x == 'b' then Some(8 as char)
    else if x == 'f' then Some(12 as char)
    else None
  }

  function ReadChar(s: string): (r: Option<(char, string)>)
    ensures r.Some? ==> |r.value.1| < |s|
  {
    if s == "" then None
    else if s[0] != '\\' then Some((s[0], s[1..]))
    else if |s| == 1 then None
    else if s[1] == 'u' then ReadUnicodeEscape(s[2..])
    else
      var c :- ShortMeaning(s[1]);
      Some((c, s[2..]))
  }

  /** The rest of a string, after its opening quote. */
  function ReadString(s: string): (r: Option<(string, string)>)
    ensures r.Some? ==> |r.value.1| < |s|
    decreases |s|
  {
    if s == "" then None
    else if s[0] == '\"' then Some(("", s[1..]))
    else
      var (c, rest) :- ReadChar(s);
      var (tail, rest') :- ReadString(rest);
      Some(([c] + tail, rest'))
  }

  predicate StartsWithDigit(s: string) {
    s != "" && IsDigit(s[0])
  }

  /** All leading digits, with `acc` as the value read so far. */
  function ReadDigits(s: string, acc: nat): (r: (nat, string))
    ensures |r.1| <= |s| && (StartsWithDigit(s) ==> |r.1| < |s|)
    decreases |s|
  {
    if StartsWithDigit(s) then ReadDigits(s[1..], 10 * acc + (s[0] as int - '0' as int)) else (acc, s)
  }

  function ReadInt(s: string): (r: Option<(Value, string)>)
    ensures r.Some? ==> |r.value.1| < |s|
  {
    if StartsWithDigit(s) then
      var (n, rest) := ReadDigits(s, 0);
      Some((Int(n), rest))
    else if s != "" && s[0] == '-' && StartsWithDigit(s[1..]) then
      var (n, rest) := ReadDigits(s[1..], 0);
      Some((Int(0 - n), rest))
    else None
  }

  function ReadLiteral(s: string, literal: string, v: Value): (r: Option<(Value, string)>)
    requires literal != ""
    ensures r.Some? ==> |r.value.1| < |s|
  {
    if |s| >= |literal| && s[..|literal|] == literal then Some((v, s[|literal|..])) else None
  }

  /** One value of compact JSON text, and the text after it. */
  function ReadValue(s: string): (r: Option<(Value, string)>)
    ensures r.Some? ==> |r.value.1| < |s|
    decreases |s|, 0
  {
    if s == "" then None
    else match s[0]
      case 'n' => ReadLiteral(s, "null", Null)
      case 't' => ReadLiteral(s, "true", Bool(true))
      case 'f' => ReadLiteral(s, "false", Bool(false))
      case '\"' =>
        var (t, rest) :- ReadString(s[1..]);
        Some((Str(t), rest))
      case '[' =>
        if |s| > 1 && s[1] == ']' then Some((Arr([]), s[2..]))
        else
          var (items, rest) :- ReadItems(s[1..]);
          Some((Arr(items), rest))
      case '{' =>
        if |s| > 1 && s[1] == '}' then Some((Obj([]), s[2..]))
        else
          var (fields, rest) :- ReadFields(s[1..]);
          Some((Obj(fields), rest))
      case _ => ReadInt(s)
  }

  function ReadItems(s: string): (r: Option<(seq<Value>, string)>)
    ensures r.Some? ==> |r.value.1| < |s|
    decreases |s|, 1
  {
    var (v, rest) :- ReadValue(s);
    if rest == "" then None
    else if rest[0] == ']' then Some(([v], rest[1..]))
    else if rest[0] == ',' then
      var (items, rest') :- ReadItems(rest[1..]);
      Some(([v] + items, rest'))
    else None
  }

  function ReadFields(s: string): (r: Option<(seq<Field>, string)>)
    ensures r.Some? ==> |r.value.1| < |s|
    decreases |s|, 1
  {
    if s == "" || s[0] != '\"' then None
    else
      var (key, afterKey) :- ReadString(s[1..]);
      if afterKey == "" || afterKey[0] != ':' then None
      else
        var (v, rest) :- ReadValue(afterKey[1..]);
        if rest == "" then None
        else if rest[0] == '}' then Some(([Field(key, v)], rest[1..]))
        else if rest[0] == ',' then
          var (fields, rest') :- ReadFields(rest[1..]);
          Some(([Field(key, v)] + fields, rest'))
        else None
  }

  // ----- reading inverts printing -----

  lemma Cons(c: char, t: string)
    ensures ([c] + t)[0] == c && ([c] + t)[1..] == t
  {
  }

  lemma Cons2(c: char, d: char, t: string)
    ensures ([c, d] + t)[0] == c && ([c, d] + t)[1] == d && ([c, d] + t)[2..] == t
  {
  }

  lemma Assoc(a: string, b: string, c: string)
    ensures a + b + c == a + (b + c)
  {
  }

  lemma HexDigitInverse(n: nat)
    requires n < 16
    ensures HexValue(HexDigit(n)) == Some(n)
  {
  }

  lemma FourHexDigits(n: nat)
    requires n < 0x10000
    ensures n == 4096 * (n / 4096) + 256 * (n / 256 % 16) + 16 * (n / 16 % 16) + n % 16
  {
    assert n / 256 == n / 16 / 16 && n / 4096 == n / 16 / 16 / 16;
  }

  lemma FourChars(a: char, b: char, c: char, d: char, t: string)
    ensures var s := [a, b, c, d] + t; s[0] == a && s[1] == b && s[2] == c && s[3] == d && s[4..] == t
  {
  }

  lemma ReadHexPrefix(n: nat, r: string)
    requires n < 0x10000
    ensures ReadHex4(Hex4(n) + r) == Some(n) && (Hex4(n) + r)[4..] == r
  {
    FourHexDigits(n);
    HexDigitInverse(n / 4096);
    HexDigitInverse(n / 256 % 16);
    HexDigitInverse(n / 16 % 16);
    HexDigitInverse(n % 16);
    FourChars(HexDigit(n / 4096), HexDigit(n / 256 % 16), HexDigit(n / 16 % 16), HexDigit(n % 16), r);
  }

  lemma ReadOneUnit(n: nat, r: string)
    requires n < 0xD800 || 0xE000 <= n < 0x10000
    ensures ReadUnicodeEscape(Hex4(n) + r) == Some((n as char, r))
  {
    ReadHexPrefix(n, r);
  }

  lemma DropMore(s: string, i: nat, j: nat)
    requires i + j <= |s|
    ensures s[i..][j..] == s[i + j..] && (j > 0 ==> s[i..][0] == s[i]) && (j > 1 ==> s[i..][1] == s[i + 1])
  {
  }

  lemma ReadSurrogateText(s: string, hi: nat, lo: nat, r: string)
    requires 0xD800 <= hi < 0xDC00 <= lo < 0xE000
    requires ReadHex4(s) == Some(hi) && |s| >= 10 && s[4..] == ['\\', 'u'] + (Hex4(lo) + r)
    ensures ReadUnicodeEscape(s) == Some(((0x10000 + 1024 * (hi - 0xD800) + (lo - 0xDC00)) as char, r))
  {
    DropMore(s, 4, 2);
    DropMore(s, 6, 4);
    Cons2('\\', 'u', Hex4(lo) + r);
    ReadHexPrefix(lo, r);
  }

  lemma UnitInverse(n: nat, r: string)
    requires n < 0xD800 || 0xE000 <= n < 0x10000
    ensures ReadChar(UnicodeEscape(n) + r) == Some((n as char, r))
  {
    Assoc(['\\', 'u'], Hex4(n), r);
    Cons2('\\', 'u', Hex4(n) + r);
    ReadOneUnit(n, r);
  }

  lemma ShortInverse(c: char, x: char, r: string)
    requires ShortEscape(c) == Some(x)
    ensures ReadChar(['\\', x] + r) == Some((c, r))
  {
    Cons2('\\', x, r);
  }

  /** No escape is mistaken for the closing quote. */
  lemma EscapeStart(style: Style, c: char)
    ensures EscapeChar(style, c) != "" && EscapeChar(style, c)[0] != '\"'
  {
  }

  /** The escape of a code point beyond U+FFFF: the two halves, whose meaning is that code point. */
  lemma PairHalves(style: Style, c: char) returns (hi: nat, lo: nat)
    requires !PrintsRaw(style, c) && 0x10000 <= c as int
    ensures 0xD800 <= hi < 0xDC00 <= lo < 0xE000 && c as int == 0x10000 + 1024 * (hi - 0xD800) + (lo - 0xDC00)
    ensures EscapeChar(style, c) == UnicodeEscape(hi) + UnicodeEscape(lo)
  {
    var n := c as int - 0x10000;
    hi, lo := 0xD800 + n / 1024, 0xDC00 + n % 1024;
    assert EscapeChar(style, c) == SurrogatePair(c as int);
  }

  lemma PairText(hi: nat, lo: nat, r: string)
    requires hi < 0x10000 && lo < 0x10000
    ensures UnicodeEscape(hi) + UnicodeEscape(lo) + r == ['\\', 'u'] + (Hex4(hi) + (['\\', 'u'] + (Hex4(lo) + r)))
  {
    var tail := ['\\', 'u'] + (Hex4(lo) + r);
    Assoc(UnicodeEscape(hi), UnicodeEscape(lo), r);
    Assoc(['\\', 'u'], Hex4(lo), r);
    Assoc(['\\', 'u'], Hex4(hi), tail);
  }

  lemma PairInverse(e: string, hi: nat, lo: nat, r: string)
    requires 0xD800 <= hi < 0xDC00 <= lo < 0xE000 && e == UnicodeEscape(hi) + UnicodeEscape(lo)
    ensures ReadChar(e + r) == Some(((0x10000 + 1024 * (hi - 0xD800) + (lo - 0xDC00)) as char, r))
  {
    var tail := ['\\', 'u'] + (Hex4(lo) + r);
    PairText(hi, lo, r);
    Cons2('\\', 'u', Hex4(hi) + tail);
    ReadHexPrefix(hi, tail);
    ReadSurrogateText(Hex4(hi) + tail, hi, lo, r);
  }

  lemma PairEscapeInverse(style: Style, c: char, r: string)
    requires !PrintsRaw(style, c) && 0x10000 <= c as int
    ensures ReadChar(EscapeChar(style, c) + r) == Some((c, r))
  {
    var hi, lo := PairHalves(style, c);
    PairInverse(EscapeChar(style, c), hi, lo, r);
  }

  lemma UnitEscapeInverse(style: Style, c: char, r: string)
    requires ShortEscape(c).None? && !PrintsRaw(style, c) && c as int < 0x10000
    ensures ReadChar(EscapeChar(style, c) + r) == Some((c, r))
  {
    UnitInverse(c as int, r);
  }

  lemma PlainEscapeInverse(style: Style, c: char, r: string)
    requires ShortEscape(c).Some? || PrintsRaw(style, c)
    ensures ReadChar(EscapeChar(style, c) + r) == Some((c, r))
  {
    if ShortEscape(c).Some? {
      ShortInverse(c, ShortEscape(c).value, r);
    } else {
      Cons(c, r);
    }
  }

  /** Each character is recovered from its escape in either style. */
  lemma EscapeInverse(style: Style, c: char, r: string)
    ensures ReadChar(EscapeChar(style, c) + r) == Some((c, r))
  {
    if ShortEscape(c).Some? || PrintsRaw(style, c) {
      PlainEscapeInverse(style, c, r);
    } else if c as int < 0x10000 {
      UnitEscapeInverse(style, c, r);
    } else {
      PairEscapeInverse(style, c, r);
    }
  }

  /** What may stand for a character inside a printed string: an escape, or itself where the language leaves it alone. */
  predicate Admissible(style: Style, e: string) {
    e != "" && (e[0] == '\\' || (e[0] != '\"' && 0x20 <= e[0] as int && (style.Rust? || e[0] as int <= 0x7E)))
  }

  /** Both languages choose the shortest text that stands for a character. */
  lemma EscapeIsShortest(style: Style, c: char, e: string)
    requires Admissible(style, e) && ReadChar(e) == Some((c, ""))
    ensures Admissible(style, EscapeChar(style, c)) && |EscapeChar(style, c)| <= |e|
  {
  }

  lemma ReadStringStep(s: string, c: char, rest: string, t: string, r: string)
    requires s != "" && s[0] != '\"'
    requires ReadChar(s) == Some((c, rest)) && ReadString(rest) == Some((t, r))
    ensures ReadString(s) == Some(([c] + t, r))
  {
  }

  lemma {:induction false} StringInverse(style: Style, s: string, r: string)
    ensures ReadString(EscapeRest(style, s) + r) == Some((s, r))
  {
    if s == "" {
      Cons('\"', r);
    } else {
      var tail := EscapeRest(style, s[1..]) + r;
      var e := EscapeChar(style, s[0]);
      Assoc(e, EscapeRest(style, s[1..]), r);
      EscapeInverse(style, s[0], tail);
      EscapeStart(style, s[0]);
      StringInverse(style, s[1..], r);
      ReadStringStep(e + tail, s[0], tail, s[1..], r);
      assert [s[0]] + s[1..] == s;
    }
  }

  /** A quoted string, read after its opening quote. */
  lemma ReadQuoted(style: Style, t: string, r: string)
    ensures var s := Quote(style, t) + r; s[0] == '\"' && ReadString(s[1..]) == Some((t, r))
  {
    Assoc(['\"'], EscapeRest(style, t), r);
    Cons('\"', EscapeRest(style, t) + r);
    StringInverse(style, t, r);
  }

  lemma {:induction false} NaturalInverse(n: nat, r: string)
    ensures ReadDigits(Natural(n) + r, 0) == ReadDigits(r, n)
  {
    if n < 10 {
      Cons(Digit(n), r);
    } else {
      var d := Digit(n % 10);
      Assoc(Natural(n / 10), [d], r);
      NaturalInverse(n / 10, [d] + r);
      Cons(d, r);
    }
  }

  lemma IntInverse(n: int, r: string)
    requires !StartsWithDigit(r)
    ensures ReadInt(Decimal(n) + r) == Some((Int(n), r))
    ensures (Decimal(n) + r)[0] == '-' || IsDigit((Decimal(n) + r)[0])
  {
    var m: nat := if n < 0 then -n else n;
    NaturalInverse(m, r);
    assert ReadDigits(r, m) == (m, r);
    if n < 0 {
      Assoc("-", Natural(m), r);
      Cons('-', Natural(m) + r);
    }
  }

  lemma ReadLiteralText(literal: string, v: Value, r: string)
    requires literal != ""
    ensures ReadLiteral(literal + r, literal, v) == Some((v, r)) && (literal + r)[0] == literal[0]
  {
  }

  lemma ReadArrayText(text: string, items: seq<Value>, r: string)
    requires text != "" && text[0] != ']' && ReadItems(text + r) == Some((items, r))
    ensures ReadValue("[" + text + r) == Some((Arr(items), r))
  {
    Assoc("[", text, r);
    Cons('[', text + r);
  }

  lemma ReadObjectText(text: string, fields: seq<Field>, r: string)
    requires text != "" && text[0] != '}' && ReadFields(text + r) == Some((fields, r))
    ensures ReadValue("{" + text + r) == Some((Obj(fields), r))
  {
    Assoc("{", text, r);
    Cons('{', text + r);
  }

  lemma ScalarInverse(style: Style, v: Value, r: string)
    requires !v.Arr? && !v.Obj? && !StartsWithDigit(r)
    ensures ReadValue(Print(style, None, v) + r) == Some((v, r))
  {
    match v
    case Null => ReadLiteralText("null", Null, r);
    case Bool(b) => ReadLiteralText(if b then "true" else "false", v, r);
    case Int(n) => IntInverse(n, r);
    case Str(t) => ReadQuoted(style, t, r);
  }

  lemma EmptyInverse(r: string)
    ensures ReadValue("[]" + r) == Some((Arr([]), r)) && ReadValue("{}" + r) == Some((Obj([]), r))
  {
    Cons2('[', ']', r);
    Cons2('{', '}', r);
  }

  /** The reader recovers any printed value, whatever non-digit text follows it. */
  lemma {:induction false} ReadInvertsPrint(style: Style, v: Value, r: string)
    requires !StartsWithDigit(r)
    ensures ReadValue(Print(style, None, v) + r) == Some((v, r))
    decreases Size(v), 1
  {
    if v == Arr([]) || v == Obj([]) {
      EmptyInverse(r);
    } else if v.Arr? {
      ItemsInverse(style, v.items, r);
      ReadArrayText(PrintItems(style, None, v.items), v.items, r);
    } else if v.Obj? {
      FieldsInverse(style, v.fields, r);
      ReadObjectText(PrintFields(style, None, v.fields), v.fields, r);
    } else {
      ScalarInverse(style, v, r);
    }
  }

  lemma ReadLastItem(text: string, v: Value, r: string)
    requires ReadValue(text + ("]" + r)) == Some((v, "]" + r))
    ensures ReadItems(text + "]" + r) == Some(([v], r))
  {
    Assoc(text, "]", r);
    Cons(']', r);
  }

  lemma ReadItemThenMore(text: string, v: Value, more: string, items: seq<Value>, r: string)
    requires ReadValue(text + ("," + (more + r))) == Some((v, "," + (more + r)))
    requires ReadItems(more + r) == Some((items, r))
    ensures ReadItems(text + ("," + more) + r) == Some(([v] + items, r))
  {
    Assoc(text, "," + more, r);
    Assoc(",", more, r);
    Cons(',', more + r);
  }

  lemma {:induction false} FirstChar(style: Style, v: Value)
    ensures var s := Print(style, None, v); s != "" && s[0] !in {']', '}'}
  {
  }

  lemma {:induction false} ItemsInverse(style: Style, items: seq<Value>, r: string)
    requires items != []
    ensures ReadItems(PrintItems(style, None, items) + r) == Some((items, r))
    ensures PrintItems(style, None, items)[0] != ']'
    decreases ItemsSize(items), 0
  {
    var text := Print(style, None, items[0]);
    FirstChar(style, items[0]);
    if |items| == 1 {
      ReadInvertsPrint(style, items[0], "]" + r);
      ReadLastItem(text, items[0], r);
      assert [items[0]] == items;
    } else {
      var more := PrintItems(style, None, items[1..]);
      ReadInvertsPrint(style, items[0], "," + (more + r));
      ItemsInverse(style, items[1..], r);
      ReadItemThenMore(text, items[0], more, items[1..], r);
      assert [items[0]] + items[1..] == items;
    }
  }

  lemma ReadKey(style: Style, key: string, text: string, v: Value, rest: string)
    requires ReadValue(text + rest) == Some((v, rest)) && rest != ""
    ensures var s := Quote(style, key) + ":" + text + rest;
            && s[0] == '\"' && ReadString(s[1..]) == Some((key, ":" + (text + rest)))
            && (":" + (text + rest))[1..] == text + rest
  {
    Assoc(Quote(style, key) + ":", text, rest);
    Assoc(Quote(style, key), ":", text + rest);
    ReadQuoted(style, key, ":" + (text + rest));
    Cons(':', text + rest);
  }

  lemma ReadLastField(style: Style, key: string, text: string, v: Value, r: string)
    requires ReadValue(text + ("}" + r)) == Some((v, "}" + r))
    ensures ReadFields(Quote(style, key) + ":" + text + "}" + r) == Some(([Field(key, v)], r))
  {
    ReadKey(style, key, text, v, "}" + r);
    Assoc(Quote(style, key) + ":" + text, "}", r);
    Cons('}', r);
  }

  lemma ReadFieldThenMore(style: Style, key: string, text: string, v: Value, more: string, fields: seq<Field>, r: string)
    requires ReadValue(text + ("," + (more + r))) == Some((v, "," + (more + r)))
    requires ReadFields(more + r) == Some((fields, r))
    ensures ReadFields(Quote(style, key) + ":" + text + ("," + more) + r) == Some(([Field(key, v)] + fields, r))
  {
    ReadKey(style, key, text, v, "," + (more + r));
    Assoc(Quote(style, key) + ":" + text, "," + more, r);
    Assoc(",", more, r);
    Cons(',', more + r);
  }

  lemma {:induction false} FieldsInverse(style: Style, fields: seq<Field>, r: string)
    requires fields != []
    ensures ReadFields(PrintFields(style, None, fields) + r) == Some((fields, r))
    ensures PrintFields(style, None, fields)[0] == '\"'
    decreases FieldsSize(fields), 0
  {
    var f := fields[0];
    var text := Print(style, None, f.value);
    assert Field(f.key, f.value) == f;
    if |fields| == 1 {
      ReadInvertsPrint(style, f.value, "}" + r);
      ReadLastField(style, f.key, text, f.value, r);
      assert [f] == fields;
    } else {
      var more := PrintFields(style, None, fields[1..]);
      ReadInvertsPrint(style, f.value, "," + (more + r));
      FieldsInverse(style, fields[1..], r);
      ReadFieldThenMore(style, f.key, text, f.value, more, fields[1..], r);
      assert [f] + fields[1..] == fields;
    }
  }

  /** Compact text in either style determines the document, key order included. */
  lemma PrintInjective(style: Style, a: Value, b: Value)
    requires Print(style, None, a) == Print(style, None, b)
    ensures a == b
  {
    ReadInvertsPrint(style, a, "");
    ReadInvertsPrint(style, b, "");
  }
}
