/**
 Canonical signed payloads. Rust sorts keys recursively and then prints in stored order;
 Python sorts each object while printing it. Both drop the signature first, and both
 payloads decide the unsigned document.
 */
module Canonical {
  import opened Results
  import opened Text
  import opened Utf8
  import opened Json
  import opened KeySort
  import opened JsonText

  // ----- Rust's first pass -----

  function SortKeys(order: KeyOrder, v: Value): Value
    decreases v
  {
    match v
    case Arr(items) => Arr(SortItems(order, items))
    case Obj(fields) => Obj(SortFields(order, SortValues(order, fields)))
    case _ => v
  }

  function SortItems(order: KeyOrder, items: seq<Value>): seq<Value>
    decreases items
  {
    if items == [] then [] else [SortKeys(order, items[0])] + SortItems(order, items[1..])
  }

  /** Sorts inside each field's value, leaving the fields where they are. */
  function SortValues(order: KeyOrder, fields: seq<Field>): seq<Field>
    decreases fields
  {
    if fields == [] then []
    else [Field(fields[0].key, SortKeys(order, fields[0].value))] + SortValues(order, fields[1..])
  }

  /** The bytes Python signs: compact text with the keys of every object sorted while printing. */
  function SortedJson(fields: seq<Field>): Bytes {
    Encode(Print(Python, Some(ByCodePoint), Obj(fields)))
  }

  /** `canonical_payload` and `canonical_trust_bundle_payload`, which differ in what they drop. */
  function PythonPayload(fields: seq<Field>, dropped: set<string>): Bytes {
    SortedJson(Without(fields, dropped))
  }

  const SIGNATURE := {"signature_hex"}
  const BUNDLE_SIGNATURES := {"signature_hex", "signatures"}

  function RustPayload(manifest: Value): Result<Bytes> {
    match manifest
    case Obj(fields) => Ok(Encode(Print(Rust, None, SortKeys(ByUtf8Byte, Obj(Without(fields, SIGNATURE))))))
    case _ => Err(NotAnObject)
  }

  // ----- two passes make one -----

  lemma {:induction false} SortValuesKeys(order: KeyOrder, fields: seq<Field>)
    ensures Keys(SortValues(order, fields)) == Keys(fields)
    ensures DistinctKeys(fields) ==> DistinctKeys(SortValues(order, fields))
  {
    if fields != [] {
      SortValuesKeys(order, fields[1..]);
      KeysStep(fields);
      KeysStep(SortValues(order, fields));
      assert SortValues(order, fields)[1..] == SortValues(order, fields[1..]);
    }
  }

  /** Sorting fields and sorting inside their values can be done in either order. */
  lemma {:induction false} SortsCommute(order: KeyOrder, fields: seq<Field>)
    ensures SortFields(order, SortValues(order, fields)) == SortValues(order, SortFields(order, fields))
  {
    if fields != [] {
      SortsCommute(order, fields[1..]);
      assert SortValues(order, fields)[1..] == SortValues(order, fields[1..]);
      InsertCommutes(order, fields[0], SortFields(order, fields[1..]));
    }
  }

  lemma {:induction false} InsertCommutes(order: KeyOrder, f: Field, fields: seq<Field>)
    ensures Insert(order, Field(f.key, SortKeys(order, f.value)), SortValues(order, fields))
         == SortValues(order, Insert(order, f, fields))
  {
    var sorted := SortValues(order, fields);
    if fields == [] || !Before(order, fields[0].key, f.key) {
      assert ([f] + fields)[1..] == fields;
    } else {
      InsertCommutes(order, f, fields[1..]);
      assert sorted[1..] == SortValues(order, fields[1..]);
      var r := Insert(order, f, fields);
      assert r[1..] == Insert(order, f, fields[1..]);
    }
  }

  /** Sort recursively then print as stored, or sort while printing: the same text. */
  lemma {:induction false} TwoPassEqualsFused(style: Style, order: KeyOrder, v: Value)
    ensures Print(style, None, SortKeys(order, v)) == Print(style, Some(order), v)
    decreases Size(v)
  {
    match v
    case Arr(items) =>
      if items != [] {
        ItemsTwoPassEqualsFused(style, order, items);
      }
    case Obj(fields) =>
      SortsCommute(order, fields);
      if fields != [] {
        FieldsTwoPassEqualsFused(style, order, SortFields(order, fields));
      }
    case _ =>
  }

  lemma {:induction false} ItemsTwoPassEqualsFused(style: Style, order: KeyOrder, items: seq<Value>)
    requires items != []
    ensures SortItems(order, items) != []
    ensures PrintItems(style, None, SortItems(order, items)) == PrintItems(style, Some(order), items)
    decreases ItemsSize(items)
  {
    TwoPassEqualsFused(style, order, items[0]);
    assert SortItems(order, items)[1..] == SortItems(order, items[1..]);
    if |items| > 1 {
      ItemsTwoPassEqualsFused(style, order, items[1..]);
    }
  }

  lemma {:induction false} FieldsTwoPassEqualsFused(style: Style, order: KeyOrder, fields: seq<Field>)
    requires fields != []
    ensures SortValues(order, fields) != []
    ensures PrintFields(style, None, SortValues(order, fields)) == PrintFields(style, Some(order), fields)
    decreases FieldsSize(fields)
  {
    TwoPassEqualsFused(style, order, fields[0].value);
    assert SortValues(order, fields)[1..] == SortValues(order, fields[1..]);
    if |fields| > 1 {
      FieldsTwoPassEqualsFused(style, order, fields[1..]);
    }
  }

  /** Rust's byte order and Python's code-point order sort every document alike, at every depth. */
  lemma {:induction false} OrdersAgree(v: Value)
    ensures SortKeys(ByUtf8Byte, v) == SortKeys(ByCodePoint, v)
    decreases v, 1
  {
    match v
    case Arr(items) => ItemOrdersAgree(items);
    case Obj(fields) =>
      ValueOrdersAgree(fields);
      OrdersSortAlike(SortValues(ByCodePoint, fields));
    case _ =>
  }

  lemma {:induction false} ItemOrdersAgree(items: seq<Value>)
    ensures SortItems(ByUtf8Byte, items) == SortItems(ByCodePoint, items)
    decreases items, 0
  {
    if items != [] {
      OrdersAgree(items[0]);
      ItemOrdersAgree(items[1..]);
    }
  }

  lemma {:induction false} ValueOrdersAgree(fields: seq<Field>)
    ensures SortValues(ByUtf8Byte, fields) == SortValues(ByCodePoint, fields)
    decreases fields, 0
  {
    if fields != [] {
      OrdersAgree(fields[0].value);
      ValueOrdersAgree(fields[1..]);
    }
  }

  // ----- the sorted document is a normal form -----

  predicate Normal(v: Value)
    decreases v
  {
    match v
    case Arr(items) => forall i | 0 <= i < |items| :: Normal(items[i])
    case Obj(fields) => Ascending(fields) && forall i | 0 <= i < |fields| :: Normal(fields[i].value)
    case _ => true
  }

  lemma {:induction false} SortKeepsMeaning(order: KeyOrder, v: Value)
    requires Distinct(v)
    ensures Meaning(SortKeys(order, v)) == Meaning(v)
    decreases v, 1
  {
    match v
    case Arr(items) => SortItemsMeaning(order, items);
    case Obj(fields) =>
      SortValuesKeys(order, fields);
      SortMeaning(order, SortValues(order, fields));
      SortValuesMeaning(order, fields);
    case _ =>
  }

  lemma {:induction false} SortItemsMeaning(order: KeyOrder, items: seq<Value>)
    requires forall i | 0 <= i < |items| :: Distinct(items[i])
    ensures ItemMeanings(SortItems(order, items)) == ItemMeanings(items)
    decreases items, 0
  {
    if items != [] {
      SortKeepsMeaning(order, items[0]);
      SortItemsMeaning(order, items[1..]);
      assert SortItems(order, items)[1..] == SortItems(order, items[1..]);
    }
  }

  lemma {:induction false} SortValuesMeaning(order: KeyOrder, fields: seq<Field>)
    requires forall i | 0 <= i < |fields| :: Distinct(fields[i].value)
    ensures Members(SortValues(order, fields)) == Members(fields)
    decreases fields, 0
  {
    if fields != [] {
      SortKeepsMeaning(order, fields[0].value);
      SortValuesMeaning(order, fields[1..]);
      assert SortValues(order, fields)[1..] == SortValues(order, fields[1..]);
    }
  }

  lemma {:induction false} SortedIsNormal(order: KeyOrder, v: Value)
    requires Distinct(v)
    ensures Normal(SortKeys(order, v))
    decreases v, 1
  {
    match v
    case Arr(items) => SortedItemsNormal(order, items);
    case Obj(fields) =>
      SortValuesKeys(order, fields);
      var inner := SortValues(order, fields);
      SortAscends(order, inner);
      SortedValuesNormal(order, fields);
      SortKeepsFields(order, inner);
    case _ =>
  }

  lemma {:induction false} SortedItemsNormal(order: KeyOrder, items: seq<Value>)
    requires forall i | 0 <= i < |items| :: Distinct(items[i])
    ensures forall v | v in SortItems(order, items) :: Normal(v)
    decreases items, 0
  {
    if items != [] {
      SortedIsNormal(order, items[0]);
      SortedItemsNormal(order, items[1..]);
    }
  }

  lemma {:induction false} SortedValuesNormal(order: KeyOrder, fields: seq<Field>)
    requires forall i | 0 <= i < |fields| :: Distinct(fields[i].value)
    ensures forall f | f in SortValues(order, fields) :: Normal(f.value)
    decreases fields, 0
  {
    if fields != [] {
      SortedIsNormal(order, fields[0].value);
      SortedValuesNormal(order, fields[1..]);
    }
  }

  lemma {:induction false} SortKeepsFields(order: KeyOrder, fields: seq<Field>)
    ensures forall f | f in SortFields(order, fields) :: f in fields
  {
    if fields != [] {
      SortKeepsFields(order, fields[1..]);
      InsertKeepsFields(order, fields[0], SortFields(order, fields[1..]));
    }
  }

  lemma {:induction false} InsertKeepsFields(order: KeyOrder, f: Field, fields: seq<Field>)
    ensures forall g | g in Insert(order, f, fields) :: g == f || g in fields
  {
    if fields != [] {
      InsertKeepsFields(order, f, fields[1..]);
    }
  }

  /** Two normal documents with one meaning are the same document. */
  lemma {:induction false} NormalFormUnique(a: Value, b: Value)
    requires Normal(a) && Normal(b) && Meaning(a) == Meaning(b)
    ensures a == b
    decreases a, 1
  {
    match a
    case Arr(items) => NormalItemsUnique(items, b.items);
    case Obj(fields) => NormalFieldsUnique(fields, b.fields);
    case _ =>
  }

  lemma {:induction false} NormalItemsUnique(a: seq<Value>, b: seq<Value>)
    requires forall v | v in a + b :: Normal(v)
    requires ItemMeanings(a) == ItemMeanings(b)
    ensures a == b
    decreases a, 0
  {
    if a != [] && b != [] {
      assert Normal(a[0]) && Normal(b[0]) by { assert a[0] in a + b && b[0] in a + b; }
      assert ItemMeanings(a)[0] == Meaning(a[0]) && ItemMeanings(b)[0] == Meaning(b[0]);
      NormalFormUnique(a[0], b[0]);
      assert ItemMeanings(a)[1..] == ItemMeanings(a[1..]) && ItemMeanings(b)[1..] == ItemMeanings(b[1..]);
      NormalItemsUnique(a[1..], b[1..]);
    }
  }

  /** The meaning of an ascending object splits into its least key's value and the rest. */
  lemma LeastKeySplits(fields: seq<Field>)
    requires fields != [] && Ascending(fields)
    ensures var k := fields[0].key;
      && k in Members(fields) && Members(fields)[k] == Meaning(fields[0].value)
      && Members(fields[1..]) == Members(fields) - {k}
      && forall other | other in Members(fields) && other != k :: Less(k, other)
  {
    AscendingHeadIsLeast(fields);
    KeysOfMembers(fields[1..]);
  }

  lemma LeastKeysMatch(a: seq<Field>, b: seq<Field>)
    requires a != [] && b != [] && Ascending(a) && Ascending(b) && Members(a) == Members(b)
    ensures a[0].key == b[0].key
    ensures Meaning(a[0].value) == Meaning(b[0].value) && Members(a[1..]) == Members(b[1..])
  {
    LeastKeySplits(a);
    LeastKeySplits(b);
    LessTotal(a[0].key, b[0].key);
  }

  lemma {:induction false} NormalFieldsUnique(a: seq<Field>, b: seq<Field>)
    requires Ascending(a) && Ascending(b) && forall f | f in a + b :: Normal(f.value)
    requires Members(a) == Members(b)
    ensures a == b
    decreases a, 0
  {
    KeysOfMembers(a);
    KeysOfMembers(b);
    if a != [] && b != [] {
      LeastKeysMatch(a, b);
      assert Normal(a[0].value) && Normal(b[0].value) by { assert a[0] in a + b && b[0] in a + b; }
      NormalFormUnique(a[0].value, b[0].value);
      NormalFieldsUnique(a[1..], b[1..]);
    } else if a != [] {
      KeysStep(a);
    } else if b != [] {
      KeysStep(b);
    }
  }

  // ----- canonical text decides the document -----

  /** Sorted text is equal exactly for documents equal up to key order at every depth. */
  lemma SortedTextDecides(style: Style, order: KeyOrder, a: Value, b: Value)
    requires Distinct(a) && Distinct(b)
    ensures Print(style, Some(order), a) == Print(style, Some(order), b) <==> Meaning(a) == Meaning(b)
  {
    var x, y := SortKeys(order, a), SortKeys(order, b);
    TwoPassEqualsFused(style, order, a);
    TwoPassEqualsFused(style, order, b);
    SortKeepsMeaning(order, a);
    SortKeepsMeaning(order, b);
    if Print(style, None, x) == Print(style, None, y) {
      PrintInjective(style, x, y);
    }
    if Meaning(a) == Meaning(b) {
      SortedIsNormal(order, a);
      SortedIsNormal(order, b);
      NormalFormUnique(x, y);
    }
  }

  /** Reading sorted text back gives a document with the meaning that was printed. */
  lemma SortedTextReadsBack(style: Style, order: KeyOrder, v: Value)
    requires Distinct(v)
    ensures ReadValue(Print(style, Some(order), v)) == Some((SortKeys(order, v), ""))
    ensures Meaning(SortKeys(order, v)) == Meaning(v)
  {
    TwoPassEqualsFused(style, order, v);
    SortKeepsMeaning(order, v);
    ReadInvertsPrint(style, SortKeys(order, v), "");
    assert Print(style, Some(order), v) + "" == Print(style, Some(order), v);
  }

  lemma UnsignedDistinct(fields: seq<Field>, dropped: set<string>)
    requires Distinct(Obj(fields))
    ensures Distinct(Obj(Without(fields, dropped)))
  {
    WithoutIsSubset(fields, dropped);
    var kept := Without(fields, dropped);
    forall i | 0 <= i < |kept| ensures Distinct(kept[i].value) {
      assert kept[i] in fields;
    }
  }

  /** Python's signed bytes are equal exactly for objects equal up to key order at every depth. */
  lemma SortedJsonDecides(a: seq<Field>, b: seq<Field>)
    requires Distinct(Obj(a)) && Distinct(Obj(b))
    ensures SortedJson(a) == SortedJson(b) <==> Members(a) == Members(b)
  {
    SortedTextDecides(Python, ByCodePoint, Obj(a), Obj(b));
    if SortedJson(a) == SortedJson(b) {
      EncodeInjective(Print(Python, Some(ByCodePoint), Obj(a)), Print(Python, Some(ByCodePoint), Obj(b)));
    }
  }

  /** Python's payload is equal exactly for documents that agree on every undropped key. */
  lemma PythonPayloadDecides(a: seq<Field>, b: seq<Field>, dropped: set<string>)
    requires Distinct(Obj(a)) && Distinct(Obj(b))
    ensures PythonPayload(a, dropped) == PythonPayload(b, dropped) <==> Members(a) - dropped == Members(b) - dropped
  {
    UnsignedDistinct(a, dropped);
    UnsignedDistinct(b, dropped);
    SortedJsonDecides(Without(a, dropped), Without(b, dropped));
    WithoutMeaning(a, dropped);
    WithoutMeaning(b, dropped);
  }

  lemma RustPayloadText(fields: seq<Field>)
    ensures RustPayload(Obj(fields)) == Ok(Encode(Print(Rust, Some(ByCodePoint), Obj(Without(fields, SIGNATURE)))))
  {
    var unsigned := Obj(Without(fields, SIGNATURE));
    OrdersAgree(unsigned);
    TwoPassEqualsFused(Rust, ByCodePoint, unsigned);
  }

  /** Rust's payload is equal exactly for objects that agree on every key but signature_hex. */
  lemma RustPayloadDecides(a: seq<Field>, b: seq<Field>)
    requires Distinct(Obj(a)) && Distinct(Obj(b))
    ensures RustPayload(Obj(a)) == RustPayload(Obj(b)) <==> Members(a) - {"signature_hex"} == Members(b) - {"signature_hex"}
  {
    var x, y := Obj(Without(a, SIGNATURE)), Obj(Without(b, SIGNATURE));
    RustPayloadText(a);
    RustPayloadText(b);
    UnsignedDistinct(a, SIGNATURE);
    UnsignedDistinct(b, SIGNATURE);
    SortedTextDecides(Rust, ByCodePoint, x, y);
    WithoutMeaning(a, SIGNATURE);
    WithoutMeaning(b, SIGNATURE);
    if RustPayload(Obj(a)) == RustPayload(Obj(b)) {
      EncodeInjective(Print(Rust, Some(ByCodePoint), x), Print(Rust, Some(ByCodePoint), y));
    }
  }

  // ----- where the two languages agree -----

  predicate Ascii(s: string) {
    forall i | 0 <= i < |s| :: s[i] as int <= 0x7E
  }

  /** Every string and key, at every depth, stays below U+007F. */
  predicate AsciiOnly(v: Value)
    decreases v
  {
    match v
    case Str(s) => Ascii(s)
    case Arr(items) => forall i | 0 <= i < |items| :: AsciiOnly(items[i])
    case Obj(fields) => AsciiFields(fields)
    case _ => true
  }

  predicate AsciiFields(fields: seq<Field>)
    decreases fields
  {
    fields != [] ==> Ascii(fields[0].key) && AsciiOnly(fields[0].value) && AsciiFields(fields[1..])
  }

  /** The integers serde_json reads as integers: those of i64 and u64. */
  predicate IntsInRange(v: Value)
    decreases v
  {
    match v
    case Int(n) => -0x8000_0000_0000_0000 <= n < 0x1_0000_0000_0000_0000
    case Arr(items) => forall i | 0 <= i < |items| :: IntsInRange(items[i])
    case Obj(fields) => forall i | 0 <= i < |fields| :: IntsInRange(fields[i].value)
    case _ => true
  }

  lemma {:induction false} EscapesAgree(s: string)
    ensures Ascii(s) ==> EscapeRest(Python, s) == EscapeRest(Rust, s)
    ensures Ascii(EscapeRest(Python, s))
    ensures Ascii(EscapeRest(Rust, s)) ==> Ascii(s)
  {
    if s != "" {
      EscapesAgree(s[1..]);
      EscapeCharAgrees(s[0]);
      AsciiConcat(EscapeChar(Python, s[0]), EscapeRest(Python, s[1..]));
      AsciiConcat(EscapeChar(Rust, s[0]), EscapeRest(Rust, s[1..]));
      assert s == [s[0]] + s[1..];
    }
  }

  lemma AsciiConcat(a: string, b: string)
    ensures Ascii(a + b) <==> Ascii(a) && Ascii(b)
  {
    if Ascii(a + b) {
      forall i | 0 <= i < |a| ensures a[i] as int <= 0x7E { assert a[i] == (a + b)[i]; }
      forall i | 0 <= i < |b| ensures b[i] as int <= 0x7E { assert b[i] == (a + b)[|a| + i]; }
    }
  }

  lemma HexIsAscii(n: nat)
    requires n < 0x10000
    ensures Ascii(UnicodeEscape(n))
  {
    AsciiConcat(['\\', 'u'], Hex4(n));
  }

  lemma EscapeCharAgrees(c: char)
    ensures c as int <= 0x7E ==> EscapeChar(Python, c) == EscapeChar(Rust, c)
    ensures Ascii(EscapeChar(Python, c))
    ensures Ascii(EscapeChar(Rust, c)) ==> c as int <= 0x7E
  {
    var n := c as int;
    if n > 0x7E {
      assert EscapeChar(Rust, c)[0] == c;
    }
    if n < 0x10000 {
      if ShortEscape(c).None? && !PrintsRaw(Python, c) {
        HexIsAscii(n);
      }
    } else {
      HexIsAscii(0xD800 + (n - 0x10000) / 1024);
      HexIsAscii(0xDC00 + (n - 0x10000) % 1024);
      AsciiConcat(UnicodeEscape(0xD800 + (n - 0x10000) / 1024), UnicodeEscape(0xDC00 + (n - 0x10000) % 1024));
    }
  }

  lemma {:induction false} NaturalIsAscii(n: nat)
    ensures Ascii(Natural(n))
  {
    if n >= 10 {
      NaturalIsAscii(n / 10);
    }
  }

  lemma QuotesAgree(s: string)
    ensures Ascii(s) ==> Quote(Python, s) == Quote(Rust, s)
    ensures Ascii(Quote(Python, s))
    ensures Ascii(Quote(Rust, s)) ==> Ascii(s)
  {
    EscapesAgree(s);
    AsciiConcat(['\"'], EscapeRest(Python, s));
    AsciiConcat(['\"'], EscapeRest(Rust, s));
  }

  /** Python's text is ASCII; Rust's is only if the document is; and then they are the same. */
  lemma {:induction false} PrintersCompared(v: Value)
    ensures AsciiOnly(v) ==> Print(Python, None, v) == Print(Rust, None, v)
    ensures Ascii(Print(Python, None, v))
    ensures Ascii(Print(Rust, None, v)) ==> AsciiOnly(v)
    decreases Size(v)
  {
    match v
    case Int(n) => NaturalIsAscii(if n < 0 then -n else n);
    case Str(s) => QuotesAgree(s);
    case Arr(items) =>
      if items != [] {
        ItemPrintersCompared(items);
        AsciiConcat("[", PrintItems(Python, None, items));
        AsciiConcat("[", PrintItems(Rust, None, items));
      }
    case Obj(fields) =>
      if fields != [] {
        FieldPrintersCompared(fields);
        AsciiConcat("{", PrintFields(Python, None, fields));
        AsciiConcat("{", PrintFields(Rust, None, fields));
      }
    case _ =>
  }

  lemma {:induction false} ItemPrintersCompared(items: seq<Value>)
    requires items != []
    ensures AsciiOnly(Arr(items)) ==> PrintItems(Python, None, items) == PrintItems(Rust, None, items)
    ensures Ascii(PrintItems(Python, None, items))
    ensures Ascii(PrintItems(Rust, None, items)) ==> AsciiOnly(Arr(items))
    decreases ItemsSize(items)
  {
    PrintersCompared(items[0]);
    if |items| > 1 {
      ItemPrintersCompared(items[1..]);
      AsciiConcat(",", PrintItems(Python, None, items[1..]));
      AsciiConcat(",", PrintItems(Rust, None, items[1..]));
      AsciiConcat(Print(Python, None, items[0]), "," + PrintItems(Python, None, items[1..]));
      AsciiConcat(Print(Rust, None, items[0]), "," + PrintItems(Rust, None, items[1..]));
    } else {
      AsciiConcat(Print(Python, None, items[0]), "]");
      AsciiConcat(Print(Rust, None, items[0]), "]");
    }
    assert AsciiOnly(items[0]) && (|items| > 1 ==> AsciiOnly(Arr(items[1..]))) <==> AsciiOnly(Arr(items)) by {
      AsciiItemsStep(items);
    }
  }

  lemma AsciiItemsStep(items: seq<Value>)
    requires items != []
    ensures AsciiOnly(items[0]) && AsciiOnly(Arr(items[1..])) <==> AsciiOnly(Arr(items))
  {
    if AsciiOnly(Arr(items[1..])) && AsciiOnly(items[0]) {
      forall i | 0 <= i < |items| ensures AsciiOnly(items[i]) {
        assert i > 0 ==> items[i] == items[1..][i - 1];
      }
    }
  }

  lemma FieldTextAscii(style: Style, f: Field, rest: string)
    ensures Ascii(Quote(style, f.key) + ":" + Print(style, None, f.value) + rest)
       <==> Ascii(Quote(style, f.key)) && Ascii(Print(style, None, f.value)) && Ascii(rest)
  {
    AsciiConcat(Quote(style, f.key), ":");
    AsciiConcat(Quote(style, f.key) + ":", Print(style, None, f.value));
    AsciiConcat(Quote(style, f.key) + ":" + Print(style, None, f.value), rest);
  }

  lemma {:induction false} FieldPrintersCompared(fields: seq<Field>)
    requires fields != []
    ensures AsciiFields(fields) ==> PrintFields(Python, None, fields) == PrintFields(Rust, None, fields)
    ensures Ascii(PrintFields(Python, None, fields))
    ensures Ascii(PrintFields(Rust, None, fields)) ==> AsciiFields(fields)
    decreases FieldsSize(fields)
  {
    var f := fields[0];
    QuotesAgree(f.key);
    PrintersCompared(f.value);
    if |fields| > 1 {
      FieldPrintersCompared(fields[1..]);
      AsciiConcat(",", PrintFields(Python, None, fields[1..]));
      AsciiConcat(",", PrintFields(Rust, None, fields[1..]));
      FieldTextAscii(Python, f, "," + PrintFields(Python, None, fields[1..]));
      FieldTextAscii(Rust, f, "," + PrintFields(Rust, None, fields[1..]));
    } else {
      FieldTextAscii(Python, f, "}");
      FieldTextAscii(Rust, f, "}");
    }
  }

  lemma {:induction false} SortKeepsAscii(order: KeyOrder, v: Value)
    ensures AsciiOnly(SortKeys(order, v)) <==> AsciiOnly(v)
    decreases v, 1
  {
    match v
    case Arr(items) => SortItemsKeepAscii(order, items);
    case Obj(fields) =>
      SortValuesKeepAscii(order, fields);
      SortFieldsKeepAscii(order, SortValues(order, fields));
    case _ =>
  }

  lemma {:induction false} SortItemsKeepAscii(order: KeyOrder, items: seq<Value>)
    ensures AsciiOnly(Arr(SortItems(order, items))) <==> AsciiOnly(Arr(items))
    decreases items, 0
  {
    if items != [] {
      SortKeepsAscii(order, items[0]);
      SortItemsKeepAscii(order, items[1..]);
      assert SortItems(order, items)[1..] == SortItems(order, items[1..]);
      AsciiItemsStep(items);
      AsciiItemsStep(SortItems(order, items));
    }
  }

  lemma {:induction false} SortValuesKeepAscii(order: KeyOrder, fields: seq<Field>)
    ensures AsciiFields(SortValues(order, fields)) <==> AsciiFields(fields)
    decreases fields, 0
  {
    if fields != [] {
      SortKeepsAscii(order, fields[0].value);
      SortValuesKeepAscii(order, fields[1..]);
      assert SortValues(order, fields)[1..] == SortValues(order, fields[1..]);
    }
  }

  lemma {:induction false} SortFieldsKeepAscii(order: KeyOrder, fields: seq<Field>)
    ensures AsciiFields(SortFields(order, fields)) <==> AsciiFields(fields)
  {
    if fields != [] {
      SortFieldsKeepAscii(order, fields[1..]);
      InsertKeepsAscii(order, fields[0], SortFields(order, fields[1..]));
    }
  }

  lemma {:induction false} InsertKeepsAscii(order: KeyOrder, f: Field, fields: seq<Field>)
    ensures AsciiFields(Insert(order, f, fields)) <==> Ascii(f.key) && AsciiOnly(f.value) && AsciiFields(fields)
  {
    var r := Insert(order, f, fields);
    if fields == [] || !Before(order, fields[0].key, f.key) {
      assert r[1..] == fields;
    } else {
      InsertKeepsAscii(order, f, fields[1..]);
      assert r[1..] == Insert(order, f, fields[1..]);
    }
  }

  /** The two languages sign and check the same bytes exactly when the unsigned document stays below U+007F. */
  lemma PayloadsAgreeExactly(fields: seq<Field>)
    requires IntsInRange(Obj(fields))
    ensures RustPayload(Obj(fields)) == Ok(PythonPayload(fields, {"signature_hex"}))
       <==> AsciiOnly(Obj(Without(fields, {"signature_hex"})))
  {
    var unsigned := Obj(Without(fields, SIGNATURE));
    var sorted := SortKeys(ByCodePoint, unsigned);
    OrdersAgree(unsigned);
    TwoPassEqualsFused(Python, ByCodePoint, unsigned);
    PrintersCompared(sorted);
    SortKeepsAscii(ByCodePoint, unsigned);
    if RustPayload(Obj(fields)) == Ok(PythonPayload(fields, SIGNATURE)) {
      EncodeInjective(Print(Rust, None, sorted), Print(Python, None, sorted));
    }
  }

  /** In the shared domain, a Rust payload and a Python payload match exactly for one unsigned document. */
  lemma CanonicalAcrossLanguages(a: seq<Field>, b: seq<Field>)
    requires Distinct(Obj(a)) && Distinct(Obj(b))
    requires IntsInRange(Obj(a)) && AsciiOnly(Obj(Without(a, {"signature_hex"})))
    ensures RustPayload(Obj(a)) == Ok(PythonPayload(b, {"signature_hex"}))
       <==> Members(a) - {"signature_hex"} == Members(b) - {"signature_hex"}
  {
    PayloadsAgreeExactly(a);
    PythonPayloadDecides(a, b, SIGNATURE);
  }
}
