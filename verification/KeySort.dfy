/** Sorting the fields of an object by key, under either language's comparison. */
module KeySort {
  import opened Text
  import opened Utf8
  import opened Json

  /** Python compares keys by code point; Rust compares their UTF-8 bytes. */
  datatype KeyOrder = ByCodePoint | ByUtf8Byte

  predicate Before(order: KeyOrder, a: string, b: string) {
    match order
    case ByCodePoint => Less(a, b)
    case ByUtf8Byte => BytesLess(Encode(a), Encode(b))
  }

  lemma BeforeIsLess(order: KeyOrder, a: string, b: string)
    ensures Before(order, a, b) <==> Less(a, b)
  {
    KeyOrderAgrees(a, b);
  }

  /** A stable sort by key: equal keys keep their order. */
  function SortFields(order: KeyOrder, fields: seq<Field>): (sorted: seq<Field>)
    ensures FieldsSize(sorted) == FieldsSize(fields) && |sorted| == |fields|
  {
    if fields == [] then [] else Insert(order, fields[0], SortFields(order, fields[1..]))
  }

  function Insert(order: KeyOrder, f: Field, fields: seq<Field>): (r: seq<Field>)
    ensures FieldsSize(r) == 1 + Size(f.value) + FieldsSize(fields) && |r| == |fields| + 1
  {
    if fields == [] || !Before(order, fields[0].key, f.key) then
      assert ([f] + fields)[1..] == fields;
      [f] + fields
    else
      var rest := Insert(order, f, fields[1..]);
      assert ([fields[0]] + rest)[1..] == rest;
      [fields[0]] + rest
  }

  /** Keys strictly increase. */
  predicate Ascending(fields: seq<Field>) {
    |fields| > 1 ==> Less(fields[0].key, fields[1].key) && Ascending(fields[1..])
  }

  lemma {:induction false} InsertKeys(order: KeyOrder, f: Field, fields: seq<Field>)
    ensures Keys(Insert(order, f, fields)) == {f.key} + Keys(fields)
  {
    var r := Insert(order, f, fields);
    KeysStep(r);
    if fields == [] || !Before(order, fields[0].key, f.key) {
      assert r[1..] == fields;
    } else {
      InsertKeys(order, f, fields[1..]);
      assert r[1..] == Insert(order, f, fields[1..]);
      KeysStep(fields);
    }
  }

  lemma {:induction false} SortKeepsKeys(order: KeyOrder, fields: seq<Field>)
    ensures Keys(SortFields(order, fields)) == Keys(fields)
  {
    if fields != [] {
      SortKeepsKeys(order, fields[1..]);
      InsertKeys(order, fields[0], SortFields(order, fields[1..]));
      KeysStep(fields);
    }
  }

  lemma {:induction false} InsertAscending(order: KeyOrder, f: Field, fields: seq<Field>)
    requires Ascending(fields) && f.key !in Keys(fields)
    ensures Ascending(Insert(order, f, fields))
  {
    if fields != [] {
      KeysStep(fields);
      BeforeIsLess(order, fields[0].key, f.key);
      LessTotal(fields[0].key, f.key);
      var r := Insert(order, f, fields);
      if Before(order, fields[0].key, f.key) {
        InsertAscending(order, f, fields[1..]);
        assert r[1..] == Insert(order, f, fields[1..]);
      } else {
        assert r[1..] == fields;
      }
    }
  }

  /** Fields with distinct keys come out in strictly increasing key order. */
  lemma {:induction false} SortAscends(order: KeyOrder, fields: seq<Field>)
    requires DistinctKeys(fields)
    ensures Ascending(SortFields(order, fields))
  {
    if fields != [] {
      SortAscends(order, fields[1..]);
      SortKeepsKeys(order, fields[1..]);
      InsertAscending(order, fields[0], SortFields(order, fields[1..]));
    }
  }

  /** In an ascending object the first key is below all the others, so keys are distinct. */
  lemma {:induction false} AscendingHeadIsLeast(fields: seq<Field>)
    requires fields != [] && Ascending(fields)
    ensures forall k | k in Keys(fields[1..]) :: Less(fields[0].key, k)
    ensures fields[0].key !in Keys(fields[1..])
  {
    if |fields| > 1 {
      AscendingHeadIsLeast(fields[1..]);
      KeysStep(fields[1..]);
      forall k | k in Keys(fields[1..]) ensures Less(fields[0].key, k) {
        if k != fields[1].key {
          LessTransitive(fields[0].key, fields[1].key, k);
        }
      }
    }
    LessTotal(fields[0].key, fields[0].key);
  }

  /** Sorting fields that are already in order changes nothing. */
  lemma {:induction false} SortedStays(order: KeyOrder, fields: seq<Field>)
    requires Ascending(fields)
    ensures SortFields(order, fields) == fields
  {
    if fields != [] {
      SortedStays(order, fields[1..]);
      if |fields| > 1 {
        BeforeIsLess(order, fields[1].key, fields[0].key);
        LessTotal(fields[0].key, fields[1].key);
      }
      assert [fields[0]] + fields[1..] == fields;
    }
  }

  /** The two comparisons sort every object identically. */
  lemma {:induction false} OrdersSortAlike(fields: seq<Field>)
    ensures SortFields(ByUtf8Byte, fields) == SortFields(ByCodePoint, fields)
  {
    if fields != [] {
      OrdersSortAlike(fields[1..]);
      OrdersInsertAlike(fields[0], SortFields(ByCodePoint, fields[1..]));
    }
  }

  lemma {:induction false} OrdersInsertAlike(f: Field, fields: seq<Field>)
    ensures Insert(ByUtf8Byte, f, fields) == Insert(ByCodePoint, f, fields)
  {
    if fields != [] {
      BeforeIsLess(ByUtf8Byte, fields[0].key, f.key);
      OrdersInsertAlike(f, fields[1..]);
    }
  }

  lemma UpdateUnderOverride(a: map<string, Doc>, m: map<string, Doc>, k: string, d: Doc)
    ensures a + m[k := d] == (a + m)[k := d]
    ensures k !in m ==> map[k := d] + m == m[k := d]
  {
  }

  /** Sorting moves fields with fresh keys without changing what the object means. */
  lemma {:induction false} InsertMeaning(order: KeyOrder, f: Field, fields: seq<Field>)
    requires f.key !in Keys(fields)
    ensures Members(Insert(order, f, fields)) == Members(fields)[f.key := Meaning(f.value)]
  {
    var r := Insert(order, f, fields);
    var d := Meaning(f.value);
    if fields == [] || !Before(order, fields[0].key, f.key) {
      assert r[1..] == fields;
      KeysOfMembers(fields);
      UpdateUnderOverride(map[], Members(fields), f.key, d);
    } else {
      KeysStep(fields);
      InsertMeaning(order, f, fields[1..]);
      assert r[1..] == Insert(order, f, fields[1..]);
      var head := map[fields[0].key := Meaning(fields[0].value)];
      UpdateUnderOverride(head, Members(fields[1..]), f.key, d);
    }
  }

  lemma {:induction false} SortMeaning(order: KeyOrder, fields: seq<Field>)
    requires DistinctKeys(fields)
    ensures Members(SortFields(order, fields)) == Members(fields)
  {
    if fields != [] {
      SortMeaning(order, fields[1..]);
      SortKeepsKeys(order, fields[1..]);
      InsertMeaning(order, fields[0], SortFields(order, fields[1..]));
      KeysOfMembers(fields[1..]);
    }
  }
}
