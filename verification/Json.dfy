/**
 JSON documents in the order they were written, and what they mean. An object is a
 sequence of fields; its meaning is a map, so two documents mean the same exactly when
 they are equal up to the order of keys at every depth.
 */
module Json {
  import opened Results

  datatype Field = Field(key: string, value: Value)

  datatype Value =
    | Null
    | Bool(b: bool)
    | Int(n: int)
    | Str(s: string)
    | Arr(items: seq<Value>)
    | Obj(fields: seq<Field>)

  datatype Doc =
    | DocNull
    | DocBool(b: bool)
    | DocInt(n: int)
    | DocStr(s: string)
    | DocArr(items: seq<Doc>)
    | DocObj(members: map<string, Doc>)

  function Meaning(v: Value): Doc
    decreases v
  {
    match v
    case Null => DocNull
    case Bool(b) => DocBool(b)
    case Int(n) => DocInt(n)
    case Str(s) => DocStr(s)
    case Arr(items) => DocArr(ItemMeanings(items))
    case Obj(fields) => DocObj(Members(fields))
  }

  function ItemMeanings(items: seq<Value>): seq<Doc>
    decreases items
  {
    if items == [] then [] else [Meaning(items[0])] + ItemMeanings(items[1..])
  }

  /** Later fields win over earlier ones, as in both languages' parsers. */
  function Members(fields: seq<Field>): map<string, Doc>
    decreases fields
  {
    if fields == [] then map[]
    else map[fields[0].key := Meaning(fields[0].value)] + Members(fields[1..])
  }

  function Keys(fields: seq<Field>): set<string> {
    set i | 0 <= i < |fields| :: fields[i].key
  }

  predicate DistinctKeys(fields: seq<Field>) {
    fields != [] ==> fields[0].key !in Keys(fields[1..]) && DistinctKeys(fields[1..])
  }

  /** Every object, at every depth, has distinct keys: what a Python dict or a serde map always has. */
  predicate Distinct(v: Value)
    decreases v
  {
    match v
    case Arr(items) => forall i | 0 <= i < |items| :: Distinct(items[i])
    case Obj(fields) => DistinctKeys(fields) && forall i | 0 <= i < |fields| :: Distinct(fields[i].value)
    case _ => true
  }

  /** A measure that does not depend on the order of fields. */
  function Size(v: Value): nat
    decreases v
  {
    match v
    case Arr(items) => 1 + ItemsSize(items)
    case Obj(fields) => 1 + FieldsSize(fields)
    case _ => 1
  }

  function ItemsSize(items: seq<Value>): nat
    decreases items
  {
    if items == [] then 0 else 1 + Size(items[0]) + ItemsSize(items[1..])
  }

  function FieldsSize(fields: seq<Field>): nat
    decreases fields
  {
    if fields == [] then 0 else 1 + Size(fields[0].value) + FieldsSize(fields[1..])
  }

  /** Python's `data.get(key)` and serde's field lookup; None when the key is absent. */
  function Get(fields: seq<Field>, key: string): Option<Value> {
    if fields == [] then None
    else if fields[0].key == key then Some(fields[0].value)
    else Get(fields[1..], key)
  }

  /** The document without the given top-level keys. */
  function Without(fields: seq<Field>, keys: set<string>): seq<Field> {
    if fields == [] then []
    else if fields[0].key in keys then Without(fields[1..], keys)
    else [fields[0]] + Without(fields[1..], keys)
  }

  lemma {:induction false} KeysOfMembers(fields: seq<Field>)
    ensures Members(fields).Keys == Keys(fields)
  {
    if fields != [] {
      KeysOfMembers(fields[1..]);
      assert Keys(fields) == {fields[0].key} + Keys(fields[1..]) by {
        KeysStep(fields);
      }
    }
  }

  lemma KeysStep(fields: seq<Field>)
    requires fields != []
    ensures Keys(fields) == {fields[0].key} + Keys(fields[1..])
  {
    forall k | k in Keys(fields) ensures k in {fields[0].key} + Keys(fields[1..]) {
      var i :| 0 <= i < |fields| && fields[i].key == k;
      if i > 0 {
        assert fields[1..][i - 1].key == k;
      }
    }
    forall k | k in Keys(fields[1..]) ensures k in Keys(fields) {
      var i :| 0 <= i < |fields[1..]| && fields[1..][i].key == k;
      assert fields[i + 1].key == k;
    }
    assert fields[0].key in Keys(fields);
  }

  lemma {:induction false} WithoutIsSubset(fields: seq<Field>, keys: set<string>)
    ensures Keys(Without(fields, keys)) == Keys(fields) - keys
    ensures DistinctKeys(fields) ==> DistinctKeys(Without(fields, keys))
    ensures forall f | f in Without(fields, keys) :: f in fields
  {
    if fields != [] {
      WithoutIsSubset(fields[1..], keys);
      KeysStep(fields);
      if fields[0].key !in keys {
        var kept := Without(fields, keys);
        KeysStep(kept);
        assert kept[1..] == Without(fields[1..], keys);
      }
    }
  }

  /** Dropping keys from the text drops exactly those keys from the meaning. */
  lemma {:induction false} WithoutMeaning(fields: seq<Field>, keys: set<string>)
    ensures Members(Without(fields, keys)) == Members(fields) - keys
  {
    if fields != [] {
      WithoutMeaning(fields[1..], keys);
      if fields[0].key !in keys {
        assert Without(fields, keys)[1..] == Without(fields[1..], keys);
      }
    }
  }

  lemma {:induction false} GetFinds(fields: seq<Field>, key: string)
    ensures Get(fields, key).Some? <==> key in Keys(fields)
    ensures Get(fields, key).Some? ==> exists i | 0 <= i < |fields| :: fields[i] == Field(key, Get(fields, key).value)
    ensures DistinctKeys(fields) && key in Keys(fields)
      ==> key in Members(fields) && Members(fields)[key] == Meaning(Get(fields, key).value)
  {
    if fields != [] {
      KeysStep(fields);
      GetFinds(fields[1..], key);
      KeysOfMembers(fields[1..]);
      if fields[0].key == key {
        assert fields[0] == Field(key, Get(fields, key).value);
      } else if Get(fields[1..], key).Some? {
        var i :| 0 <= i < |fields[1..]| && fields[1..][i] == Field(key, Get(fields[1..], key).value);
        assert fields[i + 1] == Field(key, Get(fields, key).value);
      }
    }
  }

  lemma {:induction false} GetAt(fields: seq<Field>, i: nat)
    requires i < |fields| && forall j | 0 <= j < i :: fields[j].key != fields[i].key
    ensures Get(fields, fields[i].key) == Some(fields[i].value)
  {
    if i > 0 {
      assert fields[0].key != fields[i].key;
      GetAt(fields[1..], i - 1);
    }
  }

  /** Every field whose key differs from all others is what a lookup finds. */
  lemma GetAll(fields: seq<Field>)
    requires forall i, j | 0 <= i < j < |fields| :: fields[i].key != fields[j].key
    ensures forall i | 0 <= i < |fields| :: Get(fields, fields[i].key) == Some(fields[i].value)
  {
    forall i | 0 <= i < |fields| ensures Get(fields, fields[i].key) == Some(fields[i].value) {
      GetAt(fields, i);
    }
  }

  /** Fields whose keys differ pairwise make an object that maps each key to its own value. */
  lemma {:induction false} MembersAt(fields: seq<Field>)
    requires forall i, j | 0 <= i < j < |fields| :: fields[i].key != fields[j].key
    ensures DistinctKeys(fields) && Members(fields).Keys == Keys(fields)
    ensures forall i | 0 <= i < |fields| :: fields[i].key in Members(fields)
    ensures forall i | 0 <= i < |fields| :: Members(fields)[fields[i].key] == Meaning(fields[i].value)
  {
    KeysOfMembers(fields);
    if fields != [] {
      MembersAt(fields[1..]);
      forall i | 0 <= i < |fields|
        ensures fields[i].key in Members(fields) && Members(fields)[fields[i].key] == Meaning(fields[i].value)
      {
        if i > 0 {
          assert fields[i] == fields[1..][i - 1];
        }
      }
    }
  }

  lemma {:induction false} GetAbsent(fields: seq<Field>, key: string)
    requires forall i | 0 <= i < |fields| :: fields[i].key != key
    ensures Get(fields, key) == None
  {
    if fields != [] {
      GetAbsent(fields[1..], key);
    }
  }
}
