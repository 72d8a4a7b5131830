/** Reading typed fields out of parsed JSON objects, in each language's way, and the words both languages expect. */
module Documents {
  import opened Results
  import opened Text
  import opened Json

  /** Python's `_require_string`. */
  function RequireString(fields: seq<Field>, key: string): Result<string> {
    match Get(fields, key)
    case Some(Str(s)) => if PythonBlank(s) then Err(NotAString(key)) else Ok(s)
    case _ => Err(NotAString(key))
  }

  /** A serde `String` field. */
  function SerdeString(fields: seq<Field>, key: string): Result<string> {
    match Get(fields, key)
    case Some(Str(s)) => Ok(s)
    case _ => Err(NotAString(key))
  }

  /** A serde `Option<String>` field: absent and null are None. */
  function SerdeOptionalString(fields: seq<Field>, key: string): Result<Option<string>> {
    match Get(fields, key)
    case None => Ok(None)
    case Some(Null) => Ok(None)
    case Some(Str(s)) => Ok(Some(s))
    case _ => Err(NotAString(key))
  }

  /** Python's `_parse_time` over a text-to-instant function. */
  function ParseTime(parse: string -> Option<int>, text: string, key: string): Result<int> {
    match parse(text)
    case Some(t) => Ok(t)
    case None => Err(BadTime(key))
  }

  /** Rendering this instant as text and parsing the text gives the instant back. */
  predicate Faithful(parse: string -> Option<int>, format: int -> string, t: int) {
    parse(format(t)) == Some(t) && !PythonBlank(format(t))
  }

  /** Absent and null alike. */
  predicate Absent(fields: seq<Field>, key: string) {
    Get(fields, key).None? || Get(fields, key).value.Null?
  }

  /** A string that is not empty; blank is allowed. */
  predicate HasText(fields: seq<Field>, key: string) {
    Get(fields, key).Some? && Get(fields, key).value.Str? && Get(fields, key).value.s != ""
  }

  function FromOption<T>(o: Option<T>, reason: Reason): Result<T> {
    match o
    case Some(v) => Ok(v)
    case None => Err(reason)
  }

  // ----- words and fields both planners know -----

  const SIGNATURE_URN := "urn:srcos:signature:"

  predicate KnownMode(mode: string) {
    mode == "installer" || mode == "recovery" || mode == "ephemeral" || mode == "bootstrap"
  }

  predicate KnownPurpose(purpose: string) {
    purpose == "enroll" || purpose == "boot" || purpose == "repair" || purpose == "recovery"
  }

  function ObjectField(fields: seq<Field>, key: string): Result<seq<Field>> {
    match Get(fields, key)
    case Some(Obj(inner)) => Ok(inner)
    case _ => Err(NotAnObject)
  }

  function BoolField(fields: seq<Field>, key: string): Result<bool> {
    match Get(fields, key)
    case Some(Bool(b)) => Ok(b)
    case _ => Err(NotABoolean(key))
  }

  /** What each reader takes for a value: the field itself, of the right kind, and nothing made up. */
  lemma ReadersExactly(fields: seq<Field>, key: string, s: string, o: Option<string>, inner: seq<Field>, b: bool)
    ensures RequireString(fields, key) == Ok(s) <==> Get(fields, key) == Some(Str(s)) && !PythonBlank(s)
    ensures SerdeString(fields, key) == Ok(s) <==> Get(fields, key) == Some(Str(s))
    ensures SerdeOptionalString(fields, key) == Ok(o) <==>
      if o.Some? then Get(fields, key) == Some(Str(o.value)) else Absent(fields, key)
    ensures ObjectField(fields, key) == Ok(inner) <==> Get(fields, key) == Some(Obj(inner))
    ensures BoolField(fields, key) == Ok(b) <==> Get(fields, key) == Some(Bool(b))
    ensures HasText(fields, key) <==> SerdeString(fields, key).Ok? && SerdeString(fields, key).value != ""
  {
  }

  /** The words both planners accept. */
  lemma KnownWords(mode: string, purpose: string)
    ensures KnownMode(mode) <==> mode in {"installer", "recovery", "ephemeral", "bootstrap"}
    ensures KnownPurpose(purpose) <==> purpose in {"enroll", "boot", "repair", "recovery"}
  {
  }

  lemma ObjectFieldDistinct(fields: seq<Field>, key: string)
    requires Distinct(Obj(fields)) && ObjectField(fields, key).Ok?
    ensures Distinct(Obj(ObjectField(fields, key).value))
  {
    GetFinds(fields, key);
    var i :| 0 <= i < |fields| && fields[i] == Field(key, Get(fields, key).value);
    assert Distinct(fields[i].value);
  }
}
