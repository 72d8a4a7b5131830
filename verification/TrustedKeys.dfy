/**
 Trusted keys in both languages. Python validates every entry of a key document and the last
 entry for a reference wins; Rust takes the first entry for the signer and validates only that.
 */
module TrustedKeys {
  import opened Results
  import opened Text
  import opened Utf8
  import opened Json
  import opened Canonical
  import opened Documents
  import opened Device

  /** The signature and clock-text libraries of the planners, as uninterpreted functions. */
  datatype Libraries = Libraries(
    parseTime: string -> Option<int>,
    /** Each language's own reading of hex, PEM and RSA-PSS: does the hex signature over the payload verify under the PEM key? */
    rustVerify: (Bytes, string, string) -> bool,
    pythonVerify: (Bytes, string, string) -> bool,
    /** The PEM key has at least 2048 bits, which only Python asks for. */
    strongKey: string -> bool,
    /** Python's `str` on a JSON value that is not a string. */
    str: Value -> string)

  /** What Python takes for a signature: one that verifies, under a key that is large enough. */
  predicate Authentic(lib: Libraries, payload: Bytes, signatureHex: string, pem: string) {
    lib.strongKey(pem) && lib.pythonVerify(payload, signatureHex, pem)
  }

  datatype TrustedKey = TrustedKey(
    keyRef: string,
    algorithm: string,
    publicKeyPem: string,
    status: string,
    notBefore: Option<int>,
    notAfter: Option<int>,
    revokedAt: Option<int>,
    revocationReason: Option<string>)

  type KeyTable = map<string, TrustedKey>

  // ----- Python -----

  /** A time field that Python parses when it is a string and otherwise ignores. */
  function TimeIfString(lib: Libraries, fields: seq<Field>, key: string): Result<Option<int>> {
    match Get(fields, key)
    case Some(Str(text)) =>
      var t :- ParseTime(lib.parseTime, text, key);
      Ok(Some(t))
    case _ => Ok(None)
  }

  function StringOrNone(fields: seq<Field>, key: string): Result<Option<string>> {
    match Get(fields, key)
    case Some(Str(s)) => Ok(Some(s))
    case Some(Null) => Ok(None)
    case None => Ok(None)
    case _ => Err(NotAString(key))
  }

  predicate KnownStatus(status: string) {
    status == "active" || status == "retired" || status == "revoked"
  }

  function StatusOrActive(fields: seq<Field>): Result<string> {
    match Get(fields, "status")
    case None => Ok("active")
    case Some(Str(s)) => Ok(s)
    case _ => Err(BadKeyStatus)
  }

  function KeyFromDict(lib: Libraries, entry: Value): Result<TrustedKey> {
    var _ :- Check(entry.Obj?, NotAnObject);
    var fields := entry.fields;
    var keyRef :- SerdeString(fields, "key_ref");
    var _ :- Check(keyRef != "", EmptyKeyRef);
    var algorithm :- SerdeString(fields, "algorithm");
    var _ :- Check(algorithm == RSA_PSS_SHA256, BadAlgorithm);
    var pem :- SerdeString(fields, "public_key_pem");
    var _ :- Check(Contains(pem, PEM_MARKER), NotPem);
    var status :- StatusOrActive(fields);
    var _ :- Check(KnownStatus(status), BadKeyStatus);
    var reason :- StringOrNone(fields, "revocation_reason");
    var notBefore :- TimeIfString(lib, fields, "not_before");
    var notAfter :- TimeIfString(lib, fields, "not_after");
    var revokedAt :- TimeIfString(lib, fields, "revoked_at");
    Ok(TrustedKey(keyRef, algorithm, pem, status, notBefore, notAfter, revokedAt, reason))
  }

  function ValidateLifecycle(key: TrustedKey, now: int): Result<()> {
    var _ :- Check(key.status != "revoked" && key.revokedAt.None?, KeyRevoked);
    var _ :- Check(key.status == "active", KeyNotActive);
    var _ :- Check(key.notBefore.None? || key.notBefore.value <= now, KeyNotYetActive);
    var _ :- Check(key.notAfter.None? || now < key.notAfter.value, KeyExpired);
    Ok(())
  }

  function LiveKey(lib: Libraries, entry: Value, now: int): Result<TrustedKey> {
    var key :- KeyFromDict(lib, entry);
    var _ :- ValidateLifecycle(key, now);
    Ok(key)
  }

  /** The entries left to right, each loaded key replacing an earlier one with its reference. */
  function LoadEntries(lib: Libraries, entries: seq<Value>, now: int, loaded: KeyTable): Result<KeyTable>
    decreases entries
  {
    if entries == [] then Ok(loaded)
    else
      var key :- LiveKey(lib, entries[0], now);
      LoadEntries(lib, entries[1..], now, loaded[key.keyRef := key])
  }

  function KeyEntries(fields: seq<Field>): Result<seq<Value>> {
    match Get(fields, "keys")
    case Some(Arr(entries)) => Ok(entries)
    case _ => Err(NoKeysArray)
  }

  function LoadTrustedKeys(lib: Libraries, fields: seq<Field>, now: int): Result<KeyTable> {
    var entries :- KeyEntries(fields);
    LoadEntries(lib, entries, now, map[])
  }

  /** The loop as Python runs it, filling one dictionary. */
  method LoadKeyTable(lib: Libraries, fields: seq<Field>, now: int) returns (r: Result<KeyTable>)
    ensures r == LoadTrustedKeys(lib, fields, now)
  {
    var keys := KeyEntries(fields);
    if keys.Err? {
      return Err(keys.reason);
    }
    var loaded: KeyTable := map[];
    for i := 0 to |keys.value|
      invariant LoadEntries(lib, keys.value[i..], now, loaded) == LoadTrustedKeys(lib, fields, now)
    {
      assert keys.value[i..][1..] == keys.value[i + 1..];
      var key := KeyFromDict(lib, keys.value[i]);
      if key.Err? {
        return Err(key.reason);
      }
      var live := ValidateLifecycle(key.value, now);
      if live.Err? {
        return Err(live.reason);
      }
      loaded := loaded[key.value.keyRef := key.value];
    }
    return Ok(loaded);
  }

  // ----- Rust -----

  function SerdeOptionalTime(lib: Libraries, fields: seq<Field>, key: string): Result<Option<int>> {
    var text :- SerdeOptionalString(fields, key);
    match text
    case None => Ok(None)
    case Some(s) =>
      var t :- ParseTime(lib.parseTime, s, key);
      Ok(Some(t))
  }

  function RustKey(lib: Libraries, entry: Value): Result<TrustedKey> {
    var _ :- Check(entry.Obj?, NotAnObject);
    var fields := entry.fields;
    var keyRef :- SerdeString(fields, "key_ref");
    var algorithm :- SerdeString(fields, "algorithm");
    var pem :- SerdeString(fields, "public_key_pem");
    var status :- StatusOrActive(fields);
    var notBefore :- SerdeOptionalTime(lib, fields, "not_before");
    var notAfter :- SerdeOptionalTime(lib, fields, "not_after");
    var revokedAt :- SerdeOptionalTime(lib, fields, "revoked_at");
    var reason :- SerdeOptionalString(fields, "revocation_reason");
    Ok(TrustedKey(keyRef, algorithm, pem, status, notBefore, notAfter, revokedAt, reason))
  }

  function RustKeys(lib: Libraries, entries: seq<Value>): (r: Result<seq<TrustedKey>>)
    ensures r.Ok? ==> |r.value| == |entries|
    decreases entries
  {
    if entries == [] then Ok([])
    else
      var key :- RustKey(lib, entries[0]);
      var rest :- RustKeys(lib, entries[1..]);
      Ok([key] + rest)
  }

  function RustKeyDocument(lib: Libraries, fields: seq<Field>): Result<seq<TrustedKey>> {
    var entries :- KeyEntries(fields);
    RustKeys(lib, entries)
  }

  function RustLifecycle(key: TrustedKey, now: int): Result<()> {
    var _ :- Check(!RustBlank(key.keyRef), EmptyKeyRef);
    var _ :- Check(key.algorithm == RSA_PSS_SHA256, BadAlgorithm);
    var _ :- Check(Contains(key.publicKeyPem, PEM_MARKER), NotPem);
    var _ :- Check(KnownStatus(key.status), BadKeyStatus);
    var _ :- Check(key.status != "revoked" && key.revokedAt.None?, KeyRevoked);
    var _ :- Check(key.status == "active", KeyNotActive);
    var _ :- Check(key.notBefore.None? || key.notBefore.value <= now, KeyNotYetActive);
    var _ :- Check(key.notAfter.None? || now < key.notAfter.value, KeyExpired);
    var _ :- Check(key.revocationReason.None? || !RustBlank(key.revocationReason.value), BlankRevocationReason);
    Ok(())
  }

  function TrustedKeyFor(keys: seq<TrustedKey>, signerRef: string, now: int): Result<TrustedKey> {
    if keys == [] then Err(NoTrustedKey)
    else if keys[0].keyRef == signerRef then
      var _ :- RustLifecycle(keys[0], now);
      Ok(keys[0])
    else TrustedKeyFor(keys[1..], signerRef, now)
  }

  /** What Rust's lookup returns is a listed key with that reference which passed its lifecycle checks. */
  lemma {:induction false} MatchIsListed(keys: seq<TrustedKey>, signerRef: string, now: int) returns (i: nat)
    requires TrustedKeyFor(keys, signerRef, now).Ok?
    ensures i < |keys| && keys[i] == TrustedKeyFor(keys, signerRef, now).value
    ensures keys[i].keyRef == signerRef && RustLifecycle(keys[i], now).Ok?
  {
    if keys[0].keyRef == signerRef {
      i := 0;
    } else {
      i := MatchIsListed(keys[1..], signerRef, now);
      i := i + 1;
    }
  }

  // ----- what the two parsers read -----

  /** The status is the document's, and "active" when there is none. */
  predicate SaysStatus(fields: seq<Field>, status: string) {
    Get(fields, "status") == Some(Str(status)) || (Get(fields, "status").None? && status == "active")
  }

  /** An optional string: absent and null are none, and no other kind is allowed. */
  predicate SaysOptional(fields: seq<Field>, key: string, o: Option<string>) {
    if o.Some? then Get(fields, key) == Some(Str(o.value)) else Absent(fields, key)
  }

  /** Python reads a time out of a string and ignores every other kind. */
  predicate PythonSaysTime(lib: Libraries, fields: seq<Field>, key: string, t: Option<int>) {
    if Get(fields, key).Some? && Get(fields, key).value.Str? then t.Some? && lib.parseTime(Get(fields, key).value.s) == t
    else t.None?
  }

  predicate RustSaysTime(lib: Libraries, fields: seq<Field>, key: string, t: Option<int>) {
    || (t.None? && Absent(fields, key))
    || (t.Some? && Get(fields, key).Some? && Get(fields, key).value.Str? && lib.parseTime(Get(fields, key).value.s) == t)
  }

  lemma OptionalFieldsIff(lib: Libraries, fields: seq<Field>, key: string, t: Option<int>, o: Option<string>, status: string)
    ensures TimeIfString(lib, fields, key) == Ok(t) <==> PythonSaysTime(lib, fields, key, t)
    ensures SerdeOptionalTime(lib, fields, key) == Ok(t) <==> RustSaysTime(lib, fields, key, t)
    ensures StringOrNone(fields, key) == Ok(o) <==> SaysOptional(fields, key, o)
    ensures SerdeOptionalString(fields, key) == Ok(o) <==> SaysOptional(fields, key, o)
    ensures StatusOrActive(fields) == Ok(status) <==> SaysStatus(fields, status)
  {
  }

  /** The optional fields of an entry, as Python and as Rust read them. */
  predicate PythonSaysRest(lib: Libraries, fields: seq<Field>, key: TrustedKey) {
    && SaysStatus(fields, key.status) && SaysOptional(fields, "revocation_reason", key.revocationReason)
    && PythonSaysTime(lib, fields, "not_before", key.notBefore) && PythonSaysTime(lib, fields, "not_after", key.notAfter)
    && PythonSaysTime(lib, fields, "revoked_at", key.revokedAt)
  }

  predicate RustSaysRest(lib: Libraries, fields: seq<Field>, key: TrustedKey) {
    && SaysStatus(fields, key.status) && SaysOptional(fields, "revocation_reason", key.revocationReason)
    && RustSaysTime(lib, fields, "not_before", key.notBefore) && RustSaysTime(lib, fields, "not_after", key.notAfter)
    && RustSaysTime(lib, fields, "revoked_at", key.revokedAt)
  }

  lemma PythonRestRead(lib: Libraries, fields: seq<Field>, key: TrustedKey)
    ensures PythonSaysRest(lib, fields, key) <==>
      && StatusOrActive(fields) == Ok(key.status) && StringOrNone(fields, "revocation_reason") == Ok(key.revocationReason)
      && TimeIfString(lib, fields, "not_before") == Ok(key.notBefore) && TimeIfString(lib, fields, "not_after") == Ok(key.notAfter)
      && TimeIfString(lib, fields, "revoked_at") == Ok(key.revokedAt)
  {
    OptionalFieldsIff(lib, fields, "revocation_reason", None, key.revocationReason, key.status);
    OptionalFieldsIff(lib, fields, "not_before", key.notBefore, None, key.status);
    OptionalFieldsIff(lib, fields, "not_after", key.notAfter, None, key.status);
    OptionalFieldsIff(lib, fields, "revoked_at", key.revokedAt, None, key.status);
  }

  lemma RustRestRead(lib: Libraries, fields: seq<Field>, key: TrustedKey)
    ensures RustSaysRest(lib, fields, key) <==>
      && StatusOrActive(fields) == Ok(key.status) && SerdeOptionalString(fields, "revocation_reason") == Ok(key.revocationReason)
      && SerdeOptionalTime(lib, fields, "not_before") == Ok(key.notBefore) && SerdeOptionalTime(lib, fields, "not_after") == Ok(key.notAfter)
      && SerdeOptionalTime(lib, fields, "revoked_at") == Ok(key.revokedAt)
  {
    OptionalFieldsIff(lib, fields, "revocation_reason", None, key.revocationReason, key.status);
    OptionalFieldsIff(lib, fields, "not_before", key.notBefore, None, key.status);
    OptionalFieldsIff(lib, fields, "not_after", key.notAfter, None, key.status);
    OptionalFieldsIff(lib, fields, "revoked_at", key.revokedAt, None, key.status);
  }

  /** A Python key is exactly what its entry says, and the entry is well formed. */
  lemma PythonKeyReadsIff(lib: Libraries, fields: seq<Field>, key: TrustedKey)
    ensures KeyFromDict(lib, Obj(fields)) == Ok(key) <==>
      && Get(fields, "key_ref") == Some(Str(key.keyRef)) && key.keyRef != ""
      && Get(fields, "algorithm") == Some(Str(key.algorithm)) && key.algorithm == "rsa-pss-sha256"
      && Get(fields, "public_key_pem") == Some(Str(key.publicKeyPem)) && Contains(key.publicKeyPem, "BEGIN PUBLIC KEY")
      && key.status in {"active", "retired", "revoked"} && PythonSaysRest(lib, fields, key)
  {
    PythonRestRead(lib, fields, key);
  }

  /** So is a Rust key, which is checked only when it is looked up. */
  lemma RustKeyReadsIff(lib: Libraries, fields: seq<Field>, key: TrustedKey)
    ensures RustKey(lib, Obj(fields)) == Ok(key) <==>
      && Get(fields, "key_ref") == Some(Str(key.keyRef)) && Get(fields, "algorithm") == Some(Str(key.algorithm))
      && Get(fields, "public_key_pem") == Some(Str(key.publicKeyPem)) && RustSaysRest(lib, fields, key)
  {
    RustRestRead(lib, fields, key);
  }

  /** The key's checks that do not look at the clock. */
  predicate InForce(key: TrustedKey) {
    key.status == "active" && key.revokedAt.None?
  }

  predicate Opened(key: TrustedKey, t: int) {
    key.notBefore.None? || key.notBefore.value <= t
  }

  predicate Unexpired(key: TrustedKey, t: int) {
    key.notAfter.None? || t < key.notAfter.value
  }

  /** Active, never revoked, and inside its own window. */
  predicate InForceAt(key: TrustedKey, t: int) {
    InForce(key) && Opened(key, t) && Unexpired(key, t)
  }

  lemma LifecycleIff(key: TrustedKey, now: int)
    ensures ValidateLifecycle(key, now).Ok? <==> InForceAt(key, now)
    ensures RustLifecycle(key, now).Ok? <==>
      && InForceAt(key, now) && !RustBlank(key.keyRef) && key.algorithm == "rsa-pss-sha256"
      && Contains(key.publicKeyPem, "BEGIN PUBLIC KEY") && (key.revocationReason.Some? ==> !RustBlank(key.revocationReason.value))
  {
  }

  /** An entry that the document marks as anything but active, or gives a revocation time, is no live key in either language. */
  lemma MarkedKeyIsNeverLive(lib: Libraries, fields: seq<Field>, now: int)
    requires (Get(fields, "status").Some? && Get(fields, "status") != Some(Str("active")))
      || (Get(fields, "revoked_at").Some? && Get(fields, "revoked_at").value.Str?)
    ensures LiveKey(lib, Obj(fields), now).Err?
    ensures RustKey(lib, Obj(fields)).Ok? ==> RustLifecycle(RustKey(lib, Obj(fields)).value, now).Err?
  {
    if KeyFromDict(lib, Obj(fields)).Ok? {
      PythonKeyReadsIff(lib, fields, KeyFromDict(lib, Obj(fields)).value);
    }
    if RustKey(lib, Obj(fields)).Ok? {
      RustKeyReadsIff(lib, fields, RustKey(lib, Obj(fields)).value);
    }
  }

  /** A live Python key is a well-formed entry in force. */
  lemma LiveKeyIff(lib: Libraries, entry: Value, now: int, key: TrustedKey)
    ensures LiveKey(lib, entry, now) == Ok(key) <==> KeyFromDict(lib, entry) == Ok(key) && InForceAt(key, now)
  {
  }

  lemma KeyEntriesIff(fields: seq<Field>, entries: seq<Value>)
    ensures KeyEntries(fields) == Ok(entries) <==> Get(fields, "keys") == Some(Arr(entries))
  {
  }

  /** Rust reads a key document exactly when it reads every entry, each in its place. */
  lemma {:induction false} RustKeysIff(lib: Libraries, entries: seq<Value>, keys: seq<TrustedKey>)
    ensures RustKeys(lib, entries) == Ok(keys) <==>
      |keys| == |entries| && forall i | 0 <= i < |entries| :: RustKey(lib, entries[i]) == Ok(keys[i])
    decreases entries
  {
    if entries != [] {
      if keys != [] {
        RustKeysIff(lib, entries[1..], keys[1..]);
        assert [keys[0]] + keys[1..] == keys;
        assert forall i | 1 <= i < |entries| :: entries[i] == entries[1..][i - 1];
        assert |keys| == |entries| ==> forall i | 1 <= i < |keys| :: keys[i] == keys[1..][i - 1];
      }
      if RustKeys(lib, entries) == Ok(keys) {
        assert keys[0] == RustKey(lib, entries[0]).value && keys[1..] == RustKeys(lib, entries[1..]).value;
      }
    }
  }

  // ----- what the loaded table is -----

  /** `i` is the last entry with its key reference. */
  predicate LastFor(lib: Libraries, entries: seq<Value>, i: nat, keyRef: string)
    requires i < |entries|
  {
    && KeyFromDict(lib, entries[i]).Ok? && KeyFromDict(lib, entries[i]).value.keyRef == keyRef
    && forall j | i < j < |entries| :: KeyFromDict(lib, entries[j]).Ok? ==> KeyFromDict(lib, entries[j]).value.keyRef != keyRef
  }

  lemma {:induction false} LoadSucceedsIff(lib: Libraries, entries: seq<Value>, now: int, loaded: KeyTable)
    ensures LoadEntries(lib, entries, now, loaded).Ok? <==> forall i | 0 <= i < |entries| :: LiveKey(lib, entries[i], now).Ok?
    decreases entries
  {
    if entries != [] {
      var first := LiveKey(lib, entries[0], now);
      if first.Ok? {
        LoadSucceedsIff(lib, entries[1..], now, loaded[first.value.keyRef := first.value]);
        if LoadEntries(lib, entries, now, loaded).Ok? {
          forall i | 0 <= i < |entries| ensures LiveKey(lib, entries[i], now).Ok? {
            assert i > 0 ==> entries[i] == entries[1..][i - 1];
          }
        }
      }
    }
  }

  lemma {:induction false} LoadedFromLast(lib: Libraries, entries: seq<Value>, now: int, loaded: KeyTable, keyRef: string)
    requires LoadEntries(lib, entries, now, loaded).Ok?
    ensures var table := LoadEntries(lib, entries, now, loaded).value;
      || (exists i | 0 <= i < |entries| :: LastFor(lib, entries, i, keyRef) && keyRef in table
                                           && Ok(table[keyRef]) == KeyFromDict(lib, entries[i]))
      || ((forall i | 0 <= i < |entries| :: KeyFromDict(lib, entries[i]).Ok? && KeyFromDict(lib, entries[i]).value.keyRef != keyRef)
          && (keyRef in table <==> keyRef in loaded) && (keyRef in loaded ==> table[keyRef] == loaded[keyRef]))
    decreases entries
  {
    if entries != [] {
      var first := LiveKey(lib, entries[0], now).value;
      var rest := entries[1..];
      LoadedFromLast(lib, rest, now, loaded[first.keyRef := first], keyRef);
      var table := LoadEntries(lib, entries, now, loaded).value;
      if i :| 0 <= i < |rest| && LastFor(lib, rest, i, keyRef) && keyRef in table && Ok(table[keyRef]) == KeyFromDict(lib, rest[i]) {
        assert entries[i + 1] == rest[i];
        assert LastFor(lib, entries, i + 1, keyRef);
      } else {
        assert forall j | 1 <= j < |entries| :: entries[j] == rest[j - 1];
        if first.keyRef == keyRef {
          assert LastFor(lib, entries, 0, keyRef);
        }
      }
    }
  }

  /**
   A key document loads exactly when every entry is valid and live; the table then holds, for
   each key reference mentioned, the last entry that mentions it, and nothing else.
   */
  lemma KeyTableCorrect(lib: Libraries, fields: seq<Field>, now: int, keyRef: string)
    requires KeyEntries(fields).Ok?
    ensures var entries := KeyEntries(fields).value;
      LoadTrustedKeys(lib, fields, now).Ok? <==> forall i | 0 <= i < |entries| :: LiveKey(lib, entries[i], now).Ok?
    ensures var entries := KeyEntries(fields).value;
      LoadTrustedKeys(lib, fields, now).Ok? ==>
        var table := LoadTrustedKeys(lib, fields, now).value;
        && (keyRef in table <==> exists i | 0 <= i < |entries| :: LastFor(lib, entries, i, keyRef))
        && (forall i | 0 <= i < |entries| && LastFor(lib, entries, i, keyRef) ::
              keyRef in table && Ok(table[keyRef]) == KeyFromDict(lib, entries[i]))
  {
    var entries := KeyEntries(fields).value;
    LoadSucceedsIff(lib, entries, now, map[]);
    if LoadTrustedKeys(lib, fields, now).Ok? {
      LoadedFromLast(lib, entries, now, map[], keyRef);
      forall i, j | 0 <= i < |entries| && 0 <= j < |entries| && LastFor(lib, entries, i, keyRef) && LastFor(lib, entries, j, keyRef)
        ensures i == j
      {
      }
    }
  }

  // ----- the two lookups agree -----

  /** An entry both languages parse is the same key in both. */
  lemma ParsersAgree(lib: Libraries, entry: Value)
    requires KeyFromDict(lib, entry).Ok? && RustKey(lib, entry).Ok?
    ensures KeyFromDict(lib, entry) == RustKey(lib, entry)
  {
  }

  lemma {:induction false} RustKeyAt(lib: Libraries, entries: seq<Value>, i: nat)
    requires RustKeys(lib, entries).Ok? && i < |entries|
    ensures RustKey(lib, entries[i]) == Ok(RustKeys(lib, entries).value[i])
    decreases entries
  {
    if i > 0 {
      RustKeyAt(lib, entries[1..], i - 1);
    }
  }

  predicate DistinctRefs(keys: seq<TrustedKey>) {
    forall i, j | 0 <= i < j < |keys| :: keys[i].keyRef != keys[j].keyRef
  }

  /** Rust takes the first key with the reference, and no later one if that one fails its checks. */
  lemma {:induction false} FirstMatch(keys: seq<TrustedKey>, i: nat, now: int)
    requires i < |keys| && forall j | 0 <= j < i :: keys[j].keyRef != keys[i].keyRef
    ensures TrustedKeyFor(keys, keys[i].keyRef, now) == if RustLifecycle(keys[i], now).Ok? then Ok(keys[i]) else Err(RustLifecycle(keys[i], now).reason)
  {
    if i > 0 {
      assert keys[0].keyRef != keys[i].keyRef;
      FirstMatch(keys[1..], i - 1, now);
    }
  }

  lemma {:induction false} NoMatch(keys: seq<TrustedKey>, signerRef: string, now: int)
    requires forall i | 0 <= i < |keys| :: keys[i].keyRef != signerRef
    ensures TrustedKeyFor(keys, signerRef, now) == Err(NoTrustedKey)
  {
    if keys != [] {
      NoMatch(keys[1..], signerRef, now);
    }
  }

  /** On a document both languages load, entry by entry, they hold the same valid and live keys. */
  lemma KeysOfEntries(lib: Libraries, entries: seq<Value>, now: int)
    requires RustKeys(lib, entries).Ok? && forall i | 0 <= i < |entries| :: LiveKey(lib, entries[i], now).Ok?
    ensures forall i | 0 <= i < |entries| ::
      var key := RustKeys(lib, entries).value[i];
      && KeyFromDict(lib, entries[i]) == Ok(key) && ValidateLifecycle(key, now).Ok?
      && key.algorithm == RSA_PSS_SHA256 && Contains(key.publicKeyPem, PEM_MARKER) && KnownStatus(key.status)
  {
    forall i | 0 <= i < |entries|
      ensures var key := RustKeys(lib, entries).value[i];
        && KeyFromDict(lib, entries[i]) == Ok(key) && ValidateLifecycle(key, now).Ok?
        && key.algorithm == RSA_PSS_SHA256 && Contains(key.publicKeyPem, PEM_MARKER) && KnownStatus(key.status)
    {
      RustKeyAt(lib, entries, i);
      ParsersAgree(lib, entries[i]);
    }
  }

  /**
   With distinct references, Rust's first match and Python's last-wins table give every signer
   the same key, except that Rust alone refuses a blank reference or a blank revocation reason.
   */
  lemma LookupsAgree(lib: Libraries, fields: seq<Field>, now: int, signerRef: string)
    requires LoadTrustedKeys(lib, fields, now).Ok? && RustKeyDocument(lib, fields).Ok?
    requires DistinctRefs(RustKeyDocument(lib, fields).value)
    ensures var table, keys := LoadTrustedKeys(lib, fields, now).value, RustKeyDocument(lib, fields).value;
      && (signerRef !in table ==> TrustedKeyFor(keys, signerRef, now) == Err(NoTrustedKey))
      && (signerRef in table ==>
            var reason := table[signerRef].revocationReason;
            && (TrustedKeyFor(keys, signerRef, now).Ok? <==>
                  !RustBlank(signerRef) && (reason.None? || !RustBlank(reason.value)))
            && (TrustedKeyFor(keys, signerRef, now).Ok? ==> TrustedKeyFor(keys, signerRef, now) == Ok(table[signerRef])))
  {
    var entries := KeyEntries(fields).value;
    var table, keys := LoadTrustedKeys(lib, fields, now).value, RustKeyDocument(lib, fields).value;
    KeyTableCorrect(lib, fields, now, signerRef);
    KeysOfEntries(lib, entries, now);
    if i :| 0 <= i < |keys| && keys[i].keyRef == signerRef {
      assert LastFor(lib, entries, i, signerRef);
      FirstMatch(keys, i, now);
      LiveMeansRustLive(keys[i], now);
    } else {
      NoMatch(keys, signerRef, now);
    }
  }

  lemma LiveMeansRustLive(key: TrustedKey, now: int)
    requires key.algorithm == RSA_PSS_SHA256 && Contains(key.publicKeyPem, PEM_MARKER) && KnownStatus(key.status)
    requires ValidateLifecycle(key, now).Ok?
    ensures RustLifecycle(key, now).Ok? <==>
      !RustBlank(key.keyRef) && (key.revocationReason.None? || !RustBlank(key.revocationReason.value))
  {
  }

  // ----- trust bundles and chains of them -----

  function NonEmptyString(fields: seq<Field>, key: string): Result<string> {
    var s :- SerdeString(fields, key);
    var _ :- Check(s != "", NotAString(key));
    Ok(s)
  }

  function LoadVerifiedTrustBundle(lib: Libraries, fields: seq<Field>, rootKeys: KeyTable, now: int): Result<KeyTable> {
    var _ :- NonEmptyString(fields, "bundle_id");
    var signerRef :- NonEmptyString(fields, "signer_ref");
    var signatureHex :- NonEmptyString(fields, "signature_hex");
    var _ :- Check(Get(fields, "signature_algorithm") == Some(Str(RSA_PSS_SHA256)), BadAlgorithm);
    var _ :- Check(Get(fields, "crypto_profile") == Some(Str(FIPS_PROFILE)), BadProfile);
    var _ :- Check(signerRef in rootKeys, NoTrustedKey);
    var signer := rootKeys[signerRef];
    var _ :- ValidateLifecycle(signer, now);
    var _ :- Check(Authentic(lib, PythonPayload(fields, BUNDLE_SIGNATURES), signatureHex, signer.publicKeyPem), BadSignature);
    LoadTrustedKeys(lib, fields, now)
  }

  /** A bundle is accepted exactly when it is complete, FIPS-marked, and signed by a live root over its canonical bytes, and its keys load. */
  lemma BundleAcceptedIff(lib: Libraries, fields: seq<Field>, rootKeys: KeyTable, now: int)
    ensures LoadVerifiedTrustBundle(lib, fields, rootKeys, now).Ok? <==>
      && HasText(fields, "bundle_id") && HasText(fields, "signer_ref") && HasText(fields, "signature_hex")
      && Get(fields, "signature_algorithm") == Some(Str("rsa-pss-sha256"))
      && Get(fields, "crypto_profile") == Some(Str("fips-140-3-compatible"))
      && var signerRef := Get(fields, "signer_ref").value.s;
      && signerRef in rootKeys && ValidateLifecycle(rootKeys[signerRef], now).Ok?
      && Authentic(lib, PythonPayload(fields, {"signature_hex", "signatures"}), Get(fields, "signature_hex").value.s,
                             rootKeys[signerRef].publicKeyPem)
      && LoadTrustedKeys(lib, fields, now).Ok?
    ensures LoadVerifiedTrustBundle(lib, fields, rootKeys, now).Ok? ==>
      LoadVerifiedTrustBundle(lib, fields, rootKeys, now) == LoadTrustedKeys(lib, fields, now)
  {
  }

  /** A bundle document and the time at which it is loaded. */
  datatype BundleLoad = BundleLoad(fields: seq<Field>, now: int)

  /** Each loaded table becomes the root keys of the next bundle. */
  function LoadChain(lib: Libraries, rootKeys: KeyTable, loads: seq<BundleLoad>): Result<KeyTable>
    decreases loads
  {
    if loads == [] then Ok(rootKeys)
    else
      var table :- LoadVerifiedTrustBundle(lib, loads[0].fields, rootKeys, loads[0].now);
      LoadChain(lib, table, loads[1..])
  }

  /** `signer`, live at load time, signed a bundle that lists the also live `key`. */
  predicate Vouches(lib: Libraries, load: BundleLoad, signer: TrustedKey, key: TrustedKey) {
    && ValidateLifecycle(signer, load.now).Ok?
    && SerdeString(load.fields, "signature_hex").Ok?
    && Authentic(lib, PythonPayload(load.fields, {"signature_hex", "signatures"}),
                           SerdeString(load.fields, "signature_hex").value, signer.publicKeyPem)
    && KeyEntries(load.fields).Ok?
    && exists i | 0 <= i < |KeyEntries(load.fields).value| :: LiveKey(lib, KeyEntries(load.fields).value[i], load.now) == Ok(key)
  }

  lemma LoadedKeyIsListed(lib: Libraries, fields: seq<Field>, now: int, keyRef: string)
    requires LoadTrustedKeys(lib, fields, now).Ok? && keyRef in LoadTrustedKeys(lib, fields, now).value
    ensures exists i | 0 <= i < |KeyEntries(fields).value| ::
      LiveKey(lib, KeyEntries(fields).value[i], now) == Ok(LoadTrustedKeys(lib, fields, now).value[keyRef])
  {
    KeyTableCorrect(lib, fields, now, keyRef);
    var entries := KeyEntries(fields).value;
    var i :| 0 <= i < |entries| && LastFor(lib, entries, i, keyRef);
    assert LiveKey(lib, entries[i], now).Ok?;
  }

  /** The bundle's named signer, taken from the given root keys, vouches for each key it returns. */
  lemma BundleVouches(lib: Libraries, fields: seq<Field>, rootKeys: KeyTable, now: int, keyRef: string)
    requires LoadVerifiedTrustBundle(lib, fields, rootKeys, now).Ok?
    requires keyRef in LoadVerifiedTrustBundle(lib, fields, rootKeys, now).value
    ensures SerdeString(fields, "signer_ref").Ok? && SerdeString(fields, "signer_ref").value in rootKeys
    ensures Vouches(lib, BundleLoad(fields, now), rootKeys[SerdeString(fields, "signer_ref").value],
                    LoadVerifiedTrustBundle(lib, fields, rootKeys, now).value[keyRef])
  {
    BundleAcceptedIff(lib, fields, rootKeys, now);
    LoadedKeyIsListed(lib, fields, now, keyRef);
  }

  /** Loading a chain loads each of its prefixes, and each bundle against the table of the prefix before it. */
  lemma {:induction false} ChainPrefix(lib: Libraries, rootKeys: KeyTable, loads: seq<BundleLoad>, i: nat)
    requires LoadChain(lib, rootKeys, loads).Ok? && i <= |loads|
    ensures LoadChain(lib, rootKeys, loads[..i]).Ok?
    ensures i < |loads| ==>
      LoadChain(lib, rootKeys, loads[..i + 1])
        == LoadVerifiedTrustBundle(lib, loads[i].fields, LoadChain(lib, rootKeys, loads[..i]).value, loads[i].now)
    ensures i < |loads| ==> LoadChain(lib, rootKeys, loads[..i + 1]).Ok?
    decreases loads
  {
    if loads != [] {
      var table := LoadVerifiedTrustBundle(lib, loads[0].fields, rootKeys, loads[0].now).value;
      if i == 0 {
        assert loads[..1][1..] == [];
      } else {
        ChainPrefix(lib, table, loads[1..], i - 1);
        assert loads[..i][1..] == loads[1..][..i - 1];
        if i < |loads| {
          assert loads[..i + 1][1..] == loads[1..][..i];
        }
      }
    }
  }

  /** The table in force before bundle `i`: the initial roots, or what the bundle before it loaded. */
  function TableBefore(lib: Libraries, rootKeys: KeyTable, loads: seq<BundleLoad>, i: nat): KeyTable
    requires i <= |loads| && LoadChain(lib, rootKeys, loads[..i]).Ok?
  {
    LoadChain(lib, rootKeys, loads[..i]).value
  }

  /**
   Every link of a chain: bundle `i` names as signer a key of the table before it, that very
   key, live at load time, signed the bundle, and it vouches for every key of the next table.
   */
  lemma ChainLink(lib: Libraries, rootKeys: KeyTable, loads: seq<BundleLoad>, i: nat)
    requires LoadChain(lib, rootKeys, loads).Ok? && i < |loads|
    ensures LoadChain(lib, rootKeys, loads[..i]).Ok? && LoadChain(lib, rootKeys, loads[..i + 1]).Ok?
    ensures SerdeString(loads[i].fields, "signer_ref").Ok?
    ensures var signerRef := SerdeString(loads[i].fields, "signer_ref").value;
            var previous, next := TableBefore(lib, rootKeys, loads, i), TableBefore(lib, rootKeys, loads, i + 1);
      && signerRef in previous
      && forall keyRef | keyRef in next :: Vouches(lib, loads[i], previous[signerRef], next[keyRef])
  {
    ChainPrefix(lib, rootKeys, loads, i);
    var previous, next := TableBefore(lib, rootKeys, loads, i), TableBefore(lib, rootKeys, loads, i + 1);
    forall keyRef | keyRef in next
      ensures Vouches(lib, loads[i], previous[SerdeString(loads[i].fields, "signer_ref").value], next[keyRef])
    {
      BundleVouches(lib, loads[i].fields, previous, loads[i].now, keyRef);
      assert BundleLoad(loads[i].fields, loads[i].now) == loads[i];
    }
  }

  /** What stands at place `i` of the path to `keyRef`: the signer bundle `i` names, and `keyRef` itself at the end. */
  function RefAt(loads: seq<BundleLoad>, keyRef: string, i: nat): string
    requires i < |loads| ==> SerdeString(loads[i].fields, "signer_ref").Ok?
  {
    if i < |loads| then SerdeString(loads[i].fields, "signer_ref").value else keyRef
  }

  lemma RefIsTrusted(lib: Libraries, rootKeys: KeyTable, loads: seq<BundleLoad>, keyRef: string, i: nat)
    requires LoadChain(lib, rootKeys, loads).Ok? && keyRef in LoadChain(lib, rootKeys, loads).value && i <= |loads|
    ensures i < |loads| ==> SerdeString(loads[i].fields, "signer_ref").Ok?
    ensures LoadChain(lib, rootKeys, loads[..i]).Ok?
    ensures RefAt(loads, keyRef, i) in TableBefore(lib, rootKeys, loads, i)
  {
    if i < |loads| {
      ChainLink(lib, rootKeys, loads, i);
    } else {
      assert loads[..i] == loads;
    }
  }

  /** The key at place `i` of the path to `keyRef`, as the table in force there holds it. */
  function KeyAt(lib: Libraries, rootKeys: KeyTable, loads: seq<BundleLoad>, keyRef: string, i: nat): TrustedKey
    requires LoadChain(lib, rootKeys, loads).Ok? && keyRef in LoadChain(lib, rootKeys, loads).value && i <= |loads|
  {
    RefIsTrusted(lib, rootKeys, loads, keyRef, i);
    TableBefore(lib, rootKeys, loads, i)[RefAt(loads, keyRef, i)]
  }

  /** The key at one place vouches for the key at the next. */
  lemma NextIsVouchedFor(lib: Libraries, rootKeys: KeyTable, loads: seq<BundleLoad>, keyRef: string, i: nat)
    requires LoadChain(lib, rootKeys, loads).Ok? && keyRef in LoadChain(lib, rootKeys, loads).value && i < |loads|
    ensures Vouches(lib, loads[i], KeyAt(lib, rootKeys, loads, keyRef, i), KeyAt(lib, rootKeys, loads, keyRef, i + 1))
  {
    RefIsTrusted(lib, rootKeys, loads, keyRef, i);
    RefIsTrusted(lib, rootKeys, loads, keyRef, i + 1);
    ChainLink(lib, rootKeys, loads, i);
  }

  /**
   For a chain of any length, every key of the final table hangs on a path of verified
   signatures from an initial root. At each place stands the key that the table in force there
   holds under the signer the next bundle names; live when that bundle was loaded, it signed
   the bundle, which lists the key at the next place.
   */
  lemma TrustPath(lib: Libraries, rootKeys: KeyTable, loads: seq<BundleLoad>, keyRef: string)
    requires LoadChain(lib, rootKeys, loads).Ok? && keyRef in LoadChain(lib, rootKeys, loads).value
    ensures exists rootRef | rootRef in rootKeys :: rootKeys[rootRef] == KeyAt(lib, rootKeys, loads, keyRef, 0)
    ensures forall i | 0 <= i < |loads| ::
      Vouches(lib, loads[i], KeyAt(lib, rootKeys, loads, keyRef, i), KeyAt(lib, rootKeys, loads, keyRef, i + 1))
    ensures KeyAt(lib, rootKeys, loads, keyRef, |loads|) == LoadChain(lib, rootKeys, loads).value[keyRef]
  {
    RefIsTrusted(lib, rootKeys, loads, keyRef, 0);
    assert loads[..0] == [] && loads[..|loads|] == loads;
    forall i | 0 <= i < |loads|
      ensures Vouches(lib, loads[i], KeyAt(lib, rootKeys, loads, keyRef, i), KeyAt(lib, rootKeys, loads, keyRef, i + 1))
    {
      NextIsVouchedFor(lib, rootKeys, loads, keyRef, i);
    }
  }
}
