/**
 Two implementations of one decision. For a manifest in the shared text domain that the Rust
 planner accepts, the exact conditions under which the Python planner accepts it too; and
 whenever both accept, their plans agree on every shared field.
 */
module PlannerRefinement {
  import opened Results
  import opened Text
  import opened Json
  import opened KeySort
  import opened Canonical
  import opened Documents
  import opened Device
  import opened TrustedKeys
  import opened Plans
  import P = PythonPlanner
  import R = RustPlanner

  // ----- artifact maps -----

  lemma {:induction false} InsertGet(order: KeyOrder, f: Field, fields: seq<Field>, key: string)
    requires f.key !in Keys(fields)
    ensures Get(Insert(order, f, fields), key) == if key == f.key then Some(f.value) else Get(fields, key)
  {
    var r := Insert(order, f, fields);
    if fields == [] || !Before(order, fields[0].key, f.key) {
      assert r[1..] == fields;
    } else {
      KeysStep(fields);
      InsertGet(order, f, fields[1..], key);
      assert r[1..] == Insert(order, f, fields[1..]);
    }
  }

  lemma {:induction false} SortGet(order: KeyOrder, fields: seq<Field>, key: string)
    requires DistinctKeys(fields)
    ensures Get(SortFields(order, fields), key) == Get(fields, key)
  {
    if fields != [] {
      SortGet(order, fields[1..], key);
      SortKeepsKeys(order, fields[1..]);
      InsertGet(order, fields[0], SortFields(order, fields[1..]), key);
    }
  }

  lemma {:induction false} EntriesLookup(fields: seq<Field>, key: string)
    requires R.StringEntries(fields).Ok?
    ensures Lookup(R.StringEntries(fields).value, key).Some? <==> Get(fields, key).Some?
    ensures Get(fields, key).Some? ==> Get(fields, key).value == Str(Lookup(R.StringEntries(fields).value, key).value)
  {
    if fields != [] {
      EntriesLookup(fields[1..], key);
      var entries := R.StringEntries(fields).value;
      assert entries[1..] == R.StringEntries(fields[1..]).value;
    }
  }

  lemma {:induction false} EntriesAsMap(lib: Libraries, fields: seq<Field>)
    requires R.StringEntries(fields).Ok?
    ensures AsMap(R.StringEntries(fields).value) == P.StrArtifacts(lib, fields)
  {
    if fields != [] {
      EntriesAsMap(lib, fields[1..]);
      var entries := R.StringEntries(fields).value;
      assert entries[1..] == R.StringEntries(fields[1..]).value;
    }
  }

  function TextOf(lib: Libraries, v: Value): string {
    match v case Str(s) => s case other => lib.str(other)
  }

  lemma {:induction false} StrArtifactsGet(lib: Libraries, fields: seq<Field>)
    requires DistinctKeys(fields)
    ensures P.StrArtifacts(lib, fields).Keys == Keys(fields)
    ensures forall k | k in Keys(fields) :: Get(fields, k).Some? && P.StrArtifacts(lib, fields)[k] == TextOf(lib, Get(fields, k).value)
  {
    if fields != [] {
      StrArtifactsGet(lib, fields[1..]);
      KeysStep(fields);
    }
  }

  /** Sorting the entries changes nothing about the map. */
  lemma SortStrArtifacts(lib: Libraries, order: KeyOrder, fields: seq<Field>)
    requires DistinctKeys(fields)
    ensures P.StrArtifacts(lib, SortFields(order, fields)) == P.StrArtifacts(lib, fields)
  {
    var sorted := SortFields(order, fields);
    SortKeepsKeys(order, fields);
    SortAscends(order, fields);
    AscendingIsDistinct(sorted);
    StrArtifactsGet(lib, fields);
    StrArtifactsGet(lib, sorted);
    forall k | k in Keys(fields) ensures P.StrArtifacts(lib, sorted)[k] == P.StrArtifacts(lib, fields)[k] {
      SortGet(order, fields, k);
    }
  }

  lemma {:induction false} AscendingIsDistinct(fields: seq<Field>)
    requires Ascending(fields)
    ensures DistinctKeys(fields)
  {
    if fields != [] {
      AscendingHeadIsLeast(fields);
      AscendingIsDistinct(fields[1..]);
    }
  }

  /** Rust's key-ordered entries and Python's dict hold the same references. */
  lemma ArtifactsAgree(lib: Libraries, inner: seq<Field>, key: string)
    requires DistinctKeys(inner) && R.StringEntries(SortFields(ByUtf8Byte, inner)).Ok?
    ensures var entries := R.StringEntries(SortFields(ByUtf8Byte, inner)).value;
      && AsMap(entries) == P.StrArtifacts(lib, inner)
      && (R.HasRef(entries, key) ==> HasText(inner, key))
  {
    var sorted := SortFields(ByUtf8Byte, inner);
    EntriesAsMap(lib, sorted);
    SortStrArtifacts(lib, ByUtf8Byte, inner);
    EntriesLookup(sorted, key);
    SortGet(ByUtf8Byte, inner, key);
  }

  // ----- manifests -----

  predicate SameManifest(rust: R.Manifest, python: P.Manifest) {
    && rust.manifestId == python.manifestId && rust.bootReleaseSetId == python.bootReleaseSetId
    && rust.baseReleaseSetRef == python.baseReleaseSetRef && rust.bootMode == python.bootMode
    && AsMap(rust.artifacts) == python.artifacts && rust.signatureRef == python.signatureRef
    && rust.signerRef == python.signerRef && rust.signatureAlgorithm == python.signatureAlgorithm
    && rust.cryptoProfile == python.cryptoProfile && rust.signatureHex == python.signatureHex
  }

  /** Each Rust field is the document's string under its key, and the artifacts its string map. */
  predicate Reads(fields: seq<Field>, m: R.Manifest) {
    && SerdeString(fields, "manifest_id") == Ok(m.manifestId)
    && SerdeString(fields, "boot_release_set_id") == Ok(m.bootReleaseSetId)
    && SerdeString(fields, "base_release_set_ref") == Ok(m.baseReleaseSetRef)
    && SerdeString(fields, "boot_mode") == Ok(m.bootMode)
    && R.BTreeMapField(fields, "artifacts") == Ok(m.artifacts)
    && SerdeString(fields, "signature_ref") == Ok(m.signatureRef)
    && SerdeString(fields, "signer_ref") == Ok(m.signerRef)
    && SerdeString(fields, "signature_algorithm") == Ok(m.signatureAlgorithm)
    && SerdeString(fields, "crypto_profile") == Ok(m.cryptoProfile)
    && SerdeString(fields, "signature_hex") == Ok(m.signatureHex)
  }

  lemma RustReads(fields: seq<Field>, m: R.Manifest)
    ensures R.ManifestFrom(fields) == Ok(m) <==> Reads(fields, m)
  {
  }

  /** And so is each Python field. */
  lemma PythonReads(lib: Libraries, fields: seq<Field>)
    requires P.ManifestFromDict(lib, fields).Ok?
    ensures var m := P.ManifestFromDict(lib, fields).value;
      && RequireString(fields, "manifest_id") == Ok(m.manifestId)
      && RequireString(fields, "boot_release_set_id") == Ok(m.bootReleaseSetId)
      && RequireString(fields, "base_release_set_ref") == Ok(m.baseReleaseSetRef)
      && RequireString(fields, "boot_mode") == Ok(m.bootMode)
      && ObjectField(fields, "artifacts").Ok? && m.artifacts == P.StrArtifacts(lib, ObjectField(fields, "artifacts").value)
      && RequireString(fields, "signature_ref") == Ok(m.signatureRef)
      && RequireString(fields, "signer_ref") == Ok(m.signerRef)
      && RequireString(fields, "signature_algorithm") == Ok(m.signatureAlgorithm)
      && RequireString(fields, "crypto_profile") == Ok(m.cryptoProfile)
      && RequireString(fields, "signature_hex") == Ok(m.signatureHex)
  {
  }

  /** Two parses of one manifest document read the same fields. */
  lemma ManifestsAgree(lib: Libraries, fields: seq<Field>, rust: R.Manifest)
    requires Distinct(Obj(fields))
    requires Reads(fields, rust) && P.ManifestFromDict(lib, fields).Ok?
    ensures SameManifest(rust, P.ManifestFromDict(lib, fields).value)
  {
    PythonReads(lib, fields);
    var python := P.ManifestFromDict(lib, fields).value;
    ArtifactMapsAgree(lib, fields, rust.artifacts, python.artifacts);
  }

  lemma ArtifactMapsAgree(lib: Libraries, fields: seq<Field>, rust: seq<ArtifactRef>, python: map<string, string>)
    requires Distinct(Obj(fields)) && R.BTreeMapField(fields, "artifacts") == Ok(rust)
    requires ObjectField(fields, "artifacts").Ok? && python == P.StrArtifacts(lib, ObjectField(fields, "artifacts").value)
    ensures AsMap(rust) == python
  {
    ObjectFieldDistinct(fields, "artifacts");
    ArtifactsAgree(lib, ObjectField(fields, "artifacts").value, "");
  }

  /** Python finds none of the manifest's checked strings blank. */
  predicate ManifestTextUsable(m: R.Manifest) {
    && !PythonBlank(m.manifestId) && !PythonBlank(m.bootReleaseSetId) && !PythonBlank(m.baseReleaseSetRef)
    && !PythonBlank(m.signerRef) && !PythonBlank(m.signatureHex)
  }

  predicate MenuUsable(fields: seq<Field>, m: R.Manifest) {
    && P.OptionalMenu(fields).Ok?
    && P.CheckMenu(P.OptionalMenu(fields).value, m.bootReleaseSetId, m.baseReleaseSetRef, m.bootMode).Ok?
  }

  lemma KnownWordsUsable(mode: string, urn: string)
    ensures KnownMode(mode) ==> !PythonBlank(mode)
    ensures StartsWith(urn, SIGNATURE_URN) ==> !PythonBlank(urn)
    ensures !PythonBlank(RSA_PSS_SHA256) && !PythonBlank(FIPS_PROFILE)
  {
    assert KnownMode(mode) ==> mode[0] in {'i', 'r', 'e', 'b'};
    if StartsWith(urn, SIGNATURE_URN) {
      assert urn[0] == SIGNATURE_URN[0] == 'u';
    }
    assert RSA_PSS_SHA256[0] == 'r' && FIPS_PROFILE[0] == 'f';
  }

  lemma ArtifactsCarryOver(lib: Libraries, fields: seq<Field>, entries: seq<ArtifactRef>)
    requires Distinct(Obj(fields)) && R.BTreeMapField(fields, "artifacts") == Ok(entries)
    requires R.HasRef(entries, "kernel_ref") && R.HasRef(entries, "initrd_ref") && R.HasRef(entries, "rootfs_ref")
    ensures ObjectField(fields, "artifacts").Ok?
    ensures var inner := ObjectField(fields, "artifacts").value;
      HasText(inner, "kernel_ref") && HasText(inner, "initrd_ref") && HasText(inner, "rootfs_ref")
  {
    var inner := ObjectField(fields, "artifacts").value;
    ObjectFieldDistinct(fields, "artifacts");
    ArtifactsAgree(lib, inner, "kernel_ref");
    ArtifactsAgree(lib, inner, "initrd_ref");
    ArtifactsAgree(lib, inner, "rootfs_ref");
  }

  lemma ShapeFacts(m: R.Manifest, requireFips: bool)
    requires R.ValidateManifestShape(m, requireFips).Ok?
    ensures KnownMode(m.bootMode) && StartsWith(m.signatureRef, SIGNATURE_URN)
    ensures R.HasRef(m.artifacts, "kernel_ref") && R.HasRef(m.artifacts, "initrd_ref") && R.HasRef(m.artifacts, "rootfs_ref")
    ensures requireFips ==> m.signatureAlgorithm == RSA_PSS_SHA256 && m.cryptoProfile == FIPS_PROFILE
  {
  }

  /** Python's own string checks on what Rust read. */
  lemma ParsedIff(lib: Libraries, fields: seq<Field>, m: R.Manifest)
    requires Reads(fields, m) && KnownMode(m.bootMode) && StartsWith(m.signatureRef, SIGNATURE_URN)
    requires !PythonBlank(m.bootMode) && !PythonBlank(m.signatureRef) && !PythonBlank(RSA_PSS_SHA256) && !PythonBlank(FIPS_PROFILE)
    requires ObjectField(fields, "artifacts").Ok?
    requires var inner := ObjectField(fields, "artifacts").value;
      HasText(inner, "kernel_ref") && HasText(inner, "initrd_ref") && HasText(inner, "rootfs_ref")
    ensures P.ManifestFromDict(lib, fields).Ok? <==>
      && ManifestTextUsable(m) && m.signatureAlgorithm == RSA_PSS_SHA256 && m.cryptoProfile == FIPS_PROFILE
      && MenuUsable(fields, m)
  {
    if P.ManifestFromDict(lib, fields).Ok? {
      PythonReads(lib, fields);
    }
  }

  /** What Python asks of a manifest beyond what Rust has already established. */
  lemma ManifestAcceptedIff(lib: Libraries, fields: seq<Field>, m: R.Manifest, requireFips: bool)
    requires Distinct(Obj(fields)) && Reads(fields, m) && R.ValidateManifestShape(m, requireFips).Ok?
    ensures P.ManifestFromDict(lib, fields).Ok? <==>
      && ManifestTextUsable(m) && m.signatureAlgorithm == RSA_PSS_SHA256 && m.cryptoProfile == FIPS_PROFILE
      && MenuUsable(fields, m)
  {
    ShapeFacts(m, requireFips);
    KnownWordsUsable(m.bootMode, m.signatureRef);
    ArtifactsCarryOver(lib, fields, m.artifacts);
    ParsedIff(lib, fields, m);
  }

  // ----- tokens -----

  predicate TokenTextUsable(fields: seq<Field>) {
    && RequireString(fields, "token_id").Ok?
    && ObjectField(fields, "audience").Ok? && RequireString(ObjectField(fields, "audience").value, "subject_kind").Ok?
    && RequireString(fields, "issued_at").Ok? && RequireString(fields, "expires_at").Ok?
  }

  /** Each Rust token field is what the document holds under its key. */
  predicate ReadsToken(lib: Libraries, fields: seq<Field>, t: R.Token) {
    && SerdeString(fields, "token_id") == Ok(t.tokenId) && SerdeString(fields, "purpose") == Ok(t.purpose)
    && ObjectField(fields, "audience").Ok?
    && SerdeString(ObjectField(fields, "audience").value, "subject_kind") == Ok(t.subjectKind)
    && SerdeOptionalString(ObjectField(fields, "audience").value, "subject_id") == Ok(t.subjectId)
    && SerdeOptionalString(fields, "release_set_ref") == Ok(t.releaseSetRef)
    && SerdeOptionalString(fields, "boot_release_set_ref") == Ok(t.bootReleaseSetRef)
    && BoolField(fields, "one_time_use") == Ok(t.oneTimeUse)
    && R.SerdeTime(lib, fields, "issued_at") == Ok(t.issuedAt) && R.SerdeTime(lib, fields, "expires_at") == Ok(t.expiresAt)
    && SerdeString(fields, "status") == Ok(t.status)
  }

  lemma RustReadsToken(lib: Libraries, fields: seq<Field>, t: R.Token)
    ensures R.TokenFrom(lib, fields) == Ok(t) <==> ReadsToken(lib, fields, t)
  {
  }

  /** A token Rust accepts is one Python parses exactly when its text is not blank to Python, and then accepts. */
  lemma TokenAcceptedIff(lib: Libraries, fields: seq<Field>, t: R.Token, rust: R.Manifest, now: int)
    requires ReadsToken(lib, fields, t) && R.ValidateToken(t, rust, now).Ok?
    ensures P.TokenFromDict(lib, fields).Ok? <==> TokenTextUsable(fields)
    ensures P.TokenFromDict(lib, fields).Ok? ==>
      var python := P.TokenFromDict(lib, fields).value;
      && python.tokenId == t.tokenId && python.purpose == t.purpose && python.status == t.status
      && python.subjectKind == t.subjectKind && python.subjectId == t.subjectId && python.issuedAt == t.issuedAt
      && python.oneTimeUse == t.oneTimeUse && python.expiresAt == t.expiresAt
      && python.releaseSetRef == Str(rust.baseReleaseSetRef) && python.bootReleaseSetRef == Str(rust.bootReleaseSetId)
  {
    P.TokenWordsUsable(t.purpose);
  }

  /** Rust's token checks include all of Python's. */
  lemma TokenAccepted(lib: Libraries, fields: seq<Field>, t: R.Token, rust: R.Manifest, python: P.Manifest, now: int)
    requires ReadsToken(lib, fields, t) && R.ValidateToken(t, rust, now).Ok?
    requires P.TokenFromDict(lib, fields).Ok? && SameManifest(rust, python)
    ensures P.ValidateToken(P.TokenFromDict(lib, fields).value, python, now).Ok?
    ensures P.TokenFromDict(lib, fields).value.tokenId == t.tokenId
  {
    TokenAcceptedIff(lib, fields, t, rust, now);
  }

  // ----- keys and signatures -----

  /** If Rust found the signer and Python loads the document, the signer is in Python's table. */
  lemma SignerIsLoaded(lib: Libraries, keys: seq<Field>, signerRef: string, now: int)
    requires RustKeyDocument(lib, keys).Ok? && TrustedKeyFor(RustKeyDocument(lib, keys).value, signerRef, now).Ok?
    requires LoadTrustedKeys(lib, keys, now).Ok?
    ensures var table := LoadTrustedKeys(lib, keys, now).value;
      signerRef in table && table[signerRef].algorithm == RSA_PSS_SHA256
  {
    var entries := KeyEntries(keys).value;
    KeyTableCorrect(lib, keys, now, signerRef);
    KeysOfEntries(lib, entries, now);
    var i := MatchIsListed(RustKeyDocument(lib, keys).value, signerRef, now);
    LastExists(lib, entries, i, signerRef);
  }

  lemma {:induction false} LastExists(lib: Libraries, entries: seq<Value>, i: nat, keyRef: string)
    requires i < |entries| && KeyFromDict(lib, entries[i]).Ok? && KeyFromDict(lib, entries[i]).value.keyRef == keyRef
    ensures exists k | 0 <= k < |entries| :: LastFor(lib, entries, k, keyRef)
    decreases |entries| - i
  {
    if j :| i < j < |entries| && KeyFromDict(lib, entries[j]).Ok? && KeyFromDict(lib, entries[j]).value.keyRef == keyRef {
      LastExists(lib, entries, j, keyRef);
    } else {
      assert LastFor(lib, entries, i, keyRef);
    }
  }

  // ----- the whole decision -----

  /** Python loads the key document, and the last key listed for the signer is large enough and verifies the signature. */
  predicate KeysUsable(lib: Libraries, manifest: seq<Field>, keys: seq<Field>, m: R.Manifest, now: int) {
    && LoadTrustedKeys(lib, keys, now).Ok?
    && m.signerRef in LoadTrustedKeys(lib, keys, now).value
    && lib.strongKey(LoadTrustedKeys(lib, keys, now).value[m.signerRef].publicKeyPem)
    && lib.pythonVerify(PythonPayload(manifest, {"signature_hex"}), m.signatureHex,
                        LoadTrustedKeys(lib, keys, now).value[m.signerRef].publicKeyPem)
  }

  /** Python's verification, once the two parsers agree on what the manifest says about its signature. */
  lemma VerifiedWhen(lib: Libraries, manifest: seq<Field>, keys: seq<Field>, requireFips: bool, now: int, m: R.Manifest)
    requires Reads(manifest, m)
    requires requireFips ==> m.signatureAlgorithm == RSA_PSS_SHA256 && m.cryptoProfile == FIPS_PROFILE
    requires LoadTrustedKeys(lib, keys, now).Ok? ==>
      var table := LoadTrustedKeys(lib, keys, now).value;
      m.signerRef in table && table[m.signerRef].algorithm == m.signatureAlgorithm
    ensures P.VerifyManifestDocument(lib, manifest, keys, requireFips, now).Ok? <==> KeysUsable(lib, manifest, keys, m, now)
  {
  }

  lemma VerifiedIff(lib: Libraries, manifest: seq<Field>, keys: seq<Field>, m: R.Manifest, requireFips: bool, now: int)
    requires Reads(manifest, m) && RustKeyDocument(lib, keys).Ok?
    requires R.ValidateManifest(lib, m, Obj(manifest), requireFips, RustKeyDocument(lib, keys).value, now).Ok?
    ensures P.VerifyManifestDocument(lib, manifest, keys, requireFips, now).Ok? <==> KeysUsable(lib, manifest, keys, m, now)
    ensures m.signatureAlgorithm == RSA_PSS_SHA256
  {
    var ks := RustKeyDocument(lib, keys).value;
    R.ManifestValidated(lib, m, Obj(manifest), requireFips, ks, now);
    ShapeFacts(m, requireFips);
    var i := MatchIsListed(ks, m.signerRef, now);
    if LoadTrustedKeys(lib, keys, now).Ok? {
      SignerIsLoaded(lib, keys, m.signerRef, now);
    }
    VerifiedWhen(lib, manifest, keys, requireFips, now, m);
  }

  /** Everything the Rust planner has established when it accepts, and the plan it returns. */
  lemma RustPlanParts(lib: Libraries, manifest: seq<Field>, keys: seq<Field>, token: seq<Field>, requireFips: bool, now: int)
    returns (m: R.Manifest, t: R.Token)
    requires R.Plan(lib, manifest, keys, token, requireFips, now).Ok?
    ensures R.ManifestFrom(manifest) == Ok(m) && R.TokenFrom(lib, token) == Ok(t) && RustKeyDocument(lib, keys).Ok?
    ensures Reads(manifest, m) && ReadsToken(lib, token, t)
    ensures R.ValidateManifest(lib, m, Obj(manifest), requireFips, RustKeyDocument(lib, keys).value, now).Ok?
    ensures R.ValidateManifestShape(m, requireFips).Ok? && R.ValidateToken(t, m, now).Ok?
    ensures R.Plan(lib, manifest, keys, token, requireFips, now).value == R.BuildPlan(m, t)
  {
    m, t := R.PlanStages(lib, manifest, keys, token, requireFips, now);
    R.ManifestValidated(lib, m, Obj(manifest), requireFips, RustKeyDocument(lib, keys).value, now);
    RustReads(manifest, m);
    RustReadsToken(lib, token, t);
  }

  /** The Python decision once its four stages are known. */
  lemma PythonPlanParts(lib: Libraries, manifest: seq<Field>, keys: seq<Field>, token: seq<Field>, requireFips: bool, now: int)
    ensures P.Plan(lib, manifest, keys, token, requireFips, now).Ok? <==>
      && P.VerifyManifestDocument(lib, manifest, keys, requireFips, now).Ok?
      && P.ManifestFromDict(lib, manifest).Ok? && P.TokenFromDict(lib, token).Ok?
      && P.ValidateToken(P.TokenFromDict(lib, token).value, P.ManifestFromDict(lib, manifest).value, now).Ok?
    ensures P.Plan(lib, manifest, keys, token, requireFips, now).Ok? ==>
      exists selected :: P.Plan(lib, manifest, keys, token, requireFips, now).value
        == P.PlanFor(P.ManifestFromDict(lib, manifest).value, P.TokenFromDict(lib, token).value, selected)
  {
    if P.ManifestFromDict(lib, manifest).Ok? && P.TokenFromDict(lib, token).Ok? {
      P.PlanFailsOnlyOnToken(lib, manifest, P.TokenFromDict(lib, token).value, now);
    }
  }

  /**
   The complete list of what Python can still refuse in documents the Rust planner accepts:
   another key entry, or a later entry for the signer; a key below 2048 bits, or one whose
   signature its own library or its own payload bytes do not verify; a profile Rust only checks on request;
   text that is blank to Python alone; and the boot menu.
   */
  lemma PythonAcceptsIff(lib: Libraries, manifest: seq<Field>, keys: seq<Field>, token: seq<Field>, requireFips: bool, now: int)
    requires Distinct(Obj(manifest)) && R.Plan(lib, manifest, keys, token, requireFips, now).Ok?
    ensures R.ManifestFrom(manifest).Ok?
    ensures var m := R.ManifestFrom(manifest).value;
      P.Plan(lib, manifest, keys, token, requireFips, now).Ok? <==>
        && KeysUsable(lib, manifest, keys, m, now)
        && m.cryptoProfile == FIPS_PROFILE
        && ManifestTextUsable(m) && TokenTextUsable(token)
        && MenuUsable(manifest, m)
  {
    var m, t := RustPlanParts(lib, manifest, keys, token, requireFips, now);
    VerifiedIff(lib, manifest, keys, m, requireFips, now);
    ManifestAcceptedIff(lib, manifest, m, requireFips);
    TokenAcceptedIff(lib, token, t, m, now);
    PythonPlanParts(lib, manifest, keys, token, requireFips, now);
    if P.ManifestFromDict(lib, manifest).Ok? && P.TokenFromDict(lib, token).Ok? {
      ManifestsAgree(lib, manifest, m);
      TokenAccepted(lib, token, t, m, P.ManifestFromDict(lib, manifest).value, now);
    }
  }

  lemma ModeTablesAgree(mode: string)
    requires KnownMode(mode)
    ensures R.ActionFor(mode) == P.ActionFor(mode) && R.OperationsFor(mode) == P.OperationsFor(mode)
    ensures R.ProofsFor(mode) == P.ProofsFor(mode) && R.FallbackFor(mode) == P.FallbackFor(mode)
  {
  }

  lemma SameInputsSamePlan(m: R.Manifest, t: R.Token, python: P.Manifest, token: P.Token, selected: Option<string>)
    requires SameManifest(m, python) && t.tokenId == token.tokenId && KnownMode(m.bootMode)
    ensures SameSharedFields(R.BuildPlan(m, t), P.PlanFor(python, token, selected).core)
  {
    ModeTablesAgree(m.bootMode);
  }

  /** Whenever both planners accept the same documents, the plans agree on all thirteen shared fields. */
  lemma AcceptedPlansAgree(lib: Libraries, manifest: seq<Field>, keys: seq<Field>, token: seq<Field>, requireFips: bool, now: int)
    requires Distinct(Obj(manifest))
    requires R.Plan(lib, manifest, keys, token, requireFips, now).Ok?
    requires P.Plan(lib, manifest, keys, token, requireFips, now).Ok?
    ensures SameSharedFields(R.Plan(lib, manifest, keys, token, requireFips, now).value,
                             P.Plan(lib, manifest, keys, token, requireFips, now).value.core)
  {
    var m, t := RustPlanParts(lib, manifest, keys, token, requireFips, now);
    PythonPlanParts(lib, manifest, keys, token, requireFips, now);
    var python, pythonToken := P.ManifestFromDict(lib, manifest).value, P.TokenFromDict(lib, token).value;
    var selected :| P.Plan(lib, manifest, keys, token, requireFips, now).value == P.PlanFor(python, pythonToken, selected);
    ManifestsAgree(lib, manifest, m);
    TokenAccepted(lib, token, t, m, python, now);
    ShapeFacts(m, requireFips);
    SameInputsSamePlan(m, t, python, pythonToken, selected);
  }

  /** No string a planner tests for blankness holds U+001C..U+001F. */
  predicate TextWithoutSeparators(m: R.Manifest, t: R.Token) {
    && NoSeparators(m.manifestId) && NoSeparators(m.bootReleaseSetId) && NoSeparators(m.baseReleaseSetRef)
    && NoSeparators(m.signerRef) && NoSeparators(m.signatureHex) && NoSeparators(t.tokenId) && NoSeparators(t.subjectKind)
  }

  /** The clock-text library never reads an instant out of blank text. */
  ghost predicate TimesHaveText(lib: Libraries) {
    forall text :: lib.parseTime(text).Some? ==> !PythonBlank(text)
  }

  /** A signature that verifies in Rust verifies in Python, if the key is large enough for Python. */
  ghost predicate SignaturesCarryOver(lib: Libraries) {
    forall payload, signatureHex, pem ::
      lib.rustVerify(payload, signatureHex, pem) && lib.strongKey(pem) ==> lib.pythonVerify(payload, signatureHex, pem)
  }

  /** The key by which Rust verified the manifest. */
  function SignerKey(lib: Libraries, keys: seq<Field>, m: R.Manifest, now: int): TrustedKey
    requires RustKeyDocument(lib, keys).Ok? && TrustedKeyFor(RustKeyDocument(lib, keys).value, m.signerRef, now).Ok?
  {
    TrustedKeyFor(RustKeyDocument(lib, keys).value, m.signerRef, now).value
  }

  /** With distinct references Python picks Rust's key, and in the shared domain checks Rust's bytes: only the key's size is left. */
  lemma SharedKeysUsable(lib: Libraries, manifest: seq<Field>, keys: seq<Field>, m: R.Manifest, requireFips: bool, now: int)
    requires IntsInRange(Obj(manifest)) && AsciiOnly(Obj(Without(manifest, {"signature_hex"})))
    requires LoadTrustedKeys(lib, keys, now).Ok? && RustKeyDocument(lib, keys).Ok? && DistinctRefs(RustKeyDocument(lib, keys).value)
    requires R.ValidateManifest(lib, m, Obj(manifest), requireFips, RustKeyDocument(lib, keys).value, now).Ok?
    requires SignaturesCarryOver(lib)
    ensures TrustedKeyFor(RustKeyDocument(lib, keys).value, m.signerRef, now).Ok?
    ensures KeysUsable(lib, manifest, keys, m, now) <==> lib.strongKey(SignerKey(lib, keys, m, now).publicKeyPem)
  {
    R.ManifestValidated(lib, m, Obj(manifest), requireFips, RustKeyDocument(lib, keys).value, now);
    SignerIsLoaded(lib, keys, m.signerRef, now);
    LookupsAgree(lib, keys, now, m.signerRef);
    PayloadsAgreeExactly(manifest);
  }

  /** Text that Rust accepts and that holds no separators is text Python accepts. */
  lemma SharedTextUsable(lib: Libraries, m: R.Manifest, t: R.Token, token: seq<Field>, now: int)
    requires R.ValidateManifestShape(m, true).Ok?
    requires ReadsToken(lib, token, t) && R.ValidateToken(t, m, now).Ok?
    requires TextWithoutSeparators(m, t) && TimesHaveText(lib)
    ensures ManifestTextUsable(m) && TokenTextUsable(token)
  {
    BlankTestsCompared(m.manifestId);
    BlankTestsCompared(m.bootReleaseSetId);
    BlankTestsCompared(m.baseReleaseSetRef);
    BlankTestsCompared(m.signerRef);
    BlankTestsCompared(m.signatureHex);
    BlankTestsCompared(t.tokenId);
    BlankTestsCompared(t.subjectKind);
  }

  /** The hypotheses of the refinement meet every condition under which Python accepts, but for the size of the signer's key. */
  lemma PythonAccepts(lib: Libraries, manifest: seq<Field>, keys: seq<Field>, token: seq<Field>, m: R.Manifest, t: R.Token, now: int)
    requires Distinct(Obj(manifest)) && IntsInRange(Obj(manifest)) && AsciiOnly(Obj(Without(manifest, {"signature_hex"})))
    requires R.Plan(lib, manifest, keys, token, true, now).Ok?
    requires R.ManifestFrom(manifest) == Ok(m) && ReadsToken(lib, token, t)
    requires RustKeyDocument(lib, keys).Ok? && R.ValidateManifest(lib, m, Obj(manifest), true, RustKeyDocument(lib, keys).value, now).Ok?
    requires R.ValidateManifestShape(m, true).Ok? && R.ValidateToken(t, m, now).Ok?
    requires Absent(manifest, "boot_menu")
    requires LoadTrustedKeys(lib, keys, now).Ok? && DistinctRefs(RustKeyDocument(lib, keys).value)
    requires TextWithoutSeparators(m, t) && TimesHaveText(lib) && SignaturesCarryOver(lib)
    ensures TrustedKeyFor(RustKeyDocument(lib, keys).value, m.signerRef, now).Ok?
    ensures P.Plan(lib, manifest, keys, token, true, now).Ok? <==> lib.strongKey(SignerKey(lib, keys, m, now).publicKeyPem)
  {
    ShapeFacts(m, true);
    SharedKeysUsable(lib, manifest, keys, m, true, now);
    SharedTextUsable(lib, m, t, token, now);
    PythonAcceptsIff(lib, manifest, keys, token, true, now);
  }

  /**
   Rust refines Python: with require-fips, no boot menu, distinct key references, every key entry
   acceptable to Python, documents in the shared text domain, and signatures that verify in both
   languages, what the Rust planner accepts the Python planner accepts with the same plan, exactly
   when the signer's key has the 2048 bits that only Python asks for.
   */
  lemma RustRefinesPython(lib: Libraries, manifest: seq<Field>, keys: seq<Field>, token: seq<Field>, now: int)
    requires Distinct(Obj(manifest)) && IntsInRange(Obj(manifest)) && AsciiOnly(Obj(Without(manifest, {"signature_hex"})))
    requires R.Plan(lib, manifest, keys, token, true, now).Ok?
    requires Absent(manifest, "boot_menu")
    requires LoadTrustedKeys(lib, keys, now).Ok? && DistinctRefs(RustKeyDocument(lib, keys).value)
    requires TextWithoutSeparators(R.ManifestFrom(manifest).value, R.TokenFrom(lib, token).value) && TimesHaveText(lib)
    requires SignaturesCarryOver(lib)
    ensures R.ManifestFrom(manifest).Ok? && RustKeyDocument(lib, keys).Ok?
    ensures TrustedKeyFor(RustKeyDocument(lib, keys).value, R.ManifestFrom(manifest).value.signerRef, now).Ok?
    ensures P.Plan(lib, manifest, keys, token, true, now).Ok?
       <==> lib.strongKey(SignerKey(lib, keys, R.ManifestFrom(manifest).value, now).publicKeyPem)
    ensures P.Plan(lib, manifest, keys, token, true, now).Ok? ==>
      SameSharedFields(R.Plan(lib, manifest, keys, token, true, now).value,
                       P.Plan(lib, manifest, keys, token, true, now).value.core)
  {
    var m, t := RustPlanParts(lib, manifest, keys, token, true, now);
    PythonAccepts(lib, manifest, keys, token, m, t, now);
    if P.Plan(lib, manifest, keys, token, true, now).Ok? {
      AcceptedPlansAgree(lib, manifest, keys, token, true, now);
    }
  }
}
