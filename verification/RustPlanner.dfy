/** The Rust planner: serde deserialisation, validation and plan construction. */
module RustPlanner {
  import opened Results
  import opened Text
  import opened Json
  import opened KeySort
  import opened Canonical
  import opened Documents
  import opened Device
  import opened TrustedKeys
  import opened Plans

  datatype Manifest = Manifest(
    manifestId: string,
    bootReleaseSetId: string,
    baseReleaseSetRef: string,
    bootMode: string,
    artifacts: seq<ArtifactRef>,
    signatureRef: string,
    signerRef: string,
    signatureAlgorithm: string,
    cryptoProfile: string,
    signatureHex: string)

  /** Every value must be a string. */
  function StringEntries(fields: seq<Field>): Result<seq<ArtifactRef>> {
    if fields == [] then Ok([])
    else
      var _ :- Check(fields[0].value.Str?, NotAString(fields[0].key));
      var rest :- StringEntries(fields[1..]);
      Ok([ArtifactRef(fields[0].key, fields[0].value.s)] + rest)
  }

  /** A serde `BTreeMap<String, String>`: the entries in key order. */
  function BTreeMapField(fields: seq<Field>, key: string): Result<seq<ArtifactRef>> {
    var inner :- ObjectField(fields, key);
    StringEntries(SortFields(ByUtf8Byte, inner))
  }

  function ManifestFrom(fields: seq<Field>): Result<Manifest> {
    var manifestId :- SerdeString(fields, "manifest_id");
    var bootReleaseSetId :- SerdeString(fields, "boot_release_set_id");
    var baseReleaseSetRef :- SerdeString(fields, "base_release_set_ref");
    var bootMode :- SerdeString(fields, "boot_mode");
    var artifacts :- BTreeMapField(fields, "artifacts");
    var signatureRef :- SerdeString(fields, "signature_ref");
    var signerRef :- SerdeString(fields, "signer_ref");
    var algorithm :- SerdeString(fields, "signature_algorithm");
    var profile :- SerdeString(fields, "crypto_profile");
    var signatureHex :- SerdeString(fields, "signature_hex");
    Ok(Manifest(manifestId, bootReleaseSetId, baseReleaseSetRef, bootMode, artifacts, signatureRef, signerRef,
                algorithm, profile, signatureHex))
  }

  predicate HasRef(artifacts: seq<ArtifactRef>, key: string) {
    Lookup(artifacts, key).Some? && !RustBlank(Lookup(artifacts, key).value)
  }

  function ValidateManifestShape(m: Manifest, requireFips: bool): Result<()> {
    var _ :- Check(!RustBlank(m.manifestId), NotAString("manifest_id"));
    var _ :- Check(!RustBlank(m.bootReleaseSetId), NotAString("boot_release_set_id"));
    var _ :- Check(!RustBlank(m.baseReleaseSetRef), NotAString("base_release_set_ref"));
    var _ :- Check(KnownMode(m.bootMode), UnsupportedMode);
    var _ :- Check(HasRef(m.artifacts, "kernel_ref") && HasRef(m.artifacts, "initrd_ref") && HasRef(m.artifacts, "rootfs_ref"),
             MissingArtifacts);
    var _ :- Check(StartsWith(m.signatureRef, SIGNATURE_URN), NotASignatureUrn);
    var _ :- Check(requireFips ==> m.signatureAlgorithm == RSA_PSS_SHA256 && m.cryptoProfile == FIPS_PROFILE, FipsRequired);
    var _ :- Check(!RustBlank(m.signerRef) && !RustBlank(m.signatureHex), NotAString("signer_ref"));
    Ok(())
  }

  function ValidateManifest(lib: Libraries, m: Manifest, document: Value, requireFips: bool, keys: seq<TrustedKey>, now: int): Result<()> {
    var _ :- ValidateManifestShape(m, requireFips);
    var key :- TrustedKeyFor(keys, m.signerRef, now);
    var _ :- Check(key.algorithm == m.signatureAlgorithm, AlgorithmMismatch);
    var payload :- RustPayload(document);
    var _ :- Check(lib.rustVerify(payload, m.signatureHex, key.publicKeyPem), BadSignature);
    Ok(())
  }

  datatype Token = Token(
    tokenId: string,
    purpose: string,
    subjectKind: string,
    subjectId: Option<string>,
    releaseSetRef: Option<string>,
    bootReleaseSetRef: Option<string>,
    oneTimeUse: bool,
    issuedAt: int,
    expiresAt: int,
    status: string)

  function SerdeTime(lib: Libraries, fields: seq<Field>, key: string): Result<int> {
    var text :- SerdeString(fields, key);
    ParseTime(lib.parseTime, text, key)
  }

  function TokenFrom(lib: Libraries, fields: seq<Field>): Result<Token> {
    var tokenId :- SerdeString(fields, "token_id");
    var purpose :- SerdeString(fields, "purpose");
    var audience :- ObjectField(fields, "audience");
    var subjectKind :- SerdeString(audience, "subject_kind");
    var subjectId :- SerdeOptionalString(audience, "subject_id");
    var releaseSetRef :- SerdeOptionalString(fields, "release_set_ref");
    var bootReleaseSetRef :- SerdeOptionalString(fields, "boot_release_set_ref");
    var oneTimeUse :- BoolField(fields, "one_time_use");
    var issuedAt :- SerdeTime(lib, fields, "issued_at");
    var expiresAt :- SerdeTime(lib, fields, "expires_at");
    var status :- SerdeString(fields, "status");
    Ok(Token(tokenId, purpose, subjectKind, subjectId, releaseSetRef, bootReleaseSetRef, oneTimeUse, issuedAt, expiresAt, status))
  }

  predicate PurposeFits(mode: string, purpose: string) {
    if mode == "recovery" then purpose == "recovery" || purpose == "repair"
    else if mode == "installer" then purpose == "enroll" || purpose == "boot"
    else if mode == "ephemeral" then purpose == "boot"
    else if mode == "bootstrap" then purpose == "enroll" || purpose == "boot"
    else false
  }

  function ValidateToken(token: Token, m: Manifest, now: int): Result<()> {
    var _ :- Check(!RustBlank(token.tokenId), NotAString("token_id"));
    var _ :- Check(KnownPurpose(token.purpose), UnsupportedPurpose);
    var _ :- Check(token.status == "issued", TokenNotIssued);
    var _ :- Check(now < token.expiresAt, TokenExpired);
    var _ :- Check(token.issuedAt < token.expiresAt, TokenTimesInverted);
    var _ :- Check(token.oneTimeUse, NotOneTime);
    var _ :- Check(token.bootReleaseSetRef == Some(m.bootReleaseSetId), BootReleaseMismatch);
    var _ :- Check(token.releaseSetRef == Some(m.baseReleaseSetRef), ReleaseSetMismatch);
    var _ :- Check(PurposeFits(m.bootMode, token.purpose), PurposeNotValidForMode);
    var _ :- Check(!RustBlank(token.subjectKind), NotAString("subject_kind"));
    var _ :- Check(token.subjectId.None? || !RustBlank(token.subjectId.value), NotAString("subject_id"));
    Ok(())
  }

  function ActionFor(mode: string): Action {
    if mode == "recovery" then BootRecovery
    else if mode == "installer" then BootInstaller
    else if mode == "ephemeral" then BootEphemeral
    else if mode == "bootstrap" then BootstrapOnly
    else PresentMenu
  }

  function OperationsFor(mode: string): seq<Operation> {
    if mode == "recovery" then [ShowMenu, VerifyArtifacts, Operation.PlanRecovery, PlanRollback]
    else if mode == "installer" then [ShowMenu, VerifyArtifacts, PlanInstall]
    else if mode == "ephemeral" then [ShowMenu, VerifyArtifacts, PlanEphemeralBoot]
    else if mode == "bootstrap" then [ShowMenu, VerifyArtifacts, PlanBootstrap]
    else [ShowMenu]
  }

  function ProofsFor(mode: string): seq<Proof> {
    var common := [VerifiedManifestSignature, ValidatedOneTimeToken, ArtifactRefManifest, BootPlanRecord];
    if mode == "recovery" || mode == "installer" then common + [DeviceClaimRecord, PostActionFingerprint]
    else common + [SessionFingerprint]
  }

  function FallbackFor(mode: string): Fallback {
    var enabled := mode == "recovery" || mode == "ephemeral";
    Fallback(enabled, if enabled then LastKnownGoodSignedBootReleaseSet else NoFallback, true, false)
  }

  function BuildPlan(m: Manifest, token: Token): RustPlan {
    BootPlan(ActionFor(m.bootMode), m.manifestId, m.bootReleaseSetId, m.baseReleaseSetRef, m.artifacts, token.tokenId,
             m.signatureAlgorithm, m.cryptoProfile, PolicyRef(m.bootMode), OperationsFor(m.bootMode),
             ProofsFor(m.bootMode), FallbackFor(m.bootMode), false)
  }

  /** The `plan` command on parsed documents. */
  function Plan(lib: Libraries, manifest: seq<Field>, keys: seq<Field>, token: seq<Field>, requireFips: bool, now: int): Result<RustPlan> {
    var m :- ManifestFrom(manifest);
    var t :- TokenFrom(lib, token);
    var ks :- RustKeyDocument(lib, keys);
    var _ :- ValidateManifest(lib, m, Obj(manifest), requireFips, ks, now);
    var _ :- ValidateToken(t, m, now);
    Ok(BuildPlan(m, t))
  }

  /** What an accepted manifest has passed. */
  lemma ManifestValidated(lib: Libraries, m: Manifest, document: Value, requireFips: bool, keys: seq<TrustedKey>, now: int)
    requires ValidateManifest(lib, m, document, requireFips, keys, now).Ok?
    ensures ValidateManifestShape(m, requireFips).Ok?
    ensures TrustedKeyFor(keys, m.signerRef, now).Ok? && TrustedKeyFor(keys, m.signerRef, now).value.algorithm == m.signatureAlgorithm
    ensures RustPayload(document).Ok?
    ensures lib.rustVerify(RustPayload(document).value, m.signatureHex, TrustedKeyFor(keys, m.signerRef, now).value.publicKeyPem)
  {
  }

  // ----- what the parsers read and the checks ask -----

  /** A string map is read exactly when all its values are strings; it then holds each of them under its own key. */
  lemma {:induction false} StringEntriesIff(fields: seq<Field>, entries: seq<ArtifactRef>)
    ensures StringEntries(fields) == Ok(entries) <==>
      |entries| == |fields| && forall i | 0 <= i < |fields| :: fields[i] == Field(entries[i].key, Str(entries[i].ref))
  {
    if fields != [] {
      if entries != [] {
        StringEntriesIff(fields[1..], entries[1..]);
        assert [entries[0]] + entries[1..] == entries;
        assert forall i | 1 <= i < |fields| :: fields[i] == fields[1..][i - 1];
        assert |entries| == |fields| ==> forall i | 1 <= i < |entries| :: entries[i] == entries[1..][i - 1];
      }
      if StringEntries(fields) == Ok(entries) {
        assert entries[0] == ArtifactRef(fields[0].key, fields[0].value.s) && entries[1..] == StringEntries(fields[1..]).value;
      }
    }
  }

  lemma BTreeMapReadsIff(fields: seq<Field>, key: string, entries: seq<ArtifactRef>)
    ensures BTreeMapField(fields, key) == Ok(entries) <==>
      && ObjectField(fields, key).Ok?
      && var sorted := SortFields(ByUtf8Byte, ObjectField(fields, key).value);
      |entries| == |sorted| && forall i | 0 <= i < |sorted| :: sorted[i] == Field(entries[i].key, Str(entries[i].ref))
  {
    if ObjectField(fields, key).Ok? {
      StringEntriesIff(SortFields(ByUtf8Byte, ObjectField(fields, key).value), entries);
    }
  }

  lemma HasRefIff(artifacts: seq<ArtifactRef>, key: string)
    ensures HasRef(artifacts, key) <==> exists ref :: Lookup(artifacts, key) == Some(ref) && !RustBlank(ref)
  {
  }

  /** What the shape check asks, in full. */
  lemma ShapeValidIff(m: Manifest, requireFips: bool)
    ensures ValidateManifestShape(m, requireFips).Ok? <==>
      && !RustBlank(m.manifestId) && !RustBlank(m.bootReleaseSetId) && !RustBlank(m.baseReleaseSetRef)
      && !RustBlank(m.signerRef) && !RustBlank(m.signatureHex) && KnownMode(m.bootMode)
      && HasRef(m.artifacts, "kernel_ref") && HasRef(m.artifacts, "initrd_ref") && HasRef(m.artifacts, "rootfs_ref")
      && StartsWith(m.signatureRef, "urn:srcos:signature:")
      && (requireFips ==> m.signatureAlgorithm == "rsa-pss-sha256" && m.cryptoProfile == "fips-140-3-compatible")
  {
  }

  lemma ManifestValidIff(lib: Libraries, m: Manifest, document: Value, requireFips: bool, keys: seq<TrustedKey>, now: int)
    ensures ValidateManifest(lib, m, document, requireFips, keys, now).Ok? <==>
      && ValidateManifestShape(m, requireFips).Ok? && document.Obj?
      && TrustedKeyFor(keys, m.signerRef, now).Ok?
      && var key := TrustedKeyFor(keys, m.signerRef, now).value;
      key.algorithm == m.signatureAlgorithm && lib.rustVerify(RustPayload(document).value, m.signatureHex, key.publicKeyPem)
  {
  }

  lemma TokenValidIff(t: Token, m: Manifest, now: int)
    ensures ValidateToken(t, m, now).Ok? <==>
      && !RustBlank(t.tokenId) && !RustBlank(t.subjectKind) && (t.subjectId.Some? ==> !RustBlank(t.subjectId.value))
      && KnownPurpose(t.purpose) && t.status == "issued" && t.issuedAt < t.expiresAt && now < t.expiresAt && t.oneTimeUse
      && t.bootReleaseSetRef == Some(m.bootReleaseSetId) && t.releaseSetRef == Some(m.baseReleaseSetRef)
      && PurposeFits(m.bootMode, t.purpose)
  {
  }

  lemma TimeReadsIff(lib: Libraries, fields: seq<Field>, key: string, t: int)
    ensures SerdeTime(lib, fields, key) == Ok(t) <==>
      SerdeString(fields, key).Ok? && lib.parseTime(SerdeString(fields, key).value) == Some(t)
  {
  }

  lemma PurposesFitting(mode: string, purpose: string)
    ensures PurposeFits(mode, purpose) <==> (mode, purpose) in {
      ("recovery", "recovery"), ("recovery", "repair"), ("installer", "enroll"), ("installer", "boot"), ("ephemeral", "boot"),
      ("bootstrap", "enroll"), ("bootstrap", "boot")}
  {
  }

  /** Every field of a plan is the manifest's or the token's own, or decided by the boot mode alone. */
  lemma PlanSays(m: Manifest, t: Token)
    ensures var p := BuildPlan(m, t);
      && p.manifestId == m.manifestId && p.bootReleaseSetId == m.bootReleaseSetId && p.releaseSetRef == m.baseReleaseSetRef
      && p.artifacts == m.artifacts && p.authorizedBy == t.tokenId && p.signatureAlgorithm == m.signatureAlgorithm
      && p.cryptoProfile == m.cryptoProfile && !p.execute
      && p.policyRef == "policy://sourceos/nlboot/" + m.bootMode + "/safe-plan-v1"
      && (KnownMode(m.bootMode) ==>
            ModePlanFor(m.bootMode) == Some(ModePlan(p.action, p.allowedOperations, p.proofRequirements, p.offlineFallback)))
  {
  }

  /** The whole Rust decision: it accepts exactly when the three documents read, and manifest and token are valid. */
  lemma PlanAcceptedIff(lib: Libraries, manifest: seq<Field>, keys: seq<Field>, token: seq<Field>, requireFips: bool, now: int, p: RustPlan)
    ensures Plan(lib, manifest, keys, token, requireFips, now) == Ok(p) <==>
      && ManifestFrom(manifest).Ok? && TokenFrom(lib, token).Ok? && RustKeyDocument(lib, keys).Ok?
      && var m, t := ManifestFrom(manifest).value, TokenFrom(lib, token).value;
      && ValidateManifest(lib, m, Obj(manifest), requireFips, RustKeyDocument(lib, keys).value, now).Ok?
      && ValidateToken(t, m, now).Ok? && p == BuildPlan(m, t)
  {
  }

  /** The stages an accepted plan has passed, and the plan. */
  lemma PlanStages(lib: Libraries, manifest: seq<Field>, keys: seq<Field>, token: seq<Field>, requireFips: bool, now: int)
    returns (m: Manifest, t: Token)
    requires Plan(lib, manifest, keys, token, requireFips, now).Ok?
    ensures ManifestFrom(manifest) == Ok(m) && TokenFrom(lib, token) == Ok(t) && RustKeyDocument(lib, keys).Ok?
    ensures ValidateManifest(lib, m, Obj(manifest), requireFips, RustKeyDocument(lib, keys).value, now).Ok?
    ensures ValidateToken(t, m, now).Ok?
    ensures Plan(lib, manifest, keys, token, requireFips, now).value == BuildPlan(m, t)
  {
    m, t := ManifestFrom(manifest).value, TokenFrom(lib, token).value;
  }

  lemma TokenValidated(t: Token, m: Manifest, now: int)
    requires ValidateToken(t, m, now).Ok?
    ensures t.status == "issued" && t.issuedAt < t.expiresAt && now < t.expiresAt && t.oneTimeUse
    ensures t.bootReleaseSetRef == Some(m.bootReleaseSetId) && t.releaseSetRef == Some(m.baseReleaseSetRef)
    ensures PurposeFits(m.bootMode, t.purpose)
  {
  }

  lemma SignerListed(lib: Libraries, m: Manifest, document: Value, requireFips: bool, keys: seq<TrustedKey>, now: int)
    returns (key: TrustedKey)
    requires ValidateManifest(lib, m, document, requireFips, keys, now).Ok?
    ensures key in keys && key.keyRef == m.signerRef && key.algorithm == m.signatureAlgorithm == RSA_PSS_SHA256
    ensures key.status == "active" && key.revokedAt.None?
    ensures (key.notBefore.Some? ==> key.notBefore.value <= now) && (key.notAfter.Some? ==> now < key.notAfter.value)
    ensures RustPayload(document).Ok? && lib.rustVerify(RustPayload(document).value, m.signatureHex, key.publicKeyPem)
  {
    ManifestValidated(lib, m, document, requireFips, keys, now);
    var i := MatchIsListed(keys, m.signerRef, now);
    key := keys[i];
  }

  /**
   Everything a Rust plan guarantees: it does not execute; a listed key with the signer's
   reference, live now, signed the manifest's canonical bytes; and the token is issued,
   unexpired, one-time, bound to both references of the manifest and fit for its mode.
   */
  lemma PlanGuarantees(lib: Libraries, manifest: seq<Field>, keys: seq<Field>, token: seq<Field>, requireFips: bool, now: int)
    returns (m: Manifest, t: Token, key: TrustedKey)
    requires Plan(lib, manifest, keys, token, requireFips, now).Ok?
    ensures !Plan(lib, manifest, keys, token, requireFips, now).value.execute
    ensures ManifestFrom(manifest) == Ok(m) && TokenFrom(lib, token) == Ok(t)
    ensures RustKeyDocument(lib, keys).Ok? && key in RustKeyDocument(lib, keys).value
    ensures key.keyRef == m.signerRef && key.algorithm == m.signatureAlgorithm == RSA_PSS_SHA256
    ensures key.status == "active" && key.revokedAt.None?
    ensures (key.notBefore.Some? ==> key.notBefore.value <= now) && (key.notAfter.Some? ==> now < key.notAfter.value)
    ensures RustPayload(Obj(manifest)).Ok?
    ensures lib.rustVerify(RustPayload(Obj(manifest)).value, m.signatureHex, key.publicKeyPem)
    ensures t.status == "issued" && t.issuedAt < t.expiresAt && now < t.expiresAt && t.oneTimeUse
    ensures t.bootReleaseSetRef == Some(m.bootReleaseSetId) && t.releaseSetRef == Some(m.baseReleaseSetRef)
    ensures PurposeFits(m.bootMode, t.purpose)
  {
    m, t := PlanStages(lib, manifest, keys, token, requireFips, now);
    TokenValidated(t, m, now);
    key := SignerListed(lib, m, Obj(manifest), requireFips, RustKeyDocument(lib, keys).value, now);
  }

  lemma {:induction false} EntriesKeepKeys(fields: seq<Field>)
    requires StringEntries(fields).Ok?
    ensures var entries := StringEntries(fields).value;
      |entries| == |fields| && forall i | 0 <= i < |fields| :: entries[i].key == fields[i].key
  {
    if fields != [] {
      EntriesKeepKeys(fields[1..]);
    }
  }

  lemma {:induction false} AscendingPairs(fields: seq<Field>, i: nat, j: nat)
    requires Ascending(fields) && i < j < |fields|
    ensures Less(fields[i].key, fields[j].key)
  {
    if i > 0 {
      AscendingPairs(fields[1..], i - 1, j - 1);
    } else {
      AscendingHeadIsLeast(fields);
      assert fields[1..][j - 1].key in Keys(fields[1..]);
    }
  }

  /** A deserialised string map holds its entries in strictly increasing key order. */
  lemma BTreeMapIsKeyOrdered(fields: seq<Field>, key: string)
    requires Distinct(Obj(fields)) && BTreeMapField(fields, key).Ok?
    ensures KeyOrdered(BTreeMapField(fields, key).value)
  {
    var inner := ObjectField(fields, key).value;
    ObjectFieldDistinct(fields, key);
    var sorted := SortFields(ByUtf8Byte, inner);
    SortAscends(ByUtf8Byte, inner);
    EntriesKeepKeys(sorted);
    forall a, b | 0 <= a < b < |sorted| ensures Less(sorted[a].key, sorted[b].key) {
      AscendingPairs(sorted, a, b);
    }
  }
}
