/** The Python reference planner: parse and verify a manifest, parse a token, build a plan. */
module PythonPlanner {
  import opened Results
  import opened Text
  import opened Json
  import opened Canonical
  import opened Documents
  import opened Device
  import opened TrustedKeys
  import opened BootMenu
  import opened Plans

  datatype Manifest = Manifest(
    manifestId: string,
    bootReleaseSetId: string,
    baseReleaseSetRef: string,
    bootMode: string,
    artifacts: map<string, string>,
    signatureRef: string,
    signerRef: string,
    signatureAlgorithm: string,
    cryptoProfile: string,
    signatureHex: string,
    bootMenu: Option<Menu>)

  /** Artifact references with every value turned into text; a string stays as it is. */
  function StrArtifacts(lib: Libraries, fields: seq<Field>): map<string, string> {
    if fields == [] then map[]
    else
      var text := match fields[0].value case Str(s) => s case other => lib.str(other);
      map[fields[0].key := text] + StrArtifacts(lib, fields[1..])
  }

  /** An absent or null menu is no menu; an object must parse. */
  function OptionalMenu(fields: seq<Field>): Result<Option<Menu>> {
    match Get(fields, "boot_menu")
    case None => Ok(None)
    case Some(Null) => Ok(None)
    case Some(Obj(menu)) =>
      var m :- MenuFromDict(menu);
      Ok(Some(m))
    case _ => Err(NotAnObject)
  }

  function CheckMenu(menu: Option<Menu>, bootReleaseSetId: string, baseReleaseSetRef: string, bootMode: string): Result<()> {
    match menu
    case None => Ok(())
    case Some(m) => ValidateForManifest(m, bootReleaseSetId, baseReleaseSetRef, bootMode)
  }

  function ManifestFromDict(lib: Libraries, fields: seq<Field>): Result<Manifest> {
    var manifestId :- RequireString(fields, "manifest_id");
    var bootReleaseSetId :- RequireString(fields, "boot_release_set_id");
    var baseReleaseSetRef :- RequireString(fields, "base_release_set_ref");
    var signatureRef :- RequireString(fields, "signature_ref");
    var signerRef :- RequireString(fields, "signer_ref");
    var algorithm :- RequireString(fields, "signature_algorithm");
    var profile :- RequireString(fields, "crypto_profile");
    var signatureHex :- RequireString(fields, "signature_hex");
    var _ :- Check(algorithm == RSA_PSS_SHA256, BadAlgorithm);
    var _ :- Check(profile == FIPS_PROFILE, BadProfile);
    var bootMode :- RequireString(fields, "boot_mode");
    var _ :- Check(KnownMode(bootMode), UnsupportedMode);
    var artifacts :- ObjectField(fields, "artifacts");
    var _ :- Check(HasText(artifacts, "kernel_ref") && HasText(artifacts, "initrd_ref") && HasText(artifacts, "rootfs_ref"), MissingArtifacts);
    var _ :- Check(StartsWith(signatureRef, SIGNATURE_URN), NotASignatureUrn);
    var menu :- OptionalMenu(fields);
    var _ :- CheckMenu(menu, bootReleaseSetId, baseReleaseSetRef, bootMode);
    Ok(Manifest(manifestId, bootReleaseSetId, baseReleaseSetRef, bootMode, StrArtifacts(lib, artifacts), signatureRef,
                signerRef, algorithm, profile, signatureHex, menu))
  }

  datatype Token = Token(
    tokenId: string,
    purpose: string,
    subjectKind: string,
    subjectId: Option<string>,
    /** Whatever JSON value the document holds; Null when absent. */
    releaseSetRef: Value,
    bootReleaseSetRef: Value,
    oneTimeUse: bool,
    issuedAt: int,
    expiresAt: int,
    status: string)

  predicate KnownTokenStatus(status: string) {
    status == "issued" || status == "redeemed" || status == "expired" || status == "revoked"
  }

  function OrNull(fields: seq<Field>, key: string): Value {
    match Get(fields, key)
    case Some(v) => v
    case None => Null
  }

  function RequireTime(lib: Libraries, fields: seq<Field>, key: string): Result<int> {
    var text :- RequireString(fields, key);
    ParseTime(lib.parseTime, text, key)
  }

  function TokenFromDict(lib: Libraries, fields: seq<Field>): Result<Token> {
    var tokenId :- RequireString(fields, "token_id");
    var purpose :- RequireString(fields, "purpose");
    var _ :- Check(KnownPurpose(purpose), UnsupportedPurpose);
    var audience :- ObjectField(fields, "audience");
    var subjectKind :- RequireString(audience, "subject_kind");
    var subjectId :- StringOrNone(audience, "subject_id");
    var issuedAt :- RequireTime(lib, fields, "issued_at");
    var expiresAt :- RequireTime(lib, fields, "expires_at");
    var oneTimeUse :- BoolField(fields, "one_time_use");
    var status :- RequireString(fields, "status");
    var _ :- Check(KnownTokenStatus(status), BadStatus);
    Ok(Token(tokenId, purpose, subjectKind, subjectId, OrNull(fields, "release_set_ref"),
             OrNull(fields, "boot_release_set_ref"), oneTimeUse, issuedAt, expiresAt, status))
  }

  predicate PurposeFits(mode: string, purpose: string) {
    || (mode == "recovery" && (purpose == "recovery" || purpose == "repair"))
    || (mode == "installer" && (purpose == "enroll" || purpose == "boot"))
    || (mode == "ephemeral" && purpose == "boot")
    || (mode == "bootstrap" && (purpose == "enroll" || purpose == "boot"))
  }

  function ValidateToken(token: Token, manifest: Manifest, now: int): Result<()> {
    var _ :- Check(token.status == "issued", TokenNotIssued);
    var _ :- Check(now < token.expiresAt, TokenExpired);
    var _ :- Check(token.oneTimeUse, NotOneTime);
    var _ :- Check(token.bootReleaseSetRef == Str(manifest.bootReleaseSetId), BootReleaseMismatch);
    var _ :- Check(token.releaseSetRef == Str(manifest.baseReleaseSetRef), ReleaseSetMismatch);
    var _ :- Check(PurposeFits(manifest.bootMode, token.purpose), PurposeNotValidForMode);
    Ok(())
  }

  function ActionFor(mode: string): Action {
    if mode == "recovery" then BootRecovery
    else if mode == "installer" then BootInstaller
    else if mode == "ephemeral" then BootEphemeral
    else BootstrapOnly
  }

  function OperationsFor(mode: string): seq<Operation> {
    if mode == "recovery" then [ShowMenu, VerifyArtifacts, Operation.PlanRecovery, PlanRollback]
    else if mode == "installer" then [ShowMenu, VerifyArtifacts, PlanInstall]
    else if mode == "ephemeral" then [ShowMenu, VerifyArtifacts, PlanEphemeralBoot]
    else [ShowMenu, VerifyArtifacts, PlanBootstrap]
  }

  function ProofsFor(mode: string): seq<Proof> {
    [VerifiedManifestSignature, ValidatedOneTimeToken, ArtifactRefManifest, BootPlanRecord] +
    if mode == "recovery" || mode == "installer" then [DeviceClaimRecord, PostActionFingerprint] else [SessionFingerprint]
  }

  function FallbackFor(mode: string): Fallback {
    var enabled := mode == "recovery" || mode == "ephemeral";
    Fallback(enabled, if enabled then LastKnownGoodSignedBootReleaseSet else NoFallback, true, false)
  }

  function SelectedEntry(menu: Option<Menu>): Result<Option<string>> {
    match menu
    case None => Ok(None)
    case Some(m) =>
      var entry :- DefaultEntry(m);
      Ok(Some(entry.entryId))
  }

  /** The plan for a manifest and token that have passed every check. */
  function PlanFor(manifest: Manifest, token: Token, selected: Option<string>): PythonPlan {
    PythonPlan(
      BootPlan(ActionFor(manifest.bootMode), manifest.manifestId, manifest.bootReleaseSetId, manifest.baseReleaseSetRef,
               manifest.artifacts, token.tokenId, manifest.signatureAlgorithm, manifest.cryptoProfile,
               PolicyRef(manifest.bootMode), OperationsFor(manifest.bootMode), ProofsFor(manifest.bootMode),
               FallbackFor(manifest.bootMode), false),
      selected, manifest.bootMenu)
  }

  function BuildBootPlan(manifest: Manifest, token: Token, now: int): Result<PythonPlan> {
    var _ :- ValidateToken(token, manifest, now);
    var _ :- CheckMenu(manifest.bootMenu, manifest.bootReleaseSetId, manifest.baseReleaseSetRef, manifest.bootMode);
    var selected :- SelectedEntry(manifest.bootMenu);
    Ok(PlanFor(manifest, token, selected))
  }

  /** Key lookup, algorithm match and signature check over the canonical payload. */
  function VerifyManifestDocument(lib: Libraries, manifest: seq<Field>, keys: seq<Field>, requireFips: bool, now: int): Result<()> {
    var algorithm := Get(manifest, "signature_algorithm");
    var _ :- Check(requireFips ==> algorithm == Some(Str(RSA_PSS_SHA256)) && Get(manifest, "crypto_profile") == Some(Str(FIPS_PROFILE)),
             FipsRequired);
    var signerRef :- SerdeString(manifest, "signer_ref");
    var signatureHex :- SerdeString(manifest, "signature_hex");
    var table :- LoadTrustedKeys(lib, keys, now);
    var _ :- Check(signerRef in table, NoTrustedKey);
    var _ :- Check(algorithm == Some(Str(table[signerRef].algorithm)), AlgorithmMismatch);
    var _ :- Check(Authentic(lib, PythonPayload(manifest, SIGNATURE), signatureHex, table[signerRef].publicKeyPem), BadSignature);
    Ok(())
  }

  /** The whole decision on parsed documents. Keys are checked on the wall clock; `--now` sets only the token's clock. */
  function PlanWithClocks(lib: Libraries, manifest: seq<Field>, keys: seq<Field>, token: seq<Field>, requireFips: bool,
                          wall: int, now: int): Result<PythonPlan> {
    var _ :- VerifyManifestDocument(lib, manifest, keys, requireFips, wall);
    var m :- ManifestFromDict(lib, manifest);
    var t :- TokenFromDict(lib, token);
    BuildBootPlan(m, t, now)
  }

  /** The decision when both clocks show the same instant. */
  function Plan(lib: Libraries, manifest: seq<Field>, keys: seq<Field>, token: seq<Field>, requireFips: bool, now: int): Result<PythonPlan> {
    PlanWithClocks(lib, manifest, keys, token, requireFips, now, now)
  }

  // ----- what the parsers read and the checks ask -----

  /** The menu under `boot_menu`: none if absent or null, and otherwise an object that spells out a menu fitting the manifest. */
  predicate SaysMenu(fields: seq<Field>, m: Manifest) {
    match Get(fields, "boot_menu")
    case None => m.bootMenu.None?
    case Some(Null) => m.bootMenu.None?
    case Some(Obj(menu)) =>
      && m.bootMenu.Some? && MenuFromDict(menu) == Ok(m.bootMenu.value)
      && ValidateForManifest(m.bootMenu.value, m.bootReleaseSetId, m.baseReleaseSetRef, m.bootMode).Ok?
    case _ => false
  }

  lemma MenuReadIff(fields: seq<Field>, m: Manifest)
    ensures SaysMenu(fields, m) <==> OptionalMenu(fields) == Ok(m.bootMenu)
                                     && CheckMenu(m.bootMenu, m.bootReleaseSetId, m.baseReleaseSetRef, m.bootMode).Ok?
  {
  }

  /** A Python manifest is exactly what its document says, and the document is acceptable. */
  lemma ManifestReadsIff(lib: Libraries, fields: seq<Field>, m: Manifest)
    ensures ManifestFromDict(lib, fields) == Ok(m) <==>
      && RequireString(fields, "manifest_id") == Ok(m.manifestId)
      && RequireString(fields, "boot_release_set_id") == Ok(m.bootReleaseSetId)
      && RequireString(fields, "base_release_set_ref") == Ok(m.baseReleaseSetRef)
      && RequireString(fields, "boot_mode") == Ok(m.bootMode) && KnownMode(m.bootMode)
      && ObjectField(fields, "artifacts").Ok? && HasArtifacts(ObjectField(fields, "artifacts").value)
      && m.artifacts == StrArtifacts(lib, ObjectField(fields, "artifacts").value)
      && RequireString(fields, "signature_ref") == Ok(m.signatureRef) && StartsWith(m.signatureRef, "urn:srcos:signature:")
      && RequireString(fields, "signer_ref") == Ok(m.signerRef)
      && RequireString(fields, "signature_algorithm") == Ok(m.signatureAlgorithm) && m.signatureAlgorithm == "rsa-pss-sha256"
      && RequireString(fields, "crypto_profile") == Ok(m.cryptoProfile) && m.cryptoProfile == "fips-140-3-compatible"
      && RequireString(fields, "signature_hex") == Ok(m.signatureHex)
      && SaysMenu(fields, m)
  {
    MenuReadIff(fields, m);
  }

  predicate HasArtifacts(artifacts: seq<Field>) {
    HasText(artifacts, "kernel_ref") && HasText(artifacts, "initrd_ref") && HasText(artifacts, "rootfs_ref")
  }

  /** A Python token is exactly what its document says, and the document is acceptable. */
  lemma TokenReadsIff(lib: Libraries, fields: seq<Field>, t: Token)
    ensures TokenFromDict(lib, fields) == Ok(t) <==>
      && RequireString(fields, "token_id") == Ok(t.tokenId)
      && RequireString(fields, "purpose") == Ok(t.purpose) && KnownPurpose(t.purpose)
      && ObjectField(fields, "audience").Ok?
      && RequireString(ObjectField(fields, "audience").value, "subject_kind") == Ok(t.subjectKind)
      && StringOrNone(ObjectField(fields, "audience").value, "subject_id") == Ok(t.subjectId)
      && SaysTime(lib, fields, "issued_at", t.issuedAt) && SaysTime(lib, fields, "expires_at", t.expiresAt)
      && BoolField(fields, "one_time_use") == Ok(t.oneTimeUse)
      && RequireString(fields, "status") == Ok(t.status) && t.status in {"issued", "redeemed", "expired", "revoked"}
      && SaysValue(fields, "release_set_ref", t.releaseSetRef) && SaysValue(fields, "boot_release_set_ref", t.bootReleaseSetRef)
  {
  }

  /** Whatever JSON value the document holds, and Null where it holds none. */
  predicate SaysValue(fields: seq<Field>, key: string, v: Value) {
    Get(fields, key) == Some(v) || (Get(fields, key).None? && v == Null)
  }

  predicate SaysTime(lib: Libraries, fields: seq<Field>, key: string, t: int) {
    RequireString(fields, key).Ok? && lib.parseTime(RequireString(fields, key).value) == Some(t)
  }

  lemma PurposesFitting(mode: string, purpose: string)
    ensures PurposeFits(mode, purpose) <==> (mode, purpose) in {
      ("recovery", "recovery"), ("recovery", "repair"), ("installer", "enroll"), ("installer", "boot"), ("ephemeral", "boot"),
      ("bootstrap", "enroll"), ("bootstrap", "boot")}
  {
  }

  lemma TokenValidIff(t: Token, m: Manifest, now: int)
    ensures ValidateToken(t, m, now).Ok? <==>
      && t.status == "issued" && now < t.expiresAt && t.oneTimeUse
      && t.bootReleaseSetRef == Str(m.bootReleaseSetId) && t.releaseSetRef == Str(m.baseReleaseSetRef)
      && PurposeFits(m.bootMode, t.purpose)
  {
  }

  lemma ModeDecides(m: Manifest, t: Token, selected: Option<string>)
    requires KnownMode(m.bootMode)
    ensures var core := PlanFor(m, t, selected).core;
      && ModePlanFor(m.bootMode) == Some(ModePlan(core.action, core.allowedOperations, core.proofRequirements, core.offlineFallback))
      && core.policyRef == "policy://sourceos/nlboot/" + m.bootMode + "/safe-plan-v1"
  {
  }

  lemma TokenWordsUsable(purpose: string)
    requires KnownPurpose(purpose)
    ensures !PythonBlank(purpose) && !PythonBlank("issued") && KnownTokenStatus("issued")
  {
    assert purpose[0] in {'e', 'b', 'r'} && "issued"[0] == 'i';
  }

  /**
   Everything a Python plan guarantees: it does not execute; a key of the document, valid and
   live on the wall clock, signed the manifest's canonical bytes; and the token is issued,
   unexpired at `now`, one-time, bound to both references of the manifest and fit for its mode.
   */
  lemma PlanGuarantees(lib: Libraries, manifest: seq<Field>, keys: seq<Field>, token: seq<Field>, requireFips: bool, wall: int, now: int)
    requires PlanWithClocks(lib, manifest, keys, token, requireFips, wall, now).Ok?
    ensures !PlanWithClocks(lib, manifest, keys, token, requireFips, wall, now).value.core.execute
    ensures KeyEntries(keys).Ok? && SerdeString(manifest, "signature_hex").Ok? && SerdeString(manifest, "signer_ref").Ok?
    ensures exists i | 0 <= i < |KeyEntries(keys).value| ::
      && LiveKey(lib, KeyEntries(keys).value[i], wall).Ok?
      && LiveKey(lib, KeyEntries(keys).value[i], wall).value.keyRef == SerdeString(manifest, "signer_ref").value
      && Authentic(lib, PythonPayload(manifest, {"signature_hex"}), SerdeString(manifest, "signature_hex").value,
                             LiveKey(lib, KeyEntries(keys).value[i], wall).value.publicKeyPem)
    ensures ManifestFromDict(lib, manifest).Ok? && TokenFromDict(lib, token).Ok?
    ensures var m, t := ManifestFromDict(lib, manifest).value, TokenFromDict(lib, token).value;
      && t.status == "issued" && now < t.expiresAt && t.oneTimeUse
      && t.bootReleaseSetRef == Str(m.bootReleaseSetId) && t.releaseSetRef == Str(m.baseReleaseSetRef)
      && PurposeFits(m.bootMode, t.purpose)
  {
    PlanStages(lib, manifest, keys, token, requireFips, wall, now);
    SignedByListedKey(lib, manifest, keys, requireFips, wall);
    TokenValidated(TokenFromDict(lib, token).value, ManifestFromDict(lib, manifest).value, now);
  }

  lemma PlanStages(lib: Libraries, manifest: seq<Field>, keys: seq<Field>, token: seq<Field>, requireFips: bool, wall: int, now: int)
    requires PlanWithClocks(lib, manifest, keys, token, requireFips, wall, now).Ok?
    ensures !PlanWithClocks(lib, manifest, keys, token, requireFips, wall, now).value.core.execute
    ensures VerifyManifestDocument(lib, manifest, keys, requireFips, wall).Ok?
    ensures ManifestFromDict(lib, manifest).Ok? && TokenFromDict(lib, token).Ok?
    ensures ValidateToken(TokenFromDict(lib, token).value, ManifestFromDict(lib, manifest).value, now).Ok?
  {
  }

  lemma TokenValidated(t: Token, m: Manifest, now: int)
    requires ValidateToken(t, m, now).Ok?
    ensures t.status == "issued" && now < t.expiresAt && t.oneTimeUse
    ensures t.bootReleaseSetRef == Str(m.bootReleaseSetId) && t.releaseSetRef == Str(m.baseReleaseSetRef)
    ensures PurposeFits(m.bootMode, t.purpose)
  {
  }

  lemma SignedByListedKey(lib: Libraries, manifest: seq<Field>, keys: seq<Field>, requireFips: bool, now: int)
    requires VerifyManifestDocument(lib, manifest, keys, requireFips, now).Ok?
    ensures KeyEntries(keys).Ok? && SerdeString(manifest, "signature_hex").Ok? && SerdeString(manifest, "signer_ref").Ok?
    ensures exists i | 0 <= i < |KeyEntries(keys).value| ::
      && LiveKey(lib, KeyEntries(keys).value[i], now).Ok?
      && LiveKey(lib, KeyEntries(keys).value[i], now).value.keyRef == SerdeString(manifest, "signer_ref").value
      && Authentic(lib, PythonPayload(manifest, {"signature_hex"}), SerdeString(manifest, "signature_hex").value,
                             LiveKey(lib, KeyEntries(keys).value[i], now).value.publicKeyPem)
  {
    var signerRef := SerdeString(manifest, "signer_ref").value;
    var entries := KeyEntries(keys).value;
    KeyTableCorrect(lib, keys, now, signerRef);
    var i :| 0 <= i < |entries| && LastFor(lib, entries, i, signerRef);
    assert LiveKey(lib, entries[i], now).Ok?;
  }

  /** A parsed manifest's menu always passes the second check, and its default entry is always found. */
  lemma SecondMenuCheckNeverFails(lib: Libraries, fields: seq<Field>)
    requires ManifestFromDict(lib, fields).Ok?
    ensures var m := ManifestFromDict(lib, fields).value;
      && CheckMenu(m.bootMenu, m.bootReleaseSetId, m.baseReleaseSetRef, m.bootMode).Ok?
      && SelectedEntry(m.bootMenu).Ok?
      && (m.bootMenu.Some? ==> SelectedEntry(m.bootMenu).value == Some(m.bootMenu.value.defaultEntryId))
  {
    var m := ManifestFromDict(lib, fields).value;
    if m.bootMenu.Some? {
      MenuAcceptedIff(Get(fields, "boot_menu").value.fields, m.bootMenu.value);
      DefaultIsUnique(m.bootMenu.value);
    }
  }

  /** So on parsed manifests the planner refuses exactly what token validation refuses. */
  lemma PlanFailsOnlyOnToken(lib: Libraries, fields: seq<Field>, token: Token, now: int)
    requires ManifestFromDict(lib, fields).Ok?
    ensures BuildBootPlan(ManifestFromDict(lib, fields).value, token, now).Ok?
       <==> ValidateToken(token, ManifestFromDict(lib, fields).value, now).Ok?
  {
    SecondMenuCheckNeverFails(lib, fields);
  }

  lemma SaidMenu(fields: seq<Field>, m: Manifest)
    requires SaysMenu(fields, m)
    ensures m.bootMenu.None? <==> Absent(fields, "boot_menu")
    ensures m.bootMenu.Some? ==>
      && Get(fields, "boot_menu").Some? && Get(fields, "boot_menu").value.Obj?
      && MenuFromDict(Get(fields, "boot_menu").value.fields) == Ok(m.bootMenu.value)
      && ValidateForManifest(m.bootMenu.value, m.bootReleaseSetId, m.baseReleaseSetRef, m.bootMode).Ok?
  {
  }

  /**
   The menu of an accepted manifest is the document's: none exactly if `boot_menu` is absent or null,
   and otherwise the sound menu that object spells out, whose default entry boots this very manifest.
   */
  lemma AcceptedMenu(lib: Libraries, fields: seq<Field>, m: Manifest)
    requires ManifestFromDict(lib, fields) == Ok(m)
    ensures m.bootMenu.None? <==> Absent(fields, "boot_menu")
    ensures m.bootMenu.Some? ==>
      && Get(fields, "boot_menu").Some? && Get(fields, "boot_menu").value.Obj?
      && MenuFromDict(Get(fields, "boot_menu").value.fields) == Ok(m.bootMenu.value) && SoundMenu(m.bootMenu.value)
      && exists e | e in m.bootMenu.value.entries ::
           && e.entryId == m.bootMenu.value.defaultEntryId && e.bootReleaseSetId == m.bootReleaseSetId
           && e.releaseSetRef == m.baseReleaseSetRef && e.bootMode == m.bootMode
  {
    ManifestReadsIff(lib, fields, m);
    SaidMenu(fields, m);
    if m.bootMenu.Some? {
      MenuAcceptedIff(Get(fields, "boot_menu").value.fields, m.bootMenu.value);
      MenuFitsIff(m.bootMenu.value, m.bootReleaseSetId, m.baseReleaseSetRef, m.bootMode);
    }
  }

  lemma PlanIsFor(lib: Libraries, manifest: seq<Field>, keys: seq<Field>, token: seq<Field>, requireFips: bool, wall: int, now: int,
                  p: PythonPlan) returns (m: Manifest, t: Token)
    requires PlanWithClocks(lib, manifest, keys, token, requireFips, wall, now) == Ok(p)
    ensures ManifestFromDict(lib, manifest) == Ok(m) && TokenFromDict(lib, token) == Ok(t)
    ensures SelectedEntry(m.bootMenu).Ok? && p == PlanFor(m, t, SelectedEntry(m.bootMenu).value)
  {
    m, t := ManifestFromDict(lib, manifest).value, TokenFromDict(lib, token).value;
  }

  /** Every field of a plan is the manifest's or the token's own, or decided by the boot mode alone. */
  lemma PlanSaysDocuments(lib: Libraries, manifest: seq<Field>, keys: seq<Field>, token: seq<Field>, requireFips: bool, wall: int,
                          now: int, p: PythonPlan)
    requires PlanWithClocks(lib, manifest, keys, token, requireFips, wall, now) == Ok(p)
    ensures Get(manifest, "manifest_id") == Some(Str(p.core.manifestId)) && Get(token, "token_id") == Some(Str(p.core.authorizedBy))
    ensures Get(manifest, "boot_release_set_id") == Some(Str(p.core.bootReleaseSetId))
    ensures Get(manifest, "base_release_set_ref") == Some(Str(p.core.releaseSetRef))
    ensures ObjectField(manifest, "artifacts").Ok? && p.core.artifacts == StrArtifacts(lib, ObjectField(manifest, "artifacts").value)
    ensures p.core.signatureAlgorithm == "rsa-pss-sha256" && p.core.cryptoProfile == "fips-140-3-compatible" && !p.core.execute
    ensures Get(manifest, "boot_mode").Some? && Get(manifest, "boot_mode").value.Str?
    ensures var mode := Get(manifest, "boot_mode").value.s;
      && ModePlanFor(mode) == Some(ModePlan(p.core.action, p.core.allowedOperations, p.core.proofRequirements, p.core.offlineFallback))
      && p.core.policyRef == "policy://sourceos/nlboot/" + mode + "/safe-plan-v1"
  {
    var m, t := PlanIsFor(lib, manifest, keys, token, requireFips, wall, now, p);
    ManifestReadsIff(lib, manifest, m);
    TokenReadsIff(lib, token, t);
    ModeDecides(m, t, SelectedEntry(m.bootMenu).value);
  }

  /** And the plan carries the document's menu, with the default entry selected. */
  lemma PlanSelectsDefault(lib: Libraries, manifest: seq<Field>, keys: seq<Field>, token: seq<Field>, requireFips: bool, wall: int,
                           now: int, p: PythonPlan)
    requires PlanWithClocks(lib, manifest, keys, token, requireFips, wall, now) == Ok(p)
    ensures match Get(manifest, "boot_menu")
      case Some(Obj(menu)) =>
        && p.bootMenu.Some? && MenuFromDict(menu) == Ok(p.bootMenu.value) && p.selectedEntryId.Some?
        && Get(menu, "default_entry_id") == Some(Str(p.selectedEntryId.value))
      case _ => Absent(manifest, "boot_menu") && p.bootMenu.None? && p.selectedEntryId.None?
  {
    var m, t := PlanIsFor(lib, manifest, keys, token, requireFips, wall, now, p);
    AcceptedMenu(lib, manifest, m);
    SecondMenuCheckNeverFails(lib, manifest);
    if m.bootMenu.Some? {
      MenuAcceptedIff(Get(manifest, "boot_menu").value.fields, m.bootMenu.value);
    }
  }
}
