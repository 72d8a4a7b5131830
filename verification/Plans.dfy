/** The boot plan and its fixed vocabularies, shared by both planners. */
module Plans {
  import opened Results
  import opened Text
  import opened BootMenu

  datatype Action = PresentMenu | BootRecovery | BootInstaller | BootEphemeral | BootstrapOnly

  datatype Operation =
    | ShowMenu | VerifyArtifacts | PlanRecovery | PlanRollback | PlanInstall | PlanEphemeralBoot | PlanBootstrap

  datatype Proof =
    | VerifiedManifestSignature | ValidatedOneTimeToken | ArtifactRefManifest | BootPlanRecord
    | DeviceClaimRecord | PostActionFingerprint | SessionFingerprint

  datatype Strategy = LastKnownGoodSignedBootReleaseSet | NoFallback

  datatype Fallback = Fallback(
    enabled: bool, strategy: Strategy, requiresSignatureVerification: bool, allowsUnsignedArtifacts: bool)

  /** One entry of an artifact map: a plan key such as `kernel_ref`, and the reference under it. */
  datatype ArtifactRef = ArtifactRef(key: string, ref: string)

  /** The thirteen fields both planners emit; Rust keeps artifacts in key order, Python in a dict. */
  datatype BootPlan<A> = BootPlan(
    action: Action,
    manifestId: string,
    bootReleaseSetId: string,
    releaseSetRef: string,
    artifacts: A,
    authorizedBy: string,
    signatureAlgorithm: string,
    cryptoProfile: string,
    policyRef: string,
    allowedOperations: seq<Operation>,
    proofRequirements: seq<Proof>,
    offlineFallback: Fallback,
    execute: bool)

  type RustPlan = BootPlan<seq<ArtifactRef>>

  /** Python adds the menu it was given and the entry it selected. */
  datatype PythonPlan = PythonPlan(
    core: BootPlan<map<string, string>>, selectedEntryId: Option<string>, bootMenu: Option<Menu>)

  function PolicyRef(mode: string): string {
    "policy://sourceos/nlboot/" + mode + "/safe-plan-v1"
  }

  /** What a mode alone decides about a plan, word for word in both languages. */
  datatype ModePlan = ModePlan(action: Action, operations: seq<Operation>, proofs: seq<Proof>, fallback: Fallback)

  const GUARDED := Fallback(true, LastKnownGoodSignedBootReleaseSet, true, false)
  const UNGUARDED := Fallback(false, NoFallback, true, false)

  function ModePlanFor(mode: string): Option<ModePlan> {
    var common := [VerifiedManifestSignature, ValidatedOneTimeToken, ArtifactRefManifest, BootPlanRecord];
    match mode
    case "recovery" =>
      Some(ModePlan(BootRecovery, [ShowMenu, VerifyArtifacts, PlanRecovery, PlanRollback],
                    common + [DeviceClaimRecord, PostActionFingerprint], GUARDED))
    case "installer" =>
      Some(ModePlan(BootInstaller, [ShowMenu, VerifyArtifacts, PlanInstall],
                    common + [DeviceClaimRecord, PostActionFingerprint], UNGUARDED))
    case "ephemeral" =>
      Some(ModePlan(BootEphemeral, [ShowMenu, VerifyArtifacts, PlanEphemeralBoot], common + [SessionFingerprint], GUARDED))
    case "bootstrap" =>
      Some(ModePlan(BootstrapOnly, [ShowMenu, VerifyArtifacts, PlanBootstrap], common + [SessionFingerprint], UNGUARDED))
    case _ => None
  }

  /** The entries of a `BTreeMap`: keys strictly increase. */
  predicate KeyOrdered(artifacts: seq<ArtifactRef>) {
    forall i, j | 0 <= i < j < |artifacts| :: Less(artifacts[i].key, artifacts[j].key)
  }

  /** `BTreeMap::get`. */
  function Lookup(artifacts: seq<ArtifactRef>, key: string): Option<string> {
    if artifacts == [] then None
    else if artifacts[0].key == key then Some(artifacts[0].ref)
    else Lookup(artifacts[1..], key)
  }

  function AsMap(artifacts: seq<ArtifactRef>): map<string, string> {
    if artifacts == [] then map[] else map[artifacts[0].key := artifacts[0].ref] + AsMap(artifacts[1..])
  }

  /** The two plans say the same in all thirteen shared fields. */
  predicate SameSharedFields(rust: RustPlan, python: BootPlan<map<string, string>>) {
    && rust.action == python.action
    && rust.manifestId == python.manifestId
    && rust.bootReleaseSetId == python.bootReleaseSetId
    && rust.releaseSetRef == python.releaseSetRef
    && AsMap(rust.artifacts) == python.artifacts
    && rust.authorizedBy == python.authorizedBy
    && rust.signatureAlgorithm == python.signatureAlgorithm
    && rust.cryptoProfile == python.cryptoProfile
    && rust.policyRef == python.policyRef
    && rust.allowedOperations == python.allowedOperations
    && rust.proofRequirements == python.proofRequirements
    && rust.offlineFallback == python.offlineFallback
    && rust.execute == python.execute
  }
}
