/** When the client invokes kexec, over every run, whatever happens to the cache in between. */
module ExecutionGate {
  import opened Results
  import opened Plans
  import opened Pipeline
  import opened PipelineRuns

  /** Every check of a load-only command passes and its proof can be written. */
  predicate LoadOnlyPasses(hash: Hash, host: Host, x: ExecuteInput) {
    && x.adapter.LinuxKexec? && x.loadOnly && !x.execNow
    && x.mutationAck && (x.dryRun || x.isRoot) && x.plan.Some? && x.proofOk
    && VerifyCached(hash, host, x.cache, x.dir).Ok?
  }

  /** Every check of an exec command passes and its proof can be written. */
  predicate ExecPasses(hash: Hash, host: Host, x: ExecuteInput) {
    && x.adapter.LinuxKexec? && x.execNow && !x.loadOnly
    && x.mutationAck && x.rebootAck && (x.dryRun || x.isRoot) && x.plan.Some? && x.proofOk
    && VerifyCached(hash, host, x.cache, x.dir).Ok?
    && EvidenceIn(host, x.dir).preExecProof.Some?
  }

  /** How the given plan file is named in records and proofs. */
  function GivenPlan(x: ExecuteInput): PlanIdentity
    requires x.plan.Some?
  {
    PlanIdentity(x.plan.value.manifestId, x.plan.value.bootReleaseSetId, x.plan.value.releaseSetRef)
  }

  function LoadCommand(hash: Hash, host: Host, x: ExecuteInput): HostCommand
    requires VerifyCached(hash, host, x.cache, x.dir).Ok?
  {
    var (kernel, initrd) := VerifyCached(hash, host, x.cache, x.dir).value;
    KexecLoad(kernel.cachePath, initrd.cachePath)
  }

  /** The kexec invocations one step adds: one load, one exec, or none, and exactly when. */
  lemma KexecCallsExactly(hash: Hash, host: Host, step: Step)
    ensures Next(hash, host, step).trace == host.trace +
      if step.ExecuteStep? && !step.x.dryRun && ExecPasses(hash, host, step.x) then [KexecExec]
      else if step.ExecuteStep? && !step.x.dryRun && LoadOnlyPasses(hash, host, step.x) then [LoadCommand(hash, host, step.x)]
      else []
  {
    if step.FetchStep? {
      FetchEffects(hash, host, step.cache, step.dir, step.input);
    }
    assert host.trace + [] == host.trace;
  }

  /** Fetch replaces its directory's cache record if it succeeds, and otherwise leaves all evidence alone. */
  lemma FetchEffects(hash: Hash, host: Host, cache: Path, dir: Path, input: FetchInput)
    ensures var (after, r) := Fetch(hash, host, cache, dir, input);
      && after.trace == host.trace
      && after.evidence == (if r.Ok? then host.evidence[dir := EvidenceIn(host, dir).(cacheRecord := Some(r.value))] else host.evidence)
      && forall d :: EvidenceIn(after, d).preExecProof == EvidenceIn(host, d).preExecProof
  {
    if input.plan.Some? && input.artifactMap.Some? && input.directoriesOk {
      FetchFromKeepsEvidence(hash, input, input.artifactMap.value, cache, input.plan.value.artifacts, 0, host, []);
    }
  }

  lemma {:induction false} FetchFromKeepsEvidence(hash: Hash, input: FetchInput, catalog: ArtifactMap, cache: Path,
                                                  entries: seq<ArtifactRef>, i: nat, host: Host, cached: seq<CachedArtifact>)
    requires i <= |entries|
    ensures var after := FetchFrom(hash, input, catalog, cache, entries, i, host, cached).0;
      after.evidence == host.evidence && after.trace == host.trace
    decreases |entries| - i
  {
    if i < |entries| {
      var fetched := FetchEntry(hash, input, catalog, cache, entries[i], i);
      if fetched.Ok? {
        var (a, bytes) := fetched.value;
        FetchFromKeepsEvidence(hash, input, catalog, cache, entries, i + 1, Store(host, a, bytes), cached + [a]);
      }
    }
  }

  /** A pre-exec proof appears or changes only when a load-only command on its directory passes. */
  lemma ProofChangesExactly(hash: Hash, host: Host, step: Step, dir: Path)
    ensures EvidenceIn(Next(hash, host, step), dir).preExecProof ==
      if step.ExecuteStep? && step.x.dir == dir && LoadOnlyPasses(hash, host, step.x)
      then Some(ProofRecord(step.x.dryRun, GivenPlan(step.x), LoadCommand(hash, host, step.x)))
      else EvidenceIn(host, dir).preExecProof
  {
    if step.FetchStep? {
      FetchEffects(hash, host, step.cache, step.dir, step.input);
    }
  }

  /** And an exec proof only when an exec command passes. */
  lemma ExecProofChangesExactly(hash: Hash, host: Host, x: ExecuteInput, dir: Path)
    ensures EvidenceIn(Execute(hash, host, x).0, dir).execProof ==
      if x.dir == dir && ExecPasses(hash, host, x)
      then Some(ProofRecord(x.dryRun, GivenPlan(x), KexecExec))
      else EvidenceIn(host, dir).execProof
  {
  }

  /** The command asks for exactly one of load and exec. */
  predicate OneMode(x: ExecuteInput) {
    x.loadOnly != x.execNow
  }

  /** The one reason, if any, for which the command is refused on the record. */
  predicate Refuses(hash: Hash, host: Host, x: ExecuteInput, refusal: Refusal) {
    match refusal
    case BothModes => x.loadOnly && x.execNow
    case NoMode => x.adapter.LinuxKexec? && !x.loadOnly && !x.execNow
    case UnsupportedAdapter => x.adapter.OtherAdapter? && !(x.loadOnly && x.execNow)
    case M2CannotExec => x.adapter.AppleSiliconM2? && x.execNow && OneMode(x)
    case M2NeedsLoadOnly => x.adapter.AppleSiliconM2? && !x.loadOnly && !x.execNow
    case M2NeedsDryRun => x.adapter.AppleSiliconM2? && x.loadOnly && OneMode(x) && x.mutationAck && !x.dryRun
    case MutationNotAcknowledged => OneMode(x) && !x.mutationAck && (x.adapter.LinuxKexec? || (x.adapter.AppleSiliconM2? && x.loadOnly))
    case RebootNotAcknowledged => x.adapter.LinuxKexec? && OneMode(x) && x.execNow && x.mutationAck && !x.rebootAck
    case NotRoot => x.adapter.LinuxKexec? && OneMode(x) && x.mutationAck && (x.execNow ==> x.rebootAck) && !x.dryRun && !x.isRoot
    case NoPreExecProof =>
      && x.adapter.LinuxKexec? && OneMode(x) && x.execNow && x.mutationAck && x.rebootAck && (x.dryRun || x.isRoot)
      && x.plan.Some? && VerifyCached(hash, host, x.cache, x.dir).Ok? && EvidenceIn(host, x.dir).preExecProof.None?
  }

  lemma {:induction false} MissingKindReason(artifacts: seq<CachedArtifact>, kind: string)
    requires FindKind(artifacts, kind).Err?
    ensures FindKind(artifacts, kind).reason == ArtifactNotCached
  {
    if artifacts != [] {
      MissingKindReason(artifacts[1..], kind);
    }
  }

  // ----- what each command answers -----

  /** A Linux command for one mode that clears acknowledgements and the root check. */
  predicate ClearsGates(x: ExecuteInput) {
    && x.adapter.LinuxKexec? && OneMode(x) && x.mutationAck && (x.execNow ==> x.rebootAck) && (x.dryRun || x.isRoot)
  }

  /** The only command the M2 adapter goes through with: a dry-run load. */
  predicate M2Clears(x: ExecuteInput) {
    x.adapter.AppleSiliconM2? && x.loadOnly && !x.execNow && x.mutationAck && x.dryRun
  }

  predicate KexecReached(hash: Hash, host: Host, x: ExecuteInput) {
    LoadOnlyPasses(hash, host, x) || ExecPasses(hash, host, x)
  }

  lemma VerificationReasons(hash: Hash, host: Host, cache: Path, dir: Path)
    requires VerifyCached(hash, host, cache, dir).Err?
    ensures VerifyCached(hash, host, cache, dir).reason
              in {NoCacheRecord, ArtifactNotCached, OutsideCache, CacheFileMissing, HashMismatch}
  {
    if EvidenceIn(host, dir).cacheRecord.Some? {
      var artifacts := EvidenceIn(host, dir).cacheRecord.value.artifacts;
      if FindKind(artifacts, "kernel").Err? {
        MissingKindReason(artifacts, "kernel");
      } else if FindKind(artifacts, "initrd").Err? {
        MissingKindReason(artifacts, "initrd");
      }
    }
  }

  /** A command succeeds exactly when all its checks pass and kexec, if it was invoked, succeeded. */
  lemma ExecuteSucceedsIff(hash: Hash, host: Host, x: ExecuteInput)
    ensures Execute(hash, host, x).1.Ok? <==>
      || (KexecReached(hash, host, x) && (x.dryRun || x.kexecOk))
      || (M2Clears(x) && x.plan.Some? && x.proofOk)
  {
  }

  /** And every failure that is no refusal has its own cause. */
  lemma FailureReasons(hash: Hash, host: Host, x: ExecuteInput)
    ensures Execute(hash, host, x).1 == Err(KexecFailed) <==> KexecReached(hash, host, x) && !x.dryRun && !x.kexecOk
    ensures Execute(hash, host, x).1 == Err(PlanUnreadable) <==> (ClearsGates(x) || M2Clears(x)) && x.plan.None?
    ensures Execute(hash, host, x).1 == Err(WriteFailed) <==>
      && x.plan.Some? && !x.proofOk
      && (M2Clears(x)
          || (ClearsGates(x) && VerifyCached(hash, host, x.cache, x.dir).Ok?
              && (x.execNow ==> EvidenceIn(host, x.dir).preExecProof.Some?)))
    ensures ClearsGates(x) && x.plan.Some? && VerifyCached(hash, host, x.cache, x.dir).Err? ==>
      Execute(hash, host, x).1 == Err(VerifyCached(hash, host, x.cache, x.dir).reason)
  {
    if VerifyCached(hash, host, x.cache, x.dir).Err? {
      VerificationReasons(hash, host, x.cache, x.dir);
    }
  }

  /** A command that is not refused leaves every refusal record as it was. */
  lemma OnlyRefusalsAreRecorded(hash: Hash, host: Host, x: ExecuteInput, dir: Path)
    requires Execute(hash, host, x).1.Ok? || !Execute(hash, host, x).1.reason.RefusedBy?
    ensures EvidenceIn(Execute(hash, host, x).0, dir).refusal == EvidenceIn(host, dir).refusal
  {
  }

  lemma RefusalReason(hash: Hash, host: Host, x: ExecuteInput, refusal: Refusal)
    ensures Execute(hash, host, x).1 == Err(RefusedBy(refusal)) <==> Refuses(hash, host, x, refusal)
  {
    if VerifyCached(hash, host, x.cache, x.dir).Err? {
      VerificationReasons(hash, host, x.cache, x.dir);
    }
  }

  lemma RefusalRecord(hash: Hash, host: Host, x: ExecuteInput, refusal: Refusal)
    requires Refuses(hash, host, x, refusal)
    ensures Execute(hash, host, x) == Refuse(host, x, refusal)
  {
  }

  /** Which refusal each command meets, and that it is recorded in the command's own directory and nowhere else. */
  lemma RefusedExactly(hash: Hash, host: Host, x: ExecuteInput, refusal: Refusal, dir: Path)
    ensures Execute(hash, host, x).1 == Err(RefusedBy(refusal)) <==> Refuses(hash, host, x, refusal)
    ensures Refuses(hash, host, x, refusal) ==>
      EvidenceIn(Execute(hash, host, x).0, dir) ==
        if dir == x.dir && x.refusalOk then EvidenceIn(host, dir).(refusal := Some(refusal)) else EvidenceIn(host, dir)
  {
    RefusalReason(hash, host, x, refusal);
    if Refuses(hash, host, x, refusal) {
      RefusalRecord(hash, host, x, refusal);
    }
  }

  /** Step `j` is the load-only command that wrote the proof standing in `dir` before step `n`. */
  predicate WroteProof(hash: Hash, start: Host, steps: seq<Step>, j: nat, n: nat, dir: Path)
    requires j < n <= |steps|
  {
    var host := At(hash, start, steps, j);
    && steps[j].ExecuteStep? && steps[j].x.dir == dir && LoadOnlyPasses(hash, host, steps[j].x)
    && EvidenceIn(At(hash, start, steps, n), dir).preExecProof
         == Some(ProofRecord(steps[j].x.dryRun, IdentityOf(steps[j].x.plan.value), LoadCommand(hash, host, steps[j].x)))
    && At(hash, start, steps, j + 1).trace
         == host.trace + if steps[j].x.dryRun then [] else [LoadCommand(hash, host, steps[j].x)]
  }

  /** Every standing proof was written by an earlier load-only command that passed all its checks. */
  lemma {:induction false} ProofHasWriter(hash: Hash, start: Host, steps: seq<Step>, n: nat, dir: Path) returns (j: nat)
    requires n <= |steps| && EvidenceIn(start, dir).preExecProof.None?
    requires EvidenceIn(At(hash, start, steps, n), dir).preExecProof.Some?
    ensures j < n && WroteProof(hash, start, steps, j, n, dir)
    decreases n
  {
    var host := At(hash, start, steps, n - 1);
    ProofChangesExactly(hash, host, steps[n - 1], dir);
    KexecCallsExactly(hash, host, steps[n - 1]);
    if steps[n - 1].ExecuteStep? && steps[n - 1].x.dir == dir && LoadOnlyPasses(hash, host, steps[n - 1].x) {
      j := n - 1;
      assert host.trace + [] == host.trace;
    } else {
      j := ProofHasWriter(hash, start, steps, n - 1, dir);
    }
  }

  /**
   The gate, over any run that starts with no proof in the directory, with cache files and cache
   records rewritten at will between commands: every `kexec --exec` invocation was made by an
   exec command with both acknowledgements, as root, not dry-run and without load-only, while the
   kernel and initrd bytes matched their recorded hashes; and an earlier load-only command on the
   same evidence directory had passed all its own checks and written the standing proof.
   */
  lemma ExecIsGated(hash: Hash, start: Host, steps: seq<Step>, i: nat) returns (j: nat)
    requires i < |steps| && At(hash, start, steps, i + 1).trace == At(hash, start, steps, i).trace + [KexecExec]
    requires steps[i].ExecuteStep? ==> EvidenceIn(start, steps[i].x.dir).preExecProof.None?
    ensures steps[i].ExecuteStep?
    ensures var x, host := steps[i].x, At(hash, start, steps, i);
      && x.mutationAck && x.rebootAck && x.isRoot && !x.dryRun && x.execNow && !x.loadOnly && x.adapter.LinuxKexec?
      && VerifyCached(hash, host, x.cache, x.dir).Ok?
      && BytesMatch(hash, host, VerifyCached(hash, host, x.cache, x.dir).value.0)
      && BytesMatch(hash, host, VerifyCached(hash, host, x.cache, x.dir).value.1)
    ensures j < i && WroteProof(hash, start, steps, j, i, steps[i].x.dir)
  {
    var host := At(hash, start, steps, i);
    KexecCallsExactly(hash, host, steps[i]);
    assert (host.trace + [KexecExec])[|host.trace|] == KexecExec;
    j := ProofHasWriter(hash, start, steps, i, steps[i].x.dir);
  }

  /** Dry runs, the M2 adapter, unknown adapters and fetches never invoke kexec. */
  lemma NoOtherKexec(hash: Hash, host: Host, step: Step)
    requires step.ExecuteStep? ==> step.x.dryRun || !step.x.adapter.LinuxKexec?
    ensures Next(hash, host, step).trace == host.trace
  {
    KexecCallsExactly(hash, host, step);
  }

  // ----- what a proof does not promise -----

  /**
   A standing proof shows that a kernel load was invoked exactly when it is not marked dry-run:
   its writer added the recorded load to the trace if and only if the proof says dry_run is false.
   */
  lemma ProofMeansLoadIff(hash: Hash, start: Host, steps: seq<Step>, n: nat, dir: Path) returns (j: nat)
    requires n <= |steps| && EvidenceIn(start, dir).preExecProof.None?
    requires EvidenceIn(At(hash, start, steps, n), dir).preExecProof.Some?
    ensures j < n && WroteProof(hash, start, steps, j, n, dir)
    ensures var proof := EvidenceIn(At(hash, start, steps, n), dir).preExecProof.value;
      !proof.dryRun <==> At(hash, start, steps, j + 1).trace == At(hash, start, steps, j).trace + [proof.command]
  {
    j := ProofHasWriter(hash, start, steps, n, dir);
    var before := At(hash, start, steps, j).trace;
    var proof := EvidenceIn(At(hash, start, steps, n), dir).preExecProof.value;
    assert before + [] == before != before + [proof.command];
  }

  /** Even then the load may have failed: its proof stands all the same. */
  lemma FailedLoadLeavesProof(hash: Hash, host: Host, x: ExecuteInput)
    requires LoadOnlyPasses(hash, host, x) && !x.dryRun && !x.kexecOk
    ensures Execute(hash, host, x).1 == Err(KexecFailed)
    ensures EvidenceIn(Execute(hash, host, x).0, x.dir).preExecProof
         == Some(ProofRecord(false, IdentityOf(x.plan.value), LoadCommand(hash, host, x)))
  {
  }

  /** A host whose cache holds one empty kernel and one empty initrd, both recorded. */
  function DemoHost(hash: Hash, cache: Path, dir: Path): Host {
    var sha := hash([]);
    var kernel := CachedArtifact("k", "kernel", sha, 0, "", "", cache + [CacheName("kernel", sha)]);
    var initrd := CachedArtifact("i", "initrd", sha, 0, "", "", cache + [CacheName("initrd", sha)]);
    var record := CacheRecord(PlanIdentity("m", "b", "r"), "a", [kernel, initrd]);
    Host(map[kernel.cachePath := [], initrd.cachePath := []], map[dir := Evidence(Some(record), None, None, None)], [], {})
  }

  const DEMO_PLAN: RustPlan :=
    BootPlan(BootRecovery, "m", "b", "r", [], "", "", "", "", [], [], Fallback(true, NoFallback, true, false), false)

  /** A dry run of load-only without root, then a real exec with root. */
  function DryRunThenExec(cache: Path, dir: Path): seq<Step> {
    [ExecuteStep(ExecuteInput(Some(DEMO_PLAN), cache, LinuxKexec, true, false, dir, true, false, true, false, true, true, true)),
     ExecuteStep(ExecuteInput(Some(DEMO_PLAN), cache, LinuxKexec, false, true, dir, true, true, false, true, true, true, true))]
  }

  /** So "exec only after a kernel load" is false: this run invokes `kexec --exec` and no load at all. */
  lemma ExecWithoutLoad(hash: Hash, cache: Path, dir: Path)
    ensures At(hash, DemoHost(hash, cache, dir), DryRunThenExec(cache, dir), 2).trace == [KexecExec]
  {
    var start, steps := DemoHost(hash, cache, dir), DryRunThenExec(cache, dir);
    var x, y := steps[0].x, steps[1].x;
    DemoVerifies(hash, start, cache, dir);
    assert LoadOnlyPasses(hash, start, x);
    var middle := Next(hash, start, steps[0]);
    KexecCallsExactly(hash, start, steps[0]);
    ProofChangesExactly(hash, start, steps[0], dir);
    assert middle.files == start.files;
    DemoVerifies(hash, middle, cache, dir);
    assert ExecPasses(hash, middle, y);
    KexecCallsExactly(hash, middle, steps[1]);
    assert At(hash, start, steps, 1) == middle;
  }

  lemma DemoVerifies(hash: Hash, host: Host, cache: Path, dir: Path)
    requires host.files == DemoHost(hash, cache, dir).files
    requires EvidenceIn(host, dir).cacheRecord == EvidenceIn(DemoHost(hash, cache, dir), dir).cacheRecord
    ensures VerifyCached(hash, host, cache, dir).Ok?
  {
    var artifacts := EvidenceIn(host, dir).cacheRecord.value.artifacts;
    assert artifacts[1..] == [artifacts[1]];
    assert "kernel"[0] != "initrd"[0];
    assert FindKind(artifacts[1..], "initrd") == Ok(artifacts[1]);
    assert FindKind(artifacts, "initrd") == Ok(artifacts[1]);
  }

  /** Nothing about the plan beyond its being readable decides an execute command's effect on the host. */
  lemma ExecuteIgnoresPlanContents(hash: Hash, host: Host, x: ExecuteInput, other: RustPlan)
    requires x.plan.Some?
    ensures var (a, b) := (Execute(hash, host, x), Execute(hash, host, x.(plan := Some(other))));
      a.0.trace == b.0.trace && a.0.files == b.0.files && a.1 == b.1
  {
  }

  /** A cache that no longer verifies stops both kexec commands without a trace: no host command, no proof, no refusal. */
  lemma FailedVerificationChangesNothing(hash: Hash, host: Host, x: ExecuteInput)
    requires x.adapter.LinuxKexec? && (x.loadOnly != x.execNow) && x.mutationAck && (x.execNow ==> x.rebootAck)
    requires (x.dryRun || x.isRoot) && x.plan.Some? && VerifyCached(hash, host, x.cache, x.dir).Err?
    ensures Execute(hash, host, x) == (host, Err(VerifyCached(hash, host, x.cache, x.dir).reason))
  {
  }
}
