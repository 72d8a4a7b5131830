/** Where the cache record standing in a directory comes from, and so which plan's files a kernel load loads. */
module CacheProvenance {
  import opened Results
  import opened Plans
  import opened Pipeline
  import opened PipelineRuns
  import opened ExecutionGate

  /** Step `j` is a fetch into `dir` that succeeded. */
  predicate Fetches(hash: Hash, start: Host, steps: seq<Step>, j: nat, dir: Path)
    requires j < |steps|
  {
    && steps[j].FetchStep? && steps[j].dir == dir
    && Fetch(hash, At(hash, start, steps, j), steps[j].cache, dir, steps[j].input).1.Ok?
  }

  /** Step `j` is the latest fetch into `dir` before step `n` that succeeded. */
  predicate LatestFetch(hash: Hash, start: Host, steps: seq<Step>, j: nat, n: nat, dir: Path)
    requires j < n <= |steps|
  {
    Fetches(hash, start, steps, j, dir) && forall k | j < k < n :: !Fetches(hash, start, steps, k, dir)
  }

  lemma StillLatest(hash: Hash, start: Host, steps: seq<Step>, j: nat, n: nat, dir: Path)
    requires j < n < |steps| && LatestFetch(hash, start, steps, j, n, dir) && !Fetches(hash, start, steps, n, dir)
    ensures LatestFetch(hash, start, steps, j, n + 1, dir)
  {
  }

  /** A step other than tampering changes a directory's cache record exactly by a successful fetch into it. */
  lemma RecordChangesExactly(hash: Hash, host: Host, step: Step, dir: Path)
    requires !step.Tamper?
    ensures EvidenceIn(Next(hash, host, step), dir).cacheRecord ==
      if step.FetchStep? && step.dir == dir && Fetch(hash, host, step.cache, dir, step.input).1.Ok?
      then Some(Fetch(hash, host, step.cache, dir, step.input).1.value)
      else EvidenceIn(host, dir).cacheRecord
  {
    match step
    case FetchStep(cache, d, input) => FetchEffects(hash, host, cache, d, input);
    case ExecuteStep(x) => ExecuteLeavesCache(hash, host, x);
  }

  /** Without tampering, a standing cache record is what the latest successful fetch into its directory returned. */
  lemma {:induction false} RecordHasFetch(hash: Hash, start: Host, steps: seq<Step>, n: nat, dir: Path) returns (j: nat)
    requires n <= |steps| && forall k | 0 <= k < n :: !steps[k].Tamper?
    requires EvidenceIn(start, dir).cacheRecord.None? && EvidenceIn(At(hash, start, steps, n), dir).cacheRecord.Some?
    ensures j < n && LatestFetch(hash, start, steps, j, n, dir)
    ensures EvidenceIn(At(hash, start, steps, n), dir).cacheRecord
      == Some(Fetch(hash, At(hash, start, steps, j), steps[j].cache, dir, steps[j].input).1.value)
    decreases n
  {
    var host := At(hash, start, steps, n - 1);
    RecordChangesExactly(hash, host, steps[n - 1], dir);
    if Fetches(hash, start, steps, n - 1, dir) {
      j := n - 1;
    } else {
      j := RecordHasFetch(hash, start, steps, n - 1, dir);
      StillLatest(hash, start, steps, j, n - 1, dir);
    }
  }

  lemma {:induction false} KindNeedsKey(catalog: ArtifactMap, cache: Path, entries: seq<ArtifactRef>, all: seq<CachedArtifact>, key: string)
    requires |all| == |entries| && forall k | 0 <= k < |entries| :: RecordsEntry(catalog, cache, entries[k], all[k])
    requires KindFor(key).Ok? && FindKind(all, KindFor(key).value).Ok?
    ensures Lookup(entries, key).Some?
  {
    assert RecordsEntry(catalog, cache, entries[0], all[0]);
    if all[0].kind == KindFor(key).value {
      KindsAreInjective(key, entries[0].key);
    } else {
      assert forall k | 0 <= k < |entries| - 1 :: entries[1..][k] == entries[k + 1] && all[1..][k] == all[k + 1];
      KindNeedsKey(catalog, cache, entries[1..], all[1..], key);
    }
  }

  /** `path` is where this fetch put the plan's artifact under `key`, and its file hashes to what the catalog says of it. */
  predicate HoldsPlanned(hash: Hash, host: Host, cache: Path, input: FetchInput, key: string, path: Path) {
    && input.plan.Some? && input.artifactMap.Some? && KindFor(key).Ok?
    && Lookup(input.plan.value.artifacts, key).Some?
    && var ref := Lookup(input.plan.value.artifacts, key).value;
    && FindDescriptor(input.artifactMap.value.artifacts, ref).Ok?
    && var d := FindDescriptor(input.artifactMap.value.artifacts, ref).value;
    && d.artifactRef == ref && d.kind == KindFor(key).value
    && path == cache + [CacheName(d.kind, d.sha256)]
    && path in host.files && hash(host.files[path]) == d.sha256
  }

  /** A recorded artifact whose bytes match is the planned one. */
  lemma RecordedIsPlanned(hash: Hash, before: Host, now: Host, cache: Path, dir: Path, input: FetchInput, key: string)
    requires Fetch(hash, before, cache, dir, input).1.Ok? && KindFor(key).Ok?
    requires var all := Fetch(hash, before, cache, dir, input).1.value.artifacts;
      FindKind(all, KindFor(key).value).Ok? && BytesMatch(hash, now, FindKind(all, KindFor(key).value).value)
    ensures var a := FindKind(Fetch(hash, before, cache, dir, input).1.value.artifacts, KindFor(key).value).value;
      HoldsPlanned(hash, now, cache, input, key, a.cachePath)
  {
    var entries, catalog := input.plan.value.artifacts, input.artifactMap.value;
    var all := Fetch(hash, before, cache, dir, input).1.value.artifacts;
    FetchFromRecords(hash, input, catalog, cache, entries, 0, before, []);
    KindNeedsKey(catalog, cache, entries, all, key);
    FirstOfKind(catalog, cache, entries, all, key);
  }

  /** Without tampering, whatever verification accepts is the kernel and initrd of the latest fetched plan. */
  lemma VerifiedIsPlanned(hash: Hash, start: Host, steps: seq<Step>, i: nat, cache: Path, dir: Path) returns (j: nat)
    requires i <= |steps| && forall k | 0 <= k < i :: !steps[k].Tamper?
    requires EvidenceIn(start, dir).cacheRecord.None? && VerifyCached(hash, At(hash, start, steps, i), cache, dir).Ok?
    ensures j < i && LatestFetch(hash, start, steps, j, i, dir)
    ensures var host := At(hash, start, steps, i);
            var (kernel, initrd) := VerifyCached(hash, host, cache, dir).value;
      && HoldsPlanned(hash, host, steps[j].cache, steps[j].input, "kernel_ref", kernel.cachePath)
      && HoldsPlanned(hash, host, steps[j].cache, steps[j].input, "initrd_ref", initrd.cachePath)
    ensures EvidenceIn(At(hash, start, steps, i), dir).cacheRecord.Some?
    ensures steps[j].input.plan.Some?
      && EvidenceIn(At(hash, start, steps, i), dir).cacheRecord.value.plan == IdentityOf(steps[j].input.plan.value)
  {
    var host := At(hash, start, steps, i);
    VerifiedPair(hash, host, cache, dir);
    j := RecordHasFetch(hash, start, steps, i, dir);
    var before := At(hash, start, steps, j);
    RecordedIsPlanned(hash, before, host, steps[j].cache, dir, steps[j].input, "kernel_ref");
    RecordedIsPlanned(hash, before, host, steps[j].cache, dir, steps[j].input, "initrd_ref");
  }

  /**
   Without tampering every `kexec --load` loads a fetched plan: the two paths are where the latest
   successful fetch into the evidence directory put the kernel and initrd its plan names, and the
   files there hash to what that fetch's catalog says of them.
   */
  lemma LoadsFetchedPlan(hash: Hash, start: Host, steps: seq<Step>, i: nat, kernel: Path, initrd: Path) returns (j: nat)
    requires i < |steps| && forall k | 0 <= k < i :: !steps[k].Tamper?
    requires At(hash, start, steps, i + 1).trace == At(hash, start, steps, i).trace + [KexecLoad(kernel, initrd)]
    requires steps[i].ExecuteStep? ==> EvidenceIn(start, steps[i].x.dir).cacheRecord.None?
    ensures steps[i].ExecuteStep? && j < i && LatestFetch(hash, start, steps, j, i, steps[i].x.dir)
    ensures var host := At(hash, start, steps, i);
      && HoldsPlanned(hash, host, steps[j].cache, steps[j].input, "kernel_ref", kernel)
      && HoldsPlanned(hash, host, steps[j].cache, steps[j].input, "initrd_ref", initrd)
  {
    var host := At(hash, start, steps, i);
    KexecCallsExactly(hash, host, steps[i]);
    assert (host.trace + [KexecLoad(kernel, initrd)])[|host.trace|] == KexecLoad(kernel, initrd);
    j := VerifiedIsPlanned(hash, start, steps, i, steps[i].x.cache, steps[i].x.dir);
  }

  lemma VerifiedPair(hash: Hash, host: Host, cache: Path, dir: Path)
    requires VerifyCached(hash, host, cache, dir).Ok?
    ensures EvidenceIn(host, dir).cacheRecord.Some?
    ensures var artifacts := EvidenceIn(host, dir).cacheRecord.value.artifacts;
      && FindKind(artifacts, "kernel") == Ok(VerifyCached(hash, host, cache, dir).value.0)
      && FindKind(artifacts, "initrd") == Ok(VerifyCached(hash, host, cache, dir).value.1)
    ensures BytesMatch(hash, host, VerifyCached(hash, host, cache, dir).value.0)
    ensures BytesMatch(hash, host, VerifyCached(hash, host, cache, dir).value.1)
  {
  }

  // ----- which plan a proof names -----

  /**
   Without tampering, the proof a passing load-only command writes records the load of the latest
   fetched plan's kernel and initrd; and it names that plan exactly when the plan file given to the
   command has the identity that stands in the cache record.
   */
  lemma ProofNamesFetchedPlanIff(hash: Hash, start: Host, steps: seq<Step>, i: nat) returns (j: nat)
    requires i < |steps| && forall k | 0 <= k < i :: !steps[k].Tamper?
    requires steps[i].ExecuteStep? && LoadOnlyPasses(hash, At(hash, start, steps, i), steps[i].x)
    requires EvidenceIn(start, steps[i].x.dir).cacheRecord.None?
    ensures j < i && LatestFetch(hash, start, steps, j, i, steps[i].x.dir) && steps[j].input.plan.Some?
    ensures EvidenceIn(At(hash, start, steps, i), steps[i].x.dir).cacheRecord.Some?
    ensures EvidenceIn(At(hash, start, steps, i + 1), steps[i].x.dir).preExecProof.Some?
    ensures var x, host := steps[i].x, At(hash, start, steps, i);
            var proof := EvidenceIn(At(hash, start, steps, i + 1), x.dir).preExecProof.value;
      && proof.command.KexecLoad?
      && HoldsPlanned(hash, host, steps[j].cache, steps[j].input, "kernel_ref", proof.command.kernel)
      && HoldsPlanned(hash, host, steps[j].cache, steps[j].input, "initrd_ref", proof.command.initrd)
      && var record := EvidenceIn(host, x.dir).cacheRecord.value;
      (proof.plan == IdentityOf(steps[j].input.plan.value) <==> IdentityOf(x.plan.value) == record.plan)
  {
    var x, host := steps[i].x, At(hash, start, steps, i);
    j := VerifiedIsPlanned(hash, start, steps, i, x.cache, x.dir);
    ProofChangesExactly(hash, host, steps[i], x.dir);
  }

  // ----- which kernel boots -----

  /** The load that was invoked last, which `kexec --exec` boots if it succeeded. */
  function LastLoad(trace: seq<HostCommand>): Option<HostCommand> {
    if trace == [] then None
    else if trace[|trace| - 1].KexecLoad? then Some(trace[|trace| - 1])
    else LastLoad(trace[..|trace| - 1])
  }

  /** Step `l` invoked the load that was last before step `n`. */
  predicate LoadedBy(hash: Hash, start: Host, steps: seq<Step>, l: nat, n: nat)
    requires l < n <= |steps|
  {
    var host := At(hash, start, steps, l);
    && steps[l].ExecuteStep? && LoadOnlyPasses(hash, host, steps[l].x)
    && LastLoad(At(hash, start, steps, n).trace) == Some(LoadCommand(hash, host, steps[l].x))
  }

  lemma LastLoadOf(trace: seq<HostCommand>, command: HostCommand)
    ensures LastLoad(trace + [command]) == if command.KexecLoad? then Some(command) else LastLoad(trace)
    ensures LastLoad(trace + []) == LastLoad(trace)
  {
    assert (trace + [command])[..|trace|] == trace && trace + [] == trace;
  }

  lemma {:induction false} LastLoadHasStep(hash: Hash, start: Host, steps: seq<Step>, n: nat) returns (l: nat)
    requires n <= |steps| && start.trace == [] && LastLoad(At(hash, start, steps, n).trace).Some?
    ensures l < n && LoadedBy(hash, start, steps, l, n)
    decreases n
  {
    var host := At(hash, start, steps, n - 1);
    var step := steps[n - 1];
    KexecCallsExactly(hash, host, step);
    if step.ExecuteStep? && !step.x.dryRun && LoadOnlyPasses(hash, host, step.x) {
      LastLoadOf(host.trace, LoadCommand(hash, host, step.x));
      l := n - 1;
    } else {
      LastLoadOf(host.trace, KexecExec);
      l := LastLoadHasStep(hash, start, steps, n - 1);
    }
  }

  /** Where a fetch of this input puts the plan's artifact under `key`. */
  function PlannedPath(cache: Path, input: FetchInput, key: string): Option<Path> {
    if input.plan.None? || input.artifactMap.None? || Lookup(input.plan.value.artifacts, key).None? then None
    else match FindDescriptor(input.artifactMap.value.artifacts, Lookup(input.plan.value.artifacts, key).value)
      case Err(_) => None
      case Ok(d) => Some(cache + [CacheName(d.kind, d.sha256)])
  }

  predicate SamePair(a: Step, b: Step)
    requires a.FetchStep? && b.FetchStep?
  {
    && PlannedPath(a.cache, a.input, "kernel_ref") == PlannedPath(b.cache, b.input, "kernel_ref")
    && PlannedPath(a.cache, a.input, "initrd_ref") == PlannedPath(b.cache, b.input, "initrd_ref")
  }

  /**
   Without tampering, the pair a `kexec --exec` has just verified is the pair that was loaded last
   exactly when the fetch in force at that load and the fetch in force now put kernel and initrd in
   the same place. Content addressing makes this a condition on the two plans and catalogs alone.
   */
  lemma ExecBootsVerifiedIff(hash: Hash, start: Host, steps: seq<Step>, i: nat) returns (l: nat, m: nat, n: nat)
    requires i < |steps| && forall k | 0 <= k < i :: !steps[k].Tamper?
    requires start.trace == [] && forall d :: EvidenceIn(start, d).cacheRecord.None?
    requires At(hash, start, steps, i + 1).trace == At(hash, start, steps, i).trace + [KexecExec]
    requires LastLoad(At(hash, start, steps, i).trace).Some?
    ensures steps[i].ExecuteStep? && VerifyCached(hash, At(hash, start, steps, i), steps[i].x.cache, steps[i].x.dir).Ok?
    ensures l < i && LoadedBy(hash, start, steps, l, i)
    ensures m < l && LatestFetch(hash, start, steps, m, l, steps[l].x.dir)
    ensures n < i && LatestFetch(hash, start, steps, n, i, steps[i].x.dir)
    ensures var host := At(hash, start, steps, i);
            var (kernel, initrd) := VerifyCached(hash, host, steps[i].x.cache, steps[i].x.dir).value;
      LastLoad(host.trace) == Some(KexecLoad(kernel.cachePath, initrd.cachePath)) <==> SamePair(steps[m], steps[n])
  {
    var host := At(hash, start, steps, i);
    KexecCallsExactly(hash, host, steps[i]);
    assert (host.trace + [KexecExec])[|host.trace|] == KexecExec;
    l := LastLoadHasStep(hash, start, steps, i);
    m := VerifiedIsPlanned(hash, start, steps, l, steps[l].x.cache, steps[l].x.dir);
    n := VerifiedIsPlanned(hash, start, steps, i, steps[i].x.cache, steps[i].x.dir);
  }

  /** And the standing proof's command names the pair verified for exec exactly when the fetches at its load and now agree. */
  lemma ProofNamesVerifiedIff(hash: Hash, start: Host, steps: seq<Step>, i: nat) returns (l: nat, m: nat, n: nat)
    requires i < |steps| && forall k | 0 <= k < i :: !steps[k].Tamper?
    requires steps[i].ExecuteStep? && ExecPasses(hash, At(hash, start, steps, i), steps[i].x)
    requires EvidenceIn(start, steps[i].x.dir) == NO_EVIDENCE
    ensures l < i && WroteProof(hash, start, steps, l, i, steps[i].x.dir)
    ensures m < l && LatestFetch(hash, start, steps, m, l, steps[i].x.dir)
    ensures n < i && LatestFetch(hash, start, steps, n, i, steps[i].x.dir)
    ensures var host, x := At(hash, start, steps, i), steps[i].x;
            var (kernel, initrd) := VerifyCached(hash, host, x.cache, x.dir).value;
      EvidenceIn(host, x.dir).preExecProof.value.command == KexecLoad(kernel.cachePath, initrd.cachePath)
      <==> SamePair(steps[m], steps[n])
  {
    var dir := steps[i].x.dir;
    l := ProofHasWriter(hash, start, steps, i, dir);
    m := VerifiedIsPlanned(hash, start, steps, l, steps[l].x.cache, dir);
    n := VerifiedIsPlanned(hash, start, steps, i, steps[i].x.cache, dir);
  }
}
