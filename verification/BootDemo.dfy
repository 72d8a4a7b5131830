/** Two short runs without tampering in which what is proved, what is verified and what is loaded part ways. */
module BootDemo {
  import opened Results
  import opened Utf8
  import opened Plans
  import opened Pipeline
  import opened PipelineRuns
  import opened ExecutionGate

  function PlanNamed(id: string): RustPlan {
    DEMO_PLAN.(manifestId := id, artifacts := [ArtifactRef("initrd_ref", "i"), ArtifactRef("kernel_ref", "k")])
  }

  /** A fetch of plan `id` that reads these bytes for both artifacts and meets no failure. */
  function FetchOf(hash: Hash, id: string, bytes: Bytes): FetchInput {
    var catalog := [Descriptor("i", "initrd", "", hash(bytes), None, ""), Descriptor("k", "kernel", "", hash(bytes), None, "")];
    FetchInput(Some(PlanNamed(id)), Some(ArtifactMap("a", catalog)), (source, i) => Some(bytes), true, i => true, true)
  }

  function KernelPath(hash: Hash, cache: Path, bytes: Bytes): Path {
    cache + [CacheName("kernel", hash(bytes))]
  }

  function InitrdPath(hash: Hash, cache: Path, bytes: Bytes): Path {
    cache + [CacheName("initrd", hash(bytes))]
  }

  /** A command as root with every acknowledgement, for plan `id`, that meets no failure. */
  function CommandFor(id: string, cache: Path, dir: Path, loadOnly: bool): ExecuteInput {
    ExecuteInput(Some(PlanNamed(id)), cache, LinuxKexec, loadOnly, !loadOnly, dir, true, true, false, true, true, true, true)
  }

  lemma EntriesFetch(hash: Hash, id: string, bytes: Bytes)
    ensures var input := FetchOf(hash, id, bytes);
      && Lookup(PlanNamed(id).artifacts, "initrd_ref") == Some("i") && Lookup(PlanNamed(id).artifacts, "kernel_ref") == Some("k")
      && FindDescriptor(input.artifactMap.value.artifacts, "i") == Ok(input.artifactMap.value.artifacts[0])
      && FindDescriptor(input.artifactMap.value.artifacts, "k") == Ok(input.artifactMap.value.artifacts[1])
      && (forall i | 0 <= i < 2 :: Fetchable(hash, input, input.artifactMap.value, PlanNamed(id).artifacts[i], i))
  {
    var entries, catalog := PlanNamed(id).artifacts, FetchOf(hash, id, bytes).artifactMap.value.artifacts;
    assert entries[0].key[0] != entries[1].key[0] && "k"[0] != "i"[0];
    assert entries[1..] == [entries[1]] && catalog[1..] == [catalog[1]];
    assert Lookup(entries[1..], "kernel_ref") == Some("k") && FindDescriptor(catalog[1..], "k") == Ok(catalog[1]);
  }

  /** The fetch succeeds on any host, and verification then returns its two files. */
  lemma FetchVerifies(hash: Hash, host: Host, cache: Path, dir: Path, id: string, bytes: Bytes)
    ensures var (after, r) := Fetch(hash, host, cache, dir, FetchOf(hash, id, bytes));
      && r.Ok? && r.value.plan == IdentityOf(PlanNamed(id))
      && EvidenceIn(after, dir) == EvidenceIn(host, dir).(cacheRecord := Some(r.value)) && after.trace == host.trace
      && VerifyCached(hash, after, cache, dir).Ok?
      && var (kernel, initrd) := VerifyCached(hash, after, cache, dir).value;
      kernel.cachePath == KernelPath(hash, cache, bytes) && initrd.cachePath == InitrdPath(hash, cache, bytes)
  {
    var input := FetchOf(hash, id, bytes);
    EntriesFetch(hash, id, bytes);
    FetchSucceedsIff(hash, host, cache, dir, input);
    FetchEffects(hash, host, cache, dir, input);
    FetchedPairVerifies(hash, host, cache, dir, input);
  }

  /** A load after such a fetch, for any plan, adds the load of the fetched files and a proof that names the given plan. */
  lemma LoadRuns(hash: Hash, host: Host, cache: Path, dir: Path, id: string, bytes: Bytes)
    requires VerifyCached(hash, host, cache, dir).Ok?
    requires var (kernel, initrd) := VerifyCached(hash, host, cache, dir).value;
      kernel.cachePath == KernelPath(hash, cache, bytes) && initrd.cachePath == InitrdPath(hash, cache, bytes)
    ensures var after := Execute(hash, host, CommandFor(id, cache, dir, true)).0;
            var command := KexecLoad(KernelPath(hash, cache, bytes), InitrdPath(hash, cache, bytes));
      && after.trace == host.trace + [command]
      && EvidenceIn(after, dir).preExecProof == Some(ProofRecord(false, IdentityOf(PlanNamed(id)), command))
  {
  }

  /** Plan `a` is fetched, and a load is asked for with the file of plan `b`. */
  function FetchThenLoadOther(hash: Hash, cache: Path, dir: Path, bytes: Bytes): seq<Step> {
    [FetchStep(cache, dir, FetchOf(hash, "a", bytes)), ExecuteStep(CommandFor("b", cache, dir, true))]
  }

  /** The proof names plan `b`, and the command it records is the load of what plan `a` fetched. */
  lemma ProofNamesOtherPlan(hash: Hash, start: Host, cache: Path, dir: Path, bytes: Bytes)
    ensures var after := At(hash, start, FetchThenLoadOther(hash, cache, dir, bytes), 2);
      && EvidenceIn(after, dir).cacheRecord.Some? && EvidenceIn(after, dir).preExecProof.Some?
      && EvidenceIn(after, dir).cacheRecord.value.plan == IdentityOf(PlanNamed("a"))
      && EvidenceIn(after, dir).preExecProof.value
           == ProofRecord(false, IdentityOf(PlanNamed("b")), KexecLoad(KernelPath(hash, cache, bytes), InitrdPath(hash, cache, bytes)))
      && IdentityOf(PlanNamed("a")) != IdentityOf(PlanNamed("b"))
  {
    var steps := FetchThenLoadOther(hash, cache, dir, bytes);
    FetchVerifies(hash, start, cache, dir, "a", bytes);
    var fetched := Next(hash, start, steps[0]);
    assert At(hash, start, steps, 1) == fetched;
    LoadRuns(hash, fetched, cache, dir, "b", bytes);
    ExecuteLeavesCache(hash, fetched, steps[1].x);
    assert "a"[0] != "b"[0];
  }

  /** Plan `a` is fetched and loaded, plan `b` is fetched after it, and then exec is asked for. */
  function LoadThenFetchOther(hash: Hash, cache: Path, dir: Path, first: Bytes, second: Bytes): seq<Step> {
    [FetchStep(cache, dir, FetchOf(hash, "a", first)), ExecuteStep(CommandFor("a", cache, dir, true)),
     FetchStep(cache, dir, FetchOf(hash, "b", second)), ExecuteStep(CommandFor("b", cache, dir, false))]
  }

  lemma FirstLoad(hash: Hash, start: Host, cache: Path, dir: Path, first: Bytes, second: Bytes)
    ensures var loaded := At(hash, start, LoadThenFetchOther(hash, cache, dir, first, second), 2);
      && loaded.trace == start.trace + [KexecLoad(KernelPath(hash, cache, first), InitrdPath(hash, cache, first))]
      && EvidenceIn(loaded, dir).preExecProof.Some?
  {
    var steps := LoadThenFetchOther(hash, cache, dir, first, second);
    FetchVerifies(hash, start, cache, dir, "a", first);
    var fetched := Next(hash, start, steps[0]);
    LoadRuns(hash, fetched, cache, dir, "a", first);
    assert At(hash, start, steps, 1) == fetched;
  }

  /** The exec verifies the second kernel and runs while only the first has been loaded; with distinct hashes they are two files. */
  lemma ExecAfterOtherLoad(hash: Hash, start: Host, cache: Path, dir: Path, first: Bytes, second: Bytes)
    requires start.trace == [] && hash(first) != hash(second)
    ensures var steps := LoadThenFetchOther(hash, cache, dir, first, second);
            var before := At(hash, start, steps, 3);
      && At(hash, start, steps, 4).trace == [KexecLoad(KernelPath(hash, cache, first), InitrdPath(hash, cache, first)), KexecExec]
      && VerifyCached(hash, before, cache, dir).Ok?
      && VerifyCached(hash, before, cache, dir).value.0.cachePath == KernelPath(hash, cache, second) != KernelPath(hash, cache, first)
  {
    var steps := LoadThenFetchOther(hash, cache, dir, first, second);
    FirstLoad(hash, start, cache, dir, first, second);
    FetchVerifies(hash, At(hash, start, steps, 2), cache, dir, "b", second);
    ExecRuns(hash, At(hash, start, steps, 3), cache, dir, "b");
    KernelsDiffer(hash, cache, first, second);
  }

  lemma ExecRuns(hash: Hash, host: Host, cache: Path, dir: Path, id: string)
    requires VerifyCached(hash, host, cache, dir).Ok? && EvidenceIn(host, dir).preExecProof.Some?
    ensures Execute(hash, host, CommandFor(id, cache, dir, false)).0.trace == host.trace + [KexecExec]
  {
  }

  lemma KernelsDiffer(hash: Hash, cache: Path, first: Bytes, second: Bytes)
    requires hash(first) != hash(second)
    ensures KernelPath(hash, cache, first) != KernelPath(hash, cache, second)
  {
    if KernelPath(hash, cache, first) == KernelPath(hash, cache, second) {
      assert KernelPath(hash, cache, first)[|cache|] == KernelPath(hash, cache, second)[|cache|];
      NameDecides("kernel", "kernel", hash(first), hash(second));
    }
  }
}
