/**
 The Rust client's fetch and execute commands, as functions of what the host holds: cache
 files, evidence directories, and the kexec invocations made so far.
 */
module Pipeline {
  import opened Results
  import opened Utf8
  import opened Plans

  /** Path components; `PathBuf::starts_with` is the prefix relation on them. */
  type Path = seq<string>

  datatype Descriptor = Descriptor(
    artifactRef: string, kind: string, source: string, sha256: string, sizeBytes: Option<nat>, contentType: string)

  datatype ArtifactMap = ArtifactMap(mapId: string, artifacts: seq<Descriptor>)

  datatype CachedArtifact = CachedArtifact(
    artifactRef: string, kind: string, sha256: string, sizeBytes: nat, contentType: string, source: string, cachePath: Path)

  /** Which plan a record or proof was made for. */
  datatype PlanIdentity = PlanIdentity(manifestId: string, bootReleaseSetId: string, releaseSetRef: string)

  datatype CacheRecord = CacheRecord(plan: PlanIdentity, mapId: string, artifacts: seq<CachedArtifact>)

  datatype HostCommand = KexecLoad(kernel: Path, initrd: Path) | KexecExec

  datatype ProofRecord = ProofRecord(dryRun: bool, plan: PlanIdentity, command: HostCommand)

  /** The four evidence files of one evidence directory. */
  datatype Evidence = Evidence(
    cacheRecord: Option<CacheRecord>, preExecProof: Option<ProofRecord>, execProof: Option<ProofRecord>, refusal: Option<Refusal>)

  /** One cache file written by fetch, with the hash its record gives it. */
  datatype CacheWrite = CacheWrite(path: Path, sha256: string)

  datatype Host = Host(
    files: map<Path, Bytes>,
    evidence: map<Path, Evidence>,
    trace: seq<HostCommand>,
    /** Every cache write fetch has ever made. */
    written: set<CacheWrite>)

  type Hash = Bytes -> string

  const NO_EVIDENCE := Evidence(None, None, None, None)

  function EvidenceIn(host: Host, dir: Path): Evidence {
    if dir in host.evidence then host.evidence[dir] else NO_EVIDENCE
  }

  function IdentityOf(plan: RustPlan): PlanIdentity {
    PlanIdentity(plan.manifestId, plan.bootReleaseSetId, plan.releaseSetRef)
  }

  // ----- fetch -----

  function KindFor(key: string): Result<string> {
    if key == "kernel_ref" then Ok("kernel")
    else if key == "initrd_ref" then Ok("initrd")
    else if key == "rootfs_ref" then Ok("rootfs")
    else Err(UnsupportedKey)
  }

  function FindDescriptor(descriptors: seq<Descriptor>, ref: string): Result<Descriptor> {
    if descriptors == [] then Err(ReferenceNotMapped)
    else if descriptors[0].artifactRef == ref then Ok(descriptors[0])
    else FindDescriptor(descriptors[1..], ref)
  }

  function CacheName(kind: string, sha256: string): string {
    kind + "-" + sha256
  }

  /** What one fetch reads from outside; any read or write may fail at any point. */
  datatype FetchInput = FetchInput(
    plan: Option<RustPlan>,
    artifactMap: Option<ArtifactMap>,
    /** Bytes read for the i-th plan entry from the given source. */
    read: (string, nat) -> Option<Bytes>,
    directoriesOk: bool,
    writeOk: nat -> bool,
    recordOk: bool)

  /** The checks on the i-th plan entry, up to the cache write. */
  function FetchEntry(hash: Hash, input: FetchInput, catalog: ArtifactMap, cache: Path, entry: ArtifactRef, i: nat): Result<(CachedArtifact, Bytes)> {
    var kind :- KindFor(entry.key);
    var d :- FindDescriptor(catalog.artifacts, entry.ref);
    var _ :- Check(d.kind == kind, KindMismatch);
    var _ :- Check(input.read(d.source, i).Some?, SourceUnreadable);
    var bytes := input.read(d.source, i).value;
    var _ :- Check(hash(bytes) == d.sha256, HashMismatch);
    var _ :- Check(d.sizeBytes.None? || d.sizeBytes.value == |bytes|, SizeMismatch);
    var _ :- Check(input.writeOk(i), WriteFailed);
    Ok((CachedArtifact(d.artifactRef, d.kind, d.sha256, |bytes|, d.contentType, d.source,
                       cache + [CacheName(d.kind, d.sha256)]), bytes))
  }

  function Store(host: Host, artifact: CachedArtifact, bytes: Bytes): Host {
    host.(files := host.files[artifact.cachePath := bytes],
          written := host.written + {CacheWrite(artifact.cachePath, artifact.sha256)})
  }

  /** Plan entries from the i-th on, after `cached` have been stored. */
  function FetchFrom(hash: Hash, input: FetchInput, catalog: ArtifactMap, cache: Path, entries: seq<ArtifactRef>, i: nat,
                     host: Host, cached: seq<CachedArtifact>): (Host, Result<seq<CachedArtifact>>)
    requires i <= |entries|
    decreases |entries| - i
  {
    if i == |entries| then (host, Ok(cached))
    else match FetchEntry(hash, input, catalog, cache, entries[i], i)
      case Err(reason) => (host, Err(reason))
      case Ok((artifact, bytes)) =>
        FetchFrom(hash, input, catalog, cache, entries, i + 1, Store(host, artifact, bytes), cached + [artifact])
  }

  function Fetch(hash: Hash, host: Host, cache: Path, dir: Path, input: FetchInput): (Host, Result<CacheRecord>) {
    if input.plan.None? then (host, Err(PlanUnreadable))
    else if input.artifactMap.None? then (host, Err(MapUnreadable))
    else if !input.directoriesOk then (host, Err(WriteFailed))
    else
      var plan, catalog := input.plan.value, input.artifactMap.value;
      var (after, fetched) := FetchFrom(hash, input, catalog, cache, plan.artifacts, 0, host, []);
      match fetched
      case Err(reason) => (after, Err(reason))
      case Ok(cached) =>
        if !input.recordOk then (after, Err(WriteFailed))
        else
          var record := CacheRecord(IdentityOf(plan), catalog.mapId, cached);
          (after.(evidence := after.evidence[dir := EvidenceIn(after, dir).(cacheRecord := Some(record))]), Ok(record))
  }

  // ----- verifying the cache -----

  function FindKind(artifacts: seq<CachedArtifact>, kind: string): Result<CachedArtifact> {
    if artifacts == [] then Err(ArtifactNotCached)
    else if artifacts[0].kind == kind then Ok(artifacts[0])
    else FindKind(artifacts[1..], kind)
  }

  /** The artifact's cache file is there and hashes to what the record says. */
  predicate BytesMatch(hash: Hash, host: Host, artifact: CachedArtifact) {
    artifact.cachePath in host.files && hash(host.files[artifact.cachePath]) == artifact.sha256
  }

  function CheckBytes(hash: Hash, host: Host, artifact: CachedArtifact): Result<()> {
    var _ :- Check(artifact.cachePath in host.files, CacheFileMissing);
    var _ :- Check(hash(host.files[artifact.cachePath]) == artifact.sha256, HashMismatch);
    Ok(())
  }

  function VerifyCached(hash: Hash, host: Host, cache: Path, dir: Path): Result<(CachedArtifact, CachedArtifact)> {
    var _ :- Check(EvidenceIn(host, dir).cacheRecord.Some?, NoCacheRecord);
    var artifacts := EvidenceIn(host, dir).cacheRecord.value.artifacts;
    var kernel :- FindKind(artifacts, "kernel");
    var initrd :- FindKind(artifacts, "initrd");
    var _ :- Check(cache <= kernel.cachePath && cache <= initrd.cachePath, OutsideCache);
    var _ :- CheckBytes(hash, host, kernel);
    var _ :- CheckBytes(hash, host, initrd);
    Ok((kernel, initrd))
  }

  // ----- execute -----

  datatype Adapter = LinuxKexec | AppleSiliconM2 | OtherAdapter(name: string)

  /** The flags of one execute command, and what its environment answers. */
  datatype ExecuteInput = ExecuteInput(
    plan: Option<RustPlan>,
    cache: Path,
    adapter: Adapter,
    loadOnly: bool,
    execNow: bool,
    dir: Path,
    mutationAck: bool,
    rebootAck: bool,
    dryRun: bool,
    isRoot: bool,
    refusalOk: bool,
    proofOk: bool,
    kexecOk: bool)

  /** Writes a refusal record if it can, and fails either way. */
  function Refuse(host: Host, x: ExecuteInput, refusal: Refusal): (Host, Result<()>) {
    (if x.refusalOk then host.(evidence := host.evidence[x.dir := EvidenceIn(host, x.dir).(refusal := Some(refusal))]) else host,
     Err(RefusedBy(refusal)))
  }

  /** Invokes a host command unless this is a dry run. */
  function Invoke(host: Host, x: ExecuteInput, command: HostCommand): (Host, Result<()>) {
    if x.dryRun then (host, Ok(()))
    else (host.(trace := host.trace + [command]), if x.kexecOk then Ok(()) else Err(KexecFailed))
  }

  function LoadOnly(hash: Hash, host: Host, x: ExecuteInput): (Host, Result<()>) {
    if !x.mutationAck then Refuse(host, x, MutationNotAcknowledged)
    else if !x.dryRun && !x.isRoot then Refuse(host, x, NotRoot)
    else if x.plan.None? then (host, Err(PlanUnreadable))
    else match VerifyCached(hash, host, x.cache, x.dir)
      case Err(reason) => (host, Err(reason))
      case Ok((kernel, initrd)) =>
        if !x.proofOk then (host, Err(WriteFailed))
        else
          var command := KexecLoad(kernel.cachePath, initrd.cachePath);
          var proof := ProofRecord(x.dryRun, IdentityOf(x.plan.value), command);
          Invoke(host.(evidence := host.evidence[x.dir := EvidenceIn(host, x.dir).(preExecProof := Some(proof))]), x, command)
  }

  function Exec(hash: Hash, host: Host, x: ExecuteInput): (Host, Result<()>) {
    if !x.mutationAck then Refuse(host, x, MutationNotAcknowledged)
    else if !x.rebootAck then Refuse(host, x, RebootNotAcknowledged)
    else if !x.dryRun && !x.isRoot then Refuse(host, x, NotRoot)
    else if x.plan.None? then (host, Err(PlanUnreadable))
    else match VerifyCached(hash, host, x.cache, x.dir)
      case Err(reason) => (host, Err(reason))
      case Ok(_) =>
        if EvidenceIn(host, x.dir).preExecProof.None? then Refuse(host, x, NoPreExecProof)
        else if !x.proofOk then (host, Err(WriteFailed))
        else
          var proof := ProofRecord(x.dryRun, IdentityOf(x.plan.value), KexecExec);
          Invoke(host.(evidence := host.evidence[x.dir := EvidenceIn(host, x.dir).(execProof := Some(proof))]), x, KexecExec)
  }

  /** Writes constant adapter records, which are not part of the model, and calls no host command. */
  function M2DryRun(host: Host, x: ExecuteInput): (Host, Result<()>) {
    if !x.mutationAck then Refuse(host, x, MutationNotAcknowledged)
    else if !x.dryRun then Refuse(host, x, M2NeedsDryRun)
    else if x.plan.None? then (host, Err(PlanUnreadable))
    else (host, if x.proofOk then Ok(()) else Err(WriteFailed))
  }

  function Execute(hash: Hash, host: Host, x: ExecuteInput): (Host, Result<()>) {
    if x.loadOnly && x.execNow then Refuse(host, x, BothModes)
    else match x.adapter
      case AppleSiliconM2 =>
        if x.execNow then Refuse(host, x, M2CannotExec)
        else if !x.loadOnly then Refuse(host, x, M2NeedsLoadOnly)
        else M2DryRun(host, x)
      case LinuxKexec =>
        if x.loadOnly then LoadOnly(hash, host, x)
        else if x.execNow then Exec(hash, host, x)
        else Refuse(host, x, NoMode)
      case OtherAdapter(_) => Refuse(host, x, UnsupportedAdapter)
  }
}
