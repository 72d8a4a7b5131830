/** The client as it runs: each command changes files, evidence and the host in place, step by step. */
module Client {
  import opened Results
  import opened Utf8
  import opened Pipeline

  class Client {
    const hash: Hash
    var files: map<Path, Bytes>
    var evidence: map<Path, Evidence>
    var trace: seq<HostCommand>
    ghost var written: set<CacheWrite>

    ghost function State(): Host
      reads this
    {
      Host(files, evidence, trace, written)
    }

    constructor (h: Hash, initialFiles: map<Path, Bytes>)
      ensures hash == h && State() == Host(initialFiles, map[], [], {})
    {
      hash, files, evidence, trace, written := h, initialFiles, map[], [], {};
    }

    function EvidenceAt(dir: Path): (e: Evidence)
      reads this
      ensures e == EvidenceIn(State(), dir)
    {
      if dir in evidence then evidence[dir] else NO_EVIDENCE
    }

    method FetchArtifacts(cache: Path, dir: Path, input: FetchInput) returns (r: Result<CacheRecord>)
      modifies this
      ensures (State(), r) == Fetch(hash, old(State()), cache, dir, input)
    {
      if input.plan.None? {
        return Err(PlanUnreadable);
      }
      if input.artifactMap.None? {
        return Err(MapUnreadable);
      }
      if !input.directoriesOk {
        return Err(WriteFailed);
      }
      var plan, catalog := input.plan.value, input.artifactMap.value;
      var cached: seq<CachedArtifact> := [];
      for i := 0 to |plan.artifacts|
        invariant evidence == old(evidence) && trace == old(trace)
        invariant FetchFrom(hash, input, catalog, cache, plan.artifacts, i, State(), cached)
               == FetchFrom(hash, input, catalog, cache, plan.artifacts, 0, old(State()), [])
      {
        var fetched := FetchEntry(hash, input, catalog, cache, plan.artifacts[i], i);
        if fetched.Err? {
          return Err(fetched.reason);
        }
        var (artifact, bytes) := fetched.value;
        files := files[artifact.cachePath := bytes];
        written := written + {CacheWrite(artifact.cachePath, artifact.sha256)};
        cached := cached + [artifact];
      }
      if !input.recordOk {
        return Err(WriteFailed);
      }
      var record := CacheRecord(IdentityOf(plan), catalog.mapId, cached);
      evidence := evidence[dir := EvidenceAt(dir).(cacheRecord := Some(record))];
      return Ok(record);
    }

    method VerifyCachedKernelInitrd(cache: Path, dir: Path) returns (r: Result<(CachedArtifact, CachedArtifact)>)
      ensures r == VerifyCached(hash, State(), cache, dir)
    {
      var record := EvidenceAt(dir).cacheRecord;
      if record.None? {
        return Err(NoCacheRecord);
      }
      var kernel := FindKind(record.value.artifacts, "kernel");
      if kernel.Err? {
        return Err(kernel.reason);
      }
      var initrd := FindKind(record.value.artifacts, "initrd");
      if initrd.Err? {
        return Err(initrd.reason);
      }
      if !(cache <= kernel.value.cachePath) || !(cache <= initrd.value.cachePath) {
        return Err(OutsideCache);
      }
      var artifacts := [kernel.value, initrd.value];
      for i := 0 to 2
        invariant forall j | 0 <= j < i :: CheckBytes(hash, State(), artifacts[j]).Ok?
      {
        assert i == 1 ==> CheckBytes(hash, State(), artifacts[0]).Ok?;
        if artifacts[i].cachePath !in files {
          return Err(CacheFileMissing);
        }
        if hash(files[artifacts[i].cachePath]) != artifacts[i].sha256 {
          return Err(HashMismatch);
        }
        assert CheckBytes(hash, State(), artifacts[i]).Ok?;
      }
      assert CheckBytes(hash, State(), artifacts[0]).Ok? && CheckBytes(hash, State(), artifacts[1]).Ok?;
      return Ok((kernel.value, initrd.value));
    }

    method WriteRefusal(x: ExecuteInput, refusal: Refusal) returns (r: Result<()>)
      modifies this
      ensures (State(), r) == Refuse(old(State()), x, refusal)
    {
      if x.refusalOk {
        evidence := evidence[x.dir := EvidenceAt(x.dir).(refusal := Some(refusal))];
      }
      return Err(RefusedBy(refusal));
    }

    method RunKexec(x: ExecuteInput, command: HostCommand) returns (r: Result<()>)
      modifies this
      ensures (State(), r) == Invoke(old(State()), x, command)
    {
      if x.dryRun {
        return Ok(());
      }
      trace := trace + [command];
      return if x.kexecOk then Ok(()) else Err(KexecFailed);
    }

    method ExecuteLoadOnly(x: ExecuteInput) returns (r: Result<()>)
      modifies this
      ensures (State(), r) == LoadOnly(hash, old(State()), x)
    {
      if !x.mutationAck {
        r := WriteRefusal(x, MutationNotAcknowledged);
        return;
      }
      if !x.dryRun && !x.isRoot {
        r := WriteRefusal(x, NotRoot);
        return;
      }
      if x.plan.None? {
        return Err(PlanUnreadable);
      }
      var verified := VerifyCachedKernelInitrd(x.cache, x.dir);
      if verified.Err? {
        return Err(verified.reason);
      }
      if !x.proofOk {
        return Err(WriteFailed);
      }
      var (kernel, initrd) := verified.value;
      var command := KexecLoad(kernel.cachePath, initrd.cachePath);
      var proof := ProofRecord(x.dryRun, IdentityOf(x.plan.value), command);
      evidence := evidence[x.dir := EvidenceAt(x.dir).(preExecProof := Some(proof))];
      r := RunKexec(x, command);
    }

    method ExecuteExec(x: ExecuteInput) returns (r: Result<()>)
      modifies this
      ensures (State(), r) == Exec(hash, old(State()), x)
    {
      if !x.mutationAck {
        r := WriteRefusal(x, MutationNotAcknowledged);
        return;
      }
      if !x.rebootAck {
        r := WriteRefusal(x, RebootNotAcknowledged);
        return;
      }
      if !x.dryRun && !x.isRoot {
        r := WriteRefusal(x, NotRoot);
        return;
      }
      if x.plan.None? {
        return Err(PlanUnreadable);
      }
      var verified := VerifyCachedKernelInitrd(x.cache, x.dir);
      if verified.Err? {
        return Err(verified.reason);
      }
      if EvidenceAt(x.dir).preExecProof.None? {
        r := WriteRefusal(x, NoPreExecProof);
        return;
      }
      if !x.proofOk {
        return Err(WriteFailed);
      }
      var proof := ProofRecord(x.dryRun, IdentityOf(x.plan.value), KexecExec);
      evidence := evidence[x.dir := EvidenceAt(x.dir).(execProof := Some(proof))];
      r := RunKexec(x, KexecExec);
    }

    method ExecuteM2DryRun(x: ExecuteInput) returns (r: Result<()>)
      modifies this
      ensures (State(), r) == M2DryRun(old(State()), x)
    {
      if !x.mutationAck {
        r := WriteRefusal(x, MutationNotAcknowledged);
      } else if !x.dryRun {
        r := WriteRefusal(x, M2NeedsDryRun);
      } else if x.plan.None? {
        r := Err(PlanUnreadable);
      } else {
        r := if x.proofOk then Ok(()) else Err(WriteFailed);
      }
    }

    method ExecuteCommand(x: ExecuteInput) returns (r: Result<()>)
      modifies this
      ensures (State(), r) == Execute(hash, old(State()), x)
    {
      if x.loadOnly && x.execNow {
        r := WriteRefusal(x, BothModes);
        return;
      }
      match x.adapter
      case AppleSiliconM2 =>
        if x.execNow {
          r := WriteRefusal(x, M2CannotExec);
        } else if !x.loadOnly {
          r := WriteRefusal(x, M2NeedsLoadOnly);
        } else {
          r := ExecuteM2DryRun(x);
        }
      case LinuxKexec =>
        if x.loadOnly {
          r := ExecuteLoadOnly(x);
        } else if x.execNow {
          r := ExecuteExec(x);
        } else {
          r := WriteRefusal(x, NoMode);
        }
      case OtherAdapter(_) =>
        r := WriteRefusal(x, UnsupportedAdapter);
    }
  }
}
