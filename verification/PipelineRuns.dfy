/** What holds over every run of fetch and execute commands, with and without outside tampering. */
module PipelineRuns {
  import opened Results
  import opened Text
  import opened Utf8
  import opened Plans
  import opened Pipeline
  import R = RustPlanner

  /** One step of a run: a command with any flags and any failures, or the outside world. */
  datatype Step =
    | FetchStep(cache: Path, dir: Path, input: FetchInput)
    | ExecuteStep(x: ExecuteInput)
    /** Cache files and cache records replaced at will; proof files are left to the client. */
    | Tamper(files: map<Path, Bytes>, records: map<Path, Option<CacheRecord>>)

  function TamperedEvidence(host: Host, records: map<Path, Option<CacheRecord>>): map<Path, Evidence> {
    map d | d in host.evidence.Keys + records.Keys ::
      if d in records then EvidenceIn(host, d).(cacheRecord := records[d]) else EvidenceIn(host, d)
  }

  function Next(hash: Hash, host: Host, step: Step): Host {
    match step
    case FetchStep(cache, dir, input) => Fetch(hash, host, cache, dir, input).0
    case ExecuteStep(x) => Execute(hash, host, x).0
    case Tamper(files, records) => host.(files := files, evidence := TamperedEvidence(host, records))
  }

  /** The host before step `i`. */
  function At(hash: Hash, host: Host, steps: seq<Step>, i: nat): Host
    requires i <= |steps|
  {
    if i == 0 then host else Next(hash, At(hash, host, steps, i - 1), steps[i - 1])
  }

  // ----- content addressing -----

  /** The path ends in the name fetch gives to an artifact of a known kind with this hash. */
  predicate Addressed(path: Path, sha256: string) {
    path != [] &&
    (|| path[|path| - 1] == CacheName("kernel", sha256)
     || path[|path| - 1] == CacheName("initrd", sha256)
     || path[|path| - 1] == CacheName("rootfs", sha256))
  }

  lemma NameDecides(kind: string, kind': string, sha: string, sha': string)
    requires |kind| == |kind'| && CacheName(kind, sha) == CacheName(kind', sha')
    ensures kind == kind' && sha == sha'
  {
    var name, name' := CacheName(kind, sha), CacheName(kind', sha');
    assert name[..|kind|] == kind && name'[..|kind|] == kind';
    assert name[|kind| + 1..] == sha && name'[|kind| + 1..] == sha';
  }

  /** A cache path names one hash: no two different hashes share a path. */
  lemma PathDecidesHash(path: Path, sha: string, sha': string)
    requires Addressed(path, sha) && Addressed(path, sha')
    ensures sha == sha'
  {
    var name := path[|path| - 1];
    var kind :| kind in {"kernel", "initrd", "rootfs"} && name == CacheName(kind, sha);
    var kind' :| kind' in {"kernel", "initrd", "rootfs"} && name == CacheName(kind', sha');
    NameDecides(kind, kind', sha, sha');
  }

  /** A cache write that still holds what its name says. */
  predicate Holds(hash: Hash, files: map<Path, Bytes>, w: CacheWrite) {
    Addressed(w.path, w.sha256) && w.path in files && hash(files[w.path]) == w.sha256
  }

  /** Every cache write ever made still holds, and every record lists only such writes. */
  predicate Intact(hash: Hash, host: Host) {
    && (forall w | w in host.written :: Holds(hash, host.files, w))
    && (forall d | d in host.evidence && host.evidence[d].cacheRecord.Some? :: Recorded(host, host.evidence[d].cacheRecord.value))
  }

  predicate Recorded(host: Host, record: CacheRecord) {
    forall a | a in record.artifacts :: CacheWrite(a.cachePath, a.sha256) in host.written
  }

  lemma EntryIsAddressed(hash: Hash, input: FetchInput, catalog: ArtifactMap, cache: Path, entry: ArtifactRef, i: nat)
    requires FetchEntry(hash, input, catalog, cache, entry, i).Ok?
    ensures var (a, bytes) := FetchEntry(hash, input, catalog, cache, entry, i).value;
      && Addressed(a.cachePath, a.sha256) && hash(bytes) == a.sha256 && a.sizeBytes == |bytes|
      && a.cachePath == cache + [CacheName(a.kind, a.sha256)]
      && KindFor(entry.key) == Ok(a.kind)
      && FindDescriptor(catalog.artifacts, entry.ref).Ok?
      && Describes(FindDescriptor(catalog.artifacts, entry.ref).value, a)
  {
  }

  /** The record entry repeats its descriptor, and the size matches when the descriptor gives one. */
  predicate Describes(d: Descriptor, a: CachedArtifact) {
    && a.artifactRef == d.artifactRef && a.kind == d.kind && a.sha256 == d.sha256
    && a.contentType == d.contentType && a.source == d.source
    && (d.sizeBytes.None? || d.sizeBytes.value == a.sizeBytes)
  }

  /** Storing verified bytes breaks no earlier write, because a shared path means a shared hash. */
  lemma StoreKeepsHolding(hash: Hash, host: Host, a: CachedArtifact, bytes: Bytes)
    requires forall w | w in host.written :: Holds(hash, host.files, w)
    requires Addressed(a.cachePath, a.sha256) && hash(bytes) == a.sha256
    ensures forall w | w in Store(host, a, bytes).written :: Holds(hash, Store(host, a, bytes).files, w)
  {
    forall w | w in Store(host, a, bytes).written ensures Holds(hash, Store(host, a, bytes).files, w) {
      if w.path == a.cachePath && w in host.written {
        PathDecidesHash(w.path, w.sha256, a.sha256);
      }
    }
  }

  lemma {:induction false} FetchFromKeepsIntact(hash: Hash, input: FetchInput, catalog: ArtifactMap, cache: Path,
                                                entries: seq<ArtifactRef>, i: nat, host: Host, cached: seq<CachedArtifact>)
    requires i <= |entries| && (forall w | w in host.written :: Holds(hash, host.files, w))
    requires forall a | a in cached :: CacheWrite(a.cachePath, a.sha256) in host.written
    ensures var (after, fetched) := FetchFrom(hash, input, catalog, cache, entries, i, host, cached);
      && (forall w | w in after.written :: Holds(hash, after.files, w))
      && host.written <= after.written && after.evidence == host.evidence && after.trace == host.trace
      && (fetched.Ok? ==> forall a | a in fetched.value :: CacheWrite(a.cachePath, a.sha256) in after.written)
    decreases |entries| - i
  {
    if i < |entries| {
      var fetched := FetchEntry(hash, input, catalog, cache, entries[i], i);
      if fetched.Ok? {
        var (a, bytes) := fetched.value;
        EntryIsAddressed(hash, input, catalog, cache, entries[i], i);
        StoreKeepsHolding(hash, host, a, bytes);
        FetchFromKeepsIntact(hash, input, catalog, cache, entries, i + 1, Store(host, a, bytes), cached + [a]);
      }
    }
  }

  /** Fetch, wherever it stops, keeps every cache write and every record intact. */
  lemma FetchKeepsIntact(hash: Hash, host: Host, cache: Path, dir: Path, input: FetchInput)
    requires Intact(hash, host)
    ensures Intact(hash, Fetch(hash, host, cache, dir, input).0)
  {
    if input.plan.Some? && input.artifactMap.Some? && input.directoriesOk {
      FetchFromKeepsIntact(hash, input, input.artifactMap.value, cache, input.plan.value.artifacts, 0, host, []);
    }
  }

  /** Execute never touches the cache, its records, or the history of cache writes. */
  lemma ExecuteLeavesCache(hash: Hash, host: Host, x: ExecuteInput)
    ensures var after := Execute(hash, host, x).0;
      && after.files == host.files && after.written == host.written
      && forall d :: EvidenceIn(after, d).cacheRecord == EvidenceIn(host, d).cacheRecord
  {
  }

  lemma ExecuteKeepsIntact(hash: Hash, host: Host, x: ExecuteInput)
    requires Intact(hash, host)
    ensures Intact(hash, Execute(hash, host, x).0)
  {
    ExecuteLeavesCache(hash, host, x);
    var after := Execute(hash, host, x).0;
    forall d | d in after.evidence && after.evidence[d].cacheRecord.Some? ensures Recorded(after, after.evidence[d].cacheRecord.value) {
      assert EvidenceIn(after, d).cacheRecord == EvidenceIn(host, d).cacheRecord;
    }
  }

  lemma {:induction false} RunStaysIntact(hash: Hash, host: Host, steps: seq<Step>, i: nat)
    requires i <= |steps| && Intact(hash, host) && forall k | 0 <= k < i :: !steps[k].Tamper?
    ensures Intact(hash, At(hash, host, steps, i))
  {
    if i > 0 {
      RunStaysIntact(hash, host, steps, i - 1);
      var before := At(hash, host, steps, i - 1);
      match steps[i - 1]
      case FetchStep(cache, dir, input) => FetchKeepsIntact(hash, before, cache, dir, input);
      case ExecuteStep(x) => ExecuteKeepsIntact(hash, before, x);
      case Tamper(_, _) =>
    }
  }

  /** `a` is at place `i`, of this kind, and no recorded artifact before it is of the kind. */
  predicate FirstOfKindAt(artifacts: seq<CachedArtifact>, kind: string, a: CachedArtifact, i: int) {
    0 <= i < |artifacts| && artifacts[i] == a && a.kind == kind && forall j | 0 <= j < i :: artifacts[j].kind != kind
  }

  lemma {:induction false} FindKindIff(artifacts: seq<CachedArtifact>, kind: string, a: CachedArtifact)
    ensures FindKind(artifacts, kind) == Ok(a) <==> exists i :: FirstOfKindAt(artifacts, kind, a, i)
  {
    if artifacts != [] {
      var rest := artifacts[1..];
      FindKindIff(rest, kind, a);
      if artifacts[0].kind == kind {
        assert artifacts[0] == a ==> FirstOfKindAt(artifacts, kind, a, 0);
      } else {
        if i :| FirstOfKindAt(rest, kind, a, i) {
          assert FirstOfKindAt(artifacts, kind, a, i + 1);
        }
        if i :| FirstOfKindAt(artifacts, kind, a, i) {
          assert FirstOfKindAt(rest, kind, a, i - 1);
        }
      }
    }
  }

  /** Verification returns a pair exactly when a record lists it first of its kinds, inside the cache, with matching bytes. */
  lemma VerifyCachedIff(hash: Hash, host: Host, cache: Path, dir: Path, kernel: CachedArtifact, initrd: CachedArtifact)
    ensures VerifyCached(hash, host, cache, dir) == Ok((kernel, initrd)) <==>
      && EvidenceIn(host, dir).cacheRecord.Some?
      && (exists i :: FirstOfKindAt(EvidenceIn(host, dir).cacheRecord.value.artifacts, "kernel", kernel, i))
      && (exists i :: FirstOfKindAt(EvidenceIn(host, dir).cacheRecord.value.artifacts, "initrd", initrd, i))
      && cache <= kernel.cachePath && cache <= initrd.cachePath
      && kernel.cachePath in host.files && hash(host.files[kernel.cachePath]) == kernel.sha256
      && initrd.cachePath in host.files && hash(host.files[initrd.cachePath]) == initrd.sha256
  {
    if EvidenceIn(host, dir).cacheRecord.Some? {
      var artifacts := EvidenceIn(host, dir).cacheRecord.value.artifacts;
      FindKindIff(artifacts, "kernel", kernel);
      FindKindIff(artifacts, "initrd", initrd);
    }
  }

  lemma {:induction false} FoundKindIsListed(artifacts: seq<CachedArtifact>, kind: string)
    ensures FindKind(artifacts, kind).Ok? ==> FindKind(artifacts, kind).value in artifacts && FindKind(artifacts, kind).value.kind == kind
    ensures FindKind(artifacts, kind).Ok? <==> exists a | a in artifacts :: a.kind == kind
  {
    if artifacts != [] {
      FoundKindIsListed(artifacts[1..], kind);
      assert artifacts == [artifacts[0]] + artifacts[1..];
    }
  }

  /**
   Without tampering, after any sequence of fetches and executes, each failing or succeeding
   anywhere: every cache file fetch ever wrote still hashes to the hash in its name, and the
   standing record verifies exactly when it lists a kernel and an initrd under the given cache.
   */
  lemma CacheSurvives(hash: Hash, files: map<Path, Bytes>, steps: seq<Step>, i: nat, cache: Path, dir: Path)
    requires i <= |steps| && forall k | 0 <= k < i :: !steps[k].Tamper?
    ensures var host := At(hash, Host(files, map[], [], {}), steps, i);
      && (forall w | w in host.written :: Holds(hash, host.files, w))
      && (EvidenceIn(host, dir).cacheRecord.Some? ==>
            var artifacts := EvidenceIn(host, dir).cacheRecord.value.artifacts;
            && (forall a | a in artifacts :: BytesMatch(hash, host, a))
            && (VerifyCached(hash, host, cache, dir).Ok? <==>
                  && FindKind(artifacts, "kernel").Ok? && cache <= FindKind(artifacts, "kernel").value.cachePath
                  && FindKind(artifacts, "initrd").Ok? && cache <= FindKind(artifacts, "initrd").value.cachePath))
  {
    var start := Host(files, map[], [], {});
    RunStaysIntact(hash, start, steps, i);
    var host := At(hash, start, steps, i);
    if EvidenceIn(host, dir).cacheRecord.Some? {
      var artifacts := EvidenceIn(host, dir).cacheRecord.value.artifacts;
      assert Recorded(host, EvidenceIn(host, dir).cacheRecord.value);
      forall a | a in artifacts ensures BytesMatch(hash, host, a) {
        assert Holds(hash, host.files, CacheWrite(a.cachePath, a.sha256));
      }
      FoundKindIsListed(artifacts, "kernel");
      FoundKindIsListed(artifacts, "initrd");
    }
  }

  // ----- when a fetch succeeds, and what it leaves -----

  lemma KindForIff(key: string, kind: string)
    ensures KindFor(key) == Ok(kind) <==> key in {"kernel_ref", "initrd_ref", "rootfs_ref"} && key == kind + "_ref"
  {
    assert "kernel" + "_ref" == "kernel_ref" && "initrd" + "_ref" == "initrd_ref" && "rootfs" + "_ref" == "rootfs_ref";
    if key == kind + "_ref" {
      assert kind == key[..|key| - 4];
    }
  }

  /** `d` is at place `i`, with this reference, and no descriptor before it has the reference. */
  predicate FirstDescriptorAt(descriptors: seq<Descriptor>, ref: string, d: Descriptor, i: int) {
    0 <= i < |descriptors| && descriptors[i] == d && d.artifactRef == ref && forall j | 0 <= j < i :: descriptors[j].artifactRef != ref
  }

  lemma {:induction false} FindDescriptorIff(descriptors: seq<Descriptor>, ref: string, d: Descriptor)
    ensures FindDescriptor(descriptors, ref) == Ok(d) <==> exists i :: FirstDescriptorAt(descriptors, ref, d, i)
  {
    if descriptors != [] {
      var rest := descriptors[1..];
      FindDescriptorIff(rest, ref, d);
      if descriptors[0].artifactRef == ref {
        assert descriptors[0] == d ==> FirstDescriptorAt(descriptors, ref, d, 0);
      } else {
        if i :| FirstDescriptorAt(rest, ref, d, i) {
          assert FirstDescriptorAt(descriptors, ref, d, i + 1);
        }
        if i :| FirstDescriptorAt(descriptors, ref, d, i) {
          assert FirstDescriptorAt(rest, ref, d, i - 1);
        }
      }
    }
  }

  /** Everything one plan entry asks of the catalog, the source and the disk. */
  predicate Fetchable(hash: Hash, input: FetchInput, catalog: ArtifactMap, entry: ArtifactRef, i: nat) {
    && FindDescriptor(catalog.artifacts, entry.ref).Ok?
    && var d := FindDescriptor(catalog.artifacts, entry.ref).value;
    && KindFor(entry.key) == Ok(d.kind)
    && input.read(d.source, i).Some?
    && var bytes := input.read(d.source, i).value;
    && hash(bytes) == d.sha256 && (d.sizeBytes.Some? ==> d.sizeBytes.value == |bytes|)
    && input.writeOk(i)
  }

  /** Where an entry goes and what is written there, by the first descriptor of its reference. */
  function Placed(input: FetchInput, catalog: ArtifactMap, cache: Path, entry: ArtifactRef, i: nat): (Path, Bytes) {
    match FindDescriptor(catalog.artifacts, entry.ref)
    case Err(_) => (cache, [])
    case Ok(d) => (cache + [d.kind + "-" + d.sha256], match input.read(d.source, i) case Some(bytes) => bytes case None => [])
  }

  lemma FetchEntryIff(hash: Hash, input: FetchInput, catalog: ArtifactMap, cache: Path, entry: ArtifactRef, i: nat)
    ensures FetchEntry(hash, input, catalog, cache, entry, i).Ok? <==> Fetchable(hash, input, catalog, entry, i)
    ensures Fetchable(hash, input, catalog, entry, i) ==>
      var (a, bytes) := FetchEntry(hash, input, catalog, cache, entry, i).value;
      (a.cachePath, bytes) == Placed(input, catalog, cache, entry, i)
  {
  }

  lemma {:induction false} FetchFromOkIff(hash: Hash, input: FetchInput, catalog: ArtifactMap, cache: Path,
                                          entries: seq<ArtifactRef>, i: nat, host: Host, cached: seq<CachedArtifact>)
    requires i <= |entries|
    ensures FetchFrom(hash, input, catalog, cache, entries, i, host, cached).1.Ok?
       <==> forall k | i <= k < |entries| :: Fetchable(hash, input, catalog, entries[k], k)
    decreases |entries| - i
  {
    if i < |entries| {
      FetchEntryIff(hash, input, catalog, cache, entries[i], i);
      if Fetchable(hash, input, catalog, entries[i], i) {
        var (a, bytes) := FetchEntry(hash, input, catalog, cache, entries[i], i).value;
        FetchFromOkIff(hash, input, catalog, cache, entries, i + 1, Store(host, a, bytes), cached + [a]);
      }
    }
  }

  /** A fetch succeeds exactly when plan and catalog are readable, the disk takes everything, and every entry can be fetched. */
  lemma FetchSucceedsIff(hash: Hash, host: Host, cache: Path, dir: Path, input: FetchInput)
    ensures Fetch(hash, host, cache, dir, input).1.Ok? <==>
      && input.plan.Some? && input.artifactMap.Some? && input.directoriesOk && input.recordOk
      && forall k | 0 <= k < |input.plan.value.artifacts| ::
           Fetchable(hash, input, input.artifactMap.value, input.plan.value.artifacts[k], k)
  {
    if input.plan.Some? && input.artifactMap.Some? {
      FetchFromOkIff(hash, input, input.artifactMap.value, cache, input.plan.value.artifacts, 0, host, []);
    }
  }

  /** The entries from `i` to `n`, each with its place and bytes. */
  function Placements(input: FetchInput, catalog: ArtifactMap, cache: Path, entries: seq<ArtifactRef>, i: nat, n: nat): seq<(Path, Bytes)>
    requires i <= n <= |entries|
    decreases n - i
  {
    if i == n then []
    else [Placed(input, catalog, cache, entries[i], i)] + Placements(input, catalog, cache, entries, i + 1, n)
  }

  /** Each of these has been written to its own path, and no other file has changed. */
  ghost predicate Wrote(before: map<Path, Bytes>, after: map<Path, Bytes>, placed: seq<(Path, Bytes)>) {
    && (forall k | 0 <= k < |placed| :: placed[k].0 in after && after[placed[k].0] == placed[k].1)
    && (forall p | forall k | 0 <= k < |placed| :: placed[k].0 != p ::
          (p in after <==> p in before) && (p in before ==> after[p] == before[p]))
  }

  function WriteAll(files: map<Path, Bytes>, placed: seq<(Path, Bytes)>): map<Path, Bytes>
    decreases placed
  {
    if placed == [] then files else WriteAll(files[placed[0].0 := placed[0].1], placed[1..])
  }

  lemma WriteAllStep(files: map<Path, Bytes>, first: (Path, Bytes), rest: seq<(Path, Bytes)>)
    ensures WriteAll(files, [first] + rest) == WriteAll(files[first.0 := first.1], rest)
  {
    assert ([first] + rest)[1..] == rest;
  }

  /** Writes to distinct paths all stand at the end. */
  lemma {:induction false} WriteAllWrites(files: map<Path, Bytes>, placed: seq<(Path, Bytes)>)
    requires forall j, k | 0 <= j < k < |placed| :: placed[j].0 != placed[k].0
    ensures Wrote(files, WriteAll(files, placed), placed)
    decreases placed
  {
    if placed != [] {
      var rest := placed[1..];
      WriteAllWrites(files[placed[0].0 := placed[0].1], rest);
      assert forall k | 0 <= k < |rest| :: rest[k] == placed[k + 1];
      assert forall k | 0 <= k < |rest| :: rest[k].0 != placed[0].0;
    }
  }

  lemma {:induction false} PlacementsAt(input: FetchInput, catalog: ArtifactMap, cache: Path, entries: seq<ArtifactRef>, i: nat, n: nat)
    requires i <= n <= |entries|
    ensures var all := Placements(input, catalog, cache, entries, i, n);
      |all| == n - i && forall k | 0 <= k < n - i :: all[k] == Placed(input, catalog, cache, entries[i + k], i + k)
    decreases n - i
  {
    if i < n {
      PlacementsAt(input, catalog, cache, entries, i + 1, n);
    }
  }

  lemma PlacesDiffer(hash: Hash, input: FetchInput, catalog: ArtifactMap, cache: Path, entries: seq<ArtifactRef>, i: nat, j: nat)
    requires i < j < |entries| && KeyOrdered(entries)
    requires Fetchable(hash, input, catalog, entries[i], i) && Fetchable(hash, input, catalog, entries[j], j)
    ensures Placed(input, catalog, cache, entries[i], i).0 != Placed(input, catalog, cache, entries[j], j).0
  {
    var d, e := FindDescriptor(catalog.artifacts, entries[i].ref).value, FindDescriptor(catalog.artifacts, entries[j].ref).value;
    LessTotal(entries[i].key, entries[j].key);
    assert |d.kind| == |e.kind| == 6;
    if Placed(input, catalog, cache, entries[i], i).0 == Placed(input, catalog, cache, entries[j], j).0 {
      assert Placed(input, catalog, cache, entries[i], i).0[|cache|] == Placed(input, catalog, cache, entries[j], j).0[|cache|];
      NameDecides(d.kind, e.kind, d.sha256, e.sha256);
    }
  }

  /** One entry of the loop: fetch goes on after writing it, or stops without a change. */
  lemma FetchOneEntry(hash: Hash, input: FetchInput, catalog: ArtifactMap, cache: Path, entries: seq<ArtifactRef>, i: nat, host: Host,
                   cached: seq<CachedArtifact>) returns (next: Host, more: seq<CachedArtifact>)
    requires i < |entries|
    ensures !Fetchable(hash, input, catalog, entries[i], i) ==>
      FetchFrom(hash, input, catalog, cache, entries, i, host, cached).0 == host
    ensures Fetchable(hash, input, catalog, entries[i], i) ==>
      && next.files == host.files[Placed(input, catalog, cache, entries[i], i).0 := Placed(input, catalog, cache, entries[i], i).1]
      && FetchFrom(hash, input, catalog, cache, entries, i, host, cached)
           == FetchFrom(hash, input, catalog, cache, entries, i + 1, next, more)
  {
    FetchEntryIff(hash, input, catalog, cache, entries[i], i);
    next, more := host, cached;
    if Fetchable(hash, input, catalog, entries[i], i) {
      var (a, bytes) := FetchEntry(hash, input, catalog, cache, entries[i], i).value;
      next, more := Store(host, a, bytes), cached + [a];
    }
  }

  lemma {:induction false} FetchFromWrites(hash: Hash, input: FetchInput, catalog: ArtifactMap, cache: Path, entries: seq<ArtifactRef>,
                                           i: nat, n: nat, host: Host, cached: seq<CachedArtifact>)
    requires i <= n <= |entries| && forall k | i <= k < n :: Fetchable(hash, input, catalog, entries[k], k)
    requires n < |entries| ==> !Fetchable(hash, input, catalog, entries[n], n)
    ensures FetchFrom(hash, input, catalog, cache, entries, i, host, cached).0.files
         == WriteAll(host.files, Placements(input, catalog, cache, entries, i, n))
    decreases |entries| - i
  {
    if i < |entries| {
      var next, more := FetchOneEntry(hash, input, catalog, cache, entries, i, host, cached);
      if i < n {
        FetchFromWrites(hash, input, catalog, cache, entries, i + 1, n, next, more);
        WriteAllStep(host.files, Placed(input, catalog, cache, entries[i], i), Placements(input, catalog, cache, entries, i + 1, n));
      }
    }
  }

  lemma PlacementAt(input: FetchInput, catalog: ArtifactMap, cache: Path, entries: seq<ArtifactRef>, n: nat, i: nat)
    requires i < n <= |entries|
    ensures var placed := Placements(input, catalog, cache, entries, 0, n);
      |placed| == n && placed[i] == Placed(input, catalog, cache, entries[i], i)
  {
    PlacementsAt(input, catalog, cache, entries, 0, n);
  }

  lemma PlacementsDiffer(hash: Hash, input: FetchInput, catalog: ArtifactMap, cache: Path, entries: seq<ArtifactRef>, n: nat, i: nat, j: nat)
    requires i < j < n <= |entries| && KeyOrdered(entries)
    requires Fetchable(hash, input, catalog, entries[i], i) && Fetchable(hash, input, catalog, entries[j], j)
    ensures var placed := Placements(input, catalog, cache, entries, 0, n);
      |placed| == n && placed[i].0 != placed[j].0
  {
    PlacementAt(input, catalog, cache, entries, n, i);
    PlacementAt(input, catalog, cache, entries, n, j);
    PlacesDiffer(hash, input, catalog, cache, entries, i, j);
  }

  lemma PlacementsApart(hash: Hash, input: FetchInput, catalog: ArtifactMap, cache: Path, entries: seq<ArtifactRef>, n: nat)
    requires n <= |entries| && KeyOrdered(entries) && forall k | 0 <= k < n :: Fetchable(hash, input, catalog, entries[k], k)
    ensures var placed := Placements(input, catalog, cache, entries, 0, n);
      |placed| == n && forall i, j | 0 <= i < j < n :: placed[i].0 != placed[j].0
  {
    PlacementsAt(input, catalog, cache, entries, 0, n);
    forall i, j | 0 <= i < j < n
      ensures Placements(input, catalog, cache, entries, 0, n)[i].0 != Placements(input, catalog, cache, entries, 0, n)[j].0
    {
      PlacementsDiffer(hash, input, catalog, cache, entries, n, i, j);
    }
  }

  lemma FetchFiles(hash: Hash, host: Host, cache: Path, dir: Path, input: FetchInput)
    requires input.plan.Some? && input.artifactMap.Some? && input.directoriesOk
    ensures Fetch(hash, host, cache, dir, input).0.files
      == FetchFrom(hash, input, input.artifactMap.value, cache, input.plan.value.artifacts, 0, host, []).0.files
  {
  }

  lemma LoopWrites(hash: Hash, input: FetchInput, catalog: ArtifactMap, cache: Path, entries: seq<ArtifactRef>, n: nat, host: Host)
    requires n <= |entries| && KeyOrdered(entries) && forall k | 0 <= k < n :: Fetchable(hash, input, catalog, entries[k], k)
    requires n < |entries| ==> !Fetchable(hash, input, catalog, entries[n], n)
    ensures Wrote(host.files, FetchFrom(hash, input, catalog, cache, entries, 0, host, []).0.files,
                  Placements(input, catalog, cache, entries, 0, n))
  {
    FetchFromWrites(hash, input, catalog, cache, entries, 0, n, host, []);
    PlacementsApart(hash, input, catalog, cache, entries, n);
    WriteAllWrites(host.files, Placements(input, catalog, cache, entries, 0, n));
  }

  /** A fetch writes exactly the entries before the first that cannot be fetched, whether or not it then succeeds. */
  lemma FetchWritesUpToFailure(hash: Hash, host: Host, cache: Path, dir: Path, input: FetchInput, n: nat)
    requires input.plan.Some? && input.artifactMap.Some? && input.directoriesOk && KeyOrdered(input.plan.value.artifacts)
    requires var entries, catalog := input.plan.value.artifacts, input.artifactMap.value;
      && n <= |entries| && (forall k | 0 <= k < n :: Fetchable(hash, input, catalog, entries[k], k))
      && (n < |entries| ==> !Fetchable(hash, input, catalog, entries[n], n))
    ensures Wrote(host.files, Fetch(hash, host, cache, dir, input).0.files,
                  Placements(input, input.artifactMap.value, cache, input.plan.value.artifacts, 0, n))
  {
    FetchFiles(hash, host, cache, dir, input);
    LoopWrites(hash, input, input.artifactMap.value, cache, input.plan.value.artifacts, n, host);
  }

  // ----- what a successful fetch means -----

  /** The i-th record entry comes from the i-th plan entry through the first descriptor with its reference. */
  predicate RecordsEntry(catalog: ArtifactMap, cache: Path, entry: ArtifactRef, a: CachedArtifact) {
    && KindFor(entry.key) == Ok(a.kind)
    && FindDescriptor(catalog.artifacts, entry.ref).Ok? && Describes(FindDescriptor(catalog.artifacts, entry.ref).value, a)
    && a.artifactRef == entry.ref
    && a.cachePath == cache + [CacheName(a.kind, a.sha256)]
  }

  lemma {:induction false} FoundDescriptorMatches(descriptors: seq<Descriptor>, ref: string)
    requires FindDescriptor(descriptors, ref).Ok?
    ensures FindDescriptor(descriptors, ref).value.artifactRef == ref
  {
    if descriptors[0].artifactRef != ref {
      FoundDescriptorMatches(descriptors[1..], ref);
    }
  }

  lemma {:induction false} FetchFromRecords(hash: Hash, input: FetchInput, catalog: ArtifactMap, cache: Path,
                                            entries: seq<ArtifactRef>, i: nat, host: Host, cached: seq<CachedArtifact>)
    requires i <= |entries| && |cached| == i && forall k | 0 <= k < i :: RecordsEntry(catalog, cache, entries[k], cached[k])
    requires FetchFrom(hash, input, catalog, cache, entries, i, host, cached).1.Ok?
    ensures var all := FetchFrom(hash, input, catalog, cache, entries, i, host, cached).1.value;
      |all| == |entries| && forall k | 0 <= k < |entries| :: RecordsEntry(catalog, cache, entries[k], all[k])
    decreases |entries| - i
  {
    if i < |entries| {
      var (a, bytes) := FetchEntry(hash, input, catalog, cache, entries[i], i).value;
      EntryIsAddressed(hash, input, catalog, cache, entries[i], i);
      FoundDescriptorMatches(catalog.artifacts, entries[i].ref);
      FetchFromRecords(hash, input, catalog, cache, entries, i + 1, Store(host, a, bytes), cached + [a]);
    }
  }

  lemma KindsAreInjective(key: string, key': string)
    requires KindFor(key).Ok? && KindFor(key) == KindFor(key')
    ensures key == key' && |KindFor(key).value| == 6
  {
    assert "kernel"[0] != "initrd"[0] && "kernel"[0] != "rootfs"[0] && "initrd"[0] != "rootfs"[0];
  }

  /**
   A fetch succeeds only on known plan keys with pairwise distinct references; it leaves one
   record entry per plan key, in key order, at pairwise distinct cache paths. No assumption on
   the hash is needed: distinct kinds already give distinct names.
   */
  lemma SuccessfulFetch(hash: Hash, host: Host, cache: Path, dir: Path, input: FetchInput)
    requires Fetch(hash, host, cache, dir, input).1.Ok? && KeyOrdered(input.plan.value.artifacts)
    ensures var entries, record := input.plan.value.artifacts, Fetch(hash, host, cache, dir, input).1.value;
      && record.plan == PlanIdentity(input.plan.value.manifestId, input.plan.value.bootReleaseSetId, input.plan.value.releaseSetRef)
      && record.mapId == input.artifactMap.value.mapId
      && |record.artifacts| == |entries|
      && (forall i | 0 <= i < |entries| :: entries[i].key in {"kernel_ref", "initrd_ref", "rootfs_ref"})
      && (forall i | 0 <= i < |entries| :: RecordsEntry(input.artifactMap.value, cache, entries[i], record.artifacts[i]))
      && (forall i, j | 0 <= i < j < |entries| :: entries[i].ref != entries[j].ref)
      && (forall i, j | 0 <= i < j < |entries| :: record.artifacts[i].cachePath != record.artifacts[j].cachePath)
  {
    var entries, catalog := input.plan.value.artifacts, input.artifactMap.value;
    FetchFromRecords(hash, input, catalog, cache, entries, 0, host, []);
    var all := Fetch(hash, host, cache, dir, input).1.value.artifacts;
    forall i | 0 <= i < |entries| ensures entries[i].key in {"kernel_ref", "initrd_ref", "rootfs_ref"} {
      assert RecordsEntry(catalog, cache, entries[i], all[i]);
    }
    forall i, j | 0 <= i < j < |entries|
      ensures entries[i].ref != entries[j].ref && all[i].cachePath != all[j].cachePath
    {
      assert RecordsEntry(catalog, cache, entries[i], all[i]) && RecordsEntry(catalog, cache, entries[j], all[j]);
      LessTotal(entries[i].key, entries[j].key);
      if all[i].kind == all[j].kind {
        KindsAreInjective(entries[i].key, entries[j].key);
      }
      KindsAreInjective(entries[i].key, entries[i].key);
      KindsAreInjective(entries[j].key, entries[j].key);
      if all[i].cachePath == all[j].cachePath {
        assert all[i].cachePath[|cache|] == all[j].cachePath[|cache|];
        NameDecides(all[i].kind, all[j].kind, all[i].sha256, all[j].sha256);
      }
    }
  }

  /** The first record entry of a kind belongs to the plan's first entry for the matching key. */
  lemma {:induction false} FirstOfKind(catalog: ArtifactMap, cache: Path, entries: seq<ArtifactRef>, all: seq<CachedArtifact>, key: string)
    requires |all| == |entries| && forall k | 0 <= k < |entries| :: RecordsEntry(catalog, cache, entries[k], all[k])
    requires KindFor(key).Ok? && Lookup(entries, key).Some?
    ensures FindKind(all, KindFor(key).value).Ok?
    ensures var a := FindKind(all, KindFor(key).value).value;
      a in all && RecordsEntry(catalog, cache, ArtifactRef(key, Lookup(entries, key).value), a)
  {
    assert RecordsEntry(catalog, cache, entries[0], all[0]);
    if all[0].kind == KindFor(key).value {
      KindsAreInjective(key, entries[0].key);
    } else {
      assert forall k | 0 <= k < |entries| - 1 :: entries[1..][k] == entries[k + 1] && all[1..][k] == all[k + 1];
      FirstOfKind(catalog, cache, entries[1..], all[1..], key);
    }
  }

  /** Right after a successful fetch of a plan that names a kernel and an initrd, verification returns that pair. */
  lemma FetchedPairVerifies(hash: Hash, host: Host, cache: Path, dir: Path, input: FetchInput)
    requires Fetch(hash, host, cache, dir, input).1.Ok?
    requires Lookup(input.plan.value.artifacts, "kernel_ref").Some? && Lookup(input.plan.value.artifacts, "initrd_ref").Some?
    ensures var after := Fetch(hash, host, cache, dir, input).0;
            var entries, catalog := input.plan.value.artifacts, input.artifactMap.value;
      && VerifyCached(hash, after, cache, dir).Ok?
      && var (kernel, initrd) := VerifyCached(hash, after, cache, dir).value;
      && RecordsEntry(catalog, cache, ArtifactRef("kernel_ref", Lookup(entries, "kernel_ref").value), kernel)
      && RecordsEntry(catalog, cache, ArtifactRef("initrd_ref", Lookup(entries, "initrd_ref").value), initrd)
      && BytesMatch(hash, after, kernel) && BytesMatch(hash, after, initrd)
  {
    var entries, catalog := input.plan.value.artifacts, input.artifactMap.value;
    var all := Fetch(hash, host, cache, dir, input).1.value.artifacts;
    FetchFromRecords(hash, input, catalog, cache, entries, 0, host, []);
    FirstOfKind(catalog, cache, entries, all, "kernel_ref");
    FirstOfKind(catalog, cache, entries, all, "initrd_ref");
    FetchedBytesMatch(hash, host, cache, dir, input);
  }

  /**
   From plan to executor: if a manifest passed shape validation and a fetch of its plan
   succeeded, then verification with the same cache and evidence succeeds at once, and returns
   exactly the descriptors the plan names for kernel and initrd, at paths inside the cache.
   */
  lemma FetchedPlanVerifies(hash: Hash, host: Host, cache: Path, dir: Path, input: FetchInput, m: R.Manifest, token: R.Token, requireFips: bool)
    requires R.ValidateManifestShape(m, requireFips).Ok? && input.plan == Some(R.BuildPlan(m, token))
    requires Fetch(hash, host, cache, dir, input).1.Ok?
    ensures var after := Fetch(hash, host, cache, dir, input).0;
            var entries, catalog := input.plan.value.artifacts, input.artifactMap.value;
      && Lookup(entries, "kernel_ref").Some? && Lookup(entries, "initrd_ref").Some?
      && VerifyCached(hash, after, cache, dir).Ok?
      && var (kernel, initrd) := VerifyCached(hash, after, cache, dir).value;
      && RecordsEntry(catalog, cache, ArtifactRef("kernel_ref", Lookup(entries, "kernel_ref").value), kernel)
      && RecordsEntry(catalog, cache, ArtifactRef("initrd_ref", Lookup(entries, "initrd_ref").value), initrd)
      && BytesMatch(hash, after, kernel) && BytesMatch(hash, after, initrd)
  {
    ShapeHasKernelAndInitrd(m, token, requireFips);
    FetchedPairVerifies(hash, host, cache, dir, input);
  }

  lemma ShapeHasKernelAndInitrd(m: R.Manifest, token: R.Token, requireFips: bool)
    requires R.ValidateManifestShape(m, requireFips).Ok?
    ensures var entries := R.BuildPlan(m, token).artifacts;
      Lookup(entries, "kernel_ref").Some? && Lookup(entries, "initrd_ref").Some?
  {
  }

  /** Whatever the cache held before, a successful fetch leaves every file it recorded matching its hash. */
  lemma FetchedBytesMatch(hash: Hash, host: Host, cache: Path, dir: Path, input: FetchInput)
    requires Fetch(hash, host, cache, dir, input).1.Ok?
    ensures var (after, record) := Fetch(hash, host, cache, dir, input);
      forall a | a in record.value.artifacts :: BytesMatch(hash, after, a)
  {
    var entries, catalog := input.plan.value.artifacts, input.artifactMap.value;
    var clean := host.(written := {});
    SameFilesSameFetch(hash, input, catalog, cache, entries, 0, host, clean, []);
    FetchFromKeepsIntact(hash, input, catalog, cache, entries, 0, clean, []);
    var (after, record) := Fetch(hash, host, cache, dir, input);
    var cleanAfter := FetchFrom(hash, input, catalog, cache, entries, 0, clean, []).0;
    forall a | a in record.value.artifacts ensures BytesMatch(hash, after, a) {
      assert Holds(hash, cleanAfter.files, CacheWrite(a.cachePath, a.sha256));
    }
  }

  /** Fetch reads no cache file and no history: hosts with the same files fare the same. */
  lemma {:induction false} SameFilesSameFetch(hash: Hash, input: FetchInput, catalog: ArtifactMap, cache: Path, entries: seq<ArtifactRef>,
                                              i: nat, host: Host, other: Host, cached: seq<CachedArtifact>)
    requires i <= |entries| && host.files == other.files
    ensures FetchFrom(hash, input, catalog, cache, entries, i, host, cached).0.files
         == FetchFrom(hash, input, catalog, cache, entries, i, other, cached).0.files
    ensures FetchFrom(hash, input, catalog, cache, entries, i, host, cached).1
         == FetchFrom(hash, input, catalog, cache, entries, i, other, cached).1
    decreases |entries| - i
  {
    if i < |entries| {
      var fetched := FetchEntry(hash, input, catalog, cache, entries[i], i);
      if fetched.Ok? {
        var (a, bytes) := fetched.value;
        SameFilesSameFetch(hash, input, catalog, cache, entries, i + 1, Store(host, a, bytes), Store(other, a, bytes), cached + [a]);
      }
    }
  }
}
