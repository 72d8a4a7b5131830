/** What the signature on a manifest decides: the plan that is built from it, and the files a kernel load loads. */
module SignedBoot {
  import opened Results
  import opened Json
  import opened KeySort
  import opened Canonical
  import opened Documents
  import opened TrustedKeys
  import opened Plans
  import opened PlannerRefinement
  import opened Pipeline
  import opened PipelineRuns
  import opened CacheProvenance
  import R = RustPlanner

  /** What one `plan` command reads. */
  datatype PlanInput = PlanInput(manifest: seq<Field>, keys: seq<Field>, token: seq<Field>, requireFips: bool, now: int)

  function PlanOf(lib: Libraries, d: PlanInput): Result<RustPlan> {
    R.Plan(lib, d.manifest, d.keys, d.token, d.requireFips, d.now)
  }

  // ----- one signed text, one plan -----

  /** The documents agree on every member the signature covers. */
  predicate SameSigned(a: seq<Field>, b: seq<Field>) {
    Distinct(Obj(a)) && Distinct(Obj(b)) && Members(a) - {"signature_hex"} == Members(b) - {"signature_hex"}
  }

  lemma SignedMember(a: seq<Field>, b: seq<Field>, key: string)
    requires SameSigned(a, b) && key != "signature_hex"
    ensures Get(a, key).Some? <==> Get(b, key).Some?
    ensures Get(a, key).Some? ==> Meaning(Get(a, key).value) == Meaning(Get(b, key).value)
  {
    GetFinds(a, key);
    GetFinds(b, key);
    KeysOfMembers(a);
    KeysOfMembers(b);
    assert key in Members(a) <==> key in Members(a) - {"signature_hex"};
    assert key in Members(b) <==> key in Members(b) - {"signature_hex"};
    assert key in Members(a) ==> (Members(a) - {"signature_hex"})[key] == Members(a)[key];
    assert key in Members(b) ==> (Members(b) - {"signature_hex"})[key] == Members(b)[key];
  }

  lemma SignedString(a: seq<Field>, b: seq<Field>, key: string)
    requires SameSigned(a, b) && key != "signature_hex"
    ensures SerdeString(a, key) == SerdeString(b, key)
  {
    SignedMember(a, b, key);
  }

  /** Entries in key order are decided by what they mean. */
  lemma {:induction false} EntriesDecided(a: seq<Field>, b: seq<Field>)
    requires Ascending(a) && Ascending(b) && Members(a) == Members(b)
    ensures R.StringEntries(a) == R.StringEntries(b)
  {
    KeysOfMembers(a);
    KeysOfMembers(b);
    if a != [] && b != [] {
      LeastKeysMatch(a, b);
      EntriesDecided(a[1..], b[1..]);
    } else if a != [] {
      KeysStep(a);
    } else if b != [] {
      KeysStep(b);
    }
  }

  lemma SignedArtifacts(a: seq<Field>, b: seq<Field>)
    requires SameSigned(a, b)
    ensures R.BTreeMapField(a, "artifacts") == R.BTreeMapField(b, "artifacts")
  {
    SignedMember(a, b, "artifacts");
    if ObjectField(a, "artifacts").Ok? {
      var x, y := ObjectField(a, "artifacts").value, ObjectField(b, "artifacts").value;
      ObjectFieldDistinct(a, "artifacts");
      ObjectFieldDistinct(b, "artifacts");
      SortAscends(ByUtf8Byte, x);
      SortAscends(ByUtf8Byte, y);
      SortMeaning(ByUtf8Byte, x);
      SortMeaning(ByUtf8Byte, y);
      EntriesDecided(SortFields(ByUtf8Byte, x), SortFields(ByUtf8Byte, y));
    }
  }

  lemma SignedReads(a: seq<Field>, b: seq<Field>, m: R.Manifest, signatureHex: string)
    requires SameSigned(a, b) && Reads(a, m) && SerdeString(b, "signature_hex") == Ok(signatureHex)
    ensures Reads(b, m.(signatureHex := signatureHex))
  {
    SignedString(a, b, "manifest_id");
    SignedString(a, b, "boot_release_set_id");
    SignedString(a, b, "base_release_set_ref");
    SignedString(a, b, "boot_mode");
    SignedString(a, b, "signature_ref");
    SignedString(a, b, "signer_ref");
    SignedString(a, b, "signature_algorithm");
    SignedString(a, b, "crypto_profile");
    SignedArtifacts(a, b);
  }

  /** Manifests with one signed text read as one manifest, but for the signature they carry. */
  lemma PayloadDecidesManifest(a: seq<Field>, b: seq<Field>)
    requires Distinct(Obj(a)) && Distinct(Obj(b)) && RustPayload(Obj(a)) == RustPayload(Obj(b))
    ensures R.ManifestFrom(a).Ok? && SerdeString(b, "signature_hex").Ok? ==>
      R.ManifestFrom(b) == Ok(R.ManifestFrom(a).value.(signatureHex := SerdeString(b, "signature_hex").value))
  {
    RustPayloadDecides(a, b);
    if R.ManifestFrom(a).Ok? && SerdeString(b, "signature_hex").Ok? {
      var m := R.ManifestFrom(a).value;
      var signatureHex := SerdeString(b, "signature_hex").value;
      RustReads(a, m);
      SignedReads(a, b, m, signatureHex);
      RustReads(b, m.(signatureHex := signatureHex));
    }
  }

  /** So for one token the signed text decides the plan, whatever keys, options, clocks and signatures led to it. */
  lemma SignatureBindsPlan(lib: Libraries, a: PlanInput, b: PlanInput)
    requires Distinct(Obj(a.manifest)) && Distinct(Obj(b.manifest)) && a.token == b.token
    requires RustPayload(Obj(a.manifest)) == RustPayload(Obj(b.manifest))
    requires PlanOf(lib, a).Ok? && PlanOf(lib, b).Ok?
    ensures PlanOf(lib, a) == PlanOf(lib, b)
  {
    var m, t := RustPlanParts(lib, a.manifest, a.keys, a.token, a.requireFips, a.now);
    var m', t' := RustPlanParts(lib, b.manifest, b.keys, b.token, b.requireFips, b.now);
    PayloadDecidesManifest(a.manifest, b.manifest);
  }

  // ----- from a signed manifest to a kernel load -----

  /** The plan this fetch reads is one the planner returned for these documents. */
  predicate Planned(lib: Libraries, d: PlanInput, input: FetchInput) {
    Distinct(Obj(d.manifest)) && input.plan.Some? && PlanOf(lib, d) == Ok(input.plan.value)
  }

  /** A returned plan lists the manifest's artifacts, in key order. */
  lemma PlanListsManifest(lib: Libraries, d: PlanInput)
    requires Distinct(Obj(d.manifest)) && PlanOf(lib, d).Ok?
    ensures KeyOrdered(PlanOf(lib, d).value.artifacts)
    ensures R.BTreeMapField(d.manifest, "artifacts") == Ok(PlanOf(lib, d).value.artifacts)
  {
    var m, t := RustPlanParts(lib, d.manifest, d.keys, d.token, d.requireFips, d.now);
    R.BTreeMapIsKeyOrdered(d.manifest, "artifacts");
  }

  /** So a fetch of a returned plan succeeds only with distinct references at distinct cache paths. */
  lemma PlannedFetch(lib: Libraries, d: PlanInput, hash: Hash, host: Host, cache: Path, dir: Path, input: FetchInput)
    requires Planned(lib, d, input) && Fetch(hash, host, cache, dir, input).1.Ok?
    ensures var entries, artifacts := input.plan.value.artifacts, Fetch(hash, host, cache, dir, input).1.value.artifacts;
      && |artifacts| == |entries|
      && (forall i | 0 <= i < |entries| :: entries[i].key in {"kernel_ref", "initrd_ref", "rootfs_ref"})
      && (forall i, j | 0 <= i < j < |entries| :: entries[i].ref != entries[j].ref)
      && (forall i, j | 0 <= i < j < |entries| :: artifacts[i].cachePath != artifacts[j].cachePath)
  {
    PlanListsManifest(lib, d);
    SuccessfulFetch(hash, host, cache, dir, input);
  }

  /** The manifest names `ref` under `key`, and `path` holds bytes with the hash the catalog gives for that reference. */
  predicate HoldsNamed(hash: Hash, host: Host, manifest: seq<Field>, catalog: ArtifactMap, key: string, path: Path) {
    && ObjectField(manifest, "artifacts").Ok?
    && Get(ObjectField(manifest, "artifacts").value, key).Some? && Get(ObjectField(manifest, "artifacts").value, key).value.Str?
    && var ref := Get(ObjectField(manifest, "artifacts").value, key).value.s;
    && FindDescriptor(catalog.artifacts, ref).Ok? && FindDescriptor(catalog.artifacts, ref).value.artifactRef == ref
    && path in host.files && hash(host.files[path]) == FindDescriptor(catalog.artifacts, ref).value.sha256
  }

  lemma PlannedIsNamed(lib: Libraries, d: PlanInput, hash: Hash, host: Host, cache: Path, input: FetchInput, key: string, path: Path)
    requires Planned(lib, d, input) && HoldsPlanned(hash, host, cache, input, key, path)
    ensures HoldsNamed(hash, host, d.manifest, input.artifactMap.value, key, path)
  {
    PlanListsManifest(lib, d);
    var inner := ObjectField(d.manifest, "artifacts").value;
    ObjectFieldDistinct(d.manifest, "artifacts");
    EntriesLookup(SortFields(ByUtf8Byte, inner), key);
    SortGet(ByUtf8Byte, inner, key);
  }

  /** A listed key, live when the plan was made, signed the manifest's canonical bytes. */
  predicate SignedByListed(lib: Libraries, d: PlanInput) {
    && RustPayload(Obj(d.manifest)).Ok? && R.ManifestFrom(d.manifest).Ok? && RustKeyDocument(lib, d.keys).Ok?
    && var m := R.ManifestFrom(d.manifest).value;
    exists key | key in RustKeyDocument(lib, d.keys).value ::
      && key.keyRef == m.signerRef && RustLifecycle(key, d.now).Ok?
      && lib.rustVerify(RustPayload(Obj(d.manifest)).value, m.signatureHex, key.publicKeyPem)
  }

  lemma PlanIsSigned(lib: Libraries, d: PlanInput)
    requires PlanOf(lib, d).Ok?
    ensures SignedByListed(lib, d)
  {
    var m, t := RustPlanParts(lib, d.manifest, d.keys, d.token, d.requireFips, d.now);
    var ks := RustKeyDocument(lib, d.keys).value;
    R.ManifestValidated(lib, m, Obj(d.manifest), d.requireFips, ks, d.now);
    var i := MatchIsListed(ks, m.signerRef, d.now);
    assert ks[i] in ks;
  }

  /**
   End to end: in a run without tampering whose successful fetches read plans the planner returned
   for the given documents, every `kexec --load` loads the kernel and initrd that a signed manifest
   names, the one behind the latest fetch into the directory, with the bytes its catalog describes.
   */
  lemma LoadsSignedFiles(lib: Libraries, hash: Hash, start: Host, steps: seq<Step>, docs: seq<PlanInput>, i: nat, kernel: Path, initrd: Path)
    returns (j: nat)
    requires i < |steps| == |docs| && forall k | 0 <= k < i :: !steps[k].Tamper?
    requires forall k | 0 <= k < i && steps[k].FetchStep? && Fetches(hash, start, steps, k, steps[k].dir) :: Planned(lib, docs[k], steps[k].input)
    requires At(hash, start, steps, i + 1).trace == At(hash, start, steps, i).trace + [KexecLoad(kernel, initrd)]
    requires steps[i].ExecuteStep? ==> EvidenceIn(start, steps[i].x.dir).cacheRecord.None?
    ensures steps[i].ExecuteStep? && j < i && LatestFetch(hash, start, steps, j, i, steps[i].x.dir)
    ensures SignedByListed(lib, docs[j]) && steps[j].input.artifactMap.Some?
    ensures var host, catalog := At(hash, start, steps, i), steps[j].input.artifactMap.value;
      && HoldsNamed(hash, host, docs[j].manifest, catalog, "kernel_ref", kernel)
      && HoldsNamed(hash, host, docs[j].manifest, catalog, "initrd_ref", initrd)
  {
    j := LoadsFetchedPlan(hash, start, steps, i, kernel, initrd);
    var host, fetch := At(hash, start, steps, i), steps[j];
    PlanIsSigned(lib, docs[j]);
    PlannedIsNamed(lib, docs[j], hash, host, fetch.cache, fetch.input, "kernel_ref", kernel);
    PlannedIsNamed(lib, docs[j], hash, host, fetch.cache, fetch.input, "initrd_ref", initrd);
  }
}
