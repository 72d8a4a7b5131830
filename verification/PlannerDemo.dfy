/**
 One family of documents, for any library that reads its key and times and verifies its
 signature. With the FIPS profile it meets every hypothesis of the refinement and both planners
 accept it, unless its key is too small for Python; with another profile the Rust planner accepts
 it and the Python planner does not.
 */
module PlannerDemo {
  import opened Results
  import opened Text
  import opened Json
  import opened KeySort
  import opened Canonical
  import opened Documents
  import opened Device
  import opened TrustedKeys
  import opened Plans
  import opened Enrollment
  import opened Bridge
  import opened PlannerRefinement
  import opened AcceptanceWindow
  import P = PythonPlanner
  import R = RustPlanner

  /** What the documents leave open. `format` writes instants as text, and `notAfter` is what `notAfterText` means. */
  datatype Fixture = Fixture(
    lib: Libraries, format: int -> string, profile: string, pem: string, signatureHex: string,
    notAfterText: string, notAfter: int, issued: int, expires: int)

  const ARTIFACTS := [Field("initrd_ref", Str("i")), Field("kernel_ref", Str("k")), Field("rootfs_ref", Str("r"))]

  const PARSED_ARTIFACTS := [ArtifactRef("initrd_ref", "i"), ArtifactRef("kernel_ref", "k"), ArtifactRef("rootfs_ref", "r")]

  function ManifestOf(f: Fixture): seq<Field> {
    [Field("manifest_id", Str("m")), Field("boot_release_set_id", Str("b")), Field("base_release_set_ref", Str("s")),
     Field("boot_mode", Str("recovery")), Field("artifacts", Obj(ARTIFACTS)), Field("signature_ref", Str(SIGNATURE_URN)),
     Field("signer_ref", Str("k")), Field("signature_algorithm", Str(RSA_PSS_SHA256)),
     Field("crypto_profile", Str(f.profile)), Field("signature_hex", Str(f.signatureHex))]
  }

  function ParsedManifest(f: Fixture): R.Manifest {
    R.Manifest("m", "b", "s", "recovery", PARSED_ARTIFACTS, SIGNATURE_URN, "k", RSA_PSS_SHA256, f.profile, f.signatureHex)
  }

  function BindingOf(f: Fixture): Binding {
    Binding("c", "recovery", "d", "n", "s", "b", ["k"], f.issued, f.expires, 1)
  }

  /** The token rendered for an enrollment binding. */
  function TokenOf(f: Fixture): seq<Field> {
    TokenPayload(f.format, BindingOf(f), "t", "d")
  }

  function ParsedToken(f: Fixture): R.Token {
    RustToken(BindingOf(f), "t", "d")
  }

  function KeyFieldsOf(f: Fixture): seq<Field> {
    [Field("key_ref", Str("k")), Field("algorithm", Str(RSA_PSS_SHA256)), Field("public_key_pem", Str(f.pem)),
     Field("not_after", Str(f.notAfterText))]
  }

  function KeysOf(f: Fixture): seq<Field> {
    [Field("keys", Arr([Obj(KeyFieldsOf(f))]))]
  }

  function ParsedKey(f: Fixture): TrustedKey {
    TrustedKey("k", RSA_PSS_SHA256, f.pem, "active", None, Some(f.notAfter), None, None)
  }

  /** What a real library gives: a PEM key, readable times in order, and a signature that verifies over this very manifest. */
  predicate Genuine(f: Fixture) {
    && Contains(f.pem, PEM_MARKER) && !RustBlank(f.signatureHex)
    && Faithful(f.lib.parseTime, f.format, f.issued) && Faithful(f.lib.parseTime, f.format, f.expires) && f.issued < f.expires
    && f.lib.parseTime(f.notAfterText) == Some(f.notAfter)
    && f.lib.rustVerify(RustPayload(Obj(ManifestOf(f))).value, f.signatureHex, f.pem)
  }

  // ----- the documents parse -----

  lemma ManifestKeysDiffer(f: Fixture)
    ensures var m := ManifestOf(f); forall i, j | 0 <= i < j < |m| :: m[i].key != m[j].key
  {
    var m := ManifestOf(f);
    assert |m[0].key| == 11 && |m[1].key| == 19 && |m[2].key| == 20 && |m[3].key| == 9 && |m[4].key| == 9;
    assert |m[5].key| == 13 && |m[6].key| == 10 && |m[7].key| == 19 && |m[8].key| == 14 && |m[9].key| == 13;
    assert m[1].key[0] != m[7].key[0] && m[3].key[0] != m[4].key[0] && m[5].key[10] != m[9].key[10];
  }

  lemma OneMoreEntry(key: string, ref: string, rest: seq<Field>)
    requires R.StringEntries(rest).Ok?
    ensures R.StringEntries([Field(key, Str(ref))] + rest) == Ok([ArtifactRef(key, ref)] + R.StringEntries(rest).value)
  {
    assert ([Field(key, Str(ref))] + rest)[1..] == rest;
  }

  lemma ArtifactsInOrder()
    ensures Ascending(ARTIFACTS)
  {
    var a := ARTIFACTS;
    assert a[0].key[0] < a[1].key[0] < a[2].key[0];
    assert a[1..] == [a[1], a[2]] && a[1..][1..] == [a[2]];
  }

  lemma ArtifactsParse()
    ensures R.StringEntries(ARTIFACTS) == Ok(PARSED_ARTIFACTS)
  {
    var a, p := ARTIFACTS, PARSED_ARTIFACTS;
    OneMoreEntry("rootfs_ref", "r", []);
    OneMoreEntry("kernel_ref", "k", [a[2]]);
    OneMoreEntry("initrd_ref", "i", [a[1], a[2]]);
    assert [a[2]] + [] == [a[2]] && [a[1]] + [a[2]] == [a[1], a[2]] && [a[0]] + [a[1], a[2]] == a;
    assert [p[2]] + [] == [p[2]] && [p[1]] + [p[2]] == [p[1], p[2]] && [p[0]] + [p[1], p[2]] == p;
  }

  lemma ArtifactMapParses(fields: seq<Field>)
    requires ObjectField(fields, "artifacts") == Ok(ARTIFACTS)
    ensures R.BTreeMapField(fields, "artifacts") == Ok(PARSED_ARTIFACTS)
  {
    ArtifactsInOrder();
    ArtifactsParse();
    SortedStays(ByUtf8Byte, ARTIFACTS);
  }

  lemma NamesRead(f: Fixture)
    ensures var m := ManifestOf(f);
      && SerdeString(m, "manifest_id") == Ok("m") && SerdeString(m, "boot_release_set_id") == Ok("b")
      && SerdeString(m, "base_release_set_ref") == Ok("s") && SerdeString(m, "boot_mode") == Ok("recovery")
      && ObjectField(m, "artifacts") == Ok(ARTIFACTS)
  {
    var m := ManifestOf(f);
    ManifestKeysDiffer(f);
    GetAll(m);
    assert m[0].value.Str? && m[1].value.Str? && m[2].value.Str? && m[3].value.Str? && m[4].value.Obj?;
  }

  lemma SignatureReads(f: Fixture)
    ensures var m := ManifestOf(f);
      && SerdeString(m, "signature_ref") == Ok(SIGNATURE_URN) && SerdeString(m, "signer_ref") == Ok("k")
      && SerdeString(m, "signature_algorithm") == Ok(RSA_PSS_SHA256) && SerdeString(m, "crypto_profile") == Ok(f.profile)
      && SerdeString(m, "signature_hex") == Ok(f.signatureHex)
  {
    var m := ManifestOf(f);
    ManifestKeysDiffer(f);
    GetAll(m);
    assert m[5].value.Str? && m[6].value.Str? && m[7].value.Str? && m[8].value.Str? && m[9].value.Str?;
  }

  lemma ManifestParses(f: Fixture)
    ensures R.ManifestFrom(ManifestOf(f)) == Ok(ParsedManifest(f))
  {
    NamesRead(f);
    SignatureReads(f);
    ArtifactMapParses(ManifestOf(f));
    RustReads(ManifestOf(f), ParsedManifest(f));
  }

  lemma NoMenu(f: Fixture)
    ensures Get(ManifestOf(f), "boot_menu") == None
  {
    var m := ManifestOf(f);
    assert |"boot_menu"| == 9 && |m[3].key| == 9 && |m[4].key| == 9;
    assert m[3].key[6] != "boot_menu"[6] && m[4].key[0] != "boot_menu"[0];
    GetAbsent(m, "boot_menu");
  }

  lemma TokenParses(f: Fixture)
    requires Genuine(f)
    ensures R.TokenFrom(f.lib, TokenOf(f)) == Ok(ParsedToken(f))
  {
    RustReadsPayload(f.lib, f.format, BindingOf(f), "t", "d");
  }

  lemma KeyGets(f: Fixture)
    ensures var k := KeyFieldsOf(f);
      && Get(k, "key_ref") == Some(Str("k")) && Get(k, "algorithm") == Some(Str(RSA_PSS_SHA256))
      && Get(k, "public_key_pem") == Some(Str(f.pem)) && Get(k, "not_after") == Some(Str(f.notAfterText))
      && Get(k, "status") == None && Get(k, "not_before") == None && Get(k, "revoked_at") == None
      && Get(k, "revocation_reason") == None
  {
    var k := KeyFieldsOf(f);
    assert |k[0].key| == 7 && |k[1].key| == 9 && |k[2].key| == 14 && |k[3].key| == 9 && k[1].key[0] != k[3].key[0];
    GetAll(k);
    assert |"status"| == 6 && |"not_before"| == 10 && |"revoked_at"| == 10 && |"revocation_reason"| == 17;
    GetAbsent(k, "status");
    GetAbsent(k, "not_before");
    GetAbsent(k, "revoked_at");
    GetAbsent(k, "revocation_reason");
  }

  lemma KeyParsesInPython(f: Fixture)
    requires Genuine(f)
    ensures KeyFromDict(f.lib, Obj(KeyFieldsOf(f))) == Ok(ParsedKey(f))
  {
    KeyGets(f);
  }

  lemma KeyParsesInRust(f: Fixture)
    requires Genuine(f)
    ensures RustKey(f.lib, Obj(KeyFieldsOf(f))) == Ok(ParsedKey(f))
  {
    KeyGets(f);
  }

  lemma KeysParse(f: Fixture)
    requires Genuine(f)
    ensures KeyEntries(KeysOf(f)) == Ok([Obj(KeyFieldsOf(f))]) && RustKeyDocument(f.lib, KeysOf(f)) == Ok([ParsedKey(f)])
  {
    KeyParsesInRust(f);
    var entries := [Obj(KeyFieldsOf(f))];
    assert entries[1..] == [] && RustKeys(f.lib, entries[1..]) == Ok([]);
    assert [ParsedKey(f)] + [] == [ParsedKey(f)];
  }

  // ----- Rust accepts -----

  lemma UsableInRust()
    ensures !RustBlank("m") && !RustBlank("b") && !RustBlank("s") && !RustBlank("k") && !RustBlank("t") && !RustBlank("d")
    ensures !RustBlank("i") && !RustBlank("r")
  {
    assert !WhiteSpace("m"[0]) && !WhiteSpace("b"[0]) && !WhiteSpace("s"[0]) && !WhiteSpace("k"[0]) && !WhiteSpace("t"[0]);
    assert !WhiteSpace("d"[0]) && !WhiteSpace("i"[0]) && !WhiteSpace("r"[0]);
  }

  lemma LookupSkips(entry: ArtifactRef, rest: seq<ArtifactRef>, key: string)
    requires entry.key != key
    ensures Lookup([entry] + rest, key) == Lookup(rest, key)
  {
    assert ([entry] + rest)[1..] == rest;
  }

  lemma ArtifactsListed()
    ensures Lookup(PARSED_ARTIFACTS, "initrd_ref") == Some("i") && Lookup(PARSED_ARTIFACTS, "kernel_ref") == Some("k")
    ensures Lookup(PARSED_ARTIFACTS, "rootfs_ref") == Some("r")
  {
    var a := PARSED_ARTIFACTS;
    assert a[0].key[0] != "kernel_ref"[0] && a[0].key[0] != "rootfs_ref"[0] && a[1].key[0] != "rootfs_ref"[0];
    assert [a[0]] + [a[1], a[2]] == a && [a[1]] + [a[2]] == [a[1], a[2]];
    LookupSkips(a[0], [a[1], a[2]], "kernel_ref");
    LookupSkips(a[0], [a[1], a[2]], "rootfs_ref");
    LookupSkips(a[1], [a[2]], "rootfs_ref");
  }

  lemma ShapePasses(f: Fixture, requireFips: bool)
    requires Genuine(f) && (requireFips ==> f.profile == FIPS_PROFILE)
    ensures R.ValidateManifestShape(ParsedManifest(f), requireFips).Ok?
  {
    UsableInRust();
    ArtifactsListed();
    assert SIGNATURE_URN[..|SIGNATURE_URN|] == SIGNATURE_URN;
  }

  lemma ManifestValidates(f: Fixture, requireFips: bool, now: int)
    requires Genuine(f) && now < f.notAfter && (requireFips ==> f.profile == FIPS_PROFILE)
    ensures R.ValidateManifest(f.lib, ParsedManifest(f), Obj(ManifestOf(f)), requireFips, [ParsedKey(f)], now).Ok?
  {
    ShapePasses(f, requireFips);
    UsableInRust();
    assert TrustedKeyFor([ParsedKey(f)], "k", now) == Ok(ParsedKey(f));
  }

  lemma TokenValidates(f: Fixture, now: int)
    requires Genuine(f) && now < f.expires
    ensures R.ValidateToken(ParsedToken(f), ParsedManifest(f), now).Ok?
  {
    UsableInRust();
  }

  lemma RustAccepts(f: Fixture, requireFips: bool, now: int)
    requires Genuine(f) && now < f.expires && now < f.notAfter && (requireFips ==> f.profile == FIPS_PROFILE)
    ensures R.ManifestFrom(ManifestOf(f)) == Ok(ParsedManifest(f)) && R.TokenFrom(f.lib, TokenOf(f)) == Ok(ParsedToken(f))
    ensures R.Plan(f.lib, ManifestOf(f), KeysOf(f), TokenOf(f), requireFips, now).Ok?
  {
    ManifestParses(f);
    TokenParses(f);
    KeysParse(f);
    ManifestValidates(f, requireFips, now);
    TokenValidates(f, now);
  }

  // ----- and Python -----

  lemma ArtifactsAreDistinct()
    ensures Distinct(Obj(ARTIFACTS))
  {
    ArtifactsInOrder();
    AscendingIsDistinct(ARTIFACTS);
  }

  lemma KeysOfManifestDistinct(f: Fixture)
    ensures DistinctKeys(ManifestOf(f))
  {
    ManifestKeysDiffer(f);
    MembersAt(ManifestOf(f));
  }

  lemma ManifestIsDistinct(f: Fixture)
    ensures Distinct(Obj(ManifestOf(f)))
  {
    var m := ManifestOf(f);
    KeysOfManifestDistinct(f);
    ArtifactsAreDistinct();
    assert forall i | 0 <= i < |m| :: m[i].value.Str? || m[i].value == Obj(ARTIFACTS);
  }

  /** Rust accepts and Python refuses these documents on any other profile, when require-fips is off. */
  lemma RustAcceptsAlone(f: Fixture, now: int)
    requires Genuine(f) && now < f.expires && now < f.notAfter && f.profile != FIPS_PROFILE
    ensures R.Plan(f.lib, ManifestOf(f), KeysOf(f), TokenOf(f), false, now).Ok?
    ensures P.Plan(f.lib, ManifestOf(f), KeysOf(f), TokenOf(f), false, now).Err?
  {
    RustAccepts(f, false, now);
    ManifestIsDistinct(f);
    PythonAcceptsIff(f.lib, ManifestOf(f), KeysOf(f), TokenOf(f), false, now);
  }

  lemma {:induction false} UnsignedIsAscii(fields: seq<Field>)
    requires forall i | 0 <= i < |fields| && fields[i].key !in SIGNATURE :: Ascii(fields[i].key) && AsciiOnly(fields[i].value)
    ensures AsciiFields(Without(fields, SIGNATURE))
  {
    if fields != [] {
      UnsignedIsAscii(fields[1..]);
      assert fields[0].key !in SIGNATURE ==> Without(fields, SIGNATURE)[1..] == Without(fields[1..], SIGNATURE);
    }
  }

  lemma {:induction false} AsciiFieldByField(fields: seq<Field>)
    requires forall i | 0 <= i < |fields| :: Ascii(fields[i].key) && AsciiOnly(fields[i].value)
    ensures AsciiFields(fields)
  {
    if fields != [] {
      AsciiFieldByField(fields[1..]);
    }
  }

  lemma LongKeysAreAscii()
    ensures Ascii("boot_release_set_id") && Ascii("base_release_set_ref") && Ascii("signature_ref") && Ascii("signature_algorithm")
  {
  }

  lemma KeysAreAscii(f: Fixture)
    ensures var m := ManifestOf(f); forall i | 0 <= i < 9 :: Ascii(m[i].key)
  {
    LongKeysAreAscii();
    assert Ascii("manifest_id") && Ascii("boot_mode") && Ascii("artifacts") && Ascii("signer_ref") && Ascii("crypto_profile");
  }

  lemma ArtifactsAreAscii()
    ensures AsciiOnly(Obj(ARTIFACTS))
  {
    AsciiFieldByField(ARTIFACTS);
  }

  lemma WordsAreAscii()
    ensures Ascii(SIGNATURE_URN) && Ascii(RSA_PSS_SHA256) && Ascii(FIPS_PROFILE)
  {
  }

  lemma ValuesAreAscii(f: Fixture)
    requires f.profile == FIPS_PROFILE
    ensures var m := ManifestOf(f); forall i | 0 <= i < 9 :: AsciiOnly(m[i].value)
  {
    ArtifactsAreAscii();
    WordsAreAscii();
    assert Ascii("m") && Ascii("b") && Ascii("s") && Ascii("k") && Ascii("recovery");
  }

  lemma ManifestIsShared(f: Fixture)
    requires f.profile == FIPS_PROFILE
    ensures AsciiOnly(Obj(Without(ManifestOf(f), SIGNATURE))) && IntsInRange(Obj(ManifestOf(f)))
  {
    KeysAreAscii(f);
    ValuesAreAscii(f);
    assert ManifestOf(f)[9].key in SIGNATURE;
    UnsignedIsAscii(ManifestOf(f));
    assert IntsInRange(Obj(ARTIFACTS));
  }

  lemma KeysLoad(f: Fixture, t: int)
    requires Genuine(f)
    ensures KeyEntries(KeysOf(f)).Ok? && (InKeyWindow(f.lib, KeyEntries(KeysOf(f)).value, t) <==> t < f.notAfter)
    ensures t < f.notAfter ==> LoadTrustedKeys(f.lib, KeysOf(f), t).Ok?
  {
    KeysParse(f);
    KeyParsesInPython(f);
    var entries := [Obj(KeyFieldsOf(f))];
    WindowIsEveryKeysWindow(f.lib, entries, t);
    assert Opened(ParsedKey(f), t) && (Unexpired(ParsedKey(f), t) <==> t < f.notAfter);
    LoadSucceedsIff(f.lib, entries, t, map[]);
    LifecycleIff(ParsedKey(f), t);
  }

  lemma TextIsPlain(f: Fixture)
    requires NoSeparators(f.signatureHex)
    ensures TextWithoutSeparators(ParsedManifest(f), ParsedToken(f))
  {
  }

  /** With the FIPS profile the documents meet every hypothesis of the refinement: Rust accepts them, and Python exactly when the key is large enough. */
  lemma BothAcceptIffStrong(f: Fixture, now: int)
    requires Genuine(f) && now < f.expires && now < f.notAfter && f.profile == FIPS_PROFILE
    requires NoSeparators(f.signatureHex) && TimesHaveText(f.lib) && SignaturesCarryOver(f.lib)
    ensures R.Plan(f.lib, ManifestOf(f), KeysOf(f), TokenOf(f), true, now).Ok?
    ensures P.Plan(f.lib, ManifestOf(f), KeysOf(f), TokenOf(f), true, now).Ok? <==> f.lib.strongKey(f.pem)
  {
    RustAccepts(f, true, now);
    ManifestIsDistinct(f);
    NoMenu(f);
    KeysParse(f);
    KeysLoad(f, now);
    ManifestIsShared(f);
    TextIsPlain(f);
    RustRefinesPython(f.lib, ManifestOf(f), KeysOf(f), TokenOf(f), now);
    assert TrustedKeyFor([ParsedKey(f)], "k", now) == Ok(ParsedKey(f));
  }

  /**
   On these documents `--now` does not decide. They are acceptable as of `now` until key and token
   expire, yet they are accepted exactly while the key is unexpired on the wall clock: so one past
   the key's expiry refuses what was acceptable at `now`, and one before it accepts what was not.
   */
  lemma WallClockDecides(f: Fixture, wall: int, now: int)
    requires Genuine(f) && f.profile == FIPS_PROFILE && NoSeparators(f.signatureHex) && TimesHaveText(f.lib)
    requires SignaturesCarryOver(f.lib) && f.lib.strongKey(f.pem)
    ensures P.Plan(f.lib, ManifestOf(f), KeysOf(f), TokenOf(f), true, now).Ok? <==> now < f.notAfter && now < f.expires
    ensures P.PlanWithClocks(f.lib, ManifestOf(f), KeysOf(f), TokenOf(f), true, wall, now).Ok? <==> wall < f.notAfter && now < f.expires
  {
    var m, k, t := ManifestOf(f), KeysOf(f), TokenOf(f);
    var early := if f.notAfter < f.expires then f.notAfter - 1 else f.expires - 1;
    BothAcceptIffStrong(f, early);
    AcceptedOnTwoClocks(f.lib, m, k, t, true, early, early);
    RustAccepts(f, true, early);
    RustReadsToken(f.lib, t, ParsedToken(f));
    TokenValidates(f, early);
    TokenAcceptedIff(f.lib, t, ParsedToken(f), ParsedManifest(f), early);
    AcceptedOnTwoClocks(f.lib, m, k, t, true, wall, now);
    AcceptedOnTwoClocks(f.lib, m, k, t, true, now, now);
    KeysLoad(f, wall);
    KeysLoad(f, now);
  }
}
