/** The token document rendered from an enrollment binding, and what both planners make of it. */
module Bridge {
  import opened Results
  import opened Text
  import opened Json
  import opened Documents
  import opened Device
  import opened TrustedKeys
  import opened Enrollment
  import P = PythonPlanner
  import R = RustPlanner

  function Audience(binding: Binding, subjectKind: string): seq<Field> {
    [Field("subject_kind", Str(subjectKind)), Field("subject_id", Str(binding.deviceId))]
  }

  function TokenPayload(format: int -> string, binding: Binding, tokenId: string, subjectKind: string): seq<Field> {
    [Field("token_id", Str(tokenId)), Field("purpose", Str(binding.purpose)),
     Field("audience", Obj(Audience(binding, subjectKind))),
     Field("release_set_ref", Str(binding.releaseSetRef)), Field("boot_release_set_ref", Str(binding.bootReleaseSetRef)),
     Field("one_time_use", Bool(true)), Field("issued_at", Str(format(binding.issuedAt))),
     Field("expires_at", Str(format(binding.expiresAt))), Field("status", Str("issued"))]
  }

  lemma PayloadFields(format: int -> string, binding: Binding, tokenId: string, subjectKind: string)
    ensures var fields := TokenPayload(format, binding, tokenId, subjectKind);
      && Get(fields, "token_id") == Some(Str(tokenId)) && Get(fields, "purpose") == Some(Str(binding.purpose))
      && Get(fields, "audience") == Some(Obj(Audience(binding, subjectKind)))
      && Get(fields, "release_set_ref") == Some(Str(binding.releaseSetRef))
      && Get(fields, "boot_release_set_ref") == Some(Str(binding.bootReleaseSetRef))
      && Get(fields, "one_time_use") == Some(Bool(true))
      && Get(fields, "issued_at") == Some(Str(format(binding.issuedAt)))
      && Get(fields, "expires_at") == Some(Str(format(binding.expiresAt)))
      && Get(fields, "status") == Some(Str("issued"))
  {
    var fields := TokenPayload(format, binding, tokenId, subjectKind);
    assert |fields[0].key| == 8 && |fields[1].key| == 7 && |fields[2].key| == 8 && |fields[3].key| == 15;
    assert |fields[4].key| == 20 && |fields[5].key| == 12 && |fields[6].key| == 9 && |fields[7].key| == 10 && |fields[8].key| == 6;
    assert fields[0].key[0] != fields[2].key[0];
    GetAll(fields);
  }

  lemma AudienceFields(binding: Binding, subjectKind: string)
    ensures var audience := Audience(binding, subjectKind);
      Get(audience, "subject_kind") == Some(Str(subjectKind)) && Get(audience, "subject_id") == Some(Str(binding.deviceId))
  {
    var audience := Audience(binding, subjectKind);
    assert |audience[0].key| == 12 && |audience[1].key| == 10;
    GetAll(audience);
  }

  /** The token the rendered document says, in Python's terms and in Rust's. */
  function PythonToken(binding: Binding, tokenId: string, subjectKind: string): P.Token {
    P.Token(tokenId, binding.purpose, subjectKind, Some(binding.deviceId), Str(binding.releaseSetRef),
            Str(binding.bootReleaseSetRef), true, binding.issuedAt, binding.expiresAt, "issued")
  }

  function RustToken(binding: Binding, tokenId: string, subjectKind: string): R.Token {
    R.Token(tokenId, binding.purpose, subjectKind, Some(binding.deviceId), Some(binding.releaseSetRef),
            Some(binding.bootReleaseSetRef), true, binding.issuedAt, binding.expiresAt, "issued")
  }

  lemma IssuedBindingFacts(c: Crypto, call: Call)
    requires call.Issue? && CheckIssue(DeviceServices(c), call).Ok?
    ensures var binding := CheckIssue(DeviceServices(c), call).value;
      && KnownPurpose(binding.purpose) && binding.issuedAt < binding.expiresAt
      && !PythonBlank(binding.deviceId) && !RustBlank(binding.deviceId)
  {
    var binding := CheckIssue(DeviceServices(c), call).value;
    assert Verify(c, call.claim, Some(call.claim.nonce)).Ok?;
    assert Fingerprint(c, call.claim.publicKeyPem) == Ok(binding.deviceId);
    assert binding.deviceId[0] == DEVICE_ID_PREFIX[0] == 'u';
  }

  /** Every issued binding's rendered token parses in both languages, as the token the binding stands for. */
  lemma RenderedTokenParses(c: Crypto, lib: Libraries, call: Call, tokenId: string, subjectKind: string)
    requires call.Issue? && CheckIssue(DeviceServices(c), call).Ok?
    requires !PythonBlank(tokenId) && !PythonBlank(subjectKind)
    requires var binding := CheckIssue(DeviceServices(c), call).value;
      Faithful(lib.parseTime, c.formatTime, binding.issuedAt) && Faithful(lib.parseTime, c.formatTime, binding.expiresAt)
    ensures var binding := CheckIssue(DeviceServices(c), call).value;
            var fields := TokenPayload(c.formatTime, binding, tokenId, subjectKind);
      && P.TokenFromDict(lib, fields) == Ok(PythonToken(binding, tokenId, subjectKind))
      && R.TokenFrom(lib, fields) == Ok(RustToken(binding, tokenId, subjectKind))
  {
    var binding := CheckIssue(DeviceServices(c), call).value;
    IssuedBindingFacts(c, call);
    PythonReadsPayload(lib, c.formatTime, binding, tokenId, subjectKind);
    RustReadsPayload(lib, c.formatTime, binding, tokenId, subjectKind);
  }

  lemma PythonReadsPayload(lib: Libraries, format: int -> string, binding: Binding, tokenId: string, subjectKind: string)
    requires KnownPurpose(binding.purpose) && !PythonBlank(tokenId) && !PythonBlank(subjectKind)
    requires Faithful(lib.parseTime, format, binding.issuedAt) && Faithful(lib.parseTime, format, binding.expiresAt)
    ensures P.TokenFromDict(lib, TokenPayload(format, binding, tokenId, subjectKind)) == Ok(PythonToken(binding, tokenId, subjectKind))
  {
    PayloadFields(format, binding, tokenId, subjectKind);
    AudienceFields(binding, subjectKind);
    P.TokenWordsUsable(binding.purpose);
  }

  lemma RustReadsPayload(lib: Libraries, format: int -> string, binding: Binding, tokenId: string, subjectKind: string)
    requires Faithful(lib.parseTime, format, binding.issuedAt) && Faithful(lib.parseTime, format, binding.expiresAt)
    ensures R.TokenFrom(lib, TokenPayload(format, binding, tokenId, subjectKind)) == Ok(RustToken(binding, tokenId, subjectKind))
  {
    PayloadFields(format, binding, tokenId, subjectKind);
    AudienceFields(binding, subjectKind);
  }

  lemma PurposeTablesAgree(mode: string, purpose: string)
    ensures R.PurposeFits(mode, purpose) <==> P.PurposeFits(mode, purpose)
  {
  }

  /**
   Both planners accept an issued binding's token for a manifest at time t exactly when both
   references match, the purpose is allowed for the mode, and t is before the binding's expiry.
   */
  lemma IssuedTokenAcceptedIff(c: Crypto, call: Call, tokenId: string, subjectKind: string,
                               python: P.Manifest, rust: R.Manifest, t: int)
    requires call.Issue? && CheckIssue(DeviceServices(c), call).Ok?
    requires !PythonBlank(tokenId) && !PythonBlank(subjectKind)
    requires rust.bootReleaseSetId == python.bootReleaseSetId && rust.baseReleaseSetRef == python.baseReleaseSetRef
    requires rust.bootMode == python.bootMode
    ensures var binding := CheckIssue(DeviceServices(c), call).value;
            var fits := && call.bootReleaseSetRef == python.bootReleaseSetId && call.releaseSetRef == python.baseReleaseSetRef
                        && P.PurposeFits(python.bootMode, call.purpose) && t < call.now + call.ttlSeconds * 1_000_000;
      && (P.ValidateToken(PythonToken(binding, tokenId, subjectKind), python, t).Ok? <==> fits)
      && (R.ValidateToken(RustToken(binding, tokenId, subjectKind), rust, t).Ok? <==> fits)
  {
    IssuedBindingFacts(c, call);
    PurposeTablesAgree(python.bootMode, call.purpose);
    BlankTestsCompared(tokenId);
    BlankTestsCompared(subjectKind);
  }
}
