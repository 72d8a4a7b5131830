/** Device identities and the self-signed claims that prove possession of a device key. */
module Device {
  import opened Results
  import opened Text
  import opened Utf8
  import opened Json
  import opened Canonical
  import opened Documents

  const RSA_PSS_SHA256 := "rsa-pss-sha256"
  const FIPS_PROFILE := "fips-140-3-compatible"
  const DEVICE_ID_PREFIX := "urn:srcos:device:"
  const PEM_MARKER := "BEGIN PUBLIC KEY"

  /** The cryptography and clock-text libraries, as uninterpreted functions. */
  datatype Crypto = Crypto(
    /** DER bytes of an RSA public key of at least 2048 bits, if the PEM text holds one. */
    loadKey: string -> Option<Bytes>,
    sha256: Bytes -> string,
    fromHex: string -> Option<Bytes>,
    /** Does this key's signature over the payload verify? Arguments: key, payload, signature. */
    verify: (Bytes, Bytes, Bytes) -> bool,
    sign: (string, Bytes) -> string,
    formatTime: int -> string,
    parseTime: string -> Option<int>)

  datatype Claim = Claim(
    deviceId: string,
    publicKeyPem: string,
    nonce: string,
    claimedAt: int,
    signatureAlgorithm: string,
    cryptoProfile: string,
    signatureHex: string)

  datatype Identity = Identity(deviceId: string, publicKeyPem: string, privateKey: string)

  function LoadPublicKey(c: Crypto, pem: string): Result<Bytes> {
    var _ :- Check(Contains(pem, PEM_MARKER), NotPem);
    FromOption(c.loadKey(pem), BadDeviceKey)
  }

  function Fingerprint(c: Crypto, pem: string): Result<string> {
    var der :- LoadPublicKey(c, pem);
    Ok(DEVICE_ID_PREFIX + "sha256:" + c.sha256(der))
  }

  function UnsignedClaim(c: Crypto, deviceId: string, pem: string, nonce: string, claimedAt: int): seq<Field> {
    [Field("device_id", Str(deviceId)), Field("public_key_pem", Str(pem)),
     Field("nonce", Str(nonce)), Field("claimed_at", Str(c.formatTime(claimedAt)))]
  }

  function SigningPayload(c: Crypto, deviceId: string, pem: string, nonce: string, claimedAt: int): Bytes {
    SortedJson(UnsignedClaim(c, deviceId, pem, nonce, claimedAt))
  }

  function MakeClaim(c: Crypto, id: Identity, nonce: string, claimedAt: int): Result<Claim> {
    var _ :- Check(!PythonBlank(nonce), BlankNonce);
    Ok(Claim(id.deviceId, id.publicKeyPem, nonce, claimedAt, RSA_PSS_SHA256, FIPS_PROFILE,
             c.sign(id.privateKey, SigningPayload(c, id.deviceId, id.publicKeyPem, nonce, claimedAt))))
  }

  function Verify(c: Crypto, claim: Claim, expectedNonce: Option<string>): Result<()> {
    var fingerprint :- Fingerprint(c, claim.publicKeyPem);
    var _ :- Check(fingerprint == claim.deviceId, FingerprintMismatch);
    var _ :- Check(expectedNonce.None? || claim.nonce == expectedNonce.value, NonceMismatch);
    var key :- LoadPublicKey(c, claim.publicKeyPem);
    var signature :- FromOption(c.fromHex(claim.signatureHex), NotHex);
    var _ :- Check(c.verify(key, SigningPayload(c, claim.deviceId, claim.publicKeyPem, claim.nonce, claim.claimedAt), signature),
             BadSignature);
    Ok(())
  }

  function FromDict(c: Crypto, fields: seq<Field>): Result<Claim> {
    var deviceId :- RequireString(fields, "device_id");
    var pem :- RequireString(fields, "public_key_pem");
    var nonce :- RequireString(fields, "nonce");
    var claimedAtText :- RequireString(fields, "claimed_at");
    var claimedAt :- ParseTime(c.parseTime, claimedAtText, "claimed_at");
    var algorithm :- RequireString(fields, "signature_algorithm");
    var profile :- RequireString(fields, "crypto_profile");
    var signatureHex :- RequireString(fields, "signature_hex");
    var _ :- Check(algorithm == RSA_PSS_SHA256, BadAlgorithm);
    var _ :- Check(profile == FIPS_PROFILE, BadProfile);
    var _ :- Check(StartsWith(deviceId, DEVICE_ID_PREFIX), NotADeviceUrn);
    Ok(Claim(deviceId, pem, nonce, claimedAt, algorithm, profile, signatureHex))
  }

  function ToDict(c: Crypto, claim: Claim): seq<Field> {
    [Field("device_id", Str(claim.deviceId)), Field("public_key_pem", Str(claim.publicKeyPem)),
     Field("nonce", Str(claim.nonce)), Field("claimed_at", Str(c.formatTime(claim.claimedAt))),
     Field("signature_algorithm", Str(claim.signatureAlgorithm)), Field("crypto_profile", Str(claim.cryptoProfile)),
     Field("signature_hex", Str(claim.signatureHex))]
  }

  // ----- what the signature covers -----

  lemma UnsignedClaimKeys(c: Crypto, deviceId: string, pem: string, nonce: string, claimedAt: int)
    ensures var fields := UnsignedClaim(c, deviceId, pem, nonce, claimedAt);
      forall i, j | 0 <= i < j < |fields| :: fields[i].key != fields[j].key
  {
    var fields := UnsignedClaim(c, deviceId, pem, nonce, claimedAt);
    assert |fields[0].key| == 9 && |fields[1].key| == 14 && |fields[2].key| == 5 && |fields[3].key| == 10;
  }

  lemma UnsignedClaimMembers(c: Crypto, deviceId: string, pem: string, nonce: string, claimedAt: int)
    ensures var fields := UnsignedClaim(c, deviceId, pem, nonce, claimedAt);
      && Distinct(Obj(fields))
      && forall i | 0 <= i < 4 :: fields[i].key in Members(fields) && Members(fields)[fields[i].key] == Meaning(fields[i].value)
  {
    UnsignedClaimKeys(c, deviceId, pem, nonce, claimedAt);
    MembersAt(UnsignedClaim(c, deviceId, pem, nonce, claimedAt));
  }

  /** The signed object has exactly these four members. */
  lemma ClaimMembers(c: Crypto, deviceId: string, pem: string, nonce: string, claimedAt: int)
    ensures var fields := UnsignedClaim(c, deviceId, pem, nonce, claimedAt);
      && |fields| == 4 && Get(fields, "device_id") == Some(Str(deviceId)) && Get(fields, "public_key_pem") == Some(Str(pem))
      && Get(fields, "nonce") == Some(Str(nonce)) && Get(fields, "claimed_at") == Some(Str(c.formatTime(claimedAt)))
  {
    var fields := UnsignedClaim(c, deviceId, pem, nonce, claimedAt);
    UnsignedClaimKeys(c, deviceId, pem, nonce, claimedAt);
    GetAll(fields);
    assert fields[0].value.Str? && fields[1].value.Str? && fields[2].value.Str? && fields[3].value.Str?;
  }

  /** One signature covers exactly one device id, key, nonce and claim time text. */
  lemma PayloadBindsEveryField(c: Crypto, a: Claim, b: Claim)
    ensures SigningPayload(c, a.deviceId, a.publicKeyPem, a.nonce, a.claimedAt)
         == SigningPayload(c, b.deviceId, b.publicKeyPem, b.nonce, b.claimedAt)
       <==> && a.deviceId == b.deviceId && a.publicKeyPem == b.publicKeyPem && a.nonce == b.nonce
            && c.formatTime(a.claimedAt) == c.formatTime(b.claimedAt)
  {
    UnsignedClaimMembers(c, a.deviceId, a.publicKeyPem, a.nonce, a.claimedAt);
    UnsignedClaimMembers(c, b.deviceId, b.publicKeyPem, b.nonce, b.claimedAt);
    var x := UnsignedClaim(c, a.deviceId, a.publicKeyPem, a.nonce, a.claimedAt);
    var y := UnsignedClaim(c, b.deviceId, b.publicKeyPem, b.nonce, b.claimedAt);
    SortedJsonDecides(x, y);
    if Members(x) == Members(y) {
      forall i | 0 <= i < 4 ensures Meaning(x[i].value) == Meaning(y[i].value) {
        assert x[i].key == y[i].key;
      }
      assert Meaning(x[0].value) == Meaning(y[0].value) && Meaning(x[1].value) == Meaning(y[1].value);
      assert Meaning(x[2].value) == Meaning(y[2].value) && Meaning(x[3].value) == Meaning(y[3].value);
    }
  }

  /** The identity's id is its key's fingerprint and its signatures verify under that key. */
  ghost predicate Sound(c: Crypto, id: Identity) {
    && Fingerprint(c, id.publicKeyPem) == Ok(id.deviceId)
    && forall m: Bytes ::
         var hex := c.sign(id.privateKey, m);
         c.fromHex(hex).Some? && c.verify(LoadPublicKey(c, id.publicKeyPem).value, m, c.fromHex(hex).value)
  }

  /** A device's own claim verifies against its nonce, against no expectation, and against no other nonce. */
  lemma MadeClaimVerifies(c: Crypto, id: Identity, nonce: string, claimedAt: int, expected: Option<string>)
    requires Sound(c, id)
    ensures MakeClaim(c, id, nonce, claimedAt).Ok? <==> !PythonBlank(nonce)
    ensures MakeClaim(c, id, nonce, claimedAt).Ok? ==>
      (Verify(c, MakeClaim(c, id, nonce, claimedAt).value, expected).Ok? <==> expected.None? || expected.value == nonce)
  {
    var m := SigningPayload(c, id.deviceId, id.publicKeyPem, nonce, claimedAt);
    var hex := c.sign(id.privateKey, m);
    assert c.fromHex(hex).Some? && c.verify(LoadPublicKey(c, id.publicKeyPem).value, m, c.fromHex(hex).value);
  }

  /** An expected nonce adds one question to verification: is it the claim's. */
  lemma ExpectationAsksForNonce(c: Crypto, claim: Claim, expected: string)
    ensures Verify(c, claim, Some(expected)).Ok? <==> Verify(c, claim, None).Ok? && claim.nonce == expected
  {
  }

  /** A claim a device makes is its own, for this nonce and time, under the one algorithm and profile. */
  lemma MadeClaimSays(c: Crypto, id: Identity, nonce: string, claimedAt: int)
    requires MakeClaim(c, id, nonce, claimedAt).Ok?
    ensures var claim := MakeClaim(c, id, nonce, claimedAt).value;
      && claim.deviceId == id.deviceId && claim.publicKeyPem == id.publicKeyPem && claim.nonce == nonce
      && claim.claimedAt == claimedAt && claim.signatureAlgorithm == "rsa-pss-sha256"
      && claim.cryptoProfile == "fips-140-3-compatible"
  {
  }

  predicate WellFormed(claim: Claim) {
    && !PythonBlank(claim.deviceId) && !PythonBlank(claim.publicKeyPem) && !PythonBlank(claim.nonce)
    && !PythonBlank(claim.signatureHex)
    && claim.signatureAlgorithm == "rsa-pss-sha256" && claim.cryptoProfile == "fips-140-3-compatible"
    && StartsWith(claim.deviceId, "urn:srcos:device:")
  }

  /** Claims survive the trip through JSON exactly when they are well formed; nothing else parses. */
  lemma ClaimRoundTrip(c: Crypto, claim: Claim)
    requires Faithful(c.parseTime, c.formatTime, claim.claimedAt)
    ensures WellFormed(claim) ==> FromDict(c, ToDict(c, claim)) == Ok(claim)
    ensures !WellFormed(claim) ==> FromDict(c, ToDict(c, claim)).Err?
  {
    var fields := ToDict(c, claim);
    ClaimFields(c, claim);
    assert !PythonBlank(RSA_PSS_SHA256) by { assert RSA_PSS_SHA256[0] == 'r'; }
    assert !PythonBlank(FIPS_PROFILE) by { assert FIPS_PROFILE[0] == 'f'; }
  }

  lemma ClaimFields(c: Crypto, claim: Claim)
    ensures var fields := ToDict(c, claim);
      && Get(fields, "device_id") == Some(Str(claim.deviceId))
      && Get(fields, "public_key_pem") == Some(Str(claim.publicKeyPem))
      && Get(fields, "nonce") == Some(Str(claim.nonce))
      && Get(fields, "claimed_at") == Some(Str(c.formatTime(claim.claimedAt)))
      && Get(fields, "signature_algorithm") == Some(Str(claim.signatureAlgorithm))
      && Get(fields, "crypto_profile") == Some(Str(claim.cryptoProfile))
      && Get(fields, "signature_hex") == Some(Str(claim.signatureHex))
  {
    var fields := ToDict(c, claim);
    assert |fields[0].key| == 9 && |fields[1].key| == 14 && |fields[2].key| == 5 && |fields[3].key| == 10;
    assert |fields[4].key| == 19 && |fields[5].key| == 14 && |fields[6].key| == 13;
    assert fields[1].key[0] != fields[5].key[0];
    GetAll(fields);
  }
}
