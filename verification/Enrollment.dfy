/** Single-use enrollment codes: what one call to the registry does, as a function of the bindings it holds. */
module Enrollment {
  import opened Results
  import opened Utf8
  import opened Device

  const SECOND := 1_000_000 // instants are microseconds
  const LAST_INSTANT := 315_537_897_599_999_999 // the end of year 9999
  const PURPOSES := {"enroll", "boot", "repair", "recovery"}

  datatype Binding = Binding(
    codeHash: string,
    purpose: string,
    deviceId: string,
    nonce: string,
    releaseSetRef: string,
    bootReleaseSetRef: string,
    artifactRefs: seq<string>,
    issuedAt: int,
    expiresAt: int,
    remainingUses: int)
  {
    predicate IsSpent() {
      remainingUses <= 0
    }
  }

  datatype Credential = Credential(
    sessionId: string,
    deviceId: string,
    purpose: string,
    releaseSetRef: string,
    bootReleaseSetRef: string,
    artifactRefs: seq<string>,
    issuedAt: int,
    expiresAt: int)

  type Bindings = map<string, Binding>

  /** A `datetime` exists for this instant, counted from the start of year 1; computing any other raises OverflowError. */
  predicate Representable(t: int) {
    0 <= t <= LAST_INSTANT
  }

  /** The arguments of one call, with the clock reading and the random text it drew. */
  datatype Call =
    | Issue(claim: Claim, purpose: string, releaseSetRef: string, bootReleaseSetRef: string,
            artifactRefs: seq<string>, ttlSeconds: int, now: int, code: string)
    | Redeem(code: string, claim: Claim, releaseSetRef: string, sessionTtlSeconds: int, now: int, token: string)

  datatype Reply =
    | Issued(code: string, binding: Binding)
    | Redeemed(credential: Credential)
    /** The code is spent, and the call raises OverflowError instead of returning a credential. */
    | Burned
    | Refused(reason: Reason)

  /** What the registry asks of its libraries: hashing a code and verifying a claim against a nonce. */
  datatype Services = Services(hashCode: string -> string, verifyClaim: (Claim, string) -> Result<()>)

  /** The services the registry really uses. */
  function DeviceServices(c: Crypto): Services {
    Services(code => c.sha256(Encode(code)), (claim: Claim, nonce: string) => Verify(c, claim, Some(nonce)))
  }

  function CheckIssue(s: Services, call: Call): Result<Binding>
    requires call.Issue?
  {
    var _ :- Check(call.purpose in PURPOSES, UnsupportedPurpose);
    var _ :- Check(call.ttlSeconds > 0, BadTtl);
    var _ :- Check(call.releaseSetRef != "", EmptyReference);
    var _ :- Check(call.bootReleaseSetRef != "", EmptyReference);
    var _ :- Check(call.artifactRefs != [] && "" !in call.artifactRefs, EmptyReference);
    var _ :- s.verifyClaim(call.claim, call.claim.nonce);
    var _ :- Check(Representable(call.now + call.ttlSeconds * SECOND), TimeOverflow);
    Ok(Binding(s.hashCode(call.code), call.purpose, call.claim.deviceId, call.claim.nonce, call.releaseSetRef,
               call.bootReleaseSetRef, call.artifactRefs, call.now, call.now + call.ttlSeconds * SECOND, 1))
  }

  function CheckRedeem(s: Services, bindings: Bindings, call: Call): Result<Binding>
    requires call.Redeem?
  {
    var _ :- Check(call.code != "", EmptyCode);
    var h := s.hashCode(call.code);
    var _ :- Check(h in bindings, UnknownCode);
    var binding := bindings[h];
    var _ :- Check(!binding.IsSpent(), CodeSpent);
    var _ :- Check(call.now < binding.expiresAt, CodeExpired);
    var _ :- Check(call.releaseSetRef == binding.releaseSetRef, ReleaseSetMismatch);
    var _ :- s.verifyClaim(call.claim, binding.nonce);
    var _ :- Check(call.claim.deviceId == binding.deviceId, WrongDevice);
    Ok(binding)
  }

  function CredentialFor(binding: Binding, call: Call): Credential
    requires call.Redeem?
  {
    Credential("urn:srcos:enrollment-session:" + call.token, binding.deviceId, binding.purpose, binding.releaseSetRef,
               binding.bootReleaseSetRef, binding.artifactRefs, call.now, call.now + call.sessionTtlSeconds * SECOND)
  }

  /** What the redeeming caller gets after the binding has been spent. */
  function SpentReply(binding: Binding, call: Call): Reply
    requires call.Redeem?
  {
    if Representable(call.now + call.sessionTtlSeconds * SECOND) then Redeemed(CredentialFor(binding, call)) else Burned
  }

  /** The bindings after one call, and its reply. */
  function Apply(s: Services, bindings: Bindings, call: Call): (Bindings, Reply) {
    match call
    case Issue(_, _, _, _, _, _, _, code) =>
      (match CheckIssue(s, call)
       case Ok(binding) => (bindings[binding.codeHash := binding], Issued(code, binding))
       case Err(reason) => (bindings, Refused(reason)))
    case Redeem(_, _, _, _, _, _) =>
      (match CheckRedeem(s, bindings, call)
       case Ok(binding) =>
         (bindings[binding.codeHash := binding.(remainingUses := binding.remainingUses - 1)], SpentReply(binding, call))
       case Err(reason) => (bindings, Refused(reason)))
  }

  /** A reply as the caller sees it: both kinds of failure are an exception. */
  function Seen(reply: Reply): Result<Credential>
    requires !reply.Issued?
  {
    match reply
    case Redeemed(credential) => Ok(credential)
    case Burned => Err(TimeOverflow)
    case Refused(reason) => Err(reason)
  }

  /** The bindings after a run of calls. */
  function Run(s: Services, bindings: Bindings, calls: seq<Call>): Bindings
    decreases calls
  {
    if calls == [] then bindings else Run(s, Apply(s, bindings, calls[0]).0, calls[1..])
  }

  lemma {:induction false} RunAppend(s: Services, bindings: Bindings, calls: seq<Call>, call: Call)
    ensures Run(s, bindings, calls + [call]) == Apply(s, Run(s, bindings, calls), call).0
    decreases calls
  {
    if calls == [] {
      assert calls + [call] == [call];
      assert [call][1..] == [];
    } else {
      assert (calls + [call])[1..] == calls[1..] + [call];
      RunAppend(s, Apply(s, bindings, calls[0]).0, calls[1..], call);
    }
  }
}
