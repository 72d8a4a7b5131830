/** What holds over every run of issue and redeem calls, in any order and with any arguments. */
module EnrollmentRuns {
  import opened Text
  import opened Utf8
  import opened Device
  import opened Enrollment

  /** Bindings sit under their own hash with zero or one use left; every run keeps this. */
  predicate Sane(bindings: Bindings) {
    forall h | h in bindings :: bindings[h].codeHash == h && 0 <= bindings[h].remainingUses <= 1
  }

  lemma {:induction false} RunKeepsSane(s: Services, bindings: Bindings, calls: seq<Call>)
    requires Sane(bindings)
    ensures Sane(Run(s, bindings, calls))
    decreases calls
  {
    if calls != [] {
      RunKeepsSane(s, Apply(s, bindings, calls[0]).0, calls[1..]);
    }
  }

  /** The bindings just before call `i` of a run that starts with an empty registry. */
  function Before(s: Services, calls: seq<Call>, i: nat): Bindings
    requires i <= |calls|
  {
    Run(s, map[], calls[..i])
  }

  function ReplyAt(s: Services, calls: seq<Call>, i: nat): Reply
    requires i < |calls|
  {
    Apply(s, Before(s, calls, i), calls[i]).1
  }

  lemma StepAt(s: Services, calls: seq<Call>, i: nat)
    requires i < |calls|
    ensures Before(s, calls, i + 1) == Apply(s, Before(s, calls, i), calls[i]).0
    ensures Sane(Before(s, calls, i))
  {
    assert calls[..i + 1] == calls[..i] + [calls[i]];
    RunAppend(s, map[], calls[..i], calls[i]);
    RunKeepsSane(s, map[], calls[..i]);
  }

  function CodeHash(s: Services, call: Call): string {
    s.hashCode(call.code)
  }

  function Remaining(bindings: Bindings, h: string): int {
    if h in bindings then bindings[h].remainingUses else 0
  }

  // ----- conservation -----

  function Count(b: bool): nat {
    if b then 1 else 0
  }

  /** One call's successful issue, successful redemption, burning, or overwriting of an unspent binding, of `h`. */
  function Issued1(s: Services, bindings: Bindings, call: Call, h: string): nat {
    Count(Apply(s, bindings, call).1.Issued? && CodeHash(s, call) == h)
  }

  function Redeemed1(s: Services, bindings: Bindings, call: Call, h: string): nat {
    Count(Apply(s, bindings, call).1.Redeemed? && CodeHash(s, call) == h)
  }

  function Burned1(s: Services, bindings: Bindings, call: Call, h: string): nat {
    Count(Apply(s, bindings, call).1.Burned? && CodeHash(s, call) == h)
  }

  function Overwrote1(s: Services, bindings: Bindings, call: Call, h: string): nat {
    if Remaining(bindings, h) > 0 then Issued1(s, bindings, call, h) else 0
  }

  function Issues(s: Services, bindings: Bindings, calls: seq<Call>, h: string): nat
    decreases calls
  {
    if calls == [] then 0
    else Issued1(s, bindings, calls[0], h) + Issues(s, Apply(s, bindings, calls[0]).0, calls[1..], h)
  }

  function Redemptions(s: Services, bindings: Bindings, calls: seq<Call>, h: string): nat
    decreases calls
  {
    if calls == [] then 0
    else Redeemed1(s, bindings, calls[0], h) + Redemptions(s, Apply(s, bindings, calls[0]).0, calls[1..], h)
  }

  function Burns(s: Services, bindings: Bindings, calls: seq<Call>, h: string): nat
    decreases calls
  {
    if calls == [] then 0
    else Burned1(s, bindings, calls[0], h) + Burns(s, Apply(s, bindings, calls[0]).0, calls[1..], h)
  }

  function Overwrites(s: Services, bindings: Bindings, calls: seq<Call>, h: string): nat
    decreases calls
  {
    if calls == [] then 0
    else Overwrote1(s, bindings, calls[0], h) + Overwrites(s, Apply(s, bindings, calls[0]).0, calls[1..], h)
  }

  lemma StepBalance(s: Services, bindings: Bindings, call: Call, h: string)
    requires Sane(bindings)
    ensures Sane(Apply(s, bindings, call).0)
    ensures Remaining(bindings, h) + Issued1(s, bindings, call, h)
         == Redeemed1(s, bindings, call, h) + Burned1(s, bindings, call, h) + Overwrote1(s, bindings, call, h)
            + Remaining(Apply(s, bindings, call).0, h)
    ensures Overwrote1(s, bindings, call, h) <= Issued1(s, bindings, call, h)
    ensures Issued1(s, bindings, call, h) == 0 ==> Remaining(Apply(s, bindings, call).0, h) <= Remaining(bindings, h)
  {
  }

  lemma {:induction false} Balance(s: Services, bindings: Bindings, calls: seq<Call>, h: string)
    requires Sane(bindings)
    ensures Remaining(bindings, h) + Issues(s, bindings, calls, h)
         == Redemptions(s, bindings, calls, h) + Burns(s, bindings, calls, h) + Overwrites(s, bindings, calls, h)
            + Remaining(Run(s, bindings, calls), h)
    ensures Overwrites(s, bindings, calls, h) <= Issues(s, bindings, calls, h)
    ensures Remaining(bindings, h) == 0 && Overwrites(s, bindings, calls, h) > 0 ==> Issues(s, bindings, calls, h) > 1
    decreases calls
  {
    if calls != [] {
      StepBalance(s, bindings, calls[0], h);
      Balance(s, Apply(s, bindings, calls[0]).0, calls[1..], h);
    }
  }

  /**
   Every use issued is redeemed, burned, still there, or was lost to a reissue of the same hash.
   So a hash is never redeemed more often than it was issued; and once it is issued exactly once,
   its remaining uses and its redemptions add up to one if and only if it was not burned.
   */
  lemma Conservation(s: Services, calls: seq<Call>, h: string)
    ensures var issues, redemptions := Issues(s, map[], calls, h), Redemptions(s, map[], calls, h);
            var burned, lost := Burns(s, map[], calls, h), Overwrites(s, map[], calls, h);
            var remaining := Remaining(Run(s, map[], calls), h);
      && issues == redemptions + burned + lost + remaining
      && redemptions <= issues
      && (issues == 1 ==> remaining + redemptions + burned == 1)
      && (remaining + redemptions == issues <==> burned == 0 && lost == 0)
  {
    Balance(s, map[], calls, h);
    RunKeepsSane(s, map[], calls);
  }

  // ----- provenance -----

  /** What an issue accepts, the one binding it adds, and that nothing else in the registry changes. */
  lemma IssueAcceptedIff(s: Services, bindings: Bindings, call: Call)
    requires call.Issue?
    ensures Apply(s, bindings, call).1.Issued? <==>
      && call.purpose in {"enroll", "boot", "repair", "recovery"} && call.ttlSeconds > 0
      && call.releaseSetRef != "" && call.bootReleaseSetRef != ""
      && call.artifactRefs != [] && (forall r | r in call.artifactRefs :: r != "")
      && s.verifyClaim(call.claim, call.claim.nonce).Ok?
      && Representable(call.now + call.ttlSeconds * 1_000_000)
    ensures Apply(s, bindings, call).1.Issued? ==>
      var (after, reply) := Apply(s, bindings, call);
      var h := s.hashCode(call.code);
      && after.Keys == bindings.Keys + {h} && (forall k | k in bindings && k != h :: after[k] == bindings[k])
      && after[h] == reply.binding && reply.code == call.code
      && reply.binding == Binding(h, call.purpose, call.claim.deviceId, call.claim.nonce, call.releaseSetRef, call.bootReleaseSetRef,
                                  call.artifactRefs, call.now, call.now + call.ttlSeconds * 1_000_000, 1)
    ensures Apply(s, bindings, call).1.Refused? ==> Apply(s, bindings, call).0 == bindings
  {
  }

  /** The instants that exist are those of the years 1 to 9999 of the Gregorian calendar, in microseconds. */
  lemma RepresentableYears(t: int)
    ensures Representable(t) <==> 0 <= t < (9999 * 365 + 9999 / 4 - 9999 / 100 + 9999 / 400) * 86_400 * 1_000_000
  {
  }

  /** What a redemption accepts, and that a refused one changes nothing. */
  lemma RedeemAcceptedIff(s: Services, bindings: Bindings, call: Call)
    requires call.Redeem? && Sane(bindings)
    ensures var h := s.hashCode(call.code);
      Apply(s, bindings, call).1.Redeemed? <==>
        && call.code != "" && h in bindings && bindings[h].remainingUses == 1
        && call.now < bindings[h].expiresAt && call.releaseSetRef == bindings[h].releaseSetRef
        && call.claim.deviceId == bindings[h].deviceId && s.verifyClaim(call.claim, bindings[h].nonce).Ok?
        && Representable(call.now + call.sessionTtlSeconds * 1_000_000)
    ensures Apply(s, bindings, call).1.Redeemed? ==>
      var h := s.hashCode(call.code);
      Apply(s, bindings, call).0 == bindings[h := bindings[h].(remainingUses := 0)]
    ensures Apply(s, bindings, call).1.Refused? ==> Apply(s, bindings, call).0 == bindings
  {
  }

  /** Call `i` succeeded and changed the binding under `h`. */
  predicate Touches(s: Services, calls: seq<Call>, i: nat, h: string)
    requires i < |calls|
  {
    !ReplyAt(s, calls, i).Refused? && CodeHash(s, calls[i]) == h
  }

  /** Call `j` issued `binding` and nothing has touched its hash before call `n`. */
  predicate Origin(s: Services, calls: seq<Call>, j: nat, n: nat, binding: Binding)
    requires j < n <= |calls|
  {
    && calls[j].Issue? && ReplyAt(s, calls, j) == Issued(calls[j].code, binding)
    && forall k | j < k < n :: !Touches(s, calls, k, binding.codeHash)
  }

  /** A call that does not touch a hash leaves its binding as it was. */
  lemma UntouchedIsKept(s: Services, calls: seq<Call>, i: nat, h: string)
    requires i < |calls| && !Touches(s, calls, i, h)
    ensures Remaining(Before(s, calls, i + 1), h) == Remaining(Before(s, calls, i), h)
    ensures h in Before(s, calls, i + 1) ==> h in Before(s, calls, i) && Before(s, calls, i + 1)[h] == Before(s, calls, i)[h]
  {
    StepAt(s, calls, i);
  }

  /** A call that touches a hash and leaves it unspent has just issued it. */
  lemma TouchedUnspentIsIssued(s: Services, calls: seq<Call>, i: nat, h: string)
    requires i < |calls| && Touches(s, calls, i, h) && Remaining(Before(s, calls, i + 1), h) > 0
    ensures var binding := Before(s, calls, i + 1)[h];
      calls[i].Issue? && ReplyAt(s, calls, i) == Issued(calls[i].code, binding) && binding.codeHash == h
  {
    StepAt(s, calls, i);
  }

  /** An unspent binding was put there by an issue, and its hash has been left alone since. */
  lemma {:induction false} UnspentHasOrigin(s: Services, calls: seq<Call>, n: nat, h: string) returns (j: nat)
    requires n <= |calls| && Remaining(Before(s, calls, n), h) > 0
    ensures j < n && Origin(s, calls, j, n, Before(s, calls, n)[h]) && Before(s, calls, n)[h].codeHash == h
    decreases n
  {
    assert n > 0;
    if Touches(s, calls, n - 1, h) {
      j := n - 1;
      TouchedUnspentIsIssued(s, calls, j, h);
    } else {
      UntouchedIsKept(s, calls, n - 1, h);
      j := UnspentHasOrigin(s, calls, n - 1, h);
    }
  }

  /**
   Every credential comes from one earlier issue of the same hash that nothing has touched in
   between, carries what that issue authorised, was redeemed before that issue's expiry, and
   both calls' claims verified against the one nonce.
   */
  lemma CredentialProvenance(s: Services, calls: seq<Call>, i: nat) returns (j: nat)
    requires i < |calls| && ReplyAt(s, calls, i).Redeemed?
    ensures j < i && calls[i].Redeem? && calls[j].Issue?
    ensures ReplyAt(s, calls, j).Issued? && CodeHash(s, calls[j]) == CodeHash(s, calls[i])
    ensures forall k | j < k < i :: !Touches(s, calls, k, CodeHash(s, calls[i]))
    ensures var cred, issue, redeem := ReplyAt(s, calls, i).credential, calls[j], calls[i];
      && cred.deviceId == issue.claim.deviceId == redeem.claim.deviceId
      && cred.purpose == issue.purpose && cred.purpose in {"enroll", "boot", "repair", "recovery"}
      && cred.releaseSetRef == issue.releaseSetRef == redeem.releaseSetRef
      && cred.bootReleaseSetRef == issue.bootReleaseSetRef
      && cred.artifactRefs == issue.artifactRefs
      && cred.issuedAt == redeem.now < issue.now + issue.ttlSeconds * 1_000_000
      && cred.expiresAt == redeem.now + redeem.sessionTtlSeconds * 1_000_000
      && cred.sessionId == "urn:srcos:enrollment-session:" + redeem.token
      && s.verifyClaim(issue.claim, issue.claim.nonce).Ok?
      && s.verifyClaim(redeem.claim, issue.claim.nonce).Ok?
  {
    var h := CodeHash(s, calls[i]);
    StepAt(s, calls, i);
    j := UnspentHasOrigin(s, calls, i, h);
  }

  /** Call `i` spent a code, with a credential or without. */
  predicate Spends(s: Services, calls: seq<Call>, i: nat)
    requires i < |calls|
  {
    ReplyAt(s, calls, i).Redeemed? || ReplyAt(s, calls, i).Burned?
  }

  /** Two calls that spend a code of one hash, redeemed or burned, always have a successful reissue of that hash between them. */
  lemma NoReplay(s: Services, calls: seq<Call>, i: nat, k: nat) returns (j: nat)
    requires i < k < |calls| && CodeHash(s, calls[i]) == CodeHash(s, calls[k])
    requires Spends(s, calls, i) && Spends(s, calls, k)
    ensures i < j < k && ReplyAt(s, calls, j).Issued? && CodeHash(s, calls[j]) == CodeHash(s, calls[i])
  {
    StepAt(s, calls, k);
    j := UnspentHasOrigin(s, calls, k, CodeHash(s, calls[k]));
    if j <= i {
      if j < i {
        assert Touches(s, calls, i, CodeHash(s, calls[k]));
      }
      assert false;
    }
  }

  // ----- failed calls -----

  /** The call passes every check of a redemption, and then its session would end at no instant that exists. */
  predicate Overflows(s: Services, bindings: Bindings, call: Call) {
    call.Redeem? && CheckRedeem(s, bindings, call).Ok? && !Representable(call.now + call.sessionTtlSeconds * 1_000_000)
  }

  /** A call that returns nothing has changed the registry exactly when it burned a code; then only that binding, to spent. */
  lemma FailedCallChangesIff(s: Services, bindings: Bindings, call: Call)
    requires Sane(bindings) && !Apply(s, bindings, call).1.Issued? && !Apply(s, bindings, call).1.Redeemed?
    ensures Apply(s, bindings, call).0 != bindings <==> Overflows(s, bindings, call)
    ensures Overflows(s, bindings, call) ==>
      var h := CodeHash(s, call);
      && Apply(s, bindings, call) == (bindings[h := bindings[h].(remainingUses := 0)], Burned)
      && Remaining(bindings, h) == 1
  {
    if Overflows(s, bindings, call) {
      assert Apply(s, bindings, call).0[CodeHash(s, call)] != bindings[CodeHash(s, call)];
    }
  }

  /** One issue, and a redemption of its code for a session of some 31700 years. */
  function IssueThenBurn(claim: Claim, code: string): seq<Call> {
    [Issue(claim, "enroll", "r", "b", ["a"], 900, 0, code), Redeem(code, claim, "r", 1_000_000_000_000, 0, "t")]
  }

  lemma SingleCall(s: Services, bindings: Bindings, call: Call, h: string)
    ensures Run(s, bindings, [call]) == Apply(s, bindings, call).0
    ensures Issues(s, bindings, [call], h) == Issued1(s, bindings, call, h)
    ensures Redemptions(s, bindings, [call], h) == Redeemed1(s, bindings, call, h)
  {
    assert [call][1..] == [];
  }

  /** The code is gone and no credential exists: one use was issued, and none is redeemed or left. */
  lemma OverflowBurnsCode(s: Services, claim: Claim, code: string)
    requires code != "" && s.verifyClaim(claim, claim.nonce).Ok?
    ensures var calls, h := IssueThenBurn(claim, code), s.hashCode(code);
      && ReplyAt(s, calls, 0).Issued? && ReplyAt(s, calls, 1) == Burned
      && Issues(s, map[], calls, h) == 1 && Redemptions(s, map[], calls, h) == 0
      && Remaining(Run(s, map[], calls), h) == 0
  {
    var calls, h := IssueThenBurn(claim, code), s.hashCode(code);
    var issued := Apply(s, map[], calls[0]).0;
    assert Apply(s, map[], calls[0]).1.Issued? && Apply(s, issued, calls[1]).1 == Burned;
    assert calls[1..] == [calls[1]] && calls[..0] == [] && calls[..1] == [calls[0]];
    SingleCall(s, map[], calls[0], h);
    SingleCall(s, issued, calls[1], h);
  }

  // ----- availability -----

  /** Every call in the run either works on another hash or is refused. */
  predicate LeavesAlone(s: Services, bindings: Bindings, calls: seq<Call>, h: string)
    decreases calls
  {
    calls != [] ==>
      var (next, reply) := Apply(s, bindings, calls[0]);
      (reply.Refused? || CodeHash(s, calls[0]) != h) && LeavesAlone(s, next, calls[1..], h)
  }

  lemma {:induction false} BindingSurvives(s: Services, bindings: Bindings, calls: seq<Call>, h: string)
    requires Sane(bindings) && LeavesAlone(s, bindings, calls, h) && h in bindings
    ensures h in Run(s, bindings, calls) && Run(s, bindings, calls)[h] == bindings[h]
    decreases calls
  {
    if calls != [] {
      BindingSurvives(s, Apply(s, bindings, calls[0]).0, calls[1..], h);
    }
  }

  /**
   After any run of refused calls on its hash and any calls on other hashes, an unspent binding
   is redeemable exactly by its own device's claim over its nonce, for its release set, before
   expiry, for a session that ends at an instant that exists.
   */
  lemma AvailabilityUnderInterference(s: Services, bindings: Bindings, calls: seq<Call>, redeem: Call)
    requires Sane(bindings) && redeem.Redeem? && redeem.code != ""
    requires Remaining(bindings, CodeHash(s, redeem)) == 1
    requires LeavesAlone(s, bindings, calls, CodeHash(s, redeem))
    ensures var binding := bindings[CodeHash(s, redeem)];
      Apply(s, Run(s, bindings, calls), redeem).1.Redeemed?
      <==> && redeem.now < binding.expiresAt
           && redeem.releaseSetRef == binding.releaseSetRef
           && redeem.claim.deviceId == binding.deviceId
           && s.verifyClaim(redeem.claim, binding.nonce).Ok?
           && Representable(redeem.now + redeem.sessionTtlSeconds * 1_000_000)
  {
    BindingSurvives(s, bindings, calls, CodeHash(s, redeem));
  }

  /**
   So a code just issued stays redeemable, whatever is refused on it and whatever happens to other
   codes: by the claiming device, over its nonce, for the issued release set, until its time is up.
   */
  lemma IssuedCodeStaysRedeemable(s: Services, bindings: Bindings, issue: Call, calls: seq<Call>, redeem: Call)
    requires Sane(bindings) && issue.Issue? && Apply(s, bindings, issue).1.Issued?
    requires redeem.Redeem? && redeem.code != "" && CodeHash(s, redeem) == CodeHash(s, issue)
    requires LeavesAlone(s, Apply(s, bindings, issue).0, calls, CodeHash(s, issue))
    ensures Apply(s, Run(s, Apply(s, bindings, issue).0, calls), redeem).1.Redeemed?
      <==> && redeem.now < issue.now + issue.ttlSeconds * 1_000_000
           && redeem.releaseSetRef == issue.releaseSetRef
           && redeem.claim.deviceId == issue.claim.deviceId
           && s.verifyClaim(redeem.claim, issue.claim.nonce).Ok?
           && Representable(redeem.now + redeem.sessionTtlSeconds * 1_000_000)
  {
    AvailabilityUnderInterference(s, Apply(s, bindings, issue).0, calls, redeem);
  }

  /** A redemption looks at its own hash's binding and changes nothing else. */
  lemma RedemptionIsLocal(s: Services, bindings: Bindings, other: Bindings, call: Call)
    requires Sane(bindings) && call.Redeem?
    requires var h := CodeHash(s, call); (h in bindings <==> h in other) && (h in bindings ==> bindings[h] == other[h])
    ensures Apply(s, bindings, call).1 == Apply(s, other, call).1
    ensures var h := CodeHash(s, call);
      Apply(s, bindings, call).0 == if Apply(s, bindings, call).1.Refused? then bindings
                                    else bindings[h := bindings[h].(remainingUses := bindings[h].remainingUses - 1)]
  {
  }

  /** A redemption of another hash disturbs neither the outcome of a redemption nor what it changes. */
  lemma RedemptionUndisturbed(s: Services, bindings: Bindings, other: Call, call: Call)
    requires Sane(bindings) && other.Redeem? && call.Redeem? && CodeHash(s, other) != CodeHash(s, call)
    ensures var after, h := Apply(s, bindings, other).0, CodeHash(s, call);
      && Apply(s, after, call).1 == Apply(s, bindings, call).1
      && Apply(s, after, call).0 == if Apply(s, bindings, call).1.Refused? then after
                                    else after[h := bindings[h].(remainingUses := bindings[h].remainingUses - 1)]
  {
    var after := Apply(s, bindings, other).0;
    RedemptionIsLocal(s, bindings, bindings, other);
    RunKeepsSane(s, bindings, [other]);
    SingleCall(s, bindings, other, "");
    RedemptionIsLocal(s, after, bindings, call);
  }

  /** Redemptions of different hashes commute, in the registry and in what each caller is told. */
  lemma RedemptionsCommute(s: Services, bindings: Bindings, a: Call, b: Call)
    requires Sane(bindings) && a.Redeem? && b.Redeem? && CodeHash(s, a) != CodeHash(s, b)
    ensures var (afterA, replyA) := Apply(s, bindings, a);
            var (afterB, replyB) := Apply(s, bindings, b);
      && Apply(s, afterA, b).0 == Apply(s, afterB, a).0
      && Apply(s, afterA, b).1 == replyB
      && Apply(s, afterB, a).1 == replyA
  {
    RedemptionIsLocal(s, bindings, bindings, a);
    RedemptionIsLocal(s, bindings, bindings, b);
    RedemptionUndisturbed(s, bindings, a, b);
    RedemptionUndisturbed(s, bindings, b, a);
  }

  // ----- with real device claims -----

  /** The claim proved possession of a loadable key whose fingerprint is its device id, over exactly this nonce. */
  predicate ProvesDevice(c: Crypto, claim: Claim, nonce: string) {
    && claim.nonce == nonce
    && Contains(claim.publicKeyPem, PEM_MARKER) && c.loadKey(claim.publicKeyPem).Some?
    && var key := c.loadKey(claim.publicKeyPem).value;
    && claim.deviceId == "urn:srcos:device:" + "sha256:" + c.sha256(key)
    && c.fromHex(claim.signatureHex).Some?
    && c.verify(key, SigningPayload(c, claim.deviceId, claim.publicKeyPem, nonce, claim.claimedAt),
                c.fromHex(claim.signatureHex).value)
  }

  /** What a registry asks of its libraries: the SHA-256 of a code's UTF-8 text, and proofs of possession over the given nonce. */
  lemma VerifiedClaimProvesDevice(c: Crypto, claim: Claim, nonce: string)
    ensures DeviceServices(c).verifyClaim(claim, nonce).Ok? <==> ProvesDevice(c, claim, nonce)
    ensures forall code :: DeviceServices(c).hashCode(code) == c.sha256(Encode(code))
  {
  }

  /** So both the issue and the redemption behind a credential proved possession of its device's key. */
  lemma CredentialHolderProvedPossession(c: Crypto, calls: seq<Call>, i: nat) returns (j: nat)
    requires i < |calls| && ReplyAt(DeviceServices(c), calls, i).Redeemed?
    ensures j < i && calls[i].Redeem? && calls[j].Issue?
    ensures ProvesDevice(c, calls[j].claim, calls[j].claim.nonce) && ProvesDevice(c, calls[i].claim, calls[j].claim.nonce)
    ensures calls[i].claim.deviceId == calls[j].claim.deviceId == ReplyAt(DeviceServices(c), calls, i).credential.deviceId
  {
    j := CredentialProvenance(DeviceServices(c), calls, i);
    VerifiedClaimProvesDevice(c, calls[j].claim, calls[j].claim.nonce);
    VerifiedClaimProvesDevice(c, calls[i].claim, calls[j].claim.nonce);
  }
}
