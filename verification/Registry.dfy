/** The registry object, which issues and redeems codes in place, and what holds of it whenever it is valid. */
module Registry {
  import opened Results
  import opened Device
  import opened Enrollment
  import opened EnrollmentRuns

  /** The registry: a dictionary of bindings by code hash, with a ghost record of every call made. */
  class EnrollmentRegistry {
    const services: Services
    var bindings: Bindings
    ghost var history: seq<Call>

    ghost predicate Valid()
      reads this
    {
      bindings == Run(services, map[], history)
    }

    constructor (s: Services)
      ensures Valid() && bindings == map[] && history == [] && services == s
    {
      services, bindings, history := s, map[], [];
    }

    method Issue(claim: Claim, purpose: string, releaseSetRef: string, bootReleaseSetRef: string,
                 artifactRefs: seq<string>, ttlSeconds: int, now: int, code: string)
      returns (r: Result<(string, Binding)>)
      requires Valid()
      modifies this
      ensures Valid()
      ensures var call := Call.Issue(claim, purpose, releaseSetRef, bootReleaseSetRef, artifactRefs, ttlSeconds, now, code);
        && history == old(history) + [call]
        && bindings == Apply(services, old(bindings), call).0
        && Apply(services, old(bindings), call).1 == if r.Ok? then Issued(r.value.0, r.value.1) else Refused(r.reason)
    {
      ghost var call := Call.Issue(claim, purpose, releaseSetRef, bootReleaseSetRef, artifactRefs, ttlSeconds, now, code);
      RunAppend(services, map[], history, call);
      history := history + [call];
      if purpose !in PURPOSES {
        return Err(UnsupportedPurpose);
      }
      if ttlSeconds <= 0 {
        return Err(BadTtl);
      }
      if releaseSetRef == "" {
        return Err(EmptyReference);
      }
      if bootReleaseSetRef == "" {
        return Err(EmptyReference);
      }
      if artifactRefs == [] || "" in artifactRefs {
        return Err(EmptyReference);
      }
      var verified := services.verifyClaim(claim, claim.nonce);
      if verified.Err? {
        return Err(verified.reason);
      }
      if !Representable(now + ttlSeconds * SECOND) {
        return Err(TimeOverflow);
      }
      var binding := Binding(services.hashCode(code), purpose, claim.deviceId, claim.nonce, releaseSetRef,
                             bootReleaseSetRef, artifactRefs, now, now + ttlSeconds * SECOND, 1);
      bindings := bindings[binding.codeHash := binding];
      return Ok((code, binding));
    }

    method Redeem(code: string, claim: Claim, releaseSetRef: string, sessionTtlSeconds: int, now: int, token: string)
      returns (r: Result<Credential>)
      requires Valid()
      modifies this
      ensures Valid()
      ensures var call := Call.Redeem(code, claim, releaseSetRef, sessionTtlSeconds, now, token);
        && history == old(history) + [call]
        && bindings == Apply(services, old(bindings), call).0
        && r == Seen(Apply(services, old(bindings), call).1)
    {
      ghost var call := Call.Redeem(code, claim, releaseSetRef, sessionTtlSeconds, now, token);
      RunAppend(services, map[], history, call);
      if code == "" {
        history := history + [call];
        return Err(EmptyCode);
      }
      var found := BindingFor(code);
      history := history + [call];
      if found.None? {
        return Err(UnknownCode);
      }
      var binding := found.value;
      if binding.IsSpent() {
        return Err(CodeSpent);
      }
      if now >= binding.expiresAt {
        return Err(CodeExpired);
      }
      if releaseSetRef != binding.releaseSetRef {
        return Err(ReleaseSetMismatch);
      }
      var verified := services.verifyClaim(claim, binding.nonce);
      if verified.Err? {
        return Err(verified.reason);
      }
      if claim.deviceId != binding.deviceId {
        return Err(WrongDevice);
      }
      bindings := bindings[binding.codeHash := binding.(remainingUses := binding.remainingUses - 1)];
      if !Representable(now + sessionTtlSeconds * SECOND) {
        return Err(TimeOverflow);
      }
      return Ok(Credential("urn:srcos:enrollment-session:" + token, binding.deviceId, binding.purpose,
                           binding.releaseSetRef, binding.bootReleaseSetRef, binding.artifactRefs,
                           now, now + sessionTtlSeconds * SECOND));
    }

    /** The binding under the code's hash. An unspent one goes back to an issue whose hash nothing has touched since. */
    function BindingFor(code: string): (r: Option<Binding>)
      requires Valid()
      reads this
      ensures r.None? <==> services.hashCode(code) !in bindings
      ensures r.Some? ==> r.value.codeHash == services.hashCode(code) && 0 <= r.value.remainingUses <= 1
      ensures r.Some? && !r.value.IsSpent() ==>
        exists j | 0 <= j < |history| :: Origin(services, history, j, |history|, r.value)
    {
      var h := services.hashCode(code);
      HeldBindings(services, history, h);
      if h in bindings then Some(bindings[h]) else None
    }
  }

  /** What a run leaves under a hash: a sane binding, and if it is unspent, one with an untouched issue behind it. */
  lemma HeldBindings(s: Services, calls: seq<Call>, h: string)
    ensures var bindings := Run(s, map[], calls);
      h in bindings ==>
        && bindings[h].codeHash == h && 0 <= bindings[h].remainingUses <= 1
        && (!bindings[h].IsSpent() ==> exists j | 0 <= j < |calls| :: Origin(s, calls, j, |calls|, bindings[h]))
  {
    RunKeepsSane(s, map[], calls);
    assert calls[..|calls|] == calls;
    if Remaining(Run(s, map[], calls), h) > 0 {
      var j := UnspentHasOrigin(s, calls, |calls|, h);
    }
  }

  /** A registry's bindings account for its history: uses issued under a hash are redeemed, burned, left, or lost to a reissue. */
  lemma RegistryConserves(registry: EnrollmentRegistry, h: string)
    requires registry.Valid()
    ensures var s, calls := registry.services, registry.history;
            var issues, redemptions := Issues(s, map[], calls, h), Redemptions(s, map[], calls, h);
            var burned, lost := Burns(s, map[], calls, h), Overwrites(s, map[], calls, h);
            var remaining := Remaining(registry.bindings, h);
      && issues == redemptions + burned + lost + remaining
      && redemptions <= issues
      && (issues == 1 ==> remaining + redemptions + burned == 1)
      && (remaining + redemptions == issues <==> burned == 0 && lost == 0)
  {
    Conservation(registry.services, registry.history, h);
  }

  /** A successful reissue of the hash of call `i` lies between calls `i` and `k`. */
  predicate ReissuedBetween(s: Services, calls: seq<Call>, i: nat, k: nat)
    requires i < |calls| && k <= |calls|
  {
    exists j | i < j < k :: ReplyAt(s, calls, j).Issued? && CodeHash(s, calls[j]) == CodeHash(s, calls[i])
  }

  /** A registry spends no issue twice: once a hash is spent it is spent, or unspent, again only if it was reissued first. */
  lemma RegistryNeverReplays(registry: EnrollmentRegistry, i: nat)
    requires registry.Valid() && i < |registry.history| && Spends(registry.services, registry.history, i)
    ensures var s, calls := registry.services, registry.history;
      && (forall k | i < k < |calls| && CodeHash(s, calls[k]) == CodeHash(s, calls[i]) && Spends(s, calls, k) ::
            ReissuedBetween(s, calls, i, k))
      && (Remaining(registry.bindings, CodeHash(s, calls[i])) > 0 ==> ReissuedBetween(s, calls, i, |calls|))
  {
    var s, calls := registry.services, registry.history;
    var h := CodeHash(s, calls[i]);
    forall k | i < k < |calls| && CodeHash(s, calls[k]) == h && Spends(s, calls, k)
      ensures ReissuedBetween(s, calls, i, k)
    {
      var j := NoReplay(s, calls, i, k);
    }
    assert calls[..|calls|] == calls;
    if Remaining(registry.bindings, h) > 0 {
      var j := UnspentHasOrigin(s, calls, |calls|, h);
      assert Touches(s, calls, i, h);
    }
  }
}
