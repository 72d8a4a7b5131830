/**
 With the documents fixed, when Python accepts them: the wall clock must lie in one half-open
 window given by the listed keys, and the token's clock before the token's expiry.
 */
module AcceptanceWindow {
  import opened Results
  import opened Json
  import opened Canonical
  import opened Documents
  import opened Device
  import opened TrustedKeys
  import P = PythonPlanner

  /** The table the entries load into when the clock is ignored. */
  function TimelessEntries(lib: Libraries, entries: seq<Value>, loaded: KeyTable): Result<KeyTable>
    decreases entries
  {
    if entries == [] then Ok(loaded)
    else
      var key :- KeyFromDict(lib, entries[0]);
      var _ :- Check(InForce(key), KeyNotActive);
      TimelessEntries(lib, entries[1..], loaded[key.keyRef := key])
  }

  /** The latest not_before of the entries, if any has one. */
  function Opens(lib: Libraries, entries: seq<Value>): Option<int>
    decreases entries
  {
    if entries == [] then None
    else
      var rest := Opens(lib, entries[1..]);
      match KeyFromDict(lib, entries[0])
      case Err(_) => rest
      case Ok(key) =>
        if key.notBefore.None? then rest
        else if rest.Some? && rest.value >= key.notBefore.value then rest
        else key.notBefore
  }

  /** The earliest not_after of the entries, if any has one. */
  function Closes(lib: Libraries, entries: seq<Value>): Option<int>
    decreases entries
  {
    if entries == [] then None
    else
      var rest := Closes(lib, entries[1..]);
      match KeyFromDict(lib, entries[0])
      case Err(_) => rest
      case Ok(key) =>
        if key.notAfter.None? then rest
        else if rest.Some? && rest.value <= key.notAfter.value then rest
        else key.notAfter
  }

  /** The half-open interval between two optional ends. */
  predicate Within(lo: Option<int>, t: int, hi: Option<int>) {
    (lo.None? || lo.value <= t) && (hi.None? || t < hi.value)
  }

  predicate InKeyWindow(lib: Libraries, entries: seq<Value>, t: int) {
    Within(Opens(lib, entries), t, Closes(lib, entries))
  }

  lemma {:induction false} EntriesWindow(lib: Libraries, entries: seq<Value>, loaded: KeyTable, t: int)
    ensures LoadEntries(lib, entries, t, loaded).Ok? <==>
      TimelessEntries(lib, entries, loaded).Ok? && InKeyWindow(lib, entries, t)
    ensures LoadEntries(lib, entries, t, loaded).Ok? ==> LoadEntries(lib, entries, t, loaded) == TimelessEntries(lib, entries, loaded)
    decreases entries
  {
    if entries != [] {
      var key := KeyFromDict(lib, entries[0]);
      if key.Ok? {
        LifecycleIff(key.value, t);
        EntriesWindow(lib, entries[1..], loaded[key.value.keyRef := key.value], t);
      }
    }
  }

  /** The window's ends are the extremes over all entries: t lies in it exactly when every key's own window holds t. */
  lemma {:induction false} WindowIsEveryKeysWindow(lib: Libraries, entries: seq<Value>, t: int)
    requires forall i | 0 <= i < |entries| :: KeyFromDict(lib, entries[i]).Ok?
    ensures InKeyWindow(lib, entries, t) <==>
      forall i | 0 <= i < |entries| ::
        Opened(KeyFromDict(lib, entries[i]).value, t) && Unexpired(KeyFromDict(lib, entries[i]).value, t)
    decreases entries
  {
    if entries != [] {
      WindowIsEveryKeysWindow(lib, entries[1..], t);
      assert forall i | 1 <= i < |entries| :: entries[i] == entries[1..][i - 1];
    }
  }

  /** The token's checks that do not look at the clock. */
  predicate TokenInForce(token: P.Token, m: P.Manifest) {
    && token.status == "issued" && token.oneTimeUse
    && token.bootReleaseSetRef == Str(m.bootReleaseSetId) && token.releaseSetRef == Str(m.baseReleaseSetRef)
    && P.PurposeFits(m.bootMode, token.purpose)
  }

  lemma TokenWindow(token: P.Token, m: P.Manifest, t: int)
    ensures P.ValidateToken(token, m, t).Ok? <==> TokenInForce(token, m) && t < token.expiresAt
  {
  }

  predicate MenuInForce(m: P.Manifest) {
    && P.CheckMenu(m.bootMenu, m.bootReleaseSetId, m.baseReleaseSetRef, m.bootMode).Ok?
    && P.SelectedEntry(m.bootMenu).Ok?
  }

  lemma PlanWindow(m: P.Manifest, token: P.Token, t: int)
    ensures P.BuildBootPlan(m, token, t).Ok? <==> TokenInForce(token, m) && MenuInForce(m) && t < token.expiresAt
    ensures P.BuildBootPlan(m, token, t).Ok? ==>
      P.BuildBootPlan(m, token, t).value == P.PlanFor(m, token, P.SelectedEntry(m.bootMenu).value)
  {
    TokenWindow(token, m, t);
  }

  /** A key document loads at exactly the times of its window, and always into the same table. */
  lemma KeysWindow(lib: Libraries, keys: seq<Field>, t: int)
    requires KeyEntries(keys).Ok?
    ensures var entries := KeyEntries(keys).value;
      && (LoadTrustedKeys(lib, keys, t).Ok? <==> TimelessEntries(lib, entries, map[]).Ok? && InKeyWindow(lib, entries, t))
      && (LoadTrustedKeys(lib, keys, t).Ok? ==> LoadTrustedKeys(lib, keys, t) == TimelessEntries(lib, entries, map[]))
  {
    EntriesWindow(lib, KeyEntries(keys).value, map[], t);
  }

  /** The signature part of the decision, on a table that no longer depends on the clock. */
  predicate Signed(lib: Libraries, manifest: seq<Field>, table: KeyTable, requireFips: bool) {
    var algorithm := Get(manifest, "signature_algorithm");
    && (requireFips ==> algorithm == Some(Str(RSA_PSS_SHA256)) && Get(manifest, "crypto_profile") == Some(Str(FIPS_PROFILE)))
    && SerdeString(manifest, "signer_ref").Ok? && SerdeString(manifest, "signature_hex").Ok?
    && var signerRef := SerdeString(manifest, "signer_ref").value;
    && signerRef in table
    && algorithm == Some(Str(table[signerRef].algorithm))
    && Authentic(lib, PythonPayload(manifest, {"signature_hex"}), SerdeString(manifest, "signature_hex").value, table[signerRef].publicKeyPem)
  }

  lemma VerifySplits(lib: Libraries, manifest: seq<Field>, keys: seq<Field>, requireFips: bool, t: int)
    ensures P.VerifyManifestDocument(lib, manifest, keys, requireFips, t).Ok? <==>
      LoadTrustedKeys(lib, keys, t).Ok? && Signed(lib, manifest, LoadTrustedKeys(lib, keys, t).value, requireFips)
  {
  }

  /** Every check of the whole Python decision that does not look at the clock. */
  predicate TimelessChecks(lib: Libraries, manifest: seq<Field>, keys: seq<Field>, token: seq<Field>, requireFips: bool) {
    && KeyEntries(keys).Ok? && TimelessEntries(lib, KeyEntries(keys).value, map[]).Ok?
    && Signed(lib, manifest, TimelessEntries(lib, KeyEntries(keys).value, map[]).value, requireFips)
    && P.ManifestFromDict(lib, manifest).Ok? && P.TokenFromDict(lib, token).Ok?
    && TokenInForce(P.TokenFromDict(lib, token).value, P.ManifestFromDict(lib, manifest).value)
  }

  lemma SignedAtWindow(lib: Libraries, manifest: seq<Field>, keys: seq<Field>, requireFips: bool, t: int)
    ensures P.VerifyManifestDocument(lib, manifest, keys, requireFips, t).Ok? <==>
      && KeyEntries(keys).Ok? && TimelessEntries(lib, KeyEntries(keys).value, map[]).Ok?
      && Signed(lib, manifest, TimelessEntries(lib, KeyEntries(keys).value, map[]).value, requireFips)
      && InKeyWindow(lib, KeyEntries(keys).value, t)
  {
    VerifySplits(lib, manifest, keys, requireFips, t);
    if KeyEntries(keys).Ok? {
      KeysWindow(lib, keys, t);
    }
  }

  /**
   The whole Python decision on two clocks: with the documents fixed it accepts exactly when its
   timeless checks pass, the wall clock lies in the keys' window and `now` is before the token's
   expiry; and the plan depends on neither clock.
   */
  lemma AcceptedOnTwoClocks(lib: Libraries, manifest: seq<Field>, keys: seq<Field>, token: seq<Field>, requireFips: bool, wall: int, now: int)
    ensures P.PlanWithClocks(lib, manifest, keys, token, requireFips, wall, now).Ok? <==>
      && TimelessChecks(lib, manifest, keys, token, requireFips)
      && InKeyWindow(lib, KeyEntries(keys).value, wall)
      && now < P.TokenFromDict(lib, token).value.expiresAt
    ensures P.PlanWithClocks(lib, manifest, keys, token, requireFips, wall, now).Ok? ==>
      var m := P.ManifestFromDict(lib, manifest).value;
      P.PlanWithClocks(lib, manifest, keys, token, requireFips, wall, now).value
        == P.PlanFor(m, P.TokenFromDict(lib, token).value, P.SelectedEntry(m.bootMenu).value)
  {
    SignedAtWindow(lib, manifest, keys, requireFips, wall);
    if P.ManifestFromDict(lib, manifest).Ok? && P.TokenFromDict(lib, token).Ok? {
      P.SecondMenuCheckNeverFails(lib, manifest);
      PlanWindow(P.ManifestFromDict(lib, manifest).value, P.TokenFromDict(lib, token).value, now);
    }
  }

  function Earlier(hi: Option<int>, limit: int): int {
    if hi.Some? && hi.value < limit then hi.value else limit
  }

  /** On one clock it therefore accepts on one half-open interval, from the keys' opening to the earlier of their closing and the token's expiry. */
  lemma AcceptanceTimesAreAnInterval(lib: Libraries, manifest: seq<Field>, keys: seq<Field>, token: seq<Field>, requireFips: bool, t: int)
    ensures P.Plan(lib, manifest, keys, token, requireFips, t).Ok? <==>
      && TimelessChecks(lib, manifest, keys, token, requireFips)
      && Within(Opens(lib, KeyEntries(keys).value), t,
                Some(Earlier(Closes(lib, KeyEntries(keys).value), P.TokenFromDict(lib, token).value.expiresAt)))
  {
    AcceptedOnTwoClocks(lib, manifest, keys, token, requireFips, t, t);
  }

  /**
   A decision as of `now` is what `--now` asks for, and what happens exactly when a timeless check
   fails, the token has expired at `now`, or the keys' window holds both clocks or neither.
   */
  lemma NowDecidesIff(lib: Libraries, manifest: seq<Field>, keys: seq<Field>, token: seq<Field>, requireFips: bool, wall: int, now: int)
    ensures P.PlanWithClocks(lib, manifest, keys, token, requireFips, wall, now).Ok? && P.Plan(lib, manifest, keys, token, requireFips, now).Ok?
      ==> P.PlanWithClocks(lib, manifest, keys, token, requireFips, wall, now) == P.Plan(lib, manifest, keys, token, requireFips, now)
    ensures (P.PlanWithClocks(lib, manifest, keys, token, requireFips, wall, now).Ok? <==> P.Plan(lib, manifest, keys, token, requireFips, now).Ok?)
      <==> || !TimelessChecks(lib, manifest, keys, token, requireFips)
           || P.TokenFromDict(lib, token).value.expiresAt <= now
           || (InKeyWindow(lib, KeyEntries(keys).value, wall) <==> InKeyWindow(lib, KeyEntries(keys).value, now))
  {
    AcceptedOnTwoClocks(lib, manifest, keys, token, requireFips, wall, now);
    AcceptedOnTwoClocks(lib, manifest, keys, token, requireFips, now, now);
  }
}
