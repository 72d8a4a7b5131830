# NLBoot: a verified model

NLBoot plans signed boots in two implementations (a Python reference planner and a Rust client),
fetches and caches the planned artifacts, hands them to `kexec` behind explicit gates, and
enrolls devices with single-use codes. This project models those four components in Dafny 4.11
and proves the properties they exist for. `dafny verify dfyconfig.toml` checks everything;
nothing here is executed.

## How it is organised

| files | component |
|---|---|
| `Utf8`, `Json`, `KeySort`, `JsonText`, `Canonical` | canonical signed payloads of both languages: escaping, printing, sorting, UTF-8 |
| `Device`, `Enrollment`, `EnrollmentRuns`, `Registry` | device claims, single-use codes, runs of them, and the registry object |
| `TrustedKeys`, `BootMenu`, `PythonPlanner`, `RustPlanner`, `Plans` | trust and planning, one module per implementation |
| `PlannerRefinement`, `PlannerDemo`, `AcceptanceWindow`, `Bridge` | how the two planners relate (with a family of documents), when they accept, and enrollment tokens between them |
| `Pipeline`, `Client`, `PipelineRuns`, `ExecutionGate`, `CacheProvenance`, `BootDemo` | fetch, cache, evidence and kexec: functions, the object that runs them, and runs of it |
| `SignedBoot` | both ends together: what a signed manifest decides about the plan and about the files that are loaded |
| `Results`, `Text`, `Documents` | shared: refusal reasons, string tests, reading JSON fields |

Code that changes things in place is a class or a method with a loop (`EnrollmentRegistry`,
`Client`, `LoadKeyTable`, `ParseMenu`, `FindDefaultEntry`), proved equal to a function; the
theorems about runs are about those functions.

Signatures, hashes, key parsing, clock text and Python's `str` are uninterpreted: they are
function-valued fields of `Crypto`, `Services`, `Libraries` and the parameter `hash`. Random
codes, clock readings, file reads, write failures, root status and kexec's exit status are
arguments of each step. Instants are integers, for the registry microseconds since the start of
year 1. Rust and Python each have their own signature library. A Dafny `char` is a Unicode scalar
value, which is what a Rust `String` holds and what a Python `str` without lone surrogates holds.

## Where the code differs from what is promised

- The README and `docs` say a real `kexec --exec` needs the proof of a prior load. The code writes
  that proof before it invokes `kexec --load`, and in dry runs too. `ExecutionGate.ExecWithoutLoad`
  is a run that invokes `kexec --exec` and no load at all; `ExecutionGate.ProofMeansLoadIff` gives
  the exact condition under which a standing proof does mean an invoked load: its `dry_run` field is
  false. Even then the load may have failed (`ExecutionGate.FailedLoadLeavesProof`).
- `AGENT_TASKS/gated-kexec-exec.md` asks for a refusal record when cached hashes no longer match.
  The code fails there without one (`ExecutionGate.FailedVerificationChangesNothing`);
  `ExecutionGate.RefusedExactly` says exactly which failures are recorded.
- `execute` never compares its plan with the cache record (`ExecutionGate.ExecuteIgnoresPlanContents`), so a
  proof can name one plan and record the load of another's files: `BootDemo.ProofNamesOtherPlan`.
  `CacheProvenance.ProofNamesFetchedPlanIff` says exactly when it names the fetched plan.
- What `kexec --exec` verifies need not be what was loaded: `BootDemo.ExecAfterOtherLoad` loads one kernel and
  verifies another before exec. `CacheProvenance.ExecBootsVerifiedIff` says exactly when the two are one pair.
- `redeem` is documented to decrement a code's counter on success. It does so first and then computes the
  session's end, which overflows for a large `session_ttl_seconds` (`src/nlboot/enrollment.py:167-177`): the code
  is gone and no credential exists (`EnrollmentRuns.OverflowBurnsCode`). `EnrollmentRuns.FailedCallChangesIff`
  says exactly when a call that fails has changed the registry.
- Python refuses keys below 2048 bits (`src/nlboot/verify.py:103`) and Rust does not, so the refinement holds
  exactly for larger keys: `PlannerRefinement.RustRefinesPython`, and `PlannerDemo.BothAcceptIffStrong` for documents.
- The two languages print different bytes as soon as a string or key reaches U+007F:
  `Canonical.PayloadsAgreeExactly` is an if-and-only-if.
- Python's `strip` removes U+001C..U+001F and Rust's `trim` does not, so Rust accepts some strings
  that are blank to Python (`Text.SeparatorIsBlankOnlyToPython`). `Text.BlankTestsCompared` says
  exactly on which strings the two tests agree.
- Rust does not refine Python outright: `PlannerDemo.RustAcceptsAlone` has documents that Rust accepts
  and Python refuses, for every library that reads their key and times and verifies their signature.
  `PlannerRefinement.PythonAcceptsIff` lists exactly what Python can still refuse in documents Rust accepts.
- `--now` is offered as an override of the clock (`src/nlboot/cli.py:54`), but `src/nlboot/cli.py:39` loads
  keys on the wall clock all the same. `PlannerDemo.WallClockDecides` has documents acceptable as of `now` that are refused,
  and the converse; `AcceptanceWindow.NowDecidesIff` says exactly when the wall clock makes no difference.
  The one-clock `Plan`, which the comparison with Rust uses, is the decision with both clocks alike.

## Model

| member | source | states |
|---|---|---|
| Utf8.KeyOrderAgrees | rust/nlboot-client/src/main.rs:231 | Rust's byte-wise string comparison orders any two strings exactly as Python's code-point comparison does, for all Unicode text |
| Utf8.EncodeInjective | src/nlboot/verify.py:87 | different texts have different UTF-8 bytes |
| Utf8.EncodedForm | src/nlboot/verify.py:87 | each character takes the one form section 3 of RFC 3629 gives its range, with its bits in place |
| Json.WithoutMeaning | src/nlboot/verify.py:86 | dropping keys before signing removes exactly those keys from what the document means |
| KeySort.SortAscends | rust/nlboot-client/src/main.rs:231-232 | distinct keys come out of the sort strictly increasing, in either language's order |
| KeySort.SortMeaning | rust/nlboot-client/src/main.rs:227-232 | sorting an object's fields keeps its key-to-value map |
| JsonText.EscapeInverse | src/nlboot/verify.py:87 | every character, in either language's escaping (surrogate pairs included), is read back from its escape |
| JsonText.EscapeIsShortest | src/nlboot/verify.py:87 | in either language no admissible text for a character is shorter than its escape |
| JsonText.NaturalHasNoLeadingZero | src/nlboot/verify.py:87 | a number is printed in digits without a leading zero |
| JsonText.DecimalSign | src/nlboot/verify.py:87 | exactly the negative numbers have a sign |
| JsonText.ReadInvertsPrint | rust/nlboot-client/src/main.rs:246 | a reader recovers any printed value, nested arrays, objects, strings and integers included, and the text after it |
| JsonText.PrintInjective | rust/nlboot-client/src/main.rs:246 | equal compact texts come from equal documents, key order included |
| Canonical.TwoPassEqualsFused | rust/nlboot-client/src/main.rs:224-247 | sorting recursively and then printing in stored order gives the text that sorting during printing gives, for every document |
| Canonical.OrdersAgree | rust/nlboot-client/src/main.rs:224-237 | Rust's recursive byte-order sort and a recursive code-point sort give one document, at every depth |
| Canonical.NormalFormUnique | rust/nlboot-client/src/main.rs:224-237 | two sorted documents equal up to key order at every depth are identical |
| Canonical.SortedTextReadsBack | src/nlboot/verify.py:85-87 | sorted text, read back, gives a document with the meaning that was printed |
| Canonical.SortedJsonDecides | src/nlboot/device.py:187 | two objects have equal sorted JSON bytes if and only if they are equal up to key order at every depth |
| Canonical.PythonPayloadDecides | src/nlboot/verify.py:85-92 | Python payloads (manifest or trust bundle) are equal if and only if the documents agree on every key that is not dropped |
| Canonical.RustPayloadDecides | rust/nlboot-client/src/main.rs:239-247 | Rust payloads are equal if and only if the manifests agree on every key but signature_hex |
| Canonical.PayloadsAgreeExactly | rust/nlboot-client/src/main.rs:239-247 | Rust and Python sign the same bytes for a document if and only if its unsigned part stays below U+007F |
| Canonical.CanonicalAcrossLanguages | src/nlboot/verify.py:85-87 | in that domain a Rust payload equals a Python payload if and only if the unsigned documents mean the same |
| Device.PayloadBindsEveryField | src/nlboot/device.py:177-187 | two claims have the same signing payload if and only if device id, key, nonce and claim-time text are all the same |
| Device.MadeClaimVerifies | src/nlboot/device.py:133-157 | a device can claim over exactly the non-blank nonces, and its claim verifies against that nonce or no expectation and against no other nonce |
| Device.MadeClaimSays | src/nlboot/device.py:133-157 | a made claim is the device's own, for the given nonce and time, under the one algorithm and profile |
| Device.ExpectationAsksForNonce | src/nlboot/device.py:225-256 | an expected nonce adds to verification exactly the question whether it is the claim's |
| Device.ClaimMembers | src/nlboot/device.py:177-187 | the signed object has exactly the four members device_id, public_key_pem, nonce and claimed_at |
| Device.ClaimRoundTrip | src/nlboot/device.py:189-223 | a claim written to a dict parses back to itself if it is well formed and is refused otherwise |
| Registry.EnrollmentRegistry.Issue | src/nlboot/enrollment.py:78-126 | refuses, also when the expiry is no representable time, or stores one fresh binding in place, exactly as the issue step says, and records the call |
| Registry.EnrollmentRegistry.Redeem | src/nlboot/enrollment.py:128-178 | refuses without change, spends the binding in place and returns its credential, or spends it and fails because the session's end overflows, exactly as the redeem step says |
| Registry.EnrollmentRegistry.BindingFor | src/nlboot/enrollment.py:180-181 | a found binding carries the code's hash and zero or one use; an unspent one was put there by an issue in the registry's history whose hash nothing has touched since |
| Registry.RegistryConserves | src/nlboot/enrollment.py:111-177 | at any time, uses a registry has issued under a hash are redeemed, burned by an overflow, held in its bindings, or lost to a reissue |
| Registry.RegistryNeverReplays | src/nlboot/enrollment.py:111-177 | once a registry has spent a hash, it spends it again, or holds it unspent, only after a successful reissue |
| EnrollmentRuns.Conservation | src/nlboot/enrollment.py:111-177 | over every run, uses issued for a hash are redeemed, burned, still remaining, or lost to a reissue; so redemptions never exceed issues, and after one issue remaining, redemptions and burns add up to one |
| EnrollmentRuns.FailedCallChangesIff | src/nlboot/enrollment.py:143-177 | a call that fails has changed the registry if and only if it passed every check of a redemption and the session's end is no representable time; it has then spent that one binding |
| EnrollmentRuns.OverflowBurnsCode | src/nlboot/enrollment.py:167-177 | an issue and a redemption with session_ttl_seconds of 10**12 leave the use neither remaining nor redeemed |
| EnrollmentRuns.CredentialProvenance | src/nlboot/enrollment.py:144-178 | every credential goes back to one earlier issue of the same hash, untouched in between, with its device, purpose, session id, refs and artifacts, before its expiry, both claims verified over the one nonce |
| EnrollmentRuns.NoReplay | src/nlboot/enrollment.py:147-167 | two calls that spend a code of one hash have a successful reissue of it in between |
| EnrollmentRuns.IssueAcceptedIff | src/nlboot/enrollment.py:95-126 | an issue succeeds if and only if purpose, TTL, refs and claim are good and its expiry is a representable time, and then adds one unspent binding under the code's hash and changes nothing else |
| EnrollmentRuns.RedeemAcceptedIff | src/nlboot/enrollment.py:143-178 | a redemption succeeds if and only if its code's binding is unspent, in time, and for this release set, device and nonce, and the session's end is a representable time; it then spends that one binding |
| EnrollmentRuns.RepresentableYears | src/nlboot/enrollment.py:122 | the representable instants are those of the Gregorian years 1 to 9999 |
| EnrollmentRuns.CredentialHolderProvedPossession | src/nlboot/enrollment.py:155-162 | behind every credential, issue and redemption both proved possession of the credential device's key over the bound nonce |
| EnrollmentRuns.AvailabilityUnderInterference | src/nlboot/enrollment.py:143-177 | after any refused calls on its hash and any calls on other hashes, an unspent binding is redeemable exactly with its ref, device and nonce before expiry, for a session whose end is a representable time |
| EnrollmentRuns.IssuedCodeStaysRedeemable | src/nlboot/enrollment.py:95-178 | the same from the issue on: redeemable exactly by the issue's device, nonce and release set until issue time plus TTL, for such a session |
| EnrollmentRuns.RedemptionsCommute | src/nlboot/enrollment.py:143-178 | redemptions of two different hashes commute in registry state and in both replies |
| TrustedKeys.LoadKeyTable | src/nlboot/verify.py:116-127 | the loop that fills one dictionary computes the entry-by-entry load, failing on the first bad entry |
| TrustedKeys.PythonKeyReadsIff | src/nlboot/verify.py:42-71 | a Python key is exactly what its entry says under the eight names, status "active" if absent, and the entry is well formed |
| TrustedKeys.RustKeyReadsIff | rust/nlboot-client/src/main.rs:117-131 | a Rust key is exactly what its entry says under the same names |
| TrustedKeys.LifecycleIff | src/nlboot/verify.py:73-82 | a key passes if and only if it is active, not revoked and inside its window, and in Rust also if its texts are usable |
| TrustedKeys.MarkedKeyIsNeverLive | src/nlboot/verify.py:73-78 | an entry with any status but "active", or with a revocation time, is a live key in neither language at any time |
| TrustedKeys.RustKeysIff | rust/nlboot-client/src/main.rs:112-115 | a Rust key document is read if and only if each entry is, and then lists them in place |
| TrustedKeys.FirstMatch | rust/nlboot-client/src/main.rs:319-327 | Rust's lookup answers with the first key of the reference, or with that key's own failure |
| TrustedKeys.KeyTableCorrect | src/nlboot/verify.py:116-127 | loading succeeds if and only if every entry is valid and live, and the table maps exactly the mentioned refs, each to its last entry |
| TrustedKeys.LookupsAgree | rust/nlboot-client/src/main.rs:282-327 | with distinct refs Rust's first match and Python's table agree on every signer, except that Rust alone refuses a blank ref or blank revocation reason |
| TrustedKeys.MatchIsListed | rust/nlboot-client/src/main.rs:319-327 | what Rust's lookup returns is a listed key with the signer's reference that passed its lifecycle checks |
| TrustedKeys.ChainLink | src/nlboot/verify.py:133-157 | each bundle of a chain names a key of the table loaded before it, and that very key, live at load time, signed the bundle and vouches for every key it loads |
| TrustedKeys.TrustPath | src/nlboot/verify.py:130-157 | for a chain of any length each final key hangs on a path of verified bundle signatures from an initial root; the key at each place is the one the previous table holds under the next bundle's signer_ref |
| BootMenu.ParseMenu | src/nlboot/protocol.py:123-147 | the loop growing entries and seen ids computes the recursive parse |
| BootMenu.EntryReadsIff | src/nlboot/protocol.py:58-91 | an entry is exactly what its item says, flags false if absent, with a known mode and role and rollback entries eligible |
| BootMenu.MenuAcceptedIff | src/nlboot/protocol.py:123-147 | a document parses to a menu if and only if it spells it out, its entries are valid and non-empty with distinct ids, the default is among them and no other entry is marked default |
| BootMenu.DefaultIsUnique | src/nlboot/protocol.py:149-153 | in an accepted menu the scan finds the default entry, the only one with that id |
| BootMenu.FindDefaultEntry | src/nlboot/protocol.py:149-153 | the early-return scan returns the first entry with the default id, or fails if there is none |
| BootMenu.MenuFitsIff | src/nlboot/protocol.py:155-158 | a sound menu fits a manifest if and only if the entry with the default id boots that release, release set and mode |
| BootMenu.EntryRoundTrip | src/nlboot/protocol.py:58-106 | an entry survives to_dict and from_dict if and only if it is well formed |
| BootMenu.MenuRoundTrip | src/nlboot/protocol.py:123-165 | a parsed menu, written out and parsed again, is the same menu |
| PythonPlanner.ManifestReadsIff | src/nlboot/protocol.py:188-233 | a manifest parses to exactly what its document says, menu included, if and only if every check of its text, constants, artifacts and menu passes |
| PythonPlanner.AcceptedMenu | src/nlboot/protocol.py:216-232 | an accepted manifest has no menu if and only if boot_menu is absent or null, and otherwise the sound menu of that object, whose default entry boots this manifest |
| PythonPlanner.TokenReadsIff | src/nlboot/protocol.py:249-281 | a token parses to exactly what its document says if and only if every field is of its kind and known |
| PythonPlanner.TokenValidIff | src/nlboot/protocol.py:283-302 | a token is valid for a manifest at a time if and only if it is issued, unexpired, one-time, bound to both refs and fit for the mode |
| PythonPlanner.SecondMenuCheckNeverFails | src/nlboot/protocol.py:393-396 | a parsed manifest's menu passes the check again and selects its declared default entry |
| PythonPlanner.PlanSaysDocuments | src/nlboot/protocol.py:399-413 | every field of a plan is the manifest's or the token's own, or the one its boot mode decides, and it does not execute |
| PythonPlanner.PlanSelectsDefault | src/nlboot/protocol.py:393-413 | a plan carries exactly the document's menu and selects the document's default_entry_id, or neither if there is no menu |
| PythonPlanner.PlanFailsOnlyOnToken | src/nlboot/protocol.py:385-413 | on a parsed manifest, planning fails if and only if token validation fails |
| PythonPlanner.PlanGuarantees | src/nlboot/cli.py:28-68 | every Python plan does not execute, its manifest is signed by a listed key live on the wall clock, and its token is issued, unexpired at `now`, one-time, bound and fit |
| RustPlanner.PlanGuarantees | rust/nlboot-client/src/main.rs:342-403 | every Rust plan does not execute, its manifest is signed by a listed live key with the signer's reference, and its token is issued, unexpired, one-time, bound and fit |
| RustPlanner.BTreeMapIsKeyOrdered | rust/nlboot-client/src/main.rs:84 | a deserialised artifact map holds its entries in strictly increasing key order |
| RustPlanner.BTreeMapReadsIff | rust/nlboot-client/src/main.rs:84 | it is read if and only if every value is a string, and holds each under its key |
| RustPlanner.ShapeValidIff | rust/nlboot-client/src/main.rs:249-280 | exactly what the shape check asks |
| RustPlanner.ManifestValidIff | rust/nlboot-client/src/main.rs:342-357 | exactly what manifest validation asks of shape, signer, algorithm and signature |
| RustPlanner.TokenValidIff | rust/nlboot-client/src/main.rs:359-403 | exactly what token validation asks |
| RustPlanner.PlanAcceptedIff | rust/nlboot-client/src/main.rs:452-468 | a plan is returned if and only if the three documents read and manifest and token are valid, and it is the one built from them |
| RustPlanner.PlanSays | rust/nlboot-client/src/main.rs:405-468 | every field of a plan is the manifest's or the token's own, or the one its boot mode decides |
| PlannerRefinement.ManifestAcceptedIff | src/nlboot/protocol.py:188-233 | what Python asks of a manifest beyond Rust's shape check: its text not blank to Python, both FIPS constants, and a usable menu |
| PlannerRefinement.TokenAcceptedIff | src/nlboot/protocol.py:249-302 | a token Rust accepts parses in Python if and only if its text is not blank to Python, with the same contents in every field |
| PlannerRefinement.PythonAcceptsIff | rust/nlboot-client/src/main.rs:342-403 | for documents Rust accepts, Python accepts if and only if its key table loads, the signer's last key has 2048 bits and verifies the signature in Python's own library, the profile is FIPS, the text is not blank to Python and the menu is usable; one reader of clock text serves both |
| PlannerRefinement.AcceptedPlansAgree | src/nlboot/protocol.py:399-413 | whenever both planners accept, the plans agree on all thirteen shared fields |
| PlannerRefinement.RustRefinesPython | rust/nlboot-client/src/main.rs:249-468 | with require-fips, no menu, distinct refs, entries acceptable to Python, shared-domain text, and signatures under large keys that carry over from Rust's library to Python's, what Rust accepts Python accepts, with the same plan, if and only if the signer's key has 2048 bits |
| PlannerDemo.RustAcceptsAlone | rust/nlboot-client/src/main.rs:271-275 | documents with a genuine signature, a non-FIPS profile and no require-fips, at any time before they expire: Rust accepts them and Python refuses |
| PlannerDemo.BothAcceptIffStrong | src/nlboot/verify.py:95-113 | the same documents with the FIPS profile meet every hypothesis of the refinement: Rust accepts them, and Python if and only if the key is large enough |
| PlannerDemo.WallClockDecides | src/nlboot/cli.py:39 | documents accepted exactly while the wall clock is before the key's end and `now` before the token's, though as of `now` they are acceptable while `now` is before both |
| Text.BlankTestsCompared | src/nlboot/protocol.py:21-25 | what is blank to Rust is blank to Python, and the tests agree on a string if and only if it has none of U+001C..U+001F or is not blank to Python |
| Text.SeparatorIsBlankOnlyToPython | rust/nlboot-client/src/main.rs:250 | U+001C alone is blank to Python and not to Rust |
| Documents.ReadersExactly | src/nlboot/protocol.py:21-25 | each field reader of either language returns exactly the field, of the right kind, and Python's required strings are not blank |
| Documents.KnownWords | src/nlboot/protocol.py:203 | the boot modes and token purposes both planners accept are exactly the four and four in the source |
| AcceptanceWindow.KeysWindow | src/nlboot/verify.py:116-127 | a key document loads at t if and only if its timeless checks pass and t is in one half-open window, and the table does not depend on t |
| AcceptanceWindow.WindowIsEveryKeysWindow | src/nlboot/verify.py:79-82 | the window's ends are the extremes: t is inside if and only if it is inside every key's own window |
| AcceptanceWindow.AcceptedOnTwoClocks | src/nlboot/cli.py:28-68 | the whole Python decision accepts if and only if its timeless checks pass, the wall clock is in the keys' window and `now` is before the token's expiry; the plan depends on neither clock |
| AcceptanceWindow.AcceptanceTimesAreAnInterval | src/nlboot/protocol.py:283-302 | with both clocks alike it accepts on exactly one half-open interval |
| AcceptanceWindow.NowDecidesIff | src/nlboot/cli.py:39 | the decision agrees with the one as of `now` if and only if a timeless check fails, the token has expired at `now`, or the keys' window holds both clocks or neither |
| Bridge.RenderedTokenParses | src/nlboot/enrollment.py:184-204 | with faithful time text, every issued binding's rendered token parses in both languages as the token it stands for |
| Bridge.IssuedTokenAcceptedIff | rust/nlboot-client/src/main.rs:359-403 | both planners accept that token at t if and only if both refs match, the purpose fits the mode and t is before issue time plus TTL |
| Client.Client.FetchArtifacts | rust/nlboot-client/src/main.rs:526-578 | the loop that writes cache files and pushes records leaves exactly the files, evidence and result of the fetch step, at any failure point |
| Client.Client.VerifyCachedKernelInitrd | rust/nlboot-client/src/main.rs:598-615 | returns exactly the verification's verdict and changes nothing |
| Client.Client.ExecuteLoadOnly | rust/nlboot-client/src/main.rs:633-678 | leaves exactly the evidence, host commands and result of the load-only step |
| Client.Client.ExecuteExec | rust/nlboot-client/src/main.rs:680-724 | leaves exactly the evidence, host commands and result of the exec step |
| Client.Client.ExecuteCommand | rust/nlboot-client/src/main.rs:803-831 | dispatches every combination of adapter and flags to exactly the step it should |
| PipelineRuns.PathDecidesHash | rust/nlboot-client/src/main.rs:552 | a cache path names one hash: no two hashes share a path |
| PipelineRuns.FetchKeepsIntact | rust/nlboot-client/src/main.rs:526-578 | a fetch, wherever it stops, keeps every earlier cache write and every record matching its hash |
| PipelineRuns.CacheSurvives | rust/nlboot-client/src/main.rs:526-615 | over any run without tampering every file fetch wrote hashes to the hash in its name, and the standing record verifies if and only if it lists kernel and initrd under the given cache |
| ExecutionGate.FetchEffects | rust/nlboot-client/src/main.rs:567-577 | fetch replaces its directory's cache record if it succeeds and otherwise leaves all evidence alone; it never invokes a host command |
| PipelineRuns.FetchSucceedsIff | rust/nlboot-client/src/main.rs:517-578 | a fetch succeeds if and only if plan and map are readable, the disk takes everything, and each entry has a known key, a first descriptor of its kind, a readable source, the hash and, if given, the size |
| PipelineRuns.FetchWritesUpToFailure | rust/nlboot-client/src/main.rs:526-578 | a fetch writes the bytes it read for exactly the entries before the first that cannot be fetched, each as kind-sha256 under the cache, and touches no other file |
| PipelineRuns.SuccessfulFetch | rust/nlboot-client/src/main.rs:517-565 | success implies only the three known keys, pairwise distinct refs and cache paths, and one record entry per plan key in key order, each from its first-matching descriptor |
| PipelineRuns.VerifyCachedIff | rust/nlboot-client/src/main.rs:598-615 | verification returns a pair if and only if the record lists it first of its kinds, inside the cache, with files that hash to the recorded values |
| PipelineRuns.FetchedBytesMatch | rust/nlboot-client/src/main.rs:541-553 | whatever the cache held before, a successful fetch leaves every recorded file matching its hash |
| PipelineRuns.FetchedPlanVerifies | rust/nlboot-client/src/main.rs:452-615 | after shape validation and a successful fetch, verification succeeds and returns exactly the plan's kernel and initrd descriptors, inside the cache |
| CacheProvenance.RecordHasFetch | rust/nlboot-client/src/main.rs:567-577 | in any run without tampering the cache record standing in a directory is what the latest successful fetch into it returned |
| CacheProvenance.LoadsFetchedPlan | rust/nlboot-client/src/main.rs:598-664 | in such a run every kexec --load loads the kernel and initrd named by the plan of the latest successful fetch into that directory, and both files hash to what its catalog says |
| CacheProvenance.ProofNamesFetchedPlanIff | rust/nlboot-client/src/main.rs:633-659 | in such a run the proof of a passing load-only command records the load of the latest fetched plan's pair, and names that plan if and only if the given plan file has the identity in the cache record |
| CacheProvenance.ExecBootsVerifiedIff | rust/nlboot-client/src/main.rs:680-724 | in such a run the pair verified before kexec --exec is the pair last loaded if and only if the fetches in force at that load and at the exec put kernel and initrd at the same paths |
| CacheProvenance.ProofNamesVerifiedIff | rust/nlboot-client/src/main.rs:680-709 | and the standing proof's command names the verified pair if and only if the fetches in force at its load and at the exec agree in the same way |
| BootDemo.ProofNamesOtherPlan | rust/nlboot-client/src/main.rs:633-659 | a concrete run whose proof names plan b and records the load of the files plan a fetched |
| BootDemo.ExecAfterOtherLoad | rust/nlboot-client/src/main.rs:680-724 | a concrete run whose trace is a load of one kernel and an exec that has verified another |
| SignedBoot.PayloadDecidesManifest | rust/nlboot-client/src/main.rs:239-247 | manifests with equal Rust payloads read as one manifest but for signature_hex |
| SignedBoot.SignatureBindsPlan | rust/nlboot-client/src/main.rs:452-468 | accepted manifests with equal payloads give one plan for one token, whatever the keys, options, clocks and signatures |
| SignedBoot.PlannedFetch | rust/nlboot-client/src/main.rs:517-565 | a fetch of a plan the planner returned succeeds only with known keys, distinct refs and distinct cache paths |
| SignedBoot.LoadsSignedFiles | rust/nlboot-client/src/main.rs:249-664 | in a run without tampering over plans the planner returned, every kexec --load loads the kernel and initrd named by a manifest that a listed, then live key signed, with the bytes its catalog describes |
| ExecutionGate.ExecuteSucceedsIff | rust/nlboot-client/src/main.rs:633-775 | a command succeeds if and only if all its checks pass and kexec, where invoked, exits well, or it is an acknowledged M2 dry run |
| ExecutionGate.FailureReasons | rust/nlboot-client/src/main.rs:633-775 | exactly when kexec failed, the plan was unreadable, the proof could not be written, or the cache did not verify |
| ExecutionGate.OnlyRefusalsAreRecorded | rust/nlboot-client/src/main.rs:580-631 | a command that is not refused changes no refusal record |
| ExecutionGate.KexecCallsExactly | rust/nlboot-client/src/main.rs:633-724 | each step adds one exec, one load of the verified paths, or nothing, and exactly under which flags and checks |
| ExecutionGate.ProofChangesExactly | rust/nlboot-client/src/main.rs:646-659 | a directory's pre-exec proof changes exactly when a load-only command on it passes its checks, and to what |
| ExecutionGate.ExecProofChangesExactly | rust/nlboot-client/src/main.rs:696-709 | likewise for the exec proof |
| ExecutionGate.RefusedExactly | rust/nlboot-client/src/main.rs:617-631 | which one refusal each command meets, recorded in its own evidence directory and nowhere else |
| ExecutionGate.ExecIsGated | rust/nlboot-client/src/main.rs:680-724 | over any run with arbitrary cache tampering every kexec --exec had both acknowledgements, root, no dry run, matching bytes, and an earlier passing load-only that wrote the standing proof |
| ExecutionGate.NoOtherKexec | rust/nlboot-client/src/main.rs:726-775 | dry runs, the M2 adapter, unknown adapters and fetches never invoke kexec |
| ExecutionGate.ProofMeansLoadIff | rust/nlboot-client/src/main.rs:646-664 | the writer of a standing proof invoked the recorded load if and only if the proof is not marked dry-run |
| ExecutionGate.ExecWithoutLoad | rust/nlboot-client/src/main.rs:659-664 | a concrete run with kexec --exec and no kexec --load |
| ExecutionGate.ExecuteIgnoresPlanContents | rust/nlboot-client/src/main.rs:687-688 | two readable plans give an execute command the same host commands, files and result |

## Left out

- RSA-PSS, SHA-256, PEM and DER loading, key generation and random codes are uninterpreted; no collision or forgery assumption is made or needed.
- A redemption interrupted by anything but the overflow of its session's end, between spending the binding and returning.
- Timestamp text: one text-to-instant function serves both languages; the two parsers' accepted formats are not compared.
- Floats, so also the literal `-0`, an integer to Python and a float to serde_json; and lone surrogates in Python strings; integers outside i64 and u64 are kept out of the cross-language payload claims, because serde_json reads them as floats.
- JSON parsing of the input files: the model starts from parsed documents. The reader in `JsonText` reads compact text only and serves to invert the printers.
- serde's option to read a struct from a JSON array: every struct here is read from an object.
- Real file, HTTP and process calls: only their effect on files, evidence and the host trace. File writes are atomic, a cache file name is one path component, and evidence files never collide with cache files.
- The `plan` command's `--out` file is not a step of a run; naming a cache file there counts as tampering.
- Timestamps, content of the M2 adapter records and the wording of refusal records.
- `required_proofs` in Python plans: a constant tuple.
- Which reason a refused document is given: the model carries it, but only the reasons for host commands are stated as theorems; acceptance is stated exactly.
- `DeviceIdentity.generate` and `from_private_key_pem`: an identity is given, and `Device.Sound` says what is needed of it.
- With no `now` given, `load_trusted_keys` reads the wall clock anew for every key; `PlanWithClocks` has one wall-clock reading for all of them.
- The tools, schemas, packaging and lifecycle documents: no code implements the lifecycle states.
- Registry.EnrollmentRegistry.Issue: takes artifact refs already typed as strings, so Python's `isinstance` tests on its arguments do not appear.
