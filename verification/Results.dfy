/** Optional values and fail-closed results shared by every component. */
module Results {

  datatype Option<+T> = None | Some(value: T) {
    predicate IsFailure() {
      None?
    }

    function PropagateFailure<U>(): Option<U>
      requires None?
    {
      None
    }

    function Extract(): T
      requires Some?
    {
      value
    }
  }

  /** Why a check failed, one constructor for each distinct refusal. */
  datatype Reason =
    | NotAString(key: string)
    | BadTime(key: string)
    | NotAnObject
    | BadAlgorithm
    | BadProfile
    // device claims
    | NotPem
    | BadDeviceKey
    | BlankNonce
    | FingerprintMismatch
    | NonceMismatch
    | NotHex
    | BadSignature
    | NotADeviceUrn
    // enrollment
    | UnsupportedPurpose
    | BadTtl
    | EmptyReference
    | EmptyCode
    | UnknownCode
    | CodeSpent
    | CodeExpired
    | ReleaseSetMismatch
    | WrongDevice
    | TimeOverflow
    // trusted keys and bundles
    | EmptyKeyRef
    | BadKeyStatus
    | KeyRevoked
    | KeyNotActive
    | KeyNotYetActive
    | KeyExpired
    | BlankRevocationReason
    | NoKeysArray
    | NoTrustedKey
    | AlgorithmMismatch
    // manifests, menus and tokens
    | UnsupportedMode
    | UnsupportedRole
    | NotABoolean(key: string)
    | NotRollbackEligible
    | NoEntries
    | DuplicateEntry
    | UnknownDefault
    | ManyDefaults
    | WrongDefault
    | MissingDefault
    | MenuMismatch
    | MissingArtifacts
    | NotASignatureUrn
    | FipsRequired
    | BadStatus
    | TokenNotIssued
    | TokenExpired
    | TokenTimesInverted
    | NotOneTime
    | BootReleaseMismatch
    | PurposeNotValidForMode
    // fetching and executing
    | PlanUnreadable
    | MapUnreadable
    | WriteFailed
    | UnsupportedKey
    | ReferenceNotMapped
    | KindMismatch
    | SourceUnreadable
    | HashMismatch
    | SizeMismatch
    | NoCacheRecord
    | ArtifactNotCached
    | OutsideCache
    | CacheFileMissing
    | RefusedBy(refusal: Refusal)
    | KexecFailed

  /** The refusals the Rust client writes to `refusal-record.json`. */
  datatype Refusal =
    | MutationNotAcknowledged
    | RebootNotAcknowledged
    | NotRoot
    | NoPreExecProof
    | BothModes
    | NoMode
    | M2CannotExec
    | M2NeedsLoadOnly
    | M2NeedsDryRun
    | UnsupportedAdapter

  /** A Python exception or a Rust `Err`. */
  datatype Result<+T> = Ok(value: T) | Err(reason: Reason) {
    predicate IsFailure() {
      Err?
    }

    function PropagateFailure<U>(): Result<U>
      requires Err?
    {
      Err(reason)
    }

    function Extract(): T
      requires Ok?
    {
      value
    }
  }

  /** Fails with `reason` unless `condition` holds; used as `var _ :- Check(...)`. */
  function Check(condition: bool, reason: Reason): Result<()> {
    if condition then Ok(()) else Err(reason)
  }
}
