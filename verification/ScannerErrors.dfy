/** GraveScanner's error codes (programs/grave-scanner/src/errors.rs), and one value for every
    refusal that Anchor's account constraints make before a handler runs. */
module ScannerErrors {
  datatype ScanError =
    | AccountConstraint
    | Unauthorized
    | PoolNotEligible
    | LaunchPriceNotFound
    | UnsupportedAmm
    | MathOverflow
    | InvalidClock
    | InvariantViolation
    | AmmAdapterUnimplemented
    | PoolDataParseError
    | ProtocolPaused
    | CriteriaBitmapMismatch
    | AnchorNotFound
    | EpochConfirmationPending
    | AnchorInvalidated
    | AnchorNotStale
    | CertTtlBelowMinimum
    | LockerMarkerAccountRequired
    | LockerLockEvidenceRequired
    | InvalidLockerAccount
    | LockerAccountMismatch
    | AttestationMissing
    | InvalidAttestationOffsets
    | AttestationOracleMismatch
    | AttestationBindingMismatch
    | AttestationTimestampInvalid
    | AttestationStale
    | AttestationSlotHashMismatch
    | AttestationSlotInvalid
    | InvalidLaunchPrice
    | LaunchPriceMintMismatch
    | CertStillValid
}
