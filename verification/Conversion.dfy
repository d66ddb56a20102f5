/**
 The conversion coordinator: nine durable phases recorded in a capsule, each only on fresh evidence.
 A recording operation is a function of the caller's capsule bytes; the methods that edit the
 caller's buffer in place are proved to compute it.
 */
module Conversion {
  import opened Results
  import opened Bytes
  import opened Images
  import opened CapsuleHeader
  import opened CapsuleLog
  import opened CapsuleScanner
  import opened RollbackPlan
  import CapsuleRecovery

  datatype FileSystem = ExFat | Ntfs | UnknownFileSystem
  datatype Health = Clean | Dirty | UnknownHealth
  datatype Access = Offline | Mounted | UnknownAccess

  datatype ImageIdentity = ImageIdentity(instance: Digest, imageBytes: U64)

  datatype Preflight = Preflight(image: ImageIdentity, sourceDigest: Digest)

  /** A fresh observation of the locked image; the digest is of the source view, where one was taken. */
  datatype Observed = Observed(image: ImageIdentity, sourceDigest: Option<Digest>)

  datatype Staging = Staging(
    targetFilesystem: FileSystem,
    parserValidated: bool,
    inventoryComplete: bool,
    graphDigest: Digest,
    planDigest: Digest,
    candidateOverlayDigest: Digest)

  datatype Verification = Verification(
    targetFilesystem: FileSystem,
    inventoryComplete: bool,
    graphDigest: Digest,
    planDigest: Digest)

  datatype Completion = Completion(image: ImageIdentity, planDigest: Digest, health: Health, access: Access)

  datatype Prepared = Prepared(
    identity: Identity,
    preflight: Preflight,
    targetFilesystem: FileSystem,
    targetGraphDigest: Digest,
    planDigest: Digest,
    candidateOverlayDigest: Digest,
    relocationDigest: Digest,
    stagingDigest: Digest,
    preactivationDigest: Digest,
    fullDigest: Digest,
    rollbacks: Rollbacks,
    recoveryPayload: Payload,
    preparedEnvelope: Payload,
    limits: Limits)

  datatype Intent =
    | Reserve
    | Relocate(relocations: seq<Relocation>)
    | StageTarget(staging: seq<ReservedWrite>)
    | WriteBackupBoot(backupBoot: seq<ReservedWrite>)
    | VerifyStaging
    | Activate(activation: seq<ReservedWrite>)
    | Verify
    | Finalize
    | NoIntent

  datatype RollbackIntent = DiscardStaging | RestoreSource(writes: seq<OverlayWrite>, digest: Digest)

  datatype ResumePoint = ResumePoint(generation: U64, phase: Phase, next: Intent)

  datatype ConversionError =
    | CapsuleFailure(capsuleError: CapsuleError)
    | CapsuleAlreadyStarted
    | CapsuleNotStarted
    | LegacyCapsuleRollbackOnly
    | TransactionIdentityChanged
    | ImageIdentityChanged
    | StaleSourceEvidence
    | PlanChanged
    | HealthNotClean(health: Health)
    | AccessNotOffline(access: Access)
    | TerminalPhase(terminal: Phase)
    | UnexpectedPhase(expectedPhase: Phase, actualPhase: Phase)
    | StagingVerificationRequired
    | UnexpectedStagingVerificationEvidence
    | StagingVerificationNotExpected(current: Phase)
    | StagingVerificationIncomplete
    | StagingVerificationMismatch
    | VerificationRequired
    | UnexpectedVerificationEvidence
    | VerificationInventoryIncomplete
    | VerificationMismatch
    | RollbackBoundaryCrossed(crossed: Phase)
    | InvalidRollbackEvidence
    | IntentNotAuthorized

  // ----- phases and intents -----

  function NextPhase(phase: Phase): Option<Phase>
  {
    match phase
    case Discovered => Some(Reserved)
    case Reserved => Some(Relocating)
    case Relocating => Some(TargetStaged)
    case TargetStaged => Some(BackupBootWritten)
    case BackupBootWritten => Some(Activated)
    case Activated => Some(Verified)
    case Verified => Some(Finalized)
    case Finalized => None
    case RolledBack => None
  }

  /** The capsule accepts exactly the coordinator's next phase, or a rollback from an open one. */
  lemma NextPhaseRefinesMayFollow(phase: Phase, previous: Phase)
    ensures MayFollow(phase, previous) <==>
              NextPhase(previous) == Some(phase) || (Open(previous) && phase == RolledBack)
  {
  }

  predicate PhaseRequiresSource(phase: Phase)
  {
    phase in {Discovered, Reserved, Relocating, TargetStaged, BackupBootWritten}
  }

  function IntentAfter(p: Prepared, phase: Phase): Intent
  {
    match phase
    case Discovered => Reserve
    case Reserved => Relocate(p.rollbacks.relocations)
    case Relocating => StageTarget(p.rollbacks.writes.targetStaging)
    case TargetStaged => VerifyStaging
    case BackupBootWritten => Activate(p.rollbacks.writes.activation)
    case Activated => Verify
    case Verified => Finalize
    case Finalized => NoIntent
    case RolledBack => NoIntent
  }

  function RollbackIntentFor(p: Prepared, phase: Phase): Result<RollbackIntent, ConversionError>
  {
    match phase
    case Discovered => Ok(DiscardStaging)
    case Reserved =>
      if p.rollbacks.relocations == [] then Ok(DiscardStaging)
      else Ok(RestoreSource(p.rollbacks.relocation, p.relocationDigest))
    case Relocating => Ok(RestoreSource(p.rollbacks.staging, p.stagingDigest))
    case TargetStaged => Ok(RestoreSource(p.rollbacks.preactivation, p.preactivationDigest))
    case BackupBootWritten => Ok(RestoreSource(p.rollbacks.full, p.fullDigest))
    case Activated => Ok(RestoreSource(p.rollbacks.full, p.fullDigest))
    case Verified => Ok(RestoreSource(p.rollbacks.full, p.fullDigest))
    case Finalized => Err(RollbackBoundaryCrossed(phase))
    case RolledBack => Err(RollbackBoundaryCrossed(phase))
  }

  /** The mask through which the current image is hashed as the source. */
  function ObservationRollbackWrites(r: Rollbacks, phase: Phase): Option<seq<OverlayWrite>>
  {
    match phase
    case Discovered => None
    case Reserved => if r.relocations == [] then None else Some(r.relocation)
    case Relocating => Some(r.staging)
    case TargetStaged => Some(r.preactivation)
    case BackupBootWritten => Some(r.full)
    case Activated => Some(r.full)
    case Verified => Some(r.full)
    case Finalized => None
    case RolledBack => None
  }

  /** What a rollback writes, what an observation masks, and the phase's before-images are one set;
      a rollback is refused exactly past the acceptance boundary. */
  lemma MaskIsRollback(p: Prepared, phase: Phase)
    ensures RollbackIntentFor(p, phase).Ok? <==> Open(phase)
    ensures var mask := ObservationRollbackWrites(p.rollbacks, phase);
            && (mask.Some? <==> RollbackIntentFor(p, phase).Ok? && RollbackIntentFor(p, phase).value.RestoreSource?)
            && (mask.Some? ==>
                  mask.value == RollbackIntentFor(p, phase).value.writes == RollbackWrites(p.rollbacks, phase))
            && (mask.None? ==> RollbackWrites(p.rollbacks, phase) == [])
  {
  }

  // ----- evidence -----

  /** "SCORCH1\0" */
  const CHECKPOINT_MAGIC: seq<Byte> := [0x53, 0x43, 0x4F, 0x52, 0x43, 0x48, 0x31, 0]

  /** Forty bytes: the magic and the plan digest. */
  function CheckpointPayload(p: Prepared): (r: Payload)
    ensures |r| == 40
  {
    CHECKPOINT_MAGIC + p.planDigest
  }

  function Lifted<T>(r: Result<T, CapsuleError>): Result<T, ConversionError>
  {
    match r
    case Ok(v) => Ok(v)
    case Err(e) => Err(CapsuleFailure(e))
  }

  function ValidateObserved(p: Prepared, observed: Observed, requireSource: bool): Result<(), ConversionError>
  {
    if observed.image != p.preflight.image then Err(ImageIdentityChanged)
    else if requireSource && observed.sourceDigest != Some(p.preflight.sourceDigest) then Err(StaleSourceEvidence)
    else Ok(())
  }

  function ValidateCompletion(p: Prepared, completion: Completion): Result<(), ConversionError>
  {
    if completion.image != p.preflight.image then Err(ImageIdentityChanged)
    else if completion.planDigest != p.planDigest then Err(PlanChanged)
    else if completion.health != Clean then Err(HealthNotClean(completion.health))
    else if completion.access != Offline then Err(AccessNotOffline(completion.access))
    else Ok(())
  }

  function ValidateStaging(p: Prepared, evidence: Staging): Result<(), ConversionError>
  {
    if !evidence.parserValidated || !evidence.inventoryComplete then Err(StagingVerificationIncomplete)
    else if evidence.targetFilesystem != p.targetFilesystem || evidence.graphDigest != p.targetGraphDigest
            || evidence.planDigest != p.planDigest || evidence.candidateOverlayDigest != p.candidateOverlayDigest then
      Err(StagingVerificationMismatch)
    else Ok(())
  }

  function ValidateVerification(p: Prepared, evidence: Verification): Result<(), ConversionError>
  {
    if !evidence.inventoryComplete then Err(VerificationInventoryIncomplete)
    else if evidence.targetFilesystem != p.targetFilesystem || evidence.graphDigest != p.targetGraphDigest
            || evidence.planDigest != p.planDigest then
      Err(VerificationMismatch)
    else Ok(())
  }

  // ----- resuming -----

  function ResumeWithoutObservation(c: Codec, p: Prepared, capsule: seq<Byte>): Result<ResumePoint, ConversionError>
  {
    var view :- Lifted(RecoverCapsule(c, capsule, p.limits));
    if view.generations == [] then
      Err(CapsuleNotStarted)
    else
      var first, newest := view.generations[0], view.generations[|view.generations| - 1];
      if newest.identity != p.identity then
        Err(TransactionIdentityChanged)
      else if first.payload != p.preparedEnvelope && first.payload != p.recoveryPayload then
        Err(PlanChanged)
      else if newest.generation != 0 && newest.payload != CheckpointPayload(p) then
        Err(PlanChanged)
      else
        Ok(ResumePoint(newest.generation, newest.phase, IntentAfter(p, newest.phase)))
  }

  function IsLegacyCapsule(c: Codec, p: Prepared, capsule: seq<Byte>): Result<bool, ConversionError>
  {
    var view :- Lifted(RecoverCapsule(c, capsule, p.limits));
    if view.generations == [] then Err(CapsuleNotStarted) else Ok(view.generations[0].payload == p.recoveryPayload)
  }

  function Resume(c: Codec, p: Prepared, capsule: seq<Byte>, observed: Observed): Result<ResumePoint, ConversionError>
  {
    var resumed :- ResumeWithoutObservation(c, p, capsule);
    var legacy :- IsLegacyCapsule(c, p, capsule);
    if legacy then
      Err(LegacyCapsuleRollbackOnly)
    else
      var _ :- ValidateObserved(p, observed, PhaseRequiresSource(resumed.phase));
      Ok(resumed)
  }

  function ResumeForRollback(c: Codec, p: Prepared, capsule: seq<Byte>, observed: Observed)
    : Result<ResumePoint, ConversionError>
  {
    var resumed :- ResumeWithoutObservation(c, p, capsule);
    var _ :- ValidateObserved(p, observed, PhaseRequiresSource(resumed.phase));
    Ok(resumed)
  }

  function AuthorizeBackupBoot(c: Codec, p: Prepared, capsule: seq<Byte>, observed: Observed, evidence: Staging)
    : Result<Intent, ConversionError>
  {
    var current :- Resume(c, p, capsule, observed);
    if current.phase != TargetStaged then
      Err(StagingVerificationNotExpected(current.phase))
    else
      var _ :- ValidateStaging(p, evidence);
      Ok(WriteBackupBoot(p.rollbacks.writes.backupBoot))
  }

  // ----- recording -----

  /** The caller's capsule after a recording operation, and its answer. */
  datatype Recorded = Recorded(capsule: seq<Byte>, result: Result<(), ConversionError>)

  /** Truncate to the validated bytes, then append; a refused append leaves the truncation. */
  function TruncateThenAppend(c: Codec, p: Prepared, capsule: seq<Byte>, validated: nat, phase: Phase): Recorded
    requires validated <= |capsule|
  {
    match Append(c, capsule[..validated], p.identity, phase, CheckpointPayload(p), p.limits)
    case Ok(updated) => Recorded(updated, Ok(()))
    case Err(e) => Recorded(capsule[..validated], Err(CapsuleFailure(e)))
  }

  function BeginCapsule(c: Codec, p: Prepared, capsule: seq<Byte>, observed: Observed): Recorded
  {
    if capsule != [] then
      Recorded(capsule, Err(CapsuleAlreadyStarted))
    else
      var valid := ValidateObserved(p, observed, true);
      if valid.Err? then
        Recorded(capsule, Err(valid.error))
      else
        match Append(c, capsule, p.identity, Discovered, p.preparedEnvelope, p.limits)
        case Ok(updated) => Recorded(updated, Ok(()))
        case Err(e) => Recorded(capsule, Err(CapsuleFailure(e)))
  }

  function CheckEvidence(p: Prepared, next: Phase, completion: Completion, staging: Option<Staging>,
                         verification: Option<Verification>): Result<(), ConversionError>
  {
    var _ :- ValidateCompletion(p, completion);
    var _ :-
      if next == BackupBootWritten then
        if staging.None? then Err(StagingVerificationRequired) else ValidateStaging(p, staging.value)
      else if staging.Some? then Err(UnexpectedStagingVerificationEvidence)
      else Ok(());
    if next == Verified then
      if verification.None? then Err(VerificationRequired) else ValidateVerification(p, verification.value)
    else if verification.Some? then Err(UnexpectedVerificationEvidence)
    else Ok(())
  }

  /** Everything `record_phase` checks before it touches the capsule, ending in the validated length. */
  function CheckPhase(c: Codec, p: Prepared, capsule: seq<Byte>, observed: Observed, next: Phase,
                      completion: Completion,
                      staging: Option<Staging>, verification: Option<Verification>): Result<nat, ConversionError>
  {
    var current :- Resume(c, p, capsule, observed);
    var view :- Lifted(RecoverCapsule(c, capsule, p.limits));
    var expected := NextPhase(current.phase);
    if expected.None? then
      Err(TerminalPhase(current.phase))
    else if next != expected.value then
      Err(UnexpectedPhase(expected.value, next))
    else
      var _ :- CheckEvidence(p, next, completion, staging, verification);
      Ok(view.validatedBytes)
  }

  lemma CheckedLengthFits(c: Codec, p: Prepared, capsule: seq<Byte>)
    ensures RecoverCapsule(c, capsule, p.limits).Ok? ==>
              RecoverCapsule(c, capsule, p.limits).value.validatedBytes <= |capsule|
  {
    hide Scan;
    if RecoverCapsule(c, capsule, p.limits).Ok? {
      CapsuleRecovery.ScanShape(c, capsule, p.limits, true);
    }
  }

  /** What recovery keeps of the capsule. */
  function CleanPrefix(c: Codec, p: Prepared, capsule: seq<Byte>): (r: seq<Byte>)
    requires RecoverCapsule(c, capsule, p.limits).Ok?
    ensures r <= capsule
  {
    CheckedLengthFits(c, p, capsule);
    capsule[..RecoverCapsule(c, capsule, p.limits).value.validatedBytes]
  }

  function RecordPhase(c: Codec, p: Prepared, capsule: seq<Byte>, observed: Observed, next: Phase,
                       completion: Completion,
                       staging: Option<Staging>, verification: Option<Verification>): Recorded
  {
    var checked := CheckPhase(c, p, capsule, observed, next, completion, staging, verification);
    if checked.Err? then
      Recorded(capsule, Err(checked.error))
    else
      CheckedLengthFits(c, p, capsule);
      TruncateThenAppend(c, p, capsule, checked.value, next)
  }

  /** Everything `record_rollback` checks before it touches the capsule. */
  function CheckRollback(c: Codec, p: Prepared, capsule: seq<Byte>, observed: Observed, completion: Completion,
                         applied: Option<Digest>): Result<nat, ConversionError>
  {
    var current :- ResumeForRollback(c, p, capsule, observed);
    var _ :- ValidateObserved(p, observed, true);
    var view :- Lifted(RecoverCapsule(c, capsule, p.limits));
    var intent :- RollbackIntentFor(p, current.phase);
    var _ :- ValidateCompletion(p, completion);
    if applied == (if intent.DiscardStaging? then None else Some(intent.digest)) then
      Ok(view.validatedBytes)
    else
      Err(InvalidRollbackEvidence)
  }

  function RecordRollback(c: Codec, p: Prepared, capsule: seq<Byte>, observed: Observed, completion: Completion,
                          applied: Option<Digest>): Recorded
  {
    var checked := CheckRollback(c, p, capsule, observed, completion, applied);
    if checked.Err? then
      Recorded(capsule, Err(checked.error))
    else
      CheckedLengthFits(c, p, capsule);
      TruncateThenAppend(c, p, capsule, checked.value, RolledBack)
  }

  // ----- the same operations on the caller's buffer -----

  method BeginInPlace(hashes: Hashes, p: Prepared, capsule: CapsuleBuffer, observed: Observed)
    returns (r: Result<(), ConversionError>)
    modifies capsule
    ensures Recorded(capsule.bytes, r) == BeginCapsule(CapsuleCodec(hashes), p, old(capsule.bytes), observed)
  {
    hide Append;
    if capsule.bytes != [] {
      return Err(CapsuleAlreadyStarted);
    }
    var valid := ValidateObserved(p, observed, true);
    if valid.Err? {
      return valid;
    }
    var appended := capsule.AppendGeneration(hashes, p.identity, Discovered, p.preparedEnvelope, p.limits);
    return Lifted(appended);
  }

  /** The second recovery of a capsule that has just been resumed: it cannot fail. */
  method RecoverAgain(hashes: Hashes, p: Prepared, capsule: seq<Byte>) returns (v: View)
    requires RecoverCapsule(CapsuleCodec(hashes), capsule, p.limits).Ok?
    ensures RecoverCapsule(CapsuleCodec(hashes), capsule, p.limits) == Ok(v)
    ensures v.validatedBytes <= |capsule|
  {
    hide Scan;
    var view := ScanCapsuleImpl(hashes, capsule, p.limits, true);
    CheckedLengthFits(CapsuleCodec(hashes), p, capsule);
    return view.value;
  }

  method TruncateAndAppend(hashes: Hashes, p: Prepared, capsule: CapsuleBuffer, validated: nat, phase: Phase)
    returns (r: Result<(), ConversionError>)
    requires validated <= |capsule.bytes|
    modifies capsule
    ensures Recorded(capsule.bytes, r)
              == TruncateThenAppend(CapsuleCodec(hashes), p, old(capsule.bytes), validated, phase)
  {
    hide Append;
    capsule.Truncate(validated);
    var appended := capsule.AppendGeneration(hashes, p.identity, phase, CheckpointPayload(p), p.limits);
    return Lifted(appended);
  }

  method RecordPhaseInPlace(hashes: Hashes, p: Prepared, capsule: CapsuleBuffer, observed: Observed, next: Phase,
                            completion: Completion, staging: Option<Staging>, verification: Option<Verification>)
    returns (r: Result<(), ConversionError>)
    modifies capsule
    ensures Recorded(capsule.bytes, r)
         == RecordPhase(CapsuleCodec(hashes), p, old(capsule.bytes), observed, next, completion, staging, verification)
  {
    hide Scan, TruncateThenAppend;
    var current := Resume(CapsuleCodec(hashes), p, capsule.bytes, observed);
    if current.Err? {
      return Err(current.error);
    }
    var view := RecoverAgain(hashes, p, capsule.bytes);
    var expected := NextPhase(current.value.phase);
    if expected.None? {
      return Err(TerminalPhase(current.value.phase));
    }
    if next != expected.value {
      return Err(UnexpectedPhase(expected.value, next));
    }
    var evidence := CheckEvidence(p, next, completion, staging, verification);
    if evidence.Err? {
      return evidence;
    }
    r := TruncateAndAppend(hashes, p, capsule, view.validatedBytes, next);
  }

  method RecordRollbackInPlace(hashes: Hashes, p: Prepared, capsule: CapsuleBuffer, observed: Observed,
                               completion: Completion, applied: Option<Digest>)
    returns (r: Result<(), ConversionError>)
    modifies capsule
    ensures Recorded(capsule.bytes, r)
         == RecordRollback(CapsuleCodec(hashes), p, old(capsule.bytes), observed, completion, applied)
  {
    hide Scan, TruncateThenAppend;
    var current := ResumeForRollback(CapsuleCodec(hashes), p, capsule.bytes, observed);
    if current.Err? {
      return Err(current.error);
    }
    var restored := ValidateObserved(p, observed, true);
    if restored.Err? {
      return restored;
    }
    var view := RecoverAgain(hashes, p, capsule.bytes);
    var intent := RollbackIntentFor(p, current.value.phase);
    if intent.Err? {
      return Err(intent.error);
    }
    var valid := ValidateCompletion(p, completion);
    if valid.Err? {
      return valid;
    }
    match intent.value {
      case DiscardStaging =>
        if applied.Some? {
          return Err(InvalidRollbackEvidence);
        }
      case RestoreSource(_, digest) =>
        if applied != Some(digest) {
          return Err(InvalidRollbackEvidence);
        }
    }
    r := TruncateAndAppend(hashes, p, capsule, view.validatedBytes, RolledBack);
  }
}
