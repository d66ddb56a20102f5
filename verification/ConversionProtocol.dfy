/** What the coordinator's recording rules keep over every run, torn checkpoints included. */
module ConversionProtocol {
  import opened Results
  import opened Bytes
  import opened CapsuleHeader
  import opened CapsuleLog
  import opened CapsuleRecovery
  import opened CapsuleFraming
  import opened CapsuleLayout
  import opened RollbackPlan
  import opened Conversion

  // ----- torn tails are invisible -----

  lemma RecoveredAlike(c: Codec, capsule: seq<Byte>, limits: Limits)
    requires RecoverCapsule(c, capsule, limits).Ok?
    ensures var v := RecoverCapsule(c, capsule, limits).value;
            && v.validatedBytes <= |capsule|
            && RecoverCapsule(c, capsule[..v.validatedBytes], limits) == Ok(v)
            && ScanCapsule(c, capsule[..v.validatedBytes], limits) == Ok(v)
  {
    hide Scan;
    RecoveryIsStrictOnPrefix(c, capsule, limits);
    StrictImpliesRecovered(c, capsule[..RecoverCapsule(c, capsule, limits).value.validatedBytes], limits);
  }

  /** Recording on a capsule with a torn newest append gives the same answer and, on success, the
      same bytes as recording on the clean prefix. */
  lemma TornTailInvisible(c: Codec, p: Prepared, torn: seq<Byte>, observed: Observed, next: Phase,
                          completion: Completion,
                          staging: Option<Staging>, verification: Option<Verification>)
    requires RecoverCapsule(c, torn, p.limits).Ok?
    ensures var clean := CleanPrefix(c, p, torn);
            var onTorn := RecordPhase(c, p, torn, observed, next, completion, staging, verification);
            var onClean := RecordPhase(c, p, clean, observed, next, completion, staging, verification);
            && onTorn.result == onClean.result
            && (onTorn.result.Ok? ==> onTorn.capsule == onClean.capsule)
            && (onTorn.result.Err? ==> onClean.capsule == clean && (onTorn.capsule == torn || onTorn.capsule == clean))
  {
    hide Scan, Append, CheckEvidence;
    RecoveredAlike(c, torn, p.limits);
    var n := RecoverCapsule(c, torn, p.limits).value.validatedBytes;
    assert torn[..n][..n] == torn[..n];
  }

  /** The same for a rollback checkpoint. */
  lemma TornTailInvisibleToRollback(c: Codec, p: Prepared, torn: seq<Byte>, observed: Observed, completion: Completion,
                                    applied: Option<Digest>)
    requires RecoverCapsule(c, torn, p.limits).Ok?
    ensures var clean := CleanPrefix(c, p, torn);
            var onTorn := RecordRollback(c, p, torn, observed, completion, applied);
            var onClean := RecordRollback(c, p, clean, observed, completion, applied);
            && onTorn.result == onClean.result
            && (onTorn.result.Ok? ==> onTorn.capsule == onClean.capsule)
            && (onTorn.result.Err? ==> onClean.capsule == clean && (onTorn.capsule == torn || onTorn.capsule == clean))
  {
    hide Scan, Append, ValidateCompletion;
    RecoveredAlike(c, torn, p.limits);
    var n := RecoverCapsule(c, torn, p.limits).value.validatedBytes;
    assert torn[..n][..n] == torn[..n];
  }

  // ----- what a refusal leaves behind -----

  /** A refused recording leaves the capsule alone unless every check passed and there was a torn tail
      to drop; then the tail stays dropped. */
  lemma RefusalTruncatesExactly(c: Codec, p: Prepared, capsule: seq<Byte>, observed: Observed, next: Phase,
                                completion: Completion, staging: Option<Staging>, verification: Option<Verification>)
    requires RecordPhase(c, p, capsule, observed, next, completion, staging, verification).result.Err?
    ensures var checked := CheckPhase(c, p, capsule, observed, next, completion, staging, verification);
            && (checked.Ok? ==> RecoverCapsule(c, capsule, p.limits).Ok?)
            && (RecordPhase(c, p, capsule, observed, next, completion, staging, verification).capsule == capsule <==>
                  checked.Err? || RecoverCapsule(c, capsule, p.limits).value.validatedBytes == |capsule|)
  {
    hide Scan, Append, CheckEvidence;
    CheckedLengthFits(c, p, capsule);
  }

  /** The same for a rollback checkpoint. */
  lemma RollbackRefusalTruncatesExactly(c: Codec, p: Prepared, capsule: seq<Byte>, observed: Observed,
                                        completion: Completion, applied: Option<Digest>)
    requires RecordRollback(c, p, capsule, observed, completion, applied).result.Err?
    ensures var checked := CheckRollback(c, p, capsule, observed, completion, applied);
            && (checked.Ok? ==> RecoverCapsule(c, capsule, p.limits).Ok?)
            && (RecordRollback(c, p, capsule, observed, completion, applied).capsule == capsule <==>
                  checked.Err? || RecoverCapsule(c, capsule, p.limits).value.validatedBytes == |capsule|)
  {
    hide Scan, Append, ValidateCompletion;
    CheckedLengthFits(c, p, capsule);
  }

  // ----- what each checkpoint must have been shown -----

  /** A checkpoint together with the evidence it was recorded on. */
  datatype Event =
    | Began(observed: Observed)
    | Advanced(next: Phase, observed: Observed, completion: Completion, staging: Option<Staging>,
               verification: Option<Verification>)
    | Restored(observed: Observed, completion: Completion, applied: Option<Digest>)

  function PhaseOf(e: Event): Phase
  {
    match e
    case Began(_) => Discovered
    case Advanced(next, _, _, _, _) => next
    case Restored(_, _, _) => RolledBack
  }

  function PayloadOf(p: Prepared, e: Event): Payload
  {
    if e.Began? then p.preparedEnvelope else CheckpointPayload(p)
  }

  predicate SourceSeen(p: Prepared, observed: Observed)
  {
    observed == Observed(p.preflight.image, Some(p.preflight.sourceDigest))
  }

  predicate CompletedCleanly(p: Prepared, completion: Completion)
  {
    completion == Completion(p.preflight.image, p.planDigest, Clean, Offline)
  }

  /** The only staging evidence that counts: parsed, complete, and every digest as planned. */
  function ExpectedStaging(p: Prepared): Staging
  {
    Staging(p.targetFilesystem, true, true, p.targetGraphDigest, p.planDigest, p.candidateOverlayDigest)
  }

  function ExpectedVerification(p: Prepared): Verification
  {
    Verification(p.targetFilesystem, true, p.targetGraphDigest, p.planDigest)
  }

  /** The digest of the before-images a rollback from `phase` must have applied. */
  function ExpectedDigest(p: Prepared, phase: Phase): Option<Digest>
  {
    match phase
    case Reserved => if p.rollbacks.relocations == [] then None else Some(p.relocationDigest)
    case Relocating => Some(p.stagingDigest)
    case TargetStaged => Some(p.preactivationDigest)
    case BackupBootWritten => Some(p.fullDigest)
    case Activated => Some(p.fullDigest)
    case Verified => Some(p.fullDigest)
    case _ => None
  }

  /** What recording `e` straight after a checkpoint of `previous` requires. */
  predicate Witnessed(p: Prepared, previous: Phase, e: Event)
  {
    match e
    case Began(_) => false
    case Advanced(next, observed, completion, staging, verification) =>
      && PhaseCode(next) == PhaseCode(previous) + 1 && next != RolledBack
      && observed.image == p.preflight.image
      && (PhaseCode(previous) <= PhaseCode(BackupBootWritten) ==> SourceSeen(p, observed))
      && CompletedCleanly(p, completion)
      && staging == (if next == BackupBootWritten then Some(ExpectedStaging(p)) else None)
      && verification == (if next == Verified then Some(ExpectedVerification(p)) else None)
    case Restored(observed, completion, applied) =>
      && Open(previous)
      && SourceSeen(p, observed)
      && CompletedCleanly(p, completion)
      && applied == ExpectedDigest(p, previous)
  }

  function RecordEvent(c: Codec, p: Prepared, capsule: seq<Byte>, e: Event): Recorded
  {
    match e
    case Began(observed) => BeginCapsule(c, p, capsule, observed)
    case Advanced(next, observed, completion, staging, verification) =>
      RecordPhase(c, p, capsule, observed, next, completion, staging, verification)
    case Restored(observed, completion, applied) => RecordRollback(c, p, capsule, observed, completion, applied)
  }

  lemma CheckPhaseExact(c: Codec, p: Prepared, capsule: seq<Byte>, observed: Observed, next: Phase,
                        completion: Completion,
                        staging: Option<Staging>, verification: Option<Verification>)
    ensures var current := ResumeWithoutObservation(c, p, capsule);
            var checked := CheckPhase(c, p, capsule, observed, next, completion, staging, verification);
            && (checked.Ok? <==>
                  && current.Ok? && IsLegacyCapsule(c, p, capsule) == Ok(false)
                  && Witnessed(p, current.value.phase, Advanced(next, observed, completion, staging, verification)))
            && (checked.Ok? ==> checked.value == RecoverCapsule(c, capsule, p.limits).value.validatedBytes)
  {
    hide Scan;
  }

  lemma CheckRollbackExact(c: Codec, p: Prepared, capsule: seq<Byte>, observed: Observed, completion: Completion,
                           applied: Option<Digest>)
    ensures var current := ResumeWithoutObservation(c, p, capsule);
            var checked := CheckRollback(c, p, capsule, observed, completion, applied);
            && (checked.Ok? <==>
                  && current.Ok?
                  && Witnessed(p, current.value.phase, Restored(observed, completion, applied)))
            && (checked.Ok? ==> checked.value == RecoverCapsule(c, capsule, p.limits).value.validatedBytes)
  {
    hide Scan;
  }

  /** Backup-boot writes are authorized exactly at `TargetStaged`, on the planned staging evidence and
      a source observation, and then for exactly the planned writes. */
  lemma BackupBootAuthorizedExactly(c: Codec, p: Prepared, capsule: seq<Byte>, observed: Observed, evidence: Staging)
    ensures var current := ResumeWithoutObservation(c, p, capsule);
            var r := AuthorizeBackupBoot(c, p, capsule, observed, evidence);
            && (r.Ok? <==>
                  && current.Ok? && IsLegacyCapsule(c, p, capsule) == Ok(false)
                  && current.value.phase == TargetStaged
                  && SourceSeen(p, observed)
                  && evidence == ExpectedStaging(p))
            && (r.Ok? ==> r.value == WriteBackupBoot(p.rollbacks.writes.backupBoot))
  {
    hide Scan;
  }

  /** Where one checkpoint could be appended, any other legal one can. */
  lemma CheckpointRepeats(c: Codec, p: Prepared, clean: seq<Byte>, first: Phase, next: Phase)
    requires Append(c, clean, p.identity, first, CheckpointPayload(p), p.limits).Ok?
    requires var generations := ScanCapsule(c, clean, p.limits).value.generations;
             generations != [] && MayFollow(next, generations[|generations| - 1].phase)
    ensures Append(c, clean, p.identity, next, CheckpointPayload(p), p.limits).Ok?
  {
    hide Scan;
  }

  /** Every checkpoint the checks let through continues the capsule's phases. */
  lemma CheckedFollows(c: Codec, p: Prepared, capsule: seq<Byte>, e: Event)
    requires !e.Began? && ResumeWithoutObservation(c, p, capsule).Ok?
    requires Witnessed(p, ResumeWithoutObservation(c, p, capsule).value.phase, e)
    ensures RecoverCapsule(c, capsule, p.limits).Ok?
    ensures var generations := RecoverCapsule(c, capsule, p.limits).value.generations;
            generations != [] && MayFollow(PhaseOf(e), generations[|generations| - 1].phase)
  {
    hide Scan;
    var current := ResumeWithoutObservation(c, p, capsule).value.phase;
    NextPhaseRefinesMayFollow(PhaseOf(e), current);
  }

  /** A tear of the coordinator's own append is always made good: under unchanged limits the next
      checkpoint either fails its checks and leaves the torn capsule alone, or is recorded. */
  lemma RetryNeverTruncatesInVain(c: Codec, p: Prepared, clean: seq<Byte>, first: Event, cut: nat, e: Event)
    requires RoundTrips(c)
    requires Append(c, clean, p.identity, PhaseOf(first), PayloadOf(p, first), p.limits).Ok?
    requires first.Began? ==> clean == []
    requires |clean| < cut < |Append(c, clean, p.identity, PhaseOf(first), PayloadOf(p, first), p.limits).value|
    ensures var torn := Append(c, clean, p.identity, PhaseOf(first), PayloadOf(p, first), p.limits).value[..cut];
            RecordEvent(c, p, torn, e).result.Err? ==> RecordEvent(c, p, torn, e).capsule == torn
  {
    hide Scan, Append, CheckPhase, CheckRollback, Witnessed, ResumeWithoutObservation, Framed;
    var updated := Append(c, clean, p.identity, PhaseOf(first), PayloadOf(p, first), p.limits).value;
    var torn := updated[..cut];
    AppendThenTear(c, clean, p.identity, PhaseOf(first), PayloadOf(p, first), p.limits, cut);
    var _ := AppendClaims(c, clean, p.identity, PhaseOf(first), PayloadOf(p, first), p.limits);
    assert torn[..|clean|] == clean;
    AppendNeedsScan(c, clean, Entry(p.identity, PhaseOf(first), PayloadOf(p, first)), p.limits);
    if !e.Began? {
      CheckedMeansWitnessed(c, p, torn, e);
      var resumed := ResumeWithoutObservation(c, p, torn);
      if resumed.Ok? && Witnessed(p, resumed.value.phase, e) {
        CheckedFollows(c, p, torn, e);
        EmptyCleanEmptyView(c, clean, p.limits);
        CheckpointRepeats(c, p, clean, PhaseOf(first), PhaseOf(e));
      }
    }
  }

  lemma EmptyCleanEmptyView(c: Codec, clean: seq<Byte>, limits: Limits)
    requires ScanCapsule(c, clean, limits).Ok?
    ensures clean == [] ==> ScanCapsule(c, clean, limits).value.generations == []
  {
  }

  /** Either the checks refused and nothing changed, or the evidence was right and the clean prefix was
      appended to. */
  lemma CheckedMeansWitnessed(c: Codec, p: Prepared, capsule: seq<Byte>, e: Event)
    requires !e.Began?
    ensures var resumed := ResumeWithoutObservation(c, p, capsule);
            || RecordEvent(c, p, capsule, e).capsule == capsule
            || (resumed.Ok? && Witnessed(p, resumed.value.phase, e) && RecoverCapsule(c, capsule, p.limits).Ok?
                && (Append(c, CleanPrefix(c, p, capsule), p.identity, PhaseOf(e), CheckpointPayload(p), p.limits).Ok?
                    ==> RecordEvent(c, p, capsule, e).result.Ok?))
  {
    hide Scan, Append, CheckPhase, CheckRollback, Witnessed;
    match e
    case Advanced(next, observed, completion, staging, verification) =>
      CheckPhaseExact(c, p, capsule, observed, next, completion, staging, verification);
      CheckPhaseRecovers(c, p, capsule, observed, next, completion, staging, verification);
    case Restored(observed, completion, applied) =>
      CheckRollbackExact(c, p, capsule, observed, completion, applied);
      CheckRollbackRecovers(c, p, capsule, observed, completion, applied);
  }

  /** Nothing can be recorded after `Finalized` or `RolledBack`, whatever the evidence. */
  lemma TerminalRefusesEverything(c: Codec, p: Prepared, capsule: seq<Byte>, e: Event)
    requires ResumeWithoutObservation(c, p, capsule).Ok?
    requires !Open(ResumeWithoutObservation(c, p, capsule).value.phase)
    ensures RecordEvent(c, p, capsule, e).result.Err? && RecordEvent(c, p, capsule, e).capsule == capsule
  {
    hide Scan, TruncateThenAppend;
    match e
    case Began(_) =>
      assert RecoverCapsule(c, [], p.limits).Ok? ==> RecoverCapsule(c, [], p.limits).value.generations == [] by {
        EmptyRecovers(c, p.limits);
      }
    case Advanced(next, observed, completion, staging, verification) =>
      CheckPhaseExact(c, p, capsule, observed, next, completion, staging, verification);
    case Restored(observed, completion, applied) =>
      CheckRollbackExact(c, p, capsule, observed, completion, applied);
  }

  lemma EmptyRecovers(c: Codec, limits: Limits)
    ensures Scan(c, [], limits, true).Ok? ==> Scan(c, [], limits, true) == Ok(View([], 0))
  {
  }

  // ----- whole runs -----

  /** The capsule as a run sees it: `clean` holds the checkpoints of `events`, `full` appends the
      newest one, and only the first `cut` bytes of that survived. */
  datatype Log = Log(clean: seq<Byte>, events: seq<Event>, full: seq<Byte>, newest: Option<Event>, cut: nat)

  const EMPTY_LOG: Log := Log([], [], [], None, 0)

  function CapsuleOf(l: Log): seq<Byte>
  {
    if l.cut <= |l.full| then l.full[..l.cut] else l.full
  }

  /** The newest checkpoint counts exactly when nothing of it was torn off. */
  function Settled(l: Log): (seq<Byte>, seq<Event>)
  {
    if l.newest.Some? && l.cut == |l.full| then (l.full, l.events + [l.newest.value]) else (l.clean, l.events)
  }

  function DurableEvents(l: Log): seq<Event>
  {
    Settled(l).1
  }

  datatype Op = Record(event: Event) | Tear(kept: nat)

  /** Recording goes through the coordinator on whatever the capsule now is; a crash may tear the
      newest append anywhere. */
  function Step(c: Codec, p: Prepared, l: Log, op: Op): Log
  {
    match op
    case Tear(kept) => if |l.clean| <= kept <= l.cut then l.(cut := kept) else l
    case Record(e) =>
      var r := RecordEvent(c, p, CapsuleOf(l), e);
      if r.result.Ok? then
        Log(Settled(l).0, Settled(l).1, r.capsule, Some(e), |r.capsule|)
      else
        l.(cut := |r.capsule|)
  }

  function Run(c: Codec, p: Prepared, ops: seq<Op>): Log
  {
    if ops == [] then EMPTY_LOG else Step(c, p, Run(c, p, ops[..|ops| - 1]), ops[|ops| - 1])
  }

  predicate EarnedAt(p: Prepared, events: seq<Event>, k: nat)
    requires k < |events|
  {
    if k == 0 then events[0].Began? && SourceSeen(p, events[0].observed)
    else Witnessed(p, PhaseOf(events[k - 1]), events[k])
  }

  /** Every checkpoint was recorded on the evidence its phase demands. */
  ghost predicate Earned(p: Prepared, events: seq<Event>)
  {
    forall k: nat :: k < |events| ==> EarnedAt(p, events, k)
  }

  ghost predicate Match(generations: seq<Generation>, events: seq<Event>)
  {
    |generations| == |events| && forall k :: 0 <= k < |events| ==> generations[k].phase == PhaseOf(events[k])
  }

  /** The appends a list of checkpoints stands for. */
  function EntriesOf(p: Prepared, events: seq<Event>): (r: seq<Entry>)
    ensures |r| == |events|
    ensures forall k :: 0 <= k < |r| ==> r[k] == Entry(p.identity, PhaseOf(events[k]), PayloadOf(p, events[k]))
  {
    seq(|events|, k requires 0 <= k < |events| => Entry(p.identity, PhaseOf(events[k]), PayloadOf(p, events[k])))
  }

  lemma EntriesGrow(c: Codec, p: Prepared, events: seq<Event>, e: Event)
    ensures var entries := EntriesOf(p, events);
            && EntriesOf(p, events + [e]) == entries + [Entry(p.identity, PhaseOf(e), PayloadOf(p, e))]
            && (AppendAll(c, entries, p.limits).Ok? ==>
                  AppendAll(c, EntriesOf(p, events + [e]), p.limits)
                  == Append(c, AppendAll(c, entries, p.limits).value, p.identity, PhaseOf(e), PayloadOf(p, e),
                      p.limits))
  {
    hide Append;
    var longer := EntriesOf(p, events + [e]);
    assert longer[..|events|] == EntriesOf(p, events);
  }

  ghost predicate LogInv(c: Codec, p: Prepared, l: Log)
  {
    && |l.clean| <= l.cut <= |l.full|
    && ScanCapsule(c, l.clean, p.limits).Ok?
    && Match(ScanCapsule(c, l.clean, p.limits).value.generations, l.events)
    && Earned(p, l.events)
    && AppendAll(c, EntriesOf(p, l.events), p.limits) == Ok(l.clean)
    && (match l.newest
        case None => l.full == l.clean
        case Some(e) =>
          && Append(c, l.clean, p.identity, PhaseOf(e), PayloadOf(p, e), p.limits) == Ok(l.full)
          && Earned(p, l.events + [e]))
  }

  /** What recovery finds in a run's capsule is exactly its settled part. */
  lemma RecoversSettled(c: Codec, p: Prepared, l: Log)
    requires RoundTrips(c) && LogInv(c, p, l)
    requires RecoverCapsule(c, CapsuleOf(l), p.limits).Ok?
    ensures var v := RecoverCapsule(c, CapsuleOf(l), p.limits).value;
            && v.validatedBytes == |Settled(l).0| && CapsuleOf(l)[..v.validatedBytes] == Settled(l).0
            && Match(v.generations, DurableEvents(l))
    ensures Earned(p, DurableEvents(l))
  {
    hide Scan, Append, Earned, Framed, AppendAll, EntriesOf;
    if l.newest.Some? && l.cut > |l.clean| {
      var e := l.newest.value;
      var _ := AppendClaims(c, l.clean, p.identity, PhaseOf(e), PayloadOf(p, e), p.limits);
      if l.cut == |l.full| {
        assert CapsuleOf(l) == l.full;
        AppendThenScan(c, l.clean, p.identity, PhaseOf(e), PayloadOf(p, e), p.limits, true);
      } else {
        AppendThenTear(c, l.clean, p.identity, PhaseOf(e), PayloadOf(p, e), p.limits, l.cut);
        AppendedPrefix(c, p, l);
      }
    } else {
      AppendedPrefix(c, p, l);
      StrictImpliesRecovered(c, l.clean, p.limits);
      ScanShape(c, l.clean, p.limits, false);
    }
  }

  /** An append keeps what was there and always adds something. */
  lemma AppendedPrefix(c: Codec, p: Prepared, l: Log)
    requires RoundTrips(c) && LogInv(c, p, l)
    ensures l.clean <= l.full && l.full[..|l.clean|] == l.clean && (l.newest.Some? ==> |l.clean| < |l.full|)
  {
    hide Scan, Append, Earned, AppendAll, EntriesOf;
    if l.newest.Some? {
      var _ := AppendClaims(c, l.clean, p.identity, PhaseOf(l.newest.value), PayloadOf(p, l.newest.value), p.limits);
    }
  }

  /** The settled part is the sequence of its own appends. */
  lemma SettledWritten(c: Codec, p: Prepared, l: Log)
    requires LogInv(c, p, l)
    ensures AppendAll(c, EntriesOf(p, DurableEvents(l)), p.limits) == Ok(Settled(l).0)
  {
    hide Scan, Append, AppendAll, EntriesOf, Earned, Match;
    if l.newest.Some? {
      EntriesGrow(c, p, l.events, l.newest.value);
    }
  }

  lemma EarnedGrows(p: Prepared, events: seq<Event>, e: Event)
    requires Earned(p, events)
    requires if events == [] then e.Began? && SourceSeen(p, e.observed)
               else Witnessed(p, PhaseOf(events[|events| - 1]), e)
    ensures Earned(p, events + [e])
  {
    var longer := events + [e];
    forall k: nat | k < |longer|
      ensures EarnedAt(p, longer, k)
    {
      if k < |events| {
        assert EarnedAt(p, events, k);
      }
    }
  }

  /** What a successful recording did: it appended the checkpoint to the recovered prefix, on the
      evidence its phase demands; a refused one at most dropped a torn tail. */
  lemma RecordingFacts(c: Codec, p: Prepared, capsule: seq<Byte>, e: Event)
    ensures var r := RecordEvent(c, p, capsule, e);
            && (r.result.Ok? && e.Began? ==>
                  && capsule == [] && SourceSeen(p, e.observed)
                  && Append(c, [], p.identity, Discovered, p.preparedEnvelope, p.limits) == Ok(r.capsule))
            && (r.result.Ok? && !e.Began? ==>
                  && ResumeWithoutObservation(c, p, capsule).Ok?
                  && Witnessed(p, ResumeWithoutObservation(c, p, capsule).value.phase, e)
                  && RecoverCapsule(c, capsule, p.limits).Ok?
                  && Append(c, CleanPrefix(c, p, capsule), p.identity, PhaseOf(e), CheckpointPayload(p), p.limits)
                       == Ok(r.capsule))
            && (r.result.Err? ==>
                  r.capsule == capsule
                  || (RecoverCapsule(c, capsule, p.limits).Ok? && r.capsule == CleanPrefix(c, p, capsule)))
  {
    hide Scan, Append, CheckPhase, CheckRollback, Witnessed;
    match e
    case Began(_) =>
    case Advanced(next, observed, completion, staging, verification) =>
      CheckPhaseExact(c, p, capsule, observed, next, completion, staging, verification);
      CheckPhaseRecovers(c, p, capsule, observed, next, completion, staging, verification);
    case Restored(observed, completion, applied) =>
      CheckRollbackExact(c, p, capsule, observed, completion, applied);
      CheckRollbackRecovers(c, p, capsule, observed, completion, applied);
  }

  lemma CheckPhaseRecovers(c: Codec, p: Prepared, capsule: seq<Byte>, observed: Observed, next: Phase,
                           completion: Completion,
                           staging: Option<Staging>, verification: Option<Verification>)
    ensures CheckPhase(c, p, capsule, observed, next, completion, staging, verification).Ok? ==>
              RecoverCapsule(c, capsule, p.limits).Ok?
  {
    hide Scan;
  }

  lemma CheckRollbackRecovers(c: Codec, p: Prepared, capsule: seq<Byte>, observed: Observed, completion: Completion,
                              applied: Option<Digest>)
    ensures CheckRollback(c, p, capsule, observed, completion, applied).Ok? ==> RecoverCapsule(c, capsule, p.limits).Ok?
  {
    hide Scan;
  }

  lemma StepKeepsLog(c: Codec, p: Prepared, l: Log, op: Op)
    requires RoundTrips(c) && LogInv(c, p, l)
    ensures LogInv(c, p, Step(c, p, l, op))
    ensures op.Record? ==> CapsuleOf(Step(c, p, l, op)) == RecordEvent(c, p, CapsuleOf(l), op.event).capsule
  {
    hide Scan, Append, RecordEvent, Earned, Witnessed, Match, ResumeWithoutObservation, AppendAll, EntriesOf;
    AppendedPrefix(c, p, l);
    if op.Record? {
      var capsule := CapsuleOf(l);
      var r := RecordEvent(c, p, capsule, op.event);
      RecordingFacts(c, p, capsule, op.event);
      if RecoverCapsule(c, capsule, p.limits).Ok? {
        RecoversSettled(c, p, l);
        RecoveredAlike(c, capsule, p.limits);
      }
      if r.result.Ok? {
        RecordedLogInv(c, p, l, op.event, r.capsule);
        AppendNeedsScan(c, Settled(l).0, Entry(p.identity, PhaseOf(op.event), PayloadOf(p, op.event)), p.limits);
      }
    }
  }

  lemma RecordedLogInv(c: Codec, p: Prepared, l: Log, e: Event, updated: seq<Byte>)
    requires RoundTrips(c) && LogInv(c, p, l)
    requires RecordEvent(c, p, CapsuleOf(l), e).result.Ok? && RecordEvent(c, p, CapsuleOf(l), e).capsule == updated
    ensures Append(c, Settled(l).0, p.identity, PhaseOf(e), PayloadOf(p, e), p.limits) == Ok(updated)
    ensures |Settled(l).0| <= |updated|
    ensures ScanCapsule(c, Settled(l).0, p.limits).Ok?
    ensures Match(ScanCapsule(c, Settled(l).0, p.limits).value.generations, DurableEvents(l))
    ensures Earned(p, DurableEvents(l)) && Earned(p, DurableEvents(l) + [e])
    ensures AppendAll(c, EntriesOf(p, DurableEvents(l)), p.limits) == Ok(Settled(l).0)
  {
    hide Scan, Append, RecordEvent, Earned, Witnessed, AppendAll, EntriesOf;
    SettledWritten(c, p, l);
    var capsule := CapsuleOf(l);
    RecordingFacts(c, p, capsule, e);
    AppendedPrefix(c, p, l);
    if e.Began? {
      assert l.cut == 0 && Settled(l) == (l.clean, l.events) && l.clean == [];
      ScanShape(c, l.clean, p.limits, false);
    } else {
      RecoversSettled(c, p, l);
      RecoveredAlike(c, capsule, p.limits);
    }
    EarnedGrows(p, DurableEvents(l), e);
    AppendNeedsScan(c, Settled(l).0, Entry(p.identity, PhaseOf(e), PayloadOf(p, e)), p.limits);
  }

  lemma EmptyLogInv(c: Codec, p: Prepared)
    requires ValidateLimits(p.limits).Ok?
    ensures LogInv(c, p, EMPTY_LOG)
  {
    hide Scan;
    EmptyScans(c, p.limits, false);
  }

  /** Protocol safety over whole runs with torn checkpoints: whatever is recorded, refused or torn in
      whatever order, the checkpoints recovery finds are exactly the durable ones, and every one of
      them was recorded on the evidence its phase demands. */
  lemma {:induction false} ProtocolSafety(c: Codec, p: Prepared, ops: seq<Op>)
    requires RoundTrips(c) && ValidateLimits(p.limits).Ok?
    ensures LogInv(c, p, Run(c, p, ops))
    ensures var l := Run(c, p, ops);
            RecoverCapsule(c, CapsuleOf(l), p.limits).Ok? ==>
              && Match(RecoverCapsule(c, CapsuleOf(l), p.limits).value.generations, DurableEvents(l))
              && Earned(p, DurableEvents(l))
  {
    hide Scan, Step, RecoverCapsule, LogInv;
    if ops == [] {
      EmptyLogInv(c, p);
    } else {
      ProtocolSafety(c, p, ops[..|ops| - 1]);
      StepKeepsLog(c, p, Run(c, p, ops[..|ops| - 1]), ops[|ops| - 1]);
    }
    if RecoverCapsule(c, CapsuleOf(Run(c, p, ops)), p.limits).Ok? {
      RecoversSettled(c, p, Run(c, p, ops));
    }
  }

  /** What being earned means for the generations a recovered capsule shows: phases advance one at a
      time, backup boot only on the planned staging evidence, verified only on the planned
      verification, rolled back only over the source's own digest, and nothing follows a terminal phase. */
  lemma EarnedMeans(p: Prepared, generations: seq<Generation>, events: seq<Event>, k: nat)
    requires Match(generations, events) && Earned(p, events) && k < |events|
    ensures k == 0 ==> generations[k].phase == Discovered && SourceSeen(p, events[k].observed)
    ensures k > 0 ==> Open(generations[k - 1].phase)
    ensures k > 0 ==>
              || PhaseCode(generations[k].phase) == PhaseCode(generations[k - 1].phase) + 1
              || generations[k].phase == RolledBack
    ensures generations[k].phase == BackupBootWritten ==>
              events[k].Advanced? && events[k].staging == Some(ExpectedStaging(p))
    ensures generations[k].phase == Verified ==>
              events[k].Advanced? && events[k].verification == Some(ExpectedVerification(p))
    ensures generations[k].phase == RolledBack ==>
              k > 0 && events[k].Restored? && SourceSeen(p, events[k].observed)
              && events[k].applied == ExpectedDigest(p, generations[k - 1].phase)
  {
    assert EarnedAt(p, events, k);
    assert generations[k].phase == PhaseOf(events[k]);
  }

  // ----- runs and framing -----

  /** Every checkpoint, whether or not the newest one survived whole. */
  function AllEvents(l: Log): seq<Event>
  {
    l.events + if l.newest.Some? then [l.newest.value] else []
  }

  lemma AllWritten(c: Codec, p: Prepared, l: Log)
    requires LogInv(c, p, l)
    ensures AppendAll(c, EntriesOf(p, AllEvents(l)), p.limits) == Ok(l.full)
    ensures Earned(p, AllEvents(l))
  {
    hide Scan, Append, AppendAll, EntriesOf, Earned, Match;
    if l.newest.Some? {
      EntriesGrow(c, p, l.events, l.newest.value);
    } else {
      assert AllEvents(l) == l.events;
    }
  }

  /** Earned checkpoints have the shape production writes: an envelope, then forty bytes each. */
  lemma EarnedIsProduction(p: Prepared, events: seq<Event>)
    requires Earned(p, events)
    ensures Production(EntriesOf(p, events))
  {
    var entries := EntriesOf(p, events);
    forall k | 0 < k < |entries|
      ensures |entries[k].payload| == CHECKPOINT_BYTES
    {
      assert EarnedAt(p, events, k);
    }
  }

  lemma FramedPrefix(c: Codec, a: seq<Byte>, b: seq<Byte>, limits: Limits)
    requires a <= b && |MAGIC| <= |a| && Framed(c, b, limits)
    ensures Framed(c, a, limits)
  {
    IndexSpec(c, b, limits);
    TruncationIndexes(c, a, b, limits);
    IndexSpec(c, a, limits);
  }

  /** Along every run, as long as no header decodes off the written frames, every capsule the
      coordinator has recorded scans to exactly the run's checkpoints, and recovery of whatever a tear
      left never fails: only a first append torn below eight bytes is beyond it. */
  lemma RunsNeverAmbiguous(c: Codec, p: Prepared, ops: seq<Op>)
    requires RoundTrips(c) && SaneLimits(p.limits)
    requires HeadersOnlyOnFrame(c, Run(c, p, ops).full, EntriesOf(p, AllEvents(Run(c, p, ops))))
    ensures var l := Run(c, p, ops);
            var entries := EntriesOf(p, AllEvents(l));
            && TotalBytes(entries) < U64_LIMIT
            && ScanCapsule(c, l.full, p.limits) == Ok(View(Layout(c, entries), |l.full|))
            && (RecoverCapsule(c, CapsuleOf(l), p.limits).Ok? <==> CapsuleOf(l) == [] || |MAGIC| <= |CapsuleOf(l)|)
  {
    hide Scan, Append, AppendAll, EntriesOf, Earned, Match, Run, Framed, HeadersOnlyOnFrame, Production, Layout;
    var l := Run(c, p, ops);
    var entries := EntriesOf(p, AllEvents(l));
    ProtocolSafety(c, p, ops);
    AllWritten(c, p, l);
    EarnedIsProduction(p, AllEvents(l));
    ProductionRoundTrip(c, entries, p.limits, false);
    AppendAllLength(c, entries, p.limits);
    AppendedPrefix(c, p, l);
    StrictImpliesRecovered(c, l.clean, p.limits);
    StrictImpliesRecovered(c, l.full, p.limits);
    if |CapsuleOf(l)| < |MAGIC| {
      ShortRecovers(c, CapsuleOf(l), p.limits);
    } else if l.cut == |l.full| || l.cut == |l.clean| {
      assert CapsuleOf(l) == if l.cut == |l.full| then l.full else l.clean;
    } else {
      var e := l.newest.value;
      FullIsFramed(c, l.full, p.limits);
      FramedPrefix(c, CapsuleOf(l), l.full, p.limits);
      AppendThenTear(c, l.clean, p.identity, PhaseOf(e), PayloadOf(p, e), p.limits, l.cut);
    }
  }

  lemma ShortRecovers(c: Codec, bytes: seq<Byte>, limits: Limits)
    requires ValidateLimits(limits).Ok? && |bytes| < |MAGIC|
    ensures RecoverCapsule(c, bytes, limits).Ok? <==> bytes == []
  {
  }

  lemma FullIsFramed(c: Codec, bytes: seq<Byte>, limits: Limits)
    requires ScanCapsule(c, bytes, limits).Ok? && bytes != []
    ensures Framed(c, bytes, limits)
  {
    if !Framed(c, bytes, limits) {
      UnframedFails(c, bytes, limits, false);
    }
  }

  /** Along every run a refused recording leaves the capsule exactly as it was: while the limits stay
      the same, the truncation before an append is never left on its own. */
  lemma RunsNeverTruncateInVain(c: Codec, p: Prepared, ops: seq<Op>, e: Event)
    requires RoundTrips(c) && ValidateLimits(p.limits).Ok?
    ensures var capsule := CapsuleOf(Run(c, p, ops));
            RecordEvent(c, p, capsule, e).result.Err? ==> RecordEvent(c, p, capsule, e).capsule == capsule
  {
    hide Scan, Append, RecordEvent, Run, Match, AppendAll, EntriesOf, Witnessed, ResumeWithoutObservation;
    var l := Run(c, p, ops);
    var capsule := CapsuleOf(l);
    ProtocolSafety(c, p, ops);
    AppendedPrefix(c, p, l);
    if l.newest.Some? && |l.clean| < l.cut < |l.full| {
      BeganStartsEmpty(c, p, l);
      RetryNeverTruncatesInVain(c, p, l.clean, l.newest.value, l.cut, e);
    } else if RecordEvent(c, p, capsule, e).result.Err? {
      RecordingFacts(c, p, capsule, e);
      if RecoverCapsule(c, capsule, p.limits).Ok? {
        RecoversSettled(c, p, l);
      }
    }
  }

  /** A newest event that began the capsule began it from nothing. */
  lemma BeganStartsEmpty(c: Codec, p: Prepared, l: Log)
    requires LogInv(c, p, l) && l.newest.Some?
    ensures l.newest.value.Began? ==> l.clean == []
  {
    hide Scan, Append;
    assert EarnedAt(p, l.events + [l.newest.value], |l.events|);
  }
}
