/**
 The image and the capsule store together. Write groups, checkpoints, rollbacks, restores and crashes
 in any order, each failing in any way; from every state a run can reach, reconciling the store and
 applying the before-images of its durable phase gives back exactly the source.
 */
module CoupledRuns {
  import opened Results
  import opened Bytes
  import opened Images
  import opened CapsuleHeader
  import opened CapsuleLog
  import opened CapsuleRecovery
  import opened CapsuleFraming
  import opened StoreSafety
  import opened RollbackPlan
  import opened Conversion
  import Protocol = ConversionProtocol
  import Model = StoreModel
  import Executor

  /** The image file, and the store with its own file. */
  datatype World = World(image: seq<Byte>, store: Model.StoreState)

  /** The phase of the newest generation of an accepted capsule. */
  function NewestPhase(c: Codec, limits: Limits, bytes: seq<Byte>): Phase
  {
    var scanned := ScanCapsule(c, bytes, limits);
    if scanned.Ok? && scanned.value.generations != [] then
      scanned.value.generations[|scanned.value.generations| - 1].phase
    else
      Discovered
  }

  /** The image a phase promises: restorable while open, the source once rolled back. */
  ghost predicate Safe(r: Rollbacks, source: seq<Byte>, image: seq<Byte>, phase: Phase)
  {
    match phase
    case Finalized => true
    case RolledBack => image == source
    case _ => DirtyWithin(r, source, image, phase)
  }

  /** The image is as promised by the remembered capsule and, if the file holds more, by that too. */
  ghost predicate Coupled(c: Codec, p: Prepared, source: seq<Byte>, w: World)
  {
    && StoreInv(c, p.limits, w.store)
    && Safe(p.rollbacks, source, w.image, NewestPhase(c, p.limits, w.store.bytes))
    && (ScanCapsule(c, w.store.disk, p.limits).Ok? ==>
          Safe(p.rollbacks, source, w.image, NewestPhase(c, p.limits, w.store.disk)))
  }

  /** Whatever an interrupted or completed group leaves: the image changed at most where it writes. */
  ghost predicate GroupLeaves(r: Rollbacks, phase: Phase, image: seq<Byte>, after: seq<Byte>)
  {
    && |after| == |image|
    && forall position: nat :: position < |image| && !GroupCovers(r, phase, position) ==>
         after[position] == image[position]
  }

  datatype Op =
    | MutateOp(after: seq<Byte>)
    | CheckpointOp(event: Protocol.Event, faults: Model.Faults)
    | TornRollbackOp(after: seq<Byte>)
    | RollbackOp(event: Protocol.Event, faults: Model.Faults)
    | RestoreOp(faults: Model.Faults)
    | CrashOp(faults: Model.Faults)

  /** `append_capsule`: any failure also poisons the store. */
  function AppendOrPoison(c: Codec, limits: Limits, s: Model.StoreState, updated: seq<Byte>, faults: Model.Faults)
    : Model.StoreState
  {
    var r := Model.Append(c, limits, s, updated, faults);
    if r.result.Ok? then r.state else r.state.(poisoned := true)
  }

  /** Record on a copy of the store's bytes, then append what came out. */
  function Checkpoint(c: Codec, p: Prepared, s: Model.StoreState, e: Protocol.Event, faults: Model.Faults)
    : Model.StoreState
  {
    var recorded := Protocol.RecordEvent(c, p, s.bytes, e);
    if recorded.result.Err? then s else AppendOrPoison(c, p.limits, s, recorded.capsule, faults)
  }

  /** A rollback the executor would carry out from the phase in memory. */
  predicate RollbackRuns(c: Codec, p: Prepared, overlayDigest: seq<OverlayWrite> -> Digest, s: Model.StoreState)
  {
    var phase := NewestPhase(c, p.limits, s.bytes);
    !s.poisoned && Open(phase) && Executor.AuthorizeRollback(p, overlayDigest, RollbackIntentFor(p, phase).value).Ok?
  }

  /** One step. Forward work needs an unpoisoned store; a step whose conditions fail does nothing. */
  ghost function Step(c: Codec, p: Prepared, overlayDigest: seq<OverlayWrite> -> Digest, w: World, op: Op): World
  {
    var phase := NewestPhase(c, p.limits, w.store.bytes);
    match op
    case MutateOp(after) =>
      if !w.store.poisoned && GroupLeaves(p.rollbacks, phase, w.image, after) then w.(image := after) else w
    case CheckpointOp(event, faults) =>
      if !w.store.poisoned && event.Advanced? then w.(store := Checkpoint(c, p, w.store, event, faults)) else w
    case TornRollbackOp(after) =>
      if RollbackRuns(c, p, overlayDigest, w.store)
          && AgreeOutside(after, w.image, RollbackWrites(p.rollbacks, phase)) then
        World(after, w.store.(poisoned := true))
      else w
    case RollbackOp(event, faults) =>
      if RollbackRuns(c, p, overlayDigest, w.store) && event.Restored?
          && AllFit(RollbackWrites(p.rollbacks, phase), |w.image|) then
        World(ApplyAll(w.image, RollbackWrites(p.rollbacks, phase)), Checkpoint(c, p, w.store, event, faults))
      else w
    case RestoreOp(faults) => w.(store := Model.Restore(c, p.limits, w.store, faults).state)
    case CrashOp(faults) => w.(store := StoreSafety.Step(c, p.limits, w.store, StoreSafety.CrashOp(faults)))
  }

  ghost function Run(c: Codec, p: Prepared, overlayDigest: seq<OverlayWrite> -> Digest, w: World, ops: seq<Op>): World
  {
    if ops == [] then w else Step(c, p, overlayDigest, Run(c, p, overlayDigest, w, ops[..|ops| - 1]), ops[|ops| - 1])
  }

  // ----- safety of the image, phase by phase -----

  /** A group run from its phase keeps the image restorable from that phase. */
  lemma GroupStaysSafe(r: Rollbacks, source: seq<Byte>, image: seq<Byte>, after: seq<Byte>, phase: Phase)
    requires Safe(r, source, image, phase) && GroupLeaves(r, phase, image, after)
    ensures Safe(r, source, after, phase)
  {
    if Open(phase) {
      forall position: nat | position < |after| && !TouchedThrough(r, phase, position)
        ensures after[position] == source[position]
      {
        assert !GroupCovers(r, phase, position);
      }
    } else {
      assert forall position: nat :: position < |after| ==> after[position] == image[position];
    }
  }

  /** Recording the next phase promises no more about the image than the last one did. */
  lemma NextIsSafe(r: Rollbacks, source: seq<Byte>, image: seq<Byte>, previous: Phase, next: Phase)
    requires Safe(r, source, image, previous) && PhaseCode(next) == PhaseCode(previous) + 1 && next != RolledBack
    ensures Safe(r, source, image, next)
  {
    forall position: nat | Open(next) && position < |image| && !TouchedThrough(r, next, position)
      ensures !TouchedThrough(r, previous, position)
    {
      forall q | PhaseCode(q) <= PhaseCode(previous)
        ensures !GroupCovers(r, q, position)
      {
      }
    }
  }

  lemma SourceIsSafe(r: Rollbacks, source: seq<Byte>, phase: Phase)
    ensures Safe(r, source, source, phase)
  {
  }

  // ----- checkpoints -----

  /** A recorded event the store accepts is one more generation of the event's phase, its leading
      header intact, recorded on the evidence that phase demands. */
  lemma RecordedPhase(c: Codec, p: Prepared, bytes: seq<Byte>, count: nat, e: Protocol.Event)
    requires RoundTrips(c) && Accepted(c, p.limits, bytes, count)
    requires Protocol.RecordEvent(c, p, bytes, e).result.Ok?
    ensures var updated := Protocol.RecordEvent(c, p, bytes, e).capsule;
            && bytes < updated && IntactUpdate(c, bytes, updated)
            && Protocol.Witnessed(p, NewestPhase(c, p.limits, bytes), e)
            && (ScanCapsule(c, updated, p.limits).Ok? ==>
                  NewestPhase(c, p.limits, updated) == Protocol.PhaseOf(e) && ExtendsByOne(c, bytes, updated, p.limits))
  {
    hide Scan, CapsuleLog.Append, Protocol.RecordEvent, Protocol.Witnessed, Framed;
    AcceptedFacts(c, p.limits, bytes, count);
    Protocol.RecordingFacts(c, p, bytes, e);
    StrictImpliesRecovered(c, bytes, p.limits);
    assert CleanPrefix(c, p, bytes) == bytes;
    ResumedPhase(c, p, bytes);
    var h := AppendClaims(c, bytes, p.identity, Protocol.PhaseOf(e), CheckpointPayload(p), p.limits);
    AppendThenScan(c, bytes, p.identity, Protocol.PhaseOf(e), CheckpointPayload(p), p.limits, false);
  }

  lemma ResumedPhase(c: Codec, p: Prepared, bytes: seq<Byte>)
    requires ScanCapsule(c, bytes, p.limits).Ok?
               && RecoverCapsule(c, bytes, p.limits) == ScanCapsule(c, bytes, p.limits)
    ensures ResumeWithoutObservation(c, p, bytes).Ok? ==>
              ResumeWithoutObservation(c, p, bytes).value.phase == NewestPhase(c, p.limits, bytes)
  {
    hide Scan;
  }

  /** Appending a checkpoint keeps the coupling whenever the image already meets both phases. */
  lemma CheckpointCoupled(c: Codec, p: Prepared, source: seq<Byte>, image: seq<Byte>, s: Model.StoreState,
                          e: Protocol.Event, faults: Model.Faults)
    requires RoundTrips(c) && StoreInv(c, p.limits, s) && !s.poisoned
    requires Safe(p.rollbacks, source, image, NewestPhase(c, p.limits, s.bytes))
    requires Protocol.Witnessed(p, NewestPhase(c, p.limits, s.bytes), e) ==>
               Safe(p.rollbacks, source, image, Protocol.PhaseOf(e))
    ensures Coupled(c, p, source, World(image, Checkpoint(c, p, s, e, faults)))
  {
    hide Scan, Protocol.RecordEvent, Protocol.Witnessed, Model.Append, Safe, NewestPhase, ExtendsByOne;
    var recorded := Protocol.RecordEvent(c, p, s.bytes, e);
    if recorded.result.Ok? {
      var updated := recorded.capsule;
      RecordedPhase(c, p, s.bytes, s.count, e);
      AppendOutcome(c, p.limits, s, updated, faults);
      var after := Model.Append(c, p.limits, s, updated, faults).state;
      AcceptedFacts(c, p.limits, s.bytes, s.count);
      AppendedPhases(c, p, s, updated, faults);
    }
  }

  /** What the file and the memory may hold after an append: the old capsule or the whole new one. */
  lemma AppendedPhases(c: Codec, p: Prepared, s: Model.StoreState, updated: seq<Byte>, faults: Model.Faults)
    requires StoreInv(c, p.limits, s) && !s.poisoned && IntactUpdate(c, s.bytes, updated) && s.bytes < updated
    requires ScanCapsule(c, updated, p.limits).Ok? ==> ExtendsByOne(c, s.bytes, updated, p.limits)
    ensures var after := Model.Append(c, p.limits, s, updated, faults).state;
            && (after.bytes == s.bytes || (after.bytes == updated && ScanCapsule(c, updated, p.limits).Ok?))
            && (ScanCapsule(c, after.disk, p.limits).Ok? ==> after.disk == s.bytes || after.disk == updated)
  {
    hide Scan, Model.PersistSuffix, ExtendsByOne;
    AppendOutcome(c, p.limits, s, updated, faults);
    AcceptedFacts(c, p.limits, s.bytes, s.count);
    var after := Model.Append(c, p.limits, s, updated, faults).state;
    if after != s {
      assert ScanCapsule(c, updated, p.limits).Ok?;
      if after.disk != s.disk {
        BetweenScans(c, p.limits, s.bytes, updated, after.disk);
      }
    }
  }

  // ----- steps -----

  lemma ReconcilingCoupled(c: Codec, p: Prepared, source: seq<Byte>, w: World, faults: Model.Faults)
    requires Coupled(c, p, source, w)
    ensures Coupled(c, p, source, w.(store := Model.Restore(c, p.limits, w.store, faults).state))
    ensures Coupled(c, p, source, w.(store := StoreSafety.Step(c, p.limits, w.store, StoreSafety.CrashOp(faults))))
  {
    hide Scan, Model.Restore, Model.Resume, NewestPhase, Safe, Between;
    RestoreOutcome(c, p.limits, w.store, faults);
    ResumeOutcome(c, p.limits, w.store.bytes, w.store.count, w.store.disk, faults);
    AcceptedFacts(c, p.limits, w.store.bytes, w.store.count);
    DiskBounded(c, p.limits, w.store);
  }

  lemma MutationCoupled(c: Codec, p: Prepared, source: seq<Byte>, w: World, after: seq<Byte>)
    requires Coupled(c, p, source, w) && !w.store.poisoned
    requires GroupLeaves(p.rollbacks, NewestPhase(c, p.limits, w.store.bytes), w.image, after)
    ensures Coupled(c, p, source, w.(image := after))
  {
    hide Scan, NewestPhase, Safe, GroupLeaves, Between;
    GroupStaysSafe(p.rollbacks, source, w.image, after, NewestPhase(c, p.limits, w.store.bytes));
  }

  lemma TornRollbackCoupled(c: Codec, p: Prepared, source: seq<Byte>, w: World, after: seq<Byte>)
    requires SealedFrom(p.rollbacks, source) && Coupled(c, p, source, w) && !w.store.poisoned
    requires Open(NewestPhase(c, p.limits, w.store.bytes))
    requires AgreeOutside(after, w.image, RollbackWrites(p.rollbacks, NewestPhase(c, p.limits, w.store.bytes)))
    ensures Coupled(c, p, source, World(after, w.store.(poisoned := true)))
  {
    hide Scan, NewestPhase, DirtyWithin, SealedFrom, AgreeOutside, Between;
    RollbackRestartable(p.rollbacks, source, w.image, after, NewestPhase(c, p.limits, w.store.bytes));
  }

  lemma RollbackCoupled(c: Codec, p: Prepared, source: seq<Byte>, w: World, e: Protocol.Event, faults: Model.Faults)
    requires RoundTrips(c) && SealedFrom(p.rollbacks, source) && Coupled(c, p, source, w) && !w.store.poisoned
    requires Open(NewestPhase(c, p.limits, w.store.bytes)) && e.Restored?
    ensures var mask := RollbackWrites(p.rollbacks, NewestPhase(c, p.limits, w.store.bytes));
            && AllFit(mask, |w.image|) && ApplyAll(w.image, mask) == source
            && Coupled(c, p, source, World(source, Checkpoint(c, p, w.store, e, faults)))
  {
    hide Scan, NewestPhase, DirtyWithin, SealedFrom, Checkpoint, StoreInv;
    var phase := NewestPhase(c, p.limits, w.store.bytes);
    RollbackRestores(p.rollbacks, source, w.image, phase);
    SourceIsSafe(p.rollbacks, source, phase);
    SourceIsSafe(p.rollbacks, source, RolledBack);
    CheckpointCoupled(c, p, source, source, w.store, e, faults);
  }

  lemma AdvanceCoupled(c: Codec, p: Prepared, source: seq<Byte>, w: World, e: Protocol.Event, faults: Model.Faults)
    requires RoundTrips(c) && Coupled(c, p, source, w) && !w.store.poisoned && e.Advanced?
    ensures Coupled(c, p, source, w.(store := Checkpoint(c, p, w.store, e, faults)))
  {
    hide Scan, NewestPhase, Safe, Checkpoint, StoreInv;
    var phase := NewestPhase(c, p.limits, w.store.bytes);
    if Protocol.Witnessed(p, phase, e) {
      NextIsSafe(p.rollbacks, source, w.image, phase, e.next);
    }
    CheckpointCoupled(c, p, source, w.image, w.store, e, faults);
  }

  lemma StepCoupled(c: Codec, p: Prepared, overlayDigest: seq<OverlayWrite> -> Digest, source: seq<Byte>, w: World,
                    op: Op)
    requires RoundTrips(c) && SealedFrom(p.rollbacks, source) && Coupled(c, p, source, w)
    ensures Coupled(c, p, source, Step(c, p, overlayDigest, w, op))
  {
    hide Scan, NewestPhase, Coupled, SealedFrom, Checkpoint, GroupLeaves, AgreeOutside, Model.Restore, StoreSafety.Step;
    match op
    case MutateOp(after) =>
      if !w.store.poisoned && GroupLeaves(p.rollbacks, NewestPhase(c, p.limits, w.store.bytes), w.image, after) {
        MutationCoupled(c, p, source, w, after);
      }
    case CheckpointOp(event, faults) =>
      if !w.store.poisoned && event.Advanced? {
        AdvanceCoupled(c, p, source, w, event, faults);
      }
    case TornRollbackOp(after) =>
      if RollbackRuns(c, p, overlayDigest, w.store)
         && AgreeOutside(after, w.image, RollbackWrites(p.rollbacks, NewestPhase(c, p.limits, w.store.bytes))) {
        TornRollbackCoupled(c, p, source, w, after);
      }
    case RollbackOp(event, faults) =>
      if RollbackRuns(c, p, overlayDigest, w.store) && event.Restored? {
        RollbackCoupled(c, p, source, w, event, faults);
      }
    case RestoreOp(faults) => ReconcilingCoupled(c, p, source, w, faults);
    case CrashOp(faults) => ReconcilingCoupled(c, p, source, w, faults);
  }

  lemma {:induction false} RunCoupled(c: Codec, p: Prepared, overlayDigest: seq<OverlayWrite> -> Digest,
                                      source: seq<Byte>,
                                      w: World, ops: seq<Op>)
    requires RoundTrips(c) && SealedFrom(p.rollbacks, source) && Coupled(c, p, source, w)
    ensures Coupled(c, p, source, Run(c, p, overlayDigest, w, ops))
  {
    hide Step, Coupled, SealedFrom;
    if ops != [] {
      RunCoupled(c, p, overlayDigest, source, w, ops[..|ops| - 1]);
      StepCoupled(c, p, overlayDigest, source, Run(c, p, overlayDigest, w, ops[..|ops| - 1]), ops[|ops| - 1]);
    }
  }

  // ----- convergence -----

  /** A run starts from the source image and a store holding just the `Discovered` checkpoint. */
  ghost predicate Started(c: Codec, p: Prepared, source: seq<Byte>, w: World)
  {
    && w.image == source
    && Accepted(c, p.limits, w.store.bytes, w.store.count)
    && w.store.disk == w.store.bytes && !w.store.poisoned
  }

  /** Beginning a capsule on the source image and making it durable starts a run, exactly when what was
      written can be indexed. */
  lemma BeginStarts(c: Codec, p: Prepared, source: seq<Byte>, observed: Observed)
    requires RoundTrips(c) && BeginCapsule(c, p, [], observed).result.Ok?
    ensures var capsule := BeginCapsule(c, p, [], observed).capsule;
            Started(c, p, source, World(source, Model.StoreState(capsule, capsule, 1, false))) <==>
                Framed(c, capsule, p.limits)
  {
    hide Scan, CapsuleLog.Append, Framed;
    AppendThenScan(c, [], p.identity, Discovered, p.preparedEnvelope, p.limits, false);
    AppendNeedsScan(c, [], Entry(p.identity, Discovered, p.preparedEnvelope), p.limits);
    EmptyBefore(c, p);
  }

  lemma EmptyBefore(c: Codec, p: Prepared)
    ensures ScanCapsule(c, [], p.limits).Ok? ==> ScanCapsule(c, [], p.limits).value.generations == []
  {
  }

  /** What reconciling and rolling back must achieve. */
  ghost predicate Converges(p: Prepared, overlayDigest: seq<OverlayWrite> -> Digest, source: seq<Byte>,
                            image: seq<Byte>, phase: Phase)
  {
    && (phase == RolledBack ==> image == source)
    && (Open(phase) ==>
          && AllFit(RollbackWrites(p.rollbacks, phase), |image|)
          && ApplyAll(image, RollbackWrites(p.rollbacks, phase)) == source
          && (Executor.AuthorizeRollback(p, overlayDigest, RollbackIntentFor(p, phase).value).Err? <==>
              phase == Reserved && p.rollbacks.relocations != []))
  }

  lemma SafeConverges(p: Prepared, overlayDigest: seq<OverlayWrite> -> Digest, source: seq<Byte>, image: seq<Byte>,
                      phase: Phase)
    requires SealedFrom(p.rollbacks, source) && Executor.DigestsSealed(p, overlayDigest)
    requires Safe(p.rollbacks, source, image, phase)
    ensures Converges(p, overlayDigest, source, image, phase)
  {
    hide SealedFrom, DirtyWithin, Executor.DigestsSealed, Executor.AuthorizeRollback;
    if Open(phase) {
      RollbackRestores(p.rollbacks, source, image, phase);
      Executor.RollbackAuthorizedExactly(p, overlayDigest, source, phase);
    }
  }

  /** Coupled crash convergence. At every point of every run, both ways of reconciling (restoring the
      live store, or reopening its file after a crash) succeed when the system does not fail, and
      agree on one durable capsule; unless the conversion was finalized, applying the before-images of
      its phase then gives back exactly the source. The executor carries that rollback out from every
      phase except `Reserved` with relocations planned. */
  lemma CrashConvergence(c: Codec, p: Prepared, overlayDigest: seq<OverlayWrite> -> Digest, source: seq<Byte>,
                         start: World, ops: seq<Op>)
    requires RoundTrips(c) && SealedFrom(p.rollbacks, source) && Executor.DigestsSealed(p, overlayDigest)
    requires Started(c, p, source, start)
    ensures var w := Run(c, p, overlayDigest, start, ops);
            var restored := Model.Restore(c, p.limits, w.store, Model.NO_FAULTS);
            var reopened := Model.Resume(c, p.limits, w.store.disk, true, Model.NO_FAULTS);
            && restored.result.Ok? && reopened.result.Ok?
            && restored.state.bytes == reopened.result.value.bytes
            && !restored.state.poisoned && restored.state.disk == restored.state.bytes
            && Converges(p, overlayDigest, source, w.image, NewestPhase(c, p.limits, restored.state.bytes))
  {
    hide Scan, NewestPhase, SealedFrom, Run, Model.Restore, Model.Resume, Converges, Safe, Executor.DigestsSealed,
         Between;
    SourceIsSafe(p.rollbacks, source, NewestPhase(c, p.limits, start.store.bytes));
    assert Coupled(c, p, source, start);
    RunCoupled(c, p, overlayDigest, source, start, ops);
    var w := Run(c, p, overlayDigest, start, ops);
    RestoreOutcome(c, p.limits, w.store, Model.NO_FAULTS);
    ResumeOutcome(c, p.limits, w.store.bytes, w.store.count, w.store.disk, Model.NO_FAULTS);
    var restored := Model.Restore(c, p.limits, w.store, Model.NO_FAULTS);
    ReconcilingCoupled(c, p, source, w, Model.NO_FAULTS);
    SafeConverges(p, overlayDigest, source, w.image, NewestPhase(c, p.limits, restored.state.bytes));
  }

  /** The refused rollback is escaped by going forward: the coordinator's next intent is the relocation
      itself, and from `Relocating` on rollback is accepted. */
  lemma RefusalEndsAtRelocating(p: Prepared, overlayDigest: seq<OverlayWrite> -> Digest, source: seq<Byte>,
                                phase: Phase)
    requires SealedFrom(p.rollbacks, source) && Executor.DigestsSealed(p, overlayDigest)
    requires Open(phase) && PhaseCode(phase) >= PhaseCode(NextPhase(Reserved).value)
    ensures IntentAfter(p, Reserved) == Relocate(p.rollbacks.relocations)
    ensures Executor.AuthorizeRollback(p, overlayDigest, RollbackIntentFor(p, phase).value).Ok?
  {
    hide SealedFrom, Executor.DigestsSealed, Executor.AuthorizeRollback;
    Executor.RollbackAuthorizedExactly(p, overlayDigest, source, phase);
  }

  /** The current image seen through the phase's mask: what the coordinator hashes as the source. */
  ghost function ObservedView(p: Prepared, image: seq<Byte>, phase: Phase): seq<Byte>
    requires ObservationRollbackWrites(p.rollbacks, phase).Some? ==>
               AllFit(ObservationRollbackWrites(p.rollbacks, phase).value, |image|)
  {
    var mask := ObservationRollbackWrites(p.rollbacks, phase);
    if mask.Some? then ApplyAll(image, mask.value) else image
  }

  /** No reachable image is ever mistaken for a changed source: from every state of every run the
      masked image is exactly the source, so its digest, whatever the function, is the sealed one. */
  lemma ObservationSeesSource(c: Codec, p: Prepared, overlayDigest: seq<OverlayWrite> -> Digest, source: seq<Byte>,
                              start: World, ops: seq<Op>)
    requires RoundTrips(c) && SealedFrom(p.rollbacks, source) && Started(c, p, source, start)
    ensures var w := Run(c, p, overlayDigest, start, ops);
            var phase := NewestPhase(c, p.limits, w.store.bytes);
            var mask := ObservationRollbackWrites(p.rollbacks, phase);
            PhaseRequiresSource(phase) ==>
              (mask.Some? ==> AllFit(mask.value, |w.image|)) && ObservedView(p, w.image, phase) == source
  {
    hide Scan, NewestPhase, SealedFrom, Run, DirtyWithin, Between;
    SourceIsSafe(p.rollbacks, source, NewestPhase(c, p.limits, start.store.bytes));
    assert Coupled(c, p, source, start);
    RunCoupled(c, p, overlayDigest, source, start, ops);
    var w := Run(c, p, overlayDigest, start, ops);
    var phase := NewestPhase(c, p.limits, w.store.bytes);
    if PhaseRequiresSource(phase) {
      RollbackRestores(p.rollbacks, source, w.image, phase);
      MaskIsRollback(p, phase);
    }
  }
}
