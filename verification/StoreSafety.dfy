/** What the capsule store guarantees over every run, whatever the operating system does. */
module StoreSafety {
  import opened Results
  import opened Bytes
  import opened CapsuleHeader
  import opened CapsuleLog
  import opened CapsuleRecovery
  import opened CapsuleFraming
  import opened StoreModel

  /** `bytes` is an accepted capsule of `count` generations, at least one. */
  ghost predicate Accepted(c: Codec, limits: Limits, bytes: seq<Byte>, count: nat)
  {
    && ScanCapsule(c, bytes, limits).Ok?
    && |ScanCapsule(c, bytes, limits).value.generations| == count
    && count > 0
  }

  /** `disk` lies between an accepted capsule and the same capsule with one more generation whose
      leading header was written intact. */
  ghost predicate Between(c: Codec, limits: Limits, old_: seq<Byte>, updated: seq<Byte>, disk: seq<Byte>)
  {
    && ExtendsByOne(c, old_, updated, limits) && DecodeAt(c, updated, |old_|).Some?
    && old_ <= disk <= updated
  }

  ghost predicate TornOrWhole(c: Codec, limits: Limits, old_: seq<Byte>, disk: seq<Byte>)
  {
    disk == old_ || exists updated :: Between(c, limits, old_, updated, disk)
  }

  /** The store invariant: an unpoisoned store's file is exactly its memory; a poisoned one's file
      holds its memory and at most a piece of one more generation. */
  ghost predicate StoreInv(c: Codec, limits: Limits, s: StoreState)
  {
    && Accepted(c, limits, s.bytes, s.count)
    && (!s.poisoned ==> s.disk == s.bytes)
    && TornOrWhole(c, limits, s.bytes, s.disk)
  }

  /** What scanning a file between two capsules finds: the whole update, or a proven torn tail on
      exactly the old capsule. */
  lemma BetweenScans(c: Codec, limits: Limits, old_: seq<Byte>, updated: seq<Byte>, disk: seq<Byte>)
    requires Between(c, limits, old_, updated, disk) && old_ != []
    ensures ScanCapsule(c, disk, limits).Ok? <==> disk == old_ || disk == updated
    ensures old_ != disk && disk != updated ==>
              RecoverCapsule(c, disk, limits) == Ok(View(ScanCapsule(c, old_, limits).value.generations, |old_|))
  {
    hide Scan;
    if disk != old_ && disk != updated {
      ScannedIsLong(c, old_, limits);
      assert updated[..|disk|] == disk;
      TornAppendExactness(c, old_, updated, |disk|, limits);
    }
  }

  lemma AcceptedFacts(c: Codec, limits: Limits, bytes: seq<Byte>, count: nat)
    requires Accepted(c, limits, bytes, count)
    ensures bytes != [] && |bytes| <= limits.maxCapsuleBytes && ValidateLimits(limits).Ok?
    ensures ScanCapsule(c, bytes, limits).value.validatedBytes == |bytes|
  {
    ScanShape(c, bytes, limits, false);
  }

  // ----- append -----

  /** An append the store accepts: one more generation, leading header intact, as `append_generation`
      writes it. */
  ghost predicate IntactUpdate(c: Codec, old_: seq<Byte>, updated: seq<Byte>)
  {
    DecodeAt(c, updated, |old_|).Some?
  }

  /** After `append`, whatever fails: the file is the old capsule plus a prefix of the suffix, the
      memory is old or (fully written) new, and success means all of file and memory are the new
      capsule, unpoisoned. */
  lemma AppendOutcome(c: Codec, limits: Limits, s: StoreState, updated: seq<Byte>, faults: Faults)
    requires StoreInv(c, limits, s) && IntactUpdate(c, s.bytes, updated)
    ensures var r := StoreModel.Append(c, limits, s, updated, faults);
            && StoreInv(c, limits, r.state)
            && s.bytes <= r.state.bytes
            && (r.state.bytes == s.bytes || r.state.bytes == updated)
            && (r.state.disk == s.disk || (s.bytes <= r.state.disk <= updated && s.bytes < updated))
            && (r.result.Ok? ==> r.state == StoreState(updated, updated, s.count + 1, false))
            && (r.result.Err? && !s.poisoned && r.state != s ==> r.state.poisoned)
  {
    hide Scan, PersistSuffix;
    var scanned := ScanCapsule(c, updated, limits);
    if !s.poisoned && s.bytes < updated && scanned.Ok? && |scanned.value.generations| == s.count + 1 {
      assert ExtendsByOne(c, s.bytes, updated, limits);
      PersistOutcome(c, limits, s, updated, faults);
    }
  }

  lemma PersistOutcome(c: Codec, limits: Limits, s: StoreState, updated: seq<Byte>, faults: Faults)
    requires StoreInv(c, limits, s) && !s.poisoned && s.bytes < updated
    requires ExtendsByOne(c, s.bytes, updated, limits) && DecodeAt(c, updated, |s.bytes|).Some?
    ensures var r := PersistSuffix(limits, s, updated[|s.bytes|..], s.count + 1, faults);
            && StoreInv(c, limits, r.state)
            && (r.state.bytes == s.bytes || r.state.bytes == updated)
            && s.bytes <= r.state.disk <= updated
            && (r.result.Ok? ==> r.state == StoreState(updated, updated, s.count + 1, false))
            && (r.result.Err? && r.state != s ==> r.state.poisoned)
  {
    hide Scan, ScanCapsule, AfterPersist;
    var suffix := updated[|s.bytes|..];
    assert s.bytes + suffix == updated;
    forall k | 0 <= k <= |suffix|
      ensures TornOrWhole(c, limits, s.bytes, s.disk + suffix[..k])
      ensures s.disk + suffix[..k] <= updated
    {
      assert s.disk + suffix[..k] == updated[..|s.bytes| + k];
      assert Between(c, limits, s.bytes, updated, s.disk + suffix[..k]);
    }
    var transfer := Transferred(|suffix|, |suffix|, 0, faults.write);
    assert transfer.completed ==> suffix[..transfer.moved] == suffix;
    assert Accepted(c, limits, updated, s.count + 1);
    var r := PersistSuffix(limits, s, suffix, s.count + 1, faults);
    assert r.state.disk == s.disk || r.state.disk == s.disk + suffix[..transfer.moved];
  }

  // ----- restore -----

  /** Where reconciliation must end: the whole update if the file holds it, else the old capsule. */
  function Reconciled(c: Codec, limits: Limits, bytes: seq<Byte>, disk: seq<Byte>): seq<Byte>
  {
    if ScanCapsule(c, disk, limits).Ok? then disk else bytes
  }

  lemma RepairOutcome(c: Codec, limits: Limits, old_: seq<Byte>, count: nat, updated: seq<Byte>, disk: seq<Byte>,
                      strictError: CapsuleError, faults: Faults)
    requires Between(c, limits, old_, updated, disk) && disk != old_ && disk != updated
    requires Accepted(c, limits, old_, count)
    ensures var r := RepairTornSuffix(c, limits, disk, strictError, faults);
            && (r.disk == disk || r.disk == old_)
            && (r.result.Ok? ==> r == Repair(old_, Ok(count)))
            && (faults == NO_FAULTS ==> r.result.Ok?)
  {
    hide Scan, ExtendsByOne;
    AcceptedFacts(c, limits, old_, count);
    BetweenScans(c, limits, old_, updated, disk);
    assert disk[..|old_|] == old_;
    assert old_[0..0 + |old_|] == old_;
  }

  lemma TornRestoreOutcome(c: Codec, limits: Limits, s: StoreState, updated: seq<Byte>, strictError: CapsuleError,
                           faults: Faults)
    requires StoreInv(c, limits, s) && s.poisoned && Between(c, limits, s.bytes, updated, s.disk)
    requires s.disk != s.bytes && s.disk != updated
    ensures var r := RestoreTorn(c, limits, s, strictError, faults);
            && (r.state.disk == s.disk || r.state.disk == s.bytes)
            && r.state.bytes == s.bytes && r.state.count == s.count
            && (r.result.Ok? ==> r.state == StoreState(s.bytes, s.bytes, s.count, false))
            && (r.result.Err? ==> r.state.poisoned)
            && (faults == NO_FAULTS ==> r.result.Ok?)
  {
    hide Scan, RepairTornSuffix, ExtendsByOne;
    AcceptedFacts(c, limits, s.bytes, s.count);
    BetweenScans(c, limits, s.bytes, updated, s.disk);
    RepairOutcome(c, limits, s.bytes, s.count, updated, s.disk, strictError, faults);
  }

  /** `restore_verified_prefix` ends unpoisoned with file and memory both the old capsule (partial
      suffix) or both the new one (complete suffix), or leaves the store poisoned with nothing but
      a torn suffix lost; and it cannot fail when the operating system does not. */
  lemma RestoreOutcome(c: Codec, limits: Limits, s: StoreState, faults: Faults)
    requires StoreInv(c, limits, s)
    ensures var r := Restore(c, limits, s, faults);
            && StoreInv(c, limits, r.state)
            && s.bytes <= r.state.bytes
            && (r.result.Ok? ==>
                  && !r.state.poisoned
                  && r.state.disk == r.state.bytes == Reconciled(c, limits, s.bytes, s.disk))
            && (r.result.Err? ==> r.state.poisoned && (r.state.disk == s.disk || r.state.disk == s.bytes))
            && (r.state.bytes == s.bytes || (r.state.bytes == s.disk && ScanCapsule(c, s.disk, limits).Ok?))
            && (faults == NO_FAULTS ==> r.result.Ok?)
  {
    hide Scan, RestoreTorn, ExtendsByOne;
    AcceptedFacts(c, limits, s.bytes, s.count);
    if s.poisoned {
      DiskBounded(c, limits, s);
      assert s.disk[0..0 + |s.disk|] == s.disk;
      if s.disk != s.bytes {
        var updated :| Between(c, limits, s.bytes, updated, s.disk);
        BetweenScans(c, limits, s.bytes, updated, s.disk);
        UpdateAccepted(c, limits, s.bytes, s.count, updated);
        if s.disk != updated {
          TornRestoreOutcome(c, limits, s, updated, ScanCapsule(c, s.disk, limits).error, faults);
        } else {
          AcceptedFacts(c, limits, updated, s.count + 1);
        }
      }
    }
  }

  lemma UpdateAccepted(c: Codec, limits: Limits, old_: seq<Byte>, count: nat, updated: seq<Byte>)
    requires Accepted(c, limits, old_, count) && ExtendsByOne(c, old_, updated, limits)
    ensures Accepted(c, limits, updated, count + 1)
  {
    hide Scan;
  }

  lemma DiskBounded(c: Codec, limits: Limits, s: StoreState)
    requires StoreInv(c, limits, s)
    ensures |s.bytes| <= |s.disk| <= limits.maxCapsuleBytes && s.bytes <= s.disk
  {
    hide Scan;
    AcceptedFacts(c, limits, s.bytes, s.count);
    if s.disk != s.bytes {
      var updated :| Between(c, limits, s.bytes, updated, s.disk);
      UpdateAccepted(c, limits, s.bytes, s.count, updated);
      AcceptedFacts(c, limits, updated, s.count + 1);
    }
  }

  /** Adoption is sound: an equal generation count on an extension of the memory means the very same
      bytes, so `restore_verified_prefix` never adopts anything but the old or the next capsule. */
  lemma AdoptionIsSound(c: Codec, limits: Limits, s: StoreState, faults: Faults)
    requires Accepted(c, limits, s.bytes, s.count) && s.bytes <= s.disk && s.poisoned
    requires Restore(c, limits, s, faults).result.Ok?
    ensures var r := Restore(c, limits, s, faults).state;
            && !r.poisoned && r.disk == r.bytes
            && ((r.bytes == s.bytes && r.count == s.count)
                || (r.bytes == s.disk && r.count == s.count + 1 && ExtendsByOne(c, s.bytes, s.disk, limits)))
  {
    hide Scan, RepairTornSuffix;
    if ScanCapsule(c, s.disk, limits).Ok? {
      ScanPrefixMonotone(c, s.bytes, s.disk, limits);
    }
  }

  // ----- resume -----

  /** Reopening after a crash, whatever piece of the append reached the disk: the store holds exactly
      the old capsule or exactly the new one, and a partial append always comes back as the old. */
  lemma ResumeOutcome(c: Codec, limits: Limits, old_: seq<Byte>, count: nat, disk: seq<Byte>, faults: Faults)
    requires Accepted(c, limits, old_, count) && TornOrWhole(c, limits, old_, disk)
    ensures var r := Resume(c, limits, disk, true, faults);
            && (r.disk == disk || r.disk == old_)
            && (r.result.Ok? ==>
                  var opened_ := r.result.value;
                  && !opened_.poisoned && opened_.disk == opened_.bytes == r.disk
                  && opened_.bytes == Reconciled(c, limits, old_, disk)
                  && Accepted(c, limits, opened_.bytes, opened_.count))
            && (faults == NO_FAULTS ==> r.result.Ok?)
  {
    hide Scan, RepairTornSuffix, ExtendsByOne;
    AcceptedFacts(c, limits, old_, count);
    DiskBounded(c, limits, StoreState(disk, old_, count, true));
    if disk != old_ {
      var updated :| Between(c, limits, old_, updated, disk);
      BetweenScans(c, limits, old_, updated, disk);
      UpdateAccepted(c, limits, old_, count, updated);
      AcceptedFacts(c, limits, updated, count + 1);
      if disk != updated {
        RepairOutcome(c, limits, old_, count, updated, disk, ScanCapsule(c, disk, limits).error, faults);
      }
    }
  }

  // ----- runs -----

  /** What can happen to a store: an append of the next generation, a restore, external poisoning, or
      losing the process and reopening the file. */
  datatype Op =
    | AppendOp(identity: Identity, phase: Phase, payload: Payload, faults: Faults)
    | RestoreOp(faults: Faults)
    | PoisonOp
    | CrashOp(faults: Faults)

  /** After a crash only the file survives; a failed reopening is retried by a later crash step. */
  function Step(c: Codec, limits: Limits, s: StoreState, op: Op): StoreState
  {
    match op
    case AppendOp(identity, phase, payload, faults) =>
      var updated := CapsuleLog.Append(c, s.bytes, identity, phase, payload, limits);
      if updated.Err? then s else StoreModel.Append(c, limits, s, updated.value, faults).state
    case RestoreOp(faults) => Restore(c, limits, s, faults).state
    case PoisonOp => s.(poisoned := true)
    case CrashOp(faults) =>
      var resumed := Resume(c, limits, s.disk, true, faults);
      if resumed.result.Ok? then resumed.result.value else s.(disk := resumed.disk, poisoned := true)
  }

  function Run(c: Codec, limits: Limits, s: StoreState, ops: seq<Op>): StoreState
  {
    if ops == [] then s else Step(c, limits, Run(c, limits, s, ops[..|ops| - 1]), ops[|ops| - 1])
  }

  lemma StepSafety(c: Codec, limits: Limits, s: StoreState, op: Op)
    requires RoundTrips(c) && StoreInv(c, limits, s)
    ensures StoreInv(c, limits, Step(c, limits, s, op))
    ensures s.bytes <= Step(c, limits, s, op).bytes
  {
    hide Scan, CapsuleLog.Append, StoreModel.Append, Restore, Resume, Between;
    match op
    case AppendOp(identity, phase, payload, faults) =>
      var updated := CapsuleLog.Append(c, s.bytes, identity, phase, payload, limits);
      if updated.Ok? {
        var _ := AppendClaims(c, s.bytes, identity, phase, payload, limits);
        AppendOutcome(c, limits, s, updated.value, faults);
      }
    case RestoreOp(faults) => RestoreOutcome(c, limits, s, faults);
    case PoisonOp =>
    case CrashOp(faults) =>
      ResumeOutcome(c, limits, s.bytes, s.count, s.disk, faults);
      DiskBounded(c, limits, s);
  }

  /** Over every run from a good store, with every operation failing in any way it can: the invariant
      holds and no generation the store ever believed durable is lost. */
  lemma {:induction false} RunSafety(c: Codec, limits: Limits, s: StoreState, ops: seq<Op>)
    requires RoundTrips(c) && StoreInv(c, limits, s)
    ensures StoreInv(c, limits, Run(c, limits, s, ops))
    ensures s.bytes <= Run(c, limits, s, ops).bytes
  {
    hide Step, StoreInv;
    if ops != [] {
      RunSafety(c, limits, s, ops[..|ops| - 1]);
      StepSafety(c, limits, Run(c, limits, s, ops[..|ops| - 1]), ops[|ops| - 1]);
    }
  }
}
