/** The one way a truncation is left on its own: a capsule torn under wider limits, then used under
    narrower ones. */
module NarrowedLimits {
  import opened Results
  import opened Bytes
  import opened CapsuleHeader
  import opened CapsuleLog
  import opened CapsuleRecovery
  import opened CapsuleFraming
  import opened CapsuleLayout
  import opened CapsuleHistory
  import opened RollbackPlan
  import opened Conversion
  import opened ConversionProtocol

  // ----- a scan depends on the capsule cap only through the length check -----

  ghost predicate SameButCap(a: Limits, b: Limits)
  {
    a.maxGenerationBytes == b.maxGenerationBytes && a.maxGenerations == b.maxGenerations
  }

  lemma {:induction false} SameCandidates(c: Codec, bytes: seq<Byte>, a: Limits, b: Limits, n: nat)
    requires SameButCap(a, b)
    ensures CandidatesBelow(c, bytes, a, n) == CandidatesBelow(c, bytes, b, n)
  {
    if n > 0 {
      SameCandidates(c, bytes, a, b, n - 1);
      assert CandidatesAt(c, bytes, a, n - 1) == CandidatesAt(c, bytes, b, n - 1);
    }
  }

  lemma {:induction false} SameWalk(c: Codec, bytes: seq<Byte>, a: Limits, b: Limits, m: Index, offset: nat,
                                    generations: seq<Generation>, torn: bool)
    requires SameButCap(a, b) && offset <= |bytes| && Keyed(m)
    ensures Walk(c, bytes, a, m, offset, generations, torn) == Walk(c, bytes, b, m, offset, generations, torn)
    decreases |bytes| - offset
  {
    hide AcceptRecord, ValidateChain;
    if offset < |bytes| {
      assert IsRecoverableTornTail(c, bytes, offset, generations, a)
               == IsRecoverableTornTail(c, bytes, offset, generations, b);
      if offset in m && AcceptRecord(c, bytes, m[offset], generations).Ok?
         && offset + RecordBytes(m[offset].header.payloadLen) <= |bytes| {
        var g := AcceptRecord(c, bytes, m[offset], generations).value;
        SameWalk(c, bytes, a, b, m, offset + RecordBytes(m[offset].header.payloadLen), generations + [g], torn);
      }
      if offset in m {
        AcceptedFits(c, bytes, m[offset], generations);
      }
    }
  }

  lemma AcceptedFits(c: Codec, bytes: seq<Byte>, candidate: Candidate, generations: seq<Generation>)
    ensures AcceptRecord(c, bytes, candidate, generations).Ok? ==>
              candidate.start + RecordBytes(candidate.header.payloadLen) <= |bytes|
  {
  }

  lemma SameScan(c: Codec, bytes: seq<Byte>, a: Limits, b: Limits, torn: bool)
    requires SameButCap(a, b) && ValidateLimits(a).Ok? && ValidateLimits(b).Ok?
    requires |bytes| <= a.maxCapsuleBytes && |bytes| <= b.maxCapsuleBytes
    ensures Scan(c, bytes, a, torn) == Scan(c, bytes, b, torn)
  {
    hide Walk, MergeBelow, CandidatesBelow;
    if bytes != [] && |bytes| >= |MAGIC| {
      SameCandidates(c, bytes, a, b, |bytes| - |MAGIC| + 1);
      if FindCandidates(c, bytes, a).Ok? {
        var candidates := FindCandidates(c, bytes, a).value;
        if MergeBelow(candidates, |candidates|).Ok? {
          MergeKeepsStarts(candidates, |candidates|);
          SameWalk(c, bytes, a, b, MergeBelow(candidates, |candidates|).value, 0, [], torn);
        }
      }
    }
  }

  // ----- the capsule -----

  /** Room for one envelope of a byte, not for a checkpoint after it. */
  const NARROW_LIMITS: Limits := Limits(400, 4096, 16)

  function NarrowPlan(): Prepared
  {
    Prepared(QUIET_IDENTITY, Preflight(ImageIdentity(Zeros(32), 0), Zeros(32)), Ntfs, Zeros(32), Zeros(32), Zeros(32),
             Zeros(32), Zeros(32), Zeros(32), Zeros(32),
             Rollbacks([], WriteSets([], [], [], [], [], []), [], [], [], [], []), [1], Zeros(1), NARROW_LIMITS)
  }

  /** The envelope's generation, and a reservation appended after it under the wider limits. */
  function TornEntries(): seq<Entry>
  {
    [Entry(QUIET_IDENTITY, Discovered, Zeros(1)), Entry(QUIET_IDENTITY, Reserved, Zeros(40))]
  }

  function WideCapsule(n: nat): seq<Byte>
    requires n <= 2
  {
    var written := AppendAll(CapsuleCodec(QUIET_HASHES), TornEntries()[..n], SMALL_LIMITS);
    if written.Ok? then written.value else []
  }

  lemma WideCapsulesWritten()
    ensures var c := CapsuleCodec(QUIET_HASHES);
            && AppendAll(c, TornEntries()[..1], SMALL_LIMITS) == Ok(WideCapsule(1)) && |WideCapsule(1)| == 273
            && Append(c, WideCapsule(1), QUIET_IDENTITY, Reserved, Zeros(40), SMALL_LIMITS) == Ok(WideCapsule(2))
            && |WideCapsule(2)| == 585
            && Framed(c, WideCapsule(2), SMALL_LIMITS)
            && ScanCapsule(c, WideCapsule(1), SMALL_LIMITS) == Ok(View(Layout(c, TornEntries()[..1]), 273))
  {
    hide Scan, Append, MarkedOnFrame, HeadersOnlyOnFrame, AppendAll, Collides, Layout, Framed;
    var c := CapsuleCodec(QUIET_HASHES);
    var all := TornEntries();
    assert StartOf(all[..1], 0) == 0 && TotalBytes(all[..1]) == 273;
    assert StartOf(all[..2], 1) == StartOf(all[..2], 0) + 273
             && TotalBytes(all[..2]) == StartOf(all[..2], 1) + 312 == 585;
    EmptyHistoryQuiet();
    FewNeverCollide([]);
    FewNeverCollide(all[..1]);
    FewNeverCollide(all[..2]);
    QuietStep([], all[0]);
    assert [] + [all[0]] == all[..1];
    QuietStep(all[..1], all[1]);
    assert all[..1] + [all[1]] == all[..2];
    CapsuleCodecRoundTrips(QUIET_HASHES);
    MarkedMeansHeadersOnFrame(WideCapsule(1), all[..1]);
    MarkedMeansHeadersOnFrame(WideCapsule(2), all[..2]);
    RoundTripExactly(c, all[..1], SMALL_LIMITS, false);
    RoundTripExactly(c, all[..2], SMALL_LIMITS, false);
    AppendAllLength(c, all[..1], SMALL_LIMITS);
    AppendAllLength(c, all[..2], SMALL_LIMITS);
    FullIsFramed(c, WideCapsule(2), SMALL_LIMITS);
    LastAppend(c, all[..2], SMALL_LIMITS);
    assert all[..2][..1] == all[..1];
  }

  lemma LastAppend(c: Codec, entries: seq<Entry>, limits: Limits)
    requires entries != [] && AppendAll(c, entries, limits).Ok?
    ensures var last := entries[|entries| - 1];
            var earlier := AppendAll(c, entries[..|entries| - 1], limits);
            earlier.Ok? && AppendAll(c, entries, limits)
                == Append(c, earlier.value, last.identity, last.phase, last.payload, limits)
  {
    hide Append;
  }

  /** Fifty bytes of the reservation's leading header survived. */
  function TornCapsule(): seq<Byte>
  {
    if |WideCapsule(2)| >= 323 then WideCapsule(2)[..323] else []
  }

  lemma TornRecovers()
    ensures |TornCapsule()| == 323 && |WideCapsule(1)| == 273 && TornCapsule()[..273] == WideCapsule(1)
    ensures var c := CapsuleCodec(QUIET_HASHES);
            && RecoverCapsule(c, TornCapsule(), NARROW_LIMITS) == Ok(View(Layout(c, TornEntries()[..1]), 273))
            && ScanCapsule(c, WideCapsule(1), NARROW_LIMITS) == Ok(View(Layout(c, TornEntries()[..1]), 273))
  {
    hide Scan, Append, Layout, Framed, AppendAll, WideCapsule;
    var c := CapsuleCodec(QUIET_HASHES);
    WideCapsulesWritten();
    CapsuleCodecRoundTrips(QUIET_HASHES);
    FramedPrefix(c, TornCapsule(), WideCapsule(2), SMALL_LIMITS);
    AppendThenTear(c, WideCapsule(1), QUIET_IDENTITY, Reserved, Zeros(40), SMALL_LIMITS, 323);
    var _ := AppendClaims(c, WideCapsule(1), QUIET_IDENTITY, Reserved, Zeros(40), SMALL_LIMITS);
    SameScan(c, TornCapsule(), SMALL_LIMITS, NARROW_LIMITS, true);
    SameScan(c, WideCapsule(1), SMALL_LIMITS, NARROW_LIMITS, false);
  }

  const RESERVATION: Event := Advanced(
    Reserved, Observed(ImageIdentity(Zeros(32), 0), Some(Zeros(32))),
    Completion(ImageIdentity(Zeros(32), 0), Zeros(32), Clean, Offline), None, None)

  const DISCARD: Event := Restored(
    Observed(ImageIdentity(Zeros(32), 0), Some(Zeros(32))),
    Completion(ImageIdentity(Zeros(32), 0), Zeros(32), Clean, Offline), None)

  lemma TornResumes()
    ensures var c := CapsuleCodec(QUIET_HASHES);
            && ResumeWithoutObservation(c, NarrowPlan(), TornCapsule()) == Ok(ResumePoint(0, Discovered, Reserve))
            && IsLegacyCapsule(c, NarrowPlan(), TornCapsule()) == Ok(false)
  {
    hide Scan, TornCapsule;
    TornRecovers();
    var c := CapsuleCodec(QUIET_HASHES);
    var generations := Layout(c, TornEntries()[..1]);
    assert generations[0] == LayoutAt(c, TornEntries()[..1], 0);
    assert Zeros(1)[0] != NarrowPlan().recoveryPayload[0];
  }

  /** No checkpoint fits the narrower limits after the clean capsule. */
  lemma NoRoom(phase: Phase)
    ensures var c := CapsuleCodec(QUIET_HASHES);
            Append(c, WideCapsule(1), QUIET_IDENTITY, phase, CheckpointPayload(NarrowPlan()), NARROW_LIMITS).Err?
  {
    hide Scan, NextHeader, WideCapsule;
    WideCapsulesWritten();
  }

  /** A truncation left on its own: a capsule torn under wider limits, a checkpoint (forward or
      rollback) that passes every check under narrower ones, and an append they refuse. The torn tail
      is gone and nothing took its place. */
  lemma TruncationStays()
    ensures var c := CapsuleCodec(QUIET_HASHES);
            && RecordEvent(c, NarrowPlan(), TornCapsule(), RESERVATION).result.Err?
            && RecordEvent(c, NarrowPlan(), TornCapsule(), RESERVATION).capsule == WideCapsule(1)
            && RecordEvent(c, NarrowPlan(), TornCapsule(), DISCARD).result.Err?
            && RecordEvent(c, NarrowPlan(), TornCapsule(), DISCARD).capsule == WideCapsule(1)
            && WideCapsule(1) < TornCapsule()
  {
    hide Scan, Append, Layout, TornCapsule, WideCapsule, ResumeWithoutObservation, CheckPhase, CheckRollback,
         IsLegacyCapsule;
    var c := CapsuleCodec(QUIET_HASHES);
    var p := NarrowPlan();
    TornRecovers();
    TornResumes();
    NoRoom(Reserved);
    NoRoom(RolledBack);
    CheckPhaseExact(c, p, TornCapsule(), RESERVATION.observed, Reserved, RESERVATION.completion, None, None);
    CheckRollbackExact(c, p, TornCapsule(), DISCARD.observed, DISCARD.completion, None);
    assert TornCapsule()[..273] == WideCapsule(1);
  }
}
