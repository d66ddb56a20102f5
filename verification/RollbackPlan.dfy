/** The three source-visible write groups, their before-images, and the cumulative rollback masks. */
module RollbackPlan {
  import opened Results
  import opened Bytes
  import opened Sorting
  import opened Images
  import opened Overlays
  import opened CapsuleHeader

  datatype ByteRange = ByteRange(offset: U64, length: U64)

  datatype Relocation = Relocation(stream: U64, logicalOffset: U64, source: ByteRange, destination: ByteRange)

  datatype ReservationKind = BootRegion | AllocationMetadata | NamespaceMetadata | Journal | CapsuleRegion | Other

  datatype ReservedWrite = ReservedWrite(kind: ReservationKind, write: OverlayWrite)

  datatype WriteSets = WriteSets(
    targetStaging: seq<ReservedWrite>,
    backupBoot: seq<ReservedWrite>,
    activation: seq<ReservedWrite>,
    targetStagingRollback: seq<OverlayWrite>,
    backupBootRollback: seq<OverlayWrite>,
    activationRollback: seq<OverlayWrite>)

  datatype PlanError =
    | EmptyWriteSet(name: string)
    | RollbackRangeMismatch
    | RelocationBeforeImageRangeMismatch
    | Overlay(overlayError: OverlayError)

  /** The range of a write, without its bytes. */
  datatype Span = Span(offset: nat, length: U64)

  /** (offset, length) in lexicographic order. */
  function SpanKey(): Span -> int
  {
    (s: Span) => s.offset * 0x1_0000_0000_0000_0000 + s.length
  }

  function KindKey(kind: ReservationKind): nat
  {
    match kind
    case BootRegion => 0
    case AllocationMetadata => 1
    case NamespaceMetadata => 2
    case Journal => 3
    case CapsuleRegion => 4
    case Other => 5
  }

  /** (offset, length, kind) in lexicographic order. */
  function ReservedKey(): ReservedWrite -> int
  {
    (w: ReservedWrite) => (w.write.offset * 0x1_0000_0000_0000_0000 + |w.write.bytes|) * 8 + KindKey(w.kind)
  }

  function Forward(writes: seq<ReservedWrite>): (r: seq<OverlayWrite>)
    ensures |r| == |writes|
    ensures forall k :: 0 <= k < |writes| ==> r[k] == writes[k].write
  {
    seq(|writes|, k requires 0 <= k < |writes| => writes[k].write)
  }

  function Spans(writes: seq<OverlayWrite>): (r: seq<Span>)
    ensures |r| == |writes|
    ensures forall k :: 0 <= k < |writes| ==> r[k] == Span(writes[k].offset, |writes[k].bytes|)
  {
    seq(|writes|, k requires 0 <= k < |writes| => Span(writes[k].offset, |writes[k].bytes|))
  }

  function Destinations(relocations: seq<Relocation>): (r: seq<Span>)
    ensures |r| == |relocations|
    ensures forall k :: 0 <= k < |relocations| ==>
              r[k] == Span(relocations[k].destination.offset, relocations[k].destination.length)
  {
    seq(|relocations|, k requires 0 <= k < |relocations| =>
      Span(relocations[k].destination.offset, relocations[k].destination.length))
  }

  /** One group's check: the sorted forward ranges equal the sorted rollback ranges. */
  predicate RangesPair(forward: seq<ReservedWrite>, rollback: seq<OverlayWrite>)
  {
    SortBy(Spans(Forward(forward)), SpanKey()) == SortBy(Spans(rollback), SpanKey())
  }

  predicate RollbackPairs(w: WriteSets)
  {
    && RangesPair(w.targetStaging, w.targetStagingRollback)
    && RangesPair(w.backupBoot, w.backupBootRollback)
    && RangesPair(w.activation, w.activationRollback)
  }

  function SortSets(w: WriteSets): WriteSets
  {
    WriteSets(SortBy(w.targetStaging, ReservedKey()), SortBy(w.backupBoot, ReservedKey()),
        SortBy(w.activation, ReservedKey()),
              SortBy(w.targetStagingRollback, ByOffset()), SortBy(w.backupBootRollback, ByOffset()),
              SortBy(w.activationRollback, ByOffset()))
  }

  function FirstEmpty(w: WriteSets): Option<PlanError>
  {
    if w.targetStaging == [] then Some(EmptyWriteSet("target_staging"))
    else if w.backupBoot == [] then Some(EmptyWriteSet("backup_boot"))
    else if w.activation == [] then Some(EmptyWriteSet("activation"))
    else if w.targetStagingRollback == [] then Some(EmptyWriteSet("target_staging_rollback"))
    else if w.backupBootRollback == [] then Some(EmptyWriteSet("backup_boot_rollback"))
    else if w.activationRollback == [] then Some(EmptyWriteSet("activation_rollback"))
    else None
  }

  function StagingRollbackWrites(relocation: seq<OverlayWrite>, w: WriteSets): seq<OverlayWrite>
  {
    relocation + w.targetStagingRollback
  }

  function PreactivationRollbackWrites(relocation: seq<OverlayWrite>, w: WriteSets): seq<OverlayWrite>
  {
    StagingRollbackWrites(relocation, w) + w.backupBootRollback
  }

  function FullRollbackWrites(relocation: seq<OverlayWrite>, w: WriteSets): seq<OverlayWrite>
  {
    PreactivationRollbackWrites(relocation, w) + w.activationRollback
  }

  function FinalWrites(w: WriteSets): seq<OverlayWrite>
  {
    Forward(w.targetStaging) + Forward(w.backupBoot) + Forward(w.activation)
  }

  datatype Rollbacks = Rollbacks(
    relocations: seq<Relocation>,
    writes: WriteSets,
    candidate: seq<OverlayWrite>,
    relocation: seq<OverlayWrite>,
    staging: seq<OverlayWrite>,
    preactivation: seq<OverlayWrite>,
    full: seq<OverlayWrite>)

  function Lift(r: Result<seq<OverlayWrite>, OverlayError>): Result<seq<OverlayWrite>, PlanError>
  {
    match r
    case Ok(writes) => Ok(writes)
    case Err(e) => Err(Overlay(e))
  }

  /** The write-set half of `PreparedConversion::build`: order, pair, match, and seal every overlay. */
  function BuildRollbacks(imageBytes: nat, sector: nat, relocations: seq<Relocation>, sets: WriteSets,
                          beforeImages: seq<OverlayWrite>, limits: OverlayLimits): Result<Rollbacks, PlanError>
  {
    var empty := FirstEmpty(sets);
    if empty.Some? then
      Err(empty.value)
    else
      var w := SortSets(sets);
      if !RollbackPairs(w) then
        Err(RollbackRangeMismatch)
      else
        var before := SortBy(beforeImages, ByOffset());
        if Spans(before) != SortBy(Destinations(relocations), SpanKey()) then
          Err(RelocationBeforeImageRangeMismatch)
        else
          var candidate :- Lift(BuildOverlay(imageBytes, sector, FinalWrites(w), limits));
          var relocation :- Lift(BuildOverlay(imageBytes, sector, before, limits));
          var staging :- Lift(BuildOverlay(imageBytes, sector, StagingRollbackWrites(before, w), limits));
          var preactivation :- Lift(BuildOverlay(imageBytes, sector, PreactivationRollbackWrites(before, w), limits));
          var full :- Lift(BuildOverlay(imageBytes, sector, FullRollbackWrites(before, w), limits));
          Ok(Rollbacks(relocations, w, candidate, relocation, staging, preactivation, full))
  }

  /** The same steps, sorting each write set in place before anything is compared. */
  method PrepareRollbacks(imageBytes: nat, sector: nat, relocations: seq<Relocation>, sets: WriteSets,
                          beforeImages: seq<OverlayWrite>, limits: OverlayLimits)
    returns (r: Result<Rollbacks, PlanError>)
    ensures r == BuildRollbacks(imageBytes, sector, relocations, sets, beforeImages, limits)
  {
    hide BuildOverlay, SortBy;
    var empty := FirstEmpty(sets);
    if empty.Some? {
      return Err(empty.value);
    }
    var w := sets;
    w := w.(targetStaging := SortBy(w.targetStaging, ReservedKey()));
    w := w.(backupBoot := SortBy(w.backupBoot, ReservedKey()));
    w := w.(activation := SortBy(w.activation, ReservedKey()));
    w := w.(targetStagingRollback := SortBy(w.targetStagingRollback, ByOffset()));
    w := w.(backupBootRollback := SortBy(w.backupBootRollback, ByOffset()));
    w := w.(activationRollback := SortBy(w.activationRollback, ByOffset()));
    if !RollbackPairs(w) {
      return Err(RollbackRangeMismatch);
    }
    var before := SortBy(beforeImages, ByOffset());
    if Spans(before) != SortBy(Destinations(relocations), SpanKey()) {
      return Err(RelocationBeforeImageRangeMismatch);
    }
    var candidate := BuildOverlay(imageBytes, sector, FinalWrites(w), limits);
    if candidate.Err? {
      return Err(Overlay(candidate.error));
    }
    var relocation := BuildOverlay(imageBytes, sector, before, limits);
    if relocation.Err? {
      return Err(Overlay(relocation.error));
    }
    var staging := BuildOverlay(imageBytes, sector, StagingRollbackWrites(before, w), limits);
    if staging.Err? {
      return Err(Overlay(staging.error));
    }
    var preactivation := BuildOverlay(imageBytes, sector, PreactivationRollbackWrites(before, w), limits);
    if preactivation.Err? {
      return Err(Overlay(preactivation.error));
    }
    var full := BuildOverlay(imageBytes, sector, FullRollbackWrites(before, w), limits);
    if full.Err? {
      return Err(Overlay(full.error));
    }
    return Ok(Rollbacks(relocations, w, candidate.value, relocation.value, staging.value, preactivation.value,
           full.value));
  }

  // ----- pairing -----

  lemma SpanKeyInjective(spans: seq<Span>)
    ensures InjectiveOn(spans, SpanKey())
  {
  }

  /** The pairing test compares the ranges as multisets: order and bytes do not matter, repetition does. */
  lemma PairingExact(forward: seq<ReservedWrite>, rollback: seq<OverlayWrite>)
    ensures RangesPair(forward, rollback) <==> multiset(Spans(Forward(forward))) == multiset(Spans(rollback))
  {
    var f, b := Spans(Forward(forward)), Spans(rollback);
    SortBySpec(f, SpanKey());
    SortBySpec(b, SpanKey());
    if multiset(f) == multiset(b) {
      SpanKeyInjective(SortBy(f, SpanKey()));
      SortedPermutationUnique(SortBy(f, SpanKey()), SortBy(b, SpanKey()), SpanKey());
    }
  }

  predicate SpanCovers(s: Span, position: int)
  {
    s.offset <= position < s.offset + s.length
  }

  ghost predicate SpansCover(spans: seq<Span>, position: int)
  {
    exists s :: s in spans && SpanCovers(s, position)
  }

  lemma CoveredBySpans(writes: seq<OverlayWrite>, position: int)
    ensures Covered(writes, position) <==> SpansCover(Spans(writes), position)
  {
    if Covered(writes, position) {
      var w :| w in writes && Covers(w, position);
      var k :| 0 <= k < |writes| && writes[k] == w;
      assert Spans(writes)[k] in Spans(writes) && SpanCovers(Spans(writes)[k], position);
    }
    if SpansCover(Spans(writes), position) {
      var s :| s in Spans(writes) && SpanCovers(s, position);
      var k :| 0 <= k < |writes| && Spans(writes)[k] == s;
      assert writes[k] in writes && Covers(writes[k], position);
    }
  }

  lemma SpansCoverPermuted(a: seq<Span>, b: seq<Span>, position: int)
    requires multiset(a) == multiset(b) && SpansCover(a, position)
    ensures SpansCover(b, position)
  {
    var s :| s in a && SpanCovers(s, position);
    MultisetMember(a, b, s);
  }

  /** Paired groups cover the same bytes, forwards and backwards. */
  lemma PairsCoverAlike(forward: seq<ReservedWrite>, rollback: seq<OverlayWrite>, position: int)
    requires RangesPair(forward, rollback)
    ensures Covered(Forward(forward), position) <==> Covered(rollback, position)
  {
    PairingExact(forward, rollback);
    CoveredBySpans(Forward(forward), position);
    CoveredBySpans(rollback, position);
    if Covered(Forward(forward), position) {
      SpansCoverPermuted(Spans(Forward(forward)), Spans(rollback), position);
    }
    if Covered(rollback, position) {
      SpansCoverPermuted(Spans(rollback), Spans(Forward(forward)), position);
    }
  }

  lemma DestinationsCoverAlike(before: seq<OverlayWrite>, relocations: seq<Relocation>, position: int)
    requires Spans(before) == SortBy(Destinations(relocations), SpanKey())
    ensures SpansCover(Destinations(relocations), position) <==> Covered(before, position)
    ensures relocations == [] <==> before == []
  {
    SortBySpec(Destinations(relocations), SpanKey());
    CoveredBySpans(before, position);
    if Covered(before, position) {
      SpansCoverPermuted(Spans(before), Destinations(relocations), position);
    }
    if SpansCover(Destinations(relocations), position) {
      SpansCoverPermuted(Destinations(relocations), Spans(before), position);
    }
  }

  // ----- groups and masks -----

  /** Bytes the group executed from `phase` may touch, however torn. */
  ghost predicate GroupCovers(r: Rollbacks, phase: Phase, position: int)
  {
    match phase
    case Reserved => SpansCover(Destinations(r.relocations), position)
    case Relocating => Covered(Forward(r.writes.targetStaging), position)
    case TargetStaged => Covered(Forward(r.writes.backupBoot), position)
    case BackupBootWritten => Covered(Forward(r.writes.activation), position)
    case _ => false
  }

  /** Before-images restored from a durable phase. */
  function RollbackWrites(r: Rollbacks, phase: Phase): seq<OverlayWrite>
  {
    match phase
    case Discovered => []
    case Reserved => if r.relocations == [] then [] else r.relocation
    case Relocating => r.staging
    case TargetStaged => r.preactivation
    case BackupBootWritten => r.full
    case Activated => r.full
    case Verified => r.full
    case Finalized => []
    case RolledBack => []
  }

  predicate Open(phase: Phase)
  {
    phase != Finalized && phase != RolledBack
  }

  /** Some group up to and including the one executed from `phase` touches the position. */
  ghost predicate TouchedThrough(r: Rollbacks, phase: Phase, position: int)
  {
    exists q :: PhaseCode(q) <= PhaseCode(phase) && GroupCovers(r, q, position)
  }

  /** A plan whose overlays were all accepted and whose before-images are the source's own bytes. */
  ghost predicate SealedFrom(r: Rollbacks, source: seq<Byte>)
  {
    exists imageBytes, sector, relocations, sets, beforeImages, limits ::
      SealedBy(r, source, imageBytes, sector, relocations, sets, beforeImages, limits)
  }

  ghost predicate SealedBy(r: Rollbacks, source: seq<Byte>, imageBytes: nat, sector: nat, relocations: seq<Relocation>,
                           sets: WriteSets, beforeImages: seq<OverlayWrite>, limits: OverlayLimits)
  {
    && BuildRollbacks(imageBytes, sector, relocations, sets, beforeImages, limits) == Ok(r)
    && |source| == imageBytes
    && TakenFrom(beforeImages, source)
    && TakenFrom(sets.targetStagingRollback, source)
    && TakenFrom(sets.backupBootRollback, source)
    && TakenFrom(sets.activationRollback, source)
  }

  /** What sealing establishes, in terms of the sealed plan alone. */
  ghost predicate SoundPlan(r: Rollbacks, source: seq<Byte>, before: seq<OverlayWrite>)
  {
    && RollbackPairs(r.writes)
    && Spans(before) == SortBy(Destinations(r.relocations), SpanKey())
    && SameWrites(r.relocation, before)
    && SameWrites(r.staging, StagingRollbackWrites(before, r.writes))
    && SameWrites(r.preactivation, PreactivationRollbackWrites(before, r.writes))
    && SameWrites(r.full, FullRollbackWrites(before, r.writes))
    && |r.relocation| == |before|
    && |r.staging| == |StagingRollbackWrites(before, r.writes)|
    && |r.preactivation| == |PreactivationRollbackWrites(before, r.writes)|
    && |r.full| == |FullRollbackWrites(before, r.writes)|
    && r.writes.targetStagingRollback != []
    && TakenFrom(r.full, source)
    && AllApart(r.full, ByOffset(), ByEnd())
  }

  lemma OverlayKeepsWrites(imageBytes: nat, sector: nat, writes: seq<OverlayWrite>, limits: OverlayLimits)
    requires BuildOverlay(imageBytes, sector, writes, limits).Ok?
    ensures var sorted := BuildOverlay(imageBytes, sector, writes, limits).value;
            SameWrites(sorted, writes) && |sorted| == |writes| && AllApart(sorted, ByOffset(), ByEnd())
  {
    hide BuildOverlay, AllApart;
    OverlaySpec(imageBytes, sector, writes, limits);
    var sorted := BuildOverlay(imageBytes, sector, writes, limits).value;
    assert |sorted| == |multiset(sorted)| == |multiset(writes)| == |writes|;
  }

  lemma SealedIsSound(r: Rollbacks, source: seq<Byte>, imageBytes: nat, sector: nat, relocations: seq<Relocation>,
                      sets: WriteSets, beforeImages: seq<OverlayWrite>, limits: OverlayLimits)
    requires SealedBy(r, source, imageBytes, sector, relocations, sets, beforeImages, limits)
    ensures SoundPlan(r, source, SortBy(beforeImages, ByOffset()))
  {
    hide BuildOverlay, AllApart, RangesPair, SortBy, SameWrites;
    var w := SortSets(sets);
    var before := SortBy(beforeImages, ByOffset());
    OverlayKeepsWrites(imageBytes, sector, before, limits);
    OverlayKeepsWrites(imageBytes, sector, StagingRollbackWrites(before, w), limits);
    OverlayKeepsWrites(imageBytes, sector, PreactivationRollbackWrites(before, w), limits);
    OverlayKeepsWrites(imageBytes, sector, FullRollbackWrites(before, w), limits);
    SortBySpec(sets.targetStagingRollback, ByOffset());
    FullTaken(source, sets, beforeImages, r.full);
  }

  lemma FullTaken(source: seq<Byte>, sets: WriteSets, beforeImages: seq<OverlayWrite>, full: seq<OverlayWrite>)
    requires SameWrites(full, FullRollbackWrites(SortBy(beforeImages, ByOffset()), SortSets(sets)))
    requires TakenFrom(beforeImages, source) && TakenFrom(sets.targetStagingRollback, source)
    requires TakenFrom(sets.backupBootRollback, source) && TakenFrom(sets.activationRollback, source)
    ensures TakenFrom(full, source)
  {
    SortByMembers(beforeImages, ByOffset());
    SortByMembers(sets.targetStagingRollback, ByOffset());
    SortByMembers(sets.backupBootRollback, ByOffset());
    SortByMembers(sets.activationRollback, ByOffset());
  }

  lemma SameWritesCover(a: seq<OverlayWrite>, b: seq<OverlayWrite>, position: int)
    requires SameWrites(a, b)
    ensures Covered(a, position) <==> Covered(b, position)
  {
  }

  lemma ConcatCovers(a: seq<OverlayWrite>, b: seq<OverlayWrite>, position: int)
    ensures Covered(a + b, position) <==> Covered(a, position) || Covered(b, position)
  {
    if Covered(a, position) {
      var w :| w in a && Covers(w, position);
      assert w in a + b;
    }
    if Covered(b, position) {
      var w :| w in b && Covers(w, position);
      assert w in a + b;
    }
  }

  /** Each mask is exactly the groups up to and including the possibly torn next one: nothing less,
      nothing more. */
  lemma MaskExact(r: Rollbacks, source: seq<Byte>, before: seq<OverlayWrite>, phase: Phase, position: int)
    requires SoundPlan(r, source, before) && Open(phase)
    ensures Covered(RollbackWrites(r, phase), position) <==> TouchedThrough(r, phase, position)
  {
    hide RangesPair, SameWrites, Covered, SpansCover, Spans, AllApart;
    var w := r.writes;
    MasksByGroup(r, source, before, position);
    assert GroupCovers(r, Reserved, position) || GroupCovers(r, Relocating, position)
        || GroupCovers(r, TargetStaged, position) || GroupCovers(r, BackupBootWritten, position)
        || forall q :: !GroupCovers(r, q, position);
    EmptyCoversNothing(position);
  }

  lemma EmptyCoversNothing(position: int)
    ensures !Covered([], position)
  {
  }

  lemma MasksByGroup(r: Rollbacks, source: seq<Byte>, before: seq<OverlayWrite>, position: int)
    requires SoundPlan(r, source, before)
    ensures Covered(r.relocation, position) <==> GroupCovers(r, Reserved, position)
    ensures r.relocations == [] ==> !GroupCovers(r, Reserved, position)
    ensures Covered(r.staging, position) <==>
       GroupCovers(r, Reserved, position) || GroupCovers(r, Relocating, position)
    ensures Covered(r.preactivation, position) <==>
       Covered(r.staging, position) || GroupCovers(r, TargetStaged, position)
    ensures Covered(r.full, position) <==>
       Covered(r.preactivation, position) || GroupCovers(r, BackupBootWritten, position)
  {
    hide RangesPair, AllApart;
    var w := r.writes;
    SameWritesCover(r.relocation, before, position);
    SameWritesCover(r.staging, StagingRollbackWrites(before, w), position);
    SameWritesCover(r.preactivation, PreactivationRollbackWrites(before, w), position);
    SameWritesCover(r.full, FullRollbackWrites(before, w), position);
    ConcatCovers(before, w.targetStagingRollback, position);
    ConcatCovers(StagingRollbackWrites(before, w), w.backupBootRollback, position);
    ConcatCovers(PreactivationRollbackWrites(before, w), w.activationRollback, position);
    PairsCoverAlike(w.targetStaging, w.targetStagingRollback, position);
    PairsCoverAlike(w.backupBoot, w.backupBootRollback, position);
    PairsCoverAlike(w.activation, w.activationRollback, position);
    DestinationsCoverAlike(before, r.relocations, position);
  }

  /** Every mask holds source bytes only. */
  lemma MaskTaken(r: Rollbacks, source: seq<Byte>, before: seq<OverlayWrite>, phase: Phase)
    requires SoundPlan(r, source, before)
    ensures TakenFrom(RollbackWrites(r, phase), source)
  {
    hide RangesPair, AllApart, Spans;
    var w := r.writes;
    forall x | x in RollbackWrites(r, phase)
      ensures x in r.full
    {
      assert x in FullRollbackWrites(before, w);
    }
  }

  /** The masks grow with the phase. */
  lemma MaskGrows(r: Rollbacks, source: seq<Byte>, before: seq<OverlayWrite>, earlier: Phase, later: Phase,
                  position: int)
    requires SoundPlan(r, source, before) && Open(earlier) && Open(later) && PhaseCode(earlier) <= PhaseCode(later)
    requires Covered(RollbackWrites(r, earlier), position)
    ensures Covered(RollbackWrites(r, later), position)
  {
    hide SoundPlan, RollbackWrites, Covered;
    MaskExact(r, source, before, earlier, position);
    MaskExact(r, source, before, later, position);
  }

  /** The image may differ from the source only where groups up to the one run from `phase` write. */
  ghost predicate DirtyWithin(r: Rollbacks, source: seq<Byte>, image: seq<Byte>, phase: Phase)
  {
    && |image| == |source|
    && forall position: nat :: position < |image| && !TouchedThrough(r, phase, position) ==>
         image[position] == source[position]
  }

  lemma DirtyIsMasked(r: Rollbacks, source: seq<Byte>, before: seq<OverlayWrite>, image: seq<Byte>, phase: Phase)
    requires SoundPlan(r, source, before) && Open(phase)
    ensures DirtyWithin(r, source, image, phase) <==> AgreeOutside(image, source, RollbackWrites(r, phase))
  {
    hide SoundPlan, RollbackWrites, Covered, TouchedThrough;
    forall position: nat
      ensures Covered(RollbackWrites(r, phase), position) <==> TouchedThrough(r, phase, position)
    {
      MaskExact(r, source, before, phase, position);
    }
  }

  /** Rollback from any open phase: whatever the groups so far, or a torn next one, left behind,
      writing the phase's before-images gives exactly the source. */
  lemma RollbackRestores(r: Rollbacks, source: seq<Byte>, image: seq<Byte>, phase: Phase)
    requires SealedFrom(r, source) && Open(phase) && DirtyWithin(r, source, image, phase)
    ensures AllFit(RollbackWrites(r, phase), |image|)
    ensures ApplyAll(image, RollbackWrites(r, phase)) == source
  {
    hide SoundPlan, RollbackWrites, DirtyWithin, AgreeOutside, TakenFrom;
    var before := SoundBefore(r, source);
    MaskTaken(r, source, before, phase);
    DirtyIsMasked(r, source, before, image, phase);
    RestoresSource(source, image, RollbackWrites(r, phase));
  }

  lemma SoundBefore(r: Rollbacks, source: seq<Byte>) returns (before: seq<OverlayWrite>)
    requires SealedFrom(r, source)
    ensures SoundPlan(r, source, before)
  {
    hide SoundPlan, SealedBy;
    var imageBytes, sector, relocations, sets, beforeImages, limits :|
      SealedBy(r, source, imageBytes, sector, relocations, sets, beforeImages, limits);
    SealedIsSound(r, source, imageBytes, sector, relocations, sets, beforeImages, limits);
    before := SortBy(beforeImages, ByOffset());
  }

  /** An interrupted rollback leaves the image restorable from the same phase, and the one that
      finally completes still reaches the source. */
  lemma RollbackRestartable(r: Rollbacks, source: seq<Byte>, image: seq<Byte>, torn: seq<Byte>, phase: Phase)
    requires SealedFrom(r, source) && Open(phase) && DirtyWithin(r, source, image, phase)
    requires AgreeOutside(torn, image, RollbackWrites(r, phase))
    ensures DirtyWithin(r, source, torn, phase)
    ensures AllFit(RollbackWrites(r, phase), |torn|) && ApplyAll(torn, RollbackWrites(r, phase)) == source
  {
    hide SoundPlan, RollbackWrites, Covered;
    var before := SoundBefore(r, source);
    DirtyIsMasked(r, source, before, image, phase);
    DirtyIsMasked(r, source, before, torn, phase);
    RollbackRestores(r, source, torn, phase);
  }

  // ----- groups never share a byte -----

  /** The before-images of the group run from `phase`. */
  function GroupRollback(before: seq<OverlayWrite>, w: WriteSets, phase: Phase): seq<OverlayWrite>
  {
    match phase
    case Reserved => before
    case Relocating => w.targetStagingRollback
    case TargetStaged => w.backupBootRollback
    case BackupBootWritten => w.activationRollback
    case _ => []
  }

  /** Where they start among all before-images. */
  function GroupStart(before: seq<OverlayWrite>, w: WriteSets, phase: Phase): nat
  {
    match phase
    case Relocating => |before|
    case TargetStaged => |before| + |w.targetStagingRollback|
    case BackupBootWritten => |before| + |w.targetStagingRollback| + |w.backupBootRollback|
    case _ => 0
  }

  lemma GroupCoversRollback(r: Rollbacks, before: seq<OverlayWrite>, phase: Phase, position: int)
    requires RollbackPairs(r.writes) && Spans(before) == SortBy(Destinations(r.relocations), SpanKey())
    ensures GroupCovers(r, phase, position) <==> Covered(GroupRollback(before, r.writes, phase), position)
  {
    hide RangesPair, SortBy, Spans, Destinations, Covered, SpansCover;
    var w := r.writes;
    PairsCoverAlike(w.targetStaging, w.targetStagingRollback, position);
    PairsCoverAlike(w.backupBoot, w.backupBootRollback, position);
    PairsCoverAlike(w.activation, w.activationRollback, position);
    DestinationsCoverAlike(before, r.relocations, position);
    EmptyCoversNothing(position);
  }

  lemma GroupAmongAll(before: seq<OverlayWrite>, w: WriteSets, phase: Phase, k: nat)
    requires k < |GroupRollback(before, w, phase)|
    ensures var at := GroupStart(before, w, phase) + k;
            at < |FullRollbackWrites(before, w)|
                && FullRollbackWrites(before, w)[at] == GroupRollback(before, w, phase)[k]
  {
  }

  lemma DifferentPlaces(before: seq<OverlayWrite>, w: WriteSets, first: Phase, second: Phase, i: nat, j: nat)
    requires PhaseCode(first) < PhaseCode(second)
    requires i < |GroupRollback(before, w, first)| && j < |GroupRollback(before, w, second)|
    ensures GroupStart(before, w, first) + i < GroupStart(before, w, second) + j
  {
  }

  lemma OnlyOneCovers(writes: seq<OverlayWrite>, i: nat, j: nat, position: int)
    requires AllApart(writes, ByOffset(), ByEnd()) && i < j < |writes|
    ensures !Covers(writes[i], position) || !Covers(writes[j], position)
  {
    assert Apart(writes[i], writes[j], ByOffset(), ByEnd());
  }

  /** In a sealed plan no byte belongs to two write groups. */
  lemma GroupsApart(r: Rollbacks, source: seq<Byte>, imageBytes: nat, sector: nat, relocations: seq<Relocation>,
                    sets: WriteSets, beforeImages: seq<OverlayWrite>, limits: OverlayLimits,
                    first: Phase, second: Phase, position: int)
    requires SealedBy(r, source, imageBytes, sector, relocations, sets, beforeImages, limits)
    requires PhaseCode(first) < PhaseCode(second)
    ensures !GroupCovers(r, first, position) || !GroupCovers(r, second, position)
  {
    hide BuildOverlay, AllApart, RangesPair, SortBy, SameWrites, GroupCovers, Covers, FullRollbackWrites, GroupStart,
         GroupRollback;
    var w, before := SortSets(sets), SortBy(beforeImages, ByOffset());
    OverlaySpec(imageBytes, sector, FullRollbackWrites(before, w), limits);
    var all := FullRollbackWrites(before, w);
    var a, b := GroupRollback(before, w, first), GroupRollback(before, w, second);
    GroupCoversRollback(r, before, first, position);
    GroupCoversRollback(r, before, second, position);
    forall i, j | 0 <= i < |a| && 0 <= j < |b|
      ensures !Covers(a[i], position) || !Covers(b[j], position)
    {
      GroupAmongAll(before, w, first, i);
      GroupAmongAll(before, w, second, j);
      DifferentPlaces(before, w, first, second, i, j);
      OnlyOneCovers(all, GroupStart(before, w, first) + i, GroupStart(before, w, second) + j, position);
    }
  }

  // ----- a plan that seals -----

  const SAMPLE_SOURCE: seq<Byte> := [11, 12, 13, 14, 15]
  const SAMPLE_BEFORE := [OverlayWrite(4, [15])]
  const SAMPLE_RELOCATIONS := [Relocation(1, 0, ByteRange(0, 1), ByteRange(4, 1))]
  const SAMPLE_SETS := WriteSets(
    [ReservedWrite(AllocationMetadata, OverlayWrite(1, [21]))],
    [ReservedWrite(BootRegion, OverlayWrite(2, [22]))],
    [ReservedWrite(BootRegion, OverlayWrite(3, [23]))],
    [OverlayWrite(1, [12])], [OverlayWrite(2, [13])], [OverlayWrite(3, [14])])
  const SAMPLE_LIMITS := OverlayLimits(8, 8, 8)

  lemma {:induction false} CheckedWithin(writes: seq<OverlayWrite>, n: nat, imageBytes: nat)
    requires n <= |writes| && imageBytes < 8
    requires forall k :: 0 <= k < n ==> |writes[k].bytes| == 1 && EndOf(writes[k]) <= imageBytes
    ensures n < 8 ==> CheckWrites(writes, n, imageBytes, 1) == Ok(n)
  {
    if n > 0 {
      CheckedWithin(writes, n - 1, imageBytes);
    }
  }

  /** Single-byte writes at distinct places in a small image make an overlay. */
  lemma SmallOverlay(writes: seq<OverlayWrite>, imageBytes: nat)
    requires |writes| < 8 && imageBytes < 8
    requires forall k :: 0 <= k < |writes| ==> |writes[k].bytes| == 1 && EndOf(writes[k]) <= imageBytes
    requires AllApart(writes, ByOffset(), ByEnd())
    ensures BuildOverlay(imageBytes, 1, writes, SAMPLE_LIMITS) == Ok(SortBy(writes, ByOffset()))
  {
    hide SortBy, AllApart, CheckWrites;
    CheckedWithin(writes, |writes|, imageBytes);
    var sorted := SortBy(writes, ByOffset());
    SortBySpec(writes, ByOffset());
    SortByMembers(writes, ByOffset());
    ApartPermutes(writes, sorted, ByOffset(), ByEnd());
    forall w | w in sorted
      ensures |w.bytes| == 1
    {
      var k :| 0 <= k < |writes| && writes[k] == w;
    }
    SortedApart(sorted);
  }

  lemma SampleSorts()
    ensures SortSets(SAMPLE_SETS) == SAMPLE_SETS && SortBy(SAMPLE_BEFORE, ByOffset()) == SAMPLE_BEFORE
  {
    hide SortBy, ReservedKey, ByOffset;
    SortBySingle(SAMPLE_SETS.targetStaging[0], ReservedKey());
    SortBySingle(SAMPLE_SETS.backupBoot[0], ReservedKey());
    SortBySingle(SAMPLE_SETS.activation[0], ReservedKey());
    SortBySingle(SAMPLE_SETS.targetStagingRollback[0], ByOffset());
    SortBySingle(SAMPLE_SETS.backupBootRollback[0], ByOffset());
    SortBySingle(SAMPLE_SETS.activationRollback[0], ByOffset());
    SortBySingle(SAMPLE_BEFORE[0], ByOffset());
  }

  lemma SamplePairs()
    ensures RollbackPairs(SAMPLE_SETS)
    ensures Spans(SAMPLE_BEFORE) == SortBy(Destinations(SAMPLE_RELOCATIONS), SpanKey())
  {
    hide SortBy, SpanKey;
    assert Spans(Forward(SAMPLE_SETS.targetStaging)) == Spans(SAMPLE_SETS.targetStagingRollback);
    assert Spans(Forward(SAMPLE_SETS.backupBoot)) == Spans(SAMPLE_SETS.backupBootRollback);
    assert Spans(Forward(SAMPLE_SETS.activation)) == Spans(SAMPLE_SETS.activationRollback);
    assert Destinations(SAMPLE_RELOCATIONS) == Spans(SAMPLE_BEFORE) == [Span(4, 1)];
    SortBySingle(Span(4, 1), SpanKey());
  }

  lemma SampleOverlays()
    ensures BuildOverlay(5, 1, FinalWrites(SAMPLE_SETS), SAMPLE_LIMITS).Ok?
    ensures BuildOverlay(5, 1, SAMPLE_BEFORE, SAMPLE_LIMITS).Ok?
    ensures BuildOverlay(5, 1, StagingRollbackWrites(SAMPLE_BEFORE, SAMPLE_SETS), SAMPLE_LIMITS).Ok?
    ensures BuildOverlay(5, 1, PreactivationRollbackWrites(SAMPLE_BEFORE, SAMPLE_SETS), SAMPLE_LIMITS).Ok?
    ensures BuildOverlay(5, 1, FullRollbackWrites(SAMPLE_BEFORE, SAMPLE_SETS), SAMPLE_LIMITS).Ok?
  {
    hide BuildOverlay;
    SmallOverlay(FinalWrites(SAMPLE_SETS), 5);
    SmallOverlay(SAMPLE_BEFORE, 5);
    SmallOverlay(StagingRollbackWrites(SAMPLE_BEFORE, SAMPLE_SETS), 5);
    SmallOverlay(PreactivationRollbackWrites(SAMPLE_BEFORE, SAMPLE_SETS), 5);
    SmallOverlay(FullRollbackWrites(SAMPLE_BEFORE, SAMPLE_SETS), 5);
  }

  lemma SampleTaken()
    ensures TakenFrom(SAMPLE_BEFORE, SAMPLE_SOURCE) && TakenFrom(SAMPLE_SETS.targetStagingRollback, SAMPLE_SOURCE)
    ensures TakenFrom(SAMPLE_SETS.backupBootRollback, SAMPLE_SOURCE)
    ensures TakenFrom(SAMPLE_SETS.activationRollback, SAMPLE_SOURCE)
  {
    var source: seq<Byte> := SAMPLE_SOURCE;
    assert source[4..5] == [15] && source[1..2] == [12] && source[2..3] == [13] && source[3..4] == [14];
  }

  /** Sorted, paired and matched sets whose five overlays are accepted are sealed as they are. */
  lemma SortedSetsBuild(imageBytes: nat, sector: nat, relocations: seq<Relocation>, sets: WriteSets,
                        before: seq<OverlayWrite>, limits: OverlayLimits)
    requires FirstEmpty(sets).None? && SortSets(sets) == sets && SortBy(before, ByOffset()) == before
    requires RollbackPairs(sets) && Spans(before) == SortBy(Destinations(relocations), SpanKey())
    requires BuildOverlay(imageBytes, sector, FinalWrites(sets), limits).Ok?
    requires BuildOverlay(imageBytes, sector, before, limits).Ok?
    requires BuildOverlay(imageBytes, sector, StagingRollbackWrites(before, sets), limits).Ok?
    requires BuildOverlay(imageBytes, sector, PreactivationRollbackWrites(before, sets), limits).Ok?
    requires BuildOverlay(imageBytes, sector, FullRollbackWrites(before, sets), limits).Ok?
    ensures var r := BuildRollbacks(imageBytes, sector, relocations, sets, before, limits);
            r.Ok? && r.value.relocations == relocations && r.value.writes == sets
  {
    hide BuildOverlay, SortBy, SortSets, RollbackPairs, Spans, Destinations, FirstEmpty, FinalWrites,
         FullRollbackWrites, PreactivationRollbackWrites, StagingRollbackWrites;
  }

  /** Sealed plans exist, relocations and all three groups included. */
  lemma SamplePlanSeals() returns (r: Rollbacks)
    ensures SealedFrom(r, SAMPLE_SOURCE) && r.relocations == SAMPLE_RELOCATIONS && r.writes == SAMPLE_SETS
  {
    hide BuildOverlay, BuildRollbacks, SortBy, SortSets, RollbackPairs, Spans, Destinations, TakenFrom;
    SampleSorts();
    SamplePairs();
    SampleOverlays();
    SampleTaken();
    SortedSetsBuild(5, 1, SAMPLE_RELOCATIONS, SAMPLE_SETS, SAMPLE_BEFORE, SAMPLE_LIMITS);
    r := BuildRollbacks(5, 1, SAMPLE_RELOCATIONS, SAMPLE_SETS, SAMPLE_BEFORE, SAMPLE_LIMITS).value;
    assert SealedBy(r, SAMPLE_SOURCE, 5, 1, SAMPLE_RELOCATIONS, SAMPLE_SETS, SAMPLE_BEFORE, SAMPLE_LIMITS);
  }
}
