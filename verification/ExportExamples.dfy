/** A concrete export that passes every check: one relocation, one materialization, three write groups. */
module ExportExamples {
  import opened Results
  import opened Bytes
  import opened Sorting
  import opened Images
  import opened Payloads
  import opened RollbackPlan
  import opened ExportPlan
  import opened CandidateExport
  import opened PayloadView
  import E = Extents

  function SampleImage(): SourceImage
  {
    SourceImage([10, 20, 30, 40, 50, 60, 70, 80], 8, (s: Stream, n: nat) => Err(InflationFailed))
  }

  const SAMPLE_RELOCATION: Relocation := Relocation(1, 0, ByteRange(0, 1), ByteRange(2, 1))
  const SAMPLE_MATERIALIZATION: Materialization := Materialization(2, [ByteRange(4, 1)])

  const SAMPLE_PLAN: Sealed := Sealed(
    SourceGraph([Stream(2, 1, 1, 0, Resident([99]))], [E.Extent(1, 0, 1, E.Physical(0), E.FileData)]),
    [E.Extent(1, 0, 1, E.Physical(2), E.FileData), E.Extent(2, 0, 1, E.Physical(4), E.FileData)],
    Layout([SAMPLE_RELOCATION], [SAMPLE_MATERIALIZATION], 1, 1))

  const SAMPLE_WRITES: WriteSets := WriteSets(
    [ReservedWrite(AllocationMetadata, OverlayWrite(5, [61]))],
    [ReservedWrite(BootRegion, OverlayWrite(6, [71]))],
    [ReservedWrite(BootRegion, OverlayWrite(7, [81]))],
    [OverlayWrite(5, [60])], [OverlayWrite(6, [70])], [OverlayWrite(7, [80])])

  function SampleJob(): Job
  {
    Job(SampleImage(), SAMPLE_PLAN, SAMPLE_WRITES, ExportLimits(8, 64))
  }

  lemma FoldSingle<T, A, E>(x: T, step: (A, T) -> Result<A, E>, init: A)
    ensures Fold([x], step, init, 1) == step(init, x)
  {
    assert Fold([x], step, init, 0) == Ok(init);
  }

  /** A destination clear of every write passes the metadata check. */
  lemma {:induction false} ClearPasses(destination: ByteRange, writes: seq<OverlayWrite>, reason: string, n: nat)
    requires n <= |writes|
    requires forall k :: 0 <= k < n ==>
               EndOf(writes[k]) < U64_LIMIT && !Meets(destination, writes[k].offset, EndOf(writes[k]))
    ensures Fold(writes, WriteStep(destination, reason), (), n) == Ok(())
  {
    if n > 0 {
      ClearPasses(destination, writes, reason, n - 1);
    }
  }

  lemma OneWriteGroup(tally: Tally, forward: ReservedWrite, before: OverlayWrite)
    requires forward.write.offset == before.offset && |forward.write.bytes| == |before.bytes| == 1
    requires ReadExact(SampleImage(), before.offset, 1) == Ok(before.bytes)
    requires tally.count < 8 && tally.bytes < 8
    ensures AddGroup(SampleImage(), tally, [forward], [before]) == Ok(Tally(tally.count + 1, tally.bytes + 1))
  {
    var pair := Pair(forward, before);
    assert Zip([forward], [before]) == [pair];
    FoldSingle(pair, PairStep(SampleImage()), tally);
  }

  lemma SamplePreview()
    ensures ValidatePreview(SampleImage(), SAMPLE_WRITES, ExportLimits(8, 64)) == Ok(Tally(3, 3))
  {
    hide AddGroup;
    var bytes: seq<Byte> := SampleImage().bytes;
    assert bytes[5..5 + 1] == [60] && bytes[6..6 + 1] == [70] && bytes[7..7 + 1] == [80];
    OneWriteGroup(Tally(0, 0), SAMPLE_WRITES.targetStaging[0], SAMPLE_WRITES.targetStagingRollback[0]);
    OneWriteGroup(Tally(1, 1), SAMPLE_WRITES.backupBoot[0], SAMPLE_WRITES.backupBootRollback[0]);
    OneWriteGroup(Tally(2, 2), SAMPLE_WRITES.activation[0], SAMPLE_WRITES.activationRollback[0]);
  }

  lemma SampleFinalWrites()
    ensures FinalWrites(SAMPLE_WRITES) == [OverlayWrite(5, [61]), OverlayWrite(6, [71]), OverlayWrite(7, [81])]
  {
  }

  lemma SampleRelocationChecks()
    ensures AddRelocation(8, SAMPLE_PLAN, 0, SAMPLE_RELOCATION) == Ok(1)
  {
    assert SAMPLE_PLAN.sourceGraph.extents[0] == E.Extent(1, 0, 1, E.Physical(0), E.FileData);
    assert Authorized(SAMPLE_PLAN, SAMPLE_RELOCATION);
    assert Commits(SAMPLE_PLAN.targetExtents[0], 1, 0, SAMPLE_RELOCATION.destination);
  }

  lemma SampleRelocations()
    ensures ValidateRelocations(8, SAMPLE_PLAN, SAMPLE_WRITES, 8) == Ok(Relocated(1, 1, [SAMPLE_RELOCATION]))
  {
    hide Fold, FinalWrites, AddRelocation, SortBy;
    var x := SAMPLE_RELOCATION;
    SampleRelocationChecks();
    FoldSingle(x, RelocationStep(8, SAMPLE_PLAN), 0);
    SortBySingle(x, SourceStart());
    SortBySingle(x, DestinationStart());
    SampleFinalWrites();
    ClearPasses(x.destination, FinalWrites(SAMPLE_WRITES), METADATA_REASON, 3);
    FoldSingle(x, RelocationMetadataStep(FinalWrites(SAMPLE_WRITES)), ());
  }

  lemma SampleSpans()
    ensures AllSpans([SAMPLE_MATERIALIZATION]) == SpansOf(SAMPLE_MATERIALIZATION)
         == [MaterializationSpan(2, 0, ByteRange(4, 1), 1)]
  {
    assert [SAMPLE_MATERIALIZATION][..0] == [];
    assert LogicalStartOf(SAMPLE_MATERIALIZATION.destinations, 0) == 0;
    assert LogicalStartOf(SAMPLE_MATERIALIZATION.destinations, 1) == 1;
  }

  lemma SampleMaterializationChecks()
    ensures CheckMaterialization(8, SAMPLE_PLAN, SAMPLE_MATERIALIZATION) == Ok(1)
  {
    hide Fold;
    SampleSpans();
    var span := MaterializationSpan(2, 0, ByteRange(4, 1), 1);
    FoldSingle(ByteRange(4, 1), DestinationStep(8), 0);
    FoldSingle(span, CommitStep(SAMPLE_PLAN), ());
    assert SAMPLE_PLAN.targetExtents[1].kind == E.FileData;
    assert Commits(SAMPLE_PLAN.targetExtents[1], 2, 0, span.destination);
  }

  lemma SampleMaterializations()
    ensures ValidateMaterializations(8, SAMPLE_PLAN, SAMPLE_WRITES, 8)
         == Ok(Materialized(1, [MaterializationSpan(2, 0, ByteRange(4, 1), 1)]))
  {
    hide Fold, FinalWrites, CheckMaterialization, SortBy, AllSpans, SpansOf;
    var span := MaterializationSpan(2, 0, ByteRange(4, 1), 1);
    SampleSpans();
    SampleMaterializationChecks();
    FoldSingle(SAMPLE_MATERIALIZATION, MaterializationStep(8, SAMPLE_PLAN), 0);
    SortBySingle(span, SpanStart());
    FoldSingle(SAMPLE_RELOCATION, RelocationMeetStep(span.destination), ());
    SampleFinalWrites();
    ClearPasses(span.destination, FinalWrites(SAMPLE_WRITES),
        "materialization destination overlaps candidate metadata", 3);
    FoldSingle(span, SpanStep([SAMPLE_RELOCATION], FinalWrites(SAMPLE_WRITES)), ());
  }

  /** The job passes every check, and its one stream can be reconstructed. */
  lemma SampleExportable()
    ensures Exportable(SampleJob())
    ensures ViewOf(SampleJob())
              == Redirected(SampleImage(), [SAMPLE_RELOCATION], [MaterializationSpan(2, 0, ByteRange(4, 1), 1)],
                                              Some(SAMPLE_PLAN.sourceGraph))
    ensures Reconstruct(SampleImage(), SAMPLE_PLAN.sourceGraph, 2, 1) == Ok([99])
  {
    hide ValidatePreview, ValidateRelocations, ValidateMaterializations;
    SamplePreview();
    SampleRelocations();
    SampleMaterializations();
    assert SAMPLE_PLAN.layout.materializations[..0] == [];
    assert LogicalStartOf(SAMPLE_MATERIALIZATION.destinations, 1) == 1;
    SampleReconstructs();
  }

  lemma SampleReconstructs()
    ensures Reconstruct(SampleImage(), SAMPLE_PLAN.sourceGraph, 2, 1) == Ok([99])
  {
    var stored: seq<Byte> := [99];
    assert FindStream(SAMPLE_PLAN.sourceGraph.streams, 2) == Some(SAMPLE_PLAN.sourceGraph.streams[0]);
    assert stored[..1] + Zeros(0) == stored;
  }

  /** Inside the two destinations the view and the candidate agree, and the candidate holds the moved and
      the materialized byte. A read within the cap that starts in the relocation destination and ends
      past it differs: the moved byte is not the one the source has there. */
  lemma StraddlingReadDiffers()
    ensures Exportable(SampleJob())
    ensures ReadView(ViewOf(SampleJob()), 2, 1) == Ok(Exported(SampleJob())[2..3])
    ensures Exported(SampleJob())[4] == 99
    ensures ReadView(ViewOf(SampleJob()), 2, 2) == Ok([30, 40])
    ensures ReadView(ViewOf(SampleJob()), 2, 2) != Ok(Exported(SampleJob())[2..4])
  {
    hide ReadView, ViewOf, CheckExport, MaterializationWrites, Exported, FinalWrites, KeepsSourceByte, Reconstruct;
    var job := SampleJob();
    SampleExportable();
    var view := ViewOf(job);
    ViewRefinesCandidate(job, 2, 2);
    ViewAgreesExactly(job, 2, 1);
    ViewAgreesExactly(job, 2, 2);
    assert Inside(view.relocations[0].destination, 2, 1);
    assert !InsideOne(view, 2, 2);
    SampleReads();
    MovedDiffers(view);
    var j, at := EveryByteLands(job, 0, 0);
  }

  lemma SampleReads()
    ensures ReadExact(SampleImage(), 2, 2) == Ok([30, 40])
    ensures TotalLength(SAMPLE_MATERIALIZATION.destinations) == 1
  {
    var bytes: seq<Byte> := SampleImage().bytes;
    assert bytes[2..2 + 2] == [30, 40];
    assert LogicalStartOf(SAMPLE_MATERIALIZATION.destinations, 1) == 1;
  }

  lemma MovedDiffers(view: Redirected)
    requires view.image.bytes == SampleImage().bytes && view.relocations == [SAMPLE_RELOCATION] && view.graph.Some?
    ensures !KeepsSourceByte(view, FinalWrites(SAMPLE_WRITES), 2)
  {
    hide FinalWrites, LastWritten, PayloadByte;
    assert SAMPLE_RELOCATION in view.relocations && CoversAt(SAMPLE_RELOCATION.destination, 2);
    assert MovedByte(view.image, SAMPLE_RELOCATION, 2) == Some(10);
  }

  // ----- an extent longer than the read cap -----

  /** Four stored bytes behind a reader with the given cap. */
  function CappedImage(maxRead: nat): SourceImage
  {
    SourceImage([10, 20, 30, 40], maxRead, (s: Stream, n: nat) => Err(InflationFailed))
  }

  const LONG_STREAM: Stream := Stream(3, 4, 4, 0, InExtents)
  const LONG_GRAPH: SourceGraph := SourceGraph([LONG_STREAM], [E.Extent(3, 0, 4, E.Physical(0), E.FileData)])

  /** An extent longer than the cap cannot be reconstructed, though the copy and relocation loops read
      the same bytes chunk by chunk; a reader that takes it in one piece reconstructs it. */
  lemma LongExtentFails()
    ensures Reconstruct(CappedImage(2), LONG_GRAPH, 3, 4) == Err(ReadTooLarge(4, 2))
    ensures Reconstruct(CappedImage(4), LONG_GRAPH, 3, 4) == Ok([10, 20, 30, 40])
  {
    var extents, zeros := LONG_GRAPH.extents, Zeros(4);
    assert FindStream(LONG_GRAPH.streams, 3) == Some(LONG_STREAM);
    assert FillFrom(CappedImage(2), LONG_STREAM, extents, 0, 4) == Ok(zeros);
    assert CopyExtent(CappedImage(2), LONG_STREAM, extents[0], zeros) == Err(ReadTooLarge(4, 2));
    assert FillFrom(CappedImage(4), LONG_STREAM, extents, 0, 4) == Ok(zeros);
    var stored: seq<Byte> := CappedImage(4).bytes;
    assert stored[0..0 + 4] == stored;
    assert Splice(zeros, 0, stored) == stored;
    assert CopyExtent(CappedImage(4), LONG_STREAM, extents[0], zeros) == Ok(stored);
  }
}
