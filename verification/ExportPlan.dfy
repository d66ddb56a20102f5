/** The exporter's checks on a sealed layout: relocations and materializations, sorted in place and
    compared neighbour by neighbour. */
module ExportPlan {
  import opened Results
  import opened Bytes
  import opened Sorting
  import opened Images
  import opened Extents
  import opened Payloads
  import opened RollbackPlan

  datatype Materialization = Materialization(stream: U64, destinations: seq<ByteRange>)

  datatype MaterializationSpan = MaterializationSpan(
    stream: U64,
    logicalOffset: nat,
    destination: ByteRange,
    streamLength: nat)

  datatype Layout = Layout(
    relocations: seq<Relocation>,
    materializations: seq<Materialization>,
    relocatedBytes: U64,
    materializedBytes: U64)

  /** The sealed relocation plan: both graphs and the layout that joins them. */
  datatype Sealed = Sealed(sourceGraph: SourceGraph, targetExtents: seq<Extent>, layout: Layout)

  function RangeEnd(r: ByteRange): nat
  {
    r.offset + r.length
  }

  predicate Meets(r: ByteRange, offset: nat, end: nat)
  {
    r.offset < end && offset < RangeEnd(r)
  }

  // ----- loops that stop at the first error -----

  function Fold<T, A, E>(s: seq<T>, step: (A, T) -> Result<A, E>, init: A, n: nat): Result<A, E>
    requires n <= |s|
  {
    if n == 0 then
      Ok(init)
    else
      var a :- Fold(s, step, init, n - 1);
      step(a, s[n - 1])
  }

  lemma {:induction false} FoldErrorPersists<T, A, E>(s: seq<T>, step: (A, T) -> Result<A, E>, init: A, n: nat, m: nat)
    requires n <= m <= |s| && Fold(s, step, init, n).Err?
    ensures Fold(s, step, init, m) == Err(Fold(s, step, init, n).error)
  {
    if n < m {
      FoldErrorPersists(s, step, init, n, m - 1);
    }
  }

  method FoldLoop<T, A, E>(s: seq<T>, step: (A, T) -> Result<A, E>, init: A) returns (r: Result<A, E>)
    ensures r == Fold(s, step, init, |s|)
  {
    var accumulated := init;
    var k := 0;
    while k < |s|
      invariant 0 <= k <= |s|
      invariant Fold(s, step, init, k) == Ok(accumulated)
    {
      var next := step(accumulated, s[k]);
      if next.Err? {
        assert Fold(s, step, init, k + 1) == next;
        FoldErrorPersists(s, step, init, k + 1, |s|);
        return next;
      }
      accumulated := next.value;
      k := k + 1;
    }
    return Ok(accumulated);
  }

  /** If the whole loop succeeded, every step did. */
  lemma {:induction false} FoldStepOk<T, A, E>(s: seq<T>, step: (A, T) -> Result<A, E>, init: A, n: nat, k: nat)
    returns (a: A)
    requires k < n <= |s| && Fold(s, step, init, n).Ok?
    ensures step(a, s[k]).Ok?
  {
    if k == n - 1 {
      a := Fold(s, step, init, n - 1).value;
    } else {
      a := FoldStepOk(s, step, init, n - 1, k);
    }
  }

  function Sum64(a: nat, b: nat, what: string): (r: Result<nat, ExportError>)
  {
    var sum: nat := a + b;
    if sum >= U64_LIMIT then Err(ExportOverflow(what)) else Ok(sum)
  }

  // ----- the preview -----

  datatype ExportLimits = ExportLimits(maxWrites: nat, maxReplacementBytes: nat)

  datatype Tally = Tally(count: nat, bytes: nat)

  datatype Pair = Pair(forward: ReservedWrite, before: OverlayWrite)

  function Zip(forward: seq<ReservedWrite>, rollback: seq<OverlayWrite>): (r: seq<Pair>)
    requires |forward| == |rollback|
    ensures |r| == |forward|
    ensures forall k :: 0 <= k < |r| ==> r[k] == Pair(forward[k], rollback[k])
  {
    seq(|forward|, k requires 0 <= k < |forward| => Pair(forward[k], rollback[k]))
  }

  /** A before-image names its write's range and holds the source's bytes there. */
  function CheckBeforeImage(image: SourceImage, pair: Pair): Result<(), ExportError>
  {
    if pair.forward.write.offset != pair.before.offset || |pair.forward.write.bytes| != |pair.before.bytes| then
      Err(PreviewShape("a forward write and rollback before-image disagree on range"))
    else
      var actual :- ReadExact(image, pair.before.offset, |pair.before.bytes|);
      if actual != pair.before.bytes then Err(PreviewDoesNotMatchSource(pair.before.offset)) else Ok(())
  }

  function AddPair(image: SourceImage, tally: Tally, pair: Pair): Result<Tally, ExportError>
  {
    var _ :- CheckBeforeImage(image, pair);
    if tally.count + 1 > USIZE_MAX then Err(ExportOverflow("write count"))
    else if tally.bytes + |pair.forward.write.bytes| >= U64_LIMIT then Err(ExportOverflow("replacement byte total"))
    else Ok(Tally(tally.count + 1, tally.bytes + |pair.forward.write.bytes|))
  }

  function PairStep(image: SourceImage): (Tally, Pair) -> Result<Tally, ExportError>
  {
    (tally: Tally, pair: Pair) => AddPair(image, tally, pair)
  }

  function AddGroup(image: SourceImage, tally: Tally, forward: seq<ReservedWrite>, rollback: seq<OverlayWrite>)
    : Result<Tally, ExportError>
  {
    if forward == [] || |forward| != |rollback| then
      Err(PreviewShape("each phase must have matching nonempty forward and rollback sets"))
    else
      Fold(Zip(forward, rollback), PairStep(image), tally, |forward|)
  }

  function ValidatePreview(image: SourceImage, writes: WriteSets, limits: ExportLimits): Result<Tally, ExportError>
  {
    var staging :- AddGroup(image, Tally(0, 0), writes.targetStaging, writes.targetStagingRollback);
    var backup :- AddGroup(image, staging, writes.backupBoot, writes.backupBootRollback);
    var all :- AddGroup(image, backup, writes.activation, writes.activationRollback);
    if all.count > limits.maxWrites then Err(WriteCountExceeded(all.count, limits.maxWrites))
    else if all.bytes > limits.maxReplacementBytes
        then Err(ReplacementBytesExceeded(all.bytes, limits.maxReplacementBytes))
    else Ok(all)
  }

  method CheckGroup(image: SourceImage, tally: Tally, forward: seq<ReservedWrite>, rollback: seq<OverlayWrite>)
    returns (r: Result<Tally, ExportError>)
    ensures r == AddGroup(image, tally, forward, rollback)
  {
    hide Fold;
    if forward == [] || |forward| != |rollback| {
      return Err(PreviewShape("each phase must have matching nonempty forward and rollback sets"));
    }
    r := FoldLoop(Zip(forward, rollback), PairStep(image), tally);
  }

  method ValidatePreviewWrites(image: SourceImage, writes: WriteSets, limits: ExportLimits)
    returns (r: Result<Tally, ExportError>)
    ensures r == ValidatePreview(image, writes, limits)
  {
    hide AddGroup;
    var tally := Tally(0, 0);
    tally :- CheckGroup(image, tally, writes.targetStaging, writes.targetStagingRollback);
    tally :- CheckGroup(image, tally, writes.backupBoot, writes.backupBootRollback);
    tally :- CheckGroup(image, tally, writes.activation, writes.activationRollback);
    if tally.count > limits.maxWrites {
      return Err(WriteCountExceeded(tally.count, limits.maxWrites));
    }
    if tally.bytes > limits.maxReplacementBytes {
      return Err(ReplacementBytesExceeded(tally.bytes, limits.maxReplacementBytes));
    }
    return Ok(tally);
  }

  lemma GroupMatches(image: SourceImage, tally: Tally, forward: seq<ReservedWrite>, rollback: seq<OverlayWrite>)
    requires AddGroup(image, tally, forward, rollback).Ok?
    ensures forward != [] && Spans(Forward(forward)) == Spans(rollback)
    ensures TakenFrom(rollback, image.bytes) && AllFit(Forward(forward), |image.bytes|)
  {
    hide Fold;
    forall k | 0 <= k < |forward|
      ensures Spans(Forward(forward))[k] == Spans(rollback)[k]
      ensures Fits(rollback[k], |image.bytes|)
                && rollback[k].bytes == image.bytes[rollback[k].offset..EndOf(rollback[k])]
    {
      var earlier := FoldStepOk(Zip(forward, rollback), PairStep(image), tally, |forward|, k);
      assert CheckBeforeImage(image, Zip(forward, rollback)[k]).Ok?;
    }
    forall w | w in Forward(forward)
      ensures Fits(w, |image.bytes|)
    {
      var k :| 0 <= k < |forward| && Forward(forward)[k] == w;
      assert Spans(Forward(forward))[k] == Spans(rollback)[k];
    }
  }

  /** An accepted preview: three nonempty groups, each write inside the image, each before-image naming
      its write's range and holding the source's bytes there. */
  lemma PreviewSound(image: SourceImage, writes: WriteSets, limits: ExportLimits)
    requires ValidatePreview(image, writes, limits).Ok?
    ensures AllFit(FinalWrites(writes), |image.bytes|)
    ensures writes.targetStaging != [] && writes.backupBoot != [] && writes.activation != []
    ensures Spans(Forward(writes.targetStaging)) == Spans(writes.targetStagingRollback)
    ensures Spans(Forward(writes.backupBoot)) == Spans(writes.backupBootRollback)
    ensures Spans(Forward(writes.activation)) == Spans(writes.activationRollback)
    ensures TakenFrom(writes.targetStagingRollback, image.bytes) && TakenFrom(writes.backupBootRollback, image.bytes)
    ensures TakenFrom(writes.activationRollback, image.bytes)
  {
    hide AddGroup, Spans, TakenFrom;
    var staging := AddGroup(image, Tally(0, 0), writes.targetStaging, writes.targetStagingRollback).value;
    var backup := AddGroup(image, staging, writes.backupBoot, writes.backupBootRollback).value;
    GroupMatches(image, Tally(0, 0), writes.targetStaging, writes.targetStagingRollback);
    GroupMatches(image, staging, writes.backupBoot, writes.backupBootRollback);
    GroupMatches(image, backup, writes.activation, writes.activationRollback);
  }

  // ----- relocations -----

  predicate Authorized(sealed_: Sealed, x: Relocation)
  {
    exists k :: 0 <= k < |sealed_.sourceGraph.extents|
      && sealed_.sourceGraph.extents[k]
         == Extent(x.stream, x.logicalOffset, x.source.length, Physical(x.source.offset), FileData)
  }

  predicate Commits(e: Extent, stream: U64, logicalOffset: nat, destination: ByteRange)
  {
    && e.stream == stream && e.logicalOffset == logicalOffset && e.length == destination.length
    && e.placement == Physical(destination.offset)
  }

  function CheckRelocation(imageLength: nat, sealed_: Sealed, x: Relocation): Result<(), ExportError>
  {
    if x.source.length == 0 || x.source.length != x.destination.length then
      Err(RelocationShape("source and destination lengths must be equal and nonzero"))
    else if RangeEnd(x.source) >= U64_LIMIT then
      Err(RelocationShape("source range overflows"))
    else if RangeEnd(x.destination) >= U64_LIMIT then
      Err(RelocationShape("destination range overflows"))
    else if RangeEnd(x.source) > imageLength || RangeEnd(x.destination) > imageLength then
      Err(RelocationShape("range is outside the image"))
    else if Meets(x.source, x.destination.offset, RangeEnd(x.destination)) then
      Err(RelocationShape("source and destination overlap"))
    else if !Authorized(sealed_, x) then
      Err(RelocationShape("source graph does not authorize a relocation read"))
    else if !exists k :: 0 <= k < |sealed_.targetExtents|
                && Commits(sealed_.targetExtents[k], x.stream, x.logicalOffset, x.destination) then
      Err(RelocationShape("target graph does not commit a relocation destination"))
    else
      Ok(())
  }

  function AddRelocation(imageLength: nat, sealed_: Sealed, total: nat, x: Relocation): Result<nat, ExportError>
  {
    var _ :- CheckRelocation(imageLength, sealed_, x);
    Sum64(total, x.source.length, "relocation byte total")
  }

  function RelocationStep(imageLength: nat, sealed_: Sealed): (nat, Relocation) -> Result<nat, ExportError>
  {
    (total: nat, x: Relocation) => AddRelocation(imageLength, sealed_, total, x)
  }

  function SourceStart(): Relocation -> int
  {
    (x: Relocation) => x.source.offset
  }

  function SourceEnd(): Relocation -> int
  {
    (x: Relocation) => RangeEnd(x.source)
  }

  function DestinationStart(): Relocation -> int
  {
    (x: Relocation) => x.destination.offset
  }

  function DestinationEnd(): Relocation -> int
  {
    (x: Relocation) => RangeEnd(x.destination)
  }

  function SourceClash(): (Relocation, Relocation) -> bool
  {
    (first: Relocation, second: Relocation) => RangeEnd(first.source) > second.source.offset
  }

  function DestinationClash(): (Relocation, Relocation) -> bool
  {
    (first: Relocation, second: Relocation) => RangeEnd(first.destination) > second.destination.offset
  }

  /** One destination against one candidate write. */
  function WriteStep(destination: ByteRange, reason: string): ((), OverlayWrite) -> Result<(), ExportError>
  {
    (u: (), w: OverlayWrite) =>
      if EndOf(w) >= U64_LIMIT then Err(ExportOverflow("candidate write end"))
      else if Meets(destination, w.offset, EndOf(w)) then Err(RelocationShape(reason))
      else Ok(())
  }

  const METADATA_REASON := "destination overlaps candidate metadata"

  function RelocationMetadataStep(writes: seq<OverlayWrite>): ((), Relocation) -> Result<(), ExportError>
  {
    (u: (), x: Relocation) => Fold(writes, WriteStep(x.destination, METADATA_REASON), (), |writes|)
  }

  datatype Relocated = Relocated(count: nat, bytes: nat, sorted: seq<Relocation>)

  function ValidateRelocations(imageLength: nat, sealed_: Sealed, writes: WriteSets, maxWrites: nat)
    : Result<Relocated, ExportError>
  {
    var relocations := sealed_.layout.relocations;
    if |relocations| > maxWrites then
      Err(WriteCountExceeded(|relocations|, maxWrites))
    else
      var total :- Fold(relocations, RelocationStep(imageLength, sealed_), 0, |relocations|);
      if total != sealed_.layout.relocatedBytes then
        Err(RelocationShape("relocated byte total disagrees with the layout"))
      else
        var bySource := SortBy(relocations, SourceStart());
        if FirstClash(bySource, SourceClash(), Pairs(bySource)).Some? then
          Err(RelocationShape("source ranges overlap"))
        else
          var sorted := SortBy(relocations, DestinationStart());
          if FirstClash(sorted, DestinationClash(), Pairs(sorted)).Some? then
            Err(RelocationShape("destination ranges overlap"))
          else
            var _ :- Fold(sorted, RelocationMetadataStep(FinalWrites(writes)), (), |sorted|);
            Ok(Relocated(|sorted|, total, sorted))
  }

  method ValidateRelocationPlan(imageLength: nat, sealed_: Sealed, writes: WriteSets, maxWrites: nat)
    returns (r: Result<Relocated, ExportError>)
    ensures r == ValidateRelocations(imageLength, sealed_, writes, maxWrites)
  {
    hide Fold, SortBy, FinalWrites;
    var relocations := sealed_.layout.relocations;
    if |relocations| > maxWrites {
      return Err(WriteCountExceeded(|relocations|, maxWrites));
    }
    var total := FoldLoop(relocations, RelocationStep(imageLength, sealed_), 0);
    if total.Err? {
      return Err(total.error);
    }
    if total.value != sealed_.layout.relocatedBytes {
      return Err(RelocationShape("relocated byte total disagrees with the layout"));
    }
    var bySource := SortBy(relocations, SourceStart());
    var clash := FindClash(bySource, SourceClash());
    if clash.Some? {
      return Err(RelocationShape("source ranges overlap"));
    }
    relocations := SortBy(relocations, DestinationStart());
    clash := FindClash(relocations, DestinationClash());
    if clash.Some? {
      return Err(RelocationShape("destination ranges overlap"));
    }
    var metadata := FoldLoop(relocations, RelocationMetadataStep(FinalWrites(writes)), ());
    if metadata.Err? {
      return Err(metadata.error);
    }
    return Ok(Relocated(|relocations|, total.value, relocations));
  }

  // ----- materializations -----

  /** Logical position at which the `j`-th destination starts. */
  function LogicalStartOf(destinations: seq<ByteRange>, j: nat): nat
    requires j <= |destinations|
  {
    if j == 0 then 0 else LogicalStartOf(destinations, j - 1) + destinations[j - 1].length
  }

  function TotalLength(destinations: seq<ByteRange>): nat
  {
    LogicalStartOf(destinations, |destinations|)
  }

  function AddDestination(imageLength: nat, logical: nat, d: ByteRange): Result<nat, ExportError>
  {
    if d.length == 0 then Err(RelocationShape("materialization destination span length must be nonzero"))
    else if RangeEnd(d) >= U64_LIMIT then Err(RelocationShape("materialization destination overflows"))
    else if RangeEnd(d) > imageLength then Err(RelocationShape("materialization destination is outside the image"))
    else Sum64(logical, d.length, "materialization logical coverage")
  }

  function DestinationStep(imageLength: nat): (nat, ByteRange) -> Result<nat, ExportError>
  {
    (logical: nat, d: ByteRange) => AddDestination(imageLength, logical, d)
  }

  function SpanOf(m: Materialization, j: nat): MaterializationSpan
    requires j < |m.destinations|
  {
    MaterializationSpan(m.stream, LogicalStartOf(m.destinations, j), m.destinations[j], TotalLength(m.destinations))
  }

  function SpansOf(m: Materialization): (r: seq<MaterializationSpan>)
    ensures |r| == |m.destinations|
    ensures forall j :: 0 <= j < |r| ==> r[j] == SpanOf(m, j)
  {
    seq(|m.destinations|, j requires 0 <= j < |m.destinations| => SpanOf(m, j))
  }

  function AllSpans(materializations: seq<Materialization>): seq<MaterializationSpan>
  {
    if materializations == [] then []
    else AllSpans(materializations[..|materializations| - 1]) + SpansOf(materializations[|materializations| - 1])
  }

  function CommitStep(sealed_: Sealed): ((), MaterializationSpan) -> Result<(), ExportError>
  {
    (u: (), span: MaterializationSpan) =>
      if exists k :: 0 <= k < |sealed_.targetExtents| && sealed_.targetExtents[k].kind == FileData
                     && Commits(sealed_.targetExtents[k], span.stream, span.logicalOffset, span.destination) then
        Ok(())
      else
        Err(RelocationShape("target graph does not commit a materialization destination span"))
  }

  function CheckMaterialization(imageLength: nat, sealed_: Sealed, m: Materialization): Result<nat, ExportError>
  {
    if m.destinations == [] then
      Err(RelocationShape("materialization must contain at least one destination span"))
    else
      var stream := FindStream(sealed_.sourceGraph.streams, m.stream);
      if stream.None? then
        Err(RelocationShape("source graph does not authorize a materialization read"))
      else
        var length: nat :- Fold<ByteRange, nat,
            ExportError>(m.destinations, DestinationStep(imageLength), 0, |m.destinations|);
        if length < stream.value.logicalBytes then
          Err(RelocationShape("materialization destination is smaller than logical stream bytes"))
        else
          var _ :- Fold(SpansOf(m), CommitStep(sealed_), (), |SpansOf(m)|);
          Ok(length)
  }

  function AddMaterialization(imageLength: nat, sealed_: Sealed, total: nat, m: Materialization)
    : Result<nat, ExportError>
  {
    var length :- CheckMaterialization(imageLength, sealed_, m);
    Sum64(total, length, "materialization byte total")
  }

  function MaterializationStep(imageLength: nat, sealed_: Sealed): (nat, Materialization) -> Result<nat, ExportError>
  {
    (total: nat, m: Materialization) => AddMaterialization(imageLength, sealed_, total, m)
  }

  function SpanStart(): MaterializationSpan -> int
  {
    (s: MaterializationSpan) => s.destination.offset
  }

  function SpanEnd(): MaterializationSpan -> int
  {
    (s: MaterializationSpan) => RangeEnd(s.destination)
  }

  function SpanClash(): (MaterializationSpan, MaterializationSpan) -> bool
  {
    (first: MaterializationSpan, second: MaterializationSpan) => RangeEnd(first.destination) > second.destination.offset
  }

  function RelocationMeetStep(destination: ByteRange): ((), Relocation) -> Result<(), ExportError>
  {
    (u: (), x: Relocation) =>
      if Meets(destination, x.destination.offset, RangeEnd(x.destination)) then
        Err(RelocationShape("materialization destination overlaps a relocation"))
      else
        Ok(())
  }

  function SpanStep(relocations: seq<Relocation>, writes: seq<OverlayWrite>)
    : ((), MaterializationSpan) -> Result<(), ExportError>
  {
    (u: (), span: MaterializationSpan) =>
      match Fold(relocations, RelocationMeetStep(span.destination), (), |relocations|)
      case Err(e) => Err(e)
      case Ok(_) => Fold(writes,
          WriteStep(span.destination, "materialization destination overlaps candidate metadata"), (), |writes|)
  }

  datatype Materialized = Materialized(bytes: nat, sorted: seq<MaterializationSpan>)

  function ValidateMaterializations(imageLength: nat, sealed_: Sealed, writes: WriteSets, maxWrites: nat)
    : Result<Materialized, ExportError>
  {
    var materializations := sealed_.layout.materializations;
    if |materializations| > maxWrites then
      Err(WriteCountExceeded(|materializations|, maxWrites))
    else
      var total :- Fold(materializations, MaterializationStep(imageLength, sealed_), 0, |materializations|);
      if total != sealed_.layout.materializedBytes then
        Err(RelocationShape("materialized byte total disagrees with the layout"))
      else
        var spans := AllSpans(materializations);
        if |spans| > maxWrites then
          Err(WriteCountExceeded(|spans|, maxWrites))
        else
          var sorted := SortBy(spans, SpanStart());
          if FirstClash(sorted, SpanClash(), Pairs(sorted)).Some? then
            Err(RelocationShape("materialization destinations overlap"))
          else
            var _ :- Fold(sorted, SpanStep(sealed_.layout.relocations, FinalWrites(writes)), (), |sorted|);
            Ok(Materialized(total, sorted))
  }

  /** The spans of the first `n` materializations, pushed one after another. */
  method CollectSpans(materializations: seq<Materialization>) returns (spans: seq<MaterializationSpan>)
    ensures spans == AllSpans(materializations)
  {
    spans := [];
    var k := 0;
    while k < |materializations|
      invariant 0 <= k <= |materializations|
      invariant spans == AllSpans(materializations[..k])
    {
      var m := materializations[k];
      var logical := 0;
      var j := 0;
      while j < |m.destinations|
        invariant 0 <= j <= |m.destinations|
        invariant logical == LogicalStartOf(m.destinations, j)
        invariant spans == AllSpans(materializations[..k]) + SpansOf(m)[..j]
      {
        spans := spans + [MaterializationSpan(m.stream, logical, m.destinations[j], TotalLength(m.destinations))];
        logical := logical + m.destinations[j].length;
        j := j + 1;
      }
      assert materializations[..k + 1][..k] == materializations[..k];
      k := k + 1;
    }
    assert materializations[..k] == materializations;
  }

  method ValidateMaterializationPlan(imageLength: nat, sealed_: Sealed, writes: WriteSets, maxWrites: nat)
    returns (r: Result<Materialized, ExportError>)
    ensures r == ValidateMaterializations(imageLength, sealed_, writes, maxWrites)
  {
    hide Fold, SortBy, FinalWrites, AllSpans;
    var materializations := sealed_.layout.materializations;
    if |materializations| > maxWrites {
      return Err(WriteCountExceeded(|materializations|, maxWrites));
    }
    var total := FoldLoop(materializations, MaterializationStep(imageLength, sealed_), 0);
    if total.Err? {
      return Err(total.error);
    }
    if total.value != sealed_.layout.materializedBytes {
      return Err(RelocationShape("materialized byte total disagrees with the layout"));
    }
    var spans := CollectSpans(materializations);
    if |spans| > maxWrites {
      return Err(WriteCountExceeded(|spans|, maxWrites));
    }
    spans := SortBy(spans, SpanStart());
    var clash := FindClash(spans, SpanClash());
    if clash.Some? {
      return Err(RelocationShape("materialization destinations overlap"));
    }
    var apart := FoldLoop(spans, SpanStep(sealed_.layout.relocations, FinalWrites(writes)), ());
    if apart.Err? {
      return Err(apart.error);
    }
    return Ok(Materialized(total.value, spans));
  }

  // ----- what acceptance means -----

  predicate Separate(a: ByteRange, offset: nat, end: nat)
  {
    RangeEnd(a) <= offset || end <= a.offset
  }

  predicate SoundRelocation(x: Relocation, imageLength: nat)
  {
    && 0 < x.source.length == x.destination.length
    && RangeEnd(x.source) <= imageLength && RangeEnd(x.destination) <= imageLength
    && Separate(x.source, x.destination.offset, RangeEnd(x.destination))
  }

  ghost predicate ClearOfWrites(destination: ByteRange, writes: seq<OverlayWrite>)
  {
    forall w :: w in writes ==> Separate(destination, w.offset, EndOf(w))
  }

  lemma WritesClear(destination: ByteRange, writes: seq<OverlayWrite>, reason: string)
    requires Fold(writes, WriteStep(destination, reason), (), |writes|).Ok?
    ensures ClearOfWrites(destination, writes)
  {
    forall w | w in writes
      ensures Separate(destination, w.offset, EndOf(w))
    {
      var k :| 0 <= k < |writes| && writes[k] == w;
      var _ := FoldStepOk(writes, WriteStep(destination, reason), (), |writes|, k);
    }
  }

  lemma NoClashApart<T>(sorted: seq<T>, start: T -> int, end: T -> int, clash: (T, T) -> bool)
    requires SortedBy(sorted, start) && Nonempty(sorted, start, end)
    requires forall x, y :: clash(x, y) <==> end(x) > start(y)
    requires FirstClash(sorted, clash, Pairs(sorted)).None?
    ensures AllApart(sorted, start, end)
  {
    NeighboursIffAll(sorted, start, end);
    assert forall k :: 0 <= k < |sorted| - 1 ==> !clash(sorted[k], sorted[k + 1]);
  }

  ghost predicate SoundRelocations(sorted: seq<Relocation>, relocations: seq<Relocation>, imageLength: nat,
                                   writes: seq<OverlayWrite>)
  {
    && multiset(sorted) == multiset(relocations) && SortedBy(sorted, DestinationStart())
    && (forall x :: x in sorted ==> SoundRelocation(x, imageLength) && ClearOfWrites(x.destination, writes))
    && AllApart(sorted, DestinationStart(), DestinationEnd())
    && AllApart(relocations, SourceStart(), SourceEnd())
  }

  lemma RelocationsNonempty(relocations: seq<Relocation>, imageLength: nat, sealed_: Sealed, x: Relocation)
    requires Fold(relocations, RelocationStep(imageLength, sealed_), 0, |relocations|).Ok? && x in relocations
    ensures SoundRelocation(x, imageLength)
  {
    var k :| 0 <= k < |relocations| && relocations[k] == x;
    var total := FoldStepOk(relocations, RelocationStep(imageLength, sealed_), 0, |relocations|, k);
    assert CheckRelocation(imageLength, sealed_, x).Ok?;
  }

  /** Accepted relocations: every one inside the image, none onto itself or onto candidate metadata,
      no two sources and no two destinations sharing a byte, though only sorted neighbours were compared. */
  lemma RelocationsSound(imageLength: nat, sealed_: Sealed, writes: WriteSets, maxWrites: nat)
    requires ValidateRelocations(imageLength, sealed_, writes, maxWrites).Ok?
    ensures var r := ValidateRelocations(imageLength, sealed_, writes, maxWrites).value;
            SoundRelocations(r.sorted, sealed_.layout.relocations, imageLength, FinalWrites(writes))
  {
    hide Fold, SortedBy, AllApart, FinalWrites, SoundRelocation, ClearOfWrites;
    var relocations := sealed_.layout.relocations;
    var sorted, bySource := SortBy(relocations, DestinationStart()), SortBy(relocations, SourceStart());
    SortBySpec(relocations, DestinationStart());
    SortBySpec(relocations, SourceStart());
    SortByMembers(relocations, DestinationStart());
    SortByMembers(relocations, SourceStart());
    forall x | x in relocations
      ensures SoundRelocation(x, imageLength) && 0 < x.source.length && 0 < x.destination.length
    {
      RelocationsNonempty(relocations, imageLength, sealed_, x);
      SoundMeansNonempty(x, imageLength);
    }
    NoClashApart(sorted, DestinationStart(), DestinationEnd(), DestinationClash());
    NoClashApart(bySource, SourceStart(), SourceEnd(), SourceClash());
    ApartPermutes(bySource, relocations, SourceStart(), SourceEnd());
    forall x | x in sorted
      ensures ClearOfWrites(x.destination, FinalWrites(writes))
    {
      MetadataClear(sorted, FinalWrites(writes), x);
    }
  }

  lemma SoundMeansNonempty(x: Relocation, imageLength: nat)
    requires SoundRelocation(x, imageLength)
    ensures 0 < x.source.length && 0 < x.destination.length
  {
  }

  lemma MetadataClear(sorted: seq<Relocation>, writes: seq<OverlayWrite>, x: Relocation)
    requires Fold(sorted, RelocationMetadataStep(writes), (), |sorted|).Ok? && x in sorted
    ensures ClearOfWrites(x.destination, writes)
  {
    hide Fold, ClearOfWrites;
    var k :| 0 <= k < |sorted| && sorted[k] == x;
    var _ := FoldStepOk(sorted, RelocationMetadataStep(writes), (), |sorted|, k);
    WritesClear(x.destination, writes, METADATA_REASON);
  }

  ghost predicate SoundSpan(s: MaterializationSpan, imageLength: nat, relocations: seq<Relocation>,
                            writes: seq<OverlayWrite>)
  {
    && 0 < s.destination.length && RangeEnd(s.destination) <= imageLength && s.streamLength < U64_LIMIT
    && (forall x :: x in relocations ==> Separate(s.destination, x.destination.offset, RangeEnd(x.destination)))
    && ClearOfWrites(s.destination, writes)
  }

  ghost predicate SoundSpans(sorted: seq<MaterializationSpan>, spans: seq<MaterializationSpan>, imageLength: nat,
                             relocations: seq<Relocation>, writes: seq<OverlayWrite>)
  {
    && multiset(sorted) == multiset(spans) && SortedBy(sorted, SpanStart())
    && (forall s :: s in sorted ==> SoundSpan(s, imageLength, relocations, writes))
    && AllApart(sorted, SpanStart(), SpanEnd())
  }

  lemma {:induction false} SpanSource(materializations: seq<Materialization>, s: MaterializationSpan)
    returns (k: nat, j: nat)
    requires s in AllSpans(materializations)
    ensures k < |materializations| && j < |materializations[k].destinations| && s == SpanOf(materializations[k], j)
  {
    var front, last := materializations[..|materializations| - 1], materializations[|materializations| - 1];
    if s in AllSpans(front) {
      k, j := SpanSource(front, s);
    } else {
      k := |materializations| - 1;
      j :| 0 <= j < |SpansOf(last)| && SpansOf(last)[j] == s;
    }
  }

  lemma {:induction false} DestinationTotals(imageLength: nat, destinations: seq<ByteRange>, n: nat)
    requires n <= |destinations| && Fold(destinations, DestinationStep(imageLength), 0, n).Ok?
    ensures Fold(destinations, DestinationStep(imageLength), 0, n).value == LogicalStartOf(destinations, n) < U64_LIMIT
  {
    if n > 0 {
      DestinationTotals(imageLength, destinations, n - 1);
    }
  }

  lemma DestinationInside(imageLength: nat, sealed_: Sealed, materializations: seq<Materialization>,
                          s: MaterializationSpan)
    requires Fold(materializations, MaterializationStep(imageLength, sealed_), 0, |materializations|).Ok?
    requires s in AllSpans(materializations)
    ensures 0 < s.destination.length && RangeEnd(s.destination) <= imageLength && s.streamLength < U64_LIMIT
  {
    hide Fold, AllSpans;
    var k, j := SpanSource(materializations, s);
    var m := materializations[k];
    var total := FoldStepOk(materializations, MaterializationStep(imageLength, sealed_), 0, |materializations|, k);
    assert CheckMaterialization(imageLength, sealed_, m).Ok?;
    var logical := FoldStepOk(m.destinations, DestinationStep(imageLength), 0, |m.destinations|, j);
    DestinationTotals(imageLength, m.destinations, |m.destinations|);
  }

  lemma SpanChecked(sorted: seq<MaterializationSpan>, relocations: seq<Relocation>, writes: seq<OverlayWrite>,
                    s: MaterializationSpan)
    requires Fold(sorted, SpanStep(relocations, writes), (), |sorted|).Ok? && s in sorted
    ensures forall x :: x in relocations && 0 < x.destination.length ==>
              Separate(s.destination, x.destination.offset, RangeEnd(x.destination))
    ensures ClearOfWrites(s.destination, writes)
  {
    hide Fold, ClearOfWrites;
    var k :| 0 <= k < |sorted| && sorted[k] == s;
    var _ := FoldStepOk(sorted, SpanStep(relocations, writes), (), |sorted|, k);
    WritesClear(s.destination, writes, "materialization destination overlaps candidate metadata");
    forall x | x in relocations && 0 < x.destination.length
      ensures Separate(s.destination, x.destination.offset, RangeEnd(x.destination))
    {
      var i :| 0 <= i < |relocations| && relocations[i] == x;
      var _ := FoldStepOk(relocations, RelocationMeetStep(s.destination), (), |relocations|, i);
    }
  }

  /** Accepted materializations: every span inside the image, no two spans sharing a byte, and none
      touching a relocation destination or candidate metadata. */
  lemma MaterializationsSound(imageLength: nat, sealed_: Sealed, writes: WriteSets, maxWrites: nat)
    requires ValidateRelocations(imageLength, sealed_, writes, maxWrites).Ok?
    requires ValidateMaterializations(imageLength, sealed_, writes, maxWrites).Ok?
    ensures var r := ValidateMaterializations(imageLength, sealed_, writes, maxWrites).value;
            SoundSpans(r.sorted, AllSpans(sealed_.layout.materializations), imageLength, sealed_.layout.relocations,
                       FinalWrites(writes))
  {
    hide Fold, SortedBy, AllApart, FinalWrites, ClearOfWrites, AllSpans;
    var spans := AllSpans(sealed_.layout.materializations);
    var sorted := SortBy(spans, SpanStart());
    SortBySpec(spans, SpanStart());
    SortByMembers(spans, SpanStart());
    forall x | x in sealed_.layout.relocations
      ensures 0 < x.destination.length
    {
      RelocationsNonempty(sealed_.layout.relocations, imageLength, sealed_, x);
      SoundMeansNonempty(x, imageLength);
    }
    forall s | s in sorted
      ensures SoundSpan(s, imageLength, sealed_.layout.relocations, FinalWrites(writes))
    {
      DestinationInside(imageLength, sealed_, sealed_.layout.materializations, s);
      SpanChecked(sorted, sealed_.layout.relocations, FinalWrites(writes), s);
    }
    NoClashApart(sorted, SpanStart(), SpanEnd(), SpanClash());
  }
}
