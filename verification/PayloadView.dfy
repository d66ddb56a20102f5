/**
 The virtual view of the finished candidate: reads over the immutable source, redirected by binary
 search through the validated relocations and materializations.
 */
module PayloadView {
  import opened Results
  import opened Bytes
  import opened Sorting
  import opened Images
  import opened Payloads
  import opened RollbackPlan
  import opened ExportPlan
  import opened CandidateExport
  import Extents

  /** `partition_point(|item| key(item) <= bound)` on `s[lo..hi]`, by halving. */
  function PartitionPoint<T>(s: seq<T>, key: T -> int, bound: int, lo: nat, hi: nat): (r: nat)
    requires lo <= hi <= |s|
    ensures lo <= r <= hi
    ensures lo < r ==> key(s[r - 1]) <= bound
    decreases hi - lo
  {
    if lo == hi then
      lo
    else
      var mid := (lo + hi) / 2;
      if key(s[mid]) <= bound then PartitionPoint(s, key, bound, mid + 1, hi)
          else PartitionPoint(s, key, bound, lo, mid)
  }

  /** On sorted items the search splits them exactly at the bound. */
  lemma {:induction false} PartitionPointSplits<T>(s: seq<T>, key: T -> int, bound: int, lo: nat, hi: nat, k: nat)
    requires lo <= hi <= |s| && SortedBy(s, key) && k < |s|
    requires k < lo ==> key(s[k]) <= bound
    requires hi <= k ==> key(s[k]) > bound
    ensures k < PartitionPoint(s, key, bound, lo, hi) <==> key(s[k]) <= bound
    decreases hi - lo
  {
    if lo < hi {
      var mid := (lo + hi) / 2;
      if key(s[mid]) <= bound {
        PartitionPointSplits(s, key, bound, mid + 1, hi, k);
      } else {
        PartitionPointSplits(s, key, bound, lo, mid, k);
      }
    }
  }

  /** Among sorted disjoint ranges the search finds the one holding the offset, and no other. */
  lemma SearchFinds<T>(s: seq<T>, start: T -> int, end: T -> int, i: nat, offset: int)
    requires SortedBy(s, start) && AllApart(s, start, end) && i < |s|
    requires start(s[i]) <= offset < end(s[i])
    requires forall k :: 0 <= k < |s| ==> start(s[k]) < end(s[k])
    ensures PartitionPoint(s, start, offset, 0, |s|) == i + 1
  {
    PartitionPointSplits(s, start, offset, 0, |s|, i);
    if i + 1 < |s| {
      assert Apart(s[i], s[i + 1], start, end);
      PartitionPointSplits(s, start, offset, 0, |s|, i + 1);
    }
  }

  datatype Redirected = Redirected(
    image: SourceImage,
    relocations: seq<Relocation>,
    spans: seq<MaterializationSpan>,
    graph: Option<SourceGraph>)

  function CoveringMaterialization(spans: seq<MaterializationSpan>, offset: nat, end: nat)
    : (r: Option<MaterializationSpan>)
    ensures r.Some? ==> r.value in spans && end <= RangeEnd(r.value.destination)
  {
    var position := PartitionPoint(spans, SpanStart(), offset, 0, |spans|);
    if position > 0 && RangeEnd(spans[position - 1].destination) < U64_LIMIT
       && end <= RangeEnd(spans[position - 1].destination) then
      Some(spans[position - 1])
    else
      None
  }

  function ReadMaterialized(image: SourceImage, graph: SourceGraph, span: MaterializationSpan, offset: nat, length: nat)
    : Result<seq<Byte>, ExportError>
  {
    if offset < span.destination.offset then
      Err(RelocationShape("materialization read is before its destination"))
    else
      var logical := span.logicalOffset + (offset - span.destination.offset);
      if logical >= U64_LIMIT then
        Err(ExportOverflow("materialization read logical offset"))
      else
        var payload :- Reconstruct(image, graph, span.stream, span.streamLength);
        if logical + length > |payload| then
          Err(RelocationShape("materialization read exceeds destination"))
        else
          Ok(payload[logical..logical + length])
  }

  function ReadRelocated(view: Redirected, offset: nat, length: nat): Result<seq<Byte>, ExportError>
  {
    var position := PartitionPoint(view.relocations, DestinationStart(), offset, 0, |view.relocations|);
    if position == 0 then
      ReadExact(view.image, offset, length)
    else
      var x := view.relocations[position - 1];
      if RangeEnd(x.destination) >= U64_LIMIT then
        Err(RangeOverflow(x.destination.offset, x.destination.length))
      else if offset + length > RangeEnd(x.destination) then
        ReadExact(view.image, offset, length)
      else if x.source.offset + (offset - x.destination.offset) >= U64_LIMIT then
        Err(RangeOverflow(x.source.offset, offset - x.destination.offset))
      else
        ReadExact(view.image, x.source.offset + (offset - x.destination.offset), length)
  }

  /** `RelocatedSourceView::read_exact_at`. */
  function ReadView(view: Redirected, offset: nat, length: nat): Result<seq<Byte>, ExportError>
  {
    if offset + length >= U64_LIMIT then
      Err(RangeOverflow(offset, length))
    else
      var covering := if view.graph.Some? then CoveringMaterialization(view.spans, offset, offset + length) else None;
      if covering.Some? then
        match ReadMaterialized(view.image, view.graph.value, covering.value, offset, length)
        case Ok(bytes) => Ok(bytes)
        case Err(_) => Err(RangeOverflow(offset, length))
      else
        ReadRelocated(view, offset, length)
  }

  // ----- an export that passed its checks -----

  /** Everything one export is given. */
  datatype Job = Job(image: SourceImage, plan: Sealed, writes: WriteSets, limits: ExportLimits)

  datatype Checked = Checked(relocated: Relocated, materialized: Materialized, count: nat, bytes: nat)

  /** Every check made before the first byte is written, in order. */
  function CheckExport(job: Job): Result<Checked, ExportError>
  {
    var preview :- ValidatePreview(job.image, job.writes, job.limits);
    var relocated :- ValidateRelocations(|job.image.bytes|, job.plan, job.writes, job.limits.maxWrites);
    var materialized :- ValidateMaterializations(|job.image.bytes|, job.plan, job.writes, job.limits.maxWrites);
    var count := preview.count + relocated.count + |materialized.sorted|;
    var bytes := preview.bytes + relocated.bytes + materialized.bytes;
    if count > USIZE_MAX then Err(ExportOverflow("candidate operation count"))
    else if bytes >= U64_LIMIT then Err(ExportOverflow("candidate replacement byte total"))
    else if count > job.limits.maxWrites then Err(WriteCountExceeded(count, job.limits.maxWrites))
    else if bytes > job.limits.maxReplacementBytes
        then Err(ReplacementBytesExceeded(bytes, job.limits.maxReplacementBytes))
    else Ok(Checked(relocated, materialized, count, bytes))
  }

  /** Every check passed and every stream could be reconstructed. */
  ghost predicate Exportable(job: Job)
  {
    && CheckExport(job).Ok?
    && MaterializationWrites(job.image, job.plan.sourceGraph, job.plan.layout.materializations).Ok?
  }

  /** The view the exporter reads its expected manifest through. */
  function ViewOf(job: Job): Redirected
    requires CheckExport(job).Ok?
  {
    var checked := CheckExport(job).value;
    Redirected(job.image, checked.relocated.sorted, checked.materialized.sorted, Some(job.plan.sourceGraph))
  }

  /** All destination spans, and the writes that fill them. */
  function SpansIn(job: Job): seq<MaterializationSpan>
  {
    AllSpans(job.plan.layout.materializations)
  }

  function PayloadsIn(job: Job): seq<OverlayWrite>
    requires MaterializationWrites(job.image, job.plan.sourceGraph, job.plan.layout.materializations).Ok?
  {
    MaterializationWrites(job.image, job.plan.sourceGraph, job.plan.layout.materializations).value
  }

  /** What was found out about the layout, without the checks that found it. */
  ghost predicate Consistent(view: Redirected, spans: seq<MaterializationSpan>, payloads: seq<OverlayWrite>,
                             writes: seq<OverlayWrite>)
  {
    && view.graph.Some?
    && SoundRelocations(view.relocations, view.relocations, |view.image.bytes|, writes)
    && SoundSpans(view.spans, spans, |view.image.bytes|, view.relocations, writes)
    && |payloads| == |spans|
    && (forall k :: 0 <= k < |spans| ==> WritesSpan(view.image, view.graph.value, payloads[k], spans[k]))
    && AllFit(writes, |view.image.bytes|)
  }

  /** The write carries the part of the reconstructed stream that belongs to the span. */
  ghost predicate WritesSpan(image: SourceImage, graph: SourceGraph, w: OverlayWrite, s: MaterializationSpan)
  {
    && w.offset == s.destination.offset
    && Reconstruct(image, graph, s.stream, s.streamLength).Ok?
    && s.logicalOffset + s.destination.length <= s.streamLength
    && w.bytes == Reconstruct(image, graph, s.stream,
        s.streamLength).value[s.logicalOffset..s.logicalOffset + s.destination.length]
  }

  /** Scattering: the writes of the materializations are, span by span, the streams' own bytes. */
  lemma {:induction false} ScatterBySpan(image: SourceImage, graph: SourceGraph, materializations: seq<Materialization>)
    requires MaterializationWrites(image, graph, materializations).Ok?
    ensures var ws, spans := MaterializationWrites(image, graph, materializations).value, AllSpans(materializations);
            |ws| == |spans| && forall k :: 0 <= k < |spans| ==> WritesSpan(image, graph, ws[k], spans[k])
  {
    hide Reconstruct;
    if materializations != [] {
      var front, last := materializations[..|materializations| - 1], materializations[|materializations| - 1];
      ScatterBySpan(image, graph, front);
      var payload := Reconstruct(image, graph, last.stream, TotalLength(last.destinations)).value;
      forall j | 0 <= j < |last.destinations|
        ensures WritesSpan(image, graph, SpanWrites(payload, last)[j], SpansOf(last)[j])
      {
        LogicalStartGrows(last.destinations, j, |last.destinations|);
      }
    }
  }

  lemma PermutedSound(sorted: seq<Relocation>, relocations: seq<Relocation>, spans: seq<MaterializationSpan>,
                      all: seq<MaterializationSpan>, imageLength: nat, writes: seq<OverlayWrite>)
    requires SoundRelocations(sorted, relocations, imageLength, writes)
    requires SoundSpans(spans, all, imageLength, relocations, writes)
    ensures SoundRelocations(sorted, sorted, imageLength, writes)
    ensures SoundSpans(spans, all, imageLength, sorted, writes)
  {
    hide AllApart, SortedBy, SoundRelocation, ClearOfWrites, Separate;
    ApartPermutes(relocations, sorted, SourceStart(), SourceEnd());
    forall x
      ensures x in sorted <==> x in relocations
    {
      MultisetMember(sorted, relocations, x);
    }
  }

  lemma CheckedParts(job: Job)
    requires CheckExport(job).Ok?
    ensures ValidatePreview(job.image, job.writes, job.limits).Ok?
    ensures ValidateRelocations(|job.image.bytes|, job.plan, job.writes, job.limits.maxWrites)
              == Ok(CheckExport(job).value.relocated)
    ensures ValidateMaterializations(|job.image.bytes|, job.plan, job.writes, job.limits.maxWrites)
         == Ok(CheckExport(job).value.materialized)
  {
    hide ValidatePreview, ValidateRelocations, ValidateMaterializations;
  }

  lemma ExportableIsConsistent(job: Job)
    requires Exportable(job)
    ensures Consistent(ViewOf(job), SpansIn(job), PayloadsIn(job), FinalWrites(job.writes))
  {
    hide CheckExport, ValidatePreview, ValidateRelocations, ValidateMaterializations, MaterializationWrites, AllSpans,
         FinalWrites, AllFit, SoundRelocations, SoundSpans, WritesSpan, TakenFrom, Spans;
    var image := job.image;
    var checked := CheckExport(job).value;
    CheckedParts(job);
    PreviewSound(image, job.writes, job.limits);
    RelocationsSound(|image.bytes|, job.plan, job.writes, job.limits.maxWrites);
    MaterializationsSound(|image.bytes|, job.plan, job.writes, job.limits.maxWrites);
    ScatterBySpan(image, job.plan.sourceGraph, job.plan.layout.materializations);
    PermutedSound(checked.relocated.sorted, job.plan.layout.relocations, checked.materialized.sorted, SpansIn(job),
                  |image.bytes|, FinalWrites(job.writes));
  }

  // ----- the candidate at one position -----

  lemma SoundMeansInImage(x: Relocation, imageLength: nat)
    requires SoundRelocation(x, imageLength)
    ensures InImage(x, imageLength)
  {
  }

  lemma RelocatedPairApart(view: Redirected, i: nat, j: nat)
    requires forall x :: x in view.relocations ==> InImage(x, |view.image.bytes|)
    requires AllApart(view.relocations, DestinationStart(), DestinationEnd()) && i < j < |view.relocations|
    ensures var moved := RelocationWrites(view.image, view.relocations);
            Apart(moved[i], moved[j], ByOffset(), ByEnd())
  {
    assert Apart(view.relocations[i], view.relocations[j], DestinationStart(), DestinationEnd());
    assert view.relocations[i] in view.relocations && view.relocations[j] in view.relocations;
  }

  lemma ScatteredPairApart(view: Redirected, spans: seq<MaterializationSpan>, payloads: seq<OverlayWrite>, i: nat,
                           j: nat)
    requires view.graph.Some? && |payloads| == |spans| && i < j < |spans| && AllApart(spans, SpanStart(), SpanEnd())
    requires WritesSpan(view.image, view.graph.value, payloads[i], spans[i])
    requires WritesSpan(view.image, view.graph.value, payloads[j], spans[j])
    ensures Apart(payloads[i], payloads[j], ByOffset(), ByEnd())
  {
    hide Reconstruct;
    assert Apart(spans[i], spans[j], SpanStart(), SpanEnd());
  }

  lemma MixedPairApart(view: Redirected, spans: seq<MaterializationSpan>, payloads: seq<OverlayWrite>,
                       writes: seq<OverlayWrite>, i: nat, j: nat)
    requires Consistent(view, spans, payloads, writes) && i < |view.relocations| && j < |spans|
    requires InImage(view.relocations[i], |view.image.bytes|)
    ensures Apart(RelocationWrite(view.image, view.relocations[i]), payloads[j], ByOffset(), ByEnd())
  {
    hide Reconstruct, SortedBy, AllApart, AllFit, ClearOfWrites;
    MultisetMember(view.spans, spans, spans[j]);
    assert WritesSpan(view.image, view.graph.value, payloads[j], spans[j]);
    assert SoundSpan(spans[j], |view.image.bytes|, view.relocations, writes);
    assert view.relocations[i] in view.relocations;
  }

  lemma PayloadsFit(view: Redirected, spans: seq<MaterializationSpan>, payloads: seq<OverlayWrite>,
                    writes: seq<OverlayWrite>)
    requires Consistent(view, spans, payloads, writes)
    ensures AllFit(payloads, |view.image.bytes|)
  {
    hide Reconstruct, SortedBy, AllApart, SoundRelocations;
    forall w | w in payloads
      ensures Fits(w, |view.image.bytes|)
    {
      var k :| 0 <= k < |payloads| && payloads[k] == w;
      assert WritesSpan(view.image, view.graph.value, payloads[k], spans[k]);
      MultisetMember(view.spans, spans, spans[k]);
      assert SoundSpan(spans[k], |view.image.bytes|, view.relocations, writes);
    }
  }

  lemma RelocationsInImage(view: Redirected, spans: seq<MaterializationSpan>, payloads: seq<OverlayWrite>,
                           writes: seq<OverlayWrite>)
    requires Consistent(view, spans, payloads, writes)
    ensures forall x :: x in view.relocations ==> InImage(x, |view.image.bytes|)
  {
    hide SoundSpans, WritesSpan, SortedBy, AllApart, ClearOfWrites;
    forall x | x in view.relocations
      ensures InImage(x, |view.image.bytes|)
    {
      SoundMeansInImage(x, |view.image.bytes|);
    }
  }

  /** All payload writes, relocated and materialized, fit and touch different bytes. */
  lemma PayloadWritesDisjoint(view: Redirected, spans: seq<MaterializationSpan>, payloads: seq<OverlayWrite>,
                              writes: seq<OverlayWrite>)
    requires Consistent(view, spans, payloads, writes)
    ensures forall x :: x in view.relocations ==> InImage(x, |view.image.bytes|)
    ensures var moved := RelocationWrites(view.image, view.relocations);
            DisjointWrites(moved + payloads) && AllFit(moved, |view.image.bytes|)
                && AllFit(payloads, |view.image.bytes|)
  {
    hide AllFit, WritesSpan, SoundRelocation, SoundSpan, SortedBy, DisjointWrites, InImage, RelocationWrite;
    RelocationsInImage(view, spans, payloads, writes);
    var moved := RelocationWrites(view.image, view.relocations);
    var ws := moved + payloads;
    ApartPermutes(view.spans, spans, SpanStart(), SpanEnd());
    forall i, j | 0 <= i < j < |ws|
      ensures Apart(ws[i], ws[j], ByOffset(), ByEnd())
    {
      if j < |moved| {
        RelocatedPairApart(view, i, j);
      } else if i < |moved| {
        MixedPairApart(view, spans, payloads, writes, i, j - |moved|);
      } else {
        ScatteredPairApart(view, spans, payloads, i - |moved|, j - |moved|);
      }
    }
    ApartWritesDisjoint(ws);
    RelocationsFit(view.image, view.relocations);
    PayloadsFit(view, spans, payloads, writes);
  }

  /** The finished candidate of a consistent layout. */
  ghost function Finished(view: Redirected, spans: seq<MaterializationSpan>, payloads: seq<OverlayWrite>,
                          writes: seq<OverlayWrite>): (r: seq<Byte>)
    requires Consistent(view, spans, payloads, writes)
    ensures |r| == |view.image.bytes|
  {
    RelocationsInImage(view, spans, payloads, writes);
    PayloadsFit(view, spans, payloads, writes);
    Candidate(view.image, view.relocations, payloads, writes)
  }

  lemma ClearMeansUncovered(destination: ByteRange, writes: seq<OverlayWrite>, position: nat)
    requires ClearOfWrites(destination, writes) && destination.offset <= position < RangeEnd(destination)
    ensures !Covered(writes, position)
  {
  }

  /** A position of a payload write, clear of the metadata, ends up holding that write's byte. */
  lemma PayloadLands(view: Redirected, spans: seq<MaterializationSpan>, payloads: seq<OverlayWrite>,
                     writes: seq<OverlayWrite>, w: OverlayWrite, position: nat)
    requires Consistent(view, spans, payloads, writes)
    requires (forall x :: x in view.relocations ==> InImage(x, |view.image.bytes|))
             && w in RelocationWrites(view.image, view.relocations) + payloads
    requires Covers(w, position) && !Covered(writes, position)
    ensures position < |view.image.bytes|
    ensures Finished(view, spans, payloads, writes)[position] == w.bytes[position - w.offset]
  {
    hide Consistent, RelocationWrites, WritesSpan, ApplyAll, DisjointWrites, AllFit, Covered;
    var moved := RelocationWrites(view.image, view.relocations);
    PayloadWritesDisjoint(view, spans, payloads, writes);
    ApplyAllConcat(view.image.bytes, moved, payloads);
    CoveredWritten(view.image.bytes, moved + payloads, w, position);
    ConsistentFits(view, spans, payloads, writes);
    UncoveredKept(PayloadCandidate(view.image, view.relocations, payloads), writes, position);
  }

  lemma ConsistentFits(view: Redirected, spans: seq<MaterializationSpan>, payloads: seq<OverlayWrite>,
                       writes: seq<OverlayWrite>)
    requires Consistent(view, spans, payloads, writes)
    ensures AllFit(writes, |view.image.bytes|)
  {
  }

  /** A position no write covers keeps the source byte. */
  lemma UntouchedStays(view: Redirected, spans: seq<MaterializationSpan>, payloads: seq<OverlayWrite>,
                       writes: seq<OverlayWrite>, position: nat)
    requires Consistent(view, spans, payloads, writes)
    requires forall x :: x in view.relocations ==> InImage(x, |view.image.bytes|)
    requires position < |view.image.bytes| && !Covered(writes, position)
    requires !Covered(RelocationWrites(view.image, view.relocations) + payloads, position)
    ensures Finished(view, spans, payloads, writes)[position] == view.image.bytes[position]
  {
    hide Consistent, RelocationWrites, WritesSpan, ApplyAll, DisjointWrites, AllFit, Covered;
    var moved := RelocationWrites(view.image, view.relocations);
    PayloadWritesDisjoint(view, spans, payloads, writes);
    ApplyAllConcat(view.image.bytes, moved, payloads);
    UncoveredKept(view.image.bytes, moved + payloads, position);
    ConsistentFits(view, spans, payloads, writes);
    UncoveredKept(PayloadCandidate(view.image, view.relocations, payloads), writes, position);
  }

  // ----- the view against the candidate -----

  predicate Inside(r: ByteRange, offset: nat, length: nat)
  {
    r.offset <= offset && offset + length <= RangeEnd(r)
  }

  /** The read lies inside one relocation destination or one materialization span. */
  ghost predicate InsideOne(view: Redirected, offset: nat, length: nat)
  {
    || (exists i :: 0 <= i < |view.relocations| && Inside(view.relocations[i].destination, offset, length))
    || (exists i :: 0 <= i < |view.spans| && Inside(view.spans[i].destination, offset, length))
  }

  /** The read meets no destination and no candidate metadata. */
  ghost predicate AwayFromAll(view: Redirected, writes: seq<OverlayWrite>, offset: nat, length: nat)
  {
    && (forall x :: x in view.relocations ==> Separate(x.destination, offset, offset + length))
    && (forall s :: s in view.spans ==> Separate(s.destination, offset, offset + length))
    && (forall position: nat :: offset <= position < offset + length ==> !Covered(writes, position))
  }

  lemma SpanRanges(view: Redirected, spans: seq<MaterializationSpan>, writes: seq<OverlayWrite>)
    requires SoundSpans(view.spans, spans, |view.image.bytes|, view.relocations, writes)
    ensures forall k :: 0 <= k < |view.spans| ==> SpanStart()(view.spans[k]) < SpanEnd()(view.spans[k])
    ensures SortedBy(view.spans, SpanStart()) && AllApart(view.spans, SpanStart(), SpanEnd())
    ensures forall k :: 0 <= k < |view.spans| ==> SoundSpan(view.spans[k], |view.image.bytes|, view.relocations, writes)
  {
    hide SortedBy, AllApart, ClearOfWrites;
    forall k | 0 <= k < |view.spans|
      ensures SoundSpan(view.spans[k], |view.image.bytes|, view.relocations, writes)
    {
      assert view.spans[k] in view.spans;
    }
  }

  lemma RelocationRanges(view: Redirected, writes: seq<OverlayWrite>)
    requires SoundRelocations(view.relocations, view.relocations, |view.image.bytes|, writes)
    ensures forall k :: 0 <= k < |view.relocations| ==>
              DestinationStart()(view.relocations[k]) < DestinationEnd()(view.relocations[k])
    ensures SortedBy(view.relocations, DestinationStart())
              && AllApart(view.relocations, DestinationStart(), DestinationEnd())
    ensures forall k :: 0 <= k < |view.relocations| ==>
              SoundRelocation(view.relocations[k], |view.image.bytes|)
              && ClearOfWrites(view.relocations[k].destination, writes)
  {
    hide SortedBy, AllApart, ClearOfWrites;
    forall k | 0 <= k < |view.relocations|
      ensures SoundRelocation(view.relocations[k], |view.image.bytes|)
                && ClearOfWrites(view.relocations[k].destination, writes)
    {
      assert view.relocations[k] in view.relocations;
    }
  }

  /** Inside a span the view reconstructs the stream and cuts out the span's own part. */
  lemma SpanRead(view: Redirected, spans: seq<MaterializationSpan>, payloads: seq<OverlayWrite>,
                 writes: seq<OverlayWrite>,
                 i: nat, offset: nat, length: nat)
    requires Consistent(view, spans, payloads, writes) && i < |view.spans| && length > 0
    requires Inside(view.spans[i].destination, offset, length)
    ensures exists w :: w in payloads && w.offset == view.spans[i].destination.offset
              && |w.bytes| == view.spans[i].destination.length
              && ReadView(view, offset, length) == Ok(w.bytes[offset - w.offset..offset - w.offset + length])
  {
    hide Reconstruct, SortedBy, AllApart, SoundSpan, SoundRelocations, PartitionPoint;
    var s := view.spans[i];
    SpanRanges(view, spans, writes);
    SearchFinds(view.spans, SpanStart(), SpanEnd(), i, offset);
    SpanBounded(s, |view.image.bytes|, view.relocations, writes);
    MultisetMember(view.spans, spans, s);
    var k :| 0 <= k < |spans| && spans[k] == s;
    var w := payloads[k];
    assert WritesSpan(view.image, view.graph.value, w, s);
    var payload := Reconstruct(view.image, view.graph.value, s.stream, s.streamLength).value;
    assert CoveringMaterialization(view.spans, offset, offset + length) == Some(s);
    var at := s.logicalOffset + (offset - s.destination.offset);
    SliceOfSlice(payload, s.logicalOffset, s.logicalOffset + s.destination.length, offset - w.offset, length);
    assert w in payloads;
  }

  lemma SpanBounded(s: MaterializationSpan, imageLength: nat, relocations: seq<Relocation>, writes: seq<OverlayWrite>)
    requires SoundSpan(s, imageLength, relocations, writes)
    ensures RangeEnd(s.destination) <= imageLength && s.streamLength < U64_LIMIT
  {
  }

  /** No span covers a read inside a relocation destination. */
  lemma NoSpanCovers(view: Redirected, spans: seq<MaterializationSpan>, payloads: seq<OverlayWrite>,
                     writes: seq<OverlayWrite>,
                     i: nat, offset: nat, length: nat)
    requires Consistent(view, spans, payloads, writes) && i < |view.relocations| && length > 0
    requires Inside(view.relocations[i].destination, offset, length)
    ensures CoveringMaterialization(view.spans, offset, offset + length).None?
  {
    hide WritesSpan, SoundRelocations, SortedBy, AllApart, ClearOfWrites;
    var x := view.relocations[i];
    forall k | 0 <= k < |view.spans| && view.spans[k].destination.offset <= offset
      ensures offset + length > RangeEnd(view.spans[k].destination)
    {
      assert SoundSpan(view.spans[k], |view.image.bytes|, view.relocations, writes);
      assert x in view.relocations;
    }
  }

  /** Inside a relocation destination the view reads the matching source bytes. */
  lemma RelocationRead(view: Redirected, spans: seq<MaterializationSpan>, payloads: seq<OverlayWrite>,
                       writes: seq<OverlayWrite>,
                       i: nat, offset: nat, length: nat)
    requires Consistent(view, spans, payloads, writes) && i < |view.relocations| && 0 < length <= view.image.maxRead
    requires Inside(view.relocations[i].destination, offset, length)
    ensures InImage(view.relocations[i], |view.image.bytes|)
    ensures var w := RelocationWrite(view.image, view.relocations[i]);
            ReadView(view, offset, length) == Ok(w.bytes[offset - w.offset..offset - w.offset + length])
  {
    hide WritesSpan, SoundSpans, SortedBy, AllApart, PartitionPoint, ClearOfWrites;
    var x := view.relocations[i];
    RelocationRanges(view, writes);
    SearchFinds(view.relocations, DestinationStart(), DestinationEnd(), i, offset);
    NoSpanCovers(view, spans, payloads, writes, i, offset, length);
    SliceOfSlice(view.image.bytes, x.source.offset, RangeEnd(x.source), offset - x.destination.offset, length);
  }

  /** What a payload write promises about its own range of the candidate. */
  lemma RangeLands(view: Redirected, spans: seq<MaterializationSpan>, payloads: seq<OverlayWrite>,
                   writes: seq<OverlayWrite>,
                   w: OverlayWrite, destination: ByteRange, offset: nat, length: nat)
    requires Consistent(view, spans, payloads, writes)
    requires (forall x :: x in view.relocations ==> InImage(x, |view.image.bytes|))
             && w in RelocationWrites(view.image, view.relocations) + payloads
    requires w.offset == destination.offset && |w.bytes| == destination.length
    requires ClearOfWrites(destination, writes) && Inside(destination, offset, length) && length > 0
    ensures offset + length <= |view.image.bytes|
    ensures Finished(view, spans, payloads, writes)[offset..offset + length]
         == w.bytes[offset - w.offset..offset - w.offset + length]
  {
    hide Consistent, RelocationWrites, Finished, ClearOfWrites, Covered;
    forall position: nat | offset <= position < offset + length
      ensures position < |view.image.bytes|
      ensures Finished(view, spans, payloads, writes)[position] == w.bytes[position - w.offset]
    {
      ClearMeansUncovered(destination, writes, position);
      PayloadLands(view, spans, payloads, writes, w, position);
    }
    ClearMeansUncovered(destination, writes, offset + length - 1);
    PayloadLands(view, spans, payloads, writes, w, offset + length - 1);
  }

  lemma InsideRefines(view: Redirected, spans: seq<MaterializationSpan>, payloads: seq<OverlayWrite>,
                      writes: seq<OverlayWrite>,
                      offset: nat, length: nat)
    requires Consistent(view, spans, payloads, writes) && 0 < length <= view.image.maxRead
    requires InsideOne(view, offset, length)
    ensures offset + length <= |view.image.bytes|
    ensures ReadView(view, offset, length) == Ok(Finished(view, spans, payloads, writes)[offset..offset + length])
  {
    hide Consistent, Finished, ReadView, WritesSpan, RelocationWrite;
    RelocationsInImage(view, spans, payloads, writes);
    if i :| 0 <= i < |view.relocations| && Inside(view.relocations[i].destination, offset, length) {
      RelocationRead(view, spans, payloads, writes, i, offset, length);
      var w := RelocationWrite(view.image, view.relocations[i]);
      assert RelocationWrites(view.image, view.relocations)[i] == w;
      RelocationWriteShape(view, writes, spans, payloads, i);
      RangeLands(view, spans, payloads, writes, w, view.relocations[i].destination, offset, length);
    } else {
      var i :| 0 <= i < |view.spans| && Inside(view.spans[i].destination, offset, length);
      SpanRead(view, spans, payloads, writes, i, offset, length);
      var w :| w in payloads && w.offset == view.spans[i].destination.offset
        && |w.bytes| == view.spans[i].destination.length
        && ReadView(view, offset, length) == Ok(w.bytes[offset - w.offset..offset - w.offset + length]);
      SpanClear(view, spans, payloads, writes, i);
      RangeLands(view, spans, payloads, writes, w, view.spans[i].destination, offset, length);
    }
  }

  lemma RelocationWriteShape(view: Redirected, writes: seq<OverlayWrite>, spans: seq<MaterializationSpan>,
                             payloads: seq<OverlayWrite>, i: nat)
    requires Consistent(view, spans, payloads, writes) && i < |view.relocations|
    requires InImage(view.relocations[i], |view.image.bytes|)
    ensures var w := RelocationWrite(view.image, view.relocations[i]);
            w.offset == view.relocations[i].destination.offset && |w.bytes| == view.relocations[i].destination.length
    ensures ClearOfWrites(view.relocations[i].destination, writes)
  {
    hide ClearOfWrites, SortedBy, AllApart, SoundSpans, WritesSpan;
    RelocationRanges(view, writes);
  }

  lemma SpanClear(view: Redirected, spans: seq<MaterializationSpan>, payloads: seq<OverlayWrite>,
                  writes: seq<OverlayWrite>, i: nat)
    requires Consistent(view, spans, payloads, writes) && i < |view.spans|
    ensures ClearOfWrites(view.spans[i].destination, writes)
  {
    hide ClearOfWrites, SortedBy, AllApart, SoundRelocations, WritesSpan;
    SpanRanges(view, spans, writes);
  }

  lemma NotInsideUncovered(spans: seq<MaterializationSpan>, offset: nat, length: nat)
    requires forall i :: 0 <= i < |spans| ==> !Inside(spans[i].destination, offset, length)
    ensures CoveringMaterialization(spans, offset, offset + length).None?
  {
    var p := PartitionPoint(spans, SpanStart(), offset, 0, |spans|);
    if p > 0 {
      assert !Inside(spans[p - 1].destination, offset, length);
    }
  }

  lemma NotInsideRaw(view: Redirected, writes: seq<OverlayWrite>, offset: nat, length: nat)
    requires SoundRelocations(view.relocations, view.relocations, |view.image.bytes|, writes)
    requires forall i :: 0 <= i < |view.relocations| ==> !Inside(view.relocations[i].destination, offset, length)
    ensures ReadRelocated(view, offset, length) == ReadExact(view.image, offset, length)
  {
    hide SortedBy, AllApart, ClearOfWrites, ReadExact;
    RelocationRanges(view, writes);
    var q := PartitionPoint(view.relocations, DestinationStart(), offset, 0, |view.relocations|);
    if q > 0 {
      assert !Inside(view.relocations[q - 1].destination, offset, length);
    }
  }

  /** Outside every single destination the view falls back to the raw source. */
  lemma ElsewhereIsRaw(view: Redirected, spans: seq<MaterializationSpan>, payloads: seq<OverlayWrite>,
                       writes: seq<OverlayWrite>,
                       offset: nat, length: nat)
    requires Consistent(view, spans, payloads, writes) && length > 0
    requires !InsideOne(view, offset, length)
    ensures ReadView(view, offset, length) == ReadExact(view.image, offset, length)
  {
    hide WritesSpan, SoundSpans, SoundRelocations, Inside, ReadRelocated, CoveringMaterialization;
    NotInsideUncovered(view.spans, offset, length);
    NotInsideRaw(view, writes, offset, length);
  }

  lemma AwayKeepsSource(view: Redirected, spans: seq<MaterializationSpan>, payloads: seq<OverlayWrite>,
                        writes: seq<OverlayWrite>,
                        offset: nat, length: nat)
    requires Consistent(view, spans, payloads, writes) && offset + length <= |view.image.bytes|
    requires AwayFromAll(view, writes, offset, length)
    ensures Finished(view, spans, payloads, writes)[offset..offset + length]
              == view.image.bytes[offset..offset + length]
  {
    hide Consistent, Finished, RelocationWrites, WritesSpan, Covered;
    RelocationsInImage(view, spans, payloads, writes);
    forall position: nat | offset <= position < offset + length
      ensures Finished(view, spans, payloads, writes)[position] == view.image.bytes[position]
    {
      AwayUncovered(view, spans, payloads, writes, offset, length, position);
      UntouchedStays(view, spans, payloads, writes, position);
    }
  }

  lemma AwayUncovered(view: Redirected, spans: seq<MaterializationSpan>, payloads: seq<OverlayWrite>,
                      writes: seq<OverlayWrite>,
                      offset: nat, length: nat, position: nat)
    requires Consistent(view, spans, payloads, writes)
    requires forall x :: x in view.relocations ==> InImage(x, |view.image.bytes|)
    requires AwayFromAll(view, writes, offset, length) && offset <= position < offset + length
    ensures !Covered(RelocationWrites(view.image, view.relocations) + payloads, position)
  {
    hide SortedBy, AllApart, ClearOfWrites, Reconstruct, SoundRelocations;
    var moved := RelocationWrites(view.image, view.relocations);
    forall w | w in moved + payloads
      ensures !Covers(w, position)
    {
      if w in moved {
        var k :| 0 <= k < |moved| && moved[k] == w;
        assert view.relocations[k] in view.relocations;
      } else {
        var k :| 0 <= k < |payloads| && payloads[k] == w;
        assert WritesSpan(view.image, view.graph.value, payloads[k], spans[k]);
        MultisetMember(view.spans, spans, spans[k]);
      }
    }
  }

  /** The finished candidate of an exportable job. */
  ghost function Exported(job: Job): (r: seq<Byte>)
    requires Exportable(job)
    ensures |r| == |job.image.bytes|
  {
    ExportableIsConsistent(job);
    Finished(ViewOf(job), SpansIn(job), PayloadsIn(job), FinalWrites(job.writes))
  }

  lemma CoveredReads(view: Redirected, spans: seq<MaterializationSpan>, payloads: seq<OverlayWrite>,
                     writes: seq<OverlayWrite>,
                     offset: nat)
    requires Consistent(view, spans, payloads, writes)
    ensures var covering := CoveringMaterialization(view.spans, offset, offset);
            covering.Some? ==>
              offset <= |view.image.bytes|
              && ReadMaterialized(view.image, view.graph.value, covering.value, offset, 0) == Ok([])
  {
    hide Reconstruct, SortedBy, AllApart, SoundRelocations, ClearOfWrites;
    var covering := CoveringMaterialization(view.spans, offset, offset);
    if covering.Some? {
      var s := covering.value;
      MultisetMember(view.spans, spans, s);
      var k :| 0 <= k < |spans| && spans[k] == s;
      assert WritesSpan(view.image, view.graph.value, payloads[k], s);
      assert SoundSpan(s, |view.image.bytes|, view.relocations, writes);
      var payload := Reconstruct(view.image, view.graph.value, s.stream, s.streamLength).value;
      var at := s.logicalOffset + (offset - s.destination.offset);
      assert payload[at..at + 0] == [];
    }
  }

  lemma NothingRead(image: SourceImage, offset: nat)
    ensures offset <= |image.bytes| ==> ReadExact(image, offset, 0) == Ok([])
  {
    if offset <= |image.bytes| {
      assert image.bytes[offset..offset + 0] == [];
    }
  }

  lemma RelocatedNothing(view: Redirected, writes: seq<OverlayWrite>, offset: nat)
    requires SoundRelocations(view.relocations, view.relocations, |view.image.bytes|, writes)
    ensures offset < U64_LIMIT ==> ReadRelocated(view, offset, 0) == ReadExact(view.image, offset, 0)
  {
    hide SortedBy, AllApart, ClearOfWrites, PartitionPoint, ReadExact;
    RelocationRanges(view, writes);
    NothingRead(view.image, offset);
    var q := PartitionPoint(view.relocations, DestinationStart(), offset, 0, |view.relocations|);
    if q > 0 && offset <= RangeEnd(view.relocations[q - 1].destination) {
      var x := view.relocations[q - 1];
      assert SoundRelocation(x, |view.image.bytes|);
      NothingRead(view.image, x.source.offset + (offset - x.destination.offset));
    }
  }

  /** A read of nothing succeeds exactly where the raw source allows it. */
  lemma EmptyRead(view: Redirected, spans: seq<MaterializationSpan>, payloads: seq<OverlayWrite>,
                  writes: seq<OverlayWrite>,
                  offset: nat)
    requires Consistent(view, spans, payloads, writes)
    ensures ReadView(view, offset, 0) == ReadExact(view.image, offset, 0)
    ensures offset <= |view.image.bytes| ==> ReadView(view, offset, 0) == Ok([])
    ensures InsideOne(view, offset, 0) ==> offset <= |view.image.bytes|
  {
    hide Reconstruct, SortedBy, AllApart, ClearOfWrites, WritesSpan, PartitionPoint, ReadMaterialized, ReadRelocated,
         CoveringMaterialization;
    CoveredReads(view, spans, payloads, writes, offset);
    RelocatedNothing(view, writes, offset);
    NothingRead(view.image, offset);
    RelocationRanges(view, writes);
    SpanRanges(view, spans, writes);
    forall i | 0 <= i < |view.spans|
      ensures RangeEnd(view.spans[i].destination) <= |view.image.bytes|
    {
      SpanBounded(view.spans[i], |view.image.bytes|, view.relocations, writes);
    }
  }

  /** The virtual view refines the candidate. Of a job that passed every check, a read of at most the
      reader's cap inside one relocation destination or one materialization span returns exactly the
      bytes the finished candidate holds there; so does a read away from every destination and all
      metadata; and any read inside no single destination returns the raw source. */
  lemma ViewRefinesCandidate(job: Job, offset: nat, length: nat)
    requires Exportable(job) && length <= job.image.maxRead
    ensures var view, writes := ViewOf(job), FinalWrites(job.writes);
            && (InsideOne(view, offset, length) ==>
                  && offset + length <= |job.image.bytes|
                  && ReadView(view, offset, length) == Ok(Exported(job)[offset..offset + length]))
            && (!InsideOne(view, offset, length) ==>
                  ReadView(view, offset, length) == ReadExact(job.image, offset, length))
            && (AwayFromAll(view, writes, offset, length) && offset + length <= |job.image.bytes| ==>
                  ReadView(view, offset, length) == Ok(Exported(job)[offset..offset + length]))
  {
    hide Consistent, Finished, ReadView, PayloadsIn, SpansIn, CheckExport, FinalWrites, InsideOne, AwayFromAll;
    ExportableIsConsistent(job);
    var view, writes := ViewOf(job), FinalWrites(job.writes);
    if length == 0 {
      EmptyRead(view, SpansIn(job), PayloadsIn(job), writes, offset);
      assert offset <= |job.image.bytes| ==> Exported(job)[offset..offset + 0] == [];
    } else if InsideOne(view, offset, length) {
      InsideRefines(view, SpansIn(job), PayloadsIn(job), writes, offset, length);
    } else {
      ElsewhereIsRaw(view, SpansIn(job), PayloadsIn(job), writes, offset, length);
    }
    if length > 0 && AwayFromAll(view, writes, offset, length) && offset + length <= |job.image.bytes| {
      AwayKeepsSource(view, SpansIn(job), PayloadsIn(job), writes, offset, length);
      AwayIsNotInside(view, writes, offset, length);
    }
  }

  lemma AwayIsNotInside(view: Redirected, writes: seq<OverlayWrite>, offset: nat, length: nat)
    requires AwayFromAll(view, writes, offset, length) && length > 0
    ensures !InsideOne(view, offset, length)
  {
    forall i | 0 <= i < |view.relocations|
      ensures !Inside(view.relocations[i].destination, offset, length)
    {
      assert view.relocations[i] in view.relocations;
    }
    forall i | 0 <= i < |view.spans|
      ensures !Inside(view.spans[i].destination, offset, length)
    {
      assert view.spans[i] in view.spans;
    }
  }

  // ----- where each byte of a stream goes -----

  lemma {:induction false} SpanListed(materializations: seq<Materialization>, k: nat, j: nat)
    requires k < |materializations| && j < |materializations[k].destinations|
    ensures SpanOf(materializations[k], j) in AllSpans(materializations)
  {
    var front, last := materializations[..|materializations| - 1], materializations[|materializations| - 1];
    if k < |front| {
      SpanListed(front, k, j);
    } else {
      assert SpansOf(last)[j] in SpansOf(last);
    }
  }

  /** The destination that owns a logical position. */
  lemma {:induction false} OwnerOf(destinations: seq<ByteRange>, n: nat, position: nat) returns (j: nat)
    requires n <= |destinations| && position < LogicalStartOf(destinations, n)
    ensures j < n && LogicalStartOf(destinations, j) <= position < LogicalStartOf(destinations, j)
              + destinations[j].length
  {
    if position < LogicalStartOf(destinations, n - 1) {
      j := OwnerOf(destinations, n - 1, position);
    } else {
      j := n - 1;
    }
  }

  /** Every byte of every materialized stream, the zero tail included, lands in the finished candidate
      at the position of the destination that owns its logical offset. */
  lemma EveryByteLands(job: Job, k: nat, position: nat) returns (j: nat, at: nat)
    requires Exportable(job) && k < |job.plan.layout.materializations|
    requires position < TotalLength(job.plan.layout.materializations[k].destinations)
    ensures var m := job.plan.layout.materializations[k];
            var payload := Reconstruct(job.image, job.plan.sourceGraph, m.stream, TotalLength(m.destinations));
            && j < |m.destinations|
            && m.destinations[j].offset <= at < RangeEnd(m.destinations[j])
            && position == LogicalStartOf(m.destinations, j) + (at - m.destinations[j].offset)
            && at < |job.image.bytes| && payload.Ok?
            && Exported(job)[at] == payload.value[position]
  {
    hide Consistent, Finished, PayloadsIn, AllSpans, CheckExport, FinalWrites, Reconstruct;
    ExportableIsConsistent(job);
    var m := job.plan.layout.materializations[k];
    j := OwnerOf(m.destinations, |m.destinations|, position);
    at := m.destinations[j].offset + (position - LogicalStartOf(m.destinations, j));
    SpanListed(job.plan.layout.materializations, k, j);
    var i :| 0 <= i < |SpansIn(job)| && SpansIn(job)[i] == SpanOf(m, j);
    SpanLands(ViewOf(job), SpansIn(job), PayloadsIn(job), FinalWrites(job.writes), i, at);
  }

  lemma SpanLands(view: Redirected, spans: seq<MaterializationSpan>, payloads: seq<OverlayWrite>,
                  writes: seq<OverlayWrite>,
                  i: nat, at: nat)
    requires Consistent(view, spans, payloads, writes) && i < |spans|
    requires spans[i].destination.offset <= at < RangeEnd(spans[i].destination)
    ensures var s := spans[i];
            var payload := Reconstruct(view.image, view.graph.value, s.stream, s.streamLength);
            && at < |view.image.bytes| && payload.Ok? && s.logicalOffset + (at - s.destination.offset) < |payload.value|
            && Finished(view, spans, payloads, writes)[at]
                 == payload.value[s.logicalOffset + (at - s.destination.offset)]
  {
    hide Finished, Reconstruct, SortedBy, AllApart, SoundRelocations, RelocationWrites, ClearOfWrites;
    var s := spans[i];
    assert WritesSpan(view.image, view.graph.value, payloads[i], s);
    MultisetMember(view.spans, spans, s);
    assert SoundSpan(s, |view.image.bytes|, view.relocations, writes);
    RelocationsInImage(view, spans, payloads, writes);
    ClearMeansUncovered(s.destination, writes, at);
    PayloadLands(view, spans, payloads, writes, payloads[i], at);
  }

  // ----- exactly when the view and the candidate agree -----

  predicate CoversAt(r: ByteRange, position: nat)
  {
    r.offset <= position < RangeEnd(r)
  }

  /** The byte a materialization span puts at a position. */
  function PayloadByte(image: SourceImage, graph: SourceGraph, s: MaterializationSpan, position: nat): Option<Byte>
    requires CoversAt(s.destination, position)
  {
    var payload := Reconstruct(image, graph, s.stream, s.streamLength);
    var at := s.logicalOffset + (position - s.destination.offset);
    if payload.Ok? && at < |payload.value| then Some(payload.value[at]) else None
  }

  /** The byte a relocation puts at a position. */
  function MovedByte(image: SourceImage, x: Relocation, position: nat): Option<Byte>
    requires CoversAt(x.destination, position)
  {
    var at := x.source.offset + (position - x.destination.offset);
    if at < |image.bytes| then Some(image.bytes[at]) else None
  }

  /** Whatever is written at the position, metadata, relocated or materialized, is the byte the source
      already has there. */
  ghost predicate KeepsSourceByte(view: Redirected, writes: seq<OverlayWrite>, position: nat)
    requires view.graph.Some? && position < |view.image.bytes|
  {
    var byte := view.image.bytes[position];
    && (LastWritten(writes, position).Some? ==> LastWritten(writes, position) == Some(byte))
    && (forall x :: x in view.relocations && CoversAt(x.destination, position) ==>
          MovedByte(view.image, x, position) == Some(byte))
    && (forall s :: s in view.spans && CoversAt(s.destination, position) ==>
          PayloadByte(view.image, view.graph.value, s, position) == Some(byte))
  }

  /** A position under metadata holds the last metadata byte, and no payload goes there. */
  lemma MetadataHolds(view: Redirected, spans: seq<MaterializationSpan>, payloads: seq<OverlayWrite>,
                      writes: seq<OverlayWrite>, position: nat)
    requires Consistent(view, spans, payloads, writes) && position < |view.image.bytes|
    requires LastWritten(writes, position).Some?
    ensures Finished(view, spans, payloads, writes)[position] == LastWritten(writes, position).value
    ensures forall x :: x in view.relocations ==> !CoversAt(x.destination, position)
    ensures forall s :: s in view.spans ==> !CoversAt(s.destination, position)
  {
    hide WritesSpan, SortedBy, AllApart, SoundRelocation, Covered, LastWritten, RelocationWrites;
    RelocationsInImage(view, spans, payloads, writes);
    PayloadsFit(view, spans, payloads, writes);
    LastWriteWins(PayloadCandidate(view.image, view.relocations, payloads), writes, position);
    forall x | x in view.relocations
      ensures !CoversAt(x.destination, position)
    {
      ClearOrUncovered(x.destination, writes, position);
    }
    forall s | s in view.spans
      ensures !CoversAt(s.destination, position)
    {
      ClearOrUncovered(s.destination, writes, position);
    }
  }

  lemma ClearOrUncovered(destination: ByteRange, writes: seq<OverlayWrite>, position: nat)
    requires ClearOfWrites(destination, writes)
    ensures !CoversAt(destination, position) || !Covered(writes, position)
  {
    if CoversAt(destination, position) {
      ClearMeansUncovered(destination, writes, position);
    }
  }

  lemma MovedLands(view: Redirected, spans: seq<MaterializationSpan>, payloads: seq<OverlayWrite>,
                   writes: seq<OverlayWrite>, x: Relocation, position: nat)
    requires Consistent(view, spans, payloads, writes) && x in view.relocations
    requires CoversAt(x.destination, position) && !Covered(writes, position)
    ensures position < |view.image.bytes|
    ensures Some(Finished(view, spans, payloads, writes)[position]) == MovedByte(view.image, x, position)
  {
    hide Consistent, Finished, Covered;
    RelocationsInImage(view, spans, payloads, writes);
    var k :| 0 <= k < |view.relocations| && view.relocations[k] == x;
    var w := RelocationWrite(view.image, x);
    assert RelocationWrites(view.image, view.relocations)[k] == w;
    PayloadLands(view, spans, payloads, writes, w, position);
  }

  lemma ScatteredLands(view: Redirected, spans: seq<MaterializationSpan>, payloads: seq<OverlayWrite>,
                       writes: seq<OverlayWrite>, s: MaterializationSpan, position: nat)
    requires Consistent(view, spans, payloads, writes) && s in view.spans && CoversAt(s.destination, position)
    ensures position < |view.image.bytes|
    ensures Some(Finished(view, spans, payloads, writes)[position])
              == PayloadByte(view.image, view.graph.value, s, position)
  {
    hide Finished, Reconstruct, SortedBy, AllApart, SoundRelocations, WritesSpan, SoundSpan;
    MultisetMember(view.spans, spans, s);
    var i :| 0 <= i < |spans| && spans[i] == s;
    SpanLands(view, spans, payloads, writes, i, position);
  }

  lemma NothingLands(view: Redirected, spans: seq<MaterializationSpan>, payloads: seq<OverlayWrite>,
                     writes: seq<OverlayWrite>, position: nat)
    requires Consistent(view, spans, payloads, writes) && position < |view.image.bytes| && !Covered(writes, position)
    requires forall x :: x in view.relocations ==> !CoversAt(x.destination, position)
    requires forall s :: s in view.spans ==> !CoversAt(s.destination, position)
    ensures Finished(view, spans, payloads, writes)[position] == view.image.bytes[position]
  {
    hide Consistent, Finished, RelocationWrites, Covered;
    RelocationsInImage(view, spans, payloads, writes);
    OnlyThisPosition(writes, position);
    assert AwayFromAll(view, writes, position, 1);
    AwayUncovered(view, spans, payloads, writes, position, 1, position);
    UntouchedStays(view, spans, payloads, writes, position);
  }

  lemma OnlyThisPosition(writes: seq<OverlayWrite>, position: nat)
    requires !Covered(writes, position)
    ensures forall p: nat :: position <= p < position + 1 ==> !Covered(writes, p)
  {
  }

  /** At one position the candidate keeps the source byte exactly when everything written there is it. */
  lemma KeptExactly(view: Redirected, spans: seq<MaterializationSpan>, payloads: seq<OverlayWrite>,
                    writes: seq<OverlayWrite>, position: nat)
    requires Consistent(view, spans, payloads, writes) && position < |view.image.bytes|
    ensures Finished(view, spans, payloads, writes)[position] == view.image.bytes[position] <==>
       KeepsSourceByte(view, writes, position)
  {
    hide Finished, MovedByte, PayloadByte, LastWritten, Covered, SoundRelocations, SoundSpans, WritesSpan, CoversAt;
    if LastWritten(writes, position).Some? {
      MetadataHolds(view, spans, payloads, writes, position);
    } else if x :| x in view.relocations && CoversAt(x.destination, position) {
      AllLand(view, spans, payloads, writes, position);
    } else if s :| s in view.spans && CoversAt(s.destination, position) {
      AllLand(view, spans, payloads, writes, position);
    } else {
      NothingLands(view, spans, payloads, writes, position);
    }
  }

  lemma AllLand(view: Redirected, spans: seq<MaterializationSpan>, payloads: seq<OverlayWrite>,
                writes: seq<OverlayWrite>, position: nat)
    requires Consistent(view, spans, payloads, writes) && position < |view.image.bytes| && !Covered(writes, position)
    ensures var byte := Finished(view, spans, payloads, writes)[position];
            && (forall x :: x in view.relocations && CoversAt(x.destination, position) ==>
                  MovedByte(view.image, x, position) == Some(byte))
            && (forall s :: s in view.spans && CoversAt(s.destination, position) ==>
                  PayloadByte(view.image, view.graph.value, s, position) == Some(byte))
  {
    hide Finished, MovedByte, PayloadByte, Covered, SoundRelocations, SoundSpans, WritesSpan, CoversAt;
    forall x | x in view.relocations && CoversAt(x.destination, position)
      ensures MovedByte(view.image, x, position) == Some(Finished(view, spans, payloads, writes)[position])
    {
      MovedLands(view, spans, payloads, writes, x, position);
    }
    forall s | s in view.spans && CoversAt(s.destination, position)
      ensures PayloadByte(view.image, view.graph.value, s, position)
                == Some(Finished(view, spans, payloads, writes)[position])
    {
      ScatteredLands(view, spans, payloads, writes, s, position);
    }
  }

  /** Exactly when a read through the view is the candidate's: the read lies inside one destination, or
      everything written at each of its positions is the byte the source already has there. Both
      conditions can be checked from the layout and the source before anything is written. */
  lemma ViewAgreesExactly(job: Job, offset: nat, length: nat)
    requires Exportable(job) && length <= job.image.maxRead && offset + length <= |job.image.bytes|
    ensures ReadView(ViewOf(job), offset, length) == Ok(Exported(job)[offset..offset + length]) <==>
       || InsideOne(ViewOf(job), offset, length)
            || forall position: nat :: offset <= position < offset + length ==>
                 KeepsSourceByte(ViewOf(job), FinalWrites(job.writes), position)
  {
    hide Consistent, Finished, ReadView, PayloadsIn, SpansIn, CheckExport, FinalWrites, InsideOne, AwayFromAll,
         KeepsSourceByte;
    ExportableIsConsistent(job);
    ViewRefinesCandidate(job, offset, length);
    var candidate, source := Exported(job), job.image.bytes;
    forall position: nat | offset <= position < offset + length
      ensures candidate[position] == source[position] <==>
                KeepsSourceByte(ViewOf(job), FinalWrites(job.writes), position)
    {
      KeptExactly(ViewOf(job), SpansIn(job), PayloadsIn(job), FinalWrites(job.writes), position);
    }
    SlicesAgree(candidate, source, offset, length);
  }

  lemma SlicesAgree(a: seq<Byte>, b: seq<Byte>, offset: nat, length: nat)
    requires offset + length <= |a| && offset + length <= |b|
    ensures a[offset..offset + length] == b[offset..offset + length] <==>
       forall position: nat :: offset <= position < offset + length ==> a[position] == b[position]
  {
    var x, y := a[offset..offset + length], b[offset..offset + length];
    if x == y {
      forall position: nat | offset <= position < offset + length
        ensures a[position] == b[position]
      {
        assert x[position - offset] == y[position - offset];
      }
    }
  }

  // ----- the whole export -----

  /** An exportable job meets everything `BuildCandidate` asks for. */
  lemma ExportableBuilds(job: Job)
    requires CheckExport(job).Ok?
    ensures forall x :: x in CheckExport(job).value.relocated.sorted ==> InImage(x, |job.image.bytes|)
    ensures forall m :: m in job.plan.layout.materializations ==> SpansFit(m, |job.image.bytes|)
    ensures AllFit(FinalWrites(job.writes), |job.image.bytes|)
  {
    hide CheckExport, ValidatePreview, FinalWrites, AllFit, SortedBy, AllApart, ClearOfWrites, TakenFrom, Spans;
    CheckedParts(job);
    PreviewSound(job.image, job.writes, job.limits);
    RelocationsSound(|job.image.bytes|, job.plan, job.writes, job.limits.maxWrites);
    forall x | x in CheckExport(job).value.relocated.sorted
      ensures InImage(x, |job.image.bytes|)
    {
      SoundMeansInImage(x, |job.image.bytes|);
    }
    forall m | m in job.plan.layout.materializations
      ensures SpansFit(m, |job.image.bytes|)
    {
      DestinationsFit(job, m);
    }
  }

  lemma DestinationsFit(job: Job, m: Materialization)
    requires ValidateMaterializations(|job.image.bytes|, job.plan, job.writes, job.limits.maxWrites).Ok?
    requires m in job.plan.layout.materializations
    ensures SpansFit(m, |job.image.bytes|)
  {
    hide Fold, AllSpans;
    var materializations := job.plan.layout.materializations;
    var k :| 0 <= k < |materializations| && materializations[k] == m;
    forall d | d in m.destinations
      ensures RangeEnd(d) <= |job.image.bytes|
    {
      var j :| 0 <= j < |m.destinations| && m.destinations[j] == d;
      SpanListed(materializations, k, j);
      DestinationInside(|job.image.bytes|, job.plan, materializations, SpanOf(m, j));
    }
  }

  /** The checks, then the bytes: what a successful export leaves in the output is exactly the finished
      candidate, whatever the chunk size; a failed check writes nothing. */
  method ExportCandidate(job: Job, output: OutputFile, chunk: nat) returns (r: Result<(), ExportError>)
    requires chunk > 0 && output.contents == [] && output.cursor == 0
    modifies output
    ensures r.Ok? ==> Exportable(job) && output.contents == Exported(job)
    ensures Exportable(job) && chunk <= job.image.maxRead ==> r.Ok?
    ensures CheckExport(job).Err? ==> r == Err(CheckExport(job).error) && output.contents == []
  {
    hide ValidatePreview, ValidateRelocations, ValidateMaterializations, MaterializationWrites, FinalWrites, AllFit,
         Finished,
         Consistent, Candidate;
    var preview :- ValidatePreviewWrites(job.image, job.writes, job.limits);
    var relocated :- ValidateRelocationPlan(|job.image.bytes|, job.plan, job.writes, job.limits.maxWrites);
    var materialized :- ValidateMaterializationPlan(|job.image.bytes|, job.plan, job.writes, job.limits.maxWrites);
    var count := preview.count + relocated.count + |materialized.sorted|;
    var bytes := preview.bytes + relocated.bytes + materialized.bytes;
    if count > USIZE_MAX {
      return Err(ExportOverflow("candidate operation count"));
    }
    if bytes >= U64_LIMIT {
      return Err(ExportOverflow("candidate replacement byte total"));
    }
    if count > job.limits.maxWrites {
      return Err(WriteCountExceeded(count, job.limits.maxWrites));
    }
    if bytes > job.limits.maxReplacementBytes {
      return Err(ReplacementBytesExceeded(bytes, job.limits.maxReplacementBytes));
    }
    ExportableBuilds(job);
    r := BuildCandidate(job.image, output, job.plan.sourceGraph, relocated.sorted, job.plan.layout.materializations,
                        job.writes, chunk);
    if r.Ok? {
      ExportedIsCandidate(job);
    }
  }

  lemma ExportedIsCandidate(job: Job)
    requires Exportable(job)
    ensures forall x :: x in CheckExport(job).value.relocated.sorted ==> InImage(x, |job.image.bytes|)
    ensures AllFit(PayloadsIn(job), |job.image.bytes|) && AllFit(FinalWrites(job.writes), |job.image.bytes|)
    ensures Exported(job)
         == Candidate(job.image, CheckExport(job).value.relocated.sorted, PayloadsIn(job), FinalWrites(job.writes))
  {
    hide CheckExport, SpansIn, PayloadsIn, FinalWrites, Consistent, Candidate;
    ExportableIsConsistent(job);
    ExportableBuilds(job);
    PayloadsFit(ViewOf(job), SpansIn(job), PayloadsIn(job), FinalWrites(job.writes));
  }
}
