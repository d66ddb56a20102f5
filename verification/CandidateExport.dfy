/** The byte-moving half of the copy exporter: copy, relocate, materialize and overlay in chunks. */
module CandidateExport {
  import opened Results
  import opened Bytes
  import opened Images
  import opened Payloads
  import opened RollbackPlan
  import opened ExportPlan

  // ----- the writes each step amounts to -----

  predicate InImage(x: Relocation, imageLength: nat)
  {
    x.source.length == x.destination.length && RangeEnd(x.source) <= imageLength
        && RangeEnd(x.destination) <= imageLength
  }

  function RelocationWrite(image: SourceImage, x: Relocation): OverlayWrite
    requires InImage(x, |image.bytes|)
  {
    OverlayWrite(x.destination.offset, image.bytes[x.source.offset..RangeEnd(x.source)])
  }

  function RelocationWrites(image: SourceImage, relocations: seq<Relocation>): (r: seq<OverlayWrite>)
    requires forall x :: x in relocations ==> InImage(x, |image.bytes|)
    ensures |r| == |relocations|
    ensures forall k :: 0 <= k < |r| ==> r[k] == RelocationWrite(image, relocations[k])
  {
    seq(|relocations|, k requires 0 <= k < |relocations| => RelocationWrite(image, relocations[k]))
  }

  lemma {:induction false} LogicalStartGrows(destinations: seq<ByteRange>, i: nat, j: nat)
    requires i <= j <= |destinations|
    ensures LogicalStartOf(destinations, i) <= LogicalStartOf(destinations, j)
    ensures i < j ==> LogicalStartOf(destinations, i) + destinations[i].length <= LogicalStartOf(destinations, j)
  {
    if i < j {
      LogicalStartGrows(destinations, i, j - 1);
    }
  }

  /** The part of the stream that belongs at destination `j`. */
  function SpanWrite(payload: seq<Byte>, m: Materialization, j: nat): OverlayWrite
    requires j < |m.destinations| && |payload| == TotalLength(m.destinations)
  {
    LogicalStartGrows(m.destinations, j, |m.destinations|);
    var start := LogicalStartOf(m.destinations, j);
    OverlayWrite(m.destinations[j].offset, payload[start..start + m.destinations[j].length])
  }

  function SpanWrites(payload: seq<Byte>, m: Materialization): (r: seq<OverlayWrite>)
    requires |payload| == TotalLength(m.destinations)
    ensures |r| == |m.destinations|
    ensures forall j :: 0 <= j < |r| ==> r[j] == SpanWrite(payload, m, j)
  {
    seq(|m.destinations|, j requires 0 <= j < |m.destinations| => SpanWrite(payload, m, j))
  }

  function MaterializationWrites(image: SourceImage, graph: SourceGraph, materializations: seq<Materialization>)
    : Result<seq<OverlayWrite>, ExportError>
  {
    if materializations == [] then
      Ok([])
    else
      var last := materializations[|materializations| - 1];
      var earlier :- MaterializationWrites(image, graph, materializations[..|materializations| - 1]);
      var payload :- Reconstruct(image, graph, last.stream, TotalLength(last.destinations));
      Ok(earlier + SpanWrites(payload, last))
  }

  lemma {:induction false} ApplyAllConcat(image: seq<Byte>, a: seq<OverlayWrite>, b: seq<OverlayWrite>)
    requires AllFit(a, |image|) && AllFit(b, |image|)
    ensures AllFit(a + b, |image|) && ApplyAll(image, a + b) == ApplyAll(ApplyAll(image, a), b)
  {
    if b == [] {
      assert a + b == a;
    } else {
      assert (a + b)[..|a + b| - 1] == a + b[..|b| - 1];
      ApplyAllConcat(image, a, b[..|b| - 1]);
    }
  }

  /** The candidate before metadata: the source with every relocated and materialized payload in place. */
  ghost function PayloadCandidate(image: SourceImage, relocations: seq<Relocation>, payloads: seq<OverlayWrite>)
    : seq<Byte>
    requires forall x :: x in relocations ==> InImage(x, |image.bytes|)
    requires AllFit(payloads, |image.bytes|)
  {
    RelocationsFit(image, relocations);
    ApplyAll(ApplyAll(image.bytes, RelocationWrites(image, relocations)), payloads)
  }

  lemma RelocationsFit(image: SourceImage, relocations: seq<Relocation>)
    requires forall x :: x in relocations ==> InImage(x, |image.bytes|)
    ensures AllFit(RelocationWrites(image, relocations), |image.bytes|)
  {
    var ws := RelocationWrites(image, relocations);
    forall w | w in ws
      ensures Fits(w, |image.bytes|)
    {
      var k :| 0 <= k < |ws| && ws[k] == w;
      assert relocations[k] in relocations;
    }
  }

  /** The finished candidate. */
  ghost function Candidate(image: SourceImage, relocations: seq<Relocation>, payloads: seq<OverlayWrite>,
                           writes: seq<OverlayWrite>)
    : (r: seq<Byte>)
    requires forall x :: x in relocations ==> InImage(x, |image.bytes|)
    requires AllFit(payloads, |image.bytes|) && AllFit(writes, |image.bytes|)
    ensures |r| == |image.bytes|
  {
    ApplyAll(PayloadCandidate(image, relocations, payloads), writes)
  }

  // ----- the chunk loops -----

  /** One seek and one `write_all` inside the file. */
  method WriteOver(output: OutputFile, offset: nat, bytes: Payload)
    requires offset + |bytes| <= |output.contents|
    modifies output
    ensures output.contents == ApplyWrite(old(output.contents), OverlayWrite(offset, bytes))
  {
    output.Seek(offset);
    output.WriteAll(bytes);
  }

  /** `copy_source`: appends the source to the new, empty file. */
  method CopySource(image: SourceImage, output: OutputFile, chunk: nat) returns (r: Result<(), ExportError>)
    requires chunk > 0 && output.contents == [] && output.cursor == 0
    modifies output
    ensures r.Ok? ==> output.contents == image.bytes
    ensures r.Ok? <==> Min(chunk, |image.bytes|) <= image.maxRead
  {
    var offset := 0;
    while offset < |image.bytes|
      invariant 0 <= offset <= |image.bytes|
      invariant output.cursor == offset && output.contents == image.bytes[..offset]
      invariant offset > 0 ==> Min(chunk, |image.bytes|) <= image.maxRead
      decreases |image.bytes| - offset
    {
      var length := Min(|image.bytes| - offset, chunk);
      var bytes := ReadExact(image, offset, length);
      if bytes.Err? {
        return Err(bytes.error);
      }
      assert image.bytes[..offset] + bytes.value == image.bytes[..offset + length];
      output.WriteAll(bytes.value);
      offset := offset + length;
    }
    assert image.bytes[..offset] == image.bytes;
    return Ok(());
  }

  /** One relocation, read and written chunk by chunk. */
  method RelocateOne(image: SourceImage, output: OutputFile, x: Relocation, chunk: nat)
    returns (r: Result<(), ExportError>)
    requires chunk > 0 && InImage(x, |image.bytes|) && |output.contents| == |image.bytes|
    modifies output
    ensures |output.contents| == |image.bytes|
    ensures r.Ok? ==> output.contents == ApplyWrite(old(output.contents), RelocationWrite(image, x))
    ensures chunk <= image.maxRead ==> r.Ok?
  {
    hide ApplyWrite;
    ghost var before := output.contents;
    ghost var w := RelocationWrite(image, x);
    PieceEnds(before, w);
    var copied := 0;
    while copied < x.source.length
      invariant 0 <= copied <= x.source.length
      invariant output.contents == ApplyWrite(before, Piece(w, copied))
      decreases x.source.length - copied
    {
      var length := Min(x.source.length - copied, chunk);
      var bytes := ReadExact(image, x.source.offset + copied, length);
      if bytes.Err? {
        return Err(bytes.error);
      }
      SliceOfSlice(image.bytes, x.source.offset, RangeEnd(x.source), copied, length);
      PieceGrows(before, w, copied, length);
      WriteOver(output, x.destination.offset + copied, bytes.value);
      copied := copied + length;
    }
    return Ok(());
  }

  lemma RelocationsGrow(image: SourceImage, was: seq<Byte>, relocations: seq<Relocation>, k: nat)
    requires k < |relocations| && |was| == |image.bytes|
    requires forall x :: x in relocations ==> InImage(x, |image.bytes|)
    ensures AllFit(RelocationWrites(image, relocations[..k]), |was|)
              && AllFit(RelocationWrites(image, relocations[..k + 1]), |was|)
    ensures ApplyAll(was, RelocationWrites(image, relocations[..k + 1]))
         == ApplyWrite(ApplyAll(was, RelocationWrites(image, relocations[..k])), RelocationWrite(image, relocations[k]))
  {
    RelocationsFit(image, relocations[..k]);
    RelocationsFit(image, relocations[..k + 1]);
    var longer := RelocationWrites(image, relocations[..k + 1]);
    assert longer[..k] == RelocationWrites(image, relocations[..k]);
    assert longer[k] == RelocationWrite(image, relocations[k]);
  }

  /** `apply_relocations`: reads come from the source, never from the output. */
  method ApplyRelocations(image: SourceImage, output: OutputFile, relocations: seq<Relocation>, chunk: nat)
    returns (r: Result<(), ExportError>)
    requires chunk > 0 && |output.contents| == |image.bytes|
    requires forall x :: x in relocations ==> InImage(x, |image.bytes|)
    modifies output
    ensures |output.contents| == |image.bytes|
    ensures AllFit(RelocationWrites(image, relocations), |image.bytes|)
    ensures r.Ok? ==> output.contents == ApplyAll(old(output.contents), RelocationWrites(image, relocations))
    ensures chunk <= image.maxRead ==> r.Ok?
  {
    hide ApplyWrite, RelocationWrite;
    ghost var was := output.contents;
    RelocationsFit(image, relocations);
    var k := 0;
    while k < |relocations|
      invariant 0 <= k <= |relocations|
      invariant AllFit(RelocationWrites(image, relocations[..k]), |was|)
      invariant output.contents == ApplyAll(was, RelocationWrites(image, relocations[..k]))
    {
      RelocationsGrow(image, was, relocations, k);
      r := RelocateOne(image, output, relocations[k], chunk);
      if r.Err? {
        return;
      }
      k := k + 1;
    }
    assert relocations[..k] == relocations;
    return Ok(());
  }

  /** The chunk loop of one span or one candidate write. */
  method WriteChunks(output: OutputFile, offset: nat, bytes: Payload, chunk: nat)
    requires chunk > 0 && offset + |bytes| <= |output.contents|
    modifies output
    ensures output.contents == ApplyWrite(old(output.contents), OverlayWrite(offset, bytes))
  {
    hide ApplyWrite;
    ghost var before := output.contents;
    ghost var w := OverlayWrite(offset, bytes);
    PieceEnds(before, w);
    var copied := 0;
    while copied < |bytes|
      invariant 0 <= copied <= |bytes|
      invariant output.contents == ApplyWrite(before, Piece(w, copied))
      decreases |bytes| - copied
    {
      var length := Min(|bytes| - copied, chunk);
      PieceGrows(before, w, copied, length);
      WriteOver(output, offset + copied, bytes[copied..copied + length]);
      copied := copied + length;
    }
  }

  /** `apply_forward_writes`: staging, backup boot, activation, in that order. */
  method ApplyForwardWrites(output: OutputFile, writes: seq<OverlayWrite>, chunk: nat)
    requires chunk > 0 && AllFit(writes, |output.contents|)
    modifies output
    ensures output.contents == ApplyAll(old(output.contents), writes)
  {
    hide ApplyWrite;
    ghost var was := output.contents;
    var k := 0;
    while k < |writes|
      invariant 0 <= k <= |writes|
      invariant AllFit(writes[..k], |was|) && output.contents == ApplyAll(was, writes[..k])
    {
      assert writes[k] in writes;
      WriteChunks(output, writes[k].offset, writes[k].bytes, chunk);
      assert writes[..k + 1][..k] == writes[..k] && writes[..k + 1][k] == writes[k];
      k := k + 1;
    }
    assert writes[..k] == writes;
  }

  predicate SpansFit(m: Materialization, imageLength: nat)
  {
    forall d :: d in m.destinations ==> RangeEnd(d) <= imageLength
  }

  lemma SpanWritesFit(payload: seq<Byte>, m: Materialization, imageLength: nat)
    requires |payload| == TotalLength(m.destinations) && SpansFit(m, imageLength)
    ensures AllFit(SpanWrites(payload, m), imageLength)
  {
    var ws := SpanWrites(payload, m);
    forall w | w in ws
      ensures Fits(w, imageLength)
    {
      var j :| 0 <= j < |ws| && ws[j] == w;
      LogicalStartGrows(m.destinations, j, |m.destinations|);
      assert m.destinations[j] in m.destinations;
    }
  }

  /** One stream scattered over its destinations, in logical order. */
  method ScatterStream(output: OutputFile, payload: seq<Byte>, m: Materialization, chunk: nat)
    requires chunk > 0 && |payload| == TotalLength(m.destinations) && SpansFit(m, |output.contents|)
    modifies output
    ensures AllFit(SpanWrites(payload, m), |old(output.contents)|)
    ensures output.contents == ApplyAll(old(output.contents), SpanWrites(payload, m))
  {
    hide ApplyWrite;
    ghost var was := output.contents;
    ghost var ws := SpanWrites(payload, m);
    SpanWritesFit(payload, m, |was|);
    var logical := 0;
    var j := 0;
    while j < |m.destinations|
      invariant 0 <= j <= |m.destinations| && logical == LogicalStartOf(m.destinations, j)
      invariant output.contents == ApplyAll(was, ws[..j])
    {
      var d := m.destinations[j];
      LogicalStartGrows(m.destinations, j, |m.destinations|);
      assert d in m.destinations;
      WriteChunks(output, d.offset, payload[logical..logical + d.length], chunk);
      assert ws[..j + 1][..j] == ws[..j] && ws[..j + 1][j] == ws[j];
      logical := logical + d.length;
      j := j + 1;
    }
    assert ws[..j] == ws;
  }

  lemma {:induction false} MaterializationErrorPersists(image: SourceImage, graph: SourceGraph,
                                                        materializations: seq<Materialization>, n: nat)
    requires n <= |materializations| && MaterializationWrites(image, graph, materializations[..n]).Err?
    ensures MaterializationWrites(image, graph, materializations)
              == MaterializationWrites(image, graph, materializations[..n])
  {
    if n < |materializations| {
      var front := materializations[..|materializations| - 1];
      assert front[..n] == materializations[..n];
      MaterializationErrorPersists(image, graph, front, n);
    } else {
      assert materializations[..n] == materializations;
    }
  }

  /** `apply_materializations`. It fails exactly when some stream cannot be reconstructed. */
  method ApplyMaterializations(image: SourceImage, output: OutputFile, graph: SourceGraph,
                               materializations: seq<Materialization>, chunk: nat)
    returns (r: Result<(), ExportError>)
    requires chunk > 0 && forall m :: m in materializations ==> SpansFit(m, |output.contents|)
    modifies output
    ensures |output.contents| == |old(output.contents)|
    ensures var ws := MaterializationWrites(image, graph, materializations);
            && (r.Ok? <==> ws.Ok?)
            && (r.Ok? ==>
                  && AllFit(ws.value, |output.contents|)
                  && output.contents == ApplyAll(old(output.contents), ws.value))
  {
    hide ApplyWrite, Reconstruct, SpanWrites;
    ghost var was := output.contents;
    var k := 0;
    while k < |materializations|
      invariant 0 <= k <= |materializations|
      invariant |output.contents| == |was|
      invariant MaterializationWrites(image, graph, materializations[..k]).Ok?
      invariant AllFit(MaterializationWrites(image, graph, materializations[..k]).value, |was|)
      invariant output.contents == ApplyAll(was, MaterializationWrites(image, graph, materializations[..k]).value)
    {
      var m := materializations[k];
      ghost var earlier := MaterializationWrites(image, graph, materializations[..k]).value;
      assert m in materializations;
      assert materializations[..k + 1][..k] == materializations[..k] && materializations[..k + 1][k] == m;
      var payload := ReconstructStreamDestination(image, graph, m.stream, TotalLength(m.destinations));
      if payload.Err? {
        MaterializationErrorPersists(image, graph, materializations, k + 1);
        return Err(payload.error);
      }
      ScatterStream(output, payload.value, m, chunk);
      ApplyAllConcat(was, earlier, SpanWrites(payload.value, m));
      k := k + 1;
    }
    assert materializations[..k] == materializations;
    return Ok(());
  }

  /** The export's byte order: copy, relocate, materialize, then candidate metadata. The result does
      not depend on the chunk size. */
  method BuildCandidate(image: SourceImage, output: OutputFile, graph: SourceGraph, relocations: seq<Relocation>,
                        materializations: seq<Materialization>, writes: WriteSets, chunk: nat)
    returns (r: Result<(), ExportError>)
    requires chunk > 0 && output.contents == [] && output.cursor == 0
    requires forall x :: x in relocations ==> InImage(x, |image.bytes|)
    requires forall m :: m in materializations ==> SpansFit(m, |image.bytes|)
    requires AllFit(FinalWrites(writes), |image.bytes|)
    modifies output
    ensures var ws := MaterializationWrites(image, graph, materializations);
            && (r.Ok? ==> ws.Ok? && AllFit(ws.value, |image.bytes|)
                          && output.contents == Candidate(image, relocations, ws.value, FinalWrites(writes)))
            && (chunk <= image.maxRead && ws.Ok? ==> r.Ok?)
  {
    hide ApplyAll, RelocationWrites, MaterializationWrites, FinalWrites, AllFit;
    r := CopySource(image, output, chunk);
    if r.Err? {
      return;
    }
    r := ApplyRelocations(image, output, relocations, chunk);
    if r.Err? {
      return;
    }
    r := ApplyMaterializations(image, output, graph, materializations, chunk);
    if r.Err? {
      return;
    }
    ApplyForwardWrites(output, FinalWrites(writes), chunk);
  }
}
