/** Byte images and positional writes. */
module Images {
  import opened Results
  import opened Bytes
  import opened Sorting

  datatype OverlayWrite = OverlayWrite(offset: nat, bytes: Payload)

  function EndOf(w: OverlayWrite): nat
  {
    w.offset + |w.bytes|
  }

  /** The sort key of every write set. */
  function ByOffset(): OverlayWrite -> int
  {
    (w: OverlayWrite) => w.offset
  }

  function ByEnd(): OverlayWrite -> int
  {
    (w: OverlayWrite) => EndOf(w)
  }

  predicate Fits(w: OverlayWrite, length: nat)
  {
    EndOf(w) <= length
  }

  ghost predicate AllFit(writes: seq<OverlayWrite>, length: nat)
  {
    forall w :: w in writes ==> Fits(w, length)
  }

  /** Different writes touch different bytes. */
  ghost predicate DisjointWrites(writes: seq<OverlayWrite>)
  {
    forall v, w :: v in writes && w in writes ==> v == w || EndOf(v) <= w.offset || EndOf(w) <= v.offset
  }

  function ApplyWrite(image: seq<Byte>, w: OverlayWrite): (r: seq<Byte>)
    requires Fits(w, |image|)
    ensures |r| == |image|
  {
    image[..w.offset] + w.bytes + image[EndOf(w)..]
  }

  /** The image after the writes, in order. */
  function ApplyAll(image: seq<Byte>, writes: seq<OverlayWrite>): (r: seq<Byte>)
    requires AllFit(writes, |image|)
    ensures |r| == |image|
  {
    if writes == [] then
      image
    else
      assert writes[|writes| - 1] in writes;
      ApplyWrite(ApplyAll(image, writes[..|writes| - 1]), writes[|writes| - 1])
  }

  predicate Covers(w: OverlayWrite, position: int)
  {
    w.offset <= position < EndOf(w)
  }

  ghost predicate Covered(writes: seq<OverlayWrite>, position: int)
  {
    exists w :: w in writes && Covers(w, position)
  }

  lemma WriteAt(image: seq<Byte>, w: OverlayWrite, position: nat)
    requires Fits(w, |image|) && position < |image|
    ensures ApplyWrite(image, w)[position] == if Covers(w, position) then w.bytes[position - w.offset]
              else image[position]
  {
  }

  /** The write of the first `n` bytes of `w`. */
  function Piece(w: OverlayWrite, n: nat): OverlayWrite
    requires n <= |w.bytes|
  {
    OverlayWrite(w.offset, w.bytes[..n])
  }

  /** One more chunk of a write that is being applied piece by piece. */
  lemma PieceGrows(image: seq<Byte>, w: OverlayWrite, done: nat, more: nat)
    requires Fits(w, |image|) && done + more <= |w.bytes|
    ensures ApplyWrite(ApplyWrite(image, Piece(w, done)), OverlayWrite(w.offset + done, w.bytes[done..done + more]))
         == ApplyWrite(image, Piece(w, done + more))
  {
    assert w.bytes[..done + more] == w.bytes[..done] + w.bytes[done..done + more];
  }

  lemma PieceEnds(image: seq<Byte>, w: OverlayWrite)
    requires Fits(w, |image|)
    ensures ApplyWrite(image, Piece(w, 0)) == image && Piece(w, |w.bytes|) == w
  {
  }

  lemma {:induction false} UncoveredKept(image: seq<Byte>, writes: seq<OverlayWrite>, position: nat)
    requires AllFit(writes, |image|) && position < |image| && !Covered(writes, position)
    ensures ApplyAll(image, writes)[position] == image[position]
  {
    if writes != [] {
      var last := writes[|writes| - 1];
      assert last in writes;
      UncoveredKept(image, writes[..|writes| - 1], position);
      WriteAt(ApplyAll(image, writes[..|writes| - 1]), last, position);
    }
  }

  lemma {:induction false} CoveredWritten(image: seq<Byte>, writes: seq<OverlayWrite>, w: OverlayWrite, position: nat)
    requires AllFit(writes, |image|) && DisjointWrites(writes) && w in writes && Covers(w, position)
    ensures position < |image| && ApplyAll(image, writes)[position] == w.bytes[position - w.offset]
  {
    var last := writes[|writes| - 1];
    assert Fits(w, |image|) && last in writes;
    var before := ApplyAll(image, writes[..|writes| - 1]);
    WriteAt(before, last, position);
    if w != last {
      assert w in writes[..|writes| - 1];
      CoveredWritten(image, writes[..|writes| - 1], w, position);
    }
  }

  /** The byte the last covering write leaves, if any write covers the position. */
  function LastWritten(writes: seq<OverlayWrite>, position: int): (r: Option<Byte>)
    ensures r.None? <==> !Covered(writes, position)
  {
    if writes == [] then
      None
    else
      var last := writes[|writes| - 1];
      if Covers(last, position) then
        assert last in writes;
        Some(last.bytes[position - last.offset])
      else
        LastWritten(writes[..|writes| - 1], position)
  }

  /** Writes applied in order leave, at each position, what the last covering one put there. */
  lemma {:induction false} LastWriteWins(image: seq<Byte>, writes: seq<OverlayWrite>, position: nat)
    requires AllFit(writes, |image|) && position < |image|
    ensures ApplyAll(image, writes)[position]
         == if LastWritten(writes, position).Some? then LastWritten(writes, position).value else image[position]
  {
    if writes != [] {
      var last := writes[|writes| - 1];
      assert last in writes;
      LastWriteWins(image, writes[..|writes| - 1], position);
      WriteAt(ApplyAll(image, writes[..|writes| - 1]), last, position);
    }
  }

  ghost predicate SameWrites(a: seq<OverlayWrite>, b: seq<OverlayWrite>)
  {
    forall w :: w in a <==> w in b
  }

  /** Disjoint writes may be applied in any order, and any number of times. */
  lemma ApplyAllAnyOrder(image: seq<Byte>, a: seq<OverlayWrite>, b: seq<OverlayWrite>)
    requires AllFit(a, |image|) && DisjointWrites(a) && SameWrites(a, b)
    ensures AllFit(b, |image|) && DisjointWrites(b) && ApplyAll(image, a) == ApplyAll(image, b)
  {
    forall position: nat | position < |image|
      ensures ApplyAll(image, a)[position] == ApplyAll(image, b)[position]
    {
      if Covered(a, position) {
        var w :| w in a && Covers(w, position);
        CoveredWritten(image, a, w, position);
        CoveredWritten(image, b, w, position);
      } else {
        UncoveredKept(image, a, position);
        UncoveredKept(image, b, position);
      }
    }
  }

  /** The images agree everywhere the writes do not reach. */
  ghost predicate AgreeOutside(a: seq<Byte>, b: seq<Byte>, writes: seq<OverlayWrite>)
  {
    |a| == |b| && forall position: nat :: position < |a| && !Covered(writes, position) ==> a[position] == b[position]
  }

  /** Each write carries exactly the bytes `image` has there. */
  ghost predicate TakenFrom(writes: seq<OverlayWrite>, image: seq<Byte>)
  {
    forall w :: w in writes ==> Fits(w, |image|) && w.bytes == image[w.offset..EndOf(w)]
  }

  lemma {:induction false} RestoredAt(source: seq<Byte>, image: seq<Byte>, writes: seq<OverlayWrite>, position: nat)
    requires TakenFrom(writes, source) && |image| == |source| && position < |image|
    requires Covered(writes, position) || image[position] == source[position]
    ensures AllFit(writes, |image|) && ApplyAll(image, writes)[position] == source[position]
    decreases |writes|
  {
    if writes != [] {
      var earlier, last := writes[..|writes| - 1], writes[|writes| - 1];
      assert last in writes;
      WriteAt(ApplyAll(image, earlier), last, position);
      if Covers(last, position) {
        assert last.bytes[position - last.offset] == source[last.offset..EndOf(last)][position - last.offset];
      } else {
        if Covered(writes, position) {
          var w :| w in writes && Covers(w, position);
          assert w in earlier;
        }
        RestoredAt(source, image, earlier, position);
      }
    }
  }

  /** Writing bytes taken from `source` over an image that differs from it only there gives `source`:
      no disjointness is needed, and any part already restored does no harm. */
  lemma RestoresSource(source: seq<Byte>, image: seq<Byte>, writes: seq<OverlayWrite>)
    requires TakenFrom(writes, source) && AgreeOutside(image, source, writes)
    ensures AllFit(writes, |image|) && ApplyAll(image, writes) == source
  {
    forall position: nat | position < |image|
      ensures AllFit(writes, |image|) && ApplyAll(image, writes)[position] == source[position]
    {
      RestoredAt(source, image, writes, position);
    }
  }

  lemma AppliedAgreesOutside(image: seq<Byte>, writes: seq<OverlayWrite>)
    requires AllFit(writes, |image|)
    ensures AgreeOutside(ApplyAll(image, writes), image, writes)
  {
    forall position: nat | position < |image| && !Covered(writes, position)
      ensures ApplyAll(image, writes)[position] == image[position]
    {
      UncoveredKept(image, writes, position);
    }
  }

  ghost predicate NonemptyWrites(writes: seq<OverlayWrite>)
  {
    forall w :: w in writes ==> w.bytes != []
  }

  lemma ApartWritesDisjoint(writes: seq<OverlayWrite>)
    requires AllApart(writes, ByOffset(), ByEnd())
    ensures DisjointWrites(writes)
  {
    forall v, w | v in writes && w in writes && v != w
      ensures EndOf(v) <= w.offset || EndOf(w) <= v.offset
    {
      var i :| 0 <= i < |writes| && writes[i] == v;
      var j :| 0 <= j < |writes| && writes[j] == w;
      assert Apart(writes[if i < j then i else j], writes[if i < j then j else i], ByOffset(), ByEnd());
    }
  }

  lemma SortedApart(sorted: seq<OverlayWrite>)
    requires SortedBy(sorted, ByOffset()) && NonemptyWrites(sorted)
    ensures (forall k :: 0 <= k < |sorted| - 1 ==> EndOf(sorted[k]) <= sorted[k + 1].offset) <==>
       AllApart(sorted, ByOffset(), ByEnd())
  {
    NeighboursIffAll(sorted, ByOffset(), ByEnd());
  }

  // ----- a file being written -----

  /** An output file with a cursor: `seek`, then `write_all`. */
  class OutputFile {
    var contents: seq<Byte>
    var cursor: nat

    constructor ()
      ensures contents == [] && cursor == 0
    {
      contents, cursor := [], 0;
    }

    method Seek(position: nat)
      modifies this`cursor
      ensures cursor == position
    {
      cursor := position;
    }

    /** Overwrites from the cursor, extending the file when it runs past the end. */
    method WriteAll(bytes: seq<Byte>)
      requires cursor <= |contents|
      modifies this
      ensures cursor == old(cursor) + |bytes|
      ensures contents == old(contents)[..old(cursor)] + bytes
                          + if cursor <= |old(contents)| then old(contents)[cursor..] else []
    {
      var end := cursor + |bytes|;
      contents := contents[..cursor] + bytes + if end <= |contents| then contents[end..] else [];
      cursor := end;
    }
  }
}

/** `OverlayPlan`: sector-aligned, in-image, non-overlapping replacement writes. */
module Overlays {
  import opened Results
  import opened Bytes
  import opened Sorting
  import opened Images

  datatype OverlayLimits = OverlayLimits(maxWrites: nat, maxReplacementBytes: nat, maxReadBytes: nat)

  datatype OverlayError =
    | InvalidLimit
    | InvalidSectorSize(sectorBytes: nat)
    | WriteLimitExceeded(actualWrites: nat, maximumWrites: nat)
    | ReplacementLimitExceeded(actualBytes: nat, maximumBytes: nat)
    | EmptyWrite(offset: nat)
    | UnalignedWrite(offset: nat, length: nat)
    | WriteOutsideImage(offset: nat, length: nat)
    | OverlappingWrites(first: nat, second: nat)
    | OverlayOverflow

  predicate PowerOfTwo(n: nat)
  {
    if n <= 1 then n == 1 else n % 2 == 0 && PowerOfTwo(n / 2)
  }

  /** The accounting loop of `OverlayPlan::build`: total replacement bytes of the first `n` writes. */
  function CheckWrites(writes: seq<OverlayWrite>, n: nat, imageBytes: nat, sector: nat): Result<nat, OverlayError>
    requires n <= |writes| && sector > 0
  {
    if n == 0 then
      Ok(0)
    else
      var total :- CheckWrites(writes, n - 1, imageBytes, sector);
      var w := writes[n - 1];
      if w.bytes == [] then Err(EmptyWrite(w.offset))
      else if w.offset % sector != 0 || |w.bytes| % sector != 0 then Err(UnalignedWrite(w.offset, |w.bytes|))
      else if EndOf(w) >= U64_LIMIT then Err(OverlayOverflow)
      else if EndOf(w) > imageBytes then Err(WriteOutsideImage(w.offset, |w.bytes|))
      else if total + |w.bytes| >= U64_LIMIT then Err(OverlayOverflow)
      else Ok(total + |w.bytes|)
  }

  predicate Overlap(first: OverlayWrite, second: OverlayWrite)
  {
    EndOf(first) > second.offset
  }

  /** `OverlayPlan::build`: the sorted writes, or the first reason to refuse them. */
  function BuildOverlay(imageBytes: nat, sector: nat, writes: seq<OverlayWrite>, limits: OverlayLimits)
    : Result<seq<OverlayWrite>, OverlayError>
  {
    if limits.maxWrites == 0 || limits.maxReplacementBytes == 0 || limits.maxReadBytes == 0 then
      Err(InvalidLimit)
    else if !PowerOfTwo(sector) then
      Err(InvalidSectorSize(sector))
    else if |writes| > limits.maxWrites then
      Err(WriteLimitExceeded(|writes|, limits.maxWrites))
    else
      var total :- CheckWrites(writes, |writes|, imageBytes, sector);
      if total > limits.maxReplacementBytes then
        Err(ReplacementLimitExceeded(total, limits.maxReplacementBytes))
      else
        var sorted := SortBy(writes, ByOffset());
        SortBySpec(writes, ByOffset());
        var overlap := FirstClash(sorted, Overlap, Pairs(sorted));
        if overlap.Some? then
          Err(OverlappingWrites(sorted[overlap.value].offset, sorted[overlap.value + 1].offset))
        else
          Ok(sorted)
  }

  ghost predicate SoundWrites(writes: seq<OverlayWrite>, n: nat, imageBytes: nat)
    requires n <= |writes|
  {
    forall k :: 0 <= k < n ==> writes[k].bytes != [] && EndOf(writes[k]) <= imageBytes
  }

  lemma {:induction false} CheckedWritesSound(writes: seq<OverlayWrite>, n: nat, imageBytes: nat, sector: nat)
    requires n <= |writes| && sector > 0 && CheckWrites(writes, n, imageBytes, sector).Ok?
    ensures SoundWrites(writes, n, imageBytes)
  {
    if n > 0 {
      CheckedWritesSound(writes, n - 1, imageBytes, sector);
    }
  }

  /** An accepted overlay is the given writes sorted by offset, every one of them nonempty and inside
      the image, and every two of them, given or sorted, apart: checking neighbours suffices. */
  lemma OverlaySpec(imageBytes: nat, sector: nat, writes: seq<OverlayWrite>, limits: OverlayLimits)
    requires BuildOverlay(imageBytes, sector, writes, limits).Ok?
    ensures var sorted := BuildOverlay(imageBytes, sector, writes, limits).value;
            && multiset(sorted) == multiset(writes) && SortedBy(sorted, ByOffset())
            && AllApart(sorted, ByOffset(), ByEnd()) && AllApart(writes, ByOffset(), ByEnd())
            && DisjointWrites(sorted) && AllFit(sorted, imageBytes) && NonemptyWrites(sorted)
                 && SameWrites(sorted, writes)
  {
    hide SortedBy, AllApart, DisjointWrites, CheckWrites;
    var sorted := BuildOverlay(imageBytes, sector, writes, limits).value;
    SortBySpec(writes, ByOffset());
    CheckedWritesSound(writes, |writes|, imageBytes, sector);
    assert forall k :: 0 <= k < |sorted| - 1 ==> !Overlap(sorted[k], sorted[k + 1]);
    SortedOverlaySpec(imageBytes, writes, sorted);
  }

  lemma SortedOverlaySpec(imageBytes: nat, writes: seq<OverlayWrite>, sorted: seq<OverlayWrite>)
    requires sorted == SortBy(writes, ByOffset()) && SoundWrites(writes, |writes|, imageBytes)
    requires forall k :: 0 <= k < |sorted| - 1 ==> EndOf(sorted[k]) <= sorted[k + 1].offset
    ensures AllApart(sorted, ByOffset(), ByEnd()) && AllApart(writes, ByOffset(), ByEnd())
    ensures DisjointWrites(sorted) && AllFit(sorted, imageBytes) && NonemptyWrites(sorted) && SameWrites(sorted, writes)
  {
    hide SortedBy, AllApart, DisjointWrites;
    SortBySpec(writes, ByOffset());
    SortByMembers(writes, ByOffset());
    SortedApart(sorted);
    ApartPermutes(sorted, writes, ByOffset(), ByEnd());
    ApartWritesDisjoint(sorted);
  }
}
