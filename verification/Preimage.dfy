/** Capturing the exact source bytes that a set of replacement writes is about to overwrite. */
module Preimage {
  import opened Results
  import opened Bytes
  import opened Sorting
  import opened Images

  datatype PreimageLimits = PreimageLimits(maxWrites: nat, maxTotalBytes: nat)

  /** `OutOfRange` stands for the image reader's refusal; which chunk it refused is not recorded. */
  datatype PreimageError =
    | InvalidLimit(field: string)
    | WriteLimitExceeded(actualWrites: nat, maximumWrites: nat)
    | ByteLimitExceeded(actualBytes: nat, maximumBytes: nat)
    | EmptyWrite(offset: nat)
    | RangeOverflow(offset: nat, length: nat)
    | OverlappingWrites(first: nat, second: nat)
    | OutOfRange

  /** The validation loop over the first `n` sorted replacements: their total length. */
  function ValidateOrdered(ordered: seq<OverlayWrite>, n: nat, limits: PreimageLimits): Result<nat, PreimageError>
    requires n <= |ordered|
  {
    if n == 0 then
      Ok(0)
    else
      var total :- ValidateOrdered(ordered, n - 1, limits);
      var w := ordered[n - 1];
      if w.bytes == [] then Err(EmptyWrite(w.offset))
      else if EndOf(w) >= U64_LIMIT then Err(RangeOverflow(w.offset, |w.bytes|))
      else if n >= 2 && w.offset < EndOf(ordered[n - 2]) then Err(OverlappingWrites(ordered[n - 2].offset, w.offset))
      else if total + |w.bytes| >= U64_LIMIT then Err(ByteLimitExceeded(U64_LIMIT - 1, limits.maxTotalBytes))
      else Ok(total + |w.bytes|)
  }

  function BeforeImage(image: seq<Byte>, w: OverlayWrite): OverlayWrite
    requires Fits(w, |image|)
  {
    OverlayWrite(w.offset, image[w.offset..EndOf(w)])
  }

  /** The before-images of the first `n` replacements. */
  function Captured(image: seq<Byte>, ordered: seq<OverlayWrite>, n: nat): Result<seq<OverlayWrite>, PreimageError>
    requires n <= |ordered|
  {
    if n == 0 then
      Ok([])
    else
      var earlier :- Captured(image, ordered, n - 1);
      if Fits(ordered[n - 1], |image|) then Ok(earlier + [BeforeImage(image, ordered[n - 1])]) else Err(OutOfRange)
  }

  /** `capture_before_images`, with no mention of how large one read may be. */
  function Capture(image: seq<Byte>, replacements: seq<OverlayWrite>, limits: PreimageLimits)
    : Result<seq<OverlayWrite>, PreimageError>
  {
    if limits.maxWrites == 0 then
      Err(InvalidLimit("max_writes"))
    else if limits.maxTotalBytes == 0 then
      Err(InvalidLimit("max_total_bytes"))
    else if |replacements| > limits.maxWrites then
      Err(WriteLimitExceeded(|replacements|, limits.maxWrites))
    else
      var ordered := SortBy(replacements, ByOffset());
      var total :- ValidateOrdered(ordered, |ordered|, limits);
      if total > limits.maxTotalBytes then
        Err(ByteLimitExceeded(total, limits.maxTotalBytes))
      else
        Captured(image, ordered, |ordered|)
  }

  // ----- the loops -----

  lemma {:induction false} ValidationErrorPersists(ordered: seq<OverlayWrite>, n: nat, m: nat, limits: PreimageLimits)
    requires n <= m <= |ordered| && ValidateOrdered(ordered, n, limits).Err?
    ensures ValidateOrdered(ordered, m, limits) == ValidateOrdered(ordered, n, limits)
  {
    if n < m {
      ValidationErrorPersists(ordered, n, m - 1, limits);
    }
  }

  lemma {:induction false} CaptureErrorPersists(image: seq<Byte>, ordered: seq<OverlayWrite>, n: nat, m: nat)
    requires n <= m <= |ordered| && Captured(image, ordered, n).Err?
    ensures Captured(image, ordered, m) == Captured(image, ordered, n)
  {
    if n < m {
      CaptureErrorPersists(image, ordered, n, m - 1);
    }
  }

  method ValidateReplacements(ordered: seq<OverlayWrite>, limits: PreimageLimits)
    returns (r: Result<nat, PreimageError>)
    ensures r == ValidateOrdered(ordered, |ordered|, limits)
  {
    var total := 0;
    var prior: Option<(nat, nat)> := None;
    for k := 0 to |ordered|
      invariant ValidateOrdered(ordered, k, limits) == Ok(total)
      invariant prior == if k == 0 then None else Some((ordered[k - 1].offset, EndOf(ordered[k - 1])))
    {
      var w := ordered[k];
      var end := EndOf(w);
      var failure: Option<PreimageError> := None;
      if w.bytes == [] {
        failure := Some(EmptyWrite(w.offset));
      } else if end >= U64_LIMIT {
        failure := Some(RangeOverflow(w.offset, |w.bytes|));
      } else if prior.Some? && w.offset < prior.value.1 {
        failure := Some(OverlappingWrites(prior.value.0, w.offset));
      } else if total + |w.bytes| >= U64_LIMIT {
        failure := Some(ByteLimitExceeded(U64_LIMIT - 1, limits.maxTotalBytes));
      }
      if failure.Some? {
        assert ValidateOrdered(ordered, k + 1, limits) == Err(failure.value);
        ValidationErrorPersists(ordered, k + 1, |ordered|, limits);
        return Err(failure.value);
      }
      prior := Some((w.offset, end));
      total := total + |w.bytes|;
    }
    return Ok(total);
  }

  /** `read_exact_at` of an image reader with a per-read cap. */
  function ReadImage(image: seq<Byte>, maxReadBytes: nat, offset: nat, length: nat): Option<seq<Byte>>
  {
    if length > maxReadBytes || offset + length > |image| then None else Some(image[offset..offset + length])
  }

  /** The chunk loop for one replacement: however the reads are cut, the bytes are the same. */
  method ReadInChunks(image: seq<Byte>, maxReadBytes: nat, offset: nat, length: nat)
    returns (r: Result<seq<Byte>, PreimageError>)
    requires maxReadBytes > 0
    ensures length == 0 ==> r == Ok([])
    ensures length > 0 ==> r == if offset + length <= |image| then Ok(image[offset..offset + length])
              else Err(OutOfRange)
  {
    var bytes: seq<Byte> := [];
    var readOffset, remaining := offset, length;
    while remaining != 0
      invariant 0 <= remaining <= length && readOffset == offset + (length - remaining)
      invariant remaining < length ==> readOffset <= |image| && bytes == image[offset..readOffset]
      invariant remaining == length ==> bytes == []
      decreases remaining
    {
      var chunkLength := if remaining < maxReadBytes then remaining else maxReadBytes;
      var chunk := ReadImage(image, maxReadBytes, readOffset, chunkLength);
      if chunk.None? {
        return Err(OutOfRange);
      }
      bytes := bytes + chunk.value;
      readOffset := readOffset + chunkLength;
      remaining := remaining - chunkLength;
    }
    return Ok(bytes);
  }

  /** `capture_before_images_with_reader`. The reader's cap is positive: every image reader is opened
      with a nonzero cap, and with a zero cap the chunk loop would never advance. */
  method CaptureBeforeImages(image: seq<Byte>, maxReadBytes: nat, replacements: seq<OverlayWrite>,
                             limits: PreimageLimits)
    returns (r: Result<seq<OverlayWrite>, PreimageError>)
    requires maxReadBytes > 0
    ensures r == Capture(image, replacements, limits)
  {
    if limits.maxWrites == 0 {
      return Err(InvalidLimit("max_writes"));
    }
    if limits.maxTotalBytes == 0 {
      return Err(InvalidLimit("max_total_bytes"));
    }
    if |replacements| > limits.maxWrites {
      return Err(WriteLimitExceeded(|replacements|, limits.maxWrites));
    }
    var ordered := SortBy(replacements, ByOffset());
    var total := ValidateReplacements(ordered, limits);
    if total.Err? {
      return Err(total.error);
    }
    if total.value > limits.maxTotalBytes {
      return Err(ByteLimitExceeded(total.value, limits.maxTotalBytes));
    }
    ValidatedNonempty(ordered, |ordered|, limits);
    var output: seq<OverlayWrite> := [];
    for k := 0 to |ordered|
      invariant Captured(image, ordered, k) == Ok(output)
    {
      var replacement := ordered[k];
      var bytes := ReadInChunks(image, maxReadBytes, replacement.offset, |replacement.bytes|);
      if bytes.Err? {
        assert Captured(image, ordered, k + 1) == Err(OutOfRange);
        CaptureErrorPersists(image, ordered, k + 1, |ordered|);
        return Err(bytes.error);
      }
      output := output + [OverlayWrite(replacement.offset, bytes.value)];
    }
    return Ok(output);
  }

  // ----- what was captured -----

  lemma {:induction false} ValidatedNonempty(ordered: seq<OverlayWrite>, n: nat, limits: PreimageLimits)
    requires n <= |ordered| && ValidateOrdered(ordered, n, limits).Ok?
    ensures forall k :: 0 <= k < n ==> ordered[k].bytes != []
    ensures forall k :: 0 <= k < n - 1 ==> EndOf(ordered[k]) <= ordered[k + 1].offset
  {
    if n > 0 {
      ValidatedNonempty(ordered, n - 1, limits);
    }
  }

  lemma {:induction false} CapturedEach(image: seq<Byte>, ordered: seq<OverlayWrite>, n: nat)
    requires n <= |ordered| && Captured(image, ordered, n).Ok?
    ensures var output := Captured(image, ordered, n).value;
            && |output| == n
            && (forall k :: 0 <= k < n ==> Fits(ordered[k], |image|) && output[k] == BeforeImage(image, ordered[k]))
  {
    if n > 0 {
      CapturedEach(image, ordered, n - 1);
    }
  }

  /** Same ranges, one for one. */
  predicate SameRanges(a: seq<OverlayWrite>, b: seq<OverlayWrite>)
  {
    |a| == |b| && forall k :: 0 <= k < |a| ==> a[k].offset == b[k].offset && |a[k].bytes| == |b[k].bytes|
  }

  /** Capture succeeds with writes that are sorted, nonempty, pairwise apart and range-for-range a
      permutation of the replacements, each holding exactly the image's bytes. */
  lemma CaptureSpec(image: seq<Byte>, replacements: seq<OverlayWrite>, limits: PreimageLimits)
    requires Capture(image, replacements, limits).Ok?
    ensures var captured := Capture(image, replacements, limits).value;
            var ordered := SortBy(replacements, ByOffset());
            && multiset(ordered) == multiset(replacements) && SameRanges(captured, ordered)
            && SortedBy(captured, ByOffset())
            && AllApart(captured, ByOffset(), ByEnd()) && AllApart(replacements, ByOffset(), ByEnd())
            && TakenFrom(captured, image)
            && NonemptyWrites(captured) && AllFit(replacements, |image|)
  {
    var captured := Capture(image, replacements, limits).value;
    var ordered := SortBy(replacements, ByOffset());
    SortBySpec(replacements, ByOffset());
    ValidatedNonempty(ordered, |ordered|, limits);
    CapturedEach(image, ordered, |ordered|);
    CapturedShape(image, ordered, captured);
    assert NonemptyWrites(ordered);
    SortedApart(ordered);
    ApartPermutes(ordered, replacements, ByOffset(), ByEnd());
    SortByMembers(replacements, ByOffset());
    assert forall w :: w in replacements ==> w in ordered;
  }

  lemma CapturedShape(image: seq<Byte>, ordered: seq<OverlayWrite>, captured: seq<OverlayWrite>)
    requires SortedBy(ordered, ByOffset()) && |captured| == |ordered|
    requires forall k :: 0 <= k < |ordered| ==> ordered[k].bytes != []
    requires forall k :: 0 <= k < |ordered| - 1 ==> EndOf(ordered[k]) <= ordered[k + 1].offset
    requires forall k :: 0 <= k < |ordered| ==>
               Fits(ordered[k], |image|) && captured[k] == BeforeImage(image, ordered[k])
    ensures SortedBy(captured, ByOffset()) && SameRanges(captured, ordered) && TakenFrom(captured, image)
    ensures NonemptyWrites(captured) && AllApart(captured, ByOffset(), ByEnd()) && AllFit(ordered, |image|)
  {
    forall k | 0 <= k < |captured| - 1
      ensures EndOf(captured[k]) <= captured[k + 1].offset
    {
      assert EndOf(ordered[k]) <= ordered[k + 1].offset;
    }
    SortedApart(captured);
  }

  /** Replacing and then writing back what was captured, each in any order, is the identity. */
  lemma CaptureInverse(image: seq<Byte>, replacements: seq<OverlayWrite>, limits: PreimageLimits,
                       forward: seq<OverlayWrite>, back: seq<OverlayWrite>)
    requires Capture(image, replacements, limits).Ok?
    requires multiset(forward) == multiset(replacements)
    requires multiset(back) == multiset(Capture(image, replacements, limits).value)
    ensures AllFit(forward, |image|) && AllFit(back, |image|)
    ensures ApplyAll(ApplyAll(image, forward), back) == image
  {
    var captured := Capture(image, replacements, limits).value;
    var ordered := SortBy(replacements, ByOffset());
    CaptureSpec(image, replacements, limits);
    forall w
      ensures w in forward <==> w in replacements
      ensures w in back <==> w in captured
      ensures w in ordered <==> w in replacements
    {
      MultisetMember(forward, replacements, w);
      MultisetMember(back, captured, w);
      MultisetMember(ordered, replacements, w);
    }
    AppliedAgreesOutside(image, forward);
    forall position: nat | position < |image| && !Covered(back, position)
      ensures ApplyAll(image, forward)[position] == image[position]
    {
      assert !Covered(forward, position) by {
        if Covered(forward, position) {
          CoverMatched(ordered, captured, forward, back, position);
        }
      }
    }
    RestoresSource(image, ApplyAll(image, forward), back);
  }

  lemma CoverMatched(ordered: seq<OverlayWrite>, captured: seq<OverlayWrite>, forward: seq<OverlayWrite>,
                     back: seq<OverlayWrite>, position: nat)
    requires SameRanges(captured, ordered) && Covered(forward, position)
    requires forall w :: w in forward ==> w in ordered
    requires forall w :: w in captured ==> w in back
    ensures Covered(back, position)
  {
    var w :| w in forward && Covers(w, position);
    var k :| 0 <= k < |ordered| && ordered[k] == w;
    assert Covers(captured[k], position) && captured[k] in back;
  }

  function WriteLength(): OverlayWrite -> int
  {
    (w: OverlayWrite) => |w.bytes|
  }

  /** The running total is the sum of the lengths. */
  lemma {:induction false} ValidationTotals(ordered: seq<OverlayWrite>, n: nat, limits: PreimageLimits)
    requires n <= |ordered| && ValidateOrdered(ordered, n, limits).Ok?
    ensures ValidateOrdered(ordered, n, limits).value == SumBy(ordered[..n], WriteLength())
  {
    if n > 0 {
      ValidationTotals(ordered, n - 1, limits);
      assert ordered[..n][..n - 1] == ordered[..n - 1];
    }
  }

  /** What the sorted replacements must satisfy for the capture to succeed. */
  ghost predicate Capturable(image: seq<Byte>, replacements: seq<OverlayWrite>)
  {
    NonemptyWrites(replacements) && AllFit(replacements, |image|) && AllApart(replacements, ByOffset(), ByEnd())
  }

  /** Validation passes on capturable replacements, with the sum of the lengths. */
  lemma CapturableValidates(image: seq<Byte>, replacements: seq<OverlayWrite>, limits: PreimageLimits)
    requires |image| < U64_LIMIT && Capturable(image, replacements)
    ensures var ordered := SortBy(replacements, ByOffset());
            && ValidateOrdered(ordered, |ordered|, limits) == Ok(SumBy(replacements, WriteLength()))
            && Captured(image, ordered, |ordered|).Ok?
  {
    hide SortBy, AllApart, SortedBy;
    var ordered := SortBy(replacements, ByOffset());
    SortBySpec(replacements, ByOffset());
    SortByMembers(replacements, ByOffset());
    ApartPermutes(replacements, ordered, ByOffset(), ByEnd());
    SortedApart(ordered);
    ValidationSucceeds(image, ordered, |ordered|, limits);
    CaptureSucceeds(image, ordered, |ordered|);
    ValidationTotals(ordered, |ordered|, limits);
    assert ordered[..|ordered|] == ordered;
    SumByPermutes(ordered, replacements, WriteLength());
  }

  lemma CapturedIsCapturable(image: seq<Byte>, replacements: seq<OverlayWrite>, limits: PreimageLimits)
    requires Capture(image, replacements, limits).Ok?
    ensures Capturable(image, replacements)
  {
    CaptureSpec(image, replacements, limits);
    var ordered, captured := SortBy(replacements, ByOffset()), Capture(image, replacements, limits).value;
    forall w | w in replacements
      ensures w.bytes != []
    {
      MultisetMember(ordered, replacements, w);
      var k :| 0 <= k < |ordered| && ordered[k] == w;
      assert captured[k] in captured;
    }
  }

  /** Which replacement sets are capturable: nonempty, in the image and pairwise apart, in whatever
      order they are listed, and within both limits. */
  lemma CaptureComplete(image: seq<Byte>, replacements: seq<OverlayWrite>, limits: PreimageLimits)
    requires |image| < U64_LIMIT
    ensures Capture(image, replacements, limits).Ok? <==>
              && limits.maxWrites > 0 && limits.maxTotalBytes > 0 && |replacements| <= limits.maxWrites
              && SumBy(replacements, WriteLength()) <= limits.maxTotalBytes
              && NonemptyWrites(replacements) && AllFit(replacements, |image|)
              && AllApart(replacements, ByOffset(), ByEnd())
  {
    hide SortBy, AllApart, NonemptyWrites, AllFit, ValidateOrdered, Captured, SumBy;
    if Capture(image, replacements, limits).Ok? {
      CapturedIsCapturable(image, replacements, limits);
      CapturableValidates(image, replacements, limits);
    } else if Capturable(image, replacements) {
      CapturableValidates(image, replacements, limits);
    }
  }

  lemma {:induction false} ValidationSucceeds(image: seq<Byte>, ordered: seq<OverlayWrite>, n: nat,
                                              limits: PreimageLimits)
    requires n <= |ordered| && |image| < U64_LIMIT
    requires NonemptyWrites(ordered) && AllFit(ordered, |image|)
    requires forall k :: 0 <= k < |ordered| - 1 ==> EndOf(ordered[k]) <= ordered[k + 1].offset
    ensures ValidateOrdered(ordered, n, limits).Ok?
    ensures ValidateOrdered(ordered, n, limits).value <= if n == 0 then 0 else EndOf(ordered[n - 1])
    ensures ValidateOrdered(ordered, n, limits).value <= |image|
  {
    if n > 0 {
      ValidationSucceeds(image, ordered, n - 1, limits);
      assert ordered[n - 1] in ordered;
      if n >= 2 {
        assert EndOf(ordered[n - 2]) <= ordered[n - 2 + 1].offset;
      }
    }
  }

  lemma {:induction false} CaptureSucceeds(image: seq<Byte>, ordered: seq<OverlayWrite>, n: nat)
    requires n <= |ordered| && AllFit(ordered, |image|)
    ensures Captured(image, ordered, n).Ok?
  {
    if n > 0 {
      CaptureSucceeds(image, ordered, n - 1);
      assert ordered[n - 1] in ordered;
    }
  }
}
