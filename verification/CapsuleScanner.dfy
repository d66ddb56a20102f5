/** The loops of the capsule module, each proved against its specification in CapsuleLog. */
module CapsuleScanner {
  import opened Results
  import opened Bytes
  import opened CapsuleHeader
  import opened CapsuleLog

  lemma {:induction false} CandidatesErrorPersists(c: Codec, bytes: seq<Byte>, limits: Limits, n: nat, m: nat)
    requires n <= m && CandidatesBelow(c, bytes, limits, n).Err?
    ensures CandidatesBelow(c, bytes, limits, m) == CandidatesBelow(c, bytes, limits, n)
  {
    if n < m {
      CandidatesErrorPersists(c, bytes, limits, n, m - 1);
    }
  }

  lemma {:induction false} MergeErrorPersists(candidates: seq<Candidate>, n: nat, m: nat)
    requires n <= m <= |candidates| && MergeBelow(candidates, n).Err?
    ensures MergeBelow(candidates, m) == MergeBelow(candidates, n)
  {
    if n < m {
      MergeErrorPersists(candidates, n, m - 1);
    }
  }

  /** A position that does not start with the magic, or has no room for a header, contributes nothing. */
  lemma UnmarkedPosition(hashes: Hashes, bytes: seq<Byte>, limits: Limits, position: nat)
    requires position + |MAGIC| <= |bytes|
    requires bytes[position..position + |MAGIC|] != MAGIC || position + HEADER_BYTES > |bytes|
    ensures CandidatesAt(CapsuleCodec(hashes), bytes, limits, position) == Ok([])
  {
    hide CandidateAsPrimary, CandidateAsTrailing;
    if position + HEADER_BYTES <= |bytes| {
      assert bytes[position..position + HEADER_BYTES][..8] == bytes[position..position + |MAGIC|];
    }
  }

  /** What one position contributes, in terms of what its window decodes to. */
  lemma MarkedPosition(hashes: Hashes, bytes: seq<Byte>, limits: Limits, position: nat)
    requires position + HEADER_BYTES <= |bytes|
    ensures var c := CapsuleCodec(hashes);
            var decoded := DecodeHeader(hashes, bytes[position..position + HEADER_BYTES]);
            if decoded.Err? || decoded.value.payloadLen > limits.maxGenerationBytes then
              CandidatesAt(c, bytes, limits, position) == Ok([])
            else if CandidateAsPrimary(c, bytes, position, decoded.value).Err? then
              CandidatesAt(c, bytes, limits, position)
                  == Err(CandidateAsPrimary(c, bytes, position, decoded.value).error)
            else
              CandidatesAt(c, bytes, limits, position)
              == Ok(Present(CandidateAsPrimary(c, bytes, position, decoded.value).value)
                    + Present(CandidateAsTrailing(c, bytes, position, decoded.value)))
  {
    hide CandidateAsPrimary, CandidateAsTrailing, DecodeHeader, Present;
  }

  /** Searches every byte position for a decodable header, skipping positions without the magic. */
  method FindCandidatesLoop(hashes: Hashes, bytes: seq<Byte>, limits: Limits)
    returns (r: Result<seq<Candidate>, CapsuleError>)
    ensures r == FindCandidates(CapsuleCodec(hashes), bytes, limits)
  {
    hide CandidateAsPrimary, CandidateAsTrailing, CandidatesAt, DecodeHeader, Present;
    if |bytes| < |MAGIC| {
      return Err(Panicked);
    }
    ghost var c := CapsuleCodec(hashes);
    ghost var last := |bytes| - |MAGIC| + 1;
    var candidates: seq<Candidate> := [];
    var position := 0;
    while position <= |bytes| - |MAGIC|
      invariant 0 <= position <= last
      invariant CandidatesBelow(c, bytes, limits, position) == Ok(candidates)
    {
      var here := CandidatesHere(hashes, bytes, limits, position);
      if here.Err? {
        assert CandidatesBelow(c, bytes, limits, position + 1) == here;
        CandidatesErrorPersists(c, bytes, limits, position + 1, last);
        return here;
      }
      candidates := candidates + here.value;
      position := position + 1;
    }
    return Ok(candidates);
  }

  /** The body of the search: one position tried as a leading and as a trailing copy. */
  method CandidatesHere(hashes: Hashes, bytes: seq<Byte>, limits: Limits, position: nat)
    returns (r: Result<seq<Candidate>, CapsuleError>)
    requires position + |MAGIC| <= |bytes|
    ensures r == CandidatesAt(CapsuleCodec(hashes), bytes, limits, position)
  {
    hide CandidateAsPrimary, CandidateAsTrailing, CandidatesAt, DecodeHeader, Present;
    if bytes[position..position + |MAGIC|] != MAGIC || position + HEADER_BYTES > |bytes| {
      UnmarkedPosition(hashes, bytes, limits, position);
      return Ok([]);
    }
    MarkedPosition(hashes, bytes, limits, position);
    var decoded := DecodeHeader(hashes, bytes[position..position + HEADER_BYTES]);
    if decoded.Err? || decoded.value.payloadLen > limits.maxGenerationBytes {
      return Ok([]);
    }
    var primary := CandidateAsPrimary(CapsuleCodec(hashes), bytes, position, decoded.value);
    if primary.Err? {
      return Err(primary.error);
    }
    var trailing := CandidateAsTrailing(CapsuleCodec(hashes), bytes, position, decoded.value);
    return Ok(Present(primary.value) + Present(trailing));
  }

  method MergeCandidates(candidates: seq<Candidate>) returns (r: Result<Index, CapsuleError>)
    ensures r == MergeBelow(candidates, |candidates|)
  {
    var byStart: Index := map[];
    for k := 0 to |candidates|
      invariant MergeBelow(candidates, k) == Ok(byStart)
    {
      var candidate := candidates[k];
      if candidate.start !in byStart {
        byStart := byStart[candidate.start := candidate];
      } else if byStart[candidate.start].header == candidate.header {
        var existing := byStart[candidate.start];
        byStart := byStart[candidate.start := existing.(
          primaryValid := existing.primaryValid || candidate.primaryValid,
          trailingValid := existing.trailingValid || candidate.trailingValid)];
      } else {
        assert MergeBelow(candidates, k + 1) == Err(AmbiguousGeneration(candidate.start));
        MergeErrorPersists(candidates, k + 1, |candidates|);
        return Err(AmbiguousGeneration(candidate.start));
      }
    }
    return Ok(byStart);
  }

  /** `scan_capsule_impl`: candidates, merge by start, then one pass over the tiling. */
  method ScanCapsuleImpl(hashes: Hashes, bytes: seq<Byte>, limits: Limits, allowTornTail: bool)
    returns (r: Result<View, CapsuleError>)
    ensures r == Scan(CapsuleCodec(hashes), bytes, limits, allowTornTail)
  {
    hide ValidateChain, IsRecoverableTornTail, FindCandidates;
    var c := CapsuleCodec(hashes);
    var valid := ValidateLimits(limits);
    if valid.Err? {
      return Err(valid.error);
    }
    if |bytes| > limits.maxCapsuleBytes {
      return Err(CapsuleTooLarge(|bytes|, limits.maxCapsuleBytes));
    }
    if bytes == [] {
      return Ok(View([], 0));
    }
    var candidates := FindCandidatesLoop(hashes, bytes, limits);
    if candidates.Err? {
      return Err(candidates.error);
    }
    var merged := MergeCandidates(candidates.value);
    if merged.Err? {
      return Err(merged.error);
    }
    var byStart := merged.value;
    MergeKeepsStarts(candidates.value, |candidates.value|);
    var generations: seq<Generation> := [];
    var offset := 0;
    while offset < |bytes|
      invariant 0 <= offset <= |bytes|
      invariant Walk(c, bytes, limits, byStart, offset, generations, allowTornTail)
             == Walk(c, bytes, limits, byStart, 0, [], allowTornTail)
      decreases |bytes| - offset
    {
      if |generations| >= limits.maxGenerations {
        return Err(TooManyGenerations(limits.maxGenerations));
      }
      if offset !in byStart {
        if allowTornTail {
          var torn := IsRecoverableTornTail(c, bytes, offset, generations, limits);
          if torn.Err? {
            return Err(torn.error);
          }
          if torn.value {
            return Ok(View(generations, offset));
          }
        }
        return Err(NoRecoverableHeader(offset));
      }
      var g := AcceptRecord(c, bytes, byStart[offset], generations);
      if g.Err? {
        return Err(g.error);
      }
      generations := generations + [g.value];
      offset := offset + RecordBytes(byStart[offset].header.payloadLen);
    }
    return Ok(View(generations, offset));
  }

  /** A caller-owned capsule buffer. */
  class CapsuleBuffer {
    var bytes: seq<Byte>

    constructor (contents: seq<Byte>)
      ensures bytes == contents
    {
      bytes := contents;
    }

    method Truncate(length: nat)
      requires length <= |bytes|
      modifies this
      ensures bytes == old(bytes)[..length]
    {
      bytes := bytes[..length];
    }

    /** `append_generation`: leaves the buffer as it was unless every check passes. */
    method AppendGeneration(hashes: Hashes, identity: Identity, phase: Phase, payload: Payload, limits: Limits)
      returns (r: Result<(), CapsuleError>)
      modifies this
      ensures match Append(CapsuleCodec(hashes), old(bytes), identity, phase, payload, limits)
              case Ok(updated) => r == Ok(()) && bytes == updated
              case Err(e) => r == Err(e) && bytes == old(bytes)
    {
      hide Scan, NextHeader;
      var valid := ValidateLimits(limits);
      if valid.Err? {
        return Err(valid.error);
      }
      if |payload| > limits.maxGenerationBytes {
        return Err(GenerationTooLarge(|payload|, limits.maxGenerationBytes));
      }
      var view := ScanCapsuleImpl(hashes, bytes, limits, false);
      if view.Err? {
        return Err(view.error);
      }
      var header := NextHeader(CapsuleCodec(hashes), view.value.generations, identity, phase, payload);
      if header.Err? {
        return Err(header.error);
      }
      if |view.value.generations| >= limits.maxGenerations {
        return Err(TooManyGenerations(limits.maxGenerations));
      }
      var recordBytes := RecordBytes(|payload|);
      if recordBytes > USIZE_MAX || |bytes| + recordBytes > USIZE_MAX {
        return Err(ArithmeticOverflow);
      }
      if |bytes| + recordBytes > limits.maxCapsuleBytes {
        return Err(CapsuleTooLarge(|bytes| + recordBytes, limits.maxCapsuleBytes));
      }
      var encoded := EncodeHeaderBytes(hashes, header.value);
      bytes := bytes + encoded[..];
      bytes := bytes + payload;
      bytes := bytes + encoded[..];
      return Ok(());
    }
  }
}
