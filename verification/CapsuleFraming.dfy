/** When what was appended is what gets scanned: exact framing conditions, the production shape,
    redundancy of the two header copies, and the shape of every phase history. */
module CapsuleFraming {
  import opened Results
  import opened Bytes
  import opened CapsuleHeader
  import opened CapsuleLog
  import opened CapsuleRecovery

  /** The encoder writes one header window and the decoder reads it back. */
  ghost predicate RoundTrips(c: Codec)
  {
    forall h :: |c.encode(h)| == HEADER_BYTES
                && (h.previousOffset != Some(NO_PREVIOUS) ==> c.decode(c.encode(h)) == Ok(h))
  }

  lemma CapsuleCodecRoundTrips(hashes: Hashes)
    ensures RoundTrips(CapsuleCodec(hashes))
  {
    var c := CapsuleCodec(hashes);
    forall h
      ensures |c.encode(h)| == HEADER_BYTES
                && (h.previousOffset != Some(NO_PREVIOUS) ==> c.decode(c.encode(h)) == Ok(h))
    {
      DecodeOfEncode(hashes, h);
    }
  }

  // ----- one append, then a scan -----

  function Appended(capsule: seq<Byte>, encoded: seq<Byte>, payload: seq<Byte>): seq<Byte>
  {
    capsule + encoded + payload + encoded
  }

  lemma AppendedWindows(capsule: seq<Byte>, encoded: seq<Byte>, payload: seq<Byte>)
    requires |encoded| == HEADER_BYTES
    ensures var b := Appended(capsule, encoded, payload);
            && capsule <= b && |b| == |capsule| + RecordBytes(|payload|)
            && b[|capsule|..|capsule| + HEADER_BYTES] == encoded
            && b[|capsule| + HEADER_BYTES..|capsule| + HEADER_BYTES + |payload|] == payload
            && b[|capsule| + HEADER_BYTES + |payload|..|capsule| + HEADER_BYTES + |payload| + HEADER_BYTES] == encoded
  {
  }

  lemma NextHeaderLinks(c: Codec, capsule: seq<Byte>, limits: Limits, identity: Identity, phase: Phase,
                        payload: Payload)
    requires ScanCapsule(c, capsule, limits).Ok?
    requires NextHeader(c, ScanCapsule(c, capsule, limits).value.generations, identity, phase, payload).Ok?
    requires |capsule| <= USIZE_MAX
    ensures var generations := ScanCapsule(c, capsule, limits).value.generations;
            var h := NextHeader(c, generations, identity, phase, payload).value;
            && h.payloadLen == |payload| && h.phase == phase && h.identity == identity
            && h.payloadDigest == c.sha(payload)
            && h.previousOffset != Some(NO_PREVIOUS)
            && ValidateChain(generations, h).Ok?
  {
    ScanOffsetsSmall(c, capsule, limits);
  }

  lemma {:induction false} WalkOffsetsSmall(c: Codec, b: seq<Byte>, limits: Limits, m: Index, offset: nat,
                                            generations: seq<Generation>)
    requires offset <= |b| && Keyed(m) && Walk(c, b, limits, m, offset, generations, false).Ok?
    requires forall k :: 0 <= k < |generations| ==> generations[k].offset + RecordBytes(0) <= |b|
    ensures var gs := Walk(c, b, limits, m, offset, generations, false).value.generations;
            forall k :: 0 <= k < |gs| ==> gs[k].offset + RecordBytes(0) <= |b|
    decreases |b| - offset
  {
    if offset < |b| {
      var g := AcceptRecord(c, b, m[offset], generations).value;
      WalkOffsetsSmall(c, b, limits, m, offset + RecordBytes(m[offset].header.payloadLen), generations + [g]);
    }
  }

  lemma ScanOffsetsSmall(c: Codec, bytes: seq<Byte>, limits: Limits)
    requires ScanCapsule(c, bytes, limits).Ok?
    ensures var gs := ScanCapsule(c, bytes, limits).value.generations;
            forall k :: 0 <= k < |gs| ==> gs[k].offset + RecordBytes(0) <= |bytes|
  {
    if bytes != [] {
      ScanUsesIndex(c, bytes, limits, false);
      WalkOffsetsSmall(c, bytes, limits, BuildIndex(c, bytes, limits).value, 0, []);
    }
  }

  /** The appended record is framed by its own two headers. */
  lemma AppendClaims(c: Codec, capsule: seq<Byte>, identity: Identity, phase: Phase, payload: Payload, limits: Limits)
    returns (h: Header)
    requires RoundTrips(c)
    requires Append(c, capsule, identity, phase, payload, limits).Ok?
    ensures var updated := Append(c, capsule, identity, phase, payload, limits).value;
            var before := ScanCapsule(c, capsule, limits).value.generations;
            && capsule <= updated && |updated| == |capsule| + RecordBytes(|payload|) <= USIZE_MAX
            && 0 < |updated| <= limits.maxCapsuleBytes && |before| < limits.maxGenerations
            && Ok(h) == NextHeader(c, before, identity, phase, payload)
            && Claims(c, updated, limits, |capsule|, h)
            && DecodeAt(c, updated, |capsule|) == Some(h)
            && DecodeAt(c, updated, |capsule| + HEADER_BYTES + |payload|) == Some(h)
            && updated[|capsule| + HEADER_BYTES..|capsule| + HEADER_BYTES + h.payloadLen] == payload
            && ValidateChain(before, h).Ok?
            && h.payloadDigest == c.sha(payload)
  {
    var updated := Append(c, capsule, identity, phase, payload, limits).value;
    var before := ScanCapsule(c, capsule, limits).value.generations;
    h := NextHeader(c, before, identity, phase, payload).value;
    NextHeaderLinks(c, capsule, limits, identity, phase, payload);
    AppendedWindows(capsule, c.encode(h), payload);
    assert updated == Appended(capsule, c.encode(h), payload);
  }

  /** Exactly the buffers whose framing the scanner can index. */
  ghost predicate Framed(c: Codec, bytes: seq<Byte>, limits: Limits)
  {
    Unambiguous(c, bytes, limits) && NoOverflow(c, bytes, limits)
  }

  /** After a successful append, either scan succeeds exactly when the framing is unambiguous (and
      no header names an overflowing length), and then it sees what was there before plus exactly
      the appended generation, both of its headers intact. */
  lemma AppendThenScan(c: Codec, capsule: seq<Byte>, identity: Identity, phase: Phase, payload: Payload,
                       limits: Limits, torn: bool)
    requires RoundTrips(c)
    requires Append(c, capsule, identity, phase, payload, limits).Ok?
    ensures var updated := Append(c, capsule, identity, phase, payload, limits).value;
            var before := ScanCapsule(c, capsule, limits).value.generations;
            if Framed(c, updated, limits) then
              Scan(c, updated, limits, torn)
              == Ok(View(before + [NewGeneration(c, before, |capsule|, identity, phase, payload)], |updated|))
            else
              Scan(c, updated, limits, torn).Err?
  {
    hide Walk, FindCandidates, MergeBelow;
    var h := AppendClaims(c, capsule, identity, phase, payload, limits);
    ScanNewest(c, capsule, Append(c, capsule, identity, phase, payload, limits).value, limits, h, torn);
  }

  /** One more claimed, digested and chained record at the end of an accepted capsule. */
  lemma ScanNewest(c: Codec, capsule: seq<Byte>, updated: seq<Byte>, limits: Limits, h: Header, torn: bool)
    requires ScanCapsule(c, capsule, limits).Ok? && capsule <= updated
    requires |updated| == |capsule| + RecordBytes(h.payloadLen) <= USIZE_MAX && |updated| <= limits.maxCapsuleBytes
    requires Claims(c, updated, limits, |capsule|, h)
    requires c.sha(updated[|capsule| + HEADER_BYTES..|capsule| + HEADER_BYTES + h.payloadLen]) == h.payloadDigest
    requires var before := ScanCapsule(c, capsule, limits).value.generations;
             |before| < limits.maxGenerations && ValidateChain(before, h).Ok?
    ensures var before := ScanCapsule(c, capsule, limits).value.generations;
            if Framed(c, updated, limits) then
              Scan(c, updated, limits, torn)
              == Ok(View(before + [GenerationOf(updated, CandidateOf(c, updated, |capsule|, h))], |updated|))
            else
              Scan(c, updated, limits, torn).Err?
  {
    hide Walk;
    IndexSpec(c, updated, limits);
    if Framed(c, updated, limits) {
      ScanExtends(c, capsule, updated, limits, torn);
      WalkNewest(c, updated, limits, BuildIndex(c, updated, limits).value, |capsule|,
                 ScanCapsule(c, capsule, limits).value.generations, h, torn);
    } else {
      UnframedFails(c, updated, limits, torn);
    }
  }

  /** No record starts at the cut: the newest leading header, where whole, names a record that no
      longer fits. */
  lemma TornRecordUnclaimed(c: Codec, capsule: seq<Byte>, updated: seq<Byte>, limits: Limits, h: Header, cut: nat)
    requires capsule <= updated && |updated| == |capsule| + RecordBytes(h.payloadLen)
    requires DecodeAt(c, updated, |capsule|) == Some(h)
    requires |capsule| < cut < |updated|
    ensures forall g :: !Claims(c, updated[..cut], limits, |capsule|, g)
    ensures cut >= |capsule| + HEADER_BYTES ==> DecodeAt(c, updated[..cut], |capsule|) == Some(h)
  {
    if cut >= |capsule| + HEADER_BYTES {
      DecodeAtPrefix(c, updated[..cut], updated, |capsule|);
    }
  }

  /** Tearing what an append wrote, wherever: the strict scan fails, and recovery succeeds exactly
      when what is left can be indexed at all, returning exactly what was there before the append.
      Unlike the strict scan of the whole, this needs no unambiguous framing. */
  lemma AppendThenTear(c: Codec, capsule: seq<Byte>, identity: Identity, phase: Phase, payload: Payload,
                       limits: Limits, cut: nat)
    requires RoundTrips(c)
    requires Append(c, capsule, identity, phase, payload, limits).Ok?
    requires |capsule| < cut < |Append(c, capsule, identity, phase, payload, limits).value|
    ensures var torn := Append(c, capsule, identity, phase, payload, limits).value[..cut];
            && ScanCapsule(c, torn, limits).Err?
            && (RecoverCapsule(c, torn, limits).Ok? <==> |MAGIC| <= cut && Framed(c, torn, limits))
            && (RecoverCapsule(c, torn, limits).Ok? ==>
                  RecoverCapsule(c, torn, limits)
                      == Ok(View(ScanCapsule(c, capsule, limits).value.generations, |capsule|)))
  {
    hide Walk, Append, NextHeader, FindCandidates, MergeBelow;
    var updated := Append(c, capsule, identity, phase, payload, limits).value;
    var h := AppendClaims(c, capsule, identity, phase, payload, limits);
    var torn := updated[..cut];
    IndexSpec(c, torn, limits);
    AppendNeedsScan(c, capsule, Entry(identity, phase, payload), limits);
    ScanUsesIndex(c, torn, limits, false);
    ScanUsesIndex(c, torn, limits, true);
    if |MAGIC| <= cut && Framed(c, torn, limits) {
      assert capsule <= torn;
      ScanExtends(c, capsule, torn, limits, false);
      ScanExtends(c, capsule, torn, limits, true);
      TornRecordUnclaimed(c, capsule, updated, limits, h, cut);
      TornWalk(c, torn, limits, BuildIndex(c, torn, limits).value, |capsule|,
               ScanCapsule(c, capsule, limits).value.generations, h);
    }
  }

  lemma TornWalk(c: Codec, b: seq<Byte>, limits: Limits, m: Index, offset: nat, generations: seq<Generation>, h: Header)
    requires Keyed(m) && offset < |b| < offset + RecordBytes(h.payloadLen) <= USIZE_MAX
    requires offset !in m && |generations| < limits.maxGenerations
    requires |b| >= offset + HEADER_BYTES ==> DecodeAt(c, b, offset) == Some(h)
    requires h.payloadLen <= limits.maxGenerationBytes && ValidateChain(generations, h).Ok?
    ensures Walk(c, b, limits, m, offset, generations, true) == Ok(View(generations, offset))
    ensures Walk(c, b, limits, m, offset, generations, false).Err?
  {
    assert IsRecoverableTornTail(c, b, offset, generations, limits) == Ok(true);
  }

  lemma UnframedFails(c: Codec, bytes: seq<Byte>, limits: Limits, torn: bool)
    requires bytes != [] && !Framed(c, bytes, limits)
    ensures Scan(c, bytes, limits, torn).Err?
  {
    IndexSpec(c, bytes, limits);
    if ValidateLimits(limits).Ok? && |bytes| <= limits.maxCapsuleBytes {
      ScanUsesIndex(c, bytes, limits, torn);
    }
  }

  lemma WalkNewest(c: Codec, b: seq<Byte>, limits: Limits, m: Index, offset: nat, generations: seq<Generation>,
                   h: Header, torn: bool)
    requires Keyed(m) && offset in m && m[offset] == CandidateOf(c, b, offset, h)
    requires |b| == offset + RecordBytes(h.payloadLen) <= USIZE_MAX && |generations| < limits.maxGenerations
    requires c.sha(b[offset + HEADER_BYTES..offset + HEADER_BYTES + h.payloadLen]) == h.payloadDigest
    requires ValidateChain(generations, h).Ok?
    ensures Walk(c, b, limits, m, offset, generations, torn)
         == Ok(View(generations + [GenerationOf(b, CandidateOf(c, b, offset, h))], |b|))
  {
    var g := AcceptRecord(c, b, m[offset], generations).value;
    assert Walk(c, b, limits, m, |b|, generations + [g], torn) == Ok(View(generations + [g], |b|));
  }

  function NewGeneration(c: Codec, before: seq<Generation>, offset: U64, identity: Identity, phase: Phase,
                         payload: Payload): Generation
    requires before != [] ==> before[|before| - 1].generation + 1 < U64_LIMIT
  {
    Generation(offset,
               if before == [] then 0 else before[|before| - 1].generation + 1,
               phase,
               if before == [] then None else Some(before[|before| - 1].offset),
               identity, c.sha(payload), payload, true, true)
  }

  // ----- whole histories -----

  datatype Entry = Entry(identity: Identity, phase: Phase, payload: Payload)

  function AppendAll(c: Codec, entries: seq<Entry>, limits: Limits): Result<seq<Byte>, CapsuleError>
  {
    if entries == [] then
      Ok([])
    else
      var last := entries[|entries| - 1];
      var capsule :- AppendAll(c, entries[..|entries| - 1], limits);
      Append(c, capsule, last.identity, last.phase, last.payload, limits)
  }

  /** Where the record of entry `k` starts when the records are laid end to end. */
  function StartOf(entries: seq<Entry>, k: nat): nat
    requires k <= |entries|
  {
    if k == 0 then 0 else StartOf(entries, k - 1) + RecordBytes(|entries[k - 1].payload|)
  }

  function TotalBytes(entries: seq<Entry>): nat
  {
    StartOf(entries, |entries|)
  }

  lemma {:induction false} StartsAscend(entries: seq<Entry>, j: nat, k: nat)
    requires j <= k <= |entries|
    ensures StartOf(entries, j) + RecordBytes(0) * (k - j) <= StartOf(entries, k)
    ensures j < k ==> StartOf(entries, j) + RecordBytes(|entries[j].payload|) <= StartOf(entries, k)
  {
    if j < k {
      StartsAscend(entries, j, k - 1);
    }
  }

  lemma {:induction false} StartsOfPrefix(entries: seq<Entry>, n: nat, k: nat)
    requires k <= n <= |entries|
    ensures StartOf(entries[..n], k) == StartOf(entries, k)
  {
    if k > 0 {
      StartsOfPrefix(entries, n, k - 1);
    }
  }

  /** The generation a scan should report for entry `k`: numbered `k`, linked to its predecessor,
      both headers intact. */
  function LayoutAt(c: Codec, entries: seq<Entry>, k: nat): Generation
    requires k < |entries| && TotalBytes(entries) < U64_LIMIT
  {
    StartsAscend(entries, 0, k);
    StartsAscend(entries, k, |entries|);
    StartsAscend(entries, if k == 0 then 0 else k - 1, |entries|);
    var e := entries[k];
    Generation(StartOf(entries, k), k, e.phase, if k == 0 then None else Some(StartOf(entries, k - 1)), e.identity,
               c.sha(e.payload), e.payload, true, true)
  }

  function Layout(c: Codec, entries: seq<Entry>): (r: seq<Generation>)
    requires TotalBytes(entries) < U64_LIMIT
    ensures |r| == |entries|
    ensures forall k :: 0 <= k < |entries| ==> r[k] == LayoutAt(c, entries, k)
  {
    seq(|entries|, k requires 0 <= k < |entries| => LayoutAt(c, entries, k))
  }

  lemma LayoutGrows(c: Codec, entries: seq<Entry>, e: Entry)
    requires TotalBytes(entries + [e]) < U64_LIMIT
    ensures TotalBytes(entries + [e]) == TotalBytes(entries) + RecordBytes(|e.payload|)
    ensures var before := Layout(c, entries);
            && (before != [] ==> before[|before| - 1].generation + 1 < U64_LIMIT)
            && Layout(c, entries + [e])
               == before + [NewGeneration(c, before, TotalBytes(entries), e.identity, e.phase, e.payload)]
  {
    var grown := entries + [e];
    assert grown[..|entries|] == entries;
    forall k: nat | k <= |entries|
      ensures StartOf(grown, k) == StartOf(entries, k)
    {
      StartsOfPrefix(grown, |entries|, k);
    }
    StartsAscend(grown, 0, |entries|);
    var before := Layout(c, entries);
    var after := before + [NewGeneration(c, before, TotalBytes(entries), e.identity, e.phase, e.payload)];
    forall k | 0 <= k < |grown|
      ensures after[k] == LayoutAt(c, grown, k)
    {
      if k < |entries| {
        assert LayoutAt(c, grown, k) == LayoutAt(c, entries, k);
      }
    }
  }

  lemma {:induction false} AppendAllLength(c: Codec, entries: seq<Entry>, limits: Limits)
    requires RoundTrips(c) && AppendAll(c, entries, limits).Ok?
    ensures |AppendAll(c, entries, limits).value| == TotalBytes(entries) < U64_LIMIT
  {
    hide Scan, Append;
    if entries != [] {
      var earlier, last := entries[..|entries| - 1], entries[|entries| - 1];
      AppendAllLength(c, earlier, limits);
      AppendNeedsScan(c, AppendAll(c, earlier, limits).value, last, limits);
      StartsOfPrefix(entries, |entries| - 1, |entries| - 1);
    }
  }

  lemma AppendNeedsScan(c: Codec, capsule: seq<Byte>, e: Entry, limits: Limits)
    requires Append(c, capsule, e.identity, e.phase, e.payload, limits).Ok? && RoundTrips(c)
    ensures ScanCapsule(c, capsule, limits).Ok?
    ensures |Append(c, capsule, e.identity, e.phase, e.payload, limits).value|
         == |capsule| + RecordBytes(|e.payload|) < U64_LIMIT
  {
    hide Walk;
  }

  lemma EmptyScans(c: Codec, limits: Limits, torn: bool)
    requires ValidateLimits(limits).Ok?
    ensures Scan(c, [], limits, torn) == Ok(View([], 0))
  {
  }

  /** Append/scan round trip over any sequence of successful appends: a scan of the result, strict or
      recovering, succeeds exactly when the framing is unambiguous, and then returns exactly the
      appended identities, phases and payloads, in order, numbered and linked. */
  lemma {:induction false} AppendAllThenScan(c: Codec, entries: seq<Entry>, limits: Limits, torn: bool)
    requires RoundTrips(c) && ValidateLimits(limits).Ok? && AppendAll(c, entries, limits).Ok?
    ensures TotalBytes(entries) < U64_LIMIT
    ensures var bytes := AppendAll(c, entries, limits).value;
            && |bytes| == TotalBytes(entries)
            && if entries == [] || Framed(c, bytes, limits) then
                 Scan(c, bytes, limits, torn) == Ok(View(Layout(c, entries), |bytes|))
               else
                 Scan(c, bytes, limits, torn).Err?
  {
    hide Scan, Append, Framed;
    AppendAllLength(c, entries, limits);
    if entries == [] {
      EmptyScans(c, limits, torn);
    } else {
      var earlier, last := entries[..|entries| - 1], entries[|entries| - 1];
      AppendAllThenScan(c, earlier, limits, false);
      var capsule := AppendAll(c, earlier, limits).value;
      AppendNeedsScan(c, capsule, last, limits);
      AppendThenScan(c, capsule, last.identity, last.phase, last.payload, limits, torn);
      assert earlier + [last] == entries;
      LayoutGrows(c, earlier, last);
    }
  }
}
