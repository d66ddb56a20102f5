/** What scanning keeps under truncation and growth: prefix stability, torn-append exactness, and
    recovery as a strict scan of its own prefix. */
module CapsuleRecovery {
  import opened Results
  import opened Bytes
  import opened CapsuleHeader
  import opened CapsuleLog

  lemma DecodeAtPrefix(c: Codec, a: seq<Byte>, b: seq<Byte>, position: nat)
    requires a <= b && position + HEADER_BYTES <= |a|
    ensures DecodeAt(c, a, position) == DecodeAt(c, b, position)
  {
    assert a[position..position + HEADER_BYTES] == b[position..position + HEADER_BYTES];
  }

  /** A record that fits in the shorter buffer is claimed there exactly when it is claimed in the longer. */
  lemma ClaimsPrefix(c: Codec, a: seq<Byte>, b: seq<Byte>, limits: Limits, s: nat, h: Header)
    requires a <= b && s + RecordBytes(h.payloadLen) <= |a|
    ensures Claims(c, a, limits, s, h) <==> Claims(c, b, limits, s, h)
    ensures CandidateOf(c, a, s, h) == CandidateOf(c, b, s, h)
  {
    DecodeAtPrefix(c, a, b, s);
    DecodeAtPrefix(c, a, b, s + HEADER_BYTES + h.payloadLen);
  }

  /** The claims of a truncation are claims of the whole buffer, so truncating never creates an
      ambiguity or an overflow. */
  lemma TruncationIndexes(c: Codec, a: seq<Byte>, b: seq<Byte>, limits: Limits)
    requires a <= b && |MAGIC| <= |a| && BuildIndex(c, b, limits).Ok?
    ensures BuildIndex(c, a, limits).Ok?
    ensures forall s :: s in BuildIndex(c, a, limits).value ==>
              s in BuildIndex(c, b, limits).value
                  && BuildIndex(c, a, limits).value[s] == BuildIndex(c, b, limits).value[s]
    ensures forall s :: s in BuildIndex(c, b, limits).value
                        && s + RecordBytes(BuildIndex(c, b, limits).value[s].header.payloadLen) <= |a| ==>
                        s in BuildIndex(c, a, limits).value
  {
    IndexSpec(c, a, limits);
    IndexSpec(c, b, limits);
    forall s: nat, h | Claims(c, a, limits, s, h)
      ensures Claims(c, b, limits, s, h) && CandidateOf(c, a, s, h) == CandidateOf(c, b, s, h)
    {
      ClaimsPrefix(c, a, b, limits, s, h);
    }
    forall position: nat | OverflowsAt(c, a, limits, position)
      ensures OverflowsAt(c, b, limits, position)
    {
      DecodeAtPrefix(c, a, b, position);
    }
    assert Unambiguous(c, a, limits);
    var m := BuildIndex(c, b, limits).value;
    forall s | s in m && s + RecordBytes(m[s].header.payloadLen) <= |a|
      ensures s in BuildIndex(c, a, limits).value
    {
      ClaimsPrefix(c, a, b, limits, s, m[s].header);
    }
  }

  ghost predicate SubIndex(small: Index, large: Index)
  {
    forall s :: s in small ==> s in large && small[s] == large[s]
  }

  predicate Keyed(m: Index)
  {
    forall s :: s in m ==> m[s].start == s
  }

  lemma AcceptRecordPrefix(c: Codec, a: seq<Byte>, b: seq<Byte>, candidate: Candidate, generations: seq<Generation>)
    requires a <= b && AcceptRecord(c, a, candidate, generations).Ok?
    ensures AcceptRecord(c, b, candidate, generations) == AcceptRecord(c, a, candidate, generations)
  {
    var lo, hi := candidate.start + HEADER_BYTES, candidate.start + HEADER_BYTES + candidate.header.payloadLen;
    assert a[lo..hi] == b[lo..hi];
  }

  /** A strict walk over `a` is the beginning of any walk over an extension of `a`. */
  lemma {:induction false} WalkExtends(c: Codec, a: seq<Byte>, b: seq<Byte>, limits: Limits, ma: Index, mb: Index,
                                       offset: nat, generations: seq<Generation>, torn: bool)
    requires a <= b && offset <= |a| && Keyed(ma) && Keyed(mb) && SubIndex(ma, mb)
    requires Walk(c, a, limits, ma, offset, generations, false).Ok?
    ensures var v := Walk(c, a, limits, ma, offset, generations, false).value;
            && v.validatedBytes == |a|
            && Walk(c, b, limits, mb, offset, generations, torn) == Walk(c, b, limits, mb, |a|, v.generations, torn)
    decreases |a| - offset
  {
    if offset < |a| {
      AcceptRecordPrefix(c, a, b, ma[offset], generations);
      var g := AcceptRecord(c, a, ma[offset], generations).value;
      WalkExtends(c, a, b, limits, ma, mb, offset + RecordBytes(ma[offset].header.payloadLen), generations + [g], torn);
    }
  }

  lemma {:induction false} WalkGrows(c: Codec, b: seq<Byte>, limits: Limits, m: Index, offset: nat,
                                     generations: seq<Generation>, torn: bool)
    requires offset <= |b| && Keyed(m) && Walk(c, b, limits, m, offset, generations, torn).Ok?
    ensures var v := Walk(c, b, limits, m, offset, generations, torn).value;
            && offset <= v.validatedBytes <= |b|
            && generations <= v.generations
            && (v.generations == generations <==> v.validatedBytes == offset)
            && (!torn ==> v.validatedBytes == |b|)
    decreases |b| - offset
  {
    if offset < |b| && offset in m {
      var g := AcceptRecord(c, b, m[offset], generations).value;
      WalkGrows(c, b, limits, m, offset + RecordBytes(m[offset].header.payloadLen), generations + [g], torn);
    }
  }

  lemma AcceptRecordRestricts(c: Codec, a: seq<Byte>, b: seq<Byte>, candidate: Candidate, generations: seq<Generation>)
    requires a <= b && candidate.start + RecordBytes(candidate.header.payloadLen) <= |a|
    ensures AcceptRecord(c, a, candidate, generations) == AcceptRecord(c, b, candidate, generations)
  {
    var lo, hi := candidate.start + HEADER_BYTES, candidate.start + HEADER_BYTES + candidate.header.payloadLen;
    assert a[lo..hi] == b[lo..hi];
  }

  /** Whatever a walk accepts, a strict walk over just the accepted prefix accepts. */
  lemma {:induction false} WalkRestricts(c: Codec, a: seq<Byte>, b: seq<Byte>, limits: Limits, ma: Index, mb: Index,
                                         offset: nat, generations: seq<Generation>, torn: bool)
    requires offset <= |b| && Keyed(ma) && Keyed(mb) && SubIndex(ma, mb)
    requires forall s :: s in mb && s + RecordBytes(mb[s].header.payloadLen) <= |a| ==> s in ma
    requires Walk(c, b, limits, mb, offset, generations, torn).Ok?
    requires a <= b && |a| == Walk(c, b, limits, mb, offset, generations, torn).value.validatedBytes
    ensures offset <= |a|
    ensures Walk(c, a, limits, ma, offset, generations, false) == Walk(c, b, limits, mb, offset, generations, torn)
    decreases |b| - offset
  {
    hide ValidateChain, IsRecoverableTornTail;
    WalkGrows(c, b, limits, mb, offset, generations, torn);
    if offset < |b| && offset in mb {
      var end := offset + RecordBytes(mb[offset].header.payloadLen);
      var g := AcceptRecord(c, b, mb[offset], generations).value;
      WalkGrows(c, b, limits, mb, end, generations + [g], torn);
      assert Walk(c, b, limits, mb, offset, generations, torn) == Walk(c, b, limits, mb, end, generations + [g], torn);
      AcceptRecordRestricts(c, a, b, mb[offset], generations);
      assert Walk(c, a, limits, ma, offset, generations, false)
               == Walk(c, a, limits, ma, end, generations + [g], false);
      WalkRestricts(c, a, b, limits, ma, mb, end, generations + [g], torn);
    }
  }

  lemma {:induction false} WalkToleratesNothingNew(c: Codec, b: seq<Byte>, limits: Limits, m: Index, offset: nat,
                                                   generations: seq<Generation>)
    requires offset <= |b| && Keyed(m) && Walk(c, b, limits, m, offset, generations, false).Ok?
    ensures Walk(c, b, limits, m, offset, generations, true) == Walk(c, b, limits, m, offset, generations, false)
    decreases |b| - offset
  {
    if offset < |b| {
      var g := AcceptRecord(c, b, m[offset], generations).value;
      WalkToleratesNothingNew(c, b, limits, m, offset + RecordBytes(m[offset].header.payloadLen), generations + [g]);
    }
  }

  /** What every successful scan says about its input, whichever way it was made. */
  lemma ScanShape(c: Codec, bytes: seq<Byte>, limits: Limits, torn: bool)
    requires Scan(c, bytes, limits, torn).Ok?
    ensures var v := Scan(c, bytes, limits, torn).value;
            && v.validatedBytes <= |bytes| <= limits.maxCapsuleBytes
            && (v.generations == [] <==> v.validatedBytes == 0)
            && (!torn ==> v.validatedBytes == |bytes|)
            && (bytes != [] ==> |bytes| >= |MAGIC| && BuildIndex(c, bytes, limits).Ok?)
  {
    if bytes != [] {
      ScanUsesIndex(c, bytes, limits, torn);
      IndexSpec(c, bytes, limits);
      var m := BuildIndex(c, bytes, limits).value;
      WalkGrows(c, bytes, limits, m, 0, [], torn);
      if !torn {
        WalkExtends(c, bytes, bytes, limits, m, m, 0, [], false);
      }
    }
  }

  lemma ScannedIsLong(c: Codec, bytes: seq<Byte>, limits: Limits)
    requires ScanCapsule(c, bytes, limits).Ok? && bytes != []
    ensures |bytes| >= RecordBytes(0)
  {
    ScanShape(c, bytes, limits, false);
    ScanUsesIndex(c, bytes, limits, false);
  }

  /** A strict scan of a longer buffer starts by replaying the strict scan of a shorter one. */
  lemma ScanExtends(c: Codec, a: seq<Byte>, b: seq<Byte>, limits: Limits, torn: bool)
    requires a <= b && ScanCapsule(c, a, limits).Ok?
    requires |b| <= limits.maxCapsuleBytes && b != [] && BuildIndex(c, b, limits).Ok?
    ensures var m := BuildIndex(c, b, limits).value;
            Keyed(m) && Scan(c, b, limits, torn)
                == Walk(c, b, limits, m, |a|, ScanCapsule(c, a, limits).value.generations, torn)
  {
    ScanUsesIndex(c, b, limits, torn);
    if a != [] {
      ScannedIsLong(c, a, limits);
      TruncationIndexes(c, a, b, limits);
      ScanUsesIndex(c, a, limits, false);
      WalkExtends(c, a, b, limits, BuildIndex(c, a, limits).value, BuildIndex(c, b, limits).value, 0, [], torn);
    }
  }

  /** Prefix monotonicity: of two strictly accepted buffers, one a prefix of the other, the shorter
      one's generations (payloads and header flags included) are a prefix of the longer one's; an
      equal generation count therefore means equal buffers. */
  lemma ScanPrefixMonotone(c: Codec, a: seq<Byte>, b: seq<Byte>, limits: Limits)
    requires a <= b && ScanCapsule(c, a, limits).Ok? && ScanCapsule(c, b, limits).Ok?
    ensures ScanCapsule(c, a, limits).value.generations <= ScanCapsule(c, b, limits).value.generations
    ensures |ScanCapsule(c, a, limits).value.generations| == |ScanCapsule(c, b, limits).value.generations| <==> a == b
  {
    if b != [] {
      ScanShape(c, b, limits, false);
      ScanExtends(c, a, b, limits, false);
      ScanShape(c, a, limits, false);
      WalkGrows(c, b, limits, BuildIndex(c, b, limits).value, |a|, ScanCapsule(c, a, limits).value.generations, false);
    }
  }

  /** Recovery is a strict scan of its own prefix: the retained bytes scan strictly to the very same view. */
  lemma RecoveryIsStrictOnPrefix(c: Codec, bytes: seq<Byte>, limits: Limits)
    requires RecoverCapsule(c, bytes, limits).Ok?
    ensures var v := RecoverCapsule(c, bytes, limits).value;
            v.validatedBytes <= |bytes| && ScanCapsule(c, bytes[..v.validatedBytes], limits) == Ok(v)
  {
    ScanShape(c, bytes, limits, true);
    if bytes != [] {
      var v := RecoverCapsule(c, bytes, limits).value;
      var a := bytes[..v.validatedBytes];
      ScanUsesIndex(c, bytes, limits, true);
      var m := BuildIndex(c, bytes, limits).value;
      if a != [] {
        WalkFirstRecord(c, bytes, limits, m);
        TruncationIndexes(c, a, bytes, limits);
        ScanUsesIndex(c, a, limits, false);
        WalkRestricts(c, a, bytes, limits, BuildIndex(c, a, limits).value, m, 0, [], true);
      }
    }
  }

  lemma WalkFirstRecord(c: Codec, b: seq<Byte>, limits: Limits, m: Index)
    requires Keyed(m) && Walk(c, b, limits, m, 0, [], true).Ok?
    requires Walk(c, b, limits, m, 0, [], true).value.validatedBytes > 0
    ensures Walk(c, b, limits, m, 0, [], true).value.validatedBytes >= RecordBytes(0)
  {
    var g := AcceptRecord(c, b, m[0], []).value;
    assert [] + [g] == [g];
    WalkGrows(c, b, limits, m, RecordBytes(m[0].header.payloadLen), [g], true);
  }

  /** Where the strict scan succeeds, recovery returns the same view. */
  lemma StrictImpliesRecovered(c: Codec, bytes: seq<Byte>, limits: Limits)
    requires ScanCapsule(c, bytes, limits).Ok?
    ensures RecoverCapsule(c, bytes, limits) == ScanCapsule(c, bytes, limits)
  {
    if bytes != [] {
      ScanUsesIndex(c, bytes, limits, false);
      ScanUsesIndex(c, bytes, limits, true);
      WalkToleratesNothingNew(c, bytes, limits, BuildIndex(c, bytes, limits).value, 0, []);
    }
  }

  // ----- torn appends -----

  /** `updated` is a strictly accepted capsule one generation longer than the accepted `old`. */
  ghost predicate ExtendsByOne(c: Codec, old_: seq<Byte>, updated: seq<Byte>, limits: Limits)
  {
    && old_ <= updated
    && ScanCapsule(c, old_, limits).Ok? && ScanCapsule(c, updated, limits).Ok?
    && |ScanCapsule(c, updated, limits).value.generations| == |ScanCapsule(c, old_, limits).value.generations| + 1
  }

  lemma OneStepWalk(c: Codec, b: seq<Byte>, limits: Limits, m: Index, offset: nat, generations: seq<Generation>)
    requires offset <= |b| && Keyed(m) && Walk(c, b, limits, m, offset, generations, false).Ok?
    requires |Walk(c, b, limits, m, offset, generations, false).value.generations| == |generations| + 1
    ensures |generations| < limits.maxGenerations
    ensures offset in m && AcceptRecord(c, b, m[offset], generations).Ok?
    ensures offset < |b| == offset + RecordBytes(m[offset].header.payloadLen) <= USIZE_MAX
    ensures Walk(c, b, limits, m, offset, generations, false).value.generations
         == generations + [GenerationOf(b, m[offset])]
    ensures ValidateChain(generations, m[offset].header).Ok?
  {
    if offset < |b| {
      var g := AcceptRecord(c, b, m[offset], generations).value;
      var end := offset + RecordBytes(m[offset].header.payloadLen);
      assert Walk(c, b, limits, m, offset, generations, false) == Walk(c, b, limits, m, end, generations + [g], false);
      WalkGrows(c, b, limits, m, end, generations + [g], false);
    }
  }

  lemma NewestRecord(c: Codec, old_: seq<Byte>, updated: seq<Byte>, limits: Limits) returns (h: Header)
    requires ExtendsByOne(c, old_, updated, limits)
    ensures |old_| < |updated| == |old_| + RecordBytes(h.payloadLen) <= USIZE_MAX
    ensures Claims(c, updated, limits, |old_|, h)
    ensures BuildIndex(c, updated, limits).Ok?
    ensures |old_| in BuildIndex(c, updated, limits).value
    ensures BuildIndex(c, updated, limits).value[|old_|] == CandidateOf(c, updated, |old_|, h)
    ensures ValidateChain(ScanCapsule(c, old_, limits).value.generations, h).Ok?
    ensures |ScanCapsule(c, old_, limits).value.generations| < limits.maxGenerations
    ensures ScanCapsule(c, updated, limits).value.generations
         == ScanCapsule(c, old_, limits).value.generations
            + [GenerationOf(updated, CandidateOf(c, updated, |old_|, h))]
  {
    ScanShape(c, updated, limits, false);
    ScanPrefixMonotone(c, old_, updated, limits);
    ScanExtends(c, old_, updated, limits, false);
    IndexSpec(c, updated, limits);
    var m := BuildIndex(c, updated, limits).value;
    OneStepWalk(c, updated, limits, m, |old_|, ScanCapsule(c, old_, limits).value.generations);
    h := m[|old_|].header;
  }

  /** The cut is so early in the new record that its leading header is not wholly there. */
  predicate CutInsideHeader(kept: nat, cut: nat)
  {
    cut < kept + HEADER_BYTES
  }

  lemma TornTailVerdict(c: Codec, old_: seq<Byte>, updated: seq<Byte>, cut: nat, limits: Limits)
    requires ExtendsByOne(c, old_, updated, limits)
    requires |old_| < cut < |updated|
    ensures var before := ScanCapsule(c, old_, limits).value.generations;
            var verdict := IsRecoverableTornTail(c, updated[..cut], |old_|, before, limits);
            if CutInsideHeader(|old_|, cut) || DecodeAt(c, updated, |old_|).Some? then verdict == Ok(true)
                else verdict.Err?
  {
    var h := NewestRecord(c, old_, updated, limits);
    if !CutInsideHeader(|old_|, cut) {
      DecodeAtPrefix(c, updated[..cut], updated, |old_|);
    }
  }

  lemma TornHasNoClaim(c: Codec, old_: seq<Byte>, updated: seq<Byte>, cut: nat, limits: Limits)
    requires ExtendsByOne(c, old_, updated, limits)
    requires |old_| < cut < |updated| && |MAGIC| <= cut
    ensures BuildIndex(c, updated[..cut], limits).Ok?
    ensures |old_| !in BuildIndex(c, updated[..cut], limits).value
  {
    var h := NewestRecord(c, old_, updated, limits);
    assert updated[..cut] <= updated;
    TruncationIndexes(c, updated[..cut], updated, limits);
    IndexSpec(c, updated[..cut], limits);
  }

  /** Torn-append exactness. Cut an append anywhere strictly inside: the strict scan always fails;
      recovery of a cut shorter than the magic panics (only possible when there was nothing
      before); otherwise recovery succeeds exactly when the cut falls inside the leading header or
      that header is intact, and then it returns the old generations and the old length. */
  lemma TornAppendExactness(c: Codec, old_: seq<Byte>, updated: seq<Byte>, cut: nat, limits: Limits)
    requires ExtendsByOne(c, old_, updated, limits)
    requires |old_| < cut < |updated|
    ensures ScanCapsule(c, updated[..cut], limits).Err?
    ensures cut < |MAGIC| ==> RecoverCapsule(c, updated[..cut], limits) == Err(Panicked)
    ensures cut >= |MAGIC| ==>
              (RecoverCapsule(c, updated[..cut], limits).Ok? <==>
               CutInsideHeader(|old_|, cut) || DecodeAt(c, updated, |old_|).Some?)
    ensures RecoverCapsule(c, updated[..cut], limits).Ok? ==>
              RecoverCapsule(c, updated[..cut], limits)
                  == Ok(View(ScanCapsule(c, old_, limits).value.generations, |old_|))
  {
    ScanShape(c, updated, limits, false);
    var torn := updated[..cut];
    assert old_ <= torn;
    if cut >= |MAGIC| {
      TornHasNoClaim(c, old_, updated, cut, limits);
      TornTailVerdict(c, old_, updated, cut, limits);
      ScanExtends(c, old_, torn, limits, false);
      ScanExtends(c, old_, torn, limits, true);
      var _ := NewestRecord(c, old_, updated, limits);
    }
  }
}
