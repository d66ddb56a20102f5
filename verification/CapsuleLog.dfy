/**
 The append-only capsule log: appending one generation, the strict scan, and the recovering scan
 that tolerates a torn newest append. A generation is `header ++ payload ++ same header`.
 Everything here is stated over an arbitrary window decoder and an arbitrary payload digest.
 */
module CapsuleLog {
  import opened Results
  import opened Bytes
  import opened CapsuleHeader

  datatype Codec = Codec(encode: Header -> seq<Byte>, decode: Decoder, sha: seq<Byte> -> Digest)

  /** The codec the program uses, over arbitrary checksum and digest functions. */
  function CapsuleCodec(hashes: Hashes): (c: Codec)
  {
    Codec((h: Header) => EncodeHeader(hashes, h), (bytes: seq<Byte>) => DecodeHeader(hashes, bytes), hashes.sha)
  }

  datatype Limits = Limits(maxCapsuleBytes: nat, maxGenerationBytes: nat, maxGenerations: nat)

  datatype Candidate = Candidate(start: nat, header: Header, primaryValid: bool, trailingValid: bool)

  datatype Generation = Generation(
    offset: U64,
    generation: U64,
    phase: Phase,
    previousOffset: Option<U64>,
    identity: Identity,
    payloadDigest: Digest,
    payload: Payload,
    primaryHeaderValid: bool,
    trailingHeaderValid: bool)

  datatype View = View(generations: seq<Generation>, validatedBytes: nat)

  type Index = map<nat, Candidate>

  // ----- the scanner, function by function -----

  function ValidateLimits(limits: Limits): Result<(), CapsuleError>
  {
    if limits.maxCapsuleBytes == 0 then Err(InvalidLimit("max_capsule_bytes"))
    else if limits.maxGenerationBytes == 0 then Err(InvalidLimit("max_generation_bytes"))
    else if limits.maxGenerations == 0 then Err(InvalidLimit("max_generations"))
    else Ok(())
  }

  function DecodeAt(c: Codec, bytes: seq<Byte>, position: nat): Option<Header>
  {
    if position + HEADER_BYTES > |bytes| then
      None
    else
      match c.decode(bytes[position..position + HEADER_BYTES])
      case Ok(h) => Some(h)
      case Err(_) => None
  }

  /** Bytes of one complete record carrying a payload of `length` bytes. */
  function RecordBytes(length: nat): nat
  {
    HEADER_BYTES + length + HEADER_BYTES
  }

  function CandidateAsPrimary(c: Codec, bytes: seq<Byte>, start: nat, h: Header)
    : Result<Option<Candidate>, CapsuleError>
  {
    var trailing := start + HEADER_BYTES + h.payloadLen;
    if trailing > USIZE_MAX then
      Err(ArithmeticOverflow)
    else if trailing + HEADER_BYTES > |bytes| then
      Ok(None)
    else
      var trailingHeader := DecodeAt(c, bytes, trailing);
      if trailingHeader.Some? && trailingHeader.value != h then
        Ok(None)
      else
        Ok(Some(Candidate(start, h, true, trailingHeader == Some(h))))
  }

  function CandidateAsTrailing(c: Codec, bytes: seq<Byte>, trailing: nat, h: Header): Option<Candidate>
    requires trailing + HEADER_BYTES <= |bytes|
  {
    if trailing < HEADER_BYTES + h.payloadLen then
      None
    else
      var start := trailing - HEADER_BYTES - h.payloadLen;
      var primaryHeader := DecodeAt(c, bytes, start);
      if primaryHeader.Some? && primaryHeader.value != h then
        None
      else
        Some(Candidate(start, h, primaryHeader == Some(h), true))
  }

  function Present(candidate: Option<Candidate>): seq<Candidate>
  {
    if candidate.Some? then [candidate.value] else []
  }

  /** What one position contributes: the header found there tried as a leading and as a trailing copy. */
  function CandidatesAt(c: Codec, bytes: seq<Byte>, limits: Limits, position: nat): Result<seq<Candidate>, CapsuleError>
  {
    var found := DecodeAt(c, bytes, position);
    if found.None? || found.value.payloadLen > limits.maxGenerationBytes then
      Ok([])
    else
      var primary :- CandidateAsPrimary(c, bytes, position, found.value);
      Ok(Present(primary) + Present(CandidateAsTrailing(c, bytes, position, found.value)))
  }

  function CandidatesBelow(c: Codec, bytes: seq<Byte>, limits: Limits, n: nat): Result<seq<Candidate>, CapsuleError>
  {
    if n == 0 then
      Ok([])
    else
      var before :- CandidatesBelow(c, bytes, limits, n - 1);
      var here :- CandidatesAt(c, bytes, limits, n - 1);
      Ok(before + here)
  }

  /** The loop runs over `0..=len.saturating_sub(8)` and slices eight bytes at each position, so a
      nonempty buffer shorter than eight bytes is an out-of-bounds slice. */
  function FindCandidates(c: Codec, bytes: seq<Byte>, limits: Limits): Result<seq<Candidate>, CapsuleError>
  {
    if |bytes| < |MAGIC| then Err(Panicked) else CandidatesBelow(c, bytes, limits, |bytes| - |MAGIC| + 1)
  }

  function Insert(m: Index, candidate: Candidate): Result<Index, CapsuleError>
  {
    if candidate.start !in m then
      Ok(m[candidate.start := candidate])
    else
      var existing := m[candidate.start];
      if existing.header == candidate.header then
        Ok(m[candidate.start := existing.(
             primaryValid := existing.primaryValid || candidate.primaryValid,
             trailingValid := existing.trailingValid || candidate.trailingValid)])
      else
        Err(AmbiguousGeneration(candidate.start))
  }

  function MergeBelow(candidates: seq<Candidate>, n: nat): Result<Index, CapsuleError>
    requires n <= |candidates|
  {
    if n == 0 then
      Ok(map[])
    else
      var m :- MergeBelow(candidates, n - 1);
      Insert(m, candidates[n - 1])
  }

  function BuildIndex(c: Codec, bytes: seq<Byte>, limits: Limits): Result<Index, CapsuleError>
  {
    var candidates :- FindCandidates(c, bytes, limits);
    MergeBelow(candidates, |candidates|)
  }

  function ValidateChain(generations: seq<Generation>, h: Header): Result<(), CapsuleError>
  {
    if generations == [] then
      if h.generation != 0 || h.phase != Discovered || h.previousOffset.Some? then
        Err(FirstGenerationInvalid)
      else
        Ok(())
    else
      var previous := generations[|generations| - 1];
      if previous.generation + 1 >= U64_LIMIT then
        Err(GenerationOverflow)
      else if h.generation != previous.generation + 1 then
        Err(GenerationSequence(previous.generation + 1, h.generation))
      else if h.previousOffset.None? || h.previousOffset.value != previous.offset then
        Err(PreviousOffsetMismatch(Some(previous.offset), h.previousOffset))
      else if h.identity != previous.identity then
        Err(IdentityChanged)
      else if !MayFollow(h.phase, previous.phase) then
        Err(InvalidPhaseTransition(previous.phase, h.phase))
      else
        Ok(())
  }

  function IsRecoverableTornTail(c: Codec, bytes: seq<Byte>, offset: nat, generations: seq<Generation>, limits: Limits)
    : Result<bool, CapsuleError>
    requires offset <= |bytes|
  {
    var remaining := |bytes| - offset;
    if remaining == 0 then
      Ok(false)
    else if remaining < HEADER_BYTES then
      Ok(true)
    else
      var h :- c.decode(bytes[offset..offset + HEADER_BYTES]);
      if h.payloadLen > limits.maxGenerationBytes then
        Err(GenerationTooLarge(h.payloadLen, limits.maxGenerationBytes))
      else
        var recordEnd := offset + RecordBytes(h.payloadLen);
        if recordEnd > USIZE_MAX then
          Err(ArithmeticOverflow)
        else if recordEnd <= |bytes| then
          Ok(false)
        else
          var _ :- ValidateChain(generations, h);
          Ok(true)
  }

  function GenerationOf(bytes: seq<Byte>, candidate: Candidate): Generation
    requires candidate.start + RecordBytes(candidate.header.payloadLen) <= |bytes|
    requires candidate.start < U64_LIMIT
  {
    var h := candidate.header;
    Generation(candidate.start, h.generation, h.phase, h.previousOffset, h.identity, h.payloadDigest,
               bytes[candidate.start + HEADER_BYTES..candidate.start + HEADER_BYTES + h.payloadLen],
               candidate.primaryValid, candidate.trailingValid)
  }

  /** The checks made on the candidate found at `offset`, ending in the generation it denotes. */
  function AcceptRecord(c: Codec, bytes: seq<Byte>, candidate: Candidate, generations: seq<Generation>)
    : Result<Generation, CapsuleError>
  {
    var h := candidate.header;
    var end := candidate.start + RecordBytes(h.payloadLen);
    if end > USIZE_MAX then
      Err(ArithmeticOverflow)
    else if end > |bytes| then
      Err(UnframedBytes(candidate.start))
    else
      var g := GenerationOf(bytes, candidate);
      if c.sha(g.payload) != h.payloadDigest then
        Err(PayloadDigestMismatch(candidate.start))
      else
        var _ :- ValidateChain(generations, h);
        Ok(g)
  }

  function Walk(c: Codec, bytes: seq<Byte>, limits: Limits, m: Index, offset: nat, generations: seq<Generation>,
                allowTornTail: bool): Result<View, CapsuleError>
    requires offset <= |bytes|
    requires forall s :: s in m ==> m[s].start == s
    decreases |bytes| - offset
  {
    if offset == |bytes| then
      Ok(View(generations, offset))
    else if |generations| >= limits.maxGenerations then
      Err(TooManyGenerations(limits.maxGenerations))
    else if offset !in m then
      if allowTornTail then
        var torn :- IsRecoverableTornTail(c, bytes, offset, generations, limits);
        if torn then Ok(View(generations, offset)) else Err(NoRecoverableHeader(offset))
      else
        Err(NoRecoverableHeader(offset))
    else
      var g :- AcceptRecord(c, bytes, m[offset], generations);
      Walk(c, bytes, limits, m, offset + RecordBytes(m[offset].header.payloadLen), generations + [g], allowTornTail)
  }

  lemma {:induction false} MergeKeepsStarts(candidates: seq<Candidate>, n: nat)
    requires n <= |candidates|
    ensures MergeBelow(candidates, n).Ok? ==>
              forall s :: s in MergeBelow(candidates, n).value ==> MergeBelow(candidates, n).value[s].start == s
  {
    if n > 0 {
      MergeKeepsStarts(candidates, n - 1);
    }
  }

  function Scan(c: Codec, bytes: seq<Byte>, limits: Limits, allowTornTail: bool): Result<View, CapsuleError>
  {
    var _ :- ValidateLimits(limits);
    if |bytes| > limits.maxCapsuleBytes then
      Err(CapsuleTooLarge(|bytes|, limits.maxCapsuleBytes))
    else if bytes == [] then
      Ok(View([], 0))
    else
      var candidates :- FindCandidates(c, bytes, limits);
      var m :- MergeBelow(candidates, |candidates|);
      MergeKeepsStarts(candidates, |candidates|);
      Walk(c, bytes, limits, m, 0, [], allowTornTail)
  }

  function ScanCapsule(c: Codec, bytes: seq<Byte>, limits: Limits): Result<View, CapsuleError>
  {
    Scan(c, bytes, limits, false)
  }

  function RecoverCapsule(c: Codec, bytes: seq<Byte>, limits: Limits): Result<View, CapsuleError>
  {
    Scan(c, bytes, limits, true)
  }

  // ----- appending -----

  /** The header the next generation must carry, or why it may not be appended. */
  function NextHeader(c: Codec, generations: seq<Generation>, identity: Identity, phase: Phase, payload: Payload)
    : Result<Header, CapsuleError>
  {
    if generations == [] then
      if phase != Discovered then
        Err(FirstGenerationInvalid)
      else
        Ok(Header(0, phase, |payload|, None, identity, c.sha(payload)))
    else
      var previous := generations[|generations| - 1];
      if previous.identity != identity then
        Err(IdentityChanged)
      else if !MayFollow(phase, previous.phase) then
        Err(InvalidPhaseTransition(previous.phase, phase))
      else if previous.generation + 1 >= U64_LIMIT then
        Err(GenerationOverflow)
      else
        Ok(Header(previous.generation + 1, phase, |payload|, Some(previous.offset), identity, c.sha(payload)))
  }

  /** `append_generation`, as the new contents of the caller's buffer.  */
  function Append(c: Codec, capsule: seq<Byte>, identity: Identity, phase: Phase, payload: Payload, limits: Limits)
    : Result<seq<Byte>, CapsuleError>
  {
    var _ :- ValidateLimits(limits);
    if |payload| > limits.maxGenerationBytes then
      Err(GenerationTooLarge(|payload|, limits.maxGenerationBytes))
    else
      var view :- ScanCapsule(c, capsule, limits);
      var h :- NextHeader(c, view.generations, identity, phase, payload);
      if |view.generations| >= limits.maxGenerations then
        Err(TooManyGenerations(limits.maxGenerations))
      else if RecordBytes(|payload|) > USIZE_MAX || |capsule| + RecordBytes(|payload|) > USIZE_MAX then
        Err(ArithmeticOverflow)
      else if |capsule| + RecordBytes(|payload|) > limits.maxCapsuleBytes then
        Err(CapsuleTooLarge(|capsule| + RecordBytes(|payload|), limits.maxCapsuleBytes))
      else
        Ok(capsule + c.encode(h) + payload + c.encode(h))
  }

  // ----- what the index means -----

  /** Header `h` may frame a generation at `s`: the record fits, at least one of its two header
      windows decodes to `h`, and neither decodes to anything else. */
  predicate Claims(c: Codec, bytes: seq<Byte>, limits: Limits, s: nat, h: Header)
  {
    && h.payloadLen <= limits.maxGenerationBytes
    && s + RecordBytes(h.payloadLen) <= |bytes|
    && var leading := DecodeAt(c, bytes, s);
       var trailing := DecodeAt(c, bytes, s + HEADER_BYTES + h.payloadLen);
       && (leading == Some(h) || trailing == Some(h))
       && (leading.Some? ==> leading.value == h)
       && (trailing.Some? ==> trailing.value == h)
  }

  function CandidateOf(c: Codec, bytes: seq<Byte>, s: nat, h: Header): Candidate
  {
    Candidate(s, h, DecodeAt(c, bytes, s) == Some(h), DecodeAt(c, bytes, s + HEADER_BYTES + h.payloadLen) == Some(h))
  }

  /** No start offset is claimed by two different headers. */
  ghost predicate Unambiguous(c: Codec, bytes: seq<Byte>, limits: Limits)
  {
    forall s: nat, h1, h2 :: Claims(c, bytes, limits, s, h1) && Claims(c, bytes, limits, s, h2) ==> h1 == h2
  }

  predicate OverflowsAt(c: Codec, bytes: seq<Byte>, limits: Limits, position: nat)
  {
    var found := DecodeAt(c, bytes, position);
    found.Some? && found.value.payloadLen <= limits.maxGenerationBytes
    && position + HEADER_BYTES + found.value.payloadLen > USIZE_MAX
  }

  ghost predicate NoOverflowBelow(c: Codec, bytes: seq<Byte>, limits: Limits, n: nat)
  {
    forall position: nat :: position < n ==> !OverflowsAt(c, bytes, limits, position)
  }

  /** No header names a payload whose end would overflow `usize`. */
  ghost predicate NoOverflow(c: Codec, bytes: seq<Byte>, limits: Limits)
  {
    forall position: nat :: !OverflowsAt(c, bytes, limits, position)
  }

  ghost predicate Represents(c: Codec, bytes: seq<Byte>, limits: Limits, m: Index)
  {
    && (forall s :: s in m ==>
          Claims(c, bytes, limits, s, m[s].header) && m[s] == CandidateOf(c, bytes, s, m[s].header))
    && (forall s: nat, h :: Claims(c, bytes, limits, s, h) ==> s in m && m[s].header == h)
  }

  ghost predicate Genuine(c: Codec, bytes: seq<Byte>, limits: Limits, candidates: seq<Candidate>)
  {
    forall k :: 0 <= k < |candidates| ==>
      Claims(c, bytes, limits, candidates[k].start, candidates[k].header)
      && candidates[k] == CandidateOf(c, bytes, candidates[k].start, candidates[k].header)
  }

  lemma CandidatesAtGenuine(c: Codec, bytes: seq<Byte>, limits: Limits, position: nat)
    ensures CandidatesAt(c, bytes, limits, position).Ok? <==> !OverflowsAt(c, bytes, limits, position)
    ensures CandidatesAt(c, bytes, limits, position).Err? ==>
              CandidatesAt(c, bytes, limits, position).error == ArithmeticOverflow
    ensures CandidatesAt(c, bytes, limits, position).Ok? ==>
              Genuine(c, bytes, limits, CandidatesAt(c, bytes, limits, position).value)
  {
  }

  lemma GenuineConcat(c: Codec, bytes: seq<Byte>, limits: Limits, a: seq<Candidate>, b: seq<Candidate>)
    requires Genuine(c, bytes, limits, a) && Genuine(c, bytes, limits, b)
    ensures Genuine(c, bytes, limits, a + b)
  {
  }

  lemma CandidatesBelowStep(c: Codec, bytes: seq<Byte>, limits: Limits, n: nat)
    requires n > 0 && GenuineOutcome(c, bytes, limits, n - 1, CandidatesBelow(c, bytes, limits, n - 1))
    ensures GenuineOutcome(c, bytes, limits, n, CandidatesBelow(c, bytes, limits, n))
  {
    CandidatesAtGenuine(c, bytes, limits, n - 1);
    var before, here := CandidatesBelow(c, bytes, limits, n - 1), CandidatesAt(c, bytes, limits, n - 1);
    if before.Err? {
      assert CandidatesBelow(c, bytes, limits, n) == before;
    } else if here.Err? {
      assert CandidatesBelow(c, bytes, limits, n) == here;
    } else {
      assert CandidatesBelow(c, bytes, limits, n) == Ok(before.value + here.value);
      GenuineConcat(c, bytes, limits, before.value, here.value);
    }
  }

  ghost predicate GenuineOutcome(c: Codec, bytes: seq<Byte>, limits: Limits, n: nat,
                                 r: Result<seq<Candidate>, CapsuleError>)
  {
    match r
    case Ok(candidates) => NoOverflowBelow(c, bytes, limits, n) && Genuine(c, bytes, limits, candidates)
    case Err(e) => e == ArithmeticOverflow && !NoOverflowBelow(c, bytes, limits, n)
  }

  lemma {:induction false} CandidatesBelowGenuine(c: Codec, bytes: seq<Byte>, limits: Limits, n: nat)
    ensures GenuineOutcome(c, bytes, limits, n, CandidatesBelow(c, bytes, limits, n))
  {
    if n > 0 {
      CandidatesBelowGenuine(c, bytes, limits, n - 1);
      CandidatesBelowStep(c, bytes, limits, n);
    }
  }

  /** The position whose header gives rise to the claim. */
  function HitOf(c: Codec, bytes: seq<Byte>, s: nat, h: Header): nat
  {
    if DecodeAt(c, bytes, s) == Some(h) then s else s + HEADER_BYTES + h.payloadLen
  }

  lemma {:induction false} ClaimsFound(c: Codec, bytes: seq<Byte>, limits: Limits, n: nat, s: nat, h: Header)
    requires CandidatesBelow(c, bytes, limits, n).Ok?
    requires Claims(c, bytes, limits, s, h) && HitOf(c, bytes, s, h) < n
    ensures CandidateOf(c, bytes, s, h) in CandidatesBelow(c, bytes, limits, n).value
  {
    if HitOf(c, bytes, s, h) < n - 1 {
      ClaimsFound(c, bytes, limits, n - 1, s, h);
    } else {
      CandidatesAtGenuine(c, bytes, limits, n - 1);
      assert CandidateOf(c, bytes, s, h) in CandidatesAt(c, bytes, limits, n - 1).value;
    }
  }

  /** A start and a header determine the candidate, so merging never changes one. */
  ghost predicate Determined(pool: set<Candidate>)
  {
    forall x, y :: x in pool && y in pool && x.start == y.start && x.header == y.header ==> x == y
  }

  ghost predicate MergedFrom(m: Index, candidates: seq<Candidate>, n: nat, pool: set<Candidate>)
    requires n <= |candidates|
  {
    && (forall s :: s in m ==> m[s] in pool && m[s].start == s)
    && (forall k :: 0 <= k < n ==> candidates[k].start in m && m[candidates[k].start] == candidates[k])
  }

  ghost predicate Conflicting(pool: set<Candidate>, offset: nat)
  {
    exists x, y :: x in pool && y in pool && x.start == offset && y.start == offset && x.header != y.header
  }

  ghost predicate MergeOutcome(r: Result<Index, CapsuleError>, candidates: seq<Candidate>, n: nat, pool: set<Candidate>)
    requires n <= |candidates|
  {
    match r
    case Ok(m) => MergedFrom(m, candidates, n, pool)
    case Err(e) => e.AmbiguousGeneration? && Conflicting(pool, e.offset)
  }

  lemma InsertSpec(m: Index, candidates: seq<Candidate>, n: nat, pool: set<Candidate>)
    requires n < |candidates| && candidates[n] in pool && Determined(pool) && MergedFrom(m, candidates, n, pool)
    ensures MergeOutcome(Insert(m, candidates[n]), candidates, n + 1, pool)
  {
    var candidate := candidates[n];
    if candidate.start in m && m[candidate.start].header == candidate.header {
      assert m[candidate.start] == candidate;
      assert m[candidate.start := candidate] == m;
    }
  }

  lemma MergeStep(candidates: seq<Candidate>, n: nat, pool: set<Candidate>)
    requires 0 < n <= |candidates| && Determined(pool) && candidates[n - 1] in pool
    requires MergeOutcome(MergeBelow(candidates, n - 1), candidates, n - 1, pool)
    ensures MergeOutcome(MergeBelow(candidates, n), candidates, n, pool)
  {
    match MergeBelow(candidates, n - 1)
    case Ok(m) =>
      InsertSpec(m, candidates, n - 1, pool);
      assert MergeBelow(candidates, n) == Insert(m, candidates[n - 1]);
    case Err(e) =>
      assert MergeBelow(candidates, n) == Err(e);
  }

  lemma {:induction false} MergeSpec(candidates: seq<Candidate>, n: nat, pool: set<Candidate>)
    requires n <= |candidates| && Determined(pool)
    requires forall k :: 0 <= k < |candidates| ==> candidates[k] in pool
    ensures MergeOutcome(MergeBelow(candidates, n), candidates, n, pool)
  {
    if n > 0 {
      MergeSpec(candidates, n - 1, pool);
      MergeStep(candidates, n, pool);
    }
  }

  /** The index exists exactly when the framing is unambiguous (and long enough, and free of
      overflowing lengths), and then lists exactly the claims; an ambiguity error names an offset
      that two headers claim. */
  lemma IndexSpec(c: Codec, bytes: seq<Byte>, limits: Limits)
    ensures var r := BuildIndex(c, bytes, limits);
            && (r.Ok? <==> |bytes| >= |MAGIC| && NoOverflow(c, bytes, limits) && Unambiguous(c, bytes, limits))
            && (r.Ok? ==> Represents(c, bytes, limits, r.value))
            && (r.Err? ==> r.error == Panicked || r.error == ArithmeticOverflow || r.error.AmbiguousGeneration?)
            && (r.Err? && r.error.AmbiguousGeneration? ==>
                  exists h1, h2 :: h1 != h2 && Claims(c, bytes, limits, r.error.offset, h1)
                                   && Claims(c, bytes, limits, r.error.offset, h2))
  {
    if |bytes| >= |MAGIC| {
      var n := |bytes| - |MAGIC| + 1;
      CandidatesBelowGenuine(c, bytes, limits, n);
      forall p: nat | p >= n
        ensures !OverflowsAt(c, bytes, limits, p)
      {
      }
      if CandidatesBelow(c, bytes, limits, n).Ok? {
        var candidates := CandidatesBelow(c, bytes, limits, n).value;
        var pool := set x | x in candidates;
        assert Determined(pool);
        MergeSpec(candidates, |candidates|, pool);
        forall s: nat, h | Claims(c, bytes, limits, s, h)
          ensures CandidateOf(c, bytes, s, h) in candidates
        {
          ClaimsFound(c, bytes, limits, n, s, h);
        }
        var r := MergeBelow(candidates, |candidates|);
        if r.Err? {
          var x, y :| x in pool && y in pool && x.start == r.error.offset && y.start == r.error.offset
              && x.header != y.header;
          assert Claims(c, bytes, limits, r.error.offset, x.header)
                   && Claims(c, bytes, limits, r.error.offset, y.header);
        }
        if r.Ok? {
          RepresentedByMerge(c, bytes, limits, candidates, pool, r.value);
          RepresentedIsUnambiguous(c, bytes, limits, r.value);
        }
      }
    }
  }

  lemma RepresentedByMerge(c: Codec, bytes: seq<Byte>, limits: Limits, candidates: seq<Candidate>,
                           pool: set<Candidate>, m: Index)
    requires Genuine(c, bytes, limits, candidates) && pool == (set x | x in candidates)
    requires MergedFrom(m, candidates, |candidates|, pool)
    requires forall s: nat, h :: Claims(c, bytes, limits, s, h) ==> CandidateOf(c, bytes, s, h) in candidates
    ensures Represents(c, bytes, limits, m)
  {
    forall s: nat, h | Claims(c, bytes, limits, s, h)
      ensures s in m && m[s].header == h
    {
      var k :| 0 <= k < |candidates| && candidates[k] == CandidateOf(c, bytes, s, h);
      assert candidates[k].start in m;
    }
  }

  lemma RepresentedIsUnambiguous(c: Codec, bytes: seq<Byte>, limits: Limits, m: Index)
    requires Represents(c, bytes, limits, m)
    ensures Unambiguous(c, bytes, limits)
  {
    forall s: nat, h1, h2 | Claims(c, bytes, limits, s, h1) && Claims(c, bytes, limits, s, h2)
      ensures h1 == h2
    {
      assert m[s].header == h1 && m[s].header == h2;
    }
  }

  lemma ScanUsesIndex(c: Codec, bytes: seq<Byte>, limits: Limits, allowTornTail: bool)
    requires ValidateLimits(limits).Ok? && 0 < |bytes| <= limits.maxCapsuleBytes
    ensures BuildIndex(c, bytes, limits).Err? ==>
              Scan(c, bytes, limits, allowTornTail) == Err(BuildIndex(c, bytes, limits).error)
    ensures BuildIndex(c, bytes, limits).Ok? ==>
              var m := BuildIndex(c, bytes, limits).value;
              && Represents(c, bytes, limits, m)
              && (forall s :: s in m ==> m[s].start == s)
              && Scan(c, bytes, limits, allowTornTail) == Walk(c, bytes, limits, m, 0, [], allowTornTail)
  {
    IndexSpec(c, bytes, limits);
  }
}
