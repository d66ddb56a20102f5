/** The phase history of every accepted capsule, and a history that appends but does not scan. */
module CapsuleHistory {
  import opened Results
  import opened Bytes
  import opened CapsuleHeader
  import opened CapsuleLog
  import opened CapsuleRecovery
  import opened CapsuleFraming
  import opened CapsuleLayout

  predicate Links(generations: seq<Generation>, k: nat)
    requires 0 < k < |generations|
  {
    var g, previous := generations[k], generations[k - 1];
    && g.generation == previous.generation + 1
    && g.previousOffset.Some? && g.previousOffset.value == previous.offset
    && g.identity == previous.identity
    && MayFollow(g.phase, previous.phase)
  }

  ghost predicate WellLinked(generations: seq<Generation>)
  {
    && (generations != [] ==>
          generations[0].generation == 0 && generations[0].phase == Discovered && generations[0].previousOffset == None)
    && (forall k: nat :: 0 < k < |generations| ==> Links(generations, k))
  }

  lemma LinkExtends(c: Codec, bytes: seq<Byte>, candidate: Candidate, generations: seq<Generation>)
    requires WellLinked(generations) && AcceptRecord(c, bytes, candidate, generations).Ok?
    ensures WellLinked(generations + [AcceptRecord(c, bytes, candidate, generations).value])
  {
    var longer := generations + [AcceptRecord(c, bytes, candidate, generations).value];
    forall k: nat | 0 < k < |longer|
      ensures Links(longer, k)
    {
      if k < |generations| {
        assert Links(generations, k);
      }
    }
  }

  lemma {:induction false} WalkLinks(c: Codec, b: seq<Byte>, limits: Limits, m: Index, offset: nat,
                                     generations: seq<Generation>, torn: bool)
    requires offset <= |b| && Keyed(m) && Walk(c, b, limits, m, offset, generations, torn).Ok?
    requires WellLinked(generations)
    ensures WellLinked(Walk(c, b, limits, m, offset, generations, torn).value.generations)
    decreases |b| - offset
  {
    hide ValidateChain, IsRecoverableTornTail, WellLinked;
    if offset < |b| && offset in m {
      var g := AcceptRecord(c, b, m[offset], generations).value;
      LinkExtends(c, b, m[offset], generations);
      WalkLinks(c, b, limits, m, offset + RecordBytes(m[offset].header.payloadLen), generations + [g], torn);
    }
  }

  lemma ScanLinks(c: Codec, bytes: seq<Byte>, limits: Limits, torn: bool)
    requires Scan(c, bytes, limits, torn).Ok?
    ensures WellLinked(Scan(c, bytes, limits, torn).value.generations)
  {
    hide Walk;
    if bytes != [] {
      ScanUsesIndex(c, bytes, limits, torn);
      WalkLinks(c, bytes, limits, BuildIndex(c, bytes, limits).value, 0, [], torn);
    }
  }

  lemma {:induction false} LinkedPhase(generations: seq<Generation>, k: nat)
    requires WellLinked(generations) && k < |generations|
    ensures generations[k].generation == k
    ensures PhaseCode(generations[k].phase) == k || (k == |generations| - 1 && generations[k].phase == RolledBack)
    ensures generations[k].identity == generations[0].identity
  {
    if k > 0 {
      LinkedPhase(generations, k - 1);
      assert Links(generations, k);
      assert k + 1 < |generations| ==> Links(generations, k + 1);
    }
  }

  /** Every accepted capsule, strictly scanned or recovered, holds generations numbered 0, 1, 2, ...
      of one transaction, whose phases walk the eight-step forward chain one step at a time and may
      end in one rollback: at most eight generations, and nothing after a terminal phase. */
  lemma PhaseHistoryShape(c: Codec, bytes: seq<Byte>, limits: Limits, torn: bool)
    requires Scan(c, bytes, limits, torn).Ok?
    ensures var gs := Scan(c, bytes, limits, torn).value.generations;
            && |gs| <= 8
            && (forall k :: 0 <= k < |gs| ==> gs[k].generation == k && gs[k].identity == gs[0].identity)
            && (forall k :: 0 <= k < |gs| - 1 ==> PhaseCode(gs[k].phase) == k)
            && (gs != [] ==> PhaseCode(gs[|gs| - 1].phase) == |gs| - 1 || gs[|gs| - 1].phase == RolledBack)
  {
    hide Scan;
    ScanLinks(c, bytes, limits, torn);
    var gs := Scan(c, bytes, limits, torn).value.generations;
    forall k | 0 <= k < |gs|
      ensures gs[k].generation == k && gs[k].identity == gs[0].identity
      ensures PhaseCode(gs[k].phase) == k || (k == |gs| - 1 && gs[k].phase == RolledBack)
    {
      LinkedPhase(gs, k);
    }
    if |gs| >= 2 {
      ContinuedIsOpen(gs, |gs| - 2);
    }
  }

  lemma ContinuedIsOpen(generations: seq<Generation>, k: nat)
    requires WellLinked(generations) && k < |generations| - 1
    ensures k <= PhaseCode(Verified)
  {
    LinkedPhase(generations, k);
    assert Links(generations, k + 1);
  }

  // ----- a history whose appends all succeed and whose scan does not -----

  const QUIET_HASHES: Hashes := Hashes((_: seq<Byte>) => 0, (_: seq<Byte>) => Zeros(32))
  const QUIET_IDENTITY: Identity := Identity(Zeros(16), Zeros(32))
  const SMALL_LIMITS: Limits := Limits(65536, 4096, 16)
  /** First byte of the magic. */
  const MARK: Byte := 0x53

  /** Lengths 1, 1 and 274: the second and third generations look back to the same start. */
  function CollidingEntries(identity: Identity): seq<Entry>
  {
    [Entry(identity, Discovered, Zeros(1)), Entry(identity, Reserved, Zeros(1)),
        Entry(identity, Relocating, Zeros(274))]
  }

  predicate NoMark(s: seq<Byte>)
  {
    forall k :: 0 <= k < |s| ==> s[k] != MARK
  }

  lemma {:induction false} SmallNumberQuiet(value: nat, width: nat)
    requires value < 0x1_0000 && value % 256 != MARK && value / 256 != MARK
    ensures NoMark(LittleEndian(value, width))
  {
    if width > 0 {
      SmallNumberQuiet(value / 256, width - 1);
    }
  }

  lemma {:induction false} AllOnesQuiet(width: nat)
    ensures NoMark(LittleEndian(Pow256(width) - 1, width))
  {
    if width > 0 {
      AllOnesQuiet(width - 1);
      assert (Pow256(width) - 1) / 256 == Pow256(width - 1) - 1;
      assert (Pow256(width) - 1) % 256 == 255;
    }
  }

  predicate QuietNumber(value: nat)
  {
    value < 0x1_0000 && value % 256 != MARK && value / 256 != MARK
  }

  predicate QuietHeader(h: Header)
  {
    && QuietNumber(h.generation) && QuietNumber(h.payloadLen)
    && (h.previousOffset.Some? ==> QuietNumber(h.previousOffset.value))
    && h.identity == QUIET_IDENTITY && h.payloadDigest == Zeros(32)
  }

  lemma QuietHeaderHasOneMark(h: Header)
    requires QuietHeader(h)
    ensures NoMark(EncodeHeader(QUIET_HASHES, h)[1..])
  {
    SmallNumberQuiet(CAPSULE_VERSION, 2);
    SmallNumberQuiet(HEADER_BYTES, 2);
    SmallNumberQuiet(h.generation, 8);
    SmallNumberQuiet(h.payloadLen, 8);
    PowersOf256();
    if h.previousOffset.Some? {
      SmallNumberQuiet(h.previousOffset.value, 8);
    } else {
      AllOnesQuiet(8);
    }
    SmallNumberQuiet(0, 4);
    QuietConcat(h);
  }

  lemma QuietTop(h: Header)
    requires NoMark(LittleEndian(CAPSULE_VERSION, 2)) && NoMark(LittleEndian(HEADER_BYTES, 2))
    requires NoMark(LittleEndian(h.generation, 8))
    ensures NoMark(HeaderTop(h)[1..])
  {
    assert HeaderTop(h)[1..] == MAGIC[1..] + LittleEndian(CAPSULE_VERSION, 2) + LittleEndian(HEADER_BYTES, 2) + Zeros(4)
                                + LittleEndian(h.generation, 8) + [PhaseCode(h.phase)] + Zeros(7);
  }

  lemma TailOfConcat(a: seq<Byte>, b: seq<Byte>)
    requires a != [] && NoMark(a[1..]) && NoMark(b)
    ensures NoMark((a + b)[1..])
  {
    assert (a + b)[1..] == a[1..] + b;
  }

  lemma QuietConcat(h: Header)
    requires QuietHeader(h)
    requires NoMark(LittleEndian(CAPSULE_VERSION, 2)) && NoMark(LittleEndian(HEADER_BYTES, 2))
    requires NoMark(LittleEndian(h.generation, 8)) && NoMark(LittleEndian(h.payloadLen, 8))
    requires NoMark(LittleEndian(PreviousField(h.previousOffset), 8)) && NoMark(LittleEndian(0, 4))
    ensures NoMark(EncodeHeader(QUIET_HASHES, h)[1..])
  {
    hide HeaderTop, LittleEndian;
    QuietTop(h);
    var top := HeaderTop(h);
    var a1 := top + LittleEndian(h.payloadLen, 8);
    var a2 := a1 + LittleEndian(PreviousField(h.previousOffset), 8);
    var a3 := a2 + h.identity.transactionId;
    var a4 := a3 + h.identity.sourceDigest;
    var body := a4 + h.payloadDigest;
    TailOfConcat(top, LittleEndian(h.payloadLen, 8));
    TailOfConcat(a1, LittleEndian(PreviousField(h.previousOffset), 8));
    TailOfConcat(a2, h.identity.transactionId);
    TailOfConcat(a3, h.identity.sourceDigest);
    TailOfConcat(a4, h.payloadDigest);
    TailOfConcat(body, LittleEndian(0, 4));
    TailOfConcat(body + LittleEndian(0, 4), Zeros(4));
  }

  /** The mark appears only where a header begins. */
  ghost predicate MarkedOnFrame(bytes: seq<Byte>, entries: seq<Entry>)
  {
    forall k: nat :: k < |bytes| && bytes[k] == MARK ==> OnFrame(entries, k)
  }

  lemma MarkedMeansHeadersOnFrame(bytes: seq<Byte>, entries: seq<Entry>)
    requires MarkedOnFrame(bytes, entries)
    ensures HeadersOnlyOnFrame(CapsuleCodec(QUIET_HASHES), bytes, entries)
  {
    var c := CapsuleCodec(QUIET_HASHES);
    forall position: nat | DecodeAt(c, bytes, position).Some?
      ensures OnFrame(entries, position)
    {
      var window := bytes[position..position + HEADER_BYTES];
      assert DecodeHeader(QUIET_HASHES, window).Ok?;
      assert window[..8][0] == MARK;
      assert bytes[position] == window[0];
    }
  }

  lemma OnFrameGrows(entries: seq<Entry>, e: Entry, position: int)
    requires OnFrame(entries, position)
    ensures OnFrame(entries + [e], position)
  {
    var k: nat :| k < |entries| && (position == Lead(entries, k) || position == Trail(entries, k));
    assert (entries + [e])[..|entries|] == entries;
    StartsOfPrefix(entries + [e], |entries|, k);
    assert position == Lead(entries + [e], k) || position == Trail(entries + [e], k);
  }

  lemma MarksExtend(capsule: seq<Byte>, encoded: seq<Byte>, payload: Payload, entries: seq<Entry>, e: Entry)
    requires MarkedOnFrame(capsule, entries) && |capsule| == TotalBytes(entries)
    requires |encoded| == HEADER_BYTES && NoMark(encoded[1..]) && NoMark(payload) && e.payload == payload
    ensures MarkedOnFrame(Appended(capsule, encoded, payload), entries + [e])
  {
    var updated, longer, n := Appended(capsule, encoded, payload), entries + [e], |entries|;
    assert longer[..n] == entries;
    StartsOfPrefix(longer, n, n);
    forall k: nat | k < |updated| && updated[k] == MARK
      ensures OnFrame(longer, k)
    {
      var lead, trail := |capsule|, |capsule| + HEADER_BYTES + |payload|;
      if k < lead {
        assert capsule[k] == MARK;
        OnFrameGrows(entries, e, k);
      } else {
        RecordUnmarked(capsule, encoded, payload, k);
        assert k == Lead(longer, n) || k == Trail(longer, n);
      }
    }
  }

  lemma RecordUnmarked(capsule: seq<Byte>, encoded: seq<Byte>, payload: Payload, k: nat)
    requires |encoded| == HEADER_BYTES && NoMark(encoded[1..]) && NoMark(payload)
    requires |capsule| <= k < |Appended(capsule, encoded, payload)|
    ensures k != |capsule| && k != |capsule| + HEADER_BYTES + |payload| ==>
              Appended(capsule, encoded, payload)[k] != MARK
  {
    var updated := Appended(capsule, encoded, payload);
    var lead, trail := |capsule|, |capsule| + HEADER_BYTES + |payload|;
    if lead < k < lead + HEADER_BYTES {
      assert updated[k] == encoded[1..][k - lead - 1];
    } else if lead + HEADER_BYTES <= k < trail {
      assert updated[k] == payload[k - lead - HEADER_BYTES];
    } else if trail < k {
      assert updated[k] == encoded[1..][k - trail - 1];
    }
  }

  /** One more quiet entry on a quiet history that scans: the append succeeds and stays quiet. */
  lemma QuietStep(entries: seq<Entry>, e: Entry)
    requires |entries| < 3 && NoMark(e.payload) && |e.payload| <= 4096 && e.identity == QUIET_IDENTITY
    requires QuietNumber(|e.payload|)
    requires AppendAll(CapsuleCodec(QUIET_HASHES), entries, SMALL_LIMITS).Ok?
    requires MarkedOnFrame(AppendAll(CapsuleCodec(QUIET_HASHES), entries, SMALL_LIMITS).value, entries)
    requires !Collides(entries) && TotalBytes(entries) < 1000
    requires entries == [] ==> e.phase == Discovered
    requires entries != [] ==>
               && entries[|entries| - 1].identity == QUIET_IDENTITY
               && MayFollow(e.phase, entries[|entries| - 1].phase)
               && QuietNumber(StartOf(entries, |entries| - 1))
    ensures AppendAll(CapsuleCodec(QUIET_HASHES), entries + [e], SMALL_LIMITS).Ok?
    ensures MarkedOnFrame(AppendAll(CapsuleCodec(QUIET_HASHES), entries + [e], SMALL_LIMITS).value, entries + [e])
  {
    hide Scan, MarkedOnFrame, HeadersOnlyOnFrame, Collides, EncodeHeader, DecodeHeader, NextHeader, LayoutAt,
         QuietHeader, NoMark;
    var c := CapsuleCodec(QUIET_HASHES);
    var capsule := AppendAll(c, entries, SMALL_LIMITS).value;
    CapsuleCodecRoundTrips(QUIET_HASHES);
    MarkedMeansHeadersOnFrame(capsule, entries);
    RoundTripExactly(c, entries, SMALL_LIMITS, false);
    AppendAllLength(c, entries, SMALL_LIMITS);
    var h := QuietNextHeader(entries, e);
    QuietHeaderHasOneMark(h);
    MarksExtend(capsule, c.encode(h), e.payload, entries, e);
    assert (entries + [e])[..|entries|] == entries;
    assert AppendAll(c, entries + [e], SMALL_LIMITS)
             == Append(c, capsule, e.identity, e.phase, e.payload, SMALL_LIMITS);
  }

  lemma QuietNextHeader(entries: seq<Entry>, e: Entry) returns (h: Header)
    requires TotalBytes(entries) < 1000 && QuietNumber(|e.payload|) && e.identity == QUIET_IDENTITY && |entries| < 3
    requires entries == [] ==> e.phase == Discovered
    requires entries != [] ==>
               && entries[|entries| - 1].identity == QUIET_IDENTITY
               && MayFollow(e.phase, entries[|entries| - 1].phase)
               && QuietNumber(StartOf(entries, |entries| - 1))
    ensures NextHeader(CapsuleCodec(QUIET_HASHES), Layout(CapsuleCodec(QUIET_HASHES), entries), e.identity, e.phase,
            e.payload) == Ok(h)
    ensures QuietHeader(h)
  {
    var c := CapsuleCodec(QUIET_HASHES);
    h := NextHeader(c, Layout(c, entries), e.identity, e.phase, e.payload).value;
  }

  /** Appending always succeeding does not mean the result scans: three legal appends, each accepted,
      leave a capsule that neither scan accepts, because two generations claim byte 136. */
  lemma AppendedButUnscannable()
    ensures var c := CapsuleCodec(QUIET_HASHES);
            var all := CollidingEntries(QUIET_IDENTITY);
            && AppendAll(c, all, SMALL_LIMITS).Ok?
            && ScanCapsule(c, AppendAll(c, all, SMALL_LIMITS).value, SMALL_LIMITS).Err?
            && RecoverCapsule(c, AppendAll(c, all, SMALL_LIMITS).value, SMALL_LIMITS).Err?
  {
    hide Scan, Append, MarkedOnFrame, HeadersOnlyOnFrame, AppendAll, Collides;
    var c := CapsuleCodec(QUIET_HASHES);
    var all := CollidingEntries(QUIET_IDENTITY);
    EmptyHistoryQuiet();
    FewNeverCollide([]);
    FewNeverCollide(all[..1]);
    FewNeverCollide(all[..2]);
    CollidingStarts(QUIET_IDENTITY);
    QuietStep([], all[0]);
    assert [] + [all[0]] == all[..1];
    QuietStep(all[..1], all[1]);
    assert all[..1] + [all[1]] == all[..2];
    QuietStep(all[..2], all[2]);
    assert all[..2] + [all[2]] == all;
    CollidingNeverScans(QUIET_HASHES, QUIET_IDENTITY, SMALL_LIMITS, false);
    CollidingNeverScans(QUIET_HASHES, QUIET_IDENTITY, SMALL_LIMITS, true);
  }

  /** Not an accident of the checksum: whatever checksum, digest, identity and limits let these three
      appends succeed, the capsule they write never scans. */
  lemma CollidingNeverScans(hashes: Hashes, identity: Identity, limits: Limits, torn: bool)
    requires AppendAll(CapsuleCodec(hashes), CollidingEntries(identity), limits).Ok?
    ensures Scan(CapsuleCodec(hashes), AppendAll(CapsuleCodec(hashes), CollidingEntries(identity), limits).value,
            limits, torn).Err?
  {
    hide Scan, Append, AppendAll, EntryWritten, Chained, DecodeHeader, EncodeHeader;
    var c := CapsuleCodec(hashes);
    var all := CollidingEntries(identity);
    var bytes := AppendAll(c, all, limits).value;
    CapsuleCodecRoundTrips(hashes);
    AppendedWithinLimits(c, all, limits);
    AppendAllWrites(c, all, limits);
    ThreeCollide(identity);
    CollidingStarts(identity);
    NothingDecodesAtPayload(hashes, bytes, all);
    CollisionIsAmbiguous(c, bytes, all, limits, 1, 2);
    UnframedFails(c, bytes, limits, torn);
  }

  lemma AppendedWithinLimits(c: Codec, entries: seq<Entry>, limits: Limits)
    requires entries != [] && AppendAll(c, entries, limits).Ok?
    ensures ValidateLimits(limits).Ok?
  {
    hide Scan, NextHeader;
  }

  /** The start both generations look back to is the first payload byte, a zero, not a magic. */
  lemma NothingDecodesAtPayload(hashes: Hashes, bytes: seq<Byte>, entries: seq<Entry>)
    requires |entries| > 0 && TotalBytes(entries) < U64_LIMIT && entries[0].payload == Zeros(1)
    requires EntryWritten(CapsuleCodec(hashes), bytes, entries, 0)
    ensures DecodeAt(CapsuleCodec(hashes), bytes, 136).None?
  {
    var c := CapsuleCodec(hashes);
    assert bytes[136..137] == Zeros(1);
    if 136 + HEADER_BYTES <= |bytes| {
      var window := bytes[136..136 + HEADER_BYTES];
      assert window[..8][0] == bytes[136] == bytes[136..137][0];
    }
  }

  lemma EmptyHistoryQuiet()
    ensures AppendAll(CapsuleCodec(QUIET_HASHES), [], SMALL_LIMITS) == Ok([])
    ensures MarkedOnFrame([], [])
  {
  }

  lemma CollidingStarts(identity: Identity)
    ensures var all := CollidingEntries(identity);
            && StartOf(all[..1], 0) == 0 && TotalBytes(all[..1]) == 273
            && StartOf(all[..2], 1) == 273 && TotalBytes(all[..2]) == 546
            && StartOf(all, 0) == 0 && StartOf(all, 1) == 273 && StartOf(all, 2) == 546
  {
    var all := CollidingEntries(identity);
    assert StartOf(all, 1) == 273;
    StartsOfPrefix(all, 1, 1);
    StartsOfPrefix(all, 2, 1);
    StartsOfPrefix(all, 2, 2);
  }

  /** Two generations can never collide: the first looks back past the beginning. */
  lemma FewNeverCollide(entries: seq<Entry>)
    requires |entries| <= 2
    ensures !Collides(entries)
  {
    forall i: nat, j: nat
      ensures !SameLookBack(entries, i, j)
    {
    }
  }

  lemma ThreeCollide(identity: Identity)
    ensures SameLookBack(CollidingEntries(identity), 1, 2) && LookBack(CollidingEntries(identity), 2) == 136
  {
    CollidingStarts(identity);
  }
}
