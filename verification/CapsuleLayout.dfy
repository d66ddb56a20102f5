/** Which payload lengths frame unambiguously, why the production shape does, and what survives the
    loss of one header copy per generation. */
module CapsuleLayout {
  import opened Results
  import opened Bytes
  import opened CapsuleHeader
  import opened CapsuleLog
  import opened CapsuleRecovery
  import opened CapsuleFraming

  /** Payload of every generation after the first: an eight-byte tag and the plan digest. */
  const CHECKPOINT_BYTES: nat := 40

  function Lead(entries: seq<Entry>, k: nat): nat
    requires k < |entries|
  {
    StartOf(entries, k)
  }

  function Trail(entries: seq<Entry>, k: nat): nat
    requires k < |entries|
  {
    StartOf(entries, k) + HEADER_BYTES + |entries[k].payload|
  }

  /** Where the record would start if the leading header of entry `k` were a trailing one. */
  function LookBack(entries: seq<Entry>, k: nat): int
    requires k < |entries|
  {
    StartOf(entries, k) - HEADER_BYTES - |entries[k].payload|
  }

  ghost predicate OnFrame(entries: seq<Entry>, position: int)
  {
    exists k: nat :: k < |entries| && (position == Lead(entries, k) || position == Trail(entries, k))
  }

  /** Two generations look back to the same start, and no real header sits there to refute them. */
  predicate SameLookBack(entries: seq<Entry>, i: nat, j: nat)
  {
    && i < j < |entries|
    && LookBack(entries, i) >= 0
    && LookBack(entries, i) == LookBack(entries, j)
  }

  ghost predicate Collides(entries: seq<Entry>)
  {
    exists i: nat, j: nat :: SameLookBack(entries, i, j) && !OnFrame(entries, LookBack(entries, j))
  }

  /** No window decodes except where a header was written: nothing in a payload, or straddling one,
      happens to be a header. */
  ghost predicate HeadersOnlyOnFrame(c: Codec, bytes: seq<Byte>, entries: seq<Entry>)
  {
    forall position: nat :: DecodeAt(c, bytes, position).Some? ==> OnFrame(entries, position)
  }

  /** Limits whose sums cannot overflow `usize`; the program's defaults are of this kind. */
  predicate SaneLimits(limits: Limits)
  {
    ValidateLimits(limits).Ok? && limits.maxCapsuleBytes + limits.maxGenerationBytes <= USIZE_MAX
  }

  function HeaderOf(g: Generation): Header
  {
    Header(g.generation, g.phase, |g.payload|, g.previousOffset, g.identity, g.payloadDigest)
  }

  function HeaderAt(c: Codec, entries: seq<Entry>, k: nat): Header
    requires k < |entries| && TotalBytes(entries) < U64_LIMIT
  {
    HeaderOf(LayoutAt(c, entries, k))
  }

  /** Entry `k` is in place: both headers decode to the header that belongs there, around its payload. */
  ghost predicate EntryWritten(c: Codec, bytes: seq<Byte>, entries: seq<Entry>, k: nat)
    requires k < |entries| && TotalBytes(entries) < U64_LIMIT
  {
    && Trail(entries, k) + HEADER_BYTES <= |bytes|
    && DecodeAt(c, bytes, Lead(entries, k)) == Some(HeaderAt(c, entries, k))
    && DecodeAt(c, bytes, Trail(entries, k)) == Some(HeaderAt(c, entries, k))
    && bytes[Lead(entries, k) + HEADER_BYTES..Trail(entries, k)] == entries[k].payload
  }

  predicate Follows(entries: seq<Entry>, k: nat)
    requires 0 < k < |entries|
  {
    MayFollow(entries[k].phase, entries[k - 1].phase) && entries[k].identity == entries[k - 1].identity
  }

  /** The rules every appended history obeys. */
  ghost predicate Chained(entries: seq<Entry>, limits: Limits)
  {
    && |entries| <= limits.maxGenerations
    && (entries != [] ==> entries[0].phase == Discovered)
    && (forall k: nat :: 0 < k < |entries| ==> Follows(entries, k))
    && (forall k :: 0 <= k < |entries| ==> |entries[k].payload| <= limits.maxGenerationBytes)
  }

  // ----- what a sequence of appends writes -----

  lemma PrefixFacts(c: Codec, entries: seq<Entry>, k: nat)
    requires k < |entries| - 1 && TotalBytes(entries) < U64_LIMIT
    ensures var earlier := entries[..|entries| - 1];
            && TotalBytes(earlier) <= TotalBytes(entries)
            && Lead(earlier, k) == Lead(entries, k) && Trail(earlier, k) == Trail(entries, k)
            && LayoutAt(c, earlier, k) == LayoutAt(c, entries, k)
            && Trail(entries, k) + HEADER_BYTES <= TotalBytes(earlier)
  {
    var n := |entries| - 1;
    StartsOfPrefix(entries, n, n);
    StartsOfPrefix(entries, n, k);
    StartsOfPrefix(entries, n, if k == 0 then 0 else k - 1);
    StartsAscend(entries, n, |entries|);
    StartsAscend(entries[..n], k, n);
  }

  /** `bytes` is exactly the entries laid end to end, and they form a legal history. */
  ghost predicate WrittenOut(c: Codec, bytes: seq<Byte>, entries: seq<Entry>, limits: Limits)
  {
    && |bytes| == TotalBytes(entries) <= USIZE_MAX
    && (forall k: nat :: k < |entries| ==> EntryWritten(c, bytes, entries, k))
    && Chained(entries, limits)
    && |bytes| <= limits.maxCapsuleBytes
  }

  lemma EntryStaysWritten(c: Codec, capsule: seq<Byte>, updated: seq<Byte>, entries: seq<Entry>, k: nat)
    requires k < |entries| - 1 && TotalBytes(entries) < U64_LIMIT
    requires TotalBytes(entries[..|entries| - 1]) < U64_LIMIT
    requires EntryWritten(c, capsule, entries[..|entries| - 1], k) && capsule <= updated
    ensures EntryWritten(c, updated, entries, k)
  {
    PrefixFacts(c, entries, k);
    DecodeAtPrefix(c, capsule, updated, Lead(entries, k));
    DecodeAtPrefix(c, capsule, updated, Trail(entries, k));
    var lo, hi := Lead(entries, k) + HEADER_BYTES, Trail(entries, k);
    assert capsule[lo..hi] == updated[lo..hi];
  }

  lemma LastEntryWritten(c: Codec, capsule: seq<Byte>, entries: seq<Entry>, limits: Limits)
    requires entries != [] && RoundTrips(c)
    requires var e := entries[|entries| - 1];
             Append(c, capsule, e.identity, e.phase, e.payload, limits).Ok?
    requires var earlier := entries[..|entries| - 1];
             && TotalBytes(earlier) < U64_LIMIT && |capsule| == TotalBytes(earlier)
             && ScanCapsule(c, capsule, limits) == Ok(View(Layout(c, earlier), |capsule|))
             && Chained(earlier, limits)
    ensures var e := entries[|entries| - 1];
            var updated := Append(c, capsule, e.identity, e.phase, e.payload, limits).value;
            && capsule <= updated && |updated| == TotalBytes(entries) <= USIZE_MAX
                 && |updated| <= limits.maxCapsuleBytes
            && EntryWritten(c, updated, entries, |entries| - 1)
            && Chained(entries, limits)
  {
    hide Scan, Chained, LayoutAt, HeaderAt, Claims;
    var n, e := |entries| - 1, entries[|entries| - 1];
    StartsOfPrefix(entries, n, n);
    StartsOfPrefix(entries, n, if n == 0 then 0 else n - 1);
    var h := AppendClaims(c, capsule, e.identity, e.phase, e.payload, limits);
    NextIsLaidOut(c, entries, h);
    NextIsChained(c, entries, limits, h);
  }

  lemma NextIsLaidOut(c: Codec, entries: seq<Entry>, h: Header)
    requires entries != [] && TotalBytes(entries) < U64_LIMIT && TotalBytes(entries[..|entries| - 1]) < U64_LIMIT
    requires var earlier, last := entries[..|entries| - 1], entries[|entries| - 1];
             Ok(h) == NextHeader(c, Layout(c, earlier), last.identity, last.phase, last.payload)
    ensures h == HeaderAt(c, entries, |entries| - 1)
  {
    var n := |entries| - 1;
    if n > 0 {
      StartsOfPrefix(entries, n, n - 1);
      assert Layout(c, entries[..n])[n - 1] == LayoutAt(c, entries[..n], n - 1);
    }
  }

  lemma NextIsChained(c: Codec, entries: seq<Entry>, limits: Limits, h: Header)
    requires entries != [] && TotalBytes(entries) < U64_LIMIT && TotalBytes(entries[..|entries| - 1]) < U64_LIMIT
    requires Chained(entries[..|entries| - 1], limits) && |entries| <= limits.maxGenerations
    requires var earlier, last := entries[..|entries| - 1], entries[|entries| - 1];
             && |last.payload| <= limits.maxGenerationBytes
             && Ok(h) == NextHeader(c, Layout(c, earlier), last.identity, last.phase, last.payload)
    ensures Chained(entries, limits)
  {
    var n := |entries| - 1;
    var earlier := entries[..n];
    if n > 0 {
      assert Layout(c, earlier)[n - 1] == LayoutAt(c, earlier, n - 1);
      assert earlier[n - 1] == entries[n - 1];
    }
    forall k: nat | 0 < k < |entries|
      ensures Follows(entries, k)
    {
      if k < n {
        assert Follows(earlier, k);
      }
    }
  }

  lemma {:induction false} AppendAllWrites(c: Codec, entries: seq<Entry>, limits: Limits)
    requires RoundTrips(c) && ValidateLimits(limits).Ok? && AppendAll(c, entries, limits).Ok?
    ensures WrittenOut(c, AppendAll(c, entries, limits).value, entries, limits)
  {
    hide Scan, Append, EntryWritten, LayoutAt;
    if entries != [] {
      var earlier := entries[..|entries| - 1];
      var capsule, updated := AppendAll(c, earlier, limits).value, AppendAll(c, entries, limits).value;
      AppendAllWrites(c, earlier, limits);
      AppendAllThenScan(c, earlier, limits, false);
      AppendNeedsScan(c, capsule, entries[|entries| - 1], limits);
      AppendAllLength(c, entries, limits);
      LastEntryWritten(c, capsule, entries, limits);
      forall k: nat | k < |entries|
        ensures EntryWritten(c, updated, entries, k)
      {
        if k < |entries| - 1 {
          EntryStaysWritten(c, capsule, updated, entries, k);
        }
      }
    }
  }

  // ----- ambiguity, exactly -----

  ghost predicate Sits(c: Codec, bytes: seq<Byte>, entries: seq<Entry>, position: nat, k: nat)
    requires k < |entries| && TotalBytes(entries) < U64_LIMIT
  {
    && (position == Lead(entries, k) || position == Trail(entries, k))
    && DecodeAt(c, bytes, position) == Some(HeaderAt(c, entries, k))
  }

  /** Every decodable window is one of the header positions and holds the header that belongs there. */
  ghost predicate WindowsGenuine(c: Codec, bytes: seq<Byte>, entries: seq<Entry>)
    requires TotalBytes(entries) < U64_LIMIT
  {
    forall position: nat :: DecodeAt(c, bytes, position).Some? ==>
      exists k: nat :: k < |entries| && Sits(c, bytes, entries, position, k)
  }

  lemma WrittenIsGenuine(c: Codec, bytes: seq<Byte>, entries: seq<Entry>, limits: Limits)
    requires WrittenOut(c, bytes, entries, limits) && HeadersOnlyOnFrame(c, bytes, entries)
    ensures WindowsGenuine(c, bytes, entries)
  {
    forall position: nat | DecodeAt(c, bytes, position).Some?
      ensures exists k: nat :: k < |entries| && Sits(c, bytes, entries, position, k)
    {
      assert OnFrame(entries, position);
      var k: nat :| k < |entries| && (position == Lead(entries, k) || position == Trail(entries, k));
      assert EntryWritten(c, bytes, entries, k);
      assert Sits(c, bytes, entries, position, k);
    }
  }

  /** A claim is made by the header of some entry, at its own start, at its trailing copy read as a
      leading one, or at the start its leading copy looks back to. */
  lemma ClaimSource(c: Codec, bytes: seq<Byte>, entries: seq<Entry>, limits: Limits, s: nat, h: Header) returns (k: nat)
    requires TotalBytes(entries) < U64_LIMIT && WindowsGenuine(c, bytes, entries)
    requires Claims(c, bytes, limits, s, h)
    ensures k < |entries| && h == HeaderAt(c, entries, k)
    ensures s == Lead(entries, k) || s == Trail(entries, k) || s == LookBack(entries, k)
    ensures DecodeAt(c, bytes, s).Some? ==> DecodeAt(c, bytes, s) == Some(h)
  {
    var hit := HitOf(c, bytes, s, h);
    assert DecodeAt(c, bytes, hit) == Some(h);
    k :| k < |entries| && Sits(c, bytes, entries, hit, k);
  }

  lemma HeadersDiffer(c: Codec, entries: seq<Entry>, i: nat, j: nat)
    requires i < |entries| && j < |entries| && TotalBytes(entries) < U64_LIMIT
    ensures HeaderAt(c, entries, i) == HeaderAt(c, entries, j) <==> i == j
  {
  }

  lemma FrameDecodes(c: Codec, bytes: seq<Byte>, entries: seq<Entry>, limits: Limits, position: nat)
    requires WrittenOut(c, bytes, entries, limits)
    ensures OnFrame(entries, position) ==> DecodeAt(c, bytes, position).Some?
  {
    if OnFrame(entries, position) {
      var k: nat :| k < |entries| && (position == Lead(entries, k) || position == Trail(entries, k));
      assert EntryWritten(c, bytes, entries, k);
    }
  }

  lemma SharedLookBackCollides(entries: seq<Entry>, i: nat, j: nat)
    requires i < j < |entries| && 0 <= LookBack(entries, i) == LookBack(entries, j)
    requires !OnFrame(entries, LookBack(entries, j))
    ensures Collides(entries)
  {
    assert SameLookBack(entries, i, j);
  }

  lemma LookBackClaims(c: Codec, bytes: seq<Byte>, entries: seq<Entry>, limits: Limits, k: nat)
    requires WrittenOut(c, bytes, entries, limits)
    requires k < |entries| && LookBack(entries, k) >= 0 && DecodeAt(c, bytes, LookBack(entries, k)).None?
    ensures Claims(c, bytes, limits, LookBack(entries, k), HeaderAt(c, entries, k))
  {
    assert EntryWritten(c, bytes, entries, k);
  }

  lemma NoCollisionIsUnambiguous(c: Codec, bytes: seq<Byte>, entries: seq<Entry>, limits: Limits)
    requires WrittenOut(c, bytes, entries, limits) && WindowsGenuine(c, bytes, entries)
    requires !Collides(entries)
    ensures Unambiguous(c, bytes, limits)
  {
    hide LayoutAt, HeaderAt, Chained, Claims;
    forall s: nat, h1, h2 | Claims(c, bytes, limits, s, h1) && Claims(c, bytes, limits, s, h2)
      ensures h1 == h2
    {
      var i := ClaimSource(c, bytes, entries, limits, s, h1);
      var j := ClaimSource(c, bytes, entries, limits, s, h2);
      FrameDecodes(c, bytes, entries, limits, s);
      if i != j && DecodeAt(c, bytes, s).None? {
        FrameDecodes(c, bytes, entries, limits, Lead(entries, i));
        FrameDecodes(c, bytes, entries, limits, Lead(entries, j));
        SharedLookBackCollides(entries, if i < j then i else j, if i < j then j else i);
      }
    }
  }

  /** Two generations that look back to a start where nothing decodes make the capsule ambiguous,
      whatever else it holds. */
  lemma CollisionIsAmbiguous(c: Codec, bytes: seq<Byte>, entries: seq<Entry>, limits: Limits, i: nat, j: nat)
    requires WrittenOut(c, bytes, entries, limits)
    requires TotalBytes(entries) < U64_LIMIT
    requires SameLookBack(entries, i, j) && DecodeAt(c, bytes, LookBack(entries, j)).None?
    ensures !Unambiguous(c, bytes, limits)
    ensures Claims(c, bytes, limits, LookBack(entries, j), HeaderAt(c, entries, i))
    ensures Claims(c, bytes, limits, LookBack(entries, j), HeaderAt(c, entries, j))
  {
    hide WrittenOut, LayoutAt, Claims, OnFrame;
    HeadersDiffer(c, entries, i, j);
    LookBackClaims(c, bytes, entries, limits, i);
    LookBackClaims(c, bytes, entries, limits, j);
  }

  /** Appending and scanning round-trips exactly when no two generations look back to the same
      unoccupied start: a condition on payload lengths alone, checkable before the append. */
  lemma RoundTripExactly(c: Codec, entries: seq<Entry>, limits: Limits, torn: bool)
    requires RoundTrips(c) && SaneLimits(limits) && AppendAll(c, entries, limits).Ok?
    requires HeadersOnlyOnFrame(c, AppendAll(c, entries, limits).value, entries)
    ensures TotalBytes(entries) < U64_LIMIT
    ensures Scan(c, AppendAll(c, entries, limits).value, limits, torn).Ok? <==> !Collides(entries)
    ensures !Collides(entries) ==>
              Scan(c, AppendAll(c, entries, limits).value, limits, torn)
              == Ok(View(Layout(c, entries), TotalBytes(entries)))
  {
    hide Scan, Append, Chained, EntryWritten, Collides, HeadersOnlyOnFrame, Unambiguous;
    var bytes := AppendAll(c, entries, limits).value;
    AppendAllWrites(c, entries, limits);
    AppendAllThenScan(c, entries, limits, torn);
    WrittenIsGenuine(c, bytes, entries, limits);
    BoundedNeverOverflows(c, bytes, limits);
    if Collides(entries) {
      CollidingIsAmbiguous(c, bytes, entries, limits);
    } else {
      NoCollisionIsUnambiguous(c, bytes, entries, limits);
    }
  }

  lemma CollidingIsAmbiguous(c: Codec, bytes: seq<Byte>, entries: seq<Entry>, limits: Limits)
    requires WrittenOut(c, bytes, entries, limits) && HeadersOnlyOnFrame(c, bytes, entries) && Collides(entries)
    ensures !Unambiguous(c, bytes, limits) && entries != []
  {
    var i: nat, j: nat :| SameLookBack(entries, i, j) && !OnFrame(entries, LookBack(entries, j));
    CollisionIsAmbiguous(c, bytes, entries, limits, i, j);
  }

  lemma BoundedNeverOverflows(c: Codec, bytes: seq<Byte>, limits: Limits)
    requires SaneLimits(limits) && |bytes| <= limits.maxCapsuleBytes
    ensures NoOverflow(c, bytes, limits)
  {
    forall position: nat
      ensures !OverflowsAt(c, bytes, limits, position)
    {
    }
  }

  // ----- the shape production writes -----

  /** Generation zero carries the prepared envelope; every later payload is a 40-byte checkpoint. */
  predicate Production(entries: seq<Entry>)
  {
    forall k :: 0 < k < |entries| ==> |entries[k].payload| == CHECKPOINT_BYTES
  }

  lemma {:induction false} ProductionStarts(entries: seq<Entry>, k: nat)
    requires Production(entries) && 0 < k <= |entries|
    ensures StartOf(entries, k) == RecordBytes(|entries[0].payload|) + 312 * (k - 1)
  {
    if k > 1 {
      ProductionStarts(entries, k - 1);
    }
  }

  /** In the production shape no look-back start is shared or lies on a header, whatever the length
      of the envelope. */
  lemma ProductionSourcesDistinct(entries: seq<Entry>, j: nat)
    requires Production(entries) && j < |entries| && LookBack(entries, j) >= 0
    ensures !OnFrame(entries, LookBack(entries, j))
    ensures forall i: nat :: i < |entries| && LookBack(entries, i) == LookBack(entries, j) ==> i == j
  {
    assert j > 0;
    ProductionStarts(entries, j);
    forall k: nat | k < |entries|
      ensures LookBack(entries, j) != Lead(entries, k) && LookBack(entries, j) != Trail(entries, k)
      ensures LookBack(entries, k) == LookBack(entries, j) ==> k == j
    {
      if k > 0 {
        ProductionStarts(entries, k);
      }
    }
  }

  lemma ProductionNeverCollides(entries: seq<Entry>)
    requires Production(entries)
    ensures !Collides(entries)
  {
    forall i: nat, j: nat
      ensures !SameLookBack(entries, i, j)
    {
      if i < j < |entries| && LookBack(entries, j) >= 0 {
        ProductionSourcesDistinct(entries, j);
      }
    }
  }

  /** Hence every production capsule round-trips: any envelope, any number of checkpoints. */
  lemma ProductionRoundTrip(c: Codec, entries: seq<Entry>, limits: Limits, torn: bool)
    requires RoundTrips(c) && SaneLimits(limits) && AppendAll(c, entries, limits).Ok? && Production(entries)
    requires HeadersOnlyOnFrame(c, AppendAll(c, entries, limits).value, entries)
    ensures TotalBytes(entries) < U64_LIMIT
    ensures Scan(c, AppendAll(c, entries, limits).value, limits, torn)
         == Ok(View(Layout(c, entries), TotalBytes(entries)))
  {
    hide Scan, AppendAll;
    RoundTripExactly(c, entries, limits, torn);
    ProductionNeverCollides(entries);
  }

  // ----- header redundancy -----

  /** `damaged` is `written` with some header copies made undecodable: payloads intact, at least one
      copy of each header left, and no window that did not decode before decodes now. */
  ghost predicate HeaderDamage(c: Codec, written: seq<Byte>, damaged: seq<Byte>, entries: seq<Entry>)
  {
    && |damaged| == |written| == TotalBytes(entries)
    && (forall position: nat :: DecodeAt(c, damaged, position).Some? ==>
          DecodeAt(c, damaged, position) == DecodeAt(c, written, position))
    && (forall k: nat :: k < |entries| ==> OneCopyLeft(c, written, damaged, entries, k))
  }

  ghost predicate OneCopyLeft(c: Codec, written: seq<Byte>, damaged: seq<Byte>, entries: seq<Entry>, k: nat)
    requires k < |entries|
  {
    && Trail(entries, k) <= |damaged| && Trail(entries, k) <= |written|
    && damaged[Lead(entries, k) + HEADER_BYTES..Trail(entries, k)]
         == written[Lead(entries, k) + HEADER_BYTES..Trail(entries, k)]
    && (DecodeAt(c, damaged, Lead(entries, k)).Some? || DecodeAt(c, damaged, Trail(entries, k)).Some?)
  }

  /** The generation seen through the damage: everything as written, the flags as found. */
  function SeenAt(c: Codec, damaged: seq<Byte>, entries: seq<Entry>, k: nat): Generation
    requires k < |entries| && TotalBytes(entries) < U64_LIMIT
  {
    LayoutAt(c, entries, k).(
      primaryHeaderValid := DecodeAt(c, damaged, Lead(entries, k)).Some?,
      trailingHeaderValid := DecodeAt(c, damaged, Trail(entries, k)).Some?)
  }

  function Seen(c: Codec, damaged: seq<Byte>, entries: seq<Entry>): (r: seq<Generation>)
    requires TotalBytes(entries) < U64_LIMIT
    ensures |r| == |entries|
    ensures forall k :: 0 <= k < |entries| ==> r[k] == SeenAt(c, damaged, entries, k)
  {
    seq(|entries|, k requires 0 <= k < |entries| => SeenAt(c, damaged, entries, k))
  }

  lemma DamageStaysGenuine(c: Codec, written: seq<Byte>, damaged: seq<Byte>, entries: seq<Entry>, limits: Limits)
    requires WrittenOut(c, written, entries, limits) && HeadersOnlyOnFrame(c, written, entries)
    requires HeaderDamage(c, written, damaged, entries)
    ensures WindowsGenuine(c, damaged, entries)
  {
    WrittenIsGenuine(c, written, entries, limits);
    forall position: nat | DecodeAt(c, damaged, position).Some?
      ensures exists k: nat :: k < |entries| && Sits(c, damaged, entries, position, k)
    {
      var k: nat :| k < |entries| && Sits(c, written, entries, position, k);
      assert Sits(c, damaged, entries, position, k);
    }
  }

  lemma DamageStaysUnambiguous(c: Codec, damaged: seq<Byte>, entries: seq<Entry>, limits: Limits)
    requires TotalBytes(entries) < U64_LIMIT && WindowsGenuine(c, damaged, entries) && Production(entries)
    ensures Unambiguous(c, damaged, limits)
  {
    hide LayoutAt, HeaderAt, Claims;
    forall s: nat, h1, h2 | Claims(c, damaged, limits, s, h1) && Claims(c, damaged, limits, s, h2)
      ensures h1 == h2
    {
      var i := ClaimSource(c, damaged, entries, limits, s, h1);
      var j := ClaimSource(c, damaged, entries, limits, s, h2);
      if s == LookBack(entries, i) {
        ProductionSourcesDistinct(entries, i);
      } else if s == LookBack(entries, j) {
        ProductionSourcesDistinct(entries, j);
      } else {
        FramePositionsDistinct(entries, i, j);
      }
    }
  }

  lemma FramePositionsDistinct(entries: seq<Entry>, i: nat, j: nat)
    requires i < |entries| && j < |entries|
    ensures i != j ==> Lead(entries, i) != Lead(entries, j) && Lead(entries, i) != Trail(entries, j)
                       && Trail(entries, i) != Lead(entries, j) && Trail(entries, i) != Trail(entries, j)
  {
    if i < j {
      StartsAscend(entries, i, j);
    } else if j < i {
      StartsAscend(entries, j, i);
    }
  }

  lemma DamagedClaims(c: Codec, written: seq<Byte>, damaged: seq<Byte>, entries: seq<Entry>, limits: Limits, k: nat)
    requires WrittenOut(c, written, entries, limits) && HeaderDamage(c, written, damaged, entries) && k < |entries|
    ensures Claims(c, damaged, limits, Lead(entries, k), HeaderAt(c, entries, k))
    ensures Lead(entries, k) + RecordBytes(|entries[k].payload|) <= |damaged|
    ensures damaged[Lead(entries, k) + HEADER_BYTES..Trail(entries, k)] == entries[k].payload
    ensures CandidateOf(c, damaged, Lead(entries, k), HeaderAt(c, entries, k))
         == Candidate(Lead(entries, k), HeaderAt(c, entries, k), SeenAt(c, damaged, entries, k).primaryHeaderValid,
                      SeenAt(c, damaged, entries, k).trailingHeaderValid)
  {
    assert EntryWritten(c, written, entries, k) && OneCopyLeft(c, written, damaged, entries, k);
  }

  lemma SeenChains(c: Codec, damaged: seq<Byte>, entries: seq<Entry>, limits: Limits, k: nat)
    requires TotalBytes(entries) < U64_LIMIT && Chained(entries, limits) && k < |entries|
    ensures ValidateChain(Seen(c, damaged, entries)[..k], HeaderAt(c, entries, k)).Ok?
  {
    if k > 0 {
      assert Seen(c, damaged, entries)[..k][k - 1] == SeenAt(c, damaged, entries, k - 1);
      assert Follows(entries, k);
    }
  }

  lemma SeenAccepted(c: Codec, written: seq<Byte>, damaged: seq<Byte>, entries: seq<Entry>, limits: Limits, k: nat)
    requires WrittenOut(c, written, entries, limits) && HeaderDamage(c, written, damaged, entries) && k < |entries|
    ensures AcceptRecord(c, damaged, CandidateOf(c, damaged, Lead(entries, k), HeaderAt(c, entries, k)),
                         Seen(c, damaged, entries)[..k])
         == Ok(SeenAt(c, damaged, entries, k))
  {
    hide Claims, Chained, ValidateChain, EntryWritten, OneCopyLeft, CandidateOf;
    DamagedClaims(c, written, damaged, entries, limits, k);
    SeenChains(c, damaged, entries, limits, k);
  }

  lemma {:induction false} WalkSeen(c: Codec, written: seq<Byte>, damaged: seq<Byte>, entries: seq<Entry>,
                                    limits: Limits,
                                    m: Index, k: nat, torn: bool)
    requires WrittenOut(c, written, entries, limits) && HeaderDamage(c, written, damaged, entries) && k <= |entries|
    requires Keyed(m) && Represents(c, damaged, limits, m)
    ensures StartOf(entries, k) <= |damaged|
    ensures Walk(c, damaged, limits, m, StartOf(entries, k), Seen(c, damaged, entries)[..k], torn)
         == Ok(View(Seen(c, damaged, entries), |damaged|))
    decreases |entries| - k
  {
    hide AcceptRecord, IsRecoverableTornTail, EntryWritten, OneCopyLeft, SeenAt, HeaderAt, Claims, CandidateOf;
    var seen := Seen(c, damaged, entries);
    StartsAscend(entries, k, |entries|);
    if k < |entries| {
      DamagedClaims(c, written, damaged, entries, limits, k);
      SeenAccepted(c, written, damaged, entries, limits, k);
      var candidate := CandidateOf(c, damaged, Lead(entries, k), HeaderAt(c, entries, k));
      assert m[Lead(entries, k)] == candidate;
      HeaderAtLength(c, entries, k);
      assert StartOf(entries, k + 1) == StartOf(entries, k) + RecordBytes(|entries[k].payload|);
      assert seen[..k] + [SeenAt(c, damaged, entries, k)] == seen[..k + 1];
      WalkSeen(c, written, damaged, entries, limits, m, k + 1, torn);
    } else {
      assert seen[..k] == seen;
    }
  }

  lemma HeaderAtLength(c: Codec, entries: seq<Entry>, k: nat)
    requires k < |entries| && TotalBytes(entries) < U64_LIMIT
    ensures HeaderAt(c, entries, k).payloadLen == |entries[k].payload|
  {
  }

  /** Header redundancy: in a production capsule, losing at most one header copy of each generation
      (and gaining no new decodable window) changes nothing a scan reports but the validity flags. */
  lemma HeaderRedundancy(c: Codec, entries: seq<Entry>, limits: Limits, damaged: seq<Byte>, torn: bool)
    requires RoundTrips(c) && SaneLimits(limits) && AppendAll(c, entries, limits).Ok? && Production(entries)
    requires HeadersOnlyOnFrame(c, AppendAll(c, entries, limits).value, entries)
    requires HeaderDamage(c, AppendAll(c, entries, limits).value, damaged, entries)
    ensures TotalBytes(entries) < U64_LIMIT
    ensures Scan(c, damaged, limits, torn) == Ok(View(Seen(c, damaged, entries), TotalBytes(entries)))
  {
    hide Scan, Append, Chained, EntryWritten, OneCopyLeft, HeadersOnlyOnFrame, Unambiguous, NoOverflow;
    var written := AppendAll(c, entries, limits).value;
    AppendAllWrites(c, entries, limits);
    if entries == [] {
      EmptyScans(c, limits, torn);
    } else {
      StartsAscend(entries, 0, |entries|);
      DamageStaysGenuine(c, written, damaged, entries, limits);
      DamageStaysUnambiguous(c, damaged, entries, limits);
      BoundedNeverOverflows(c, damaged, limits);
      IndexSpec(c, damaged, limits);
      ScanUsesIndex(c, damaged, limits, torn);
      WalkSeen(c, written, damaged, entries, limits, BuildIndex(c, damaged, limits).value, 0, torn);
      assert Seen(c, damaged, entries)[..0] == [];
    }
  }
}
