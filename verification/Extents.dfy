/** Filesystem-neutral physical and logical extent validation. */
module Extents {
  import opened Results
  import opened Bytes
  import opened Sorting

  datatype Kind = FileData | DirectoryData | FileSystemMetadata | Reserved | BadCluster

  datatype Placement = Physical(byteOffset: U64) | Sparse

  datatype Extent = Extent(stream: U64, logicalOffset: U64, length: U64, placement: Placement, kind: Kind)

  datatype Graph = Graph(volumeBytes: U64, extents: seq<Extent>, physicallyAllocatedBytes: nat, sparseBytes: nat)

  datatype GraphError =
    | TooManyExtents(actualCount: nat, maximumCount: nat)
    | ZeroLength(stream: nat, logicalOffset: nat)
    | LogicalRangeOverflow(stream: nat, logicalOffset: nat, length: nat)
    | PhysicalRangeOverflow(byteOffset: nat, length: nat)
    | PhysicalRangeOutsideVolume(byteOffset: nat, length: nat, volumeBytes: nat)
    | SparseMetadata(stream: nat, kind: Kind)
    | LogicalOverlap(stream: nat, firstOffset: nat, secondOffset: nat)
    | PhysicalOverlap(firstOffset: nat, secondOffset: nat)
    | AccountingOverflow

  function ValidateExtent(e: Extent, volumeBytes: U64): Result<(), GraphError>
  {
    if e.length == 0 then
      Err(ZeroLength(e.stream, e.logicalOffset))
    else if e.logicalOffset + e.length >= U64_LIMIT then
      Err(LogicalRangeOverflow(e.stream, e.logicalOffset, e.length))
    else
      match e.placement
      case Physical(byteOffset) =>
        if byteOffset + e.length >= U64_LIMIT then
          Err(PhysicalRangeOverflow(byteOffset, e.length))
        else if byteOffset + e.length > volumeBytes then
          Err(PhysicalRangeOutsideVolume(byteOffset, e.length, volumeBytes))
        else
          Ok(())
      case Sparse =>
        if e.kind != FileData then Err(SparseMetadata(e.stream, e.kind)) else Ok(())
  }

  function ValidateEach(extents: seq<Extent>, n: nat, volumeBytes: U64): Result<(), GraphError>
    requires n <= |extents|
  {
    if n == 0 then
      Ok(())
    else
      var _ :- ValidateEach(extents, n - 1, volumeBytes);
      ValidateExtent(extents[n - 1], volumeBytes)
  }

  // Sort keys. A (stream, offset) pair orders as one number because offsets are below 2^64.

  function LogicalStart(): Extent -> int
  {
    (e: Extent) => e.stream * 0x1_0000_0000_0000_0000 + e.logicalOffset
  }

  function LogicalEnd(): Extent -> int
  {
    (e: Extent) => e.stream * 0x1_0000_0000_0000_0000 + e.logicalOffset + e.length
  }

  function IsPhysical(): Extent -> bool
  {
    (e: Extent) => e.placement.Physical?
  }

  function PhysicalStart(): Extent -> int
  {
    (e: Extent) => if e.placement.Physical? then e.placement.byteOffset else 0
  }

  function PhysicalEnd(): Extent -> int
  {
    (e: Extent) => (if e.placement.Physical? then e.placement.byteOffset else 0) + e.length
  }

  function PlacementKey(p: Placement): int
  {
    match p
    case Physical(byteOffset) => byteOffset
    case Sparse => 0x1_0000_0000_0000_0000
  }

  /** (stream, logical offset, placement) in lexicographic order. */
  function GraphKey(): Extent -> int
  {
    (e: Extent) =>
      (e.stream * 0x1_0000_0000_0000_0000 + e.logicalOffset) * 0x2_0000_0000_0000_0000 + PlacementKey(e.placement)
  }

  function LogicalClash(): (Extent, Extent) -> bool
  {
    (first: Extent, second: Extent) =>
      first.stream == second.stream && first.logicalOffset + first.length > second.logicalOffset
  }

  function PhysicalClash(): (Extent, Extent) -> bool
  {
    (first: Extent, second: Extent) => PhysicalEnd()(first) > PhysicalStart()(second)
  }

  function ValidateLogicalRanges(extents: seq<Extent>): Result<(), GraphError>
  {
    var logical := SortBy(extents, LogicalStart());
    var clash := FirstClash(logical, LogicalClash(), Pairs(logical));
    if clash.Some? then
      Err(LogicalOverlap(logical[clash.value].stream, logical[clash.value].logicalOffset,
          logical[clash.value + 1].logicalOffset))
    else
      Ok(())
  }

  function ValidatePhysicalRanges(extents: seq<Extent>): Result<(), GraphError>
  {
    var physical := SortBy(Filter(extents, IsPhysical()), PhysicalStart());
    var clash := FirstClash(physical, PhysicalClash(), Pairs(physical));
    if clash.Some? then
      Err(PhysicalOverlap(PhysicalStart()(physical[clash.value]), PhysicalStart()(physical[clash.value + 1])))
    else
      Ok(())
  }

  function PhysicalLength(): Extent -> int
  {
    (e: Extent) => if e.placement.Physical? then e.length else 0
  }

  function SparseLength(): Extent -> int
  {
    (e: Extent) => if e.placement.Sparse? then e.length else 0
  }

  /** The accounting loop over the first `n` sorted extents. */
  function Account(extents: seq<Extent>, n: nat): Result<(nat, nat), GraphError>
    requires n <= |extents|
  {
    if n == 0 then
      Ok((0, 0))
    else
      var totals :- Account(extents, n - 1);
      var e := extents[n - 1];
      match e.placement
      case Physical(_) =>
        if totals.0 + e.length >= U64_LIMIT then Err(AccountingOverflow) else Ok((totals.0 + e.length, totals.1))
      case Sparse =>
        if totals.1 + e.length >= U64_LIMIT then Err(AccountingOverflow) else Ok((totals.0, totals.1 + e.length))
  }

  /** `ExtentGraph::build`. */
  function Build(extents: seq<Extent>, volumeBytes: U64, maxExtents: nat): Result<Graph, GraphError>
  {
    if |extents| > maxExtents then
      Err(TooManyExtents(|extents|, maxExtents))
    else
      var _ :- ValidateEach(extents, |extents|, volumeBytes);
      var _ :- ValidateLogicalRanges(extents);
      var _ :- ValidatePhysicalRanges(extents);
      var sorted := SortBy(extents, GraphKey());
      var totals :- Account(sorted, |sorted|);
      Ok(Graph(volumeBytes, sorted, totals.0, totals.1))
  }

  // ----- the loops -----

  lemma {:induction false} ValidateErrorPersists(extents: seq<Extent>, n: nat, m: nat, volumeBytes: U64)
    requires n <= m <= |extents| && ValidateEach(extents, n, volumeBytes).Err?
    ensures ValidateEach(extents, m, volumeBytes) == ValidateEach(extents, n, volumeBytes)
  {
    if n < m {
      ValidateErrorPersists(extents, n, m - 1, volumeBytes);
    }
  }

  lemma {:induction false} AccountErrorPersists(extents: seq<Extent>, n: nat, m: nat)
    requires n <= m <= |extents| && Account(extents, n).Err?
    ensures Account(extents, m) == Account(extents, n)
  {
    if n < m {
      AccountErrorPersists(extents, n, m - 1);
    }
  }

  method BuildGraph(input: seq<Extent>, volumeBytes: U64, maxExtents: nat) returns (r: Result<Graph, GraphError>)
    ensures r == Build(input, volumeBytes, maxExtents)
  {
    if |input| > maxExtents {
      return Err(TooManyExtents(|input|, maxExtents));
    }
    for k := 0 to |input|
      invariant ValidateEach(input, k, volumeBytes).Ok?
    {
      var valid := ValidateExtent(input[k], volumeBytes);
      if valid.Err? {
        assert ValidateEach(input, k + 1, volumeBytes) == valid;
        ValidateErrorPersists(input, k + 1, |input|, volumeBytes);
        return Err(valid.error);
      }
    }
    var logical := SortBy(input, LogicalStart());
    var logicalClash := FindClash(logical, LogicalClash());
    if logicalClash.Some? {
      var first, second := logical[logicalClash.value], logical[logicalClash.value + 1];
      return Err(LogicalOverlap(first.stream, first.logicalOffset, second.logicalOffset));
    }
    var physical := SortBy(Filter(input, IsPhysical()), PhysicalStart());
    var physicalClash := FindClash(physical, PhysicalClash());
    if physicalClash.Some? {
      return Err(PhysicalOverlap(PhysicalStart()(physical[physicalClash.value]),
                                 PhysicalStart()(physical[physicalClash.value + 1])));
    }
    var extents := SortBy(input, GraphKey());
    var totals := SumLengths(extents);
    if totals.Err? {
      return Err(totals.error);
    }
    return Ok(Graph(volumeBytes, extents, totals.value.0, totals.value.1));
  }

  method SumLengths(extents: seq<Extent>) returns (r: Result<(nat, nat), GraphError>)
    ensures r == Account(extents, |extents|)
  {
    var physicalBytes, sparseBytes := 0, 0;
    for k := 0 to |extents|
      invariant Account(extents, k) == Ok((physicalBytes, sparseBytes))
    {
      var e := extents[k];
      var total := (if e.placement.Physical? then physicalBytes else sparseBytes) + e.length;
      if total >= U64_LIMIT {
        assert Account(extents, k + 1) == Err(AccountingOverflow);
        AccountErrorPersists(extents, k + 1, |extents|);
        return Err(AccountingOverflow);
      }
      if e.placement.Physical? {
        physicalBytes := total;
      } else {
        sparseBytes := total;
      }
    }
    return Ok((physicalBytes, sparseBytes));
  }

  // ----- soundness and completeness -----

  ghost predicate AllValid(extents: seq<Extent>, volumeBytes: U64)
  {
    forall e :: e in extents ==> ValidateExtent(e, volumeBytes).Ok?
  }

  /** No two extents of one stream, at different positions, share a logical byte. */
  ghost predicate LogicallyDisjoint(extents: seq<Extent>)
  {
    forall i, j :: 0 <= i < j < |extents| && extents[i].stream == extents[j].stream ==>
      || extents[i].logicalOffset + extents[i].length <= extents[j].logicalOffset
      || extents[j].logicalOffset + extents[j].length <= extents[i].logicalOffset
  }

  /** No two placed extents, of whatever streams, share a physical byte. */
  ghost predicate PhysicallyDisjoint(extents: seq<Extent>)
  {
    forall i, j :: 0 <= i < j < |extents| && extents[i].placement.Physical? && extents[j].placement.Physical? ==>
      || extents[i].placement.byteOffset + extents[i].length <= extents[j].placement.byteOffset
      || extents[j].placement.byteOffset + extents[j].length <= extents[i].placement.byteOffset
  }

  lemma {:induction false} ValidateEachSpec(extents: seq<Extent>, n: nat, volumeBytes: U64)
    requires n <= |extents|
    ensures ValidateEach(extents, n, volumeBytes).Ok? <==>
       forall k :: 0 <= k < n ==> ValidateExtent(extents[k], volumeBytes).Ok?
    ensures ValidateEach(extents, n, volumeBytes).Err? ==>
              ValidateEach(extents, n, volumeBytes).error != AccountingOverflow
  {
    if n > 0 {
      ValidateEachSpec(extents, n - 1, volumeBytes);
    }
  }

  lemma LogicalLine(extents: seq<Extent>, volumeBytes: U64)
    requires AllValid(extents, volumeBytes)
    ensures AllApart(extents, LogicalStart(), LogicalEnd()) <==> LogicallyDisjoint(extents)
    ensures Nonempty(extents, LogicalStart(), LogicalEnd())
  {
    forall i, j | 0 <= i < j < |extents|
      ensures Apart(extents[i], extents[j], LogicalStart(), LogicalEnd()) <==>
                (extents[i].stream == extents[j].stream ==>
                   || extents[i].logicalOffset + extents[i].length <= extents[j].logicalOffset
                   || extents[j].logicalOffset + extents[j].length <= extents[i].logicalOffset)
    {
      assert ValidateExtent(extents[i], volumeBytes).Ok? && ValidateExtent(extents[j], volumeBytes).Ok?;
    }
  }

  /** On the sorted copy, the neighbour test is exactly adjacency on the one-dimensional line. */
  lemma LogicalNeighbours(logical: seq<Extent>, volumeBytes: U64)
    requires AllValid(logical, volumeBytes) && SortedBy(logical, LogicalStart())
    ensures (forall k :: 0 <= k < |logical| - 1 ==> !LogicalClash()(logical[k], logical[k + 1])) <==>
       NeighboursApart(logical, LogicalStart(), LogicalEnd())
  {
    forall k | 0 <= k < |logical| - 1
      ensures !LogicalClash()(logical[k], logical[k + 1]) <==>
                LogicalEnd()(logical[k]) <= LogicalStart()(logical[k + 1])
    {
      assert ValidateExtent(logical[k], volumeBytes).Ok?;
      assert LogicalStart()(logical[k]) <= LogicalStart()(logical[k + 1]);
    }
  }

  /** Checking adjacent pairs of the sorted copy decides disjointness of every pair of the input. */
  lemma LogicalCheckExact(extents: seq<Extent>, volumeBytes: U64)
    requires AllValid(extents, volumeBytes)
    ensures ValidateLogicalRanges(extents).Ok? <==> LogicallyDisjoint(extents)
  {
    var logical := SortBy(extents, LogicalStart());
    SortBySpec(extents, LogicalStart());
    SortByMembers(extents, LogicalStart());
    LogicalLine(extents, volumeBytes);
    LogicalLine(logical, volumeBytes);
    LogicalNeighbours(logical, volumeBytes);
    NeighboursIffAll(logical, LogicalStart(), LogicalEnd());
    if AllApart(logical, LogicalStart(), LogicalEnd()) {
      ApartPermutes(logical, extents, LogicalStart(), LogicalEnd());
    }
    if AllApart(extents, LogicalStart(), LogicalEnd()) {
      ApartPermutes(extents, logical, LogicalStart(), LogicalEnd());
    }
  }

  lemma PhysicalNonempty(extents: seq<Extent>, volumeBytes: U64)
    requires AllValid(extents, volumeBytes)
    ensures Nonempty(Filter(extents, IsPhysical()), PhysicalStart(), PhysicalEnd())
  {
    forall e | e in Filter(extents, IsPhysical())
      ensures PhysicalStart()(e) < PhysicalEnd()(e)
    {
      FilterMember(extents, IsPhysical(), e);
      assert ValidateExtent(e, volumeBytes).Ok?;
    }
  }

  lemma PhysicalCheckExact(extents: seq<Extent>, volumeBytes: U64)
    requires AllValid(extents, volumeBytes)
    ensures ValidatePhysicalRanges(extents).Ok? <==> PhysicallyDisjoint(extents)
  {
    var chosen := Filter(extents, IsPhysical());
    var physical := SortBy(chosen, PhysicalStart());
    SortBySpec(chosen, PhysicalStart());
    SortByMembers(chosen, PhysicalStart());
    PhysicalNonempty(extents, volumeBytes);
    assert forall e :: e in physical ==> e in chosen;
    NeighboursIffAll(physical, PhysicalStart(), PhysicalEnd());
    FilterApart(extents, IsPhysical(), PhysicalStart(), PhysicalEnd());
    ChosenIsDisjoint(extents);
    if AllApart(physical, PhysicalStart(), PhysicalEnd()) {
      ApartPermutes(physical, chosen, PhysicalStart(), PhysicalEnd());
    }
    if AllApart(chosen, PhysicalStart(), PhysicalEnd()) {
      ApartPermutes(chosen, physical, PhysicalStart(), PhysicalEnd());
    }
  }

  lemma ChosenIsDisjoint(extents: seq<Extent>)
    ensures ChosenApart(extents, IsPhysical(), PhysicalStart(), PhysicalEnd()) <==> PhysicallyDisjoint(extents)
  {
    if PhysicallyDisjoint(extents) {
      forall i, j | 0 <= i < j < |extents| && IsPhysical()(extents[i]) && IsPhysical()(extents[j])
        ensures Apart(extents[i], extents[j], PhysicalStart(), PhysicalEnd())
      {
      }
    }
    if ChosenApart(extents, IsPhysical(), PhysicalStart(), PhysicalEnd()) {
      forall i, j | 0 <= i < j < |extents| && extents[i].placement.Physical? && extents[j].placement.Physical?
        ensures extents[i].placement.byteOffset + extents[i].length <= extents[j].placement.byteOffset
             || extents[j].placement.byteOffset + extents[j].length <= extents[i].placement.byteOffset
      {
        assert Apart(extents[i], extents[j], PhysicalStart(), PhysicalEnd());
      }
    }
  }

  /** Disjoint placed extents cannot hold more bytes than the volume. */
  lemma PhysicalTotalFits(extents: seq<Extent>, volumeBytes: U64)
    requires AllValid(extents, volumeBytes) && PhysicallyDisjoint(extents)
    ensures 0 <= SumBy(extents, PhysicalLength()) <= volumeBytes
  {
    hide AllValid, PhysicallyDisjoint, SumBy, SortedBy, AllApart;
    var chosen := Filter(extents, IsPhysical());
    var physical := SortBy(chosen, PhysicalStart());
    SortBySpec(chosen, PhysicalStart());
    FilterApart(extents, IsPhysical(), PhysicalStart(), PhysicalEnd());
    ChosenIsDisjoint(extents);
    ApartPermutes(chosen, physical, PhysicalStart(), PhysicalEnd());
    PhysicalInVolume(extents, volumeBytes, physical);
    SortedTotalFits(physical, volumeBytes);
    SumByPermutes(physical, chosen, PhysicalLength());
    SumByFilter(extents, IsPhysical(), PhysicalLength(), PhysicalLength());
    SumNonnegative(extents, PhysicalLength());
  }

  ghost predicate InVolume(physical: seq<Extent>, volumeBytes: U64)
  {
    forall e :: e in physical ==>
      && 0 <= PhysicalStart()(e) < PhysicalEnd()(e) <= volumeBytes
      && PhysicalLength()(e) == PhysicalEnd()(e) - PhysicalStart()(e)
  }

  lemma PhysicalInVolume(extents: seq<Extent>, volumeBytes: U64, physical: seq<Extent>)
    requires AllValid(extents, volumeBytes) && multiset(physical) == multiset(Filter(extents, IsPhysical()))
    ensures InVolume(physical, volumeBytes)
  {
    forall e | e in physical
      ensures 0 <= PhysicalStart()(e) < PhysicalEnd()(e) <= volumeBytes
      ensures PhysicalLength()(e) == PhysicalEnd()(e) - PhysicalStart()(e)
    {
      MultisetMember(physical, Filter(extents, IsPhysical()), e);
      FilterMember(extents, IsPhysical(), e);
      assert ValidateExtent(e, volumeBytes).Ok?;
    }
  }

  lemma SortedTotalFits(physical: seq<Extent>, volumeBytes: U64)
    requires InVolume(physical, volumeBytes)
    requires SortedBy(physical, PhysicalStart()) && AllApart(physical, PhysicalStart(), PhysicalEnd())
    ensures SumBy(physical, PhysicalLength()) <= volumeBytes
  {
    NeighboursIffAll(physical, PhysicalStart(), PhysicalEnd());
    ApartSumFits(physical, PhysicalStart(), PhysicalEnd(), PhysicalLength(), 0, volumeBytes);
  }

  lemma {:induction false} SumNonnegative(extents: seq<Extent>, f: Extent -> int)
    requires forall e :: e in extents ==> f(e) >= 0
    ensures SumBy(extents, f) >= 0
  {
    if extents != [] {
      assert extents[|extents| - 1] in extents;
      SumNonnegative(extents[..|extents| - 1], f);
    }
  }

  /** The accounting loop overflows only when a final total would: lengths are never negative. */
  lemma {:induction false} AccountSpec(extents: seq<Extent>, n: nat)
    requires n <= |extents|
    ensures var p, s := SumBy(extents[..n], PhysicalLength()), SumBy(extents[..n], SparseLength());
            && p >= 0 && s >= 0
            && Account(extents, n) == if p < U64_LIMIT && s < U64_LIMIT then Ok((p, s)) else Err(AccountingOverflow)
  {
    if n > 0 {
      AccountSpec(extents, n - 1);
      assert extents[..n][..n - 1] == extents[..n - 1];
      assert extents[..n][n - 1] == extents[n - 1];
    }
  }

  /** Everything an accepted collection must satisfy, all of it independent of order. */
  ghost predicate Acceptable(extents: seq<Extent>, volumeBytes: U64, maxExtents: nat)
  {
    && |extents| <= maxExtents
    && AllValid(extents, volumeBytes)
    && LogicallyDisjoint(extents)
    && PhysicallyDisjoint(extents)
  }

  /** Soundness and completeness: the graph is built exactly when the collection is acceptable and its
      sparse bytes can be counted; it then lists the same extents in one canonical order with the
      exact totals. The physical total never exceeds the volume, so the only way accounting can
      overflow is by sparse bytes. */
  lemma BuildExact(extents: seq<Extent>, volumeBytes: U64, maxExtents: nat)
    ensures var r := Build(extents, volumeBytes, maxExtents);
            && (r.Ok? <==> Acceptable(extents, volumeBytes, maxExtents) && SumBy(extents, SparseLength()) < U64_LIMIT)
            && (r.Ok? ==>
                  && multiset(r.value.extents) == multiset(extents) && SortedBy(r.value.extents, GraphKey())
                  && r.value.volumeBytes == volumeBytes
                  && r.value.physicallyAllocatedBytes == SumBy(extents, PhysicalLength()) <= volumeBytes
                  && r.value.sparseBytes == SumBy(extents, SparseLength()))
            && (r == Err(AccountingOverflow) <==>
                  Acceptable(extents, volumeBytes, maxExtents) && SumBy(extents, SparseLength()) >= U64_LIMIT)
  {
    hide LogicallyDisjoint, PhysicallyDisjoint, ValidateLogicalRanges, ValidatePhysicalRanges, Account, SortedBy, SumBy;
    ValidateEachSpec(extents, |extents|, volumeBytes);
    RangeErrors(extents);
    if ValidateEach(extents, |extents|, volumeBytes).Ok? {
      assert AllValid(extents, volumeBytes);
      LogicalCheckExact(extents, volumeBytes);
      PhysicalCheckExact(extents, volumeBytes);
      if LogicallyDisjoint(extents) && PhysicallyDisjoint(extents) {
        AccountingExact(extents, volumeBytes);
      }
    }
  }

  lemma RangeErrors(extents: seq<Extent>)
    ensures ValidateLogicalRanges(extents) != Err(AccountingOverflow)
    ensures ValidatePhysicalRanges(extents) != Err(AccountingOverflow)
  {
  }

  lemma AccountingExact(extents: seq<Extent>, volumeBytes: U64)
    requires AllValid(extents, volumeBytes) && PhysicallyDisjoint(extents)
    ensures var sorted := SortBy(extents, GraphKey());
            var p, s := SumBy(extents, PhysicalLength()), SumBy(extents, SparseLength());
            && multiset(sorted) == multiset(extents) && SortedBy(sorted, GraphKey())
            && 0 <= p <= volumeBytes && s >= 0
            && Account(sorted, |sorted|) == if s < U64_LIMIT then Ok((p, s)) else Err(AccountingOverflow)
  {
    hide PhysicallyDisjoint, SortedBy, SumBy;
    var sorted := SortBy(extents, GraphKey());
    SortBySpec(extents, GraphKey());
    PhysicalTotalFits(extents, volumeBytes);
    SumByPermutes(sorted, extents, PhysicalLength());
    SumByPermutes(sorted, extents, SparseLength());
    AccountSpec(sorted, |sorted|);
    assert sorted[..|sorted|] == sorted;
  }

  lemma GraphKeysDistinct(extents: seq<Extent>, volumeBytes: U64)
    requires AllValid(extents, volumeBytes) && LogicallyDisjoint(extents)
    ensures InjectiveOn(extents, GraphKey())
  {
    forall x, y | x in extents && y in extents
      ensures GraphKey()(x) == GraphKey()(y) ==> x == y
    {
      var i :| 0 <= i < |extents| && extents[i] == x;
      var j :| 0 <= j < |extents| && extents[j] == y;
      assert ValidateExtent(x, volumeBytes).Ok? && ValidateExtent(y, volumeBytes).Ok?;
      KeyDeterminesStart(x, y);
    }
  }

  lemma KeyDeterminesStart(a: Extent, b: Extent)
    ensures GraphKey()(a) == GraphKey()(b) ==> a.stream == b.stream && a.logicalOffset == b.logicalOffset
  {
  }

  lemma AcceptablePermutes(a: seq<Extent>, b: seq<Extent>, volumeBytes: U64, maxExtents: nat)
    requires multiset(a) == multiset(b) && Acceptable(a, volumeBytes, maxExtents)
    ensures Acceptable(b, volumeBytes, maxExtents)
  {
    hide LogicallyDisjoint, PhysicallyDisjoint;
    assert |a| == |multiset(a)| == |multiset(b)| == |b|;
    forall e | e in b
      ensures ValidateExtent(e, volumeBytes).Ok?
    {
      MultisetMember(a, b, e);
    }
    LogicalLine(a, volumeBytes);
    LogicalLine(b, volumeBytes);
    ApartPermutes(a, b, LogicalStart(), LogicalEnd());
    FilterPermutes(a, b, IsPhysical());
    ChosenIsDisjoint(a);
    ChosenIsDisjoint(b);
    FilterApart(a, IsPhysical(), PhysicalStart(), PhysicalEnd());
    FilterApart(b, IsPhysical(), PhysicalStart(), PhysicalEnd());
    ApartPermutes(Filter(a, IsPhysical()), Filter(b, IsPhysical()), PhysicalStart(), PhysicalEnd());
  }

  /** Any listing of the same extents gives the same graph, extent for extent: neither the verdict nor
      the result depends on input order or on how the sort breaks ties. */
  lemma BuildOrderIndependent(a: seq<Extent>, b: seq<Extent>, volumeBytes: U64, maxExtents: nat)
    requires multiset(a) == multiset(b) && Build(a, volumeBytes, maxExtents).Ok?
    ensures Build(b, volumeBytes, maxExtents) == Build(a, volumeBytes, maxExtents)
  {
    hide Build, Acceptable, SumBy, SortedBy, InjectiveOn;
    BuildExact(a, volumeBytes, maxExtents);
    BuildExact(b, volumeBytes, maxExtents);
    AcceptablePermutes(a, b, volumeBytes, maxExtents);
    SumByPermutes(a, b, SparseLength());
    SumByPermutes(a, b, PhysicalLength());
    var ga, gb := Build(a, volumeBytes, maxExtents).value, Build(b, volumeBytes, maxExtents).value;
    AcceptablePermutes(a, ga.extents, volumeBytes, maxExtents);
    AcceptedKeysDistinct(ga.extents, volumeBytes, maxExtents);
    SortedPermutationUnique(ga.extents, gb.extents, GraphKey());
  }

  lemma AcceptedKeysDistinct(extents: seq<Extent>, volumeBytes: U64, maxExtents: nat)
    requires Acceptable(extents, volumeBytes, maxExtents)
    ensures InjectiveOn(extents, GraphKey())
  {
    GraphKeysDistinct(extents, volumeBytes);
  }
}
