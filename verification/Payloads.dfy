/** Bounded reads of the immutable source image, and the reconstruction of one stream's bytes. */
module Payloads {
  import opened Results
  import opened Bytes
  import opened Extents

  datatype ExportError =
    | ReadTooLarge(requested: nat, maximum: nat)
    | OutOfRange(offset: nat, length: nat)
    | RangeOverflow(offset: nat, length: nat)
    | RelocationShape(reason: string)
    | ExportOverflow(what: string)
    | WriteCountExceeded(actual: nat, limit: nat)
    | ReplacementBytesExceeded(actualBytes: nat, limitBytes: nat)
    | PreviewShape(shape: string)
    | PreviewDoesNotMatchSource(mismatch: nat)
    | InflationFailed

  datatype Storage = Resident(bytes: seq<Byte>) | InExtents

  datatype Stream = Stream(
    id: U64,
    logicalBytes: U64,
    initializedBytes: U64,
    compressionBlockBytes: U64,
    storage: Storage)

  datatype SourceGraph = SourceGraph(streams: seq<Stream>, extents: seq<Extent>)

  /** The source file, its read cap, and whatever decompression makes of a compressed stream. */
  datatype SourceImage = SourceImage(
    bytes: Payload,
    maxRead: nat,
    inflate: (Stream, nat) -> Result<nat -> Byte, ExportError>)

  /** `read_exact_at`. */
  function ReadExact(image: SourceImage, offset: nat, length: nat): Result<seq<Byte>, ExportError>
  {
    if offset + length >= U64_LIMIT then Err(RangeOverflow(offset, length))
    else if length > image.maxRead then Err(ReadTooLarge(length, image.maxRead))
    else if offset + length > |image.bytes| then Err(OutOfRange(offset, length))
    else Ok(image.bytes[offset..offset + length])
  }

  function FindStream(streams: seq<Stream>, id: U64): (r: Option<Stream>)
    ensures r.Some? ==> r.value in streams && r.value.id == id
    ensures r.None? ==> forall s :: s in streams ==> s.id != id
  {
    if streams == [] then None
    else if streams[0].id == id then Some(streams[0])
    else FindStream(streams[1..], id)
  }

  /** An extent that contributes initialized bytes below the destination length. */
  predicate Relevant(s: Stream, e: Extent, destLen: nat)
  {
    e.stream == s.id && e.kind == FileData && e.logicalOffset < s.initializedBytes && e.logicalOffset < destLen
  }

  function CopyLength(s: Stream, e: Extent, destLen: nat): nat
    requires Relevant(s, e, destLen)
  {
    Min(Min(e.length, s.initializedBytes - e.logicalOffset), destLen - e.logicalOffset)
  }

  function Splice(dest: seq<Byte>, at: nat, bytes: seq<Byte>): (r: seq<Byte>)
    requires at + |bytes| <= |dest|
    ensures |r| == |dest|
  {
    dest[..at] + bytes + dest[at + |bytes|..]
  }

  function CopyExtent(image: SourceImage, s: Stream, e: Extent, dest: seq<Byte>): (r: Result<seq<Byte>, ExportError>)
    ensures r.Ok? ==> |r.value| == |dest|
  {
    if !Relevant(s, e, |dest|) || e.placement.Sparse? then
      Ok(dest)
    else
      var bytes :- ReadExact(image, e.placement.byteOffset, CopyLength(s, e, |dest|));
      Ok(Splice(dest, e.logicalOffset, bytes))
  }

  function FillFrom(image: SourceImage, s: Stream, extents: seq<Extent>, n: nat, destLen: nat)
    : (r: Result<seq<Byte>, ExportError>)
    requires n <= |extents|
    ensures r.Ok? ==> |r.value| == destLen
  {
    if n == 0 then
      Ok(Zeros(destLen))
    else
      var dest :- FillFrom(image, s, extents, n - 1, destLen);
      CopyExtent(image, s, extents[n - 1], dest)
  }

  /** `reconstruct_stream_destination`: the stream's bytes, zero-filled to the destination length. */
  function Reconstruct(image: SourceImage, graph: SourceGraph, id: U64, destLen: nat)
    : (r: Result<seq<Byte>, ExportError>)
    ensures r.Ok? ==> |r.value| == destLen
  {
    var found := FindStream(graph.streams, id);
    if found.None? then
      Err(RelocationShape("source graph does not authorize a materialization read"))
    else
      var s := found.value;
      match s.storage
      case Resident(bytes) =>
        var copy := Min(Min(Min(s.initializedBytes, s.logicalBytes), |bytes|), destLen);
        Ok(bytes[..copy] + Zeros(destLen - copy))
      case InExtents =>
        if s.compressionBlockBytes != 0 then
          var byteAt :- image.inflate(s, destLen);
          Ok(seq<Byte>(destLen, byteAt))
        else
          FillFrom(image, s, graph.extents, |graph.extents|, destLen)
  }

  lemma {:induction false} FillErrorPersists(image: SourceImage, s: Stream, extents: seq<Extent>, n: nat, m: nat,
                                             destLen: nat)
    requires n <= m <= |extents| && FillFrom(image, s, extents, n, destLen).Err?
    ensures FillFrom(image, s, extents, m, destLen) == Err(FillFrom(image, s, extents, n, destLen).error)
  {
    if n < m {
      FillErrorPersists(image, s, extents, n, m - 1, destLen);
    }
  }

  /** The same, into one zeroed buffer that the extents are copied into in turn. */
  method ReconstructStreamDestination(image: SourceImage, graph: SourceGraph, id: U64, destLen: nat)
    returns (r: Result<seq<Byte>, ExportError>)
    ensures r == Reconstruct(image, graph, id, destLen)
  {
    hide ReadExact;
    var found := FindStream(graph.streams, id);
    if found.None? {
      return Err(RelocationShape("source graph does not authorize a materialization read"));
    }
    var s := found.value;
    var destination := new Byte[destLen](_ => 0);
    assert destination[..] == Zeros(destLen);
    match s.storage {
      case Resident(bytes) =>
        var copy := Min(Min(Min(s.initializedBytes, s.logicalBytes), |bytes|), destLen);
        CopyInto(destination, 0, bytes[..copy]);
        assert destination[..] == bytes[..copy] + Zeros(destLen - copy);
      case InExtents =>
        if s.compressionBlockBytes != 0 {
          var inflated := image.inflate(s, destLen);
          if inflated.Err? {
            return Err(inflated.error);
          }
          return Ok(seq<Byte>(destLen, inflated.value));
        }
        var k := 0;
        while k < |graph.extents|
          invariant 0 <= k <= |graph.extents|
          invariant FillFrom(image, s, graph.extents, k, destLen) == Ok(destination[..])
        {
          var e := graph.extents[k];
          if Relevant(s, e, destLen) && e.placement.Physical? {
            var bytes := ReadExact(image, e.placement.byteOffset, CopyLength(s, e, destLen));
            if bytes.Err? {
              assert FillFrom(image, s, graph.extents, k + 1, destLen) == Err(bytes.error);
              FillErrorPersists(image, s, graph.extents, k + 1, |graph.extents|, destLen);
              return Err(bytes.error);
            }
            ReadLength(image, e.placement.byteOffset, CopyLength(s, e, destLen));
            ghost var before := destination[..];
            CopyInto(destination, e.logicalOffset, bytes.value);
            assert destination[..] == Splice(before, e.logicalOffset, bytes.value);
          }
          k := k + 1;
        }
    }
    return Ok(destination[..]);
  }

  lemma ReadLength(image: SourceImage, offset: nat, length: nat)
    ensures ReadExact(image, offset, length).Ok? ==> |ReadExact(image, offset, length).value| == length
  {
  }

  // ----- what the reconstruction contains -----

  predicate Owns(s: Stream, e: Extent, k: int)
  {
    e.stream == s.id && e.kind == FileData && e.logicalOffset <= k < e.logicalOffset + e.length
  }

  /** The byte an extent keeps for logical position `k`: stored for a placed extent, zero for a hole. */
  ghost predicate Stores(image: SourceImage, e: Extent, k: int, value: Byte)
    requires e.logicalOffset <= k
  {
    match e.placement
    case Sparse => value == 0
    case Physical(byteOffset) =>
      byteOffset + (k - e.logicalOffset) < |image.bytes| && value == image.bytes[byteOffset + (k - e.logicalOffset)]
  }

  ghost predicate OwnedBelow(s: Stream, extents: seq<Extent>, n: nat, k: int)
    requires n <= |extents|
  {
    exists j :: 0 <= j < n && Owns(s, extents[j], k)
  }

  /** Position `k` of an extent stream: its owner's byte while initialized, zero otherwise. */
  ghost predicate ContentAt(image: SourceImage, s: Stream, extents: seq<Extent>, n: nat, k: int, value: Byte)
    requires n <= |extents|
  {
    && (k >= s.initializedBytes || !OwnedBelow(s, extents, n, k) ==> value == 0)
    && (forall j :: 0 <= j < n && k < s.initializedBytes && Owns(s, extents[j], k) ==>
          Stores(image, extents[j], k, value))
  }

  lemma OwnersDistinct(s: Stream, extents: seq<Extent>, i: nat, j: nat, k: int)
    requires LogicallyDisjoint(extents) && i < j < |extents|
    requires Owns(s, extents[i], k)
    ensures !Owns(s, extents[j], k)
  {
  }

  /** One more extent keeps every position right. */
  lemma CopyExtentAt(image: SourceImage, s: Stream, extents: seq<Extent>, n: nat, dest: seq<Byte>, k: nat)
    requires n < |extents| && LogicallyDisjoint(extents) && k < |dest|
    requires CopyExtent(image, s, extents[n], dest).Ok?
    requires ContentAt(image, s, extents, n, k, dest[k])
    ensures ContentAt(image, s, extents, n + 1, k, CopyExtent(image, s, extents[n], dest).value[k])
  {
    var e := extents[n];
    var after := CopyExtent(image, s, e, dest).value;
    if Owns(s, e, k) {
      forall j | 0 <= j < n
        ensures !Owns(s, extents[j], k)
      {
        if Owns(s, extents[j], k) {
          OwnersDistinct(s, extents, j, n, k);
        }
      }
      if k < s.initializedBytes && e.placement.Physical? {
        var bytes := ReadExact(image, e.placement.byteOffset, CopyLength(s, e, |dest|)).value;
        assert after[k] == bytes[k - e.logicalOffset];
      }
    } else {
      assert OwnedBelow(s, extents, n + 1, k) <==> OwnedBelow(s, extents, n, k);
      assert after[k] == dest[k];
    }
  }

  lemma {:induction false} FillFromAt(image: SourceImage, s: Stream, extents: seq<Extent>, n: nat, destLen: nat, k: nat)
    requires n <= |extents| && LogicallyDisjoint(extents) && k < destLen
    requires FillFrom(image, s, extents, n, destLen).Ok?
    ensures ContentAt(image, s, extents, n, k, FillFrom(image, s, extents, n, destLen).value[k])
  {
    hide CopyExtent, ContentAt, LogicallyDisjoint;
    if n > 0 {
      FillFromAt(image, s, extents, n - 1, destLen, k);
      CopyExtentAt(image, s, extents, n - 1, FillFrom(image, s, extents, n - 1, destLen).value, k);
    } else {
      NothingOwned(image, s, extents, k);
    }
  }

  lemma NothingOwned(image: SourceImage, s: Stream, extents: seq<Extent>, k: int)
    ensures ContentAt(image, s, extents, 0, k, 0)
  {
  }

  /** What the reconstruction of a stream must hold, position by position, said without copying. */
  ghost predicate HoldsContent(image: SourceImage, graph: SourceGraph, s: Stream, payload: seq<Byte>)
  {
    forall k: nat :: k < |payload| ==>
      match s.storage
      case Resident(bytes) =>
        payload[k] == if k < s.initializedBytes && k < s.logicalBytes && k < |bytes| then bytes[k] else 0
      case InExtents => ContentAt(image, s, graph.extents, |graph.extents|, k, payload[k])
  }

  /** Materialization correctness: for resident and uncompressed streams the reconstruction is the
      stream's logical content (initialized bytes from their extents, zeros in holes and past the
      initialized length) at exactly the destination length. */
  lemma ReconstructsContent(image: SourceImage, graph: SourceGraph, id: U64, destLen: nat)
    requires LogicallyDisjoint(graph.extents)
    requires Reconstruct(image, graph, id, destLen).Ok?
    ensures var payload := Reconstruct(image, graph, id, destLen).value;
            && |payload| == destLen
            && FindStream(graph.streams, id).Some?
            && var s := FindStream(graph.streams, id).value;
               s.storage.Resident? || s.compressionBlockBytes == 0 ==> HoldsContent(image, graph, s, payload)
  {
    hide FillFrom, ContentAt, LogicallyDisjoint;
    var s := FindStream(graph.streams, id).value;
    if s.storage.InExtents? && s.compressionBlockBytes == 0 {
      forall k: nat | k < destLen
        ensures ContentAt(image, s, graph.extents, |graph.extents|, k, Reconstruct(image, graph, id, destLen).value[k])
      {
        FillFromAt(image, s, graph.extents, |graph.extents|, destLen, k);
      }
    }
  }

  /** A placed extent is read in one piece, so it must fit the read cap. */
  predicate ReadableExtent(image: SourceImage, s: Stream, e: Extent, destLen: nat)
  {
    Relevant(s, e, destLen) && e.placement.Physical? ==>
      ReadExact(image, e.placement.byteOffset, CopyLength(s, e, destLen)).Ok?
  }

  lemma {:induction false} FillSucceeds(image: SourceImage, s: Stream, extents: seq<Extent>, n: nat, destLen: nat)
    requires n <= |extents|
    ensures FillFrom(image, s, extents, n, destLen).Ok? <==>
              forall j :: 0 <= j < n ==> ReadableExtent(image, s, extents[j], destLen)
  {
    hide ReadExact;
    if n > 0 {
      FillSucceeds(image, s, extents, n - 1, destLen);
    }
  }

  /** When it succeeds: the stream is known, and every placed extent that contributes lies in the image
      and is no longer than the read cap. A longer one fails; it is never read in chunks. */
  lemma ReconstructSucceeds(image: SourceImage, graph: SourceGraph, id: U64, destLen: nat)
    ensures var found := FindStream(graph.streams, id);
            && (found.None? ==> Reconstruct(image, graph, id, destLen).Err?)
            && (found.Some? && found.value.storage.Resident? ==> Reconstruct(image, graph, id, destLen).Ok?)
            && (found.Some? && found.value.storage.InExtents? && found.value.compressionBlockBytes == 0 ==>
                  (Reconstruct(image, graph, id, destLen).Ok? <==>
                   forall j :: 0 <= j < |graph.extents|
                       ==> ReadableExtent(image, found.value, graph.extents[j], destLen)))
  {
    hide ReadExact, FillFrom, ReadableExtent;
    var found := FindStream(graph.streams, id);
    if found.Some? {
      FillSucceeds(image, found.value, graph.extents, |graph.extents|, destLen);
    }
  }
}
