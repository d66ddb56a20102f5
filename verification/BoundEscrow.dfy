/** The candidate-bound escrow envelope: a checksummed header around the preservation payload. */
module BoundEscrow {
  import opened Results
  import opened Bytes
  import opened Conversion

  const FIXED_BYTES: nat := 148
  const ESCROW_VERSION: nat := 1
  /** "STARXESC" */
  const ESCROW_MAGIC: seq<Byte> := [0x53, 0x54, 0x41, 0x52, 0x58, 0x45, 0x53, 0x43]

  datatype Escrow = Escrow(
    source: FileSystem,
    target: FileSystem,
    sourceSha: Digest,
    candidateSha: Digest,
    manifestSha: Digest,
    payload: Payload)

  datatype EscrowError =
    | InvalidEscrowLimit
    | Envelope(reason: string)
    | EscrowLimitExceeded(actual: nat, maximum: nat)
    | EnvelopeChecksum
    | EscrowOverflow

  function EncodeFilesystem(f: FileSystem): Result<Byte, EscrowError>
  {
    match f
    case ExFat => Ok(1)
    case Ntfs => Ok(2)
    case UnknownFileSystem => Err(Envelope("unknown filesystem cannot be bound"))
  }

  function DecodeFilesystem(value: Byte): Result<FileSystem, EscrowError>
  {
    match value
    case 1 => Ok(ExFat)
    case 2 => Ok(Ntfs)
    case _ => Err(Envelope("unknown filesystem identifier"))
  }

  /** Bytes 0 to 19. */
  function EnvelopeTop(source: Byte, target: Byte, payloadLength: nat): (r: seq<Byte>)
    ensures |r| == 20
  {
    ESCROW_MAGIC + LittleEndian(ESCROW_VERSION, 2) + [source, target] + LittleEndian(payloadLength, 8)
  }

  /** Everything the checksum covers. */
  function EnvelopeBody(source: Byte, target: Byte, e: Escrow): (r: seq<Byte>)
    ensures |r| == FIXED_BYTES - 32 + |e.payload|
  {
    EnvelopeTop(source, target, |e.payload|) + e.sourceSha + e.candidateSha + e.manifestSha + e.payload
  }

  function Encode(hashes: Hashes, e: Escrow): Result<seq<Byte>, EscrowError>
  {
    if FIXED_BYTES + |e.payload| > USIZE_MAX then
      Err(EscrowOverflow)
    else
      var source :- EncodeFilesystem(e.source);
      var target :- EncodeFilesystem(e.target);
      var body := EnvelopeBody(source, target, e);
      Ok(body + hashes.sha(body))
  }

  /** The same, pushed field by field onto a growing buffer. */
  method EncodeBoundEscrow(hashes: Hashes, e: Escrow) returns (r: Result<seq<Byte>, EscrowError>)
    ensures r == Encode(hashes, e)
  {
    if FIXED_BYTES + |e.payload| > USIZE_MAX {
      return Err(EscrowOverflow);
    }
    var bytes: seq<Byte> := ESCROW_MAGIC;
    bytes := bytes + LittleEndian(ESCROW_VERSION, 2);
    var source :- EncodeFilesystem(e.source);
    bytes := bytes + [source];
    var target :- EncodeFilesystem(e.target);
    bytes := bytes + [target];
    bytes := bytes + LittleEndian(|e.payload|, 8);
    assert bytes == EnvelopeTop(source, target, |e.payload|);
    bytes := bytes + e.sourceSha;
    bytes := bytes + e.candidateSha;
    bytes := bytes + e.manifestSha;
    bytes := bytes + e.payload;
    return Ok(bytes + hashes.sha(bytes));
  }

  function Decode(hashes: Hashes, bytes: seq<Byte>, maxPayload: nat): Result<Escrow, EscrowError>
  {
    if maxPayload == 0 then
      Err(InvalidEscrowLimit)
    else if |bytes| < FIXED_BYTES then
      Err(Envelope("truncated envelope"))
    else if bytes[..8] != ESCROW_MAGIC then
      Err(Envelope("unexpected magic"))
    else if FromLittleEndian(bytes[8..10]) != ESCROW_VERSION then
      Err(Envelope("unsupported envelope version"))
    else
      var source :- DecodeFilesystem(bytes[10]);
      var target :- DecodeFilesystem(bytes[11]);
      if source == target then
        Err(Envelope("source and target filesystems are identical"))
      else
        var payloadLength := FromLittleEndian(bytes[12..20]);
        if payloadLength > maxPayload then
          Err(EscrowLimitExceeded(payloadLength, maxPayload))
        else if FIXED_BYTES + payloadLength > USIZE_MAX then
          Err(EscrowOverflow)
        else if |bytes| != FIXED_BYTES + payloadLength then
          Err(Envelope("payload length or trailing bytes mismatch"))
        else
          var checksumOffset := |bytes| - 32;
          if hashes.sha(bytes[..checksumOffset]) != bytes[checksumOffset..] then
            Err(EnvelopeChecksum)
          else
            Ok(Escrow(source, target, bytes[20..52], bytes[52..84], bytes[84..116], bytes[116..checksumOffset]))
  }

  lemma FilesystemsRoundTrip(f: FileSystem, value: Byte)
    ensures EncodeFilesystem(f) == Ok(value) <==> DecodeFilesystem(value) == Ok(f)
  {
  }

  lemma TopFields(source: Byte, target: Byte, payloadLength: nat)
    requires payloadLength < U64_LIMIT
    ensures var top := EnvelopeTop(source, target, payloadLength);
            && top[..8] == ESCROW_MAGIC && FromLittleEndian(top[8..10]) == ESCROW_VERSION
            && top[10] == source && top[11] == target && FromLittleEndian(top[12..20]) == payloadLength
  {
    PowersOf256();
    var top := EnvelopeTop(source, target, payloadLength);
    FromLittleEndianOfLittleEndian(ESCROW_VERSION, 2);
    FromLittleEndianOfLittleEndian(payloadLength, 8);
    assert top[8..10] == LittleEndian(ESCROW_VERSION, 2);
    assert top[12..20] == LittleEndian(payloadLength, 8);
  }

  lemma BodyFields(source: Byte, target: Byte, e: Escrow, checksum: Digest)
    ensures var bytes := EnvelopeBody(source, target, e) + checksum;
            && bytes[..20] == EnvelopeTop(source, target, |e.payload|)
            && bytes[20..52] == e.sourceSha && bytes[52..84] == e.candidateSha && bytes[84..116] == e.manifestSha
            && bytes[116..|bytes| - 32] == e.payload
            && bytes[..|bytes| - 32] == EnvelopeBody(source, target, e) && bytes[|bytes| - 32..] == checksum
  {
  }

  lemma TopWindows(bytes: seq<Byte>)
    requires |bytes| >= 20
    ensures bytes[..20][..8] == bytes[..8] && bytes[..20][8..10] == bytes[8..10] && bytes[..20][12..20] == bytes[12..20]
  {
  }

  /** Decoding undoes encoding exactly for distinct filesystems and a payload within a nonzero limit. */
  lemma EscrowDecodeOfEncode(hashes: Hashes, e: Escrow, maxPayload: nat)
    requires Encode(hashes, e).Ok?
    ensures Decode(hashes, Encode(hashes, e).value, maxPayload) == Ok(e) <==>
       e.source != e.target && 0 < maxPayload && |e.payload| <= maxPayload
    ensures Decode(hashes, Encode(hashes, e).value, maxPayload).Ok? ==>
              Decode(hashes, Encode(hashes, e).value, maxPayload) == Ok(e)
  {
    hide EnvelopeTop, EnvelopeBody, FromLittleEndian;
    var source, target := EncodeFilesystem(e.source).value, EncodeFilesystem(e.target).value;
    FilesystemsRoundTrip(e.source, source);
    FilesystemsRoundTrip(e.target, target);
    var body := EnvelopeBody(source, target, e);
    var bytes := body + hashes.sha(body);
    TopFields(source, target, |e.payload|);
    BodyFields(source, target, e, hashes.sha(body));
    TopWindows(bytes);
    assert bytes[10] == bytes[..20][10] && bytes[11] == bytes[..20][11];
  }

  /** The first twenty bytes of anything that decodes are the ones encoding would write. */
  lemma TopDetermined(top: seq<Byte>, source: Byte, target: Byte, payloadLength: nat)
    requires |top| == 20 && top[..8] == ESCROW_MAGIC && FromLittleEndian(top[8..10]) == ESCROW_VERSION
    requires top[10] == source && top[11] == target && FromLittleEndian(top[12..20]) == payloadLength
    ensures top == EnvelopeTop(source, target, payloadLength)
  {
    LittleEndianOfFromLittleEndian(top[8..10]);
    LittleEndianOfFromLittleEndian(top[12..20]);
    assert top == top[..8] + top[8..10] + [top[10], top[11]] + top[12..20];
  }

  lemma PiecesOf(bytes: seq<Byte>)
    requires |bytes| >= FIXED_BYTES
    ensures var n := |bytes| - 32;
            && bytes[..n] == bytes[..20] + bytes[20..52] + bytes[52..84] + bytes[84..116] + bytes[116..n]
            && bytes == bytes[..n] + bytes[n..]
  {
  }

  /** Whatever decodes re-encodes to the very same bytes: no two envelopes carry the same contents. */
  lemma EscrowEncodeOfDecode(hashes: Hashes, bytes: seq<Byte>, maxPayload: nat)
    requires Decode(hashes, bytes, maxPayload).Ok?
    ensures Encode(hashes, Decode(hashes, bytes, maxPayload).value) == Ok(bytes)
  {
    hide EnvelopeTop, FromLittleEndian;
    var e := Decode(hashes, bytes, maxPayload).value;
    FilesystemsRoundTrip(e.source, bytes[10]);
    FilesystemsRoundTrip(e.target, bytes[11]);
    TopWindows(bytes);
    assert bytes[..20][10] == bytes[10] && bytes[..20][11] == bytes[11];
    TopDetermined(bytes[..20], bytes[10], bytes[11], |e.payload|);
    PiecesOf(bytes);
  }
}
