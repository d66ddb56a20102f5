/** The 136-byte capsule header: phases, identity and the byte codec. */
module CapsuleHeader {
  import opened Results
  import opened Bytes

  const HEADER_BYTES: nat := 136
  const CAPSULE_VERSION: nat := 1
  const CRC_OFFSET: nat := 128
  /** On disk, an absent previous offset is written as all ones. */
  const NO_PREVIOUS: U64 := 0xFFFF_FFFF_FFFF_FFFF
  /** "STARCAP\0" */
  const MAGIC: seq<Byte> := [0x53, 0x54, 0x41, 0x52, 0x43, 0x41, 0x50, 0]

  datatype Phase =
    | Discovered
    | Reserved
    | Relocating
    | TargetStaged
    | BackupBootWritten
    | Activated
    | Verified
    | Finalized
    | RolledBack

  function PhaseCode(phase: Phase): (r: Byte)
  {
    match phase
    case Discovered => 0
    case Reserved => 1
    case Relocating => 2
    case TargetStaged => 3
    case BackupBootWritten => 4
    case Activated => 5
    case Verified => 6
    case Finalized => 7
    case RolledBack => 8
  }

  function PhaseFromByte(value: Byte): (r: Option<Phase>)
    ensures r.Some? ==> PhaseCode(r.value) == value
    ensures r.None? <==> value > 8
  {
    match value
    case 0 => Some(Discovered)
    case 1 => Some(Reserved)
    case 2 => Some(Relocating)
    case 3 => Some(TargetStaged)
    case 4 => Some(BackupBootWritten)
    case 5 => Some(Activated)
    case 6 => Some(Verified)
    case 7 => Some(Finalized)
    case 8 => Some(RolledBack)
    case _ => None
  }

  predicate MayFollow(phase: Phase, previous: Phase)
  {
    if previous == Finalized || previous == RolledBack then
      false
    else
      PhaseCode(phase) == PhaseCode(previous) + 1 || PhaseCode(phase) == PhaseCode(RolledBack)
  }

  type TransactionId = s: seq<Byte> | |s| == 16 witness seq(16, _ => 0)

  datatype Identity = Identity(transactionId: TransactionId, sourceDigest: Digest)

  datatype Header = Header(
    generation: U64,
    phase: Phase,
    payloadLen: U64,
    previousOffset: Option<U64>,
    identity: Identity,
    payloadDigest: Digest)

  /** Every way capsule framing, integrity, accounting or sequencing can fail. `Panicked` is the
      out-of-bounds slice of `find_candidates` on a buffer shorter than the magic. */
  datatype CapsuleError =
    | InvalidLimit(field: string)
    | CapsuleTooLarge(actual: nat, maximum: nat)
    | GenerationTooLarge(actual: nat, maximum: nat)
    | TooManyGenerations(maximum: nat)
    | ArithmeticOverflow
    | NoRecoverableHeader(offset: nat)
    | AmbiguousGeneration(offset: nat)
    | UnframedBytes(offset: nat)
    | UnsupportedVersion(version: nat)
    | InvalidHeaderLength(actual: nat)
    | InvalidPhase(value: Byte)
    | NonZeroReserved
    | PayloadDigestMismatch(offset: nat)
    | FirstGenerationInvalid
    | GenerationSequence(expected: nat, actual: nat)
    | PreviousOffsetMismatch(expectedOffset: Option<nat>, actualOffset: Option<nat>)
    | IdentityChanged
    | InvalidPhaseTransition(previous: Phase, next: Phase)
    | GenerationOverflow
    | Panicked

  /** A window decoder, as the scanner uses it. */
  type Decoder = seq<Byte> -> Result<Header, CapsuleError>

  function HeaderCrc(hashes: Hashes, bytes: seq<Byte>): (r: U32)
    requires |bytes| == HEADER_BYTES
  {
    hashes.crc(bytes[..CRC_OFFSET] + Zeros(4) + bytes[CRC_OFFSET + 4..])
  }

  function PreviousField(previous: Option<U64>): U64
  {
    if previous.Some? then previous.value else NO_PREVIOUS
  }

  /** Bytes 0 to 31: framing constants, generation and phase. */
  function HeaderTop(h: Header): (r: seq<Byte>)
    ensures |r| == 32
  {
    MAGIC + LittleEndian(CAPSULE_VERSION, 2) + LittleEndian(HEADER_BYTES, 2) + Zeros(4)
    + LittleEndian(h.generation, 8) + [PhaseCode(h.phase)] + Zeros(7)
  }

  /** The encoding up to the checksum: the top, then payload length, back link, identity and
      payload digest. */
  function HeaderBody(h: Header): (r: seq<Byte>)
    ensures |r| == CRC_OFFSET
  {
    HeaderTop(h) + LittleEndian(h.payloadLen, 8) + LittleEndian(PreviousField(h.previousOffset), 8)
    + h.identity.transactionId + h.identity.sourceDigest + h.payloadDigest
  }

  function EncodeHeader(hashes: Hashes, h: Header): (r: seq<Byte>)
    ensures |r| == HEADER_BYTES
  {
    var body := HeaderBody(h);
    body + LittleEndian(hashes.crc(body + Zeros(4) + Zeros(4)), 4) + Zeros(4)
  }

  predicate AllZero(bytes: seq<Byte>)
  {
    forall k :: 0 <= k < |bytes| ==> bytes[k] == 0
  }

  function DecodeHeader(hashes: Hashes, bytes: seq<Byte>): Result<Header, CapsuleError>
  {
    if |bytes| != HEADER_BYTES || bytes[..8] != MAGIC then
      Err(NoRecoverableHeader(0))
    else if FromLittleEndian(bytes[8..10]) != CAPSULE_VERSION then
      Err(UnsupportedVersion(FromLittleEndian(bytes[8..10])))
    else if FromLittleEndian(bytes[10..12]) != HEADER_BYTES then
      Err(InvalidHeaderLength(FromLittleEndian(bytes[10..12])))
    else if !AllZero(bytes[12..16]) || !AllZero(bytes[25..32]) || !AllZero(bytes[132..136]) then
      Err(NonZeroReserved)
    else if FromLittleEndian(bytes[128..132]) != HeaderCrc(hashes, bytes) then
      Err(NoRecoverableHeader(0))
    else
      var phase := PhaseFromByte(bytes[24]);
      if phase.None? then
        Err(InvalidPhase(bytes[24]))
      else
        PowersOf256();
        var previous: U64 := FromLittleEndian(bytes[40..48]);
        Ok(Header(
             FromLittleEndian(bytes[16..24]),
             phase.value,
             FromLittleEndian(bytes[32..40]),
             if previous != NO_PREVIOUS then Some(previous) else None,
             Identity(bytes[48..64], bytes[64..96]),
             bytes[96..128]))
  }

  lemma TopFields(h: Header)
    ensures var b := HeaderTop(h);
            && b[..8] == MAGIC
            && b[8..10] == LittleEndian(CAPSULE_VERSION, 2)
            && b[10..12] == LittleEndian(HEADER_BYTES, 2)
            && b[12..16] == Zeros(4)
            && b[16..24] == LittleEndian(h.generation, 8)
            && b[24] == PhaseCode(h.phase)
            && b[25..32] == Zeros(7)
  {
  }

  lemma TailFields(h: Header)
    ensures var b := HeaderBody(h);
            && b[..32] == HeaderTop(h)
            && b[32..40] == LittleEndian(h.payloadLen, 8)
            && b[40..48] == LittleEndian(PreviousField(h.previousOffset), 8)
            && b[48..64] == h.identity.transactionId
            && b[64..96] == h.identity.sourceDigest
            && b[96..128] == h.payloadDigest
  {
    var a0 := HeaderTop(h);
    var a1 := a0 + LittleEndian(h.payloadLen, 8);
    var a2 := a1 + LittleEndian(PreviousField(h.previousOffset), 8);
    var a3 := a2 + h.identity.transactionId;
    var a4 := a3 + h.identity.sourceDigest;
    var b := HeaderBody(h);
    assert b == a4 + h.payloadDigest;
    FieldAppended(a0, LittleEndian(h.payloadLen, 8));
    FieldAppended(a1, LittleEndian(PreviousField(h.previousOffset), 8));
    FieldAppended(a2, h.identity.transactionId);
    FieldAppended(a3, h.identity.sourceDigest);
    FieldAppended(a4, h.payloadDigest);
    FieldsWithin(b, a1, 32, 40);
    FieldsWithin(b, a2, 40, 48);
    FieldsWithin(b, a3, 48, 64);
    FieldsWithin(b, a4, 64, 96);
  }

  lemma FieldAppended(left: seq<Byte>, part: seq<Byte>)
    ensures left <= left + part && (left + part)[|left|..|left| + |part|] == part
  {
  }

  lemma BodyFields(h: Header)
    ensures var b := HeaderBody(h);
            && b[..8] == MAGIC
            && b[8..10] == LittleEndian(CAPSULE_VERSION, 2)
            && b[10..12] == LittleEndian(HEADER_BYTES, 2)
            && b[12..16] == Zeros(4)
            && b[16..24] == LittleEndian(h.generation, 8)
            && b[24] == PhaseCode(h.phase)
            && b[25..32] == Zeros(7)
            && b[32..40] == LittleEndian(h.payloadLen, 8)
            && b[40..48] == LittleEndian(PreviousField(h.previousOffset), 8)
            && b[48..64] == h.identity.transactionId
            && b[64..96] == h.identity.sourceDigest
            && b[96..128] == h.payloadDigest
  {
    var b, top := HeaderBody(h), HeaderTop(h);
    TopFields(h);
    TailFields(h);
    assert b[24] == b[..32][24];
    FieldsWithin(b, top, 0, 8);
    FieldsWithin(b, top, 8, 10);
    FieldsWithin(b, top, 10, 12);
    FieldsWithin(b, top, 12, 16);
    FieldsWithin(b, top, 16, 24);
    FieldsWithin(b, top, 25, 32);
  }

  lemma FieldsWithin(bytes: seq<Byte>, prefix: seq<Byte>, lo: nat, hi: nat)
    requires prefix <= bytes && lo <= hi <= |prefix|
    ensures bytes[lo..hi] == prefix[lo..hi]
  {
  }

  /** What a reader gets back: an explicit all-ones previous offset reads as absent. */
  function Readable(h: Header): Header
  {
    if h.previousOffset == Some(NO_PREVIOUS) then h.(previousOffset := None) else h
  }

  lemma EncodedFields(hashes: Hashes, h: Header)
    ensures var b := EncodeHeader(hashes, h);
            var checksum := hashes.crc(HeaderBody(h) + Zeros(4) + Zeros(4));
            && b[..CRC_OFFSET] == HeaderBody(h)
            && b[128..132] == LittleEndian(checksum, 4)
            && b[132..136] == Zeros(4)
            && HeaderCrc(hashes, b) == checksum
            && FromLittleEndian(b[128..132]) == checksum
  {
    var body := HeaderBody(h);
    var bytes := EncodeHeader(hashes, h);
    var checksum := hashes.crc(body + Zeros(4) + Zeros(4));
    PowersOf256();
    FromLittleEndianOfLittleEndian(checksum, 4);
    assert bytes[..CRC_OFFSET] == body;
    assert bytes[CRC_OFFSET + 4..] == Zeros(4);
  }

  lemma NumbersReadBack(h: Header)
    ensures FromLittleEndian(LittleEndian(CAPSULE_VERSION, 2)) == CAPSULE_VERSION
    ensures FromLittleEndian(LittleEndian(HEADER_BYTES, 2)) == HEADER_BYTES
    ensures FromLittleEndian(LittleEndian(h.generation, 8)) == h.generation
    ensures FromLittleEndian(LittleEndian(h.payloadLen, 8)) == h.payloadLen
    ensures FromLittleEndian(LittleEndian(PreviousField(h.previousOffset), 8)) == PreviousField(h.previousOffset)
  {
    PowersOf256();
    FromLittleEndianOfLittleEndian(CAPSULE_VERSION, 2);
    FromLittleEndianOfLittleEndian(HEADER_BYTES, 2);
    FromLittleEndianOfLittleEndian(h.generation, 8);
    FromLittleEndianOfLittleEndian(h.payloadLen, 8);
    FromLittleEndianOfLittleEndian(PreviousField(h.previousOffset), 8);
  }

  /** Reading a header back field by field, whatever bytes surround the fields. */
  lemma DecodeByFields(hashes: Hashes, h: Header, bytes: seq<Byte>)
    requires |bytes| == HEADER_BYTES
    requires bytes[..8] == MAGIC
    requires FromLittleEndian(bytes[8..10]) == CAPSULE_VERSION
    requires FromLittleEndian(bytes[10..12]) == HEADER_BYTES
    requires bytes[12..16] == Zeros(4) && bytes[25..32] == Zeros(7) && bytes[132..136] == Zeros(4)
    requires FromLittleEndian(bytes[128..132]) == HeaderCrc(hashes, bytes)
    requires FromLittleEndian(bytes[16..24]) == h.generation
    requires bytes[24] == PhaseCode(h.phase)
    requires FromLittleEndian(bytes[32..40]) == h.payloadLen
    requires FromLittleEndian(bytes[40..48]) == PreviousField(h.previousOffset)
    requires bytes[48..64] == h.identity.transactionId && bytes[64..96] == h.identity.sourceDigest
    requires bytes[96..128] == h.payloadDigest
    ensures DecodeHeader(hashes, bytes) == Ok(Readable(h))
  {
    assert PhaseFromByte(PhaseCode(h.phase)) == Some(h.phase);
  }

  /** Decoding undoes encoding, except that the all-ones previous offset reads back as absent;
      hence decoding returns the very header written exactly when that offset was not used. */
  lemma DecodeOfEncode(hashes: Hashes, h: Header)
    ensures DecodeHeader(hashes, EncodeHeader(hashes, h)) == Ok(Readable(h))
    ensures DecodeHeader(hashes, EncodeHeader(hashes, h)) == Ok(h) <==>
       h.previousOffset != Some(NO_PREVIOUS)
  {
    var body := HeaderBody(h);
    var bytes := EncodeHeader(hashes, h);
    EncodedFields(hashes, h);
    NumbersReadBack(h);
    assert DecodeHeader(hashes, bytes) == Ok(Readable(h)) by {
      assert bytes[24] == bytes[..CRC_OFFSET][24];
      FieldsWithin(bytes, body, 0, 8);
      FieldsWithin(bytes, body, 8, 10);
      FieldsWithin(bytes, body, 10, 12);
      FieldsWithin(bytes, body, 12, 16);
      FieldsWithin(bytes, body, 16, 24);
      FieldsWithin(bytes, body, 25, 32);
      FieldsWithin(bytes, body, 32, 40);
      FieldsWithin(bytes, body, 40, 48);
      FieldsWithin(bytes, body, 48, 64);
      FieldsWithin(bytes, body, 64, 96);
      FieldsWithin(bytes, body, 96, 128);
      BodyFields(h);
      DecodeByFields(hashes, h, bytes);
    }
  }

  lemma Join(bytes: seq<Byte>, m: nat, n: nat)
    requires m <= n <= |bytes|
    ensures bytes[..n] == bytes[..m] + bytes[m..n]
  {
  }

  lemma Reassembled(bytes: seq<Byte>)
    requires |bytes| == HEADER_BYTES
    ensures bytes[..32] == bytes[..8] + bytes[8..10] + bytes[10..12] + bytes[12..16] + bytes[16..24]
                           + [bytes[24]] + bytes[25..32]
    ensures bytes[..128] == bytes[..32] + bytes[32..40] + bytes[40..48] + bytes[48..64] + bytes[64..96] + bytes[96..128]
    ensures bytes == bytes[..128] + bytes[128..132] + bytes[132..136]
  {
    Join(bytes, 8, 10);
    Join(bytes, 10, 12);
    Join(bytes, 12, 16);
    Join(bytes, 16, 24);
    Join(bytes, 24, 25);
    assert bytes[24..25] == [bytes[24]];
    Join(bytes, 25, 32);
    Join(bytes, 32, 40);
    Join(bytes, 40, 48);
    Join(bytes, 48, 64);
    Join(bytes, 64, 96);
    Join(bytes, 96, 128);
    Join(bytes, 128, 132);
    Join(bytes, 132, 136);
    assert bytes[..136] == bytes;
  }

  lemma ZeroSlice(s: seq<Byte>)
    requires AllZero(s)
    ensures s == Zeros(|s|)
  {
  }

  /** Any window that decodes re-encodes to the same bytes: the codec has no second spelling. */
  lemma EncodeOfDecode(hashes: Hashes, bytes: seq<Byte>)
    requires DecodeHeader(hashes, bytes).Ok?
    ensures EncodeHeader(hashes, DecodeHeader(hashes, bytes).value) == bytes
  {
    var h := DecodeHeader(hashes, bytes).value;
    LittleEndianOfFromLittleEndian(bytes[8..10]);
    LittleEndianOfFromLittleEndian(bytes[10..12]);
    LittleEndianOfFromLittleEndian(bytes[16..24]);
    LittleEndianOfFromLittleEndian(bytes[32..40]);
    LittleEndianOfFromLittleEndian(bytes[40..48]);
    LittleEndianOfFromLittleEndian(bytes[128..132]);
    ZeroSlice(bytes[12..16]);
    ZeroSlice(bytes[25..32]);
    ZeroSlice(bytes[132..136]);
    Reassembled(bytes);
    assert HeaderTop(h) == bytes[..32];
    assert HeaderBody(h) == bytes[..128];
    assert bytes[CRC_OFFSET + 4..] == Zeros(4) && bytes[..CRC_OFFSET] == HeaderBody(h);
  }

  /** Writes the next field of a buffer that is still zero from `at` on. */
  method PutField(buffer: array<Byte>, at: nat, field: seq<Byte>, ghost written: seq<Byte>)
    requires |written| == at && at + |field| <= buffer.Length
    requires buffer[..] == written + Zeros(buffer.Length - at)
    modifies buffer
    ensures buffer[..] == (written + field) + Zeros(buffer.Length - at - |field|)
  {
    assert buffer[..at] == written;
    assert buffer[at + |field|..] == buffer[..][at + |field|..] == Zeros(buffer.Length - at - |field|);
    CopyInto(buffer, at, field);
  }

  lemma SkipZeros(written: seq<Byte>, skip: nat, rest: nat)
    ensures written + Zeros(skip + rest) == (written + Zeros(skip)) + Zeros(rest)
  {
  }

  method PutTop(buffer: array<Byte>, h: Header)
    requires buffer.Length == HEADER_BYTES && buffer[..] == Zeros(HEADER_BYTES)
    modifies buffer
    ensures buffer[..] == HeaderTop(h) + Zeros(104)
  {
    ghost var w: seq<Byte> := [];
    assert buffer[..] == w + Zeros(HEADER_BYTES);
    PutField(buffer, 0, MAGIC, w);
    w := MAGIC;
    PutField(buffer, 8, LittleEndian(CAPSULE_VERSION, 2), w);
    w := w + LittleEndian(CAPSULE_VERSION, 2);
    PutField(buffer, 10, LittleEndian(HEADER_BYTES, 2), w);
    w := w + LittleEndian(HEADER_BYTES, 2);
    SkipZeros(w, 4, 120);
    w := w + Zeros(4);
    PutField(buffer, 16, LittleEndian(h.generation, 8), w);
    w := w + LittleEndian(h.generation, 8);
    PutField(buffer, 24, [PhaseCode(h.phase)], w);
    w := w + [PhaseCode(h.phase)];
    SkipZeros(w, 7, 104);
  }

  method PutTail(buffer: array<Byte>, h: Header)
    requires buffer.Length == HEADER_BYTES && buffer[..] == HeaderTop(h) + Zeros(104)
    modifies buffer
    ensures buffer[..] == HeaderBody(h) + Zeros(8)
  {
    ghost var w := HeaderTop(h);
    PutField(buffer, 32, LittleEndian(h.payloadLen, 8), w);
    w := w + LittleEndian(h.payloadLen, 8);
    PutField(buffer, 40, LittleEndian(PreviousField(h.previousOffset), 8), w);
    w := w + LittleEndian(PreviousField(h.previousOffset), 8);
    PutField(buffer, 48, h.identity.transactionId, w);
    w := w + h.identity.transactionId;
    PutField(buffer, 64, h.identity.sourceDigest, w);
    w := w + h.identity.sourceDigest;
    PutField(buffer, 96, h.payloadDigest, w);
    w := w + h.payloadDigest;
    assert w == HeaderBody(h);
  }

  /** `encode_header`: fills one zeroed buffer field by field, then seals it with the checksum of
      the buffer as it stands. */
  method EncodeHeaderBytes(hashes: Hashes, h: Header) returns (bytes: array<Byte>)
    ensures fresh(bytes) && bytes[..] == EncodeHeader(hashes, h)
  {
    bytes := new Byte[HEADER_BYTES](_ => 0);
    assert bytes[..] == Zeros(HEADER_BYTES);
    PutTop(bytes, h);
    PutTail(bytes, h);
    ghost var body := HeaderBody(h);
    SkipZeros(body, 4, 4);
    SealedCrc(hashes, body, bytes[..]);
    PutField(bytes, CRC_OFFSET, LittleEndian(HeaderCrc(hashes, bytes[..]), 4), body);
  }

  lemma SealedCrc(hashes: Hashes, body: seq<Byte>, bytes: seq<Byte>)
    requires |body| == CRC_OFFSET && bytes == body + Zeros(4) + Zeros(4)
    ensures HeaderCrc(hashes, bytes) == hashes.crc(body + Zeros(4) + Zeros(4))
  {
    assert bytes[..CRC_OFFSET] + Zeros(4) + bytes[CRC_OFFSET + 4..] == bytes;
  }
}
