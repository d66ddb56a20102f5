/** Failure-compatible results, the byte type and the little-endian integer codec. */
module Results {
  datatype Option<+T> = None | Some(value: T)

  datatype Result<+T, +E> = Ok(value: T) | Err(error: E) {
    predicate IsFailure() {
      Err?
    }

    function PropagateFailure<U>(): Result<U, E>
      requires Err?
    {
      Err(error)
    }

    function Extract(): T
      requires Ok?
    {
      value
    }
  }
}

module Bytes {
  const U64_LIMIT: int := 0x1_0000_0000_0000_0000
  const U32_LIMIT: int := 0x1_0000_0000
  /** `usize` on the 64-bit hosts the program is built for. */
  const USIZE_MAX: int := 0xFFFF_FFFF_FFFF_FFFF

  type Byte = x: int | 0 <= x < 256
  type U32 = x: int | 0 <= x < 0x1_0000_0000
  type U64 = x: int | 0 <= x < 0x1_0000_0000_0000_0000
  type Digest = s: seq<Byte> | |s| == 32 witness seq(32, _ => 0)

  /** A slice: its length always fits in a `u64`. */
  type Payload = s: seq<Byte> | |s| < U64_LIMIT witness []

  /** CRC-32 and SHA-256 are arbitrary functions: no result depends on their values. */
  datatype Hashes = Hashes(crc: seq<Byte> -> U32, sha: seq<Byte> -> Digest)

  function Min(a: nat, b: nat): nat
  {
    if a < b then a else b
  }

  function Zeros(n: nat): (r: seq<Byte>)
    ensures |r| == n
    ensures forall k :: 0 <= k < n ==> r[k] == 0
  {
    seq(n, _ => 0)
  }

  function Pow256(width: nat): (r: nat)
    ensures r > 0
  {
    if width == 0 then 1 else 256 * Pow256(width - 1)
  }

  function LittleEndian(value: nat, width: nat): (r: seq<Byte>)
    ensures |r| == width
  {
    if width == 0 then [] else [value % 256] + LittleEndian(value / 256, width - 1)
  }

  function FromLittleEndian(bytes: seq<Byte>): (r: nat)
    ensures r < Pow256(|bytes|)
  {
    if bytes == [] then 0 else bytes[0] + 256 * FromLittleEndian(bytes[1..])
  }

  lemma {:induction false} FromLittleEndianOfLittleEndian(value: nat, width: nat)
    requires value < Pow256(width)
    ensures FromLittleEndian(LittleEndian(value, width)) == value
  {
    if width == 0 {
    } else {
      assert value / 256 < Pow256(width - 1);
      FromLittleEndianOfLittleEndian(value / 256, width - 1);
      assert LittleEndian(value, width)[1..] == LittleEndian(value / 256, width - 1);
    }
  }

  lemma {:induction false} LittleEndianOfFromLittleEndian(bytes: seq<Byte>)
    ensures LittleEndian(FromLittleEndian(bytes), |bytes|) == bytes
  {
    if bytes == [] {
    } else {
      var rest := FromLittleEndian(bytes[1..]);
      LittleEndianOfFromLittleEndian(bytes[1..]);
      assert (bytes[0] + 256 * rest) / 256 == rest;
      assert bytes == [bytes[0]] + bytes[1..];
    }
  }

  lemma PowersOf256()
    ensures Pow256(2) == 0x1_0000 && Pow256(4) == U32_LIMIT && Pow256(8) == U64_LIMIT
  {
    assert Pow256(3) == 256 * Pow256(2) && Pow256(4) == 256 * Pow256(3);
    assert Pow256(5) == 256 * Pow256(4) && Pow256(6) == 256 * Pow256(5);
    assert Pow256(7) == 256 * Pow256(6);
  }

  lemma SliceOfSlice(s: seq<Byte>, lo: nat, hi: nat, from: nat, length: nat)
    requires lo <= hi <= |s| && from + length <= hi - lo
    ensures s[lo..hi][from..from + length] == s[lo + from..lo + from + length]
  {
    var cut, direct := s[lo..hi][from..from + length], s[lo + from..lo + from + length];
    assert forall k :: 0 <= k < length ==> cut[k] == direct[k];
  }

  /** `buffer[at..at + |source|].copy_from_slice(source)`. */
  method CopyInto(buffer: array<Byte>, at: nat, source: seq<Byte>)
    requires at + |source| <= buffer.Length
    modifies buffer
    ensures buffer[..] == old(buffer[..at]) + source + old(buffer[at + |source|..])
  {
    var k := 0;
    while k < |source|
      invariant 0 <= k <= |source|
      invariant buffer[..at] == old(buffer[..at])
      invariant buffer[at..at + k] == source[..k]
      invariant buffer[at + k..] == old(buffer[at + k..])
    {
      ghost var was := buffer[at + k + 1..];
      assert was == old(buffer[at + k + 1..]) by {
        assert was == buffer[at + k..][1..];
      }
      buffer[at + k] := source[k];
      assert buffer[at + k + 1..] == was;
      assert buffer[at..at + k + 1] == buffer[at..at + k] + [source[k]];
      k := k + 1;
    }
    assert source[..k] == source;
    assert buffer[..] == buffer[..at] + buffer[at..at + k] + buffer[at + k..];
  }
}
