/**
 * The byte-level writer and reader steps the RPC and replication codecs
 * of src/NetRpc.cpp and src/NetReplication.cpp are built from: WriteU8,
 * WriteU32, WriteBytes and WriteUuid append to the output; the matching
 * reads consume from a position and fail when too few bytes remain.
 *
 * NetByteWriter's integer byte order is not part of this model's claims:
 * integers are written most significant byte first here only to have
 * concrete bytes, and every statement proved is about field widths, field
 * order and round trips. A UUID is its 16 bytes as_bytes order, the high
 * half first.
 */
module Wire {
  import opened Common

  function Pow256(n: nat): (r: nat)
    ensures r > 0
  {
    if n == 0 then 1 else 256 * Pow256(n - 1)
  }

  /** `x` as `n` bytes, most significant first. */
  function BigEndian(x: nat, n: nat): (r: seq<Byte>)
    requires x < Pow256(n)
    ensures |r| == n
  {
    if n == 0 then [] else BigEndian(x / 256, n - 1) + [x % 256]
  }

  /** The number `n` bytes spell, most significant first. */
  function FromBigEndian(s: seq<Byte>): (x: nat)
    ensures x < Pow256(|s|)
  {
    if s == [] then 0 else FromBigEndian(s[..|s| - 1]) * 256 + s[|s| - 1]
  }

  lemma {:induction false} BigEndianRoundTrip(x: nat, n: nat)
    requires x < Pow256(n)
    ensures FromBigEndian(BigEndian(x, n)) == x
  {
    if n > 0 {
      var s := BigEndian(x, n);
      assert s[..n - 1] == BigEndian(x / 256, n - 1);
      BigEndianRoundTrip(x / 256, n - 1);
    }
  }

  lemma {:induction false} FromBigEndianRoundTrip(s: seq<Byte>)
    ensures BigEndian(FromBigEndian(s), |s|) == s
  {
    if s != [] {
      var p := s[..|s| - 1];
      FromBigEndianRoundTrip(p);
      var x := FromBigEndian(s);
      assert x / 256 == FromBigEndian(p) && x % 256 == s[|s| - 1];
      assert s == p + [s[|s| - 1]];
    }
  }

  function U32Bytes(v: U32): (r: seq<Byte>)
    ensures |r| == 4
  {
    assert Pow256(4) == 0x1_0000_0000;
    BigEndian(v, 4)
  }

  function U64Bytes(v: U64): (r: seq<Byte>)
    ensures |r| == 8
  {
    assert Pow256(8) == 0x1_0000_0000_0000_0000;
    BigEndian(v, 8)
  }

  /** WriteUuid: Uuid::as_bytes, 16 bytes. */
  function UuidBytes(u: Uuid): (r: seq<Byte>)
    ensures |r| == 16
  {
    U64Bytes(u.high) + U64Bytes(u.low)
  }

  /** What a read step yields: the value and the position after it. */
  datatype Read<+T> = Read(value: T, next: nat)

  /** ReadBytes: exactly `n` bytes from `pos`, or failure when fewer remain. */
  function ReadBytes(data: seq<Byte>, pos: nat, n: nat): (r: Option<Read<seq<Byte>>>)
    ensures r.Some? <==> pos + n <= |data|
    ensures r.Some? ==> |r.value.value| == n && r.value.next == pos + n
  {
    if pos + n <= |data| then Some(Read(data[pos..pos + n], pos + n)) else None
  }

  function ReadU8(data: seq<Byte>, pos: nat): (r: Option<Read<Byte>>)
    ensures r.Some? <==> pos < |data|
  {
    if pos < |data| then Some(Read(data[pos], pos + 1)) else None
  }

  function ReadU32(data: seq<Byte>, pos: nat): (r: Option<Read<U32>>)
    ensures r.Some? <==> pos + 4 <= |data|
    ensures r.Some? ==> r.value.next == pos + 4
  {
    match ReadBytes(data, pos, 4)
    case None => None
    case Some(b) =>
      assert Pow256(4) == 0x1_0000_0000;
      Some(Read(FromBigEndian(b.value), b.next))
  }

  function ReadUuid(data: seq<Byte>, pos: nat): (r: Option<Read<Uuid>>)
    ensures r.Some? <==> pos + 16 <= |data|
    ensures r.Some? ==> r.value.next == pos + 16
  {
    match ReadBytes(data, pos, 16)
    case None => None
    case Some(b) =>
      assert Pow256(8) == 0x1_0000_0000_0000_0000;
      Some(Read(Uuid(FromBigEndian(b.value[..8]), FromBigEndian(b.value[8..])), b.next))
  }

  /** Reading `n` bytes where a piece of length `n` was written gives that piece back. */
  lemma ReadBytesWritten(pre: seq<Byte>, piece: seq<Byte>, rest: seq<Byte>)
    ensures ReadBytes(pre + piece + rest, |pre|, |piece|) == Some(Read(piece, |pre| + |piece|))
  {
    assert (pre + piece + rest)[|pre|..|pre| + |piece|] == piece;
  }

  lemma ReadU8Written(pre: seq<Byte>, b: Byte, rest: seq<Byte>)
    ensures ReadU8(pre + [b] + rest, |pre|) == Some(Read(b, |pre| + 1))
  {
  }

  lemma ReadU32Written(pre: seq<Byte>, v: U32, rest: seq<Byte>)
    ensures ReadU32(pre + U32Bytes(v) + rest, |pre|) == Some(Read(v, |pre| + 4))
  {
    ReadBytesWritten(pre, U32Bytes(v), rest);
    BigEndianRoundTrip(v, 4);
  }

  lemma ReadUuidWritten(pre: seq<Byte>, u: Uuid, rest: seq<Byte>)
    ensures ReadUuid(pre + UuidBytes(u) + rest, |pre|) == Some(Read(u, |pre| + 16))
  {
    ReadBytesWritten(pre, UuidBytes(u), rest);
    var b := UuidBytes(u);
    assert b[..8] == U64Bytes(u.high) && b[8..] == U64Bytes(u.low);
    assert Pow256(8) == 0x1_0000_0000_0000_0000;
    BigEndianRoundTrip(u.high, 8);
    BigEndianRoundTrip(u.low, 8);
  }
}
