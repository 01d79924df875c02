/** Byte strings, fixed-width integers in either byte order, and fixed-width names. */
module Bytes {

  type byte = b: int | 0 <= b < 256

  datatype Endian = Little | Big

  datatype Result<+T, +E> = Ok(value: T) | Err(error: E)

  datatype Option<+T> = None | Some(value: T)

  const TWO_31: int := 0x8000_0000
  const TWO_32: int := 0x1_0000_0000
  const TWO_64: int := 0x1_0000_0000_0000_0000

  function Pow256(n: nat): (p: nat)
    ensures p > 0
  {
    if n == 0 then 1 else 256 * Pow256(n - 1)
  }

  lemma Pow256Values()
    ensures Pow256(4) == TWO_32 && Pow256(8) == TWO_64
  {
    assert Pow256(2) == 0x1_0000;
    assert Pow256(4) == 256 * (256 * Pow256(2));
    assert Pow256(6) == 256 * (256 * Pow256(4));
    assert Pow256(8) == 256 * (256 * Pow256(6));
  }

  /** The low n bytes of v, least significant first. */
  function PackLittle(n: nat, v: nat): (s: seq<byte>)
    ensures |s| == n
  {
    if n == 0 then [] else [v % 256] + PackLittle(n - 1, v / 256)
  }

  function UnpackLittle(s: seq<byte>): nat {
    if s == [] then 0 else s[0] + 256 * UnpackLittle(s[1..])
  }

  /** The low n bytes of v, most significant first. */
  function PackBig(n: nat, v: nat): (s: seq<byte>)
    ensures |s| == n
  {
    if n == 0 then [] else PackBig(n - 1, v / 256) + [v % 256]
  }

  function UnpackBig(s: seq<byte>): nat {
    if s == [] then 0 else 256 * UnpackBig(s[..|s| - 1]) + s[|s| - 1]
  }

  function Pack(e: Endian, n: nat, v: nat): (s: seq<byte>)
    ensures |s| == n
  {
    if e.Little? then PackLittle(n, v) else PackBig(n, v)
  }

  function Unpack(e: Endian, s: seq<byte>): nat {
    if e.Little? then UnpackLittle(s) else UnpackBig(s)
  }

  /** Packing loses nothing that fits. */
  lemma {:induction false} PackUnpack(e: Endian, n: nat, v: nat)
    requires v < Pow256(n)
    ensures Unpack(e, Pack(e, n, v)) == v
  {
    if n > 0 {
      PackUnpack(e, n - 1, v / 256);
      if e.Little? {
        assert PackLittle(n, v)[1..] == PackLittle(n - 1, v / 256);
      } else {
        assert PackBig(n, v)[..n - 1] == PackBig(n - 1, v / 256);
      }
    }
  }

  lemma {:induction false} UnpackBound(e: Endian, s: seq<byte>)
    ensures Unpack(e, s) < Pow256(|s|)
  {
    if s != [] {
      UnpackBound(e, if e.Little? then s[1..] else s[..|s| - 1]);
    }
  }

  /** Two's complement in four bytes. */
  function PackInt32(e: Endian, v: int): (s: seq<byte>)
    requires -TWO_31 <= v < TWO_31
    ensures |s| == 4
  {
    Pack(e, 4, if v < 0 then v + TWO_32 else v)
  }

  function Signed32(v: nat): int {
    if v >= TWO_31 then v - TWO_32 else v
  }

  /** The piece stands in data at the given offset. */
  ghost predicate At(data: seq<byte>, off: nat, piece: seq<byte>) {
    off + |piece| <= |data| && data[off..off + |piece|] == piece
  }

  lemma AtSplit(data: seq<byte>, off: nat, a: seq<byte>, b: seq<byte>)
    requires At(data, off, a + b)
    ensures At(data, off, a) && At(data, off + |a|, b)
  {
    var whole := data[off..off + |a + b|];
    assert data[off..off + |a|] == whole[..|a|] == a;
    assert data[off + |a|..off + |a| + |b|] == whole[|a|..] == b;
  }

  lemma AtWithin(data: seq<byte>, off: nat, outer: seq<byte>, at: nat, piece: seq<byte>)
    requires At(data, off, outer) && At(outer, at, piece)
    ensures At(data, off + at, piece)
  {
    forall i | 0 <= i < |piece| ensures data[off + at + i] == piece[i] {
      assert data[off..off + |outer|][at + i] == outer[at + i];
      assert outer[at..at + |piece|][i] == piece[i];
    }
    assert data[off + at..off + at + |piece|] == piece;
  }

  /** Reads n bytes as an unsigned integer. */
  function U(e: Endian, data: seq<byte>, off: nat, n: nat): (v: nat)
    requires off + n <= |data|
  {
    Unpack(e, data[off..off + n])
  }

  lemma ReadPacked(e: Endian, data: seq<byte>, off: nat, n: nat, v: nat)
    requires v < Pow256(n) && At(data, off, Pack(e, n, v))
    ensures off + n <= |data| && U(e, data, off, n) == v
  {
    PackUnpack(e, n, v);
  }

  lemma ReadPackedInt32(e: Endian, data: seq<byte>, off: nat, v: int)
    requires -TWO_31 <= v < TWO_31 && At(data, off, PackInt32(e, v))
    ensures off + 4 <= |data| && Signed32(U(e, data, off, 4)) == v
  {
    Pow256Values();
    ReadPacked(e, data, off, 4, if v < 0 then v + TWO_32 else v);
  }

  function Zeros(n: nat): (s: seq<byte>)
    ensures |s| == n
    ensures forall i :: 0 <= i < n ==> s[i] == 0
  {
    seq(n, _ => 0)
  }

  /** Drops the trailing NUL bytes. */
  function StripNul(s: seq<byte>): seq<byte> {
    if s != [] && s[|s| - 1] == 0 then StripNul(s[..|s| - 1]) else s
  }

  /** What is dropped is all NUL, and what stays does not end in one. */
  lemma {:induction false} StripNulMeans(s: seq<byte>)
    ensures var r := StripNul(s);
      && |r| <= |s| && r == s[..|r|]
      && (r != [] ==> r[|r| - 1] != 0)
      && forall i :: |r| <= i < |s| ==> s[i] == 0
  {
    if s != [] && s[|s| - 1] == 0 {
      StripNulMeans(s[..|s| - 1]);
    }
  }

  lemma StripPadded(s: seq<byte>, n: nat)
    requires s != [] ==> s[|s| - 1] != 0
    ensures StripNul(s + Zeros(n)) == s
  {
    var padded := s + Zeros(n);
    var r := StripNul(padded);
    StripNulMeans(padded);
    assert s != [] ==> padded[|s| - 1] != 0;
    assert |r| == |s|;
    assert r == padded[..|s|] == s;
  }

  /** Each byte outside ASCII becomes the replacement character. */
  function DecodeAscii(s: seq<byte>): string {
    seq(|s|, i requires 0 <= i < |s| => if s[i] < 128 then s[i] as char else '\U{FFFD}')
  }

  predicate IsAscii(s: string) {
    forall i :: 0 <= i < |s| ==> s[i] as int < 128
  }

  /** The bytes of an ASCII string; callers test IsAscii first, as encoding anything else fails. */
  function EncodeAscii(s: string): seq<byte> {
    seq(|s|, i requires 0 <= i < |s| => if s[i] as int < 128 then s[i] as int else 0)
  }

  lemma EncodeDecode(s: string)
    requires IsAscii(s)
    ensures DecodeAscii(EncodeAscii(s)) == s
  {
  }

  /** No bytes but its own read as an ASCII string. */
  lemma OnlyItsBytes(raw: seq<byte>, s: string)
    requires IsAscii(s)
    ensures DecodeAscii(raw) == s <==> raw == EncodeAscii(s)
  {
    if DecodeAscii(raw) == s {
      forall i | 0 <= i < |raw| ensures raw[i] == EncodeAscii(s)[i] {
        assert DecodeAscii(raw)[i] == s[i];
      }
    }
  }
}
