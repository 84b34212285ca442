/**
  Byte-level encoding of progress values.

  The checkpoint store is generic over a codec: a pair of total functions
  `encode` and `decode` that must satisfy the round-trip law
  `decode(encode(v)) == Some(v)`. The store's own properties use nothing
  about a codec except that law. This module provides the fixed-width
  little-endian integer layouts from which the concrete record codecs are
  built (the layout bincode 1 uses by default: an unsigned machine word as
  8 bytes, an `i32` as 4 bytes in two's complement, a vector as an 8-byte
  length followed by its elements).
*/
module Encoding {
  import opened Wrappers

  type Byte = b: int | 0 <= b < 256
  type Bytes = seq<Byte>

  const U64Limit: int := 0x1_0000_0000_0000_0000
  const I32Min: int := -0x8000_0000
  const I32Max: int := 0x7fff_ffff

  /** A Rust `usize` on a 64-bit target. */
  type U64 = x: int | 0 <= x < U64Limit
  /** A Rust `i32`. */
  type I32 = x: int | I32Min <= x <= I32Max

  /** A codec: how one type of progress value becomes bytes and back. */
  datatype Codec<!T> = Codec(encode: T -> Bytes, decode: Bytes -> Option<T>)

  /** The round-trip law every codec used by a checkpoint store must obey. */
  ghost predicate RoundTrips<T(!new)>(c: Codec<T>) {
    forall v :: c.decode(c.encode(v)) == Some(v)
  }

  function Pow256(width: nat): (p: nat)
    ensures p >= 1
  {
    if width == 0 then 1 else 256 * Pow256(width - 1)
  }

  /** `x` written as `width` little-endian bytes. */
  function EncodeLE(x: nat, width: nat): (r: Bytes)
    requires x < Pow256(width)
    ensures |r| == width
  {
    if width == 0 then [] else [x % 256] + EncodeLE(x / 256, width - 1)
  }

  /** The unsigned number that little-endian bytes `bs` stand for. */
  function DecodeLE(bs: Bytes): (x: nat)
    ensures x < Pow256(|bs|)
  {
    if bs == [] then 0 else bs[0] + 256 * DecodeLE(bs[1..])
  }

  lemma {:induction false} DecodeEncodeLE(x: nat, width: nat)
    requires x < Pow256(width)
    ensures DecodeLE(EncodeLE(x, width)) == x
  {
    if width > 0 {
      var r := EncodeLE(x, width);
      assert r[1..] == EncodeLE(x / 256, width - 1);
      DecodeEncodeLE(x / 256, width - 1);
    }
  }

  function EncodeU64(x: U64): (r: Bytes)
    ensures |r| == 8
  {
    EncodeLE(x, 8)
  }

  /** Reads a `usize` from exactly 8 bytes. */
  function DecodeU64(bs: Bytes): (x: U64)
    requires |bs| == 8
  {
    DecodeLE(bs)
  }

  lemma U64RoundTrip(x: U64)
    ensures DecodeU64(EncodeU64(x)) == x
  {
    DecodeEncodeLE(x, 8);
  }

  function EncodeI32(x: I32): (r: Bytes)
    ensures |r| == 4
  {
    EncodeLE(if x < 0 then x + 0x1_0000_0000 else x, 4)
  }

  /** Reads an `i32` (two's complement) from exactly 4 bytes. */
  function DecodeI32(bs: Bytes): (x: I32)
    requires |bs| == 4
  {
    var u := DecodeLE(bs);
    if u <= I32Max then u else u - 0x1_0000_0000
  }

  lemma I32RoundTrip(x: I32)
    ensures DecodeI32(EncodeI32(x)) == x
  {
    DecodeEncodeLE(if x < 0 then x + 0x1_0000_0000 else x, 4);
  }

  /** A vector of `usize` with a length that fits its 8-byte length prefix. */
  type Usizes = s: seq<U64> | |s| < U64Limit

  function EncodeElems(s: seq<U64>): (r: Bytes)
    ensures |r| == 8 * |s|
  {
    if s == [] then [] else EncodeU64(s[0]) + EncodeElems(s[1..])
  }

  /** Reads `n` consecutive `usize` values; `None` when `bs` is too short. */
  function DecodeElems(bs: Bytes, n: nat): (r: Option<seq<U64>>)
    ensures r.Some? ==> |r.value| == n
  {
    if n == 0 then Some([])
    else if |bs| < 8 then None
    else match DecodeElems(bs[8..], n - 1)
      case None => None
      case Some(rest) => Some([DecodeU64(bs[..8])] + rest)
  }

  /** Reading `n` values fails exactly when fewer than `8 * n` bytes are present. */
  lemma {:induction false} DecodeElemsFails(bs: Bytes, n: nat)
    ensures DecodeElems(bs, n).None? <==> |bs| < 8 * n
  {
    if n > 0 && |bs| >= 8 {
      DecodeElemsFails(bs[8..], n - 1);
    }
  }

  lemma {:induction false} ElemsRoundTrip(s: seq<U64>, tail: Bytes)
    ensures DecodeElems(EncodeElems(s) + tail, |s|) == Some(s)
  {
    if s != [] {
      var bs := EncodeElems(s) + tail;
      assert bs[..8] == EncodeU64(s[0]);
      assert bs[8..] == EncodeElems(s[1..]) + tail;
      U64RoundTrip(s[0]);
      ElemsRoundTrip(s[1..], tail);
      assert [s[0]] + s[1..] == s;
    }
  }

  function EncodeUsizes(s: Usizes): (r: Bytes)
    ensures |r| == 8 + 8 * |s|
  {
    EncodeU64(|s|) + EncodeElems(s)
  }

  /** Reads a length-prefixed vector; `None` when the bytes run out. */
  function DecodeUsizes(bs: Bytes): (r: Option<Usizes>)
    ensures r.None? <==> |bs| < 8 || |bs| < 8 + 8 * DecodeU64(bs[..8])
  {
    if |bs| < 8 then None
    else
      DecodeElemsFails(bs[8..], DecodeU64(bs[..8]));
      match DecodeElems(bs[8..], DecodeU64(bs[..8]))
      case None => None
      case Some(s) => Some(s)
  }

  lemma UsizesRoundTrip(s: Usizes, tail: Bytes)
    ensures DecodeUsizes(EncodeUsizes(s) + tail) == Some(s)
  {
    var bs := EncodeUsizes(s) + tail;
    assert bs[..8] == EncodeU64(|s|);
    assert bs[8..] == EncodeElems(s) + tail;
    U64RoundTrip(|s|);
    ElemsRoundTrip(s, tail);
  }
}
