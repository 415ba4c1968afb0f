/** Byte encoding of the one scalar the runtime serialises with rkyv: a `u32`.
    rkyv lays an archived `u32` out as four little-endian bytes; this module
    gives that layout and its decoder, which rejects a buffer of any other
    length (rkyv's alignment and root-position rules are not modelled). */
module Codec {
  import opened Wire

  function Pow256(n: nat): (p: nat)
    ensures p >= 1
  {
    if n == 0 then 1 else 256 * Pow256(n - 1)
  }

  /** The low `n` bytes of `x`, least significant first. */
  function EncodeLE(x: nat, n: nat): (bs: Bytes)
    ensures |bs| == n
  {
    if n == 0 then [] else [x % 256] + EncodeLE(x / 256, n - 1)
  }

  /** The number whose little-endian bytes are `bs`. */
  function DecodeLE(bs: Bytes): (x: nat)
    ensures x < Pow256(|bs|)
  {
    if bs == [] then 0 else bs[0] + 256 * DecodeLE(bs[1..])
  }

  lemma {:induction false} DecodeEncodeLE(x: nat, n: nat)
    requires x < Pow256(n)
    ensures DecodeLE(EncodeLE(x, n)) == x
  {
    if n > 0 {
      assert x / 256 < Pow256(n - 1);
      DecodeEncodeLE(x / 256, n - 1);
      assert EncodeLE(x, n)[1..] == EncodeLE(x / 256, n - 1);
    }
  }

  lemma {:induction false} EncodeDecodeLE(bs: Bytes)
    ensures EncodeLE(DecodeLE(bs), |bs|) == bs
  {
    if bs != [] {
      var rest := DecodeLE(bs[1..]);
      var x := bs[0] + 256 * rest;
      assert x % 256 == bs[0] && x / 256 == rest;
      EncodeDecodeLE(bs[1..]);
    }
  }

  /** `rkyv::to_bytes::<u32, _>`. */
  function EncodeU32(x: U32): (bs: Bytes)
    ensures |bs| == 4
    ensures DecodeU32(bs) == Some(x)
  {
    DecodeEncodeLE(x, 4);
    EncodeLE(x, 4)
  }

  /** `rkyv::from_bytes::<u32>`: succeeds exactly on four-byte buffers, and
      what it accepts is the encoding of what it returns. */
  function DecodeU32(bs: Bytes): (r: Option<U32>)
    ensures r.Some? <==> |bs| == 4
    ensures r.Some? ==> EncodeLE(r.value, 4) == bs
  {
    if |bs| == 4 then
      EncodeDecodeLE(bs);
      Some(DecodeLE(bs))
    else None
  }

  /** Distinct values have distinct encodings, so comparing encodings is the
      same as comparing values. */
  lemma EncodeU32Injective(x: U32, y: U32)
    ensures EncodeU32(x) == EncodeU32(y) <==> x == y
  {
    if EncodeU32(x) == EncodeU32(y) {
      assert DecodeU32(EncodeU32(x)) == Some(x);
    }
  }
}
