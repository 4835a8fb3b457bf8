/** Bit sequences, as section 3.1.1 of RFC 1951 packs them: data elements are
    stored least-significant bit first, Huffman codes most-significant bit first. */
module Bits {

  type bit = x: int | 0 <= x < 2
  type byte = x: int | 0 <= x < 256

  function Pow2(n: nat): (p: nat)
    ensures p >= 1
  {
    if n == 0 then 1 else 2 * Pow2(n - 1)
  }

  /** v << n */
  function Shl(v: nat, n: nat): nat {
    if n == 0 then v else 2 * Shl(v, n - 1)
  }

  /** v >> n */
  function Shr(v: nat, n: nat): nat {
    if n == 0 then v else Shr(v / 2, n - 1)
  }

  /** v & ((1 << n) - 1) */
  function Low(v: nat, n: nat): nat {
    if n == 0 then 0 else v % 2 + 2 * Low(v / 2, n - 1)
  }

  /** The low n bits of v, least significant first. */
  function LsbBits(v: nat, n: nat): (bs: seq<bit>)
    ensures |bs| == n
  {
    if n == 0 then [] else [v % 2] + LsbBits(v / 2, n - 1)
  }

  /** The number a data element denotes. */
  function LsbVal(bs: seq<bit>): (v: nat)
    ensures v < Pow2(|bs|)
  {
    if bs == [] then 0 else bs[0] + 2 * LsbVal(bs[1..])
  }

  /** The low n bits of v, most significant first. */
  function MsbBits(v: nat, n: nat): (bs: seq<bit>)
    ensures |bs| == n
  {
    if n == 0 then [] else MsbBits(v / 2, n - 1) + [v % 2]
  }

  /** The number a Huffman code denotes. */
  function MsbVal(bs: seq<bit>): (v: nat)
    ensures v < Pow2(|bs|)
  {
    if bs == [] then 0 else 2 * MsbVal(bs[..|bs| - 1]) + bs[|bs| - 1]
  }

  /** A byte string as one flat bit sequence, each byte least significant bit first. */
  function BytesBits(bytes: seq<byte>): (bs: seq<bit>)
    ensures |bs| == 8 * |bytes|
  {
    if bytes == [] then [] else LsbBits(bytes[0], 8) + BytesBits(bytes[1..])
  }

  /** The first n bytes of a bit sequence. */
  function TakeBytes(bs: seq<bit>, n: nat): (bytes: seq<byte>)
    requires 8 * n <= |bs|
    ensures |bytes| == n
  {
    if n == 0 then [] else
      assert Pow2(8) == 256;
      [LsbVal(bs[..8])] + TakeBytes(bs[8..], n - 1)
  }

  /** Pack a bit sequence into bytes, filling the last byte with zero bits. */
  function Pack(bs: seq<bit>): (bytes: seq<byte>)
    decreases |bs|
  {
    assert Pow2(8) == 256;
    if bs == [] then []
    else if |bs| < 8 then [LsbVal(bs + seq(8 - |bs|, _ => 0))]
    else [LsbVal(bs[..8])] + Pack(bs[8..])
  }

  lemma {:induction false} LsbRoundTrip(v: nat, n: nat)
    requires v < Pow2(n)
    ensures LsbVal(LsbBits(v, n)) == v
  {
    if n == 0 {
    } else {
      LsbRoundTrip(v / 2, n - 1);
      assert LsbBits(v, n)[1..] == LsbBits(v / 2, n - 1);
    }
  }

  lemma ByteRoundTrip(x: byte)
    ensures LsbVal(LsbBits(x, 8)) == x
  {
    assert Pow2(8) == 256;
    LsbRoundTrip(x, 8);
  }

  lemma {:induction false} LsbBitsOfVal(bs: seq<bit>)
    ensures LsbBits(LsbVal(bs), |bs|) == bs
  {
    if bs == [] {
    } else {
      LsbBitsOfVal(bs[1..]);
    }
  }

  lemma {:induction false} MsbRoundTrip(v: nat, n: nat)
    requires v < Pow2(n)
    ensures MsbVal(MsbBits(v, n)) == v
  {
    if n == 0 {
    } else {
      MsbRoundTrip(v / 2, n - 1);
      assert MsbBits(v, n)[..n - 1] == MsbBits(v / 2, n - 1);
    }
  }

  lemma {:induction false} MsbBitsOfVal(bs: seq<bit>)
    ensures MsbBits(MsbVal(bs), |bs|) == bs
  {
    if bs == [] {
    } else {
      MsbBitsOfVal(bs[..|bs| - 1]);
    }
  }

  lemma {:induction false} LsbConcat(a: seq<bit>, b: seq<bit>)
    ensures LsbVal(a + b) == LsbVal(a) + Shl(LsbVal(b), |a|)
  {
    if a == [] {
      assert a + b == b;
    } else {
      LsbConcat(a[1..], b);
      assert (a + b)[1..] == a[1..] + b;
    }
  }

  /** Reading n bits is masking the low n; consuming them is shifting right by n. */
  lemma {:induction false} LsbSplit(bs: seq<bit>, n: nat)
    requires n <= |bs|
    ensures Low(LsbVal(bs), n) == LsbVal(bs[..n])
    ensures Shr(LsbVal(bs), n) == LsbVal(bs[n..])
  {
    if n == 0 {
      assert bs[n..] == bs;
    } else {
      LsbSplit(bs[1..], n - 1);
      assert bs[..n][1..] == bs[1..][..n - 1];
      assert bs[n..] == bs[1..][n - 1..];
    }
  }

  lemma {:induction false} BytesBitsConcat(a: seq<byte>, b: seq<byte>)
    ensures BytesBits(a + b) == BytesBits(a) + BytesBits(b)
  {
    if a == [] {
      assert a + b == b;
    } else {
      BytesBitsConcat(a[1..], b);
      assert (a + b)[1..] == a[1..] + b;
      var h: seq<bit> := LsbBits(a[0], 8);
      assert BytesBits(a + b) == h + BytesBits(a[1..] + b);
      assert h + (BytesBits(a[1..]) + BytesBits(b)) == (h + BytesBits(a[1..])) + BytesBits(b);
    }
  }

  lemma {:induction false} TakeBytesOfBytesBits(bytes: seq<byte>, tail: seq<bit>)
    ensures TakeBytes(BytesBits(bytes) + tail, |bytes|) == bytes
  {
    hide LsbBits, LsbVal, Pow2;
    if bytes == [] {
    } else {
      var bs := BytesBits(bytes) + tail;
      assert bs[..8] == LsbBits(bytes[0], 8);
      assert bs[8..] == BytesBits(bytes[1..]) + tail;
      ByteRoundTrip(bytes[0]);
      TakeBytesOfBytesBits(bytes[1..], tail);
    }
  }

  /** Packing loses no bit: its bytes begin with the bits that went in. */
  lemma {:induction false} PackKeepsBits(bs: seq<bit>)
    ensures bs <= BytesBits(Pack(bs))
    decreases |bs|
  {
    assert Pow2(8) == 256;
    if bs == [] {
    } else if |bs| < 8 {
      var w := bs + seq(8 - |bs|, _ => 0);
      LsbBitsOfVal(w);
      assert BytesBits([LsbVal(w)]) == w;
    } else {
      LsbBitsOfVal(bs[..8]);
      PackKeepsBits(bs[8..]);
      assert bs == bs[..8] + bs[8..];
      assert Pack(bs)[1..] == Pack(bs[8..]);
      assert BytesBits(Pack(bs)) == bs[..8] + BytesBits(Pack(bs[8..]));
    }
  }
}
