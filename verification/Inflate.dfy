/** The decoder of kernel/lib/inflate.c. Every function is proved to answer what
    `Decoding` says, so what is proved there about decoding holds of this code. */
module Inflate {
  import opened Bits
  import opened BitReader
  import opened Huffman
  import opened HuffmanTable
  import opened Deflate
  import opened Decoding
  import opened RoundTrip
  import opened InflateHeader

  lemma ExtraBitsBounded(i: nat)
    ensures i < 29 ==> LEN_EXTRA[i] <= 5
    ensures i < 30 ==> DIST_EXTRA[i] <= 13
  {
  }

  /** The length's extra bits, the distance symbol and its extra bits. */
  method LengthAndDistance(b: Reader, dh: Huff, ghost dl: seq<nat>, i: nat) returns (ok: bool, length: nat, dist: nat)
    requires b.Valid() && !b.err && i < 29 && Accepted(dl) && IsTable(dh, dl)
    modifies b
    ensures b.Valid()
    ensures match ReadPair(dl, i, old(b.Rest())) {
      case NoPair => !ok
      case Pair(l, d, rest, short) => ok && length == l && dist == d && b.Rest() == rest && b.err == short
    }
  {
    dist := 0;
    ExtraBitsBounded(i);
    var v := b.Bits(LEN_EXTRA[i]);
    length := LEN_BASE[i] + v;
    var dsym := HuffDecode(b, dh, dl);
    ok := !(b.err || dsym < 0 || dsym >= 30);
    if ok {
      ExtraBitsBounded(dsym);
      var w := b.Bits(DIST_EXTRA[dsym]);
      dist := DIST_BASE[dsym] + w;
    }
  }

  /** The overlapping copy, byte by byte. */
  method CopyBack(dst: array<byte>, out: nat, dist: nat, length: nat)
    requires 1 <= dist <= out && out + length <= dst.Length
    modifies dst
    ensures dst[..out + length] == CopyMatch(old(dst[..out]), dist, length)
    ensures dst[out + length..] == old(dst[out + length..])
  {
    var from := out - dist;
    for i := 0 to length
      invariant dst[..out + i] == CopyMatch(old(dst[..out]), dist, i)
      invariant dst[out + i..] == old(dst[out + i..])
    {
      assert dst[from + i] == dst[..out + i][from + i];
      dst[out + i] := dst[from + i];
      assert dst[..out + (i + 1)] == dst[..out + i] + [dst[out + i]];
      assert dst[out + (i + 1)..] == old(dst[out + i..])[1..];
    }
  }

  /** One turn of the loop of inflate_block. A stream that ends inside a distance's extra bits is
      noticed on the next turn, so then the turn does not stop but leaves the reader in error. */
  method InflateToken(b: Reader, lh: Huff, dh: Huff, ghost ll: seq<nat>, ghost dl: seq<nat>,
                      dst: array<byte>, dstcap: nat, out: nat) returns (stop: bool, r: int)
    requires b.Valid() && out <= dstcap <= dst.Length
    requires Accepted(ll) && IsTable(lh, ll) && Accepted(dl) && IsTable(dh, dl)
    modifies b, dst
    ensures b.Valid()
    ensures dst[dstcap..] == old(dst[dstcap..])
    ensures old(b.err) ==> stop && r == -1
    ensures !old(b.err) ==> match DecodeToken(ll, dl, old(b.Rest()), old(dst[..out]), dstcap) {
      case Stop(Done(o, rest)) => stop && r == |o| && dst[..r] == o && b.Rest() == rest && !b.err
      case Stop(Fail(c)) => if stop then r == c else c == -1 && b.err && 0 <= r <= dstcap
      case More(rest, o) => !stop && r == |o| && dst[..r] == o && b.Rest() == rest && !b.err
    }
  {
    hide Accepted, IsTable, ReadPair;
    var sym := HuffDecode(b, lh, ll);
    if b.err || sym < 0 {
      return true, -1;
    }
    if sym == END_OF_BLOCK {
      return true, out;
    }
    if sym < 256 {
      if out >= dstcap {
        return true, -2;
      }
      dst[out] := sym;
      assert dst[..out + 1] == old(dst[..out]) + [sym];
      return false, out + 1;
    }
    sym := sym - 257;
    if sym >= 29 {
      return true, -3;
    }
    var ok, length, dist := LengthAndDistance(b, dh, dl, sym);
    if !ok {
      return true, -4;
    }
    if dist > out {
      return true, -5;
    }
    if out + length > dstcap {
      return true, -6;
    }
    CopyBack(dst, out, dist, length);
    assert dst[dstcap..] == dst[out + length..][dstcap - (out + length)..];
    return false, out + length;
  }

  method InflateBlock(b: Reader, lh: Huff, dh: Huff, ghost ll: seq<nat>, ghost dl: seq<nat>,
                      dst: array<byte>, dstcap: nat, start: nat) returns (r: int)
    requires b.Valid() && start <= dstcap <= dst.Length
    requires Accepted(ll) && IsTable(lh, ll) && Accepted(dl) && IsTable(dh, dl)
    modifies b, dst
    ensures b.Valid()
    ensures dst[dstcap..] == old(dst[dstcap..])
    ensures old(b.err) ==> r == -1
    ensures !old(b.err) ==> match DecodeBlock(ll, dl, old(b.Rest()), old(dst[..start]), dstcap) {
      case Done(o, rest) => r == |o| && dst[..r] == o && b.Rest() == rest && !b.err
      case Fail(c) => r == c
    }
  {
    hide Match, DecodeToken, Accepted, IsTable;
    ghost var goal := if b.err then Fail(-1) else DecodeBlock(ll, dl, b.Rest(), dst[..start], dstcap);
    var stop := false;
    r := start;
    while !stop
      invariant b.Valid() && (!stop ==> 0 <= r <= dstcap)
      invariant dst[dstcap..] == old(dst[dstcap..])
      invariant !stop && b.err ==> goal == Fail(-1)
      invariant !stop && !b.err ==> DecodeBlock(ll, dl, b.Rest(), dst[..r], dstcap) == goal
      invariant stop ==> match goal {
        case Done(o, rest) => r == |o| && dst[..r] == o && b.Rest() == rest && !b.err
        case Fail(c) => r == c
      }
      decreases !stop, if b.err then 0 else |b.Rest()| + 1
    {
      stop, r := InflateToken(b, lh, dh, ll, dl, dst, dstcap, r);
    }
  }

  /** lo | hi << 8 */
  function Le16(lo: nat, hi: nat): nat { lo + 256 * hi }

  lemma HalfWord(src: seq<byte>, p: nat)
    requires p + 2 <= |src|
    ensures |BytesBits(src[p..])| >= 16
    ensures LsbVal(BytesBits(src[p..])[..16]) == Le16(src[p], src[p + 1])
    ensures BytesBits(src[p..])[16..] == BytesBits(src[p + 2..])
  {
    var a, b: seq<bit> := LsbBits(src[p], 8), LsbBits(src[p + 1], 8);
    assert src[p..][1..] == src[p + 1..] && src[p + 1..][1..] == src[p + 2..];
    assert BytesBits(src[p..]) == a + (b + BytesBits(src[p + 2..]));
    assert BytesBits(src[p..])[..16] == a + b;
    ByteRoundTrip(src[p]);
    ByteRoundTrip(src[p + 1]);
    LsbConcat(a, b);
    ShlByte(src[p + 1]);
  }

  lemma ShlByte(x: nat)
    ensures Shl(x, 8) == 256 * x
  {
    assert Shl(x, 1) == 2 * x;
    assert Shl(x, 2) == 4 * x;
    assert Shl(x, 3) == 8 * x;
    assert Shl(x, 4) == 16 * x;
    assert Shl(x, 6) == 64 * x;
  }

  lemma BytesAfter(src: seq<byte>, p: nat, n: nat)
    requires p + n <= |src|
    ensures TakeBytes(BytesBits(src[p..]), n) == src[p..p + n]
    ensures BytesBits(src[p..])[8 * n..] == BytesBits(src[p + n..])
  {
    var data, tail := src[p..p + n], src[p + n..];
    assert src[p..] == data + tail;
    BytesBitsConcat(data, tail);
    TakeBytesOfBytesBits(data, BytesBits(tail));
  }

  /** A stored block. */
  method InflateStored(b: Reader, dst: array<byte>, dstcap: nat, start: nat) returns (r: int)
    requires b.Valid() && !b.err && start <= dstcap <= dst.Length
    modifies b, dst
    ensures b.Valid() && !b.err
    ensures dst[dstcap..] == old(dst[dstcap..])
    ensures match DecodeStored(old(b.Rest()), old(dst[..start]), dstcap) {
      case Done(o, rest) => r == |o| && dst[..r] == o && b.Rest() == rest
      case Fail(c) => r == c
    }
  {
    hide BytesBits, DecodeStored;
    ghost var out := dst[..start];
    b.HeldIsPartOfByte();
    StoredAt(b.src, b.pos, b.Rest(), out, dstcap);
    b.AlignToByte();
    if b.pos + 4 > |b.src| {
      return -11;
    }
    var len := Le16(b.src[b.pos], b.src[b.pos + 1]);
    var nlen := Le16(b.src[b.pos + 2], b.src[b.pos + 3]);
    b.pos := b.pos + 4;
    if 65535 - len != nlen {
      return -12;
    }
    if b.pos + len > |b.src| {
      return -13;
    }
    if start + len > dstcap {
      return -14;
    }
    CopyStored(b.src, b.pos, len, dst, start);
    b.pos := b.pos + len;
    EmptyBuffer();
    assert dst[dstcap..] == dst[start + len..][dstcap - (start + len)..];
    return start + len;
  }

  /** A stored block read from the bytes at p on, once the rest of the current byte is dropped. */
  lemma StoredAt(src: seq<byte>, p: nat, r: seq<bit>, out: seq<byte>, cap: nat)
    requires p <= |src| && |out| <= cap && r[|r| % 8..] == BytesBits(src[p..])
    ensures DecodeStored(r, out, cap) ==
      if p + 4 > |src| then Fail(-11)
      else
        var len, nlen := Le16(src[p], src[p + 1]), Le16(src[p + 2], src[p + 3]);
        if 65535 - len != nlen then Fail(-12)
        else if p + 4 + len > |src| then Fail(-13)
        else if |out| + len > cap then Fail(-14)
        else Done(out + src[p + 4..p + 4 + len], BytesBits(src[p + 4 + len..]))
  {
    hide LsbVal, LsbBits, BytesBits, TakeBytes;
    if p + 4 <= |src| {
      var a := BytesBits(src[p..]);
      HalfWord(src, p);
      HalfWord(src, p + 2);
      assert a[16..][..16] == a[16..32] && a[16..][16..] == a[32..];
      var len := Le16(src[p], src[p + 1]);
      if p + 4 + len <= |src| {
        BytesAfter(src, p + 4, len);
        assert a[32..][8 * len..] == a[32 + 8 * len..];
      }
    }
  }

  lemma EmptyBuffer()
    ensures LsbBits(0, 0) == [] && Pow2(0) == 1
  {
  }

  /** for (i = 0; i < len; i++) dst[out++] = b.src[b.pos++]; */
  method CopyStored(src: seq<byte>, pos: nat, len: nat, dst: array<byte>, out: nat)
    requires pos + len <= |src| && out + len <= dst.Length
    modifies dst
    ensures dst[..out + len] == old(dst[..out]) + src[pos..pos + len]
    ensures dst[out + len..] == old(dst[out + len..])
  {
    for i := 0 to len
      invariant dst[..out + i] == old(dst[..out]) + src[pos..pos + i]
      invariant dst[out + i..] == old(dst[out + i..])
    {
      dst[out + i] := src[pos + i];
      assert dst[..out + (i + 1)] == dst[..out + i] + [src[pos + i]];
      assert dst[out + (i + 1)..] == old(dst[out + i..])[1..];
    }
  }

  /** One block after its three header bits. */
  method InflateOne(b: Reader, kind: nat, dst: array<byte>, dstcap: nat, start: nat) returns (r: int)
    requires b.Valid() && !b.err && start <= dstcap <= dst.Length
    modifies b, dst
    ensures b.Valid()
    ensures dst[dstcap..] == old(dst[dstcap..])
    ensures match DecodeOne(kind, old(b.Rest()), old(dst[..start]), dstcap) {
      case Done(o, rest) => r == |o| && dst[..r] == o && b.Rest() == rest && !b.err
      case Fail(c) => r == c
    }
  {
    hide Accepted, IsTable, DecodeBlock, DecodeStored, ReadTables, FixedLitLengths, FixedDistLengths;
    if kind == 0 {
      r := InflateStored(b, dst, dstcap, start);
    } else if kind == 1 {
      FixedCodesAccepted();
      var lh, dh := BuildFixed();
      r := InflateBlock(b, lh, dh, FixedLitLengths(), FixedDistLengths(), dst, dstcap, start);
    } else if kind == 2 {
      var code, lh, dh, t := BuildDynamic(b);
      if code != 0 {
        return -15;
      }
      r := InflateBlock(b, lh, dh, t.ll, t.dl, dst, dstcap, start);
    } else {
      return -16;
    }
  }

  /** inflate_raw answers, on every byte string, what the flat bit sequence decodes to; it writes
      nothing at or above dstcap, and after a non-negative result the reader (err) is not in error. */
  method InflateRaw(src: seq<byte>, dst: array<byte>, dstcap: nat) returns (r: int, ghost err: bool)
    requires dstcap <= dst.Length
    requires |src| < 0x8000_0000 && dstcap < 0x8000_0000
    modifies dst
    ensures dst[dstcap..] == old(dst[dstcap..])
    ensures match DecodeStream(BytesBits(src), [], dstcap) {
      case Done(o, _) => r == |o| && dst[..r] == o
      case Fail(c) => r == c && r < 0
    }
    ensures r >= 0 ==> !err
  {
    hide DecodeOne, LsbVal, BytesBits;
    var b := new Reader(src);
    ghost var goal := DecodeStream(BytesBits(src), [], dstcap);
    var final := false;
    assert dst[..0] == [];
    r, err := 0, false;
    while !final
      invariant b.Valid() && !b.err && err == b.err && 0 <= r <= dstcap && fresh(b)
      invariant dst[dstcap..] == old(dst[dstcap..])
      invariant !final ==> DecodeStream(b.Rest(), dst[..r], dstcap) == goal
      invariant final ==> goal == Done(dst[..r], b.Rest())
      decreases !final, |b.Rest()|
    {
      ghost var rest := b.Rest();
      var f := b.Bits(1);
      var kind := b.Bits(2);
      err := b.err;
      if b.err {
        return -10, true;
      }
      FirstBit(rest);
      r := InflateOne(b, kind, dst, dstcap, r);
      err := b.err;
      if r < 0 {
        return;
      }
      final := f != 0;
    }
  }

  /** So for a source that begins with the encoding of blocks whose expansion fits, the answer is that
      expansion, or -15 when a header has more than MAX_DIST distance lengths. */
  method InflateEncoded(ghost bs: seq<Block>, src: seq<byte>, dst: array<byte>, dstcap: nat) returns (r: int)
    requires dstcap <= dst.Length && |src| < 0x8000_0000 && dstcap < 0x8000_0000
    requires FormedBlocks(bs, []) && EncodeBlocks(bs, [], 0) <= BytesBits(src) && |ExpandBlocks(bs, [])| <= dstcap
    modifies dst
    ensures AllNarrow(bs) ==> r == |ExpandBlocks(bs, [])| && dst[..r] == ExpandBlocks(bs, [])
    ensures !AllNarrow(bs) ==> r == -15
    ensures dst[dstcap..] == old(dst[dstcap..])
  {
    hide FormedBlocks, EncodeBlocks, ExpandBlocks, BytesBits, DecodeStream, AllNarrow;
    InflateInvertsEncoding(bs, src, dstcap);
    ghost var err: bool;
    r, err := InflateRaw(src, dst, dstcap);
  }

  lemma FirstBit(rest: seq<bit>)
    requires |rest| >= 3
    ensures LsbVal(rest[..1]) == rest[0]
    ensures rest[1..][..2] == rest[1..3] && rest[1..][2..] == rest[3..]
  {
    assert rest[..1] == [rest[0]];
  }
}
