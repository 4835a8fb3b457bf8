/** The tables of RFC 1951 said without the tables: the fixed codes of section 3.2.6, the length and
    distance ranges of section 3.2.5, the sending order of section 3.2.7, and whole streams byte by byte. */
module DeflateTables {
  import opened Bits
  import opened Huffman
  import opened Deflate
  import opened Decoding
  import opened RoundTrip
  import opened Acceptance

  // ---- the fixed codes ----------------------------------------------------------------------------

  lemma {:induction false} CountRun(ls: seq<nat>, a: nat, b: nat, v: nat, l: nat)
    requires a <= b <= |ls| && forall i :: a <= i < b ==> ls[i] == v
    ensures Count(ls[..b], l) == Count(ls[..a], l) + if l == v then b - a else 0
    decreases b
  {
    if a < b {
      CountRun(ls, a, b - 1, v, l);
      assert ls[..b][..b - 1] == ls[..b - 1];
    }
  }

  /** How many of the first n fixed code lengths are l. */
  function FixedCount(n: nat, l: nat): int {
    if l == 8 then (if n <= 144 then n else if n <= 280 then 144 else n - 136)
    else if l == 9 then (if n <= 144 then 0 else if n <= 256 then n - 144 else 112)
    else if l == 7 then (if n <= 256 then 0 else if n <= 280 then n - 256 else 24)
    else 0
  }

  lemma FixedCounts(n: nat, l: nat)
    requires n <= 288
    ensures Count(FixedLitLengths()[..n], l) == FixedCount(n, l)
  {
    hide Count;
    var ls := FixedLitLengths();
    CountNone(ls, l);
    CountRun(ls, 0, if n < 144 then n else 144, 8, l);
    if n > 144 { CountRun(ls, 144, if n < 256 then n else 256, 9, l); }
    if n > 256 { CountRun(ls, 256, if n < 280 then n else 280, 7, l); }
    if n > 280 { CountRun(ls, 280, n, 8, l); }
  }

  lemma CountNone(ls: seq<nat>, l: nat)
    ensures Count(ls[..0], l) == 0
  {
  }

  lemma {:induction false} FirstCodes(l: nat)
    requires 1 <= l <= 9
    ensures NextCode(FixedLitLengths(), l) == if l == 9 then 0x190 else if l == 8 then 0x30 else 0
    decreases l
  {
    hide Count, FixedLitLengths;
    if l > 1 {
      FirstCodes(l - 1);
      FixedCounts(288, l - 1);
      assert FixedLitLengths()[..288] == FixedLitLengths();
    }
  }

  /** The literal/length codes of section 3.2.6. */
  lemma FixedLitCodes(b: nat)
    requires b < 288
    ensures FixedLitLengths()[b] >= 1
    ensures b < 144 ==> CodeBits(FixedLitLengths(), b) == MsbBits(0x30 + b, 8)
    ensures 144 <= b < 256 ==> CodeBits(FixedLitLengths(), b) == MsbBits(0x190 + (b - 144), 9)
    ensures 256 <= b < 280 ==> CodeBits(FixedLitLengths(), b) == MsbBits(b - 256, 7)
    ensures 280 <= b ==> CodeBits(FixedLitLengths(), b) == MsbBits(0xC0 + (b - 280), 8)
  {
    hide Count, MsbBits, NextCode;
    var l := FixedLitLengths()[b];
    FixedCounts(b, l);
    FirstCodes(l);
  }

  lemma {:induction false} FirstDistCodes(l: nat)
    requires 1 <= l <= 5
    ensures NextCode(FixedDistLengths(), l) == 0
    decreases l
  {
    hide Count;
    if l > 1 {
      var ls := FixedDistLengths();
      FirstDistCodes(l - 1);
      CountNone(ls, l - 1);
      CountRun(ls, 0, 30, 5, l - 1);
      assert ls[..30] == ls;
    }
  }

  /** Distance symbol d is the five bits of d. */
  lemma FixedDistCodes(d: nat)
    requires d < 30
    ensures FixedDistLengths()[d] >= 1 && CodeBits(FixedDistLengths(), d) == MsbBits(d, 5)
  {
    hide Count, MsbBits, NextCode;
    var ls := FixedDistLengths();
    CountNone(ls, 5);
    CountRun(ls, 0, d, 5, 5);
    FirstDistCodes(5);
  }

  // ---- lengths, distances and the sending order ---------------------------------------------------

  /** The lengths double their step every four symbols; 258 has a symbol of its own. */
  lemma LengthTable(i: nat)
    requires i < 29
    ensures i < 8 ==> LEN_BASE[i] == 3 + i && LEN_EXTRA[i] == 0
    ensures 8 <= i < 28 ==> LEN_EXTRA[i] == i / 4 - 1 && LEN_BASE[i] == 3 + (4 + i % 4) * Pow2(i / 4 - 1)
    ensures i == 28 ==> LEN_BASE[i] == 258 && LEN_EXTRA[i] == 0
  {
    hide Pow2;
    SmallPowers();
  }

  /** The distances double their step every two symbols. */
  lemma DistanceTable(i: nat)
    requires i < 30
    ensures i < 2 ==> DIST_BASE[i] == 1 + i && DIST_EXTRA[i] == 0
    ensures 2 <= i ==> DIST_EXTRA[i] == i / 2 - 1 && DIST_BASE[i] == 1 + (2 + i % 2) * Pow2(i / 2 - 1)
  {
    hide Pow2;
    SmallPowers();
    LargePowers();
  }

  lemma SmallPowers()
    ensures Pow2(0) == 1 && Pow2(1) == 2 && Pow2(2) == 4 && Pow2(3) == 8 && Pow2(4) == 16 && Pow2(5) == 32 && Pow2(6) == 64
  {
  }

  lemma LargePowers()
    ensures Pow2(7) == 128 && Pow2(8) == 256 && Pow2(9) == 512 && Pow2(10) == 1024 && Pow2(11) == 2048 && Pow2(12) == 4096
    ensures Pow2(13) == 8192
  {
    SmallPowers();
    assert Pow2(7) == 2 * Pow2(6);
    assert Pow2(10) == 1024;
    assert Pow2(13) == 8192;
  }

  /** The repeat codes first, then 0, then outwards from 8. */
  lemma OrderTable(i: nat)
    requires i < 19
    ensures CLC_ORDER[i] == if i < 3 then 16 + i else if i == 3 then 0 else if i % 2 == 0 then 6 + i / 2 else 9 - i / 2
  {
  }

  // ---- whole streams --------------------------------------------------------------------------------

  /** The byte that eight bits make, the least significant first. */
  function Octet(b: seq<bit>): (v: int)
    requires |b| == 8
  {
    (b[0] as int) + 2 * (b[1] as int) + 4 * (b[2] as int) + 8 * (b[3] as int)
      + 16 * (b[4] as int) + 32 * (b[5] as int) + 64 * (b[6] as int) + 128 * (b[7] as int)
  }

  lemma ByteIs(v: byte, b: seq<bit>, rest: seq<byte>)
    requires |b| == 8 && v == Octet(b)
    ensures BytesBits([v] + rest) == b + BytesBits(rest)
  {
    OctetIs(b);
    LsbBitsOfVal(b);
    assert ([v] + rest)[1..] == rest;
  }

  lemma OctetIs(b: seq<bit>)
    requires |b| == 8
    ensures LsbVal(b) == Octet(b)
  {
    hide LsbVal, Shl;
    var a, c := b[..4], b[4..];
    FourIs(a);
    FourIs(c);
    assert b == a + c;
    LsbConcat(a, c);
    ShiftFour(LsbVal(c));
  }

  lemma ShiftFour(v: nat)
    ensures Shl(v, 4) == 16 * v
  {
    assert Shl(v, 1) == 2 * v && Shl(v, 2) == 4 * v && Shl(v, 3) == 8 * v;
  }

  lemma FourIs(b: seq<bit>)
    requires |b| == 4
    ensures LsbVal(b) == (b[0] as int) + 2 * (b[1] as int) + 4 * (b[2] as int) + 8 * (b[3] as int)
  {
    var c := b[1..];
    var d := c[1..];
    var e := d[1..];
    assert e[1..] == [];
  }

  /** "a" in a fixed block. */
  const ONE_A := [Fixed([Literal(97)])]

  lemma OneABits()
    ensures FormedBlocks(ONE_A, []) && ExpandBlocks(ONE_A, []) == [97] && AllNarrow(ONE_A)
    ensures EncodeBlocks(ONE_A, [], 0) == [1, 1, 0] + ([1, 0, 0, 1, 0, 0, 0, 1] + [0, 0, 0, 0, 0, 0, 0])
  {
    hide CodeBits, FixedLitLengths, FixedDistLengths, MsbBits, EncodeBlocks, FormedBlocks, ExpandBlocks, AllNarrow;
    FixedLitCodes(97);
    FixedLitCodes(256);
    ManyACodes();
    var t := Literal(97);
    OneToken(t, []);
    assert [t][1..] == [] && Append(t, []) == [97];
    OneFixed([t]);
  }

  lemma OneToken(t: Token, out: seq<byte>)
    requires WellFormed(t) && Reaches(t, |out|)
    ensures InWindow([t], |out|) && Expand([t], out) == Append(t, out)
  {
    hide Append;
    assert [t][1..] == [];
  }

  lemma FirstToken(t: Token, ts: seq<Token>, out: seq<byte>)
    requires WellFormed(t) && Reaches(t, |out|) && (forall i :: 0 <= i < |ts| ==> WellFormed(ts[i])) && InWindow(ts, |Append(t, out)|)
    ensures InWindow([t] + ts, |out|) && Expand([t] + ts, out) == Expand(ts, Append(t, out))
  {
    hide WellFormed, Append, Size, Reaches;
    assert ([t] + ts)[1..] == ts;
  }

  /** The three bytes that every encoder writes for "a" decode to it. */
  lemma OneADecodes()
    ensures var o := DecodeStream(BytesBits([0x4b, 0x04, 0x00]), [], 1); o.Done? && o.out == [97]
  {
    hide BytesBits, DecodeStream, FormedBlocks, ExpandBlocks, EncodeBlocks, AllNarrow;
    OneABits();
    var src: seq<byte> := [0x4b, 0x04, 0x00];
    var x, y, z: seq<bit> := [1, 1, 0, 1, 0, 0, 1, 0], [0, 0, 1, 0, 0, 0, 0, 0], [0, 0, 0, 0, 0, 0, 0, 0];
    ByteIs(0x00, z, []);
    ByteIs(0x04, y, [0x00]);
    ByteIs(0x4b, x, [0x04, 0x00]);
    assert [0x4b] + [0x04, 0x00] == src && [0x04] + [0x00] == [0x04, 0x00] && [0x00] + [] == [0x00];
    assert BytesBits(src) == x + (y + (z + BytesBits([])));
    InflateInvertsEncoding(ONE_A, src, 1);
  }

  /** Thirteen of them: the letter and a copy of twelve at distance one. */
  const MANY_A := [Fixed([Literal(97), Copy(8, 1, 0, 0)])]

  lemma ManyATokens(ts: seq<Token>)
    requires ts == MANY_A[0].tokens
    ensures ValidTokens(FixedLitLengths(), FixedDistLengths(), ts, 0) && Expand(ts, []) == CopyMatch([97], 1, 12)
    ensures EncodeTokens(FixedLitLengths(), FixedDistLengths(), ts)
         == [1, 0, 0, 1, 0, 0, 0, 1] + (([0, 0, 0, 1, 0, 0, 1] + ([1] + ([0, 0, 0, 0, 0] + []))) + [0, 0, 0, 0, 0, 0, 0])
  {
    hide CodeBits, FixedLitLengths, FixedDistLengths, CopyMatch, MsbBits, Expand;
    FixedLitCodes(97);
    FixedLitCodes(265);
    FixedLitCodes(256);
    FixedDistCodes(0);
    ManyACodes();
    var x, y := Literal(97), Copy(8, 1, 0, 0);
    assert Append(x, []) == [97] && Length(y) == 12 && Distance(y) == 1;
    OneToken(y, [97]);
    FirstToken(x, [y], []);
    assert ts == [x] + [y] && ts[1..] == [y] && [y][1..] == [];
  }

  lemma ManyACodes()
    ensures MsbBits(0x91, 8) == [1, 0, 0, 1, 0, 0, 0, 1] && MsbBits(0, 7) == [0, 0, 0, 0, 0, 0, 0]
    ensures MsbBits(9, 7) == [0, 0, 0, 1, 0, 0, 1] && MsbBits(0, 5) == [0, 0, 0, 0, 0] && LsbBits(1, 1) == [1] && LsbBits(0, 0) == []
    ensures Pow2(1) == 2 && Pow2(0) == 1
  {
    LetterCode();
    LengthCode();
    ZeroCodes();
  }

  lemma LetterCode()
    ensures MsbBits(0x91, 8) == [1, 0, 0, 1, 0, 0, 0, 1]
  {
    assert MsbBits(9, 4) == [1, 0, 0, 1];
  }

  lemma LengthCode()
    ensures MsbBits(9, 7) == [0, 0, 0, 1, 0, 0, 1]
  {
    assert MsbBits(1, 4) == [0, 0, 0, 1];
  }

  lemma ZeroCodes()
    ensures MsbBits(0, 7) == [0, 0, 0, 0, 0, 0, 0] && MsbBits(0, 5) == [0, 0, 0, 0, 0]
  {
    assert MsbBits(0, 4) == [0, 0, 0, 0];
  }

  lemma ManyADecodes()
    ensures var o := DecodeStream(BytesBits([0x4b, 0x44, 0x06, 0x00]), [], 13); o.Done? && o.out == Thirteen()
  {
    hide BytesBits, DecodeStream, FormedBlocks, ExpandBlocks, EncodeBlocks, AllNarrow, EncodeTokens, Expand, ValidTokens, CopyMatch,
      FixedLitLengths, FixedDistLengths;
    ManyATokens(MANY_A[0].tokens);
    OneFixed(MANY_A[0].tokens);
    var src: seq<byte> := [0x4b, 0x44, 0x06, 0x00];
    FourBytes(src, [1, 1, 0, 1, 0, 0, 1, 0], [0, 0, 1, 0, 0, 0, 1, 0], [0, 1, 1, 0, 0, 0, 0, 0], [0, 0, 0, 0, 0, 0, 0, 0]);
    AllA(12);
    InflateInvertsEncoding(MANY_A, src, 13);
  }

  function Thirteen(): seq<byte> { seq(13, _ => 97) }

  lemma {:induction false} AllA(n: nat)
    ensures CopyMatch([97], 1, n) == seq(n + 1, _ => 97)
  {
    if n > 0 {
      AllA(n - 1);
    }
  }

  lemma OneFixed(ts: seq<Token>)
    requires ValidTokens(FixedLitLengths(), FixedDistLengths(), ts, 0)
    ensures FormedBlocks([Fixed(ts)], []) && ExpandBlocks([Fixed(ts)], []) == Expand(ts, []) && AllNarrow([Fixed(ts)])
    ensures EncodeBlocks([Fixed(ts)], [], 0) == [1, 1, 0] + EncodeTokens(FixedLitLengths(), FixedDistLengths(), ts)
  {
    hide FixedLitLengths, FixedDistLengths, EncodeTokens, Expand, InWindow, Encodable, EncodeBlocks, FormedBlocks, ExpandBlocks;
    var b := Fixed(ts);
    EncodableAll(FixedLitLengths(), FixedDistLengths(), ts);
    assert Formed(b, 0) && ExpandBlock(b, []) == Expand(ts, []);
    OneBlock(b, 0, []);
    assert LsbBits(1, 2) == [1, 0];
  }

  /** "aa" in a dynamic block: two codes of one bit, no distance code. */
  const TWO_A_OPS := [ManyZeros(97), One(1), ManyZeros(138), ManyZeros(20), One(1), One(0)]
  const TWO_A_HEADER := Header(Fill(97, 0) + [1] + Fill(158, 0) + [1], [0], [2, 2] + Fill(16, 0) + [1], 18, TWO_A_OPS)
  const TWO_A := [Dynamic(TWO_A_HEADER, [Literal(97), Literal(97)])]

  lemma TwoAOps()
    ensures ExpandOps(TWO_A_OPS, []) == TWO_A_HEADER.ll + TWO_A_HEADER.dl
  {
    hide ExpandOps;
    var o := TWO_A_OPS;
    var a, b := Fill(97, 0) + [1], Fill(97, 0) + [1] + Fill(158, 0);
    assert o == [o[0], o[1], o[2], o[3]] + [o[4]] + [o[5]];
    ExpandSnoc([o[0], o[1], o[2], o[3]], o[4], []);
    ExpandSnoc([o[0], o[1], o[2], o[3]] + [o[4]], o[5], []);
    ExpandFour(o[0], o[1], o[2], o[3]);
    RunExpands(o[0], [], 97, 0);
    assert [] + Fill(97, 0) == Fill(97, 0);
    OneExpands(1, Fill(97, 0));
    RunExpands(o[2], a, 138, 0);
    RunExpands(o[3], a + Fill(138, 0), 20, 0);
    assert (a + Fill(138, 0)) + Fill(20, 0) == b;
    OneExpands(1, b);
    OneExpands(0, b + [1]);
  }

  /** Codes of a vector in which a and b have one bit and the others none. */
  lemma TwoOneBitCodes(ls: seq<nat>, a: nat, b: nat)
    requires a < b < |ls| && ls[a] == 1 && ls[b] == 1 && forall i :: 0 <= i < |ls| && i != a && i != b ==> ls[i] == 0
    ensures CodeBits(ls, a) == [0] && CodeBits(ls, b) == [1]
  {
    hide Count;
    CountNone(ls, 1);
    CountRun(ls, 0, a, 0, 1);
    CountRun(ls, a, a + 1, 1, 1);
    CountRun(ls, a + 1, b, 0, 1);
  }

  lemma TwoAClc()
    ensures var clc := TWO_A_HEADER.clc; CodeBits(clc, 18) == [0] && CodeBits(clc, 0) == [1, 0] && CodeBits(clc, 1) == [1, 1]
  {
    hide Count, MsbBits;
    var clc := TWO_A_HEADER.clc;
    TwoACounts(clc);
    assert NextCode(clc, 1) == 0 && NextCode(clc, 2) == 2;
    hide NextCode;
    TinyCodes();
  }

  lemma TwoACounts(clc: seq<nat>)
    requires clc == [2, 2] + Fill(16, 0) + [1]
    ensures Count(clc, 1) == 1 && Count(clc[..18], 1) == 0 && Count(clc[..0], 2) == 0 && Count(clc[..1], 2) == 1
  {
    hide Count;
    CountNone(clc, 1);
    CountNone(clc, 2);
    CountRun(clc, 0, 2, 2, 1);
    CountRun(clc, 2, 18, 0, 1);
    CountRun(clc, 18, 19, 1, 1);
    CountRun(clc, 0, 1, 2, 2);
    assert clc[..19] == clc;
  }

  lemma TinyCodes()
    ensures MsbBits(2, 2) == [1, 0] && MsbBits(3, 2) == [1, 1] && MsbBits(0, 1) == [0] && MsbBits(1, 1) == [1]
  {
  }

  function Zeroes(n: nat): (z: seq<bit>)
    ensures |z| == n && forall i :: 0 <= i < n ==> z[i] == 0
  {
    seq(n, _ => 0)
  }

  lemma {:induction false} ZeroTriples(clc: seq<nat>, a: nat, b: nat)
    requires |clc| == 19 && a <= b <= 19 && forall i :: a <= i < b ==> clc[CLC_ORDER[i]] == 0
    ensures EncodeClc(clc, b) == EncodeClc(clc, a) + Zeroes(3 * (b - a))
    decreases b
  {
    hide EncodeClc;
    ClcStep(clc, b);
    if a < b {
      ZeroTriples(clc, a, b - 1);
      ThreeZeros();
      assert (EncodeClc(clc, a) + Zeroes(3 * (b - 1 - a))) + Zeroes(3) == EncodeClc(clc, a) + Zeroes(3 * (b - a));
    }
  }

  lemma ThreeZeros()
    ensures LsbBits(0, 3) == Zeroes(3)
  {
  }

  lemma TwoAClcBits()
    ensures EncodeClc(TWO_A_HEADER.clc, 18) == Zeroes(6) + [1, 0, 0, 0, 1, 0] + Zeroes(39) + [0, 1, 0]
  {
    hide EncodeClc;
    var clc := TWO_A_HEADER.clc;
    OrderIs();
    ZeroTriples(clc, 0, 2);
    ClcStep(clc, 0);
    ClcStep(clc, 3);
    ClcStep(clc, 4);
    ZeroTriples(clc, 4, 17);
    ClcStep(clc, 18);
    assert LsbBits(1, 3) == [1, 0, 0] && LsbBits(2, 3) == [0, 1, 0];
  }

  lemma OrderIs()
    ensures CLC_ORDER[0] == 16 && CLC_ORDER[1] == 17 && CLC_ORDER[2] == 18 && CLC_ORDER[3] == 0 && CLC_ORDER[17] == 1
    ensures forall i :: 4 <= i < 17 ==> 2 <= CLC_ORDER[i] < 18
  {
  }

  lemma ClcStep(clc: seq<nat>, n: nat)
    requires |clc| == 19 && n <= 19
    ensures n == 0 ==> EncodeClc(clc, n) == []
    ensures n > 0 ==> EncodeClc(clc, n) == EncodeClc(clc, n - 1) + LsbBits(clc[CLC_ORDER[n - 1]], 3)
  {
  }

  lemma TwoAOpBits()
    ensures EncodeOps(TWO_A_HEADER.clc, TWO_A_OPS)
         == [0] + ([0, 1, 1, 0, 1, 0, 1] + ([1, 1] + ([0, 1, 1, 1, 1, 1, 1, 1] + ([0, 1, 0, 0, 1, 0, 0, 0] + ([1, 1] + [1, 0])))))
  {
    hide EncodeOp, EncodeOps;
    var clc, o := TWO_A_HEADER.clc, TWO_A_OPS;
    TwoAEach(clc);
    var f := [One(0)];
    var e := [One(1)] + f;
    var d := [ManyZeros(20)] + e;
    var c := [ManyZeros(138)] + d;
    var b := [One(1)] + c;
    assert [ManyZeros(97)] + b == o;
    OpsFront(clc, [], One(0));
    OpsFront(clc, f, One(1));
    OpsFront(clc, e, ManyZeros(20));
    OpsFront(clc, d, ManyZeros(138));
    OpsFront(clc, c, One(1));
    OpsFront(clc, b, ManyZeros(97));
    var p, q: seq<bit>, rest := [0], [0, 1, 1, 0, 1, 0, 1], EncodeOps(clc, b);
    assert [One(0)] + [] == f;
    assert (p + q) + rest == p + (q + rest);
  }

  lemma TwoAEach(clc: seq<nat>)
    requires clc == TWO_A_HEADER.clc
    ensures EncodeOp(clc, ManyZeros(97)) == [0] + [0, 1, 1, 0, 1, 0, 1]
    ensures EncodeOp(clc, ManyZeros(138)) == [0, 1, 1, 1, 1, 1, 1, 1]
    ensures EncodeOp(clc, ManyZeros(20)) == [0, 1, 0, 0, 1, 0, 0, 0]
    ensures EncodeOp(clc, One(1)) == [1, 1] && EncodeOp(clc, One(0)) == [1, 0]
  {
    hide CodeBits, LsbBits;
    TwoAClc();
    SevenBits();
  }

  lemma SevenBits()
    ensures LsbBits(86, 7) == [0, 1, 1, 0, 1, 0, 1] && LsbBits(127, 7) == [1, 1, 1, 1, 1, 1, 1] && LsbBits(9, 7) == [1, 0, 0, 1, 0, 0, 0]
  {
    hide LsbBits;
    Seven(86, [0, 1, 1, 0, 1, 0, 1]);
    Seven(127, [1, 1, 1, 1, 1, 1, 1]);
    Seven(9, [1, 0, 0, 1, 0, 0, 0]);
  }

  lemma Seven(v: nat, b: seq<bit>)
    requires |b| == 7 && v == Octet(b + [0])
    ensures LsbBits(v, 7) == b
  {
    OctetIs(b + [0]);
    LsbConcat(b, [0]);
    assert LsbVal([0]) == 0;
    ShlZero(7);
    LsbBitsOfVal(b);
  }

  lemma {:induction false} ShlZero(n: nat)
    ensures Shl(0, n) == 0
  {
    if n > 0 {
      ShlZero(n - 1);
    }
  }

  lemma OpsFront(clc: seq<nat>, ops: seq<LengthOp>, op: LengthOp)
    requires |clc| == 19 && ValidOps(clc, ops) && WellFormedOp(op) && clc[OpSymbol(op)] >= 1
    ensures ValidOps(clc, [op] + ops) && EncodeOps(clc, [op] + ops) == EncodeOp(clc, op) + EncodeOps(clc, ops)
    ensures ops == [] ==> EncodeOps(clc, ops) == []
  {
    hide EncodeOp;
    assert ([op] + ops)[1..] == ops;
  }

  lemma TwoAForm()
    ensures ClippedHeader(TWO_A_HEADER) && ValidHeader(TWO_A_HEADER)
  {
    hide ExpandOps, Accepted;
    var h := TWO_A_HEADER;
    TwoCodes(h.ll, 97, 256);
    TwoCodes(h.dl, 1, 1);
    KraftThree(h.clc);
    TwoAOps();
    OrderIs();
    ValidIsClipped(h);
  }

  lemma KraftThree(clc: seq<nat>)
    requires clc == [2, 2] + Fill(16, 0) + [1]
    ensures Accepted(clc)
  {
    hide Pow2, Kraft;
    Powers();
    FourteenThirteen();
    KraftRun(clc, 0, 2, 2, 8192);
    KraftZeros(clc, 2, 18);
    KraftRun(clc, 18, 19, 1, 16384);
    assert clc[..19] == clc && clc[..0] == [];
    KraftNil();
    AcceptedIffKraft(clc);
  }

  lemma FourteenThirteen()
    ensures Pow2(13) == 8192 && Pow2(14) == 16384 && Pow2(15) == 32768
  {
    LargePowers();
  }

  lemma KraftNil()
    ensures Kraft([]) == 0
  {
  }

  lemma {:induction false} KraftZeros(ls: seq<nat>, a: nat, b: nat)
    requires CodeLengths(ls) && a <= b <= |ls| && forall i :: a <= i < b ==> ls[i] == 0
    ensures Kraft(ls[..b]) == Kraft(ls[..a])
    decreases b
  {
    if a < b {
      KraftZeros(ls, a, b - 1);
      assert ls[..b][..b - 1] == ls[..b - 1];
    }
  }

  lemma TwoATokens()
    ensures ValidTokens(TWO_A_HEADER.ll, TWO_A_HEADER.dl, [Literal(97), Literal(97)], 0)
    ensures EncodeTokens(TWO_A_HEADER.ll, TWO_A_HEADER.dl, [Literal(97), Literal(97)]) == [0, 0, 1]
    ensures Expand([Literal(97), Literal(97)], []) == [97, 97]
  {
    hide CodeBits;
    var ll, dl := TWO_A_HEADER.ll, TWO_A_HEADER.dl;
    TwoOneBitCodes(ll, 97, 256);
    var ts := [Literal(97), Literal(97)];
    assert ts[1..] == [Literal(97)] && ts[1..][1..] == [];
    assert Append(ts[0], []) == [97] && Append(ts[0], [97]) == [97, 97];
    assert EncodeTokens(ll, dl, ts[1..]) == [0] + [1];
  }

  lemma TwoABits()
    ensures FormedBlocks(TWO_A, []) && ExpandBlocks(TWO_A, []) == [97, 97] && AllNarrow(TWO_A)
    ensures EncodeBlocks(TWO_A, [], 0) == [1, 0, 1] + Zeroes(10) + [0, 1, 1, 1] + EncodeClc(TWO_A_HEADER.clc, 18) + EncodeOps(TWO_A_HEADER.clc, TWO_A_OPS) + [0, 0, 1]
  {
    hide EncodeClc, EncodeOps, ClippedHeader, EncodeTokens, ValidTokens, Expand, FormedBlocks, EncodeBlocks, ExpandBlocks, EncodeHeader;
    TwoAForm();
    TwoATokens();
    var h, ts := TWO_A_HEADER, [Literal(97), Literal(97)];
    OneDynamic(h, ts);
    HeaderBits(h);
    var f, o: seq<bit>, c := [1, 0, 1], [0, 1, 1, 1], EncodeClc(h.clc, 18);
    assert f + (Zeroes(10) + o + c + EncodeOps(h.clc, h.ops)) == f + Zeroes(10) + o + c + EncodeOps(h.clc, h.ops);
  }

  lemma OneDynamic(h: Header, ts: seq<Token>)
    requires ClippedHeader(h) && ValidTokens(h.ll, h.dl, ts, 0)
    ensures FormedBlocks([Dynamic(h, ts)], []) && ExpandBlocks([Dynamic(h, ts)], []) == Expand(ts, [])
    ensures EncodeBlocks([Dynamic(h, ts)], [], 0) == [1, 0, 1] + EncodeHeader(h) + EncodeTokens(h.ll, h.dl, ts)
  {
    hide ClippedHeader, EncodeHeader, EncodeTokens, Expand, ValidTokens, EncodeBlock, EncodeBlocks, FormedBlocks, ExpandBlocks;
    var b := Dynamic(h, ts);
    DynamicExpands(h, ts);
    OneBlock(b, 0, []);
    DynamicBits(h, ts);
  }

  lemma DynamicExpands(h: Header, ts: seq<Token>)
    requires ClippedHeader(h) && ValidTokens(h.ll, h.dl, ts, 0)
    ensures Formed(Dynamic(h, ts), 0) && ExpandBlock(Dynamic(h, ts), []) == Expand(ts, [])
  {
    hide ClippedHeader, Expand, InWindow;
  }

  lemma DynamicBits(h: Header, ts: seq<Token>)
    requires ClippedHeader(h) && ValidTokens(h.ll, h.dl, ts, 0)
    ensures END_OF_BLOCK < |h.ll| && h.ll[END_OF_BLOCK] >= 1 && Formed(Dynamic(h, ts), 0)
    ensures EncodeBlock(Dynamic(h, ts), true, 0, 0) == [1, 0, 1] + EncodeHeader(h) + EncodeTokens(h.ll, h.dl, ts)
  {
    hide HeaderForm, SpellsOut, EncodeHeader, EncodeTokens, InWindow, Encodable, LsbBits;
    EndCoded(h);
    BitsOfTwo();
    Front([1], [0, 1], EncodeHeader(h), EncodeTokens(h.ll, h.dl, ts));
  }

  lemma BitsOfTwo()
    ensures LsbBits(2, 2) == [0, 1]
  {
  }

  lemma Front(f: seq<bit>, k: seq<bit>, x: seq<bit>, y: seq<bit>)
    requires f == [1] && k == [0, 1]
    ensures f + (k + (x + y)) == [1, 0, 1] + x + y
  {
  }

  lemma HeaderBits(h: Header)
    requires HeaderForm(h) && |h.ll| == 257 && |h.dl| == 1 && h.hclen == 18
    ensures EncodeHeader(h) == Zeroes(10) + [0, 1, 1, 1] + EncodeClc(h.clc, 18) + EncodeOps(h.clc, h.ops)
  {
    hide EncodeClc, EncodeOps, Accepted;
    assert LsbBits(14, 4) == [0, 1, 1, 1] && LsbBits(0, 5) == Zeroes(5);
    hide LsbBits;
    assert Zeroes(10) == Zeroes(5) + Zeroes(5);
  }

  /** The thirteen bytes of that stream decode to "aa". */
  lemma TwoADecodes()
    ensures var o := DecodeStream(BytesBits([0x05, 0xc0, 0x81, 0x08, 0, 0, 0, 0, 0x20, 0xd6, 0xfd, 0x25, 0x8e]), [], 2); o.Done? && o.out == [97, 97]
  {
    hide BytesBits, DecodeStream, FormedBlocks, ExpandBlocks, EncodeBlocks, AllNarrow, EncodeClc, EncodeOps;
    var src: seq<byte> := [0x05, 0xc0, 0x81, 0x08, 0, 0, 0, 0, 0x20, 0xd6, 0xfd, 0x25, 0x8e];
    TwoABits();
    TwoAMatches();
    TwoABytes();
    InflateInvertsEncoding(TWO_A, src, 2);
  }

  /** The bits of the stream in three parts, as encoded and as the bytes hold them. */
  function FrontBits(): seq<bit> { [1, 0, 1] + Zeroes(10) + [0, 1, 1, 1] + Zeroes(6) + [1, 0, 0, 0, 1, 0] + Zeroes(3) }
  function MiddleBits(): seq<bit> { Zeroes(36) + [0, 1, 0] + [0] }
  function BackBits(): seq<bit> {
    ([0, 1, 1, 0, 1, 0, 1] + ([1, 1] + ([0, 1, 1, 1, 1, 1, 1, 1] + ([0, 1, 0, 0, 1, 0, 0, 0] + ([1, 1] + [1, 0]))))) + [0, 0, 1]
  }

  lemma TwoAMatches()
    ensures [1, 0, 1] + Zeroes(10) + [0, 1, 1, 1] + EncodeClc(TWO_A_HEADER.clc, 18) + EncodeOps(TWO_A_HEADER.clc, TWO_A_OPS) + [0, 0, 1]
         == FrontBits() + MiddleBits() + BackBits()
  {
    hide EncodeClc, EncodeOps;
    TwoAClcBits();
    TwoAOpBits();
    assert Zeroes(39) == Zeroes(3) + Zeroes(36);
    Shuffle([1, 0, 1] + Zeroes(10) + [0, 1, 1, 1], Zeroes(6) + [1, 0, 0, 0, 1, 0], Zeroes(3), Zeroes(36), [0, 1, 0], [0],
            [0, 1, 1, 0, 1, 0, 1] + ([1, 1] + ([0, 1, 1, 1, 1, 1, 1, 1] + ([0, 1, 0, 0, 1, 0, 0, 0] + ([1, 1] + [1, 0])))), [0, 0, 1]);
    var x: seq<bit>, y: seq<bit> := [1, 0, 1] + Zeroes(10) + [0, 1, 1, 1], [1, 0, 0, 0, 1, 0];
    assert x + (Zeroes(6) + y) + Zeroes(3) == x + Zeroes(6) + y + Zeroes(3);
  }

  lemma Shuffle(a: seq<bit>, b: seq<bit>, c: seq<bit>, d: seq<bit>, e: seq<bit>, f: seq<bit>, g: seq<bit>, h: seq<bit>)
    ensures a + (b + (c + d) + e) + (f + g) + h == (a + b + c) + (d + e + f) + (g + h)
  {
    assert a + (b + (c + d) + e) == (a + b + c) + (d + e);
    assert ((a + b + c) + (d + e)) + (f + g) == (a + b + c) + (d + e + f) + g;
    assert ((a + b + c) + (d + e + f) + g) + h == (a + b + c) + (d + e + f) + (g + h);
  }

  lemma FrontIs()
    ensures FrontBits() == [1, 0, 1, 0, 0, 0, 0, 0] + ([0, 0, 0, 0, 0, 0, 1, 1] + ([1, 0, 0, 0, 0, 0, 0, 1] + [0, 0, 0, 1, 0, 0, 0, 0]))
  {
  }

  lemma MiddleIs()
    ensures MiddleBits() == Zeroes(32) + [0, 0, 0, 0, 0, 1, 0, 0]
  {
  }

  lemma BackIs()
    ensures BackBits() == [0, 1, 1, 0, 1, 0, 1, 1] + ([1, 0, 1, 1, 1, 1, 1, 1] + ([1, 0, 1, 0, 0, 1, 0, 0] + [0, 1, 1, 1, 0, 0, 0, 1]))
  {
  }

  lemma TwoABytes()
    ensures BytesBits([0x05, 0xc0, 0x81, 0x08, 0, 0, 0, 0, 0x20, 0xd6, 0xfd, 0x25, 0x8e]) == FrontBits() + MiddleBits() + BackBits()
  {
    hide BytesBits, FrontBits, MiddleBits, BackBits;
    var a, z, t, b: seq<byte> := [0x05, 0xc0, 0x81, 0x08], [0, 0, 0, 0], [0x20], [0xd6, 0xfd, 0x25, 0x8e];
    FrontIs();
    MiddleIs();
    BackIs();
    FourBytes(a, [1, 0, 1, 0, 0, 0, 0, 0], [0, 0, 0, 0, 0, 0, 1, 1], [1, 0, 0, 0, 0, 0, 0, 1], [0, 0, 0, 1, 0, 0, 0, 0]);
    FourBytes(b, [0, 1, 1, 0, 1, 0, 1, 1], [1, 0, 1, 1, 1, 1, 1, 1], [1, 0, 1, 0, 0, 1, 0, 0], [0, 1, 1, 1, 0, 0, 0, 1]);
    ByteIs(0x20, [0, 0, 0, 0, 0, 1, 0, 0], []);
    NoBytes();
    assert [0x20] + [] == t;
    ZeroBytes(t);
    BytesBitsConcat(z + t, b);
    BytesBitsConcat(a, (z + t) + b);
    assert a + ((z + t) + b) == [0x05, 0xc0, 0x81, 0x08, 0, 0, 0, 0, 0x20, 0xd6, 0xfd, 0x25, 0x8e];
  }

  lemma FourBytes(bs: seq<byte>, w: seq<bit>, x: seq<bit>, y: seq<bit>, z: seq<bit>)
    requires |bs| == 4 && |w| == |x| == |y| == |z| == 8
    requires bs[0] == Octet(w) && bs[1] == Octet(x) && bs[2] == Octet(y) && bs[3] == Octet(z)
    ensures BytesBits(bs) == w + (x + (y + z))
  {
    hide BytesBits, Octet;
    ByteIs(bs[3], z, []);
    ByteIs(bs[2], y, [bs[3]]);
    ByteIs(bs[1], x, [bs[2], bs[3]]);
    ByteIs(bs[0], w, [bs[1], bs[2], bs[3]]);
    NoBytes();
    assert [bs[3]] + [] == [bs[3]] && [bs[2]] + [bs[3]] == [bs[2], bs[3]] && [bs[1]] + [bs[2], bs[3]] == [bs[1], bs[2], bs[3]];
    assert [bs[0]] + [bs[1], bs[2], bs[3]] == bs;
  }

  lemma ZeroBytes(tail: seq<byte>)
    ensures BytesBits([0, 0, 0, 0] + tail) == Zeroes(32) + BytesBits(tail)
  {
    hide BytesBits;
    var o: seq<bit> := [0, 0, 0, 0, 0, 0, 0, 0];
    ByteIs(0, o, tail);
    ByteIs(0, o, [0] + tail);
    ByteIs(0, o, [0] + ([0] + tail));
    ByteIs(0, o, [0] + ([0] + ([0] + tail)));
    assert [0] + ([0] + ([0] + ([0] + tail))) == [0, 0, 0, 0] + tail;
    assert o + (o + (o + (o + BytesBits(tail)))) == Zeroes(32) + BytesBits(tail);
  }

  lemma NoBytes()
    ensures BytesBits([]) == []
  {
  }

  // ---- stored blocks -----------------------------------------------------------------------------------

  /** Sixteen bits are two bytes, the low one first. */
  lemma SixteenBits(v: nat)
    requires v < 65536
    ensures LsbBits(v, 16) == LsbBits(v % 256, 8) + LsbBits(v / 256, 8)
  {
    hide LsbBits, LsbVal;
    var a, b := LsbBits(v % 256, 8), LsbBits(v / 256, 8);
    EightIs256();
    LsbRoundTrip(v % 256, 8);
    LsbRoundTrip(v / 256, 8);
    LsbConcat(a, b);
    ShiftByte(v / 256);
    LsbBitsOfVal(a + b);
  }

  lemma ShiftByte(v: nat)
    ensures Shl(v, 8) == 256 * v
  {
    ShiftFour(v);
    assert Shl(v, 5) == 32 * v && Shl(v, 6) == 64 * v && Shl(v, 7) == 128 * v;
  }

  lemma EightIs256()
    ensures Pow2(8) == 256
  {
    assert Pow2(4) == 16;
  }

  lemma TwoLengths(n: nat, c: nat, data: seq<byte>)
    requires n < 65536 && c < 65536
    ensures BytesBits([0x01, n % 256, n / 256, c % 256, c / 256] + data) == [1, 0, 0, 0, 0, 0, 0, 0] + (LsbBits(n, 16) + (LsbBits(c, 16) + BytesBits(data)))
  {
    hide LsbBits, BytesBits;
    SixteenBits(n);
    SixteenBits(c);
    FiveBytes(n % 256, n / 256, c % 256, c / 256, data);
    Regrouped(LsbBits(n % 256, 8), LsbBits(n / 256, 8), LsbBits(c % 256, 8), LsbBits(c / 256, 8), BytesBits(data), LsbBits(n, 16), LsbBits(c, 16));
  }

  lemma FiveBytes(a: byte, b: byte, c: byte, d: byte, data: seq<byte>)
    ensures BytesBits([0x01, a, b, c, d] + data)
      == [1, 0, 0, 0, 0, 0, 0, 0] + (LsbBits(a, 8) + (LsbBits(b, 8) + (LsbBits(c, 8) + (LsbBits(d, 8) + BytesBits(data)))))
  {
    hide LsbBits, BytesBits;
    var z := [d] + data;
    var y := [c] + z;
    var x := [b] + y;
    var w := [a] + x;
    FrontByte(d, data);
    FrontByte(c, z);
    FrontByte(b, y);
    FrontByte(a, x);
    ByteIs(0x01, [1, 0, 0, 0, 0, 0, 0, 0], w);
    assert [0x01] + w == [0x01, a, b, c, d] + data;
  }

  lemma FrontByte(b: byte, rest: seq<byte>)
    ensures BytesBits([b] + rest) == LsbBits(b, 8) + BytesBits(rest)
  {
    assert ([b] + rest)[1..] == rest;
  }

  lemma Regrouped(a: seq<bit>, b: seq<bit>, c: seq<bit>, d: seq<bit>, e: seq<bit>, n: seq<bit>, m: seq<bit>)
    requires n == a + b && m == c + d
    ensures a + (b + (c + (d + e))) == n + (m + e)
  {
    assert a + (b + (c + (d + e))) == (a + b) + ((c + d) + e);
  }

  /** Any data, stored: one byte of block header, the length n and its complement c low byte first, and the
      data itself decode to the data. */
  lemma StoredDecodes(data: seq<byte>, n: nat, c: nat, more: seq<byte>)
    requires n == |data| && n + c == 65535
    ensures var o := DecodeStream(BytesBits([0x01, n % 256, n / 256, c % 256, c / 256] + data + more), [], n); o.Done? && o.out == data
  {
    hide DecodeStream, BytesBits, FormedBlocks, ExpandBlocks, EncodeBlocks, AllNarrow, LsbBits;
    var src: seq<byte> := [0x01, n % 256, n / 256, c % 256, c / 256] + data;
    StoredOne(data, n, c);
    TwoLengths(n, c, data);
    BytesBitsConcat(src, more);
    InflateInvertsEncoding([Stored(0, data)], src + more, n);
  }

  lemma StoredOne(data: seq<byte>, n: nat, c: nat)
    requires n == |data| && n + c == 65535
    ensures var bs := [Stored(0, data)];
      && FormedBlocks(bs, []) && ExpandBlocks(bs, []) == data && AllNarrow(bs)
      && EncodeBlocks(bs, [], 0) == [1, 0, 0, 0, 0, 0, 0, 0] + (LsbBits(n, 16) + (LsbBits(c, 16) + BytesBits(data)))
  {
    hide FormedBlocks, ExpandBlocks, EncodeBlocks, AllNarrow, BytesBits, LsbBits, Formed, ExpandBlock, EncodeBlock;
    StoredBlock(data, n, c);
    OneBlock(Stored(0, data), 0, []);
  }

  lemma StoredBlock(data: seq<byte>, n: nat, c: nat)
    requires n == |data| && n + c == 65535
    ensures var b := Stored(0, data);
      && Formed(b, 0) && Narrow(b) && ExpandBlock(b, []) == data
      && EncodeBlock(b, true, 0, 0) == [1, 0, 0, 0, 0, 0, 0, 0] + (LsbBits(n, 16) + (LsbBits(c, 16) + BytesBits(data)))
  {
    StoredFormed(data);
    hide BytesBits, LsbBits, EncodeBody, Formed, ExpandBlock, Narrow, Padding;
    StoredBody(data, n, c);
    FiveZeros();
    EightFront(LsbBits(n, 16) + (LsbBits(c, 16) + BytesBits(data)));
  }

  lemma StoredFormed(data: seq<byte>)
    requires |data| < 65536
    ensures var b := Stored(0, data); Formed(b, 0) && Narrow(b) && ExpandBlock(b, []) == data && Kind(b) == 0
  {
    hide Expand;
  }

  lemma StoredBody(data: seq<byte>, n: nat, c: nat)
    requires n == |data| && n + c == 65535 && Formed(Stored(0, data), 0)
    ensures EncodeBody(Stored(0, data), 3, 0) == LsbBits(0, 5) + (LsbBits(n, 16) + (LsbBits(c, 16) + BytesBits(data)))
  {
    hide BytesBits, LsbBits, Formed, EncodeTokens, EncodeHeader, Padding, FixedLitLengths, FixedDistLengths;
    FiveZeros();
    assert 65535 - |data| == c;
  }

  lemma EightFront(r: seq<bit>)
    ensures [1] + ([0, 0] + ([0, 0, 0, 0, 0] + r)) == [1, 0, 0, 0, 0, 0, 0, 0] + r
  {
  }

  lemma FiveZeros()
    ensures LsbBits(0, 2) == [0, 0] && LsbBits(0, 5) == [0, 0, 0, 0, 0] && Padding(3) == 5
  {
    assert LsbBits(0, 3) == [0, 0, 0];
  }
}
