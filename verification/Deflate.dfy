/** The DEFLATE format (RFC 1951, sections 3.2.3 to 3.2.7) seen from the encoder's
    side: tokens, blocks, their bit encoding and the bytes they stand for. */
module Deflate {
  import opened Bits
  import opened Huffman

  const LEN_BASE: seq<nat> :=
    [3, 4, 5, 6, 7, 8, 9, 10, 11, 13, 15, 17, 19, 23, 27, 31, 35, 43, 51, 59,
     67, 83, 99, 115, 131, 163, 195, 227, 258]
  const LEN_EXTRA: seq<nat> :=
    [0, 0, 0, 0, 0, 0, 0, 0, 1, 1, 1, 1, 2, 2, 2, 2, 3, 3, 3, 3, 4, 4, 4, 4, 5, 5, 5, 5, 0]
  const DIST_BASE: seq<nat> :=
    [1, 2, 3, 4, 5, 7, 9, 13, 17, 25, 33, 49, 65, 97, 129, 193, 257, 385, 513, 769,
     1025, 1537, 2049, 3073, 4097, 6145, 8193, 12289, 16385, 24577]
  const DIST_EXTRA: seq<nat> :=
    [0, 0, 0, 0, 1, 1, 2, 2, 3, 3, 4, 4, 5, 5, 6, 6, 7, 7, 8, 8, 9, 9, 10, 10, 11, 11, 12, 12, 13, 13]
  const CLC_ORDER: seq<nat> := [16, 17, 18, 0, 8, 7, 9, 6, 10, 5, 11, 4, 12, 3, 13, 2, 14, 1, 15]

  const END_OF_BLOCK: nat := 256

  // ---- tokens ----------------------------------------------------------------

  /** A literal byte, or a back-reference by its length and distance symbols and
      their extra bits. */
  datatype Token =
    | Literal(value: byte)
    | Copy(lsym: nat, lextra: nat, dsym: nat, dextra: nat)

  predicate WellFormed(t: Token) {
    t.Copy? ==>
      && t.lsym < 29 && t.lextra < Pow2(LEN_EXTRA[t.lsym])
      && t.dsym < 30 && t.dextra < Pow2(DIST_EXTRA[t.dsym])
  }

  function Length(t: Token): nat
    requires t.Copy? && t.lsym < 29
  {
    LEN_BASE[t.lsym] + t.lextra
  }

  function Distance(t: Token): nat
    requires t.Copy? && t.dsym < 30
  {
    DIST_BASE[t.dsym] + t.dextra
  }

  /** n bytes copied one at a time from d behind the end of `out`; d may be less than n. */
  function CopyMatch(out: seq<byte>, d: nat, n: nat): (r: seq<byte>)
    requires 1 <= d <= |out|
    ensures |r| == |out| + n
  {
    if n == 0 then out
    else
      var p := CopyMatch(out, d, n - 1);
      p + [p[|p| - d]]
  }

  /** The copy keeps what was there and goes on with period d. */
  lemma {:induction false} CopyMatchIsPeriodic(out: seq<byte>, d: nat, n: nat)
    requires 1 <= d <= |out|
    ensures out <= CopyMatch(out, d, n)
    ensures forall k :: |out| <= k < |out| + n ==> CopyMatch(out, d, n)[k] == CopyMatch(out, d, n)[k - d]
  {
    if n > 0 {
      CopyMatchIsPeriodic(out, d, n - 1);
    }
  }

  /** How many bytes a token stands for. */
  function Size(t: Token): nat
    requires WellFormed(t)
  {
    if t.Literal? then 1 else Length(t)
  }

  /** The token refers to nothing before the start of an output of n bytes. */
  predicate Reaches(t: Token, n: nat)
    requires WellFormed(t)
  {
    t.Copy? ==> Distance(t) <= n
  }

  function Append(t: Token, out: seq<byte>): (r: seq<byte>)
    requires WellFormed(t) && Reaches(t, |out|)
    ensures |r| == |out| + Size(t)
  {
    if t.Literal? then out + [t.value] else CopyMatch(out, Distance(t), Length(t))
  }

  /** No token refers before the start of the output, which holds n bytes so far. */
  predicate InWindow(ts: seq<Token>, n: nat)
    requires forall i :: 0 <= i < |ts| ==> WellFormed(ts[i])
    decreases |ts|
  {
    ts == [] ||
    (assert WellFormed(ts[0]);
     Reaches(ts[0], n) && InWindow(ts[1..], n + Size(ts[0])))
  }

  /** The bytes a token list appends to `out`. */
  function Expand(ts: seq<Token>, out: seq<byte>): (r: seq<byte>)
    requires forall i :: 0 <= i < |ts| ==> WellFormed(ts[i])
    requires InWindow(ts, |out|)
    ensures |r| >= |out|
    decreases |ts|
  {
    hide WellFormed, Size, Reaches, Append;
    if ts == [] then out
    else
      assert WellFormed(ts[0]);
      Expand(ts[1..], Append(ts[0], out))
  }

  // ---- every length and distance has a token ---------------------------------

  /** The symbol for a base/extra table: the last entry whose base does not exceed v. */
  function SymbolFor(base: seq<nat>, v: nat, n: nat): (s: nat)
    requires 1 <= n <= |base| && base[0] <= v
    ensures s < n && base[s] <= v && (s + 1 < n ==> v < base[s + 1])
  {
    if n == 1 || base[n - 1] <= v then n - 1 else SymbolFor(base, v, n - 1)
  }

  lemma LengthExtraFits(length: nat, s: nat)
    requires 3 <= length <= 258 && s < 29 && LEN_BASE[s] <= length && (s + 1 < 29 ==> length < LEN_BASE[s + 1])
    ensures length - LEN_BASE[s] < Pow2(LEN_EXTRA[s])
  {
    assert Pow2(1) == 2 && Pow2(2) == 4 && Pow2(3) == 8 && Pow2(4) == 16 && Pow2(5) == 32;
  }

  lemma DistanceExtraFits(distance: nat, s: nat)
    requires distance <= 32768 && s < 30 && DIST_BASE[s] <= distance && (s + 1 < 30 ==> distance < DIST_BASE[s + 1])
    ensures distance - DIST_BASE[s] < Pow2(DIST_EXTRA[s])
  {
    assert Pow2(1) == 2 && Pow2(2) == 4 && Pow2(3) == 8 && Pow2(4) == 16 && Pow2(5) == 32;
    assert Pow2(6) == 64 && Pow2(7) == 128 && Pow2(8) == 256 && Pow2(9) == 512 && Pow2(10) == 1024;
    assert Pow2(11) == 2048 && Pow2(12) == 4096 && Pow2(13) == 8192;
  }

  function CopyToken(length: nat, distance: nat): (t: Token)
    requires 3 <= length <= 258 && 1 <= distance <= 32768
    ensures t.Copy? && WellFormed(t) && Length(t) == length && Distance(t) == distance
  {
    var ls := SymbolFor(LEN_BASE, length, 29);
    var ds := SymbolFor(DIST_BASE, distance, 30);
    LengthExtraFits(length, ls);
    DistanceExtraFits(distance, ds);
    Copy(ls, length - LEN_BASE[ls], ds, distance - DIST_BASE[ds])
  }

  // ---- encoding --------------------------------------------------------------

  /** The code lengths ll and dl give every symbol of the token a code. */
  predicate Encodable(ll: seq<nat>, dl: seq<nat>, t: Token) {
    && WellFormed(t)
    && match t
       case Literal(b) => b < |ll| && ll[b] >= 1
       case Copy(ls, _, ds, _) =>
         && 257 + ls < |ll| && ll[257 + ls] >= 1
         && ds < |dl| && dl[ds] >= 1
  }

  function EncodeToken(ll: seq<nat>, dl: seq<nat>, t: Token): (bs: seq<bit>)
    requires Encodable(ll, dl, t)
  {
    match t
    case Literal(b) => CodeBits(ll, b)
    case Copy(ls, le, ds, de) =>
      CodeBits(ll, 257 + ls) + (LsbBits(le, LEN_EXTRA[ls]) +
        (CodeBits(dl, ds) + LsbBits(de, DIST_EXTRA[ds])))
  }

  function EncodeTokens(ll: seq<nat>, dl: seq<nat>, ts: seq<Token>): (bs: seq<bit>)
    requires forall i :: 0 <= i < |ts| ==> Encodable(ll, dl, ts[i])
    requires END_OF_BLOCK < |ll| && ll[END_OF_BLOCK] >= 1
  {
    if ts == [] then CodeBits(ll, END_OF_BLOCK)
    else EncodeToken(ll, dl, ts[0]) + EncodeTokens(ll, dl, ts[1..])
  }

  // ---- the dynamic block header (section 3.2.7) --------------------------------

  datatype LengthOp =
    | One(length: nat)         // symbols 0..15
    | RepeatLast(times: nat)   // symbol 16: 3..6 times
    | Zeros(times: nat)        // symbol 17: 3..10 times
    | ManyZeros(times: nat)    // symbol 18: 11..138 times

  function OpSymbol(op: LengthOp): (s: nat)
    requires op.One? ==> op.length < 16
    ensures s < 19
  {
    match op
    case One(l) => l
    case RepeatLast(_) => 16
    case Zeros(_) => 17
    case ManyZeros(_) => 18
  }

  predicate WellFormedOp(op: LengthOp) {
    match op
    case One(l) => l < 16
    case RepeatLast(n) => 3 <= n <= 6
    case Zeros(n) => 3 <= n <= 10
    case ManyZeros(n) => 11 <= n <= 138
  }

  function Fill(n: nat, v: nat): (s: seq<nat>)
    ensures |s| == n
  {
    seq(n, _ => v)
  }

  /** The code lengths a list of operations spells out after those in `acc`. */
  function ExpandOps(ops: seq<LengthOp>, acc: seq<nat>): (ls: seq<nat>)
    ensures |ls| >= |acc|
    decreases |ops|
  {
    if ops == [] then acc
    else match ops[0]
      case One(l) => ExpandOps(ops[1..], acc + [l])
      case RepeatLast(n) => ExpandOps(ops[1..], acc + Fill(n, if acc == [] then 0 else acc[|acc| - 1]))
      case Zeros(n) => ExpandOps(ops[1..], acc + Fill(n, 0))
      case ManyZeros(n) => ExpandOps(ops[1..], acc + Fill(n, 0))
  }

  function EncodeOp(clc: seq<nat>, op: LengthOp): (bs: seq<bit>)
    requires WellFormedOp(op) && |clc| == 19 && clc[OpSymbol(op)] >= 1
  {
    CodeBits(clc, OpSymbol(op)) +
    match op
    case One(_) => []
    case RepeatLast(n) => LsbBits(n - 3, 2)
    case Zeros(n) => LsbBits(n - 3, 3)
    case ManyZeros(n) => LsbBits(n - 11, 7)
  }

  function EncodeOps(clc: seq<nat>, ops: seq<LengthOp>): (bs: seq<bit>)
    requires |clc| == 19
    requires forall i :: 0 <= i < |ops| ==> WellFormedOp(ops[i]) && clc[OpSymbol(ops[i])] >= 1
  {
    if ops == [] then [] else EncodeOp(clc, ops[0]) + EncodeOps(clc, ops[1..])
  }

  /** The first n code lengths of the code length code, in the order they are sent. */
  function EncodeClc(clc: seq<nat>, n: nat): (bs: seq<bit>)
    requires |clc| == 19 && n <= 19
    ensures |bs| == 3 * n
  {
    if n == 0 then [] else EncodeClc(clc, n - 1) + LsbBits(clc[CLC_ORDER[n - 1]], 3)
  }

  datatype Header = Header(ll: seq<nat>, dl: seq<nat>, clc: seq<nat>, hclen: nat, ops: seq<LengthOp>)

  /** Everything a header needs apart from its operations spelling out its lengths. HDIST stands for
      1 to 32 distance code lengths. */
  ghost predicate HeaderForm(h: Header) {
    && 257 <= |h.ll| <= 286 && 1 <= |h.dl| <= 32
    && Accepted(h.ll) && Accepted(h.dl) && h.ll[END_OF_BLOCK] >= 1
    && |h.clc| == 19 && Accepted(h.clc) && (forall i :: 0 <= i < 19 ==> h.clc[i] < 8)
    && 4 <= h.hclen <= 19 && (forall i :: h.hclen <= i < 19 ==> h.clc[CLC_ORDER[i]] == 0)
    && (forall i :: 0 <= i < |h.ops| ==> WellFormedOp(h.ops[i]) && h.clc[OpSymbol(h.ops[i])] >= 1)
    && RepeatsSomething(h.ops)
  }

  /** A header of section 3.2.7. */
  ghost predicate ValidHeader(h: Header) {
    HeaderForm(h) && ExpandOps(h.ops, []) == h.ll + h.dl
  }

  /** The operations reach `total` lengths with the last one, and spell ls up to there. */
  predicate SpellsOut(ops: seq<LengthOp>, acc: seq<nat>, total: nat, ls: seq<nat>) {
    && |acc| <= |ls| == total <= |ExpandOps(ops, acc)| && ExpandOps(ops, acc)[..total] == ls
    && (ops != [] ==> |ExpandOps(ops[..|ops| - 1], acc)| < total)
  }

  /** A header of the format, or one whose last run goes past the last length and is cut there. */
  ghost predicate ClippedHeader(h: Header) {
    HeaderForm(h) && SpellsOut(h.ops, [], |h.ll| + |h.dl|, h.ll + h.dl)
  }

  predicate Overshoots(h: Header) { |ExpandOps(h.ops, [])| > |h.ll| + |h.dl| }

  predicate RepeatsSomething(ops: seq<LengthOp>) {
    ops != [] && !ops[0].RepeatLast?
  }

  function EncodeHeader(h: Header): (bs: seq<bit>)
    requires HeaderForm(h)
  {
    LsbBits(|h.ll| - 257, 5) + (LsbBits(|h.dl| - 1, 5) + (LsbBits(h.hclen - 4, 4) +
      (EncodeClc(h.clc, h.hclen) + EncodeOps(h.clc, h.ops))))
  }

  // ---- blocks ------------------------------------------------------------------

  /** The code lengths of section 3.2.6. */
  function FixedLitLengths(): (ls: seq<nat>)
    ensures |ls| == 288
  {
    seq(288, i => if i < 144 then 8 else if i < 256 then 9 else if i < 280 then 7 else 8)
  }

  function FixedDistLengths(): (ls: seq<nat>)
    ensures |ls| == 30
  {
    seq(30, _ => 5)
  }

  datatype Block =
    | Stored(padding: nat, data: seq<byte>)
    | Fixed(tokens: seq<Token>)
    | Dynamic(header: Header, tokens: seq<Token>)

  /** A block of the format, except that the last run of a header may overshoot and that length
      symbol 284 may stand for 258. */
  ghost predicate Formed(b: Block, n: nat) {
    match b
    case Stored(_, data) => |data| < 65536
    case Fixed(ts) => ValidTokens(FixedLitLengths(), FixedDistLengths(), ts, n)
    case Dynamic(h, ts) => ClippedHeader(h) && ValidTokens(h.ll, h.dl, ts, n)
  }

  /** The most distance code lengths build_dynamic takes. */
  const MAX_DIST: nat := 30

  predicate Narrow(b: Block) { b.Dynamic? ==> |b.header.dl| <= MAX_DIST }

  /** The table of section 3.2.5 ends length symbol 284 at 257; 258 has a symbol of its own. */
  predicate InTable(t: Token) { t.Copy? ==> !(t.lsym == 27 && t.lextra == 31) }

  predicate InFormat(b: Block) {
    match b
    case Stored(_, _) => true
    case Fixed(ts) => forall i :: 0 <= i < |ts| ==> InTable(ts[i])
    case Dynamic(h, ts) => !Overshoots(h) && forall i :: 0 <= i < |ts| ==> InTable(ts[i])
  }

  ghost predicate ValidTokens(ll: seq<nat>, dl: seq<nat>, ts: seq<Token>, n: nat) {
    && (forall i :: 0 <= i < |ts| ==> Encodable(ll, dl, ts[i]))
    && InWindow(ts, n)
  }

  ghost function ExpandBlock(b: Block, out: seq<byte>): (r: seq<byte>)
    requires Formed(b, |out|)
    ensures |r| >= |out|
  {
    match b
    case Stored(_, data) => out + data
    case Fixed(ts) => Expand(ts, out)
    case Dynamic(_, ts) => Expand(ts, out)
  }

  /** BTYPE. */
  function Kind(b: Block): nat {
    match b
    case Stored(_, _) => 0
    case Fixed(_) => 1
    case Dynamic(_, _) => 2
  }

  /** A block after its three header bits. `before` is the number of bits in the stream so far,
      header bits included: the contents of a stored block start at a byte boundary. */
  ghost function EncodeBody(b: Block, before: nat, n: nat): (bs: seq<bit>)
    requires Formed(b, n)
  {
    match b
    case Stored(padding, data) =>
      LsbBits(padding, Padding(before)) +
        (LsbBits(|data|, 16) + (LsbBits(65535 - |data|, 16) + BytesBits(data)))
    case Fixed(ts) => EncodeTokens(FixedLitLengths(), FixedDistLengths(), ts)
    case Dynamic(h, ts) => EncodeHeader(h) + EncodeTokens(h.ll, h.dl, ts)
  }

  ghost function EncodeBlock(b: Block, last: bool, before: nat, n: nat): (bs: seq<bit>)
    requires Formed(b, n)
  {
    [if last then 1 else 0] + (LsbBits(Kind(b), 2) + EncodeBody(b, before + 3, n))
  }

  /** How many bits are missing to the next byte boundary. */
  function Padding(at: nat): (p: nat)
    ensures p < 8 && at + p == 8 * ((at + 7) / 8)
  {
    8 * ((at + 7) / 8) - at
  }

  ghost predicate FormedBlocks(bs: seq<Block>, out: seq<byte>)
    decreases |bs|
  {
    && bs != []
    && Formed(bs[0], |out|)
    && (|bs| > 1 ==> FormedBlocks(bs[1..], ExpandBlock(bs[0], out)))
  }

  predicate AllNarrow(bs: seq<Block>) { forall i :: 0 <= i < |bs| ==> Narrow(bs[i]) }

  /** A stream the decoder takes. */
  ghost predicate ReadableBlocks(bs: seq<Block>, out: seq<byte>) {
    FormedBlocks(bs, out) && AllNarrow(bs)
  }

  /** A stream of the format. */
  ghost predicate ValidBlocks(bs: seq<Block>, out: seq<byte>) {
    FormedBlocks(bs, out) && forall i :: 0 <= i < |bs| ==> InFormat(bs[i])
  }

  ghost function ExpandBlocks(bs: seq<Block>, out: seq<byte>): (r: seq<byte>)
    requires FormedBlocks(bs, out)
    ensures |r| >= |out|
    decreases |bs|
  {
    if |bs| == 1 then ExpandBlock(bs[0], out)
    else ExpandBlocks(bs[1..], ExpandBlock(bs[0], out))
  }

  ghost function EncodeBlocks(bs: seq<Block>, out: seq<byte>, before: nat): (r: seq<bit>)
    requires FormedBlocks(bs, out)
    decreases |bs|
  {
    if |bs| == 1 then EncodeBlock(bs[0], true, before, |out|)
    else
      EncodeBlock(bs[0], false, before, |out|) +
      EncodeBlocks(bs[1..], ExpandBlock(bs[0], out), before + |EncodeBlock(bs[0], false, before, |out|)|)
  }
}
