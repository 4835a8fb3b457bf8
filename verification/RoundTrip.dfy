/** Decoding inverts encoding: every stored, fixed or dynamic block comes back. */
module RoundTrip {
  import opened Options
  import opened Bits
  import opened Huffman
  import opened Deflate
  import opened Decoding

  lemma MatchCode(ls: seq<nat>, s: nat, tail: seq<bit>)
    requires Accepted(ls) && s < |ls| && ls[s] >= 1
    ensures Match(ls, CodeBits(ls, s) + tail) == Some(s)
    ensures (CodeBits(ls, s) + tail)[ls[s]..] == tail
  {
    assert Starts(ls, s, CodeBits(ls, s) + tail);
    MatchIs(ls, s, CodeBits(ls, s) + tail);
  }

  lemma ReadBack(v: nat, n: nat, tail: seq<bit>)
    requires v < Pow2(n)
    ensures LsbVal((LsbBits(v, n) + tail)[..n]) == v
    ensures (LsbBits(v, n) + tail)[n..] == tail
  {
    assert (LsbBits(v, n) + tail)[..n] == LsbBits(v, n);
    LsbRoundTrip(v, n);
  }

  // ---- tokens ------------------------------------------------------------------

  lemma PairInverts(dl: seq<nat>, t: Token, tail: seq<bit>)
    requires t.Copy? && WellFormed(t) && Accepted(dl) && t.dsym < |dl| && dl[t.dsym] >= 1
    ensures ReadPair(dl, t.lsym, LsbBits(t.lextra, LEN_EXTRA[t.lsym]) +
              (CodeBits(dl, t.dsym) + (LsbBits(t.dextra, DIST_EXTRA[t.dsym]) + tail)))
         == Pair(Length(t), Distance(t), tail, false)
  {
    var r3: seq<bit> := LsbBits(t.dextra, DIST_EXTRA[t.dsym]) + tail;
    var r2 := CodeBits(dl, t.dsym) + r3;
    ReadBack(t.lextra, LEN_EXTRA[t.lsym], r2);
    MatchCode(dl, t.dsym, r3);
    ReadBack(t.dextra, DIST_EXTRA[t.dsym], tail);
  }

  lemma TokenSplit(ll: seq<nat>, dl: seq<nat>, t: Token, more: seq<bit>)
    requires Encodable(ll, dl, t) && t.Copy?
    ensures EncodeToken(ll, dl, t) + more
         == CodeBits(ll, 257 + t.lsym) + (LsbBits(t.lextra, LEN_EXTRA[t.lsym]) +
              (CodeBits(dl, t.dsym) + (LsbBits(t.dextra, DIST_EXTRA[t.dsym]) + more)))
  {
    var a, b: seq<bit> := CodeBits(ll, 257 + t.lsym), LsbBits(t.lextra, LEN_EXTRA[t.lsym]);
    var c, d: seq<bit> := CodeBits(dl, t.dsym), LsbBits(t.dextra, DIST_EXTRA[t.dsym]);
    assert (c + d) + more == c + (d + more);
    assert (b + (c + d)) + more == b + ((c + d) + more);
    assert (a + (b + (c + d))) + more == a + ((b + (c + d)) + more);
  }

  lemma TokenStep(ll: seq<nat>, dl: seq<nat>, t: Token, more: seq<bit>, out: seq<byte>, cap: nat)
    requires Accepted(ll) && Accepted(dl) && Encodable(ll, dl, t)
    requires Reaches(t, |out|) && |Append(t, out)| <= cap
    ensures DecodeBlock(ll, dl, EncodeToken(ll, dl, t) + more, out, cap)
         == DecodeBlock(ll, dl, more, Append(t, out), cap)
  {
    hide CodeBits, LsbBits, Accepted, ReadPair, CopyMatch, Pow2;
    if t.Literal? {
      MatchCode(ll, t.value, more);
    } else {
      TokenSplit(ll, dl, t, more);
      PairInverts(dl, t, more);
      MatchCode(ll, 257 + t.lsym, LsbBits(t.lextra, LEN_EXTRA[t.lsym]) +
        (CodeBits(dl, t.dsym) + (LsbBits(t.dextra, DIST_EXTRA[t.dsym]) + more)));
    }
  }

  lemma EndStep(ll: seq<nat>, dl: seq<nat>, tail: seq<bit>, out: seq<byte>, cap: nat)
    requires Accepted(ll) && END_OF_BLOCK < |ll| && ll[END_OF_BLOCK] >= 1 && |out| <= cap
    ensures DecodeBlock(ll, dl, CodeBits(ll, END_OF_BLOCK) + tail, out, cap) == Done(out, tail)
  {
    hide CodeBits;
    MatchCode(ll, END_OF_BLOCK, tail);
  }

  lemma EncodableAll(ll: seq<nat>, dl: seq<nat>, ts: seq<Token>)
    requires forall i :: 0 <= i < |ts| ==> Encodable(ll, dl, ts[i])
    ensures forall i :: 0 <= i < |ts| ==> WellFormed(ts[i])
  {
  }

  /** inflate_block gives back the expansion of the tokens and stops right after the block. */
  lemma {:induction false} BlockInvertsEncoding(
      ll: seq<nat>, dl: seq<nat>, ts: seq<Token>, tail: seq<bit>, out: seq<byte>, cap: nat)
    requires Accepted(ll) && Accepted(dl) && END_OF_BLOCK < |ll| && ll[END_OF_BLOCK] >= 1
    requires ValidTokens(ll, dl, ts, |out|) && |Expand(ts, out)| <= cap
    ensures DecodeBlock(ll, dl, EncodeTokens(ll, dl, ts) + tail, out, cap) == Done(Expand(ts, out), tail)
    decreases |ts|
  {
    hide EncodeToken, CodeBits, Encodable, Append, Reaches, Match, WellFormed, Size;
    if ts == [] {
      EndStep(ll, dl, tail, out, cap);
    } else {
      var t, more := ts[0], EncodeTokens(ll, dl, ts[1..]) + tail;
      EncodableAll(ll, dl, ts);
      assert WellFormed(t) && Encodable(ll, dl, t);
      assert EncodeTokens(ll, dl, ts) + tail == EncodeToken(ll, dl, t) + more;
      BlockInvertsEncoding(ll, dl, ts[1..], tail, Append(t, out), cap);
      TokenStep(ll, dl, t, more, out, cap);
    }
  }

  // ---- and only encodings decode ---------------------------------------------------

  lemma PairIsEncoded(dl: seq<nat>, i: nat, r1: seq<bit>) returns (t: Token)
    requires i < 29 && ReadPair(dl, i, r1).Pair? && !ReadPair(dl, i, r1).short
    ensures t.Copy? && WellFormed(t) && t.lsym == i && t.dsym < |dl| && dl[t.dsym] >= 1
    ensures Pair(Length(t), Distance(t), ReadPair(dl, i, r1).rest, false) == ReadPair(dl, i, r1)
    ensures r1 == LsbBits(t.lextra, LEN_EXTRA[i]) +
      (CodeBits(dl, t.dsym) + (LsbBits(t.dextra, DIST_EXTRA[t.dsym]) + ReadPair(dl, i, r1).rest))
  {
    hide LsbVal, LsbBits, CodeBits;
    var e := LEN_EXTRA[i];
    var r2 := r1[e..];
    var ds := Match(dl, r2).value;
    var r3 := r2[dl[ds]..];
    var x := DIST_EXTRA[ds];
    LsbBitsOfVal(r1[..e]);
    LsbBitsOfVal(r3[..x]);
    t := Copy(i, LsbVal(r1[..e]), ds, LsbVal(r3[..x]));
    assert r3 == r3[..x] + r3[x..];
    assert r2 == CodeBits(dl, ds) + r3;
  }

  lemma TokenIsEncoded(ll: seq<nat>, dl: seq<nat>, rest: seq<bit>, out: seq<byte>, cap: nat) returns (t: Token)
    requires |out| <= cap && DecodeToken(ll, dl, rest, out, cap).More?
    ensures Encodable(ll, dl, t) && Reaches(t, |out|)
    ensures rest == EncodeToken(ll, dl, t) + DecodeToken(ll, dl, rest, out, cap).rest
    ensures DecodeToken(ll, dl, rest, out, cap).out == Append(t, out)
  {
    hide ReadPair, CodeBits, LsbBits;
    var sym := Match(ll, rest).value;
    var r1 := rest[ll[sym]..];
    assert rest == CodeBits(ll, sym) + r1;
    if sym < 256 {
      t := Literal(sym);
    } else {
      t := PairIsEncoded(dl, sym - 257, r1);
      TokenSplit(ll, dl, t, DecodeToken(ll, dl, rest, out, cap).rest);
    }
  }

  /** Whatever inflate_block accepts is the encoding of some token list, and the output is that
      list's expansion: together with BlockInvertsEncoding, it accepts exactly the encodings. */
  lemma {:induction false} AcceptedBlockIsEncoding(
      ll: seq<nat>, dl: seq<nat>, rest: seq<bit>, out: seq<byte>, cap: nat) returns (ts: seq<Token>)
    requires |out| <= cap && END_OF_BLOCK < |ll| && ll[END_OF_BLOCK] >= 1
    requires DecodeBlock(ll, dl, rest, out, cap).Done?
    ensures ValidTokens(ll, dl, ts, |out|)
    ensures rest == EncodeTokens(ll, dl, ts) + DecodeBlock(ll, dl, rest, out, cap).rest
    ensures DecodeBlock(ll, dl, rest, out, cap).out == Expand(ts, out)
    decreases |rest|
  {
    hide DecodeToken, EncodeToken, CodeBits, Encodable, Append, Reaches, Match;
    var n := DecodeToken(ll, dl, rest, out, cap);
    if n.Stop? {
      ts := [];
      StopIsEndOfBlock(ll, dl, rest, out, cap);
    } else {
      var t := TokenIsEncoded(ll, dl, rest, out, cap);
      var more := AcceptedBlockIsEncoding(ll, dl, n.rest, n.out, cap);
      ts := [t] + more;
      ConsTokens(ll, dl, t, more, out, DecodeBlock(ll, dl, rest, out, cap).rest);
    }
  }

  lemma StopIsEndOfBlock(ll: seq<nat>, dl: seq<nat>, rest: seq<bit>, out: seq<byte>, cap: nat)
    requires |out| <= cap && END_OF_BLOCK < |ll| && ll[END_OF_BLOCK] >= 1
    requires DecodeToken(ll, dl, rest, out, cap).Stop? && DecodeToken(ll, dl, rest, out, cap).outcome.Done?
    ensures rest == CodeBits(ll, END_OF_BLOCK) + DecodeToken(ll, dl, rest, out, cap).outcome.rest
    ensures DecodeToken(ll, dl, rest, out, cap).outcome.out == out
  {
    hide CodeBits, ReadPair;
  }

  lemma ConsTokens(ll: seq<nat>, dl: seq<nat>, t: Token, more: seq<Token>, out: seq<byte>, tail: seq<bit>)
    requires END_OF_BLOCK < |ll| && ll[END_OF_BLOCK] >= 1 && Encodable(ll, dl, t) && Reaches(t, |out|)
    requires ValidTokens(ll, dl, more, |Append(t, out)|)
    ensures ValidTokens(ll, dl, [t] + more, |out|)
    ensures Expand([t] + more, out) == Expand(more, Append(t, out))
    ensures EncodeTokens(ll, dl, [t] + more) + tail == EncodeToken(ll, dl, t) + (EncodeTokens(ll, dl, more) + tail)
  {
    hide EncodeToken, CodeBits, Append, Reaches, Size;
    EncodableAll(ll, dl, [t] + more);
    assert ([t] + more)[1..] == more;
  }

  // ---- dynamic header ------------------------------------------------------------

  /** The place of symbol j in the sending order. */
  const CLC_PLACE: seq<nat> := [3, 17, 15, 13, 11, 9, 7, 5, 4, 6, 8, 10, 12, 14, 16, 18, 0, 1, 2]

  lemma ClcOrderIsPermutation()
    ensures forall j :: 0 <= j < 19 ==> CLC_PLACE[j] < 19 && CLC_ORDER[CLC_PLACE[j]] == j
    ensures forall i :: 0 <= i < 19 ==> CLC_ORDER[i] < 19 && CLC_PLACE[CLC_ORDER[i]] == i
  {
  }

  lemma {:induction false} ScatterAt(vals: seq<nat>, j: nat)
    requires |vals| <= 19 && j < 19
    ensures Scatter(vals)[j] == if CLC_PLACE[j] < |vals| then vals[CLC_PLACE[j]] else 0
  {
    ClcOrderIsPermutation();
    if vals != [] {
      ScatterAt(vals[..|vals| - 1], j);
    }
  }

  lemma {:induction false} TriplesInvert(clc: seq<nat>, n: nat, tail: seq<bit>)
    requires |clc| == 19 && n <= 19 && forall i :: 0 <= i < 19 ==> clc[i] < 8
    ensures forall i :: 0 <= i < n ==> ReadTriples(EncodeClc(clc, n) + tail, n)[i] == clc[CLC_ORDER[i]]
  {
    if n > 0 {
      var last: seq<bit> := LsbBits(clc[CLC_ORDER[n - 1]], 3);
      TriplesInvert(clc, n - 1, last + tail);
      var bs := EncodeClc(clc, n) + tail;
      assert bs == EncodeClc(clc, n - 1) + (last + tail);
      assert bs[3 * (n - 1)..3 * n] == last;
      assert Pow2(3) == 8;
      LsbRoundTrip(clc[CLC_ORDER[n - 1]], 3);
    }
  }

  lemma ClcInverts(h: Header, tail: seq<bit>)
    requires ClippedHeader(h)
    ensures Scatter(ReadTriples(EncodeClc(h.clc, h.hclen) + tail, h.hclen)) == h.clc
  {
    var vals := ReadTriples(EncodeClc(h.clc, h.hclen) + tail, h.hclen);
    TriplesInvert(h.clc, h.hclen, tail);
    ClcOrderIsPermutation();
    forall j | 0 <= j < 19
      ensures Scatter(vals)[j] == h.clc[j]
    {
      ScatterAt(vals, j);
    }
  }

  predicate ValidOps(clc: seq<nat>, ops: seq<LengthOp>)
    requires |clc| == 19
  {
    forall i :: 0 <= i < |ops| ==> WellFormedOp(ops[i]) && clc[OpSymbol(ops[i])] >= 1
  }

  lemma RepeatInverts(clc: seq<nat>, acc: seq<nat>, total: nat, base: nat, e: nat, n: nat, v: nat, more: seq<bit>)
    requires e >= 1 && 1 <= base <= n && n - base < Pow2(e) && |acc| + n <= total
    ensures Repeat(clc, LsbBits(n - base, e) + more, acc, total, base, e, v)
         == RunLengths(clc, more, acc + Fill(n, v), total)
  {
    ReadBack(n - base, e, more);
  }

  lemma OpStep(clc: seq<nat>, op: LengthOp, acc: seq<nat>, total: nat, more: seq<bit>)
    requires |clc| == 19 && Accepted(clc) && WellFormedOp(op) && clc[OpSymbol(op)] >= 1
    requires acc == [] ==> !op.RepeatLast?
    requires |ExpandOps([op], acc)| <= total
    ensures RunLengths(clc, EncodeOp(clc, op) + more, acc, total)
         == RunLengths(clc, more, ExpandOps([op], acc), total)
  {
    hide CodeBits, LsbBits, Repeat, Match;
    var code := CodeBits(clc, OpSymbol(op));
    var extra := EncodeOp(clc, op)[|code|..];
    assert EncodeOp(clc, op) + more == code + (extra + more);
    MatchCode(clc, OpSymbol(op), extra + more);
    assert Pow2(2) == 4 && Pow2(3) == 8 && Pow2(7) == 128;
    match op {
      case One(l) =>
        assert extra + more == more;
      case RepeatLast(n) =>
        RepeatInverts(clc, acc, total, 3, 2, n, acc[|acc| - 1], more);
      case Zeros(n) =>
        RepeatInverts(clc, acc, total, 3, 3, n, 0, more);
      case ManyZeros(n) =>
        RepeatInverts(clc, acc, total, 11, 7, n, 0, more);
    }
  }

  lemma ExpandOne(ops: seq<LengthOp>, acc: seq<nat>)
    requires ops != []
    ensures ExpandOps(ops, acc) == ExpandOps(ops[1..], ExpandOps([ops[0]], acc))
    ensures WellFormedOp(ops[0]) ==> |ExpandOps([ops[0]], acc)| > |acc|
  {
    assert [ops[0]][1..] == [];
  }

  /** The operations are read back, the last one cut where the lengths end. */
  lemma {:induction false} OpsInvert(clc: seq<nat>, ops: seq<LengthOp>, acc: seq<nat>, total: nat, ls: seq<nat>, tail: seq<bit>)
    requires |clc| == 19 && Accepted(clc) && ValidOps(clc, ops) && SpellsOut(ops, acc, total, ls)
    requires acc == [] ==> RepeatsSomething(ops)
    ensures RunLengths(clc, EncodeOps(clc, ops) + tail, acc, total) == Lengths(ls, tail, false)
    decreases |ops|
  {
    hide RunLengths, EncodeOp;
    if ops == [] {
      assert [] + tail == tail;
      RunDone(clc, tail, acc);
    } else {
      var more := EncodeOps(clc, ops[1..]) + tail;
      assert EncodeOps(clc, ops) + tail == EncodeOp(clc, ops[0]) + more;
      SpellStep(ops, acc, total, ls);
      ExpandOne(ops, acc);
      if |ops| == 1 {
        assert ops == [ops[0]];
        assert more == tail;
        LastOp(clc, ops[0], acc, total, tail);
      } else {
        OpStep(clc, ops[0], acc, total, more);
        OpsInvert(clc, ops[1..], ExpandOps([ops[0]], acc), total, ls, tail);
      }
    }
  }

  lemma RunDone(clc: seq<nat>, tail: seq<bit>, acc: seq<nat>)
    ensures RunLengths(clc, tail, acc, |acc|) == Lengths(acc, tail, false)
  {
  }

  lemma SpellStep(ops: seq<LengthOp>, acc: seq<nat>, total: nat, ls: seq<nat>)
    requires ops != [] && SpellsOut(ops, acc, total, ls)
    ensures |acc| < total
    ensures |ops| > 1 ==> |ExpandOps([ops[0]], acc)| < total && SpellsOut(ops[1..], ExpandOps([ops[0]], acc), total, ls)
  {
    ExpandOne(ops, acc);
    var p := ops[..|ops| - 1];
    if |ops| > 1 {
      ExpandOne(p, acc);
      assert p[1..] == ops[1..][..|ops| - 2];
    }
  }

  /** The last operation, whole or cut. */
  lemma LastOp(clc: seq<nat>, op: LengthOp, acc: seq<nat>, total: nat, tail: seq<bit>)
    requires |clc| == 19 && Accepted(clc) && WellFormedOp(op) && clc[OpSymbol(op)] >= 1
    requires (acc == [] ==> !op.RepeatLast?) && |acc| < total <= |ExpandOps([op], acc)|
    ensures RunLengths(clc, EncodeOp(clc, op) + tail, acc, total) == Lengths(ExpandOps([op], acc)[..total], tail, false)
  {
    hide CodeBits, LsbBits, Repeat, Match;
    var code := CodeBits(clc, OpSymbol(op));
    var extra := EncodeOp(clc, op)[|code|..];
    assert EncodeOp(clc, op) + tail == code + (extra + tail);
    MatchCode(clc, OpSymbol(op), extra + tail);
    assert [op][1..] == [];
    assert Pow2(2) == 4 && Pow2(3) == 8 && Pow2(7) == 128;
    match op {
      case One(l) =>
        assert extra + tail == tail;
        assert (acc + [l])[..total] == acc + [l];
      case RepeatLast(n) => RepeatCut(clc, acc, total, 3, 2, n, acc[|acc| - 1], tail);
      case Zeros(n) => RepeatCut(clc, acc, total, 3, 3, n, 0, tail);
      case ManyZeros(n) => RepeatCut(clc, acc, total, 11, 7, n, 0, tail);
    }
  }

  lemma RepeatCut(clc: seq<nat>, acc: seq<nat>, total: nat, base: nat, e: nat, n: nat, v: nat, tail: seq<bit>)
    requires e >= 1 && 1 <= base <= n && n - base < Pow2(e) && |acc| < total <= |acc| + n
    ensures Repeat(clc, LsbBits(n - base, e) + tail, acc, total, base, e, v) == Lengths((acc + Fill(n, v))[..total], tail, false)
  {
    ReadBack(n - base, e, tail);
    assert acc + Fill(total - |acc|, v) == (acc + Fill(n, v))[..total];
    RunDone(clc, tail, acc + Fill(total - |acc|, v));
  }

  lemma FourParts(a: seq<bit>, b: seq<bit>, c: seq<bit>, d: seq<bit>, tail: seq<bit>)
    ensures var bs := (a + (b + (c + d))) + tail;
      && bs[..|a|] == a && bs[|a|..|a| + |b|] == b
      && bs[|a| + |b|..|a| + |b| + |c|] == c && bs[|a| + |b| + |c|..] == d + tail
  {
  }

  lemma CountsBack(x: nat, y: nat, z: nat, d: seq<bit>, tail: seq<bit>)
    requires x < 32 && y < 32 && z < 16
    ensures var bs := (LsbBits(x, 5) + (LsbBits(y, 5) + (LsbBits(z, 4) + d))) + tail;
      && |bs| >= 14 && bs[14..] == d + tail
      && LsbVal(bs[..5]) == x && LsbVal(bs[5..10]) == y && LsbVal(bs[10..14]) == z
  {
    assert Pow2(5) == 32 && Pow2(4) == 16;
    LsbRoundTrip(x, 5);
    LsbRoundTrip(y, 5);
    LsbRoundTrip(z, 4);
    FourParts(LsbBits(x, 5), LsbBits(y, 5), LsbBits(z, 4), d, tail);
  }

  lemma ReadTablesStep(rest: seq<bit>, hlit: nat, hdist: nat, hclen: nat, clc: seq<nat>, ops: seq<bit>)
    requires |rest| >= 14 + 3 * hclen && hlit <= 286 && 4 <= hclen <= 19
    requires LsbVal(rest[..5]) + 257 == hlit && LsbVal(rest[5..10]) + 1 == hdist && LsbVal(rest[10..14]) + 4 == hclen
    requires Scatter(ReadTriples(rest[14..], hclen)) == clc && Accepted(clc)
    requires rest[14 + 3 * hclen..] == ops
    ensures ReadTables(rest)
         == if hdist <= MAX_DIST then SplitLengths(RunLengths(clc, ops, [], hlit + hdist), hlit) else NoTables
  {
    hide LsbVal, ReadTriples, Scatter, RunLengths, SplitLengths, Accepted;
  }

  lemma SplitBack(ll: seq<nat>, dl: seq<nat>, tail: seq<bit>)
    requires 257 <= |ll| && Accepted(ll) && Accepted(dl) && ll[END_OF_BLOCK] >= 1
    ensures SplitLengths(Lengths(ll + dl, tail, false), |ll|) == Tables(ll, dl, tail, false)
  {
    assert (ll + dl)[..|ll|] == ll && (ll + dl)[|ll|..] == dl;
  }

  lemma HeaderSplit(h: Header, tail: seq<bit>)
    requires ClippedHeader(h)
    ensures EncodeHeader(h) + tail == (LsbBits(|h.ll| - 257, 5) + (LsbBits(|h.dl| - 1, 5) + (LsbBits(h.hclen - 4, 4) +
              (EncodeClc(h.clc, h.hclen) + EncodeOps(h.clc, h.ops))))) + tail
    ensures (EncodeClc(h.clc, h.hclen) + EncodeOps(h.clc, h.ops)) + tail
         == EncodeClc(h.clc, h.hclen) + (EncodeOps(h.clc, h.ops) + tail)
  {
    hide LsbBits, EncodeClc, EncodeOps, ExpandOps, Accepted;
    var d, e := EncodeClc(h.clc, h.hclen), EncodeOps(h.clc, h.ops);
    assert (d + e) + tail == d + (e + tail);
  }

  lemma HeaderReads(h: Header, tail: seq<bit>)
    requires ClippedHeader(h)
    ensures ReadTables(EncodeHeader(h) + tail)
         == if |h.dl| <= MAX_DIST
            then SplitLengths(RunLengths(h.clc, EncodeOps(h.clc, h.ops) + tail, [], |h.ll| + |h.dl|), |h.ll|)
            else NoTables
  {
    hide EncodeHeader, EncodeClc, EncodeOps, SpellsOut, Scatter, ReadTriples, ReadTables, RunLengths, SplitLengths, LsbVal, LsbBits,
      Accepted;
    var bs, d, e := EncodeHeader(h) + tail, EncodeClc(h.clc, h.hclen), EncodeOps(h.clc, h.ops);
    HeaderSplit(h, tail);
    CountsBack(|h.ll| - 257, |h.dl| - 1, h.hclen - 4, d + e, tail);
    ClcInverts(h, e + tail);
    assert bs[14..] == d + (e + tail);
    assert bs[14 + 3 * h.hclen..] == bs[14..][3 * h.hclen..];
    ReadTablesStep(bs, |h.ll|, |h.dl|, h.hclen, h.clc, e + tail);
  }

  /** build_dynamic gives back the two length vectors of the header, or refuses it when it has more
      than MAX_DIST distance lengths. */
  lemma HeaderInverts(h: Header, tail: seq<bit>)
    requires ClippedHeader(h)
    ensures ReadTables(EncodeHeader(h) + tail) == if |h.dl| <= MAX_DIST then Tables(h.ll, h.dl, tail, false) else NoTables
  {
    hide EncodeHeader, EncodeClc, EncodeOps, ExpandOps, ReadTables, RunLengths, SplitLengths, Accepted, SpellsOut;
    HeaderReads(h, tail);
    OpsInvert(h.clc, h.ops, [], |h.ll| + |h.dl|, h.ll + h.dl, tail);
    SplitBack(h.ll, h.dl, tail);
  }

  // ---- the fixed code is a complete code -------------------------------------------

  lemma {:induction false} KraftRun(ls: seq<nat>, a: nat, b: nat, v: nat, p: nat)
    requires CodeLengths(ls) && a <= b <= |ls| && 1 <= v <= MAXBITS && p == Pow2(MAXBITS - v)
    requires forall i :: a <= i < b ==> ls[i] == v
    ensures Kraft(ls[..b]) == Kraft(ls[..a]) + (b - a) * p
    decreases b
  {
    hide Kraft, Pow2;
    if a < b {
      KraftRun(ls, a, b - 1, v, p);
      KraftSnoc(ls, b);
      OneMore(b - a, p);
    }
  }

  lemma KraftSnoc(ls: seq<nat>, b: nat)
    requires CodeLengths(ls) && 1 <= b <= |ls| && ls[b - 1] >= 1
    ensures Kraft(ls[..b]) == Kraft(ls[..b - 1]) + Pow2(MAXBITS - ls[b - 1])
  {
    assert ls[..b][..b - 1] == ls[..b - 1];
  }

  lemma OneMore(n: int, p: int)
    ensures n * p == (n - 1) * p + p
  {
  }

  lemma FixedCodesAccepted()
    ensures Accepted(FixedLitLengths()) && Accepted(FixedDistLengths())
    ensures Kraft(FixedLitLengths()) == Pow2(MAXBITS)
  {
    var ll, dl := FixedLitLengths(), FixedDistLengths();
    Powers();
    KraftRun(ll, 0, 144, 8, 128);
    KraftRun(ll, 144, 256, 9, 64);
    KraftRun(ll, 256, 280, 7, 256);
    KraftRun(ll, 280, 288, 8, 128);
    assert ll[..288] == ll;
    KraftRun(dl, 0, 30, 5, 1024);
    assert dl[..30] == dl;
    AcceptedIffKraft(ll);
    AcceptedIffKraft(dl);
  }

  lemma Powers()
    ensures Pow2(6) == 64 && Pow2(7) == 128 && Pow2(8) == 256 && Pow2(10) == 1024
    ensures Pow2(15) == 32768 && Pow2(16) == 65536
  {
    assert Pow2(10) == 1024;
    assert Pow2(16) == 2 * Pow2(15);
  }

  // ---- blocks ---------------------------------------------------------------------

  lemma HeldBits(pad: nat, j: nat, n: nat)
    requires pad < 8 && n == pad + 8 * j
    ensures n % 8 == pad
  {
  }

  lemma StoredInverts(padding: nat, pad: nat, data: seq<byte>, tail: seq<bit>, j: nat, out: seq<byte>, cap: nat)
    requires |data| < 65536 && |out| + |data| <= cap && pad < 8 && |tail| == 8 * j
    ensures DecodeStored((LsbBits(padding, pad) +
              (LsbBits(|data|, 16) + (LsbBits(65535 - |data|, 16) + BytesBits(data)))) + tail, out, cap)
         == Done(out + data, tail)
  {
    hide LsbBits, LsbVal, BytesBits, TakeBytes;
    var p, l, n, d: seq<bit> := LsbBits(padding, pad), LsbBits(|data|, 16), LsbBits(65535 - |data|, 16), BytesBits(data);
    var r: seq<bit> := (p + (l + (n + d))) + tail;
    HeldBits(pad, 4 + |data| + j, |r|);
    FourParts(p, l, n, d, tail);
    var a := r[pad..];
    assert a[..16] == l && a[16..32] == n && a[32..] == d + tail;
    Powers();
    LsbRoundTrip(|data|, 16);
    LsbRoundTrip(65535 - |data|, 16);
    TakeBytesOfBytesBits(data, tail);
    assert a[32 + 8 * |data|..] == tail;
  }

  lemma HeaderBitsBack(f: bit, kind: nat, body: seq<bit>, tail: seq<bit>)
    requires kind < 4
    ensures var bs := ([f] + (LsbBits(kind, 2) + body)) + tail;
      |bs| >= 3 && bs[0] == f && LsbVal(bs[1..3]) == kind && bs[3..] == body + tail
  {
    assert Pow2(2) == 4;
    LsbRoundTrip(kind, 2);
    var k: seq<bit> := LsbBits(kind, 2);
    var bs := ([f] + (k + body)) + tail;
    assert bs[1..3] == k;
  }

  lemma BlockHeader(b: Block, last: bool, before: nat, n: nat, tail: seq<bit>)
    requires Formed(b, n)
    ensures var bs := EncodeBlock(b, last, before, n) + tail;
      && |bs| >= 3 && bs[0] == (if last then 1 else 0) && LsbVal(bs[1..3]) == Kind(b)
      && bs[3..] == EncodeBody(b, before + 3, n) + tail
    ensures |EncodeBlock(b, last, before, n)| == 3 + |EncodeBody(b, before + 3, n)|
  {
    HeaderBitsBack(if last then 1 else 0, Kind(b), EncodeBody(b, before + 3, n), tail);
  }

  lemma FixedInverts(ts: seq<Token>, tail: seq<bit>, out: seq<byte>, cap: nat)
    requires ValidTokens(FixedLitLengths(), FixedDistLengths(), ts, |out|) && |Expand(ts, out)| <= cap
    ensures DecodeBlock(FixedLitLengths(), FixedDistLengths(),
              EncodeTokens(FixedLitLengths(), FixedDistLengths(), ts) + tail, out, cap)
         == Done(Expand(ts, out), tail)
  {
    FixedCodesAccepted();
    BlockInvertsEncoding(FixedLitLengths(), FixedDistLengths(), ts, tail, out, cap);
  }

  lemma DynamicInverts(h: Header, ts: seq<Token>, tail: seq<bit>, out: seq<byte>, cap: nat)
    requires ClippedHeader(h) && ValidTokens(h.ll, h.dl, ts, |out|) && |Expand(ts, out)| <= cap
    ensures DecodeOne(2, (EncodeHeader(h) + EncodeTokens(h.ll, h.dl, ts)) + tail, out, cap)
         == if |h.dl| <= MAX_DIST then Done(Expand(ts, out), tail) else Fail(-15)
  {
    var e := EncodeTokens(h.ll, h.dl, ts);
    assert (EncodeHeader(h) + e) + tail == EncodeHeader(h) + (e + tail);
    HeaderInverts(h, e + tail);
    BlockInvertsEncoding(h.ll, h.dl, ts, tail, out, cap);
  }

  /** `total` is the length of the whole stream in bytes. */
  lemma StoredBlockInverts(b: Block, before: nat, tail: seq<bit>, total: nat, out: seq<byte>, cap: nat)
    requires b.Stored? && Formed(b, |out|) && |out| + |b.data| <= cap
    requires before + |EncodeBody(b, before, |out|)| + |tail| == 8 * total
    ensures DecodeStored(EncodeBody(b, before, |out|) + tail, out, cap) == Done(out + b.data, tail)
  {
    hide DecodeStored, LsbBits, BytesBits;
    var j := total - (before + 7) / 8 - 4 - |b.data|;
    assert |tail| == 8 * j;
    StoredInverts(b.padding, Padding(before), b.data, tail, j, out, cap);
  }

  lemma OneBlockInverts(b: Block, before: nat, tail: seq<bit>, total: nat, out: seq<byte>, cap: nat)
    requires Formed(b, |out|) && |ExpandBlock(b, out)| <= cap
    requires before + |EncodeBody(b, before, |out|)| + |tail| == 8 * total
    ensures DecodeOne(Kind(b), EncodeBody(b, before, |out|) + tail, out, cap)
         == if Narrow(b) then Done(ExpandBlock(b, out), tail) else Fail(-15)
  {
    hide DecodeStored, DecodeBlock, EncodeTokens, EncodeHeader, LsbBits, BytesBits, Expand, Accepted, InWindow,
      ClippedHeader, ValidTokens, ReadTables;
    if b.Stored? {
      StoredBlockInverts(b, before, tail, total, out, cap);
    } else if b.Fixed? {
      FixedInverts(b.tokens, tail, out, cap);
    } else {
      DynamicInverts(b.header, b.tokens, tail, out, cap);
    }
  }

  lemma MoreBlocks(bs: seq<Block>, before: nat, out: seq<byte>)
    requires FormedBlocks(bs, out) && |bs| > 1
    ensures Formed(bs[0], |out|) && FormedBlocks(bs[1..], ExpandBlock(bs[0], out))
    ensures ExpandBlocks(bs, out) == ExpandBlocks(bs[1..], ExpandBlock(bs[0], out))
    ensures var e := EncodeBlock(bs[0], false, before, |out|);
      EncodeBlocks(bs, out, before) == e + EncodeBlocks(bs[1..], ExpandBlock(bs[0], out), before + |e|)
  {
  }

  lemma StreamStep(rest: seq<bit>, out: seq<byte>, cap: nat, kind: nat, o: Outcome)
    requires |out| <= cap && |rest| >= 3 && LsbVal(rest[1..3]) == kind
    requires o == DecodeOne(kind, rest[3..], out, cap)
    ensures DecodeStream(rest, out, cap) == if o.Fail? || rest[0] == 1 then o else DecodeStream(o.rest, o.out, cap)
  {
  }

  lemma FrontBlock(b: Block, last: bool, before: nat, more: seq<bit>, total: nat, out: seq<byte>, cap: nat)
    requires Formed(b, |out|) && |ExpandBlock(b, out)| <= cap
    requires before + |EncodeBlock(b, last, before, |out|)| + |more| == 8 * total
    ensures DecodeStream(EncodeBlock(b, last, before, |out|) + more, out, cap)
         == if !Narrow(b) then Fail(-15) else if last then Done(ExpandBlock(b, out), more) else DecodeStream(more, ExpandBlock(b, out), cap)
  {
    hide *;
    BlockHeader(b, last, before, |out|, more);
    OneBlockInverts(b, before + 3, more, total, out, cap);
    StreamStep(EncodeBlock(b, last, before, |out|) + more, out, cap, Kind(b),
               if Narrow(b) then Done(ExpandBlock(b, out), more) else Fail(-15));
  }

  lemma {:induction false} StreamInverts(
      bs: seq<Block>, before: nat, tail: seq<bit>, total: nat, out: seq<byte>, cap: nat)
    requires FormedBlocks(bs, out) && |ExpandBlocks(bs, out)| <= cap
    requires before + |EncodeBlocks(bs, out, before)| + |tail| == 8 * total
    ensures DecodeStream(EncodeBlocks(bs, out, before) + tail, out, cap)
         == if AllNarrow(bs) then Done(ExpandBlocks(bs, out), tail) else Fail(-15)
    decreases |bs|
  {
    hide Formed, ExpandBlock, EncodeBlock, DecodeStream, Narrow;
    NarrowFirst(bs);
    if |bs| == 1 {
      FrontBlock(bs[0], true, before, tail, total, out, cap);
    } else {
      MoreBlocks(bs, before, out);
      var o, e := ExpandBlock(bs[0], out), EncodeBlock(bs[0], false, before, |out|);
      var rest := EncodeBlocks(bs[1..], o, before + |e|);
      assert (e + rest) + tail == e + (rest + tail);
      FrontBlock(bs[0], false, before, rest + tail, total, out, cap);
      StreamInverts(bs[1..], before + |e|, tail, total, o, cap);
    }
  }

  lemma NarrowFirst(bs: seq<Block>)
    requires bs != []
    ensures AllNarrow(bs) <==> Narrow(bs[0]) && AllNarrow(bs[1..])
  {
    hide Narrow;
    assert bs == [bs[0]] + bs[1..];
  }

  /** For every block list, and whatever follows the encoding in the byte string, decoding the
      bytes yields exactly the LZ77 expansion if no header has more than MAX_DIST distance
      lengths; otherwise it fails with -15. */
  lemma InflateInvertsEncoding(bs: seq<Block>, src: seq<byte>, cap: nat)
    requires FormedBlocks(bs, []) && |ExpandBlocks(bs, [])| <= cap
    requires EncodeBlocks(bs, [], 0) <= BytesBits(src)
    ensures AllNarrow(bs) ==> DecodeStream(BytesBits(src), [], cap).Done?
    ensures AllNarrow(bs) ==> DecodeStream(BytesBits(src), [], cap).out == ExpandBlocks(bs, [])
    ensures !AllNarrow(bs) ==> DecodeStream(BytesBits(src), [], cap) == Fail(-15)
  {
    hide DecodeStream, BytesBits, FormedBlocks, ExpandBlocks, EncodeBlocks, AllNarrow;
    var e := EncodeBlocks(bs, [], 0);
    var tail := BytesBits(src)[|e|..];
    assert BytesBits(src) == e + tail;
    StreamInverts(bs, 0, tail, |src|, [], cap);
  }

  lemma InflateInvertsPacking(bs: seq<Block>, cap: nat)
    requires FormedBlocks(bs, []) && |ExpandBlocks(bs, [])| <= cap
    ensures AllNarrow(bs) ==> DecodeStream(BytesBits(Pack(EncodeBlocks(bs, [], 0))), [], cap).Done?
    ensures AllNarrow(bs) ==> DecodeStream(BytesBits(Pack(EncodeBlocks(bs, [], 0))), [], cap).out == ExpandBlocks(bs, [])
    ensures !AllNarrow(bs) ==> DecodeStream(BytesBits(Pack(EncodeBlocks(bs, [], 0))), [], cap) == Fail(-15)
  {
    PackKeepsBits(EncodeBlocks(bs, [], 0));
    InflateInvertsEncoding(bs, Pack(EncodeBlocks(bs, [], 0)), cap);
  }
}
