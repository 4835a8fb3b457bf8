/** What the decoder accepts: exactly the encodings of readable blocks. */
module Acceptance {
  import opened Bits
  import opened Huffman
  import opened Deflate
  import opened Decoding
  import opened RoundTrip

  // ---- code lengths -------------------------------------------------------------------------------

  /** An operation in front. */
  lemma ConsOp(clc: seq<nat>, op: LengthOp, ops: seq<LengthOp>, acc: seq<nat>, total: nat, ls: seq<nat>, tail: seq<bit>)
    requires |clc| == 19 && ValidOps(clc, ops) && WellFormedOp(op) && clc[OpSymbol(op)] >= 1
    requires |ExpandOps([op], acc)| <= total && SpellsOut(ops, ExpandOps([op], acc), total, ls)
    ensures ValidOps(clc, [op] + ops) && SpellsOut([op] + ops, acc, total, ls)
    ensures EncodeOps(clc, [op] + ops) + tail == EncodeOp(clc, op) + (EncodeOps(clc, ops) + tail)
  {
    hide EncodeOp;
    var all := [op] + ops;
    assert all[1..] == ops && [all[0]] == [op];
    ExpandOne(all, acc);
    ExpandOne([op], acc);
    if ops == [] {
      assert all[..0] == [];
    } else {
      var p := all[..|all| - 1];
      assert p[1..] == ops[..|ops| - 1] && [p[0]] == [op];
      ExpandOne(p, acc);
    }
  }

  lemma OneOp(clc: seq<nat>, op: LengthOp, acc: seq<nat>, total: nat, tail: seq<bit>)
    requires |clc| == 19 && WellFormedOp(op) && clc[OpSymbol(op)] >= 1 && |acc| < total <= |ExpandOps([op], acc)|
    ensures ValidOps(clc, [op]) && SpellsOut([op], acc, total, ExpandOps([op], acc)[..total])
    ensures EncodeOps(clc, [op]) + tail == EncodeOp(clc, op) + tail
  {
    hide EncodeOp;
    assert [op][..0] == [] && [op][1..] == [];
  }

  /** The operation that a symbol and its extra bits spell. */
  lemma OpRead(clc: seq<nat>, sym: nat, rest: seq<bit>, e: nat, base: nat) returns (op: LengthOp)
    requires |clc| == 19 && Starts(clc, sym, rest) && (sym, e, base) in {(16, 2, 3), (17, 3, 3), (18, 7, 11)}
    requires |rest[clc[sym]..]| >= e
    ensures var r1 := rest[clc[sym]..];
      && op == (if sym == 16 then RepeatLast(base + LsbVal(r1[..e])) else if sym == 17 then Zeros(base + LsbVal(r1[..e])) else ManyZeros(base + LsbVal(r1[..e])))
      && WellFormedOp(op) && OpSymbol(op) == sym && rest == EncodeOp(clc, op) + r1[e..]
  {
    hide LsbVal, LsbBits, CodeBits;
    var r1 := rest[clc[sym]..];
    var v := LsbVal(r1[..e]);
    assert Pow2(2) == 4 && Pow2(3) == 8 && Pow2(7) == 128;
    LsbBitsOfVal(r1[..e]);
    op := if sym == 16 then RepeatLast(base + v) else if sym == 17 then Zeros(base + v) else ManyZeros(base + v);
    assert r1 == r1[..e] + r1[e..];
    assert rest == CodeBits(clc, sym) + r1;
  }

  /** Whatever the run-length loop accepts is spelled by operations, only the last of which may be cut. */
  lemma {:induction false} RunIsOps(clc: seq<nat>, rest: seq<bit>, acc: seq<nat>, total: nat) returns (ops: seq<LengthOp>)
    requires |clc| == 19 && Accepted(clc) && |acc| <= total
    requires RunLengths(clc, rest, acc, total).Lengths? && !RunLengths(clc, rest, acc, total).short
    ensures var l := RunLengths(clc, rest, acc, total);
      && ValidOps(clc, ops) && SpellsOut(ops, acc, total, l.ls) && rest == EncodeOps(clc, ops) + l.rest
      && (acc == [] && total > 0 ==> RepeatsSomething(ops))
    decreases |rest|, 1
  {
    hide ExpandOps, EncodeOps, Repeat, CodeBits;
    if |acc| == total {
      ops := [];
      NoOps(clc, acc, rest);
    } else {
      var sym := Match(clc, rest).value;
      var r1 := rest[clc[sym]..];
      if sym < 16 {
        OneLength(clc, sym, rest, acc);
        var more := RunIsOps(clc, r1, acc + [sym], total);
        var l := RunLengths(clc, rest, acc, total);
        ConsOp(clc, One(sym), more, acc, total, l.ls, l.rest);
        ops := [One(sym)] + more;
      } else if sym == 16 {
        ops := RepeatIsOps(clc, rest, acc, total, 16, 3, 2, acc[|acc| - 1]);
      } else if sym == 17 {
        ops := RepeatIsOps(clc, rest, acc, total, 17, 3, 3, 0);
      } else {
        ops := RepeatIsOps(clc, rest, acc, total, 18, 11, 7, 0);
      }
    }
  }

  lemma NoOps(clc: seq<nat>, acc: seq<nat>, rest: seq<bit>)
    requires |clc| == 19
    ensures ValidOps(clc, []) && SpellsOut([], acc, |acc|, acc) && rest == EncodeOps(clc, []) + rest
  {
  }

  lemma OneLength(clc: seq<nat>, sym: nat, rest: seq<bit>, acc: seq<nat>)
    requires |clc| == 19 && sym < 16 && Starts(clc, sym, rest)
    ensures rest == EncodeOp(clc, One(sym)) + rest[clc[sym]..] && ExpandOps([One(sym)], acc) == acc + [sym]
  {
    hide CodeBits;
    assert [One(sym)][1..] == [];
  }

  lemma {:induction false} RepeatIsOps(clc: seq<nat>, rest: seq<bit>, acc: seq<nat>, total: nat, sym: nat, base: nat, e: nat, v: nat)
    returns (ops: seq<LengthOp>)
    requires |clc| == 19 && Accepted(clc) && |acc| < total && Starts(clc, sym, rest)
    requires (sym, e, base) in {(16, 2, 3), (17, 3, 3), (18, 7, 11)}
    requires if sym == 16 then acc != [] && v == acc[|acc| - 1] else v == 0
    requires var l := Repeat(clc, rest[clc[sym]..], acc, total, base, e, v); l.Lengths? && !l.short
    ensures var l := Repeat(clc, rest[clc[sym]..], acc, total, base, e, v);
      && ValidOps(clc, ops) && SpellsOut(ops, acc, total, l.ls) && rest == EncodeOps(clc, ops) + l.rest
      && (acc == [] ==> RepeatsSomething(ops))
    decreases |rest|, 0
  {
    hide ExpandOps, EncodeOps, EncodeOp, RunLengths, CodeBits, LsbVal, SpellsOut;
    var r1 := rest[clc[sym]..];
    var l := Repeat(clc, r1, acc, total, base, e, v);
    var op := OpRead(clc, sym, rest, e, base);
    var rep := base + LsbVal(r1[..e]);
    RunExpands(op, acc, rep, v);
    if |acc| + rep <= total {
      var more := RunIsOps(clc, r1[e..], acc + Fill(rep, v), total);
      ConsOp(clc, op, more, acc, total, l.ls, l.rest);
      ops := [op] + more;
    } else {
      CutFill(acc, rep, v, total);
      RunDone(clc, r1[e..], acc + Fill(total - |acc|, v));
      OneOp(clc, op, acc, total, l.rest);
      ops := [op];
    }
  }

  lemma CutFill(acc: seq<nat>, n: nat, v: nat, total: nat)
    requires |acc| <= total <= |acc| + n
    ensures (acc + Fill(n, v))[..total] == acc + Fill(total - |acc|, v)
  {
  }

  lemma RunExpands(op: LengthOp, acc: seq<nat>, n: nat, v: nat)
    requires op in {RepeatLast(n), Zeros(n), ManyZeros(n)} && v == if op.RepeatLast? && acc != [] then acc[|acc| - 1] else 0
    ensures ExpandOps([op], acc) == acc + Fill(n, v)
  {
    assert [op][1..] == [];
  }

  // ---- headers ------------------------------------------------------------------------------------

  lemma {:induction false} TriplesEncode(rest: seq<bit>, n: nat, clc: seq<nat>)
    requires n <= 19 && 3 * n <= |rest| && |clc| == 19
    requires forall i :: 0 <= i < n ==> clc[CLC_ORDER[i]] == ReadTriples(rest, n)[i]
    ensures EncodeClc(clc, n) == rest[..3 * n]
    decreases n
  {
    hide ReadTriples, LsbVal, LsbBits;
    if n > 0 {
      TriplesStep(rest, n);
      TriplesEncode(rest, n - 1, clc);
      var t := rest[3 * (n - 1)..3 * n];
      LsbBitsOfVal(t);
      assert rest[..3 * n] == rest[..3 * (n - 1)] + t;
    }
  }

  lemma TriplesStep(rest: seq<bit>, n: nat)
    requires n > 0 && 3 * n <= |rest|
    ensures forall i :: 0 <= i < n - 1 ==> ReadTriples(rest, n)[i] == ReadTriples(rest, n - 1)[i]
    ensures ReadTriples(rest, n)[n - 1] == LsbVal(rest[3 * (n - 1)..3 * n])
  {
    hide LsbVal;
  }

  lemma ScatterOrder(vals: seq<nat>, i: nat)
    requires |vals| <= 19 && i < 19
    ensures Scatter(vals)[CLC_ORDER[i]] == if i < |vals| then vals[i] else 0
  {
    ClcOrderIsPermutation();
    ScatterAt(vals, CLC_ORDER[i]);
  }

  lemma ClcForm(vals: seq<nat>)
    requires 4 <= |vals| <= 19 && forall i :: 0 <= i < |vals| ==> vals[i] < 8
    ensures forall j :: 0 <= j < 19 ==> Scatter(vals)[j] < 8
    ensures forall i :: 0 <= i < |vals| ==> Scatter(vals)[CLC_ORDER[i]] == vals[i]
    ensures forall i :: |vals| <= i < 19 ==> Scatter(vals)[CLC_ORDER[i]] == 0
  {
    hide Scatter;
    ClcOrderIsPermutation();
    forall j | 0 <= j < 19
      ensures Scatter(vals)[j] < 8
    {
      ScatterAt(vals, j);
    }
    forall i | 0 <= i < 19
      ensures Scatter(vals)[CLC_ORDER[i]] == if i < |vals| then vals[i] else 0
    {
      ScatterOrder(vals, i);
    }
  }

  lemma CountsEncode(rest: seq<bit>)
    requires |rest| >= 14
    ensures var x, y, z := LsbVal(rest[..5]), LsbVal(rest[5..10]), LsbVal(rest[10..14]);
      && x < 32 && y < 32 && z < 16
      && rest == LsbBits(x, 5) + (LsbBits(y, 5) + (LsbBits(z, 4) + rest[14..]))
  {
    hide LsbVal, LsbBits;
    assert Pow2(5) == 32 && Pow2(4) == 16;
    LsbBitsOfVal(rest[..5]);
    LsbBitsOfVal(rest[5..10]);
    LsbBitsOfVal(rest[10..14]);
    assert rest == rest[..5] + (rest[5..10] + (rest[10..14] + rest[14..]));
  }

  /** A header the decoder takes is in the format exactly when its last run does not overshoot. */
  lemma ClippedIsValid(h: Header)
    requires ClippedHeader(h)
    ensures ValidHeader(h) <==> !Overshoots(h)
  {
    hide HeaderForm, ExpandOps;
    var e := ExpandOps(h.ops, []);
    if |e| == |h.ll| + |h.dl| {
      assert e[..|e|] == e;
    }
  }

  /** And every header of the format is one the decoder takes. */
  lemma ValidIsClipped(h: Header)
    requires ValidHeader(h)
    ensures ClippedHeader(h) && !Overshoots(h)
  {
    hide Accepted;
    var e, n := ExpandOps(h.ops, []), |h.ops| - 1;
    assert e[..|e|] == e;
    assert h.ops == h.ops[..n] + [h.ops[n]];
    ExpandSnoc(h.ops[..n], h.ops[n], []);
    ExpandOne([h.ops[n]], ExpandOps(h.ops[..n], []));
  }

  lemma {:induction false} ExpandSnoc(ops: seq<LengthOp>, op: LengthOp, acc: seq<nat>)
    ensures ExpandOps(ops + [op], acc) == ExpandOps([op], ExpandOps(ops, acc))
    decreases |ops|
  {
    if ops == [] {
      assert ops + [op] == [op];
    } else {
      ExpandOne(ops, acc);
      ExpandOne(ops + [op], acc);
      assert (ops + [op])[1..] == ops[1..] + [op] && (ops + [op])[0] == ops[0];
      ExpandSnoc(ops[1..], op, ExpandOps([ops[0]], acc));
    }
  }

  /** Whatever build_dynamic accepts is the encoding of a header, whose last run may be cut. */
  lemma AcceptedHeaderIsEncoding(rest: seq<bit>) returns (h: Header)
    requires ReadTables(rest).Tables? && !ReadTables(rest).short
    ensures ClippedHeader(h) && |h.dl| <= MAX_DIST && h.ll == ReadTables(rest).ll && h.dl == ReadTables(rest).dl
    ensures rest == EncodeHeader(h) + ReadTables(rest).rest
    ensures ValidHeader(h) <==> !Overshoots(h)
  {
    hide LsbVal, LsbBits, ReadTriples, Scatter, RunLengths, Accepted, EncodeClc, EncodeOps, ExpandOps, SpellsOut;
    var hlit, hdist, hclen := LsbVal(rest[..5]) + 257, LsbVal(rest[5..10]) + 1, LsbVal(rest[10..14]) + 4;
    var vals := ReadTriples(rest[14..], hclen);
    var clc, bits := Scatter(vals), rest[14 + 3 * hclen..];
    var l := RunLengths(clc, bits, [], hlit + hdist);
    CountsEncode(rest);
    ClcForm(vals);
    TriplesEncode(rest[14..], hclen, clc);
    var ops := RunIsOps(clc, bits, [], hlit + hdist);
    h := Header(l.ls[..hlit], l.ls[hlit..], clc, hclen, ops);
    assert h.ll + h.dl == l.ls;
    assert rest[14..] == rest[14..][..3 * hclen] + bits;
    assert ValidOps(h.clc, h.ops);
    HeaderJoins(h, rest, l.rest);
    ClippedIsValid(h);
  }

  lemma HeaderJoins(h: Header, rest: seq<bit>, tail: seq<bit>)
    requires HeaderForm(h) && |rest| >= 14 && rest[14..] == EncodeClc(h.clc, h.hclen) + (EncodeOps(h.clc, h.ops) + tail)
    requires rest == LsbBits(|h.ll| - 257, 5) + (LsbBits(|h.dl| - 1, 5) + (LsbBits(h.hclen - 4, 4) + rest[14..]))
    ensures rest == EncodeHeader(h) + tail
  {
    hide LsbBits, EncodeClc, EncodeOps, ExpandOps, Accepted;
    var a, b, c: seq<bit> := LsbBits(|h.ll| - 257, 5), LsbBits(|h.dl| - 1, 5), LsbBits(h.hclen - 4, 4);
    var d, e := EncodeClc(h.clc, h.hclen), EncodeOps(h.clc, h.ops);
    assert d + (e + tail) == (d + e) + tail;
    assert a + (b + (c + ((d + e) + tail))) == (a + (b + (c + (d + e)))) + tail;
  }

  /** What a header's bits show of it. */
  lemma HeaderShows(h: Header, tail: seq<bit>)
    requires ClippedHeader(h)
    ensures var bs := EncodeHeader(h) + tail;
      && |bs| >= 14 + 3 * h.hclen && LsbVal(bs[10..14]) + 4 == h.hclen
      && LsbVal(bs[..5]) + 257 == |h.ll| && LsbVal(bs[5..10]) + 1 == |h.dl|
      && Scatter(ReadTriples(bs[14..], h.hclen)) == h.clc && bs[14 + 3 * h.hclen..] == EncodeOps(h.clc, h.ops) + tail
  {
    hide EncodeHeader, EncodeClc, EncodeOps, ExpandOps, LsbVal, LsbBits, Accepted, Scatter, ReadTriples;
    var bs, d, e := EncodeHeader(h) + tail, EncodeClc(h.clc, h.hclen), EncodeOps(h.clc, h.ops);
    HeaderSplit(h, tail);
    CountsBack(|h.ll| - 257, |h.dl| - 1, h.hclen - 4, d + e, tail);
    ClcInverts(h, e + tail);
    assert bs[14..] == d + (e + tail);
    assert bs[14 + 3 * h.hclen..] == bs[14..][3 * h.hclen..];
  }

  lemma OpUnique(clc: seq<nat>, p: LengthOp, q: LengthOp, s: seq<bit>, t: seq<bit>)
    requires |clc| == 19 && Accepted(clc) && WellFormedOp(p) && WellFormedOp(q)
    requires clc[OpSymbol(p)] >= 1 && clc[OpSymbol(q)] >= 1 && EncodeOp(clc, p) + s == EncodeOp(clc, q) + t
    ensures p == q && s == t
  {
    hide CodeBits, LsbBits, LsbVal, Accepted;
    var x, y := Extra(p), Extra(q);
    OpParts(clc, p, s);
    OpParts(clc, q, t);
    MatchCode(clc, OpSymbol(p), LsbBits(x.0, x.1) + s);
    MatchCode(clc, OpSymbol(q), LsbBits(y.0, y.1) + t);
    ReadBack(x.0, x.1, s);
    ReadBack(y.0, y.1, t);
  }

  /** An operation's extra bits: their value and number. */
  function Extra(op: LengthOp): (x: (nat, nat))
    requires WellFormedOp(op)
    ensures x.0 < Pow2(x.1)
  {
    assert Pow2(0) == 1 && Pow2(2) == 4 && Pow2(3) == 8 && Pow2(7) == 128;
    match op
    case One(_) => (0, 0)
    case RepeatLast(n) => (n - 3, 2)
    case Zeros(n) => (n - 3, 3)
    case ManyZeros(n) => (n - 11, 7)
  }

  lemma OpParts(clc: seq<nat>, op: LengthOp, tail: seq<bit>)
    requires |clc| == 19 && WellFormedOp(op) && clc[OpSymbol(op)] >= 1
    ensures EncodeOp(clc, op) + tail == CodeBits(clc, OpSymbol(op)) + (LsbBits(Extra(op).0, Extra(op).1) + tail)
  {
    hide CodeBits;
    var x := Extra(op);
    var c, e: seq<bit> := CodeBits(clc, OpSymbol(op)), LsbBits(x.0, x.1);
    assert EncodeOp(clc, op) == c + e;
    assert (c + e) + tail == c + (e + tail);
  }

  lemma {:induction false} OpsUnique(
      clc: seq<nat>, ps: seq<LengthOp>, qs: seq<LengthOp>, acc: seq<nat>, total: nat, ls: seq<nat>, ms: seq<nat>, s: seq<bit>, t: seq<bit>)
    requires |clc| == 19 && Accepted(clc) && ValidOps(clc, ps) && ValidOps(clc, qs)
    requires SpellsOut(ps, acc, total, ls) && SpellsOut(qs, acc, total, ms)
    requires EncodeOps(clc, ps) + s == EncodeOps(clc, qs) + t
    ensures ps == qs && s == t
    decreases |ps|
  {
    hide EncodeOp, ExpandOps, Accepted;
    assert EncodeOps(clc, []) + s == s && EncodeOps(clc, []) + t == t;
    if ps == [] || qs == [] {
      if ps != [] {
        SpellStep(ps, acc, total, ls);
      } else if qs != [] {
        SpellStep(qs, acc, total, ms);
      }
      EmptySpells(acc);
    } else {
      OpsSplit(clc, ps, s);
      OpsSplit(clc, qs, t);
      OpUnique(clc, ps[0], qs[0], EncodeOps(clc, ps[1..]) + s, EncodeOps(clc, qs[1..]) + t);
      SpellStep(ps, acc, total, ls);
      SpellStep(qs, acc, total, ms);
      assert ps == [ps[0]] + ps[1..] && qs == [qs[0]] + qs[1..];
      assert (|ps| == 1 ==> ps == [ps[0]]) && (|qs| == 1 ==> qs == [qs[0]]);
      if |ps| > 1 && |qs| > 1 {
        OpsUnique(clc, ps[1..], qs[1..], ExpandOps([ps[0]], acc), total, ls, ms, s, t);
      }
    }
  }

  lemma EmptySpells(acc: seq<nat>)
    ensures ExpandOps([], acc) == acc
  {
  }

  lemma OpsSplit(clc: seq<nat>, ops: seq<LengthOp>, tail: seq<bit>)
    requires |clc| == 19 && ValidOps(clc, ops) && ops != []
    ensures ValidOps(clc, ops[1..])
    ensures EncodeOps(clc, ops) + tail == EncodeOp(clc, ops[0]) + (EncodeOps(clc, ops[1..]) + tail)
  {
    hide EncodeOp;
  }

  /** A header is told by its bits. So bits that begin with the encoding of a header begin with a
      header of the format exactly when that one does not overshoot. */
  lemma HeaderUnique(g: Header, h: Header, s: seq<bit>, t: seq<bit>)
    requires ClippedHeader(g) && ClippedHeader(h) && EncodeHeader(g) + s == EncodeHeader(h) + t
    ensures g == h && s == t
  {
    hide EncodeHeader, EncodeOps, ExpandOps, Accepted, LsbVal, Scatter, ReadTriples;
    HeaderShows(g, s);
    HeaderShows(h, t);
    OpsUnique(g.clc, g.ops, h.ops, [], |g.ll| + |g.dl|, g.ll + g.dl, h.ll + h.dl, s, t);
    assert g.ll == (g.ll + g.dl)[..|g.ll|] && g.dl == (g.ll + g.dl)[|g.ll|..];
    assert h.ll == (h.ll + h.dl)[..|h.ll|] && h.dl == (h.ll + h.dl)[|h.ll|..];
  }

  lemma HeaderInFormat(rest: seq<bit>, h: Header)
    requires ClippedHeader(h) && EncodeHeader(h) <= rest
    ensures (exists g :: ValidHeader(g) && EncodeHeader(g) <= rest) <==> !Overshoots(h)
  {
    hide HeaderForm, EncodeHeader, ExpandOps, SpellsOut;
    ClippedIsValid(h);
    if g :| ValidHeader(g) && EncodeHeader(g) <= rest {
      ValidIsClipped(g);
      var a, b := EncodeHeader(g), EncodeHeader(h);
      HeaderUnique(g, h, rest[|a|..], rest[|b|..]);
    }
  }

  // ---- a header that overshoots -------------------------------------------------------------------

  lemma {:induction false} KraftTwo(ls: seq<nat>, a: nat, b: nat, n: nat)
    requires n <= |ls| && forall i :: 0 <= i < |ls| ==> ls[i] == if i == a || i == b then 1 else 0
    ensures Kraft(ls[..n]) <= (if a < n then Pow2(14) else 0) + (if b < n then Pow2(14) else 0)
    decreases n
  {
    hide Pow2;
    if n > 0 {
      KraftTwo(ls, a, b, n - 1);
      assert ls[..n][..n - 1] == ls[..n - 1];
    }
  }

  lemma TwoCodes(ls: seq<nat>, a: nat, b: nat)
    requires |ls| <= MAXSYMS && forall i :: 0 <= i < |ls| ==> ls[i] == if i == a || i == b then 1 else 0
    ensures Accepted(ls)
  {
    KraftTwo(ls, a, b, |ls|);
    assert ls[..|ls|] == ls;
    AcceptedIffKraft(ls);
  }

  const CUT_OPS := [ManyZeros(138), ManyZeros(118), One(1), ManyZeros(138)]

  /** One literal/length code, no distance code; the last run has 137 zeros too many. */
  const CUT_HEADER := Header(Fill(256, 0) + [1], [0], [0, 1] + Fill(16, 0) + [1], 18, CUT_OPS)

  lemma CutOps()
    ensures SpellsOut(CUT_OPS, [], 258, Fill(256, 0) + [1, 0]) && |ExpandOps(CUT_OPS, [])| == 395
  {
    hide ExpandOps;
    var o := CUT_OPS;
    ExpandFour(o[0], o[1], o[2], o[3]);
    RunExpands(o[0], [], 138, 0);
    RunExpands(o[1], Fill(138, 0), 118, 0);
    assert Fill(138, 0) + Fill(118, 0) == Fill(256, 0);
    OneExpands(1, Fill(256, 0));
    RunExpands(o[3], Fill(256, 0) + [1], 138, 0);
    assert o[..3] == [o[0], o[1], o[2]] && [] + Fill(138, 0) == Fill(138, 0);
    assert ((Fill(256, 0) + [1]) + Fill(138, 0))[..258] == Fill(256, 0) + [1, 0];
  }

  lemma OneExpands(l: nat, acc: seq<nat>)
    ensures ExpandOps([One(l)], acc) == acc + [l]
  {
    assert [One(l)][1..] == [];
  }

  lemma ExpandFour(a: LengthOp, b: LengthOp, c: LengthOp, d: LengthOp)
    ensures ExpandOps([a, b, c], []) == ExpandOps([c], ExpandOps([b], ExpandOps([a], [])))
    ensures ExpandOps([a, b, c, d], []) == ExpandOps([d], ExpandOps([a, b, c], []))
  {
    hide ExpandOps;
    assert [a, b] == [a] + [b] && [a, b, c] == [a, b] + [c] && [a, b, c, d] == [a, b, c] + [d];
    ExpandSnoc([a], b, []);
    ExpandSnoc([a, b], c, []);
    ExpandSnoc([a, b, c], d, []);
  }

  /** build_dynamic takes this header; the format has no header with these bits. */
  lemma CutHeaderAccepted(tail: seq<bit>)
    ensures ClippedHeader(CUT_HEADER) && Overshoots(CUT_HEADER)
    ensures ReadTables(EncodeHeader(CUT_HEADER) + tail) == Tables(CUT_HEADER.ll, CUT_HEADER.dl, tail, false)
    ensures !exists g :: ValidHeader(g) && EncodeHeader(g) <= EncodeHeader(CUT_HEADER) + tail
  {
    hide ExpandOps, Accepted, EncodeHeader, ReadTables;
    var h := CUT_HEADER;
    TwoCodes(h.ll, 256, 256);
    TwoCodes(h.dl, 1, 1);
    TwoCodes(h.clc, 1, 18);
    CutOps();
    assert h.ll + h.dl == Fill(256, 0) + [1, 0];
    HeaderInverts(h, tail);
    HeaderInFormat(EncodeHeader(h) + tail, h);
  }

  // ---- a header of the format that is refused -----------------------------------------------------

  /** The same code lengths with 31 distance lengths, spelled out exactly. */
  const WIDE_OPS := [ManyZeros(138), ManyZeros(118), One(1), ManyZeros(31)]
  const WIDE_HEADER := Header(Fill(256, 0) + [1], Fill(31, 0), [0, 1] + Fill(16, 0) + [1], 18, WIDE_OPS)

  lemma WideOps()
    ensures ExpandOps(WIDE_OPS, []) == Fill(256, 0) + [1] + Fill(31, 0)
  {
    hide ExpandOps;
    var o := WIDE_OPS;
    ExpandFour(o[0], o[1], o[2], o[3]);
    RunExpands(o[0], [], 138, 0);
    RunExpands(o[1], Fill(138, 0), 118, 0);
    assert [] + Fill(138, 0) == Fill(138, 0) && Fill(138, 0) + Fill(118, 0) == Fill(256, 0);
    OneExpands(1, Fill(256, 0));
    RunExpands(o[3], Fill(256, 0) + [1], 31, 0);
  }

  /** A header of section 3.2.7 that build_dynamic refuses, whatever follows. */
  lemma WideHeaderRefused(tail: seq<bit>)
    ensures ValidHeader(WIDE_HEADER) && ReadTables(EncodeHeader(WIDE_HEADER) + tail) == NoTables
  {
    hide ExpandOps, Accepted, EncodeHeader, ReadTables;
    var h := WIDE_HEADER;
    TwoCodes(h.ll, 256, 256);
    TwoCodes(h.dl, 31, 31);
    TwoCodes(h.clc, 1, 18);
    WideOps();
    ValidIsClipped(h);
    HeaderInverts(h, tail);
  }

  /** So a stream of the format, one empty block with this header, fails with -15. */
  lemma WideStreamRefused(cap: nat)
    ensures ValidBlocks([Dynamic(WIDE_HEADER, [])], [])
    ensures DecodeStream(BytesBits(Pack(EncodeBlocks([Dynamic(WIDE_HEADER, [])], [], 0))), [], cap) == Fail(-15)
  {
    hide ValidHeader, ClippedHeader, Overshoots, EncodeBlocks, Pack, BytesBits, DecodeStream;
    WideHeaderRefused([]);
    ValidIsClipped(WIDE_HEADER);
    var b := Dynamic(WIDE_HEADER, []);
    assert !Narrow([b][0]);
    InflateInvertsPacking([b], cap);
  }

  // ---- blocks -------------------------------------------------------------------------------------

  lemma {:induction false} BytesOfTaken(bs: seq<bit>, n: nat)
    requires |bs| >= 8 * n
    ensures |TakeBytes(bs, n)| == n && BytesBits(TakeBytes(bs, n)) == bs[..8 * n]
    decreases n
  {
    hide LsbVal, LsbBits;
    if n > 0 {
      BytesOfTaken(bs[8..], n - 1);
      LsbBitsOfVal(bs[..8]);
      assert bs[..8 * n] == bs[..8] + bs[8..][..8 * (n - 1)];
    }
  }

  lemma AtBoundary(before: nat, n: nat, total: nat)
    requires before + n == 8 * total
    ensures n % 8 == Padding(before) <= n
  {
    var k := (before + 7) / 8;
    HeldBits(Padding(before), total - k, n);
  }

  lemma StoredIsEncoded(r: seq<bit>, out: seq<byte>, cap: nat, before: nat, total: nat) returns (b: Block)
    requires |out| <= cap && DecodeStored(r, out, cap).Done? && before + |r| == 8 * total
    ensures b.Stored? && Formed(b, |out|) && Narrow(b) && DecodeStored(r, out, cap).out == ExpandBlock(b, out)
    ensures r == EncodeBody(b, before, |out|) + DecodeStored(r, out, cap).rest
  {
    hide LsbVal, LsbBits, BytesBits, TakeBytes;
    AtBoundary(before, |r|, total);
    var pad := Padding(before);
    var a := r[pad..];
    var len, rest := LsbVal(a[..16]), DecodeStored(r, out, cap).rest;
    Powers();
    LsbBitsOfVal(r[..pad]);
    LsbBitsOfVal(a[..16]);
    LsbBitsOfVal(a[16..32]);
    BytesOfTaken(a[32..], len);
    b := Stored(LsbVal(r[..pad]), TakeBytes(a[32..], len));
    StoredJoins(r, pad, len, rest);
  }

  lemma StoredJoins(r: seq<bit>, pad: nat, len: nat, rest: seq<bit>)
    requires pad <= |r| && |r[pad..]| >= 32 + 8 * len && rest == r[pad..][32 + 8 * len..]
    ensures var a := r[pad..]; r == (r[..pad] + (a[..16] + (a[16..32] + a[32..][..8 * len]))) + rest
  {
    var a := r[pad..];
    assert a == a[..16] + (a[16..32] + (a[32..][..8 * len] + rest));
    assert r == r[..pad] + a;
  }

  lemma DynamicIsEncoded(r: seq<bit>, out: seq<byte>, cap: nat, before: nat) returns (b: Block)
    requires |out| <= cap && DecodeOne(2, r, out, cap).Done?
    ensures b.Dynamic? && Formed(b, |out|) && Narrow(b) && DecodeOne(2, r, out, cap).out == ExpandBlock(b, out)
    ensures r == EncodeBody(b, before, |out|) + DecodeOne(2, r, out, cap).rest
  {
    hide ReadTables, DecodeBlock, EncodeHeader, EncodeTokens, HeaderForm, SpellsOut, Expand, InWindow;
    var t := ReadTables(r);
    var h := AcceptedHeaderIsEncoding(r);
    EndCoded(h);
    var ts := AcceptedBlockIsEncoding(h.ll, h.dl, t.rest, out, cap);
    b := Dynamic(h, ts);
    var o := DecodeOne(2, r, out, cap);
    assert EncodeHeader(h) + (EncodeTokens(h.ll, h.dl, ts) + o.rest) == (EncodeHeader(h) + EncodeTokens(h.ll, h.dl, ts)) + o.rest;
  }

  lemma EndCoded(h: Header)
    requires HeaderForm(h)
    ensures END_OF_BLOCK < |h.ll| && h.ll[END_OF_BLOCK] >= 1
  {
  }

  lemma BodyIsEncoded(kind: nat, r: seq<bit>, out: seq<byte>, cap: nat, before: nat, total: nat) returns (b: Block)
    requires |out| <= cap && DecodeOne(kind, r, out, cap).Done? && before + |r| == 8 * total
    ensures Kind(b) == kind && Formed(b, |out|) && Narrow(b) && DecodeOne(kind, r, out, cap).out == ExpandBlock(b, out)
    ensures r == EncodeBody(b, before, |out|) + DecodeOne(kind, r, out, cap).rest
  {
    hide DecodeStored, DecodeBlock, ReadTables, Formed, EncodeBody, ExpandBlock;
    if kind == 0 {
      b := StoredIsEncoded(r, out, cap, before, total);
    } else if kind == 1 {
      b := FixedIsEncoded(r, out, cap, before);
    } else {
      b := DynamicIsEncoded(r, out, cap, before);
    }
  }

  lemma FixedIsEncoded(r: seq<bit>, out: seq<byte>, cap: nat, before: nat) returns (b: Block)
    requires |out| <= cap && DecodeBlock(FixedLitLengths(), FixedDistLengths(), r, out, cap).Done?
    ensures var o := DecodeBlock(FixedLitLengths(), FixedDistLengths(), r, out, cap);
      b.Fixed? && Formed(b, |out|) && Narrow(b) && o.out == ExpandBlock(b, out) && r == EncodeBody(b, before, |out|) + o.rest
  {
    hide DecodeBlock, EncodeTokens, Expand, InWindow;
    assert FixedLitLengths()[END_OF_BLOCK] == 7;
    var ts := AcceptedBlockIsEncoding(FixedLitLengths(), FixedDistLengths(), r, out, cap);
    b := Fixed(ts);
  }

  // ---- streams ------------------------------------------------------------------------------------

  lemma BlockJoins(bits: seq<bit>, b: Block, before: nat, n: nat, rest: seq<bit>)
    requires |bits| >= 3 && Formed(b, n) && LsbVal(bits[1..3]) == Kind(b) && bits[3..] == EncodeBody(b, before + 3, n) + rest
    ensures bits == EncodeBlock(b, bits[0] == 1, before, n) + rest
  {
    hide LsbVal, LsbBits, Formed, EncodeBody;
    LsbBitsOfVal(bits[1..3]);
    assert bits == [bits[0]] + (bits[1..3] + bits[3..]);
    var e := EncodeBody(b, before + 3, n);
    assert [bits[0]] + (bits[1..3] + (e + rest)) == ([bits[0]] + (bits[1..3] + e)) + rest;
  }

  lemma OneBlock(b: Block, before: nat, out: seq<byte>)
    requires Formed(b, |out|)
    ensures FormedBlocks([b], out) && ExpandBlocks([b], out) == ExpandBlock(b, out) && (Narrow(b) ==> AllNarrow([b]))
    ensures EncodeBlocks([b], out, before) == EncodeBlock(b, true, before, |out|)
  {
    hide Formed, ExpandBlock, EncodeBlock;
  }

  lemma ConsBlock(b: Block, bs: seq<Block>, before: nat, out: seq<byte>)
    requires Formed(b, |out|) && FormedBlocks(bs, ExpandBlock(b, out))
    ensures Narrow(b) && AllNarrow(bs) ==> AllNarrow([b] + bs)
    ensures FormedBlocks([b] + bs, out) && ExpandBlocks([b] + bs, out) == ExpandBlocks(bs, ExpandBlock(b, out))
    ensures var e := EncodeBlock(b, false, before, |out|);
      EncodeBlocks([b] + bs, out, before) == e + EncodeBlocks(bs, ExpandBlock(b, out), before + |e|)
  {
    hide Formed, ExpandBlock, EncodeBlock;
    assert ([b] + bs)[1..] == bs;
  }

  /** Whatever inflate_raw accepts from a byte boundary on is the encoding of readable blocks. */
  lemma {:induction false} StreamIsEncoded(bits: seq<bit>, before: nat, total: nat, out: seq<byte>, cap: nat) returns (bs: seq<Block>)
    requires |out| <= cap && DecodeStream(bits, out, cap).Done? && before + |bits| == 8 * total
    ensures ReadableBlocks(bs, out) && DecodeStream(bits, out, cap).out == ExpandBlocks(bs, out)
    ensures bits == EncodeBlocks(bs, out, before) + DecodeStream(bits, out, cap).rest
    decreases |bits|
  {
    hide DecodeOne, Formed, ExpandBlock, EncodeBlock, EncodeBody, LsbVal, FormedBlocks, AllNarrow, Narrow, EncodeBlocks, ExpandBlocks;
    var kind := LsbVal(bits[1..3]);
    var o := DecodeOne(kind, bits[3..], out, cap);
    var b := BodyIsEncoded(kind, bits[3..], out, cap, before + 3, total);
    BlockJoins(bits, b, before, |out|, o.rest);
    if bits[0] == 1 {
      bs := [b];
      OneBlock(b, before, out);
    } else {
      var e := EncodeBlock(b, false, before, |out|);
      var more := StreamIsEncoded(o.rest, before + |e|, total, o.out, cap);
      bs := [b] + more;
      ConsBlock(b, more, before, out);
      var m, rest := EncodeBlocks(more, o.out, before + |e|), DecodeStream(bits, out, cap).rest;
      assert e + (m + rest) == (e + m) + rest;
    }
  }

  /** inflate_raw accepts exactly the byte strings that begin with the encoding of readable blocks
      whose expansion fits, and gives that expansion. */
  lemma AcceptsExactly(src: seq<byte>, cap: nat)
    ensures DecodeStream(BytesBits(src), [], cap).Done? <==>
      exists bs :: ReadableBlocks(bs, []) && EncodeBlocks(bs, [], 0) <= BytesBits(src) && |ExpandBlocks(bs, [])| <= cap
  {
    hide DecodeStream, BytesBits, EncodeBlocks, ExpandBlocks, FormedBlocks, AllNarrow;
    if DecodeStream(BytesBits(src), [], cap).Done? {
      var bs := StreamIsEncoded(BytesBits(src), 0, |src|, [], cap);
    }
    if bs :| ReadableBlocks(bs, []) && EncodeBlocks(bs, [], 0) <= BytesBits(src) && |ExpandBlocks(bs, [])| <= cap {
      InflateInvertsEncoding(bs, src, cap);
    }
  }
}
