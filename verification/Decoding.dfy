/** What inflate_raw answers, as a function of the flat bit sequence it reads: the
    decoding result and the exact error codes of kernel/lib/inflate.c. Symbols are
    found by `Match`, the code that the stream begins with; no table is involved. */
module Decoding {
  import opened Options
  import opened Bits
  import opened Huffman
  import opened Deflate

  datatype Outcome = Done(out: seq<byte>, rest: seq<bit>) | Fail(code: int)

  /** A length/distance pair after its length symbol. `short` says that the stream ended
      inside the distance's extra bits, which the source notices only one symbol later. */
  datatype Pair = Pair(length: nat, dist: nat, rest: seq<bit>, short: bool) | NoPair

  lemma BasesOk(i: nat, ds: nat)
    requires i < 29 && ds < 30
    ensures LEN_BASE[i] >= 3 && DIST_BASE[ds] >= 1
  {
  }

  ghost function ReadPair(dl: seq<nat>, i: nat, r1: seq<bit>): (p: Pair)
    requires i < 29
    ensures p.Pair? ==> |p.rest| <= |r1| && p.dist >= 1 && p.length >= 3
  {
    var e := LEN_EXTRA[i];
    if |r1| < e then NoPair
    else
      var r2 := r1[e..];
      match Match(dl, r2)
      case None => NoPair
      case Some(ds) =>
        if ds >= 30 then NoPair
        else
          BasesOk(i, ds);
          var r3 := r2[dl[ds]..];
          var x := DIST_EXTRA[ds];
          var length := LEN_BASE[i] + LsbVal(r1[..e]);
          if |r3| < x then Pair(length, DIST_BASE[ds], r3, true)
          else Pair(length, DIST_BASE[ds] + LsbVal(r3[..x]), r3[x..], false)
  }

  datatype Next = Stop(outcome: Outcome) | More(rest: seq<bit>, out: seq<byte>)

  /** One symbol of a block, with its pair if it is a length. */
  ghost function DecodeToken(ll: seq<nat>, dl: seq<nat>, rest: seq<bit>, out: seq<byte>, cap: nat): (r: Next)
    requires |out| <= cap
    ensures r.Stop? && r.outcome.Done? ==> |r.outcome.rest| < |rest| && r.outcome.out == out
    ensures r.Stop? && r.outcome.Fail? ==> r.outcome.code < 0
    ensures r.More? ==> |r.rest| < |rest| && |out| < |r.out| <= cap
  {
    match Match(ll, rest)
    case None => Stop(Fail(-1))
    case Some(sym) =>
      var r1 := rest[ll[sym]..];
      if sym == END_OF_BLOCK then Stop(Done(out, r1))
      else if sym < 256 then
        if |out| >= cap then Stop(Fail(-2)) else More(r1, out + [sym])
      else if sym >= 286 then Stop(Fail(-3))
      else
        var p := ReadPair(dl, sym - 257, r1);
        if p.NoPair? then Stop(Fail(-4))
        else if p.dist > |out| then Stop(Fail(-5))
        else if |out| + p.length > cap then Stop(Fail(-6))
        else if p.short then Stop(Fail(-1))
        else More(p.rest, CopyMatch(out, p.dist, p.length))
  }

  ghost function DecodeBlock(ll: seq<nat>, dl: seq<nat>, rest: seq<bit>, out: seq<byte>, cap: nat): (r: Outcome)
    requires |out| <= cap
    ensures r.Done? ==> |r.rest| < |rest| && |out| <= |r.out| <= cap
    ensures r.Fail? ==> r.code < 0
    decreases |rest|
  {
    match DecodeToken(ll, dl, rest, out, cap)
    case Stop(o) => o
    case More(r, o) => DecodeBlock(ll, dl, r, o, cap)
  }

  // ---- dynamic header ----------------------------------------------------------

  /** The 3-bit code lengths at the front of the stream. */
  ghost function ReadTriples(rest: seq<bit>, n: nat): (vals: seq<nat>)
    requires 3 * n <= |rest|
    ensures |vals| == n && forall i :: 0 <= i < n ==> vals[i] < 8
  {
    assert Pow2(3) == 8;
    if n == 0 then [] else ReadTriples(rest, n - 1) + [LsbVal(rest[3 * (n - 1)..3 * n])]
  }

  /** Those lengths put where the sending order says, and 0 for the rest. */
  function Scatter(vals: seq<nat>): (clc: seq<nat>)
    requires |vals| <= 19
    ensures |clc| == 19
  {
    if vals == [] then Fill(19, 0)
    else Scatter(vals[..|vals| - 1])[CLC_ORDER[|vals| - 1] := vals[|vals| - 1]]
  }

  datatype Lengths = Lengths(ls: seq<nat>, rest: seq<bit>, short: bool) | NoLengths

  function Min(a: nat, b: nat): nat { if a <= b then a else b }

  /** A repeat code: `base` plus `e` extra bits copies of v, cut at the total. */
  ghost function Repeat(clc: seq<nat>, r1: seq<bit>, acc: seq<nat>, total: nat, base: nat, e: nat, v: nat): (r: Lengths)
    requires |acc| < total && base >= 1 && e >= 1
    decreases |r1|, 0
    ensures r.Lengths? ==> |r.ls| == total && |r.rest| <= |r1|
  {
    var short := |r1| < e;
    var rep := base + (if short then 0 else LsbVal(r1[..e]));
    var acc' := acc + Fill(Min(rep, total - |acc|), v);
    if !short then RunLengths(clc, r1[e..], acc', total)
    else if |acc'| < total then NoLengths
    else Lengths(acc', r1, true)
  }

  ghost function RunLengths(clc: seq<nat>, rest: seq<bit>, acc: seq<nat>, total: nat): (r: Lengths)
    requires |acc| <= total
    ensures r.Lengths? ==> |r.ls| == total && |r.rest| <= |rest|
    decreases |rest|, 1
  {
    if |acc| == total then Lengths(acc, rest, false)
    else match Match(clc, rest)
      case None => NoLengths
      case Some(sym) =>
        var r1 := rest[clc[sym]..];
        if sym < 16 then RunLengths(clc, r1, acc + [sym], total)
        else if sym == 16 then
          if acc == [] then NoLengths
          else Repeat(clc, r1, acc, total, 3, 2, acc[|acc| - 1])
        else if sym == 17 then Repeat(clc, r1, acc, total, 3, 3, 0)
        else Repeat(clc, r1, acc, total, 11, 7, 0)
  }

  datatype Tables = Tables(ll: seq<nat>, dl: seq<nat>, rest: seq<bit>, short: bool) | NoTables

  ghost function SplitLengths(l: Lengths, hlit: nat): (t: Tables)
    requires l.Lengths? ==> 257 <= hlit <= |l.ls|
    ensures t.Tables? ==> l.Lengths? && t.rest == l.rest && t.short == l.short && Accepted(t.ll) && Accepted(t.dl)
  {
    if l.NoLengths? || l.ls[END_OF_BLOCK] == 0 then NoTables
    else if !Accepted(l.ls[..hlit]) || !Accepted(l.ls[hlit..]) then NoTables
    else Tables(l.ls[..hlit], l.ls[hlit..], l.rest, l.short)
  }

  ghost function ReadTables(rest: seq<bit>): (t: Tables)
    ensures t.Tables? ==> |t.rest| <= |rest| && Accepted(t.ll) && Accepted(t.dl)
  {
    if |rest| < 14 then NoTables
    else
      var hlit, hdist, hclen := LsbVal(rest[..5]) + 257, LsbVal(rest[5..10]) + 1, LsbVal(rest[10..14]) + 4;
      assert Pow2(4) == 16;
      if hlit > 286 || hdist > 30 || |rest| < 14 + 3 * hclen then NoTables
      else
        var clc := Scatter(ReadTriples(rest[14..], hclen));
        if !Accepted(clc) then NoTables
        else SplitLengths(RunLengths(clc, rest[14 + 3 * hclen..], [], hlit + hdist), hlit)
  }

  // ---- blocks ------------------------------------------------------------------

  ghost function DecodeStored(r: seq<bit>, out: seq<byte>, cap: nat): (o: Outcome)
    requires |out| <= cap
    ensures o.Done? ==> |o.rest| <= |r| && |o.out| <= cap
    ensures o.Fail? ==> o.code < 0
  {
    var a := r[|r| % 8..];
    if |a| < 32 then Fail(-11)
    else
      var len, nlen := LsbVal(a[..16]), LsbVal(a[16..32]);
      if 65535 - len != nlen then Fail(-12)
      else if |a| < 32 + 8 * len then Fail(-13)
      else if |out| + len > cap then Fail(-14)
      else Done(out + TakeBytes(a[32..], len), a[32 + 8 * len..])
  }

  ghost function DecodeOne(kind: nat, r: seq<bit>, out: seq<byte>, cap: nat): (o: Outcome)
    requires |out| <= cap
    ensures o.Done? ==> |o.rest| <= |r| && |o.out| <= cap
    ensures o.Fail? ==> o.code < 0
  {
    if kind == 0 then DecodeStored(r, out, cap)
    else if kind == 1 then DecodeBlock(FixedLitLengths(), FixedDistLengths(), r, out, cap)
    else if kind == 2 then
      var t := ReadTables(r);
      if t.NoTables? then Fail(-15)
      else if t.short then Fail(-1)
      else DecodeBlock(t.ll, t.dl, t.rest, out, cap)
    else Fail(-16)
  }

  ghost function DecodeStream(rest: seq<bit>, out: seq<byte>, cap: nat): (o: Outcome)
    requires |out| <= cap
    ensures o.Done? ==> |o.out| <= cap
    ensures o.Fail? ==> o.code < 0
    decreases |rest|
  {
    if |rest| < 3 then Fail(-10)
    else
      var o := DecodeOne(LsbVal(rest[1..3]), rest[3..], out, cap);
      if o.Fail? || rest[0] == 1 then o
      else DecodeStream(o.rest, o.out, cap)
  }
}
