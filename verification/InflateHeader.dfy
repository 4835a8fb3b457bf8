/** build_fixed and build_dynamic of kernel/lib/inflate.c. */
module InflateHeader {
  import opened Bits
  import opened BitReader
  import opened Huffman
  import opened HuffmanTable
  import opened Deflate
  import opened Decoding
  import RoundTrip

  method BuildFixed() returns (lh: Huff, dh: Huff)
    ensures IsTable(lh, FixedLitLengths()) && IsTable(dh, FixedDistLengths())
  {
    var ll := new nat[288](_ => 8);
    for i := 144 to 256
      invariant forall k :: 0 <= k < 288 ==> ll[k] == if 144 <= k < i then 9 else 8
    {
      ll[i] := 9;
    }
    for i := 256 to 280
      invariant forall k :: 0 <= k < 288 ==> ll[k] == if 144 <= k < 256 then 9 else if 256 <= k < i then 7 else 8
    {
      ll[i] := 7;
    }
    var dl := new nat[30](_ => 5);
    assert ll[..] == FixedLitLengths() && dl[..] == FixedDistLengths();
    RoundTrip.FixedCodesAccepted();
    var left;
    left, lh := HuffBuild(ll[..]);
    left, dh := HuffBuild(dl[..]);
  }

  /** HLIT, HDIST and HCLEN. */
  method ReadCounts(b: Reader) returns (hlit: nat, hdist: nat, hclen: nat)
    requires b.Valid() && !b.err
    modifies b
    ensures b.Valid() && 257 <= hlit && 1 <= hdist && 4 <= hclen <= 19
    ensures b.err <==> |old(b.Rest())| < 14
    ensures !b.err ==>
      && hlit == LsbVal(old(b.Rest())[..5]) + 257
      && hdist == LsbVal(old(b.Rest())[5..10]) + 1
      && hclen == LsbVal(old(b.Rest())[10..14]) + 4
      && b.Rest() == old(b.Rest())[14..]
  {
    ghost var rest := b.Rest();
    assert Pow2(4) == 16;
    hide LsbVal;
    var v := b.Bits(5);
    hlit := v + 257;
    v := b.Bits(5);
    hdist := v + 1;
    v := b.Bits(4);
    hclen := v + 4;
    if |rest| >= 14 {
      assert rest[5..][..5] == rest[5..10] && rest[5..][5..] == rest[10..];
      assert rest[10..][..4] == rest[10..14] && rest[10..][4..] == rest[14..];
    }
  }

  lemma NextTriple(rest: seq<bit>, i: nat)
    requires 3 * (i + 1) <= |rest|
    ensures rest[3 * i..][..3] == rest[3 * i..3 * (i + 1)]
    ensures rest[3 * i..][3..] == rest[3 * (i + 1)..]
    ensures LsbVal(rest[3 * i..][..3]) < 8
    ensures i < 19 ==> Scatter(ReadTriples(rest, i + 1)) == Scatter(ReadTriples(rest, i))[CLC_ORDER[i] := LsbVal(rest[3 * i..][..3])]
  {
    assert Pow2(3) == 8;
    assert rest[3 * i..][..3] == rest[3 * i..3 * (i + 1)];
    hide LsbVal;
    assert ReadTriples(rest, i + 1) == ReadTriples(rest, i) + [LsbVal(rest[3 * i..3 * (i + 1)])];
    assert ReadTriples(rest, i + 1)[..i] == ReadTriples(rest, i);
  }

  lemma SmallLengths(ls: seq<nat>)
    requires |ls| == 19 && forall k :: 0 <= k < 19 ==> ls[k] < 8
    ensures CodeLengths(ls)
  {
  }

  lemma OrderOk(i: nat)
    requires i < 19
    ensures CLC_ORDER[i] < 19
  {
  }

  lemma NoTriples(rest: seq<bit>)
    ensures Scatter(ReadTriples(rest, 0)) == Fill(19, 0)
  {
  }

  /** The code length code's own lengths; zeros once the stream has ended. */
  method ReadClcLengths(b: Reader, hclen: nat) returns (clc: seq<nat>)
    requires b.Valid() && hclen <= 19
    modifies b
    ensures b.Valid() && |clc| == 19 && CodeLengths(clc)
    ensures old(b.err) ==> b.err
    ensures !old(b.err) ==> (b.err <==> |old(b.Rest())| < 3 * hclen)
    ensures !b.err ==> clc == Scatter(ReadTriples(old(b.Rest()), hclen)) && b.Rest() == old(b.Rest())[3 * hclen..]
  {
    hide LsbVal, Scatter, ReadTriples, CodeLengths;
    ghost var rest := b.Rest();
    var lens := new nat[19](_ => 0);
    NoTriples(rest);
    assert Pow2(3) == 8;
    hide Pow2;
    assert lens[..] == Fill(19, 0);
    for i := 0 to hclen
      invariant b.Valid() && forall k :: 0 <= k < 19 ==> lens[k] < 8
      invariant old(b.err) ==> b.err
      invariant !old(b.err) ==> (b.err <==> |rest| < 3 * i)
      invariant !b.err ==> b.Rest() == rest[3 * i..] && lens[..] == Scatter(ReadTriples(rest, i))
    {
      ghost var before := lens[..];
      if !b.err && |rest| >= 3 * (i + 1) {
        NextTriple(rest, i);
      }
      OrderOk(i);
      var v := b.Bits(3);
      lens[CLC_ORDER[i]] := v;
      assert lens[..] == before[CLC_ORDER[i] := v];
    }
    clc := lens[..];
    SmallLengths(clc);
  }

  /** while (rep-- && n < total) lengths[n++] = v; */
  method FillRun(lengths: array<nat>, from: nat, rep: nat, total: nat, v: nat) returns (n: nat)
    requires from <= total <= lengths.Length
    modifies lengths
    ensures n == from + Min(rep, total - from)
    ensures lengths[..n] == old(lengths[..from]) + Fill(n - from, v)
  {
    n := from;
    while n - from < rep && n < total
      invariant from <= n <= total && n - from <= rep
      invariant lengths[..n] == old(lengths[..from]) + Fill(n - from, v)
    {
      lengths[n] := v;
      n := n + 1;
      assert lengths[..n] == lengths[..n - 1] + [v];
    }
  }

  ghost predicate ReadSoFar(goal: Lengths, b: Reader, clc: seq<nat>, acc: seq<nat>, total: nat)
    requires b.Valid() && |acc| <= total
    reads b
  {
    if !b.err then RunLengths(clc, b.Rest(), acc, total) == goal
    else if |acc| < total then goal == NoLengths
    else goal == Lengths(acc, b.Rest(), true)
  }

  /** A repeat code with its extra bits. */
  method RepeatRun(b: Reader, ghost clc: seq<nat>, lengths: array<nat>, from: nat, total: nat,
                   base: nat, e: nat, v: nat) returns (n: nat)
    requires b.Valid() && !b.err && from < total <= lengths.Length && base >= 1 && 1 <= e <= 7
    modifies b, lengths
    ensures b.Valid() && from <= n <= total
    ensures lengths[..n] == old(lengths[..from]) + Fill(n - from, v)
    ensures ReadSoFar(Repeat(clc, old(b.Rest()), old(lengths[..from]), total, base, e, v), b, clc, lengths[..n], total)
    ensures n > from && (!b.err ==> |b.Rest()| <= |old(b.Rest())|)
  {
    hide LsbVal, RunLengths, Fill;
    var x := b.Bits(e);
    n := FillRun(lengths, from, base + x, total, v);
  }

  lemma FillBounded(acc: seq<nat>, n: nat, v: nat)
    requires v <= MAXBITS && forall k :: 0 <= k < |acc| ==> acc[k] <= MAXBITS
    ensures forall k :: 0 <= k < |acc + Fill(n, v)| ==> (acc + Fill(n, v))[k] <= MAXBITS
  {
  }

  /** One turn of the loop over the code lengths. */
  method LengthStep(b: Reader, h: Huff, ghost clc: seq<nat>, lengths: array<nat>, from: nat, total: nat)
      returns (ok: bool, n: nat)
    requires b.Valid() && from < total <= lengths.Length
    requires |clc| == 19 && Accepted(clc) && IsTable(h, clc)
    requires forall k :: 0 <= k < from ==> lengths[..from][k] <= MAXBITS
    modifies b, lengths
    ensures b.Valid() && from <= n <= total && (ok ==> n > from)
    ensures old(b.err) ==> !ok
    ensures forall k :: 0 <= k < n ==> lengths[..n][k] <= MAXBITS
    ensures !old(b.err) && !ok ==> RunLengths(clc, old(b.Rest()), old(lengths[..from]), total) == NoLengths
    ensures ok ==> ReadSoFar(RunLengths(clc, old(b.Rest()), old(lengths[..from]), total), b, clc, lengths[..n], total)
    ensures ok && !b.err ==> |b.Rest()| < |old(b.Rest())|
  {
    hide Accepted, IsTable, ReadSoFar, Repeat;
    ghost var acc := lengths[..from];
    n := from;
    var sym := HuffDecode(b, h, clc);
    if b.err || sym < 0 {
      return false, n;
    }
    if sym < 16 {
      lengths[n] := sym;
      n := n + 1;
      assert lengths[..n] == acc + [sym];
      RunStep(clc, b, acc + [sym], total);
      return true, n;
    } else if sym == 16 {
      if n == 0 {
        return false, n;
      }
      assert lengths[n - 1] == acc[n - 1];
      FillBounded(acc, total, lengths[n - 1]);
      n := RepeatRun(b, clc, lengths, n, total, 3, 2, lengths[n - 1]);
    } else if sym == 17 {
      n := RepeatRun(b, clc, lengths, n, total, 3, 3, 0);
    } else {
      n := RepeatRun(b, clc, lengths, n, total, 11, 7, 0);
    }
    ok := true;
  }

  lemma RunStep(clc: seq<nat>, b: Reader, acc: seq<nat>, total: nat)
    requires b.Valid() && !b.err && |acc| <= total
    ensures ReadSoFar(RunLengths(clc, b.Rest(), acc, total), b, clc, acc, total)
  {
  }

  /** The loop over the code lengths. */
  method ReadLengths(b: Reader, h: Huff, ghost clc: seq<nat>, total: nat) returns (ok: bool, ls: seq<nat>)
    requires b.Valid() && 1 <= total <= 318
    requires |clc| == 19 && Accepted(clc) && IsTable(h, clc)
    modifies b
    ensures b.Valid()
    ensures old(b.err) ==> !ok
    ensures ok ==> |ls| == total && forall k :: 0 <= k < total ==> ls[k] <= MAXBITS
    ensures !old(b.err) ==> match RunLengths(clc, old(b.Rest()), [], total) {
      case NoLengths => !ok
      case Lengths(l, rest, short) => ok && ls == l && b.Rest() == rest && b.err == short
    }
  {
    hide Accepted, IsTable, Match, Repeat, Fill;
    ghost var goal := if b.err then NoLengths else RunLengths(clc, b.Rest(), [], total);
    var lengths := new nat[318](_ => 0);
    var n := 0;
    ok := true;
    while ok && n < total
      invariant b.Valid() && 0 <= n <= total
      invariant forall k :: 0 <= k < n ==> lengths[..n][k] <= MAXBITS
      invariant ok ==> ReadSoFar(goal, b, clc, lengths[..n], total)
      invariant !ok ==> goal == NoLengths
      invariant old(b.err) ==> !ok || (n == 0 && b.err)
      decreases ok, total - n
    {
      ok, n := LengthStep(b, h, clc, lengths, n, total);
    }
    ls := lengths[..n];
  }

  /** The two tables from one run of lengths. */
  method BuildBoth(ghost l: Lengths, lengths: seq<nat>, hlit: nat) returns (code: int, lh: Huff, dh: Huff)
    requires l.Lengths? && l.ls == lengths && 257 <= hlit <= 286 && hlit <= |lengths| <= hlit + 30
    requires forall k :: 0 <= k < |lengths| ==> lengths[k] <= MAXBITS
    ensures code == 0 <==> SplitLengths(l, hlit).Tables?
    ensures code == 0 ==> IsTable(lh, SplitLengths(l, hlit).ll) && IsTable(dh, SplitLengths(l, hlit).dl)
  {
    hide Accepted, IsTable;
    lh, dh := Huff([], []), Huff([], []);
    if lengths[END_OF_BLOCK] == 0 {
      return -5, lh, dh;
    }
    var left;
    left, lh := HuffBuild(lengths[..hlit]);
    if left < 0 {
      return -6, lh, dh;
    }
    left, dh := HuffBuild(lengths[hlit..]);
    if left < 0 {
      return -7, lh, dh;
    }
    return 0, lh, dh;
  }

  lemma TablesOf(rest: seq<bit>, hlit: nat, hdist: nat, hclen: nat, clc: seq<nat>)
    requires |rest| >= 14 && 4 <= hclen <= 19
    requires LsbVal(rest[..5]) + 257 == hlit && LsbVal(rest[5..10]) + 1 == hdist && LsbVal(rest[10..14]) + 4 == hclen
    ensures hlit > 286 || hdist > 30 || |rest| < 14 + 3 * hclen ==> ReadTables(rest).NoTables?
    ensures hlit <= 286 && hdist <= 30 && |rest| >= 14 + 3 * hclen && clc == Scatter(ReadTriples(rest[14..], hclen)) ==>
      ReadTables(rest) == if !Accepted(clc) then NoTables
                          else SplitLengths(RunLengths(clc, rest[14..][3 * hclen..], [], hlit + hdist), hlit)
  {
    hide Accepted, RunLengths, LsbVal, ReadTriples, Scatter, SplitLengths;
    if |rest| >= 14 + 3 * hclen {
      assert rest[14..][3 * hclen..] == rest[14 + 3 * hclen..];
    }
  }

  lemma TooShort(rest: seq<bit>)
    ensures |rest| < 14 ==> ReadTables(rest).NoTables?
  {
  }

  ghost function ClcOf(rest: seq<bit>, hclen: nat): seq<nat>
    requires hclen <= 19
  {
    if |rest| < 14 + 3 * hclen then [] else Scatter(ReadTriples(rest[14..], hclen))
  }

  /** The counts and the code length code. */
  method ReadClc(b: Reader) returns (code: int, hlit: nat, hdist: nat, h: Huff, clcLen: seq<nat>)
    requires b.Valid() && !b.err
    modifies b
    ensures b.Valid()
    ensures code != 0 || b.err ==> ReadTables(old(b.Rest())).NoTables?
    ensures code == 0 ==>
      257 <= hlit <= 286 && 1 <= hdist <= 30 && |clcLen| == 19 && Accepted(clcLen) && IsTable(h, clcLen)
    ensures code == 0 && !b.err ==>
      ReadTables(old(b.Rest())) == SplitLengths(RunLengths(clcLen, b.Rest(), [], hlit + hdist), hlit)
  {
    hide Accepted, IsTable, RunLengths, LsbVal, ReadTriples, Scatter, ReadTables, SplitLengths;
    ghost var rest := b.Rest();
    h, clcLen := Huff([], []), [];
    var hclen;
    hlit, hdist, hclen := ReadCounts(b);
    TooShort(rest);
    if !b.err {
      TablesOf(rest, hlit, hdist, hclen, ClcOf(rest, hclen));
    }
    if hlit > 286 || hdist > 30 {
      code := -1;
      return;
    }
    clcLen := ReadClcLengths(b, hclen);
    var left;
    left, h := HuffBuild(clcLen);
    code := if left < 0 then -2 else 0;
  }

  /** build_dynamic succeeds exactly when the stream begins with a readable header, and leaves the
      tables of the two codes it describes. */
  method BuildDynamic(b: Reader) returns (code: int, lh: Huff, dh: Huff, ghost t: Tables)
    requires b.Valid() && !b.err
    modifies b
    ensures b.Valid()
    ensures t == ReadTables(old(b.Rest()))
    ensures code == 0 <==> t.Tables?
    ensures code == 0 ==> IsTable(lh, t.ll) && IsTable(dh, t.dl) && b.Rest() == t.rest && b.err == t.short
  {
    hide Accepted, IsTable, RunLengths, ReadTables, SplitLengths;
    t := ReadTables(b.Rest());
    lh, dh := Huff([], []), Huff([], []);
    var hlit, hdist, clc, clcLen;
    code, hlit, hdist, clc, clcLen := ReadClc(b);
    if code != 0 {
      return;
    }
    ghost var run := RunLengths(clcLen, b.Rest(), [], hlit + hdist);
    var ok, lengths := ReadLengths(b, clc, clcLen, hlit + hdist);
    if !ok {
      code := -3;
      NoRun(hlit);
      return;
    }
    code, lh, dh := BuildBoth(run, lengths, hlit);
  }

  lemma NoRun(hlit: nat)
    ensures SplitLengths(NoLengths, hlit).NoTables?
  {
  }
}
