/** Canonical Huffman codes: the code assignment of section 3.2.2 of RFC 1951, and
    the count/symbol table that kernel/lib/inflate.c builds and decodes with. */
module Huffman {
  import opened Bits
  import opened Options

  const MAXBITS: nat := 15
  const MAXSYMS: nat := 288

  /** A vector of code lengths; 0 means the symbol has no code. */
  predicate CodeLengths(ls: seq<nat>) {
    |ls| <= MAXSYMS && forall s :: 0 <= s < |ls| ==> ls[s] <= MAXBITS
  }

  /** bl_count of section 3.2.2. */
  function Count(ls: seq<nat>, l: nat): (c: nat)
    ensures c <= |ls|
  {
    if ls == [] then 0
    else Count(ls[..|ls| - 1], l) + (if ls[|ls| - 1] == l then 1 else 0)
  }

  /** next_code of section 3.2.2: the first code of each length. */
  function NextCode(ls: seq<nat>, l: nat): nat
    requires l >= 1
  {
    if l == 1 then 0 else 2 * (NextCode(ls, l - 1) + Count(ls, l - 1))
  }

  /** How many l-bit strings begin with a code of at most l bits. */
  function Used(ls: seq<nat>, l: nat): nat
    requires l >= 1
  {
    NextCode(ls, l) + Count(ls, l)
  }

  /** How many earlier symbols have the same length. */
  function Rank(ls: seq<nat>, s: nat): nat
    requires s < |ls|
  {
    Count(ls[..s], ls[s])
  }

  function Code(ls: seq<nat>, s: nat): nat
    requires s < |ls| && ls[s] >= 1
  {
    NextCode(ls, ls[s]) + Rank(ls, s)
  }

  function CodeBits(ls: seq<nat>, s: nat): (bs: seq<bit>)
    requires s < |ls| && ls[s] >= 1
    ensures |bs| == ls[s]
  {
    MsbBits(Code(ls, s), ls[s])
  }

  /** Not over-subscribed at any length. */
  ghost predicate Accepted(ls: seq<nat>) {
    CodeLengths(ls) && forall l :: 1 <= l <= MAXBITS ==> Used(ls, l) <= Pow2(l)
  }

  // ---- the code is prefix free ----------------------------------------------

  lemma {:induction false} CountMono(ls: seq<nat>, l: nat, a: nat, b: nat)
    requires a <= b <= |ls|
    ensures Count(ls[..a], l) <= Count(ls[..b], l)
    ensures a < b && ls[a] == l ==> Count(ls[..a], l) < Count(ls[..b], l)
    decreases b
  {
    if a < b {
      assert ls[..b][..b - 1] == ls[..b - 1];
      CountMono(ls, l, a, b - 1);
    }
  }

  lemma RankBound(ls: seq<nat>, s: nat)
    requires s < |ls|
    ensures Rank(ls, s) < Count(ls, ls[s])
  {
    CountMono(ls, ls[s], s, |ls|);
    assert ls[..|ls|] == ls;
  }

  lemma SameRankSameSymbol(ls: seq<nat>, s: nat, t: nat)
    requires s < |ls| && t < |ls| && ls[s] == ls[t] && Rank(ls, s) == Rank(ls, t)
    ensures s == t
  {
    if s < t {
      CountMono(ls, ls[s], s, t);
    } else if t < s {
      CountMono(ls, ls[t], t, s);
    }
  }

  lemma CodeFits(ls: seq<nat>, s: nat)
    requires Accepted(ls) && s < |ls| && ls[s] >= 1
    ensures Code(ls, s) < Pow2(ls[s])
    ensures MsbVal(CodeBits(ls, s)) == Code(ls, s)
  {
    RankBound(ls, s);
    assert Used(ls, ls[s]) <= Pow2(ls[s]);
    MsbRoundTrip(Code(ls, s), ls[s]);
  }

  lemma MsbSnoc(bs: seq<bit>, l: nat)
    requires 1 <= l <= |bs|
    ensures MsbVal(bs[..l]) == 2 * MsbVal(bs[..l - 1]) + bs[l - 1]
  {
    assert bs[..l][..l - 1] == bs[..l - 1];
  }

  /** A bit string that lies at or above the first code of length m lies above every
      code of a shorter length. */
  lemma {:induction false} ShorterCodesBelow(ls: seq<nat>, bs: seq<bit>, l: nat, m: nat)
    requires 1 <= l < m <= |bs|
    requires MsbVal(bs[..m]) >= NextCode(ls, m)
    ensures MsbVal(bs[..l]) >= Used(ls, l)
    decreases m
  {
    MsbSnoc(bs, m);
    assert MsbVal(bs[..m - 1]) >= Used(ls, m - 1);
    if l < m - 1 {
      ShorterCodesBelow(ls, bs, l, m - 1);
    }
  }

  /** Symbol s's code is what the bit stream begins with. */
  ghost predicate Starts(ls: seq<nat>, s: nat, rest: seq<bit>) {
    s < |ls| && ls[s] >= 1 && CodeBits(ls, s) <= rest
  }

  lemma StartsValue(ls: seq<nat>, s: nat, rest: seq<bit>)
    requires Accepted(ls) && Starts(ls, s, rest)
    ensures MsbVal(rest[..ls[s]]) == Code(ls, s)
    ensures NextCode(ls, ls[s]) <= MsbVal(rest[..ls[s]]) < Used(ls, ls[s])
  {
    CodeFits(ls, s);
    RankBound(ls, s);
    assert rest[..ls[s]] == CodeBits(ls, s);
  }

  /** No code is a prefix of another, so at most one symbol can match. */
  lemma PrefixFree(ls: seq<nat>, s: nat, t: nat, rest: seq<bit>)
    requires Accepted(ls) && Starts(ls, s, rest) && Starts(ls, t, rest)
    ensures s == t
  {
    StartsValue(ls, s, rest);
    StartsValue(ls, t, rest);
    if ls[s] < ls[t] {
      ShorterCodesBelow(ls, rest, ls[s], ls[t]);
    } else if ls[t] < ls[s] {
      ShorterCodesBelow(ls, rest, ls[t], ls[s]);
    } else {
      SameRankSameSymbol(ls, s, t);
    }
  }

  /** The symbol whose code the stream begins with, if there is one. */
  ghost function Match(ls: seq<nat>, rest: seq<bit>): (m: Option<nat>)
    ensures m.Some? ==> Starts(ls, m.value, rest)
    ensures m.None? ==> forall s :: !Starts(ls, s, rest)
  {
    if s :| Starts(ls, s, rest) then Some(s) else None
  }

  lemma MatchIs(ls: seq<nat>, s: nat, rest: seq<bit>)
    requires Accepted(ls) && Starts(ls, s, rest)
    ensures Match(ls, rest) == Some(s)
  {
    PrefixFree(ls, s, Match(ls, rest).value, rest);
  }

  // ---- the table -------------------------------------------------------------

  /** struct huff; `symbol` is cut to its filled part, so that a read of the
      uninitialised rest would be out of range. */
  datatype Huff = Huff(count: seq<nat>, symbol: seq<nat>)

  /** Where the symbols of length l begin in `symbol`. */
  function Offs(ls: seq<nat>, l: nat): nat {
    if l <= 1 then 0 else Offs(ls, l - 1) + Count(ls, l - 1)
  }

  function Slot(ls: seq<nat>, s: nat): nat
    requires s < |ls|
  {
    Offs(ls, ls[s]) + Rank(ls, s)
  }

  ghost predicate IsTable(h: Huff, ls: seq<nat>) {
    && |h.count| == MAXBITS + 1
    && (forall l :: 1 <= l <= MAXBITS ==> h.count[l] == Count(ls, l))
    && |h.symbol| == Offs(ls, MAXBITS + 1)
    && (forall s :: 0 <= s < |ls| && ls[s] >= 1 ==>
          Slot(ls, s) < |h.symbol| && h.symbol[Slot(ls, s)] == s)
  }

  lemma {:induction false} OffsMono(ls: seq<nat>, a: nat, b: nat)
    requires 1 <= a < b
    ensures Offs(ls, a) + Count(ls, a) <= Offs(ls, b)
    decreases b
  {
    if a < b - 1 {
      OffsMono(ls, a, b - 1);
    }
  }

  lemma SlotBound(ls: seq<nat>, s: nat)
    requires CodeLengths(ls) && s < |ls| && ls[s] >= 1
    ensures Slot(ls, s) < Offs(ls, MAXBITS + 1) <= |ls|
  {
    RankBound(ls, s);
    OffsMono(ls, ls[s], MAXBITS + 1);
    OffsAtMost(ls, MAXBITS + 1);
  }

  lemma SlotsDiffer(ls: seq<nat>, s: nat, t: nat)
    requires s < |ls| && t < |ls| && s != t && ls[s] >= 1 && ls[t] >= 1
    ensures Slot(ls, s) != Slot(ls, t)
  {
    RankBound(ls, s);
    RankBound(ls, t);
    if ls[s] < ls[t] {
      OffsMono(ls, ls[s], ls[t]);
    } else if ls[t] < ls[s] {
      OffsMono(ls, ls[t], ls[s]);
    } else if Slot(ls, s) == Slot(ls, t) {
      SameRankSameSymbol(ls, s, t);
    }
  }

  lemma {:induction false} OffsSnoc(ls: seq<nat>, l: nat)
    requires ls != []
    ensures Offs(ls, l) == Offs(ls[..|ls| - 1], l) + (if 1 <= ls[|ls| - 1] < l then 1 else 0)
  {
    if l > 1 {
      OffsSnoc(ls, l - 1);
    }
  }

  lemma {:induction false} OffsNil(l: nat)
    ensures Offs([], l) == 0
  {
    if l > 1 {
      OffsNil(l - 1);
    }
  }

  lemma {:induction false} OffsAtMost(ls: seq<nat>, l: nat)
    ensures Offs(ls, l) <= |ls|
  {
    if ls == [] {
      OffsNil(l);
    } else {
      OffsAtMost(ls[..|ls| - 1], l);
      OffsSnoc(ls, l);
    }
  }

  /** Every slot below the total is some symbol's. */
  lemma {:induction false} SymbolOfRank(ls: seq<nat>, l: nat, k: nat) returns (s: nat)
    requires k < Count(ls, l)
    ensures s < |ls| && ls[s] == l && Rank(ls, s) == k
  {
    var m := |ls| - 1;
    if k < Count(ls[..m], l) {
      s := SymbolOfRank(ls[..m], l, k);
      assert ls[..m][..s] == ls[..s];
    } else {
      s := m;
    }
  }

  // ---- Kraft's sum -----------------------------------------------------------

  /** The share of the 15-bit strings that the codes of ls cover. */
  function Kraft(ls: seq<nat>): nat
    requires forall s :: 0 <= s < |ls| ==> ls[s] <= MAXBITS
  {
    if ls == [] then 0
    else
      var a := ls[|ls| - 1];
      Kraft(ls[..|ls| - 1]) + (if a == 0 then 0 else Pow2(MAXBITS - a))
  }

  lemma {:induction false} UsedSnoc(ls: seq<nat>, l: nat)
    requires ls != [] && l >= 1
    ensures Used(ls, l) == Used(ls[..|ls| - 1], l)
                           + (if 1 <= ls[|ls| - 1] <= l then Pow2(l - ls[|ls| - 1]) else 0)
  {
    if l > 1 {
      UsedSnoc(ls, l - 1);
    }
  }

  lemma {:induction false} UsedNil(l: nat)
    requires l >= 1
    ensures Used([], l) == 0
  {
    if l > 1 {
      UsedNil(l - 1);
    }
  }

  lemma {:induction false} UsedIsKraft(ls: seq<nat>)
    requires CodeLengths(ls)
    ensures Used(ls, MAXBITS) == Kraft(ls)
  {
    if ls == [] {
      UsedNil(MAXBITS);
    } else {
      UsedIsKraft(ls[..|ls| - 1]);
      UsedSnoc(ls, MAXBITS);
    }
  }

  lemma {:induction false} OverSubscribedStays(ls: seq<nat>, l: nat, m: nat)
    requires 1 <= l <= m && Used(ls, l) > Pow2(l)
    ensures Used(ls, m) > Pow2(m)
    decreases m
  {
    if l < m {
      OverSubscribedStays(ls, l, m - 1);
    }
  }

  /** The length-by-length test is exactly Kraft's inequality. */
  lemma AcceptedIffKraft(ls: seq<nat>)
    requires CodeLengths(ls)
    ensures Accepted(ls) <==> Kraft(ls) <= Pow2(MAXBITS)
  {
    UsedIsKraft(ls);
    forall l | 1 <= l <= MAXBITS && Used(ls, l) > Pow2(l)
      ensures Used(ls, MAXBITS) > Pow2(MAXBITS)
    {
      OverSubscribedStays(ls, l, MAXBITS);
    }
  }

  lemma {:induction false} AllZero(ls: seq<nat>)
    requires Count(ls, 0) == |ls|
    ensures forall s :: 0 <= s < |ls| ==> ls[s] == 0
    ensures forall l :: l >= 1 ==> Count(ls, l) == 0
  {
    if ls != [] {
      AllZero(ls[..|ls| - 1]);
    }
  }

  lemma {:induction false} NoCodes(ls: seq<nat>, l: nat)
    requires l >= 1 && forall k :: k >= 1 ==> Count(ls, k) == 0
    ensures Used(ls, l) == 0 && Offs(ls, l) == 0
  {
    if l > 1 {
      NoCodes(ls, l - 1);
    }
  }
}
