/** huff_build and huff_decode of kernel/lib/inflate.c. */
module HuffmanTable {
  import opened Options
  import opened Bits
  import opened BitReader
  import opened Huffman

  /** The first loops of huff_build: how many codes there are of each length. */
  method CountLengths(length: seq<nat>) returns (count: array<nat>)
    requires CodeLengths(length)
    ensures fresh(count) && count.Length == MAXBITS + 1
    ensures forall l :: 0 <= l <= MAXBITS ==> count[l] == Count(length, l)
  {
    count := new nat[MAXBITS + 1](_ => 0);
    for s := 0 to |length|
      invariant forall l :: 0 <= l <= MAXBITS ==> count[l] == Count(length[..s], l)
    {
      count[length[s]] := count[length[s]] + 1;
      assert length[..s + 1][..s] == length[..s];
    }
    assert length[..|length|] == length;
  }

  /** Where each length's symbols begin. */
  method Offsets(length: seq<nat>, count: array<nat>) returns (offs: array<nat>)
    requires count.Length == MAXBITS + 1
    requires forall l :: 0 <= l <= MAXBITS ==> count[l] == Count(length, l)
    ensures fresh(offs) && offs.Length == MAXBITS + 1
    ensures forall l :: 1 <= l <= MAXBITS ==> offs[l] == Offs(length, l)
  {
    hide Count, Offs;
    offs := new nat[MAXBITS + 1](_ => 0);
    OffsStep(length, 0);
    for l := 1 to MAXBITS
      invariant forall k :: 1 <= k <= l ==> offs[k] == Offs(length, k)
    {
      OffsStep(length, l);
      offs[l + 1] := offs[l] + count[l];
    }
  }

  lemma OffsStep(ls: seq<nat>, l: nat)
    ensures Offs(ls, l + 1) == if l == 0 then 0 else Offs(ls, l) + Count(ls, l)
  {
    hide Count;
  }

  lemma SlotIsFresh(ls: seq<nat>, s: nat)
    requires CodeLengths(ls) && s < |ls| && ls[s] >= 1
    ensures Slot(ls, s) < MAXSYMS
    ensures forall t :: 0 <= t < |ls| && t != s && ls[t] >= 1 ==> Slot(ls, t) != Slot(ls, s)
  {
    SlotBound(ls, s);
    forall t | 0 <= t < |ls| && t != s && ls[t] >= 1
      ensures Slot(ls, t) != Slot(ls, s)
    {
      SlotsDiffer(ls, t, s);
    }
  }

  /** The symbols with a code, sorted by (length, symbol). */
  method SortSymbols(length: seq<nat>, offs: array<nat>) returns (table: array<nat>)
    requires CodeLengths(length)
    requires offs.Length == MAXBITS + 1
    requires forall l :: 1 <= l <= MAXBITS ==> offs[l] == Offs(length, l)
    modifies offs
    ensures table.Length == MAXSYMS
    ensures forall s :: 0 <= s < |length| && length[s] >= 1 ==>
      Slot(length, s) < MAXSYMS && table[Slot(length, s)] == s
  {
    table := new nat[MAXSYMS](_ => 0);
    for s := 0 to |length|
      invariant forall l :: 1 <= l <= MAXBITS ==> offs[l] == Offs(length, l) + Count(length[..s], l)
      invariant forall t :: 0 <= t < s && length[t] >= 1 ==>
        Slot(length, t) < MAXSYMS && table[Slot(length, t)] == t
    {
      assert length[..s + 1][..s] == length[..s];
      if length[s] != 0 {
        SlotIsFresh(length, s);
        table[offs[length[s]]] := s;
        offs[length[s]] := offs[length[s]] + 1;
      }
    }
  }

  /** The over-subscription test: 2^15 minus Kraft's sum, or -1 as soon as it is negative. */
  method Unused(length: seq<nat>, count: array<nat>, maxbits: nat) returns (left: int)
    requires 1 <= maxbits < count.Length
    requires forall l :: 0 <= l <= maxbits ==> count[l] == Count(length, l)
    ensures left < 0 <==> exists l :: 1 <= l <= maxbits && Used(length, l) > Pow2(l)
    ensures left >= 0 ==> left == Pow2(maxbits) - Used(length, maxbits)
  {
    left := 1;
    for l := 1 to maxbits + 1
      invariant left >= 0
      invariant left == if l == 1 then 1 else Pow2(l - 1) - Used(length, l - 1)
      invariant forall k :: 1 <= k < l ==> Used(length, k) <= Pow2(k)
    {
      ghost var was := left;
      left := 2 * left;
      left := left - count[l];
      assert left == Pow2(l) - Used(length, l) by {
        LeftStep(length, l, was);
      }
      if left < 0 {
        return -1;
      }
    }
  }

  lemma LeftStep(ls: seq<nat>, l: nat, was: int)
    requires l >= 1
    requires was == if l == 1 then 1 else Pow2(l - 1) - Used(ls, l - 1)
    ensures 2 * was - Count(ls, l) == Pow2(l) - Used(ls, l)
  {
    assert Pow2(1) == 2;
  }

  /** huff_build: refuses exactly the over-subscribed vectors, reports the unused share
      of the code space otherwise, and leaves a table for the canonical code. */
  method HuffBuild(length: seq<nat>) returns (left: int, h: Huff)
    requires CodeLengths(length)
    ensures left < 0 <==> !Accepted(length)
    ensures left >= 0 ==> IsTable(h, length)
    ensures left >= 0 ==> left == if Kraft(length) == 0 then 0 else Pow2(MAXBITS) - Kraft(length)
  {
    var count := CountLengths(length);
    h := Huff(count[..], []);
    if count[0] == |length| {
      AllZero(length);
      NoCodesAccepted(length);
      return 0, h;
    }
    left := Unused(length, count, MAXBITS);
    if left < 0 {
      return;
    }
    UsedIsKraft(length);
    SomeCode(length);
    var offs := Offsets(length, count);
    var symbol := SortSymbols(length, offs);
    h := Huff(count[..], symbol[..Filled(length)]);
  }

  /** The length of the filled part of `symbol`. */
  function Filled(ls: seq<nat>): (n: nat)
    requires CodeLengths(ls)
    ensures n == Offs(ls, MAXBITS + 1) && n <= MAXSYMS
    ensures forall s :: 0 <= s < |ls| && ls[s] >= 1 ==> Slot(ls, s) < n
  {
    OffsAtMost(ls, MAXBITS + 1);
    assert forall s :: 0 <= s < |ls| && ls[s] >= 1 ==> Slot(ls, s) < Offs(ls, MAXBITS + 1) by {
      forall s | 0 <= s < |ls| && ls[s] >= 1
        ensures Slot(ls, s) < Offs(ls, MAXBITS + 1)
      {
        SlotBound(ls, s);
      }
    }
    Offs(ls, MAXBITS + 1)
  }

  lemma NoCodesAccepted(ls: seq<nat>)
    requires CodeLengths(ls)
    requires forall s :: 0 <= s < |ls| ==> ls[s] == 0
    requires forall l :: l >= 1 ==> Count(ls, l) == 0
    ensures Accepted(ls) && Kraft(ls) == 0 && Offs(ls, MAXBITS + 1) == 0
  {
    forall l | 1 <= l <= MAXBITS + 1
      ensures Used(ls, l) == 0 && Offs(ls, l) == 0
    {
      NoCodes(ls, l);
    }
    UsedIsKraft(ls);
    assert Used(ls, MAXBITS) == 0;
  }

  lemma {:induction false} SomeCode(ls: seq<nat>)
    requires CodeLengths(ls) && Count(ls, 0) != |ls|
    ensures Kraft(ls) > 0
  {
    var init := ls[..|ls| - 1];
    if ls[|ls| - 1] == 0 {
      SomeCode(init);
    }
  }

  /** At length l, with `value` the first l bits: no symbol of that length matches. */
  lemma NoMatchOfLength(ls: seq<nat>, rest: seq<bit>, l: nat, s: nat)
    requires Accepted(ls) && 1 <= l <= |rest| && MsbVal(rest[..l]) >= Used(ls, l)
    requires Starts(ls, s, rest) && ls[s] >= l
    ensures ls[s] > l
  {
    StartsValue(ls, s, rest);
  }

  lemma CodeValueStarts(ls: seq<nat>, s: nat, rest: seq<bit>)
    requires s < |ls| && 1 <= ls[s] <= |rest| && Code(ls, s) == MsbVal(rest[..ls[s]])
    ensures Starts(ls, s, rest)
  {
    MsbBitsOfVal(rest[..ls[s]]);
  }

  /** At length l, inside the range of that length's codes: exactly this symbol matches. */
  lemma MatchOfLength(h: Huff, ls: seq<nat>, rest: seq<bit>, l: nat, code: nat, first: nat, index: nat)
    requires Accepted(ls) && IsTable(h, ls) && 1 <= l <= MAXBITS && l <= |rest|
    requires first == NextCode(ls, l) && index == Offs(ls, l) && code == MsbVal(rest[..l])
    requires first <= code < first + Count(ls, l)
    ensures index + (code - first) < |h.symbol|
    ensures Match(ls, rest) == Some(h.symbol[index + (code - first)])
    ensures ls[h.symbol[index + (code - first)]] == l
  {
    hide NextCode, Offs, Count, MsbVal, MsbBits;
    var s := SymbolOfRank(ls, l, code - first);
    assert code == Code(ls, s);
    CodeValueStarts(ls, s, rest);
    MatchIs(ls, s, rest);
    assert index + (code - first) == Slot(ls, s);
  }

  /** In range even when the stream has run out and `code` no longer means anything. */
  lemma IndexInRange(h: Huff, ls: seq<nat>, l: nat, d: nat, index: nat)
    requires IsTable(h, ls) && 1 <= l <= MAXBITS && d < Count(ls, l) && index == Offs(ls, l)
    ensures index + d < |h.symbol|
  {
    OffsMono(ls, l, MAXBITS + 1);
  }

  lemma NextBit(rest: seq<bit>, len: nat)
    requires 1 <= len <= |rest|
    ensures LsbVal(rest[len - 1..][..1]) == rest[len - 1]
    ensures rest[len - 1..][1..] == rest[len..]
    ensures MsbVal(rest[..len]) == 2 * MsbVal(rest[..len - 1]) + rest[len - 1]
  {
    assert rest[len - 1..][..1] == [rest[len - 1]];
    MsbSnoc(rest, len);
  }

  /** huff_decode returns the one symbol whose canonical code the stream begins with and
      consumes exactly that code; with no such symbol it fails or the reader is in error. */
  method HuffDecode(b: Reader, h: Huff, ghost ls: seq<nat>) returns (sym: int)
    requires b.Valid() && Accepted(ls) && IsTable(h, ls)
    modifies b
    ensures b.Valid()
    ensures match Match(ls, old(b.Rest())) {
      case Some(s) => sym == s && b.err == old(b.err) && b.Rest() == old(b.Rest())[ls[s]..]
      case None => (b.err || sym < 0) && (old(b.err) ==> b.err)
    }
  {
    ghost var rest := b.Rest();
    ghost var e := b.err;
    ghost var dry := false;
    var code, first, index := 0, 0, 0;
    for len := 1 to MAXBITS + 1
      invariant b.Valid()
      invariant first == NextCode(ls, len) && index == Offs(ls, len) && code >= first
      invariant !dry ==> len - 1 <= |rest| && b.Rest() == rest[len - 1..] && b.err == e
      invariant !dry ==> code == 2 * MsbVal(rest[..len - 1])
      invariant dry ==> b.err && Match(ls, rest).None?
      invariant forall s: nat :: Starts(ls, s, rest) ==> ls[s] >= len
    {
      var v := b.Bits(1);
      code := code + v;
      if !dry && |rest| < len {
        dry := true;
      }
      if !dry {
        NextBit(rest, len);
      }
      var cnt := h.count[len];
      if code - first < cnt {
        IndexInRange(h, ls, len, code - first, index);
        if !dry {
          MatchOfLength(h, ls, rest, len, code, first, index);
        }
        return h.symbol[index + (code - first)];
      }
      if !dry {
        forall s: nat | Starts(ls, s, rest)
          ensures ls[s] > len
        {
          NoMatchOfLength(ls, rest, len, s);
        }
      }
      index := index + cnt;
      first := 2 * (first + cnt);
      code := 2 * code;
    }
    sym := -1;
  }
}
