/** Ranges of user pages taken and given back. */
module FramesMap {
  import opened Frames

  function GiveIf(m: Mem, o: Owner): (r: Mem) {
    if o in m.own && 0 <= m.own[o] < |m.bits| then Give(m, o) else m
  }

  lemma GiveIfKeeps(m: Mem, o: Owner)
    requires MemOk(m)
    ensures MemOk(GiveIf(m, o)) && o !in GiveIf(m, o).own
    ensures forall q :: q != o ==> (q in GiveIf(m, o).own <==> q in m.own) && (q in m.own ==> GiveIf(m, o).own[q] == m.own[q])
  {
    hide MemOk;
    if o in m.own {
      GiveKeeps(m, o);
      FrameIn(m, o);
    }
  }

  lemma FrameIn(m: Mem, o: Owner)
    requires MemOk(m) && o in m.own
    ensures 0 <= m.own[o] < |m.bits| && m.bits[m.own[o]]
  {
    assert Frame(m, m.own[o]);
  }

  /** The unmapping loops: n pages from base on. */
  function GiveRange(m: Mem, base: int, n: nat): (r: Mem)
    decreases n
  {
    if n == 0 then m else GiveRange(GiveIf(m, Page(base)), base + PAGE, n - 1)
  }

  predicate InRange(o: Owner, base: int, n: nat) {
    o.Page? && base <= o.va < base + n * PAGE && (o.va - base) % PAGE == 0
  }

  /** Every page of the range is gone, everything else is as it was. */
  lemma {:induction false} GiveRangeKeeps(m: Mem, base: int, n: nat, q: Owner)
    requires MemOk(m)
    ensures var r := GiveRange(m, base, n);
      && MemOk(r) && (InRange(q, base, n) ==> q !in r.own)
      && (!InRange(q, base, n) ==> (q in r.own <==> q in m.own) && (q in m.own ==> r.own[q] == m.own[q]))
    decreases n
  {
    hide MemOk;
    if n > 0 {
      GiveIfKeeps(m, Page(base));
      GiveRangeKeeps(GiveIf(m, Page(base)), base + PAGE, n - 1, q);
    }
  }

  function Pages(base: int, n: nat): (os: seq<Owner>)
    ensures |os| == n && forall i :: 0 <= i < n ==> os[i] == Page(base + i * PAGE)
  {
    seq(n, i => Page(base + i * PAGE))
  }

  lemma PagesStep(base: int, n: nat)
    ensures Pages(base, n + 1) == Pages(base, n) + [Page(base + n * PAGE)]
    ensures Pages(base, n + 1)[0] == Page(base) && Pages(base, n + 1)[1..] == Pages(base + PAGE, n)
  {
  }

  /** Rolling back: n pages just mapped into an unmapped range, and the memory is what it was. */
  lemma {:induction false} RollBack(m: Mem, base: int, n: nat, fs: seq<nat>)
    requires |fs| == n && Fresh(m, Pages(base, n), fs)
    ensures GiveRange(TakeMany(m, Pages(base, n), fs), base, n) == m
    decreases n
  {
    hide TakeMany, Give;
    if n == 0 {
      TakeNone(m, Pages(base, n), fs);
    } else {
      PagesStep(base, n - 1);
      FreshTail(m, Pages(base, n), fs);
      RollBack(m, base + PAGE, n - 1, fs[1..]);
    }
  }

  lemma TakeNone(m: Mem, os: seq<Owner>, fs: seq<nat>)
    requires |os| == |fs| == 0
    ensures TakeMany(m, os, fs) == m
  {
  }

  // ---- what a growth has taken ----------------------------------------------------------------------

  /** Distinct frames that were free in m. */
  ghost predicate NewFrames(m: Mem, fs: seq<nat>) {
    && (forall i :: 0 <= i < |fs| ==> fs[i] < |m.bits| && !m.bits[fs[i]])
    && (forall i, j :: 0 <= i < j < |fs| ==> fs[i] != fs[j])
  }

  lemma {:induction false} TakenBits(m: Mem, os: seq<Owner>, fs: seq<nat>, f: nat)
    requires |os| == |fs| && f < |m.bits| && forall i :: 0 <= i < |fs| ==> fs[i] < |m.bits|
    ensures TakeMany(m, os, fs).bits[f] == (m.bits[f] || f in fs)
    decreases |os|
  {
    if os != [] {
      TakenBits(Take(m, os[0], fs[0]), os[1..], fs[1..], f);
      assert fs == [fs[0]] + fs[1..];
    }
  }

  lemma PagesFresh(m: Mem, base: int, n: nat, fs: seq<nat>)
    requires |fs| == n && NewFrames(m, fs) && forall i :: 0 <= i < n ==> Pages(base, n)[i] !in m.own
    ensures Fresh(m, Pages(base, n), fs)
  {
  }

  lemma RangeNone(m: Mem, b: int)
    ensures GiveRange(m, b, 0) == m
  {
  }

  lemma {:induction false} TakenOwner(m: Mem, os: seq<Owner>, fs: seq<nat>, i: nat)
    requires |os| == |fs| && i < |os| && forall x :: 0 <= x < |fs| ==> fs[x] < |m.bits|
    ensures os[i] in TakeMany(m, os, fs).own
    decreases |os|
  {
    if i == 0 {
      KeepsOwner(Take(m, os[0], fs[0]), os[1..], fs[1..], os[0]);
    } else {
      TakenOwner(Take(m, os[0], fs[0]), os[1..], fs[1..], i - 1);
    }
  }

  lemma {:induction false} KeepsOwner(m: Mem, os: seq<Owner>, fs: seq<nat>, o: Owner)
    requires |os| == |fs| && o in m.own && forall x :: 0 <= x < |fs| ==> fs[x] < |m.bits|
    ensures o in TakeMany(m, os, fs).own
    decreases |os|
  {
    if os != [] {
      KeepsOwner(Take(m, os[0], fs[0]), os[1..], fs[1..], o);
    }
  }

  lemma TakenOwners(m: Mem, b: int, n: nat, fs: seq<nat>)
    requires |fs| == n && NewFrames(m, fs)
    ensures forall j :: 0 <= j < n ==> Pages(b, n)[j] in TakeMany(m, Pages(b, n), fs).own
  {
    hide TakeMany;
    forall j | 0 <= j < n
      ensures Pages(b, n)[j] in TakeMany(m, Pages(b, n), fs).own
    {
      TakenOwner(m, Pages(b, n), fs, j);
    }
  }

  /** After the roll-back the pages are unmapped; the memory is what it was exactly when they were
      unmapped before. */
  lemma RolledBack(m: Mem, b: int, k: nat, fs: seq<nat>, r: Mem)
    requires MemOk(m) && |fs| == k && NewFrames(m, fs) && MemOk(TakeMany(m, Pages(b, k), fs))
    requires r == GiveRange(TakeMany(m, Pages(b, k), fs), b, k)
    ensures forall j :: 0 <= j < k ==> Pages(b, k)[j] !in r.own
    ensures r == m <==> forall j :: 0 <= j < k ==> Pages(b, k)[j] !in m.own
  {
    hide MemOk, TakeMany, GiveRange;
    forall j | 0 <= j < k
      ensures Pages(b, k)[j] !in r.own
    {
      GiveRangeKeeps(TakeMany(m, Pages(b, k), fs), b, k, Pages(b, k)[j]);
    }
    if forall j :: 0 <= j < k ==> Pages(b, k)[j] !in m.own {
      PagesFresh(m, b, k, fs);
      RollBack(m, b, k, fs);
    }
  }
}
