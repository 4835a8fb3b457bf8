/** The page loops under sys_brk and sys_mmap2: how far they get, and what they leave behind. */
module FramesCalls {
  import opened Frames
  import opened FramesMap

  const USER_VA_MIN: int := 0x1000
  const USER_VA_MAX: int := 0x4000_0000
  const WORD: int := 0x1_0000_0000

  function PageUp(x: int): int { (x + PAGE - 1) % WORD / PAGE * PAGE }

  // ---- mapping one page ---------------------------------------------------------------------------

  /** vm_map_page serves the address: it is a user address and its table exists or can be made. */
  predicate Mappable(va: int, noL2: set<int>) { USER_VA_MIN <= va < USER_VA_MAX && va !in noL2 }

  predicate CanMap(m: Mem, va: int, noL2: set<int>) {
    FirstFree(m.bits, 0) < |m.bits| && Mappable(va, noL2)
  }

  function MapAt(m: Mem, va: int): Mem
    requires FirstFree(m.bits, 0) < |m.bits|
  {
    Take(m, Page(va), FirstFree(m.bits, 0))
  }

  function Free(m: Mem): nat { |m.bits| - Used(m.bits) }

  lemma {:induction false} AllUsed(bits: seq<bool>)
    requires forall k :: 0 <= k < |bits| ==> bits[k]
    ensures Used(bits) == |bits|
    decreases |bits|
  {
    if bits != [] {
      AllUsed(bits[..|bits| - 1]);
    }
  }

  /** A scan finds a frame exactly when the count says there is one. */
  lemma FreeIff(bits: seq<bool>)
    ensures FirstFree(bits, 0) < |bits| <==> Used(bits) < |bits|
  {
    var f := FirstFree(bits, 0);
    if f < |bits| {
      UsedFlip(bits, f, true);
    } else {
      AllUsed(bits);
    }
  }

  lemma TakeFree(m: Mem, o: Owner, f: nat)
    requires f < |m.bits| && !m.bits[f]
    ensures Free(Take(m, o, f)) == Free(m) - 1
  {
    hide Used;
    UsedFlip(m.bits, f, true);
  }

  // ---- growing the heap ---------------------------------------------------------------------------

  /** The frames the growing loop of sys_brk maps from b on before it ends or fails. */
  function GrowFrames(m: Mem, b: int, n: nat, noL2: set<int>): (fs: seq<nat>)
    ensures |fs| <= n && forall i :: 0 <= i < |fs| ==> fs[i] < |m.bits|
    decreases n
  {
    if n == 0 || !CanMap(m, b, noL2) then []
    else [FirstFree(m.bits, 0)] + GrowFrames(MapAt(m, b), b + PAGE, n - 1, noL2)
  }

  /** How many pages from b on can be mapped as far as vm_map_page is concerned. */
  function Reach(b: int, n: nat, noL2: set<int>): (r: nat)
    ensures r <= n
    decreases n
  {
    if n == 0 || !Mappable(b, noL2) then 0 else 1 + Reach(b + PAGE, n - 1, noL2)
  }

  function Min(x: nat, y: nat): nat { if x < y then x else y }

  /** The loop stops at the first page that vm_map_page refuses, or when the frames run out. */
  lemma {:induction false} GrowCount(m: Mem, b: int, n: nat, noL2: set<int>)
    ensures |GrowFrames(m, b, n, noL2)| == Min(Reach(b, n, noL2), Free(m))
    decreases n
  {
    hide Used, FirstFree;
    FreeIff(m.bits);
    if n > 0 && CanMap(m, b, noL2) {
      TakeFree(m, Page(b), FirstFree(m.bits, 0));
      GrowCount(MapAt(m, b), b + PAGE, n - 1, noL2);
    }
  }

  /** The memory after the loop: grown, or rolled back. */
  function GrowRange(m: Mem, b: int, n: nat, noL2: set<int>): (r: Mem) {
    var fs := GrowFrames(m, b, n, noL2);
    var t := TakeMany(m, Pages(b, |fs|), fs);
    if |fs| == n then t else GiveRange(t, b, |fs|)
  }

  lemma {:induction false} GrowFramesNew(m: Mem, b: int, n: nat, noL2: set<int>)
    requires MemOk(m)
    ensures var fs := GrowFrames(m, b, n, noL2); NewFrames(m, fs) && MemOk(TakeMany(m, Pages(b, |fs|), fs))
    decreases n
  {
    hide MemOk, FirstFree;
    if n == 0 || !CanMap(m, b, noL2) {
      TakeNone(m, Pages(b, 0), []);
    } else {
      var f := FirstFree(m.bits, 0);
      var t, fs := MapAt(m, b), GrowFrames(MapAt(m, b), b + PAGE, n - 1, noL2);
      TakeKeeps(m, Page(b), f);
      GrowFramesNew(t, b + PAGE, n - 1, noL2);
      PagesStep(b, |fs|);
      assert ([f] + fs)[1..] == fs;
      NewFront(m, Page(b), f, fs);
    }
  }

  lemma NewFront(m: Mem, o: Owner, f: nat, fs: seq<nat>)
    requires f < |m.bits| && !m.bits[f] && NewFrames(Take(m, o, f), fs)
    ensures NewFrames(m, [f] + fs)
  {
    var gs, t := [f] + fs, Take(m, o, f);
    forall i | 0 <= i < |gs|
      ensures gs[i] < |m.bits| && !m.bits[gs[i]] && (i > 0 ==> gs[i] != f)
    {
      if i > 0 {
        assert gs[i] == fs[i - 1] && !t.bits[fs[i - 1]];
      }
    }
    forall i, j | 0 <= i < j < |gs|
      ensures gs[i] != gs[j]
    {
      if i > 0 {
        assert gs[i] == fs[i - 1] && gs[j] == fs[j - 1];
      }
    }
  }

  /** No page of the first k from b on is mapped. */
  ghost predicate Unmapped(own: map<Owner, int>, b: int, k: nat) {
    forall o :: InRange(o, b, k) ==> o !in own
  }

  lemma UnmappedPages(own: map<Owner, int>, b: int, k: nat)
    ensures Unmapped(own, b, k) <==> forall j :: 0 <= j < k ==> Pages(b, k)[j] !in own
  {
    if forall j :: 0 <= j < k ==> Pages(b, k)[j] !in own {
      forall o | InRange(o, b, k)
        ensures o !in own
      {
        var j := (o.va - b) / PAGE;
        assert Pages(b, k)[j] == o;
      }
    }
    if Unmapped(own, b, k) {
      forall j | 0 <= j < k
        ensures Pages(b, k)[j] !in own
      {
        assert InRange(Pages(b, k)[j], b, k);
      }
    }
  }

  /** Growth succeeds exactly when every page can be mapped and there are frames for all of them. A
      growth that fails maps min(Reach, Free) pages first; it restores the memory exactly when these
      were unmapped before. */
  lemma GrowRestores(m: Mem, b: int, n: nat, noL2: set<int>)
    requires MemOk(m)
    ensures var k := Min(Reach(b, n, noL2), Free(m));
      && MemOk(GrowRange(m, b, n, noL2))
      && (k == n <==> Reach(b, n, noL2) == n <= Free(m))
      && (k < n ==> (GrowRange(m, b, n, noL2) == m <==> Unmapped(m.own, b, k)))
      && (k == n ==> forall j :: 0 <= j < n ==> Pages(b, n)[j] in GrowRange(m, b, n, noL2).own)
  {
    hide MemOk, Used, FirstFree, GrowFrames, TakeMany, GiveRange, NewFrames, Reach, Unmapped, InRange;
    var fs := GrowFrames(m, b, n, noL2);
    var k := |fs|;
    GrowCount(m, b, n, noL2);
    GrowFramesNew(m, b, n, noL2);
    NewInRange(m, fs);
    var t := TakeMany(m, Pages(b, k), fs);
    if k == n {
      TakenOwners(m, b, n, fs);
    } else {
      GiveRangeKeeps(t, b, k, Page(0));
      RolledBack(m, b, k, fs, GiveRange(t, b, k));
      UnmappedPages(m.own, b, k);
    }
  }

  lemma NewInRange(m: Mem, fs: seq<nat>)
    requires NewFrames(m, fs)
    ensures forall i :: 0 <= i < |fs| ==> fs[i] < |m.bits|
  {
  }

  // ---- mapping over what is there -------------------------------------------------------------------

  /** map_zeroed_range from page i on: whatever is mapped is replaced; a failure gives back all pages
      mapped so far. */
  function Remap(m: Mem, b: int, n: nat, i: nat, noL2: set<int>): (r: (Mem, bool))
    requires i <= n
    decreases n - i
  {
    var va := b + i * PAGE;
    if i == n then (m, true)
    else
      var g := GiveIf(m, Page(va));
      if CanMap(g, va, noL2) then Remap(MapAt(g, va), b, n, i + 1, noL2) else (GiveRange(g, b, i), false)
  }

  /** How many of the n pages from b on are unmapped. */
  function Missing(own: map<Owner, int>, b: int, n: nat): (k: nat)
    ensures k <= n
    decreases n
  {
    if n == 0 then 0 else (if Page(b) in own then 0 else 1) + Missing(own, b + PAGE, n - 1)
  }

  lemma {:induction false} MissingSame(x: map<Owner, int>, y: map<Owner, int>, b: int, n: nat, va: int)
    requires va < b && forall q :: q != Page(va) ==> (q in x <==> q in y)
    ensures Missing(x, b, n) == Missing(y, b, n)
    decreases n
  {
    if n > 0 {
      MissingSame(x, y, b + PAGE, n - 1, va);
    }
  }

  lemma GiveFree(m: Mem, o: Owner)
    requires MemOk(m)
    ensures Free(GiveIf(m, o)) == Free(m) + if o in m.own then 1 else 0
  {
    hide Used;
    if o in m.own {
      FrameIn(m, o);
      UsedFlip(m.bits, m.own[o], false);
    }
  }

  /** One page replaced: what changed. */
  lemma RemapStep(m: Mem, va: int, noL2: set<int>)
    requires MemOk(m)
    ensures var g := GiveIf(m, Page(va));
      && MemOk(g) && (forall q :: q != Page(va) ==> (q in g.own <==> q in m.own) && (q in m.own ==> g.own[q] == m.own[q]))
      && Page(va) !in g.own
      && (CanMap(g, va, noL2) <==> Mappable(va, noL2) && (Page(va) in m.own || Free(m) > 0))
      && (CanMap(g, va, noL2) ==> MemOk(MapAt(g, va)) && Free(MapAt(g, va)) == Free(m) - if Page(va) in m.own then 0 else 1)
  {
    hide MemOk, Used, FirstFree, GiveIf;
    var g := GiveIf(m, Page(va));
    GiveIfKeeps(m, Page(va));
    GiveFree(m, Page(va));
    FreeIff(g.bits);
    if CanMap(g, va, noL2) {
      TakeKeeps(g, Page(va), FirstFree(g.bits, 0));
      TakeFree(g, Page(va), FirstFree(g.bits, 0));
    }
  }

  /** It succeeds exactly when every page can be mapped and the unmapped ones find frames. */
  lemma {:induction false} RemapSucceeds(m: Mem, b: int, n: nat, i: nat, noL2: set<int>)
    requires MemOk(m) && i <= n
    ensures var va := b + i * PAGE; var r := Remap(m, b, n, i, noL2);
      MemOk(r.0) && (r.1 <==> Reach(va, n - i, noL2) == n - i && Missing(m.own, va, n - i) <= Free(m))
    decreases n - i
  {
    hide MemOk, Used, FirstFree, GiveIf, GiveRange;
    var va := b + i * PAGE;
    if i < n {
      RemapStep(m, va, noL2);
      var g := GiveIf(m, Page(va));
      if CanMap(g, va, noL2) {
        RemapSucceeds(MapAt(g, va), b, n, i + 1, noL2);
        MissingSame(m.own, MapAt(g, va).own, va + PAGE, n - i - 1, va);
      } else {
        GiveRangeKeeps(g, b, i, Page(0));
      }
    }
  }

  /** Owners outside the n pages from b on keep their frames. */
  ghost predicate Outside(was: map<Owner, int>, own: map<Owner, int>, b: int, n: nat) {
    forall q :: !InRange(q, b, n) ==> (q in own <==> q in was) && (q in was ==> own[q] == was[q])
  }

  /** Nobody has a frame he did not have before. */
  ghost predicate NothingNew(was: map<Owner, int>, own: map<Owner, int>) {
    forall q :: q in own ==> q in was && own[q] == was[q]
  }

  /** The pages from page i on are as they were; the ones before are mapped. */
  ghost predicate Half(was: map<Owner, int>, own: map<Owner, int>, b: int, n: nat, i: nat) {
    forall q :: if InRange(q, b, i) then q in own else (q in own <==> q in was) && (q in was ==> own[q] == was[q])
  }

  lemma {:induction false} RemapMoves(was: map<Owner, int>, m: Mem, b: int, n: nat, i: nat, noL2: set<int>)
    requires MemOk(m) && i <= n && Half(was, m.own, b, n, i)
    ensures var (r, ok) := Remap(m, b, n, i, noL2);
      Outside(was, r.own, b, n) && (ok ==> forall q :: InRange(q, b, n) ==> q in r.own) && (!ok ==> NothingNew(was, r.own))
    decreases n - i
  {
    hide MemOk, Used, FirstFree, GiveIf, GiveRange, InRange;
    var va := b + i * PAGE;
    if i == n {
      RangeGrows(b, n, n);
    } else {
      RemapStep(m, va, noL2);
      RangeGrows(b, i, n);
      var g := GiveIf(m, Page(va));
      if CanMap(g, va, noL2) {
        RemapMoves(was, MapAt(g, va), b, n, i + 1, noL2);
      } else {
        Undone(was, m.own, g, b, n, i);
      }
    }
  }

  lemma RangeGrows(b: int, i: nat, n: nat)
    requires i <= n
    ensures forall q :: InRange(q, b, i) ==> InRange(q, b, n)
    ensures forall q :: InRange(q, b, i + 1) <==> InRange(q, b, i) || q == Page(b + i * PAGE)
  {
    forall q
      ensures InRange(q, b, i) ==> InRange(q, b, n)
      ensures InRange(q, b, i + 1) <==> InRange(q, b, i) || q == Page(b + i * PAGE)
    {
      OneMorePage(b, i, n, q);
    }
  }

  lemma OneMorePage(b: int, i: nat, n: nat, q: Owner)
    requires i <= n
    ensures InRange(q, b, i) ==> InRange(q, b, n)
    ensures InRange(q, b, i + 1) <==> InRange(q, b, i) || q == Page(b + i * PAGE)
  {
    if InRange(q, b, i + 1) && !InRange(q, b, i) {
      var d := q.va - b;
      assert i * PAGE <= d < i * PAGE + PAGE && d == d / PAGE * PAGE;
    }
  }

  lemma Undone(was: map<Owner, int>, own: map<Owner, int>, g: Mem, b: int, n: nat, i: nat)
    requires MemOk(g) && i < n && Half(was, own, b, n, i) && Page(b + i * PAGE) !in g.own
    requires forall q :: q != Page(b + i * PAGE) ==> (q in g.own <==> q in own) && (q in own ==> g.own[q] == own[q])
    ensures Outside(was, GiveRange(g, b, i).own, b, n) && NothingNew(was, GiveRange(g, b, i).own)
  {
    hide MemOk, GiveRange, InRange;
    RangeGrows(b, i, n);
    RangeGrows(b, i + 1, n);
    var r := GiveRange(g, b, i);
    forall q
      ensures InRange(q, b, i) ==> q !in r.own
      ensures !InRange(q, b, i) ==> (q in r.own <==> q in g.own) && (q in g.own ==> r.own[q] == g.own[q])
    {
      GiveRangeKeeps(g, b, i, q);
    }
  }
}
