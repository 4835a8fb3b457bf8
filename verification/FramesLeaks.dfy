/** Frames that are marked used but belong to nobody: which calls lose one, over every run. */
module FramesLeaks {
  import opened Frames
  import opened FramesMap
  import opened FramesCalls
  import opened FramesRuns
  import opened FramesExact

  ghost predicate Owned(m: Mem, f: int) {
    f in m.others || exists o :: o in m.own && m.own[o] == f
  }

  /** Every frame that is marked used belongs to somebody. */
  ghost predicate NoLeak(m: Mem) {
    forall f :: 0 <= f < |m.bits| && m.bits[f] ==> Owned(m, f)
  }

  // ---- one frame ----------------------------------------------------------------------------------

  lemma TakenFrames(m: Mem, o: Owner, f: nat, g: int)
    requires f < |m.bits| && !m.bits[f] && 0 <= g < |m.bits| && MemOk(m)
    ensures var t := Take(m, o, f); t.bits[g] && !Owned(t, g) <==> m.bits[g] && (!Owned(m, g) || (o in m.own && m.own[o] == g))
  {
    hide Used;
    var t := Take(m, o, f);
    if g == f {
      assert t.own[o] == f;
    } else {
      if Owned(m, g) && g !in m.others && !(o in m.own && m.own[o] == g) {
        var q :| q in m.own && m.own[q] == g;
        assert t.own[q] == g;
      }
      if Owned(t, g) && g !in t.others {
        var q :| q in t.own && t.own[q] == g;
        assert q != o && m.own[q] == g;
      }
    }
  }

  /** Taking a frame loses one exactly when its owner had another. */
  lemma TakeLeaks(m: Mem, o: Owner, f: nat)
    requires MemOk(m) && f < |m.bits| && !m.bits[f]
    ensures NoLeak(Take(m, o, f)) <==> NoLeak(m) && o !in m.own
  {
    hide MemOk, Owned, Take;
    TakeShape(m, o, f);
    forall g | 0 <= g < |m.bits|
      ensures Take(m, o, f).bits[g] && !Owned(Take(m, o, f), g) <==> m.bits[g] && (!Owned(m, g) || (o in m.own && m.own[o] == g))
    {
      TakenFrames(m, o, f, g);
    }
    if o in m.own {
      FrameIn(m, o);
    }
  }

  lemma TakeShape(m: Mem, o: Owner, f: nat)
    requires f < |m.bits|
    ensures |Take(m, o, f).bits| == |m.bits|
  {
  }

  lemma GivenFrames(m: Mem, o: Owner, g: int)
    requires MemOk(m) && o in m.own && 0 <= g < |m.bits|
    ensures 0 <= m.own[o] < |m.bits|
    ensures var t := Give(m, o); t.bits[g] && !Owned(t, g) <==> m.bits[g] && !Owned(m, g)
  {
    hide Used;
    FrameIn(m, o);
    var t := Give(m, o);
    if Owned(m, g) && g !in m.others && g != m.own[o] {
      var q :| q in m.own && m.own[q] == g;
      assert q in t.own && t.own[q] == g;
    }
    if Owned(t, g) && g !in t.others {
      var q :| q in t.own && t.own[q] == g;
      assert q in m.own && m.own[q] == g;
    }
  }

  /** Giving back loses nothing and finds nothing. */
  lemma GiveLeaks(m: Mem, o: Owner)
    requires MemOk(m)
    ensures MemOk(GiveIf(m, o)) && (NoLeak(GiveIf(m, o)) <==> NoLeak(m))
  {
    hide MemOk, Owned, Used;
    GiveIfKeeps(m, o);
    if o in m.own {
      FrameIn(m, o);
      forall g | 0 <= g < |m.bits|
        ensures Give(m, o).bits[g] && !Owned(Give(m, o), g) <==> m.bits[g] && !Owned(m, g)
      {
        GivenFrames(m, o, g);
      }
    }
  }

  lemma {:induction false} GiveRangeLeaks(m: Mem, b: int, n: nat)
    requires MemOk(m)
    ensures MemOk(GiveRange(m, b, n)) && (NoLeak(GiveRange(m, b, n)) <==> NoLeak(m))
    decreases n
  {
    hide MemOk, NoLeak, GiveIf;
    if n > 0 {
      GiveLeaks(m, Page(b));
      GiveRangeLeaks(GiveIf(m, Page(b)), b + PAGE, n - 1);
    }
  }

  // ---- brk ------------------------------------------------------------------------------------------

  lemma {:induction false} GrowLeaks(m: Mem, b: int, n: nat, noL2: set<int>)
    requires MemOk(m)
    ensures var fs := GrowFrames(m, b, n, noL2); var t := TakeMany(m, Pages(b, |fs|), fs);
      MemOk(t) && (NoLeak(t) <==> NoLeak(m) && Unmapped(m.own, b, |fs|))
    decreases n
  {
    hide MemOk, NoLeak, FirstFree, Unmapped;
    var fs := GrowFrames(m, b, n, noL2);
    if n == 0 || !CanMap(m, b, noL2) {
      TakeNone(m, Pages(b, 0), []);
      NonePages(m.own, b);
    } else {
      var f, t := FirstFree(m.bits, 0), MapAt(m, b);
      var gs := GrowFrames(t, b + PAGE, n - 1, noL2);
      TakeKeeps(m, Page(b), f);
      TakeLeaks(m, Page(b), f);
      GrowLeaks(t, b + PAGE, n - 1, noL2);
      PagesStep(b, |gs|);
      assert fs[1..] == gs;
      FirstPage(m.own, b, f, |gs|);
    }
  }

  lemma NonePages(own: map<Owner, int>, b: int)
    ensures Unmapped(own, b, 0)
  {
  }

  lemma FirstPage(own: map<Owner, int>, b: int, f: int, n: nat)
    ensures Unmapped(own, b, n + 1) <==> Page(b) !in own && Unmapped(own[Page(b) := f], b + PAGE, n)
  {
    var t := own[Page(b) := f];
    if Unmapped(own, b, n + 1) {
      assert InRange(Page(b), b, n + 1);
      forall o | InRange(o, b + PAGE, n)
        ensures o !in t
      {
        assert InRange(o, b, n + 1) && o != Page(b);
      }
    }
    if Page(b) !in own && Unmapped(t, b + PAGE, n) {
      forall o | InRange(o, b, n + 1)
        ensures o !in own
      {
        if o != Page(b) {
          assert InRange(o, b + PAGE, n);
        }
      }
    }
  }

  /** Growing the heap loses a frame exactly when it maps over a page, whether it succeeds or not. */
  lemma GrowRangeLeaks(m: Mem, b: int, n: nat, noL2: set<int>)
    requires MemOk(m)
    ensures NoLeak(GrowRange(m, b, n, noL2)) <==> NoLeak(m) && Unmapped(m.own, b, Min(Reach(b, n, noL2), Free(m)))
  {
    hide MemOk, NoLeak, Unmapped, GrowFrames, TakeMany, GiveRange, Reach, Used;
    GrowLeaks(m, b, n, noL2);
    GrowCount(m, b, n, noL2);
    var fs := GrowFrames(m, b, n, noL2);
    GiveRangeLeaks(TakeMany(m, Pages(b, |fs|), fs), b, |fs|);
  }

  // ---- mmap2 and files --------------------------------------------------------------------------------

  lemma {:induction false} RemapLeaks(m: Mem, b: int, n: nat, i: nat, noL2: set<int>)
    requires MemOk(m) && i <= n
    ensures MemOk(Remap(m, b, n, i, noL2).0) && (NoLeak(Remap(m, b, n, i, noL2).0) <==> NoLeak(m))
    decreases n - i
  {
    hide MemOk, NoLeak, GiveIf, FirstFree;
    if i < n {
      var va := b + i * PAGE;
      var g := GiveIf(m, Page(va));
      GiveLeaks(m, Page(va));
      GiveIfKeeps(m, Page(va));
      if CanMap(g, va, noL2) {
        TakeKeeps(g, Page(va), FirstFree(g.bits, 0));
        TakeLeaks(g, Page(va), FirstFree(g.bits, 0));
        RemapLeaks(MapAt(g, va), b, n, i + 1, noL2);
      } else {
        GiveRangeLeaks(g, b, i);
      }
    }
  }

  /** None of the slots from `from` on that growth reaches has a frame. */
  ghost predicate SlotsEmpty(own: map<Owner, int>, ino: int, from: int, n: int) {
    forall i :: from <= i < from + n ==> FileSlot(ino, i) !in own
  }

  function Least(x: int, y: int): int { if x < y then x else y }

  lemma {:induction false} GrowFileLeaks(m: Mem, ino: int, from: int, upto: int)
    requires MemOk(m)
    ensures NoLeak(GrowFile(m, ino, from, upto).0) <==> NoLeak(m) && SlotsEmpty(m.own, ino, from, Least(upto - from, Free(m)))
    decreases upto - from
  {
    hide MemOk, NoLeak, Used, FirstFree;
    FreeIff(m.bits);
    if from < upto && FirstFree(m.bits, 0) < |m.bits| {
      var o, f := FileSlot(ino, from), FirstFree(m.bits, 0);
      var t := Take(m, o, f);
      TakeKeeps(m, o, f);
      TakeLeaks(m, o, f);
      TakeFree(m, o, f);
      GrowFileLeaks(t, ino, from + 1, upto);
      FirstSlot(m.own, ino, from, f, Least(upto - from - 1, Free(t)));
    }
  }

  lemma FirstSlot(own: map<Owner, int>, ino: int, from: int, f: int, n: int)
    requires n >= 0
    ensures SlotsEmpty(own, ino, from, n + 1) <==> FileSlot(ino, from) !in own && SlotsEmpty(own[FileSlot(ino, from) := f], ino, from + 1, n)
  {
  }

  lemma {:induction false} ShrinkFileLeaks(m: Mem, ino: int, from: int, upto: int)
    requires MemOk(m)
    ensures NoLeak(ShrinkFile(m, ino, from, upto)) <==> NoLeak(m)
    decreases upto - from
  {
    hide MemOk, NoLeak, GiveIf;
    if from < upto {
      GiveLeaks(m, FileSlot(ino, from));
      ShrinkFileLeaks(GiveIf(m, FileSlot(ino, from)), ino, from + 1, upto);
    }
  }

  // ---- calls and runs ---------------------------------------------------------------------------------

  /** The call forgets a frame: brk grows over a mapped page, or a file over a slot that a failed growth
      had filled. */
  ghost predicate Loses(s: Space, c: Call) {
    match c
    case CallBrk(addr, noL2) =>
      && s.brkStart <= addr < s.brkCeiling
      && !Unmapped(s.m.own, PageUp(s.brk), Min(Reach(PageUp(s.brk), HeapPages(s, addr), noL2), Free(s.m)))
    case CallGrowFile(ino, from, upto) => !SlotsEmpty(s.m.own, ino, from, Least(upto - from, Free(s.m)))
    case CallMmap2(_) => false
    case CallMunmap(_, _) => false
    case CallShrinkFile(_, _, _) => false
  }

  lemma BrkLeaks(s: Space, addr: int, noL2: set<int>)
    requires SpaceOk(s) && IsWord(addr)
    ensures NoLeak(Brk(s, addr, noL2).m) <==> NoLeak(s.m) && !Loses(s, CallBrk(addr, noL2))
  {
    hide MemOk, UserPages, NoLeak, Unmapped, GrowRange, GrowFrames, GiveRange, Reach, PageUp, Used;
    var top, n := PageUp(s.brk), HeapPages(s, addr);
    NonePages(s.m.own, top);
    ReachNone(top, noL2);
    if s.brkStart <= addr < s.brkCeiling {
      if n > 0 {
        GrowRangeLeaks(s.m, top, n, noL2);
      } else if PageUp(addr) < top {
        PageUpIs(addr);
        PageUpIs(s.brk);
        GiveRangeLeaks(s.m, PageUp(addr), (top - PageUp(addr)) / PAGE);
      }
    }
  }

  lemma ReachNone(b: int, noL2: set<int>)
    ensures Reach(b, 0, noL2) == 0
  {
  }

  lemma Mmap2Leaks(s: Space, a: MmapArgs)
    requires SpaceOk(s) && ArgsOk(a)
    ensures NoLeak(Mmap2(s, a).0.m) <==> NoLeak(s.m)
  {
    hide MemOk, UserPages, NoLeak, Remap, GiveRange, PageUp, Sub;
    if MmapRefused(s, a) == 0 {
      PageUpIs(a.len);
      var b, n := MmapBase(s, a), PageUp(a.len) / PAGE;
      RemapLeaks(s.m, b, n, 0, a.noL2);
      GiveRangeLeaks(Remap(s.m, b, n, 0, a.noL2).0, b, n);
    }
  }

  /** A call leaves every used frame with an owner exactly when they had one before and it loses none. */
  lemma DoLeaks(s: Space, c: Call)
    requires SpaceOk(s) && CallOk(c)
    ensures NoLeak(Do(s, c).m) <==> NoLeak(s.m) && !Loses(s, c)
  {
    hide MemOk, UserPages, NoLeak, Brk, Mmap2, GrowFile, ShrinkFile, GiveRange, MunmapPages, MunmapEnd, Unmapped, SlotsEmpty;
    match c {
      case CallBrk(addr, noL2) => BrkLeaks(s, addr, noL2);
      case CallMmap2(a) => Mmap2Leaks(s, a);
      case CallMunmap(addr, len) => GiveRangeLeaks(s.m, addr, MunmapPages(addr, len));
      case CallGrowFile(ino, from, upto) => GrowFileLeaks(s.m, ino, from, upto);
      case CallShrinkFile(ino, from, upto) => ShrinkFileLeaks(s.m, ino, from, upto);
    }
  }

  /** Over every run: all used frames have owners exactly when they had at first and no call lost one. */
  lemma {:induction false} LeaksOverRuns(ss: seq<Space>, cs: seq<Call>, k: nat)
    requires IsRun(ss, cs) && k < |ss|
    ensures NoLeak(ss[k].m) <==> NoLeak(ss[0].m) && forall j :: 0 <= j < k ==> !Loses(ss[j], cs[j])
    decreases k
  {
    hide SpaceOk, NoLeak, Do, Loses, CallOk;
    if k > 0 {
      LeaksOverRuns(ss, cs, k - 1);
      FramesOverRuns(ss, cs, k - 1);
      DoLeaks(ss[k - 1], cs[k - 1]);
    }
  }

  // ---- inputs -----------------------------------------------------------------------------------------

  /** After MAP_FIXED ahead of the break, a brk that succeeds over that page loses its frame. */
  lemma BrkLoses()
    ensures SpaceOk(AHEAD) && NoLeak(AHEAD.m) && Brk(AHEAD, 0x1_1000, {}).brk == 0x1_1000 && !NoLeak(Brk(AHEAD, 0x1_1000, {}).m)
  {
    hide SpaceOk, Brk, Free;
    MappedAhead();
    assert PageUp(0x1_0000) == 0x1_0000 && PageUp(0x1_1000) == 0x1_1000;
    assert Reach(0x1_0000, 1, {}) == 1;
    assert InRange(Page(0x1_0000), 0x1_0000, 1);
    AheadOwned();
    BrkExact(AHEAD, 0x1_1000, {});
    BrkLeaks(AHEAD, 0x1_1000, {});
  }

  lemma AheadOwned()
    ensures NoLeak(AHEAD.m)
  {
    assert AHEAD.m.own[Page(0x1_0000)] == 0;
  }

  /** One frame is free; file 7 holds slot 0, left by a growth that failed. */
  const LEFTOVER := FRESH.(m := Mem([true, false], 1, map[FileSlot(7, 0) := 0], {}))

  /** Such a state: two frames, one of them file 9's. File 7 fails to grow to two pages, and file 9 is cut. */
  lemma FailedGrowth()
    ensures var m := Mem([false, true], 1, map[FileSlot(9, 0) := 1], {}); var (g, ok) := GrowFile(m, 7, 0, 2);
      !ok && ShrinkFile(g, 9, 0, 1) == LEFTOVER.m
  {
    var m := Mem([false, true], 1, map[FileSlot(9, 0) := 1], {});
    var t := Take(m, FileSlot(7, 0), 0);
    assert t.bits == [true, true];
    assert GrowFile(t, 7, 1, 2) == (t, false);
    assert GrowFile(m, 7, 0, 2) == (t, false);
    var g := GiveIf(t, FileSlot(9, 0));
    assert g.bits == [true, false] && g.own == map[FileSlot(7, 0) := 0];
  }

  /** The growth tried again takes the free frame and loses the other. */
  lemma GrowFileLoses()
    ensures MemOk(LEFTOVER.m) && NoLeak(LEFTOVER.m) && GrowFile(LEFTOVER.m, 7, 0, 1).1 && !NoLeak(GrowFile(LEFTOVER.m, 7, 0, 1).0)
  {
    hide GrowFile;
    var m := LEFTOVER.m;
    assert [true, false][..1] == [true] && [true][..0] == [];
    assert Used([true]) == 1 && Used([true, false]) == 1;
    hide Used;
    assert m.own[FileSlot(7, 0)] == 0;
    GrowFileMoves(m, 7, 0, 1, FileSlot(7, 0));
    GrowFileLeaks(m, 7, 0, 1);
  }
}
