/** When the memory calls succeed, what they leave, and where they fall short. */
module FramesExact {
  import opened Frames
  import opened FramesMap
  import opened FramesCalls
  import opened FramesRuns

  // ---- brk ----------------------------------------------------------------------------------------

  /** brk moves the break exactly when the heap pages can be mapped and find frames. A brk that fails
      has mapped the first k of them, and restores the memory exactly when those were unmapped. */
  lemma BrkExact(s: Space, addr: int, noL2: set<int>)
    requires SpaceOk(s) && IsWord(addr) && s.brkStart <= addr < s.brkCeiling
    ensures var r, top, n := Brk(s, addr, noL2), PageUp(s.brk), HeapPages(s, addr);
      var k := Min(Reach(top, n, noL2), Free(s.m));
      && (r.brk == addr <==> k == n)
      && (k < n ==> r.brk == s.brk && (r.m == s.m <==> Unmapped(s.m.own, top, k)))
      && (k == n > 0 ==> forall j :: 0 <= j < n ==> Pages(top, n)[j] in r.m.own)
      && (n == 0 ==> r.m == GiveRange(s.m, PageUp(addr), (top - PageUp(addr)) / PAGE))
  {
    hide MemOk, UserPages, GrowRange, GrowFrames, GiveRange, PageUp, Reach, Used, Unmapped;
    var top, n := PageUp(s.brk), HeapPages(s, addr);
    PageUpIs(s.brk);
    PageUpIs(addr);
    RangeNone(s.m, PageUp(addr));
    GrowCount(s.m, top, n, noL2);
    GrowRestores(s.m, top, n, noL2);
  }

  /** Two free frames; the break is at 0x10000. */
  const FRESH := Space(Mem([false, false], 0, map[], {}), 0x1_0000, 0x1_0000, 0x2_0000, 0x4000_0000)

  /** One page mapped, with MAP_FIXED, where the heap will grow. */
  const AHEAD := FRESH.(m := Mem([true, false], 1, map[Page(0x1_0000) := 0], {}))

  lemma MappedAhead()
    ensures SpaceOk(FRESH) && SpaceOk(AHEAD) && Free(AHEAD.m) == 1
    ensures Mmap2(FRESH, MmapArgs(0x1_0000, PAGE, true, true, true, -1, 0, {}, true)) == (AHEAD, 0x1_0000)
  {
    assert [false, false][..1] == [false] && [true, false][..1] == [true] && [false][..0] == [] && [true][..0] == [];
    assert Used([false]) == 0 && Used([true]) == 1;
    assert Used([false, false]) == 0 && Used([true, false]) == 1;
    hide Used;
    assert PageUp(PAGE) == PAGE;
    var m := FRESH.m;
    assert FirstFree(m.bits, 0) == 0 && GiveIf(m, Page(0x1_0000)) == m;
    assert [false, false][0 := true] == [true, false];
    assert MapAt(m, 0x1_0000) == AHEAD.m;
    assert Remap(m, 0x1_0000, 1, 0, {}) == (AHEAD.m, true);
  }

  /** Growing the heap over that page by two, with one frame left, fails; the break stays, but the memory
      does not. */
  lemma BrkLosesPage()
    ensures SpaceOk(AHEAD) && Brk(AHEAD, 0x1_2000, {}).brk == AHEAD.brk && Brk(AHEAD, 0x1_2000, {}).m != AHEAD.m
  {
    TwoPagesAhead();
    assert InRange(Page(0x1_0000), 0x1_0000, 1) && Page(0x1_0000) in AHEAD.m.own;
    assert !Unmapped(AHEAD.m.own, 0x1_0000, 1);
    hide SpaceOk, Brk, Free, PageUp, HeapPages, Reach, Unmapped, InRange, Pages;
    MappedAhead();
    BrkExact(AHEAD, 0x1_2000, {});
  }

  lemma TwoPagesAhead()
    ensures PageUp(AHEAD.brk) == 0x1_0000 && HeapPages(AHEAD, 0x1_2000) == 2 && Reach(0x1_0000, 2, {}) == 2
  {
    assert PageUp(0x1_0000) == 0x1_0000 && PageUp(0x1_2000) == 0x1_2000;
    assert Reach(0x1_2000, 0, {}) == 0 && Reach(0x1_1000, 1, {}) == 1;
  }

  // ---- mmap2 --------------------------------------------------------------------------------------

  lemma {:induction false} ReachUser(b: int, n: nat, noL2: set<int>)
    requires n > 0 && Reach(b, n, noL2) == n
    ensures USER_VA_MIN <= b && b + (n - 1) * PAGE < USER_VA_MAX
    decreases n
  {
    if n > 1 {
      ReachUser(b + PAGE, n - 1, noL2);
    }
  }

  /** mmap2 succeeds exactly when its arguments pass, every page can be mapped, the pages that were not
      mapped find frames, and the file can be read. */
  lemma MmapSucceeds(s: Space, a: MmapArgs)
    requires SpaceOk(s) && ArgsOk(a)
    ensures var b, n := MmapBase(s, a), PageUp(a.len) / PAGE;
      Mmap2(s, a).1 >= 0 <==>
      MmapRefused(s, a) == 0 && Reach(b, n, a.noL2) == n && Missing(s.m.own, b, n) <= Free(s.m) && (a.anon || a.fileOk)
  {
    hide MemOk, UserPages, Remap, GiveRange, PageUp, Sub, Reach, Missing, Used;
    if MmapRefused(s, a) == 0 {
      AlignedBase(s, a);
      PageUpIs(a.len);
      RemapSucceeds(s.m, MmapBase(s, a), PageUp(a.len) / PAGE, 0, a.noL2);
    }
  }

  lemma FirstHalf(own: map<Owner, int>, b: int, n: nat)
    ensures Half(own, own, b, n, 0)
  {
  }

  /** A mapping that succeeds has all its pages, in user space, at the fixed address or right below the
      last one and above the heap; nothing outside it changes hands. */
  lemma MmapGives(s: Space, a: MmapArgs)
    requires SpaceOk(s) && ArgsOk(a) && Mmap2(s, a).1 >= 0
    ensures var (r, b) := Mmap2(s, a); var n := PageUp(a.len) / PAGE;
      && 0 < a.len <= n * PAGE < a.len + PAGE
      && USER_VA_MIN <= b && b + n * PAGE <= USER_VA_MAX && b % PAGE == 0
      && (forall q :: InRange(q, b, n) ==> q in r.m.own) && Outside(s.m.own, r.m.own, b, n)
      && (a.fixed ==> b == a.addr && r.mmapTop == s.mmapTop)
      && (!a.fixed ==> b == r.mmapTop == s.mmapTop - n * PAGE && b >= PageUp(s.brk))
  {
    hide MemOk, UserPages, Remap, GiveRange, PageUp, Reach, Missing, Used, Outside, InRange, Half, Sub;
    var b, n := MmapBase(s, a), PageUp(a.len) / PAGE;
    MmapSucceeds(s, a);
    AlignedBase(s, a);
    PageUpIs(a.len);
    ReachUser(b, n, a.noL2);
    FirstHalf(s.m.own, b, n);
    RemapMoves(s.m.own, s.m, b, n, 0, a.noL2);
  }

  /** A mapping that fails gives nobody a frame, and takes frames only inside the range it tried. */
  lemma MmapFails(s: Space, a: MmapArgs)
    requires SpaceOk(s) && ArgsOk(a) && Mmap2(s, a).1 < 0
    ensures var r := Mmap2(s, a).0;
      && r.mmapTop == s.mmapTop && NothingNew(s.m.own, r.m.own)
      && Outside(s.m.own, r.m.own, MmapBase(s, a), PageUp(a.len) / PAGE)
      && (MmapRefused(s, a) != 0 ==> r == s)
  {
    hide MemOk, UserPages, Remap, GiveRange, PageUp, Used, Outside, InRange, Half, Sub, NothingNew;
    PageUpIs(a.len);
    var b, n := MmapBase(s, a), PageUp(a.len) / PAGE;
    NothingMoved(s.m.own, b, n);
    if MmapRefused(s, a) == 0 {
      AlignedBase(s, a);
      FirstHalf(s.m.own, b, n);
      RemapMoves(s.m.own, s.m, b, n, 0, a.noL2);
      RemapOk(s.m, b, n, 0, a.noL2);
      TakenBack(s.m.own, Remap(s.m, b, n, 0, a.noL2).0, b, n);
    }
  }

  lemma NothingMoved(own: map<Owner, int>, b: int, n: nat)
    ensures Outside(own, own, b, n) && NothingNew(own, own)
  {
  }

  lemma TakenBack(was: map<Owner, int>, m: Mem, b: int, n: nat)
    requires MemOk(m) && Outside(was, m.own, b, n)
    ensures Outside(was, GiveRange(m, b, n).own, b, n) && NothingNew(was, GiveRange(m, b, n).own)
  {
    hide MemOk, GiveRange, InRange;
    forall q
      ensures InRange(q, b, n) ==> q !in GiveRange(m, b, n).own
      ensures !InRange(q, b, n) ==> (q in GiveRange(m, b, n).own <==> q in m.own) && (q in m.own ==> GiveRange(m, b, n).own[q] == m.own[q])
    {
      GiveRangeKeeps(m, b, n, q);
    }
  }

  lemma MmapKeepsProc(s: Space, a: MmapArgs)
    requires SpaceOk(s) && ArgsOk(a) && ProcOk(s)
    ensures ProcOk(Mmap2(s, a).0)
  {
    hide SpaceOk, Mmap2, PageUp, Outside, NothingNew;
    if Mmap2(s, a).1 >= 0 {
      MmapGives(s, a);
    } else {
      MmapFails(s, a);
    }
    MmapKeepsBrk(s, a);
  }

  lemma MmapKeepsBrk(s: Space, a: MmapArgs)
    ensures var r := Mmap2(s, a).0; r.brk == s.brk && r.brkStart == s.brkStart && r.brkCeiling == s.brkCeiling
  {
    hide Remap, GiveRange, PageUp;
  }

  // ---- munmap -------------------------------------------------------------------------------------

  /** The pages munmap gives back cover the range exactly when its end is at most 2^32 - 4096; beyond,
      the end wraps and nothing is unmapped, yet the call returns 0. */
  lemma MunmapCovers(addr: int, len: int)
    requires addr % PAGE == 0 && IsWord(addr) && 0 < len < WORD
    ensures len <= MunmapPages(addr, len) * PAGE <==> addr + len <= WORD - PAGE
    ensures addr + len <= WORD - PAGE ==> MunmapPages(addr, len) * PAGE < len + PAGE && MunmapEnd(addr, len) == addr + MunmapPages(addr, len) * PAGE
    ensures addr + len > WORD - PAGE ==> MunmapPages(addr, len) == 0
  {
    hide PageUp;
    var e := (addr + len) % WORD;
    EndWraps(addr + len);
    PageUpIs(e);
    if addr + len >= WORD {
      WrapsBelow(addr, e);
    }
  }

  lemma EndWraps(x: int)
    requires 0 <= x < 2 * WORD
    ensures x % WORD == if x < WORD then x else x - WORD
  {
  }

  lemma WrapsBelow(addr: int, e: int)
    requires addr % PAGE == 0 && IsWord(addr) && 0 <= e < addr
    ensures PageUp(e) <= addr
  {
    PageUpIs(e);
  }

  /** One byte past that bound: more than three quarters of the address space asked for, nothing unmapped. */
  lemma MunmapMisses()
    ensures MunmapPages(0x3800_0000, 0xC7FF_F001) == 0 && MunmapEnd(0x3800_0000, 0xC7FF_F001) == 0
  {
    EndWraps(0x3800_0000 + 0xC7FF_F001);
    PageUpIs(0x3800_0000 + 0xC7FF_F001);
  }

  /** munmap keeps the process's addresses in user space exactly when it does not start at mmap_top, or
      ends inside user space, or wraps past 2^32. */
  lemma MunmapKeepsProc(s: Space, addr: int, len: int)
    requires SpaceOk(s) && ProcOk(s) && addr % PAGE == 0 && IsWord(addr) && IsWord(len)
    ensures ProcOk(Munmap(s, addr, len).0) <==> addr != s.mmapTop || addr + len <= USER_VA_MAX || addr + len > WORD
  {
    hide PageUp, GiveRange, MunmapPages;
    var e := (addr + len) % WORD;
    EndWraps(addr + len);
    PageUpIs(e);
    if addr == s.mmapTop {
      UpInside(e);
    }
  }

  lemma UpInside(e: int)
    requires IsWord(e)
    ensures USER_VA_MIN <= PageUp(e) <= USER_VA_MAX <==> 0 < e <= USER_VA_MAX
  {
    PageUpIs(e);
  }

  /** With mmap_top outside user space, every mmap2 without MAP_FIXED fails. */
  lemma TopOutsideFails(s: Space, a: MmapArgs)
    requires SpaceOk(s) && ArgsOk(a) && !a.fixed && !(USER_VA_MIN <= s.mmapTop <= USER_VA_MAX)
    ensures Mmap2(s, a).1 < 0
  {
    hide SpaceOk, Mmap2, PageUp, Outside, InRange;
    if Mmap2(s, a).1 >= 0 {
      MmapGives(s, a);
    }
  }

  /** Two calls: munmap at mmap_top moves it out of user space, either way round, and from then on no
      plain mmap2 succeeds, however much memory is free. */
  lemma MunmapThenMmap(s: Space, a: MmapArgs)
    requires SpaceOk(s) && ProcOk(s) && s.mmapTop == 0x3800_0000 && ArgsOk(a) && !a.fixed
    ensures var t := Munmap(s, 0x3800_0000, 0x1800_0000).0; t.mmapTop == 0x5000_0000 && !ProcOk(t) && Mmap2(t, a).1 < 0
    ensures var t := Munmap(s, 0x3800_0000, 0xC800_0000).0; t.mmapTop == 0 && !ProcOk(t) && Mmap2(t, a).1 < 0
  {
    hide MemOk, GiveRange, MunmapPages, Mmap2;
    EndWraps(0x3800_0000 + 0x1800_0000);
    EndWraps(0x3800_0000 + 0xC800_0000);
    PageUpIs(0x5000_0000);
    PageUpIs(0);
    MunmapKeeps(s, 0x3800_0000, 0x1800_0000);
    MunmapKeeps(s, 0x3800_0000, 0xC800_0000);
    TopOutsideFails(Munmap(s, 0x3800_0000, 0x1800_0000).0, a);
    TopOutsideFails(Munmap(s, 0x3800_0000, 0xC800_0000).0, a);
  }
}
