/** brk, mmap2 and munmap in terms of addresses: which pages a process has afterwards, and why a call is
    refused, without the roundings and the 32-bit sums of the code. */
module FramesLaws {
  import opened Frames
  import opened FramesMap
  import opened FramesCalls
  import opened FramesRuns
  import opened FramesExact

  /** Whether owner q has a frame, and which, is the same. */
  predicate SameOwner(was: map<Owner, int>, own: map<Owner, int>, q: Owner) {
    (q in own <==> q in was) && (q in was ==> own[q] == was[q])
  }

  /** A page that begins in [x, y). */
  predicate PageIn(q: Owner, x: int, y: int) { q.Page? && q.va % PAGE == 0 && x <= q.va < y }

  /** The pages between two rounded addresses are those that begin between the addresses themselves. */
  lemma UpTo(x: int, y: int, q: Owner)
    requires 0 <= x <= WORD - PAGE && 0 <= y <= WORD - PAGE
    ensures PageUp(x) < PageUp(y) ==> (InRange(q, PageUp(x), (PageUp(y) - PageUp(x)) / PAGE) <==> PageIn(q, x, y))
    ensures PageUp(x) >= PageUp(y) ==> !PageIn(q, x, y)
  {
    PageUpIs(x);
    PageUpIs(y);
    hide PageUp;
    if PageUp(x) < PageUp(y) && q.Page? {
      var b, n := PageUp(x), (PageUp(y) - PageUp(x)) / PAGE;
      assert b + n * PAGE == PageUp(y);
      Aligned(b, q.va);
      Between(x, PageUp(x), q.va);
      Between(y, PageUp(y), q.va);
    } else if q.Page? {
      Between(x, PageUp(x), q.va);
      Between(y, PageUp(y), q.va);
    }
  }

  lemma Aligned(b: int, va: int)
    requires b % PAGE == 0
    ensures (va - b) % PAGE == 0 <==> va % PAGE == 0
  {
  }

  lemma Between(x: int, up: int, va: int)
    requires up % PAGE == 0 && x <= up < x + PAGE
    ensures va % PAGE == 0 ==> (x <= va <==> up <= va)
  {
  }

  // ---- brk ----------------------------------------------------------------------------------------------

  /** Outside the process's heap range brk is a question: nothing changes. */
  lemma BrkAsks(s: Space, addr: int, noL2: set<int>)
    requires addr < s.brkStart || addr >= s.brkCeiling
    ensures Brk(s, addr, noL2) == s
  {
  }

  /** After a brk that moves the break, the pages from the old break up to the new one are there, those
      from the new one up to the old one are gone, and nothing else has changed hands. */
  lemma BrkMoves(s: Space, addr: int, noL2: set<int>, q: Owner)
    requires SpaceOk(s) && ProcOk(s) && IsWord(addr) && s.brkStart <= addr < s.brkCeiling && Brk(s, addr, noL2).brk == addr
    ensures var own := Brk(s, addr, noL2).m.own;
      && (PageIn(q, s.brk, addr) ==> q in own)
      && (PageIn(q, addr, s.brk) ==> q !in own)
      && (!PageIn(q, s.brk, addr) && !PageIn(q, addr, s.brk) ==> SameOwner(s.m.own, own, q))
  {
    hide MemOk, UserPages, GrowRange, GrowFrames, GiveRange, PageUp, InRange, PageIn, Used;
    var top, end, n := PageUp(s.brk), PageUp(addr), HeapPages(s, addr);
    PageUpIs(s.brk);
    PageUpIs(addr);
    UpTo(s.brk, addr, q);
    UpTo(addr, s.brk, q);
    if n > 0 {
      GrewWhole(s, addr, noL2);
      GrownOnly(s.m, top, n, noL2, q);
    } else if end < top {
      GiveRangeKeeps(s.m, end, (top - end) / PAGE, q);
    }
  }

  lemma GrewWhole(s: Space, addr: int, noL2: set<int>)
    requires SpaceOk(s) && IsWord(addr) && s.brkStart <= addr < s.brkCeiling && Brk(s, addr, noL2).brk == addr && HeapPages(s, addr) > 0
    ensures |GrowFrames(s.m, PageUp(s.brk), HeapPages(s, addr), noL2)| == HeapPages(s, addr)
  {
    hide MemOk, UserPages, GrowRange, GrowFrames, GiveRange, PageUp;
    PageUpIs(s.brk);
    PageUpIs(addr);
  }

  /** A whole growth maps the range and moves nothing else. */
  lemma GrownOnly(m: Mem, b: int, n: nat, noL2: set<int>, q: Owner)
    requires MemOk(m) && |GrowFrames(m, b, n, noL2)| == n
    ensures var own := GrowRange(m, b, n, noL2).own; if InRange(q, b, n) then q in own else SameOwner(m.own, own, q)
  {
    hide MemOk, GrowFrames, TakeMany, NewFrames;
    var fs := GrowFrames(m, b, n, noL2);
    GrowFramesNew(m, b, n, noL2);
    NewInRange(m, fs);
    if InRange(q, b, n) {
      var j := (q.va - b) / PAGE;
      assert Pages(b, n)[j] == q;
      TakenOwners(m, b, n, fs);
    } else {
      forall j | 0 <= j < n
        ensures Pages(b, n)[j] != q
      {
        assert InRange(Pages(b, n)[j], b, n);
      }
      TakenElse(m, Pages(b, n), fs, q);
    }
  }

  lemma {:induction false} TakenElse(m: Mem, os: seq<Owner>, fs: seq<nat>, q: Owner)
    requires |os| == |fs| && (forall i :: 0 <= i < |fs| ==> fs[i] < |m.bits|) && (forall i :: 0 <= i < |os| ==> os[i] != q)
    ensures SameOwner(m.own, TakeMany(m, os, fs).own, q)
    decreases |os|
  {
    if os != [] {
      TakenElse(Take(m, os[0], fs[0]), os[1..], fs[1..], q);
    }
  }

  // ---- mmap2 ---------------------------------------------------------------------------------------------

  /** The highest page boundary with room for len bytes below top. */
  function BaseBelow(top: int, len: int): int { (top - len) / PAGE * PAGE }

  /** At most all of user space, which is [0x1000, 0x40000000). */
  predicate LengthFits(len: int) { 0 < len <= 0x4000_0000 - 0x1000 }

  /** In order: the length, MAP_PRIVATE, the descriptor, the offset, and then the place. A fixed mapping
      must begin on a page boundary and lie in user space; any other is put right below the last one, and
      must lie in user space above the break. */
  lemma MmapRefusals(s: Space, a: MmapArgs)
    requires SpaceOk(s) && ProcOk(s) && ArgsOk(a)
    ensures MmapRefused(s, a) ==
      if !LengthFits(a.len) then -22
      else if !a.priv then -38
      else if !a.anon && a.fd < 0 then -9
      else if a.pgoff >= 0x10_0000 then -22
      else if a.fixed then if a.addr % PAGE == 0 && 0x1000 <= a.addr && a.addr + a.len <= 0x4000_0000 then 0 else -22
      else if BaseBelow(s.mmapTop, a.len) >= 0x1000 && BaseBelow(s.mmapTop, a.len) >= s.brk then 0 else -12
    ensures LengthFits(a.len) && (a.fixed || BaseBelow(s.mmapTop, a.len) >= 0) ==>
      MmapBase(s, a) == if a.fixed then a.addr else BaseBelow(s.mmapTop, a.len)
  {
    if LengthFits(a.len) {
      var span := PageUp(a.len);
      PageUpIs(a.len);
      PageUpIs(s.brk);
      hide PageUp, MemOk, UserPages;
      BelowIs(s.mmapTop, a.len, span);
      SubIs(s.mmapTop, span);
      SubIs(s.mmapTop, USER_VA_MIN);
      hide BaseBelow, Sub;
      if a.fixed {
        FixedFits(a.addr, a.len, span);
      } else {
        Between(s.brk, PageUp(s.brk), s.mmapTop - span);
      }
    }
  }

  /** Accepted arguments fail with -12 exactly when a page cannot be mapped or the frames run out, and else
      with -13 exactly when the file cannot be read. */
  lemma MmapFailures(s: Space, a: MmapArgs)
    requires SpaceOk(s) && ArgsOk(a) && MmapRefused(s, a) == 0
    ensures var b, n := MmapBase(s, a), PageUp(a.len) / PAGE;
      var maps := Reach(b, n, a.noL2) == n && Missing(s.m.own, b, n) <= Free(s.m);
      && (Mmap2(s, a).1 == -12 <==> !maps) && (Mmap2(s, a).1 == -13 <==> maps && !a.anon && !a.fileOk)
  {
    hide MemOk, UserPages, Remap, GiveRange, PageUp, Sub, Reach, Missing, Used;
    AlignedBase(s, a);
    PageUpIs(a.len);
    RemapSucceeds(s.m, MmapBase(s, a), PageUp(a.len) / PAGE, 0, a.noL2);
  }

  lemma BelowIs(top: int, len: int, span: int)
    requires top % PAGE == 0 && span % PAGE == 0 && len <= span < len + PAGE
    ensures BaseBelow(top, len) == top - span
  {
  }

  lemma FixedFits(addr: int, len: int, span: int)
    requires IsWord(addr) && LengthFits(len) && span % PAGE == 0 && len <= span < len + PAGE
    ensures addr % PAGE == 0 && USER_VA_MIN <= addr ==>
      (addr + len <= USER_VA_MAX <==> (addr + span) % WORD <= USER_VA_MAX && (addr + span) % WORD >= addr)
  {
    EndWraps(addr + span);
  }

  // ---- munmap ----------------------------------------------------------------------------------------------

  /** munmap returns 0 exactly for a page boundary. If the range does not come within a page of the end
      of the address space, afterwards no page that begins in it is mapped, nothing else has changed
      hands, and the place for the next mapping moves up past it only if it was the lowest one. */
  lemma MunmapClears(s: Space, addr: int, len: int, q: Owner)
    requires SpaceOk(s) && IsWord(addr) && IsWord(len) && addr + len <= WORD - PAGE
    ensures var (r, code) := Munmap(s, addr, len);
      && code == (if addr % PAGE == 0 then 0 else -22) && (code != 0 ==> r == s)
      && (code == 0 && PageIn(q, addr, addr + len) ==> q !in r.m.own)
      && (!PageIn(q, addr, addr + len) ==> SameOwner(s.m.own, r.m.own, q))
      && (code == 0 && addr != s.mmapTop ==> r.mmapTop == s.mmapTop)
      && (code == 0 && addr == s.mmapTop ==> r.mmapTop % PAGE == 0 && addr + len <= r.mmapTop < addr + len + PAGE)
      && r.brk == s.brk && r.brkStart == s.brkStart && r.brkCeiling == s.brkCeiling
  {
    hide MemOk, UserPages, GiveRange, PageUp, MunmapPages, PageIn;
    if addr % PAGE == 0 {
      EndIs(addr, len);
      PagesBetween(addr, len, q);
      hide InRange;
      GiveRangeKeeps(s.m, addr, MunmapPages(addr, len), q);
    }
  }

  lemma EndIs(addr: int, len: int)
    requires IsWord(addr) && IsWord(len) && addr + len <= WORD - PAGE
    ensures var e := MunmapEnd(addr, len); e % PAGE == 0 && addr + len <= e < addr + len + PAGE
  {
    EndWraps(addr + len);
    PageUpIs(addr + len);
  }

  lemma PagesBetween(addr: int, len: int, q: Owner)
    requires IsWord(addr) && IsWord(len) && addr + len <= WORD - PAGE && addr % PAGE == 0
    ensures InRange(q, addr, MunmapPages(addr, len)) <==> PageIn(q, addr, addr + len)
  {
    EndIs(addr, len);
    var e := MunmapEnd(addr, len);
    hide MunmapEnd;
    if q.Page? {
      Aligned(addr, q.va);
      Between(addr + len, e, q.va);
      WholePages(addr, e);
    }
  }

  lemma WholePages(a: int, e: int)
    requires a % PAGE == 0 && e % PAGE == 0 && a <= e
    ensures a + (e - a + PAGE - 1) / PAGE * PAGE == e
  {
  }
}
