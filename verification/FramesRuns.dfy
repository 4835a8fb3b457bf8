/** The memory calls of a process and of its files, one after the other. */
module FramesRuns {
  import opened Frames
  import opened FramesMap
  import opened FramesCalls

  /** The memory and the running process's address bookkeeping. */
  datatype Space = Space(m: Mem, brk: int, brkStart: int, brkCeiling: int, mmapTop: int)

  predicate IsWord(x: int) { 0 <= x < WORD }

  /** Every mapped page is a page of user space. */
  ghost predicate UserPages(own: map<Owner, int>) {
    forall q: Owner :: q in own && q.Page? ==> USER_VA_MIN <= q.va < USER_VA_MAX && q.va % PAGE == 0
  }

  /** What every run keeps: one owner per frame, an exact count, user pages in user space. */
  ghost predicate SpaceOk(s: Space) {
    && MemOk(s.m) && UserPages(s.m.own)
    && IsWord(s.brk) && IsWord(s.brkStart) && IsWord(s.brkCeiling) && IsWord(s.mmapTop) && s.mmapTop % PAGE == 0
  }

  /** The addresses of the process lie in user space too. */
  predicate ProcOk(s: Space) {
    && 0 <= s.brkStart <= s.brk <= s.brkCeiling <= USER_VA_MAX
    && USER_VA_MIN <= s.mmapTop <= USER_VA_MAX
  }

  // ---- brk ----------------------------------------------------------------------------------------

  function HeapPages(s: Space, addr: int): nat {
    if PageUp(addr) > PageUp(s.brk) then (PageUp(addr) - PageUp(s.brk)) / PAGE else 0
  }

  /** sys_brk; the call returns the break of the result. */
  function Brk(s: Space, addr: int, noL2: set<int>): Space {
    if addr < s.brkStart || addr >= s.brkCeiling then s
    else
      var top, n := PageUp(s.brk), HeapPages(s, addr);
      if n > 0 then
        var r := s.(m := GrowRange(s.m, top, n, noL2));
        if |GrowFrames(s.m, top, n, noL2)| == n then r.(brk := addr) else r
      else if PageUp(addr) < top then s.(m := GiveRange(s.m, PageUp(addr), (top - PageUp(addr)) / PAGE), brk := addr)
      else s.(brk := addr)
  }

  // ---- mmap2 --------------------------------------------------------------------------------------

  datatype MmapArgs = MmapArgs(addr: int, len: int, priv: bool, anon: bool, fixed: bool, fd: int, pgoff: int,
    noL2: set<int>, fileOk: bool)

  predicate ArgsOk(a: MmapArgs) { IsWord(a.addr) && IsWord(a.len) && IsWord(a.pgoff) }

  /** x - y on 32 bits */
  function Sub(x: int, y: int): int { (x - y) % WORD }

  function MmapBase(s: Space, a: MmapArgs): int {
    if a.fixed then a.addr else Sub(s.mmapTop, PageUp(a.len))
  }

  /** The error sys_mmap2 returns before it maps anything, or 0. */
  function MmapRefused(s: Space, a: MmapArgs): int {
    var span := PageUp(a.len);
    if a.len == 0 || a.len > USER_VA_MAX - USER_VA_MIN then -22
    else if !a.priv then -38
    else if !a.anon && a.fd < 0 then -9
    else if a.pgoff * PAGE > 0xFFFF_FFFF then -22
    else if a.fixed then
      if a.addr % PAGE != 0 then -22
      else if a.addr < USER_VA_MIN || (a.addr + span) % WORD > USER_VA_MAX || (a.addr + span) % WORD < a.addr then -22
      else 0
    else if span > Sub(s.mmapTop, USER_VA_MIN) then -12
    else if Sub(s.mmapTop, span) < PageUp(s.brk) then -12
    else 0
  }

  /** sys_mmap2 */
  function Mmap2(s: Space, a: MmapArgs): (r: (Space, int)) {
    var b, n := MmapBase(s, a), PageUp(a.len) / PAGE;
    if MmapRefused(s, a) != 0 then (s, MmapRefused(s, a))
    else
      var (m, ok) := Remap(s.m, b, n, 0, a.noL2);
      if !ok then (s.(m := m), -12)
      else if !a.anon && !a.fileOk then (s.(m := GiveRange(m, b, n)), -13)
      else (s.(m := m, mmapTop := if a.fixed then s.mmapTop else b), b)
  }

  // ---- munmap -------------------------------------------------------------------------------------

  function MunmapEnd(addr: int, len: int): int { PageUp((addr + len) % WORD) }

  function MunmapPages(addr: int, len: int): nat {
    if addr < MunmapEnd(addr, len) then (MunmapEnd(addr, len) - addr + PAGE - 1) / PAGE else 0
  }

  /** sys_munmap */
  function Munmap(s: Space, addr: int, len: int): (r: (Space, int)) {
    if addr % PAGE != 0 then (s, -22)
    else (s.(m := GiveRange(s.m, addr, MunmapPages(addr, len)),
             mmapTop := if addr == s.mmapTop then MunmapEnd(addr, len) else s.mmapTop), 0)
  }

  // ---- files --------------------------------------------------------------------------------------

  /** The frame loop of ensure_pages: slots [from, upto) of file ino. A failure keeps the frames it got. */
  function GrowFile(m: Mem, ino: int, from: int, upto: int): (r: (Mem, bool))
    decreases upto - from
  {
    if from >= upto then (m, true)
    else if FirstFree(m.bits, 0) == |m.bits| then (m, false)
    else GrowFile(Take(m, FileSlot(ino, from), FirstFree(m.bits, 0)), ino, from + 1, upto)
  }

  /** The freeing loop of ramfs_truncate. */
  function ShrinkFile(m: Mem, ino: int, from: int, upto: int): (r: Mem)
    decreases upto - from
  {
    if from >= upto then m else ShrinkFile(GiveIf(m, FileSlot(ino, from)), ino, from + 1, upto)
  }

  predicate InSlots(q: Owner, ino: int, from: int, upto: int) {
    q.FileSlot? && q.ino == ino && from <= q.slot < upto
  }

  /** Growth succeeds exactly when there are frames enough; then the slots have frames, and in any case
      nothing else changes hands. */
  lemma {:induction false} GrowFileMoves(m: Mem, ino: int, from: int, upto: int, q: Owner)
    requires MemOk(m)
    ensures var (r, ok) := GrowFile(m, ino, from, upto);
      && MemOk(r) && (ok <==> upto - from <= Free(m))
      && (ok && InSlots(q, ino, from, upto) ==> q in r.own)
      && (!InSlots(q, ino, from, upto) ==> (q in r.own <==> q in m.own) && (q in m.own ==> r.own[q] == m.own[q]))
    decreases upto - from
  {
    hide MemOk, Used, FirstFree;
    FreeIff(m.bits);
    if from < upto && FirstFree(m.bits, 0) < |m.bits| {
      var f := FirstFree(m.bits, 0);
      TakeKeeps(m, FileSlot(ino, from), f);
      TakeFree(m, FileSlot(ino, from), f);
      GrowFileMoves(Take(m, FileSlot(ino, from), f), ino, from + 1, upto, q);
    }
  }

  lemma {:induction false} ShrinkFileMoves(m: Mem, ino: int, from: int, upto: int, q: Owner)
    requires MemOk(m)
    ensures var r := ShrinkFile(m, ino, from, upto);
      && MemOk(r) && (InSlots(q, ino, from, upto) ==> q !in r.own)
      && (!InSlots(q, ino, from, upto) ==> (q in r.own <==> q in m.own) && (q in m.own ==> r.own[q] == m.own[q]))
    decreases upto - from
  {
    hide MemOk, GiveIf;
    if from < upto {
      GiveIfKeeps(m, FileSlot(ino, from));
      ShrinkFileMoves(GiveIf(m, FileSlot(ino, from)), ino, from + 1, upto, q);
    }
  }

  // ---- runs ---------------------------------------------------------------------------------------

  datatype Call =
    | CallBrk(addr: int, noL2: set<int>)
    | CallMmap2(args: MmapArgs)
    | CallMunmap(addr: int, len: int)
    | CallGrowFile(ino: int, from: int, upto: int)
    | CallShrinkFile(ino: int, from: int, upto: int)

  /** The arguments are 32-bit words; nothing else is asked of a caller. */
  predicate CallOk(c: Call) {
    match c
    case CallBrk(addr, _) => IsWord(addr)
    case CallMmap2(a) => ArgsOk(a)
    case CallMunmap(addr, len) => IsWord(addr) && IsWord(len)
    case CallGrowFile(_, _, _) => true
    case CallShrinkFile(_, _, _) => true
  }

  function Do(s: Space, c: Call): Space {
    match c
    case CallBrk(addr, noL2) => Brk(s, addr, noL2)
    case CallMmap2(a) => Mmap2(s, a).0
    case CallMunmap(addr, len) => Munmap(s, addr, len).0
    case CallGrowFile(ino, from, upto) => s.(m := GrowFile(s.m, ino, from, upto).0)
    case CallShrinkFile(ino, from, upto) => s.(m := ShrinkFile(s.m, ino, from, upto))
  }

  lemma PageUpIs(x: int)
    requires IsWord(x)
    ensures PageUp(x) % PAGE == 0 && IsWord(PageUp(x))
    ensures x <= WORD - PAGE ==> x <= PageUp(x) < x + PAGE
    ensures x > WORD - PAGE ==> PageUp(x) == 0
  {
    if x <= WORD - PAGE {
      assert (x + PAGE - 1) % WORD == x + PAGE - 1;
    } else {
      assert (x + PAGE - 1) % WORD == x + PAGE - 1 - WORD;
    }
  }

  lemma FewerUser(was: map<Owner, int>, own: map<Owner, int>)
    requires UserPages(was) && forall q: Owner :: q.Page? && q in own ==> q in was
    ensures UserPages(own)
  {
  }

  lemma GiveRangeOk(m: Mem, b: int, n: nat)
    requires MemOk(m) && UserPages(m.own)
    ensures MemOk(GiveRange(m, b, n)) && UserPages(GiveRange(m, b, n).own)
  {
    hide MemOk, GiveRange, InRange;
    forall q: Owner | q in GiveRange(m, b, n).own
      ensures q in m.own
    {
      GiveRangeKeeps(m, b, n, q);
    }
    GiveRangeKeeps(m, b, n, Page(0));
    FewerUser(m.own, GiveRange(m, b, n).own);
  }

  lemma MappedUser(m: Mem, va: int, noL2: set<int>)
    requires UserPages(m.own) && CanMap(m, va, noL2) && va % PAGE == 0
    ensures UserPages(MapAt(m, va).own)
  {
    hide FirstFree;
  }

  lemma {:induction false} GrownUser(m: Mem, b: int, n: nat, noL2: set<int>)
    requires UserPages(m.own) && b % PAGE == 0
    ensures var fs := GrowFrames(m, b, n, noL2); UserPages(TakeMany(m, Pages(b, |fs|), fs).own)
    decreases n
  {
    hide FirstFree, UserPages;
    if n == 0 || !CanMap(m, b, noL2) {
      TakeNone(m, Pages(b, 0), []);
    } else {
      var f, fs := FirstFree(m.bits, 0), GrowFrames(MapAt(m, b), b + PAGE, n - 1, noL2);
      MappedUser(m, b, noL2);
      GrownUser(MapAt(m, b), b + PAGE, n - 1, noL2);
      PagesStep(b, |fs|);
      assert ([f] + fs)[1..] == fs;
    }
  }

  lemma GrowRangeOk(m: Mem, b: int, n: nat, noL2: set<int>)
    requires MemOk(m) && UserPages(m.own) && b % PAGE == 0
    ensures MemOk(GrowRange(m, b, n, noL2)) && UserPages(GrowRange(m, b, n, noL2).own)
  {
    hide MemOk, UserPages, GrowFrames, TakeMany, GiveRange, Used;
    var fs := GrowFrames(m, b, n, noL2);
    GrowFramesNew(m, b, n, noL2);
    GrownUser(m, b, n, noL2);
    GiveRangeOk(TakeMany(m, Pages(b, |fs|), fs), b, |fs|);
  }

  lemma {:induction false} RemapOk(m: Mem, b: int, n: nat, i: nat, noL2: set<int>)
    requires MemOk(m) && UserPages(m.own) && b % PAGE == 0 && i <= n
    ensures MemOk(Remap(m, b, n, i, noL2).0) && UserPages(Remap(m, b, n, i, noL2).0.own)
    decreases n - i
  {
    hide MemOk, UserPages, GiveRange, GiveIf, FirstFree, Used;
    if i < n {
      var va := b + i * PAGE;
      var g := GiveIf(m, Page(va));
      RemapStep(m, va, noL2);
      FewerUser(m.own, g.own);
      if CanMap(g, va, noL2) {
        MappedUser(g, va, noL2);
        RemapOk(MapAt(g, va), b, n, i + 1, noL2);
      } else {
        GiveRangeOk(g, b, i);
      }
    }
  }

  lemma BrkKeeps(s: Space, addr: int, noL2: set<int>)
    requires SpaceOk(s) && IsWord(addr)
    ensures SpaceOk(Brk(s, addr, noL2)) && (ProcOk(s) ==> ProcOk(Brk(s, addr, noL2)))
  {
    hide MemOk, UserPages, GrowRange, GrowFrames, GiveRange, PageUp;
    PageUpIs(s.brk);
    PageUpIs(addr);
    GrowRangeOk(s.m, PageUp(s.brk), HeapPages(s, addr), noL2);
    if PageUp(addr) < PageUp(s.brk) {
      GiveRangeOk(s.m, PageUp(addr), (PageUp(s.brk) - PageUp(addr)) / PAGE);
    }
  }

  lemma AlignedBase(s: Space, a: MmapArgs)
    requires IsWord(s.mmapTop) && s.mmapTop % PAGE == 0 && ArgsOk(a) && (a.fixed ==> a.addr % PAGE == 0)
    ensures MmapBase(s, a) % PAGE == 0 && IsWord(MmapBase(s, a))
    ensures !a.fixed ==> MmapBase(s, a) == if PageUp(a.len) <= s.mmapTop then s.mmapTop - PageUp(a.len) else s.mmapTop - PageUp(a.len) + WORD
  {
    hide PageUp;
    PageUpIs(a.len);
    SubIs(s.mmapTop, PageUp(a.len));
  }

  lemma SubIs(x: int, y: int)
    requires IsWord(x) && IsWord(y)
    ensures Sub(x, y) == if y <= x then x - y else x - y + WORD
  {
  }

  lemma Mmap2Keeps(s: Space, a: MmapArgs)
    requires SpaceOk(s) && ArgsOk(a)
    ensures SpaceOk(Mmap2(s, a).0)
  {
    hide MemOk, UserPages, Remap, GiveRange, PageUp, Sub;
    if MmapRefused(s, a) == 0 {
      AlignedBase(s, a);
      PageUpIs(a.len);
      var b, n := MmapBase(s, a), PageUp(a.len) / PAGE;
      RemapOk(s.m, b, n, 0, a.noL2);
      GiveRangeOk(Remap(s.m, b, n, 0, a.noL2).0, b, n);
    }
  }

  lemma MunmapKeeps(s: Space, addr: int, len: int)
    requires SpaceOk(s) && IsWord(addr) && IsWord(len)
    ensures SpaceOk(Munmap(s, addr, len).0)
  {
    hide MemOk, UserPages, GiveRange, PageUp, MunmapPages;
    PageUpIs((addr + len) % WORD);
    GiveRangeOk(s.m, addr, MunmapPages(addr, len));
  }

  lemma FilesKeep(m: Mem, ino: int, from: int, upto: int)
    requires MemOk(m) && UserPages(m.own)
    ensures var g, r := GrowFile(m, ino, from, upto).0, ShrinkFile(m, ino, from, upto);
      MemOk(g) && UserPages(g.own) && MemOk(r) && UserPages(r.own)
  {
    hide MemOk, GrowFile, ShrinkFile, Used;
    var g, r := GrowFile(m, ino, from, upto).0, ShrinkFile(m, ino, from, upto);
    GrowFileMoves(m, ino, from, upto, Page(0));
    ShrinkFileMoves(m, ino, from, upto, Page(0));
    forall q: Owner | q.Page?
      ensures (q in g.own ==> q in m.own) && (q in r.own ==> q in m.own)
    {
      GrowFileMoves(m, ino, from, upto, q);
      ShrinkFileMoves(m, ino, from, upto, q);
    }
    FewerUser(m.own, g.own);
    FewerUser(m.own, r.own);
  }

  lemma DoKeeps(s: Space, c: Call)
    requires SpaceOk(s) && CallOk(c)
    ensures SpaceOk(Do(s, c))
  {
    hide Brk, Mmap2, Munmap, GrowFile, ShrinkFile, MemOk, UserPages;
    match c {
      case CallBrk(addr, noL2) => BrkKeeps(s, addr, noL2);
      case CallMmap2(a) => Mmap2Keeps(s, a);
      case CallMunmap(addr, len) => MunmapKeeps(s, addr, len);
      case CallGrowFile(ino, from, upto) => FilesKeep(s.m, ino, from, upto);
      case CallShrinkFile(ino, from, upto) => FilesKeep(s.m, ino, from, upto);
    }
  }

  /** The states of a run: each the last one after one more call. */
  ghost predicate IsRun(ss: seq<Space>, cs: seq<Call>) {
    && |ss| == |cs| + 1 && SpaceOk(ss[0])
    && forall k :: 0 <= k < |cs| ==> CallOk(cs[k]) && ss[k + 1] == Do(ss[k], cs[k])
  }

  /** Single frame ownership over every run of brk, mmap2, munmap and file growth and truncation, with
      any arguments, any frames left and any failures of vm_map_page: no frame is free while owned,
      none has two owners, used_pages is the number of set bits, and every mapped page is in user space. */
  lemma {:induction false} FramesOverRuns(ss: seq<Space>, cs: seq<Call>, k: nat)
    requires IsRun(ss, cs) && k < |ss|
    ensures SpaceOk(ss[k])
    decreases k
  {
    hide SpaceOk, Do, CallOk;
    if k > 0 {
      FramesOverRuns(ss, cs, k - 1);
      DoKeeps(ss[k - 1], cs[k - 1]);
    }
  }
}
