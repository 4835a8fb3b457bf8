/** pmm.c's bitmap scans and mmap.c's page loops. */
module FramesCode {
  import opened Frames
  import opened FramesMap
  import opened FramesCalls
  import opened FramesRuns
  import opened FramesBytes

  class Machine {
    const base: int
    var bits: seq<bool>
    var used: int
    /** the running process's page table and the files' page tables */
    var own: map<Owner, int>
    var brk: int
    var brkStart: int
    var brkCeiling: int
    var mmapTop: int
    /** physical memory, byte by byte */
    var mem: int -> int
    ghost var others: set<int>

    ghost function M(): Mem
      reads this
    {
      Mem(bits, used, own, others)
    }

    ghost function St(): Space
      reads this
    {
      Space(M(), brk, brkStart, brkCeiling, mmapTop)
    }

    ghost predicate Valid()
      reads this
    {
      SpaceOk(St()) && base > 0
    }

    /** pmm_init over n whole frames from start on: all free. */
    constructor (start: int, n: nat, m: int -> int)
      requires start > 0
      ensures Valid() && base == start && bits == seq(n, _ => false) && own == map[]
    {
      base, bits, used, own, others, mem := start, seq(n, _ => false), 0, map[], {}, m;
      brk, brkStart, brkCeiling, mmapTop := 0, 0, 0, 0;
      new;
      NoneUsed(n);
    }

    /** zero_page */
    method ZeroPage(pa: int)
      modifies this`mem
      ensures ZeroedOnly(old(mem), mem, pa, pa + PAGE)
    {
      var m := mem;
      mem := x => if pa <= x < pa + PAGE then 0 else m(x);
    }

    /** pmm_alloc_page: the first free frame, zeroed; 0 when there is none */
    method PmmAllocPage() returns (pa: int)
      requires base > 0
      modifies this`bits, this`used, this`mem
      ensures var f := FirstFree(old(bits), 0);
        if f == |old(bits)| then pa == 0 && bits == old(bits) && used == old(used) && mem == old(mem)
        else pa == Pa(base, f) > 0 && bits == old(bits)[f := true] && used == old(used) + 1 && ZeroedOnly(old(mem), mem, pa, pa + PAGE)
    {
      var i := 0;
      while i < |bits|
        invariant i <= |bits| && bits == old(bits) && used == old(used) && mem == old(mem) && FirstFree(bits, 0) == FirstFree(bits, i)
      {
        if !bits[i] {
          bits := bits[i := true];
          used := used + 1;
          pa := base + i * PAGE;
          ZeroPage(pa);
          return;
        }
        i := i + 1;
      }
      pa := 0;
    }

    /** pmm_free_page */
    method PmmFreePage(pa: int)
      modifies this`bits, this`used
      ensures var f := Idx(base, pa);
        if pa >= base && f < |old(bits)| && old(bits)[f] then bits == old(bits)[f := false] && used == old(used) - 1
        else bits == old(bits) && used == old(used)
    {
      if pa < base {
        return;
      }
      var i := (pa - base) / PAGE;
      if i < |bits| && bits[i] {
        bits := bits[i := false];
        used := used - 1;
      }
    }

    /** pmm_alloc_aligned: the first aligned run of n free frames, all of them taken and zeroed; or 0 and
        no change. */
    method PmmAllocAligned(n: nat, align: nat) returns (pa: int)
      requires Valid()
      modifies this`bits, this`used, this`mem
      ensures Valid()
      ensures pa == 0 ==> bits == old(bits) && used == old(used) && mem == old(mem)
      ensures pa == 0 ==> forall i: nat :: !RunAt(base, old(bits), i, n, align)
      ensures pa != 0 ==> used == old(used) + n
      ensures pa != 0 ==> exists i: nat :: pa == Pa(base, i) && FirstRun(base, old(bits), i, n, align) && bits == SetRun(old(bits), i, n)
      ensures pa != 0 ==> ZeroedOnly(old(mem), mem, pa, pa + n * PAGE)
    {
      hide MemOk, UserPages, RunAt;
      var i := 0;
      while i + n <= |bits|
        invariant bits == old(bits) && used == old(used) && mem == old(mem)
        invariant forall k: nat :: k < i ==> !RunAt(base, bits, k, n, align)
        decreases |bits| - i
      {
        pa := base + i * PAGE;
        RunAtIs(base, bits, i, n, align);
        if And(pa, Mask(align)) == 0 {
          var j := 0;
          while j < n && !bits[i + j]
            invariant j <= n && forall x :: i <= x < i + j ==> !bits[x]
          {
            j := j + 1;
          }
          if j == n {
            RunKeeps(M(), i, n);
            j := 0;
            while j < n
              invariant j <= n && bits == SetRun(old(bits), i, j) && used == old(used)
              invariant ZeroedOnly(old(mem), mem, pa, pa + j * PAGE)
            {
              bits := bits[i + j := true];
              ZeroPage(base + (i + j) * PAGE);
              j := j + 1;
            }
            used := used + n;
            assert FirstRun(base, old(bits), i, n, align);
            return;
          }
        }
        i := i + 1;
      }
      forall k: nat
        ensures !RunAt(base, bits, k, n, align)
      {
        RunAtIs(base, bits, k, n, align);
      }
      pa := 0;
    }

    /** pmm_reserve: the pages that overlap [start, end) count as used. */
    method PmmReserve(start: int, end: int)
      requires Valid()
      modifies this`bits, this`used
      ensures Valid() && |bits| == |old(bits)|
      ensures Marked(base, old(bits), bits, start, end)
    {
      hide MemOk, UserPages, Marked;
      if end <= base {
        NoneMarked(base, bits, start, end);
        return;
      }
      var st := if start < base then base else start;
      var s := (st - base) / PAGE;
      var e := (end - base + PAGE - 1) / PAGE;
      if e > |bits| { e := |bits|; }
      var i := s;
      while i < e
        invariant s <= i && (i <= e || i == s) && |bits| == |old(bits)| && Valid()
        invariant forall k :: 0 <= k < |bits| ==> bits[k] == (old(bits)[k] || s <= k < i)
      {
        if !bits[i] {
          MarkKeeps(M(), i);
          bits := bits[i := true];
          used := used + 1;
        }
        i := i + 1;
      }
      SomeMarked(base, old(bits), bits, start, end, s, i);
    }

    // ---- page tables ------------------------------------------------------------------------------

    /** pmm_alloc_page and vm_map_page at va; noL2 are the addresses it has no table for. */
    method MapFresh(va: int, noL2: set<int>) returns (ok: bool)
      requires MemOk(M()) && base > 0
      modifies this`bits, this`used, this`own, this`mem
      ensures MemOk(M()) && ok == CanMap(old(M()), va, noL2)
      ensures M() == if ok then MapAt(old(M()), va) else old(M())
      ensures FreeTouched(base, old(bits), old(mem), mem) && (ok ==> ZeroFrame(base, own[Page(va)], mem))
    {
      hide MemOk, ZeroedOnly, FreeTouched, ZeroFrame;
      ghost var f := FirstFree(bits, 0);
      var pa := PmmAllocPage();
      if pa == 0 {
        NoneTouched(base, bits, mem);
        return false;
      }
      FreshFrame(base, old(bits), f, old(mem), mem);
      IdxPa(base, f);
      if va < USER_VA_MIN || va >= USER_VA_MAX || va in noL2 {
        PmmFreePage(pa);
        assert old(bits)[f := true][f := false] == old(bits);
        return false;
      }
      TakeKeeps(old(M()), Page(va), f);
      own := own[Page(va) := (pa - base) / PAGE];
      ok := true;
    }

    /** vm_walk, vm_unmap_page, pmm_free_page */
    method Release(o: Owner)
      requires MemOk(M())
      modifies this`bits, this`used, this`own
      ensures MemOk(M()) && M() == GiveIf(old(M()), o)
    {
      hide MemOk;
      GiveIfKeeps(M(), o);
      if o in own {
        FrameIn(M(), o);
        var pa := base + own[o] * PAGE;
        IdxPa(base, own[o]);
        own := own - {o};
        PmmFreePage(pa);
      }
    }

    /** The loops that unmap n pages from b on. */
    method ReleaseRange(b: int, n: nat)
      requires MemOk(M())
      modifies this`bits, this`used, this`own
      ensures MemOk(M()) && M() == GiveRange(old(M()), b, n)
    {
      hide MemOk;
      var va, i := b, 0;
      while i < n
        invariant i <= n && va == b + i * PAGE && MemOk(M())
        invariant GiveRange(old(M()), b, n) == GiveRange(M(), va, n - i)
      {
        Release(Page(va));
        va := va + PAGE;
        i := i + 1;
      }
    }

    /** The growing loop of sys_brk: n pages from b on, or none. */
    method GrowHeap(b: int, n: nat, noL2: set<int>) returns (ok: bool)
      requires MemOk(M()) && base > 0
      modifies this`bits, this`used, this`own, this`mem
      ensures M() == GrowRange(old(M()), b, n, noL2) && ok == (|GrowFrames(old(M()), b, n, noL2)| == n)
      ensures Kept(base, old(M()), b, n, old(mem), mem) && (ok ==> ZeroIn(base, own, b, n, mem))
    {
      hide MemOk, TakeMany, GiveRange, FirstFree, Kept, ZeroIn, Outside, FreeTouched, ZeroFrame, GrowFrames, CanMap;
      var va, i := b, 0;
      ghost var m0 := M();
      ghost var fs: seq<nat> := [];
      TakeNone(m0, Pages(b, 0), fs);
      KeptNow(base, m0, b, n, mem);
      ZeroNone(base, own, b, mem);
      NothingMoves(own, b, n);
      while i < n
        invariant i <= n && va == b + i * PAGE && MemOk(M()) && |fs| == i && forall x :: 0 <= x < |fs| ==> fs[x] < |m0.bits|
        invariant M() == TakeMany(m0, Pages(b, i), fs) && |bits| == |m0.bits|
        invariant GrowFrames(m0, b, n, noL2) == fs + GrowFrames(M(), va, n - i, noL2)
        invariant Kept(base, m0, b, n, old(mem), mem) && ZeroIn(base, own, b, i, mem) && Outside(m0.own, own, b, n)
      {
        ghost var f, m, was := FirstFree(bits, 0), M(), mem;
        GrowStep(m, va, n - i, noL2);
        ok := MapFresh(va, noL2);
        KeptStep(base, m0, m, b, n, old(mem), was, mem);
        if !ok {
          assert fs + [] == fs;
          ReleaseRange(b, i);
          return;
        }
        ZeroStep(base, m, own, b, i, was, mem);
        OutsideStep(m0.own, m.own, own, b, n, i);
        PagesStep(b, i);
        TakeManyAppend(m0, Pages(b, i), fs, Page(va), f);
        assert fs + ([f] + GrowFrames(M(), va + PAGE, n - i - 1, noL2)) == (fs + [f]) + GrowFrames(M(), va + PAGE, n - i - 1, noL2);
        fs := fs + [f];
        va := va + PAGE;
        i := i + 1;
      }
      GrowEnd(M(), va, noL2);
      assert fs + [] == fs;
      ok := true;
    }

    /** sys_brk; the result is the break afterwards */
    method SysBrk(addr: int, noL2: set<int>) returns (r: int)
      requires Valid() && IsWord(addr)
      modifies this
      ensures Valid() && St() == Brk(old(St()), addr, noL2) && r == brk
      ensures var top, n := PageUp(old(brk)), HeapPages(old(St()), addr);
        Kept(base, old(M()), top, n, old(mem), mem) && (r == addr ==> ZeroIn(base, own, top, n, mem))
    {
      hide MemOk, UserPages, GrowRange, GrowFrames, GiveRange, PageUp, Kept, ZeroIn;
      BrkKeeps(St(), addr, noL2);
      KeptNow(base, M(), PageUp(brk), HeapPages(St(), addr), mem);
      ZeroNone(base, own, PageUp(brk), mem);
      var cur := brk;
      if addr < brkStart {
        return cur;
      }
      if addr >= brkCeiling {
        return cur;
      }
      PageUpIs(cur);
      PageUpIs(addr);
      var oldTop, newTop := PageUp(cur), PageUp(addr);
      if newTop > oldTop {
        var ok := GrowHeap(oldTop, (newTop - oldTop) / PAGE, noL2);
        if !ok {
          return cur;
        }
      } else if newTop < oldTop {
        ReleaseRange(newTop, (oldTop - newTop) / PAGE);
        ZeroNone(base, own, oldTop, mem);
      }
      brk := addr;
      r := addr;
    }

    /** map_zeroed_range */
    method MapZeroedRange(b: int, n: nat, noL2: set<int>) returns (code: int)
      requires MemOk(M()) && base > 0
      modifies this`bits, this`used, this`own, this`mem
      ensures MemOk(M()) && (M(), code == 0) == Remap(old(M()), b, n, 0, noL2) && (code == 0 || code == -1)
      ensures Kept(base, old(M()), b, n, old(mem), mem) && (code == 0 ==> ZeroIn(base, own, b, n, mem))
    {
      hide MemOk, GiveIf, GiveRange, FirstFree, Kept, ZeroIn, Outside, FreeTouched, ZeroFrame;
      var i := 0;
      ghost var m0 := M();
      KeptNow(base, m0, b, n, mem);
      ZeroNone(base, own, b, mem);
      NothingMoves(own, b, n);
      while i < n
        invariant i <= n && MemOk(M()) && Remap(old(M()), b, n, 0, noL2) == Remap(M(), b, n, i, noL2) && others == m0.others
        invariant Kept(base, m0, b, n, old(mem), mem) && ZeroIn(base, own, b, i, mem) && Outside(m0.own, own, b, n)
      {
        var va := b + i * PAGE;
        ghost var cur := M();
        GiveIfKeeps(cur, Page(va));
        Release(Page(va));
        ghost var m, was := M(), mem;
        OutsideStep(m0.own, cur.own, own, b, n, i);
        ZeroLess(base, cur.own, own, b, i, mem);
        var ok := MapFresh(va, noL2);
        KeptStep(base, m0, m, b, n, old(mem), was, mem);
        if ok {
          ZeroStep(base, m, own, b, i, was, mem);
          OutsideStep(m0.own, m.own, own, b, n, i);
        }
        if !ok {
          ReleaseRange(b, i);
          return -1;
        }
        i := i + 1;
      }
      code := 0;
    }

    /** ramfs_read of a file that holds data, straight into the frame at p. */
    method ReadInto(data: seq<int>, off: nat, p: int, n: nat) returns (k: nat)
      modifies this`mem
      ensures k == if off >= |data| then 0 else if n > |data| - off then |data| - off else n
      ensures k > 0 ==> CopiedIn(old(mem), mem, p, data, off, k)
      ensures k == 0 ==> mem == old(mem)
    {
      if off >= |data| {
        return 0;
      }
      k := if n > |data| - off then |data| - off else n;
      if k > 0 {
        var m := mem;
        mem := x => if p <= x < p + k then data[off + x - p] else m(x);
      }
    }

    /** copy_file_into: the pages just mapped at va show the file from foff on. */
    method CopyFileInto(va: int, len: nat, data: seq<int>, foff: nat, ghost n: nat)
      requires MemOk(M()) && 0 < len <= n * PAGE && foff < WORD && |data| < WORD
      requires Shows(base, own, mem, va, n, data, foff, 0)
      modifies this`mem
      ensures Shows(base, own, mem, va, n, data, foff, len) && Kept(base, M(), va, n, old(mem), mem)
    {
      hide MemOk, Shows, Kept, CopiedIn;
      var done := 0;
      KeptNow(base, M(), va, n, mem);
      while done < len
        invariant 0 <= done <= len && (done % PAGE == 0 || done == len) && (done > 0 ==> foff + done <= |data|)
        invariant Shows(base, own, mem, va, n, data, foff, done) && Kept(base, M(), va, n, old(mem), mem)
      {
        var pva := va + done;
        PageThere(base, own, mem, va, n, data, foff, done);
        var page := Page(pva - pva % PAGE);
        if page !in own {
          break;
        }
        var inPg := pva % PAGE;
        var chunk := if PAGE - inPg > len - done then len - done else PAGE - inPg;
        ghost var was := mem;
        var k := ReadInto(data, (foff + done) % WORD, base + own[page] * PAGE + inPg, chunk);
        if k == 0 {
          break;
        }
        ShowsMore(base, M(), was, mem, va, n, data, foff, done, k);
        KeptTwice(base, M(), va, n, old(mem), was, mem);
        done := done + k;
        if k < chunk {
          break;
        }
      }
      ShowsAll(base, own, mem, va, n, data, foff, done, len);
    }

    /** sys_mmap2; data is what the file holds. A private mapping shows the file's bytes, and zeros behind
        its end; an anonymous one shows zeros; and nobody else's bytes change, whatever the outcome. */
    method SysMmap2(a: MmapArgs, data: seq<int>) returns (r: int)
      requires Valid() && ArgsOk(a) && |data| < WORD
      modifies this
      ensures Valid() && (St(), r) == Mmap2(old(St()), a)
      ensures Kept(base, old(M()), MmapBase(old(St()), a), PageUp(a.len) / PAGE, old(mem), mem)
      ensures r >= 0 ==> Shows(base, own, mem, r, PageUp(a.len) / PAGE, if a.anon then [] else data, a.pgoff * PAGE, a.len)
    {
      hide MemOk, UserPages, Remap, GiveRange, PageUp, Kept, ZeroIn, Shows;
      Mmap2Keeps(St(), a);
      PageUpIs(a.len);
      KeptNow(base, M(), MmapBase(St(), a), PageUp(a.len) / PAGE, mem);
      if a.len == 0 || a.len > USER_VA_MAX - USER_VA_MIN {
        return -22;
      }
      if !a.priv {
        return -38;
      }
      if !a.anon && a.fd < 0 {
        return -9;
      }
      var npages := PageUp(a.len) / PAGE;
      var span := npages * PAGE;
      assert span == PageUp(a.len);
      if a.pgoff * PAGE > 0xFFFF_FFFF {
        return -22;
      }
      var b;
      if a.fixed {
        if a.addr % PAGE != 0 {
          return -22;
        }
        if a.addr < USER_VA_MIN || (a.addr + span) % WORD > USER_VA_MAX || (a.addr + span) % WORD < a.addr {
          return -22;
        }
        b := a.addr;
      } else {
        if span > (mmapTop - USER_VA_MIN) % WORD {
          return -12;
        }
        b := (mmapTop - span) % WORD;
        if b < PageUp(brk) {
          return -12;
        }
      }
      AlignedBase(St(), a);
      var code := MapZeroedRange(b, npages, a.noL2);
      if code != 0 {
        return -12;
      }
      RemapMaps(old(M()), b, npages, a.noL2);
      if !a.anon && !a.fileOk {
        ReleaseRange(b, npages);
        return -13;
      }
      ghost var m1 := mem;
      if a.anon {
        ZeroShows(base, own, mem, b, npages, [], a.pgoff * PAGE);
        ShowsAll(base, own, mem, b, npages, [], a.pgoff * PAGE, 0, a.len);
      } else {
        ZeroShows(base, own, mem, b, npages, data, a.pgoff * PAGE);
        CopyFileInto(b, a.len, data, a.pgoff * PAGE, npages);
        KeptOn(base, old(M()), M(), b, npages, old(mem), m1, mem);
      }
      if !a.fixed {
        mmapTop := b;
      }
      r := b;
    }

    /** sys_munmap; the end of the range is computed modulo 2^32 */
    method SysMunmap(addr: int, len: int) returns (r: int)
      requires Valid() && IsWord(addr) && IsWord(len)
      modifies this
      ensures Valid() && (St(), r) == Munmap(old(St()), addr, len) && mem == old(mem)
    {
      hide MemOk, UserPages, GiveRange, PageUp;
      MunmapKeeps(St(), addr, len);
      if addr % PAGE != 0 {
        return -22;
      }
      var end := PageUp((addr + len) % WORD);
      var n := if addr < end then (end - addr + PAGE - 1) / PAGE else 0;
      ReleaseRange(addr, n);
      if addr == mmapTop {
        mmapTop := end;
      }
      r := 0;
    }

    /** The frame loop of ensure_pages */
    method GrowFileSlots(ino: int, from: int, upto: int) returns (code: int)
      requires Valid()
      modifies this`bits, this`used, this`own, this`mem
      ensures Valid() && (M(), code == 0) == GrowFile(old(M()), ino, from, upto) && (code == 0 || code == -1)
      ensures FreeTouched(base, old(bits), old(mem), mem) && (code == 0 ==> ZeroSlots(base, own, ino, from, upto, mem))
    {
      hide MemOk, UserPages, FreeTouched, ZeroSlots, FirstFree, GrowFile, ZeroedOnly, Pa, Idx;
      FilesKeep(M(), ino, from, upto);
      var i := from;
      NoneTouched(base, bits, mem);
      NoSlots(base, own, ino, from, from, mem);
      while i < upto
        invariant from <= i && (i <= upto || i == from) && base > 0 && MemOk(M()) && GrowFile(old(M()), ino, from, upto) == GrowFile(M(), ino, i, upto)
        invariant FreeTouched(base, old(bits), old(mem), mem) && ZeroSlots(base, own, ino, from, i, mem) && MoreUsed(old(bits), bits)
      {
        ghost var f, m, was := FirstFree(bits, 0), M(), mem;
        GrowFileStep(m, ino, i, upto);
        var pa := PmmAllocPage();
        if pa == 0 {
          return -1;
        }
        IdxPa(base, f);
        TakeKeeps(m, FileSlot(ino, i), f);
        FreshFrame(base, m.bits, f, was, mem);
        TouchedTwice(base, old(bits), m.bits, old(mem), was, mem);
        own := own[FileSlot(ino, i) := Idx(base, pa)];
        ZeroSlotStep(base, m, own, ino, from, i, was, mem);
        i := i + 1;
      }
      if from > upto {
        NoSlots(base, own, ino, from, upto, mem);
      }
      GrowFileEnd(M(), ino, i, upto);
      code := 0;
    }

    /** The freeing loop of ramfs_truncate */
    method ShrinkFileSlots(ino: int, from: int, upto: int)
      requires Valid()
      modifies this`bits, this`used, this`own
      ensures Valid() && M() == ShrinkFile(old(M()), ino, from, upto)
    {
      hide MemOk, UserPages, GiveIf;
      FilesKeep(M(), ino, from, upto);
      var i := from;
      while i < upto
        invariant from <= i && MemOk(M()) && ShrinkFile(old(M()), ino, from, upto) == ShrinkFile(M(), ino, i, upto)
      {
        Release(FileSlot(ino, i));
        i := i + 1;
      }
    }
  }

  /** The pages of a mapping that succeeded are all there. */
  lemma RemapMaps(m: Mem, b: int, n: nat, noL2: set<int>)
    requires MemOk(m) && Remap(m, b, n, 0, noL2).1
    ensures var r := Remap(m, b, n, 0, noL2).0; Outside(m.own, r.own, b, n) && forall q :: InRange(q, b, n) ==> q in r.own
  {
    hide MemOk, Remap, InRange;
    NothingHalf(m.own, b, n);
    RemapMoves(m.own, m, b, n, 0, noL2);
  }

  lemma NothingHalf(own: map<Owner, int>, b: int, n: nat)
    ensures Half(own, own, b, n, 0)
  {
  }

  lemma GrowStep(m: Mem, b: int, n: nat, noL2: set<int>)
    requires n > 0
    ensures GrowFrames(m, b, n, noL2) == if CanMap(m, b, noL2) then [FirstFree(m.bits, 0)] + GrowFrames(MapAt(m, b), b + PAGE, n - 1, noL2) else []
    ensures CanMap(m, b, noL2) ==> FirstFree(m.bits, 0) < |m.bits|
  {
  }

  lemma GrowEnd(m: Mem, b: int, noL2: set<int>)
    ensures GrowFrames(m, b, 0, noL2) == []
  {
  }

  lemma GrowFileEnd(m: Mem, ino: int, from: int, upto: int)
    requires from >= upto
    ensures GrowFile(m, ino, from, upto) == (m, true)
  {
  }

  lemma GrowFileStep(m: Mem, ino: int, from: int, upto: int)
    requires from < upto
    ensures var f := FirstFree(m.bits, 0);
      GrowFile(m, ino, from, upto) == if f == |m.bits| then (m, false) else GrowFile(Take(m, FileSlot(ino, from), f), ino, from + 1, upto)
  {
  }

  lemma {:induction false} NoneUsed(n: nat)
    ensures Used(seq(n, _ => false)) == 0
    decreases n
  {
    if n > 0 {
      NoneUsed(n - 1);
      assert seq(n, _ => false)[..n - 1] == seq(n - 1, _ => false);
    }
  }

  /** x & y */
  function And(x: nat, y: nat): nat
    decreases x
  {
    if x == 0 || y == 0 then 0 else (if x % 2 == 1 && y % 2 == 1 then 1 else 0) + 2 * And(x / 2, y / 2)
  }

  /** align - 1 on 32 bits */
  function Mask(align: nat): nat { if align == 0 then 0xFFFF_FFFF else align - 1 }

  function PowerOfTwo(k: nat): (p: nat)
    ensures p >= 1
  {
    if k == 0 then 1 else 2 * PowerOfTwo(k - 1)
  }

  /** For a power of two the mask test is divisibility. */
  lemma {:induction false} MaskIsRemainder(x: nat, k: nat)
    ensures And(x, Mask(PowerOfTwo(k))) == x % PowerOfTwo(k)
    decreases k
  {
    if k > 0 {
      var p := PowerOfTwo(k - 1);
      MaskIsRemainder(x / 2, k - 1);
      assert (2 * p - 1) / 2 == p - 1;
      Halve(x, p);
    }
  }

  lemma Halve(x: nat, p: nat)
    requires p >= 1
    ensures x % (2 * p) == x % 2 + 2 * (x / 2 % p)
  {
    var h, q := x / 2, x / 2 / p;
    assert h == q * p + h % p;
    assert x == q * (2 * p) + (x % 2 + 2 * (h % p));
    Remainder(x, 2 * p, q, x % 2 + 2 * (h % p));
  }

  lemma Remainder(x: int, d: int, q: int, r: int)
    requires 0 <= r < d && x == q * d + r
    ensures x % d == r
  {
    var e := x / d - q;
    assert e * d == r - x % d;
    if e != 0 {
      Multiple(e, d);
    }
  }

  lemma Multiple(e: int, d: int)
    requires d > 0 && e != 0
    ensures e * d >= d || e * d <= -d
  {
    if e > 0 {
      assert (e - 1) * d >= 0;
    } else {
      assert (-1 - e) * d >= 0;
    }
  }

  /** An aligned run of n free frames begins at i. */
  ghost predicate RunAt(base: int, bits: seq<bool>, i: nat, n: nat, align: nat)
    requires base > 0
  {
    i + n <= |bits| && And(Pa(base, i), Mask(align)) == 0 && FreeRun(bits, i, n)
  }

  lemma RunAtIs(base: int, bits: seq<bool>, i: nat, n: nat, align: nat)
    requires base > 0
    ensures RunAt(base, bits, i, n, align) <==> i + n <= |bits| && And(base + i * PAGE, Mask(align)) == 0 && FreeRun(bits, i, n)
  {
  }

  ghost predicate FirstRun(base: int, bits: seq<bool>, i: nat, n: nat, align: nat)
    requires base > 0
  {
    RunAt(base, bits, i, n, align) && i + n <= |bits| && forall k: nat :: k < i ==> !RunAt(base, bits, k, n, align)
  }

  /** The frames that overlap [start, end) are marked too. */
  ghost predicate Marked(base: int, was: seq<bool>, bits: seq<bool>, start: int, end: int) {
    |bits| == |was| && forall i {:trigger bits[i]} :: 0 <= i < |bits| ==> bits[i] == (was[i] || (Pa(base, i) < end && start < Pa(base, i + 1)))
  }

  lemma NoneMarked(base: int, bits: seq<bool>, start: int, end: int)
    requires end <= base
    ensures Marked(base, bits, bits, start, end)
  {
  }

  lemma SomeMarked(base: int, was: seq<bool>, bits: seq<bool>, start: int, end: int, s: int, i: int)
    requires |bits| == |was| && end > base && s == ((if start < base then base else start) - base) / PAGE
    requires i == s || (i > s && (i == (end - base + PAGE - 1) / PAGE || (i == |bits| && i <= (end - base + PAGE - 1) / PAGE)))
    requires i == s ==> s >= |bits| || s >= (end - base + PAGE - 1) / PAGE
    requires forall k :: 0 <= k < |bits| ==> bits[k] == (was[k] || s <= k < i)
    ensures Marked(base, was, bits, start, end)
  {
    forall k {:trigger bits[k]} | 0 <= k < |bits|
      ensures bits[k] == (was[k] || (Pa(base, k) < end && start < Pa(base, k + 1)))
    {
      Overlaps(base, start, end, k);
    }
  }

  lemma Overlaps(base: int, start: int, end: int, k: int)
    requires k >= 0 && end > base
    ensures ((if start < base then base else start) - base) / PAGE <= k <==> start < Pa(base, k + 1)
    ensures k < (end - base + PAGE - 1) / PAGE <==> Pa(base, k) < end
  {
  }

  ghost predicate FreeRun(bits: seq<bool>, i: int, n: nat)
    requires 0 <= i && i + n <= |bits|
  {
    forall x :: i <= x < i + n ==> !bits[x]
  }

  function SetRun(bits: seq<bool>, i: nat, n: nat): (r: seq<bool>)
    requires i + n <= |bits|
    ensures |r| == |bits|
  {
    if n == 0 then bits else SetRun(bits, i, n - 1)[i + n - 1 := true]
  }

  /** Marking a frame nobody owns keeps the books. */
  lemma MarkKeeps(m: Mem, f: nat)
    requires MemOk(m) && f < |m.bits| && !m.bits[f]
    ensures MemOk(m.(bits := m.bits[f := true], used := m.used + 1))
  {
    hide Used;
    UsedFlip(m.bits, f, true);
    var r := m.(bits := m.bits[f := true], used := m.used + 1);
    forall q | q in r.own
      ensures Frame(r, r.own[q])
    {
      assert Frame(m, m.own[q]);
    }
    forall g | g in r.others
      ensures Frame(r, g)
    {
      assert Frame(m, g);
    }
  }

  lemma {:induction false} RunKeeps(m: Mem, i: nat, n: nat)
    requires MemOk(m) && i + n <= |m.bits| && FreeRun(m.bits, i, n)
    ensures MemOk(m.(bits := SetRun(m.bits, i, n), used := m.used + n))
    decreases n
  {
    hide MemOk;
    if n > 0 {
      RunKeeps(m, i, n - 1);
      StillFree(m.bits, i, n - 1, i + n - 1);
      MarkKeeps(m.(bits := SetRun(m.bits, i, n - 1), used := m.used + (n - 1)), i + n - 1);
    }
  }

  lemma {:induction false} StillFree(bits: seq<bool>, i: nat, n: nat, k: nat)
    requires i + n <= k < |bits| && !bits[k]
    ensures !SetRun(bits, i, n)[k]
    decreases n
  {
    if n > 0 {
      StillFree(bits, i, n - 1, k);
    }
  }
}
