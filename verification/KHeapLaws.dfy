/** What a caller of kmalloc, kfree and krealloc can count on: when memory is found, how much of it is
    lost to rounding, and that freed memory serves again. */
module KHeapLaws {
  import opened Options
  import opened KHeap
  import opened KHeapOps

  /** Block i is the first free one with n bytes. */
  ghost predicate FirstRoom(bs: seq<Blk>, n: int, i: nat) {
    && i < |bs| && bs[i].free && bs[i].size >= n
    && forall k :: 0 <= k < i ==> !(bs[k].free && bs[k].size >= n)
  }

  lemma FitIsFirst(bs: seq<Blk>, n: int, i: nat)
    ensures FirstFit(bs, n, 0) == Some(i) <==> FirstRoom(bs, n, i)
  {
  }

  /** A request is rounded up to a multiple of 8, at least 8. */
  lemma RequestIs(size: int)
    requires 0 <= size <= MAX_ALIGN
    ensures var n := Request(size); n % 8 == 0 && n >= 8 && size <= n && (size > 0 ==> n < size + 8) && (size == 0 ==> n == 8)
  {
    AlignUp(if size == 0 then 8 else size);
  }

  /** With a free block that has room, kmalloc hands out the first such block and takes no page. */
  lemma ServedFromList(h: Heap, size: int, pa: int, i: nat)
    requires FirstRoom(h.bs, Request(size), i)
    ensures var (r, p) := Kmalloc(h, size, pa); p == h.bs[i].addr + 16 && r.runs == h.runs
  {
    FitIsFirst(h.bs, Request(size), i);
  }

  /** Without one it takes the least number of pages that hold the request and a header, or, when there
      are none, hands out nothing and leaves the heap as it was. */
  lemma ServedFromPages(h: Heap, size: int, pa: int)
    requires 0 <= size <= MAX_REQUEST && forall i :: 0 <= i < |h.bs| ==> !(h.bs[i].free && h.bs[i].size >= Request(size))
    ensures var (r, p) := Kmalloc(h, size, pa);
      && (pa == 0 ==> p == 0 && r == h)
      && (pa != 0 ==> p == pa + 16 && exists pages :: r.runs == h.runs + [Run(pa, pages * 4096)] && LeastPages(pages, Request(size) + 16))
  {
    var n := Request(size);
    RequestIs(size);
    RequestOk(size);
    assert FirstFit(h.bs, n, 0) == None;
    AlignOk(if size == 0 then 8 else size);
    PagesLeast(n);
    if pa != 0 {
      var pages := PagesFor(n);
      hide Request, PagesFor, AllocAt;
      var g := GrowBy(h, Run(pa, pages * PAGE));
      AllocRuns(g, |h.bs|, n);
      assert Kmalloc(h, size, pa).0.runs == h.runs + [Run(pa, pages * 4096)];
    }
  }

  predicate LeastPages(pages: int, bytes: int) { pages * 4096 >= bytes > (pages - 1) * 4096 }

  lemma AllocRuns(h: Heap, i: nat, size: int)
    requires i < |h.bs|
    ensures AllocAt(h, i, size).runs == h.runs
  {
  }

  lemma PagesLeast(n: int)
    requires 0 <= n <= MAX_REQUEST && n % 8 == 0
    ensures LeastPages(PagesFor(n), n + 16)
  {
    assert Wrap(n + 7) == n + 7 && Align8(n) == n;
    var want := n + 16;
    assert Wrap(want) == want && Wrap(want + PAGE - 1) == want + PAGE - 1;
  }

  /** What is cut off block i: nothing when less than a header and 16 bytes would be over, and else a free
      block right behind the one handed out. */
  ghost predicate CutOff(b: Blk, n: int, r: Heap, taken: Blk) {
    && taken.addr == b.addr && !taken.free && taken in r.bs
    && (b.size - n < 32 ==> taken.size == b.size)
    && (b.size - n >= 32 ==> taken.size == n && Blk(b.addr + 16 + n, b.size - n - 16, true) in r.bs)
  }

  /** Less than 32 bytes of what is handed out are more than was asked for, and the rest of the block
      stays free for others. */
  lemma LittleWaste(h: Heap, size: int, pa: int, i: nat) returns (taken: Blk)
    requires HeapOk(h) && 0 <= size <= MAX_ALIGN && FirstRoom(h.bs, Request(size), i)
    ensures CutOff(h.bs[i], Request(size), Kmalloc(h, size, pa).0, taken)
    ensures Request(size) <= taken.size < Request(size) + 32
  {
    var n, b := Request(size), h.bs[i];
    FitIsFirst(h.bs, n, i);
    BlkOkOf(h, i);
    RequestIs(size);
    var c, r := Carve(b, n), AllocAt(h, i, n);
    taken := c[0];
    assert r.bs[i] == c[0];
    if |c| == 2 {
      assert r.bs[i + 1] == c[1];
    }
  }

  // ---- freed memory serves again -------------------------------------------------------------------------

  /** The free block at that address with that much room. */
  ghost predicate FreeRoom(h: Heap, addr: int, size: int) { Blk(addr, size, true) in h.bs }

  /** A freed block is free, together with the block behind it in the list when that one is free and
      begins where the freed one ends. */
  lemma FreedRoom(h: Heap, i: nat)
    requires HeapOk(h) && i < |h.bs| && !h.bs[i].free
    ensures var b, r := h.bs[i], Kfree(h, h.bs[i].addr + 16);
      if i + 1 < |h.bs| && h.bs[i + 1].free && h.bs[i + 1].addr == b.addr + 16 + b.size
      then FreeRoom(r, b.addr, b.size + 16 + h.bs[i + 1].size) && |r.bs| == |h.bs| - 1
      else FreeRoom(r, b.addr, b.size) && |r.bs| == |h.bs|
  {
    var b := h.bs[i];
    assert Live(h, b);
    LiveIndex(h, b);
    BlkOkOf(h, i);
    var k := IndexOf(h.bs, b.addr, 0);
    if k != i {
      Apart(h, k, i);
      BlkOkOf(h, k);
    }
    var r := FreeAt(h, i);
    assert Kfree(h, b.addr + 16) == r;
    assert r.bs[i].addr == b.addr && r.bs[i].free;
  }

  /** Room in the list is always found, without a page. */
  lemma RoomIsFound(h: Heap, addr: int, room: int, size: int)
    requires FreeRoom(h, addr, room) && Request(size) <= room && (forall b :: b in h.bs ==> b.addr > 0)
    ensures Kmalloc(h, size, 0).1 != 0 && Kmalloc(h, size, 0).0.runs == h.runs
  {
    var k :| 0 <= k < |h.bs| && h.bs[k] == Blk(addr, room, true);
    match FirstFit(h.bs, Request(size), 0) {
      case Some(i) => assert h.bs[i] in h.bs;
      case None =>
    }
  }

  /** So after kfree a request for as much as was freed, neighbour included, succeeds with no page left. */
  lemma FreedServesAgain(h: Heap, i: nat, size: int)
    requires HeapOk(h) && i < |h.bs| && !h.bs[i].free && 0 <= size <= MAX_ALIGN
    requires Request(size) <= h.bs[i].size
      || (i + 1 < |h.bs| && h.bs[i + 1].free && h.bs[i + 1].addr == End(h.bs[i]) && Request(size) <= h.bs[i].size + 16 + h.bs[i + 1].size)
    ensures var r := Kfree(h, h.bs[i].addr + 16); Kmalloc(r, size, 0).1 != 0 && Kmalloc(r, size, 0).0.runs == h.runs
  {
    var b, r := h.bs[i], Kfree(h, h.bs[i].addr + 16);
    FreedRoom(h, i);
    KfreeKeeps(h, b.addr + 16);
    AddrsPositive(h);
    AddrsPositive(r);
    hide Kmalloc, HeapOk, Request;
    if i + 1 < |h.bs| {
      assert h.bs[i + 1] in h.bs;
      SizesFit(h, i + 1);
    }
    if FreeRoom(r, b.addr, b.size) && Request(size) <= b.size {
      RoomIsFound(r, b.addr, b.size, size);
    } else {
      RoomIsFound(r, b.addr, b.size + 16 + h.bs[i + 1].size, size);
    }
    KfreeRuns(h, b.addr + 16);
  }

  lemma SizesFit(h: Heap, i: nat)
    requires HeapOk(h) && i < |h.bs|
    ensures h.bs[i].size >= 0
  {
    BlkOkOf(h, i);
  }

  lemma KfreeRuns(h: Heap, p: int)
    ensures Kfree(h, p).runs == h.runs
  {
  }

  lemma AddrsPositive(h: Heap)
    requires HeapOk(h)
    ensures forall b :: b in h.bs ==> b.addr > 0
  {
    hide Count, RunCount, Used, Bytes;
  }

  // ---- krealloc ---------------------------------------------------------------------------------------------

  /** krealloc leaves a block where it is exactly when the new size, rounded up, still fits; and then
      nothing changes. Otherwise the old pointer is dead if there was memory, and alive if there was not. */
  lemma MovesExactly(h: Heap, b: Blk, size: int, pa: int)
    requires HeapOk(h) && Live(h, b) && 0 <= size <= MAX_ALIGN && Grants(h, size, pa)
    requires InPlace(h, Payload(b), size) || !Overflows(h, size, pa)
    ensures var (r, q) := Krealloc(h, b.addr + 16, size, pa);
      && (q == b.addr + 16 <==> Align8(size) <= b.size)
      && (Align8(size) <= b.size ==> r == h)
      && (Align8(size) > b.size ==> if q == 0 then LivePtr(r, b.addr + 16) else !LivePtr(r, b.addr + 16))
  {
    hide HeapOk, Kmalloc, Kfree, Grants, Overflows, Align8, Live;
    LiveIndex(h, b);
    BlkOkOf(h, IndexOf(h.bs, b.addr, 0));
    if Align8(size) > b.size {
      var (g, q) := Kmalloc(h, size, pa);
      var c := KmallocGives(h, size, pa);
      KmallocKeeps(h, size, pa);
      if q != 0 {
        KfreeEnds(g, b);
        NotThere(g, b, c);
      }
    }
  }

  lemma NotThere(h: Heap, b: Blk, c: Blk)
    requires HeapOk(h) && Live(h, b) && Live(h, c) && b != c
    ensures b.addr != c.addr
  {
    LiveIndex(h, b);
    LiveIndex(h, c);
  }

  /** krealloc of a null pointer is kmalloc. */
  lemma NullIsNew(h: Heap, size: int, pa: int)
    ensures Krealloc(h, 0, size, pa) == Kmalloc(h, size, pa)
  {
  }
}
