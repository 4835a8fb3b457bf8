/** kmalloc.c on linked headers and bytes. */
module KHeapCode {
  import opened KHeap
  import opened KHeapOps

  /** struct blk; next is an address, 0 at the end. */
  datatype Hdr = Hdr(size: int, free: bool, next: int)

  // ---- the links --------------------------------------------------------------------------------

  function AddrAt(bs: seq<Blk>, k: nat): int { if k < |bs| then bs[k].addr else 0 }

  predicate LinkAt(hdr: map<int, Hdr>, bs: seq<Blk>, k: nat)
    requires k < |bs|
  {
    bs[k].addr in hdr && hdr[bs[k].addr] == Hdr(bs[k].size, bs[k].free, AddrAt(bs, k + 1))
  }

  /** The headers thread exactly the blocks bs, in this order. */
  ghost predicate Links(hdr: map<int, Hdr>, head: int, tail: int, bs: seq<Blk>) {
    && head == AddrAt(bs, 0) && tail == (if bs == [] then 0 else bs[|bs| - 1].addr)
    && forall k :: 0 <= k < |bs| ==> LinkAt(hdr, bs, k)
  }

  /** Addresses are positive and all different. */
  ghost predicate Distinct(bs: seq<Blk>) {
    && (forall k :: 0 <= k < |bs| ==> bs[k].addr > 0)
    && forall i, j :: 0 <= i < j < |bs| ==> bs[i].addr != bs[j].addr
  }

  lemma HeapDistinct(h: Heap)
    requires HeapOk(h)
    ensures Distinct(h.bs)
  {
    hide HeapOk;
    forall k | 0 <= k < |h.bs|
      ensures h.bs[k].addr > 0
    {
      BlkOkOf(h, k);
    }
    forall i, j | 0 <= i < j < |h.bs|
      ensures h.bs[i].addr != h.bs[j].addr
    {
      BlkOkOf(h, i);
      BlkOkOf(h, j);
      Apart(h, i, j);
    }
  }

  lemma LinksFlag(hdr: map<int, Hdr>, head: int, tail: int, bs: seq<Blk>, i: nat, f: bool)
    requires Links(hdr, head, tail, bs) && Distinct(bs) && i < |bs|
    ensures var a := bs[i].addr; a in hdr && Links(hdr[a := hdr[a].(free := f)], head, tail, bs[i := bs[i].(free := f)])
  {
    assert LinkAt(hdr, bs, i);
    var a := bs[i].addr;
    var hdr', bs' := hdr[a := hdr[a].(free := f)], bs[i := bs[i].(free := f)];
    forall k | 0 <= k < |bs'|
      ensures LinkAt(hdr', bs', k)
    {
      assert LinkAt(hdr, bs, k);
    }
  }

  /** Block i cut in two. */
  lemma LinksSplit(hdr: map<int, Hdr>, head: int, tail: int, bs: seq<Blk>, i: nat, size: int, n: int, rem: int)
    requires Links(hdr, head, tail, bs) && Distinct(bs) && i < |bs|
    requires forall k :: 0 <= k < |bs| ==> bs[k].addr != n
    ensures var a := bs[i].addr;
      a in hdr && Links(hdr[n := Hdr(rem, true, hdr[a].next)][a := Hdr(size, hdr[a].free, n)], head,
                        if tail == a then n else tail,
                        bs[..i] + [Blk(a, size, bs[i].free), Blk(n, rem, true)] + bs[i + 1..])
  {
    assert LinkAt(hdr, bs, i);
    var a := bs[i].addr;
    var hdr' := hdr[n := Hdr(rem, true, hdr[a].next)][a := Hdr(size, hdr[a].free, n)];
    var bs' := bs[..i] + [Blk(a, size, bs[i].free), Blk(n, rem, true)] + bs[i + 1..];
    forall k | 0 <= k < |bs'|
      ensures LinkAt(hdr', bs', k)
    {
      if k < i {
        assert LinkAt(hdr, bs, k);
      } else if k > i + 1 {
        assert LinkAt(hdr, bs, k - 1);
        assert bs'[k] == bs[k - 1];
      }
    }
    if i == |bs| - 1 {
      assert bs'[|bs'| - 1] == Blk(n, rem, true);
    } else {
      assert bs'[|bs'| - 1] == bs[|bs| - 1];
    }
  }

  /** Block i swallows the one after it. */
  lemma LinksMerge(hdr: map<int, Hdr>, head: int, tail: int, bs: seq<Blk>, i: nat, size: int)
    requires Links(hdr, head, tail, bs) && Distinct(bs) && i + 1 < |bs|
    ensures var a, n := bs[i].addr, bs[i + 1].addr;
      a in hdr && n in hdr && Links(hdr[a := Hdr(size, hdr[a].free, hdr[n].next)], head, if tail == n then a else tail,
                                    bs[..i] + [Blk(a, size, bs[i].free)] + bs[i + 2..])
  {
    assert LinkAt(hdr, bs, i) && LinkAt(hdr, bs, i + 1);
    var a, n := bs[i].addr, bs[i + 1].addr;
    var hdr' := hdr[a := Hdr(size, hdr[a].free, hdr[n].next)];
    var bs' := bs[..i] + [Blk(a, size, bs[i].free)] + bs[i + 2..];
    forall k | 0 <= k < |bs'|
      ensures LinkAt(hdr', bs', k)
    {
      if k < i {
        assert LinkAt(hdr, bs, k);
      } else if k > i {
        assert LinkAt(hdr, bs, k + 1);
        assert bs'[k] == bs[k + 1];
      }
    }
    if i + 2 < |bs| {
      assert bs'[|bs'| - 1] == bs[|bs| - 1];
    }
  }

  /** A block appended behind the tail. */
  lemma LinksGrow(hdr: map<int, Hdr>, head: int, tail: int, bs: seq<Blk>, pa: int, size: int)
    requires Links(hdr, head, tail, bs) && Distinct(bs) && forall k :: 0 <= k < |bs| ==> bs[k].addr != pa
    ensures bs == [] <==> head == 0
    ensures bs == [] ==> Links(hdr[pa := Hdr(size, true, 0)], pa, pa, [Blk(pa, size, true)])
    ensures bs != [] ==> tail in hdr && tail != pa
    ensures bs != [] ==> Links(hdr[pa := Hdr(size, true, 0)][tail := hdr[tail].(next := pa)], head, pa, bs + [Blk(pa, size, true)])
  {
    if bs != [] {
      var n := |bs| - 1;
      assert LinkAt(hdr, bs, n);
      var hdr', bs' := hdr[pa := Hdr(size, true, 0)][tail := hdr[tail].(next := pa)], bs + [Blk(pa, size, true)];
      forall k | 0 <= k < |bs'|
        ensures LinkAt(hdr', bs', k)
      {
        if k < |bs| {
          assert LinkAt(hdr, bs, k);
        }
      }
    }
  }

  // ---- what a write can reach ---------------------------------------------------------------------

  /** Only bytes in [lo, hi) may differ. */
  ghost predicate Touch(m: int -> int, m': int -> int, lo: int, hi: int) {
    forall x :: !(lo <= x < hi) ==> m'(x) == m(x)
  }

  /** The bytes [to, to + n) are those that were at from. */
  ghost predicate Copied(m: int -> int, m': int -> int, to: int, from: int, n: int) {
    forall x {:trigger m'(x)} :: to <= x < to + n ==> m'(x) == m(from + (x - to))
  }

  /** No live payload differs. */
  ghost predicate SameLive(h: Heap, m: int -> int, m': int -> int) {
    forall c, x :: Live(h, c) && Payload(c) <= x < End(c) ==> m'(x) == m(x)
  }

  lemma TouchFree(h: Heap, i: nat, m: int -> int, m': int -> int)
    requires HeapOk(h) && i < |h.bs| && h.bs[i].free && Touch(m, m', h.bs[i].addr, End(h.bs[i]))
    ensures SameLive(h, m, m')
  {
    hide HeapOk;
    forall c, x | Live(h, c) && Payload(c) <= x < End(c)
      ensures m'(x) == m(x)
    {
      LivePayloadsApart(h, c, h.bs[i]);
    }
  }

  lemma TouchHeader(h: Heap, i: nat, m: int -> int, m': int -> int)
    requires HeapOk(h) && i < |h.bs| && Touch(m, m', h.bs[i].addr, h.bs[i].addr + H)
    ensures SameLive(h, m, m')
  {
    hide HeapOk;
    forall c, x | Live(h, c) && Payload(c) <= x < End(c)
      ensures m'(x) == m(x)
    {
      BlkOkOf(h, i);
      if c != h.bs[i] {
        LivePayloadsApart(h, c, h.bs[i]);
      }
    }
  }

  /** No live payload but the one at ptr differs. */
  ghost predicate SameButOne(h: Heap, m: int -> int, m': int -> int, ptr: int) {
    forall c, x :: Live(h, c) && Payload(c) != ptr && Payload(c) <= x < End(c) ==> m'(x) == m(x)
  }

  /** A granted run is in no block yet. */
  lemma RunIsNew(h: Heap, r: Run, k: nat)
    requires HeapOk(h) && Grant(h, r) && k < |h.bs|
    ensures End(h.bs[k]) <= r.base || r.base + r.len <= h.bs[k].addr
  {
    hide Count, RunCount, Used, Bytes, RunBytes;
    var b := h.bs[k];
    assert BlkOk(b);
    if b.addr <= r.base < End(b) {
      CountAtLeast(h.bs, k, r.base);
    } else if r.base <= b.addr < r.base + r.len {
      CountAtLeast(h.bs, k, b.addr);
    }
  }

  lemma TouchRun(h: Heap, r: Run, m: int -> int, m': int -> int)
    requires HeapOk(h) && Grant(h, r) && Touch(m, m', r.base, r.base + r.len)
    ensures SameLive(h, m, m')
  {
    hide HeapOk, Grant;
    forall c, x | Live(h, c) && Payload(c) <= x < End(c)
      ensures m'(x) == m(x)
    {
      var k :| 0 <= k < |h.bs| && h.bs[k] == c;
      RunIsNew(h, r, k);
    }
  }

  // ---- splitting ----------------------------------------------------------------------------------

  function SplitList(bs: seq<Blk>, i: nat, size: int): seq<Blk>
    requires i < |bs|
  {
    var b := bs[i];
    if Minus(b.size, size) < H + MIN_SPLIT then bs
    else bs[..i] + [Blk(b.addr, size, b.free), Blk(Plus(b.addr, H + size), Minus(b.size, size) - H, true)] + bs[i + 1..]
  }

  /** The new header lies where no header was. */
  lemma SplitIsNew(h: Heap, i: nat, size: int)
    requires HeapOk(h) && i < |h.bs| && 0 <= size && h.bs[i].size - size >= H + MIN_SPLIT
    ensures forall k :: 0 <= k < |h.bs| ==> h.bs[k].addr != h.bs[i].addr + H + size
  {
    hide HeapOk;
    forall k | 0 <= k < |h.bs|
      ensures h.bs[k].addr != h.bs[i].addr + H + size
    {
      BlkOkOf(h, k);
      if k != i {
        Apart(h, k, i);
      }
    }
  }

  lemma SplitDistinct(h: Heap, i: nat, size: int)
    requires HeapOk(h) && i < |h.bs| && 0 <= size <= h.bs[i].size
    ensures Distinct(SplitList(h.bs, i, size))
  {
    hide HeapOk;
    HeapDistinct(h);
    BlkOkOf(h, i);
    if h.bs[i].size - size >= H + MIN_SPLIT {
      SplitIsNew(h, i, size);
      InsertDistinct(h.bs, i, Blk(h.bs[i].addr, size, h.bs[i].free), Blk(h.bs[i].addr + H + size, h.bs[i].size - size - H, true));
    }
  }

  lemma InsertDistinct(bs: seq<Blk>, i: nat, b: Blk, c: Blk)
    requires Distinct(bs) && i < |bs| && b.addr == bs[i].addr && c.addr > 0 && forall k :: 0 <= k < |bs| ==> bs[k].addr != c.addr
    ensures Distinct(bs[..i] + [b, c] + bs[i + 1..])
  {
    var r := bs[..i] + [b, c] + bs[i + 1..];
    assert forall k :: 0 <= k <= i ==> r[k].addr == bs[k].addr;
    assert r[i + 1] == c;
    forall k | i + 1 < k < |r|
      ensures r[k].addr == bs[k - 1].addr
    {
    }
  }

  lemma SplitThenTake(h: Heap, i: nat, size: int)
    requires i < |h.bs|
    ensures var l := SplitList(h.bs, i, size); i < |l| && l[i].addr == h.bs[i].addr && l[i].size == Carve(h.bs[i], size)[0].size
    ensures var l := SplitList(h.bs, i, size); l[i := l[i].(free := false)] == AllocAt(h, i, size).bs
  {
  }

  // ---- the code -----------------------------------------------------------------------------------

  class Kheap {
    var hdr: map<int, Hdr>
    var head: int
    var tail: int
    var used: int
    /** memory, byte by byte; a byte inside a header reads -1 */
    var mem: int -> int
    ghost var h: Heap

    ghost predicate Valid()
      reads this
    {
      HeapOk(h) && used == h.used && Links(hdr, head, tail, h.bs)
    }

    constructor (m: int -> int)
      ensures Valid() && h == Heap([], [], 0)
    {
      hdr, head, tail, used, mem, h := map[], 0, 0, 0, m, Heap([], [], 0);
    }

    /** Write a header word: the header's bytes in memory change with it. */
    method SetHdr(a: int, v: Hdr)
      modifies this`hdr, this`mem
      ensures hdr == old(hdr)[a := v] && Touch(old(mem), mem, a, a + H)
    {
      var m := mem;
      hdr, mem := hdr[a := v], x => if a <= x < a + H then -1 else m(x);
    }

    method Memset(p: int, n: int)
      modifies this`mem
      ensures Touch(old(mem), mem, p, p + n) && forall x :: p <= x < p + n ==> mem(x) == 0
    {
      var m := mem;
      mem := x => if p <= x < p + n then 0 else m(x);
    }

    method Memcpy(to: int, from: int, n: int)
      modifies this`mem
      ensures Touch(old(mem), mem, to, to + n) && Copied(old(mem), mem, to, from, n)
    {
      var m := mem;
      mem := x => if to <= x < to + n then m(from + (x - to)) else m(x);
    }

    /** grow; pa is the page allocator's answer for the pages asked for */
    method Grow(need: int, pa: int) returns (b: int)
      requires Valid() && (pa != 0 ==> Grant(h, Run(pa, PagesFor(need) * PAGE)))
      modifies this`hdr, this`head, this`tail, this`mem, this`h
      ensures Valid() && b == pa
      ensures h == if pa == 0 then old(h) else GrowBy(old(h), Run(pa, PagesFor(need) * PAGE))
      ensures SameLive(old(h), old(mem), mem)
    {
      hide HeapOk, Grant, Links, PagesFor;
      if pa == 0 {
        return 0;
      }
      ghost var r := Run(pa, PagesFor(need) * PAGE);
      ghost var n := |h.bs| - 1;
      HeapDistinct(h);
      GrantIsNew(h, r);
      GrowKeeps(h, r);
      var size := Minus(PagesFor(need) * PAGE, H);
      LinksGrow(hdr, head, tail, h.bs, pa, size);
      LinksTail(hdr, head, tail, h.bs);
      ghost var m0 := mem;
      SetHdr(pa, Hdr(size, true, 0));
      TouchRun(h, r, m0, mem);
      if head == 0 {
        head, tail := pa, pa;
        assert [] + [Blk(pa, size, true)] == [Blk(pa, size, true)];
      } else {
        ghost var m1 := mem;
        SetHdr(tail, hdr[tail].(next := pa));
        TouchHeader(h, n, m1, mem);
        tail := pa;
      }
      h := GrowBy(h, r);
      b := pa;
    }

    /** split; the block keeps its flag */
    method Split(b: int, size: int, ghost i: nat)
      requires Valid() && i < |h.bs| && h.bs[i].addr == b && 0 <= size <= h.bs[i].size
      modifies this`hdr, this`tail, this`mem
      ensures Links(hdr, head, tail, SplitList(h.bs, i, size))
      ensures Touch(old(mem), mem, b, End(h.bs[i]))
    {
      hide HeapOk, Links;
      LinksHdr(hdr, head, tail, h.bs, i);
      var rem := Minus(hdr[b].size, size);
      if rem < H + MIN_SPLIT {
        return;
      }
      HeapDistinct(h);
      BlkOkOf(h, i);
      SplitIsNew(h, i, size);
      var n := Plus(b, H + size);
      LinksSplit(hdr, head, tail, h.bs, i, size, n, rem - H);
      SetHdr(n, Hdr(rem - H, true, hdr[b].next));
      SetHdr(b, Hdr(size, hdr[b].free, n));
      if tail == b {
        tail := n;
      }
    }

    /** The end of kmalloc: the block at b is split, marked, counted and zeroed. */
    method Take(b: int, size: int, ghost i: nat) returns (p: int)
      requires Valid() && i < |h.bs| && h.bs[i].addr == b && h.bs[i].free && 0 <= size <= h.bs[i].size && size % 8 == 0
      modifies this
      ensures Valid() && h == AllocAt(old(h), i, size) && p == b + H
      ensures SameLive(old(h), old(mem), mem)
      ensures forall x :: p <= x < p + Carve(old(h).bs[i], size)[0].size ==> mem(x) == 0
    {
      hide HeapOk, Links, Carve, AllocAt, SplitList;
      ghost var m0 := mem;
      AllocKeeps(h, i, size);
      AllocUsed(h, i, size);
      SplitDistinct(h, i, size);
      SplitThenTake(h, i, size);
      CarveSmaller(h.bs[i], size);
      Split(b, size, i);
      ghost var l := SplitList(h.bs, i, size);
      LinksHdr(hdr, head, tail, l, i);
      LinksFlag(hdr, head, tail, l, i, false);
      SetHdr(b, hdr[b].(free := false));
      used := used + hdr[b].size;
      p := b + H;
      Memset(p, hdr[b].size);
      TouchFree(h, i, m0, mem);
      h := AllocAt(h, i, size);
    }

    /** kmalloc */
    method Kmalloc(req: int, pa: int) returns (p: int)
      requires Valid() && 0 <= req < LIMIT && Grants(h, req, pa) && !Overflows(h, req, pa)
      modifies this
      ensures Valid() && (h, p) == KHeapOps.Kmalloc(old(h), req, pa)
      ensures SameLive(old(h), old(mem), mem)
      ensures p != 0 ==> forall x :: p <= x < p + SizeOf(h, p) ==> mem(x) == 0
    {
      hide HeapOk, Links, Carve, AllocAt, PagesFor, Grant;
      var size := Align8(if req == 0 then 8 else req);
      assert size == Request(req);
      RequestOk(req);
      ghost var h0 := h;
      HeapDistinct(h);
      LinksHead(hdr, head, tail, h.bs);
      var b := head;
      ghost var k := 0;
      while b != 0
        invariant k <= |h0.bs| && b == AddrAt(h0.bs, k) && FirstFit(h0.bs, size, 0) == FirstFit(h0.bs, size, k)
        invariant h == h0 && hdr == old(hdr) && mem == old(mem) && Valid()
        decreases |h0.bs| - k
      {
        LinksHdr(hdr, head, tail, h.bs, k);
        if hdr[b].free && hdr[b].size >= size {
          p := Take(b, size, k);
          AllocFinds(h0, k, size);
          return;
        }
        b := hdr[b].next;
        k := k + 1;
      }
      b := Grow(size, pa);
      if b == 0 {
        return 0;
      }
      GrowLive(h0, Run(pa, PagesFor(size) * PAGE));
      ghost var g, m1 := h, mem;
      p := Take(b, size, |h0.bs|);
      AllocFinds(g, |h0.bs|, size);
    }

    /** kfree */
    method Kfree(ptr: int)
      requires Valid() && (ptr == 0 || LivePtr(h, ptr))
      modifies this
      ensures Valid() && h == KHeapOps.Kfree(old(h), ptr)
      ensures SameLive(old(h), old(mem), mem)
    {
      hide HeapOk, Links, Distinct, FreeAt, Coalesced;
      if ptr == 0 {
        return;
      }
      ghost var blk :| Live(h, blk) && Payload(blk) == ptr;
      LiveIndex(h, blk);
      ghost var i := IndexOf(h.bs, ptr - H, 0);
      ghost var m0 := mem;
      UsedCovers(h, i);
      FreeKeeps(h, i);
      HeapDistinct(h);
      LinksHdr(hdr, head, tail, h.bs, i);
      LinksFlag(hdr, head, tail, h.bs, i, true);
      var b := ptr - H;
      SetHdr(b, hdr[b].(free := true));
      if used >= hdr[b].size {
        used := used - hdr[b].size;
      }
      FlagDistinct(h.bs, i);
      Coalesce(b, i, h.bs[i := h.bs[i].(free := true)]);
      TouchHeader(h, i, m0, mem);
      FreedIs(h, i);
      h := FreeAt(h, i);
    }

    /** krealloc: a moved block keeps its contents, and no other live payload changes. */
    method Krealloc(ptr: int, newsize: int, pa: int) returns (p: int)
      requires Valid() && 0 <= newsize < LIMIT && Grants(h, newsize, pa) && (ptr == 0 || LivePtr(h, ptr))
      requires InPlace(h, ptr, newsize) || !Overflows(h, newsize, pa)
      modifies this
      ensures Valid() && (h, p) == KHeapOps.Krealloc(old(h), ptr, newsize, pa)
      ensures SameButOne(old(h), old(mem), mem, ptr)
      ensures ptr != 0 && p != 0 ==> Copied(old(mem), mem, p, ptr, SizeOf(old(h), ptr))
    {
      hide HeapOk, Links, KHeapOps.Kmalloc, KHeapOps.Kfree, Grants, SizeOf;
      if ptr == 0 {
        p := Kmalloc(newsize, pa);
        return;
      }
      ghost var h0, m0 := h, mem;
      ghost var blk :| Live(h, blk) && Payload(blk) == ptr;
      LiveSize(h, hdr, head, tail, blk);
      var b := ptr - H;
      var was := hdr[b].size;
      if Align8(newsize) <= was {
        return ptr;
      }
      ghost var c := KmallocGives(h, newsize, pa);
      p := Kmalloc(newsize, pa);
      if p == 0 {
        return;
      }
      ghost var h1, m1 := h, mem;
      GivenSize(h0, h1, p, Request(newsize), c, blk);
      Memcpy(p, ptr, was);
      ghost var m2 := mem;
      CopyKeeps(h0, h1, c, blk, m0, m1, m2, was);
      Kfree(ptr);
      MoveKeeps(h0, h1, c, blk, m0, m1, m2, mem, was);
    }

    /** The end of kfree: merge with the next block if it is free and adjacent. */
    method Coalesce(b: int, ghost i: nat, ghost bs: seq<Blk>)
      requires Links(hdr, head, tail, bs) && Distinct(bs) && i < |bs| && bs[i].addr == b && bs[i].free
      modifies this`hdr, this`tail, this`mem
      ensures Links(hdr, head, tail, Coalesced(bs, i))
      ensures Touch(old(mem), mem, b, b + H)
    {
      hide Links, Distinct;
      LinksHdr(hdr, head, tail, bs, i);
      var n := hdr[b].next;
      NextHdr(hdr, head, tail, bs, i);
      if n != 0 && hdr[n].free && n == b + H + hdr[b].size {
        LinksMerge(hdr, head, tail, bs, i, hdr[b].size + H + hdr[n].size);
        SetHdr(b, Hdr(hdr[b].size + H + hdr[n].size, true, hdr[n].next));
        if tail == n {
          tail := b;
        }
      }
    }
  }

  function Coalesced(bs: seq<Blk>, i: nat): seq<Blk>
    requires i < |bs|
  {
    if Merges(bs, i) then bs[..i] + [Blk(bs[i].addr, bs[i].size + H + bs[i + 1].size, true)] + bs[i + 2..] else bs
  }

  lemma LinksHdr(hdr: map<int, Hdr>, head: int, tail: int, bs: seq<Blk>, i: nat)
    requires Links(hdr, head, tail, bs) && i < |bs|
    ensures bs[i].addr in hdr && hdr[bs[i].addr] == Hdr(bs[i].size, bs[i].free, AddrAt(bs, i + 1))
  {
    assert LinkAt(hdr, bs, i);
  }

  lemma LinksTail(hdr: map<int, Hdr>, head: int, tail: int, bs: seq<Blk>)
    requires Links(hdr, head, tail, bs)
    ensures bs != [] ==> tail == bs[|bs| - 1].addr
  {
  }

  lemma GrantIsNew(h: Heap, r: Run)
    requires HeapOk(h) && Grant(h, r)
    ensures r.len > H && forall k :: 0 <= k < |h.bs| ==> h.bs[k].addr != r.base
  {
    hide HeapOk;
    forall k | 0 <= k < |h.bs|
      ensures h.bs[k].addr != r.base
    {
      BlkOkOf(h, k);
      RunIsNew(h, r, k);
    }
  }

  lemma AllocUsed(h: Heap, i: nat, size: int)
    requires i < |h.bs|
    ensures AllocAt(h, i, size).used == h.used + Carve(h.bs[i], size)[0].size
  {
  }

  lemma CarveSmaller(b: Blk, size: int)
    requires 0 <= size <= b.size
    ensures 0 <= Carve(b, size)[0].size <= b.size
  {
  }

  lemma LinksHead(hdr: map<int, Hdr>, head: int, tail: int, bs: seq<Blk>)
    requires Links(hdr, head, tail, bs)
    ensures head == AddrAt(bs, 0)
  {
  }

  /** After the block at i is taken, its pointer finds it. */
  lemma AllocFinds(h: Heap, i: nat, size: int)
    requires HeapOk(h) && i < |h.bs| && h.bs[i].free && 0 <= size <= h.bs[i].size && size % 8 == 0
    ensures SizeOf(AllocAt(h, i, size), Payload(h.bs[i])) == Carve(h.bs[i], size)[0].size
  {
    hide HeapOk;
    var b := Taken(h, i, size);
    AllocKeeps(h, i, size);
    LiveIndex(AllocAt(h, i, size), b);
  }

  lemma FlagDistinct(bs: seq<Blk>, i: nat)
    requires Distinct(bs) && i < |bs|
    ensures Distinct(bs[i := bs[i].(free := true)])
  {
    var r := bs[i := bs[i].(free := true)];
    assert forall k :: 0 <= k < |bs| ==> r[k].addr == bs[k].addr;
  }

  lemma NextHdr(hdr: map<int, Hdr>, head: int, tail: int, bs: seq<Blk>, i: nat)
    requires Links(hdr, head, tail, bs) && Distinct(bs) && i < |bs|
    ensures AddrAt(bs, i + 1) != 0 <==> i + 1 < |bs|
    ensures i + 1 < |bs| ==> bs[i + 1].addr in hdr && hdr[bs[i + 1].addr].size == bs[i + 1].size
    ensures i + 1 < |bs| ==> hdr[bs[i + 1].addr].free == bs[i + 1].free
  {
    hide Links;
    if i + 1 < |bs| {
      LinksHdr(hdr, head, tail, bs, i + 1);
    }
  }

  /** A block in use is part of used_bytes. */
  lemma UsedCovers(h: Heap, i: nat)
    requires HeapOk(h) && i < |h.bs| && !h.bs[i].free
    ensures h.used >= h.bs[i].size
  {
    hide Count, RunCount, Bytes;
    UsedAtLeast(h.bs, i);
  }

  lemma {:induction false} UsedAtLeast(bs: seq<Blk>, i: nat)
    requires Shaped(bs) && i < |bs| && !bs[i].free
    ensures Used(bs) >= bs[i].size
    decreases i
  {
    UsedPositive(bs[1..]);
    if i > 0 {
      UsedAtLeast(bs[1..], i - 1);
    }
  }

  lemma {:induction false} UsedPositive(bs: seq<Blk>)
    requires Shaped(bs)
    ensures Used(bs) >= 0
    decreases |bs|
  {
    if bs != [] {
      UsedPositive(bs[1..]);
    }
  }

  lemma FreedIs(h: Heap, i: nat)
    requires i < |h.bs|
    ensures FreeAt(h, i).bs == Coalesced(h.bs[i := h.bs[i].(free := true)], i)
    ensures FreeAt(h, i).used == h.used - h.bs[i].size
  {
  }

  // ---- moving a block -------------------------------------------------------------------------------

  lemma LiveSize(h: Heap, hdr: map<int, Hdr>, head: int, tail: int, b: Blk)
    requires HeapOk(h) && Live(h, b) && Links(hdr, head, tail, h.bs)
    ensures b.addr in hdr && hdr[b.addr].size == b.size == SizeOf(h, Payload(b)) && b.addr > 0
  {
    hide HeapOk, Links;
    LiveIndex(h, b);
    var i := IndexOf(h.bs, b.addr, 0);
    BlkOkOf(h, i);
    LinksHdr(hdr, head, tail, h.bs, i);
  }

  /** The new block is bigger than the old one, and apart from it. */
  lemma GivenSize(h0: Heap, h1: Heap, p: int, size: int, c: Blk, b: Blk)
    requires Gives(h0, h1, p, size, c) && p != 0 && Live(h0, b) && HeapOk(h1)
    ensures p == Payload(c) && Live(h1, c) && Live(h1, b) && b != c && c.size >= size && c.size % 8 == 0
  {
    hide Count, RunCount, Used, Bytes;
    var k :| 0 <= k < |h1.bs| && h1.bs[k] == c;
    assert BlkOk(h1.bs[k]);
  }

  /** Copying into the new block touches no payload that was live before. */
  lemma CopyKeeps(h0: Heap, h1: Heap, c: Blk, b: Blk, m0: int -> int, m1: int -> int, m2: int -> int, n: int)
    requires HeapOk(h1) && Live(h1, c) && n <= c.size && Touch(m1, m2, Payload(c), Payload(c) + n)
    requires SameLive(h0, m0, m1) && forall d :: Live(h0, d) ==> Live(h1, d) && d != c
    ensures SameLive(h0, m0, m2)
  {
    hide HeapOk;
    forall d, x | Live(h0, d) && Payload(d) <= x < End(d)
      ensures m2(x) == m0(x)
    {
      LivePayloadsApart(h1, d, c);
    }
  }

  lemma MoveKeeps(h0: Heap, h1: Heap, c: Blk, b: Blk, m0: int -> int, m1: int -> int, m2: int -> int, m3: int -> int, n: int)
    requires Live(h1, c) && n <= c.size && n == b.size && Live(h0, b) && SameLive(h0, m0, m1) && SameLive(h0, m0, m2)
    requires forall d :: Live(h0, d) ==> Live(h1, d)
    requires Copied(m1, m2, Payload(c), Payload(b), n) && SameLive(h1, m2, m3)
    ensures SameButOne(h0, m0, m3, Payload(b)) && Copied(m0, m3, Payload(c), Payload(b), n)
  {
    forall x {:trigger m3(x)} | Payload(c) <= x < Payload(c) + n
      ensures m3(x) == m0(Payload(b) + (x - Payload(c)))
    {
      assert m3(x) == m2(x);
      var y := Payload(b) + (x - Payload(c));
      assert m1(y) == m0(y);
    }
  }
}
