/** kmalloc, kfree and krealloc on the block list, and what every run of them keeps. */
module KHeapOps {
  import opened Options
  import opened KHeap

  // ---- splitting and merging --------------------------------------------------------------------

  /** split, and the block taken: the remainder stays a block of its own when it is worth it. */
  function Carve(b: Blk, size: int): (r: seq<Blk>)
    ensures |r| >= 1 && r[0].addr == b.addr && !r[0].free
  {
    if Minus(b.size, size) < H + MIN_SPLIT then [b.(free := false)]
    else [Blk(b.addr, size, false), Blk(Plus(b.addr, H + size), Minus(b.size, size) - H, true)]
  }

  lemma CarveSame(b: Blk, size: int)
    requires BlkOk(b) && 0 <= size <= b.size && size % 8 == 0
    ensures SameBytes([b], Carve(b, size)) && Used(Carve(b, size)) == Carve(b, size)[0].size >= size
  {
    hide Count, Used, Bytes;
    var r := Carve(b, size);
    OneBlock(b, 0);
    OneBlock(r[0], 0);
    if |r| == 1 {
      forall a
        ensures Count([b], a) == Count(r, a)
      {
        OneBlock(b, a);
        OneBlock(r[0], a);
      }
    } else {
      forall a
        ensures Count([b], a) == Count(r, a)
      {
        CarveCount(b, size, a);
      }
      OneBlock(r[1], 0);
      assert r == [r[0]] + [r[1]];
      SumsConcat([r[0]], [r[1]]);
    }
  }

  lemma CarveCount(b: Blk, size: int, a: int)
    requires 0 <= size && b.size - size >= H + MIN_SPLIT
    ensures Count([b], a) == Count([Blk(b.addr, size, false), Blk(b.addr + H + size, b.size - size - H, true)], a)
  {
    var x, y := Blk(b.addr, size, false), Blk(b.addr + H + size, b.size - size - H, true);
    assert [x, y] == [x] + [y];
    CountConcat([x], [y], a);
  }

  function AllocAt(h: Heap, i: nat, size: int): Heap
    requires i < |h.bs|
  {
    var c := Carve(h.bs[i], size);
    h.(bs := h.bs[..i] + c + h.bs[i + 1..], used := h.used + c[0].size)
  }

  lemma {:induction false} OneBlock(b: Blk, a: int)
    ensures Count([b], a) == One(b.addr, End(b), a) && Used([b]) == (if b.free then 0 else b.size) && Bytes([b]) == H + b.size
  {
    assert [b][1..] == [];
  }

  lemma AllocKeeps(h: Heap, i: nat, size: int)
    requires HeapOk(h) && i < |h.bs| && h.bs[i].free && 0 <= size <= h.bs[i].size && size % 8 == 0
    ensures HeapOk(AllocAt(h, i, size))
  {
    hide Count, RunCount, Used, Bytes, Carve;
    var b := h.bs[i];
    assert BlkOk(b);
    CarveSame(b, size);
    OneBlock(b, 0);
    assert h.bs == h.bs[..i] + [b] + h.bs[i + 1..];
    Exchange(h.bs[..i], [b], Carve(b, size), h.bs[i + 1..], h.runs);
  }

  predicate Merges(bs: seq<Blk>, i: nat)
    requires i < |bs|
  {
    i + 1 < |bs| && bs[i + 1].free && bs[i + 1].addr == End(bs[i])
  }

  function FreeAt(h: Heap, i: nat): Heap
    requires i < |h.bs|
  {
    var b := h.bs[i];
    if Merges(h.bs, i) then
      h.(bs := h.bs[..i] + [Blk(b.addr, b.size + H + h.bs[i + 1].size, true)] + h.bs[i + 2..], used := h.used - b.size)
    else h.(bs := h.bs[..i] + [b.(free := true)] + h.bs[i + 1..], used := h.used - b.size)
  }

  lemma MergeSame(b: Blk, c: Blk)
    requires BlkOk(b) && BlkOk(c) && c.addr == End(b)
    ensures SameBytes([b] + [c], [Blk(b.addr, b.size + H + c.size, true)])
  {
    var m := Blk(b.addr, b.size + H + c.size, true);
    forall a
      ensures Count([b] + [c], a) == Count([m], a)
    {
      CountConcat([b], [c], a);
      OneBlock(b, a);
      OneBlock(c, a);
      OneBlock(m, a);
    }
    SumsConcat([b], [c]);
  }

  lemma FreeKeeps(h: Heap, i: nat)
    requires HeapOk(h) && i < |h.bs| && !h.bs[i].free
    ensures HeapOk(FreeAt(h, i))
  {
    hide Count, RunCount, Used, Bytes;
    var b := h.bs[i];
    assert BlkOk(b);
    OneBlock(b, 0);
    if Merges(h.bs, i) {
      var c := h.bs[i + 1];
      var m := Blk(b.addr, b.size + H + c.size, true);
      assert BlkOk(c);
      MergeSame(b, c);
      OneBlock(c, 0);
      OneBlock(m, 0);
      SumsConcat([b], [c]);
      assert h.bs == h.bs[..i] + ([b] + [c]) + h.bs[i + 2..];
      Exchange(h.bs[..i], [b] + [c], [m], h.bs[i + 2..], h.runs);
    } else {
      var f := b.(free := true);
      OneBlock(f, 0);
      FlagSame(b);
      assert h.bs == h.bs[..i] + [b] + h.bs[i + 1..];
      Exchange(h.bs[..i], [b], [f], h.bs[i + 1..], h.runs);
    }
  }

  lemma FlagSame(b: Blk)
    requires BlkOk(b)
    ensures SameBytes([b], [b.(free := true)])
  {
    forall a
      ensures Count([b], a) == Count([b.(free := true)], a)
    {
      OneBlock(b, a);
      OneBlock(b.(free := true), a);
    }
  }

  // ---- growing ------------------------------------------------------------------------------------

  function GrowBy(h: Heap, r: Run): Heap {
    h.(bs := h.bs + [Blk(r.base, Minus(r.len, H), true)], runs := h.runs + [r])
  }

  /** The page allocator's promise: fresh whole pages inside the 32-bit space. */
  ghost predicate Grant(h: Heap, r: Run) {
    && r.base > 0 && r.base % 8 == 0 && r.len % 8 == 0 && r.len > H && r.base + r.len <= LIMIT
    && RunBytes(h.runs) + r.len <= LIMIT
    && forall a :: r.base <= a < r.base + r.len ==> RunCount(h.runs, a) == 0
  }

  lemma GrowKeeps(h: Heap, r: Run)
    requires HeapOk(h) && Grant(h, r)
    ensures HeapOk(GrowBy(h, r))
  {
    hide Count, RunCount, Used, Bytes, RunBytes;
    var b := Blk(r.base, r.len - H, true);
    forall a
      ensures Count(h.bs + [b], a) == RunCount(h.runs + [r], a) <= 1
    {
      CountConcat(h.bs, [b], a);
      OneBlock(b, a);
      RunConcat(h.runs, [r], a);
      OneRun(r, a);
    }
    SumsConcat(h.bs, [b]);
    OneBlock(b, 0);
    RunConcat(h.runs, [r], 0);
    OneRun(r, 0);
    assert forall i :: 0 <= i < |h.bs + [b]| ==> (h.bs + [b])[i] == if i < |h.bs| then h.bs[i] else b;
  }

  lemma {:induction false} OneRun(r: Run, a: int)
    ensures RunCount([r], a) == One(r.base, r.base + r.len, a) && RunBytes([r]) == r.len
  {
    assert [r][1..] == [];
  }

  // ---- the operations -------------------------------------------------------------------------------

  /** The first free block with room, from i on. */
  function FirstFit(bs: seq<Blk>, size: int, i: nat): (r: Option<nat>)
    requires i <= |bs|
    ensures r.Some? ==> i <= r.value < |bs| && bs[r.value].free && bs[r.value].size >= size
    ensures r.Some? ==> forall k :: i <= k < r.value ==> !(bs[k].free && bs[k].size >= size)
    ensures r.None? ==> forall k :: i <= k < |bs| ==> !(bs[k].free && bs[k].size >= size)
    decreases |bs| - i
  {
    if i == |bs| then None else if bs[i].free && bs[i].size >= size then Some(i) else FirstFit(bs, size, i + 1)
  }

  function Request(size: int): int { Align8(if size == 0 then 8 else size) }

  /** kmalloc; pa is what the page allocator would return (0: nothing left). */
  function Kmalloc(h: Heap, size: int, pa: int): (r: (Heap, int)) {
    var n := Request(size);
    match FirstFit(h.bs, n, 0)
    case Some(i) => (AllocAt(h, i, n), Payload(h.bs[i]))
    case None =>
      if pa == 0 then (h, 0)
      else
        var g := GrowBy(h, Run(pa, PagesFor(n) * PAGE));
        (AllocAt(g, |h.bs|, n), Payload(g.bs[|h.bs|]))
  }

  /** Which block a pointer belongs to. */
  ghost predicate Live(h: Heap, b: Blk) { b in h.bs && !b.free }

  /** What the page allocator may answer; for no pages it promises nothing but an address. */
  ghost predicate Grants(h: Heap, size: int, pa: int) {
    var n := PagesFor(Request(size));
    pa == 0 || (pa > 0 && pa % PAGE == 0 && (n > 0 ==> Grant(h, Run(pa, n * PAGE))))
  }

  /** kmalloc has to grow for a request whose page count wraps around. */
  predicate Overflows(h: Heap, size: int, pa: int) {
    MAX_REQUEST < size <= MAX_ALIGN && FirstFit(h.bs, Request(size), 0) == None && pa != 0
  }

  lemma RequestOk(size: int)
    requires 0 <= size < LIMIT
    ensures Request(size) % 8 == 0 && 0 <= Request(size) < LIMIT
    ensures if size <= MAX_ALIGN then size <= Request(size) else Request(size) == 0
    ensures Request(size) <= PagesFor(Request(size)) * PAGE - H <==> size <= MAX_REQUEST || size > MAX_ALIGN
  {
    AlignOk(if size == 0 then 8 else size);
    GrowFits(Request(size));
  }

  lemma KmallocKeeps(h: Heap, size: int, pa: int)
    requires HeapOk(h) && 0 <= size < LIMIT && Grants(h, size, pa) && !Overflows(h, size, pa)
    ensures HeapOk(Kmalloc(h, size, pa).0)
  {
    hide HeapOk, Grant, PagesFor, Request;
    var n := Request(size);
    RequestOk(size);
    match FirstFit(h.bs, n, 0) {
      case Some(i) => AllocKeeps(h, i, n);
      case None =>
        if pa != 0 {
          var r := Run(pa, PagesFor(n) * PAGE);
          GrowKeeps(h, r);
          AllocKeeps(GrowBy(h, r), |h.bs|, n);
        }
    }
  }

  /** kmalloc keeps the heap in order exactly when it does not have to grow for a request that wraps. */
  lemma KmallocKeepsExactly(h: Heap, size: int, pa: int)
    requires HeapOk(h) && 0 <= size < LIMIT && Grants(h, size, pa)
    ensures HeapOk(Kmalloc(h, size, pa).0) <==> !Overflows(h, size, pa)
  {
    hide Count, RunCount, Used, Bytes, RunBytes, FirstFit, Wrap;
    if !Overflows(h, size, pa) {
      KmallocKeeps(h, size, pa);
    } else {
      WrappedBlock(h, size, pa);
    }
  }

  /** Past the last block it leaves one that reaches beyond the address space. */
  lemma WrappedBlock(h: Heap, size: int, pa: int)
    requires MAX_REQUEST < size <= MAX_ALIGN && FirstFit(h.bs, Request(size), 0) == None && pa >= PAGE
    ensures var r := Kmalloc(h, size, pa).0; |r.bs| > |h.bs| && End(r.bs[|h.bs|]) > LIMIT
  {
    var n := Request(size);
    WrappedPages(size, n);
    var b := Blk(pa, Minus(PagesFor(n) * PAGE, H), true);
    var g := GrowBy(h, Run(pa, PagesFor(n) * PAGE));
    assert g.bs[|h.bs|] == b;
    hide PagesFor, Request;
    var c := Carve(b, n);
    assert c[0].size >= n;
    assert AllocAt(g, |h.bs|, n).bs[|h.bs|] == c[0];
  }

  lemma WrappedPages(size: int, n: int)
    requires MAX_REQUEST < size <= MAX_ALIGN && n == Request(size)
    ensures MAX_REQUEST < n <= MAX_ALIGN && PagesFor(n) == if n == MAX_ALIGN then 1 else 0
  {
    AlignOk(size);
    var want := Wrap(n + H);
    if n + H < LIMIT {
      assert want == n + H && Wrap(want + PAGE - 1) == want + PAGE - 1 - LIMIT;
    } else {
      assert want == n + H - LIMIT;
    }
  }

  /** A request that wraps to 0 is served with nothing: on the empty heap a block of no bytes. */
  lemma NothingServed()
    ensures Kmalloc(Heap([], [], 0), 0xFFFF_FFFF, PAGE) ==
      (Heap([Blk(PAGE, 0, false), Blk(PAGE + H, PAGE - 2 * H, true)], [Run(PAGE, PAGE)], 0), PAGE + H)
  {
    AlignOk(0xFFFF_FFFF);
    assert Request(0xFFFF_FFFF) == 0 && PagesFor(0) == 1;
    var g := GrowBy(Heap([], [], 0), Run(PAGE, PAGE));
    var b := Blk(PAGE, PAGE - H, true);
    assert g.bs == [b] && g.runs == [Run(PAGE, PAGE)];
    assert [b][..0] + Carve(b, 0) + [b][1..] == Carve(b, 0);
  }

  // ---- who is alive -----------------------------------------------------------------------------

  lemma AllocLive(h: Heap, i: nat, size: int)
    requires i < |h.bs| && h.bs[i].free
    ensures forall b :: Live(h, b) ==> Live(AllocAt(h, i, size), b)
    ensures Live(AllocAt(h, i, size), Carve(h.bs[i], size)[0])
  {
    hide Carve;
    var c, r := Carve(h.bs[i], size), AllocAt(h, i, size);
    forall b | Live(h, b)
      ensures Live(r, b)
    {
      var k :| 0 <= k < |h.bs| && h.bs[k] == b;
      if k < i {
        assert r.bs[k] == b;
      } else {
        assert r.bs[k - 1 + |c|] == b;
      }
    }
    assert r.bs[i] == c[0];
  }

  /** What kmalloc promises: an 8-aligned live block b with room, that was not live before, and every
      live block stays live where it is; or nothing, and nothing changed. */
  ghost predicate Gives(h: Heap, r: Heap, p: int, size: int, b: Blk) {
    && (p == 0 ==> r == h)
    && (p != 0 ==> Live(r, b) && p == Payload(b) && p % 8 == 0 && b.size >= size)
    && (forall c :: Live(h, c) ==> Live(r, c) && (p != 0 ==> c != b))
  }

  /** And the room is what was asked for exactly when rounding up does not wrap. */
  lemma KmallocGives(h: Heap, size: int, pa: int) returns (b: Blk)
    requires HeapOk(h) && 0 <= size < LIMIT && Grants(h, size, pa) && !Overflows(h, size, pa)
    ensures Gives(h, Kmalloc(h, size, pa).0, Kmalloc(h, size, pa).1, Request(size), b)
    ensures Kmalloc(h, size, pa).1 != 0 ==> (b.size >= size <==> size <= MAX_ALIGN)
  {
    hide HeapOk, Grant, PagesFor, Request, Carve, Live, AllocAt, GrowBy;
    var n := Request(size);
    RequestOk(size);
    b := Blk(0, 0, true);
    match FirstFit(h.bs, n, 0) {
      case Some(i) => b := Taken(h, i, n);
      case None =>
        if pa != 0 {
          var r := Run(pa, PagesFor(n) * PAGE);
          GrowKeeps(h, r);
          GrowLive(h, r);
          b := Taken(GrowBy(h, r), |h.bs|, n);
        }
    }
  }

  lemma GrowLive(h: Heap, r: Run)
    ensures var g := GrowBy(h, r); |g.bs| == |h.bs| + 1 && g.bs[|h.bs|] == Blk(r.base, Minus(r.len, H), true)
    ensures forall c :: Live(h, c) ==> Live(GrowBy(h, r), c)
  {
    var g := GrowBy(h, r);
    forall c | Live(h, c)
      ensures Live(g, c)
    {
      var k :| 0 <= k < |h.bs| && h.bs[k] == c;
      assert g.bs[k] == c;
    }
  }

  lemma Taken(h: Heap, i: nat, n: int) returns (b: Blk)
    requires HeapOk(h) && i < |h.bs| && h.bs[i].free && 0 <= n <= h.bs[i].size && n % 8 == 0
    ensures b == Carve(h.bs[i], n)[0] && MAX_ALIGN >= b.size >= n && b.addr == h.bs[i].addr > 0 && Payload(b) % 8 == 0
    ensures Live(AllocAt(h, i, n), b) && forall c :: Live(h, c) ==> Live(AllocAt(h, i, n), c) && c != b
  {
    hide Count, RunCount, Used, Bytes;
    b := Carve(h.bs[i], n)[0];
    assert BlkOk(h.bs[i]);
    AllocLive(h, i, n);
    forall c | Live(h, c)
      ensures c != b
    {
      var k :| 0 <= k < |h.bs| && h.bs[k] == c;
      assert BlkOk(c);
      Apart(h, k, i);
    }
  }

  /** Where the block with header address a is. */
  function IndexOf(bs: seq<Blk>, a: int, i: nat): (r: nat)
    requires i <= |bs|
    ensures i <= r <= |bs| && (r < |bs| ==> bs[r].addr == a) && forall k :: i <= k < r ==> bs[k].addr != a
    decreases |bs| - i
  {
    if i == |bs| || bs[i].addr == a then i else IndexOf(bs, a, i + 1)
  }

  /** kfree of a live pointer */
  function Kfree(h: Heap, p: int): Heap {
    var i := IndexOf(h.bs, p - H, 0);
    if p == 0 || i == |h.bs| || h.bs[i].free then h else FreeAt(h, i)
  }

  ghost predicate LivePtr(h: Heap, p: int) {
    exists b :: Live(h, b) && Payload(b) == p
  }

  lemma LiveIndex(h: Heap, b: Blk)
    requires HeapOk(h) && Live(h, b)
    ensures var i := IndexOf(h.bs, b.addr, 0); i < |h.bs| && h.bs[i] == b
  {
    hide Count, RunCount, Used, Bytes;
    var k :| 0 <= k < |h.bs| && h.bs[k] == b;
    var i := IndexOf(h.bs, b.addr, 0);
    if i != k {
      assert BlkOk(h.bs[k]) && BlkOk(h.bs[i]);
      Apart(h, i, k);
    }
  }

  lemma KfreeKeeps(h: Heap, p: int)
    requires HeapOk(h)
    ensures HeapOk(Kfree(h, p))
  {
    hide HeapOk;
    var i := IndexOf(h.bs, p - H, 0);
    if p != 0 && i < |h.bs| && !h.bs[i].free {
      FreeKeeps(h, i);
    }
  }

  /** kfree ends that block's life and no other's. */
  lemma KfreeEnds(h: Heap, b: Blk)
    requires HeapOk(h) && Live(h, b)
    ensures !LivePtr(Kfree(h, Payload(b)), Payload(b))
    ensures forall c :: Live(h, c) && c != b ==> Live(Kfree(h, Payload(b)), c)
  {
    hide HeapOk, Merges;
    LiveIndex(h, b);
    var i := IndexOf(h.bs, b.addr, 0);
    BlkOkOf(h, i);
    var r := Kfree(h, Payload(b));
    assert r == FreeAt(h, i);
    forall c | Live(h, c) && c != b
      ensures Live(r, c)
    {
      FreeOthers(h, i, c);
    }
    forall c | c in r.bs && c.addr == b.addr
      ensures c.free
    {
      FreedAddr(h, i, c);
    }
  }

  lemma BlkOkOf(h: Heap, i: nat)
    requires HeapOk(h) && i < |h.bs|
    ensures BlkOk(h.bs[i])
  {
  }

  lemma FreeOthers(h: Heap, i: nat, c: Blk)
    requires i < |h.bs| && !h.bs[i].free && Live(h, c) && c != h.bs[i]
    ensures Live(FreeAt(h, i), c)
  {
    var k :| 0 <= k < |h.bs| && h.bs[k] == c;
    var r := FreeAt(h, i);
    if k < i {
      assert r.bs[k] == c;
    } else if Merges(h.bs, i) {
      assert r.bs[k - 1] == c;
    } else {
      assert r.bs[k] == c;
    }
  }

  lemma FreedAddr(h: Heap, i: nat, c: Blk)
    requires HeapOk(h) && i < |h.bs| && c in FreeAt(h, i).bs && c.addr == h.bs[i].addr
    ensures c.free
  {
    hide HeapOk;
    var r := FreeAt(h, i).bs;
    var k :| 0 <= k < |r| && r[k] == c;
    if k != i {
      var j := if k < i then k else if Merges(h.bs, i) then k + 1 else k;
      assert h.bs[j] == c;
      BlkOkOf(h, i);
      BlkOkOf(h, j);
      Apart(h, i, j);
    }
  }

  // ---- krealloc, and whole runs -----------------------------------------------------------------

  function SizeOf(h: Heap, p: int): int {
    var i := IndexOf(h.bs, p - H, 0);
    if i < |h.bs| then h.bs[i].size else 0
  }

  predicate InPlace(h: Heap, p: int, size: int) { p != 0 && Align8(size) <= SizeOf(h, p) }

  function Krealloc(h: Heap, p: int, size: int, pa: int): (r: (Heap, int)) {
    if InPlace(h, p, size) then (h, p)
    else if p == 0 then Kmalloc(h, size, pa)
    else
      var (g, q) := Kmalloc(h, size, pa);
      if q == 0 then (h, 0) else (Kfree(g, p), q)
  }

  datatype Op = Malloc(size: int, pa: int) | Free(p: int) | Realloc(p: int, size: int, pa: int)

  /** Callers hand back only live pointers (or null), no request wraps around, and the page allocator
      keeps its promise. */
  ghost predicate Allowed(h: Heap, op: Op) {
    match op
    case Malloc(size, pa) => 0 <= size < LIMIT && Grants(h, size, pa) && !Overflows(h, size, pa)
    case Free(p) => p == 0 || LivePtr(h, p)
    case Realloc(p, size, pa) =>
      && 0 <= size < LIMIT && Grants(h, size, pa) && (p == 0 || LivePtr(h, p))
      && (InPlace(h, p, size) || !Overflows(h, size, pa))
  }

  function Do(h: Heap, op: Op): Heap {
    match op
    case Malloc(size, pa) => Kmalloc(h, size, pa).0
    case Free(p) => Kfree(h, p)
    case Realloc(p, size, pa) => Krealloc(h, p, size, pa).0
  }

  lemma DoKeeps(h: Heap, op: Op)
    requires HeapOk(h) && Allowed(h, op)
    ensures HeapOk(Do(h, op))
  {
    hide HeapOk, Kmalloc, Kfree, Grants, LivePtr;
    match op {
      case Malloc(size, pa) => KmallocKeeps(h, size, pa);
      case Free(p) => KfreeKeeps(h, p);
      case Realloc(p, size, pa) =>
        if !InPlace(h, p, size) {
          KmallocKeeps(h, size, pa);
          KfreeKeeps(Kmalloc(h, size, pa).0, p);
        }
    }
  }

  /** The heaps of a run: each the last one after one more operation. */
  ghost predicate IsRun(hs: seq<Heap>, ops: seq<Op>) {
    && |hs| == |ops| + 1 && hs[0] == Heap([], [], 0)
    && forall k :: 0 <= k < |ops| ==> Allowed(hs[k], ops[k]) && hs[k + 1] == Do(hs[k], ops[k])
  }

  /** Heap safety over every run: after any operations the blocks tile the granted pages exactly, and
      used_bytes is the sum of the blocks in use. */
  lemma {:induction false} HeapRuns(hs: seq<Heap>, ops: seq<Op>, k: nat)
    requires IsRun(hs, ops) && k < |hs|
    ensures HeapOk(hs[k])
    decreases k
  {
    hide HeapOk, Do, Allowed;
    if k == 0 {
      EmptyOk();
    } else {
      HeapRuns(hs, ops, k - 1);
      DoKeeps(hs[k - 1], ops[k - 1]);
    }
  }

  lemma EmptyOk()
    ensures HeapOk(Heap([], [], 0))
  {
  }

  /** In every state of a run, two live payloads are 8-aligned and share no byte with each other or with
      any header. */
  lemma LivePayloadsApart(h: Heap, b: Blk, c: Blk)
    requires HeapOk(h) && Live(h, b) && c in h.bs && b != c
    ensures Payload(b) % 8 == 0 && (End(b) <= c.addr || End(c) <= b.addr)
  {
    hide Count, RunCount, Used, Bytes;
    var i :| 0 <= i < |h.bs| && h.bs[i] == b;
    var j :| 0 <= j < |h.bs| && h.bs[j] == c;
    assert BlkOk(h.bs[i]);
    Apart(h, i, j);
  }

  /** krealloc: the result is live, with the room asked for exactly when rounding up does not wrap (or
      it is null, and then nothing changed); every block but the one handed in stays. */
  lemma KreallocGives(h: Heap, b: Blk, size: int, pa: int) returns (c: Blk)
    requires HeapOk(h) && Live(h, b) && 0 <= size < LIMIT && Grants(h, size, pa)
    requires InPlace(h, Payload(b), size) || !Overflows(h, size, pa)
    ensures var (r, q) := Krealloc(h, Payload(b), size, pa);
      && (q == 0 ==> r == h)
      && (q != 0 ==> Live(r, c) && q == Payload(c) && (c.size >= size <==> size <= MAX_ALIGN))
      && (forall d :: Live(h, d) && d != b ==> Live(r, d))
  {
    hide HeapOk, Kmalloc, Kfree, Grants, Live, Overflows, Align8;
    LiveIndex(h, b);
    BlkOkOf(h, IndexOf(h.bs, b.addr, 0));
    AlignOk(size);
    if Align8(size) <= b.size {
      c := b;
    } else {
      c := KmallocGives(h, size, pa);
      var (g, q) := Kmalloc(h, size, pa);
      KmallocKeeps(h, size, pa);
      if q != 0 {
        KfreeEnds(g, b);
      }
    }
  }
}
