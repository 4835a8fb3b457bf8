/** The kernel heap as a list of blocks over the pages it was granted. */
module KHeap {
  const H: int := 16
  const PAGE: int := 4096
  const MIN_SPLIT: int := 16
  const LIMIT: int := 0x1_0000_0000
  const MAX_REQUEST: int := 0xFFFF_EFF0
  const MAX_ALIGN: int := 0xFFFF_FFF8

  /** size is the payload; the header takes the H bytes in front of it. */
  datatype Blk = Blk(addr: int, size: int, free: bool)

  function End(b: Blk): int { b.addr + H + b.size }
  function Payload(b: Blk): int { b.addr + H }

  /** A run of pages granted by the page allocator. */
  datatype Run = Run(base: int, len: int)

  // ---- arithmetic on 32 bits ------------------------------------------------------------------

  function Wrap(x: int): int { x % LIMIT }

  function Minus(x: int, y: int): int { if x >= y then x - y else x - y + LIMIT }

  function Plus(x: int, y: int): int { if x + y < LIMIT then x + y else x + y - LIMIT }

  function Align8(x: int): int { var y := Wrap(x + 7); y - y % 8 }

  /** The pages grow asks for. */
  function PagesFor(size: int): int { Wrap(Wrap(Align8(size) + H) + PAGE - 1) / PAGE }

  /** Growing makes a block big enough exactly for requests up to MAX_REQUEST: beyond, a 32-bit sum
      wraps around. */
  lemma GrowFits(size: int)
    requires 0 <= size < LIMIT
    ensures size <= Align8(size) <= PagesFor(size) * PAGE - H <==> size <= MAX_REQUEST
  {
    if size <= MAX_REQUEST {
      var want := Align8(size) + H;
      assert Wrap(size + 7) == size + 7;
      assert Wrap(want) == want && Wrap(want + PAGE - 1) == want + PAGE - 1;
    } else if size > 0xFFFF_FFF8 {
      assert Wrap(size + 7) == size + 7 - LIMIT;
    } else {
      assert Wrap(size + 7) == size + 7;
      var want := Align8(size) + H;
      if want < LIMIT {
        assert Wrap(want + PAGE - 1) == want + PAGE - 1 - LIMIT;
      } else {
        assert Wrap(want) == want - LIMIT;
      }
    }
  }

  lemma AlignOk(size: int)
    requires 0 <= size < LIMIT
    ensures Align8(size) % 8 == 0 && 0 <= Align8(size) < LIMIT && Align8(Align8(size)) == Align8(size)
    ensures size <= MAX_ALIGN ==> size <= Align8(size) < size + 8 && (size <= MAX_REQUEST <==> Align8(size) <= MAX_REQUEST)
    ensures size > MAX_ALIGN ==> Align8(size) == 0
  {
    if size <= MAX_ALIGN {
      AlignUp(size);
      AlignUp(Align8(size));
    } else {
      assert Wrap(size + 7) == size + 7 - LIMIT;
      AlignUp(0);
    }
    hide Align8;
  }

  lemma AlignUp(x: int)
    requires 0 <= x <= MAX_ALIGN
    ensures Align8(x) % 8 == 0 && x <= Align8(x) < x + 8 && Align8(x) <= MAX_ALIGN
  {
    assert Wrap(x + 7) == x + 7;
  }

  // ---- tiling -------------------------------------------------------------------------------------

  function One(lo: int, hi: int, a: int): nat { if lo <= a < hi then 1 else 0 }

  /** How many blocks hold byte a, header or payload. */
  function Count(bs: seq<Blk>, a: int): nat {
    if bs == [] then 0 else One(bs[0].addr, End(bs[0]), a) + Count(bs[1..], a)
  }

  function RunCount(rs: seq<Run>, a: int): nat {
    if rs == [] then 0 else One(rs[0].base, rs[0].base + rs[0].len, a) + RunCount(rs[1..], a)
  }

  /** Bytes in blocks that are in use, headers left out. */
  function Used(bs: seq<Blk>): int {
    if bs == [] then 0 else (if bs[0].free then 0 else bs[0].size) + Used(bs[1..])
  }

  /** All bytes of all blocks. */
  function Bytes(bs: seq<Blk>): int {
    if bs == [] then 0 else H + bs[0].size + Bytes(bs[1..])
  }

  function RunBytes(rs: seq<Run>): int {
    if rs == [] then 0 else rs[0].len + RunBytes(rs[1..])
  }

  lemma {:induction false} CountConcat(x: seq<Blk>, y: seq<Blk>, a: int)
    ensures Count(x + y, a) == Count(x, a) + Count(y, a)
    decreases |x|
  {
    if x == [] {
      assert x + y == y;
    } else {
      CountConcat(x[1..], y, a);
      assert (x + y)[1..] == x[1..] + y;
    }
  }

  lemma {:induction false} RunConcat(x: seq<Run>, y: seq<Run>, a: int)
    ensures RunCount(x + y, a) == RunCount(x, a) + RunCount(y, a)
    ensures RunBytes(x + y) == RunBytes(x) + RunBytes(y)
    decreases |x|
  {
    if x == [] {
      assert x + y == y;
    } else {
      RunConcat(x[1..], y, a);
      assert (x + y)[1..] == x[1..] + y;
    }
  }

  lemma {:induction false} SumsConcat(x: seq<Blk>, y: seq<Blk>)
    ensures Used(x + y) == Used(x) + Used(y)
    ensures Bytes(x + y) == Bytes(x) + Bytes(y)
    decreases |x|
  {
    if x == [] {
      assert x + y == y;
    } else {
      SumsConcat(x[1..], y);
      assert (x + y)[1..] == x[1..] + y;
    }
  }

  predicate BlkOk(b: Blk) {
    b.addr > 0 && b.addr % 8 == 0 && b.size >= 0 && b.size % 8 == 0 && End(b) <= LIMIT
  }

  datatype Heap = Heap(bs: seq<Blk>, runs: seq<Run>, used: int)

  ghost predicate Shaped(bs: seq<Blk>) { forall i :: 0 <= i < |bs| ==> BlkOk(bs[i]) }

  /** Every byte of the granted pages is in exactly one block, and no other byte is in any. */
  ghost predicate Tiled(bs: seq<Blk>, rs: seq<Run>) {
    forall a :: Count(bs, a) == RunCount(rs, a) <= 1
  }

  ghost predicate HeapOk(h: Heap) {
    && Shaped(h.bs) && Tiled(h.bs, h.runs)
    && h.used == Used(h.bs) && Bytes(h.bs) == RunBytes(h.runs) <= LIMIT
  }

  // ---- exchanging a piece of the list ---------------------------------------------------------

  /** y holds the same bytes as x. */
  ghost predicate SameBytes(x: seq<Blk>, y: seq<Blk>) {
    Shaped(y) && Bytes(x) == Bytes(y) && forall a :: Count(x, a) == Count(y, a)
  }

  lemma Exchange(pre: seq<Blk>, x: seq<Blk>, y: seq<Blk>, post: seq<Blk>, rs: seq<Run>)
    requires Shaped(pre + x + post) && Tiled(pre + x + post, rs) && SameBytes(x, y)
    ensures Shaped(pre + y + post) && Tiled(pre + y + post, rs)
    ensures Bytes(pre + y + post) == Bytes(pre + x + post)
    ensures Used(pre + y + post) == Used(pre + x + post) - Used(x) + Used(y)
  {
    hide Count, RunCount, Used, Bytes, BlkOk;
    ExchangeShaped(pre, x, y, post);
    forall a
      ensures Count(pre + y + post, a) == RunCount(rs, a) <= 1
    {
      CountConcat(pre + y, post, a);
      CountConcat(pre, y, a);
      CountConcat(pre + x, post, a);
      CountConcat(pre, x, a);
    }
    SumsConcat(pre + y, post);
    SumsConcat(pre, y);
    SumsConcat(pre + x, post);
    SumsConcat(pre, x);
  }

  lemma ExchangeShaped(pre: seq<Blk>, x: seq<Blk>, y: seq<Blk>, post: seq<Blk>)
    requires Shaped(pre + x + post) && Shaped(y)
    ensures Shaped(pre + y + post)
  {
    hide BlkOk;
    var s, t := pre + x + post, pre + y + post;
    forall i | 0 <= i < |t|
      ensures BlkOk(t[i])
    {
      if i < |pre| {
        assert s[i] == t[i];
      } else if i >= |pre| + |y| {
        assert s[i - |y| + |x|] == t[i];
      }
    }
  }

  /** Two different blocks never share a byte. */
  lemma {:induction false} CountAtLeast(bs: seq<Blk>, i: nat, a: int)
    requires i < |bs| && bs[i].addr <= a < End(bs[i])
    ensures Count(bs, a) >= 1
    decreases i
  {
    if i > 0 {
      CountAtLeast(bs[1..], i - 1, a);
    }
  }

  lemma {:induction false} NoOverlap(bs: seq<Blk>, i: nat, j: nat, a: int)
    requires i < j < |bs| && Count(bs, a) <= 1
    ensures !(bs[i].addr <= a < End(bs[i]) && bs[j].addr <= a < End(bs[j]))
    decreases i
  {
    if i == 0 {
      if bs[j].addr <= a < End(bs[j]) {
        CountAtLeast(bs[1..], j - 1, a);
      }
    } else {
      NoOverlap(bs[1..], i - 1, j - 1, a);
    }
  }

  /** So in a heap their extents are apart, payloads and headers. */
  lemma Apart(h: Heap, i: nat, j: nat)
    requires HeapOk(h) && i < |h.bs| && j < |h.bs| && i != j
    ensures End(h.bs[i]) <= h.bs[j].addr || End(h.bs[j]) <= h.bs[i].addr
  {
    hide Count, RunCount, Used, Bytes;
    var b, c := h.bs[i], h.bs[j];
    var lo, hi := if i < j then i else j, if i < j then j else i;
    assert BlkOk(b) && BlkOk(c);
    NoOverlap(h.bs, lo, hi, b.addr);
    NoOverlap(h.bs, lo, hi, c.addr);
  }
}
