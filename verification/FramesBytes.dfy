/** What the bytes of the frames are when pages change hands. */
module FramesBytes {
  import opened Frames
  import opened FramesMap
  import opened FramesCalls

  /** The bytes [lo, hi) are zero and no other byte differs. */
  ghost predicate ZeroedOnly(m: int -> int, m': int -> int, lo: int, hi: int) {
    forall x :: m'(x) == if lo <= x < hi then 0 else m(x)
  }

  ghost predicate SameFrame(base: int, f: int, m: int -> int, m': int -> int) {
    forall x :: Pa(base, f) <= x < Pa(base, f) + PAGE ==> m'(x) == m(x)
  }

  ghost predicate ZeroFrame(base: int, f: int, m: int -> int) {
    forall x :: Pa(base, f) <= x < Pa(base, f) + PAGE ==> m(x) == 0
  }

  /** Only free frames were written to. */
  ghost predicate FreeTouched(base: int, bits: seq<bool>, m: int -> int, m': int -> int) {
    forall f :: 0 <= f < |bits| && bits[f] ==> SameFrame(base, f, m, m')
  }

  lemma FreshFrame(base: int, bits: seq<bool>, f: nat, m: int -> int, m': int -> int)
    requires f < |bits| && !bits[f] && ZeroedOnly(m, m', Pa(base, f), Pa(base, f) + PAGE)
    ensures FreeTouched(base, bits, m, m') && ZeroFrame(base, f, m')
  {
    forall g | 0 <= g < |bits| && bits[g]
      ensures SameFrame(base, g, m, m')
    {
      FramesApart(base, f, g);
    }
  }

  lemma FramesApart(base: int, f: int, g: int)
    requires f != g
    ensures Pa(base, f) + PAGE <= Pa(base, g) || Pa(base, g) + PAGE <= Pa(base, f)
  {
  }

  /** Every owner outside the n pages from b on, and the rest of the system, has its bytes. */
  ghost predicate Kept(base: int, was: Mem, b: int, n: nat, m: int -> int, m': int -> int) {
    && (forall q :: q in was.own && !InRange(q, b, n) ==> SameFrame(base, was.own[q], m, m'))
    && (forall f :: f in was.others ==> SameFrame(base, f, m, m'))
  }

  /** The pages of the range that are mapped hold zeros. */
  ghost predicate ZeroIn(base: int, own: map<Owner, int>, b: int, n: nat, m: int -> int) {
    forall q :: InRange(q, b, n) && q in own ==> ZeroFrame(base, own[q], m)
  }

  lemma KeptNow(base: int, was: Mem, b: int, n: nat, m: int -> int)
    ensures Kept(base, was, b, n, m, m)
  {
  }

  /** One more write to free frames. */
  lemma KeptStep(base: int, was: Mem, cur: Mem, b: int, n: nat, m: int -> int, m1: int -> int, m2: int -> int)
    requires Kept(base, was, b, n, m, m1) && Outside(was.own, cur.own, b, n) && cur.others == was.others && MemOk(cur)
    requires FreeTouched(base, cur.bits, m1, m2)
    ensures Kept(base, was, b, n, m, m2)
  {
    hide InRange, Used, Pa;
    forall q | q in was.own && !InRange(q, b, n)
      ensures SameFrame(base, was.own[q], m, m2)
    {
      FrameIn(cur, q);
      assert SameFrame(base, cur.own[q], m1, m2);
      SameTwice(base, was.own[q], m, m1, m2);
    }
    forall f | f in was.others
      ensures SameFrame(base, f, m, m2)
    {
      assert Frame(cur, f);
      assert SameFrame(base, f, m1, m2);
      SameTwice(base, f, m, m1, m2);
    }
  }

  lemma SameTwice(base: int, f: int, m: int -> int, m1: int -> int, m2: int -> int)
    requires SameFrame(base, f, m, m1) && SameFrame(base, f, m1, m2)
    ensures SameFrame(base, f, m, m2)
  {
  }

  /** The range one page longer, with a zeroed page behind it. */
  lemma ZeroStep(base: int, cur: Mem, own: map<Owner, int>, b: int, i: nat, m1: int -> int, m2: int -> int)
    requires ZeroIn(base, cur.own, b, i, m1) && MemOk(cur) && FreeTouched(base, cur.bits, m1, m2)
    requires Page(b + i * PAGE) in own && ZeroFrame(base, own[Page(b + i * PAGE)], m2)
    requires forall q :: q != Page(b + i * PAGE) ==> (q in own <==> q in cur.own) && (q in own ==> own[q] == cur.own[q])
    ensures ZeroIn(base, own, b, i + 1, m2)
  {
    hide InRange, Used, Pa;
    RangeGrows(b, i, i + 1);
    forall q | InRange(q, b, i + 1) && q in own
      ensures ZeroFrame(base, own[q], m2)
    {
      if q != Page(b + i * PAGE) {
        FrameIn(cur, q);
        assert SameFrame(base, cur.own[q], m1, m2) && ZeroFrame(base, cur.own[q], m1);
        ZeroStays(base, cur.own[q], m1, m2);
      }
    }
  }

  lemma ZeroStays(base: int, f: int, m: int -> int, m': int -> int)
    requires ZeroFrame(base, f, m) && SameFrame(base, f, m, m')
    ensures ZeroFrame(base, f, m')
  {
  }

  lemma ZeroLess(base: int, own: map<Owner, int>, own': map<Owner, int>, b: int, i: nat, m: int -> int)
    requires ZeroIn(base, own, b, i, m)
    requires forall q :: q in own' && q != Page(b + i * PAGE) ==> q in own && own'[q] == own[q]
    ensures ZeroIn(base, own', b, i, m)
  {
    hide ZeroFrame;
    forall q | InRange(q, b, i) && q in own'
      ensures ZeroFrame(base, own'[q], m)
    {
      assert q.va < b + i * PAGE;
    }
  }

  lemma NothingMoves(own: map<Owner, int>, b: int, n: nat)
    ensures Outside(own, own, b, n)
  {
  }

  lemma NoneTouched(base: int, bits: seq<bool>, m: int -> int)
    ensures FreeTouched(base, bits, m, m)
  {
  }

  lemma ZeroNone(base: int, own: map<Owner, int>, b: int, m: int -> int)
    ensures ZeroIn(base, own, b, 0, m)
  {
  }

  lemma OutsideStep(was: map<Owner, int>, cur: map<Owner, int>, own: map<Owner, int>, b: int, n: nat, i: nat)
    requires Outside(was, cur, b, n) && i < n
    requires forall q :: q != Page(b + i * PAGE) ==> (q in own <==> q in cur) && (q in own ==> own[q] == cur[q])
    ensures Outside(was, own, b, n)
  {
    hide InRange;
    RangeGrows(b, i, n);
    RangeGrows(b, i + 1, n);
  }

  // ---- what the process sees ----------------------------------------------------------------------------------

  /** The byte the process finds at va. */
  function UserByte(base: int, own: map<Owner, int>, m: int -> int, va: int): int
    requires Page(va - va % PAGE) in own
  {
    m(Pa(base, own[Page(va - va % PAGE)]) + va % PAGE)
  }

  /** Byte x of a mapping of len bytes of a file from foff on: the file's, and zeros behind its end and
      behind the length. */
  function Mapped(data: seq<int>, foff: nat, len: int, x: nat): int {
    if x < len && foff + x < |data| then data[foff + x] else 0
  }

  /** The n pages from b on show the first `done` bytes of the file, and zeros. */
  ghost predicate Shows(base: int, own: map<Owner, int>, m: int -> int, b: int, n: nat, data: seq<int>, foff: nat, done: nat) {
    && b % PAGE == 0 && (forall q :: InRange(q, b, n) ==> q in own)
    && forall va :: b <= va < b + n * PAGE ==> SeesByte(base, own, m, b, va, data, foff, done)
  }

  ghost predicate SeesByte(base: int, own: map<Owner, int>, m: int -> int, b: int, va: int, data: seq<int>, foff: nat, done: nat) {
    Page(va - va % PAGE) in own && va >= b && UserByte(base, own, m, va) == Mapped(data, foff, done, va - b)
  }

  lemma PageInRange(b: int, n: nat, va: int)
    requires b % PAGE == 0 && b <= va < b + n * PAGE
    ensures InRange(Page(va - va % PAGE), b, n)
  {
  }

  lemma ZeroShows(base: int, own: map<Owner, int>, m: int -> int, b: int, n: nat, data: seq<int>, foff: nat)
    requires b % PAGE == 0 && (forall q :: InRange(q, b, n) ==> q in own) && ZeroIn(base, own, b, n, m)
    ensures Shows(base, own, m, b, n, data, foff, 0)
  {
    forall va | b <= va < b + n * PAGE
      ensures SeesByte(base, own, m, b, va, data, foff, 0)
    {
      PageInRange(b, n, va);
      assert ZeroFrame(base, own[Page(va - va % PAGE)], m);
    }
  }

  /** The k bytes of data from off on are at p, and nothing else changed. */
  ghost predicate CopiedIn(m: int -> int, m': int -> int, p: int, data: seq<int>, off: nat, k: nat) {
    off + k <= |data| && forall x :: m'(x) == if p <= x < p + k then data[off + x - p] else m(x)
  }

  /** Filling one more page, or part of it. */
  lemma ShowsMore(base: int, mm: Mem, m: int -> int, m': int -> int, b: int, n: nat, data: seq<int>, foff: nat, done: nat, k: nat)
    requires MemOk(mm) && Shows(base, mm.own, m, b, n, data, foff, done) && done % PAGE == 0 && 0 < k <= PAGE && done + k <= n * PAGE
    requires Page(b + done) in mm.own && CopiedIn(m, m', Pa(base, mm.own[Page(b + done)]), data, foff + done, k)
    ensures Shows(base, mm.own, m', b, n, data, foff, done + k)
    ensures Kept(base, mm, b, n, m, m')
  {
    hide Used;
    var f, more := mm.own[Page(b + done)], done + k;
    forall va | b <= va < b + n * PAGE
      ensures SeesByte(base, mm.own, m', b, va, data, foff, more)
    {
      assert SeesByte(base, mm.own, m, b, va, data, foff, done);
      ByteMore(base, mm, m, m', b, data, foff, done, k, va);
    }
    forall q | q in mm.own && !InRange(q, b, n)
      ensures SameFrame(base, mm.own[q], m, m')
    {
      assert q != Page(b + done) by { PageInRange(b, n, b + done); }
      FramesApart(base, f, mm.own[q]);
    }
    forall g | g in mm.others
      ensures SameFrame(base, g, m, m')
    {
      FramesApart(base, f, g);
    }
  }

  lemma ByteMore(base: int, mm: Mem, m: int -> int, m': int -> int, b: int, data: seq<int>, foff: nat, done: nat, k: nat, va: int)
    requires Single(mm) && SeesByte(base, mm.own, m, b, va, data, foff, done) && b % PAGE == 0 && done % PAGE == 0 && 0 < k <= PAGE
    requires Page(b + done) in mm.own && CopiedIn(m, m', Pa(base, mm.own[Page(b + done)]), data, foff + done, k)
    ensures SeesByte(base, mm.own, m', b, va, data, foff, done + k)
  {
    var p := va - va % PAGE;
    if p == b + done {
      assert va - b == done + va % PAGE;
    } else {
      FramesApart(base, mm.own[Page(p)], mm.own[Page(b + done)]);
      SamePage(b, done, va);
    }
  }

  lemma SamePage(b: int, done: nat, va: int)
    requires b % PAGE == 0 && done % PAGE == 0 && va - va % PAGE != b + done
    ensures va < b + done || va >= b + done + PAGE
  {
  }

  lemma PageThere(base: int, own: map<Owner, int>, m: int -> int, b: int, n: nat, data: seq<int>, foff: nat, done: nat)
    requires Shows(base, own, m, b, n, data, foff, done) && done < n * PAGE
    ensures b % PAGE == 0 && Page(b + done - (b + done) % PAGE) in own
  {
    PageInRange(b, n, b + done);
  }

  lemma KeptTwice(base: int, was: Mem, b: int, n: nat, m: int -> int, m1: int -> int, m2: int -> int)
    requires Kept(base, was, b, n, m, m1) && Kept(base, was, b, n, m1, m2)
    ensures Kept(base, was, b, n, m, m2)
  {
  }

  /** And for owners that have their frames from before. */
  lemma KeptOn(base: int, was: Mem, cur: Mem, b: int, n: nat, m: int -> int, m1: int -> int, m2: int -> int)
    requires Kept(base, was, b, n, m, m1) && Kept(base, cur, b, n, m1, m2) && Outside(was.own, cur.own, b, n) && cur.others == was.others
    ensures Kept(base, was, b, n, m, m2)
  {
    hide InRange, Pa, SameFrame;
    forall q | q in was.own && !InRange(q, b, n)
      ensures SameFrame(base, was.own[q], m, m2)
    {
      assert q in cur.own;
      SameTwice(base, was.own[q], m, m1, m2);
    }
    forall f | f in was.others
      ensures SameFrame(base, f, m, m2)
    {
      SameTwice(base, f, m, m1, m2);
    }
  }

  /** When the copying stops, at the length or at the end of the file, the pages show all there is. */
  lemma ShowsAll(base: int, own: map<Owner, int>, m: int -> int, b: int, n: nat, data: seq<int>, foff: nat, done: nat, len: nat)
    requires Shows(base, own, m, b, n, data, foff, done) && (done == len || (done < len && foff + done >= |data|))
    ensures Shows(base, own, m, b, n, data, foff, len)
  {
    hide UserByte;
    forall va | b <= va < b + n * PAGE
      ensures SeesByte(base, own, m, b, va, data, foff, len)
    {
      assert SeesByte(base, own, m, b, va, data, foff, done);
    }
  }

  // ---- files -----------------------------------------------------------------------------------------------------

  ghost predicate ZeroSlots(base: int, own: map<Owner, int>, ino: int, from: int, upto: int, m: int -> int) {
    forall i :: from <= i < upto ==> FileSlot(ino, i) in own && ZeroFrame(base, own[FileSlot(ino, i)], m)
  }

  ghost predicate MoreUsed(bits: seq<bool>, bits': seq<bool>) {
    |bits| == |bits'| && forall f :: 0 <= f < |bits| && bits[f] ==> bits'[f]
  }

  lemma NoSlots(base: int, own: map<Owner, int>, ino: int, from: int, upto: int, m: int -> int)
    requires upto <= from
    ensures ZeroSlots(base, own, ino, from, upto, m)
  {
  }

  lemma TouchedTwice(base: int, bits: seq<bool>, bits': seq<bool>, m: int -> int, m1: int -> int, m2: int -> int)
    requires FreeTouched(base, bits, m, m1) && FreeTouched(base, bits', m1, m2) && MoreUsed(bits, bits')
    ensures FreeTouched(base, bits, m, m2)
  {
    hide Pa;
    forall f | 0 <= f < |bits| && bits[f]
      ensures SameFrame(base, f, m, m2)
    {
      SameTwice(base, f, m, m1, m2);
    }
  }

  lemma ZeroSlotStep(base: int, cur: Mem, own: map<Owner, int>, ino: int, from: int, i: int, m1: int -> int, m2: int -> int)
    requires ZeroSlots(base, cur.own, ino, from, i, m1) && MemOk(cur) && FreeTouched(base, cur.bits, m1, m2) && from <= i
    requires FileSlot(ino, i) in own && own == cur.own[FileSlot(ino, i) := own[FileSlot(ino, i)]] && ZeroFrame(base, own[FileSlot(ino, i)], m2)
    ensures ZeroSlots(base, own, ino, from, i + 1, m2)
  {
    hide Used, Pa, ZeroFrame, SameFrame;
    forall k | from <= k < i
      ensures FileSlot(ino, k) in own && ZeroFrame(base, own[FileSlot(ino, k)], m2)
    {
      var q := FileSlot(ino, k);
      assert q in cur.own && ZeroFrame(base, cur.own[q], m1);
      FrameIn(cur, q);
      ZeroStays(base, cur.own[q], m1, m2);
    }
  }
}
