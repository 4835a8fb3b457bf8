/** A regular file of the RAM filesystem: bytes in page frames, read and written as one sequence. */
module PagedFile {
  import opened Options

  type byte = x: int | 0 <= x < 256

  const PAGE: int := 4096
  const WORD: int := 0x1_0000_0000
  const MAX_END: int := 0xFFFF_F000

  // ---- the byte at a position -------------------------------------------------------------------

  /** The slots of the file's page table; None is a slot without a frame. */
  predicate Held(slots: seq<Option<seq<byte>>>, npages: nat) {
    npages <= |slots| && forall i :: 0 <= i < npages ==> slots[i].Some? && |slots[i].value| == PAGE
  }

  lemma PageOf(k: int, npages: nat)
    requires 0 <= k < npages * PAGE
    ensures 0 <= k / PAGE < npages && 0 <= k % PAGE < PAGE && k == k / PAGE * PAGE + k % PAGE
  {
  }

  function At(slots: seq<Option<seq<byte>>>, npages: nat, k: int): byte
    requires Held(slots, npages) && 0 <= k < npages * PAGE
  {
    PageOf(k, npages);
    slots[k / PAGE].value[k % PAGE]
  }

  /** What a reader sees. */
  function View(slots: seq<Option<seq<byte>>>, npages: nat, size: nat): (c: seq<byte>)
    requires Held(slots, npages) && size <= npages * PAGE
    ensures |c| == size
  {
    seq(size, k requires 0 <= k < size => At(slots, npages, k))
  }

  // ---- the sequence it stands for ---------------------------------------------------------------

  /** c with src at off; a gap in front of off reads as zeros. */
  function Written(c: seq<byte>, off: nat, src: seq<byte>): (r: seq<byte>) {
    var end := off + |src|;
    seq(if end > |c| then end else |c|, k requires 0 <= k =>
      if off <= k < end then src[k - off] else if k < |c| then c[k] else 0)
  }

  function Resized(c: seq<byte>, n: nat): (r: seq<byte>)
    ensures |r| == n
  {
    if n <= |c| then c[..n] else c + seq(n - |c|, _ => 0)
  }

  /** What a write is: the bytes are where they were put, those before and behind are as they were, what
      lay between the old end and the place is zeros, and the file ends where it did or where they do. */
  lemma WrittenIs(c: seq<byte>, off: nat, src: seq<byte>)
    ensures var r, end := Written(c, off, src), off + |src|;
      && |r| == (if end > |c| then end else |c|) && r[off..end] == src
      && (off <= |c| ==> r[..off] == c[..off]) && (end <= |c| ==> r[end..] == c[end..])
      && (off > |c| ==> r[..|c|] == c && r[|c|..off] == seq(off - |c|, _ => 0))
  {
  }

  /** Two writes, one right behind the other, are one write of both. */
  lemma WriteOn(c: seq<byte>, off: nat, a: seq<byte>, b: seq<byte>)
    ensures Written(Written(c, off, a), off + |a|, b) == Written(c, off, a + b)
  {
    var x, y := Written(Written(c, off, a), off + |a|, b), Written(c, off, a + b);
    assert |x| == |y|;
    assert forall k :: 0 <= k < |x| ==> x[k] == y[k];
  }

  /** What a change of size is: the bytes that are left, or all of them and zeros. */
  lemma ResizedIs(c: seq<byte>, n: nat)
    ensures |Resized(c, n)| == n && forall k :: 0 <= k < n ==> Resized(c, n)[k] == if k < |c| then c[k] else 0
  {
  }

  // ---- 32-bit sizes -------------------------------------------------------------------------------

  function PagesFor(end: int): int { (end + PAGE - 1) % WORD / PAGE }

  /** The page count covers the file exactly up to the end MAX_END; beyond, the sum wraps. */
  lemma PagesCover(end: int)
    requires 0 <= end < WORD
    ensures end <= PagesFor(end) * PAGE <==> end <= MAX_END
    ensures end <= MAX_END ==> 0 <= PagesFor(end) && PagesFor(end) * PAGE < end + PAGE
  {
    if end <= MAX_END {
      assert (end + PAGE - 1) % WORD == end + PAGE - 1;
    } else {
      assert (end + PAGE - 1) % WORD == end + PAGE - 1 - WORD;
    }
  }

  /** Past MAX_END the sum asks for no page at all. */
  lemma NoPagesPastEnd(end: int)
    requires MAX_END < end < WORD
    ensures PagesFor(end) == 0
  {
    assert (end + PAGE - 1) % WORD == end + PAGE - 1 - WORD;
  }

  // ---- all bytes of the held pages ------------------------------------------------------------------

  /** The bytes of all held pages, and how many of them belong to the file. */
  datatype Store = Store(bytes: seq<byte>, size: nat)

  /** Every byte of the file is in a held page. */
  predicate Covered(s: Store) { s.size <= |s.bytes| }

  function Seen(s: Store): (c: seq<byte>)
    requires Covered(s)
  {
    s.bytes[..s.size]
  }

  /** No byte behind the end of the file is left over from before. */
  ghost predicate Clean(s: Store) { forall k :: s.size <= k < |s.bytes| ==> s.bytes[k] == 0 }

  function Grown(b: seq<byte>, pages: int): (r: seq<byte>)
    ensures |r| == if pages * PAGE > |b| then pages * PAGE else |b|
  {
    if pages * PAGE > |b| then Resized(b, pages * PAGE) else b
  }

  function WriteStore(s: Store, off: nat, src: seq<byte>): (r: Store) {
    var end := off + |src|;
    var b := Grown(s.bytes, PagesFor(end));
    Store(if src == [] then b else Written(b, off, src), if end > s.size then end else s.size)
  }

  function TruncStore(s: Store, n: nat): (r: Store)
    ensures r.size == n
  {
    var len := PagesFor(n) * PAGE;
    Store(if n > s.size then Grown(s.bytes, PagesFor(n)) else if 0 <= len < |s.bytes| then s.bytes[..len] else s.bytes, n)
  }

  /** A write shows the written sequence exactly when nothing is left over in the gap before it;
      in a clean file it does, and the file stays clean. */
  lemma WriteSeen(s: Store, off: nat, src: seq<byte>)
    requires Covered(s) && off + |src| <= MAX_END
    ensures Covered(WriteStore(s, off, src))
    ensures Seen(WriteStore(s, off, src)) == Written(Seen(s), off, src)
       <==> forall k :: s.size <= k < off && k < |s.bytes| ==> s.bytes[k] == 0
    ensures Clean(s) ==> Clean(WriteStore(s, off, src))
  {
    hide PagesFor;
    var t, w := WriteStore(s, off, src), Written(Seen(s), off, src);
    PagesCover(off + |src|);
    assert forall k :: 0 <= k < |t.bytes| ==>
      t.bytes[k] == if off <= k < off + |src| then src[k - off] else if k < |s.bytes| then s.bytes[k] else 0;
    if Seen(t) == w {
      forall k | s.size <= k < off && k < |s.bytes|
        ensures s.bytes[k] == 0
      {
        assert Seen(t)[k] == w[k];
      }
    }
  }

  /** The bytes of c from n to the end of n's page are zero. */
  ghost predicate Tidy(c: seq<byte>, n: nat) {
    forall k :: n <= k < |c| && k < PagesFor(n) * PAGE ==> c[k] == 0
  }

  /** A cut is always seen as a cut, an extension as one by zeros exactly when nothing is left over there;
      a clean file stays clean exactly when the cut leaves only zeros in the last page. */
  lemma TruncSeen(s: Store, n: nat)
    requires Covered(s) && n <= MAX_END
    ensures Covered(TruncStore(s, n))
    ensures Seen(TruncStore(s, n)) == Resized(Seen(s), n) <==> forall k :: s.size <= k < n && k < |s.bytes| ==> s.bytes[k] == 0
    ensures Clean(s) ==> (Clean(TruncStore(s, n)) <==> Tidy(Seen(s), n))
  {
    var t, c := TruncStore(s, n), Seen(s);
    PagesCover(n);
    hide PagesFor;
    if Seen(t) == Resized(c, n) {
      forall k | s.size <= k < n && k < |s.bytes|
        ensures s.bytes[k] == 0
      {
        assert Seen(t)[k] == Resized(c, n)[k];
      }
    }
    if Clean(s) && Clean(t) {
      forall k | n <= k < |c| && k < PagesFor(n) * PAGE
        ensures c[k] == 0
      {
        assert t.bytes[k] == 0;
      }
    }
  }

  /** Cutting to a whole number of pages, 0 as in O_TRUNC included, leaves nothing behind. */
  lemma WholePagesTidy(c: seq<byte>, n: nat)
    requires n <= MAX_END && n % PAGE == 0
    ensures Tidy(c, n)
  {
    PagesCover(n);
  }

  /** Cutting a clean file and extending it again reads zeros exactly when the cut was tidy. */
  lemma CutAndExtended(s: Store, n: nat)
    requires Covered(s) && Clean(s) && n <= s.size <= MAX_END
    ensures Covered(TruncStore(TruncStore(s, n), s.size))
    ensures Seen(TruncStore(TruncStore(s, n), s.size)) == Resized(Seen(s)[..n], s.size) <==> Tidy(Seen(s), n)
  {
    hide PagesFor;
    var t, c := TruncStore(s, n), Seen(s);
    TruncSeen(s, n);
    TruncSeen(t, s.size);
    PagesCover(n);
    assert Resized(c, n) == c[..n] == Seen(t);
    if n == s.size {
      assert Seen(TruncStore(t, s.size)) == Resized(Seen(t), s.size);
    } else if Tidy(c, n) {
    } else {
      var k :| n <= k < |c| && k < PagesFor(n) * PAGE && c[k] != 0;
      assert t.bytes[k] != 0;
    }
  }

  // ---- runs -----------------------------------------------------------------------------------------

  datatype FileOp = WriteOp(off: nat, src: seq<byte>) | TruncOp(n: nat)

  /** The operation ends where the page count covers it, or is refused for ending past 32 bits. */
  predicate Fits(op: FileOp) {
    match op
    case WriteOp(off, src) => off < WORD && |src| < WORD && (off + |src| <= MAX_END || off + |src| >= WORD)
    case TruncOp(n) => n <= MAX_END
  }

  /** What the operation does when it returns r. */
  function Effect(c: seq<byte>, op: FileOp, r: int): (d: seq<byte>) {
    if r < 0 then c
    else match op
      case WriteOp(off, src) => Written(c, off, src)
      case TruncOp(n) => Resized(c, n)
  }

  function EffectStore(s: Store, op: FileOp, r: int): (t: Store) {
    if r < 0 then s
    else match op
      case WriteOp(off, src) => WriteStore(s, off, src)
      case TruncOp(n) => TruncStore(s, n)
  }

  /** The sequence after the operations, failed ones left out. */
  function Replay(c: seq<byte>, ops: seq<FileOp>, rs: seq<int>): (d: seq<byte>)
    requires |ops| == |rs|
    decreases |ops|
  {
    if ops == [] then c else var n := |ops| - 1; Effect(Replay(c, ops[..n], rs[..n]), ops[n], rs[n])
  }

  function ReplayStore(s: Store, ops: seq<FileOp>, rs: seq<int>): (t: Store)
    requires |ops| == |rs|
    decreases |ops|
  {
    if ops == [] then s else var n := |ops| - 1; EffectStore(ReplayStore(s, ops[..n], rs[..n]), ops[n], rs[n])
  }

  /** No successful cut in the run leaves a byte other than zero in its last page. */
  ghost predicate TidyRun(c: seq<byte>, ops: seq<FileOp>, rs: seq<int>)
    requires |ops| == |rs|
    decreases |ops|
  {
    ops == [] ||
    (var n := |ops| - 1;
     TidyRun(c, ops[..n], rs[..n]) && (ops[n].TruncOp? && rs[n] >= 0 ==> Tidy(Replay(c, ops[..n], rs[..n]), ops[n].n)))
  }

  /** A run of writes and tidy truncations from a clean file shows the sequence they spell. */
  lemma {:induction false} RunSeen(s: Store, ops: seq<FileOp>, rs: seq<int>)
    requires Covered(s) && Clean(s) && |ops| == |rs| && forall k :: 0 <= k < |ops| ==> Fits(ops[k])
    requires forall k :: 0 <= k < |ops| && ops[k].WriteOp? && rs[k] >= 0 ==> ops[k].off + |ops[k].src| <= MAX_END
    requires TidyRun(Seen(s), ops, rs)
    ensures Covered(ReplayStore(s, ops, rs)) && Clean(ReplayStore(s, ops, rs))
    ensures Seen(ReplayStore(s, ops, rs)) == Replay(Seen(s), ops, rs)
    decreases |ops|
  {
    hide Clean, WriteStore, TruncStore, Written, Resized, Tidy, Seen;
    if ops != [] {
      var n := |ops| - 1;
      RunSeen(s, ops[..n], rs[..n]);
      EffectSeen(ReplayStore(s, ops[..n], rs[..n]), ops[n], rs[n]);
    }
  }

  lemma EffectSeen(t: Store, op: FileOp, r: int)
    requires Covered(t) && Clean(t) && Fits(op)
    requires r >= 0 && op.WriteOp? ==> op.off + |op.src| <= MAX_END
    requires r >= 0 && op.TruncOp? ==> Tidy(Seen(t), op.n)
    ensures Covered(EffectStore(t, op, r)) && Clean(EffectStore(t, op, r)) && Seen(EffectStore(t, op, r)) == Effect(Seen(t), op, r)
  {
    hide WriteStore, TruncStore, Written, Resized, Tidy, Seen;
    match op {
      case WriteOp(off, src) => if r >= 0 { WriteSeen(t, off, src); }
      case TruncOp(n) => if r >= 0 { TruncSeen(t, n); }
    }
  }

  /** Runs whose truncations are all to whole pages, to 0 above all, are tidy. */
  lemma {:induction false} WholePageRunsTidy(c: seq<byte>, ops: seq<FileOp>, rs: seq<int>)
    requires |ops| == |rs| && forall k :: 0 <= k < |ops| ==> Fits(ops[k]) && (ops[k].TruncOp? ==> ops[k].n % PAGE == 0)
    ensures TidyRun(c, ops, rs)
    decreases |ops|
  {
    hide Tidy, Replay;
    if ops != [] {
      var n := |ops| - 1;
      WholePageRunsTidy(c, ops[..n], rs[..n]);
      if ops[n].TruncOp? {
        WholePagesTidy(Replay(c, ops[..n], rs[..n]), ops[n].n);
      }
    }
  }

  // ---- copying into a page ------------------------------------------------------------------------

  function Patched(page: seq<byte>, o: nat, bs: seq<byte>): (r: seq<byte>)
    requires o + |bs| <= |page|
    ensures |r| == |page|
  {
    page[..o] + bs + page[o + |bs|..]
  }

  lemma PatchAt(slots: seq<Option<seq<byte>>>, npages: nat, pg: nat, o: nat, bs: seq<byte>, k: int)
    requires Held(slots, npages) && pg < npages && o + |bs| <= PAGE && 0 <= k < npages * PAGE
    ensures Held(slots[pg := Some(Patched(slots[pg].value, o, bs))], npages)
    ensures At(slots[pg := Some(Patched(slots[pg].value, o, bs))], npages, k)
      == if pg * PAGE + o <= k < pg * PAGE + o + |bs| then bs[k - (pg * PAGE + o)] else At(slots, npages, k)
  {
    PageOf(k, npages);
    var p := slots[pg].value;
    if k / PAGE == pg {
      assert k % PAGE == k - pg * PAGE;
    }
  }
}
