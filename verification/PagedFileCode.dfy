/** ramfs_read, ramfs_write and ramfs_truncate over the page frames. */
module PagedFileCode {
  import opened Options
  import opened PagedFile

  /** s agrees with the bytes of t on the first m pages, and reads zero on the pages after them. */
  ghost predicate Extends(t: seq<Option<seq<byte>>>, m: nat, s: seq<Option<seq<byte>>>, n: nat) {
    && Held(t, m) && Held(s, n) && m <= n
    && forall k :: 0 <= k < n * PAGE ==> At(s, n, k) == if k < m * PAGE then At(t, m, k) else 0
  }

  function ZeroPage(): (p: seq<byte>)
    ensures |p| == PAGE && forall i :: 0 <= i < PAGE ==> p[i] == 0
  {
    seq(PAGE, _ => 0)
  }

  lemma ExtendsRefl(s: seq<Option<seq<byte>>>, n: nat, more: seq<Option<seq<byte>>>)
    requires Held(s, n)
    ensures Extends(s, n, s, n) && Extends(s, n, s + more, n)
  {
    var t := s + more;
    assert forall i :: 0 <= i < n ==> t[i] == s[i];
    forall k | 0 <= k < n * PAGE
      ensures At(t, n, k) == At(s, n, k)
    {
      PageOf(k, n);
    }
  }

  /** One more zero frame in slot i. */
  lemma ExtendsStep(t: seq<Option<seq<byte>>>, m: nat, s: seq<Option<seq<byte>>>, i: nat)
    requires Extends(t, m, s, i) && i < |s|
    ensures Extends(t, m, s[i := Some(ZeroPage())], i + 1)
  {
    var u := s[i := Some(ZeroPage())];
    HeldMore(s, i);
    hide At, Held;
    forall k | 0 <= k < (i + 1) * PAGE
      ensures At(u, i + 1, k) == if k < m * PAGE then At(t, m, k) else 0
    {
      ExtendsStepAt(t, m, s, i, k);
    }
  }

  lemma HeldMore(s: seq<Option<seq<byte>>>, i: nat)
    requires Held(s, i) && i < |s|
    ensures Held(s[i := Some(ZeroPage())], i + 1)
  {
  }

  lemma ExtendsStepAt(t: seq<Option<seq<byte>>>, m: nat, s: seq<Option<seq<byte>>>, i: nat, k: int)
    requires Extends(t, m, s, i) && i < |s| && 0 <= k < (i + 1) * PAGE
    ensures Held(s[i := Some(ZeroPage())], i + 1)
    ensures At(s[i := Some(ZeroPage())], i + 1, k) == if k < m * PAGE then At(t, m, k) else 0
  {
    PageOf(k, i + 1);
    if k < i * PAGE {
      PageOf(k, i);
      assert At(s, i, k) == if k < m * PAGE then At(t, m, k) else 0;
    } else {
      assert k / PAGE == i;
    }
  }

  /** Changing slots behind the held ones changes no held byte. */
  lemma ExtendsPrefix(t: seq<Option<seq<byte>>>, m: nat, s: seq<Option<seq<byte>>>, n: nat)
    requires Extends(t, m, s, n)
    ensures Held(s, m) && forall k :: 0 <= k < m * PAGE ==> At(s, m, k) == At(t, m, k)
  {
    forall k | 0 <= k < m * PAGE
      ensures At(s, m, k) == At(t, m, k)
    {
      PageOf(k, m);
      assert At(s, n, k) == At(t, m, k);
    }
  }

  /** There are slots and frames for a file that ends at end. */
  predicate CanGrow(slots: seq<Option<seq<byte>>>, npages: nat, end: nat, reallocOk: bool, frames: nat) {
    (PagesFor(end) <= |slots| || reallocOk) && PagesFor(end) <= npages + frames
  }

  /** All bytes of the held pages. */
  ghost function Bytes(slots: seq<Option<seq<byte>>>, npages: nat): (b: seq<byte>)
    requires Held(slots, npages)
    ensures |b| == npages * PAGE
  {
    View(slots, npages, npages * PAGE)
  }

  lemma ExtendsBytes(t: seq<Option<seq<byte>>>, m: nat, s: seq<Option<seq<byte>>>, n: nat)
    requires Extends(t, m, s, n)
    ensures Held(t, m) && Held(s, n) && m <= n && Bytes(s, n) == Grown(Bytes(t, m), n)
  {
    hide At;
    var b, c := Bytes(t, m), Bytes(s, n);
    forall k | 0 <= k < n * PAGE
      ensures c[k] == if k < m * PAGE then b[k] else 0
    {
      assert At(s, n, k) == if k < m * PAGE then At(t, m, k) else 0;
    }
    assert c == Resized(b, n * PAGE);
  }

  lemma FewerBytes(t: seq<Option<seq<byte>>>, m: nat, s: seq<Option<seq<byte>>>, n: nat)
    requires Held(t, m) && Held(s, n) && n <= m && forall j :: 0 <= j < n ==> s[j] == t[j]
    ensures Bytes(s, n) == Bytes(t, m)[..n * PAGE]
  {
    forall k | 0 <= k < n * PAGE
      ensures Bytes(s, n)[k] == Bytes(t, m)[k]
    {
      PageOf(k, n);
    }
  }

  lemma PatchedBytes(u: seq<Option<seq<byte>>>, s: seq<Option<seq<byte>>>, n: nat, off: nat, src: seq<byte>)
    requires Held(u, n) && Held(s, n) && off + |src| <= n * PAGE
    requires forall k :: 0 <= k < n * PAGE ==> At(s, n, k) == if off <= k < off + |src| then src[k - off] else At(u, n, k)
    ensures Bytes(s, n) == Written(Bytes(u, n), off, src)
  {
    hide At;
  }

  function Larger(x: nat, y: nat): nat { if x < y then y else x }

  /** The slots [from, upto) have given up their frames, and no other slot has changed. */
  ghost predicate Released(was: seq<Option<seq<byte>>>, slots: seq<Option<seq<byte>>>, from: int, upto: int) {
    |slots| == |was| && forall j :: 0 <= j < |slots| ==> slots[j] == if from <= j < upto then None else was[j]
  }

  class File {
    var isReg: bool
    var slots: seq<Option<seq<byte>>>
    var npages: nat
    var size: nat

    /** The page table; the file may still say it is longer than its pages. */
    ghost predicate Paged()
      reads this
    {
      Held(slots, npages) && npages * PAGE <= MAX_END && size < WORD
    }

    ghost predicate Valid()
      reads this
    {
      Paged() && size <= npages * PAGE
    }

    ghost function Stored(): (s: Store)
      requires Paged()
      reads this
    {
      Store(Bytes(slots, npages), size)
    }

    ghost function Contents(): (c: seq<byte>)
      requires Valid()
      reads this
    {
      Seen(Stored())
    }

    /** A new inode has no page. */
    constructor (reg: bool)
      ensures isReg == reg && Valid() && Stored() == Store([], 0)
    {
      isReg, slots, npages, size := reg, [], 0, 0;
    }

    /** ensure_pages; reallocOk: the page table can grow, frames: how many frames are left. */
    method EnsurePages(pages: nat, reallocOk: bool, frames: nat) returns (code: int)
      requires Paged() && pages * PAGE <= MAX_END
      modifies this`slots, this`npages
      ensures Paged() && (code == 0 || code == -1)
      ensures code == 0 <==> (pages <= |old(slots)| || reallocOk) && pages <= old(npages) + frames
      ensures npages == if code == 0 && pages > old(npages) then pages else old(npages)
      ensures Stored().bytes == if code == 0 then Grown(old(Stored()).bytes, pages) else old(Stored()).bytes
      ensures |slots| == if pages <= |old(slots)| || !reallocOk then |old(slots)| else Larger(pages, if old(slots) == [] then 4 else 2 * |old(slots)|)
    {
      hide Extends, Held, Bytes, Grown, At;
      ghost var t, m := slots, npages;
      ExtendsRefl(t, m, []);
      if pages > |slots| {
        var newcap := if |slots| != 0 then |slots| * 2 else 4;
        if newcap < pages { newcap := pages; }
        if !reallocOk {
          return -1;
        }
        ghost var more := seq(newcap - |slots|, _ => None);
        ExtendsRefl(t, m, more);
        slots := slots + seq(newcap - |slots|, _ => None);
      }
      HeldBound(t, m);
      ghost var cap := |slots|;
      var i := npages;
      while i < pages
        invariant npages == m && m <= i && (i <= pages || i == m) && i <= |slots| && pages <= |slots| == cap
        invariant Extends(t, m, slots, i) && i - m <= frames
      {
        if i - npages >= frames {
          SameBytes(t, m, slots, i);
          return -1;
        }
        ExtendsStep(t, m, slots, i);
        slots := slots[i := Some(ZeroPage())];
        i := i + 1;
      }
      ExtendsBytes(t, m, slots, i);
      GrownEnough(Bytes(t, m), m, pages);
      if pages > npages {
        npages := pages;
      }
      code := 0;
    }

    /** ramfs_read into dst */
    method Read(off: nat, dst: array<byte>, n0: nat) returns (r: int)
      requires Valid() && n0 <= dst.Length
      modifies dst
      ensures !isReg ==> r == -21 && dst[..] == old(dst[..])
      ensures isReg ==> r == (if off >= size then 0 else if n0 > size - off then size - off else n0)
      ensures isReg && off < size ==> dst[..r] == Contents()[off..off + r]
      ensures isReg ==> dst[r..] == old(dst[r..])
    {
      hide At;
      if !isReg {
        return -21;
      }
      if off >= size {
        return 0;
      }
      var n := if n0 > size - off then size - off else n0;
      var done := 0;
      while done < n
        invariant 0 <= done <= n
        invariant forall x :: 0 <= x < done ==> dst[x] == At(slots, npages, off + x)
        invariant forall x :: done <= x < dst.Length ==> dst[x] == old(dst[x])
      {
        var pos := off + done;
        PageOf(pos, npages);
        var pg, poff := pos / PAGE, pos % PAGE;
        var chunk := PAGE - poff;
        if chunk > n - done { chunk := n - done; }
        var page := slots[pg].value;
        ghost var before := dst[..];
        forall x | 0 <= x < chunk {
          dst[done + x] := page[poff + x];
        }
        forall x | done <= x < done + chunk
          ensures dst[x] == At(slots, npages, off + x)
        {
          InPage(slots, npages, pos, x - done);
          assert dst[done + (x - done)] == page[poff + (x - done)];
        }
        done := done + chunk;
      }
      forall x | 0 <= x < n
        ensures dst[x] == Contents()[off + x]
      {
        SeenAt(slots, npages, size, off + x);
      }
      r := n;
    }

    /** The copy loop of ramfs_write; false when it runs into a page the file does not hold. */
    method CopyIn(off: nat, src: seq<byte>) returns (held: bool)
      requires Paged()
      modifies this`slots
      ensures Paged()
      ensures held <==> src == [] || off + |src| <= npages * PAGE
      ensures held ==> Stored().bytes == if src == [] then old(Stored()).bytes else Written(old(Stored()).bytes, off, src)
    {
      hide At;
      ghost var was := slots;
      var n, done := |src|, 0;
      while done < n
        invariant 0 <= done <= n && Held(slots, npages) && |slots| == |was| && (done > 0 ==> off + done <= npages * PAGE)
        invariant forall k :: 0 <= k < npages * PAGE ==>
          At(slots, npages, k) == if off <= k < off + done then src[k - off] else At(was, npages, k)
      {
        var pos := off + done;
        if pos / PAGE >= npages {
          return false;
        }
        PageOf(pos, npages);
        var pg, poff := pos / PAGE, pos % PAGE;
        var chunk := PAGE - poff;
        if chunk > n - done { chunk := n - done; }
        var bs := src[done..done + chunk];
        ghost var prev := slots;
        slots := slots[pg := Some(Patched(slots[pg].value, poff, bs))];
        forall k | 0 <= k < npages * PAGE
          ensures Held(slots, npages) && At(slots, npages, k) == if off <= k < off + done + chunk then src[k - off] else At(was, npages, k)
        {
          PatchAt(prev, npages, pg, poff, bs, k);
        }
        assert 0 < npages * PAGE;
        PatchAt(prev, npages, pg, poff, bs, 0);
        done := done + chunk;
      }
      if n > 0 {
        PatchedBytes(was, slots, npages, off, src);
      }
      held := true;
    }

    /** ramfs_write; wild: the copy runs into a page the file does not hold, which ends the model. */
    method Write(off: nat, src: seq<byte>, reallocOk: bool, frames: nat) returns (r: int, wild: bool)
      requires Valid() && off < WORD && |src| < WORD
      modifies this`slots, this`npages, this`size
      ensures Paged()
      ensures !isReg ==> r == -21
      ensures isReg && off + |src| >= WORD ==> r == -22
      ensures isReg && off + |src| < WORD && !wild ==>
        r == if CanGrow(old(slots), old(npages), off + |src|, reallocOk, frames) then |src| else -12
      ensures !wild ==> Stored() == EffectStore(old(Stored()), WriteOp(off, src), r)
      ensures wild <==> isReg && src != [] && MAX_END < off + |src| < WORD
      ensures Valid() <==> !(isReg && src == [] && MAX_END < off < WORD)
    {
      hide At, Held, View, Written, Bytes, PagesFor;
      wild := false;
      if !isReg {
        return -21, false;
      }
      if |src| > 0xFFFF_FFFF - off {
        return -22, false;
      }
      var end := off + |src|;
      PagesCover(end);
      if end > MAX_END {
        NoPagesPastEnd(end);
      }
      var code := EnsurePages(PagesFor(end), reallocOk, frames);
      if code != 0 {
        return -12, false;
      }
      var held := CopyIn(off, src);
      if !held {
        return 0, true;
      }
      if end > size {
        size := end;
      }
      r := |src|;
    }

    /** ramfs_truncate */
    method Truncate(newsize: nat, reallocOk: bool, frames: nat) returns (r: int)
      requires Valid() && newsize < WORD
      modifies this`slots, this`npages, this`size
      ensures Paged()
      ensures !isReg ==> r == -21
      ensures isReg ==> r == if newsize <= old(size) || CanGrow(old(slots), old(npages), newsize, reallocOk, frames) then 0 else -12
      ensures Stored() == EffectStore(old(Stored()), TruncOp(newsize), r)
      ensures Valid() <==> !(isReg && newsize > MAX_END)
      ensures isReg && newsize <= old(size) ==> Released(old(slots), slots, PagesFor(newsize), old(npages))
    {
      hide At, Held, View, Bytes, Resized, Grown, PagesFor;
      if !isReg {
        return -21;
      }
      var need := PagesFor(newsize);
      PagesCover(newsize);
      if newsize > MAX_END {
        NoPagesPastEnd(newsize);
      }
      ghost var t, m := slots, npages;
      if newsize > size {
        var code := EnsurePages(need, reallocOk, frames);
        if code != 0 {
          return -12;
        }
      } else {
        var i := need;
        ghost var np := if need < npages then need else npages;
        HeldFewer(t, m, np);
        while i < npages
          invariant need <= i && |slots| == |t| && np <= i && Held(slots, np) && npages == m && (i <= m || i == need)
          invariant Released(t, slots, need, i)
          invariant forall j :: 0 <= j < np ==> slots[j] == t[j]
        {
          HeldBound(t, m);
          SlotGone(slots, np, i);
          slots := slots[i := None];
          i := i + 1;
        }
        if need < npages {
          npages := need;
        }
        FewerBytes(t, m, slots, np);
        assert Bytes(t, m)[..m * PAGE] == Bytes(t, m);
      }
      size := newsize;
      r := 0;
    }

    /** Writes and truncations in any order; env says for each whether the page table can grow and how many
        frames are left. The bytes are those of the operations that succeeded, in order. */
    method Run(ops: seq<FileOp>, env: seq<(bool, nat)>) returns (rs: seq<int>)
      requires Valid() && |env| == |ops| && forall k :: 0 <= k < |ops| ==> Fits(ops[k])
      modifies this`slots, this`npages, this`size
      ensures Valid() && |rs| == |ops| && Stored() == ReplayStore(old(Stored()), ops, rs)
      ensures old(Clean(Stored())) && TidyRun(old(Contents()), ops, rs) ==> Contents() == Replay(old(Contents()), ops, rs)
    {
      hide Held, Bytes, WriteStore, TruncStore, Clean, TidyRun, Replay;
      rs := [];
      var i := 0;
      while i < |ops|
        invariant 0 <= i <= |ops| && |rs| == i && Valid()
        invariant Stored() == ReplayStore(old(Stored()), ops[..i], rs)
        invariant forall k :: 0 <= k < i && ops[k].WriteOp? && rs[k] >= 0 ==> ops[k].off + |ops[k].src| <= MAX_END
      {
        ghost var before := Stored();
        var r: int;
        match ops[i] {
          case WriteOp(off, src) =>
            var wild;
            r, wild := Write(off, src, env[i].0, env[i].1);
          case TruncOp(n) =>
            r := Truncate(n, env[i].0, env[i].1);
        }
        assert Stored() == EffectStore(before, ops[i], r);
        ReplaySnoc(old(Stored()), ops[..i], rs, ops[i], r);
        assert ops[..i + 1] == ops[..i] + [ops[i]];
        rs := rs + [r];
        i := i + 1;
      }
      assert ops[..i] == ops;
      if old(Clean(Stored())) && TidyRun(old(Contents()), ops, rs) {
        RunSeen(old(Stored()), ops, rs);
      }
    }

    /** What was written is read back, byte for byte, by a read of that place. */
    method WriteThenRead(off: nat, src: seq<byte>, reallocOk: bool, frames: nat, dst: array<byte>) returns (w: int, r: int)
      requires Valid() && Clean(Stored()) && isReg && off + |src| <= MAX_END && |src| == dst.Length
      modifies this`slots, this`npages, this`size, dst
      ensures Valid() && (w == |src| || w == -12)
      ensures w == |src| ==> r == |src| && dst[..] == src
      ensures w == -12 ==> Contents() == old(Contents())
    {
      hide Held, Bytes, Clean, WriteStore, Written, PagesFor;
      var wild;
      w, wild := Write(off, src, reallocOk, frames);
      WriteSeen(old(Stored()), off, src);
      WrittenIs(old(Contents()), off, src);
      CleanGap(old(Stored()));
      r := Read(off, dst, |src|);
    }

    /** Cutting and extending again brings zeros exactly when the cut was tidy. */
    method CutAndExtend(n: nat, reallocOk: bool, frames: nat) returns (r: int)
      requires Valid() && isReg && Clean(Stored()) && n <= size
      modifies this`slots, this`npages, this`size
      ensures Valid()
      ensures r == 0 ==> size == old(size) && (Contents() == Resized(old(Contents())[..n], size) <==> Tidy(old(Contents()), n))
      ensures r == 0 ==> Stored() == TruncStore(TruncStore(old(Stored()), n), size)
      ensures PagesFor(old(size)) <= PagesFor(n) && reallocOk ==> r == 0
    {
      hide Held, Bytes, Clean, Tidy, TruncStore, Resized, Written, PagesFor;
      var z := size;
      r := Truncate(n, reallocOk, frames);
      CutPages(old(Stored()), n);
      r := Truncate(z, reallocOk, frames);
      CutAndExtended(old(Stored()), n);
    }
  }

  lemma CutPages(s: Store, n: nat)
    requires Covered(s) && n <= s.size <= MAX_END
    ensures |TruncStore(s, n).bytes| == if PagesFor(n) * PAGE < |s.bytes| then PagesFor(n) * PAGE else |s.bytes|
    ensures PagesFor(n) * PAGE < n + PAGE && PagesFor(s.size) * PAGE >= s.size
  {
    PagesCover(n);
    PagesCover(s.size);
  }

  lemma ReplaySnoc(s: Store, ops: seq<FileOp>, rs: seq<int>, op: FileOp, r: int)
    requires |ops| == |rs|
    ensures ReplayStore(s, ops + [op], rs + [r]) == EffectStore(ReplayStore(s, ops, rs), op, r)
  {
    assert (ops + [op])[..|ops|] == ops && (rs + [r])[..|ops|] == rs;
  }

  lemma SameBytes(t: seq<Option<seq<byte>>>, m: nat, s: seq<Option<seq<byte>>>, n: nat)
    requires Extends(t, m, s, n)
    ensures Held(t, m) && Held(s, m) && Bytes(s, m) == Bytes(t, m)
  {
    ExtendsPrefix(t, m, s, n);
  }

  lemma GrownEnough(b: seq<byte>, m: nat, pages: nat)
    requires |b| == m * PAGE
    ensures pages <= m ==> Grown(b, m) == Grown(b, pages) == b
  {
  }

  lemma SeenAt(slots: seq<Option<seq<byte>>>, npages: nat, size: nat, k: int)
    requires Held(slots, npages) && 0 <= k < size <= npages * PAGE
    ensures Seen(Store(Bytes(slots, npages), size))[k] == At(slots, npages, k)
  {
    hide At;
  }

  lemma InPage(slots: seq<Option<seq<byte>>>, npages: nat, pos: int, x: int)
    requires Held(slots, npages) && 0 <= pos < npages * PAGE && 0 <= x < PAGE - pos % PAGE
    ensures pos + x < npages * PAGE && pos / PAGE < npages
    ensures At(slots, npages, pos + x) == slots[pos / PAGE].value[pos % PAGE + x]
  {
    PageOf(pos, npages);
    var k := pos + x;
    assert k / PAGE == pos / PAGE && k % PAGE == pos % PAGE + x;
  }

  lemma HeldBound(s: seq<Option<seq<byte>>>, n: nat)
    requires Held(s, n)
    ensures n <= |s|
  {
  }

  lemma HeldFewer(s: seq<Option<seq<byte>>>, n: nat, k: nat)
    requires Held(s, n) && k <= n
    ensures Held(s, k)
  {
  }

  lemma SlotGone(s: seq<Option<seq<byte>>>, n: nat, i: nat)
    requires Held(s, n) && n <= i < |s|
    ensures Held(s[i := None], n)
  {
  }

  lemma StaleStore(s: Store)
    requires s == WriteStore(Store([], 0), 0, [97, 98])
    ensures PagesFor(1) == PagesFor(2) == 1 && Clean(s) && Covered(s) && Seen(s) == [97, 98]
    ensures var t := TruncStore(TruncStore(s, 1), 2); Covered(t) && Seen(t) == [97, 98] != Resized([97], 2)
  {
    assert Resized([97], 2)[1] == 0;
  }

  /** Cutting inside a page can leave a byte behind: "ab" cut to "a" and extended again reads "ab". */
  method StaleByteShows() returns (f: File)
    ensures fresh(f) && f.Valid() && f.Contents() == [97, 98] != Resized([97], 2)
  {
    hide WriteStore, TruncStore, Clean, Resized, Held, Bytes, PagesFor;
    f := new File(true);
    StaleStore(WriteStore(Store([], 0), 0, [97, 98]));
    assert f.Stored() == Store([], 0);
    var r, wild := f.Write(0, [97, 98], true, 1);
    r := f.CutAndExtend(1, true, 0);
  }

  lemma CleanGap(s: Store)
    requires Clean(s)
    ensures forall k :: s.size <= k < |s.bytes| ==> s.bytes[k] == 0
  {
  }

  /** An empty write behind the end still moves the end: the gap reads as zeros. */
  lemma EmptyWriteExtends(c: seq<byte>, off: nat)
    requires off > |c|
    ensures Written(c, off, []) == Resized(c, off)
  {
  }
}
