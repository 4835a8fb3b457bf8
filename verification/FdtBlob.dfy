/** The blob before and after fdt_set_bootargs, byte for byte. */
module FdtBlob {
  import opened Fdt
  import opened FdtTree

  function HGet(d: seq<byte>, w: nat): (v: nat)
    requires |d| >= HEADER && w < 10
    ensures v < 0x1_0000_0000
  {
    Be32(d, 4 * w)
  }

  /** The conventional layout: header, structure block, strings block, and the blob inside the buffer. */
  predicate Layout(d: seq<byte>) {
    && |d| >= HEADER && HEADER <= HGet(d, H_OFF_STRUCT)
    && HGet(d, H_OFF_STRUCT) + HGet(d, H_SIZE_STRUCT) <= HGet(d, H_OFF_STRINGS)
    && HGet(d, H_OFF_STRINGS) + HGet(d, H_SIZE_STRINGS) <= HGet(d, H_TOTALSIZE) <= |d|
  }

  function Struct(d: seq<byte>): (st: seq<byte>)
    requires Layout(d)
    ensures |st| == HGet(d, H_SIZE_STRUCT)
  {
    d[HGet(d, H_OFF_STRUCT)..HGet(d, H_OFF_STRUCT) + HGet(d, H_SIZE_STRUCT)]
  }

  function Strings(d: seq<byte>): (strs: seq<byte>)
    requires Layout(d)
    ensures |strs| == HGet(d, H_SIZE_STRINGS)
  {
    d[HGet(d, H_OFF_STRINGS)..HGet(d, H_OFF_STRINGS) + HGet(d, H_SIZE_STRINGS)]
  }

  predicate EndsInNul(s: seq<byte>) { s == [] || s[|s| - 1] == 0 }

  /** The blob is the flattening of the tree t. */
  ghost predicate Represents(d: seq<byte>, t: Doc) {
    && Layout(d) && HGet(d, 0) == MAGIC && EndsInNul(Strings(d))
    && ParseItems(Struct(d)).ending == AtEnd
    && NamesOk(Strings(d), ParseItems(Struct(d)).items)
    && Resolve(Strings(d), ParseItems(Struct(d)).items) == FlattenDoc(t)
  }

  // ---- splicing the structure block -----------------------------------------------------------

  /** The header with the three words that a growth of the structure block changes. */
  function Grown(d: seq<byte>, delta: nat): (h: seq<byte>)
    requires Layout(d) && HGet(d, H_TOTALSIZE) + delta < 0x1_0000_0000
    ensures |h| == |d|
  {
    Put32(Put32(Put32(d, 4, HGet(d, H_TOTALSIZE) + delta), 12, HGet(d, H_OFF_STRINGS) + delta),
          36, HGet(d, H_SIZE_STRUCT) + delta)
  }

  /** Bytes [a, b) of the blob replaced by mid, everything up to totalsize moved up to make room. */
  function Splice(d: seq<byte>, a: nat, b: nat, mid: seq<byte>): (e: seq<byte>)
    requires Layout(d) && HEADER <= a <= b <= HGet(d, H_TOTALSIZE) && |mid| >= b - a
    requires HGet(d, H_TOTALSIZE) + |mid| - (b - a) < 0x1_0000_0000 && HGet(d, H_TOTALSIZE) + |mid| - (b - a) <= |d|
    ensures |e| == |d|
  {
    var delta := |mid| - (b - a);
    Grown(d, delta)[..a] + mid + d[b..HGet(d, H_TOTALSIZE)] + d[HGet(d, H_TOTALSIZE) + delta..]
  }

  lemma GrownReads(d: seq<byte>, delta: nat, w: nat)
    requires Layout(d) && HGet(d, H_TOTALSIZE) + delta < 0x1_0000_0000 && w < 10
    ensures HGet(Grown(d, delta), w) ==
      HGet(d, w) + if w == H_TOTALSIZE || w == H_OFF_STRINGS || w == H_SIZE_STRUCT then delta else 0
  {
    hide Be32, Put32;
    var d1 := Put32(d, 4, HGet(d, H_TOTALSIZE) + delta);
    var d2 := Put32(d1, 12, HGet(d, H_OFF_STRINGS) + delta);
    Put32Reads(d, 4, HGet(d, H_TOTALSIZE) + delta, 4 * w);
    Put32Reads(d1, 12, HGet(d, H_OFF_STRINGS) + delta, 4 * w);
    Put32Reads(d2, 36, HGet(d, H_SIZE_STRUCT) + delta, 4 * w);
  }

  lemma GrownTail(d: seq<byte>, delta: nat)
    requires Layout(d) && HGet(d, H_TOTALSIZE) + delta < 0x1_0000_0000
    ensures Grown(d, delta)[HEADER..] == d[HEADER..]
  {
  }

  lemma SpliceHeader(d: seq<byte>, a: nat, b: nat, mid: seq<byte>, w: nat)
    requires Layout(d) && HEADER <= a <= b <= HGet(d, H_TOTALSIZE) && |mid| >= b - a
    requires HGet(d, H_TOTALSIZE) + |mid| - (b - a) < 0x1_0000_0000 && HGet(d, H_TOTALSIZE) + |mid| - (b - a) <= |d|
    requires w < 10
    ensures HGet(Splice(d, a, b, mid), w) ==
      HGet(d, w) + if w == H_TOTALSIZE || w == H_OFF_STRINGS || w == H_SIZE_STRUCT then |mid| - (b - a) else 0
  {
    hide Be32, Grown;
    var h, e := Grown(d, |mid| - (b - a)), Splice(d, a, b, mid);
    GrownReads(d, |mid| - (b - a), w);
    assert e[4 * w..4 * w + 4] == h[4 * w..4 * w + 4];
    Be32At(e, h, 4 * w, 4 * w);
  }

  /** After the splice the header agrees with the blocks: the structure block has mid in place of
      [a, b), and the strings block and everything before the structure block are what they were. */
  lemma SpliceBlocks(d: seq<byte>, a: nat, b: nat, mid: seq<byte>)
    requires Layout(d) && |mid| >= b - a
    requires HGet(d, H_OFF_STRUCT) <= a <= b <= HGet(d, H_OFF_STRUCT) + HGet(d, H_SIZE_STRUCT)
    requires HGet(d, H_TOTALSIZE) + |mid| - (b - a) < 0x1_0000_0000 && HGet(d, H_TOTALSIZE) + |mid| - (b - a) <= |d|
    ensures var e, os := Splice(d, a, b, mid), HGet(d, H_OFF_STRUCT);
      && Layout(e) && HGet(e, 0) == HGet(d, 0) && HGet(e, H_OFF_STRUCT) == os
      && Struct(e) == Struct(d)[..a - os] + mid + Struct(d)[b - os..]
      && Strings(e) == Strings(d)
      && e[HEADER..os] == d[HEADER..os]
  {
    hide Grown, HGet, Be32;
    var e, os, n := Splice(d, a, b, mid), HGet(d, H_OFF_STRUCT), HGet(d, H_SIZE_STRUCT);
    var delta := |mid| - (b - a);
    SpliceHeader(d, a, b, mid, 0);
    SpliceHeader(d, a, b, mid, H_TOTALSIZE);
    SpliceHeader(d, a, b, mid, H_OFF_STRUCT);
    SpliceHeader(d, a, b, mid, H_OFF_STRINGS);
    SpliceHeader(d, a, b, mid, H_SIZE_STRINGS);
    SpliceHeader(d, a, b, mid, H_SIZE_STRUCT);
    SpliceSlices(d, a, b, mid, delta);
  }

  /** Slices of a spliced sequence: before, in and after the spliced part. */
  lemma FrontSlice(h: seq<byte>, d: seq<byte>, a: nat, rest: seq<byte>, i: nat, j: nat)
    requires HEADER <= i <= j <= a <= |d| && |h| == |d| && h[HEADER..] == d[HEADER..]
    ensures (h[..a] + rest)[i..j] == d[i..j]
  {
    forall k | i <= k < j
      ensures h[k] == d[k]
    {
      assert h[HEADER..][k - HEADER] == d[HEADER..][k - HEADER];
    }
  }

  lemma TailSlice(front: seq<byte>, d: seq<byte>, b: nat, total: nat, rest: seq<byte>, i: nat, j: nat)
    requires b <= i <= j <= total <= |d|
    ensures |front| + (j - b) <= |front + d[b..total] + rest|
    ensures (front + d[b..total] + rest)[|front| + (i - b)..|front| + (j - b)] == d[i..j]
  {
    assert d[b..total] == d[b..i] + d[i..j] + d[j..total];
    assert front + d[b..total] + rest == (front + d[b..i]) + d[i..j] + (d[j..total] + rest);
    MiddleSlice(front + d[b..i], d[i..j], d[j..total] + rest);
  }

  lemma MiddleSlice(x: seq<byte>, y: seq<byte>, z: seq<byte>)
    ensures (x + y + z)[|x|..|x| + |y|] == y
  {
  }

  lemma SpliceSlices(d: seq<byte>, a: nat, b: nat, mid: seq<byte>, delta: nat)
    requires Layout(d) && |mid| == b - a + delta
    requires HGet(d, H_OFF_STRUCT) <= a <= b <= HGet(d, H_OFF_STRUCT) + HGet(d, H_SIZE_STRUCT)
    requires HGet(d, H_TOTALSIZE) + delta < 0x1_0000_0000 && HGet(d, H_TOTALSIZE) + delta <= |d|
    ensures var e, os, n := Splice(d, a, b, mid), HGet(d, H_OFF_STRUCT), HGet(d, H_SIZE_STRUCT);
      && e[os..os + n + delta] == Struct(d)[..a - os] + mid + Struct(d)[b - os..]
      && e[HGet(d, H_OFF_STRINGS) + delta..HGet(d, H_OFF_STRINGS) + delta + HGet(d, H_SIZE_STRINGS)] == Strings(d)
      && e[HEADER..os] == d[HEADER..os]
  {
    hide Grown, HGet, Be32;
    GrownTail(d, delta);
    var os, n, total, f, z :=
      HGet(d, H_OFF_STRUCT), HGet(d, H_SIZE_STRUCT), HGet(d, H_TOTALSIZE), HGet(d, H_OFF_STRINGS), HGet(d, H_SIZE_STRINGS);
    SplicedStruct(Grown(d, delta), d, a, b, mid, os, n, total, d[total + delta..]);
    SplicedRest(Grown(d, delta), d, a, b, mid, os, f, z, total, d[total + delta..]);
  }

  lemma SplicedStruct(h: seq<byte>, d: seq<byte>, a: nat, b: nat, mid: seq<byte>, os: nat, n: nat, total: nat, spare: seq<byte>)
    requires HEADER <= os <= a <= b <= os + n <= total <= |d| && |h| == |d| && h[HEADER..] == d[HEADER..] && |mid| >= b - a
    ensures var e := h[..a] + mid + d[b..total] + spare; var m := os + n + |mid| - (b - a);
      m <= |e| && e[os..m] == d[os..os + n][..a - os] + mid + d[os..os + n][b - os..]
  {
    var e, m := h[..a] + mid + d[b..total] + spare, os + n + |mid| - (b - a);
    var rest := mid + d[b..total] + spare;
    assert e == h[..a] + rest;
    FrontSlice(h, d, a, rest, os, a);
    TailSlice(h[..a] + mid, d, b, total, spare, b, os + n);
    ThreeSlices(e, os, a, a + |mid|, m);
    assert e[a..a + |mid|] == mid;
    assert d[os..os + n][..a - os] == d[os..a] && d[os..os + n][b - os..] == d[b..os + n];
  }

  lemma SplicedRest(h: seq<byte>, d: seq<byte>, a: nat, b: nat, mid: seq<byte>, os: nat, f: nat, z: nat, total: nat, spare: seq<byte>)
    requires HEADER <= os <= a <= b <= f && f + z <= total <= |d| && |h| == |d| && h[HEADER..] == d[HEADER..] && |mid| >= b - a
    ensures var e := h[..a] + mid + d[b..total] + spare; var g := f + |mid| - (b - a);
      g + z <= |e| && e[g..g + z] == d[f..f + z] && e[HEADER..os] == d[HEADER..os]
  {
    var rest := mid + d[b..total] + spare;
    assert h[..a] + mid + d[b..total] + spare == h[..a] + rest;
    FrontSlice(h, d, a, rest, HEADER, os);
    TailSlice(h[..a] + mid, d, b, total, spare, f, f + z);
  }

  lemma ThreeSlices(e: seq<byte>, i: nat, j: nat, k: nat, l: nat)
    requires i <= j <= k <= l <= |e|
    ensures e[i..l] == e[i..j] + e[j..k] + e[k..l]
  {
  }
}
