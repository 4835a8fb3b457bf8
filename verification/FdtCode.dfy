/** bootloader/fdt.c on the byte buffer. */
module FdtCode {
  import opened Options
  import opened Fdt
  import opened FdtTree
  import opened FdtBlob
  import opened FdtEdit
  import opened FdtSet

  // ---- bytes and words ------------------------------------------------------------------------

  /** be32 */
  method Load32(d: array<byte>, p: nat) returns (v: nat)
    requires p + 4 <= d.Length
    ensures v == Be32(d[..], p)
  {
    v := Word(d[p], d[p + 1], d[p + 2], d[p + 3]);
  }

  /** hget */
  method HeaderWord(d: array<byte>, w: nat) returns (v: nat)
    requires d.Length >= HEADER && w < 10
    ensures v == HGet(d[..], w)
  {
    v := Load32(d, 4 * w);
  }

  /** wr32 */
  method Store32(d: array<byte>, p: nat, v: nat)
    requires p + 4 <= d.Length && v < 0x1_0000_0000
    modifies d
    ensures d[..] == Put32(old(d[..]), p, v)
  {
    var q := v / 256;
    var r := q / 256;
    d[p], d[p + 1], d[p + 2], d[p + 3] := r / 256, r % 256, q % 256, v % 256;
  }

  function Shifted(o: seq<byte>, from: nat, total: nat, delta: nat): (e: seq<byte>)
    requires from <= total && total + delta <= |o|
    ensures |e| == |o|
  {
    o[..from + delta] + o[from..total] + o[total + delta..]
  }

  /** shift_up: backwards, so that an overlapping move keeps every byte. */
  method ShiftUp(d: array<byte>, from: nat, total: nat, delta: nat)
    requires from <= total && total + delta <= d.Length
    modifies d
    ensures d[..] == Shifted(old(d[..]), from, total, delta)
  {
    var i := total;
    while i > from
      invariant from <= i <= total
      invariant forall x :: i + delta <= x < total + delta ==> d[x] == old(d[x - delta])
      invariant forall x :: 0 <= x < i + delta || total + delta <= x < d.Length ==> d[x] == old(d[x])
    {
      i := i - 1;
      d[i + delta] := d[i];
    }
  }

  /** The loops that copy the command line and pad it with NULs. */
  method Fill(d: array<byte>, p: nat, s: seq<byte>, n: nat)
    requires p + n <= d.Length
    modifies d
    ensures d[..] == old(d[..p]) + Padded(s, n) + old(d[p + n..])
  {
    var i := 0;
    while i < n
      invariant 0 <= i <= n
      invariant forall x :: p <= x < p + i ==> d[x] == if x - p < |s| then s[x - p] else 0
      invariant forall x :: 0 <= x < p || p + i <= x < d.Length ==> d[x] == old(d[x])
    {
      d[p + i] := if i < |s| then s[i] else 0;
      i := i + 1;
    }
  }

  // ---- strings --------------------------------------------------------------------------------

  /** str_len */
  method StrLenAt(d: array<byte>, p: nat) returns (n: nat)
    requires p <= d.Length && Terminated(d[p..])
    ensures n == StrLen(d[p..])
  {
    n := 0;
    while d[p + n] != 0
      invariant n <= StrLen(d[p..])
      decreases StrLen(d[p..]) - n
    {
      assert d[p..][n] != 0;
      n := n + 1;
    }
    assert d[p..][n] == 0;
  }

  /** str_eq against a literal */
  method StrEqAt(d: array<byte>, p: nat, name: seq<byte>) returns (r: bool)
    requires p <= d.Length && Terminated(d[p..]) && 0 !in name
    ensures r <==> CStr(d[p..]) == name
  {
    ghost var s := d[p..];
    var i := 0;
    while i < |name| && d[p + i] != 0
      invariant i <= |name| && i <= StrLen(s)
      invariant s[..i] == name[..i]
    {
      if d[p + i] != name[i] {
        assert s[i] != name[i];
        return false;
      }
      assert s[i] != 0;
      i := i + 1;
    }
    assert s[i] == d[p + i];
    assert i < |name| ==> i == StrLen(s);
    r := i == |name| && d[p + i] == 0;
  }

  /** A string of a block of the buffer, read where it lies. */
  lemma StringInBlob(o: seq<byte>, off: nat, sz: nat, i: nat)
    requires off + sz <= |o| && NameOk(o[off..off + sz], i)
    ensures var t, p := o[off..off + sz][i..], off + i;
      Terminated(o[p..]) && StrLen(o[p..]) == StrLen(t) && CStr(o[p..]) == CStr(t)
  {
    hide StrLen;
    assert o[off..off + sz][i..] <= o[off + i..];
    CStrLocal(o[off..off + sz][i..], o[off + i..]);
  }

  /** strings_find; -1 when there is no such entry */
  method StringsFind(d: array<byte>) returns (r: int)
    requires Layout(d[..]) && EndsInNul(Strings(d[..]))
    ensures match FindString(Strings(d[..]), 0) { case Some(i) => r == i case None => r == -1 }
  {
    hide HGet, Be32, FindString;
    var off := HeaderWord(d, H_OFF_STRINGS);
    var sz := HeaderWord(d, H_SIZE_STRINGS);
    r := FindEntry(d, off, sz, Strings(d[..]));
  }

  /** The loop of strings_find */
  method FindEntry(d: array<byte>, off: nat, sz: nat, ghost strs: seq<byte>) returns (r: int)
    requires off + sz <= d.Length && strs == d[..][off..off + sz] && EndsInNul(strs)
    ensures match FindString(strs, 0) { case Some(i) => r == i case None => r == -1 }
  {
    hide CStr, StrLen, EndsInNul;
    var i := 0;
    while i < sz
      invariant FindString(strs, 0) == FindString(strs, i)
    {
      NulAhead(strs, i);
      StringInBlob(d[..], off, sz, i);
      assert d[off + i..] == d[..][off + i..];
      var eq := StrEqAt(d, off + i, BOOTARGS);
      if eq {
        return i;
      }
      i := SkipEntry(d, off, sz, i, strs);
    }
    r := -1;
  }

  /** The inner loop of strings_find: past the NUL that ends the entry at i. */
  method SkipEntry(d: array<byte>, off: nat, sz: nat, i: nat, ghost strs: seq<byte>) returns (j: nat)
    requires off + sz <= d.Length && strs == d[..][off..off + sz] && i < sz
    ensures j == i + StrLen(strs[i..]) + 1
  {
    j := i;
    while j < sz && d[off + j] != 0
      invariant i <= j <= i + StrLen(strs[i..])
    {
      assert strs[i..][j - i] == d[off + j];
      j := j + 1;
    }
    if j < sz {
      assert strs[i..][j - i] == d[off + j];
    }
    j := j + 1;
  }

  /** strings_append of "bootargs" */
  method StringsAppend(d: array<byte>) returns (noff: nat)
    requires Layout(d[..]) && Fits(d[..], |ENTRY|)
    modifies d
    ensures d[..] == AppendBlob(old(d[..])) && noff == |Strings(old(d[..]))|
  {
    hide HGet, Be32, Put32;
    var off := HeaderWord(d, H_OFF_STRINGS);
    var sz := HeaderWord(d, H_SIZE_STRINGS);
    var total := HeaderWord(d, H_TOTALSIZE);
    var i := 0;
    while i < |ENTRY|
      invariant i <= |ENTRY|
      invariant forall x :: off + sz <= x < off + sz + i ==> d[x] == ENTRY[x - (off + sz)]
      invariant forall x :: 0 <= x < off + sz || off + sz + i <= x < d.Length ==> d[x] == old(d[x])
    {
      d[off + sz + i] := ENTRY[i];
      i := i + 1;
    }
    ghost var o := old(d[..]);
    assert d[..] == o[..off + sz] + ENTRY + o[off + sz + |ENTRY|..];
    Store32(d, 32, sz + |ENTRY|);
    Store32(d, 4, total + |ENTRY|);
    noff := sz;
  }

  // ---- making room ----------------------------------------------------------------------------

  lemma Put32At(d: seq<byte>, p: nat, v: nat, i: nat)
    requires p + 4 <= |d| && v < 0x1_0000_0000 && i < |d|
    ensures Put32(d, p, v)[i] == if p <= i < p + 4 then Be32Bytes(v)[i - p] else d[i]
  {
    hide Be32Bytes;
  }

  /** The gap: everything from b on moved up by delta, and the three header words corrected. */
  function Gap(o: seq<byte>, b: nat, delta: nat): (e: seq<byte>)
    requires Layout(o) && HEADER <= b <= HGet(o, H_TOTALSIZE) && Fits(o, delta)
    ensures |e| == |o|
  {
    Grown(o, delta)[..b] + o[b..b + delta] + o[b..HGet(o, H_TOTALSIZE)] + o[HGet(o, H_TOTALSIZE) + delta..]
  }

  method OpenGap(d: array<byte>, b: nat, delta: nat)
    requires Layout(d[..]) && HEADER <= b <= HGet(d[..], H_TOTALSIZE) && Fits(d[..], delta)
    modifies d
    ensures d[..] == Gap(old(d[..]), b, delta)
  {
    hide HGet, Be32, Put32, Gap, Grown;
    ghost var o := d[..];
    var total := HeaderWord(d, H_TOTALSIZE);
    ShiftUp(d, b, total, delta);
    ghost var x := d[..];
    SameHeader(o, x);
    Store32(d, 4, total + delta);
    ghost var x1 := d[..];
    KeepWord(x, 4, total + delta, H_OFF_STRINGS);
    var w := HeaderWord(d, H_OFF_STRINGS);
    Store32(d, 12, w + delta);
    KeepWord(x, 4, total + delta, H_SIZE_STRUCT);
    KeepWord(x1, 12, w + delta, H_SIZE_STRUCT);
    w := HeaderWord(d, H_SIZE_STRUCT);
    Store32(d, 36, w + delta);
    GapIs(o, b, delta);
  }

  lemma KeepWord(d: seq<byte>, p: nat, v: nat, w: nat)
    requires |d| >= HEADER && p + 4 <= |d| && v < 0x1_0000_0000 && w < 10 && (4 * w + 4 <= p || p + 4 <= 4 * w)
    ensures HGet(Put32(d, p, v), w) == HGet(d, w)
  {
    hide Be32, Put32;
    Put32Reads(d, p, v, 4 * w);
  }

  /** Moving first and correcting the header after is the same as the other way round. */
  lemma GapIs(o: seq<byte>, b: nat, delta: nat)
    requires Layout(o) && HEADER <= b <= HGet(o, H_TOTALSIZE) && Fits(o, delta)
    ensures var x := Shifted(o, b, HGet(o, H_TOTALSIZE), delta);
      Put32(Put32(Put32(x, 4, HGet(o, H_TOTALSIZE) + delta), 12, HGet(o, H_OFF_STRINGS) + delta), 36, HGet(o, H_SIZE_STRUCT) + delta)
      == Gap(o, b, delta)
  {
    hide HGet, Be32Bytes, Put32, Grown;
    var t, f, n := HGet(o, H_TOTALSIZE) + delta, HGet(o, H_OFF_STRINGS) + delta, HGet(o, H_SIZE_STRUCT) + delta;
    var x := Shifted(o, b, HGet(o, H_TOTALSIZE), delta);
    var e := Put32(Put32(Put32(x, 4, t), 12, f), 36, n);
    var g := Grown(o, delta);
    forall i | 0 <= i < |o|
      ensures e[i] == Gap(o, b, delta)[i]
    {
      GrownAt(o, delta, i);
      ThreePuts(x, t, f, n, i);
      ThreePuts(o, t, f, n, i);
    }
  }

  lemma GrownAt(o: seq<byte>, delta: nat, i: nat)
    requires Layout(o) && Fits(o, delta) && i < |o|
    ensures Grown(o, delta)[i] == Put32(Put32(Put32(o, 4, HGet(o, H_TOTALSIZE) + delta), 12, HGet(o, H_OFF_STRINGS) + delta), 36, HGet(o, H_SIZE_STRUCT) + delta)[i]
  {
  }

  lemma ThreePuts(d: seq<byte>, t: nat, f: nat, n: nat, i: nat)
    requires |d| >= HEADER && t < 0x1_0000_0000 && f < 0x1_0000_0000 && n < 0x1_0000_0000 && i < |d|
    ensures Put32(Put32(Put32(d, 4, t), 12, f), 36, n)[i] ==
      if 4 <= i < 8 then Be32Bytes(t)[i - 4] else if 12 <= i < 16 then Be32Bytes(f)[i - 12]
      else if 36 <= i < 40 then Be32Bytes(n)[i - 36] else d[i]
  {
    hide Put32, Be32Bytes;
    Put32At(d, 4, t, i);
    Put32At(Put32(d, 4, t), 12, f, i);
    Put32At(Put32(Put32(d, 4, t), 12, f), 36, n, i);
  }

  // ---- writing into the gap ---------------------------------------------------------------------

  lemma PutIn(a: seq<byte>, pre: seq<byte>, g: seq<byte>, r: seq<byte>, v: nat)
    requires |g| >= 4 && v < 0x1_0000_0000
    ensures Put32(a + (pre + g) + r, |a| + |pre|, v) == a + ((pre + Be32Bytes(v)) + g[4..]) + r
  {
    hide Be32Bytes;
    var y, p := a + (pre + g) + r, |a| + |pre|;
    assert y == (a + pre) + g + r;
    assert y[..p] == a + pre;
    assert y[p + 4..] == g[4..] + r;
    assert (a + pre) + Be32Bytes(v) + (g[4..] + r) == a + ((pre + Be32Bytes(v)) + g[4..]) + r;
  }

  lemma FillIn(a: seq<byte>, pre: seq<byte>, g: seq<byte>, r: seq<byte>, v: seq<byte>)
    requires |v| == |g|
    ensures var y, p := a + (pre + g) + r, |a| + |pre|; y[..p] + v + y[p + |g|..] == a + (pre + v) + r
  {
    var y, p := a + (pre + g) + r, |a| + |pre|;
    assert y == (a + pre) + g + r;
    assert y[..p] == a + pre;
    assert y[p + |g|..] == r;
  }

  /** fdt_replace_bootargs */
  method ReplaceBootargs(d: array<byte>, tokpos: nat, len: nat, valpos: nat, s: seq<byte>, need: nat) returns (code: int)
    requires Layout(d[..]) && PropAt(d[..], tokpos) && len == Be32(d[..], tokpos + 4) && valpos == tokpos + 12
    requires need == |s| + 1 && Fits(d[..], GrowBy(len, s))
    modifies d
    ensures code == 0 && d[..] == ReplaceBlob(old(d[..]), tokpos, s)
  {
    hide HGet, Be32, Put32, Align4, Gap, Splice, Be32Bytes, Grown, Padded, ReplaceBlob;
    ghost var o := d[..];
    var oldSpace, newSpace := Align4(len), Align4(need);
    if newSpace > oldSpace {
      OpenGap(d, valpos + oldSpace, newSpace - oldSpace);
      Store32(d, tokpos + 4, need);
      Fill(d, valpos, s, newSpace);
      GrowBytes(o, tokpos, len, s);
    } else {
      Fill(d, valpos, s, len);
      FitIs(o, tokpos, s);
    }
    code := 0;
  }

  lemma GrowBytes(o: seq<byte>, tp: nat, len: nat, s: seq<byte>)
    requires Layout(o) && PropAt(o, tp) && len == Be32(o, tp + 4) && Fits(o, GrowBy(len, s)) && Align4(|s| + 1) > Align4(len)
    ensures |s| + 1 < 0x1_0000_0000
    ensures var n, vp := Align4(|s| + 1), tp + 12;
      var y := Put32(Gap(o, vp + Align4(len), n - Align4(len)), tp + 4, |s| + 1);
      y[..vp] + Padded(s, n) + y[vp + n..] == ReplaceBlob(o, tp, s)
  {
    hide HGet, Be32, Align4, Be32Bytes, Gap, Put32, Padded, Splice;
    var n, vp, b := Align4(|s| + 1), tp + 12, tp + 12 + Align4(len);
    GrowWrites(o, tp, b, n - Align4(len), |s| + 1, Padded(s, n));
  }

  lemma GrowWrites(o: seq<byte>, tp: nat, b: nat, delta: nat, need: nat, v: seq<byte>)
    requires Layout(o) && HEADER <= tp && tp + 12 <= b <= HGet(o, H_TOTALSIZE) && Fits(o, delta)
    requires need < 0x1_0000_0000 && |v| == b - (tp + 12) + delta
    ensures var vp := tp + 12; var y := Put32(Gap(o, b, delta), tp + 4, need);
      y[..vp] + v + y[vp + |v|..] == Splice(o, tp + 4, b, Be32Bytes(need) + o[tp + 8..vp] + v)
  {
    hide HGet, Be32, Be32Bytes, Grown, Put32;
    GrownTail(o, delta);
    GrowConcat(Grown(o, delta), o, tp, b, delta, HGet(o, H_TOTALSIZE), need, v);
  }

  lemma GrowConcat(g: seq<byte>, o: seq<byte>, tp: nat, b: nat, delta: nat, total: nat, need: nat, v: seq<byte>)
    requires |g| == |o| && HEADER <= tp && tp + 12 <= b <= total && total + delta <= |o| && g[HEADER..] == o[HEADER..]
    requires need < 0x1_0000_0000 && |v| == b - (tp + 12) + delta
    ensures var vp := tp + 12; var y := Put32(g[..b] + o[b..b + delta] + o[b..total] + o[total + delta..], tp + 4, need);
      y[..vp] + v + y[vp + |v|..] == g[..tp + 4] + (Be32Bytes(need) + o[tp + 8..vp] + v) + o[b..total] + o[total + delta..]
  {
    hide Be32Bytes, Put32;
    var vp := tp + 12;
    var a, w, r := g[..tp + 4], Be32Bytes(need), o[b..total] + o[total + delta..];
    var hole := g[tp + 4..b] + o[b..b + delta];
    assert g[..b] + o[b..b + delta] + o[b..total] + o[total + delta..] == a + ([] + hole) + r by {
      assert g[..b] == a + g[tp + 4..b];
    }
    PutIn(a, [], hole, r, need);
    var rest := g[vp..b] + o[b..b + delta];
    HoleSplits(g, o, tp, b, o[b..b + delta], w);
    FillIn(a, w + o[tp + 8..vp], rest, r, v);
    assert a + (w + o[tp + 8..vp] + v) + r == a + (w + o[tp + 8..vp] + v) + o[b..total] + o[total + delta..];
  }

  lemma HoleSplits(g: seq<byte>, o: seq<byte>, tp: nat, b: nat, x: seq<byte>, w: seq<byte>)
    requires |g| == |o| && HEADER <= tp && tp + 12 <= b <= |o| && g[HEADER..] == o[HEADER..]
    ensures ([] + w) + (g[tp + 4..b] + x)[4..] == (w + o[tp + 8..tp + 12]) + (g[tp + 12..b] + x)
  {
    Tail(g, o, tp + 8, tp + 12);
    assert (g[tp + 4..b] + x)[4..] == g[tp + 8..b] + x;
    assert g[tp + 8..b] == g[tp + 8..tp + 12] + g[tp + 12..b];
    assert [] + w == w;
  }

  lemma Tail(g: seq<byte>, o: seq<byte>, i: nat, j: nat)
    requires |g| == |o| && HEADER <= i <= j <= |o| && g[HEADER..] == o[HEADER..]
    ensures g[i..j] == o[i..j]
  {
    FrontSlice(g, o, j, [], i, j);
    assert (g[..j] + [])[i..j] == g[i..j];
  }

  /** fdt_insert_bootargs */
  method InsertBootargs(d: array<byte>, ip: nat, s: seq<byte>, need: nat) returns (code: int)
    requires Layout(d[..]) && Fits(d[..], InsertBy(d[..], s)) && EndsInNul(Strings(d[..])) && need == |s| + 1
    requires HGet(d[..], H_OFF_STRUCT) <= ip <= HGet(d[..], H_OFF_STRUCT) + HGet(d[..], H_SIZE_STRUCT)
    modifies d
    ensures code == 0 && d[..] == InsertBlob(old(d[..]), ip, s)
  {
    hide HGet, Be32, Put32, Align4, Gap, Splice, Be32Bytes, Grown, Padded, Struct, FindString, AppendBlob, PropToken;
    ghost var o := d[..];
    NamedOk(o);
    var noff := StringsFind(d);
    if noff < 0 {
      noff := StringsAppend(d);
    }
    assert (d[..], noff) == Named(o);
    PutProperty(d, ip, s, need, noff);
    code := 0;
  }

  /** The rest of fdt_insert_bootargs: the gap and the new token. */
  method PutProperty(d: array<byte>, ip: nat, s: seq<byte>, need: nat, noff: nat)
    requires Layout(d[..]) && HEADER <= ip <= HGet(d[..], H_TOTALSIZE) && Fits(d[..], 12 + Align4(|s| + 1))
    requires need == |s| + 1 && noff < 0x1_0000_0000
    modifies d
    ensures d[..] == Splice(old(d[..]), ip, ip, PropToken(s, noff))
  {
    hide HGet, Be32, Put32, Align4, Gap, Splice, Be32Bytes, Grown, Padded, Struct, PropToken;
    ghost var m := d[..];
    var valSpace := Align4(need);
    OpenGap(d, ip, 12 + valSpace);
    Store32(d, ip, PROP);
    Store32(d, ip + 4, need);
    Store32(d, ip + 8, noff);
    Fill(d, ip + 12, s, valSpace);
    InsertBytes(m, ip, s, noff);
  }

  lemma InsertBytes(m: seq<byte>, ip: nat, s: seq<byte>, noff: nat)
    requires Layout(m) && HEADER <= ip <= HGet(m, H_TOTALSIZE) && noff < 0x1_0000_0000 && Fits(m, 12 + Align4(|s| + 1))
    ensures var n := Align4(|s| + 1);
      var y := Put32(Put32(Put32(Gap(m, ip, 12 + n), ip, PROP), ip + 4, |s| + 1), ip + 8, noff);
      y[..ip + 12] + Padded(s, n) + y[ip + 12 + n..] == Splice(m, ip, ip, PropToken(s, noff))
  {
    hide HGet, Be32, Align4, Be32Bytes, Grown, Put32, Padded;
    var n, total := Align4(|s| + 1), HGet(m, H_TOTALSIZE);
    var a, r := Grown(m, 12 + n)[..ip], m[ip..total] + m[total + 12 + n..];
    InsertConcat(a, m[ip..ip + 12 + n], r, |s| + 1, noff, Padded(s, n));
    assert Gap(m, ip, 12 + n) == a + m[ip..ip + 12 + n] + r;
    assert a + PropToken(s, noff) + r == a + PropToken(s, noff) + m[ip..total] + m[total + 12 + n..];
  }

  lemma InsertConcat(a: seq<byte>, g: seq<byte>, r: seq<byte>, need: nat, noff: nat, v: seq<byte>)
    requires |g| == 12 + |v| && need < 0x1_0000_0000 && noff < 0x1_0000_0000
    ensures var ip := |a|; var y := Put32(Put32(Put32(a + g + r, ip, PROP), ip + 4, need), ip + 8, noff);
      y[..ip + 12] + v + y[ip + 12 + |v|..] == a + (Be32Bytes(PROP) + Be32Bytes(need) + Be32Bytes(noff) + v) + r
  {
    hide Be32Bytes, Put32;
    var w1, w2, w3 := Be32Bytes(PROP), Be32Bytes(need), Be32Bytes(noff);
    assert [] + g == g && [] + w1 == w1;
    PutIn(a, [], g, r, PROP);
    PutIn(a, w1, g[4..], r, need);
    PutIn(a, w1 + w2, g[4..][4..], r, noff);
    FillIn(a, w1 + w2 + w3, g[4..][4..][4..], r, v);
  }

  // ---- the walk ---------------------------------------------------------------------------------

  /** What the code reads at the end of the tokens. */
  lemma AtTheEnd(d: seq<byte>, k: nat)
    requires Walkable(d) && k == |ParseItems(Struct(d)).items|
    ensures Pos(d, k) + 4 <= |d|
    ensures var tok := Be32(d, Pos(d, k));
      && (tok == END <==> ParseItems(Struct(d)).ending == AtEnd)
      && tok != NOP && tok != BEGIN_NODE && tok != END_NODE && tok != PROP
  {
    hide ParseItems, Be32, HGet, TokenOffset, NamesOk, Struct, Strings;
    var st := Struct(d);
    var o := TokenOffset(st, k);
    SplitTokens(st, k);
    NoToken(st[o..]);
    StructWord(d, o, 0);
    Be32At(d, st[o..], Pos(d, k), 0);
  }

  lemma NoToken(t: seq<byte>)
    requires ParseItems(t).items == [] && ParseItems(t).ending != AtCut
    ensures |t| >= 4
    ensures var tok := Be32(t, 0);
      && (tok == END <==> ParseItems(t).ending == AtEnd)
      && tok != NOP && tok != BEGIN_NODE && tok != END_NODE && tok != PROP
  {
    hide Be32;
  }

  /** What the code reads at token k, and where it goes on. */
  lemma AtToken(d: seq<byte>, k: nat)
    requires Walkable(d) && k < |ParseItems(Struct(d)).items|
    ensures Pos(d, k) + 4 <= |d|
    ensures match ParseItems(Struct(d)).items[k]
      case Nop => Be32(d, Pos(d, k)) == NOP && Pos(d, k + 1) == Pos(d, k) + 4
      case End => Be32(d, Pos(d, k)) == END_NODE && Pos(d, k + 1) == Pos(d, k) + 4
      case Begin(n) => Be32(d, Pos(d, k)) == BEGIN_NODE && Pos(d, k + 1) == Pos(d, k) + 4 + Align4(|n| + 1)
      case Prop(_, v) => Be32(d, Pos(d, k)) == PROP && Pos(d, k + 1) == Pos(d, k) + 12 + Align4(|v|)
  {
    hide ParseItems, Be32, HGet, TokenOffset, NamesOk, Struct, Strings, ParseToken, Align4;
    var st := Struct(d);
    var o := TokenOffset(st, k);
    TokenThere(st, k);
    TokenShape(st[o..]);
    StructWord(d, o, 0);
    Be32At(d, st[o..], Pos(d, k), 0);
  }

  lemma TokenShape(t: seq<byte>)
    requires ParseToken(t).Token?
    ensures |t| >= 4
    ensures match ParseToken(t).item
      case Nop => Be32(t, 0) == NOP && ParseToken(t).size == 4
      case End => Be32(t, 0) == END_NODE && ParseToken(t).size == 4
      case Begin(n) => Be32(t, 0) == BEGIN_NODE && ParseToken(t).size == 4 + Align4(|n| + 1) && Terminated(t[4..]) && n == CStr(t[4..])
      case Prop(_, v) => Be32(t, 0) == PROP && ParseToken(t).size == 12 + Align4(|v|)
  {
    hide Be32, Align4;
  }

  /** The name of a node, read in the blob. */
  lemma NodeName(d: seq<byte>, k: nat)
    requires Walkable(d) && k < |ParseItems(Struct(d)).items| && ParseItems(Struct(d)).items[k].Begin?
    ensures var p := Pos(d, k) + 4; var n := ParseItems(Struct(d)).items[k].name;
      p <= |d| && Terminated(d[p..]) && StrLen(d[p..]) == |n| && CStr(d[p..]) == n
  {
    hide ParseItems, Be32, HGet, TokenOffset, NamesOk, Strings, ParseToken, Align4, StrLen;
    var st := Struct(d);
    var o := TokenOffset(st, k);
    TokenThere(st, k);
    TokenShape(st[o..]);
    assert st[o..][4..] <= d[Pos(d, k) + 4..];
    CStrLocal(st[o..][4..], d[Pos(d, k) + 4..]);
  }

  /** The words of a property, and its name, read in the blob. */
  lemma PropWords(d: seq<byte>, k: nat)
    requires Walkable(d) && k < |ParseItems(Struct(d)).items| && ParseItems(Struct(d)).items[k].Prop?
    ensures var p := Pos(d, k); p + 12 <= |d|
    ensures var p := Pos(d, k); var x := ParseItems(Struct(d)).items[k];
      Be32(d, p + 4) == |x.value| && Be32(d, p + 8) == x.nameoff
    ensures PropThere(d, k, Pos(d, k))
  {
    hide ParseItems, Be32, HGet, TokenOffset, NamesOk, Strings, ParseToken, Align4, Struct;
    var st := Struct(d);
    var o := TokenOffset(st, k);
    TokenThere(st, k);
    PropShape(st[o..]);
    StructWord(d, o, 4);
    StructWord(d, o, 8);
    Be32At(d, st[o..], Pos(d, k) + 4, 4);
    Be32At(d, st[o..], Pos(d, k) + 8, 8);
  }

  lemma PropName(d: seq<byte>, k: nat)
    requires Walkable(d) && k < |ParseItems(Struct(d)).items| && ParseItems(Struct(d)).items[k].Prop?
    ensures var p := HGet(d, H_OFF_STRINGS) + ParseItems(Struct(d)).items[k].nameoff;
      && p <= |d| && Terminated(d[p..])
      && Resolve(Strings(d), ParseItems(Struct(d)).items)[k].RProp?
      && CStr(d[p..]) == Resolve(Strings(d), ParseItems(Struct(d)).items)[k].name
  {
    hide ParseItems, Be32, HGet, CStr, Terminated;
    var x := ParseItems(Struct(d)).items[k];
    assert NameOk(Strings(d), x.nameoff);
    StringInBlob(d, HGet(d, H_OFF_STRINGS), HGet(d, H_SIZE_STRINGS), x.nameoff);
  }

  /** The walk, as seen from token k on. */
  ghost predicate Walking(d: seq<byte>, k: nat, p: nat, depth: int, inChosen: bool, haveChosen: bool, chosenBody: nat) {
    && Walkable(d) && k <= |ParseItems(Struct(d)).items| && p == Pos(d, k)
    && exists body: Option<nat> :: SlotIs(d, body, haveChosen, chosenBody)
         && Found(d) == Scan(Resolve(Strings(d), ParseItems(Struct(d)).items), k, depth, inChosen, body)
  }

  /** The slot remembered for an insertion. */
  ghost predicate SlotIs(d: seq<byte>, body: Option<nat>, haveChosen: bool, chosenBody: nat)
    requires Layout(d)
  {
    && body.Some? == haveChosen
    && (haveChosen ==> body.value <= |ParseItems(Struct(d)).items| && chosenBody == Pos(d, body.value))
  }

  lemma WalkBegins(d: seq<byte>)
    requires Walkable(d)
    ensures Walking(d, 0, HGet(d, H_OFF_STRUCT), 0, false, false, 0)
  {
    hide HGet, NamesOk, Resolve, Scan, ParseItems;
    assert SlotIs(d, None, false, 0);
  }

  lemma WalkEnds(d: seq<byte>, p: nat, depth: int, inC: bool, have: bool, slot: nat)
    requires Walkable(d) && Walking(d, |ParseItems(Struct(d)).items|, p, depth, inC, have, slot)
    ensures have ==> Found(d).Insert? && Pos(d, Found(d).at) == slot
    ensures !have ==> Found(d).Missing?
  {
    hide HGet, NamesOk, Resolve, ParseItems, Pos;
  }

  /** One token further. */
  lemma WalkOn(d: seq<byte>, k: nat, p: nat, depth: int, inC: bool, have: bool, slot: nat)
    requires Walking(d, k, p, depth, inC, have, slot) && k < |ParseItems(Struct(d)).items|
    ensures match Resolve(Strings(d), ParseItems(Struct(d)).items)[k]
      case RNop => Walking(d, k + 1, Pos(d, k + 1), depth, inC, have, slot)
      case REnd => Walking(d, k + 1, Pos(d, k + 1), depth - 1, false, have, slot)
      case RBegin(n) =>
        (var c := depth + 1 == 2 && n == CHOSEN;
        Walking(d, k + 1, Pos(d, k + 1), depth + 1, c, have || c, if c then Pos(d, k + 1) else slot))
      case RProp(n, _) =>
        if inC && n == BOOTARGS then Found(d) == Replace(k)
        else Walking(d, k + 1, Pos(d, k + 1), depth, inC, have, slot)
  {
    hide HGet, NamesOk, Resolve, ParseItems, Pos, Found;
    var rs := Resolve(Strings(d), ParseItems(Struct(d)).items);
    var body :| SlotIs(d, body, have, slot) && Found(d) == Scan(rs, k, depth, inC, body);
    assert SlotIs(d, Some(k + 1), true, Pos(d, k + 1));
  }

  /** fdt_set_bootargs */
  method SetBootargs(d: array<byte>, s: seq<byte>) returns (code: int)
    requires d.Length >= HEADER
    requires HGet(d[..], 0) == MAGIC && LayoutTest(d[..]) ==> Walkable(d[..]) && Room(d[..], s)
    modifies d
    ensures (code, d[..]) == SetBlob(old(d[..]), s)
  {
    hide Walkable, Room, Found, HGet, SetBlob;
    ghost var o := d[..];
    EarlyOut(o, s);
    var magic := HeaderWord(d, 0);
    if magic != MAGIC {
      return -1;
    }
    var offStruct := HeaderWord(d, H_OFF_STRUCT);
    var offStrings := HeaderWord(d, H_OFF_STRINGS);
    var sizeStrings := HeaderWord(d, H_SIZE_STRINGS);
    var total := HeaderWord(d, H_TOTALSIZE);
    WrapIs(offStrings + sizeStrings);
    if !(offStruct < offStrings && (offStrings + sizeStrings) % 0x1_0000_0000 <= total) {
      return -5;
    }
    code := WalkAndEdit(d, s, |s| + 1, offStruct, offStrings);
  }

  lemma EarlyOut(d: seq<byte>, s: seq<byte>)
    requires |d| >= HEADER && (HGet(d, 0) == MAGIC && LayoutTest(d) ==> Walkable(d) && Room(d, s))
    ensures HGet(d, 0) != MAGIC ==> SetBlob(d, s) == (-1, d)
    ensures HGet(d, 0) == MAGIC && !LayoutTest(d) ==> SetBlob(d, s) == (-5, d)
  {
    hide HGet, LayoutTest, ReplaceAt, InsertBlob, Found;
  }

  lemma WrapIs(x: nat)
    requires x < 0x2_0000_0000
    ensures x % 0x1_0000_0000 == if x < 0x1_0000_0000 then x else x - 0x1_0000_0000
  {
  }

  /** The token loop of fdt_set_bootargs and what follows it. */
  method WalkAndEdit(d: array<byte>, s: seq<byte>, need: nat, offStruct: nat, offStrings: nat) returns (code: int)
    requires Walkable(d[..]) && HGet(d[..], 0) == MAGIC && LayoutTest(d[..]) && Room(d[..], s) && need == |s| + 1
    requires offStruct == HGet(d[..], H_OFF_STRUCT) && offStrings == HGet(d[..], H_OFF_STRINGS)
    modifies d
    ensures (code, d[..]) == SetBlob(old(d[..]), s)
  {
    hide Found, HGet, Walking, Be32, ParseItems, Resolve, Struct, Strings, Pos, Align4, NamesOk, StrLen, CStr, Layout, ReplaceAt, InsertBlob, SetBlob;
    ghost var o := d[..];
    ghost var items := ParseItems(Struct(o)).items;
    var p: nat, depth, inChosen, haveChosen, chosenBody: nat := offStruct, 0, false, false, 0;
    ghost var k := 0;
    SetBlobCases(o, s);
    WalkBegins(o);
    while true
      invariant d[..] == o && k <= |items| && Walking(o, k, p, depth, inChosen, haveChosen, chosenBody)
      decreases |items| - k
    {
      WalkingIs(o, k, p, depth, inChosen, haveChosen, chosenBody);
      if k == |items| {
        AtTheEnd(o, k);
      } else {
        AtToken(o, k);
        WalkOn(o, k, p, depth, inChosen, haveChosen, chosenBody);
      }
      var tokpos := p;
      var tok := Load32(d, p);
      p := p + 4;
      if tok == END { break; }
      if tok == NOP {
      } else if tok == BEGIN_NODE {
        NodeName(o, k);
        depth := depth + 1;
        var n := StrLenAt(d, p);
        var isChosen := StrEqAt(d, p, CHOSEN);
        p := p + Align4(n + 1);
        inChosen := depth == 2 && isChosen;
        if inChosen { haveChosen, chosenBody := true, p; }
      } else if tok == END_NODE {
        inChosen := false;
        depth := depth - 1;
      } else if tok == PROP {
        PropWords(o, k);
        PropName(o, k);
        var len := Load32(d, p);
        var noff := Load32(d, p + 4);
        var valpos := p + 8;
        if inChosen {
          var isBootargs := StrEqAt(d, offStrings + noff, BOOTARGS);
          if isBootargs {
            ReplaceAtIs(o, k, tokpos, s);
            code := ReplaceBootargs(d, tokpos, len, valpos, s, need);
            return;
          }
        }
        p := valpos + Align4(len);
      } else {
        WalkEnds(o, tokpos, depth, inChosen, haveChosen, chosenBody);
        return -3;
      }
      k := k + 1;
    }
    WalkEnds(o, p - 4, depth, inChosen, haveChosen, chosenBody);
    if haveChosen {
      code := InsertBootargs(d, chosenBody, s, need);
    } else {
      code := -4;
    }
  }

  lemma SetBlobCases(d: seq<byte>, s: seq<byte>)
    requires Walkable(d) && HGet(d, 0) == MAGIC && LayoutTest(d) && Room(d, s)
    ensures Found(d).Replace? ==> SetBlob(d, s) == (0, ReplaceAt(d, Found(d).at, s))
    ensures !Found(d).Replace? && ParseItems(Struct(d)).ending != AtEnd ==> SetBlob(d, s) == (-3, d)
    ensures Found(d).Insert? && ParseItems(Struct(d)).ending == AtEnd ==> SetBlob(d, s) == (0, InsertBlob(d, Pos(d, Found(d).at), s))
    ensures Found(d).Missing? && ParseItems(Struct(d)).ending == AtEnd ==> SetBlob(d, s) == (-4, d)
  {
    hide Found, HGet, ParseItems, Struct, Strings, ReplaceAt, InsertBlob, Pos, NamesOk;
  }

  lemma WalkingIs(d: seq<byte>, k: nat, p: nat, depth: int, inC: bool, have: bool, slot: nat)
    requires Walking(d, k, p, depth, inC, have, slot)
    ensures Walkable(d) && k <= |ParseItems(Struct(d)).items| && p == Pos(d, k)
  {
  }
}
