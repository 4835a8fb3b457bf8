/** fdt_set_bootargs as a function of the blob, and what it means for the tree. */
module FdtSet {
  import opened Options
  import opened Fdt
  import opened FdtTree
  import opened FdtBlob
  import opened FdtEdit

  // ---- replacing ------------------------------------------------------------------------------

  lemma ReplaceOk(d: seq<byte>, k: nat, tp: nat, s: seq<byte>)
    requires Layout(d) && PropThere(d, k, tp) && Fits(d, GrowBy(|ParseItems(Struct(d)).items[k].value|, s))
    ensures PropAt(d, tp) && Be32(d, tp + 4) == |ParseItems(Struct(d)).items[k].value|
    ensures Becomes(d, ReplaceBlob(d, tp, s),
                    WithValue(ParseItems(Struct(d)), k, NewValue(ParseItems(Struct(d)).items[k].value, s)))
  {
    hide Becomes, ReplaceBlob, ParseItems, Be32, HGet, Align4, Struct, Padded, TokenOffset;
    TokenInBlob(d, k, tp);
    if Align4(|s| + 1) > Align4(Be32(d, tp + 4)) {
      GrowOk(d, k, tp, s);
    } else {
      FitOk(d, k, tp, s);
    }
  }

  // ---- names ----------------------------------------------------------------------------------

  /** strings_find: the first entry that is "bootargs", entries being what follows a NUL. */
  function FindString(strs: seq<byte>, i: nat): (r: Option<nat>)
    ensures r.Some? ==> i <= r.value < |strs| && CStr(strs[r.value..]) == BOOTARGS
    decreases |strs| - i
  {
    if i >= |strs| then None
    else if CStr(strs[i..]) == BOOTARGS then Some(i)
    else FindString(strs, i + StrLen(strs[i..]) + 1)
  }

  /** An entry of the strings block begins at i. */
  predicate EntryAt(strs: seq<byte>, i: nat) {
    i < |strs| && (i == 0 || strs[i - 1] == 0)
  }

  /** A search that fails has passed every entry. */
  lemma {:induction false} FindStringNone(strs: seq<byte>, i: nat, e: nat)
    requires FindString(strs, i).None? && EntryAt(strs, e) && i <= e
    ensures CStr(strs[e..]) != BOOTARGS
    decreases |strs| - i
  {
    if i < e {
      assert strs[i..][e - 1 - i] == 0;
      FindStringNone(strs, i + StrLen(strs[i..]) + 1, e);
    }
  }

  const ENTRY: seq<byte> := BOOTARGS + [0]

  /** strings_append of "bootargs". */
  function AppendBlob(d: seq<byte>): (e: seq<byte>)
    requires Layout(d) && Fits(d, |ENTRY|)
    ensures |e| == |d|
  {
    var end := HGet(d, H_OFF_STRINGS) + HGet(d, H_SIZE_STRINGS);
    var w := d[..end] + ENTRY + d[end + |ENTRY|..];
    Put32(Put32(w, 32, HGet(d, H_SIZE_STRINGS) + |ENTRY|), 4, HGet(d, H_TOTALSIZE) + |ENTRY|)
  }

  lemma AppendReads(d: seq<byte>, w: nat)
    requires Layout(d) && Fits(d, |ENTRY|)
    requires w < 10
    ensures HGet(AppendBlob(d), w) == HGet(d, w) + if w == H_TOTALSIZE || w == H_SIZE_STRINGS then |ENTRY| else 0
  {
    hide Be32, Put32;
    var end := HGet(d, H_OFF_STRINGS) + HGet(d, H_SIZE_STRINGS);
    var d1 := d[..end] + ENTRY + d[end + |ENTRY|..];
    var d2 := Put32(d1, 32, HGet(d, H_SIZE_STRINGS) + |ENTRY|);
    assert d1[4 * w..4 * w + 4] == d[4 * w..4 * w + 4];
    Be32At(d1, d, 4 * w, 4 * w);
    Put32Reads(d1, 32, HGet(d, H_SIZE_STRINGS) + |ENTRY|, 4 * w);
    Put32Reads(d2, 4, HGet(d, H_TOTALSIZE) + |ENTRY|, 4 * w);
  }

  /** Outside the header only the bytes behind the strings block change. */
  lemma AppendSlices(d: seq<byte>)
    requires Layout(d) && Fits(d, |ENTRY|)
    ensures var end := HGet(d, H_OFF_STRINGS) + HGet(d, H_SIZE_STRINGS);
      AppendBlob(d)[HEADER..] == d[HEADER..end] + ENTRY + d[end + |ENTRY|..]
  {
    hide HGet, Be32Bytes;
  }

  lemma AppendBlocks(d: seq<byte>)
    requires Layout(d) && Fits(d, |ENTRY|)
    ensures var e := AppendBlob(d); Kept(d, e) && Struct(e) == Struct(d) && Strings(e) == Strings(d) + ENTRY
    ensures HGet(AppendBlob(d), H_TOTALSIZE) == HGet(d, H_TOTALSIZE) + |ENTRY|
  {
    hide HGet, AppendBlob;
    AppendReads(d, 0);
    AppendReads(d, H_TOTALSIZE);
    AppendReads(d, H_OFF_STRUCT);
    AppendReads(d, H_OFF_STRINGS);
    AppendReads(d, H_SIZE_STRINGS);
    AppendReads(d, H_SIZE_STRUCT);
    AppendSlices(d);
    var e, os, n, f, z := AppendBlob(d), HGet(d, H_OFF_STRUCT), HGet(d, H_SIZE_STRUCT), HGet(d, H_OFF_STRINGS), HGet(d, H_SIZE_STRINGS);
    PastHeader(d, e, f + z, HEADER, os);
    PastHeader(d, e, f + z, os, os + n);
    PastHeader(d, e, f + z, f, f + z);
    assert e[f..f + z + |ENTRY|] == e[f..f + z] + e[f + z..f + z + |ENTRY|];
  }

  lemma PastHeader(d: seq<byte>, e: seq<byte>, end: nat, i: nat, j: nat)
    requires HEADER <= i <= j <= end && end + |ENTRY| <= |d| == |e|
    requires e[HEADER..] == d[HEADER..end] + ENTRY + d[end + |ENTRY|..]
    ensures e[i..j] == d[i..j] && e[end..end + |ENTRY|] == ENTRY
  {
    var r := e[HEADER..];
    forall x | i <= x < j
      ensures e[x] == d[x]
    {
      assert r[x - HEADER] == e[x];
    }
    forall x | 0 <= x < |ENTRY|
      ensures e[end + x] == ENTRY[x]
    {
      assert r[end - HEADER + x] == e[end + x];
    }
  }

  // ---- inserting ------------------------------------------------------------------------------

  /** How much the strings block grows to hold "bootargs": not at all when it is there. */
  function NameBy(d: seq<byte>): (n: nat)
    requires Layout(d)
  {
    if FindString(Strings(d), 0).Some? then 0 else |ENTRY|
  }

  /** The blob with "bootargs" in its strings block, and where it is there. */
  function Named(d: seq<byte>): (r: (seq<byte>, nat))
    requires Layout(d) && Fits(d, NameBy(d))
  {
    match FindString(Strings(d), 0)
    case Some(i) => (d, i)
    case None => (AppendBlob(d), |Strings(d)|)
  }

  lemma NamedOk(d: seq<byte>)
    requires Layout(d) && Fits(d, NameBy(d))
    requires EndsInNul(Strings(d))
    ensures var (e, noff) := Named(d);
      && Kept(d, e) && Struct(e) == Struct(d) && Strings(d) <= Strings(e) && EndsInNul(Strings(e))
      && NameOk(Strings(e), noff) && CStr(Strings(e)[noff..]) == BOOTARGS && noff < 0x1_0000_0000
      && |e| == |d| && HGet(e, H_TOTALSIZE) == HGet(d, H_TOTALSIZE) + NameBy(d)
  {
    hide HGet, AppendBlob, Struct, CStr, StrLen, FindString;
    var strs := Strings(d);
    match FindString(strs, 0) {
      case Some(i) => NulAhead(strs, i);
      case None =>
        AppendBlocks(d);
        NewEntry(strs);
    }
  }

  lemma NewEntry(strs: seq<byte>)
    ensures EndsInNul(strs + ENTRY) && NameOk(strs + ENTRY, |strs|) && CStr((strs + ENTRY)[|strs|..]) == BOOTARGS
  {
    assert (strs + ENTRY)[|strs|..] == ENTRY;
    StrLenIs(ENTRY, |BOOTARGS|);
  }

  lemma NulAhead(strs: seq<byte>, i: nat)
    requires EndsInNul(strs) && i < |strs|
    ensures NameOk(strs, i)
  {
    assert strs[i..][|strs| - 1 - i] == 0;
  }

  /** What an insertion adds to the blob. */
  function InsertBy(d: seq<byte>, s: seq<byte>): (n: nat)
    requires Layout(d)
  {
    NameBy(d) + 12 + Align4(|s| + 1)
  }

  /** fdt_insert_bootargs */
  function InsertBlob(d: seq<byte>, ip: nat, s: seq<byte>): (e: seq<byte>)
    requires Layout(d) && Fits(d, InsertBy(d, s)) && EndsInNul(Strings(d))
    requires HGet(d, H_OFF_STRUCT) <= ip <= HGet(d, H_OFF_STRUCT) + HGet(d, H_SIZE_STRUCT)
    ensures |e| == |d|
  {
    NamedOk(d);
    var (e, noff) := Named(d);
    Splice(e, ip, ip, PropToken(s, noff))
  }

  /** e is d with one property, named bootargs, before token k, and perhaps that name added. */
  predicate Gains(d: seq<byte>, e: seq<byte>, k: nat, s: seq<byte>)
    requires Layout(d) && k <= |ParseItems(Struct(d)).items| && Fits(d, NameBy(d))
  {
    var (m, noff) := Named(d);
    var its := ParseItems(Struct(d));
    && Kept(d, e) && Layout(m) && Strings(e) == Strings(m)
    && ParseItems(Struct(e)) == Items(its.items[..k] + [Prop(noff, s + [0])] + its.items[k..], its.ending)
  }

  lemma InsertOk(d: seq<byte>, k: nat, ip: nat, s: seq<byte>)
    requires Layout(d) && Fits(d, InsertBy(d, s)) && EndsInNul(Strings(d)) && k <= |ParseItems(Struct(d)).items|
    requires HGet(d, H_OFF_STRUCT) <= ip <= HGet(d, H_OFF_STRUCT) + HGet(d, H_SIZE_STRUCT)
    requires ip == HGet(d, H_OFF_STRUCT) + TokenOffset(Struct(d), k)
    ensures Gains(d, InsertBlob(d, ip, s), k, s)
  {
    hide ParseToken, ParseItems, TokenOffset, Be32, HGet, Splice, Struct, Strings, Named, PropToken, Align4;
    NamedOk(d);
    var (m, noff) := Named(d);
    var tok := PropToken(s, noff);
    SpliceBlocks(m, ip, ip, tok);
    PropTokenParses(s, noff);
    InsertToken(Struct(d), k, tok, Prop(noff, s + [0]));
  }

  // ---- the whole edit -----------------------------------------------------------------------

  /** A well-formed blob: the tokens of the structure block end inside it and their names are there.
      What it may still lack is an END token (ending AtBad), /chosen, or bootargs. */
  predicate Walkable(d: seq<byte>) {
    && Layout(d) && EndsInNul(Strings(d)) && ParseItems(Struct(d)).ending != AtCut
    && NamesOk(Strings(d), ParseItems(Struct(d)).items)
  }

  /** The layout test of fdt_set_bootargs, its sum taken modulo 2^32. */
  predicate LayoutTest(d: seq<byte>)
    requires |d| >= HEADER
  {
    var e := HGet(d, H_OFF_STRINGS) + HGet(d, H_SIZE_STRINGS);
    HGet(d, H_OFF_STRUCT) < HGet(d, H_OFF_STRINGS)
    && (if e < 0x1_0000_0000 then e else e - 0x1_0000_0000) <= HGet(d, H_TOTALSIZE)
  }

  function Found(d: seq<byte>): (r: Place)
    requires Walkable(d)
    ensures r.Replace? ==> r.at < |ParseItems(Struct(d)).items| && ParseItems(Struct(d)).items[r.at].Prop?
    ensures r.Insert? ==> r.at <= |ParseItems(Struct(d)).items|
  {
    var rs := Resolve(Strings(d), ParseItems(Struct(d)).items);
    ScanBounds(rs, 0, 0, false, None);
    Scan(rs, 0, 0, false, None)
  }

  function Pos(d: seq<byte>, k: nat): (p: nat)
    requires Layout(d) && k <= |ParseItems(Struct(d)).items|
    ensures HGet(d, H_OFF_STRUCT) <= p <= HGet(d, H_OFF_STRUCT) + HGet(d, H_SIZE_STRUCT)
  {
    HGet(d, H_OFF_STRUCT) + TokenOffset(Struct(d), k)
  }

  /** The walk answers with a position it has seen. */
  lemma ScanBounds(rs: seq<RItem>, k: nat, depth: int, inC: bool, body: Option<nat>)
    requires k <= |rs| && (body.Some? ==> body.value <= |rs|)
    ensures var r := Scan(rs, k, depth, inC, body);
      && (r.Replace? ==> k <= r.at < |rs| && rs[r.at].RProp? && rs[r.at].name == BOOTARGS)
      && (r.Insert? ==> r.at <= |rs|)
    decreases |rs| - k
  {
  }

  /** There is room for the edit the walk ends in. */
  predicate Room(d: seq<byte>, s: seq<byte>)
    requires Walkable(d)
  {
    var its := ParseItems(Struct(d)).items;
    match Found(d)
    case Replace(k) => Fits(d, GrowBy(|its[k].value|, s))
    case Insert(_) => ParseItems(Struct(d)).ending == AtEnd ==> Fits(d, InsertBy(d, s))
    case Missing => true
  }

  /** The blob with token k's value replaced. */
  function ReplaceAt(d: seq<byte>, k: nat, s: seq<byte>): (e: seq<byte>)
    requires Layout(d) && k < |ParseItems(Struct(d)).items| && ParseItems(Struct(d)).items[k].Prop?
  {
    var tp := Pos(d, k);
    if PropAt(d, tp) && Fits(d, GrowBy(Be32(d, tp + 4), s)) then ReplaceBlob(d, tp, s) else d
  }

  /** With room for the growth, that is fdt_replace_bootargs. */
  lemma ReplaceAtIs(d: seq<byte>, k: nat, tp: nat, s: seq<byte>)
    requires Layout(d) && PropThere(d, k, tp) && Fits(d, GrowBy(|ParseItems(Struct(d)).items[k].value|, s))
    ensures PropAt(d, tp) && Fits(d, GrowBy(Be32(d, tp + 4), s))
    ensures ReplaceAt(d, k, s) == ReplaceBlob(d, tp, s)
  {
    hide ParseItems, Be32, HGet, Align4, Struct, TokenOffset, Fits, GrowBy, ReplaceBlob;
    TokenInBlob(d, k, tp);
  }

  /** fdt_set_bootargs: the returned code and the blob afterwards. */
  function SetBlob(d: seq<byte>, s: seq<byte>): (r: (int, seq<byte>))
    requires |d| >= HEADER
    requires HGet(d, 0) == MAGIC && LayoutTest(d) ==> Walkable(d) && Room(d, s)
    ensures -5 <= r.0 <= 0 && (r.0 != 0 ==> r.1 == d)
  {
    if HGet(d, 0) != MAGIC then (-1, d)
    else if !LayoutTest(d) then (-5, d)
    else if Found(d).Replace? then (0, ReplaceAt(d, Found(d).at, s))
    else if ParseItems(Struct(d)).ending != AtEnd then (-3, d)
    else if Found(d).Insert? then (0, InsertBlob(d, Pos(d, Found(d).at), s))
    else (-4, d)
  }
}
