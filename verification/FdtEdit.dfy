/** What fdt_set_bootargs makes of a blob, as a function of the blob and the command line. */
module FdtEdit {
  import opened Fdt
  import opened FdtBlob

  // ---- tokens by position -------------------------------------------------------------------

  /** Where token k of the structure block begins. */
  function TokenOffset(st: seq<byte>, k: nat): (o: nat)
    requires k <= |ParseItems(st).items|
    ensures o <= |st|
    decreases k
  {
    if k == 0 then 0
    else ParseToken(st).size + TokenOffset(st[ParseToken(st).size..], k - 1)
  }

  /** The block splits there into the first k tokens and the others. */
  lemma {:induction false} SplitTokens(st: seq<byte>, k: nat)
    requires k <= |ParseItems(st).items|
    ensures Spells(st[..TokenOffset(st, k)], ParseItems(st).items[..k])
    ensures ParseItems(st[TokenOffset(st, k)..]) == Items(ParseItems(st).items[k..], ParseItems(st).ending)
    decreases k
  {
    hide ParseToken, ParseItems, Spells;
    var xs := ParseItems(st).items;
    if k == 0 {
      SpellsNothing();
      assert st[0..] == st && xs[0..] == xs;
    } else {
      ItemsStep(st);
      var t := ParseToken(st);
      var rest, o := st[t.size..], TokenOffset(st[t.size..], k - 1);
      SplitTokens(rest, k - 1);
      assert st[..t.size + o] == st[..t.size] + rest[..o] && st[t.size + o..] == rest[o..];
      TokenAlone(st);
      SpellsFront(st[..t.size], t.item, rest[..o], xs[1..][..k - 1]);
      assert xs[..k] == [t.item] + xs[1..][..k - 1] && xs[k..] == xs[1..][k - 1..];
    }
  }

  lemma ItemsStep(st: seq<byte>)
    requires ParseItems(st).items != []
    ensures ParseToken(st).Token?
    ensures var t := ParseToken(st); var rest := ParseItems(st[t.size..]);
      ParseItems(st).items[0] == t.item && ParseItems(st).items[1..] == rest.items && ParseItems(st).ending == rest.ending
  {
    hide ParseToken;
  }

  lemma SpellsNothing()
    ensures Spells([], [])
  {
  }

  lemma SpellsFront(c: seq<byte>, x: Item, bs: seq<byte>, xs: seq<Item>)
    requires ParseToken(c) == Token(x, |c|) && Spells(bs, xs)
    ensures Spells(c + bs, [x] + xs)
  {
    hide ParseToken;
    TokenLocal(c, bs);
    assert (c + bs)[|c|..] == bs && ([x] + xs)[1..] == xs;
  }

  /** The k-th token in place. */
  lemma TokenThere(st: seq<byte>, k: nat)
    requires k < |ParseItems(st).items|
    ensures ParseToken(st[TokenOffset(st, k)..]).Token?
    ensures ParseToken(st[TokenOffset(st, k)..]).item == ParseItems(st).items[k]
    ensures TokenOffset(st, k + 1) == TokenOffset(st, k) + ParseToken(st[TokenOffset(st, k)..]).size
    decreases k
  {
    hide ParseToken;
    if k == 0 {
      assert st[0..] == st;
      assert TokenOffset(st, 1) == ParseToken(st).size + TokenOffset(st[ParseToken(st).size..], 0);
    } else {
      var n := ParseToken(st).size;
      var rest := st[n..];
      assert ParseItems(st).items[1..] == ParseItems(rest).items;
      TokenThere(rest, k - 1);
      assert rest[TokenOffset(rest, k - 1)..] == st[TokenOffset(st, k)..];
    }
  }

  /** Other bytes in the place of token k: another token there, the rest unchanged. */
  lemma ReplaceToken(st: seq<byte>, k: nat, tok: seq<byte>, x: Item)
    requires k < |ParseItems(st).items| && ParseToken(tok) == Token(x, |tok|)
    ensures var o, p := TokenOffset(st, k), TokenOffset(st, k + 1);
      ParseItems(st[..o] + tok + st[p..]) == Items(ParseItems(st).items[k := x], ParseItems(st).ending)
  {
    hide ParseToken, ParseItems, TokenOffset, Spells;
    var o, p, xs := TokenOffset(st, k), TokenOffset(st, k + 1), ParseItems(st).items;
    SplitTokens(st, k);
    SplitTokens(st, k + 1);
    SpellsAppend(st[..o], xs[..k], tok, x);
    SpellsThen(st[..o] + tok, xs[..k] + [x], st[p..]);
    assert (xs[..k] + [x]) + xs[k + 1..] == xs[k := x];
  }

  lemma InsertToken(st: seq<byte>, k: nat, tok: seq<byte>, x: Item)
    requires k <= |ParseItems(st).items| && ParseToken(tok) == Token(x, |tok|)
    ensures var o := TokenOffset(st, k); var xs := ParseItems(st).items;
      ParseItems(st[..o] + tok + st[o..]) == Items(xs[..k] + [x] + xs[k..], ParseItems(st).ending)
  {
    hide ParseToken, ParseItems, TokenOffset, Spells;
    var o, xs := TokenOffset(st, k), ParseItems(st).items;
    SplitTokens(st, k);
    SpellsAppend(st[..o], xs[..k], tok, x);
    SpellsThen(st[..o] + tok, xs[..k] + [x], st[o..]);
  }

  // ---- the value and the property token -----------------------------------------------------

  /** n bytes of the NUL-terminated string s, filled up with NULs. */
  function Padded(s: seq<byte>, n: nat): (v: seq<byte>)
    ensures |v| == n && forall i :: 0 <= i < n ==> v[i] == if i < |s| then s[i] else 0
  {
    seq(n, i => if 0 <= i < |s| then s[i] else 0)
  }

  function PropToken(s: seq<byte>, noff: nat): (tok: seq<byte>)
    requires |s| + 1 < 0x1_0000_0000 && noff < 0x1_0000_0000
    ensures |tok| == 12 + Align4(|s| + 1)
  {
    Be32Bytes(PROP) + Be32Bytes(|s| + 1) + Be32Bytes(noff) + Padded(s, Align4(|s| + 1))
  }

  lemma ThreeWords(a: nat, b: nat, c: nat, rest: seq<byte>)
    requires a < 0x1_0000_0000 && b < 0x1_0000_0000 && c < 0x1_0000_0000
    ensures var d := Be32Bytes(a) + Be32Bytes(b) + Be32Bytes(c) + rest;
      Be32(d, 0) == a && Be32(d, 4) == b && Be32(d, 8) == c && d[12..] == rest
  {
    hide Be32, Be32Bytes;
    var d := Be32Bytes(a) + Be32Bytes(b) + Be32Bytes(c) + rest;
    Be32RoundTrip(a, []);
    Be32RoundTrip(b, []);
    Be32RoundTrip(c, []);
    assert d[0..4] == (Be32Bytes(a) + [])[0..4] && d[4..8] == (Be32Bytes(b) + [])[0..4] && d[8..12] == (Be32Bytes(c) + [])[0..4];
    Be32At(d, Be32Bytes(a) + [], 0, 0);
    Be32At(d, Be32Bytes(b) + [], 4, 0);
    Be32At(d, Be32Bytes(c) + [], 8, 0);
  }

  lemma PropTokenParses(s: seq<byte>, noff: nat)
    requires |s| + 1 < 0x1_0000_0000 && noff < 0x1_0000_0000
    ensures ParseToken(PropToken(s, noff)) == Token(Prop(noff, s + [0]), |PropToken(s, noff)|)
  {
    hide Be32, Be32Bytes, Padded;
    var v := Padded(s, Align4(|s| + 1));
    ThreeWords(PROP, |s| + 1, noff, v);
    var d := PropToken(s, noff);
    assert d[12..12 + (|s| + 1)] == v[..|s| + 1];
    assert v[..|s| + 1] == s + [0];
  }

  // ---- replacing the value ------------------------------------------------------------------

  /** The value fdt_replace_bootargs leaves: the whole string when it had to grow, else as much of it
      as the old length holds. */
  function NewValue(was: seq<byte>, s: seq<byte>): seq<byte> {
    if Align4(|s| + 1) > Align4(|was|) then s + [0] else Padded(s, |was|)
  }

  /** The old value's padding is big enough for the new one, but its length is not. */
  predicate SamePaddingCorner(was: seq<byte>, s: seq<byte>) {
    |was| < |s| + 1 <= Align4(|was|)
  }

  /** The new value begins with the NUL-terminated command line exactly outside that corner. */
  lemma NewValueIsCString(was: seq<byte>, s: seq<byte>)
    ensures s + [0] <= NewValue(was, s) <==> !SamePaddingCorner(was, s)
  {
    if |was| >= |s| + 1 {
      var v := Padded(s, |was|);
      assert v[..|s| + 1] == s + [0];
      AlignMono(|s| + 1, |was|);
    } else if SamePaddingCorner(was, s) {
      assert |NewValue(was, s)| == |was|;
    }
  }

  lemma AlignMono(x: nat, y: nat)
    requires x <= y
    ensures Align4(x) <= Align4(y)
  {
  }

  /** There is room for n more bytes behind the blob. */
  predicate Fits(d: seq<byte>, n: nat)
    requires |d| >= HEADER
  {
    HGet(d, H_TOTALSIZE) + n <= |d| && HGet(d, H_TOTALSIZE) + n < 0x1_0000_0000
  }

  /** What replacing a value of len bytes adds to the blob. */
  function GrowBy(len: nat, s: seq<byte>): (n: nat) {
    if Align4(|s| + 1) > Align4(len) then Align4(|s| + 1) - Align4(len) else 0
  }

  /** tp is the position of a PROP token with all its bytes inside the structure block. */
  predicate PropAt(d: seq<byte>, tp: nat)
    requires Layout(d)
  {
    var os, n := HGet(d, H_OFF_STRUCT), HGet(d, H_SIZE_STRUCT);
    os <= tp && tp + 12 <= os + n && tp + 12 + Align4(Be32(d, tp + 4)) <= os + n
  }

  /** fdt_replace_bootargs */
  function ReplaceBlob(d: seq<byte>, tp: nat, s: seq<byte>): (e: seq<byte>)
    requires Layout(d) && PropAt(d, tp) && Fits(d, GrowBy(Be32(d, tp + 4), s))
    ensures |e| == |d|
  {
    var len, vp, need := Be32(d, tp + 4), tp + 12, |s| + 1;
    if Align4(need) > Align4(len) then
      Splice(d, tp + 4, vp + Align4(len), Be32Bytes(need) + d[tp + 8..vp] + Padded(s, Align4(need)))
    else d[..vp] + Padded(s, len) + d[vp + len..]
  }

  lemma PropShape(t: seq<byte>)
    requires ParseToken(t).Token? && ParseToken(t).item.Prop?
    ensures |t| >= 12 && Be32(t, 0) == PROP && 12 + Align4(Be32(t, 4)) <= |t|
    ensures ParseToken(t) == Token(Prop(Be32(t, 8), t[12..12 + Be32(t, 4)]), 12 + Align4(Be32(t, 4)))
  {
    hide Be32;
  }

  lemma PropParses(t: seq<byte>, noff: nat, len: nat)
    requires |t| >= 12 && Be32(t, 0) == PROP && Be32(t, 4) == len && Be32(t, 8) == noff && |t| == 12 + Align4(len)
    ensures ParseToken(t) == Token(Prop(noff, t[12..12 + len]), |t|)
  {
    hide Be32;
  }

  /** The token with its length word and value replaced. */
  lemma GrownToken(t: seq<byte>, s: seq<byte>)
    requires ParseToken(t).Token? && ParseToken(t).item.Prop? && |s| + 1 < 0x1_0000_0000
    ensures var tok := t[..4] + (Be32Bytes(|s| + 1) + t[8..12] + Padded(s, Align4(|s| + 1)));
      ParseToken(tok) == Token(Prop(ParseToken(t).item.nameoff, s + [0]), |tok|)
  {
    hide Be32, Be32Bytes, ParseToken, Padded;
    PropShape(t);
    var v := Padded(s, Align4(|s| + 1));
    var tok := t[..4] + (Be32Bytes(|s| + 1) + t[8..12] + v);
    Be32At(tok, t, 0, 0);
    assert tok[4..8] == Be32Bytes(|s| + 1) && tok[8..12] == t[8..12];
    Be32At(tok, t, 8, 8);
    Be32RoundTrip(|s| + 1, []);
    assert tok[4..8] == (Be32Bytes(|s| + 1) + [])[0..4];
    Be32At(tok, Be32Bytes(|s| + 1) + [], 4, 0);
    PropParses(tok, Be32(t, 8), |s| + 1);
    assert tok[12..12 + (|s| + 1)] == v[..|s| + 1];
    assert v[..|s| + 1] == s + [0];
  }

  /** The token with its value overwritten in place. */
  lemma FittedToken(t: seq<byte>, s: seq<byte>)
    requires ParseToken(t).Token? && ParseToken(t).item.Prop?
    ensures var len := |ParseToken(t).item.value|; var n := ParseToken(t).size;
      && 12 + len <= n <= |t|
      && var tok := t[..12] + Padded(s, len) + t[12 + len..n];
         ParseToken(tok) == Token(Prop(ParseToken(t).item.nameoff, Padded(s, len)), |tok|)
  {
    hide Be32, ParseToken, Padded;
    PropShape(t);
    var len, n := Be32(t, 4), ParseToken(t).size;
    var tok := t[..12] + Padded(s, len) + t[12 + len..n];
    assert tok[0..4] == t[0..4] && tok[4..8] == t[4..8] && tok[8..12] == t[8..12];
    Be32At(tok, t, 0, 0);
    Be32At(tok, t, 4, 4);
    Be32At(tok, t, 8, 8);
    PropParses(tok, Be32(t, 8), len);
    assert tok[12..12 + len] == Padded(s, len);
  }

  /** What the edit keeps in any case. */
  predicate Kept(d: seq<byte>, e: seq<byte>)
    requires Layout(d)
  {
    && Layout(e) && HGet(e, 0) == HGet(d, 0) && HGet(e, H_OFF_STRUCT) == HGet(d, H_OFF_STRUCT)
    && e[HEADER..HGet(d, H_OFF_STRUCT)] == d[HEADER..HGet(d, H_OFF_STRUCT)]
  }

  lemma InBlob(d: seq<byte>, os: nat, n: nat, o: nat, i: nat, j: nat)
    requires os + n <= |d| && i <= j && o + j <= n
    ensures d[os + o + i..os + o + j] == d[os..os + n][o..][i..j]
  {
    var st, l := d[os..os + n], d[os + o + i..os + o + j];
    assert st[o..][i..j] == st[o + i..o + j];
    forall x | 0 <= x < j - i
      ensures st[o + i..o + j][x] == l[x]
    {
      assert st[o + i..o + j][x] == st[o + i + x];
    }
  }

  lemma StructWord(d: seq<byte>, o: nat, i: nat)
    requires Layout(d) && o + i + 4 <= |Struct(d)|
    ensures var tp := HGet(d, H_OFF_STRUCT) + o; tp + i + 4 <= |d| && d[tp + i..tp + i + 4] == Struct(d)[o..][i..i + 4]
  {
    hide HGet;
    InBlob(d, HGet(d, H_OFF_STRUCT), |Struct(d)|, o, i, i + 4);
  }

  lemma Rejoin(st: seq<byte>, o: nat, i: nat, mid: seq<byte>, p: nat)
    requires o + i <= |st| && p <= |st|
    ensures st[..o + i] + mid + st[p..] == st[..o] + (st[o..][..i] + mid) + st[p..]
  {
    assert st[..o + i] == st[..o] + st[o..][..i];
  }

  lemma RejoinFit(st: seq<byte>, o: nat, v: seq<byte>, p: nat)
    requires o + 12 + |v| <= p <= |st|
    ensures st[..o + 12] + v + st[o + 12 + |v|..] == st[..o] + (st[o..][..12] + v + st[o..][12 + |v|..p - o]) + st[p..]
  {
    assert st[..o + 12] == st[..o] + st[o..][..12];
    assert st[o + 12 + |v|..] == st[o..][12 + |v|..p - o] + st[p..];
  }

  /** e is d with the tokens its, the same strings, and whatever any edit keeps. */
  predicate Becomes(d: seq<byte>, e: seq<byte>, its: Items)
    requires Layout(d)
  {
    Kept(d, e) && Strings(e) == Strings(d) && ParseItems(Struct(e)) == its
  }

  /** tp is where token k, a property, begins. */
  predicate PropThere(d: seq<byte>, k: nat, tp: nat)
    requires Layout(d)
  {
    && k < |ParseItems(Struct(d)).items| && ParseItems(Struct(d)).items[k].Prop?
    && tp == HGet(d, H_OFF_STRUCT) + TokenOffset(Struct(d), k)
  }

  /** A property token of the block, found in the blob. */
  lemma TokenInBlob(d: seq<byte>, k: nat, tp: nat)
    requires Layout(d) && PropThere(d, k, tp)
    ensures PropAt(d, tp)
    ensures Be32(d, tp + 4) == |ParseItems(Struct(d)).items[k].value|
    ensures TokenOffset(Struct(d), k + 1) == TokenOffset(Struct(d), k) + 12 + Align4(Be32(d, tp + 4))
  {
    hide ParseToken, ParseItems, TokenOffset, Be32, HGet, Align4, Struct;
    var st := Struct(d);
    var o := TokenOffset(st, k);
    TokenThere(st, k);
    PropShape(st[o..]);
    StructWord(d, o, 4);
    Be32At(d, st[o..], tp + 4, 4);
  }

  function WithValue(its: Items, k: nat, v: seq<byte>): Items
    requires k < |its.items| && its.items[k].Prop?
  {
    Items(its.items[k := its.items[k].(value := v)], its.ending)
  }

  lemma GrowOk(d: seq<byte>, k: nat, tp: nat, s: seq<byte>)
    requires Layout(d) && PropAt(d, tp) && Fits(d, GrowBy(Be32(d, tp + 4), s)) && PropThere(d, k, tp)
    requires Align4(|s| + 1) > Align4(Be32(d, tp + 4))
    ensures Becomes(d, ReplaceBlob(d, tp, s), WithValue(ParseItems(Struct(d)), k, s + [0]))
  {
    hide ParseToken, ParseItems, TokenOffset, Be32, HGet, Splice, Be32Bytes, Padded, Align4, Struct, Strings;
    var st, os := Struct(d), HGet(d, H_OFF_STRUCT);
    var o := TokenOffset(st, k);
    var t := st[o..];
    TokenThere(st, k);
    TokenInBlob(d, k, tp);
    var p := TokenOffset(st, k + 1);
    StructWord(d, o, 8);
    var mid := Be32Bytes(|s| + 1) + d[tp + 8..tp + 12] + Padded(s, Align4(|s| + 1));
    SpliceBlocks(d, tp + 4, os + p, mid);
    GrownToken(t, s);
    Rejoin(st, o, 4, mid, p);
    ReplaceToken(st, k, t[..4] + mid, ParseItems(st).items[k].(value := s + [0]));
  }

  lemma FitIs(d: seq<byte>, tp: nat, s: seq<byte>)
    requires Layout(d) && PropAt(d, tp) && Fits(d, GrowBy(Be32(d, tp + 4), s)) && Align4(|s| + 1) <= Align4(Be32(d, tp + 4))
    ensures var v := Padded(s, Be32(d, tp + 4)); ReplaceBlob(d, tp, s) == d[..tp + 12] + v + d[tp + 12 + |v|..]
  {
    hide Be32, HGet, Align4, Padded, Splice;
  }

  lemma FitOk(d: seq<byte>, k: nat, tp: nat, s: seq<byte>)
    requires Layout(d) && PropAt(d, tp) && Fits(d, GrowBy(Be32(d, tp + 4), s)) && PropThere(d, k, tp)
    requires Align4(|s| + 1) <= Align4(Be32(d, tp + 4))
    ensures Becomes(d, ReplaceBlob(d, tp, s), WithValue(ParseItems(Struct(d)), k, Padded(s, Be32(d, tp + 4))))
  {
    hide ParseToken, ParseItems, TokenOffset, Be32, HGet, Splice, Be32Bytes, Padded, Align4, Struct, Strings, ReplaceBlob;
    var st, os := Struct(d), HGet(d, H_OFF_STRUCT);
    var o := TokenOffset(st, k);
    var t := st[o..];
    TokenThere(st, k);
    TokenInBlob(d, k, tp);
    var p, len := TokenOffset(st, k + 1), Be32(d, tp + 4);
    var v := Padded(s, len);
    FittedToken(t, s);
    FitIs(d, tp, s);
    OverwriteBlocks(d, tp + 12, v);
    RejoinFit(st, o, v, p);
    ReplaceToken(st, k, t[..12] + v + t[12 + len..p - o], ParseItems(st).items[k].(value := v));
  }

  /** Overwriting bytes inside the structure block changes just them. */
  lemma OverwriteBlocks(d: seq<byte>, a: nat, v: seq<byte>)
    requires Layout(d) && HGet(d, H_OFF_STRUCT) <= a && a + |v| <= HGet(d, H_OFF_STRUCT) + HGet(d, H_SIZE_STRUCT)
    ensures var e, os := d[..a] + v + d[a + |v|..], HGet(d, H_OFF_STRUCT);
      && Kept(d, e) && Strings(e) == Strings(d)
      && Struct(e) == Struct(d)[..a - os] + v + Struct(d)[a - os + |v|..]
  {
    hide Be32, HGet;
    var e, os, n := d[..a] + v + d[a + |v|..], HGet(d, H_OFF_STRUCT), HGet(d, H_SIZE_STRUCT);
    var f, z := HGet(d, H_OFF_STRINGS), HGet(d, H_SIZE_STRINGS);
    SameHeader(d, e);
    Overwritten(d, a, v, f, f + z);
    Overwritten(d, a, v, HEADER, os);
    assert e[os..os + n] == d[os..a] + v + d[a + |v|..os + n];
    assert d[os..os + n][..a - os] == d[os..a];
    assert d[os..os + n][a - os + |v|..] == d[a + |v|..os + n];
  }

  lemma Overwritten(d: seq<byte>, a: nat, v: seq<byte>, i: nat, j: nat)
    requires a + |v| <= |d| && i <= j <= |d| && (j <= a || a + |v| <= i)
    ensures (d[..a] + v + d[a + |v|..])[i..j] == d[i..j]
  {
    var e := d[..a] + v + d[a + |v|..];
    forall x | i <= x < j
      ensures e[x] == d[x]
    {
    }
  }

  lemma SameHeader(d: seq<byte>, e: seq<byte>)
    requires |d| == |e| && |d| >= HEADER && forall i :: 0 <= i < HEADER ==> e[i] == d[i]
    ensures forall w :: 0 <= w < 10 ==> HGet(e, w) == HGet(d, w)
  {
    hide Be32;
    forall w | 0 <= w < 10
      ensures HGet(e, w) == HGet(d, w)
    {
      assert e[4 * w..4 * w + 4] == d[4 * w..4 * w + 4];
      Be32At(e, d, 4 * w, 4 * w);
    }
  }
}
