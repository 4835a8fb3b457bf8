/** A blob for every tree: the tokens written out, every property name in the strings block, and spare
    bytes behind it. */
module FdtMake {
  import opened Fdt
  import opened FdtTree
  import opened FdtBlob
  import opened FdtEdit

  const WORD: nat := 0x1_0000_0000

  type word = x: nat | x < WORD

  // ---- tokens -----------------------------------------------------------------------------------

  predicate ItemOk(x: Item) {
    match x
    case Begin(n) => 0 !in n
    case Prop(o, v) => o < WORD && |v| < WORD
    case End => true
    case Nop => true
  }

  function ItemBytes(x: Item): (bs: seq<byte>)
    requires ItemOk(x)
  {
    match x
    case Begin(n) => Be32Bytes(BEGIN_NODE) + Padded(n, Align4(|n| + 1))
    case Prop(o, v) => Be32Bytes(PROP) + Be32Bytes(|v|) + Be32Bytes(o) + Padded(v, Align4(|v|))
    case End => Be32Bytes(END_NODE)
    case Nop => Be32Bytes(NOP)
  }

  lemma FrontWord(v: word, rest: seq<byte>)
    ensures Be32(Be32Bytes(v) + rest, 0) == v && (Be32Bytes(v) + rest)[4..] == rest
  {
    hide Be32Bytes, Be32;
    Be32RoundTrip(v, rest);
  }

  lemma ItemParses(x: Item)
    requires ItemOk(x)
    ensures ParseToken(ItemBytes(x)) == Token(x, |ItemBytes(x)|)
  {
    hide Be32, Be32Bytes, Padded, StrLen, Align4;
    match x {
      case Begin(n) =>
        var b := Padded(n, Align4(|n| + 1));
        FrontWord(BEGIN_NODE, b);
        StrLenIs(b, |n|);
        assert CStr(b) == n;
      case Prop(o, v) =>
        var b := Padded(v, Align4(|v|));
        ThreeWords(PROP, |v|, o, b);
        PropParses(ItemBytes(x), o, |v|);
        assert ItemBytes(x)[12..12 + |v|] == b[..|v|];
        assert b[..|v|] == v;
      case End => FrontWord(END_NODE, []); assert Be32Bytes(END_NODE) + [] == Be32Bytes(END_NODE);
      case Nop => FrontWord(NOP, []); assert Be32Bytes(NOP) + [] == Be32Bytes(NOP);
    }
  }

  predicate ItemsOk(xs: seq<Item>) { forall i :: 0 <= i < |xs| ==> ItemOk(xs[i]) }

  function ItemsBytes(xs: seq<Item>): (bs: seq<byte>)
    requires ItemsOk(xs)
  {
    if xs == [] then [] else ItemBytes(xs[0]) + ItemsBytes(xs[1..])
  }

  lemma {:induction false} ItemsSpell(xs: seq<Item>)
    requires ItemsOk(xs)
    ensures Spells(ItemsBytes(xs), xs)
  {
    hide ItemBytes, ParseToken;
    if xs != [] {
      var b, rest := ItemBytes(xs[0]), ItemsBytes(xs[1..]);
      ItemsSpell(xs[1..]);
      ItemParses(xs[0]);
      TokenLocal(b, rest);
      assert (b + rest)[|b|..] == rest;
    }
  }

  /** The structure block: the tokens and the END token. */
  lemma StructReads(xs: seq<Item>)
    requires ItemsOk(xs)
    ensures ParseItems(ItemsBytes(xs) + Be32Bytes(END)) == Items(xs, AtEnd)
  {
    hide ItemsBytes, Be32Bytes, Spells;
    ItemsSpell(xs);
    EndReads();
    SpellsThen(ItemsBytes(xs), xs, Be32Bytes(END));
    assert xs + [] == xs;
  }

  lemma EndReads()
    ensures ParseItems(Be32Bytes(END)) == Items([], AtEnd)
  {
    hide Be32Bytes, Be32;
    FrontWord(END, []);
    assert Be32Bytes(END) + [] == Be32Bytes(END);
  }

  // ---- names ------------------------------------------------------------------------------------

  /** No node or property name has a NUL in it. */
  predicate Plain(rs: seq<RItem>) {
    forall i :: 0 <= i < |rs| ==> (rs[i].RBegin? ==> 0 !in rs[i].name) && (rs[i].RProp? ==> 0 !in rs[i].name)
  }

  function NameOf(r: RItem): (bs: seq<byte>) {
    if r.RProp? then r.name + [0] else []
  }

  function Names(rs: seq<RItem>): (bs: seq<byte>)
    ensures EndsInNul(bs)
  {
    if rs == [] then [] else NameOf(rs[0]) + Names(rs[1..])
  }

  function ItemOf(r: RItem, at: nat): Item {
    match r
    case RBegin(n) => Begin(n)
    case REnd => End
    case RNop => Nop
    case RProp(_, v) => Prop(at, v)
  }

  /** The tokens, with names from offset `at` on. */
  function Itemize(rs: seq<RItem>, at: nat): (xs: seq<Item>)
    ensures |xs| == |rs|
  {
    if rs == [] then [] else [ItemOf(rs[0], at)] + Itemize(rs[1..], at + |NameOf(rs[0])|)
  }

  lemma {:induction false} NameAt(rs: seq<RItem>, p: seq<byte>, i: nat)
    requires Plain(rs) && i < |rs|
    ensures var x, strs := Itemize(rs, |p|)[i], p + Names(rs);
      (x.Prop? ==> NameOk(strs, x.nameoff)) && ResolveOne(strs, x) == rs[i]
    decreases |rs|
  {
    hide StrLen;
    var strs := p + Names(rs);
    if i == 0 {
      if rs[0].RProp? {
        var n, tail := rs[0].name, strs[|p|..];
        assert tail == n + [0] + Names(rs[1..]);
        StrLenIs(tail, |n|);
        assert CStr(tail) == n;
      }
    } else {
      var q := p + NameOf(rs[0]);
      assert strs == q + Names(rs[1..]);
      NameAt(rs[1..], q, i - 1);
    }
  }

  lemma NamesResolve(rs: seq<RItem>)
    requires Plain(rs)
    ensures NamesOk(Names(rs), Itemize(rs, 0)) && Resolve(Names(rs), Itemize(rs, 0)) == rs
  {
    hide Names, Itemize, NameOk, ResolveOne, Resolve;
    assert [] + Names(rs) == Names(rs);
    forall i | 0 <= i < |rs|
      ensures (Itemize(rs, 0)[i].Prop? ==> NameOk(Names(rs), Itemize(rs, 0)[i].nameoff))
      ensures ResolveOne(Names(rs), Itemize(rs, 0)[i]) == rs[i]
    {
      NameAt(rs, [], i);
    }
  }

  // ---- the blob ---------------------------------------------------------------------------------

  function Words(ws: seq<word>): (bs: seq<byte>)
    ensures |bs| == 4 * |ws|
  {
    if ws == [] then [] else Be32Bytes(ws[0]) + Words(ws[1..])
  }

  lemma {:induction false} WordAt(ws: seq<word>, i: nat)
    requires i < |ws|
    ensures Be32(Words(ws), 4 * i) == ws[i]
    decreases i
  {
    hide Be32, Be32Bytes;
    if i == 0 {
      Be32RoundTrip(ws[0], Words(ws[1..]));
    } else {
      WordAt(ws[1..], i - 1);
      assert Words(ws)[4 * i..4 * i + 4] == Words(ws[1..])[4 * (i - 1)..4 * (i - 1) + 4];
      Be32At(Words(ws), Words(ws[1..]), 4 * i, 4 * (i - 1));
    }
  }

  /** The header words of a structure block of n bytes and m bytes of strings. */
  function Head(n: nat, m: nat): (ws: seq<word>)
    requires HEADER + n + m < WORD
    ensures |ws| == 10
  {
    [MAGIC, HEADER + n + m, HEADER, HEADER + n, 0, 17, 16, 0, m, n]
  }

  function Blob(st: seq<byte>, strs: seq<byte>, spare: nat): (d: seq<byte>)
    requires HEADER + |st| + |strs| < WORD
    ensures |d| == HEADER + |st| + |strs| + spare
  {
    Words(Head(|st|, |strs|)) + st + strs + seq(spare, _ => 0)
  }

  lemma BlobWord(st: seq<byte>, strs: seq<byte>, spare: nat, w: nat)
    requires HEADER + |st| + |strs| < WORD && w < 10
    ensures HGet(Blob(st, strs, spare), w) == Head(|st|, |strs|)[w]
  {
    hide Be32, Words, Head;
    var d, h := Blob(st, strs, spare), Words(Head(|st|, |strs|));
    WordAt(Head(|st|, |strs|), w);
    assert d[4 * w..4 * w + 4] == h[4 * w..4 * w + 4];
    Be32At(d, h, 4 * w, 4 * w);
  }

  lemma BlobBlocks(st: seq<byte>, strs: seq<byte>, spare: nat)
    requires HEADER + |st| + |strs| < WORD
    ensures var d := Blob(st, strs, spare); Layout(d) && HGet(d, 0) == MAGIC && Struct(d) == st && Strings(d) == strs
    ensures HGet(Blob(st, strs, spare), H_TOTALSIZE) == HEADER + |st| + |strs|
  {
    hide HGet, Words;
    BlobWord(st, strs, spare, 0);
    BlobWord(st, strs, spare, H_TOTALSIZE);
    BlobWord(st, strs, spare, H_OFF_STRUCT);
    BlobWord(st, strs, spare, H_OFF_STRINGS);
    BlobWord(st, strs, spare, H_SIZE_STRINGS);
    BlobWord(st, strs, spare, H_SIZE_STRUCT);
    var d := Blob(st, strs, spare);
    assert d[HEADER..HEADER + |st|] == st;
    assert d[HEADER + |st|..HEADER + |st| + |strs|] == strs;
  }

  /** Names without NULs, and everything within 32 bits. */
  predicate Makeable(t: Doc) {
    var rs := FlattenDoc(t);
    Plain(rs) && ItemsOk(Itemize(rs, 0)) && HEADER + |ItemsBytes(Itemize(rs, 0))| + 4 + |Names(rs)| < WORD
  }

  function Make(t: Doc, spare: nat): (d: seq<byte>)
    requires Makeable(t)
  {
    var rs := FlattenDoc(t);
    Blob(ItemsBytes(Itemize(rs, 0)) + Be32Bytes(END), Names(rs), spare)
  }

  /** The tree can be read back from its blob, and the spare bytes are behind it. */
  lemma MakeRepresents(t: Doc, spare: nat)
    requires Makeable(t)
    ensures Represents(Make(t, spare), t)
    ensures HGet(Make(t, spare), H_TOTALSIZE) + spare == |Make(t, spare)|
  {
    hide Blob, FlattenDoc, Itemize, ItemsBytes, Names, NamesOk, Resolve, Be32Bytes, ParseItems, HGet, Struct, Strings, Layout;
    var rs := FlattenDoc(t);
    var xs := Itemize(rs, 0);
    StructReads(xs);
    NamesResolve(rs);
    BlobBlocks(ItemsBytes(xs) + Be32Bytes(END), Names(rs), spare);
  }

  // ---- small trees ------------------------------------------------------------------------------

  predicate SmallItem(r: RItem) {
    match r
    case RBegin(n) => |n| < 256 && 0 !in n
    case RProp(n, v) => |n| < 256 && |v| < 256 && 0 !in n
    case REnd => true
    case RNop => true
  }

  lemma SmallOne(r: RItem, at: nat)
    requires SmallItem(r) && at < WORD
    ensures ItemOk(ItemOf(r, at)) && |ItemBytes(ItemOf(r, at))| <= 280 && |NameOf(r)| <= 256
  {
    hide Be32Bytes, Padded;
  }

  lemma {:induction false} SmallSizes(rs: seq<RItem>, at: nat)
    requires (forall i :: 0 <= i < |rs| ==> SmallItem(rs[i])) && at + 256 * |rs| < WORD
    ensures ItemsOk(Itemize(rs, at)) && |ItemsBytes(Itemize(rs, at))| <= 280 * |rs| && |Names(rs)| <= 256 * |rs|
    decreases |rs|
  {
    hide ItemOk, ItemBytes, ItemOf, NameOf, SmallItem;
    if rs != [] {
      SmallOne(rs[0], at);
      SmallSizes(rs[1..], at + |NameOf(rs[0])|);
      var xs := Itemize(rs, at);
      assert xs[1..] == Itemize(rs[1..], at + |NameOf(rs[0])|);
      assert xs == [xs[0]] + xs[1..];
    }
  }

  lemma SmallIsMakeable(t: Doc, spare: nat)
    requires |FlattenDoc(t)| < 256 && forall i :: 0 <= i < |FlattenDoc(t)| ==> SmallItem(FlattenDoc(t)[i])
    ensures Makeable(t) && |Make(t, spare)| < 0x4_0000 + spare
  {
    hide FlattenDoc, Itemize, ItemsBytes, Names, Be32Bytes;
    SmallSizes(FlattenDoc(t), 0);
  }
}
