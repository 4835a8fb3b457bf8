/** The flattened device tree format (Devicetree Specification, chapter 5) as the bootloader's
    editor sees it: header words, structure-block tokens and the strings block. */
module Fdt {

  type byte = x: int | 0 <= x < 256

  const MAGIC: nat := 0xd00dfeed
  const BEGIN_NODE: nat := 1
  const END_NODE: nat := 2
  const PROP: nat := 3
  const NOP: nat := 4
  const END: nat := 9

  const H_TOTALSIZE: nat := 1
  const H_OFF_STRUCT: nat := 2
  const H_OFF_STRINGS: nat := 3
  const H_SIZE_STRINGS: nat := 8
  const H_SIZE_STRUCT: nat := 9
  const HEADER: nat := 40

  const CHOSEN: seq<byte> := [99, 104, 111, 115, 101, 110]
  const BOOTARGS: seq<byte> := [98, 111, 111, 116, 97, 114, 103, 115]

  // ---- words -----------------------------------------------------------------------

  function Word(a: nat, b: nat, c: nat, e: nat): nat {
    a * 0x100_0000 + b * 0x1_0000 + c * 0x100 + e
  }

  /** be32 */
  function Be32(d: seq<byte>, p: nat): (v: nat)
    requires p + 4 <= |d|
    ensures v < 0x1_0000_0000
  {
    Word(d[p], d[p + 1], d[p + 2], d[p + 3])
  }

  function Be32Bytes(v: nat): (bs: seq<byte>)
    requires v < 0x1_0000_0000
    ensures |bs| == 4
  {
    var q := v / 256;
    var r := q / 256;
    [r / 256, r % 256, q % 256, v % 256]
  }

  lemma Be32RoundTrip(v: nat, tail: seq<byte>)
    requires v < 0x1_0000_0000
    ensures Be32(Be32Bytes(v) + tail, 0) == v
  {
    var q := v / 256;
    var r := q / 256;
    assert v == 256 * q + v % 256 && q == 256 * r + q % 256 && r == 256 * (r / 256) + r % 256;
    var d := Be32Bytes(v) + tail;
    assert d[0] == r / 256 && d[1] == r % 256 && d[2] == q % 256 && d[3] == v % 256;
  }

  lemma Be32At(d: seq<byte>, e: seq<byte>, p: nat, q: nat)
    requires p + 4 <= |d| && q + 4 <= |e| && d[p..p + 4] == e[q..q + 4]
    ensures Be32(d, p) == Be32(e, q)
  {
    var w := d[p..p + 4];
    assert w[0] == d[p] && w[1] == d[p + 1] && w[2] == d[p + 2] && w[3] == d[p + 3];
    assert w[0] == e[q] && w[1] == e[q + 1] && w[2] == e[q + 2] && w[3] == e[q + 3];
  }

  /** wr32 */
  function Put32(d: seq<byte>, p: nat, v: nat): (e: seq<byte>)
    requires p + 4 <= |d| && v < 0x1_0000_0000
    ensures |e| == |d|
  {
    d[..p] + Be32Bytes(v) + d[p + 4..]
  }

  lemma Put32Reads(d: seq<byte>, p: nat, v: nat, q: nat)
    requires p + 4 <= |d| && v < 0x1_0000_0000 && q + 4 <= |d|
    ensures q == p ==> Be32(Put32(d, p, v), q) == v
    ensures q + 4 <= p || p + 4 <= q ==> Be32(Put32(d, p, v), q) == Be32(d, q)
  {
    var e := Put32(d, p, v);
    if q == p {
      Be32RoundTrip(v, []);
      assert e[q..q + 4] == (Be32Bytes(v) + [])[0..4];
      Be32At(e, Be32Bytes(v) + [], q, 0);
    } else if q + 4 <= p || p + 4 <= q {
      assert e[q..q + 4] == d[q..q + 4];
      Be32At(e, d, q, q);
    }
  }

  function Align4(x: nat): (a: nat)
    ensures x <= a < x + 4
  {
    (x + 3) / 4 * 4
  }

  // ---- C strings --------------------------------------------------------------------

  /** The number of bytes before the first NUL, or the length when there is none. */
  function StrLen(s: seq<byte>): (n: nat)
    ensures n <= |s| && (forall i :: 0 <= i < n ==> s[i] != 0) && (n < |s| ==> s[n] == 0)
  {
    if s == [] || s[0] == 0 then 0 else 1 + StrLen(s[1..])
  }

  predicate Terminated(s: seq<byte>) { StrLen(s) < |s| }

  /** The string a C program reads at the front of s. */
  function CStr(s: seq<byte>): seq<byte> { s[..StrLen(s)] }

  lemma StrLenIs(s: seq<byte>, n: nat)
    requires n < |s| && s[n] == 0 && forall i :: 0 <= i < n ==> s[i] != 0
    ensures StrLen(s) == n
  {
    if StrLen(s) < n {
    }
  }

  /** Bytes after the NUL do not matter. */
  lemma CStrLocal(s: seq<byte>, t: seq<byte>)
    requires Terminated(s) && s <= t
    ensures StrLen(t) == StrLen(s) && Terminated(t) && CStr(t) == CStr(s)
  {
    StrLenIs(t, StrLen(s));
  }

  // ---- structure block ------------------------------------------------------------------

  datatype Item = Begin(name: seq<byte>) | End | Prop(nameoff: nat, value: seq<byte>) | Nop

  datatype Token = Token(item: Item, size: nat) | EndToken | BadToken | CutOff

  function ParseBegin(st: seq<byte>): Token
    requires |st| >= 4
  {
    var s := st[4..];
    if !Terminated(s) || 4 + Align4(StrLen(s) + 1) > |st| then CutOff
    else Token(Begin(CStr(s)), 4 + Align4(StrLen(s) + 1))
  }

  function ParseProp(st: seq<byte>): Token
    requires |st| >= 4
  {
    if |st| < 12 || 12 + Align4(Be32(st, 4)) > |st| then CutOff
    else Token(Prop(Be32(st, 8), st[12..12 + Be32(st, 4)]), 12 + Align4(Be32(st, 4)))
  }

  /** The token at the front of st. */
  function ParseToken(st: seq<byte>): (t: Token)
    ensures t.Token? ==> 4 <= t.size <= |st|
  {
    if |st| < 4 then CutOff
    else
      var tok := Be32(st, 0);
      if tok == END then EndToken
      else if tok == NOP then Token(Nop, 4)
      else if tok == BEGIN_NODE then ParseBegin(st)
      else if tok == END_NODE then Token(End, 4)
      else if tok == PROP then ParseProp(st)
      else BadToken
  }

  datatype Ending = AtEnd | AtBad | AtCut

  /** The tokens of st, and why they stop. */
  datatype Items = Items(items: seq<Item>, ending: Ending)

  function ParseItems(st: seq<byte>): (r: Items)
    decreases |st|
  {
    match ParseToken(st)
    case EndToken => Items([], AtEnd)
    case BadToken => Items([], AtBad)
    case CutOff => Items([], AtCut)
    case Token(item, size) =>
      var rest := ParseItems(st[size..]);
      Items([item] + rest.items, rest.ending)
  }

  /** bs is exactly the tokens xs, nothing else. */
  predicate Spells(bs: seq<byte>, xs: seq<Item>)
    decreases |xs|
  {
    if xs == [] then bs == []
    else
      var t := ParseToken(bs);
      t.Token? && t.item == xs[0] && Spells(bs[t.size..], xs[1..])
  }

  /** A token is read the same whatever follows it. */
  lemma TokenLocal(bs: seq<byte>, tail: seq<byte>)
    requires ParseToken(bs).Token?
    ensures ParseToken(bs + tail) == ParseToken(bs)
  {
    var t := bs + tail;
    Be32At(t, bs, 0, 0);
    if |bs| >= 12 {
      Be32At(t, bs, 4, 4);
      Be32At(t, bs, 8, 8);
    }
    if Be32(bs, 0) == BEGIN_NODE {
      assert bs[4..] <= t[4..];
      CStrLocal(bs[4..], t[4..]);
    }
    if Be32(bs, 0) == PROP {
      assert t[12..12 + Be32(bs, 4)] == bs[12..12 + Be32(bs, 4)];
    }
  }

  lemma {:induction false} SpellsThen(bs: seq<byte>, xs: seq<Item>, tail: seq<byte>)
    requires Spells(bs, xs)
    ensures ParseItems(bs + tail) == Items(xs + ParseItems(tail).items, ParseItems(tail).ending)
    decreases |xs|
  {
    hide ParseToken, ParseItems;
    if xs == [] {
      assert bs + tail == tail;
      assert xs + ParseItems(tail).items == ParseItems(tail).items;
    } else {
      var n, rest := ParseToken(bs).size, ParseItems(tail).items;
      TokenLocal(bs, tail);
      SpellsThen(bs[n..], xs[1..], tail);
      assert (bs + tail)[n..] == bs[n..] + tail;
      ParseStep(bs + tail);
      assert [xs[0]] + (xs[1..] + rest) == xs + rest;
    }
  }

  lemma ParseStep(st: seq<byte>)
    requires ParseToken(st).Token?
    ensures var t := ParseToken(st); var rest := ParseItems(st[t.size..]);
      ParseItems(st) == Items([t.item] + rest.items, rest.ending)
  {
    hide ParseToken;
  }

  lemma {:induction false} SpellsAppend(bs: seq<byte>, xs: seq<Item>, c: seq<byte>, x: Item)
    requires Spells(bs, xs) && ParseToken(c) == Token(x, |c|)
    ensures Spells(bs + c, xs + [x])
    decreases |xs|
  {
    hide ParseToken;
    if xs == [] {
      assert bs + c == c && xs + [x] == [x] && c[|c|..] == [];
    } else {
      TokenLocal(bs, c);
      var n := ParseToken(bs).size;
      SpellsAppend(bs[n..], xs[1..], c, x);
      assert (bs + c)[n..] == bs[n..] + c;
      assert (xs + [x])[1..] == xs[1..] + [x];
    }
  }

  /** The first token, cut to its own bytes, still reads the same. */
  lemma TokenAlone(st: seq<byte>)
    requires ParseToken(st).Token?
    ensures ParseToken(st[..ParseToken(st).size]) == ParseToken(st)
  {
    var n := ParseToken(st).size;
    var c := st[..n];
    Be32At(c, st, 0, 0);
    if n >= 12 {
      Be32At(c, st, 4, 4);
      Be32At(c, st, 8, 8);
    }
    if Be32(st, 0) == BEGIN_NODE {
      StrLenIs(c[4..], StrLen(st[4..]));
      assert CStr(c[4..]) == CStr(st[4..]);
    }
    if Be32(st, 0) == PROP {
      assert c[12..12 + Be32(st, 4)] == st[12..12 + Be32(st, 4)];
    }
  }
}
