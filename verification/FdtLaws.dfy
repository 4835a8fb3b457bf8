/** The device tree format and the reader in terms of the Devicetree Specification: bytes of a sample
    blob, names, refusals and what a path leads to. */
module FdtLaws {
  import opened Options
  import opened Fdt
  import opened FdtTree
  import opened FdtBlob
  import opened FdtEdit
  import opened FdtSet
  import opened FdtRead
  import opened FdtMake
  import opened FdtInputs

  // ---- bytes ----------------------------------------------------------------------------------------

  /** The bytes of a text. */
  predicate Spelt(bs: seq<byte>, text: string) {
    |bs| == |text| && forall i :: 0 <= i < |bs| ==> bs[i] == text[i] as int
  }

  lemma NamesSpelt()
    ensures Spelt(CHOSEN, "chosen") && Spelt(BOOTARGS, "bootargs") && Spelt(ENTRY[..8], "bootargs") && ENTRY[8..] == [0]
  {
    assert CHOSEN[0] == 'c' as int && CHOSEN[1] == 'h' as int && CHOSEN[2] == 'o' as int;
    assert CHOSEN[3] == 's' as int && CHOSEN[4] == 'e' as int && CHOSEN[5] == 'n' as int;
    assert BOOTARGS[0] == 'b' as int && BOOTARGS[1] == 'o' as int && BOOTARGS[2] == 'o' as int && BOOTARGS[3] == 't' as int;
    assert BOOTARGS[4] == 'a' as int && BOOTARGS[5] == 'r' as int && BOOTARGS[6] == 'g' as int && BOOTARGS[7] == 's' as int;
    assert ENTRY[..8] == BOOTARGS;
  }

  /** Header of the blob of /chosen/bootargs == "x": magic, total size 97, structure block at 40, strings
      at 88, no memory reservations, versions 17 and 16, boot CPU 0, 9 bytes of strings, 48 of structure. */
  const SAMPLE_HEAD: seq<byte> :=
    [0xd0, 0x0d, 0xfe, 0xed, 0, 0, 0, 97] + [0, 0, 0, 40, 0, 0, 0, 88] + [0, 0, 0, 0, 0, 0, 0, 17]
    + [0, 0, 0, 16, 0, 0, 0, 0] + [0, 0, 0, 9, 0, 0, 0, 48]

  /** The root, /chosen, and the property's first word. */
  const SAMPLE_NODES: seq<byte> := [
    0, 0, 0, 1, 0, 0, 0, 0,
    0, 0, 0, 1, 0x63, 0x68, 0x6f, 0x73, 0x65, 0x6e, 0, 0]

  const SAMPLE_PROP: seq<byte> := [0, 0, 0, 3, 0, 0, 0, 1, 0, 0, 0, 0, 0x78, 0, 0, 0]

  const SAMPLE_ENDS: seq<byte> := [0, 0, 0, 2, 0, 0, 0, 2, 0, 0, 0, 9]

  const SAMPLE_STRINGS: seq<byte> := [0x62, 0x6f, 0x6f, 0x74, 0x61, 0x72, 0x67, 0x73, 0]

  lemma WordBytes()
    ensures Be32Bytes(1) == [0, 0, 0, 1] && Be32Bytes(2) == [0, 0, 0, 2] && Be32Bytes(3) == [0, 0, 0, 3] && Be32Bytes(9) == [0, 0, 0, 9]
    ensures Be32Bytes(0) == [0, 0, 0, 0] && Be32Bytes(97) == [0, 0, 0, 97] && Be32Bytes(40) == [0, 0, 0, 40] && Be32Bytes(88) == [0, 0, 0, 88]
    ensures Be32Bytes(17) == [0, 0, 0, 17] && Be32Bytes(16) == [0, 0, 0, 16] && Be32Bytes(48) == [0, 0, 0, 48]
    ensures Be32Bytes(0xd00dfeed) == [0xd0, 0x0d, 0xfe, 0xed]
  {
  }

  lemma SampleTokens()
    ensures ItemBytes(Begin([])) + ItemBytes(Begin(CHOSEN)) == SAMPLE_NODES
    ensures ItemBytes(Prop(0, X)) == SAMPLE_PROP
    ensures ItemBytes(End) + ItemBytes(End) + Be32Bytes(END) == SAMPLE_ENDS
  {
    WordBytes();
    hide Be32Bytes;
    assert Padded([], Align4(1)) == [0, 0, 0, 0];
    assert Padded(CHOSEN, Align4(7)) == [0x63, 0x68, 0x6f, 0x73, 0x65, 0x6e, 0, 0];
    assert Padded(X, Align4(1)) == [0x78, 0, 0, 0];
  }

  lemma SampleHead()
    ensures Words(Head(48, 9)) == SAMPLE_HEAD
  {
    hide Words, Pair, Head;
    var ws := Head(48, 9);
    TenWords(ws);
    HeadPairs();
    FiveParts(Pair(ws, 0), Pair(ws, 2), Pair(ws, 4), Pair(ws, 6), Pair(ws, 8));
  }

  lemma TenWords(ws: seq<word>)
    requires |ws| == 10
    ensures Words(ws) == Pair(ws, 0) + (Pair(ws, 2) + (Pair(ws, 4) + (Pair(ws, 6) + Pair(ws, 8))))
  {
    hide Words, Pair;
    TwoWords(ws, 0);
    TwoWords(ws, 2);
    TwoWords(ws, 4);
    TwoWords(ws, 6);
    TwoWords(ws, 8);
    NoWords(ws);
    assert ws[0..] == ws;
    assert Pair(ws, 8) + [] == Pair(ws, 8);
  }

  function Pair(ws: seq<word>, i: nat): seq<byte>
    requires i + 2 <= |ws|
  {
    Be32Bytes(ws[i]) + Be32Bytes(ws[i + 1])
  }

  lemma HeadPairs()
    ensures var ws := Head(48, 9);
      && Pair(ws, 0) == [0xd0, 0x0d, 0xfe, 0xed, 0, 0, 0, 97] && Pair(ws, 2) == [0, 0, 0, 40, 0, 0, 0, 88]
      && Pair(ws, 4) == [0, 0, 0, 0, 0, 0, 0, 17] && Pair(ws, 6) == [0, 0, 0, 16, 0, 0, 0, 0] && Pair(ws, 8) == [0, 0, 0, 9, 0, 0, 0, 48]
  {
    WordBytes();
    hide Be32Bytes;
  }

  lemma FiveParts(a: seq<byte>, b: seq<byte>, c: seq<byte>, d: seq<byte>, e: seq<byte>)
    ensures a + (b + (c + (d + e))) == a + b + c + d + e
  {
  }

  lemma TwoWords(ws: seq<word>, i: nat)
    requires i + 2 <= |ws|
    ensures Words(ws[i..]) == Pair(ws, i) + Words(ws[i + 2..])
  {
    hide Be32Bytes;
    assert ws[i..][1..] == ws[i + 1..] && ws[i + 1..][1..] == ws[i + 2..];
    assert Words(ws[i..]) == Be32Bytes(ws[i]) + Words(ws[i + 1..]);
    assert Words(ws[i + 1..]) == Be32Bytes(ws[i + 1]) + Words(ws[i + 2..]);
    assert Be32Bytes(ws[i]) + (Be32Bytes(ws[i + 1]) + Words(ws[i + 2..])) == Be32Bytes(ws[i]) + Be32Bytes(ws[i + 1]) + Words(ws[i + 2..]);
  }

  lemma NoWords(ws: seq<word>)
    requires |ws| == 10
    ensures Words(ws[10..]) == []
  {
  }

  lemma OneResolved(rs: seq<RItem>, i: nat, at: nat)
    requires i < |rs|
    ensures Itemize(rs[i..], at) == [ItemOf(rs[i], at)] + Itemize(rs[i + 1..], at + |NameOf(rs[i])|)
    ensures Names(rs[i..]) == NameOf(rs[i]) + Names(rs[i + 1..])
  {
    hide ItemOf, NameOf;
    assert rs[i..][1..] == rs[i + 1..];
  }

  lemma SampleItems(rs: seq<RItem>)
    requires rs == [RBegin([]), RBegin(CHOSEN), RProp(BOOTARGS, X), REnd, REnd]
    ensures Itemize(rs, 0) == [Begin([]), Begin(CHOSEN), Prop(0, X), End, End] && Names(rs) == BOOTARGS + [0]
  {
    hide Itemize, Names;
    FiveNames(rs);
    FiveResolved(rs);
  }

  lemma FiveNames(rs: seq<RItem>)
    requires |rs| == 5 && NameOf(rs[0]) == NameOf(rs[1]) == NameOf(rs[3]) == NameOf(rs[4]) == []
    ensures Names(rs) == NameOf(rs[2])
  {
    hide Names, NameOf, Itemize, ItemOf;
    OneResolved(rs, 0, 0);
    OneResolved(rs, 1, 0);
    OneResolved(rs, 2, 0);
    OneResolved(rs, 3, 0);
    OneResolved(rs, 4, 0);
    NoneResolved(rs);
    assert rs[0..] == rs;
  }

  lemma FiveResolved(rs: seq<RItem>)
    requires |rs| == 5 && NameOf(rs[0]) == NameOf(rs[1]) == NameOf(rs[3]) == NameOf(rs[4]) == [] && |NameOf(rs[2])| == 9
    ensures Itemize(rs, 0) == [ItemOf(rs[0], 0), ItemOf(rs[1], 0), ItemOf(rs[2], 0), ItemOf(rs[3], 9), ItemOf(rs[4], 9)]
  {
    hide Names, NameOf, Itemize, ItemOf;
    OneResolved(rs, 0, 0);
    OneResolved(rs, 1, 0);
    OneResolved(rs, 2, 0);
    OneResolved(rs, 3, 9);
    OneResolved(rs, 4, 9);
    NoneResolved(rs);
    assert rs[0..] == rs;
  }

  lemma NoneResolved(rs: seq<RItem>)
    requires |rs| == 5
    ensures Itemize(rs[5..], 9) == [] && Names(rs[5..]) == []
  {
  }

  lemma SampleStruct(xs: seq<Item>)
    requires xs == [Begin([]), Begin(CHOSEN), Prop(0, X), End, End]
    ensures ItemsOk(xs) && ItemsBytes(xs) + Be32Bytes(END) == SAMPLE_NODES + SAMPLE_PROP + SAMPLE_ENDS
  {
    SampleTokens();
    assert ItemsOk(xs);
    hide ItemBytes, Be32Bytes, ItemsBytes, ItemOk;
    FiveItems(xs);
    Regrouped(ItemBytes(xs[0]), ItemBytes(xs[1]), ItemBytes(xs[2]), ItemBytes(xs[3]), ItemBytes(xs[4]), Be32Bytes(END));
  }

  lemma Regrouped(a: seq<byte>, b: seq<byte>, c: seq<byte>, d: seq<byte>, e: seq<byte>, f: seq<byte>)
    ensures a + (b + (c + (d + e))) + f == (a + b) + c + (d + e + f)
  {
  }

  lemma FiveItems(xs: seq<Item>)
    requires |xs| == 5 && ItemsOk(xs)
    ensures ItemsBytes(xs) == ItemBytes(xs[0]) + (ItemBytes(xs[1]) + (ItemBytes(xs[2]) + (ItemBytes(xs[3]) + ItemBytes(xs[4]))))
  {
    hide ItemBytes, ItemOk;
    OneItem(xs, 0);
    OneItem(xs, 1);
    OneItem(xs, 2);
    OneItem(xs, 3);
    OneItem(xs, 4);
    assert xs[0..] == xs && xs[5..] == [] && ItemsBytes([]) == [];
    assert ItemBytes(xs[4]) + [] == ItemBytes(xs[4]);
  }

  lemma OneItem(xs: seq<Item>, i: nat)
    requires i < |xs| && ItemsOk(xs)
    ensures ItemsOk(xs[i..]) && ItemsOk(xs[i + 1..]) && ItemsBytes(xs[i..]) == ItemBytes(xs[i]) + ItemsBytes(xs[i + 1..])
  {
    hide ItemBytes, ItemOk;
    assert xs[i..][1..] == xs[i + 1..];
  }

  /** The format itself, on a blob as a device tree compiler lays it out: these are the bytes of the tree
      whose only property is /chosen/bootargs, one byte "x", and they are read as that tree. */
  lemma SampleBlob()
    ensures Represents(SAMPLE_HEAD + (SAMPLE_NODES + SAMPLE_PROP + SAMPLE_ENDS) + SAMPLE_STRINGS,
      Doc(0, [], [Child(CHOSEN, [P(BOOTARGS, [0x78])])], 0))
  {
    hide FlattenDoc, Represents, Make, Makeable;
    ShortIs();
    SampleItems(FlattenDoc(SHORT));
    SmallIsMakeable(SHORT, 0);
    MakeRepresents(SHORT, 0);
    MakeIs(SHORT, FlattenDoc(SHORT));
  }

  lemma MakeIs(t: Doc, rs: seq<RItem>)
    requires Makeable(t) && rs == FlattenDoc(t)
    requires Itemize(rs, 0) == [Begin([]), Begin(CHOSEN), Prop(0, X), End, End] && Names(rs) == BOOTARGS + [0]
    ensures Make(t, 0) == SAMPLE_HEAD + (SAMPLE_NODES + SAMPLE_PROP + SAMPLE_ENDS) + SAMPLE_STRINGS
  {
    hide FlattenDoc, Itemize, ItemsBytes, Names, Be32Bytes, Words, Head, ItemsOk;
    SampleStruct(Itemize(rs, 0));
    SampleHead();
    var st := SAMPLE_NODES + SAMPLE_PROP + SAMPLE_ENDS;
    assert BOOTARGS + [0] == SAMPLE_STRINGS;
    assert Make(t, 0) == SAMPLE_HEAD + st + SAMPLE_STRINGS + [];
  }

  // ---- the edit -------------------------------------------------------------------------------------------

  /** In order: another magic number, strings that are not last, a token that is none of the five before
      any bootargs, and no /chosen. None of them changes a byte. */
  lemma Refusals(d: seq<byte>, s: seq<byte>)
    requires |d| >= HEADER && (HGet(d, 0) == MAGIC && LayoutTest(d) ==> Walkable(d) && Room(d, s))
    ensures SetBlob(d, s).0 != 0 ==> SetBlob(d, s).1 == d
    ensures SetBlob(d, s).0 == -1 <==> d[..4] != [0xd0, 0x0d, 0xfe, 0xed]
    ensures SetBlob(d, s).0 == -5 <==> d[..4] == [0xd0, 0x0d, 0xfe, 0xed] && !LayoutTest(d)
    ensures SetBlob(d, s).0 == -3 <==> d[..4] == [0xd0, 0x0d, 0xfe, 0xed] && LayoutTest(d) && !Found(d).Replace? && ParseItems(Struct(d)).ending == AtBad
  {
    MagicIs(d);
    hide HGet, ParseItems, Struct, Strings, Found, Room, LayoutTest, ReplaceAt, InsertBlob, NamesOk, Pos;
  }

  lemma FourDigits(a: int, b: int, c: int, e: int)
    requires 0 <= a < 256 && 0 <= b < 256 && 0 <= c < 256 && 0 <= e < 256 && Word(a, b, c, e) == 0xd00dfeed
    ensures a == 0xd0 && b == 0x0d && c == 0xfe && e == 0xed
  {
  }

  lemma MagicIs(d: seq<byte>)
    requires |d| >= HEADER
    ensures HGet(d, 0) == MAGIC <==> d[..4] == [0xd0, 0x0d, 0xfe, 0xed]
  {
    var w := d[..4];
    if w == [0xd0, 0x0d, 0xfe, 0xed] {
      assert d[0] == w[0] && d[1] == w[1] && d[2] == w[2] && d[3] == w[3];
    }
    if HGet(d, 0) == MAGIC {
      FourDigits(d[0], d[1], d[2], d[3]);
    }
  }

  /** The value left in place of an old one: with its padding big enough, as many bytes as before, the
      string and then zeros; else the string and one NUL. */
  lemma NewValueIs(was: seq<byte>, s: seq<byte>)
    ensures var v := NewValue(was, s);
      if |s| + 1 <= (|was| + 3) / 4 * 4
      then |v| == |was| && forall i :: 0 <= i < |v| ==> v[i] == if i < |s| then s[i] else 0
      else v == s + [0]
  {
    assert (|s| + 4) / 4 * 4 <= (|was| + 3) / 4 * 4 <==> |s| + 1 <= (|was| + 3) / 4 * 4;
  }

  // ---- the reader -----------------------------------------------------------------------------------------

  /** A node name without its unit address. */
  function Base(name: seq<byte>): (b: seq<byte>) {
    if name == [] || name[0] == 0x40 then [] else [name[0]] + Base(name[1..])
  }

  /** A component matches a node exactly when it is the node's name up to an "@". */
  lemma {:induction false} MatchesBase(name: seq<byte>, comp: seq<byte>)
    ensures NodeMatches(name, comp) <==> Base(name) == comp
    decreases |name|
  {
    BasePlain(name);
    if comp == [] || name == [] || name[0] == 0x40 || comp[0] != name[0] {
    } else {
      MatchesBase(name[1..], comp[1..]);
      assert comp == [comp[0]] + comp[1..] && name == [name[0]] + name[1..];
      assert comp <= name <==> comp[1..] <= name[1..];
      assert 0x40 in comp <==> 0x40 in comp[1..];
    }
  }

  lemma {:induction false} BasePlain(name: seq<byte>)
    ensures 0x40 !in Base(name) && |Base(name)| <= |name|
  {
    if name != [] && name[0] != 0x40 {
      BasePlain(name[1..]);
    }
  }

  /** At the end of a path, the first property of that name. */
  lemma {:induction false} PropHere(es: seq<Elem>, name: seq<byte>, j: nat)
    requires j < |es| && es[j].P? && es[j].name == name && forall i :: 0 <= i < j ==> !(es[i].P? && es[i].name == name)
    ensures PropIn(es, [], name) == Some(es[j].value)
    decreases j
  {
    if j > 0 {
      PropHere(es[1..], name, j - 1);
    }
  }

  /** Below it, what the node that alone matches the next component has; without such a node, nothing. */
  lemma {:induction false} PropBelow(es: seq<Elem>, comp: seq<byte>, rest: seq<seq<byte>>, name: seq<byte>, c: nat)
    requires c <= |es| && forall i :: 0 <= i < |es| && i != c ==> !(es[i].Child? && Base(es[i].name) == comp)
    requires c < |es| ==> es[c].Child? && Base(es[c].name) == comp
    ensures PropIn(es, [comp] + rest, name) == if c < |es| then PropIn(es[c].body, rest, name) else None
    decreases |es|
  {
    hide NodeMatches;
    assert ([comp] + rest)[1..] == rest;
    if es != [] {
      if es[0].Child? {
        MatchesBase(es[0].name, comp);
      }
      if c == 0 {
        PropBelow(es[1..], comp, rest, name, |es| - 1);
      } else {
        PropBelow(es[1..], comp, rest, name, c - 1);
      }
    }
  }
}
