/** Trees on which the edit does not do what it is for, and their blobs. */
module FdtInputs {
  import opened Options
  import opened Fdt
  import opened FdtTree
  import opened FdtBlob
  import opened FdtEdit
  import opened FdtSet
  import opened FdtRead
  import opened FdtMeaning
  import opened FdtMake

  const X: seq<byte> := [120]
  const A: seq<byte> := [97]

  /** Enough spare bytes for any edit. */
  const SPARE: nat := 64

  lemma RoomEnough(d: seq<byte>, s: seq<byte>)
    requires Walkable(d) && Fits(d, |ENTRY| + 12 + Align4(|s| + 1))
    ensures Room(d, s)
  {
    hide Found, HGet, ParseItems, FindString, Align4;
  }

  /** The blob of a small tree is one that the call takes. */
  lemma Ready(t: Doc, s: seq<byte>)
    requires |FlattenDoc(t)| < 256 && (forall i :: 0 <= i < |FlattenDoc(t)| ==> SmallItem(FlattenDoc(t)[i])) && |s| < 8
    ensures Makeable(t) && Represents(Make(t, SPARE), t) && Walkable(Make(t, SPARE)) && Room(Make(t, SPARE), s)
  {
    hide FlattenDoc, HGet, Represents, Walkable, Room, Make, Makeable;
    SmallIsMakeable(t, SPARE);
    MakeRepresents(t, SPARE);
    var d := Make(t, SPARE);
    WellFormed(d, t);
    MakeFits(t, s);
    RoomEnough(d, s);
  }

  lemma MakeFits(t: Doc, s: seq<byte>)
    requires Makeable(t) && HGet(Make(t, SPARE), H_TOTALSIZE) + SPARE == |Make(t, SPARE)| && |s| < 8
    requires HGet(Make(t, SPARE), H_TOTALSIZE) + SPARE < 0x1_0000_0000
    ensures Fits(Make(t, SPARE), |ENTRY| + 12 + Align4(|s| + 1))
  {
    hide Make, HGet;
  }

  lemma OneElem(e: Elem)
    ensures FlattenAll([e]) == Flatten(e) && FlattenAll([]) == []
  {
    assert [e][1..] == [];
  }

  lemma TwoElems(e: Elem, f: Elem)
    ensures FlattenAll([e, f]) == Flatten(e) + Flatten(f)
  {
    hide Flatten, FlattenAll;
    assert [e, f] == [e] + [f];
    FlattenConcat([e], [f]);
    OneElem(e);
    OneElem(f);
  }

  // ---- the same-padding corner ----------------------------------------------------------------------

  /** /chosen/bootargs is the single byte "x", without a terminator. */
  const SHORT := Doc(0, [], [Child(CHOSEN, [P(BOOTARGS, X)])], 0)

  lemma ShortIs()
    ensures FlattenDoc(SHORT) == [RBegin([]), RBegin(CHOSEN), RProp(BOOTARGS, X), REnd, REnd]
    ensures Wanted(SHORT) == SpotOf(SHORT) == Old(0, 0) && Editable(SHORT)
  {
    var e := Child(CHOSEN, [P(BOOTARGS, X)]);
    OneElem(P(BOOTARGS, X));
    OneElem(e);
    hide FlattenAll;
    assert FirstBootargs(e.body, 0) == Some(0) && FirstChosen(SHORT.body, 0) == Some(0);
    assert Editable(SHORT);
    SpotIsWanted(SHORT);
  }

  /** Setting "ab" succeeds and leaves "a" without a terminator, which is what the kernel then reads. */
  lemma CornerOnBlob()
    ensures Makeable(SHORT) && Walkable(Make(SHORT, SPARE)) && Room(Make(SHORT, SPARE), [97, 98])
    ensures var r := SetBlob(Make(SHORT, SPARE), [97, 98]);
      r.0 == 0 && Walkable(r.1) && BlobReads(r.1) == Some([97]) && !Terminated([97])
  {
    hide HGet, ParseItems, Struct, Strings, FlattenDoc, SetBlob, Room, Make, Makeable, BlobReads, Wanted, SpotOf, Offers, PropIn;
    var t, s := SHORT, [97, 98];
    ShortIs();
    Ready(t, s);
    CornerLosesTheTerminator();
    EditMeans(Make(t, SPARE), t, s);
    KernelReadsWalked(t, s);
    BlobReadsTree(SetBlob(Make(t, SPARE), s).1, Walked(t, s));
  }

  // ---- bootargs behind a subnode --------------------------------------------------------------------

  const HIDDEN := Doc(0, [], [Child(CHOSEN, [Child(X, []), P(BOOTARGS, X)])], 0)

  lemma HiddenIs()
    ensures FlattenDoc(HIDDEN) == [RBegin([]), RBegin(CHOSEN), RBegin(X), REnd, RProp(BOOTARGS, X), REnd, REnd]
    ensures Wanted(HIDDEN) == Old(0, 1) && SpotOf(HIDDEN) == New(0) && !Editable(HIDDEN)
  {
    var e := Child(CHOSEN, [Child(X, []), P(BOOTARGS, X)]);
    OneElem(e);
    TwoElems(Child(X, []), P(BOOTARGS, X));
    hide FlattenAll;
    assert e.body[0].Child?;
    assert FirstBootargs(e.body, 0) == Some(1) && FirstChosen(HIDDEN.body, 0) == Some(0);
    assert InSight(e.body) == None;
    assert SpotFrom(HIDDEN.body, 1, Some(0)) == New(0);
  }

  /** Setting "a" succeeds and leaves two bootargs in /chosen. */
  lemma HiddenBootargs()
    ensures !Editable(HIDDEN) && Makeable(HIDDEN) && Walkable(Make(HIDDEN, SPARE)) && Room(Make(HIDDEN, SPARE), A)
    ensures var r := SetBlob(Make(HIDDEN, SPARE), A);
      && r.0 == 0
      && Represents(r.1, Doc(0, [], [Child(CHOSEN, [P(BOOTARGS, A + [0]), Child(X, []), P(BOOTARGS, X)])], 0))
      && !Represents(r.1, SetBootargs(HIDDEN, NewBootargs(HIDDEN, A)))
  {
    hide HGet, ParseItems, Struct, Strings, FlattenDoc, SetBlob, Room, Make, Makeable, Wanted, SpotOf, Represents, Editable, SetBootargs, NewBootargs;
    HiddenIs();
    Ready(HIDDEN, A);
    EditMeans(Make(HIDDEN, SPARE), HIDDEN, A);
    EditMeansExactly(Make(HIDDEN, SPARE), HIDDEN, A);
    assert [P(BOOTARGS, A + [0])] + HIDDEN.body[0].body == [P(BOOTARGS, A + [0]), Child(X, []), P(BOOTARGS, X)];
    assert HIDDEN.body[0 := Child(CHOSEN, [P(BOOTARGS, A + [0])] + HIDDEN.body[0].body)]
      == [Child(CHOSEN, [P(BOOTARGS, A + [0]), Child(X, []), P(BOOTARGS, X)])];
  }

  // ---- a second /chosen -------------------------------------------------------------------------------

  const DOUBLE := Doc(0, [], [Child(CHOSEN, []), Child(CHOSEN, [])], 0)

  lemma DoubleIs()
    ensures FlattenDoc(DOUBLE) == [RBegin([]), RBegin(CHOSEN), REnd, RBegin(CHOSEN), REnd, REnd]
    ensures Wanted(DOUBLE) == New(0) && SpotOf(DOUBLE) == New(1) && !Editable(DOUBLE)
  {
    var e := Child(CHOSEN, []);
    OneElem(e);
    TwoElems(e, e);
    hide FlattenAll;
    assert FirstBootargs(e.body, 0) == None && FirstChosen(DOUBLE.body, 0) == Some(0);
    assert IsChosen(DOUBLE.body[1]);
    assert SpotFrom(DOUBLE.body, 2, Some(1)) == New(1);
    assert SpotFrom(DOUBLE.body, 1, Some(0)) == New(1);
  }

  /** Setting "a" succeeds and puts it into the second /chosen. */
  lemma DoubleChosen()
    ensures !Editable(DOUBLE) && Makeable(DOUBLE) && Walkable(Make(DOUBLE, SPARE)) && Room(Make(DOUBLE, SPARE), A)
    ensures var r := SetBlob(Make(DOUBLE, SPARE), A);
      && r.0 == 0
      && Represents(r.1, Doc(0, [], [Child(CHOSEN, []), Child(CHOSEN, [P(BOOTARGS, A + [0])])], 0))
      && !Represents(r.1, SetBootargs(DOUBLE, NewBootargs(DOUBLE, A)))
  {
    hide HGet, ParseItems, Struct, Strings, FlattenDoc, SetBlob, Room, Make, Makeable, Wanted, SpotOf, Represents, Editable, SetBootargs, NewBootargs;
    DoubleIs();
    Ready(DOUBLE, A);
    EditMeans(Make(DOUBLE, SPARE), DOUBLE, A);
    EditMeansExactly(Make(DOUBLE, SPARE), DOUBLE, A);
    assert [P(BOOTARGS, A + [0])] + DOUBLE.body[1].body == [P(BOOTARGS, A + [0])];
    assert DOUBLE.body[1 := Child(CHOSEN, [P(BOOTARGS, A + [0])])] == [Child(CHOSEN, []), Child(CHOSEN, [P(BOOTARGS, A + [0])])];
  }

  // ---- a shadow -----------------------------------------------------------------------------------------

  /** A node "chosen@" with bootargs in front of /chosen. */
  const UNIT: seq<byte> := CHOSEN + [AT_SIGN]
  const SHADOW := Doc(0, [], [Child(UNIT, [P(BOOTARGS, X)]), Child(CHOSEN, [])], 0)

  lemma ShadowIs()
    ensures FlattenDoc(SHADOW) == [RBegin([]), RBegin(UNIT), RProp(BOOTARGS, X), REnd, RBegin(CHOSEN), REnd, REnd]
    ensures Wanted(SHADOW) == SpotOf(SHADOW) == New(1) && Editable(SHADOW) && Shadowed(SHADOW, 1)
    ensures KernelReads(SHADOW) == Some(X)
  {
    var e, f := Child(UNIT, [P(BOOTARGS, X)]), Child(CHOSEN, []);
    OneElem(P(BOOTARGS, X));
    OneElem(f);
    TwoElems(e, f);
    hide FlattenAll;
    assert |UNIT| == 7 && !IsChosen(e);
    assert FirstBootargs(f.body, 0) == None && FirstChosen(SHADOW.body, 0) == Some(1);
    assert Editable(SHADOW);
    SpotIsWanted(SHADOW);
    assert FirstBootargs(e.body, 0) == Some(0);
    assert NodeMatches(UNIT, CHOSEN);
    assert Offers(SHADOW.body[0]) == Some(X);
    ReadsFirst(SHADOW.body, 0);
  }

  /** Setting "a" in /chosen succeeds, and the kernel still reads the other one. */
  lemma ShadowedOnBlob()
    ensures Editable(SHADOW) && Makeable(SHADOW) && Walkable(Make(SHADOW, SPARE)) && Room(Make(SHADOW, SPARE), A)
    ensures var r := SetBlob(Make(SHADOW, SPARE), A); r.0 == 0 && Walkable(r.1) && BlobReads(r.1) == Some(X)
  {
    hide HGet, ParseItems, Struct, Strings, FlattenDoc, SetBlob, Room, Make, Makeable, BlobReads, Wanted, SpotOf, Shadowed, KernelReads, Editable;
    ShadowIs();
    Ready(SHADOW, A);
    EditMeans(Make(SHADOW, SPARE), SHADOW, A);
    KernelReadsWalked(SHADOW, A);
    BlobReadsTree(SetBlob(Make(SHADOW, SPARE), A).1, Walked(SHADOW, A));
  }
}
