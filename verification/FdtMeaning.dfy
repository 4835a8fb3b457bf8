/** Editing the blob is editing the tree. */
module FdtMeaning {
  import opened Options
  import opened Fdt
  import opened FdtTree
  import opened FdtTreeEdit
  import opened FdtBlob
  import opened FdtEdit
  import opened FdtSet
  import opened FdtRead

  // ---- names after the edit -------------------------------------------------------------------

  lemma ResolveSet(strs: seq<byte>, its: Items, k: nat, v: seq<byte>)
    requires NamesOk(strs, its.items) && k < |its.items| && its.items[k].Prop?
    ensures NamesOk(strs, WithValue(its, k, v).items)
    ensures Resolve(strs, its.items)[k].RProp?
    ensures Resolve(strs, WithValue(its, k, v).items)
      == Resolve(strs, its.items)[k := RProp(Resolve(strs, its.items)[k].name, v)]
  {
    hide CStr, NameOk;
  }

  lemma {:induction false} NameExtends(strs: seq<byte>, more: seq<byte>, off: nat)
    requires strs <= more && NameOk(strs, off)
    ensures NameOk(more, off) && CStr(more[off..]) == CStr(strs[off..])
  {
    assert strs[off..] <= more[off..];
    CStrLocal(strs[off..], more[off..]);
  }

  lemma ResolveExtends(strs: seq<byte>, more: seq<byte>, items: seq<Item>)
    requires strs <= more && NamesOk(strs, items)
    ensures NamesOk(more, items) && Resolve(more, items) == Resolve(strs, items)
  {
    hide CStr, Terminated;
    forall i | 0 <= i < |items| && items[i].Prop?
      ensures NameOk(more, items[i].nameoff) && CStr(more[items[i].nameoff..]) == CStr(strs[items[i].nameoff..])
    {
      NameExtends(strs, more, items[i].nameoff);
    }
  }

  lemma ResolveInsert(strs: seq<byte>, items: seq<Item>, k: nat, x: Item)
    requires NamesOk(strs, items) && k <= |items| && (x.Prop? ==> NameOk(strs, x.nameoff))
    ensures NamesOk(strs, items[..k] + [x] + items[k..])
    ensures var rs := Resolve(strs, items);
      Resolve(strs, items[..k] + [x] + items[k..]) == rs[..k] + [ResolveOne(strs, x)] + rs[k..]
  {
    hide CStr, NameOk, Resolve;
    var ys := items[..k] + [x] + items[k..];
    forall i | 0 <= i < |ys| && ys[i].Prop?
      ensures NameOk(strs, ys[i].nameoff)
    {
      if i > k { assert ys[i] == items[i - 1]; }
    }
  }

  // ---- the value ------------------------------------------------------------------------------

  /** The value the edit leaves at a place. */
  function NewFor(t: Doc, p: Spot, s: seq<byte>): seq<byte>
    requires SpotOk(t, p)
  {
    if p.Old? then NewValue(t.body[p.c].body[p.j].value, s) else s + [0]
  }

  /** What /chosen/bootargs should be after the edit. */
  function NewBootargs(t: Doc, s: seq<byte>): seq<byte> { NewFor(t, Wanted(t), s) }

  /** The tree that the walk makes of t. */
  function Walked(t: Doc, s: seq<byte>): Doc { SetSpot(t, SpotOf(t), NewFor(t, SpotOf(t), s)) }

  // ---- the theorem ----------------------------------------------------------------------------

  lemma WellFormed(d: seq<byte>, t: Doc)
    requires Represents(d, t)
    ensures Walkable(d) && LayoutTest(d)
    ensures Found(d) == TokenAt(t, SpotOf(t))
  {
    hide HGet, NamesOk, Resolve, FlattenDoc, Scan, SpotOf;
    assert |Struct(d)| >= 4;
    WalkGoes(t);
  }

  lemma ReplaceMeans(d: seq<byte>, t: Doc, s: seq<byte>, p: Spot)
    requires Represents(d, t) && SpotOk(t, p) && p.Old? && Walkable(d) && Found(d) == TokenAt(t, p) && Room(d, s)
    ensures Represents(ReplaceAt(d, Found(d).at, s), SetSpot(t, p, NewFor(t, p, s)))
    ensures Kept(d, ReplaceAt(d, Found(d).at, s))
  {
    hide HGet, NamesOk, Resolve, FlattenDoc, FlattenAll, Found, Struct, Strings, ParseItems, ReplaceBlob, TokenOffset, Fits, ChosenAt, Be32,
      SetSpot;
    var k, v := TokenAt(t, p).at, NewFor(t, p, s);
    var its, strs := ParseItems(Struct(d)), Strings(d);
    EditReplaces(t, v, p);
    ReplaceOk(d, k, Pos(d, k), s);
    ReplaceAtIs(d, k, Pos(d, k), s);
    ResolveSet(strs, its, k, v);
  }

  lemma InsertMeans(d: seq<byte>, t: Doc, s: seq<byte>, p: Spot)
    requires Represents(d, t) && SpotOk(t, p) && p.New? && Walkable(d) && Found(d) == TokenAt(t, p) && Room(d, s)
    ensures Represents(InsertBlob(d, Pos(d, Found(d).at), s), SetSpot(t, p, NewFor(t, p, s)))
    ensures Kept(d, InsertBlob(d, Pos(d, Found(d).at), s))
  {
    hide HGet, NamesOk, Resolve, FlattenDoc, FlattenAll, Found, Struct, Strings, ParseItems, InsertBlob, TokenOffset, ChosenAt, Be32, Named,
      SetSpot;
    var k, v := TokenAt(t, p).at, NewFor(t, p, s);
    var items, strs := ParseItems(Struct(d)).items, Strings(d);
    InsertOk(d, k, Pos(d, k), s);
    NamedOk(d);
    var (m, noff) := Named(d);
    ResolveExtends(strs, Strings(m), items);
    ResolveInsert(Strings(m), items, k, Prop(noff, v));
    EditInserts(t, v, p);
  }

  /** For every blob that flattens a tree, every command line and enough room: without /chosen the
      call fails and changes nothing; with it, the new blob flattens the tree with only the property
      at the walk's place changed, and everything in front of the structure block is kept. */
  lemma EditMeans(d: seq<byte>, t: Doc, s: seq<byte>)
    requires Represents(d, t) && Walkable(d) && Room(d, s)
    ensures Wanted(t).Nowhere? ==> SetBlob(d, s) == (-4, d)
    ensures !Wanted(t).Nowhere? ==> SetBlob(d, s).0 == 0 && Kept(d, SetBlob(d, s).1)
    ensures !Wanted(t).Nowhere? ==> Represents(SetBlob(d, s).1, Walked(t, s))
  {
    hide HGet, NamesOk, Resolve, FlattenDoc, Found, Struct, Strings, ParseItems, InsertBlob, ReplaceAt, TokenOffset, Room, Be32, SetSpot, NewFor,
      SpotOf, Wanted, ChosenAt, FlattenAll;
    WellFormed(d, t);
    SpotIsWanted(t);
    match SpotOf(t) {
      case Nowhere =>
      case Old(_, _) => ReplaceMeans(d, t, s, SpotOf(t));
      case New(_) => InsertMeans(d, t, s, SpotOf(t));
    }
  }

  // ---- when that is setting /chosen/bootargs --------------------------------------------------------

  /** The command line stands already at both places, so that neither edit changes anything. */
  predicate Idle(t: Doc, s: seq<byte>) {
    var p, q := SpotOf(t), Wanted(t);
    && p.Old? && q.Old? && NewFor(t, p, s) == t.body[p.c].body[p.j].value
    && NewFor(t, q, s) == t.body[q.c].body[q.j].value
  }

  lemma SetSame(t: Doc, p: Spot)
    requires SpotOk(t, p) && p.Old?
    ensures SetSpot(t, p, t.body[p.c].body[p.j].value) == t
  {
    var e := t.body[p.c];
    assert e.body[p.j := e.body[p.j]] == e.body;
    assert t.body[p.c := e] == t.body;
  }

  /** Edits at two places agree only if both change nothing. */
  lemma SetsDiffer(t: Doc, p: Spot, q: Spot, v: seq<byte>, w: seq<byte>)
    requires SpotOk(t, p) && SpotOk(t, q) && !p.Nowhere? && !q.Nowhere? && (p.c == q.c ==> p.New? && q.Old?)
    requires SetSpot(t, p, v) == SetSpot(t, q, w)
    ensures p.Old? && q.Old? && v == t.body[p.c].body[p.j].value && w == t.body[q.c].body[q.j].value
  {
    hide SetSpot;
    if p.c == q.c {
      SameElem(t, p, q, v, w);
    } else {
      Untouched(t, p, q.c, v);
      Untouched(t, q, p.c, w);
      LeavesOne(t, p, v);
      LeavesOne(t, q, w);
    }
  }

  lemma SameElem(t: Doc, p: Spot, q: Spot, v: seq<byte>, w: seq<byte>)
    requires SpotOk(t, p) && SpotOk(t, q) && p.New? && q.Old? && p.c == q.c
    ensures SetSpot(t, p, v) != SetSpot(t, q, w)
  {
    assert |SetSpot(t, p, v).body[p.c].body| == |t.body[p.c].body| + 1;
    assert |SetSpot(t, q, w).body[p.c].body| == |t.body[p.c].body|;
  }

  lemma Untouched(t: Doc, p: Spot, i: nat, v: seq<byte>)
    requires SpotOk(t, p) && !p.Nowhere? && i < |t.body| && i != p.c
    ensures |SetSpot(t, p, v).body| == |t.body| && SetSpot(t, p, v).body[i] == t.body[i]
  {
  }

  /** An edit that leaves its element alone sets the value that is there. */
  lemma LeavesOne(t: Doc, p: Spot, v: seq<byte>)
    requires SpotOk(t, p) && !p.Nowhere?
    ensures SetSpot(t, p, v).body[p.c] == t.body[p.c] ==> p.Old? && v == t.body[p.c].body[p.j].value
  {
    var es, fs := t.body[p.c].body, SetSpot(t, p, v).body[p.c].body;
    assert p.New? ==> |fs| == |es| + 1;
    assert p.Old? ==> fs[p.j] == P(BOOTARGS, v);
  }

  /** The walk sets /chosen/bootargs and nothing else exactly in the editable trees, and where it
      leaves everything as it is. */
  lemma WalkedExactly(t: Doc, s: seq<byte>)
    ensures Walked(t, s) == SetBootargs(t, NewBootargs(t, s)) <==> Editable(t) || Idle(t, s)
  {
    hide FirstChosen, FirstBootargs, SetSpot, SpotOf, Wanted, NewValue, SetBootargs;
    var p, q := SpotOf(t), Wanted(t);
    SpotIsWanted(t);
    SetIsWanted(t, NewBootargs(t, s));
    if Idle(t, s) {
      SetSame(t, p);
      SetSame(t, q);
    } else if p != q && Walked(t, s) == SetBootargs(t, NewBootargs(t, s)) {
      SpotsApart(t);
      SetsDiffer(t, p, q, NewFor(t, p, s), NewFor(t, q, s));
    }
  }

  lemma SpotsApart(t: Doc)
    requires SpotOf(t) != Wanted(t)
    ensures !SpotOf(t).Nowhere? && !Wanted(t).Nowhere?
    ensures SpotOf(t).c == Wanted(t).c ==> SpotOf(t).New? && Wanted(t).Old?
  {
    hide FirstChosen, FirstBootargs, SpotFrom;
    SpotIsWanted(t);
  }

  /** So, of every blob of a tree with /chosen: the call leaves the blob of the tree with only
      /chosen/bootargs set exactly under that condition. */
  lemma EditMeansExactly(d: seq<byte>, t: Doc, s: seq<byte>)
    requires Represents(d, t) && Walkable(d) && Room(d, s) && !Wanted(t).Nowhere?
    ensures Represents(SetBlob(d, s).1, SetBootargs(t, NewBootargs(t, s))) <==> Editable(t) || Idle(t, s)
  {
    hide Represents, Room, SetBlob, SetBootargs, NewBootargs, Walked, Wanted, Idle, Editable, ParseItems, NamesOk, Struct, Strings;
    EditMeans(d, t, s);
    WalkedExactly(t, s);
    if Represents(SetBlob(d, s).1, SetBootargs(t, NewBootargs(t, s))) {
      OneTree(SetBlob(d, s).1, Walked(t, s), SetBootargs(t, NewBootargs(t, s)));
    }
  }

  lemma OneTree(d: seq<byte>, t: Doc, u: Doc)
    requires Represents(d, t) && Represents(d, u)
    ensures t == u
  {
    hide HGet, NamesOk, Resolve, FlattenDoc, Struct, Strings, ParseItems;
    DocUnique(t, u);
  }

  // ---- what the kernel reads back ---------------------------------------------------------------

  /** An element in front of c shows the reader another bootargs. */
  predicate Shadowed(t: Doc, c: nat) {
    exists i :: 0 <= i < c && i < |t.body| && Offers(t.body[i]).Some?
  }

  lemma {:induction false} ReadsShadow(es: seq<Elem>, fs: seq<Elem>, c: nat, i: nat)
    requires i < c <= |es| && c <= |fs| && (forall k :: 0 <= k < c ==> es[k] == fs[k]) && Offers(es[i]).Some?
    ensures PropIn(es, [CHOSEN], BOOTARGS) == PropIn(fs, [CHOSEN], BOOTARGS)
    decreases i
  {
    hide Offers;
    OffersIs(es[0]);
    FirstElem(es, [CHOSEN], BOOTARGS);
    FirstElem(fs, [CHOSEN], BOOTARGS);
    if i > 0 {
      ReadsShadow(es[1..], fs[1..], c - 1, i - 1);
    }
  }

  lemma SpotOffers(t: Doc, v: seq<byte>)
    requires !SpotOf(t).Nowhere?
    ensures var p := SpotOf(t); |SetSpot(t, p, v).body| == |t.body| && Offers(SetSpot(t, p, v).body[p.c]) == Some(v)
  {
    hide FirstChosen, FirstBootargs, SpotFrom;
    var p := SpotOf(t);
    var fs := SetSpot(t, p, v).body[p.c].body;
    var j := if p.Old? then p.j else 0;
    assert IsBootargs(fs[j]);
    if p.Old? {
      assert forall i :: 0 <= i < j ==> fs[i] == t.body[p.c].body[i];
    }
    assert FirstBootargs(fs, 0) == Some(j);
  }

  /** The kernel reads the value the walk left, unless it is shadowed; then it reads what it read before. */
  lemma KernelReadsWalked(t: Doc, s: seq<byte>)
    requires !SpotOf(t).Nowhere?
    ensures KernelReads(Walked(t, s)) == if Shadowed(t, SpotOf(t).c) then KernelReads(t) else Some(NewFor(t, SpotOf(t), s))
  {
    hide Offers, SpotOf, NewFor, SetSpot, PropIn;
    var p, v := SpotOf(t), NewFor(t, SpotOf(t), s);
    var u := Walked(t, s);
    SpotOffers(t, v);
    forall k | 0 <= k < p.c
      ensures u.body[k] == t.body[k]
    {
      Untouched(t, p, k, v);
    }
    if Shadowed(t, p.c) {
      var i :| 0 <= i < p.c && i < |t.body| && Offers(t.body[i]).Some?;
      ReadsShadow(t.body, u.body, p.c, i);
    } else {
      ReadsFirst(u.body, p.c);
    }
  }

  /** Read as a C string. */
  predicate ReadsAs(v: Option<seq<byte>>, s: seq<byte>) {
    match v
    case None => false
    case Some(b) => Terminated(b) && CStr(b) == s
  }

  /** The walk overwrites a value in the same-padding corner. */
  predicate Corner(t: Doc, s: seq<byte>) {
    var p := SpotOf(t);
    p.Old? && SamePaddingCorner(t.body[p.c].body[p.j].value, s)
  }

  /** The kernel reads the command line back, as a C string, exactly when no other bootargs shadows it
      and the old value was not in the corner; shadowed, when the one in front says the same already. */
  lemma ReadsBack(t: Doc, s: seq<byte>)
    requires !SpotOf(t).Nowhere? && 0 !in s
    ensures ReadsAs(KernelReads(Walked(t, s)), s) <==>
      if Shadowed(t, SpotOf(t).c) then ReadsAs(KernelReads(t), s) else !Corner(t, s)
  {
    hide KernelReads, Walked, Shadowed, SpotOf, NewValue, Align4;
    KernelReadsWalked(t, s);
    var p := SpotOf(t);
    if p.Old? {
      NewValueReadsBack(t.body[p.c].body[p.j].value, s);
    } else {
      StrLenIs(s + [0], |s|);
    }
  }

  /** What kfdt_getprop returns for /chosen bootargs on a blob. */
  function BlobReads(d: seq<byte>): Option<seq<byte>>
    requires Walkable(d)
  {
    var items := ParseItems(Struct(d)).items;
    match GetFrom(Resolve(Strings(d), items), [CHOSEN], BOOTARGS, 0, 0, 0)
    case None => None
    case Some(k) => Some(items[k].value)
  }

  lemma BlobReadsTree(d: seq<byte>, t: Doc)
    requires Represents(d, t)
    ensures Walkable(d) && BlobReads(d) == KernelReads(t)
  {
    hide HGet, NamesOk, FlattenDoc, Struct, Strings, ParseItems, PropIn, GetFrom, SpotOf, TokenAt;
    WellFormed(d, t);
    GetFinds(t, [CHOSEN], BOOTARGS);
  }

  /** From the bootloader's edit to the kernel's reader: of every blob of a tree with /chosen, every
      command line and enough room. */
  lemma BlobReadsBack(d: seq<byte>, t: Doc, s: seq<byte>)
    requires Represents(d, t) && Walkable(d) && Room(d, s) && !Wanted(t).Nowhere? && 0 !in s
    ensures Walkable(SetBlob(d, s).1)
    ensures ReadsAs(BlobReads(SetBlob(d, s).1), s) <==>
      if Shadowed(t, SpotOf(t).c) then ReadsAs(BlobReads(d), s) else !Corner(t, s)
  {
    hide Represents, Room, SetBlob, Walked, Corner, ParseItems, NamesOk, Struct, Strings, SpotOf, Wanted, BlobReads, KernelReads, Shadowed, ReadsAs;
    SpotIsWanted(t);
    EditMeans(d, t, s);
    ReadsBack(t, s);
    BlobReadsTree(d, t);
    BlobReadsTree(SetBlob(d, s).1, Walked(t, s));
  }

  lemma NewValueReadsBack(was: seq<byte>, s: seq<byte>)
    requires 0 !in s
    ensures var v := NewValue(was, s); Terminated(v) && CStr(v) == s <==> !SamePaddingCorner(was, s)
  {
    hide Align4;
    var v := NewValue(was, s);
    NewValueIsCString(was, s);
    if !SamePaddingCorner(was, s) {
      assert v[..|s| + 1] == s + [0];
      forall i | 0 <= i <= |s|
        ensures v[i] == (s + [0])[i]
      {
        assert v[i] == v[..|s| + 1][i];
      }
      StrLenIs(v, |s|);
    } else if Terminated(v) {
      assert |CStr(v)| <= |v| - 1;
      assert |was| <= |s|;
      AlignMono(|was|, |s| + 1);
    }
  }

  /** In the corner the terminator is lost: one byte was stored, two are wanted. */
  lemma CornerLosesTheTerminator()
    ensures Align4(1) == 4 && SamePaddingCorner([120], [97, 98])
    ensures NewValue([120], [97, 98]) == [97] && !Terminated(NewValue([120], [97, 98]))
  {
  }

  // ---- a second call -----------------------------------------------------------------------------

  lemma NewValueAgain(was: seq<byte>, s: seq<byte>)
    ensures var v := NewValue(was, s); GrowBy(|v|, s) == 0 && Padded(s, |v|) == v
  {
    hide Align4;
  }

  /** Setting the same value again: in place, byte for byte the same. */
  lemma ReplaceSame(d: seq<byte>, k: nat, s: seq<byte>)
    requires Layout(d) && k < |ParseItems(Struct(d)).items| && ParseItems(Struct(d)).items[k].Prop?
    requires var v := ParseItems(Struct(d)).items[k].value; GrowBy(|v|, s) == 0 && Padded(s, |v|) == v
    ensures ReplaceAt(d, k, s) == d
  {
    hide ParseItems, ParseToken, Struct, HGet, Be32, Align4, TokenOffset, Padded, ReplaceBlob;
    var tp := Pos(d, k);
    ReplaceAtIs(d, k, tp, s);
    TokenInBlob(d, k, tp);
    ValueInBlob(d, k, tp);
    FitIs(d, tp, s);
    var v := ParseItems(Struct(d)).items[k].value;
    assert d[..tp + 12] + d[tp + 12..tp + 12 + |v|] + d[tp + 12 + |v|..] == d;
  }

  lemma ValueInBlob(d: seq<byte>, k: nat, tp: nat)
    requires Layout(d) && PropThere(d, k, tp)
    ensures var v := ParseItems(Struct(d)).items[k].value; tp + 12 + |v| <= |d| && d[tp + 12..tp + 12 + |v|] == v
  {
    hide ParseToken, ParseItems, TokenOffset, Be32, HGet, Align4;
    var st := Struct(d);
    var o := TokenOffset(st, k);
    TokenThere(st, k);
    PropShape(st[o..]);
    InBlob(d, HGet(d, H_OFF_STRUCT), |st|, o, 12, 12 + |ParseItems(st).items[k].value|);
  }

  /** After the edit the walk goes to the same property. */
  lemma SpotAgain(t: Doc, v: seq<byte>)
    requires !SpotOf(t).Nowhere?
    ensures var p := SpotOf(t); SpotOf(SetSpot(t, p, v)) == Old(p.c, if p.Old? then p.j else 0)
    ensures var p := SpotOf(t); SpotOk(SetSpot(t, p, v), Old(p.c, if p.Old? then p.j else 0))
    ensures var p := SpotOf(t); SetSpot(t, p, v).body[p.c].body[if p.Old? then p.j else 0].value == v
  {
    hide FirstChosen, FirstBootargs, SpotFrom;
    var p := SpotOf(t);
    var u, j := SetSpot(t, p, v), if p.Old? then p.j else 0;
    var es, fs := t.body[p.c].body, u.body[p.c].body;
    assert IsBootargs(fs[j]) && fs[j].value == v;
    if p.Old? {
      assert forall i :: 0 <= i < j ==> fs[i] == es[i];
    }
    assert FirstBootargs(fs, 0) == Some(j);
    assert InSight(fs) == Some(j);
    forall i | 0 <= i < p.c && IsChosen(u.body[i])
      ensures InSight(u.body[i].body).None?
    {
      Untouched(t, p, i, v);
    }
    var q := SpotOf(u);
    assert IsChosen(u.body[p.c]);
  }

  /** A second call with the same command line succeeds, needs no room, and leaves the blob identical
      (in the corner too). */
  lemma EditTwice(d: seq<byte>, t: Doc, s: seq<byte>)
    requires Represents(d, t) && Walkable(d) && Room(d, s) && !Wanted(t).Nowhere?
    ensures var e := SetBlob(d, s).1; Walkable(e) && Room(e, s) && SetBlob(e, s) == (0, e)
  {
    hide HGet, NamesOk, Resolve, FlattenDoc, Found, Struct, Strings, ParseItems, ReplaceAt, TokenOffset, Be32,
         SetSpot, NewFor, SpotOf, Wanted, SetBlob, GrowBy, Padded, TokenAt;
    var e, v := SetBlob(d, s).1, NewFor(t, SpotOf(t), s);
    var u := Walked(t, s);
    SpotIsWanted(t);
    EditMeans(d, t, s);
    SpotAgain(t, v);
    WellFormed(e, u);
    var q := SpotOf(u);
    EditReplaces(u, v, q);
    IsReplace(u, q);
    NewForAgain(t, SpotOf(t), s);
    ReplaceSame(e, TokenAt(u, q).at, s);
    SetBlobReplaces(e, s);
  }

  lemma IsReplace(t: Doc, p: Spot)
    requires SpotOk(t, p) && p.Old?
    ensures TokenAt(t, p).Replace?
  {
  }

  lemma NewForAgain(t: Doc, p: Spot, s: seq<byte>)
    requires SpotOk(t, p)
    ensures var v := NewFor(t, p, s); GrowBy(|v|, s) == 0 && Padded(s, |v|) == v
  {
    hide Align4, Padded, NewValue, GrowBy;
    if p.Old? {
      NewValueAgain(t.body[p.c].body[p.j].value, s);
    } else {
      NewValueAgain([], s);
      WholeString(s);
    }
  }

  lemma WholeString(s: seq<byte>)
    ensures NewValue([], s) == s + [0]
  {
  }

  lemma SetBlobReplaces(d: seq<byte>, s: seq<byte>)
    requires Walkable(d) && HGet(d, 0) == MAGIC && LayoutTest(d) && Room(d, s) && Found(d).Replace?
    ensures SetBlob(d, s) == (0, ReplaceAt(d, Found(d).at, s))
  {
    hide Found, ReplaceAt, Room, ParseItems, Struct;
  }
}
