/** The tree behind the tokens, the edit on the tree, and where the token walk of
    fdt_set_bootargs finds its place. */
module FdtTree {
  import opened Options
  import opened Fdt

  // ---- tokens with their property names looked up -------------------------------------

  datatype RItem = RBegin(name: seq<byte>) | REnd | RProp(name: seq<byte>, value: seq<byte>) | RNop

  predicate NameOk(strs: seq<byte>, off: nat) { off <= |strs| && Terminated(strs[off..]) }

  predicate NamesOk(strs: seq<byte>, items: seq<Item>) {
    forall i :: 0 <= i < |items| && items[i].Prop? ==> NameOk(strs, items[i].nameoff)
  }

  function ResolveOne(strs: seq<byte>, x: Item): RItem
    requires x.Prop? ==> NameOk(strs, x.nameoff)
  {
    match x
    case Begin(n) => RBegin(n)
    case End => REnd
    case Nop => RNop
    case Prop(off, v) => RProp(CStr(strs[off..]), v)
  }

  function Resolve(strs: seq<byte>, items: seq<Item>): (rs: seq<RItem>)
    requires NamesOk(strs, items)
    ensures |rs| == |items| && forall i :: 0 <= i < |rs| ==> rs[i] == ResolveOne(strs, items[i])
  {
    if items == [] then [] else Resolve(strs, items[..|items| - 1]) + [ResolveOne(strs, items[|items| - 1])]
  }

  // ---- trees ------------------------------------------------------------------------------

  /** A property, a NOP, or a node with its contents in order. */
  datatype Elem = P(name: seq<byte>, value: seq<byte>) | N | Child(name: seq<byte>, body: seq<Elem>)

  function Flatten(e: Elem): (rs: seq<RItem>)
    decreases e, 0
  {
    match e
    case P(n, v) => [RProp(n, v)]
    case N => [RNop]
    case Child(n, b) => [RBegin(n)] + FlattenAll(b) + [REnd]
  }

  function FlattenAll(es: seq<Elem>): (rs: seq<RItem>)
    decreases es, 1
  {
    if es == [] then [] else Flatten(es[0]) + FlattenAll(es[1..])
  }

  lemma {:induction false} FlattenConcat(a: seq<Elem>, b: seq<Elem>)
    ensures FlattenAll(a + b) == FlattenAll(a) + FlattenAll(b)
    decreases |a|
  {
    if a == [] {
      assert a + b == b;
    } else {
      FlattenConcat(a[1..], b);
      assert (a + b)[1..] == a[1..] + b;
      assert Flatten(a[0]) + (FlattenAll(a[1..]) + FlattenAll(b)) == (Flatten(a[0]) + FlattenAll(a[1..])) + FlattenAll(b);
    }
  }

  /** A whole tree, with the NOPs before and after its root. */
  datatype Doc = Doc(lead: nat, name: seq<byte>, body: seq<Elem>, trail: nat)

  function Nops(n: nat): seq<RItem> { seq(n, _ => RNop) }

  function FlattenDoc(t: Doc): seq<RItem> {
    Nops(t.lead) + ([RBegin(t.name)] + FlattenAll(t.body) + [REnd]) + Nops(t.trail)
  }

  // ---- the edit -----------------------------------------------------------------------------

  predicate IsChosen(e: Elem) { e.Child? && e.name == CHOSEN }
  predicate IsBootargs(e: Elem) { e.P? && e.name == BOOTARGS }

  /** Where the first element with a property is, from k on. */
  function FirstBootargs(es: seq<Elem>, k: nat): (r: Option<nat>)
    requires k <= |es|
    ensures r.Some? ==> k <= r.value < |es| && IsBootargs(es[r.value]) && forall i :: k <= i < r.value ==> !IsBootargs(es[i])
    ensures r.None? ==> forall i :: k <= i < |es| ==> !IsBootargs(es[i])
    decreases |es| - k
  {
    if k == |es| then None else if IsBootargs(es[k]) then Some(k) else FirstBootargs(es, k + 1)
  }

  function FirstChosen(es: seq<Elem>, k: nat): (r: Option<nat>)
    requires k <= |es|
    ensures r.Some? ==> k <= r.value < |es| && IsChosen(es[r.value]) && forall i :: k <= i < r.value ==> !IsChosen(es[i])
    ensures r.None? ==> forall i :: k <= i < |es| ==> !IsChosen(es[i])
    decreases |es| - k
  {
    if k == |es| then None else if IsChosen(es[k]) then Some(k) else FirstChosen(es, k + 1)
  }

  /** The property replaced where it is, or put first. */
  function SetProp(es: seq<Elem>, v: seq<byte>): seq<Elem> {
    match FirstBootargs(es, 0)
    case Some(j) => es[j := P(BOOTARGS, v)]
    case None => [P(BOOTARGS, v)] + es
  }

  /** /chosen/bootargs set to v; nothing else changes. */
  function SetBootargs(t: Doc, v: seq<byte>): Doc {
    match FirstChosen(t.body, 0)
    case None => t
    case Some(c) => t.(body := t.body[c := Child(CHOSEN, SetProp(t.body[c].body, v))])
  }

  // ---- places of the edit -----------------------------------------------------------------------

  /** The property at j in element c of the root, a new first property of element c, or no place. */
  datatype Spot = Old(c: nat, j: nat) | New(c: nat) | Nowhere

  predicate SpotOk(t: Doc, p: Spot) {
    match p
    case Old(c, j) => c < |t.body| && IsChosen(t.body[c]) && j < |t.body[c].body| && IsBootargs(t.body[c].body[j])
    case New(c) => c < |t.body| && IsChosen(t.body[c])
    case Nowhere => true
  }

  function SetSpot(t: Doc, p: Spot, v: seq<byte>): Doc
    requires SpotOk(t, p)
  {
    match p
    case Old(c, j) => t.(body := t.body[c := Child(CHOSEN, t.body[c].body[j := P(BOOTARGS, v)])])
    case New(c) => t.(body := t.body[c := Child(CHOSEN, [P(BOOTARGS, v)] + t.body[c].body)])
    case Nowhere => t
  }

  /** Where /chosen/bootargs is, or would be put first. */
  function Wanted(t: Doc): (p: Spot)
    ensures SpotOk(t, p)
  {
    match FirstChosen(t.body, 0)
    case None => Nowhere
    case Some(c) =>
      match FirstBootargs(t.body[c].body, 0)
      case Some(j) => Old(c, j)
      case None => New(c)
  }

  lemma SetIsWanted(t: Doc, v: seq<byte>)
    ensures SetBootargs(t, v) == SetSpot(t, Wanted(t), v)
  {
    hide FirstChosen, FirstBootargs;
  }

  /** The first bootargs, unless a subnode comes before it. */
  function InSight(es: seq<Elem>): (r: Option<nat>) {
    match FirstBootargs(es, 0)
    case None => None
    case Some(j) => if forall i :: 0 <= i < j ==> !es[i].Child? then Some(j) else None
  }

  /** Where the walk edits: the first /chosen with bootargs in sight; without one, the front of the
      last /chosen, which is `last` when none comes from k on. */
  function SpotFrom(es: seq<Elem>, k: nat, last: Option<nat>): (p: Spot)
    requires k <= |es|
    ensures p.Old? ==> k <= p.c < |es| && IsChosen(es[p.c]) && InSight(es[p.c].body) == Some(p.j)
    ensures p.Old? ==> forall i :: k <= i < p.c && IsChosen(es[i]) ==> InSight(es[i].body).None?
    ensures !p.Old? ==> forall i :: k <= i < |es| && IsChosen(es[i]) ==> InSight(es[i].body).None?
    ensures p.New? ==> last == Some(p.c) || (k <= p.c < |es| && IsChosen(es[p.c]))
    ensures p.New? ==> forall i :: k <= i < |es| && IsChosen(es[i]) ==> i <= p.c || last == Some(p.c)
    ensures p.New? && !(k <= p.c < |es| && IsChosen(es[p.c])) ==> forall i :: k <= i < |es| ==> !IsChosen(es[i])
    ensures p.Nowhere? <==> last.None? && forall i :: k <= i < |es| ==> !IsChosen(es[i])
    decreases |es| - k
  {
    if k == |es| then (if last.Some? then New(last.value) else Nowhere)
    else if !IsChosen(es[k]) then SpotFrom(es, k + 1, last)
    else if InSight(es[k].body).Some? then Old(k, InSight(es[k].body).value)
    else SpotFrom(es, k + 1, Some(k))
  }

  function SpotOf(t: Doc): (p: Spot)
    ensures SpotOk(t, p)
    ensures p.Old? ==> InSight(t.body[p.c].body) == Some(p.j) && forall i :: 0 <= i < p.c && IsChosen(t.body[i]) ==> InSight(t.body[i].body).None?
    ensures !p.Old? ==> forall i :: 0 <= i < |t.body| && IsChosen(t.body[i]) ==> InSight(t.body[i].body).None?
    ensures p.New? ==> forall i :: p.c < i < |t.body| ==> !IsChosen(t.body[i])
  {
    SpotFrom(t.body, 0, None)
  }

  /** The walk sees the place: bootargs is not behind a subnode, or, when there is none, there is no
      second /chosen. */
  predicate Editable(t: Doc) {
    match Wanted(t)
    case Nowhere => true
    case Old(c, j) => forall i :: 0 <= i < j ==> !t.body[c].body[i].Child?
    case New(c) => forall i :: c < i < |t.body| ==> !IsChosen(t.body[i])
  }

  /** Those are exactly the trees in which the walk's place is the wanted one. */
  lemma SpotIsWanted(t: Doc)
    ensures SpotOf(t) == Wanted(t) <==> Editable(t)
    ensures SpotOf(t).Nowhere? <==> Wanted(t).Nowhere?
  {
    hide FirstChosen, FirstBootargs, SpotFrom;
    var p := SpotOf(t);
    if Wanted(t).New? {
      assert InSight(t.body[Wanted(t).c].body).None?;
    }
  }

  // ---- the walk -------------------------------------------------------------------------------

  datatype Place = Replace(at: nat) | Insert(at: nat) | Missing

  /** The walk of fdt_set_bootargs over the tokens from k on. */
  function Scan(rs: seq<RItem>, k: nat, depth: int, inChosen: bool, body: Option<nat>): (r: Place)
    requires k <= |rs|
    decreases |rs| - k
  {
    if k == |rs| then (if body.Some? then Insert(body.value) else Missing)
    else match rs[k]
      case RNop => Scan(rs, k + 1, depth, inChosen, body)
      case RBegin(n) =>
        var c := depth + 1 == 2 && n == CHOSEN;
        Scan(rs, k + 1, depth + 1, c, if c then Some(k + 1) else body)
      case REnd => Scan(rs, k + 1, depth - 1, false, body)
      case RProp(n, _) =>
        if inChosen && n == BOOTARGS then Replace(k) else Scan(rs, k + 1, depth, inChosen, body)
  }

  predicate At(rs: seq<RItem>, k: nat, xs: seq<RItem>) {
    k + |xs| <= |rs| && rs[k..k + |xs|] == xs
  }

  lemma AtSplit(rs: seq<RItem>, k: nat, a: seq<RItem>, b: seq<RItem>)
    requires At(rs, k, a + b)
    ensures At(rs, k, a) && At(rs, k + |a|, b)
  {
    assert rs[k..k + |a|] == rs[k..k + |a + b|][..|a|];
    assert rs[k + |a|..k + |a| + |b|] == rs[k..k + |a + b|][|a|..];
  }

  lemma AtHead(rs: seq<RItem>, k: nat, x: RItem)
    requires At(rs, k, [x])
    ensures k < |rs| && rs[k] == x
  {
    assert rs[k..k + 1][0] == rs[k];
  }

  lemma AtNode(rs: seq<RItem>, k: nat, n: seq<byte>, b: seq<Elem>)
    requires At(rs, k, [RBegin(n)] + FlattenAll(b) + [REnd])
    ensures var m := |FlattenAll(b)|;
      k + m + 1 < |rs| && rs[k] == RBegin(n) && At(rs, k + 1, FlattenAll(b)) && rs[k + 1 + m] == REnd
  {
    hide At, FlattenAll;
    AtSplit(rs, k, [RBegin(n)] + FlattenAll(b), [REnd]);
    AtSplit(rs, k, [RBegin(n)], FlattenAll(b));
    AtHead(rs, k, RBegin(n));
    AtHead(rs, k + 1 + |FlattenAll(b)|, REnd);
  }

  /** in_chosen after contents that were entered with it: a subnode clears it. */
  predicate Stays(es: seq<Elem>, inC: bool) {
    inC && forall i :: 0 <= i < |es| ==> !es[i].Child?
  }

  /** The walk passes a whole subtree other than /chosen. */
  lemma {:induction false} SkipElem(rs: seq<RItem>, k: nat, e: Elem, depth: int, inC: bool, body: Option<nat>)
    requires At(rs, k, Flatten(e)) && depth >= 1 && (depth == 1 ==> !IsChosen(e)) && (inC ==> !IsBootargs(e))
    ensures k + |Flatten(e)| <= |rs|
    ensures Scan(rs, k, depth, inC, body) == Scan(rs, k + |Flatten(e)|, depth, inC && !e.Child?, body)
    decreases e, 0
  {
    hide At, FlattenAll;
    AtBound(rs, k, Flatten(e));
    match e {
      case P(n, v) => AtHead(rs, k, RProp(n, v));
      case N => AtHead(rs, k, RNop);
      case Child(n, b) =>
        AtNode(rs, k, n, b);
        SkipAll(rs, k + 1, b, depth + 1, false, body);
        NodeStep(rs, k, n, |FlattenAll(b)|, depth, inC, body, Stays(b, false));
    }
  }

  lemma NodeStep(rs: seq<RItem>, k: nat, n: seq<byte>, m: nat, depth: int, inC: bool, body: Option<nat>, f: bool)
    requires k + m + 1 < |rs| && rs[k] == RBegin(n) && rs[k + 1 + m] == REnd
    requires !(depth + 1 == 2 && n == CHOSEN)
    requires Scan(rs, k + 1, depth + 1, false, body) == Scan(rs, k + 1 + m, depth + 1, f, body)
    ensures Scan(rs, k, depth, inC, body) == Scan(rs, k + m + 2, depth, false, body)
  {
  }

  /** Every bootargs comes behind a subnode. */
  predicate Blind(es: seq<Elem>) {
    forall i :: 0 <= i < |es| && IsBootargs(es[i]) ==> exists k :: 0 <= k < i && es[k].Child?
  }

  lemma BlindTail(es: seq<Elem>)
    requires es != [] && Blind(es)
    ensures !IsBootargs(es[0]) && (!es[0].Child? ==> Blind(es[1..]))
  {
    if !es[0].Child? {
      forall i | 0 <= i < |es| - 1 && IsBootargs(es[1..][i])
        ensures exists k :: 0 <= k < i && es[1..][k].Child?
      {
        assert IsBootargs(es[i + 1]);
        var k :| 0 <= k < i + 1 && es[k].Child?;
        assert es[1..][k - 1].Child?;
      }
    }
  }

  lemma NotInSight(es: seq<Elem>)
    requires InSight(es).None?
    ensures Blind(es)
  {
    hide FirstBootargs;
  }

  /** The walk passes contents without the property in sight. */
  lemma {:induction false} SkipAll(rs: seq<RItem>, k: nat, es: seq<Elem>, depth: int, inC: bool, body: Option<nat>)
    requires At(rs, k, FlattenAll(es)) && depth >= 1 && (depth == 1 ==> forall i :: 0 <= i < |es| ==> !IsChosen(es[i]))
    requires inC ==> Blind(es)
    ensures k + |FlattenAll(es)| <= |rs|
    ensures Scan(rs, k, depth, inC, body) == Scan(rs, k + |FlattenAll(es)|, depth, Stays(es, inC), body)
    decreases es, 1
  {
    hide At, Scan, Blind;
    AtBound(rs, k, FlattenAll(es));
    if es != [] {
      if inC {
        BlindTail(es);
      }
      AtSplit(rs, k, Flatten(es[0]), FlattenAll(es[1..]));
      SkipElem(rs, k, es[0], depth, inC, body);
      SkipAll(rs, k + |Flatten(es[0])|, es[1..], depth, inC && !es[0].Child?, body);
      assert Stays(es, inC) == Stays(es[1..], inC && !es[0].Child?) by { StaysTail(es, inC); }
    }
  }

  lemma StaysTail(es: seq<Elem>, inC: bool)
    requires es != []
    ensures Stays(es, inC) == Stays(es[1..], inC && !es[0].Child?)
  {
    assert es == [es[0]] + es[1..];
  }

  lemma AtBound(rs: seq<RItem>, k: nat, xs: seq<RItem>)
    requires At(rs, k, xs)
    ensures k + |xs| <= |rs|
  {
  }

  // ---- the walk finds the place of the edit ----------------------------------------------------

  lemma {:induction false} FlatProps(es: seq<Elem>)
    requires forall i :: 0 <= i < |es| ==> !es[i].Child?
    ensures |FlattenAll(es)| == |es|
  {
    if es != [] {
      FlatProps(es[1..]);
    }
  }

  lemma SplitAt(es: seq<Elem>, j: nat)
    requires j < |es|
    ensures FlattenAll(es) == FlattenAll(es[..j]) + Flatten(es[j]) + FlattenAll(es[j + 1..])
  {
    hide Flatten;
    assert es == es[..j] + es[j..];
    FlattenConcat(es[..j], es[j..]);
    assert es[j..][1..] == es[j + 1..];
    var a, b, c := FlattenAll(es[..j]), Flatten(es[j]), FlattenAll(es[j + 1..]);
    assert a + (b + c) == a + b + c;
  }

  /** Inside /chosen with a bootargs property: the walk stops at it. */
  lemma ChosenWithBootargs(rs: seq<RItem>, k: nat, es: seq<Elem>, j: nat, body: Option<nat>)
    requires At(rs, k, FlattenAll(es)) && j < |es| && IsBootargs(es[j])
    requires forall i :: 0 <= i < j ==> !IsBootargs(es[i]) && !es[i].Child?
    ensures Scan(rs, k, 2, true, body) == Replace(k + j)
    ensures k + j < |rs| && rs[k + j] == RProp(BOOTARGS, es[j].value)
  {
    hide At, FlattenAll;
    SplitAt(es, j);
    var a, x, b := FlattenAll(es[..j]), Flatten(es[j]), FlattenAll(es[j + 1..]);
    AtSplit(rs, k, a + x, b);
    AtSplit(rs, k, a, x);
    FlatProps(es[..j]);
    SkipAll(rs, k, es[..j], 2, true, body);
    AtHead(rs, k + j, RProp(BOOTARGS, es[j].value));
  }

  /** /chosen without the property in sight: the walk comes out remembering the slot after its name. */
  lemma ChosenWithout(rs: seq<RItem>, k: nat, es: seq<Elem>, body: Option<nat>)
    requires At(rs, k, [RBegin(CHOSEN)] + FlattenAll(es) + [REnd])
    requires Blind(es)
    ensures k + |FlattenAll(es)| + 2 <= |rs|
    ensures Scan(rs, k, 1, false, body) == Scan(rs, k + |FlattenAll(es)| + 2, 1, false, Some(k + 1))
  {
    hide At, FlattenAll;
    AtNode(rs, k, CHOSEN, es);
    SkipAll(rs, k + 1, es, 2, true, Some(k + 1));
  }

  lemma SkipNops(rs: seq<RItem>, k: nat, n: nat, depth: int, inC: bool, body: Option<nat>)
    requires k + n <= |rs| && forall i :: k <= i < k + n ==> rs[i] == RNop
    ensures Scan(rs, k, depth, inC, body) == Scan(rs, k + n, depth, inC, body)
    decreases n
  {
    if n > 0 {
      SkipNops(rs, k + 1, n - 1, depth, inC, body);
    }
  }

  /** The root node's contents sit after the leading NOPs and its name. */
  lemma DocLayout(t: Doc)
    ensures var rs := FlattenDoc(t); var m := |FlattenAll(t.body)|;
      && |rs| == t.lead + m + 2 + t.trail && rs[t.lead] == RBegin(t.name)
      && At(rs, t.lead + 1, FlattenAll(t.body)) && rs[t.lead + 1 + m] == REnd
      && (forall i :: 0 <= i < t.lead ==> rs[i] == RNop)
      && (forall i :: t.lead + m + 2 <= i < |rs| ==> rs[i] == RNop)
  {
    hide FlattenAll;
  }

  /** Past the root's contents the walk ends. */
  lemma WalkEnd(t: Doc, body: Option<nat>)
    ensures |FlattenDoc(t)| >= t.lead + 1 + |FlattenAll(t.body)|
    ensures Scan(FlattenDoc(t), t.lead + 1 + |FlattenAll(t.body)|, 1, false, body) == if body.Some? then Insert(body.value) else Missing
  {
    hide At, FlattenAll, FlattenDoc;
    DocLayout(t);
    SkipNops(FlattenDoc(t), t.lead + |FlattenAll(t.body)| + 2, t.trail, 0, false, body);
  }

  lemma WalkStart(t: Doc)
    ensures |FlattenDoc(t)| > t.lead
    ensures Scan(FlattenDoc(t), 0, 0, false, None) == Scan(FlattenDoc(t), t.lead + 1, 1, false, None)
  {
    hide At, FlattenAll, FlattenDoc;
    DocLayout(t);
    SkipNops(FlattenDoc(t), 0, t.lead, 0, false, None);
  }

  /** Where the contents of /chosen begin. */
  function ChosenAt(t: Doc, c: nat): nat
    requires c < |t.body|
  {
    t.lead + 1 + |FlattenAll(t.body[..c])| + 1
  }

  /** Where element c of the root lies in the tokens. */
  lemma ElemLayout(t: Doc, c: nat)
    requires c < |t.body|
    ensures At(FlattenDoc(t), t.lead + 1 + |FlattenAll(t.body[..c])|, Flatten(t.body[c]))
    ensures |FlattenAll(t.body[..c + 1])| == |FlattenAll(t.body[..c])| + |Flatten(t.body[c])|
  {
    hide At, FlattenAll, FlattenDoc, Flatten;
    DocLayout(t);
    SplitAt(t.body, c);
    var a, x, b := FlattenAll(t.body[..c]), Flatten(t.body[c]), FlattenAll(t.body[c + 1..]);
    AtSplit(FlattenDoc(t), t.lead + 1, a + x, b);
    AtSplit(FlattenDoc(t), t.lead + 1, a, x);
    OneMore(t.body, c);
  }

  lemma OneMore(es: seq<Elem>, c: nat)
    requires c < |es|
    ensures FlattenAll(es[..c + 1]) == FlattenAll(es[..c]) + Flatten(es[c])
  {
    assert es[..c + 1] == es[..c] + [es[c]];
    FlattenConcat(es[..c], [es[c]]);
    assert [es[c]][1..] == [];
    assert FlattenAll([es[c]]) == Flatten(es[c]);
  }

  /** The token of a place. */
  function TokenAt(t: Doc, p: Spot): Place
    requires SpotOk(t, p)
  {
    match p
    case Old(c, j) => Replace(ChosenAt(t, c) + |FlattenAll(t.body[c].body[..j])|)
    case New(c) => Insert(ChosenAt(t, c))
    case Nowhere => Missing
  }

  lemma {:induction false} WalkFrom(t: Doc, c: nat, last: Option<nat>)
    requires c <= |t.body| && (last.Some? ==> last.value < c && IsChosen(t.body[last.value]))
    ensures |FlattenDoc(t)| >= t.lead + 1 + |FlattenAll(t.body[..c])|
    ensures Scan(FlattenDoc(t), t.lead + 1 + |FlattenAll(t.body[..c])|, 1, false, if last.Some? then Some(ChosenAt(t, last.value)) else None)
         == TokenAt(t, SpotFrom(t.body, c, last))
    decreases |t.body| - c
  {
    hide At, FlattenAll, FlattenDoc, InSight, Scan;
    var body := if last.Some? then Some(ChosenAt(t, last.value)) else None;
    if c == |t.body| {
      assert t.body[..c] == t.body;
      WalkEnd(t, body);
    } else {
      WalkElem(t, c, body);
      if !IsChosen(t.body[c]) {
        WalkFrom(t, c + 1, last);
      } else if InSight(t.body[c].body).None? {
        WalkFrom(t, c + 1, Some(c));
      }
    }
  }

  /** What the walk does at element c of the root. */
  lemma WalkElem(t: Doc, c: nat, body: Option<nat>)
    requires c < |t.body|
    ensures var k, n := t.lead + 1 + |FlattenAll(t.body[..c])|, t.lead + 1 + |FlattenAll(t.body[..c + 1])|;
      && k <= n <= |FlattenDoc(t)|
      && Scan(FlattenDoc(t), k, 1, false, body)
         == if !IsChosen(t.body[c]) then Scan(FlattenDoc(t), n, 1, false, body)
            else match InSight(t.body[c].body)
              case None => Scan(FlattenDoc(t), n, 1, false, Some(ChosenAt(t, c)))
              case Some(j) => Replace(ChosenAt(t, c) + |FlattenAll(t.body[c].body[..j])|)
  {
    hide At, FlattenAll, FlattenDoc, FirstBootargs;
    var rs, k, e := FlattenDoc(t), t.lead + 1 + |FlattenAll(t.body[..c])|, t.body[c];
    ElemLayout(t, c);
    AtBound(rs, k, Flatten(e));
    if !IsChosen(e) {
      SkipElem(rs, k, e, 1, false, body);
    } else {
      AtNode(rs, k, CHOSEN, e.body);
      match InSight(e.body) {
        case Some(j) =>
          FlatProps(e.body[..j]);
          ChosenWithBootargs(rs, k + 1, e.body, j, Some(k + 1));
        case None =>
          NotInSight(e.body);
          ChosenWithout(rs, k, e.body, body);
      }
    }
  }

  /** On every tree the walk goes to the first /chosen with bootargs in sight, or else to the front of
      the last /chosen, or finds none. */
  lemma WalkGoes(t: Doc)
    ensures Scan(FlattenDoc(t), 0, 0, false, None) == TokenAt(t, SpotOf(t))
  {
    hide FlattenDoc, SpotFrom, Scan;
    WalkStart(t);
    WalkFrom(t, 0, None);
    NoElems(t);
  }

  lemma NoElems(t: Doc)
    ensures |FlattenAll(t.body[..0])| == 0
  {
    assert t.body[..0] == [];
  }

  // ---- different places have different tokens -----------------------------------------------------

  lemma FlatLess(es: seq<Elem>, i: nat, j: nat)
    requires i < j <= |es|
    ensures |FlattenAll(es[..i])| + |Flatten(es[i])| <= |FlattenAll(es[..j])| && |Flatten(es[i])| > 0
  {
    OneMore(es, i);
    assert es[..j] == es[..i + 1] + es[i + 1..j];
    FlattenConcat(es[..i + 1], es[i + 1..j]);
  }

  lemma TokensDiffer(t: Doc, p: Spot, q: Spot)
    requires SpotOk(t, p) && SpotOk(t, q) && p != q
    ensures TokenAt(t, p) != TokenAt(t, q)
  {
    hide FlattenAll;
    match (p, q) {
      case (Old(c, j), Old(d, i)) =>
        if c == d {
          if j < i {
            FlatLess(t.body[c].body, j, i);
          } else {
            FlatLess(t.body[c].body, i, j);
          }
        } else if c < d {
          FlatLess(t.body, c, d);
          FlatLess(t.body[c].body, j, |t.body[c].body|);
          assert t.body[c].body[..|t.body[c].body|] == t.body[c].body;
        } else {
          FlatLess(t.body, d, c);
          FlatLess(t.body[d].body, i, |t.body[d].body|);
          assert t.body[d].body[..|t.body[d].body|] == t.body[d].body;
        }
      case (New(c), New(d)) =>
        if c < d {
          FlatLess(t.body, c, d);
        } else {
          FlatLess(t.body, d, c);
        }
      case _ =>
    }
  }

  /** So the walk finds the place of /chosen/bootargs exactly in the editable trees. */
  lemma WalkFinds(t: Doc)
    ensures Scan(FlattenDoc(t), 0, 0, false, None) == TokenAt(t, Wanted(t)) <==> Editable(t)
  {
    hide FlattenDoc, SpotOf, Wanted, Scan, TokenAt, Editable, SpotOk;
    WalkGoes(t);
    SpotIsWanted(t);
    if SpotOf(t) != Wanted(t) {
      TokensDiffer(t, SpotOf(t), Wanted(t));
    }
  }
}
