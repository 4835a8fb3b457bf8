/** Editing the tree is replacing one token, or inserting one. */
module FdtTreeEdit {
  import opened Options
  import opened Fdt
  import opened FdtTree

  /** What stands before and after element c of the root, in the flattened tree. */
  function Before(t: Doc, c: nat): seq<RItem>
    requires c < |t.body|
  {
    Nops(t.lead) + [RBegin(t.name)] + FlattenAll(t.body[..c])
  }

  function Behind(t: Doc, c: nat): seq<RItem>
    requires c < |t.body|
  {
    FlattenAll(t.body[c + 1..]) + [REnd] + Nops(t.trail)
  }

  lemma InContext(t: Doc, c: nat, e: Elem)
    requires c < |t.body|
    ensures FlattenDoc(t.(body := t.body[c := e])) == Before(t, c) + Flatten(e) + Behind(t, c)
  {
    hide Flatten;
    var body := t.body[c := e];
    SplitAt(body, c);
    assert body[..c] == t.body[..c] && body[c + 1..] == t.body[c + 1..];
    var n, b, a, x, z: seq<RItem> := Nops(t.lead), [RBegin(t.name)], FlattenAll(t.body[..c]), Flatten(e), FlattenAll(t.body[c + 1..]);
    Regroup(n, b, a, x, z, [REnd], Nops(t.trail));
  }

  lemma Regroup(n: seq<RItem>, b: seq<RItem>, a: seq<RItem>, x: seq<RItem>, z: seq<RItem>, r: seq<RItem>, m: seq<RItem>)
    ensures n + (b + (a + x + z) + r) + m == (n + b + a) + x + (z + r + m)
  {
    assert b + (a + x + z) + r == (b + a) + x + (z + r);
    assert n + ((b + a) + x + (z + r)) + m == (n + b + a) + x + (z + r + m);
  }

  lemma SameInContext(t: Doc, c: nat)
    requires c < |t.body|
    ensures FlattenDoc(t) == Before(t, c) + Flatten(t.body[c]) + Behind(t, c)
  {
    hide FlattenDoc, Flatten, Before, Behind;
    InContext(t, c, t.body[c]);
    assert t.body[c := t.body[c]] == t.body;
  }

  lemma FlattenReplaced(es: seq<Elem>, j: nat, v: seq<byte>)
    requires j < |es| && IsBootargs(es[j])
    ensures |FlattenAll(es[..j])| < |FlattenAll(es)|
    ensures FlattenAll(es[j := P(BOOTARGS, v)]) == FlattenAll(es)[|FlattenAll(es[..j])| := RProp(BOOTARGS, v)]
    ensures FlattenAll(es)[|FlattenAll(es[..j])|] == RProp(BOOTARGS, es[j].value)
  {
    hide FlattenAll;
    var e := es[j := P(BOOTARGS, v)];
    SplitAt(es, j);
    SplitAt(e, j);
    assert e[..j] == es[..j] && e[j + 1..] == es[j + 1..];
    var a, b := FlattenAll(es[..j]), FlattenAll(es[j + 1..]);
    assert (a + [RProp(BOOTARGS, es[j].value)] + b)[|a| := RProp(BOOTARGS, v)] == a + [RProp(BOOTARGS, v)] + b;
  }

  lemma ReplaceInside(a: seq<RItem>, f: seq<RItem>, b: seq<RItem>, n: seq<byte>, j: nat, x: RItem)
    requires j < |f|
    ensures (a + ([RBegin(n)] + f + [REnd]) + b)[|a| + 1 + j := x] == a + ([RBegin(n)] + f[j := x] + [REnd]) + b
    ensures (a + ([RBegin(n)] + f + [REnd]) + b)[|a| + 1 + j] == f[j]
  {
  }

  lemma InsertInside(a: seq<RItem>, f: seq<RItem>, b: seq<RItem>, n: seq<byte>, x: RItem)
    ensures var rs := a + ([RBegin(n)] + f + [REnd]) + b; var k := |a| + 1;
      rs[..k] + [x] + rs[k..] == a + ([RBegin(n)] + ([x] + f) + [REnd]) + b
  {
    var rs, k := a + ([RBegin(n)] + f + [REnd]) + b, |a| + 1;
    assert rs[..k] == a + [RBegin(n)];
    assert rs[k..] == f + [REnd] + b;
  }

  /** The tree with the property replaced is the token list with that token replaced. */
  lemma EditReplaces(t: Doc, v: seq<byte>, p: Spot)
    requires SpotOk(t, p) && p.Old?
    ensures var k, rs := TokenAt(t, p).at, FlattenDoc(t);
      && k < |rs| && rs[k] == RProp(BOOTARGS, t.body[p.c].body[p.j].value)
      && FlattenDoc(SetSpot(t, p, v)) == rs[k := RProp(BOOTARGS, v)]
  {
    hide FlattenDoc, FlattenAll, Before, Behind;
    var c, j, es := p.c, p.j, t.body[p.c].body;
    SameInContext(t, c);
    InContext(t, c, Child(CHOSEN, es[j := P(BOOTARGS, v)]));
    FlattenReplaced(es, j, v);
    BeforeLength(t, c);
    ReplaceInside(Before(t, c), FlattenAll(es), Behind(t, c), CHOSEN, |FlattenAll(es[..j])|, RProp(BOOTARGS, v));
  }

  /** The tree with the property put first is the token list with one token inserted. */
  lemma EditInserts(t: Doc, v: seq<byte>, p: Spot)
    requires SpotOk(t, p) && p.New?
    ensures var k, rs := TokenAt(t, p).at, FlattenDoc(t);
      k <= |rs| && FlattenDoc(SetSpot(t, p, v)) == rs[..k] + [RProp(BOOTARGS, v)] + rs[k..]
  {
    hide FlattenDoc, FlattenAll, Before, Behind;
    var c, es := p.c, t.body[p.c].body;
    SameInContext(t, c);
    InContext(t, c, Child(CHOSEN, [P(BOOTARGS, v)] + es));
    FlattenCons(P(BOOTARGS, v), es);
    BeforeLength(t, c);
    InsertInside(Before(t, c), FlattenAll(es), Behind(t, c), CHOSEN, RProp(BOOTARGS, v));
  }

  lemma FlattenCons(e: Elem, es: seq<Elem>)
    requires e.P?
    ensures FlattenAll([e] + es) == [RProp(e.name, e.value)] + FlattenAll(es)
  {
    assert ([e] + es)[1..] == es;
  }

  lemma BeforeLength(t: Doc, c: nat)
    requires c < |t.body|
    ensures |Before(t, c)| + 1 == ChosenAt(t, c)
  {
    hide FlattenAll;
  }

  // ---- a token list comes from one tree only ---------------------------------------------------

  lemma {:induction false} FlattenFirst(e: Elem)
    ensures Flatten(e) != [] && Flatten(e)[0] != REnd
  {
  }

  lemma HeadOf(a: seq<Elem>, s: seq<RItem>)
    requires s != [] && s[0] == REnd
    ensures (FlattenAll(a) + s)[0] == REnd <==> a == []
  {
    if a != [] {
      FlattenFirst(a[0]);
      assert (FlattenAll(a) + s)[0] == Flatten(a[0])[0];
    }
  }

  /** The contents of a node can be read back from the tokens up to its END_NODE. */
  lemma {:induction false} FlattenAllUnique(a: seq<Elem>, b: seq<Elem>, s: seq<RItem>, t: seq<RItem>)
    requires FlattenAll(a) + s == FlattenAll(b) + t && s != [] && t != [] && s[0] == REnd && t[0] == REnd
    ensures a == b && s == t
    decreases a, 1
  {
    HeadOf(a, s);
    HeadOf(b, t);
    if a == [] {
      assert FlattenAll(a) + s == s && FlattenAll(b) + t == t;
    } else {
      var s', t' := FlattenAll(a[1..]) + s, FlattenAll(b[1..]) + t;
      assert FlattenAll(a) + s == Flatten(a[0]) + s';
      assert FlattenAll(b) + t == Flatten(b[0]) + t';
      FlattenUnique(a[0], b[0], s', t');
      FlattenAllUnique(a[1..], b[1..], s, t);
      assert a == [a[0]] + a[1..] && b == [b[0]] + b[1..];
    }
  }

  lemma {:induction false} FlattenUnique(a: Elem, b: Elem, s: seq<RItem>, t: seq<RItem>)
    requires Flatten(a) + s == Flatten(b) + t
    ensures a == b && s == t
    decreases a, 0
  {
    var l, r := Flatten(a) + s, Flatten(b) + t;
    assert l[0] == Flatten(a)[0] && r[0] == Flatten(b)[0];
    match a {
      case P(n, v) => assert b.P?; assert s == l[1..] && t == r[1..];
      case N => assert b.N?; assert s == l[1..] && t == r[1..];
      case Child(n, x) =>
        assert b.Child? && b.name == n;
        assert l[1..] == FlattenAll(x) + ([REnd] + s);
        assert r[1..] == FlattenAll(b.body) + ([REnd] + t);
        FlattenAllUnique(x, b.body, [REnd] + s, [REnd] + t);
        assert s == ([REnd] + s)[1..] && t == ([REnd] + t)[1..];
    }
  }

  /** Parsing is unambiguous: two trees with the same tokens are the same tree. */
  lemma DocUnique(t: Doc, u: Doc)
    requires FlattenDoc(t) == FlattenDoc(u)
    ensures t == u
  {
    DocLead(t, u);
    var l, r := FlattenDoc(t), FlattenDoc(u);
    assert l[t.lead + 1..] == FlattenAll(t.body) + ([REnd] + Nops(t.trail)) by { DocTail(t); }
    assert r[t.lead + 1..] == FlattenAll(u.body) + ([REnd] + Nops(u.trail)) by { DocTail(u); }
    FlattenAllUnique(t.body, u.body, [REnd] + Nops(t.trail), [REnd] + Nops(u.trail));
    assert |[REnd] + Nops(t.trail)| == 1 + t.trail && |[REnd] + Nops(u.trail)| == 1 + u.trail;
  }

  lemma DocTail(t: Doc)
    ensures |FlattenDoc(t)| > t.lead
    ensures FlattenDoc(t)[t.lead + 1..] == FlattenAll(t.body) + ([REnd] + Nops(t.trail))
  {
    hide FlattenAll;
  }

  lemma DocLead(t: Doc, u: Doc)
    requires FlattenDoc(t) == FlattenDoc(u)
    ensures t.lead == u.lead && t.name == u.name
  {
    hide FlattenDoc, FlattenAll, At;
    DocLayout(t);
    DocLayout(u);
  }
}
