/** The kernel's reader of the device tree (kernel/drivers/of/kfdt.c): the token walk of kfdt_getprop,
    and what it finds in the tree. */
module FdtRead {
  import opened Options
  import opened Fdt
  import opened FdtTree

  const AT_SIGN: byte := 64

  /** node_matches: the name is the component, a unit address behind it ignored. */
  predicate NodeMatches(name: seq<byte>, comp: seq<byte>) {
    AT_SIGN !in comp && comp <= name && (|name| == |comp| || name[|comp|] == AT_SIGN)
  }

  /** `matched` after a BEGIN_NODE at this depth, and after an END_NODE. */
  function Enter(comps: seq<seq<byte>>, n: seq<byte>, depth: int, matched: int): int {
    var ci := depth - 1;
    if ci >= 0 && matched == ci && ci < |comps| && NodeMatches(n, comps[ci]) then ci + 1 else matched
  }

  function Leave(depth: int, matched: int): int {
    var m := if matched > depth - 2 then depth - 2 else matched;
    if m < 0 then 0 else m
  }

  /** The walk of kfdt_getprop over the tokens from k on: the token it returns. */
  function GetFrom(rs: seq<RItem>, comps: seq<seq<byte>>, name: seq<byte>, k: nat, depth: int, matched: int): (r: Option<nat>)
    requires k <= |rs|
    ensures r.Some? ==> k <= r.value < |rs| && rs[r.value].RProp? && rs[r.value].name == name
    decreases |rs| - k
  {
    if k == |rs| then None
    else match rs[k]
      case RNop => GetFrom(rs, comps, name, k + 1, depth, matched)
      case RBegin(n) => GetFrom(rs, comps, name, k + 1, depth + 1, Enter(comps, n, depth, matched))
      case REnd => GetFrom(rs, comps, name, k + 1, depth - 1, Leave(depth, matched))
      case RProp(n, _) =>
        if matched == |comps| && depth == |comps| + 1 && n == name then Some(k)
        else GetFrom(rs, comps, name, k + 1, depth, matched)
  }

  // ---- the tree ---------------------------------------------------------------------------------

  /** The first property of that name in a node that the components lead to, in document order. */
  function PropIn(es: seq<Elem>, comps: seq<seq<byte>>, name: seq<byte>): (r: Option<seq<byte>>)
    decreases es
  {
    if es == [] then None
    else
      var first :=
        match es[0]
        case P(n, v) => if comps == [] && n == name then Some(v) else None
        case N => None
        case Child(n, b) => if comps != [] && NodeMatches(n, comps[0]) then PropIn(b, comps[1..], name) else None;
      if first.Some? then first else PropIn(es[1..], comps, name)
  }

  /** A walk that found v, or goes on at token j. */
  ghost predicate Finds(rs: seq<RItem>, name: seq<byte>, r: Option<nat>, v: Option<seq<byte>>, onwards: Option<nat>) {
    if v.Some? then r.Some? && r.value < |rs| && rs[r.value] == RProp(name, v.value) else r == onwards
  }

  /** Outside the path nothing is found, and nothing forgotten. */
  lemma {:induction false} OffPath(rs: seq<RItem>, comps: seq<seq<byte>>, name: seq<byte>, k: nat, e: Elem, depth: int, matched: int)
    requires At(rs, k, Flatten(e)) && 0 <= matched < depth - 1
    ensures k + |Flatten(e)| <= |rs|
    ensures GetFrom(rs, comps, name, k, depth, matched) == GetFrom(rs, comps, name, k + |Flatten(e)|, depth, matched)
    decreases e, 0
  {
    hide At, FlattenAll;
    AtBound(rs, k, Flatten(e));
    match e {
      case P(n, v) => AtHead(rs, k, RProp(n, v));
      case N => AtHead(rs, k, RNop);
      case Child(n, b) =>
        AtNode(rs, k, n, b);
        OffPathAll(rs, comps, name, k + 1, b, depth + 1, matched);
    }
  }

  lemma {:induction false} OffPathAll(rs: seq<RItem>, comps: seq<seq<byte>>, name: seq<byte>, k: nat, es: seq<Elem>, depth: int, matched: int)
    requires At(rs, k, FlattenAll(es)) && 0 <= matched < depth - 1
    ensures k + |FlattenAll(es)| <= |rs|
    ensures GetFrom(rs, comps, name, k, depth, matched) == GetFrom(rs, comps, name, k + |FlattenAll(es)|, depth, matched)
    decreases es, 1
  {
    hide At, GetFrom;
    AtBound(rs, k, FlattenAll(es));
    if es != [] {
      AtSplit(rs, k, Flatten(es[0]), FlattenAll(es[1..]));
      OffPath(rs, comps, name, k, es[0], depth, matched);
      OffPathAll(rs, comps, name, k + |Flatten(es[0])|, es[1..], depth, matched);
    }
  }

  /** In a node that the first depth - 1 components lead to. */
  lemma {:induction false} OnPath(rs: seq<RItem>, comps: seq<seq<byte>>, name: seq<byte>, k: nat, e: Elem, depth: int)
    requires At(rs, k, Flatten(e)) && 1 <= depth <= |comps| + 1
    ensures k + |Flatten(e)| <= |rs|
    ensures Finds(rs, name, GetFrom(rs, comps, name, k, depth, depth - 1), PropIn([e], comps[depth - 1..], name),
                  GetFrom(rs, comps, name, k + |Flatten(e)|, depth, depth - 1))
    decreases e, 0
  {
    hide At, FlattenAll;
    AtBound(rs, k, Flatten(e));
    assert [e][1..] == [];
    match e {
      case P(n, v) => AtHead(rs, k, RProp(n, v));
      case N => AtHead(rs, k, RNop);
      case Child(n, b) =>
        AtNode(rs, k, n, b);
        if depth - 1 < |comps| && NodeMatches(n, comps[depth - 1]) {
          OnPathAll(rs, comps, name, k + 1, b, depth + 1);
          assert comps[depth - 1..][1..] == comps[depth..];
        } else {
          OffPathAll(rs, comps, name, k + 1, b, depth + 1, depth - 1);
        }
    }
  }

  lemma {:induction false} OnPathAll(rs: seq<RItem>, comps: seq<seq<byte>>, name: seq<byte>, k: nat, es: seq<Elem>, depth: int)
    requires At(rs, k, FlattenAll(es)) && 1 <= depth <= |comps| + 1
    ensures k + |FlattenAll(es)| <= |rs|
    ensures Finds(rs, name, GetFrom(rs, comps, name, k, depth, depth - 1), PropIn(es, comps[depth - 1..], name),
                  GetFrom(rs, comps, name, k + |FlattenAll(es)|, depth, depth - 1))
    decreases es, 1
  {
    hide At, GetFrom;
    AtBound(rs, k, FlattenAll(es));
    if es != [] {
      AtSplit(rs, k, Flatten(es[0]), FlattenAll(es[1..]));
      OnPath(rs, comps, name, k, es[0], depth);
      OnPathAll(rs, comps, name, k + |Flatten(es[0])|, es[1..], depth);
      FirstElem(es, comps[depth - 1..], name);
    }
  }

  lemma FirstElem(es: seq<Elem>, comps: seq<seq<byte>>, name: seq<byte>)
    requires es != []
    ensures PropIn(es, comps, name) == if PropIn([es[0]], comps, name).Some? then PropIn([es[0]], comps, name) else PropIn(es[1..], comps, name)
  {
    assert [es[0]][1..] == [];
  }

  /** On every tree, path and name, kfdt_getprop finds the first such property of the tree, or none. */
  lemma GetFinds(t: Doc, comps: seq<seq<byte>>, name: seq<byte>)
    ensures Finds(FlattenDoc(t), name, GetFrom(FlattenDoc(t), comps, name, 0, 0, 0), PropIn(t.body, comps, name), None)
  {
    hide At, FlattenAll, FlattenDoc, PropIn;
    DocLayout(t);
    var rs, m := FlattenDoc(t), |FlattenAll(t.body)|;
    GetNops(rs, comps, name, 0, t.lead, 0, 0);
    OnPathAll(rs, comps, name, t.lead + 1, t.body, 1);
    assert comps[0..] == comps;
    GetNops(rs, comps, name, t.lead + m + 2, t.trail, 0, 0);
  }

  lemma {:induction false} GetNops(rs: seq<RItem>, comps: seq<seq<byte>>, name: seq<byte>, k: nat, n: nat, depth: int, matched: int)
    requires k + n <= |rs| && forall i :: k <= i < k + n ==> rs[i] == RNop
    ensures GetFrom(rs, comps, name, k, depth, matched) == GetFrom(rs, comps, name, k + n, depth, matched)
    decreases n
  {
    if n > 0 {
      GetNops(rs, comps, name, k + 1, n - 1, depth, matched);
    }
  }

  // ---- /chosen/bootargs ---------------------------------------------------------------------------

  /** What the kernel reads as its command line. */
  function KernelReads(t: Doc): Option<seq<byte>> { PropIn(t.body, [CHOSEN], BOOTARGS) }

  /** bootargs as the reader finds it in one element of the root. */
  function Offers(e: Elem): Option<seq<byte>> {
    if e.Child? && NodeMatches(e.name, CHOSEN) then
      (match FirstBootargs(e.body, 0)
       case None => None
       case Some(j) => Some(e.body[j].value))
    else None
  }

  lemma {:induction false} FirstInNode(es: seq<Elem>, k: nat)
    requires k <= |es|
    ensures PropIn(es[k..], [], BOOTARGS) == match FirstBootargs(es, k) { case None => None case Some(j) => Some(es[j].value) }
    decreases |es| - k
  {
    if k < |es| {
      FirstInNode(es, k + 1);
      assert es[k..][0] == es[k] && es[k..][1..] == es[k + 1..];
    }
  }

  lemma OffersIs(e: Elem)
    ensures PropIn([e], [CHOSEN], BOOTARGS) == Offers(e)
  {
    hide FirstBootargs, NodeMatches;
    assert [e][1..] == [] && [CHOSEN][1..] == [];
    if e.Child? {
      FirstInNode(e.body, 0);
      assert e.body[0..] == e.body;
    }
  }

  /** Only the first element that offers it counts. */
  lemma {:induction false} ReadsFirst(es: seq<Elem>, c: nat)
    requires c < |es| && forall i :: 0 <= i < c ==> Offers(es[i]).None?
    ensures Offers(es[c]).Some? ==> PropIn(es, [CHOSEN], BOOTARGS) == Offers(es[c])
    decreases c
  {
    hide Offers;
    OffersIs(es[0]);
    FirstElem(es, [CHOSEN], BOOTARGS);
    if c > 0 {
      ReadsFirst(es[1..], c - 1);
    }
  }
}
