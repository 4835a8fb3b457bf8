/** Following a symlink means substituting its text. */
module LookupSubst {
  import opened Options
  import opened Lookup

  // ---- text ---------------------------------------------------------------------------------------

  lemma {:induction false} SkipJoin(a: string, rest: string)
    requires rest != "" && rest[0] != '/'
    ensures Skip(a + "/" + rest) == if Skip(a) == "" then rest else Skip(a) + "/" + rest
    decreases |a|
  {
    if a == "" {
      assert a + "/" + rest == "/" + rest;
      assert ("/" + rest)[1..] == rest;
    } else if a[0] == '/' {
      assert (a + "/" + rest)[1..] == a[1..] + "/" + rest;
      SkipJoin(a[1..], rest);
    }
  }

  lemma {:induction false} CompJoin(a: string, rest: string, n: nat)
    requires a != "" && a[0] != '/'
    ensures CompLen(a + "/" + rest, n) == CompLen(a, n)
    decreases |a|
  {
    var t := a + "/" + rest;
    if n > 0 {
      assert t[1..] == a[1..] + "/" + rest;
      if a[1..] != "" && a[1..][0] != '/' {
        CompJoin(a[1..], rest, n - 1);
      } else if a[1..] == "" {
        assert a[1..] + "/" + rest == "/" + rest;
      }
    }
  }

  // ---- composition ---------------------------------------------------------------------------------

  /** What a resolution that goes on with rest makes of an intermediate result. */
  function Continue(fs: Fs, r: Found, rest: string, follow: bool): Found
    requires (r.Found? ==> r.left >= 0) && (rest == "" || rest[0] != '/')
  {
    match r
    case NotFound(ls) => NotFound(ls)
    case Found(i, left, ls) => After(ls, Walk(fs, i, rest, follow, left))
  }

  lemma AfterAfter(a: seq<nat>, b: seq<nat>, r: Found)
    ensures After(a, After(b, r)) == After(a + b, r)
  {
    match r
    case Found(i, left, ls) => assert a + (b + ls) == a + b + ls;
    case NotFound(ls) => assert a + (b + ls) == a + b + ls;
  }

  lemma AfterContinue(fs: Fs, ls: seq<nat>, r: Found, rest: string, follow: bool)
    requires (r.Found? ==> r.left >= 0) && (rest == "" || rest[0] != '/')
    ensures After(ls, Continue(fs, r, rest, follow)) == Continue(fs, After(ls, r), rest, follow)
  {
    if r.Found? {
      AfterAfter(ls, r.links, Walk(fs, r.inode, rest, follow, r.left));
    }
  }

  lemma AfterNone(r: Found)
    ensures After([], r) == r
  {
  }

  /** The step of the loop, spelled out. */
  lemma WalkStep(fs: Fs, cur: nat, p: string, follow: bool, budget: int)
    requires budget >= 0 && p != "" && p[0] != '/'
    ensures var n := CompLen(p, COMP_MAX); var rest := Skip(p[n..]);
      Walk(fs, cur, p, follow, budget) == Step(fs, cur, p[..n], n < |p| && p[n] != '/', rest, follow, budget)
  {
    hide LookupB, Child, CompLen, Skip, Kind;
    var n := CompLen(p, COMP_MAX);
    var rest := Skip(p[n..]);
    match Child(fs, cur, p[..n]) {
      case None =>
      case Some(child) =>
        if budget > 0 && Kind(fs, child).Lnk? {
          var r := LookupB(fs, cur, Kind(fs, child).target, true, budget - 1);
          AfterStep(fs, child, r, rest, follow);
        }
    }
  }

  lemma AfterStep(fs: Fs, child: nat, r: Found, rest: string, follow: bool)
    requires (r.Found? ==> r.left >= 0) && (rest == "" || rest[0] != '/')
    ensures r.NotFound? ==> After([child], Continue(fs, r, rest, follow)) == NotFound([child] + r.links)
    ensures r.Found? ==> After([child], Continue(fs, r, rest, follow)) == After([child] + r.links, Walk(fs, r.inode, rest, follow, r.left))
  {
    hide Walk;
    if r.Found? {
      AfterAfter([child], r.links, Walk(fs, r.inode, rest, follow, r.left));
    }
  }

  function Step(fs: Fs, cur: nat, comp: string, tooLong: bool, rest: string, follow: bool, budget: int): (r: Found)
    requires budget >= 0 && (rest == "" || rest[0] != '/')
    ensures r.Found? ==> 0 <= r.left <= budget
  {
    if tooLong then NotFound([])
    else
      match Child(fs, cur, comp)
      case None => NotFound([])
      case Some(child) =>
        if Kind(fs, child).Lnk? && (rest != "" || follow) then
          if budget == 0 then NotFound([])
          else After([child], Continue(fs, LookupB(fs, cur, Kind(fs, child).target, true, budget - 1), rest, follow))
        else Walk(fs, child, rest, follow, budget)
  }

  /** Resolving a/rest is resolving a, with its last link followed, and going on from there. */
  lemma {:induction false} Compose(fs: Fs, cur: nat, a: string, rest: string, follow: bool, budget: int)
    requires budget >= 0 && a != "" && a[0] != '/' && rest != "" && rest[0] != '/'
    ensures Walk(fs, cur, a + "/" + rest, follow, budget) == Continue(fs, Walk(fs, cur, a, true, budget), rest, follow)
    decreases budget, |a|, 1
  {
    hide Walk, LookupB;
    var t := a + "/" + rest;
    var n := CompLen(a, COMP_MAX);
    CompJoin(a, rest, COMP_MAX);
    WalkStep(fs, cur, t, follow, budget);
    WalkStep(fs, cur, a, true, budget);
    assert t[..n] == a[..n];
    assert t[n..] == a[n..] + "/" + rest;
    SkipJoin(a[n..], rest);
    var tail := Skip(a[n..]);
    if !(n < |a| && a[n] != '/') {
      match Child(fs, cur, a[..n]) {
        case None =>
        case Some(child) =>
          if Kind(fs, child).Lnk? {
            if budget > 0 {
              var r := LookupB(fs, cur, Kind(fs, child).target, true, budget - 1);
              LinkThen(fs, [child], r, tail, rest, follow, budget);
            }
          } else {
            PlainThen(fs, child, tail, rest, follow, budget, |a|);
          }
      }
    }
  }

  lemma {:induction false} PlainThen(fs: Fs, child: nat, tail: string, rest: string, follow: bool, budget: int, bound: nat)
    requires budget >= 0 && (tail == "" || tail[0] != '/') && rest != "" && rest[0] != '/' && |tail| < bound
    ensures Walk(fs, child, if tail == "" then rest else tail + "/" + rest, follow, budget)
      == Continue(fs, Walk(fs, child, tail, true, budget), rest, follow)
    decreases budget, bound, 0
  {
    if tail == "" {
      AfterNone(Walk(fs, child, rest, follow, budget));
    } else {
      Compose(fs, child, tail, rest, follow, budget);
    }
  }

  lemma {:induction false} LinkThen(fs: Fs, ls: seq<nat>, r: Found, tail: string, rest: string, follow: bool, budget: int)
    requires budget > 0 && (tail == "" || tail[0] != '/') && rest != "" && rest[0] != '/' && (r.Found? ==> 0 <= r.left < budget)
    ensures After(ls, Continue(fs, r, if tail == "" then rest else tail + "/" + rest, follow))
      == Continue(fs, After(ls, Continue(fs, r, tail, true)), rest, follow)
    decreases budget, 0, 0
  {
    hide Walk;
    if r.Found? {
      PlainThen(fs, r.inode, tail, rest, follow, r.left, |tail| + 1);
      AfterContinue(fs, r.links, Walk(fs, r.inode, tail, true, r.left), rest, follow);
      AfterContinue(fs, ls, Continue(fs, r, tail, true), rest, follow);
    }
  }

  // ---- substitution ---------------------------------------------------------------------------------

  /** The path with the link's text in the place of the link. An empty target stands for ".". */
  function Substituted(target: string, rest: string): string {
    if rest == "" then target else (if target == "" then "." else target) + "/" + rest
  }

  /** A resolver that only ever rewrites the path. */
  function Rewrite(fs: Fs, from: nat, path: string, follow: bool, budget: int): (r: Found)
    requires budget >= 0
    decreases budget, |path|, 1
  {
    RewriteFrom(fs, Start(fs, from, path), Skip(path), follow, budget)
  }

  function RewriteFrom(fs: Fs, cur: nat, p: string, follow: bool, budget: int): (r: Found)
    requires budget >= 0 && (p == "" || p[0] != '/')
    decreases budget, |p|, 0
  {
    if p == "" then Found(cur, budget, [])
    else
      var n := CompLen(p, COMP_MAX);
      if n < |p| && p[n] != '/' then NotFound([])
      else
        var rest := Skip(p[n..]);
        match Child(fs, cur, p[..n])
        case None => NotFound([])
        case Some(child) =>
          if Kind(fs, child).Lnk? && (rest != "" || follow) then
            if budget == 0 then NotFound([])
            else After([child], Rewrite(fs, cur, Substituted(Kind(fs, child).target, rest), follow, budget - 1))
          else RewriteFrom(fs, child, rest, follow, budget)
  }

  /** Going on after a target is resolving target/rest, one link poorer. */
  lemma TargetThen(fs: Fs, from: nat, target: string, rest: string, follow: bool, budget: int)
    requires budget >= 0 && rest != "" && rest[0] != '/'
    ensures Continue(fs, LookupB(fs, from, target, true, budget), rest, follow)
      == LookupB(fs, from, Substituted(target, rest), follow, budget)
  {
    hide Walk;
    if target == "" {
      DotThen(fs, from, rest, follow, budget);
    } else {
      var t := target + "/" + rest;
      assert t[0] == target[0];
      SkipJoin(target, rest);
      PlainThen(fs, Start(fs, from, target), Skip(target), rest, follow, budget, |Skip(target)| + 1);
    }
  }

  lemma DotThen(fs: Fs, from: nat, rest: string, follow: bool, budget: int)
    requires budget >= 0 && rest != "" && rest[0] != '/'
    ensures Continue(fs, LookupB(fs, from, "", true, budget), rest, follow) == LookupB(fs, from, "." + "/" + rest, follow, budget)
  {
    var t := "." + "/" + rest;
    assert CompLen(t[1..], COMP_MAX - 1) == 0;
    assert t[..1] == "." && t[1..] == "" + "/" + rest;
    SkipJoin("", rest);
    hide Walk;
    WalkStep(fs, from, t, follow, budget);
    AfterNone(Walk(fs, from, rest, follow, budget));
    EmptyPath(fs, from, budget);
    assert Skip(t) == t;
    if !Kind(fs, from).Dir? {
      WalkStep(fs, from, rest, follow, budget);
    }
  }

  lemma EmptyPath(fs: Fs, from: nat, budget: int)
    requires budget >= 0
    ensures LookupB(fs, from, "", true, budget) == Found(from, budget, [])
  {
  }

  /** Following links by recursion, as the kernel does, is rewriting the path by their text, as the
      documentation of symbolic links has it: same inode, same links, same budget left. */
  lemma {:induction false} LookupIsRewrite(fs: Fs, from: nat, path: string, follow: bool, budget: int)
    requires budget >= 0
    ensures LookupB(fs, from, path, follow, budget) == Rewrite(fs, from, path, follow, budget)
    decreases budget, |path|, 1
  {
    WalkIsRewrite(fs, Start(fs, from, path), Skip(path), follow, budget);
  }

  lemma {:induction false} WalkIsRewrite(fs: Fs, cur: nat, p: string, follow: bool, budget: int)
    requires budget >= 0 && (p == "" || p[0] != '/')
    ensures Walk(fs, cur, p, follow, budget) == RewriteFrom(fs, cur, p, follow, budget)
    decreases budget, |p|, 0
  {
    if p != "" {
      hide Walk, LookupB, Rewrite;
      WalkStep(fs, cur, p, follow, budget);
      var n := CompLen(p, COMP_MAX);
      var rest := Skip(p[n..]);
      if !(n < |p| && p[n] != '/') {
        match Child(fs, cur, p[..n]) {
          case None =>
          case Some(child) =>
            if Kind(fs, child).Lnk? && (rest != "" || follow) {
              if budget > 0 {
                var target := Kind(fs, child).target;
                FollowOne(fs, cur, target, rest, follow, budget - 1);
                LookupIsRewrite(fs, cur, Substituted(target, rest), follow, budget - 1);
              }
            } else {
              WalkIsRewrite(fs, child, rest, follow, budget);
            }
        }
      }
    }
  }

  lemma FollowOne(fs: Fs, cur: nat, target: string, rest: string, follow: bool, budget: int)
    requires budget >= 0 && (rest == "" || rest[0] != '/') && (rest != "" || follow)
    ensures Continue(fs, LookupB(fs, cur, target, true, budget), rest, follow)
      == LookupB(fs, cur, Substituted(target, rest), follow, budget)
  {
    if rest == "" {
      WalkEnds(fs, LookupB(fs, cur, target, true, budget), follow);
    } else {
      TargetThen(fs, cur, target, rest, follow, budget);
    }
  }

  lemma WalkEnds(fs: Fs, r: Found, follow: bool)
    requires r.Found? ==> r.left >= 0
    ensures Continue(fs, r, "", follow) == r
  {
  }

  /** An empty target cannot be substituted as it stands: what follows it would become an absolute path.
      Here /d/l is such a link, and /d/x exists but /x does not. */
  lemma EmptyTargetIsNotText()
    ensures var fs := Fs(1, map[1 := Dir(1, [("d", 2)]), 2 := Dir(1, [("l", 3), ("x", 4)]), 3 := Lnk(""), 4 := Other]);
      && Continue(fs, LookupB(fs, 2, "", true, 7), "x", true) == Found(4, 7, [])
      && LookupB(fs, 2, "" + "/" + "x", true, 7) == NotFound([])
  {
    var fs := Fs(1, map[1 := Dir(1, [("d", 2)]), 2 := Dir(1, [("l", 3), ("x", 4)]), 3 := Lnk(""), 4 := Other]);
    assert "" + "/" + "x" == "/x" && "/x"[1..] == "x" && Skip("/x") == Skip("x") == "x";
    assert CompLen("x", COMP_MAX) == 1 by { assert "x"[1..] == ""; }
    assert "x"[..1] == "x" && "x"[1..] == "" && Skip("") == "";
    assert [("d", 2)][1..] == [] && [("l", 3), ("x", 4)][1..] == [("x", 4)];
    assert Child(fs, 2, "x") == Some(4) && Child(fs, 1, "x") == None;
    WalkStep(fs, 2, "x", true, 7);
    WalkStep(fs, 1, "x", true, 7);
  }

  /** Going on with `rest` after the target finds what target/rest finds, from here. */
  ghost predicate TextFits(fs: Fs, from: nat, target: string, rest: string, follow: bool, budget: int)
    requires budget >= 0
  {
    rest != "" && rest[0] != '/' ==>
      Continue(fs, LookupB(fs, from, target, true, budget), rest, follow) == LookupB(fs, from, target + "/" + rest, follow, budget)
  }

  /** A link's text can be put in its place as it stands, in every tree, exactly when it is not empty. */
  lemma TextFitsExactly(target: string)
    ensures (forall fs, from, rest, follow, budget | budget >= 0 :: TextFits(fs, from, target, rest, follow, budget)) <==> target != ""
  {
    if target == "" {
      EmptyTargetIsNotText();
      var fs := Fs(1, map[1 := Dir(1, [("d", 2)]), 2 := Dir(1, [("l", 3), ("x", 4)]), 3 := Lnk(""), 4 := Other]);
      assert !TextFits(fs, 2, target, "x", true, 7) by { hide LookupB, Continue; }
    } else {
      forall fs, from, rest, follow, budget | budget >= 0
        ensures TextFits(fs, from, target, rest, follow, budget)
      {
        hide LookupB, Continue;
        if rest != "" && rest[0] != '/' {
          TargetThen(fs, from, target, rest, follow, budget);
        }
      }
    }
  }
}
