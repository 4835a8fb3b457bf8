/** What path lookup promises, said of the tree itself: entries, parents and chains of names. */
module LookupLaws {
  import opened Options
  import opened Lookup
  import opened LookupSubst

  // ---- one name ----------------------------------------------------------------------------------

  /** i is the inode of the first entry called name. */
  ghost predicate FirstEntry(cs: seq<(string, nat)>, name: string, i: nat) {
    exists k :: 0 <= k < |cs| && cs[k] == (name, i) && forall j :: 0 <= j < k ==> cs[j].0 != name
  }

  /** The list walk answers with the first entry of that name, and with null only when there is none. */
  lemma {:induction false} FindIsFirst(cs: seq<(string, nat)>, name: string)
    ensures forall i: nat :: FindChild(cs, name) == Some(i) <==> FirstEntry(cs, name, i)
    ensures FindChild(cs, name) == None <==> forall k :: 0 <= k < |cs| ==> cs[k].0 != name
  {
    if cs != [] {
      var rest := cs[1..];
      FindIsFirst(rest, name);
      forall i: nat
        ensures FindChild(cs, name) == Some(i) <==> FirstEntry(cs, name, i)
      {
        if cs[0].0 == name {
          assert FirstEntry(cs, name, i) ==> cs[0].1 == i;
          assert cs[0].1 == i ==> cs[0] == (name, i);
        } else {
          if FirstEntry(rest, name, i) {
            var k :| 0 <= k < |rest| && rest[k] == (name, i) && forall j :: 0 <= j < k ==> rest[j].0 != name;
            assert cs[k + 1] == (name, i) && forall j :: 0 < j < k + 1 ==> cs[j].0 == rest[j - 1].0;
          }
          if FirstEntry(cs, name, i) {
            var k :| 0 <= k < |cs| && cs[k] == (name, i) && forall j :: 0 <= j < k ==> cs[j].0 != name;
            assert rest[k - 1] == (name, i);
          }
        }
      }
      assert forall k :: 0 < k < |cs| ==> cs[k] == rest[k - 1];
    }
  }

  /** A component other than the dots: text without slashes that fits the 64 bytes of a name. */
  predicate Plain(name: string) {
    0 < |name| <= 63 && '/' !in name && name != "." && name != ".."
  }

  lemma {:induction false} CompLenAll(p: string, n: nat)
    requires '/' !in p
    ensures CompLen(p, n) == if |p| <= n then |p| else n
  {
    if p != "" && n != 0 {
      CompLenAll(p[1..], n - 1);
    }
  }

  /** A path of one component is one step, with nothing behind it. */
  lemma OneStep(fs: Fs, cur: nat, name: string, follow: bool, budget: int)
    requires budget >= 0 && 0 < |name| <= 63 && '/' !in name
    ensures LookupB(fs, cur, name, follow, budget) == Step(fs, cur, name, false, "", follow, budget)
  {
    assert name[0] in name && Skip(name) == name;
    CompLenAll(name, COMP_MAX);
    assert name[..|name|] == name && name[|name|..] == "" && Skip("") == "";
    WalkStep(fs, cur, name, follow, budget);
  }

  /** In front of a slash, the component is one step and the rest follows. */
  lemma NameThen(fs: Fs, cur: nat, name: string, rest: string, follow: bool, budget: int)
    requires budget >= 0 && 0 < |name| <= 63 && '/' !in name && rest != "" && rest[0] != '/'
    ensures LookupB(fs, cur, name + "/" + rest, follow, budget) == Step(fs, cur, name, false, rest, follow, budget)
  {
    var p := name + "/" + rest;
    assert name[0] in name && p[0] == name[0] && Skip(p) == p;
    CompJoin(name, rest, COMP_MAX);
    CompLenAll(name, COMP_MAX);
    var n := |name|;
    assert p[..n] == name && p[n] == '/' && p[n..] == "" + "/" + rest;
    SkipJoin("", rest);
    WalkStep(fs, cur, p, follow, budget);
  }

  /** A component of 64 bytes or more is never found, whatever follows it. */
  lemma TooLong(fs: Fs, cur: nat, name: string, rest: string, follow: bool, budget: int)
    requires budget >= 0 && 64 <= |name| && '/' !in name
    ensures LookupB(fs, cur, name + rest, follow, budget) == NotFound([])
  {
    var p := name + rest;
    assert name[0] in name && p[0] == name[0] && Skip(p) == p;
    CompLenPrefix(name, rest, COMP_MAX);
    assert p[63] == name[63] && name[63] in name;
    WalkStep(fs, cur, p, follow, budget);
  }

  lemma {:induction false} CompLenPrefix(p: string, q: string, n: nat)
    requires '/' !in p && n <= |p|
    ensures CompLen(p + q, n) == n
  {
    if n != 0 {
      assert p[0] in p && (p + q)[0] == p[0] && (p + q)[1..] == p[1..] + q;
      CompLenPrefix(p[1..], q, n - 1);
    }
  }

  /** A leading slash starts at the root, wherever the caller is; further slashes change nothing. */
  lemma Absolute(fs: Fs, from: nat, path: string, follow: bool, budget: int)
    requires budget >= 0
    ensures LookupB(fs, from, "/" + path, follow, budget) == LookupB(fs, fs.root, path, follow, budget)
  {
    assert ("/" + path)[1..] == path;
  }

  // ---- links ---------------------------------------------------------------------------------------

  /** A link at the end is itself the answer when links are not to be followed. */
  lemma LinkItself(fs: Fs, dir: nat, name: string, l: nat, budget: int)
    requires budget >= 0 && Plain(name) && Kind(fs, dir).Dir? && FirstEntry(Kind(fs, dir).children, name, l)
    ensures LookupB(fs, dir, name, false, budget) == Found(l, budget, [])
  {
    FindIsFirst(Kind(fs, dir).children, name);
    OneStep(fs, dir, name, false, budget);
    assert Walk(fs, l, "", false, budget) == Found(l, budget, []);
  }

  /** Followed, it costs one of the budget and its text is resolved from its own directory, following on. */
  lemma LinkFollowed(fs: Fs, dir: nat, name: string, l: nat, target: string, budget: int)
    requires budget >= 0 && Plain(name) && Kind(fs, dir).Dir? && FirstEntry(Kind(fs, dir).children, name, l)
    requires Kind(fs, l) == Lnk(target)
    ensures budget == 0 ==> LookupB(fs, dir, name, true, budget) == NotFound([])
    ensures budget > 0 ==> LookupB(fs, dir, name, true, budget) == After([l], LookupB(fs, dir, target, true, budget - 1))
  {
    FindIsFirst(Kind(fs, dir).children, name);
    OneStep(fs, dir, name, true, budget);
    if budget > 0 {
      WalkEnds(fs, LookupB(fs, dir, target, true, budget - 1), true);
    }
  }

  /** r needs |r.links| links: a budget that has them gives the same answer, and less gives none. */
  ghost predicate Needs(r: Found, with: Found, budget: int)
    requires r.Found?
  {
    if budget >= |r.links| then with == Found(r.inode, budget - |r.links|, r.links) else with.NotFound?
  }

  lemma {:induction false} BudgetExact(fs: Fs, from: nat, path: string, follow: bool, b: int, c: int)
    requires b >= 0 && c >= 0 && LookupB(fs, from, path, follow, b).Found?
    ensures Needs(LookupB(fs, from, path, follow, b), LookupB(fs, from, path, follow, c), c)
    decreases b, |path| + 1, 1
  {
    WalkBudget(fs, Start(fs, from, path), Skip(path), follow, b, c);
  }

  lemma {:induction false} WalkBudget(fs: Fs, cur: nat, p: string, follow: bool, b: int, c: int)
    requires b >= 0 && c >= 0 && (p == "" || p[0] != '/') && Walk(fs, cur, p, follow, b).Found?
    ensures Needs(Walk(fs, cur, p, follow, b), Walk(fs, cur, p, follow, c), c)
    decreases b, |p| + 1, 0
  {
    if p != "" {
      hide Walk, LookupB, Kind, Child;
      var n := CompLen(p, COMP_MAX);
      var rest := Skip(p[n..]);
      WalkStep(fs, cur, p, follow, b);
      WalkStep(fs, cur, p, follow, c);
      var child := Child(fs, cur, p[..n]).value;
      if Kind(fs, child).Lnk? && (rest != "" || follow) {
        if c > 0 {
          var target := Kind(fs, child).target;
          BudgetExact(fs, cur, target, true, b - 1, c - 1);
          var r := LookupB(fs, cur, target, true, b - 1);
          var s := LookupB(fs, cur, target, true, c - 1);
          if s.Found? {
            WalkBudget(fs, r.inode, rest, follow, r.left, s.left);
          }
        }
      } else {
        WalkBudget(fs, child, rest, follow, b, c);
      }
    }
  }

  /** A path that resolves under some budget resolves in the kernel exactly when it needs at most 8 links,
      and then to the same inode. */
  lemma EightExactly(fs: Fs, start: nat, path: string, follow: bool, b: int)
    requires b >= 0 && LookupB(fs, start, path, follow, b).Found?
    ensures var r := LookupB(fs, start, path, follow, b);
      if |r.links| <= 8 then RamfsLookup(fs, Some(start), path, follow) == Found(r.inode, 8 - |r.links|, r.links)
      else RamfsLookup(fs, Some(start), path, follow).NotFound?
  {
    BudgetExact(fs, start, path, follow, b, 8);
  }

  // ---- chains of names -------------------------------------------------------------------------------

  function Joined(names: seq<string>): string {
    if names == [] then "" else if |names| == 1 then names[0] else names[0] + "/" + Joined(names[1..])
  }

  /** Each node is a directory whose first entry of the next name is the next node; no link is passed. */
  ghost predicate Chain(fs: Fs, names: seq<string>, nodes: seq<nat>, follow: bool) {
    && |nodes| == |names| + 1
    && forall j :: 0 <= j < |names| ==> Leads(fs, nodes[j], names[j], nodes[j + 1], j + 1 < |names| || follow)
  }

  ghost predicate Leads(fs: Fs, dir: nat, name: string, child: nat, follow: bool) {
    Kind(fs, dir).Dir? && FirstEntry(Kind(fs, dir).children, name, child) && !(follow && Kind(fs, child).Lnk?)
  }

  ghost predicate ChainTo(fs: Fs, from: nat, names: seq<string>, to: nat, follow: bool) {
    exists nodes :: Chain(fs, names, nodes, follow) && nodes[0] == from && nodes[|names|] == to
  }

  /** The chain goes on behind its first name. */
  lemma ChainTail(fs: Fs, from: nat, names: seq<string>, to: nat, follow: bool) returns (child: nat)
    requires names != [] && ChainTo(fs, from, names, to, follow)
    ensures Leads(fs, from, names[0], child, 1 < |names| || follow) && ChainTo(fs, child, names[1..], to, follow)
  {
    hide Leads;
    var nodes :| Chain(fs, names, nodes, follow) && nodes[0] == from && nodes[|names|] == to;
    var rest, tail := names[1..], nodes[1..];
    forall j | 0 <= j < |rest|
      ensures Leads(fs, tail[j], rest[j], tail[j + 1], j + 1 < |rest| || follow)
    {
      assert Leads(fs, nodes[j + 1], names[j + 1], nodes[j + 2], j + 2 < |names| || follow);
    }
    assert Chain(fs, rest, tail, follow);
    child := nodes[1];
  }

  lemma ChainFront(fs: Fs, from: nat, names: seq<string>, child: nat, to: nat, follow: bool)
    requires names != [] && Leads(fs, from, names[0], child, 1 < |names| || follow) && ChainTo(fs, child, names[1..], to, follow)
    ensures ChainTo(fs, from, names, to, follow)
  {
    hide Leads;
    var rest := names[1..];
    var tail :| Chain(fs, rest, tail, follow) && tail[0] == child && tail[|rest|] == to;
    var nodes := [from] + tail;
    forall j | 0 <= j < |names|
      ensures Leads(fs, nodes[j], names[j], nodes[j + 1], j + 1 < |names| || follow)
    {
      if j > 0 {
        assert Leads(fs, tail[j - 1], rest[j - 1], tail[j], j < |rest| || follow);
      }
    }
    assert Chain(fs, names, nodes, follow);
  }

  lemma JoinedStarts(names: seq<string>)
    requires names != [] && forall n :: n in names ==> Plain(n)
    ensures Joined(names) != "" && Joined(names)[0] != '/'
  {
    assert names[0] in names && names[0][0] in names[0];
  }

  /** A path of plain names ends at an inode without passing a link exactly when the tree has that chain. */
  lemma {:induction false} FoundIsChain(fs: Fs, from: nat, names: seq<string>, to: nat, follow: bool, budget: int)
    requires budget >= 0 && forall n :: n in names ==> Plain(n)
    ensures LookupB(fs, from, Joined(names), follow, budget) == Found(to, budget, []) <==> ChainTo(fs, from, names, to, follow)
    decreases |names|
  {
    if names == [] {
      assert Skip("") == "";
      if to == from {
        assert Chain(fs, names, [from], follow);
      }
    } else {
      assert names[0] in names;
      var on := 1 < |names| || follow;
      FirstOfChain(fs, from, names, on, follow, budget);
      if child :| Leads(fs, from, names[0], child, on) {
        FoundIsChain(fs, child, names[1..], to, follow, budget);
        LeadsOne(fs, from, names[0], child, on);
        if ChainTo(fs, child, names[1..], to, follow) {
          ChainFront(fs, from, names, child, to, follow);
        }
      }
      if ChainTo(fs, from, names, to, follow) {
        var child := ChainTail(fs, from, names, to, follow);
        assert Leads(fs, from, names[0], child, on);
      }
    }
  }

  lemma LeadsOne(fs: Fs, dir: nat, name: string, child: nat, on: bool)
    requires Leads(fs, dir, name, child, on)
    ensures forall c :: Leads(fs, dir, name, c, on) ==> c == child
  {
    FindIsFirst(Kind(fs, dir).children, name);
  }

  /** The answer r goes on in the child the name leads to, and is another one when it leads nowhere. */
  ghost predicate GoesOn(fs: Fs, cur: nat, name: string, rest: string, on: bool, follow: bool, budget: int, r: Found)
    requires budget >= 0
  {
    && (forall c :: Leads(fs, cur, name, c, on) ==> r == LookupB(fs, c, rest, follow, budget))
    && ((forall c :: !Leads(fs, cur, name, c, on)) ==> !(r.Found? && r.links == []))
  }

  lemma FirstOfChain(fs: Fs, from: nat, names: seq<string>, on: bool, follow: bool, budget: int)
    requires budget >= 0 && names != [] && (forall n :: n in names ==> Plain(n)) && on == (1 < |names| || follow)
    ensures GoesOn(fs, from, names[0], Joined(names[1..]), on, follow, budget, LookupB(fs, from, Joined(names), follow, budget))
  {
    var rest := names[1..];
    var tail := Joined(rest);
    assert names[0] in names;
    if rest == [] {
      OneStep(fs, from, names[0], follow, budget);
    } else {
      assert forall n :: n in rest ==> n in names;
      JoinedStarts(rest);
      NameThen(fs, from, names[0], tail, follow, budget);
    }
    StepLeads(fs, from, names[0], tail, on, follow, budget);
  }

  lemma StepLeads(fs: Fs, cur: nat, name: string, rest: string, on: bool, follow: bool, budget: int)
    requires budget >= 0 && Plain(name) && (rest == "" || rest[0] != '/') && on == (rest != "" || follow)
    ensures GoesOn(fs, cur, name, rest, on, follow, budget, Step(fs, cur, name, false, rest, follow, budget))
  {
    assert forall c :: LookupB(fs, c, rest, follow, budget) == Walk(fs, c, rest, follow, budget) by { assert Skip(rest) == rest; }
    hide Walk, LookupB;
    match Kind(fs, cur) {
      case Dir(_, children) =>
        FindIsFirst(children, name);
        match FindChild(children, name) {
          case None =>
          case Some(c) =>
            assert FirstEntry(children, name, c);
            assert Leads(fs, cur, name, c, on) <==> !(on && Kind(fs, c).Lnk?);
        }
      case Lnk(_) =>
      case Other =>
    }
  }

  // ---- trees ------------------------------------------------------------------------------------------

  /** Every entry names an inode of the tree, every directory listed in p has p as its parent, and the root is its own. */
  ghost predicate Tree(fs: Fs) {
    && Kind(fs, fs.root).Dir? && Kind(fs, fs.root).parent == fs.root
    && (forall p :: Kind(fs, p).Dir? ==> Kind(fs, Kind(fs, p).parent).Dir?)
    && (forall p, k :: Kind(fs, p).Dir? && 0 <= k < |Kind(fs, p).children| ==> EntryFits(fs, p, Kind(fs, p).children[k].1))
  }

  ghost predicate EntryFits(fs: Fs, p: nat, i: nat) {
    i in fs.inodes && (Kind(fs, i).Dir? ==> Kind(fs, i).parent == p)
  }

  /** Down into a subdirectory and up again is where one was: same answer, same links, same budget left. */
  lemma DownAndUp(fs: Fs, p: nat, name: string, d: nat, rest: string, follow: bool, budget: int)
    requires Tree(fs) && budget >= 0 && Plain(name) && rest != "" && rest[0] != '/'
    requires Kind(fs, p).Dir? && FirstEntry(Kind(fs, p).children, name, d) && Kind(fs, d).Dir?
    ensures LookupB(fs, p, name + "/.." + "/" + rest, follow, budget) == LookupB(fs, p, rest, follow, budget)
    ensures LookupB(fs, p, name + "/..", follow, budget) == Found(p, budget, [])
  {
    FindIsFirst(Kind(fs, p).children, name);
    assert EntryFits(fs, p, d);
    var up := ".." + "/" + rest;
    assert name + "/.." + "/" + rest == name + "/" + up && up[0] == '.';
    NameThen(fs, p, name, up, follow, budget);
    assert Skip(up) == up && Skip(rest) == rest;
    NameThen(fs, d, "..", rest, follow, budget);
    assert name + "/.." == name + "/" + "..";
    NameThen(fs, p, name, "..", follow, budget);
    assert Skip("..") == "..";
    OneStep(fs, d, "..", follow, budget);
    assert Walk(fs, p, "", follow, budget) == Found(p, budget, []);
  }

  /** Above the root is the root. */
  lemma RootUp(fs: Fs, from: nat, rest: string, follow: bool, budget: int)
    requires Tree(fs) && budget >= 0 && rest != "" && rest[0] != '/'
    ensures LookupB(fs, from, "/..", follow, budget) == Found(fs.root, budget, [])
    ensures LookupB(fs, from, "/" + (".." + "/" + rest), follow, budget) == LookupB(fs, fs.root, rest, follow, budget)
  {
    assert "/.." == "/" + "..";
    Absolute(fs, from, "..", follow, budget);
    OneStep(fs, fs.root, "..", follow, budget);
    assert Walk(fs, fs.root, "", follow, budget) == Found(fs.root, budget, []);
    Absolute(fs, from, ".." + "/" + rest, follow, budget);
    NameThen(fs, fs.root, "..", rest, follow, budget);
    assert Skip(rest) == rest;
  }

  /** "." stays where it is, in a directory. */
  lemma DotStays(fs: Fs, dir: nat, follow: bool, budget: int)
    requires Kind(fs, dir).Dir? && budget >= 0
    ensures LookupB(fs, dir, ".", follow, budget) == Found(dir, budget, [])
  {
    OneStep(fs, dir, ".", follow, budget);
    assert Walk(fs, dir, "", follow, budget) == Found(dir, budget, []);
  }

  // ---- how trees come about -----------------------------------------------------------------------------

  /** ramfs_mkdir, ramfs_mklnk, and ramfs_mkreg or ramfs_mknod */
  datatype Make = MakeDir | MakeLnk(target: string) | MakeOther

  /** The name as dir_link stores it: at most 63 bytes. */
  function Stored(name: string): string { if |name| <= 63 then name else name[..63] }

  /** The tree with a new inode n entered in dir under that name, in front of the older entries. */
  function Made(fs: Fs, dir: nat, name: string, n: nat, what: Make): Fs
    requires Kind(fs, dir).Dir? && n !in fs.inodes
  {
    var node := match what
      case MakeDir => Dir(dir, [])
      case MakeLnk(target) => Lnk(target)
      case MakeOther => Other;
    var d := Kind(fs, dir);
    fs.(inodes := fs.inodes[n := node][dir := Dir(d.parent, [(Stored(name), n)] + d.children)])
  }

  /** ramfs_init */
  function Bare(): Fs { Fs(1, map[1 := Dir(1, [])]) }

  datatype Making = Making(dir: nat, name: string, n: nat, what: Make)

  ghost predicate Built(fs: Fs, ms: seq<Making>)
    decreases |ms|
  {
    if ms == [] then fs == Bare()
    else
      var m := ms[|ms| - 1];
      exists before: Fs :: Built(before, ms[..|ms| - 1]) && MadeBy(before, m, fs)
  }

  ghost predicate MadeBy(before: Fs, m: Making, fs: Fs) {
    Kind(before, m.dir).Dir? && m.n !in before.inodes && fs == Made(before, m.dir, m.name, m.n, m.what)
  }

  /** Every tree the kernel can build has parents that agree with its entries. */
  lemma {:induction false} BuiltIsTree(fs: Fs, ms: seq<Making>)
    requires Built(fs, ms)
    ensures Tree(fs)
    decreases |ms|
  {
    if ms != [] {
      var m := ms[|ms| - 1];
      var before :| Built(before, ms[..|ms| - 1]) && MadeBy(before, m, fs);
      BuiltIsTree(before, ms[..|ms| - 1]);
      MadeKeepsTree(before, m.dir, m.name, m.n, m.what);
    }
  }

  lemma MadeKeepsTree(fs: Fs, dir: nat, name: string, n: nat, what: Make)
    requires Tree(fs) && Kind(fs, dir).Dir? && n !in fs.inodes
    ensures Tree(Made(fs, dir, name, n, what))
  {
    var fs' := Made(fs, dir, name, n, what);
    assert forall p :: p != dir && p != n ==> Kind(fs', p) == Kind(fs, p);
    forall p, k | Kind(fs', p).Dir? && 0 <= k < |Kind(fs', p).children|
      ensures EntryFits(fs', p, Kind(fs', p).children[k].1)
    {
      if p == dir && k == 0 {
      } else {
        var j := if p == dir then k - 1 else k;
        assert p != n && Kind(fs', p).children[k] == Kind(fs, p).children[j];
        assert EntryFits(fs, p, Kind(fs, p).children[j].1);
      }
    }
  }

  /** What was made is found under its name, and no other name anywhere finds anything new. */
  lemma MadeIsFound(fs: Fs, dir: nat, name: string, n: nat, what: Make, budget: int)
    requires Kind(fs, dir).Dir? && n !in fs.inodes && Plain(name) && budget >= 0
    ensures LookupB(Made(fs, dir, name, n, what), dir, name, false, budget) == Found(n, budget, [])
    ensures forall d, other :: d in fs.inodes && !(d == dir && other == name) ==>
      Child(Made(fs, dir, name, n, what), d, other) == Child(fs, d, other)
  {
    var fs' := Made(fs, dir, name, n, what);
    var cs := Kind(fs', dir).children;
    assert cs[0] == (name, n);
    assert FirstEntry(cs, name, n);
    LinkItself(fs', dir, name, n, budget);
    assert cs[1..] == Kind(fs, dir).children;
  }
}
