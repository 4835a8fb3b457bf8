/** lookup_b as the loop and recursion of ramfs.c. */
module LookupCode {
  import opened Options
  import opened Lookup
  import opened LookupSubst

  /** The pair a C caller sees: the inode or null (-1), and the budget. */
  function Outcome(r: Found): (int, int) {
    match r
    case Found(i, left, _) => (i as int, left)
    case NotFound(_) => (-1, -1)
  }

  lemma OutcomeAfter(ls: seq<nat>, r: Found)
    ensures Outcome(After(ls, r)) == Outcome(r)
  {
  }

  method SkipSlashes(path: string, p0: nat) returns (p: nat)
    requires p0 <= |path|
    ensures p0 <= p <= |path| && path[p..] == Skip(path[p0..])
  {
    p := p0;
    while p < |path| && path[p] == '/'
      invariant p0 <= p <= |path| && Skip(path[p..]) == Skip(path[p0..])
    {
      assert path[p..][1..] == path[p + 1..];
      p := p + 1;
    }
  }

  /** The loop that copies one component. */
  method Component(path: string, p: nat) returns (i: nat)
    requires p < |path| && path[p] != '/'
    ensures 0 < i && p + i <= |path| && i == CompLen(path[p..], COMP_MAX)
  {
    i := 0;
    while p + i < |path| && path[p + i] != '/' && i < COMP_MAX
      invariant p + i <= |path| && i <= COMP_MAX && CompLen(path[p..], COMP_MAX) == i + CompLen(path[p + i..], COMP_MAX - i)
    {
      assert path[p + i..][1..] == path[p + i + 1..];
      i := i + 1;
    }
  }

  /** ramfs_child's list walk */
  method ChildOf(fs: Fs, dir: nat, name: string) returns (r: Option<nat>)
    ensures r == Child(fs, dir, name)
  {
    match Kind(fs, dir) {
      case Dir(parent, children) =>
        if name == "." {
          return Some(dir);
        }
        if name == ".." {
          return Some(parent);
        }
        var k := 0;
        while k < |children|
          invariant k <= |children| && FindChild(children, name) == FindChild(children[k..], name)
        {
          if children[k].0 == name {
            return Some(children[k].1);
          }
          assert children[k..][1..] == children[k + 1..];
          k := k + 1;
        }
        r := None;
      case Lnk(_) => r := None;
      case Other => r := None;
    }
  }

  method LookupBudget(fs: Fs, from: nat, path: string, follow: bool, budget: int) returns (r: int, left: int)
    requires budget >= 0
    ensures (r, left) == Outcome(LookupB(fs, from, path, follow, budget))
    decreases budget
  {
    hide Walk, Kind, Skip, CompLen, Child;
    var cur: nat := if path != "" && path[0] == '/' then fs.root else from;
    left := budget;
    assert path[0..] == path;
    var p := SkipSlashes(path, 0);
    while p < |path|
      invariant p <= |path| && 0 <= left <= budget
      invariant p < |path| ==> path[p] != '/'
      invariant Outcome(LookupB(fs, from, path, follow, budget)) == Outcome(Walk(fs, cur, path[p..], follow, left))
    {
      var i := Component(path, p);
      WalkStep(fs, cur, path[p..], follow, left);
      if p + i < |path| && path[p + i] != '/' {
        return -1, -1;
      }
      assert path[p..][..i] == path[p..p + i] && path[p..][i..] == path[p + i..];
      var next := SkipSlashes(path, p + i);
      var child := ChildOf(fs, cur, path[p..p + i]);
      if child.None? {
        return -1, -1;
      }
      var c := child.value;
      if Kind(fs, c).Lnk? && (next < |path| || follow) {
        if left - 1 < 0 {
          return -1, -1;
        }
        var t, b := LookupBudget(fs, cur, Kind(fs, c).target, true, left - 1);
        if t < 0 {
          return -1, -1;
        }
        ThroughLink(fs, cur, c, Kind(fs, c).target, path[next..], follow, left);
        c, left := t, b;
      }
      cur := c;
      p := next;
    }
    r := cur;
    AtEnd(fs, cur, path[p..], follow, left);
  }

  lemma ThroughLink(fs: Fs, cur: nat, child: nat, target: string, rest: string, follow: bool, budget: int)
    requires budget > 0 && (rest == "" || rest[0] != '/')
    ensures var r := LookupB(fs, cur, target, true, budget - 1);
      r.Found? ==> Outcome(After([child], Continue(fs, r, rest, follow))) == Outcome(Walk(fs, r.inode, rest, follow, r.left))
  {
    hide Walk, LookupB;
    var r := LookupB(fs, cur, target, true, budget - 1);
    OutcomeAfter([child], Continue(fs, r, rest, follow));
    if r.Found? {
      OutcomeAfter(r.links, Walk(fs, r.inode, rest, follow, r.left));
    }
  }

  lemma AtEnd(fs: Fs, cur: nat, p: string, follow: bool, budget: int)
    requires p == "" && budget >= 0
    ensures Walk(fs, cur, p, follow, budget) == Found(cur, budget, [])
  {
  }
}
