/** Path resolution in the RAM filesystem: lookup_b and its shared symlink budget. */
module Lookup {
  import opened Options

  const SYMLINK_MAX: int := 8
  const COMP_MAX: nat := 63

  /** children is the directory's list, newest first. */
  datatype Inode = Dir(parent: nat, children: seq<(string, nat)>) | Lnk(target: string) | Other

  datatype Fs = Fs(root: nat, inodes: map<nat, Inode>)

  function Kind(fs: Fs, i: nat): Inode { if i in fs.inodes then fs.inodes[i] else Other }

  function FindChild(cs: seq<(string, nat)>, name: string): (r: Option<nat>) {
    if cs == [] then None else if cs[0].0 == name then Some(cs[0].1) else FindChild(cs[1..], name)
  }

  /** ramfs_child */
  function Child(fs: Fs, dir: nat, name: string): Option<nat> {
    match Kind(fs, dir)
    case Dir(parent, children) =>
      if name == "." then Some(dir) else if name == ".." then Some(parent) else FindChild(children, name)
    case Lnk(_) => None
    case Other => None
  }

  // ---- text -------------------------------------------------------------------------------------

  function Skip(p: string): (r: string)
    ensures |r| <= |p| && (r == "" || r[0] != '/')
  {
    if p != "" && p[0] == '/' then Skip(p[1..]) else p
  }

  /** The length of the first component, up to n characters. */
  function CompLen(p: string, n: nat): (r: nat)
    ensures r <= |p| && r <= n && (r < n && r < |p| ==> p[r] == '/') && forall k :: 0 <= k < r ==> p[k] != '/'
  {
    if p == "" || p[0] == '/' || n == 0 then 0 else 1 + CompLen(p[1..], n - 1)
  }

  function Start(fs: Fs, from: nat, path: string): nat {
    if path != "" && path[0] == '/' then fs.root else from
  }

  // ---- the resolver -------------------------------------------------------------------------------

  /** The inode found, and what is left of the budget; links are the symlinks followed, in order. */
  datatype Found = Found(inode: nat, left: int, links: seq<nat>) | NotFound(links: seq<nat>)

  function After(ls: seq<nat>, r: Found): Found {
    match r
    case Found(i, b, ms) => Found(i, b, ls + ms)
    case NotFound(ms) => NotFound(ls + ms)
  }

  /** lookup_b */
  function LookupB(fs: Fs, from: nat, path: string, follow: bool, budget: int): (r: Found)
    requires budget >= 0
    ensures r.Found? ==> 0 <= r.left <= budget
    decreases budget, |path| + 1, 1
  {
    Walk(fs, Start(fs, from, path), Skip(path), follow, budget)
  }

  /** Its loop, from the component at the front of p on. */
  function Walk(fs: Fs, cur: nat, p: string, follow: bool, budget: int): (r: Found)
    requires budget >= 0 && (p == "" || p[0] != '/')
    ensures r.Found? ==> 0 <= r.left <= budget
    decreases budget, |p| + 1, 0
  {
    if p == "" then Found(cur, budget, [])
    else
      var n := CompLen(p, COMP_MAX);
      if n < |p| && p[n] != '/' then NotFound([])
      else
        var rest := Skip(p[n..]);
        match Child(fs, cur, p[..n])
        case None => NotFound([])
        case Some(child) =>
          if Kind(fs, child).Lnk? && (rest != "" || follow) then
            if budget == 0 then NotFound([])
            else
              match LookupB(fs, cur, Kind(fs, child).target, true, budget - 1)
              case NotFound(ls) => NotFound([child] + ls)
              case Found(i, left, ls) => After([child] + ls, Walk(fs, i, rest, follow, left))
          else Walk(fs, child, rest, follow, budget)
  }

  /** ramfs_lookup */
  function RamfsLookup(fs: Fs, start: Option<nat>, path: string, follow: bool): Found {
    LookupB(fs, match start { case Some(s) => s case None => fs.root }, path, follow, SYMLINK_MAX)
  }

  // ---- at most budget links -----------------------------------------------------------------------

  lemma {:induction false} LinksBounded(fs: Fs, from: nat, path: string, follow: bool, budget: int)
    requires budget >= 0
    ensures var r := LookupB(fs, from, path, follow, budget);
      |r.links| <= budget && (r.Found? ==> r.left == budget - |r.links|)
    decreases budget, |path| + 1, 1
  {
    WalkBounded(fs, Start(fs, from, path), Skip(path), follow, budget);
  }

  lemma {:induction false} WalkBounded(fs: Fs, cur: nat, p: string, follow: bool, budget: int)
    requires budget >= 0 && (p == "" || p[0] != '/')
    ensures var r := Walk(fs, cur, p, follow, budget);
      |r.links| <= budget && (r.Found? ==> r.left == budget - |r.links|)
    decreases budget, |p| + 1, 0
  {
    if p != "" {
      var n := CompLen(p, COMP_MAX);
      if !(n < |p| && p[n] != '/') {
        var rest := Skip(p[n..]);
        match Child(fs, cur, p[..n]) {
          case None =>
          case Some(child) =>
            if Kind(fs, child).Lnk? && (rest != "" || follow) {
              if budget > 0 {
                var r := LookupB(fs, cur, Kind(fs, child).target, true, budget - 1);
                LinksBounded(fs, cur, Kind(fs, child).target, true, budget - 1);
                if r.Found? {
                  WalkBounded(fs, r.inode, rest, follow, r.left);
                }
              }
            } else {
              WalkBounded(fs, child, rest, follow, budget);
            }
        }
      }
    }
  }

  /** Every resolution, on every tree (cyclic ones too), follows at most 8 links. */
  lemma AtMostEight(fs: Fs, start: Option<nat>, path: string, follow: bool)
    ensures |RamfsLookup(fs, start, path, follow).links| <= SYMLINK_MAX
  {
    LinksBounded(fs, match start { case Some(s) => s case None => fs.root }, path, follow, SYMLINK_MAX);
  }
}
