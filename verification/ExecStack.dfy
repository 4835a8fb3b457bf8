/** The initial user stack: what execve lays out and what the C library reads back. */
module ExecStack {
  import opened Fdt

  const PAGE: int := 4096
  const MAX_STRINGS: int := 63

  // ---- strings back to back ---------------------------------------------------------------------

  /** The strings with their NULs, first string lowest. */
  function Flat(ss: seq<seq<byte>>): (r: seq<byte>) {
    if ss == [] then [] else ss[0] + [0] + Flat(ss[1..])
  }

  /** Where string i lies when the strings end at address end. */
  function Ptr(ss: seq<seq<byte>>, end: int, i: nat): int
    requires i <= |ss|
  {
    end - |Flat(ss[i..])|
  }

  function Ptrs(ss: seq<seq<byte>>, end: int): (r: seq<int>)
    ensures |r| == |ss|
  {
    seq(|ss|, i requires 0 <= i < |ss| => Ptr(ss, end, i))
  }

  lemma {:induction false} FlatSuffix(ss: seq<seq<byte>>, i: nat)
    requires i <= |ss|
    ensures |Flat(ss[i..])| <= |Flat(ss)| && Flat(ss)[|Flat(ss)| - |Flat(ss[i..])|..] == Flat(ss[i..])
    decreases i
  {
    if i == 0 {
      assert ss[0..] == ss;
    } else {
      FlatSuffix(ss[1..], i - 1);
      assert ss[1..][i - 1..] == ss[i..];
      var a, f := ss[0] + [0], Flat(ss[1..]);
      assert (a + f)[|a + f| - |Flat(ss[i..])|..] == f[|f| - |Flat(ss[i..])|..];
    }
  }

  lemma FlatStep(ss: seq<seq<byte>>, i: nat)
    requires i < |ss|
    ensures Flat(ss[i..]) == ss[i] + [0] + Flat(ss[i + 1..])
  {
    assert ss[i..][1..] == ss[i + 1..];
  }

  // ---- words ------------------------------------------------------------------------------------

  function LeBytes(v: int): (r: seq<byte>)
    requires IsWord(v)
    ensures |r| == 4
  {
    var q := v / 256;
    var t := q / 256;
    [v % 256, q % 256, t % 256, t / 256]
  }

  function Le32(m: seq<byte>, p: nat): int
    requires p + 4 <= |m|
  {
    Word(m[p + 3], m[p + 2], m[p + 1], m[p])
  }

  predicate IsWord(v: int) { 0 <= v < 0x1_0000_0000 }

  predicate AreWords(ws: seq<int>) { forall i :: 0 <= i < |ws| ==> IsWord(ws[i]) }

  function WordBytes(ws: seq<int>): (r: seq<byte>)
    requires AreWords(ws)
    ensures |r| == 4 * |ws|
  {
    if ws == [] then [] else WordBytes(ws[..|ws| - 1]) + LeBytes(ws[|ws| - 1])
  }

  lemma LeRoundTrip(v: int, m: seq<byte>, p: nat)
    requires IsWord(v) && p + 4 <= |m| && m[p..p + 4] == LeBytes(v)
    ensures Le32(m, p) == v
  {
    var q := v / 256;
    var t := q / 256;
    var w := m[p..p + 4];
    assert w[0] == m[p] && w[1] == m[p + 1] && w[2] == m[p + 2] && w[3] == m[p + 3];
    assert v == 256 * q + v % 256 && q == 256 * t + q % 256 && t == 256 * (t / 256) + t % 256;
  }

  lemma {:induction false} WordAt(ws: seq<int>, k: nat, m: seq<byte>, p: nat)
    requires AreWords(ws) && k < |ws|
    requires p + 4 * |ws| <= |m| && m[p..p + 4 * |ws|] == WordBytes(ws)
    ensures Le32(m, p + 4 * k) == ws[k]
    decreases |ws|
  {
    var n := |ws| - 1;
    var a := WordBytes(ws[..n]);
    if k == n {
      assert m[p + 4 * n..p + 4 * n + 4] == m[p..p + 4 * |ws|][4 * n..];
      LeRoundTrip(ws[k], m, p + 4 * k);
    } else {
      assert m[p..p + 4 * n] == m[p..p + 4 * |ws|][..4 * n];
      WordAt(ws[..n], k, m, p);
    }
  }

  // ---- the layout -------------------------------------------------------------------------------

  /** What the loader knows of a dynamically linked program. */
  datatype LoadResult = LoadResult(dynamic: bool, phdr: int, phent: int, phnum: int, entry: int, base: int)

  function AuxVector(lr: LoadResult, random: int): seq<int> {
    (if lr.dynamic then [3, lr.phdr, 4, lr.phent, 5, lr.phnum, 9, lr.entry, 7, lr.base, 11, 0, 12, 0, 13, 0, 14, 0, 23, 0] else [])
    + [6, PAGE, 25, random, 0, 0]
  }

  function Random(): seq<byte> { seq(16, i => (0xA5 + i) % 256) }

  /** The vector: argc, the argv pointers, NULL, the envp pointers, NULL, the auxiliary vector. */
  function Vector(argv: seq<int>, envp: seq<int>, lr: LoadResult, random: int): (r: seq<int>)
    ensures |r| == 3 + |argv| + |envp| + if lr.dynamic then 26 else 6
  {
    [|argv|] + argv + [0] + envp + [0] + AuxVector(lr, random)
  }

  /** Where everything goes when the stack ends at top. */
  datatype Plan = Plan(vec: int, words: seq<int>, random: int)

  function PlanOf(argv: seq<seq<byte>>, envp: seq<seq<byte>>, lr: LoadResult, top: int): Plan {
    var e := top - |Flat(argv)|;
    var random := e - |Flat(envp)| - 16;
    var words := Vector(Ptrs(argv, top), Ptrs(envp, e), lr, random);
    var v := random - 4 * |words|;
    Plan(v - v % 16, words, random)
  }

  /** The strings and the vector fit into the page that ends the stack. */
  predicate Accepted(argv: seq<seq<byte>>, envp: seq<seq<byte>>, lr: LoadResult, lo: int, top: int) {
    |argv| <= MAX_STRINGS && |envp| <= MAX_STRINGS && PlanOf(argv, envp, lr, top).vec >= lo
  }

  predicate CString(s: seq<byte>) { 0 !in s }

  predicate LoadOk(lr: LoadResult) {
    IsWord(lr.phdr) && IsWord(lr.phent) && IsWord(lr.phnum) && IsWord(lr.entry) && IsWord(lr.base)
  }

  /** The page m, at address lo, holds the words ws at address sp. */
  ghost predicate VecThere(m: seq<byte>, lo: int, sp: int, ws: seq<int>) {
    0 < lo <= sp && sp - lo + 4 * |ws| <= |m| && AreWords(ws) && m[sp - lo..sp - lo + 4 * |ws|] == WordBytes(ws)
  }

  /** The page holds the plan: vector, random bytes, environment strings, argument strings, top. */
  ghost predicate Holds(m: seq<byte>, lo: int, top: int, argv: seq<seq<byte>>, envp: seq<seq<byte>>, lr: LoadResult, pl: Plan) {
    && VecThere(m, lo, pl.vec, pl.words) && pl.vec % 16 == 0 && pl.vec + 4 * |pl.words| <= pl.random
    && pl.words == Vector(Ptrs(argv, top), Ptrs(envp, top - |Flat(argv)|), lr, pl.random)
    && pl.random + 16 + |Flat(envp)| + |Flat(argv)| == top && top - lo <= |m|
    && m[pl.random - lo..top - lo] == Random() + Flat(envp) + Flat(argv)
  }

  // ---- what the C library reads -------------------------------------------------------------------

  /** A word of the initial stack: initial_sp[k] with initial_sp == sp. */
  function StackWord(m: seq<byte>, lo: int, sp: int, k: nat): int
    requires lo <= sp && sp - lo + 4 * k + 4 <= |m|
  {
    Le32(m, sp - lo + 4 * k)
  }

  /** The C string a pointer leads to. */
  function StringAt(m: seq<byte>, lo: int, p: int): seq<byte>
    requires lo <= p <= lo + |m|
  {
    CStr(m[p - lo..])
  }

  // ---- the round trip -----------------------------------------------------------------------------

  lemma StringIn(m: seq<byte>, end: nat, ss: seq<seq<byte>>, i: nat)
    requires |Flat(ss)| <= end <= |m| && m[end - |Flat(ss)|..end] == Flat(ss) && i < |ss| && CString(ss[i])
    ensures |Flat(ss[i..])| <= |Flat(ss)| && CStr(m[end - |Flat(ss[i..])|..]) == ss[i]
  {
    hide Flat, StrLen;
    FlatSuffix(ss, i);
    FlatStep(ss, i);
    var f, g := Flat(ss), Flat(ss[i..]);
    var p := end - |g|;
    SliceOf(m, end - |f|, end, f, |f| - |g|);
    ReadBack(m, p, end, ss[i], Flat(ss[i + 1..]));
  }

  /** A string with its NUL in place is read back. */
  lemma ReadBack(m: seq<byte>, p: nat, end: nat, s: seq<byte>, rest: seq<byte>)
    requires p <= end <= |m| && m[p..end] == s + [0] + rest && CString(s)
    ensures CStr(m[p..]) == s
  {
    hide StrLen;
    var t, g := m[p..], s + [0] + rest;
    forall k | 0 <= k < |g|
      ensures t[k] == g[k]
    {
      assert t[k] == m[p..end][k];
    }
    StrLenIs(t, |s|);
    assert t[..|s|] == s;
  }

  lemma SliceOf(m: seq<byte>, a: nat, b: nat, f: seq<byte>, k: nat)
    requires a <= b <= |m| && m[a..b] == f && k <= |f|
    ensures m[a + k..b] == f[k..]
  {
    forall x | a + k <= x < b
      ensures m[x] == f[x - a]
    {
      assert m[a..b][x - a] == m[x];
    }
  }

  /** The two blocks of strings, each where its pointers lead. */
  lemma StringsThere(m: seq<byte>, lo: int, top: int, argv: seq<seq<byte>>, envp: seq<seq<byte>>, lr: LoadResult, pl: Plan)
    requires Holds(m, lo, top, argv, envp, lr, pl)
    ensures var e := top - lo - |Flat(argv)|;
      && |Flat(envp)| <= e <= top - lo <= |m|
      && m[e..top - lo] == Flat(argv) && m[e - |Flat(envp)|..e] == Flat(envp)
  {
    hide Flat, Ptrs, Vector, VecThere, Random;
    VecBounds(m, lo, pl.vec, pl.words);
    RandomLength();
    ThreeParts(m, pl.random - lo, top - lo, Random(), Flat(envp), Flat(argv));
  }

  lemma RandomLength()
    ensures |Random()| == 16
  {
  }

  lemma ThreeParts(m: seq<byte>, a: nat, b: nat, x: seq<byte>, y: seq<byte>, z: seq<byte>)
    requires a <= b <= |m| && m[a..b] == x + y + z
    ensures m[a..a + |x|] == x && m[a + |x|..a + |x| + |y|] == y && m[b - |z|..b] == z
  {
    assert x + y + z == x + (y + z);
    Front(m, a, b, x, y + z);
    SliceOf(m, a, b, x + y + z, |x|);
    assert (x + y + z)[|x|..] == y + z;
    Front(m, a + |x|, b, y, z);
    SliceOf(m, a, b, x + y + z, |x| + |y|);
    assert (x + y + z)[|x| + |y|..] == z;
  }

  lemma VecBounds(m: seq<byte>, lo: int, sp: int, ws: seq<int>)
    requires VecThere(m, lo, sp, ws)
    ensures 0 < lo <= sp && sp - lo + 4 * |ws| <= |m|
  {
  }

  lemma Front(m: seq<byte>, a: nat, b: nat, x: seq<byte>, y: seq<byte>)
    requires a <= b <= |m| && m[a..b] == x + y
    ensures m[a..a + |x|] == x
  {
    assert m[a..a + |x|] == m[a..b][..|x|];
  }

  lemma VectorAt(argv: seq<int>, envp: seq<int>, lr: LoadResult, random: int)
    ensures var w := Vector(argv, envp, lr, random); var n, k := |argv|, |envp|;
      && w[0] == n && w[n + 1] == 0 && w[n + k + 2] == 0
      && w[n + k + 3..] == AuxVector(lr, random)
  {
    hide AuxVector;
  }

  lemma VectorPtrs(argv: seq<int>, envp: seq<int>, lr: LoadResult, random: int, i: nat)
    ensures i < |argv| ==> Vector(argv, envp, lr, random)[1 + i] == argv[i]
    ensures i < |envp| ==> Vector(argv, envp, lr, random)[|argv| + 2 + i] == envp[i]
  {
    hide AuxVector;
  }

  lemma VecWord(m: seq<byte>, lo: int, sp: int, ws: seq<int>, k: nat)
    requires VecThere(m, lo, sp, ws) && k < |ws|
    ensures sp - lo + 4 * k + 4 <= |m| && StackWord(m, lo, sp, k) == ws[k]
  {
    hide WordBytes;
    WordAt(ws, k, m, sp - lo);
  }

  /** __libc_start_main finds argc, and argv[i] is the i-th argument. */
  lemma ArgvRoundTrip(m: seq<byte>, lo: int, top: int, argv: seq<seq<byte>>, envp: seq<seq<byte>>, lr: LoadResult, pl: Plan, i: nat)
    requires Holds(m, lo, top, argv, envp, lr, pl) && VecThere(m, lo, pl.vec, pl.words) && i < |argv| && CString(argv[i])
    ensures |pl.words| > |argv| && StackWord(m, lo, pl.vec, 0) == |argv|
    ensures var p := StackWord(m, lo, pl.vec, 1 + i); lo <= p <= lo + |m| && StringAt(m, lo, p) == argv[i]
  {
    hide Flat, WordBytes, CStr, AuxVector, VecThere, Vector, Le32;
    VectorAt(Ptrs(argv, top), Ptrs(envp, top - |Flat(argv)|), lr, pl.random);
    VectorPtrs(Ptrs(argv, top), Ptrs(envp, top - |Flat(argv)|), lr, pl.random, i);
    VecWord(m, lo, pl.vec, pl.words, 0);
    VecWord(m, lo, pl.vec, pl.words, 1 + i);
    StringsThere(m, lo, top, argv, envp, lr, pl);
    StringIn(m, top - lo, argv, i);
  }

  /** environ = argv + argc + 1 points at the environment, in order. */
  lemma EnvpRoundTrip(m: seq<byte>, lo: int, top: int, argv: seq<seq<byte>>, envp: seq<seq<byte>>, lr: LoadResult, pl: Plan, j: nat)
    requires Holds(m, lo, top, argv, envp, lr, pl) && VecThere(m, lo, pl.vec, pl.words) && j < |envp| && CString(envp[j])
    ensures |pl.words| > |argv| + 2 + j
    ensures var p := StackWord(m, lo, pl.vec, |argv| + 2 + j); lo <= p <= lo + |m| && StringAt(m, lo, p) == envp[j]
  {
    hide Flat, WordBytes, CStr, AuxVector, VecThere, Vector, Le32;
    VectorAt(Ptrs(argv, top), Ptrs(envp, top - |Flat(argv)|), lr, pl.random);
    VectorPtrs(Ptrs(argv, top), Ptrs(envp, top - |Flat(argv)|), lr, pl.random, j);
    VecWord(m, lo, pl.vec, pl.words, |argv| + 2 + j);
    StringsThere(m, lo, top, argv, envp, lr, pl);
    StringIn(m, top - lo - |Flat(argv)|, envp, j);
  }

  /** Both pointer arrays end in NULL, and the auxiliary vector follows. */
  lemma AuxRoundTrip(m: seq<byte>, lo: int, top: int, argv: seq<seq<byte>>, envp: seq<seq<byte>>, lr: LoadResult, pl: Plan, k: nat)
    requires Holds(m, lo, top, argv, envp, lr, pl) && VecThere(m, lo, pl.vec, pl.words) && k < |AuxVector(lr, pl.random)|
    ensures |pl.words| == |argv| + |envp| + 3 + |AuxVector(lr, pl.random)|
    ensures StackWord(m, lo, pl.vec, |argv| + 1) == 0 && StackWord(m, lo, pl.vec, |argv| + |envp| + 2) == 0
    ensures StackWord(m, lo, pl.vec, |argv| + |envp| + 3 + k) == AuxVector(lr, pl.random)[k]
  {
    hide Flat, WordBytes, VecThere, Vector, AuxVector, Le32;
    VectorAt(Ptrs(argv, top), Ptrs(envp, top - |Flat(argv)|), lr, pl.random);
    var b := |argv| + |envp| + 3;
    assert pl.words[b..][k] == pl.words[b + k];
    VecWord(m, lo, pl.vec, pl.words, |argv| + 1);
    VecWord(m, lo, pl.vec, pl.words, |argv| + |envp| + 2);
    VecWord(m, lo, pl.vec, pl.words, b + k);
  }

  /** AT_RANDOM's sixteen bytes lie between the vector and the strings. */
  lemma RandomThere(m: seq<byte>, lo: int, top: int, argv: seq<seq<byte>>, envp: seq<seq<byte>>, lr: LoadResult, pl: Plan)
    requires Holds(m, lo, top, argv, envp, lr, pl)
    ensures lo <= pl.random && m[pl.random - lo..pl.random - lo + 16] == Random()
  {
    hide Flat, VecThere, Vector, Ptrs, Random;
    VecBounds(m, lo, pl.vec, pl.words);
    RandomLength();
    ThreeParts(m, pl.random - lo, top - lo, Random(), Flat(envp), Flat(argv));
  }
}
