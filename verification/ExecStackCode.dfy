/** setup_user_stack on the page, and __libc_start_main on what it finds there. */
module ExecStackCode {
  import opened Fdt
  import opened ExecStack

  /** The strings' bytes are in place below sp0, and above nothing changed. */
  ghost predicate Placed(m: seq<byte>, was: seq<byte>, a: int, b: int, f: seq<byte>) {
    |m| == |was| && 0 <= a <= b <= |m| && m[a..b] == f && m[b..] == was[b..]
  }

  lemma PlacedMore(m: seq<byte>, m': seq<byte>, was: seq<byte>, a: int, b: int, f: seq<byte>, c: seq<byte>)
    requires Placed(m, was, a, b, f) && |c| <= a && |m'| == |m| && m'[a - |c|..a] == c && m'[a..] == m[a..]
    ensures Placed(m', was, a - |c|, b, c + f)
  {
    forall x | a <= x < |m|
      ensures m'[x] == m[x]
    {
      assert m'[a..][x - a] == m[a..][x - a];
    }
    assert m'[a - |c|..b] == m'[a - |c|..a] + m'[a..b];
    assert m'[a..b] == m[a..b];
    assert m'[b..] == m[b..];
  }

  /** memcpy of a string with its NUL */
  method CopyString(page: array<byte>, off: nat, s: seq<byte>)
    requires off + |s| + 1 <= page.Length
    modifies page
    ensures page[off..off + |s| + 1] == s + [0]
    ensures page[..off] == old(page[..off]) && page[off + |s| + 1..] == old(page[off + |s| + 1..])
  {
    var i := 0;
    while i < |s| + 1
      invariant i <= |s| + 1
      invariant forall x :: off <= x < off + i ==> page[x] == (s + [0])[x - off]
      invariant forall x :: 0 <= x < off || off + i <= x < page.Length ==> page[x] == old(page[x])
    {
      page[off + i] := if i < |s| then s[i] else 0;
      i := i + 1;
    }
  }

  /** The loops that copy a string vector downward from sp0. */
  method PushStrings(page: array<byte>, lo: int, sp0: int, ss: seq<seq<byte>>) returns (ok: bool, sp: int, ptrs: seq<int>)
    requires 0 < lo <= sp0 <= lo + page.Length
    modifies page
    ensures ok <==> |Flat(ss)| <= sp0 - lo
    ensures ok ==> sp == sp0 - |Flat(ss)| && ptrs == Ptrs(ss, sp0) && Placed(page[..], old(page[..]), sp - lo, sp0 - lo, Flat(ss))
  {
    hide Flat, Ptrs, Ptr, Placed;
    ghost var was := page[..];
    sp, ptrs := sp0, [];
    var i := |ss|;
    PushBegin(was, sp0 - lo, ss, sp0);
    while i > 0
      invariant 0 <= i <= |ss| && sp == sp0 - |Flat(ss[i..])| && lo <= sp
      invariant |ptrs| == |ss| - i && ptrs == Ptrs(ss, sp0)[i..]
      invariant Placed(page[..], was, sp - lo, sp0 - lo, Flat(ss[i..]))
    {
      i := i - 1;
      var len := |ss[i]| + 1;
      FlatStep(ss, i);
      sp := sp - len;
      if sp < lo {
        FlatSuffix(ss, i);
        return false, sp, ptrs;
      }
      ghost var m := page[..];
      CopyString(page, sp - lo, ss[i]);
      PushStep(m, page[..], was, sp - lo, sp0 - lo, Flat(ss[i + 1..]), ss[i]);
      PtrStep(ss, sp0, i);
      ptrs := [sp] + ptrs;
    }
    assert ss[0..] == ss && Ptrs(ss, sp0)[0..] == Ptrs(ss, sp0);
    ok := true;
  }

  lemma PushBegin(was: seq<byte>, b: nat, ss: seq<seq<byte>>, end: int)
    requires b <= |was|
    ensures Flat(ss[|ss|..]) == [] && Ptrs(ss, end)[|ss|..] == [] && Placed(was, was, b, b, [])
  {
  }

  lemma PushStep(m: seq<byte>, m': seq<byte>, was: seq<byte>, a: nat, b: nat, f: seq<byte>, s: seq<byte>)
    requires a + |s| + 1 <= |m| && Placed(m, was, a + |s| + 1, b, f) && |m'| == |m|
    requires m'[a..a + |s| + 1] == s + [0] && m'[a + |s| + 1..] == m[a + |s| + 1..]
    ensures Placed(m', was, a, b, s + [0] + f)
  {
    hide Placed;
    PlacedMore(m, m', was, a + |s| + 1, b, f, s + [0]);
  }

  lemma PtrStep(ss: seq<seq<byte>>, end: int, i: nat)
    requires i < |ss|
    ensures Ptrs(ss, end)[i..] == [end - |Flat(ss[i..])|] + Ptrs(ss, end)[i + 1..]
  {
    hide Flat;
    var r := Ptrs(ss, end);
    assert r[i] == Ptr(ss, end, i);
    assert r[i..] == [r[i]] + r[i + 1..];
  }

  method PutRandom(page: array<byte>, off: nat)
    requires off + 16 <= page.Length
    modifies page
    ensures page[..][off..off + 16] == Random() && page[..][off + 16..] == old(page[..])[off + 16..]
  {
    var i := 0;
    while i < 16
      invariant i <= 16
      invariant forall x :: off <= x < off + i ==> page[x] == (0xA5 + (x - off)) % 256
      invariant forall x :: off + i <= x < page.Length ==> page[x] == old(page[x])
    {
      page[off + i] := (0xA5 + i) % 256;
      i := i + 1;
    }
  }

  /** m' is m with the word v at off. */
  ghost predicate WordPut(m: seq<byte>, m': seq<byte>, off: nat, v: int) {
    && off + 4 <= |m| == |m'| && IsWord(v)
    && m'[off..off + 4] == LeBytes(v) && m'[..off] == m[..off] && m'[off + 4..] == m[off + 4..]
  }

  method StoreWord(page: array<byte>, off: nat, v: int)
    requires off + 4 <= page.Length && IsWord(v)
    modifies page
    ensures WordPut(old(page[..]), page[..], off, v)
  {
    var q := v / 256;
    var t := q / 256;
    page[off], page[off + 1], page[off + 2], page[off + 3] := v % 256, q % 256, t % 256, t / 256;
  }

  /** m is was with the first k of the words at off, as far as it matters from off on. */
  ghost predicate WordsPut(was: seq<byte>, m: seq<byte>, off: nat, ws: seq<int>, k: nat) {
    && AreWords(ws) && k <= |ws| && off + 4 * k <= |m| == |was|
    && AreWords(ws[..k]) && m[off..off + 4 * k] == WordBytes(ws[..k]) && m[off + 4 * k..] == was[off + 4 * k..]
  }

  /** w[k++] = ... for every word of the vector */
  method StoreWords(page: array<byte>, off: nat, ws: seq<int>)
    requires off + 4 * |ws| <= page.Length && AreWords(ws)
    modifies page
    ensures WordsPut(old(page[..]), page[..], off, ws, |ws|)
  {
    NonePut(page[..], off, ws);
    var k := 0;
    hide WordsPut, WordPut;
    while k < |ws|
      invariant 0 <= k <= |ws| && WordsPut(old(page[..]), page[..], off, ws, k)
    {
      ghost var m := page[..];
      StoreWord(page, off + 4 * k, ws[k]);
      WordStep(old(page[..]), m, page[..], off, ws, k);
      k := k + 1;
    }
  }

  lemma NonePut(m: seq<byte>, off: nat, ws: seq<int>)
    requires AreWords(ws) && off <= |m|
    ensures WordsPut(m, m, off, ws, 0)
  {
    assert m[off..off] == [];
  }

  lemma WordStep(was: seq<byte>, m: seq<byte>, m': seq<byte>, off: nat, ws: seq<int>, k: nat)
    requires WordsPut(was, m, off, ws, k) && k < |ws| && WordPut(m, m', off + 4 * k, ws[k])
    ensures WordsPut(was, m', off, ws, k + 1)
  {
    hide LeBytes;
    var n := 4 * k;
    assert ws[..k + 1][..k] == ws[..k];
    assert m'[off..off + n] == m'[..off + n][off..] == m[..off + n][off..] == m[off..off + n];
    assert m'[off..off + n + 4] == m'[off..off + n] + m'[off + n..off + n + 4];
    assert m[off + n + 4..] == m[off + n..][4..] && was[off + n + 4..] == was[off + n..][4..];
  }

  /** setup_user_stack; mapped says whether the stack's page is there. */
  method SetupUserStack(page: array<byte>, lo: int, top: int, argv: seq<seq<byte>>, envp: seq<seq<byte>>, lr: LoadResult, mapped: bool)
    returns (vec: int)
    requires page.Length == PAGE && 0 < lo && lo % PAGE == 0 && lo < top <= lo + PAGE < 0x1_0000_0000 && LoadOk(lr)
    modifies page
    ensures vec != 0 <==> mapped && Accepted(argv, envp, lr, lo, top)
    ensures vec != 0 ==> vec == PlanOf(argv, envp, lr, top).vec && Holds(page[..], lo, top, argv, envp, lr, PlanOf(argv, envp, lr, top))
  {
    hide Flat, Holds, Placed, Ptrs, PlanOf, WordBytes, Vector, LoadOk;
    if !mapped {
      return 0;
    }
    if |argv| > MAX_STRINGS || |envp| > MAX_STRINGS {
      return 0;
    }
    ghost var was := page[..];
    PlanBelow(argv, envp, lr, top);
    PageAligned(lo);
    var okA, sp, argvVa := PushStrings(page, lo, top, argv);
    if !okA {
      return 0;
    }
    ghost var m1 := page[..];
    var okE, sp', envpVa := PushStrings(page, lo, sp, envp);
    if !okE {
      return 0;
    }
    vec := PutVector(page, lo, top, argv, envp, lr, sp', argvVa, envpVa, was, m1);
  }

  /** Steps 2 and 3: the random bytes and the vector below the strings. */
  method PutVector(page: array<byte>, lo: int, top: int, ghost argv: seq<seq<byte>>, ghost envp: seq<seq<byte>>, lr: LoadResult,
                   sp: int, argvVa: seq<int>, envpVa: seq<int>, ghost was: seq<byte>, ghost m1: seq<byte>) returns (vec: int)
    requires 0 < lo && lo % 16 == 0 && lo < top <= lo + page.Length < 0x1_0000_0000 && LoadOk(lr)
    requires |argv| <= MAX_STRINGS && |envp| <= MAX_STRINGS && lo <= sp && sp + |Flat(envp)| + |Flat(argv)| == top
    requires argvVa == Ptrs(argv, top) && envpVa == Ptrs(envp, top - |Flat(argv)|)
    requires Placed(m1, was, top - |Flat(argv)| - lo, top - lo, Flat(argv))
    requires Placed(page[..], m1, sp - lo, top - |Flat(argv)| - lo, Flat(envp))
    modifies page
    ensures vec != 0 <==> PlanOf(argv, envp, lr, top).vec >= lo
    ensures vec != 0 ==> vec == PlanOf(argv, envp, lr, top).vec && Holds(page[..], lo, top, argv, envp, lr, PlanOf(argv, envp, lr, top))
  {
    hide Flat, Holds, Placed, Ptrs, PlanOf, WordBytes, Vector, AreWords, LoadOk, VecThere, Random;
    ghost var m2 := page[..];
    PlanIs(argv, envp, lr, lo, top);
    var random := sp - 16;
    if random < lo {
      return 0;
    }
    PutRandom(page, random - lo);
    ghost var m3 := page[..];
    var words := Vector(argvVa, envpVa, lr, random);
    if random < lo + 4 * |words| {
      return 0;
    }
    vec := random - 4 * |words| - (random - 4 * |words|) % 16;
    if vec < lo {
      return 0;
    }
    PtrsAreWords(argv, top, lo);
    PtrsAreWords(envp, top - |Flat(argv)|, lo);
    VectorIsWords(argvVa, envpVa, lr, random);
    WriteVector(page, lo, vec, words);
    PlacedLength(m1, was, m2, random + 16 - lo, top - |Flat(argv)| - lo, top - lo, Flat(argv), Flat(envp));
    Assembled(was, m1, m2, m3, page[..], lo, top, argv, envp, lr, vec, words, random);
  }

  /** The words of the vector, at address vec of the page. */
  method WriteVector(page: array<byte>, lo: int, vec: int, words: seq<int>)
    requires 0 < lo <= vec && vec - lo + 4 * |words| <= page.Length && AreWords(words)
    modifies page
    ensures VecThere(page[..], lo, vec, words)
    ensures page[..][vec - lo + 4 * |words|..] == old(page[..])[vec - lo + 4 * |words|..]
  {
    hide WordBytes, AreWords;
    StoreWords(page, vec - lo, words);
    assert words[..|words|] == words;
  }

  lemma PageAligned(lo: int)
    requires lo % PAGE == 0
    ensures lo % 16 == 0
  {
  }

  /** A plan that fits leaves room for the strings. */
  lemma PlanBelow(argv: seq<seq<byte>>, envp: seq<seq<byte>>, lr: LoadResult, top: int)
    ensures PlanOf(argv, envp, lr, top).vec + 16 + |Flat(envp)| + |Flat(argv)| <= top
  {
    hide Flat, Ptrs, Vector;
  }

  lemma PlanIs(argv: seq<seq<byte>>, envp: seq<seq<byte>>, lr: LoadResult, lo: int, top: int)
    ensures var pl, e := PlanOf(argv, envp, lr, top), top - |Flat(argv)|;
      && pl.random == e - |Flat(envp)| - 16
      && pl.words == Vector(Ptrs(argv, top), Ptrs(envp, e), lr, pl.random)
      && pl.vec == pl.random - 4 * |pl.words| - (pl.random - 4 * |pl.words|) % 16
    ensures PlanOf(argv, envp, lr, top).vec <= PlanOf(argv, envp, lr, top).random - 4 * |PlanOf(argv, envp, lr, top).words|
  {
    hide Flat, Ptrs, Vector;
  }

  lemma PtrsAreWords(ss: seq<seq<byte>>, end: int, lo: int)
    requires 0 < lo && |Flat(ss)| <= end - lo && end < 0x1_0000_0000
    ensures AreWords(Ptrs(ss, end))
  {
    hide Flat;
    forall i | 0 <= i < |ss|
      ensures IsWord(Ptrs(ss, end)[i])
    {
      FlatSuffix(ss, i);
    }
  }

  lemma VectorIsWords(argv: seq<int>, envp: seq<int>, lr: LoadResult, random: int)
    requires AreWords(argv) && AreWords(envp) && LoadOk(lr) && IsWord(random) && |argv| <= MAX_STRINGS
    ensures AreWords(Vector(argv, envp, lr, random))
  {
    var x := AuxVector(lr, random);
    assert AreWords(x);
    hide AuxVector;
    var w := Vector(argv, envp, lr, random);
    forall i | 0 <= i < |w|
      ensures IsWord(w[i])
    {
      if 1 <= i <= |argv| {
        assert w[i] == argv[i - 1];
      } else if |argv| + 2 <= i < |argv| + 2 + |envp| {
        assert w[i] == envp[i - |argv| - 2];
      } else if i >= |argv| + |envp| + 3 {
        assert w[i] == x[i - (|argv| + |envp| + 3)];
      }
    }
  }

  /** The page after the four writes holds the plan. */
  lemma Assembled(was: seq<byte>, m1: seq<byte>, m2: seq<byte>, m3: seq<byte>, m: seq<byte>, lo: int, top: int,
                  argv: seq<seq<byte>>, envp: seq<seq<byte>>, lr: LoadResult, vec: int, words: seq<int>, random: int)
    requires 0 < lo <= vec && vec % 16 == 0 && vec + 4 * |words| <= random && random + 16 + |Flat(envp)| + |Flat(argv)| == top
    requires words == Vector(Ptrs(argv, top), Ptrs(envp, top - |Flat(argv)|), lr, random) && AreWords(words)
    requires Placed(m1, was, top - |Flat(argv)| - lo, top - lo, Flat(argv))
    requires Placed(m2, m1, random + 16 - lo, top - |Flat(argv)| - lo, Flat(envp))
    requires |m3| == |m2| == |m| && top - lo <= |m|
    requires m3[random - lo..random + 16 - lo] == Random() && m3[random + 16 - lo..] == m2[random + 16 - lo..]
    requires VecThere(m, lo, vec, words) && m[vec - lo + 4 * |words|..] == m3[vec - lo + 4 * |words|..]
    ensures Holds(m, lo, top, argv, envp, lr, Plan(vec, words, random))
  {
    hide Flat, Ptrs, Vector, Random, Placed, AreWords, VecThere;
    PlacedBoth(was, m1, m2, random + 16 - lo, top - |Flat(argv)| - lo, top - lo, Flat(envp), Flat(argv));
    RandomLength();
    Stacked(m2, m3, m, vec - lo + 4 * |words|, random - lo, top - lo, Random(), Flat(envp), Flat(argv));
  }

  lemma Stacked(m2: seq<byte>, m3: seq<byte>, m: seq<byte>, v: nat, r: nat, t: nat, x: seq<byte>, f: seq<byte>, g: seq<byte>)
    requires v <= r && r + |x| <= t <= |m| == |m3| == |m2| && m3[r..r + |x|] == x && m2[r + |x|..t] == f + g
    requires m3[r + |x|..] == m2[r + |x|..] && m[v..] == m3[v..]
    ensures m[r..t] == x + f + g
  {
    SameTail(m2, m3, r + |x|, t);
    SameTail2(m3, m, v, r, t);
    assert m3[r..t] == m3[r..r + |x|] + m3[r + |x|..t];
    assert x + (f + g) == x + f + g;
  }

  lemma PlacedBoth(was: seq<byte>, m1: seq<byte>, m2: seq<byte>, a: int, b: int, c: int, f: seq<byte>, g: seq<byte>)
    requires Placed(m1, was, b, c, g) && Placed(m2, m1, a, b, f)
    ensures 0 <= a <= b <= c <= |m2| && m2[a..c] == f + g
  {
    SameTail(m1, m2, b, c);
    assert m2[a..c] == m2[a..b] + m2[b..c];
  }

  lemma PlacedLength(m1: seq<byte>, was: seq<byte>, m2: seq<byte>, a: int, b: int, c: int, g: seq<byte>, f: seq<byte>)
    requires Placed(m1, was, b, c, g) && Placed(m2, m1, a, b, f)
    ensures |m2| == |m1| == |was| && c <= |m2|
  {
  }

  lemma SameTail(m: seq<byte>, m': seq<byte>, b: nat, c: nat)
    requires |m| == |m'| && b <= c <= |m| && m'[b..] == m[b..]
    ensures m'[b..c] == m[b..c]
  {
    assert m'[b..c] == m'[b..][..c - b];
    assert m[b..c] == m[b..][..c - b];
  }

  lemma SameTail2(m: seq<byte>, m': seq<byte>, a: nat, b: nat, c: nat)
    requires |m| == |m'| && a <= b <= c <= |m| && m'[a..] == m[a..]
    ensures m'[b..c] == m[b..c]
  {
    SameTail(m, m', a, c);
    assert m'[b..c] == m'[a..c][b - a..];
    assert m[b..c] == m[a..c][b - a..];
  }

  /** The word at address p leads to the string s. */
  ghost predicate Leads(m: seq<byte>, lo: int, p: int, s: seq<byte>) {
    && lo <= p && p - lo + 4 <= |m|
    && var v := Le32(m, p - lo); lo <= v <= lo + |m| && StringAt(m, lo, v) == s
  }

  /** A vector at address p: pointers to the strings ss, in order, and a NULL. */
  ghost predicate IsVector(m: seq<byte>, lo: int, p: int, ss: seq<seq<byte>>) {
    && (forall i :: 0 <= i < |ss| ==> Leads(m, lo, p + 4 * i, ss[i]))
    && lo <= p && p - lo + 4 * |ss| + 4 <= |m| && Le32(m, p - lo + 4 * |ss|) == 0
  }

  /** __libc_start_main, on a page that setup_user_stack laid out: argc is the number of arguments, and
      argv and envp are NULL-terminated vectors of the strings the process was started with. */
  method LibcStartMain(m: seq<byte>, lo: int, sp: int, ghost top: int, ghost args: seq<seq<byte>>, ghost env: seq<seq<byte>>,
                       ghost lr: LoadResult, ghost pl: Plan) returns (argc: int, argv: int, envp: int)
    requires Holds(m, lo, top, args, env, lr, pl) && VecThere(m, lo, pl.vec, pl.words) && sp == pl.vec
    requires forall i :: 0 <= i < |args| ==> CString(args[i])
    requires forall i :: 0 <= i < |env| ==> CString(env[i])
    ensures argc == |args| && IsVector(m, lo, argv, args) && IsVector(m, lo, envp, env)
  {
    hide Holds, VecThere, Le32, CStr, AuxVector, Leads;
    Lengths(m, lo, top, args, env, lr, pl);
    VecBounds(m, lo, pl.vec, pl.words);
    FirstWord(m, lo, top, args, env, lr, pl);
    argc := Le32(m, sp - lo);
    argv := sp + 4;
    envp := argv + 4 * (argc + 1);
    forall i | 0 <= i < |args|
      ensures Leads(m, lo, argv + 4 * i, args[i])
    {
      ArgLeads(m, lo, top, args, env, lr, pl, i);
    }
    forall j | 0 <= j < |env|
      ensures Leads(m, lo, envp + 4 * j, env[j])
    {
      EnvLeads(m, lo, top, args, env, lr, pl, j);
    }
    AuxRoundTrip(m, lo, top, args, env, lr, pl, 0);
  }

  lemma Lengths(m: seq<byte>, lo: int, top: int, args: seq<seq<byte>>, env: seq<seq<byte>>, lr: LoadResult, pl: Plan)
    requires Holds(m, lo, top, args, env, lr, pl)
    ensures |pl.words| >= |args| + |env| + 9 && |AuxVector(lr, pl.random)| > 0
  {
    hide Flat, Ptrs, VecThere;
  }

  lemma FirstWord(m: seq<byte>, lo: int, top: int, args: seq<seq<byte>>, env: seq<seq<byte>>, lr: LoadResult, pl: Plan)
    requires Holds(m, lo, top, args, env, lr, pl) && VecThere(m, lo, pl.vec, pl.words)
    ensures lo <= pl.vec && pl.vec - lo + 4 <= |m| && Le32(m, pl.vec - lo) == |args|
  {
    hide Flat, VecThere, Le32, AuxVector, Vector;
    VectorAt(Ptrs(args, top), Ptrs(env, top - |Flat(args)|), lr, pl.random);
    VecBounds(m, lo, pl.vec, pl.words);
    VecWord(m, lo, pl.vec, pl.words, 0);
  }

  lemma ArgLeads(m: seq<byte>, lo: int, top: int, args: seq<seq<byte>>, env: seq<seq<byte>>, lr: LoadResult, pl: Plan, i: nat)
    requires Holds(m, lo, top, args, env, lr, pl) && VecThere(m, lo, pl.vec, pl.words) && i < |args| && CString(args[i])
    ensures Leads(m, lo, pl.vec + 4 + 4 * i, args[i])
  {
    hide Holds, VecThere, Le32, CStr;
    ArgvRoundTrip(m, lo, top, args, env, lr, pl, i);
    VecBounds(m, lo, pl.vec, pl.words);
  }

  lemma EnvLeads(m: seq<byte>, lo: int, top: int, args: seq<seq<byte>>, env: seq<seq<byte>>, lr: LoadResult, pl: Plan, j: nat)
    requires Holds(m, lo, top, args, env, lr, pl) && VecThere(m, lo, pl.vec, pl.words) && j < |env| && CString(env[j])
    ensures Leads(m, lo, pl.vec + 4 + 4 * (|args| + 1) + 4 * j, env[j])
  {
    hide Holds, VecThere, Le32, CStr;
    EnvpRoundTrip(m, lo, top, args, env, lr, pl, j);
    VecBounds(m, lo, pl.vec, pl.words);
  }

  /** From execve to main: whatever setup_user_stack accepts, __libc_start_main hands to main. */
  method ExecThenStart(page: array<byte>, lo: int, top: int, args: seq<seq<byte>>, env: seq<seq<byte>>, lr: LoadResult)
    returns (argc: int, argv: int, envp: int)
    requires page.Length == PAGE && 0 < lo && lo % PAGE == 0 && lo < top <= lo + PAGE < 0x1_0000_0000 && LoadOk(lr)
    requires forall i :: 0 <= i < |args| ==> CString(args[i])
    requires forall i :: 0 <= i < |env| ==> CString(env[i])
    modifies page
    ensures argc >= 0 <==> Accepted(args, env, lr, lo, top)
    ensures argc >= 0 ==> argc == |args| && IsVector(page[..], lo, argv, args) && IsVector(page[..], lo, envp, env)
  {
    hide Holds, PlanOf, Accepted, IsVector, LoadOk;
    var sp := SetupUserStack(page, lo, top, args, env, lr, true);
    if sp == 0 {
      return -1, 0, 0;
    }
    ghost var pl := PlanOf(args, env, lr, top);
    HoldsVec(page[..], lo, top, args, env, lr, pl);
    argc, argv, envp := LibcStartMain(page[..], lo, sp, top, args, env, lr, pl);
  }

  lemma HoldsVec(m: seq<byte>, lo: int, top: int, args: seq<seq<byte>>, env: seq<seq<byte>>, lr: LoadResult, pl: Plan)
    requires Holds(m, lo, top, args, env, lr, pl)
    ensures VecThere(m, lo, pl.vec, pl.words)
  {
  }
}
