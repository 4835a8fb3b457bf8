/** The auxiliary vector: which tag carries what, and what ld.so takes from it. */
module ExecStackAux {
  import opened Fdt
  import opened ExecStack
  import opened ExecStackCode

  /** Pair k of the vector that begins at word b of the stack is (tag, value). */
  ghost predicate Pair(m: seq<byte>, lo: int, sp: int, b: nat, k: nat, tag: int, value: int) {
    && lo <= sp && sp - lo + 4 * (b + 2 * k) + 8 <= |m|
    && StackWord(m, lo, sp, b + 2 * k) == tag && StackWord(m, lo, sp, b + 2 * k + 1) == value
  }

  lemma PairAt(m: seq<byte>, lo: int, top: int, argv: seq<seq<byte>>, envp: seq<seq<byte>>, lr: LoadResult, pl: Plan, k: nat)
    requires Holds(m, lo, top, argv, envp, lr, pl) && VecThere(m, lo, pl.vec, pl.words) && 2 * k + 1 < |AuxVector(lr, pl.random)|
    ensures var w := AuxVector(lr, pl.random); Pair(m, lo, pl.vec, |argv| + |envp| + 3, k, w[2 * k], w[2 * k + 1])
  {
    hide Holds, VecThere, AuxVector, Le32;
    AuxRoundTrip(m, lo, top, argv, envp, lr, pl, 2 * k);
    AuxRoundTrip(m, lo, top, argv, envp, lr, pl, 2 * k + 1);
    VecBounds(m, lo, pl.vec, pl.words);
  }

  /** The tags every program gets, from pair k on: AT_PAGESZ, AT_RANDOM and AT_NULL. */
  ghost predicate CommonPairs(m: seq<byte>, lo: int, sp: int, b: nat, k: nat, random: int) {
    && Pair(m, lo, sp, b, k, 6, 4096) && Pair(m, lo, sp, b, k + 1, 25, random) && Pair(m, lo, sp, b, k + 2, 0, 0)
    && RandomAt(m, random - lo)
  }

  /** The sixteen bytes behind AT_RANDOM, a fixed pattern. */
  ghost predicate RandomAt(m: seq<byte>, a: int) {
    && 0 <= a && a + 16 <= |m|
    && m[a..a + 16] == [0xA5, 0xA6, 0xA7, 0xA8, 0xA9, 0xAA, 0xAB, 0xAC, 0xAD, 0xAE, 0xAF, 0xB0, 0xB1, 0xB2, 0xB3, 0xB4]
  }

  /** AT_PHDR, AT_PHENT, AT_PHNUM, AT_ENTRY and AT_BASE, for a dynamically linked one. */
  ghost predicate ProgramPairs(m: seq<byte>, lo: int, sp: int, b: nat, lr: LoadResult) {
    && Pair(m, lo, sp, b, 0, 3, lr.phdr) && Pair(m, lo, sp, b, 1, 4, lr.phent) && Pair(m, lo, sp, b, 2, 5, lr.phnum)
    && Pair(m, lo, sp, b, 3, 9, lr.entry) && Pair(m, lo, sp, b, 4, 7, lr.base)
  }

  /** AT_UID, AT_EUID, AT_GID, AT_EGID and AT_SECURE are all 0. */
  ghost predicate OwnerPairs(m: seq<byte>, lo: int, sp: int, b: nat) {
    && Pair(m, lo, sp, b, 5, 11, 0) && Pair(m, lo, sp, b, 6, 12, 0) && Pair(m, lo, sp, b, 7, 13, 0)
    && Pair(m, lo, sp, b, 8, 14, 0) && Pair(m, lo, sp, b, 9, 23, 0)
  }

  /** Behind the environment: which word stands behind which tag. */
  lemma AuxTags(m: seq<byte>, lo: int, top: int, argv: seq<seq<byte>>, envp: seq<seq<byte>>, lr: LoadResult, pl: Plan)
    requires Holds(m, lo, top, argv, envp, lr, pl) && VecThere(m, lo, pl.vec, pl.words)
    ensures var b := |argv| + |envp| + 3;
      && CommonPairs(m, lo, pl.vec, b, if lr.dynamic then 10 else 0, pl.random)
      && (lr.dynamic ==> ProgramPairs(m, lo, pl.vec, b, lr) && OwnerPairs(m, lo, pl.vec, b))
  {
    hide Holds, VecThere, Le32, Pair;
    CommonThere(m, lo, top, argv, envp, lr, pl);
    if lr.dynamic {
      ProgramThere(m, lo, top, argv, envp, lr, pl);
      OwnerThere(m, lo, top, argv, envp, lr, pl);
    }
  }

  lemma CommonThere(m: seq<byte>, lo: int, top: int, argv: seq<seq<byte>>, envp: seq<seq<byte>>, lr: LoadResult, pl: Plan)
    requires Holds(m, lo, top, argv, envp, lr, pl) && VecThere(m, lo, pl.vec, pl.words)
    ensures CommonPairs(m, lo, pl.vec, |argv| + |envp| + 3, if lr.dynamic then 10 else 0, pl.random)
  {
    hide Holds, VecThere, Le32, Pair;
    var k := if lr.dynamic then 10 else 0;
    PairAt(m, lo, top, argv, envp, lr, pl, k);
    PairAt(m, lo, top, argv, envp, lr, pl, k + 1);
    PairAt(m, lo, top, argv, envp, lr, pl, k + 2);
    RandomThere(m, lo, top, argv, envp, lr, pl);
    RandomFits(m, lo, top, argv, envp, lr, pl);
    RandomIs();
  }

  lemma RandomIs()
    ensures Random() == [0xA5, 0xA6, 0xA7, 0xA8, 0xA9, 0xAA, 0xAB, 0xAC, 0xAD, 0xAE, 0xAF, 0xB0, 0xB1, 0xB2, 0xB3, 0xB4]
  {
  }

  lemma ProgramThere(m: seq<byte>, lo: int, top: int, argv: seq<seq<byte>>, envp: seq<seq<byte>>, lr: LoadResult, pl: Plan)
    requires Holds(m, lo, top, argv, envp, lr, pl) && VecThere(m, lo, pl.vec, pl.words) && lr.dynamic
    ensures ProgramPairs(m, lo, pl.vec, |argv| + |envp| + 3, lr)
  {
    hide Holds, VecThere, Le32, Pair;
    PairAt(m, lo, top, argv, envp, lr, pl, 0);
    PairAt(m, lo, top, argv, envp, lr, pl, 1);
    PairAt(m, lo, top, argv, envp, lr, pl, 2);
    PairAt(m, lo, top, argv, envp, lr, pl, 3);
    PairAt(m, lo, top, argv, envp, lr, pl, 4);
  }

  lemma OwnerThere(m: seq<byte>, lo: int, top: int, argv: seq<seq<byte>>, envp: seq<seq<byte>>, lr: LoadResult, pl: Plan)
    requires Holds(m, lo, top, argv, envp, lr, pl) && VecThere(m, lo, pl.vec, pl.words) && lr.dynamic
    ensures OwnerPairs(m, lo, pl.vec, |argv| + |envp| + 3)
  {
    hide Holds, VecThere, Le32, Pair;
    PairAt(m, lo, top, argv, envp, lr, pl, 5);
    PairAt(m, lo, top, argv, envp, lr, pl, 6);
    PairAt(m, lo, top, argv, envp, lr, pl, 7);
    PairAt(m, lo, top, argv, envp, lr, pl, 8);
    PairAt(m, lo, top, argv, envp, lr, pl, 9);
  }

  lemma RandomFits(m: seq<byte>, lo: int, top: int, argv: seq<seq<byte>>, envp: seq<seq<byte>>, lr: LoadResult, pl: Plan)
    requires Holds(m, lo, top, argv, envp, lr, pl)
    ensures pl.random - lo + 16 <= |m|
  {
    hide Flat, VecThere, Vector, Ptrs, Random;
  }

  // ---- what fits ------------------------------------------------------------------------------------------

  /** The bytes the strings take, each with its NUL. */
  function TotalBytes(ss: seq<seq<byte>>): nat {
    if ss == [] then 0 else |ss[0]| + 1 + TotalBytes(ss[1..])
  }

  lemma {:induction false} FlatTotal(ss: seq<seq<byte>>)
    ensures |Flat(ss)| == TotalBytes(ss)
  {
    if ss != [] {
      FlatTotal(ss[1..]);
    }
  }

  /** Exactly what setup_user_stack takes: at most 63 arguments and 63 variables, and room between the page
      and the top for the strings, the random bytes and a word for each of argc, the pointers, the two NULLs
      and the 3 or 13 pairs. */
  lemma AcceptedIs(args: seq<seq<byte>>, env: seq<seq<byte>>, lr: LoadResult, lo: int, top: int)
    requires lo % PAGE == 0
    ensures Accepted(args, env, lr, lo, top) <==>
      && |args| <= 63 && |env| <= 63
      && lo + TotalBytes(args) + TotalBytes(env) + 16 + 4 * (3 + |args| + |env| + (if lr.dynamic then 26 else 6)) <= top
  {
    hide Flat, PlanOf, TotalBytes;
    FlatTotal(args);
    FlatTotal(env);
    var v := top - |Flat(args)| - |Flat(env)| - 16 - 4 * (3 + |args| + |env| + if lr.dynamic then 26 else 6);
    PlanVec(args, env, lr, top, v);
    RoundDown(v, lo);
  }

  lemma PlanVec(args: seq<seq<byte>>, env: seq<seq<byte>>, lr: LoadResult, top: int, v: int)
    requires v == top - |Flat(args)| - |Flat(env)| - 16 - 4 * (3 + |args| + |env| + if lr.dynamic then 26 else 6)
    ensures PlanOf(args, env, lr, top).vec == v - v % 16
  {
    hide Flat, Vector, Ptrs;
  }

  lemma RoundDown(v: int, lo: int)
    requires lo % PAGE == 0
    ensures v - v % 16 >= lo <==> v >= lo
  {
    assert lo % 16 == 0;
  }

  // ---- ld.so -----------------------------------------------------------------------------------------------

  /** What _dl_main knows of the program it is to link. */
  datatype Program = Program(phdr: int, phnum: int, entry: int, base: int)

  /** What the first n pairs of a dynamically linked program's vector tell it. */
  function Told(lr: LoadResult, n: nat): Program {
    if !lr.dynamic then Program(0, 0, 0, 0)
    else Program(if n > 0 then lr.phdr else 0, if n > 2 then lr.phnum else 0, if n > 3 then lr.entry else 0, if n > 4 then lr.base else 0)
  }

  /** The first steps of _dl_main: past argv and the environment to the auxiliary vector, and through it.
      It finds the program headers, their number, the entry point and the base that execve was given, and
      for a static program none of them, which it then refuses. */
  method DlMain(m: seq<byte>, lo: int, sp: int, ghost top: int, ghost args: seq<seq<byte>>, ghost env: seq<seq<byte>>,
                ghost lr: LoadResult, ghost pl: Plan) returns (r: Program, ok: bool)
    requires Holds(m, lo, top, args, env, lr, pl) && VecThere(m, lo, pl.vec, pl.words) && sp == pl.vec
    requires forall i :: 0 <= i < |env| ==> CString(env[i])
    ensures r == if lr.dynamic then Program(lr.phdr, lr.phnum, lr.entry, lr.base) else Program(0, 0, 0, 0)
    ensures ok <==> lr.dynamic && lr.phdr != 0 && lr.entry != 0
  {
    hide Holds, VecThere, Le32, Told, AuxVector;
    var p := AuxStart(m, lo, sp, top, args, env, lr, pl);
    r := ReadAux(m, lo, sp, p, top, args, env, lr, pl);
    ok := r.phdr != 0 && r.entry != 0;
  }

  /** Past argc, argv and the environment, to the word where the auxiliary vector begins. */
  method AuxStart(m: seq<byte>, lo: int, sp: int, ghost top: int, ghost args: seq<seq<byte>>, ghost env: seq<seq<byte>>,
                  ghost lr: LoadResult, ghost pl: Plan) returns (p: nat)
    requires Holds(m, lo, top, args, env, lr, pl) && VecThere(m, lo, pl.vec, pl.words) && sp == pl.vec
    requires forall i :: 0 <= i < |env| ==> CString(env[i])
    ensures p == |args| + |env| + 3
  {
    hide Holds, VecThere, Le32, AuxVector;
    FirstWord(m, lo, top, args, env, lr, pl);
    var argc := Le32(m, sp - lo);
    p := argc + 2;
    EnvNotNull(m, lo, top, args, env, lr, pl, p);
    while StackWord(m, lo, sp, p) != 0
      invariant |args| + 2 <= p <= |args| + |env| + 2 && lo <= sp && sp - lo + 4 * p + 4 <= |m|
      invariant StackWord(m, lo, sp, p) == 0 <==> p == |args| + |env| + 2
      decreases |args| + |env| + 2 - p
    {
      p := p + 1;
      EnvNotNull(m, lo, top, args, env, lr, pl, p);
    }
    p := p + 1;
  }

  /** The loop over the pairs. */
  method ReadAux(m: seq<byte>, lo: int, sp: int, p: nat, ghost top: int, ghost args: seq<seq<byte>>, ghost env: seq<seq<byte>>,
                 ghost lr: LoadResult, ghost pl: Plan) returns (r: Program)
    requires Holds(m, lo, top, args, env, lr, pl) && VecThere(m, lo, pl.vec, pl.words) && sp == pl.vec && p == |args| + |env| + 3
    ensures r == if lr.dynamic then Program(lr.phdr, lr.phnum, lr.entry, lr.base) else Program(0, 0, 0, 0)
  {
    hide Holds, VecThere, Le32, StackWord, AuxVector, Told;
    r := Program(0, 0, 0, 0);
    ghost var w := AuxVector(lr, pl.random);
    var a := 0;
    PairOf(m, lo, top, args, env, lr, pl, a);
    AuxStep(lr, pl.random, a);
    while StackWord(m, lo, sp, p + 2 * a) != 0
      invariant 0 <= a <= AuxEnd(lr) && r == Told(lr, a) && lo <= sp && sp - lo + 4 * (p + 2 * a) + 8 <= |m|
      invariant StackWord(m, lo, sp, p + 2 * a) == w[2 * a] && StackWord(m, lo, sp, p + 2 * a + 1) == w[2 * a + 1]
      decreases AuxEnd(lr) - a
    {
      AuxStep(lr, pl.random, a);
      var tag, value := StackWord(m, lo, sp, p + 2 * a), StackWord(m, lo, sp, p + 2 * a + 1);
      r := Learn(r, tag, value);
      a := a + 1;
      PairOf(m, lo, top, args, env, lr, pl, a);
    }
    AuxStep(lr, pl.random, a);
  }

  /** The switch on the tag. */
  function Learn(r: Program, tag: int, value: int): Program {
    match tag
    case 3 => r.(phdr := value)
    case 5 => r.(phnum := value)
    case 9 => r.(entry := value)
    case 7 => r.(base := value)
    case _ => r
  }

  /** The pair with AT_NULL. */
  function AuxEnd(lr: LoadResult): nat { if lr.dynamic then 12 else 2 }

  lemma AuxStep(lr: LoadResult, random: int, a: nat)
    requires a <= AuxEnd(lr)
    ensures var w := AuxVector(lr, random);
      |w| == 2 * AuxEnd(lr) + 2 && (w[2 * a] == 0 <==> a == AuxEnd(lr)) && Told(lr, a + 1) == Learn(Told(lr, a), w[2 * a], w[2 * a + 1])
    ensures Told(lr, 0) == Program(0, 0, 0, 0)
    ensures Told(lr, AuxEnd(lr)) == if lr.dynamic then Program(lr.phdr, lr.phnum, lr.entry, lr.base) else Program(0, 0, 0, 0)
  {
  }

  lemma PairOf(m: seq<byte>, lo: int, top: int, args: seq<seq<byte>>, env: seq<seq<byte>>, lr: LoadResult, pl: Plan, a: nat)
    requires Holds(m, lo, top, args, env, lr, pl) && VecThere(m, lo, pl.vec, pl.words) && a <= AuxEnd(lr)
    ensures var p := |args| + |env| + 3; var w := AuxVector(lr, pl.random);
      && pl.vec - lo + 4 * (p + 2 * a) + 8 <= |m| && 0 < lo <= pl.vec
      && StackWord(m, lo, pl.vec, p + 2 * a) == w[2 * a] && StackWord(m, lo, pl.vec, p + 2 * a + 1) == w[2 * a + 1]
  {
    hide Holds, VecThere, Le32;
    PairAt(m, lo, top, args, env, lr, pl, a);
    VecBounds(m, lo, pl.vec, pl.words);
  }

  /** The pointers into the environment are not NULL; what ends them is. */
  lemma EnvNotNull(m: seq<byte>, lo: int, top: int, args: seq<seq<byte>>, env: seq<seq<byte>>, lr: LoadResult, pl: Plan, p: nat)
    requires Holds(m, lo, top, args, env, lr, pl) && VecThere(m, lo, pl.vec, pl.words) && |args| + 2 <= p <= |args| + |env| + 2
    requires forall i :: 0 <= i < |env| ==> CString(env[i])
    ensures lo <= pl.vec && pl.vec - lo + 4 * p + 4 <= |m| && (StackWord(m, lo, pl.vec, p) == 0 <==> p == |args| + |env| + 2)
  {
    hide Holds, VecThere, Le32, CStr, AuxVector;
    Lengths(m, lo, top, args, env, lr, pl);
    VecBounds(m, lo, pl.vec, pl.words);
    if p < |args| + |env| + 2 {
      EnvpRoundTrip(m, lo, top, args, env, lr, pl, p - |args| - 2);
    } else {
      AuxRoundTrip(m, lo, top, args, env, lr, pl, 0);
    }
  }

  /** From execve to ld.so: whatever setup_user_stack accepts, the dynamic linker learns the program from. */
  method ExecThenLink(page: array<byte>, lo: int, top: int, args: seq<seq<byte>>, env: seq<seq<byte>>, lr: LoadResult)
    returns (done: bool, r: Program)
    requires page.Length == PAGE && 0 < lo && lo % PAGE == 0 && lo < top <= lo + PAGE < 0x1_0000_0000 && LoadOk(lr)
    requires forall i :: 0 <= i < |env| ==> CString(env[i])
    modifies page
    ensures done <==> Accepted(args, env, lr, lo, top) && lr.dynamic && lr.phdr != 0 && lr.entry != 0
    ensures done ==> r == Program(lr.phdr, lr.phnum, lr.entry, lr.base)
  {
    hide Holds, PlanOf, Accepted, LoadOk;
    var sp := SetupUserStack(page, lo, top, args, env, lr, true);
    if sp == 0 {
      return false, Program(0, 0, 0, 0);
    }
    ghost var pl := PlanOf(args, env, lr, top);
    HoldsVec(page[..], lo, top, args, env, lr, pl);
    r, done := DlMain(page[..], lo, sp, top, args, env, lr, pl);
  }
}
