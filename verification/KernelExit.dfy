/** Exit and fatal faults: the dying process leaves no dangling parent pointer, no open
    descriptor and nobody asleep who should know. */
module KernelExit {
  import opened Options
  import opened KernelState
  import opened FileCounts
  import opened KernelInvariant
  import opened KernelSteps

  /** The state in which the dying process is a zombie with its descriptors closed. */
  ghost predicate Closed(s: State, t: State, code: int, sig: int)
    requires Shaped(s)
  {
    && FilesOk(t, multiset{}) && SameFamily(MarkDead(s, code, sig), t)
    && EmptyTable(t.procs[s.cur].fds)
    && forall i :: 0 <= i < NPROC && i != s.cur ==> t.procs[i].fds == s.procs[i].fds
  }

  lemma CloseAllOk(s: State, code: int, sig: int)
    requires Inv(s) && !s.halted
    ensures Closed(s, CloseFrom(MarkDead(s, code, sig), s.cur, 0), code, sig)
  {
    hide Tabled, Counted, EndsCounted, PipeWaits, Family, ChildWaits, DeadEmpty, CloseFrom;
    FilesFrame(s, MarkDead(s, code, sig));
    CloseFromOk(MarkDead(s, code, sig), s.cur, 0);
  }

  // ---- what burying does to each process ---------------------------------------------

  function NewParent(p: Proc, i: nat, dead: nat): Option<nat> {
    if dead != 0 && i != dead && !p.state.Unused? && p.parent == Some(dead) then Some(0) else p.parent
  }

  /** b is process q after the burial: a new parent if it was orphaned, and awake if it was asleep in
      wait and has a zombie to collect. */
  predicate Buried(procs: seq<Proc>, dead: nat, i: nat, q: Proc, b: Proc)
    requires dead < |procs|
  {
    && b.pid == q.pid && b.fds == q.fds && b.exitCode == q.exitCode && b.killedSig == q.killedSig
    && b.parent == NewParent(q, i, dead)
    && (b.state == q.state || (q.state.Blocked? && b.state.Runnable?))
    && (b.state.Blocked? ==> b.chan == q.chan)
    && (b.state.Blocked? && q.chan.OnProc? ==>
          procs[dead].parent != Some(q.chan.slot) && !(dead != 0 && q.chan.slot == 0 && OrphanZombie(procs, dead)))
  }

  lemma BuryAt(s: State, i: nat)
    requires Shaped(s) && i < NPROC && s.procs[0].pid == 1 && !s.procs[0].state.Unused?
    ensures Buried(s.procs, s.cur, i, s.procs[i], Bury(s).procs[i])
  {
    hide OrphanZombie;
    assert FindInit(s.procs, 0) == Some(0);
    var h := HandOver(s.procs, s.cur);
    assert h[s.cur].parent == s.procs[s.cur].parent;
  }

  lemma BuryAll(s: State)
    requires Shaped(s) && s.procs[0].pid == 1 && !s.procs[0].state.Unused?
    ensures Shaped(Bury(s)) && Bury(s) == s.(procs := Bury(s).procs)
    ensures forall i :: 0 <= i < NPROC ==> Buried(s.procs, s.cur, i, s.procs[i], Bury(s).procs[i])
  {
    hide Bury, Buried;
    ShapedBury(s);
    BuryOnlyProcs(s);
    forall i | 0 <= i < NPROC
      ensures Buried(s.procs, s.cur, i, s.procs[i], Bury(s).procs[i])
    {
      BuryAt(s, i);
    }
  }

  lemma BuryOnlyProcs(s: State)
    requires Shaped(s)
    ensures Bury(s) == s.(procs := Bury(s).procs)
  {
  }

  // ---- the invariant after the burial ------------------------------------------------

  /** Everything about t and u that the next lemmas use: t closed, u buried. */
  ghost predicate Burial(s: State, t: State, u: State, code: int, sig: int)
    requires Shaped(s)
  {
    && Closed(s, t, code, sig) && Shaped(u) && u == t.(procs := u.procs)
    && forall i :: 0 <= i < NPROC ==> Buried(t.procs, s.cur, i, t.procs[i], u.procs[i])
  }

  /** One process from before the death to after the burial. */
  predicate After(s: State, i: nat, b: Proc)
    requires Shaped(s) && i < NPROC
  {
    var p := s.procs[i];
    && b.pid == p.pid && b.parent == NewParent(p, i, s.cur)
    && (i != s.cur ==> b.exitCode == p.exitCode && b.killedSig == p.killedSig)
    && (i == s.cur ==> b.state.Zombie?)
    && (i != s.cur ==> b.state == p.state || (p.state.Blocked? && b.state.Runnable?))
    && (b.state.Blocked? ==> b.chan == p.chan)
  }

  lemma AfterBurial(s: State, t: State, u: State, code: int, sig: int, i: nat)
    requires Inv(s) && !s.halted && Burial(s, t, u, code, sig) && i < NPROC
    ensures After(s, i, u.procs[i])
  {
    hide Tabled, Counted, EndsCounted, PipeWaits, Family, ChildWaits, DeadEmpty, EmptyTable, OrphanZombie;
    assert SameProc(MarkDead(s, code, sig).procs[i], t.procs[i]);
    assert Buried(t.procs, s.cur, i, t.procs[i], u.procs[i]);
  }

  lemma BurialParents(s: State, u: State, i: nat)
    requires Inv(s) && !s.halted && Shaped(u) && 1 <= i < NPROC && !u.procs[i].state.Unused?
    requires forall j :: 0 <= j < NPROC ==> After(s, j, u.procs[j])
    ensures ParentOk(u.procs, i)
  {
    hide Tabled, Counted, EndsCounted, PipeWaits, ChildWaits, DeadEmpty, PidsOk;
    assert After(s, i, u.procs[i]);
    assert ParentOk(s.procs, i);
    var p := s.procs[i].parent.value;
    assert After(s, p, u.procs[p]);
    assert After(s, 0, u.procs[0]);
  }

  lemma BurialFamily(s: State, u: State)
    requires Inv(s) && !s.halted && Shaped(u) && u.nextPid == s.nextPid
    requires forall i :: 0 <= i < NPROC ==> After(s, i, u.procs[i])
    ensures Family(u)
  {
    hide Tabled, Counted, EndsCounted, PipeWaits, ChildWaits, DeadEmpty, PidsOk, ParentOk;
    forall i | 0 <= i < NPROC
      ensures After(s, i, u.procs[i])
    {
    }
    PidsFrame(s, u);
    forall i | 1 <= i < NPROC && !u.procs[i].state.Unused?
      ensures ParentOk(u.procs, i)
    {
      BurialParents(s, u, i);
    }
    assert After(s, 0, u.procs[0]);
  }

  /** Who is still asleep in wait still has a live child, and no zombie. */
  lemma BurialWait(s: State, t: State, u: State, code: int, sig: int, i: nat)
    requires Inv(s) && !s.halted && Burial(s, t, u, code, sig)
    requires forall j :: 0 <= j < NPROC ==> After(s, j, u.procs[j])
    requires i < NPROC && u.procs[i].state.Blocked? && !u.procs[i].chan.OnInode?
    ensures u.procs[i].chan == OnProc(i) && LiveChild(u.procs, i) && NoZombieChild(u.procs, i)
  {
    hide Tabled, Counted, EndsCounted, PipeWaits, DeadEmpty, Family, EmptyTable, OrphanZombie;
    assert After(s, i, u.procs[i]);
    assert i != s.cur && s.procs[i].state.Blocked? && s.procs[i].chan == OnProc(i);
    NotMyChild(s, t, u, code, sig, i);
    var c :| 0 <= c < |s.procs| && Alive(s.procs[c]) && s.procs[c].parent == Some(i);
    assert After(s, c, u.procs[c]);
    assert Alive(u.procs[c]) && u.procs[c].parent == Some(i);
    forall z | 0 <= z < NPROC && u.procs[z].state.Zombie?
      ensures u.procs[z].parent != Some(i)
    {
      assert After(s, z, u.procs[z]);
      NoOrphanForMe(s, t, u, code, sig, i, z);
    }
  }

  /** A parent asleep in wait is woken by its child's death, so a sleeper is not the parent. */
  lemma NotMyChild(s: State, t: State, u: State, code: int, sig: int, i: nat)
    requires Inv(s) && !s.halted && Burial(s, t, u, code, sig)
    requires i < NPROC && u.procs[i].state.Blocked? && u.procs[i].chan == OnProc(i)
    ensures s.procs[s.cur].parent != Some(i)
    ensures !(s.cur != 0 && i == 0 && OrphanZombie(t.procs, s.cur))
  {
    hide Tabled, Counted, EndsCounted, PipeWaits, DeadEmpty, Family, EmptyTable, OrphanZombie, ChildWaits;
    assert Buried(t.procs, s.cur, i, t.procs[i], u.procs[i]);
    assert SameProc(MarkDead(s, code, sig).procs[s.cur], t.procs[s.cur]);
  }

  /** init asleep in wait is woken when it inherits a zombie. */
  lemma NoOrphanForMe(s: State, t: State, u: State, code: int, sig: int, i: nat, z: nat)
    requires Inv(s) && !s.halted && Burial(s, t, u, code, sig)
    requires i < NPROC && i != s.cur && NoZombieChild(s.procs, i) && s.procs[s.cur].parent != Some(i)
    requires !(s.cur != 0 && i == 0 && OrphanZombie(t.procs, s.cur))
    requires z < NPROC && u.procs[z].state.Zombie? && After(s, z, u.procs[z])
    ensures u.procs[z].parent != Some(i)
  {
    hide Tabled, Counted, EndsCounted, PipeWaits, DeadEmpty, Family, EmptyTable, ChildWaits, Sched;
    assert SameProc(MarkDead(s, code, sig).procs[z], t.procs[z]);
    assert Buried(t.procs, s.cur, z, t.procs[z], u.procs[z]);
  }

  lemma BurialFiles(s: State, t: State, u: State, code: int, sig: int)
    requires Inv(s) && !s.halted && Burial(s, t, u, code, sig)
    ensures FilesOk(u, multiset{}) && DeadEmpty(u)
  {
    hide Tabled, Counted, EndsCounted, PipeWaits, Family, ChildWaits, EmptyTable, OrphanZombie, NewParent;
    forall i | 0 <= i < NPROC
      ensures u.procs[i].fds == t.procs[i].fds
      ensures u.procs[i].state.Blocked? ==> t.procs[i].state.Blocked? && u.procs[i].chan == t.procs[i].chan
      ensures !Alive(u.procs[i]) ==> EmptyTable(u.procs[i].fds)
    {
      assert Buried(t.procs, s.cur, i, t.procs[i], u.procs[i]);
      assert SameProc(MarkDead(s, code, sig).procs[i], t.procs[i]);
    }
    FilesFrame(t, u);
  }

  // ---- and then somebody else runs -----------------------------------------------------

  /** Like Inv, for a state whose current process has just died. */
  ghost predicate Widowed(u: State) {
    && FilesOk(u, multiset{}) && Family(u) && ChildWaits(u) && DeadEmpty(u) && !u.halted
    && u.procs[u.cur].state.Zombie?
    && forall i :: 0 <= i < NPROC ==> !u.procs[i].state.Running? && !u.procs[i].state.Embryo?
  }

  lemma RescheduleKeepsInv(u: State)
    requires Widowed(u)
    ensures Inv(Reschedule(u))
  {
    var r := PickNext(u.procs, u.cur);
    PickFromIs(u.procs, u.cur, 1);
    if r.Some? {
      RunKeepsInv(u, r.value);
    } else {
      HaltKeepsInv(u);
    }
  }

  lemma HaltKeepsInv(u: State)
    requires Widowed(u)
    ensures Inv(u.(halted := true))
  {
    hide Tabled, Counted, EndsCounted, PidsOk, ParentOk, EmptyTable, LiveChild, NoZombieChild;
    FilesFrame(u, u.(halted := true));
    PidsFrame(u, u.(halted := true));
  }

  lemma RunKeepsInv(u: State, n: nat)
    requires Widowed(u) && n < NPROC && u.procs[n].state.Runnable?
    ensures Inv(SwitchTo(u, n))
  {
    hide Tabled, Counted, EndsCounted, PipeWaits, PidsOk, ParentOk, EmptyTable, LiveChild, NoZombieChild;
    var v := SwitchTo(u, n);
    FilesFrame(u, v);
    PidsFrame(u, v);
    forall i | 1 <= i < NPROC && !v.procs[i].state.Unused?
      ensures ParentOk(v.procs, i)
    {
      RunKeepsParent(u, n, i);
    }
    forall i | 0 <= i < NPROC && v.procs[i].state.Blocked? && !v.procs[i].chan.OnInode?
      ensures v.procs[i].chan == OnProc(i) && LiveChild(v.procs, i) && NoZombieChild(v.procs, i)
    {
      RunKeepsWait(u, n, i);
    }
  }

  lemma RunKeepsParent(u: State, n: nat, i: nat)
    requires Shaped(u) && n < NPROC && u.procs[n].state.Runnable? && i < NPROC && ParentOk(u.procs, i)
    ensures ParentOk(SwitchTo(u, n).procs, i)
  {
  }

  lemma RunKeepsWait(u: State, n: nat, i: nat)
    requires Shaped(u) && n < NPROC && u.procs[n].state.Runnable? && i < NPROC
    requires LiveChild(u.procs, i) && NoZombieChild(u.procs, i)
    ensures LiveChild(SwitchTo(u, n).procs, i) && NoZombieChild(SwitchTo(u, n).procs, i)
  {
    var v := SwitchTo(u, n);
    var c :| 0 <= c < |u.procs| && Alive(u.procs[c]) && u.procs[c].parent == Some(i);
    assert Alive(v.procs[c]) && v.procs[c].parent == Some(i);
  }

  lemma BurialIsWidowed(s: State, t: State, u: State, code: int, sig: int)
    requires Inv(s) && !s.halted && Burial(s, t, u, code, sig)
    ensures Widowed(u)
  {
    hide Tabled, Counted, EndsCounted, PipeWaits, Family, DeadEmpty, EmptyTable, OrphanZombie, LiveChild, NoZombieChild;
    forall i | 0 <= i < NPROC
      ensures After(s, i, u.procs[i])
    {
      AfterBurial(s, t, u, code, sig, i);
    }
    BurialFamily(s, u);
    BurialFiles(s, t, u, code, sig);
    forall i | 0 <= i < NPROC && u.procs[i].state.Blocked? && !u.procs[i].chan.OnInode?
      ensures u.procs[i].chan == OnProc(i) && LiveChild(u.procs, i) && NoZombieChild(u.procs, i)
    {
      BurialWait(s, t, u, code, sig, i);
    }
  }

  lemma DieBurial(s: State, code: int, sig: int)
    requires Inv(s) && !s.halted
    ensures var t := CloseFrom(MarkDead(s, code, sig), s.cur, 0);
      Shaped(t) && t.cur == s.cur && Burial(s, t, Bury(t), code, sig)
  {
    hide Tabled, Counted, EndsCounted, PipeWaits, ChildWaits, DeadEmpty, PidsOk, ParentOk, EmptyTable, CloseFrom, Bury, Buried, Sched;
    CloseAllOk(s, code, sig);
    var t := CloseFrom(MarkDead(s, code, sig), s.cur, 0);
    assert SameProc(MarkDead(s, code, sig).procs[0], t.procs[0]);
    BuryAll(t);
  }

  /** exit and a fatal fault keep the invariant. */
  lemma DieKeepsInv(s: State, code: int, sig: int)
    requires Inv(s) && !s.halted
    ensures Inv(Die(s, code, sig).s)
  {
    hide Tabled, Counted, EndsCounted, PipeWaits, Sched, Family, ChildWaits, DeadEmpty, CloseFrom, Bury, Burial, Widowed, Reschedule;
    DieBurial(s, code, sig);
    var t := CloseFrom(MarkDead(s, code, sig), s.cur, 0);
    BurialIsWidowed(s, t, Bury(t), code, sig);
    RescheduleKeepsInv(Bury(t));
  }
}
