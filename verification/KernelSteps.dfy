/** fork, wait, sleep, preemption, exit and fault keep the invariant of the kernel state. */
module KernelSteps {
  import opened Options
  import opened KernelState
  import opened FileCounts
  import opened KernelInvariant

  /** Tables and files unchanged, and nobody newly asleep on a pipe. */
  lemma FilesFrame(s: State, t: State)
    requires FilesOk(s, multiset{}) && Shaped(t) && t.files == s.files && t.inodes == s.inodes
    requires forall i :: 0 <= i < NPROC ==> t.procs[i].fds == s.procs[i].fds
    requires forall i :: 0 <= i < NPROC && t.procs[i].state.Blocked? && t.procs[i].chan.OnInode? ==>
      s.procs[i].state.Blocked? && s.procs[i].chan == t.procs[i].chan
    ensures FilesOk(t, multiset{})
  {
    hide Refs, End;
    forall f | f in s.files
      ensures Refs(t.procs, Some(f)) == Refs(s.procs, Some(f))
    {
      RefsFrame(s.procs, t.procs, Some(f));
    }
  }

  // ---- scheduling -------------------------------------------------------------------

  /** The chosen process is runnable, or it is the current one. */
  lemma {:induction false} PickFromIs(procs: seq<Proc>, cur: nat, k: nat)
    requires |procs| == NPROC && cur < NPROC && 1 <= k
    ensures match PickFrom(procs, cur, k) {
      case None => true
      case Some(n) => procs[n].state.Runnable? || (n == cur && procs[n].state.Running?)
    }
    decreases NPROC + 1 - k
  {
    if k <= NPROC && !procs[(cur + k) % NPROC].state.Runnable? {
      PickFromIs(procs, cur, k + 1);
    }
  }

  /** The current process steps aside into state `aside` and runnable process n takes over. */
  ghost predicate Switched(s: State, t: State, aside: Proc, n: nat)
    requires Shaped(s)
  {
    && n < NPROC && n != s.cur && s.procs[n].state.Runnable?
    && aside == s.procs[s.cur].(state := aside.state, chan := aside.chan)
    && t == s.(cur := n, procs := t.procs) && |t.procs| == NPROC
    && t.procs[s.cur] == aside && t.procs[n] == s.procs[n].(state := Running)
    && forall i :: 0 <= i < NPROC && i != n && i != s.cur ==> t.procs[i] == s.procs[i]
  }

  lemma SwitchKeeps(s: State, t: State, aside: Proc, n: nat)
    requires Inv(s) && !s.halted && Switched(s, t, aside, n)
    requires Alive(aside) && !aside.state.Running? && !aside.state.Embryo?
    ensures Shaped(t) && Sched(t) && Family(t) && DeadEmpty(t)
  {
    hide Tabled, Counted, EndsCounted, PipeWaits, ChildWaits, EmptyTable, PidsOk, ParentOk;
    SwitchKeepsFamily(s, t, aside, n);
  }

  lemma SwitchKeepsFamily(s: State, t: State, aside: Proc, n: nat)
    requires Inv(s) && Switched(s, t, aside, n) && Alive(aside) && Alive(s.procs[s.cur])
    ensures Shaped(t) && Family(t)
  {
    hide Tabled, Counted, EndsCounted, PipeWaits, ChildWaits, DeadEmpty, PidsOk, Sched;
    PidsFrame(s, t);
    forall i | 1 <= i < NPROC && !t.procs[i].state.Unused?
      ensures ParentOk(t.procs, i)
    {
      assert ParentOk(s.procs, i);
    }
  }

  lemma SwitchKeepsWaits(s: State, t: State, aside: Proc, n: nat)
    requires Inv(s) && !s.halted && Switched(s, t, aside, n)
    requires Alive(aside)
    requires aside.state.Blocked? && !aside.chan.OnInode? ==>
      aside.chan == OnProc(s.cur) && LiveChild(s.procs, s.cur) && NoZombieChild(s.procs, s.cur)
    ensures ChildWaits(t)
  {
    hide Tabled, Counted, EndsCounted, PipeWaits, Family, DeadEmpty;
    forall i | 0 <= i < NPROC && t.procs[i].state.Blocked? && !t.procs[i].chan.OnInode?
      ensures t.procs[i].chan == OnProc(i) && LiveChild(t.procs, i) && NoZombieChild(t.procs, i)
    {
      var c :| 0 <= c < |s.procs| && Alive(s.procs[c]) && s.procs[c].parent == Some(i);
      assert Alive(t.procs[c]) && t.procs[c].parent == Some(i);
    }
  }

  lemma SleepKeepsInv(s: State, c: Chan)
    requires Inv(s) && !s.halted && Sleep(s, c).Some?
    requires match c {
      case NoChan => false
      case OnProc(i) => i == s.cur && LiveChild(s.procs, i) && NoZombieChild(s.procs, i)
      case OnInode(k) => k < |s.inodes| && s.inodes[k].Pipe? && s.inodes[k].data == [] && s.inodes[k].wrOpen > 0
    }
    ensures Inv(Sleep(s, c).value)
  {
    hide Tabled, Counted, EndsCounted, Family, DeadEmpty, ChildWaits, LiveChild, NoZombieChild, PickNext;
    var t := Sleep(s, c).value;
    var n := PickNext(s.procs, s.cur).value;
    Picked(s);
    var aside := s.procs[s.cur].(chan := c, state := Blocked);
    assert Switched(s, t, aside, n);
    SwitchKeeps(s, t, aside, n);
    SwitchKeepsWaits(s, t, aside, n);
    SleepFiles(s, t, c, n);
  }

  lemma Picked(s: State)
    requires Shaped(s) && Sched(s) && PickNext(s.procs, s.cur).Some?
    ensures var n := PickNext(s.procs, s.cur).value; n < NPROC && (n != s.cur ==> s.procs[n].state.Runnable?)
  {
    PickFromIs(s.procs, s.cur, 1);
  }

  lemma SleepFiles(s: State, t: State, c: Chan, n: nat)
    requires FilesOk(s, multiset{}) && Shaped(t)
    requires Switched(s, t, s.procs[s.cur].(chan := c, state := Blocked), n)
    requires c.OnInode? ==> c.ino < |s.inodes| && s.inodes[c.ino].Pipe? && s.inodes[c.ino].data == [] && s.inodes[c.ino].wrOpen > 0
    ensures FilesOk(t, multiset{})
  {
    hide Refs, End;
    forall f | f in s.files
      ensures Refs(t.procs, Some(f)) == Refs(s.procs, Some(f))
    {
      RefsFrame(s.procs, t.procs, Some(f));
    }
  }

  lemma PreemptKeepsInv(s: State)
    requires Inv(s) && !s.halted
    ensures Inv(Preempt(s).s)
  {
    hide Tabled, Counted, EndsCounted, PipeWaits, Family, DeadEmpty, ChildWaits, LiveChild, NoZombieChild, PickNext;
    var r := PickNext(s.procs, s.cur);
    if r.Some? && r.value != s.cur {
      var n, t := r.value, Preempt(s).s;
      Picked(s);
      var aside := s.procs[s.cur].(state := Runnable);
      assert Switched(s, t, aside, n);
      SwitchKeeps(s, t, aside, n);
      SwitchKeepsWaits(s, t, aside, n);
      FilesFrame(s, t);
    }
  }

  // ---- wait ---------------------------------------------------------------------------

  function Reap(s: State, c: nat): State
    requires c < |s.procs|
  {
    s.(procs := s.procs[c := s.procs[c].(state := Unused)])
  }

  /** A zombie that somebody can reap is nobody's parent. */
  lemma ZombieIsNobodysParent(s: State, c: nat)
    requires Inv(s) && c < NPROC && s.procs[c].state.Zombie? && s.procs[c].parent.Some?
    ensures c != 0
    ensures forall i :: 0 <= i < NPROC && !s.procs[i].state.Unused? ==> s.procs[i].parent != Some(c)
  {
    hide Tabled, Counted, EndsCounted, PipeWaits, ChildWaits, DeadEmpty, Sched, PidsOk;
    forall i | 1 <= i < NPROC && !s.procs[i].state.Unused?
      ensures s.procs[i].parent != Some(c)
    {
      assert ParentOk(s.procs, i);
    }
  }

  lemma ReapFamily(s: State, c: nat)
    requires Inv(s) && c < NPROC && s.procs[c].state.Zombie? && s.procs[c].parent.Some?
    ensures Shaped(Reap(s, c)) && Family(Reap(s, c))
  {
    hide Tabled, Counted, EndsCounted, PipeWaits, ChildWaits, DeadEmpty, Sched, PidsOk;
    var t := Reap(s, c);
    PidsFrame(s, t);
    ZombieIsNobodysParent(s, c);
    forall i | 1 <= i < NPROC && !t.procs[i].state.Unused?
      ensures ParentOk(t.procs, i)
    {
      assert ParentOk(s.procs, i);
    }
  }

  lemma ReapSched(s: State, c: nat)
    requires Inv(s) && !s.halted && c < NPROC && s.procs[c].state.Zombie?
    ensures Shaped(Reap(s, c)) && Sched(Reap(s, c)) && DeadEmpty(Reap(s, c))
  {
    hide Tabled, Counted, EndsCounted, PipeWaits, ChildWaits, EmptyTable, Family;
  }

  lemma ReapWaits(s: State, c: nat)
    requires Inv(s) && c < NPROC && s.procs[c].state.Zombie?
    ensures ChildWaits(Reap(s, c))
  {
    hide Tabled, Counted, EndsCounted, PipeWaits, Family, DeadEmpty;
    var t := Reap(s, c);
    forall i | 0 <= i < NPROC && t.procs[i].state.Blocked? && !t.procs[i].chan.OnInode?
      ensures t.procs[i].chan == OnProc(i) && LiveChild(t.procs, i) && NoZombieChild(t.procs, i)
    {
      var d :| 0 <= d < |s.procs| && Alive(s.procs[d]) && s.procs[d].parent == Some(i);
      assert Alive(t.procs[d]) && t.procs[d].parent == Some(i);
    }
  }

  lemma WaitKeepsInv(s: State)
    requires Inv(s) && !s.halted
    ensures Inv(Wait(s).s)
  {
    hide Tabled, Counted, EndsCounted, PipeWaits, Family, DeadEmpty, ChildWaits, Sleep;
    match ZombieChild(s.procs, s.cur, 0) {
      case Some(c) =>
        ReapFamily(s, c);
        ReapSched(s, c);
        ReapWaits(s, c);
        FilesFrame(s, Wait(s).s);
      case None =>
        if HasChild(s.procs, s.cur) && Sleep(s, OnProc(s.cur)).Some? {
          assert NoZombieChild(s.procs, s.cur);
          assert LiveChild(s.procs, s.cur) by {
            var i :| 0 <= i < |s.procs| && s.procs[i].parent == Some(s.cur) && !s.procs[i].state.Unused?;
            assert Alive(s.procs[i]);
          }
          SleepKeepsInv(s, OnProc(s.cur));
        }
    }
  }

  lemma ReadKeepsInv(s: State, fd: int, n: nat)
    requires Inv(s) && !s.halted
    ensures Inv(Read(s, fd, n).s)
  {
    hide Tabled, Counted, EndsCounted, PipeWaits, Family, DeadEmpty, ChildWaits, Sleep, ReadNow;
    ReadNowStep(s, fd, n);
    FdStepKeepsInv(s, ReadNow(s, fd, n).s);
    var c := ReadBlockChan(s, fd, n);
    if c.Some? && Sleep(s, OnInode(c.value)).Some? {
      SleepKeepsInv(s, OnInode(c.value));
    }
  }

  // ---- fork ---------------------------------------------------------------------------

  lemma {:induction false} BumpAllAt(files: map<nat, File>, fds: seq<Option<nat>>, k: nat, f: nat)
    requires k <= |fds| && f in files
    ensures BumpAll(files, fds, k)[f] == files[f].(refcnt := files[f].refcnt + multiset(fds[..k])[Some(f)])
  {
    if k > 0 {
      BumpAllAt(files, fds, k - 1, f);
      assert fds[..k] == fds[..k - 1] + [fds[k - 1]];
    } else {
      assert fds[..k] == [];
    }
  }

  lemma EmptyOccurs(fds: seq<Option<nat>>, f: nat)
    requires EmptyTable(fds)
    ensures multiset(fds)[Some(f)] == 0
  {
    assert Some(f) !in fds;
  }

  /** The state after a fork that could copy the address space. */
  function AfterFork(s: State, c: nat): State
    requires Shaped(s) && c < NPROC
  {
    s.(nextPid := s.nextPid + 1, files := BumpAll(s.files, s.procs[s.cur].fds, NOFILE),
       procs := s.procs[c := Proc(s.nextPid, Runnable, Some(s.cur), 0, 0, NoChan, s.procs[s.cur].fds)])
  }

  lemma ForkCounts(s: State, c: nat, f: nat)
    requires Inv(s) && c < NPROC && s.procs[c].state.Unused? && f in s.files
    ensures AfterFork(s, c).files[f] == s.files[f].(refcnt := Refs(AfterFork(s, c).procs, Some(f)))
  {
    hide Tabled, EndsCounted, PipeWaits, Family, Sched, ChildWaits, Refs, BumpAll;
    var fds := s.procs[s.cur].fds;
    BumpAllAt(s.files, fds, NOFILE, f);
    assert fds[..NOFILE] == fds;
    EmptyOccurs(s.procs[c].fds, f);
    RefsUpdate(s.procs, c, AfterFork(s, c).procs[c], Some(f));
  }

  lemma ForkFiles(s: State, c: nat)
    requires Inv(s) && c < NPROC && s.procs[c].state.Unused?
    ensures FilesOk(AfterFork(s, c), multiset{})
  {
    hide Family, Sched, ChildWaits, Refs, BumpAll, End, DeadEmpty;
    var t := AfterFork(s, c);
    forall f | f in s.files
      ensures t.files[f] == s.files[f].(refcnt := Refs(t.procs, Some(f))) && t.files[f].refcnt >= 1
    {
      ForkCounts(s, c, f);
      BumpAllAt(s.files, s.procs[s.cur].fds, NOFILE, f);
    }
    forall k, w | 0 <= k < |s.inodes|
      ensures End(t.files, k, w) == End(s.files, k, w)
    {
      EndFrame(s.files, t.files, k, w);
    }
  }

  lemma EndFrame(files: map<nat, File>, after: map<nat, File>, k: nat, w: bool)
    requires files.Keys == after.Keys
    requires forall f :: f in files ==> after[f].inode == files[f].inode && after[f].flags == files[f].flags
    ensures End(after, k, w) == End(files, k, w)
  {
  }

  lemma ForkShape(s: State, c: nat)
    requires Shaped(s) && c < NPROC
    ensures Shaped(AfterFork(s, c))
  {
    hide BumpAll;
    forall f | f in s.files
      ensures AfterFork(s, c).files[f].inode == s.files[f].inode
    {
      BumpAllAt(s.files, s.procs[s.cur].fds, NOFILE, f);
    }
  }

  lemma ForkPids(s: State, c: nat)
    requires Shaped(s) && c < NPROC && PidsOk(s) && s.procs[c].state.Unused? && s.nextPid >= 1
    requires Shaped(AfterFork(s, c))
    ensures PidsOk(AfterFork(s, c))
  {
    hide BumpAll;
  }

  lemma ForkFamily(s: State, c: nat)
    requires Inv(s) && !s.halted && c < NPROC && s.procs[c].state.Unused?
    ensures Shaped(AfterFork(s, c)) && Sched(AfterFork(s, c)) && Family(AfterFork(s, c)) && DeadEmpty(AfterFork(s, c))
  {
    hide Tabled, Counted, EndsCounted, PipeWaits, ChildWaits, EmptyTable, BumpAll, PidsOk;
    var t := AfterFork(s, c);
    ForkShape(s, c);
    InitPid(s);
    ForkPids(s, c);
    forall i | 1 <= i < NPROC && !t.procs[i].state.Unused?
      ensures ParentOk(t.procs, i)
    {
      if i != c {
        assert ParentOk(s.procs, i);
      }
    }
  }

  lemma InitPid(s: State)
    requires Shaped(s) && PidsOk(s) && !s.procs[0].state.Unused?
    ensures s.nextPid >= 1
  {
  }

  lemma ForkWaits(s: State, c: nat)
    requires Inv(s) && !s.halted && c < NPROC && s.procs[c].state.Unused? && Shaped(AfterFork(s, c))
    ensures ChildWaits(AfterFork(s, c))
  {
    hide Tabled, Counted, EndsCounted, PipeWaits, Family, DeadEmpty;
    var t := AfterFork(s, c);
    forall i | 0 <= i < NPROC && t.procs[i].state.Blocked? && !t.procs[i].chan.OnInode?
      ensures t.procs[i].chan == OnProc(i) && LiveChild(t.procs, i) && NoZombieChild(t.procs, i)
    {
      var d :| 0 <= d < |s.procs| && Alive(s.procs[d]) && s.procs[d].parent == Some(i);
      assert Alive(t.procs[d]) && t.procs[d].parent == Some(i);
    }
  }

  /** A slot that is claimed and given back is still free. */
  lemma FailedForkKeepsInv(s: State, c: nat, p: Proc)
    requires Inv(s) && c < NPROC && s.procs[c].state.Unused? && p.state.Unused? && p.fds == s.procs[c].fds
    ensures Inv(s.(nextPid := s.nextPid + 1, procs := s.procs[c := p]))
  {
    var t := s.(nextPid := s.nextPid + 1, procs := s.procs[c := p]);
    FilesFrame(s, t);
    FailedForkFamily(s, c, p);
    FailedForkWaits(s, c, p);
  }

  lemma FailedForkFamily(s: State, c: nat, p: Proc)
    requires Inv(s) && c < NPROC && s.procs[c].state.Unused? && p.state.Unused? && p.fds == s.procs[c].fds
    ensures var t := s.(nextPid := s.nextPid + 1, procs := s.procs[c := p]); Shaped(t) && Sched(t) && Family(t) && DeadEmpty(t)
  {
    hide Tabled, Counted, EndsCounted, PipeWaits, ChildWaits, EmptyTable;
    var t := s.(nextPid := s.nextPid + 1, procs := s.procs[c := p]);
    forall i | 1 <= i < NPROC && !t.procs[i].state.Unused?
      ensures ParentOk(t.procs, i)
    {
      assert ParentOk(s.procs, i);
    }
  }

  lemma FailedForkWaits(s: State, c: nat, p: Proc)
    requires Inv(s) && c < NPROC && s.procs[c].state.Unused? && p.state.Unused?
    requires Shaped(s.(nextPid := s.nextPid + 1, procs := s.procs[c := p]))
    ensures ChildWaits(s.(nextPid := s.nextPid + 1, procs := s.procs[c := p]))
  {
    hide Tabled, Counted, EndsCounted, PipeWaits, Family, DeadEmpty;
    var t := s.(nextPid := s.nextPid + 1, procs := s.procs[c := p]);
    forall i | 0 <= i < NPROC && t.procs[i].state.Blocked? && !t.procs[i].chan.OnInode?
      ensures t.procs[i].chan == OnProc(i) && LiveChild(t.procs, i) && NoZombieChild(t.procs, i)
    {
      var d :| 0 <= d < |s.procs| && Alive(s.procs[d]) && s.procs[d].parent == Some(i);
      assert Alive(t.procs[d]) && t.procs[d].parent == Some(i);
    }
  }

  lemma ForkKeepsInv(s: State, vmOk: bool)
    requires Inv(s) && !s.halted
    ensures Inv(Fork(s, vmOk).s)
  {
    hide Tabled, Counted, EndsCounted, PipeWaits, Family, Sched, DeadEmpty, ChildWaits, BumpAll;
    var r := FirstUnused(s.procs, 0);
    if r.Some? {
      var c := r.value;
      if vmOk {
        ForkFiles(s, c);
        ForkFamily(s, c);
        ForkWaits(s, c);
        assert Fork(s, vmOk).s == AfterFork(s, c);
      } else {
        FailedForkKeepsInv(s, c, Fork(s, vmOk).s.procs[c]);
      }
    }
  }
}
