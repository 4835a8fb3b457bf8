/** What the kernel tells the outside over whole runs: every child is reported by wait at most
    once, with the status it died with. */
module KernelHistory {
  import opened Options
  import opened KernelState
  import opened FileCounts
  import opened KernelInvariant
  import opened KernelSteps
  import opened KernelExit
  import opened KernelRuns

  // ---- births, deaths and harvests ----------------------------------------------------

  /** What one step can do to one process: nothing that changes who it is, except to give birth in a
      free slot, to turn the current process into a zombie (with event `ev`), or to free a zombie. */
  predicate Lived(s: State, i: nat, q: Proc, ev: Event)
    requires Shaped(s) && i < NPROC
  {
    var p := s.procs[i];
    && (Alive(q) ==> (Alive(p) && q.pid == p.pid) || (p.state.Unused? && q.pid == s.nextPid))
    && (q.state.Zombie? ==>
          || (p.state.Zombie? && q.pid == p.pid && q.exitCode == p.exitCode && q.killedSig == p.killedSig)
          || (i == s.cur && q.pid == p.pid && ev == Died(q.pid, q.exitCode, q.killedSig)))
  }

  ghost predicate History(s: State, t: State, ev: Event)
    requires Shaped(s) && Shaped(t)
  {
    && s.nextPid <= t.nextPid <= s.nextPid + 1
    && (forall i :: 0 <= i < NPROC ==> Lived(s, i, t.procs[i], ev))
    && (forall i :: 0 <= i < NPROC && s.procs[i].state.Unused? && !t.procs[i].state.Unused? ==> t.nextPid == s.nextPid + 1)
    && (ev.Died? ==> ev.pid == s.procs[s.cur].pid && t.procs[s.cur].state.Zombie?)
    && (ev.Reaped? ==> exists c :: Harvest(s, t, ev, c))
  }

  /** The event reports zombie c, and c's slot is free afterwards. */
  predicate Harvest(s: State, t: State, ev: Event, c: nat)
    requires Shaped(s) && Shaped(t)
  {
    && c < NPROC && ev.Reaped? && s.procs[c].state.Zombie? && t.procs[c].state.Unused?
    && s.procs[c].pid == ev.pid && ev.status == WaitStatus(s.procs[c].exitCode, s.procs[c].killedSig)
    && s.procs[c].parent == Some(s.cur) && t.nextPid == s.nextPid
  }

  lemma FamilyHistory(s: State, t: State, ev: Event)
    requires Shaped(s) && Shaped(t) && SameFamily(s, t) && !ev.Died? && !ev.Reaped?
    ensures History(s, t, ev)
  {
    forall i | 0 <= i < NPROC
      ensures Lived(s, i, t.procs[i], ev)
    {
      assert SameProc(s.procs[i], t.procs[i]);
    }
  }

  lemma SwitchHistory(s: State, t: State, aside: Proc, n: nat)
    requires Inv(s) && !s.halted && Shaped(t) && Switched(s, t, aside, n) && Alive(aside)
    ensures History(s, t, Quiet)
  {
    hide FilesOk, Family, ChildWaits, DeadEmpty;
  }

  lemma SleepHistory(s: State, c: Chan)
    requires Inv(s) && !s.halted && Sleep(s, c).Some?
    ensures Shaped(Sleep(s, c).value) && History(s, Sleep(s, c).value, Quiet)
  {
    hide Tabled, Counted, EndsCounted, PipeWaits, Family, ChildWaits, DeadEmpty, PickNext;
    Picked(s);
    SwitchHistory(s, Sleep(s, c).value, s.procs[s.cur].(chan := c, state := Blocked), PickNext(s.procs, s.cur).value);
  }

  lemma PreemptHistory(s: State)
    requires Inv(s) && !s.halted
    ensures Shaped(Preempt(s).s) && History(s, Preempt(s).s, Quiet) && Preempt(s).event == Quiet
  {
    hide Tabled, Counted, EndsCounted, PipeWaits, Family, ChildWaits, DeadEmpty, PickNext;
    var r := PickNext(s.procs, s.cur);
    if r.Some? && r.value != s.cur {
      Picked(s);
      SwitchHistory(s, Preempt(s).s, s.procs[s.cur].(state := Runnable), r.value);
    } else {
      FamilyHistory(s, s, Quiet);
    }
  }

  lemma WaitHistory(s: State)
    requires Inv(s) && !s.halted
    ensures Shaped(Wait(s).s) && History(s, Wait(s).s, Wait(s).event)
  {
    hide Tabled, Counted, EndsCounted, PipeWaits, Family, ChildWaits, DeadEmpty, Sched, Sleep;
    match ZombieChild(s.procs, s.cur, 0) {
      case Some(c) =>
        assert Harvest(s, Wait(s).s, Wait(s).event, c);
      case None =>
        if HasChild(s.procs, s.cur) && Sleep(s, OnProc(s.cur)).Some? {
          SleepHistory(s, OnProc(s.cur));
        } else {
          FamilyHistory(s, s, Quiet);
        }
    }
  }

  lemma ForkHistory(s: State, vmOk: bool)
    requires Inv(s) && !s.halted
    ensures Shaped(Fork(s, vmOk).s) && History(s, Fork(s, vmOk).s, Fork(s, vmOk).event)
  {
    hide Tabled, Counted, EndsCounted, PipeWaits, Family, ChildWaits, DeadEmpty, Sched, BumpAll;
    var r := FirstUnused(s.procs, 0);
    if r.Some? && vmOk {
      ForkShape(s, r.value);
      assert Fork(s, vmOk).s == AfterFork(s, r.value);
    }
  }

  lemma RescheduleAt(u: State, i: nat)
    requires Shaped(u) && i < NPROC && u.procs[u.cur].state.Zombie?
    ensures Shaped(Reschedule(u)) && Reschedule(u).nextPid == u.nextPid
    ensures var q, p := Reschedule(u).procs[i], u.procs[i];
      && q == p.(state := q.state)
      && (q.state == p.state || (p.state.Runnable? && q.state.Running? && i == Reschedule(u).cur))
  {
    PickFromIs(u.procs, u.cur, 1);
  }

  lemma DieAt(s: State, code: int, sig: int, i: nat)
    requires Inv(s) && !s.halted && i < NPROC
    ensures var t := Die(s, code, sig).s;
      && Shaped(t) && t.nextPid == s.nextPid && Lived(s, i, t.procs[i], Died(s.procs[s.cur].pid, code, sig))
      && (i == s.cur ==> t.procs[i].state.Zombie?)
      && (s.procs[i].state.Runnable? ==> t.procs[i].state.Runnable? || t.cur == i)
      && (s.procs[i].state.Unused? ==> t.procs[i].state.Unused?)
  {
    hide Tabled, Counted, EndsCounted, PipeWaits, Family, ChildWaits, DeadEmpty, CloseFrom, Bury, Reschedule, EmptyTable,
      OrphanZombie, NewParent;
    DieBurial(s, code, sig);
    var t := CloseFrom(MarkDead(s, code, sig), s.cur, 0);
    var u := Bury(t);
    AfterBurial(s, t, u, code, sig, i);
    AfterBurial(s, t, u, code, sig, s.cur);
    assert SameProc(MarkDead(s, code, sig).procs[i], t.procs[i]);
    assert Buried(t.procs, s.cur, i, t.procs[i], u.procs[i]);
    RescheduleAt(u, i);
  }

  lemma DieHistory(s: State, code: int, sig: int)
    requires Inv(s) && !s.halted
    ensures Shaped(Die(s, code, sig).s) && History(s, Die(s, code, sig).s, Die(s, code, sig).event)
  {
    hide Tabled, Counted, EndsCounted, PipeWaits, Family, ChildWaits, DeadEmpty, Sched, Lived, CloseFrom, Bury, Reschedule;
    var t := Die(s, code, sig).s;
    DieAt(s, code, sig, s.cur);
    forall i | 0 <= i < NPROC
      ensures Lived(s, i, t.procs[i], Died(s.procs[s.cur].pid, code, sig))
      ensures s.procs[i].state.Unused? ==> t.procs[i].state.Unused?
    {
      DieAt(s, code, sig, i);
    }
  }

  lemma ReadHistory(s: State, fd: int, n: nat)
    requires Inv(s) && !s.halted
    ensures Shaped(Read(s, fd, n).s) && History(s, Read(s, fd, n).s, Read(s, fd, n).event)
  {
    hide Tabled, Counted, EndsCounted, PipeWaits, Family, ChildWaits, DeadEmpty, Sched, Sleep, History;
    ReadNowStep(s, fd, n);
    FamilyHistory(s, ReadNow(s, fd, n).s, ReadNow(s, fd, n).event);
    var c := ReadBlockChan(s, fd, n);
    if c.Some? && Sleep(s, OnInode(c.value)).Some? {
      SleepHistory(s, OnInode(c.value));
    }
  }

  lemma DescriptorEvent(s: State, op: Op)
    requires Shaped(s) && Enabled(s, op) && OnDescriptors(op)
    ensures !Step(s, op).event.Died? && !Step(s, op).event.Reaped?
  {
    hide CloseFile, CloseFd, Bump, OpenFile, PipeEnds, SetFd, Wake;
  }

  lemma StepHistory(s: State, op: Op)
    requires Inv(s) && Enabled(s, op)
    ensures Shaped(Step(s, op).s) && History(s, Step(s, op).s, Step(s, op).event)
  {
    hide Tabled, Counted, EndsCounted, PipeWaits, Family, ChildWaits, DeadEmpty, Sched, History,
      Fork, Die, Wait, Preempt, Read, Write, Close, DupFrom, Dup2, Open, Pipe2, SetFlags;
    if OnDescriptors(op) {
      DescriptorStep(s, op);
      DescriptorEvent(s, op);
      FamilyHistory(s, Step(s, op).s, Step(s, op).event);
    } else {
      match op {
        case OpFork(vmOk) => ForkHistory(s, vmOk);
        case OpExit(code) => DieHistory(s, code, 0);
        case OpFault(sig) => DieHistory(s, 0, sig);
        case OpWait => WaitHistory(s);
        case OpPreempt => PreemptHistory(s);
        case OpRead(fd, n) => ReadHistory(s, fd, n);
        case _ =>
      }
    }
  }

  /** The events of the first k steps. */
  ghost function Log(r: Run, k: nat): (log: seq<Event>)
    requires IsRun(r) && k <= |r.ops|
    ensures |log| == k
  {
    if k == 0 then []
    else
      assert StepsTo(r.states[k - 1], r.ops[k - 1], r.states[k]);
      Log(r, k - 1) + [Step(r.states[k - 1], r.ops[k - 1]).event]
  }

  /** What the log says about the state: a reaped pid is never in use again, a pid that died is not
      alive, and every zombie's death is on record. */
  ghost predicate Recorded(s: State, log: seq<Event>)
    requires Shaped(s)
  {
    && (forall j, i :: 0 <= j < |log| && log[j].Reaped? && 0 <= i < NPROC && !s.procs[i].state.Unused? ==>
          s.procs[i].pid != log[j].pid)
    && (forall j, i :: 0 <= j < |log| && log[j].Died? && 0 <= i < NPROC && Alive(s.procs[i]) ==> s.procs[i].pid != log[j].pid)
    && (forall j :: 0 <= j < |log| && (log[j].Reaped? || log[j].Died?) ==> log[j].pid < s.nextPid)
    && (forall i :: 0 <= i < NPROC && s.procs[i].state.Zombie? ==>
          Died(s.procs[i].pid, s.procs[i].exitCode, s.procs[i].killedSig) in log)
  }

  lemma RecordedStep(s: State, t: State, ev: Event, log: seq<Event>)
    requires Inv(s) && !s.halted && Inv(t) && History(s, t, ev) && Recorded(s, log)
    ensures Recorded(t, log + [ev])
  {
    hide Tabled, Counted, EndsCounted, PipeWaits, ChildWaits, DeadEmpty, ParentOk, PidsOk;
    var log' := log + [ev];
    assert forall j :: 0 <= j < |log| ==> log'[j] == log[j];
    assert log'[|log|] == ev;
    RecordedOld(s, t, ev, log);
    RecordedNew(s, t, ev);
    RecordedZombies(s, t, ev, log);
  }

  lemma RecordedOld(s: State, t: State, ev: Event, log: seq<Event>)
    requires Shaped(s) && Shaped(t) && History(s, t, ev) && Recorded(s, log) && s.procs[s.cur].state.Running?
    ensures forall j, i :: 0 <= j < |log| && log[j].Reaped? && 0 <= i < NPROC && !t.procs[i].state.Unused? ==>
      t.procs[i].pid != log[j].pid
    ensures forall j, i :: 0 <= j < |log| && log[j].Died? && 0 <= i < NPROC && Alive(t.procs[i]) ==> t.procs[i].pid != log[j].pid
    ensures forall j :: 0 <= j < |log| && (log[j].Reaped? || log[j].Died?) ==> log[j].pid < t.nextPid
  {
    hide Harvest;
    forall i | 0 <= i < NPROC
      ensures Lived(s, i, t.procs[i], ev)
    {
    }
  }

  lemma RecordedNew(s: State, t: State, ev: Event)
    requires Inv(s) && !s.halted && Shaped(t) && History(s, t, ev)
    ensures ev.Reaped? ==> ev.pid < s.nextPid && forall i :: 0 <= i < NPROC && !t.procs[i].state.Unused? ==> t.procs[i].pid != ev.pid
    ensures ev.Died? ==> ev.pid < s.nextPid && forall i :: 0 <= i < NPROC && Alive(t.procs[i]) ==> t.procs[i].pid != ev.pid
  {
    hide Tabled, Counted, EndsCounted, PipeWaits, ChildWaits, DeadEmpty, ParentOk;
    forall i | 0 <= i < NPROC
      ensures Lived(s, i, t.procs[i], ev)
    {
    }
  }

  lemma RecordedZombies(s: State, t: State, ev: Event, log: seq<Event>)
    requires Shaped(s) && Shaped(t) && History(s, t, ev) && Recorded(s, log)
    ensures forall i :: 0 <= i < NPROC && t.procs[i].state.Zombie? ==>
      Died(t.procs[i].pid, t.procs[i].exitCode, t.procs[i].killedSig) in log + [ev]
  {
    hide Harvest;
    forall i | 0 <= i < NPROC && t.procs[i].state.Zombie?
      ensures Died(t.procs[i].pid, t.procs[i].exitCode, t.procs[i].killedSig) in log + [ev]
    {
      assert Lived(s, i, t.procs[i], ev);
    }
  }

  lemma {:induction false} RunRecorded(r: Run, k: nat)
    requires IsRun(r) && k < |r.states|
    ensures Shaped(r.states[k]) && Recorded(r.states[k], Log(r, k))
  {
    RunInv(r, k);
    hide Tabled, Counted, EndsCounted, PipeWaits, Sched, Family, ChildWaits, DeadEmpty, Step, History, Enabled, Boot;
    if k == 0 {
      BootRecorded(r.states[0]);
    } else {
      RunRecorded(r, k - 1);
      RunInv(r, k - 1);
      var s, op := r.states[k - 1], r.ops[k - 1];
      assert StepsTo(s, op, r.states[k]);
      StepHistory(s, op);
      EnabledRuns(s, op);
      RecordedStep(s, r.states[k], Step(s, op).event, Log(r, k - 1));
    }
  }

  lemma EnabledRuns(s: State, op: Op)
    requires Shaped(s) && Enabled(s, op)
    ensures !s.halted
  {
  }

  lemma BootRecorded(s: State)
    requires Boot(s) && Shaped(s)
    ensures Recorded(s, [])
  {
  }

  /** Over any run, wait reports a pid at most once. */
  lemma ReapedAtMostOnce(r: Run, i: nat, j: nat)
    requires IsRun(r) && i < j < |r.ops|
    requires Log(r, j + 1)[i].Reaped? && Log(r, j + 1)[j].Reaped?
    ensures Log(r, j + 1)[i].pid != Log(r, j + 1)[j].pid
  {
    hide Tabled, Counted, EndsCounted, PipeWaits, Sched, Family, ChildWaits, DeadEmpty, Step, Enabled, Boot;
    RunRecorded(r, j);
    RunInv(r, j);
    var s := r.states[j];
    assert StepsTo(s, r.ops[j], r.states[j + 1]);
    StepHistory(s, r.ops[j]);
    assert Log(r, j + 1) == Log(r, j) + [Step(s, r.ops[j]).event];
    var c: nat :| Harvest(s, r.states[j + 1], Step(s, r.ops[j]).event, c);
  }

  /** And the status it reports is the one the process died with, once, earlier in the run. */
  lemma ReapedAsItDied(r: Run, j: nat) returns (i: nat)
    requires IsRun(r) && j < |r.ops| && Log(r, j + 1)[j].Reaped?
    ensures i < j && Log(r, j + 1)[i].Died? && Log(r, j + 1)[i].pid == Log(r, j + 1)[j].pid
    ensures Log(r, j + 1)[j].status == WaitStatus(Log(r, j + 1)[i].code, Log(r, j + 1)[i].sig)
  {
    hide Tabled, Counted, EndsCounted, PipeWaits, Sched, Family, ChildWaits, DeadEmpty, Step, Enabled, Boot;
    RunRecorded(r, j);
    RunInv(r, j);
    var s := r.states[j];
    assert StepsTo(s, r.ops[j], r.states[j + 1]);
    StepHistory(s, r.ops[j]);
    assert Log(r, j + 1) == Log(r, j) + [Step(s, r.ops[j]).event];
    var c: nat :| Harvest(s, r.states[j + 1], Step(s, r.ops[j]).event, c);
    var d := Died(s.procs[c].pid, s.procs[c].exitCode, s.procs[c].killedSig);
    assert d in Log(r, j);
    i :| 0 <= i < |Log(r, j)| && Log(r, j)[i] == d;
  }

  lemma DiesAtMostOnce(r: Run, i: nat, j: nat)
    requires IsRun(r) && i < j < |r.ops|
    requires Log(r, j + 1)[i].Died? && Log(r, j + 1)[j].Died?
    ensures Log(r, j + 1)[i].pid != Log(r, j + 1)[j].pid
  {
    hide Tabled, Counted, EndsCounted, PipeWaits, Family, ChildWaits, DeadEmpty, Step, Boot;
    RunRecorded(r, j);
    RunInv(r, j);
    var s := r.states[j];
    assert StepsTo(s, r.ops[j], r.states[j + 1]);
    StepHistory(s, r.ops[j]);
    assert Log(r, j + 1) == Log(r, j) + [Step(s, r.ops[j]).event];
  }
}
