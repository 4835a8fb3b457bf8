/** Round-robin scheduling does not pass a runnable process over for ever. */
module KernelFairness {
  import opened KernelState
  import opened FileCounts
  import opened KernelInvariant
  import opened KernelExit
  import opened KernelRuns
  import opened KernelHistory

  /** How many slots after cur slot x comes, cyclically. */
  function Dist(cur: nat, x: nat): (d: nat)
    requires cur < NPROC && x < NPROC
    ensures d < NPROC && (d == 0 <==> x == cur)
  {
    if x >= cur then x - cur else x + NPROC - cur
  }

  /** pick_next never goes past a runnable process. */
  lemma {:induction false} PickNearest(procs: seq<Proc>, cur: nat, k: nat, x: nat)
    requires |procs| == NPROC && cur < NPROC && x < NPROC && x != cur && procs[x].state.Runnable?
    requires 1 <= k <= Dist(cur, x)
    ensures PickFrom(procs, cur, k).Some?
    ensures k <= Dist(cur, PickFrom(procs, cur, k).value) <= Dist(cur, x)
    decreases NPROC - k
  {
    var i := (cur + k) % NPROC;
    assert Dist(cur, i) == k;
    if !procs[i].state.Runnable? {
      PickNearest(procs, cur, k + 1, x);
    }
  }

  lemma DistDrops(cur: nat, n: nat, x: nat)
    requires cur < NPROC && n < NPROC && x < NPROC && 1 <= Dist(cur, n) < Dist(cur, x)
    ensures Dist(n, x) < Dist(cur, x)
  {
  }

  /** Switching to the picked process brings the turn of x closer. */
  lemma SwitchFair(procs: seq<Proc>, cur: nat, x: nat)
    requires |procs| == NPROC && cur < NPROC && x < NPROC && x != cur && procs[x].state.Runnable?
    ensures PickNext(procs, cur).Some?
    ensures var n := PickNext(procs, cur).value; n != cur && (n == x || Dist(n, x) < Dist(cur, x))
  {
    PickNearest(procs, cur, 1, x);
    var n := PickNext(procs, cur).value;
    if n != x {
      DistDrops(cur, n, x);
    }
  }

  lemma SleepFair(s: State, c: Chan, x: nat)
    requires Inv(s) && !s.halted && x < NPROC && s.procs[x].state.Runnable? && Sleep(s, c).Some?
    ensures var t := Sleep(s, c).value; t.cur == x || Dist(t.cur, x) < Dist(s.cur, x)
  {
    hide Tabled, Counted, EndsCounted, PipeWaits, Family, ChildWaits, DeadEmpty, PickNext;
    SwitchFair(s.procs, s.cur, x);
  }

  lemma PreemptFair(s: State, x: nat)
    requires Inv(s) && !s.halted && x < NPROC && s.procs[x].state.Runnable?
    ensures var t := Preempt(s).s; t.cur == x || Dist(t.cur, x) < Dist(s.cur, x)
  {
    hide Tabled, Counted, EndsCounted, PipeWaits, Family, ChildWaits, DeadEmpty, PickNext;
    SwitchFair(s.procs, s.cur, x);
  }

  lemma DieFair(s: State, code: int, sig: int, x: nat)
    requires Inv(s) && !s.halted && x < NPROC && s.procs[x].state.Runnable?
    ensures var t := Die(s, code, sig).s; t.cur == x || (t.cur < NPROC && Dist(t.cur, x) < Dist(s.cur, x))
  {
    hide Tabled, Counted, EndsCounted, PipeWaits, Family, ChildWaits, DeadEmpty, CloseFrom, Bury, EmptyTable, Dist,
      OrphanZombie, NewParent, PickNext;
    DieBurial(s, code, sig);
    var t := CloseFrom(MarkDead(s, code, sig), s.cur, 0);
    var u := Bury(t);
    AfterBurial(s, t, u, code, sig, x);
    SwitchFair(u.procs, s.cur, x);
  }

  /** A step either leaves the current process running or brings the turn of x closer. */
  lemma StepFair(s: State, op: Op, x: nat)
    requires Inv(s) && Enabled(s, op) && x < NPROC && s.procs[x].state.Runnable?
    ensures var t := Step(s, op).s;
      t.cur < NPROC && (t.cur == s.cur || t.cur == x || Dist(t.cur, x) < Dist(s.cur, x))
  {
    hide Tabled, Counted, EndsCounted, PipeWaits, Family, ChildWaits, DeadEmpty, Sched, Sleep, BumpAll, ReadNow, Preempt, Die,
      Write, Close, DupFrom, Dup2, Open, Pipe2, SetFlags, Dist;
    if OnDescriptors(op) {
      DescriptorStep(s, op);
    } else {
      match op {
        case OpExit(code) => DieFair(s, code, 0, x);
        case OpFault(sig) => DieFair(s, 0, sig, x);
        case OpPreempt => PreemptFair(s, x);
        case OpWait =>
          if Sleep(s, OnProc(s.cur)).Some? {
            SleepFair(s, OnProc(s.cur), x);
            StaysInRange(s, OnProc(s.cur));
          }
        case OpRead(fd, n) =>
          ReadNowStep(s, fd, n);
          var c := ReadBlockChan(s, fd, n);
          if c.Some? && Sleep(s, OnInode(c.value)).Some? {
            SleepFair(s, OnInode(c.value), x);
            StaysInRange(s, OnInode(c.value));
          }
        case _ =>
      }
    }
    if op.OpPreempt? {
      StepHistory(s, op);
    }
  }

  lemma StaysInRange(s: State, c: Chan)
    requires Shaped(s) && Sleep(s, c).Some?
    ensures Sleep(s, c).value.cur < NPROC
  {
  }

  /** The context switches between states k and m of a run. */
  ghost function Switches(r: Run, k: nat, m: nat): nat
    requires k <= m < |r.states|
  {
    if k == m then 0
    else Switches(r, k, m - 1) + (if r.states[m - 1].cur != r.states[m].cur then 1 else 0)
  }

  /** Each switch that does not select x takes at least one slot off its distance. */
  lemma {:induction false} EverySwitchCounts(r: Run, k: nat, m: nat, x: nat)
    requires IsRun(r) && k <= m < |r.states| && x < NPROC
    requires forall j :: k <= j <= m ==> |r.states[j].procs| == NPROC && r.states[j].procs[x].state.Runnable?
    ensures r.states[k].cur < NPROC && r.states[m].cur < NPROC
    ensures Switches(r, k, m) + Dist(r.states[m].cur, x) <= Dist(r.states[k].cur, x)
    decreases m
  {
    hide Tabled, Counted, EndsCounted, PipeWaits, Family, ChildWaits, DeadEmpty, Sched, Step, Enabled, Boot, Dist;
    RunInv(r, k);
    RunInv(r, m);
    if k < m {
      EverySwitchCounts(r, k, m - 1, x);
      RunInv(r, m - 1);
      var s := r.states[m - 1];
      assert StepsTo(s, r.ops[m - 1], r.states[m]);
      StepFair(s, r.ops[m - 1], x);
      CurIsNotRunnable(r.states[m], x);
    }
  }

  lemma CurIsNotRunnable(s: State, x: nat)
    requires Inv(s) && x < NPROC && s.procs[x].state.Runnable?
    ensures s.cur != x
  {
  }

  /** A process that stays runnable has waited for at most NPROC - 2 context switches; so it is
      selected by the (NPROC - 1)-th at the latest. */
  lemma BoundedWaiting(r: Run, k: nat, m: nat, x: nat)
    requires IsRun(r) && k <= m < |r.states| && x < NPROC
    requires forall j :: k <= j <= m ==> |r.states[j].procs| == NPROC && r.states[j].procs[x].state.Runnable?
    ensures Switches(r, k, m) <= NPROC - 2
  {
    hide Tabled, Counted, EndsCounted, PipeWaits, Family, ChildWaits, DeadEmpty, Step, Enabled, Boot, IsRun, Switches;
    EverySwitchCounts(r, k, m, x);
    RunInv(r, m);
    CurIsNotRunnable(r.states[m], x);
  }

  /** At most one process runs, and it is the current one. */
  lemma OneRunner(r: Run, k: nat, i: nat)
    requires IsRun(r) && k < |r.states| && i < NPROC
    requires |r.states[k].procs| == NPROC && r.states[k].procs[i].state.Running?
    ensures i == r.states[k].cur
  {
    hide Tabled, Counted, EndsCounted, PipeWaits, Family, ChildWaits, DeadEmpty;
    RunInv(r, k);
  }
}
