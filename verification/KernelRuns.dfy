/** Whole runs of the kernel: any sequence of system calls, faults and timer ticks. */
module KernelRuns {
  import opened Options
  import opened KernelState
  import opened FileCounts
  import opened KernelInvariant
  import opened KernelSteps
  import opened KernelExit

  datatype Op =
    | OpFork(vmOk: bool)
    | OpExit(code: int)
    | OpFault(sig: int)
    | OpWait
    | OpPreempt
    | OpRead(fd: int, n: nat)
    | OpWrite(fd: int, bytes: seq<int>)
    | OpClose(fd: int)
    | OpDup(fd: int, min: int)
    | OpDup2(oldfd: int, newfd: int)
    | OpOpen(ino: nat, flags: nat, id: Option<nat>)
    | OpPipe2(inodeOk: bool, r: Option<nat>, w: Option<nat>)
    | OpSetFlags(fd: int, flags: nat)

  /** Which steps can happen: the machine has not halted, the allocator returns unused addresses, and
      F_SETFL keeps the access mode (SetFlagsExact says what happens otherwise). */
  predicate Enabled(s: State, op: Op)
    requires Shaped(s)
  {
    && !s.halted
    && match op
       case OpOpen(ino, _, id) => ino < |s.inodes| && (id.Some? ==> id.value !in s.files)
       case OpPipe2(_, r, w) =>
         && (r.Some? ==> r.value !in s.files)
         && (w.Some? ==> w.value !in s.files && r != w)
       case OpSetFlags(fd, flags) => KeepsAccess(s, fd, flags)
       case _ => true
  }

  function Step(s: State, op: Op): Result
    requires Shaped(s) && Enabled(s, op)
  {
    match op
    case OpFork(vmOk) => Fork(s, vmOk)
    case OpExit(code) => Die(s, code, 0)
    case OpFault(sig) => Die(s, 0, sig)
    case OpWait => Wait(s)
    case OpPreempt => Preempt(s)
    case OpRead(fd, n) => Read(s, fd, n)
    case OpWrite(fd, bytes) => Write(s, fd, bytes)
    case OpClose(fd) => Close(s, fd)
    case OpDup(fd, min) => DupFrom(s, fd, min)
    case OpDup2(oldfd, newfd) => Dup2(s, oldfd, newfd)
    case OpOpen(ino, flags, id) => Open(s, ino, flags, id)
    case OpPipe2(inodeOk, r, w) => Pipe2(s, inodeOk, r, w)
    case OpSetFlags(fd, flags) => SetFlags(s, fd, flags)
  }

  /** The steps that only touch the caller's descriptors. */
  predicate OnDescriptors(op: Op) {
    op.OpWrite? || op.OpClose? || op.OpDup? || op.OpDup2? || op.OpOpen? || op.OpPipe2? || op.OpSetFlags?
  }

  lemma DescriptorStep(s: State, op: Op)
    requires Inv(s) && Enabled(s, op) && OnDescriptors(op)
    ensures FdStep(s, Step(s, op).s)
  {
    hide Tabled, Counted, EndsCounted, PipeWaits, Sched, Family, ChildWaits, DeadEmpty, FdStep,
      Write, Close, DupFrom, Dup2, Open, Pipe2, SetFlags;
    match op {
      case OpWrite(fd, bytes) => WriteStep(s, fd, bytes);
      case OpClose(fd) => CloseStep(s, fd);
      case OpDup(fd, min) => DupStep(s, fd, min);
      case OpDup2(oldfd, newfd) => Dup2Step(s, oldfd, newfd);
      case OpOpen(ino, flags, id) => OpenStep(s, ino, flags, id);
      case OpPipe2(inodeOk, r, w) => Pipe2Step(s, inodeOk, r, w);
      case OpSetFlags(fd, flags) => SetFlagsStep(s, fd, flags);
      case _ =>
    }
  }

  /** Every step keeps the invariant. */
  lemma StepKeepsInv(s: State, op: Op)
    requires Inv(s) && Enabled(s, op)
    ensures Inv(Step(s, op).s)
  {
    hide Tabled, Counted, EndsCounted, PipeWaits, Sched, Family, ChildWaits, DeadEmpty, FdStep,
      Fork, Die, Wait, Preempt, Read, Write, Close, DupFrom, Dup2, Open, Pipe2, SetFlags;
    if OnDescriptors(op) {
      DescriptorStep(s, op);
      FdStepKeepsInv(s, Step(s, op).s);
    } else {
      match op {
        case OpFork(vmOk) => ForkKeepsInv(s, vmOk);
        case OpExit(code) => DieKeepsInv(s, code, 0);
        case OpFault(sig) => DieKeepsInv(s, 0, sig);
        case OpWait => WaitKeepsInv(s);
        case OpPreempt => PreemptKeepsInv(s);
        case OpRead(fd, n) => ReadKeepsInv(s, fd, n);
        case _ =>
      }
    }
  }

  // ---- runs -----------------------------------------------------------------------------

  const FREE_SLOT: Proc := Proc(0, Unused, None, 0, 0, NoChan, [None, None, None, None, None, None, None, None,
                                                                 None, None, None, None, None, None, None, None])

  /** init has been started in slot 0 as pid 1; opening its console descriptors is its first steps. */
  ghost predicate Boot(s: State) {
    && |s.procs| == NPROC && s.cur == 0 && s.nextPid == 2 && !s.halted
    && s.procs[0] == FREE_SLOT.(pid := 1, state := Running)
    && (forall i :: 1 <= i < NPROC ==> s.procs[i] == FREE_SLOT)
    && (forall k :: 0 <= k < |s.inodes| ==> s.inodes[k].NonPipe?)
    && s.files == map[]
  }

  /** The states and steps of a run, from boot on. */
  datatype Run = Run(states: seq<State>, ops: seq<Op>)

  ghost predicate IsRun(r: Run) {
    && |r.states| == |r.ops| + 1
    && Boot(r.states[0])
    && forall k :: 0 <= k < |r.ops| ==> StepsTo(r.states[k], r.ops[k], r.states[k + 1])
  }

  ghost predicate StepsTo(s: State, op: Op, t: State) {
    Shaped(s) && Enabled(s, op) && t == Step(s, op).s
  }

  lemma BootInv(s: State)
    requires Boot(s)
    ensures Inv(s)
  {
    hide Refs, End;
    forall i | 0 <= i < NPROC
      ensures EmptyTable(s.procs[i].fds) && |s.procs[i].fds| == NOFILE && s.procs[i].chan == NoChan
    {
    }
  }

  /** Every state of every run satisfies the invariant. */
  lemma {:induction false} RunInv(r: Run, k: nat)
    requires IsRun(r) && k < |r.states|
    ensures Inv(r.states[k])
  {
    hide Tabled, Counted, EndsCounted, PipeWaits, Sched, Family, ChildWaits, DeadEmpty, Step, Enabled;
    if k == 0 {
      BootInv(r.states[0]);
    } else {
      RunInv(r, k - 1);
      assert StepsTo(r.states[k - 1], r.ops[k - 1], r.states[k]);
      StepKeepsInv(r.states[k - 1], r.ops[k - 1]);
    }
  }

  // ---- no lost wakeup -------------------------------------------------------------------

  /** Process w, which is alive, holds a write end of pipe k in some descriptor. */
  ghost predicate HoldsWriteEnd(s: State, w: nat, k: nat) {
    && w < |s.procs| && Alive(s.procs[w])
    && exists fd :: 0 <= fd < |s.procs[w].fds| && IsWriteEnd(s, s.procs[w].fds[fd], k)
  }

  predicate IsWriteEnd(s: State, f: Option<nat>, k: nat) {
    f.Some? && f.value in s.files && InEnd(s.files[f.value], k, true)
  }

  lemma OpenWriterIsHeld(s: State, k: nat) returns (w: nat)
    requires Inv(s) && k < |s.inodes| && s.inodes[k].Pipe? && s.inodes[k].wrOpen > 0
    ensures HoldsWriteEnd(s, w, k)
  {
    hide PipeWaits, Sched, Family, ChildWaits, InEnd;
    assert End(s.files, k, true) != {};
    var f :| f in End(s.files, k, true);
    var fd;
    w, fd := RefsWitness(s.procs, Some(f));
    assert IsWriteEnd(s, s.procs[w].fds[fd], k);
  }

  /** In every reachable state a blocked process waits for something that is still to come: for a
      child that is alive while no child is a zombie, or for bytes in an empty pipe that some living
      process can still write to. */
  lemma NoLostWakeup(r: Run, k: nat, i: nat)
    requires IsRun(r) && k < |r.states| && i < NPROC
    requires |r.states[k].procs| == NPROC && r.states[k].procs[i].state.Blocked?
    ensures var s := r.states[k];
      || (s.procs[i].chan == OnProc(i) && LiveChild(s.procs, i) && NoZombieChild(s.procs, i))
      || (s.procs[i].chan.OnInode? && s.procs[i].chan.ino < |s.inodes|
          && s.inodes[s.procs[i].chan.ino].Pipe? && s.inodes[s.procs[i].chan.ino].data == []
          && exists w :: HoldsWriteEnd(s, w, s.procs[i].chan.ino))
  {
    hide Tabled, Counted, EndsCounted, Sched, Family, DeadEmpty, LiveChild, NoZombieChild, HoldsWriteEnd;
    RunInv(r, k);
    var s := r.states[k];
    if s.procs[i].chan.OnInode? {
      var w := OpenWriterIsHeld(s, s.procs[i].chan.ino);
    }
  }

  // ---- process lifetime -----------------------------------------------------------------

  /** In every reachable state: init keeps slot 0; every other slot in use has a parent in use, which
      is dead only if it is init; pids in use are distinct; zombies and free slots hold no file. */
  lemma Lifetime(r: Run, k: nat, i: nat)
    requires IsRun(r) && k < |r.states| && i < NPROC
    ensures var s := r.states[k];
      && |s.procs| == NPROC && s.procs[0].pid == 1 && !s.procs[0].state.Unused?
      && (i != 0 && !s.procs[i].state.Unused? ==>
            && s.procs[i].parent.Some? && s.procs[i].parent.value < NPROC
            && !s.procs[s.procs[i].parent.value].state.Unused?
            && (s.procs[s.procs[i].parent.value].state.Zombie? ==> s.procs[i].parent == Some(0)))
      && (!Alive(s.procs[i]) ==> EmptyTable(s.procs[i].fds))
      && (forall j :: 0 <= j < NPROC && j != i && !s.procs[i].state.Unused? && !s.procs[j].state.Unused? ==>
            s.procs[i].pid != s.procs[j].pid)
  {
    hide Tabled, Counted, EndsCounted, PipeWaits, Sched, ChildWaits, EmptyTable;
    RunInv(r, k);
  }

  /** A slot that fork reuses is nobody's parent. */
  lemma ReusedSlotHasNoChildren(r: Run, k: nat, c: nat, i: nat)
    requires IsRun(r) && k < |r.states| && c < NPROC && i < NPROC
    requires |r.states[k].procs| == NPROC
    requires r.states[k].procs[c].state.Unused? && !r.states[k].procs[i].state.Unused?
    ensures r.states[k].procs[i].parent != Some(c)
  {
    hide Tabled, Counted, EndsCounted, PipeWaits, Sched, ChildWaits, DeadEmpty, PidsOk;
    RunInv(r, k);
    if i != 0 {
      assert ParentOk(r.states[k].procs, i);
    }
  }

  // ---- reference counts -------------------------------------------------------------------

  /** In every reachable state a description's count is the number of descriptors that hold it, no
      descriptor dangles, and a pipe's end counts are the numbers of live descriptions of each mode. */
  lemma CountsAreExact(r: Run, k: nat)
    requires IsRun(r) && k < |r.states|
    ensures var s := r.states[k];
      && (forall f :: f in s.files ==> s.files[f].refcnt == Refs(s.procs, Some(f)) >= 1)
      && (forall i, fd :: 0 <= i < |s.procs| && 0 <= fd < |s.procs[i].fds| && s.procs[i].fds[fd].Some? ==>
            s.procs[i].fds[fd].value in s.files)
      && (forall n :: 0 <= n < |s.inodes| && s.inodes[n].Pipe? ==>
            s.inodes[n].rdOpen == |End(s.files, n, false)| && s.inodes[n].wrOpen == |End(s.files, n, true)|)
  {
    hide PipeWaits, Sched, Family, ChildWaits, DeadEmpty, Refs, End;
    RunInv(r, k);
  }
}
