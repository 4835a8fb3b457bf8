/** Pipes over whole runs, and what F_SETFL may do to their end counts. */
module KernelPipes {
  import opened Options
  import opened KernelState
  import opened FileCounts
  import opened KernelInvariant
  import opened KernelRuns
  import opened KernelHistory

  // ---- first in, first out -----------------------------------------------------------

  /** Bytes still in inode n. */
  function Held(inodes: seq<Inode>, n: nat): seq<int> {
    if n < |inodes| && inodes[n].Pipe? then inodes[n].data else []
  }

  /** Whatever happened to the counts, every inode holds the bytes it held. */
  ghost predicate SameBytes(s: State, t: State) {
    forall n: nat :: Held(t.inodes, n) == Held(s.inodes, n)
  }

  lemma AccountBytes(inodes: seq<Inode>, f: File, d: int)
    requires f.inode < |inodes|
    ensures forall n: nat :: Held(Account(inodes, f, d), n) == Held(inodes, n)
  {
  }

  lemma CloseFileBytes(s: State, id: nat)
    requires Shaped(s)
    ensures SameBytes(s, CloseFile(s, id))
  {
    if id in s.files {
      AccountBytes(s.inodes, s.files[id], -1);
    }
  }

  lemma CloseFdBytes(s: State, slot: nat, fd: nat)
    requires Shaped(s) && slot < NPROC && fd < NOFILE
    ensures SameBytes(s, CloseFd(s, slot, fd))
  {
    if s.procs[slot].fds[fd].Some? {
      CloseFileBytes(s, s.procs[slot].fds[fd].value);
    }
  }

  lemma {:induction false} CloseFromBytes(s: State, slot: nat, k: nat)
    requires Shaped(s) && slot < NPROC && k <= NOFILE
    ensures SameBytes(s, CloseFrom(s, slot, k))
    decreases NOFILE - k
  {
    hide CloseFd, Held;
    if k < NOFILE {
      CloseFdBytes(s, slot, k);
      CloseFromBytes(CloseFd(s, slot, k), slot, k + 1);
    }
  }

  lemma BumpShape(s: State, id: nat)
    requires Shaped(s)
    ensures Shaped(Bump(s, id)) && SameBytes(s, Bump(s, id))
  {
  }

  lemma OpenFileBytes(s: State, id: nat, ino: nat, flags: nat)
    requires Shaped(s) && ino < |s.inodes|
    ensures Shaped(OpenFile(s, id, ino, flags)) && SameBytes(s, OpenFile(s, id, ino, flags))
  {
    AccountBytes(s.inodes, File(ino, flags, 1), 1);
  }

  lemma DupBytes(s: State, fd: int, min: int)
    requires Shaped(s)
    ensures SameBytes(s, DupFrom(s, fd, min).s)
  {
    hide Held, CloseFile, Bump, SetFd, FirstFree;
    if FdGet(s, fd).Some? {
      var id := FdGet(s, fd).value;
      BumpShape(s, id);
      CloseFileBytes(Bump(s, id), id);
      BumpProcs(s, id);
      SetFdBytes(Bump(s, id), s.cur);
    }
  }

  lemma BumpProcs(s: State, id: nat)
    ensures Bump(s, id).procs == s.procs && Bump(s, id).cur == s.cur
  {
  }

  lemma SetFdBytes(s: State, slot: nat)
    requires Shaped(s) && slot < NPROC
    ensures forall fd: nat, v: Option<nat> :: fd < NOFILE ==> SetFd(s, slot, fd, v).inodes == s.inodes
  {
  }

  lemma Dup2Bytes(s: State, oldfd: int, newfd: int)
    requires Shaped(s)
    ensures SameBytes(s, Dup2(s, oldfd, newfd).s)
  {
    hide Held, CloseFd, Bump, SetFd;
    if FdGet(s, oldfd).Some? && oldfd != newfd && 0 <= newfd < NOFILE {
      var id := FdGet(s, oldfd).value;
      BumpShape(s, id);
      CloseFdBytes(Bump(s, id), s.cur, newfd);
      SetFdBytes(CloseFd(Bump(s, id), s.cur, newfd), s.cur);
    }
  }

  lemma OpenBytes(s: State, ino: nat, flags: nat, id: Option<nat>)
    requires Shaped(s) && ino < |s.inodes|
    ensures SameBytes(s, Open(s, ino, flags, id).s)
  {
    hide Held, CloseFile, SetFd, Account;
    if id.Some? {
      OpenFileBytes(s, id.value, ino, flags);
      CloseFileBytes(OpenFile(s, id.value, ino, flags), id.value);
      SetFdBytes(OpenFile(s, id.value, ino, flags), s.cur);
    }
  }

  lemma InstallBytes(s: State, r: nat, w: nat)
    requires Shaped(s)
    ensures SameBytes(s, Install(s, r, w).s)
  {
    hide Held, CloseFile, CloseFd, SetFd, FirstFree;
    CloseFileBytes(s, r);
    ShapedClose(s, r);
    CloseFileBytes(CloseFile(s, r), w);
    SetFdBytes(s, s.cur);
    match FirstFree(s.procs[s.cur].fds, 0) {
      case None =>
      case Some(rfd) =>
        var t := SetFd(s, s.cur, rfd, Some(r));
        ShapedSet(s, s.cur, rfd, Some(r));
        CloseFdBytes(t, s.cur, rfd);
        CloseFileBytes(CloseFd(t, s.cur, rfd), w);
        SetFdBytes(t, s.cur);
    }
  }

  lemma ShapedClose(s: State, id: nat)
    requires Shaped(s)
    ensures Shaped(CloseFile(s, id))
  {
  }

  lemma ShapedSet(s: State, slot: nat, fd: nat, v: Option<nat>)
    requires Shaped(s) && slot < NPROC && fd < NOFILE
    ensures Shaped(SetFd(s, slot, fd, v)) && SetFd(s, slot, fd, v).cur == s.cur && SetFd(s, slot, fd, v).inodes == s.inodes
  {
  }

  lemma Pipe2Bytes(s: State, inodeOk: bool, r: Option<nat>, w: Option<nat>)
    requires Shaped(s)
    ensures SameBytes(s, Pipe2(s, inodeOk, r, w).s)
  {
    hide CloseFile, Install, Account;
    if inodeOk {
      var ino := |s.inodes|;
      var s0 := s.(inodes := s.inodes + [Pipe([], 0, 0)]);
      assert SameBytes(s, s0);
      EndsBytes(s0, ino, r, w);
      var s1 := PipeEnds(s0, ino, r, w);
      if r.Some? && w.Some? {
        InstallBytes(s1, r.value, w.value);
      } else if r.Some? {
        CloseFileBytes(s1, r.value);
      } else if w.Some? {
        CloseFileBytes(s1, w.value);
      }
    }
  }

  lemma EndsBytes(s: State, ino: nat, r: Option<nat>, w: Option<nat>)
    requires Shaped(s) && ino < |s.inodes|
    ensures Shaped(PipeEnds(s, ino, r, w)) && SameBytes(s, PipeEnds(s, ino, r, w))
  {
    hide Held, Account;
    var t := s;
    if r.Some? {
      OpenFileBytes(s, r.value, ino, 0);
      t := OpenFile(s, r.value, ino, 0);
    }
    if w.Some? {
      OpenFileBytes(t, w.value, ino, 1);
    }
  }

  lemma DieBytes(s: State, code: int, sig: int)
    requires Shaped(s)
    ensures SameBytes(s, Die(s, code, sig).s)
  {
    hide Held, CloseFrom, Wake, Reparent, PickNext, HandOver, WakeParent;
    CloseFromBytes(MarkDead(s, code, sig), s.cur, 0);
  }

  /** One step appends what was written to one pipe, or takes what was read from its front. */
  predicate Flow(before: seq<int>, after: seq<int>, ev: Event, n: nat) {
    match ev
    case PipeIn(m, bytes) => after == if m == n then before + bytes else before
    case PipeOut(m, bytes) => if m == n then before == bytes + after else after == before
    case _ => after == before
  }

  lemma WriteFlow(s: State, fd: int, bytes: seq<int>, n: nat)
    requires Shaped(s)
    ensures Flow(Held(s.inodes, n), Held(Write(s, fd, bytes).s.inodes, n), Write(s, fd, bytes).event, n)
  {
    hide Wake;
  }

  lemma ReadFlow(s: State, fd: int, k: nat, n: nat)
    requires Shaped(s)
    ensures Flow(Held(s.inodes, n), Held(Read(s, fd, k).s.inodes, n), Read(s, fd, k).event, n)
  {
    hide PickNext;
  }

  lemma StepFlow(s: State, op: Op, n: nat)
    requires Shaped(s) && Enabled(s, op)
    ensures Flow(Held(s.inodes, n), Held(Step(s, op).s.inodes, n), Step(s, op).event, n)
  {
    hide Held, Fork, Die, Wait, Preempt, Read, Write, Close, DupFrom, Dup2, Open, Pipe2, SetFlags;
    match op {
      case OpFork(vmOk) => ForkInodes(s, vmOk);
      case OpExit(code) => DieBytes(s, code, 0); DieEvent(s, code, 0);
      case OpFault(sig) => DieBytes(s, 0, sig); DieEvent(s, 0, sig);
      case OpWait => WaitInodes(s);
      case OpPreempt => PreemptInodes(s);
      case OpRead(fd, k) => ReadFlow(s, fd, k, n);
      case OpWrite(fd, bytes) => WriteFlow(s, fd, bytes, n);
      case OpClose(fd) => CloseBytes(s, fd);
      case OpDup(fd, min) => DupBytes(s, fd, min); DupEvent(s, fd, min);
      case OpDup2(oldfd, newfd) => Dup2Bytes(s, oldfd, newfd); Dup2Event(s, oldfd, newfd);
      case OpOpen(ino, flags, id) => OpenBytes(s, ino, flags, id); OpenEvent(s, ino, flags, id);
      case OpPipe2(inodeOk, r, w) => Pipe2Bytes(s, inodeOk, r, w); Pipe2Event(s, inodeOk, r, w);
      case OpSetFlags(fd, flags) => SetFlagsInodes(s, fd, flags);
    }
  }

  lemma ForkInodes(s: State, vmOk: bool)
    requires Shaped(s)
    ensures Fork(s, vmOk).s.inodes == s.inodes && !Fork(s, vmOk).event.PipeIn? && !Fork(s, vmOk).event.PipeOut?
  {
    hide BumpAll;
  }

  lemma WaitInodes(s: State)
    requires Shaped(s)
    ensures Wait(s).s.inodes == s.inodes && !Wait(s).event.PipeIn? && !Wait(s).event.PipeOut?
  {
    hide PickNext;
  }

  lemma PreemptInodes(s: State)
    requires Shaped(s)
    ensures Preempt(s).s.inodes == s.inodes && Preempt(s).event == Quiet
  {
    hide PickNext;
  }

  lemma SetFlagsInodes(s: State, fd: int, flags: nat)
    requires Shaped(s)
    ensures SetFlags(s, fd, flags).s.inodes == s.inodes && SetFlags(s, fd, flags).event == Quiet
  {
  }

  lemma CloseBytes(s: State, fd: int)
    requires Shaped(s)
    ensures SameBytes(s, Close(s, fd).s) && Close(s, fd).event == Quiet
  {
    hide Held, CloseFd;
    if FdGet(s, fd).Some? {
      CloseFdBytes(s, s.cur, fd);
    }
  }

  lemma DieEvent(s: State, code: int, sig: int)
    requires Shaped(s)
    ensures Die(s, code, sig).event.Died?
  {
    hide CloseFrom, Bury, Reschedule;
  }

  lemma DupEvent(s: State, fd: int, min: int)
    requires Shaped(s)
    ensures DupFrom(s, fd, min).event == Quiet
  {
  }

  lemma Dup2Event(s: State, oldfd: int, newfd: int)
    requires Shaped(s)
    ensures Dup2(s, oldfd, newfd).event == Quiet
  {
  }

  lemma OpenEvent(s: State, ino: nat, flags: nat, id: Option<nat>)
    requires Shaped(s) && ino < |s.inodes|
    ensures Open(s, ino, flags, id).event == Quiet
  {
  }

  lemma Pipe2Event(s: State, inodeOk: bool, r: Option<nat>, w: Option<nat>)
    requires Shaped(s)
    ensures Pipe2(s, inodeOk, r, w).event == Quiet
  {
    hide CloseFile, CloseFd, PipeEnds;
  }

  /** Everything written to, and everything read from, inode n. */
  function Written(log: seq<Event>, n: nat): seq<int> {
    if log == [] then []
    else
      var ev := log[|log| - 1];
      Written(log[..|log| - 1], n) + (if ev.PipeIn? && ev.ino == n then ev.bytes else [])
  }

  function Delivered(log: seq<Event>, n: nat): seq<int> {
    if log == [] then []
    else
      var ev := log[|log| - 1];
      Delivered(log[..|log| - 1], n) + (if ev.PipeOut? && ev.ino == n then ev.bytes else [])
  }

  lemma FlowKeeps(log: seq<Event>, ev: Event, n: nat, before: seq<int>, after: seq<int>)
    requires Written(log, n) == Delivered(log, n) + before && Flow(before, after, ev, n)
    ensures Written(log + [ev], n) == Delivered(log + [ev], n) + after
  {
    assert (log + [ev])[..|log|] == log;
    var w, d := Written(log, n), Delivered(log, n);
    if ev.PipeIn? && ev.ino == n {
      assert (d + before) + ev.bytes == d + (before + ev.bytes);
    } else if ev.PipeOut? && ev.ino == n {
      assert d + (ev.bytes + after) == (d + ev.bytes) + after;
    }
  }

  /** Over any run, for every pipe: the bytes delivered so far followed by the bytes still held are
      exactly the bytes written so far, in order. */
  lemma {:induction false} PipesAreFifo(r: Run, k: nat, n: nat)
    requires IsRun(r) && k < |r.states|
    ensures Written(Log(r, k), n) == Delivered(Log(r, k), n) + Held(r.states[k].inodes, n)
  {
    hide Step, Enabled, Held, Flow, Written, Delivered;
    if k == 0 {
      NothingYet(r.states[0], n);
    } else {
      PipesAreFifo(r, k - 1, n);
      var s, op := r.states[k - 1], r.ops[k - 1];
      assert StepsTo(s, op, r.states[k]);
      StepFlow(s, op, n);
      FlowKeeps(Log(r, k - 1), Step(s, op).event, n, Held(s.inodes, n), Held(r.states[k].inodes, n));
    }
  }

  lemma NothingYet(s: State, n: nat)
    requires Boot(s)
    ensures Written([], n) == Delivered([], n) + Held(s.inodes, n)
  {
  }

  // ---- F_SETFL ----------------------------------------------------------------------------

  /** The description's pipe ends under its old and under the new flags. */
  predicate SameEnds(s: State, id: nat, flags: nat)
    requires Shaped(s) && id in s.files
  {
    var f := s.files[id];
    s.inodes[f.inode].Pipe? ==> Reads(f) == Reads(f.(flags := flags)) && Writes(f) == Writes(f.(flags := flags))
  }

  lemma EndAfterFlags(files: map<nat, File>, id: nat, flags: nat, w: bool)
    requires id in files
    ensures var k, g := files[id].inode, files[id].(flags := flags);
      |End(files[id := g], k, w)| == |End(files, k, w)| <==> (InEnd(files[id], k, w) <==> InEnd(g, k, w))
  {
    hide InEnd;
    var k, g := files[id].inode, files[id].(flags := flags);
    var rest := End(files, k, w) - {id};
    assert End(files, k, w) == if InEnd(files[id], k, w) then rest + {id} else rest;
    assert End(files[id := g], k, w) == if InEnd(g, k, w) then rest + {id} else rest;
  }

  /** F_SETFL overwrites the access mode too. The end counts stay exact if and only if the new mode
      counts against the same ends of the pipe. */
  lemma SetFlagsExact(s: State, fd: int, flags: nat)
    requires Inv(s) && FdGet(s, fd).Some?
    ensures FdGet(s, fd).value in s.files
    ensures EndsCounted(SetFlags(s, fd, flags).s.files, s.inodes) <==> SameEnds(s, FdGet(s, fd).value, flags)
  {
    hide Counted, PipeWaits, Sched, Family, ChildWaits, DeadEmpty;
    var id := FdGet(s, fd).value;
    var files := SetFlags(s, fd, flags).s.files;
    var k := s.files[id].inode;
    EndAfterFlags(s.files, id, flags, false);
    EndAfterFlags(s.files, id, flags, true);
    if SameEnds(s, id, flags) {
      forall n, w: bool | 0 <= n < |s.inodes| && s.inodes[n].Pipe?
        ensures |End(files, n, w)| == |End(s.files, n, w)|
      {
        if n != k {
          assert End(files, n, w) == End(s.files, n, w);
        } else if w {
        } else {
        }
      }
    }
  }

  /** It can go wrong: right after boot, pipe2 followed by fcntl(1, F_SETFL, 0) on the write end
      leaves one writer counted where there is none. */
  lemma SetFlagsCanBreakCounts(s: State)
    requires Boot(s)
    ensures var t := Pipe2(s, true, Some(10), Some(11)).s;
      Inv(t) && FdGet(t, 1) == Some(11) && !EndsCounted(SetFlags(t, 1, 0).s.files, t.inodes)
  {
    hide Counted, PipeWaits, Sched, Family, ChildWaits, DeadEmpty, Tabled, EndsCounted;
    BootInv(s);
    StepKeepsInv(s, OpPipe2(true, Some(10), Some(11)));
    var t := Pipe2(s, true, Some(10), Some(11)).s;
    PipeAfterBoot(s);
    SetFlagsExact(t, 1, 0);
  }

  lemma PipeAfterBoot(s: State)
    requires Boot(s)
    ensures Shaped(s)
    ensures var t := Pipe2(s, true, Some(10), Some(11)).s; var n := |s.inodes|;
      && Shaped(t) && t.cur == 0 && t.procs[0].fds[1] == Some(11) && 11 in t.files && t.files[11] == File(n, 1, 1)
      && |t.inodes| == n + 1 && t.inodes[n].Pipe?
  {
    hide Refs;
    var s0 := s.(inodes := s.inodes + [Pipe([], 0, 0)]);
    var s1 := PipeEnds(s0, |s.inodes|, Some(10), Some(11));
    assert s1.procs == s.procs && s1.cur == 0;
    assert FirstFree(s.procs[0].fds, 0) == Some(0);
    var s2 := SetFd(s1, 0, 0, Some(10));
    assert s2.procs[0].fds[1].None?;
    assert FirstFree(s2.procs[0].fds, 1) == Some(1);
    assert FirstFree(s2.procs[0].fds, 0) == Some(1);
  }
}
