/** What each call is for, as its caller sees it: through descriptors, statuses and bytes. */
module KernelLaws {
  import opened Options
  import opened KernelState
  import opened FileCounts
  import opened KernelInvariant
  import opened KernelSteps
  import opened KernelExit
  import opened KernelRuns
  import opened KernelHistory
  import opened KernelFairness

  // ---- the C library's view of a wait status ------------------------------------------------------

  /** WTERMSIG, WEXITSTATUS, WIFEXITED and WIFSIGNALED of libc/include/sys/wait.h. */
  function TermSig(st: int): int { st % 128 }
  function ExitStatus(st: int): int { st / 256 % 256 }
  predicate IfExited(st: int) { TermSig(st) == 0 }
  predicate IfSignaled(st: int) { TermSig(st) != 0 && TermSig(st) != 127 }

  /** The status tells an exit with its code's low byte, or a death by its signal. */
  predicate Tells(st: int, code: int, sig: int) {
    && (sig == 0 ==> IfExited(st) && ExitStatus(st) == code % 256)
    && (0 < sig < 127 ==> IfSignaled(st) && TermSig(st) == sig)
  }

  /** z is a zombie child of the process in slot parent, and pid and status st tell its death. */
  predicate Told(z: Proc, parent: nat, pid: int, st: int) {
    z.state.Zombie? && z.parent == Some(parent) && z.pid == pid && Tells(st, z.exitCode, z.killedSig)
  }

  lemma StatusTells(code: int, sig: int)
    ensures Tells(WaitStatus(code, sig), code, sig)
  {
    var b := code % 256;
    assert b * 256 % 128 == 0 && b * 256 / 256 == b;
  }

  // ---- descriptors ----------------------------------------------------------------------------------

  /** Every descriptor of every process but fd of the caller leads where it led. */
  ghost predicate OthersLead(s: State, t: State, fd: int)
    requires Shaped(s) && Shaped(t)
  {
    && t.cur == s.cur
    && forall i, x :: 0 <= i < NPROC && 0 <= x < NOFILE && !(i == s.cur && x == fd) ==> t.procs[i].fds[x] == s.procs[i].fds[x]
  }

  lemma CloseFileLeads(s: State, id: nat)
    requires Shaped(s)
    ensures Shaped(CloseFile(s, id)) && OthersLead(s, CloseFile(s, id), -1)
  {
  }

  /** close: the descriptor leads nowhere, the others where they led. */
  lemma CloseLaw(s: State, fd: int)
    requires Shaped(s)
    ensures var r := Close(s, fd); Shaped(r.s) && OthersLead(s, r.s, fd) && FdGet(r.s, fd) == None
    ensures Close(s, fd).ret == if FdGet(s, fd).Some? then 0 else -9
    ensures FdGet(s, fd).None? ==> Close(s, fd).s == s
  {
    hide CloseFile;
    if FdGet(s, fd).Some? {
      CloseFileLeads(s, FdGet(s, fd).value);
    }
  }

  /** The lowest free descriptor of the caller from min on. */
  ghost predicate LowestFree(s: State, n: int, min: int)
    requires Shaped(s)
  {
    && 0 <= n < NOFILE && min <= n && FdGet(s, n) == None
    && forall x :: 0 <= x < n && min <= x ==> FdGet(s, x).Some?
  }

  /** dup and F_DUPFD: the lowest free descriptor from min on leads where fd leads; without one, nothing
      changes but the reference taken and given back. */
  lemma DupLaw(s: State, fd: int, min: int)
    requires Shaped(s)
    ensures var r := DupFrom(s, fd, min); Shaped(r.s) && OthersLead(s, r.s, r.ret)
    ensures FdGet(s, fd).None? ==> DupFrom(s, fd, min).ret == -9 && DupFrom(s, fd, min).s == s
    ensures var r := DupFrom(s, fd, min); FdGet(s, fd).Some? && r.ret >= 0 ==>
      LowestFree(s, r.ret, min) && FdGet(r.s, r.ret) == FdGet(s, fd)
    ensures var r := DupFrom(s, fd, min); FdGet(s, fd).Some? && r.ret < 0 ==>
      r.ret == -24 && forall x :: 0 <= x < 16 && min <= x ==> FdGet(s, x).Some?
  {
    hide CloseFile;
    match FdGet(s, fd) {
      case None =>
      case Some(id) => CloseFileLeads(Bump(s, id), id);
    }
  }

  /** dup2: newfd leads where oldfd leads, and every other descriptor where it led. */
  lemma Dup2Law(s: State, oldfd: int, newfd: int)
    requires Shaped(s)
    ensures var r := Dup2(s, oldfd, newfd); Shaped(r.s) && OthersLead(s, r.s, newfd)
    ensures var r := Dup2(s, oldfd, newfd); FdGet(s, oldfd).Some? && 0 <= newfd < NOFILE ==>
      r.ret == newfd && FdGet(r.s, newfd) == FdGet(s, oldfd)
    ensures FdGet(s, oldfd).None? || newfd < 0 || newfd >= NOFILE ==> Dup2(s, oldfd, newfd).ret == -9 && Dup2(s, oldfd, newfd).s == s
  {
    hide CloseFile;
    match FdGet(s, oldfd) {
      case None =>
      case Some(id) =>
        var b := Bump(s, id);
        if 0 <= newfd < NOFILE && FdGet(b, newfd).Some? {
          CloseFileLeads(b, FdGet(b, newfd).value);
        }
    }
  }

  /** open: the lowest free descriptor leads to a new description of the inode with these flags. */
  lemma OpenLaw(s: State, ino: nat, flags: nat, id: Option<nat>)
    requires Shaped(s) && ino < |s.inodes| && (id.Some? ==> id.value !in s.files)
    ensures var r := Open(s, ino, flags, id); Shaped(r.s) && OthersLead(s, r.s, r.ret)
    ensures var r := Open(s, ino, flags, id); r.ret >= 0 ==>
      id.Some? && LowestFree(s, r.ret, 0) && FdGet(r.s, r.ret) == id && id.value in r.s.files && r.s.files[id.value] == File(ino, flags, 1)
    ensures var r := Open(s, ino, flags, id); r.ret < 0 <==> id.None? || forall x :: 0 <= x < NOFILE ==> FdGet(s, x).Some?
    ensures var r := Open(s, ino, flags, id); r.ret < 0 ==> r.ret == (if id.None? then -12 else -24) && r.s.files == s.files
  {
    hide Account;
    if id.Some? {
      var s1 := OpenFile(s, id.value, ino, flags);
      assert s1.files - {id.value} == s.files;
      CloseFileLeads(s1, id.value);
    }
  }

  /** pipe2: two new descriptors, the first reads and the second writes a new, empty pipe. */
  ghost predicate PipeMade(s: State, t: State, rfd: int, wfd: int, r: nat, w: nat)
    requires Shaped(s) && Shaped(t)
  {
    && LowestFree(s, rfd, 0) && rfd < wfd < NOFILE && FdGet(s, wfd) == None && (forall x :: rfd < x < wfd ==> FdGet(s, x).Some?)
    && FdGet(t, rfd) == Some(r) && FdGet(t, wfd) == Some(w) && r in t.files && w in t.files
    && t.files[r].inode == t.files[w].inode == |s.inodes| && |t.inodes| == |s.inodes| + 1
    && Reads(t.files[r]) && !Writes(t.files[r]) && Writes(t.files[w]) && !Reads(t.files[w])
    && t.inodes == s.inodes + [Pipe([], 1, 1)]
    && (forall i, x :: 0 <= i < NPROC && 0 <= x < NOFILE && !(i == s.cur && (x == rfd || x == wfd)) ==> t.procs[i].fds[x] == s.procs[i].fds[x])
  }

  lemma EndsMade(s: State, r: nat, w: nat)
    requires Shaped(s) && r !in s.files && w !in s.files && r != w
    ensures var t := PipeEnds(s.(inodes := s.inodes + [Pipe([], 0, 0)]), |s.inodes|, Some(r), Some(w));
      && t == s.(files := s.files[r := File(|s.inodes|, 0, 1)][w := File(|s.inodes|, 1, 1)], inodes := s.inodes + [Pipe([], 1, 1)])
      && Shaped(t)
  {
    var t := PipeEnds(s.(inodes := s.inodes + [Pipe([], 0, 0)]), |s.inodes|, Some(r), Some(w));
    assert t.inodes == s.inodes + [Pipe([], 1, 1)];
  }

  lemma Installed(s: State, t: State, r: nat, w: nat, rfd: nat, wfd: nat)
    requires Shaped(s) && Shaped(t) && r != w && rfd < NOFILE && wfd < NOFILE && t.procs == s.procs && t.cur == s.cur
    requires t.files == s.files[r := File(|s.inodes|, 0, 1)][w := File(|s.inodes|, 1, 1)] && t.inodes == s.inodes + [Pipe([], 1, 1)]
    requires FirstFree(s.procs[s.cur].fds, 0) == Some(rfd)
    requires FirstFree(SetFd(t, s.cur, rfd, Some(r)).procs[s.cur].fds, 0) == Some(wfd)
    ensures var v := SetFd(SetFd(t, s.cur, rfd, Some(r)), s.cur, wfd, Some(w)); Shaped(v) && PipeMade(s, v, rfd, wfd, r, w)
  {
    hide FirstFree;
    var u := SetFd(t, s.cur, rfd, Some(r));
    var fs, gs := s.procs[s.cur].fds, u.procs[s.cur].fds;
    assert forall x :: 0 <= x < NOFILE && x != rfd ==> gs[x] == fs[x];
    assert gs[rfd].Some? && rfd < wfd;
  }

  lemma Pipe2Law(s: State, r: nat, w: nat) returns (rfd: int, wfd: int)
    requires Shaped(s) && r !in s.files && w !in s.files && r != w
    ensures Shaped(Pipe2(s, true, Some(r), Some(w)).s)
    ensures Pipe2(s, true, Some(r), Some(w)).ret == 0 ==> PipeMade(s, Pipe2(s, true, Some(r), Some(w)).s, rfd, wfd, r, w)
    ensures Pipe2(s, true, Some(r), Some(w)).ret != 0 ==> Pipe2(s, true, Some(r), Some(w)).ret == -24
    ensures Pipe2(s, true, Some(r), Some(w)).ret == 0 <==>
      exists x, y :: 0 <= x < y < NOFILE && FdGet(s, x).None? && FdGet(s, y).None?
  {
    hide CloseFile, PipeEnds;
    EndsMade(s, r, w);
    var t := PipeEnds(s.(inodes := s.inodes + [Pipe([], 0, 0)]), |s.inodes|, Some(r), Some(w));
    rfd, wfd := 0, 0;
    CloseFileLeads(t, r);
    CloseFileLeads(CloseFile(t, r), w);
    var a := FirstFree(s.procs[s.cur].fds, 0);
    if a.Some? {
      rfd := a.value;
      var u := SetFd(t, s.cur, rfd, Some(r));
      CloseFileLeads(u, r);
      CloseFileLeads(CloseFd(u, s.cur, rfd), w);
      var b := FirstFree(u.procs[s.cur].fds, 0);
      if b.Some? {
        wfd := b.value;
        assert FdGet(s, rfd).None? && FdGet(s, wfd).None?;
        Installed(s, t, r, w, rfd, wfd);
      } else {
        forall x, y | 0 <= x < y < NOFILE
          ensures FdGet(s, x).Some? || FdGet(s, y).Some?
        {
          assert u.procs[s.cur].fds[x].Some? && u.procs[s.cur].fds[y].Some?;
        }
      }
    }
  }

  lemma OnlyReference(s: State, id: nat)
    requires Shaped(s) && id in s.files && s.files[id].refcnt == 1
    ensures Shaped(CloseFile(s, id)) && CloseFile(s, id).files == s.files - {id}
  {
    hide Account;
  }

  /** A pipe2 that fails, for want of memory or of descriptors, leaves every description and every
      descriptor as it was. */
  lemma Pipe2Fails(s: State, inodeOk: bool, r: Option<nat>, w: Option<nat>)
    requires Shaped(s) && (r.Some? ==> r.value !in s.files) && (w.Some? ==> w.value !in s.files) && (r.Some? && w.Some? ==> r != w)
    requires Pipe2(s, inodeOk, r, w).ret != 0
    ensures var t := Pipe2(s, inodeOk, r, w);
      && Shaped(t.s) && t.s.files == s.files && OthersLead(s, t.s, -1)
      && t.ret == if inodeOk && r.Some? && w.Some? then -24 else -12
  {
    if inodeOk {
      var s0 := s.(inodes := s.inodes + [Pipe([], 0, 0)]);
      var ino := |s.inodes|;
      if r.Some? && w.Some? {
        EndsMade(s, r.value, w.value);
        var t := PipeEnds(s0, ino, r, w);
        UndoneInstall(s, t, r.value, w.value);
      } else if r.Some? || w.Some? {
        var id, flags := if r.Some? then r.value else w.value, if r.Some? then 0 else 1;
        OneEnd(s0, id, ino, flags);
      }
    }
  }

  lemma OneEnd(s: State, id: nat, ino: nat, flags: nat)
    requires Shaped(s) && ino < |s.inodes| && id !in s.files
    ensures var t := OpenFile(s, id, ino, flags); Shaped(t) && Shaped(CloseFile(t, id)) && CloseFile(t, id).files == s.files
    ensures OthersLead(s, CloseFile(OpenFile(s, id, ino, flags), id), -1)
  {
    hide Account;
    var t := OpenFile(s, id, ino, flags);
    OnlyReference(t, id);
    assert t.files - {id} == s.files;
    hide CloseFile;
    CloseFileLeads(t, id);
  }

  lemma UndoneInstall(s: State, t: State, r: nat, w: nat)
    requires Shaped(s) && Shaped(t) && r !in s.files && w !in s.files && r != w && t.procs == s.procs && t.cur == s.cur
    requires t.files == s.files[r := File(|s.inodes|, 0, 1)][w := File(|s.inodes|, 1, 1)] && Install(t, r, w).ret != 0
    ensures var u := Install(t, r, w); Shaped(u.s) && u.s.files == s.files && OthersLead(s, u.s, -1) && u.ret == -24
  {
    hide CloseFile;
    assert t.files - {r} - {w} == s.files;
    OnlyReference(t, r);
    CloseFileLeads(t, r);
    OnlyReference(CloseFile(t, r), w);
    CloseFileLeads(CloseFile(t, r), w);
    var a := FirstFree(t.procs[t.cur].fds, 0);
    if a.Some? {
      var u := SetFd(t, t.cur, a.value, Some(r));
      OnlyReference(u, r);
      CloseFileLeads(u, r);
      var v := CloseFd(u, t.cur, a.value);
      OnlyReference(v, w);
      CloseFileLeads(v, w);
    }
  }

  /** F_SETFL: the description that fd leads to has the new flags; no descriptor moves. */
  lemma SetFlagsLaw(s: State, fd: int, flags: nat)
    requires Shaped(s)
    ensures var r := SetFlags(s, fd, flags); Shaped(r.s) && OthersLead(s, r.s, -1) && r.s.inodes == s.inodes
    ensures SetFlags(s, fd, flags).ret == if FdGet(s, fd).Some? then 0 else -9
    ensures var r := SetFlags(s, fd, flags); forall id :: id in s.files ==>
      id in r.s.files && r.s.files[id] == if FdGet(s, fd) == Some(id) then s.files[id].(flags := flags) else s.files[id]
  {
  }

  // ---- pipes ------------------------------------------------------------------------------------------

  /** fd leads to the pipe ino. */
  predicate OnPipe(s: State, fd: int, ino: nat)
    requires Shaped(s)
  {
    var id := FdGet(s, fd);
    id.Some? && id.value in s.files && s.files[id.value].inode == ino && ino < |s.inodes| && s.inodes[ino].Pipe?
  }

  /** Somebody else can run. */
  predicate OtherCanRun(s: State)
    requires Shaped(s)
  {
    exists i :: 0 <= i < NPROC && i != s.cur && s.procs[i].state.Runnable?
  }

  lemma SleepsIff(s: State, c: Chan)
    requires Shaped(s) && s.procs[s.cur].state.Running?
    ensures Sleep(s, c).Some? <==> OtherCanRun(s)
    ensures Sleep(s, c).Some? ==> var t := Sleep(s, c).value;
      && Shaped(t) && t.cur != s.cur && t.procs[t.cur].state.Running? && s.procs[t.cur].state.Runnable?
      && t.procs[s.cur].state.Blocked? && t.procs[s.cur].chan == c && t.inodes == s.inodes && t.files == s.files
  {
    hide PickNext;
    PickIs(s);
  }

  lemma PickIs(s: State)
    requires Shaped(s) && s.procs[s.cur].state.Running?
    ensures PickNext(s.procs, s.cur).Some?
    ensures var n := PickNext(s.procs, s.cur).value; (n != s.cur <==> OtherCanRun(s)) && (n != s.cur ==> s.procs[n].state.Runnable?)
  {
    PickFromIs(s.procs, s.cur, 1);
    if i :| 0 <= i < NPROC && i != s.cur && s.procs[i].state.Runnable? {
      SwitchFair(s.procs, s.cur, i);
    }
  }

  /** A read of a pipe that holds something takes the oldest bytes; of an empty one with a writer it waits,
      if it may and somebody else can run; else it reads nothing. */
  lemma ReadLaw(s: State, fd: int, n: nat, ino: nat)
    requires Shaped(s) && s.procs[s.cur].state.Running? && OnPipe(s, fd, ino)
    ensures var r, p := Read(s, fd, n), s.inodes[ino];
      var waits := n > 0 && p.data == [] && p.wrOpen > 0 && s.files[FdGet(s, fd).value].flags / 2048 % 2 == 0 && OtherCanRun(s);
      && (waits ==> r.s.cur != s.cur && r.s.procs[s.cur].state.Blocked? && r.s.procs[s.cur].chan == OnInode(ino) && r.event == Quiet)
      && (!waits ==> r.event == PipeOut(ino, p.data[..r.ret]) && r.ret == (if n < |p.data| then n else |p.data|)
                     && r.s == s.(inodes := s.inodes[ino := p.(data := p.data[r.ret..])]))
  {
    hide Sleep;
    SleepsIff(s, OnInode(ino));
  }

  lemma BadFdLaw(s: State, fd: int, n: nat, bytes: seq<int>)
    requires Shaped(s) && FdGet(s, fd).None?
    ensures Read(s, fd, n) == Result(s, -9, Quiet) && Write(s, fd, bytes) == Result(s, -9, Quiet)
  {
  }

  /** A write appends what fits and leaves nobody asleep on the pipe, or fails when there is no reader. */
  lemma WriteLaw(s: State, fd: int, bytes: seq<int>, ino: nat)
    requires Shaped(s) && OnPipe(s, fd, ino) && |s.inodes[ino].data| <= 4096
    ensures var r, p := Write(s, fd, bytes), s.inodes[ino];
      && (p.rdOpen == 0 ==> r == Result(s, -32, Quiet))
      && (p.rdOpen != 0 ==>
           && r.ret == (if |bytes| < 4096 - |p.data| then |bytes| else 4096 - |p.data|)
           && r.s.inodes == s.inodes[ino := p.(data := p.data + bytes[..r.ret])] && r.event == PipeIn(ino, bytes[..r.ret])
           && (r.ret > 0 ==> forall i :: 0 <= i < NPROC ==> !(r.s.procs[i].state.Blocked? && r.s.procs[i].chan == OnInode(ino)))
           && r.s.files == s.files && r.s.cur == s.cur
           && forall i :: 0 <= i < NPROC ==> r.s.procs[i].fds == s.procs[i].fds && (s.procs[i].state.Running? ==> r.s.procs[i] == s.procs[i]))
  {
  }

  /** What is written into an empty pipe with a reader is read from its other end. */
  lemma PipeRoundTrip(s: State, rfd: int, wfd: int, ino: nat, bytes: seq<int>, n: nat)
    requires Shaped(s) && s.procs[s.cur].state.Running? && OnPipe(s, rfd, ino) && OnPipe(s, wfd, ino)
    requires s.inodes[ino].data == [] && s.inodes[ino].rdOpen > 0 && 0 < |bytes| <= 4096 && n >= |bytes|
    ensures Shaped(Write(s, wfd, bytes).s)
    ensures var r := Read(Write(s, wfd, bytes).s, rfd, n); r.ret == |bytes| && r.event == PipeOut(ino, bytes) && r.s.inodes[ino].data == []
  {
    hide Read, Write;
    WriteLaw(s, wfd, bytes, ino);
    var t := Write(s, wfd, bytes).s;
    WriteShape(s, wfd, bytes);
    assert t.inodes[ino].data == bytes by { assert [] + bytes[..|bytes|] == bytes; }
    ReadLaw(t, rfd, n, ino);
  }

  lemma WriteShape(s: State, fd: int, bytes: seq<int>)
    requires Shaped(s)
    ensures Shaped(Write(s, fd, bytes).s)
  {
  }

  // ---- processes ------------------------------------------------------------------------------------------

  /** fork: some free slot becomes a runnable child that shares the caller's descriptors, and the caller
      gets its pid; nobody else changes. */
  lemma ForkLaw(s: State, vmOk: bool)
    requires Shaped(s)
    ensures var r := Fork(s, vmOk); r.s.cur == s.cur && |r.s.procs| == NPROC && r.s.inodes == s.inodes
    ensures (forall i :: 0 <= i < 8 ==> !s.procs[i].state.Unused?) ==> Fork(s, vmOk) == Result(s, -11, Quiet)
    ensures var r := Fork(s, vmOk); r.ret >= 0 <==> vmOk && exists i :: 0 <= i < 8 && s.procs[i].state.Unused?
    ensures !vmOk && (exists i :: 0 <= i < 8 && s.procs[i].state.Unused?) ==> Fork(s, vmOk).ret == -12
    ensures var r := Fork(s, vmOk); r.ret >= 0 ==> r.ret == s.nextPid && r.event == Forked(s.nextPid)
    ensures var r := Fork(s, vmOk); r.ret >= 0 ==> exists c :: 0 <= c < 8 && IsChild(s, r.s, c)
    ensures var r := Fork(s, vmOk); r.ret < 0 ==> r.s.files == s.files && forall i :: 0 <= i < 8 ==> r.s.procs[i].state == s.procs[i].state
  {
    hide BumpAll;
    var u := FirstUnused(s.procs, 0);
    if vmOk && u.Some? {
      assert IsChild(s, Fork(s, vmOk).s, u.value);
    }
  }

  ghost predicate IsChild(s: State, t: State, c: int)
    requires Shaped(s) && |t.procs| == NPROC && 0 <= c < NPROC
  {
    var p := t.procs[c];
    && s.procs[c].state.Unused? && p.state.Runnable? && p.pid == s.nextPid && p.parent == Some(s.cur) && p.chan == NoChan
    && p.fds == s.procs[s.cur].fds && p.exitCode == 0 && p.killedSig == 0
    && forall i :: 0 <= i < NPROC && i != c ==> t.procs[i] == s.procs[i]
  }

  /** wait: the first zombie child is reported with its status and its slot freed; without one it waits while
      a child lives and somebody else can run; else there is no child to wait for. */
  lemma WaitLaw(s: State)
    requires Shaped(s) && s.procs[s.cur].state.Running?
    ensures var r := Wait(s); r.event.Reaped? ==> exists c :: 0 <= c < NPROC && Harvested(s, r, c)
    ensures Wait(s).event.Reaped? <==> exists c :: 0 <= c < NPROC && s.procs[c].state.Zombie? && s.procs[c].parent == Some(s.cur)
    ensures var r := Wait(s); !r.event.Reaped? ==>
      if HasChild(s.procs, s.cur) && OtherCanRun(s)
      then r.s.cur != s.cur && r.s.procs[s.cur].state.Blocked? && r.s.procs[s.cur].chan == OnProc(s.cur)
      else r == Result(s, -10, Quiet)
  {
    hide Sleep;
    SleepsIff(s, OnProc(s.cur));
    var z := ZombieChild(s.procs, s.cur, 0);
    if z.Some? {
      StatusTells(s.procs[z.value].exitCode, s.procs[z.value].killedSig);
      assert Harvested(s, Wait(s), z.value);
    }
  }

  ghost predicate Harvested(s: State, r: Result, c: int)
    requires Shaped(s) && 0 <= c < NPROC
  {
    var z := s.procs[c];
    && z.state.Zombie? && z.parent == Some(s.cur) && r.ret == z.pid && r.event.Reaped? && r.event.pid == z.pid
    && Tells(r.event.status, z.exitCode, z.killedSig)
    && (forall i :: 0 <= i < c ==> !(s.procs[i].state.Zombie? && s.procs[i].parent == Some(s.cur)))
    && r.s == s.(procs := s.procs[c := z.(state := Unused)])
  }

  /** A tick moves on to another process if one can run, and changes nothing otherwise. */
  lemma PreemptLaw(s: State)
    requires Shaped(s) && s.procs[s.cur].state.Running?
    ensures var t := Preempt(s).s;
      if OtherCanRun(s) then
        && t.cur != s.cur && t.cur < NPROC && |t.procs| == NPROC && t.procs[s.cur] == s.procs[s.cur].(state := Runnable)
        && s.procs[t.cur].state.Runnable? && t.procs[t.cur] == s.procs[t.cur].(state := Running)
      else t == s
  {
    hide PickNext;
    PickIs(s);
  }

  // ---- death ------------------------------------------------------------------------------------------------

  /** What the death of the current process makes of the process in slot i. */
  ghost predicate Outlived(s: State, t: State, code: int, sig: int, i: nat)
    requires Shaped(s) && Shaped(t) && i < NPROC
  {
    var p, q := s.procs[i], t.procs[i];
    && q.pid == p.pid
    && (i == s.cur ==> q.state.Zombie? && q.exitCode == code && q.killedSig == sig && q.parent == p.parent
                       && forall x :: 0 <= x < NOFILE ==> q.fds[x] == None)
    && (i != s.cur ==> q.fds == p.fds && q.exitCode == p.exitCode && q.killedSig == p.killedSig)
    && (i != s.cur && !p.state.Unused? ==> q.parent == if p.parent == Some(s.cur) && s.cur != 0 then Some(0) else p.parent)
    && (s.procs[s.cur].parent == Some(i) && p.state.Blocked? && p.chan == OnProc(i) ==> !q.state.Blocked?)
  }

  /** exit and a fatal fault: a zombie with that code or signal and no descriptors is left, its children are
      init's, and its parent does not sleep in wait any more. */
  lemma DieLaw(s: State, code: int, sig: int, i: nat)
    requires Inv(s) && !s.halted && i < NPROC
    ensures Die(s, code, sig).event == Died(s.procs[s.cur].pid, code, sig)
    ensures Shaped(Die(s, code, sig).s) && Outlived(s, Die(s, code, sig).s, code, sig, i)
  {
    hide Tabled, Counted, EndsCounted, PipeWaits, Family, ChildWaits, DeadEmpty, CloseFrom, Bury, Reschedule, OrphanZombie;
    DieBurial(s, code, sig);
    var t := CloseFrom(MarkDead(s, code, sig), s.cur, 0);
    var u := Bury(t);
    AfterBurial(s, t, u, code, sig, i);
    AfterBurial(s, t, u, code, sig, s.cur);
    assert SameProc(MarkDead(s, code, sig).procs[i], t.procs[i]);
    assert SameProc(MarkDead(s, code, sig).procs[s.cur], t.procs[s.cur]);
    assert Buried(t.procs, s.cur, i, t.procs[i], u.procs[i]);
    RescheduleAt(u, i);
  }

  // ---- what wait reports, over runs ---------------------------------------------------------------------------

  lemma {:induction false} LogAt(r: Run, k: nat, i: nat)
    requires IsRun(r) && i < k <= |r.ops|
    ensures Shaped(r.states[i]) && Enabled(r.states[i], r.ops[i]) && Log(r, k)[i] == Step(r.states[i], r.ops[i]).event
    decreases k
  {
    hide Step, Enabled;
    assert StepsTo(r.states[i], r.ops[i], r.states[i + 1]);
    if i < k - 1 {
      LogAt(r, k - 1, i);
    }
  }

  /** Only exit and faults are deaths. */
  lemma DeathIsExitOrFault(s: State, op: Op)
    requires Shaped(s) && Enabled(s, op) && Step(s, op).event.Died?
    ensures op.OpExit? || op.OpFault?
    ensures Step(s, op).event == Died(s.procs[s.cur].pid, if op.OpExit? then op.code else 0, if op.OpFault? then op.sig else 0)
  {
    hide CloseFile, CloseFd, Bump, OpenFile, PipeEnds, SetFd, Wake, Sleep, BumpAll, CloseFrom, Bury, Reschedule;
    if OnDescriptors(op) {
      DescriptorEvent(s, op);
    }
  }

  /** Over every run: a pid that wait reports belongs to a process that exited or was killed earlier, and the
      C library reads from the status which it was, and with what. */
  lemma ReapedTells(r: Run, j: nat) returns (i: nat)
    requires IsRun(r) && j < |r.ops| && Log(r, j + 1)[j].Reaped?
    ensures i < j && Shaped(r.states[i]) && r.states[i].procs[r.states[i].cur].pid == Log(r, j + 1)[j].pid
    ensures match r.ops[i]
      case OpExit(code) => Tells(Log(r, j + 1)[j].status, code, 0)
      case OpFault(sig) => Tells(Log(r, j + 1)[j].status, 0, sig)
      case _ => false
  {
    hide Step, Enabled, Tells, Log, Boot;
    i := ReapedAsItDied(r, j);
    LogAt(r, j + 1, i);
    DeathIsExitOrFault(r.states[i], r.ops[i]);
    StatusTells(Log(r, j + 1)[i].code, Log(r, j + 1)[i].sig);
  }
}
