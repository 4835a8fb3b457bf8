/** The invariant of the process, descriptor and pipe state, and every step keeps it. */
module KernelInvariant {
  import opened Options
  import opened KernelState
  import opened FileCounts

  /** Only the current process runs, and no half-made slot is ever visible. */
  ghost predicate Sched(s: State)
    requires Shaped(s)
  {
    && (if s.halted then s.procs[s.cur].state.Zombie? else s.procs[s.cur].state.Running?)
    && (forall i :: 0 <= i < NPROC && s.procs[i].state.Running? ==> i == s.cur && !s.halted)
    && (forall i :: 0 <= i < NPROC ==> !s.procs[i].state.Embryo?)
  }

  /** Slot 0 is init, for ever. Everybody else has a parent slot in use; only init can be a dead parent. */
  ghost predicate Family(s: State)
    requires Shaped(s)
  {
    && s.procs[0].pid == 1 && !s.procs[0].state.Unused? && s.procs[0].parent.None?
    && (forall i :: 1 <= i < NPROC && !s.procs[i].state.Unused? ==> ParentOk(s.procs, i))
    && PidsOk(s)
  }

  /** Pids in use are distinct and below the next one. */
  ghost predicate PidsOk(s: State)
    requires Shaped(s)
  {
    && (forall i :: 0 <= i < NPROC && !s.procs[i].state.Unused? ==> 1 <= s.procs[i].pid < s.nextPid)
    && (forall i, j :: 0 <= i < j < NPROC && !s.procs[i].state.Unused? && !s.procs[j].state.Unused? ==>
          s.procs[i].pid != s.procs[j].pid)
  }

  ghost predicate ParentOk(procs: seq<Proc>, i: nat)
    requires |procs| == NPROC && i < NPROC
  {
    match procs[i].parent
    case None => false
    case Some(p) => p < NPROC && p != i && !procs[p].state.Unused? && (procs[p].state.Zombie? ==> p == 0)
  }

  predicate Alive(p: Proc) { !p.state.Unused? && !p.state.Zombie? }

  ghost predicate LiveChild(procs: seq<Proc>, i: nat) {
    exists c :: 0 <= c < |procs| && Alive(procs[c]) && procs[c].parent == Some(i)
  }

  ghost predicate NoZombieChild(procs: seq<Proc>, i: nat) {
    forall c :: 0 <= c < |procs| && procs[c].state.Zombie? ==> procs[c].parent != Some(i)
  }

  /** A process asleep in wait sleeps on itself, has a live child and no zombie child. */
  ghost predicate ChildWaits(s: State)
    requires Shaped(s)
  {
    forall i :: 0 <= i < NPROC && s.procs[i].state.Blocked? && !s.procs[i].chan.OnInode? ==>
      s.procs[i].chan == OnProc(i) && LiveChild(s.procs, i) && NoZombieChild(s.procs, i)
  }

  predicate EmptyTable(fds: seq<Option<nat>>) {
    forall j :: 0 <= j < |fds| ==> fds[j].None?
  }

  /** Zombies and free slots hold no descriptor. */
  ghost predicate DeadEmpty(s: State)
    requires Shaped(s)
  {
    forall i :: 0 <= i < NPROC && !Alive(s.procs[i]) ==> EmptyTable(s.procs[i].fds)
  }

  ghost predicate Inv(s: State) {
    FilesOk(s, multiset{}) && Sched(s) && Family(s) && ChildWaits(s) && DeadEmpty(s)
  }

  // ---- calls on descriptors ---------------------------------------------------------

  /** A call that changes nothing but the caller's descriptors, files and pipes. */
  ghost predicate FdStep(s: State, t: State) {
    && Shaped(s) && FilesOk(t, multiset{}) && SameFamily(s, t)
    && forall i :: 0 <= i < NPROC && i != s.cur ==> t.procs[i].fds == s.procs[i].fds
  }

  lemma PidsFrame(s: State, t: State)
    requires Shaped(s) && Shaped(t) && PidsOk(s) && s.nextPid <= t.nextPid
    requires forall i :: 0 <= i < NPROC && !t.procs[i].state.Unused? ==>
      !s.procs[i].state.Unused? && s.procs[i].pid == t.procs[i].pid
    ensures PidsOk(t)
  {
  }

  lemma FdStepSched(s: State, t: State)
    requires Inv(s) && !s.halted && FdStep(s, t)
    ensures Sched(t) && Family(t)
  {
    hide Tabled, Counted, EndsCounted, PipeWaits, ChildWaits, DeadEmpty, PidsOk;
    PidsFrame(s, t);
    forall i | 1 <= i < NPROC && !t.procs[i].state.Unused?
      ensures ParentOk(t.procs, i)
    {
      assert SameProc(s.procs[i], t.procs[i]);
      assert ParentOk(s.procs, i);
    }
  }

  lemma FdStepWaits(s: State, t: State)
    requires Inv(s) && !s.halted && FdStep(s, t)
    ensures ChildWaits(t)
  {
    hide Tabled, Counted, EndsCounted, PipeWaits, Family, Sched, DeadEmpty;
    forall i | 0 <= i < NPROC && t.procs[i].state.Blocked? && !t.procs[i].chan.OnInode?
      ensures t.procs[i].chan == OnProc(i) && LiveChild(t.procs, i) && NoZombieChild(t.procs, i)
    {
      assert SameProc(s.procs[i], t.procs[i]);
      var c :| 0 <= c < |s.procs| && Alive(s.procs[c]) && s.procs[c].parent == Some(i);
      assert SameProc(s.procs[c], t.procs[c]);
    }
  }

  lemma FdStepKeepsInv(s: State, t: State)
    requires Inv(s) && !s.halted && FdStep(s, t)
    ensures Inv(t)
  {
    hide Tabled, Counted, EndsCounted, PipeWaits, Family, ChildWaits;
    FdStepSched(s, t);
    FdStepWaits(s, t);
  }

  lemma CloseStep(s: State, fd: int)
    requires Inv(s)
    ensures FdStep(s, Close(s, fd).s)
  {
    if FdGet(s, fd).Some? {
      CloseFdOk(s, multiset{}, s.cur, fd);
    }
  }

  lemma GetTabled(s: State, fd: int)
    requires Inv(s)
    ensures FdGet(s, fd).Some? ==> FdGet(s, fd).value in s.files
  {
  }

  lemma DupStep(s: State, fd: int, min: int)
    requires Inv(s)
    ensures FdStep(s, DupFrom(s, fd, min).s)
  {
    hide Family, Sched, ChildWaits, DeadEmpty, Tabled, Counted, EndsCounted, PipeWaits, CloseFile;
    GetTabled(s, fd);
    if FdGet(s, fd).Some? {
      var id := FdGet(s, fd).value;
      var t := Bump(s, id);
      BumpOk(s, multiset{}, id);
      assert multiset{} + multiset{id} - multiset{id} == multiset{};
      match FirstFree(s.procs[s.cur].fds, if min < 0 then 0 else min) {
        case None =>
          CloseFileOk(t, multiset{} + multiset{id}, id);
          SameFamilyTrans(s, t, CloseFile(t, id));
        case Some(n) =>
          StoreOk(t, multiset{} + multiset{id}, s.cur, n, id);
          SameFamilyTrans(s, t, SetFd(t, s.cur, n, Some(id)));
      }
    }
  }

  lemma Dup2Step(s: State, oldfd: int, newfd: int)
    requires Inv(s)
    ensures FdStep(s, Dup2(s, oldfd, newfd).s)
  {
    hide Family, Sched, ChildWaits, DeadEmpty, Tabled, Counted, EndsCounted, PipeWaits, CloseFd;
    GetTabled(s, oldfd);
    if FdGet(s, oldfd).Some? && oldfd != newfd && 0 <= newfd < NOFILE {
      var id := FdGet(s, oldfd).value;
      var t := Bump(s, id);
      BumpOk(s, multiset{}, id);
      var u := CloseFd(t, s.cur, newfd);
      CloseFdOk(t, multiset{} + multiset{id}, s.cur, newfd);
      SameFamilyTrans(s, t, u);
      StoreOk(u, multiset{} + multiset{id}, s.cur, newfd, id);
      SameFamilyTrans(s, u, SetFd(u, s.cur, newfd, Some(id)));
      assert multiset{} + multiset{id} - multiset{id} == multiset{};
    }
  }

  lemma OpenStep(s: State, ino: nat, flags: nat, id: Option<nat>)
    requires Inv(s) && ino < |s.inodes| && (id.Some? ==> id.value !in s.files)
    ensures FdStep(s, Open(s, ino, flags, id).s)
  {
    hide Family, Sched, ChildWaits, DeadEmpty, Tabled, Counted, EndsCounted, PipeWaits, CloseFile;
    if id.Some? {
      var f := id.value;
      var t := OpenFile(s, f, ino, flags);
      OpenFileOk(s, multiset{}, f, ino, flags);
      assert multiset{} + multiset{f} - multiset{f} == multiset{};
      match FirstFree(s.procs[s.cur].fds, 0) {
        case None =>
          CloseFileOk(t, multiset{} + multiset{f}, f);
          SameFamilyTrans(s, t, CloseFile(t, f));
        case Some(n) =>
          StoreOk(t, multiset{} + multiset{f}, s.cur, n, f);
          SameFamilyTrans(s, t, SetFd(t, s.cur, n, Some(f)));
      }
    }
  }

  /** A new pipe inode that nobody has open yet. */
  lemma NewPipeOk(s: State)
    requires FilesOk(s, multiset{})
    ensures FilesOk(s.(inodes := s.inodes + [Pipe([], 0, 0)]), multiset{})
  {
    var k := |s.inodes|;
    assert End(s.files, k, false) == {} && End(s.files, k, true) == {};
  }

  lemma InstallStep(s: State, r: nat, w: nat)
    requires FilesOk(s, multiset{r, w}) && r != w
    ensures FdStep(s, Install(s, r, w).s)
  {
    hide Tabled, Counted, EndsCounted, PipeWaits, CloseFile, CloseFd;
    var both: multiset<nat> := multiset{r, w};
    assert both - multiset{r} == multiset{w} && multiset{w} - multiset{w} == multiset{};
    match FirstFree(s.procs[s.cur].fds, 0) {
      case None =>
        CloseFileOk(s, both, r);
        CloseFileOk(CloseFile(s, r), multiset{w}, w);
        SameFamilyTrans(s, CloseFile(s, r), CloseFile(CloseFile(s, r), w));
      case Some(rfd) =>
        var t := SetFd(s, s.cur, rfd, Some(r));
        StoreOk(s, both, s.cur, rfd, r);
        match FirstFree(t.procs[s.cur].fds, 0) {
          case None =>
            var u := CloseFd(t, s.cur, rfd);
            CloseFdOk(t, multiset{w}, s.cur, rfd);
            CloseFileOk(u, multiset{w}, w);
            SameFamilyTrans(s, t, u);
            SameFamilyTrans(s, u, CloseFile(u, w));
          case Some(wfd) =>
            StoreOk(t, multiset{w}, s.cur, wfd, w);
            SameFamilyTrans(s, t, SetFd(t, s.cur, wfd, Some(w)));
        }
    }
  }

  /** pipe2's opens, with the ends that could be allocated pending. */
  lemma PipeEndsOk(s: State, ino: nat, r: Option<nat>, w: Option<nat>)
    requires FilesOk(s, multiset{}) && ino < |s.inodes|
    requires r.Some? ==> r.value !in s.files
    requires w.Some? ==> w.value !in s.files && r != w
    ensures FilesOk(PipeEnds(s, ino, r, w), Pending(r) + Pending(w))
    ensures SameFamily(s, PipeEnds(s, ino, r, w)) && PipeEnds(s, ino, r, w).procs == s.procs
  {
    hide Tabled, Counted, EndsCounted, PipeWaits, Account;
    var t := if r.Some? then OpenFile(s, r.value, ino, 0) else s;
    if r.Some? {
      OpenFileOk(s, multiset{}, r.value, ino, 0);
      assert multiset{} + multiset{r.value} == Pending(r);
    }
    assert FilesOk(t, Pending(r)) && SameFamily(s, t);
    if w.Some? {
      OpenFileOk(t, Pending(r), w.value, ino, 1);
      SameFamilyTrans(s, t, OpenFile(t, w.value, ino, 1));
    } else {
      assert Pending(r) + Pending(w) == Pending(r);
    }
  }

  function Pending(id: Option<nat>): multiset<nat> {
    if id.Some? then multiset{id.value} else multiset{}
  }

  lemma Pipe2Step(s: State, inodeOk: bool, r: Option<nat>, w: Option<nat>)
    requires Inv(s) && (r.Some? ==> r.value !in s.files) && (w.Some? ==> w.value !in s.files && r != w)
    ensures FdStep(s, Pipe2(s, inodeOk, r, w).s)
  {
    if inodeOk {
      var ino := |s.inodes|;
      var s0 := s.(inodes := s.inodes + [Pipe([], 0, 0)]);
      NewPipeOk(s);
      PipeEndsOk(s0, ino, r, w);
      FailedEndsClosed(s, s0, r, w);
    }
  }

  lemma FailedEndsClosed(s: State, s0: State, r: Option<nat>, w: Option<nat>)
    requires s0 == s.(inodes := s.inodes + [Pipe([], 0, 0)]) && Shaped(s)
    requires FilesOk(PipeEnds(s0, |s.inodes|, r, w), Pending(r) + Pending(w))
    requires SameFamily(s0, PipeEnds(s0, |s.inodes|, r, w)) && PipeEnds(s0, |s.inodes|, r, w).procs == s.procs
    requires r.Some? ==> r != w
    ensures FdStep(s, Pipe2(s, true, r, w).s)
  {
    hide Tabled, Counted, EndsCounted, PipeWaits, CloseFile, PipeEnds, Install;
    var s1 := PipeEnds(s0, |s.inodes|, r, w);
    if r.Some? && w.Some? {
      assert Pending(r) + Pending(w) == multiset{r.value, w.value};
      InstallStep(s1, r.value, w.value);
      SameFamilyTrans(s, s1, Install(s1, r.value, w.value).s);
    } else if r.Some? {
      CloseLone(s1, r.value, Pending(r) + Pending(w));
      SameFamilyTrans(s, s1, CloseFile(s1, r.value));
    } else if w.Some? {
      CloseLone(s1, w.value, Pending(r) + Pending(w));
      SameFamilyTrans(s, s1, CloseFile(s1, w.value));
    } else {
      assert Pending(r) + Pending(w) == multiset{};
    }
  }

  lemma CloseLone(s: State, id: nat, pending: multiset<nat>)
    requires pending == multiset{id} && FilesOk(s, pending)
    ensures FilesOk(CloseFile(s, id), multiset{}) && SameFamily(s, CloseFile(s, id))
    ensures forall i :: 0 <= i < NPROC ==> CloseFile(s, id).procs[i].fds == s.procs[i].fds
  {
    hide Tabled, Counted, EndsCounted, PipeWaits, CloseFile;
    assert pending - multiset{id} == multiset{};
    CloseFileOk(s, pending, id);
  }

  lemma ReadNowStep(s: State, fd: int, n: nat)
    requires Inv(s)
    ensures FdStep(s, ReadNow(s, fd, n).s)
  {
    hide Family, Sched, ChildWaits, DeadEmpty, Refs, End;
  }

  /** A write that adds bytes wakes everybody who sleeps on the pipe. */
  lemma WriteStep(s: State, fd: int, bytes: seq<int>)
    requires Inv(s)
    ensures FdStep(s, Write(s, fd, bytes).s)
  {
    hide Family, Sched, ChildWaits, DeadEmpty, Refs, End;
    var t := Write(s, fd, bytes).s;
    forall f | f in s.files
      ensures Refs(t.procs, Some(f)) == Refs(s.procs, Some(f))
    {
      RefsFrame(s.procs, t.procs, Some(f));
    }
  }

  /** F_SETFL with the access mode it already has. */
  predicate KeepsAccess(s: State, fd: int, flags: nat)
    requires Shaped(s)
  {
    FdGet(s, fd).Some? && FdGet(s, fd).value in s.files ==>
      flags % 4 == s.files[FdGet(s, fd).value].flags % 4
  }

  lemma SetFlagsStep(s: State, fd: int, flags: nat)
    requires Inv(s) && KeepsAccess(s, fd, flags)
    ensures FdStep(s, SetFlags(s, fd, flags).s)
  {
    hide Family, Sched, ChildWaits, DeadEmpty, Refs;
    var t := SetFlags(s, fd, flags).s;
    forall k, w: bool | 0 <= k < |s.inodes|
      ensures End(t.files, k, w) == End(s.files, k, w)
    {
    }
  }
}
