/** The code of kernel/kernel/proc.c, kernel/fs/file.c and the pipe and descriptor calls of
    kernel/fs/fs_syscall.c, changing the kernel's tables in place. Each method leaves the state
    that the function of KernelState computes from the state before. */
module KernelCode {
  import opened Options
  import opened KernelState
  import opened KernelLaws

  class Kernel {
    var procs: seq<Proc>
    var cur: nat
    var nextPid: nat
    var files: map<nat, File>
    var inodes: seq<Inode>
    var halted: bool

    ghost function St(): State
      reads this
    {
      State(procs, cur, nextPid, files, inodes, halted)
    }

    ghost predicate Ok()
      reads this
    {
      Shaped(St())
    }

    // ---- kernel/kernel/proc.c -----------------------------------------------------

    method PickNextProc() returns (r: Option<nat>)
      requires Ok()
      ensures r == PickNext(procs, cur)
    {
      var k := 1;
      while k <= NPROC
        invariant 1 <= k <= NPROC + 1
        invariant PickNext(procs, cur) == PickFrom(procs, cur, k)
      {
        var i := (cur + k) % NPROC;
        if procs[i].state.Runnable? {
          return Some(i);
        }
        k := k + 1;
      }
      if procs[cur].state.Runnable? || procs[cur].state.Running? {
        return Some(cur);
      }
      return None;
    }

    method SwitchToProc(n: nat)
      requires Ok() && n < NPROC
      modifies this
      ensures St() == SwitchTo(old(St()), n)
    {
      cur := n;
      procs := procs[n := procs[n].(state := Running)];
    }

    method ProcWakeup(c: Chan)
      requires Ok()
      modifies this`procs
      ensures procs == Wake(old(procs), c)
      ensures Ok()
    {
      ghost var before := procs;
      for i := 0 to NPROC
        invariant |procs| == NPROC
        invariant forall j :: 0 <= j < NPROC ==> procs[j] == if j < i then WakeOne(before[j], c) else before[j]
      {
        var p := procs[i];
        if p.state.Blocked? && p.chan == c {
          procs := procs[i := p.(chan := NoChan, state := Runnable)];
        }
      }
      assert procs == Wake(before, c);
    }

    method ProcSleep(c: Chan) returns (slept: bool)
      requires Ok()
      modifies this
      ensures slept == Sleep(old(St()), c).Some?
      ensures St() == if slept then Sleep(old(St()), c).value else old(St())
    {
      var nx := PickNextProc();
      if nx.None? || nx.value == cur {
        return false;
      }
      procs := procs[cur := procs[cur].(chan := c, state := Blocked)];
      SwitchToProc(nx.value);
      return true;
    }

    method ProcPreempt() returns (ret: int)
      requires Ok()
      modifies this
      ensures St() == Preempt(old(St())).s && ret == Preempt(old(St())).ret
    {
      ret := 0;
      var nx := PickNextProc();
      if nx.None? || nx.value == cur {
        return;
      }
      procs := procs[cur := procs[cur].(state := Runnable)];
      SwitchToProc(nx.value);
    }

    method AllocSlot() returns (c: Option<nat>)
      requires Ok()
      ensures c == FirstUnused(procs, 0)
    {
      var i := 0;
      while i < NPROC
        invariant 0 <= i <= NPROC
        invariant FirstUnused(procs, 0) == FirstUnused(procs, i)
      {
        if procs[i].state.Unused? {
          return Some(i);
        }
        i := i + 1;
      }
      return None;
    }

    /** fdtable_copy: every shared description gets one reference more. */
    method FdTableCopy(fds: seq<Option<nat>>)
      requires |fds| == NOFILE
      modifies this`files
      ensures files == BumpAll(old(files), fds, NOFILE)
    {
      for i := 0 to NOFILE
        invariant files == BumpAll(old(files), fds, i)
      {
        if fds[i].Some? && fds[i].value in files {
          var id := fds[i].value;
          files := files[id := files[id].(refcnt := files[id].refcnt + 1)];
        }
      }
    }

    method DoFork(vmOk: bool) returns (ret: int)
      requires Ok()
      modifies this
      ensures St() == Fork(old(St()), vmOk).s && ret == Fork(old(St()), vmOk).ret
    {
      var slot := AllocSlot();
      if slot.None? {
        return EAGAIN;
      }
      var c := slot.value;
      var pid := nextPid;
      procs := procs[c := procs[c].(state := Embryo, pid := nextPid, parent := None, exitCode := 0, killedSig := 0, chan := NoChan)];
      nextPid := nextPid + 1;
      if !vmOk {
        procs := procs[c := procs[c].(state := Unused)];
        assert procs == Fork(old(St()), vmOk).s.procs;
        return ENOMEM;
      }
      var fds := procs[cur].fds;
      procs := procs[c := procs[c].(parent := Some(cur), fds := fds)];
      FdTableCopy(fds);
      procs := procs[c := procs[c].(state := Runnable)];
      assert procs == Fork(old(St()), vmOk).s.procs;
      return pid;
    }

    // ---- kernel/fs/file.c ------------------------------------------------------------

    /** pipe_open_account */
    method PipeOpenAccount(f: File, delta: int)
      requires Ok() && f.inode < |inodes|
      modifies this`inodes, this`procs
      ensures Ok() && inodes == Account(old(inodes), f, delta)
      ensures procs == if delta < 0 && inodes[f.inode].Pipe? && (inodes[f.inode].wrOpen == 0 || inodes[f.inode].rdOpen == 0)
                       then Wake(old(procs), OnInode(f.inode)) else old(procs)
    {
      match inodes[f.inode]
      case NonPipe =>
      case Pipe(data, rd, wr) =>
        var acc := f.flags % 4;
        if acc == 0 {
          rd := rd + delta;
        } else if acc == 1 {
          wr := wr + delta;
        } else {
          rd := rd + delta;
          wr := wr + delta;
        }
        inodes := inodes[f.inode := Pipe(data, rd, wr)];
        if delta < 0 && (wr == 0 || rd == 0) {
          ProcWakeup(OnInode(f.inode));
        }
    }

    method FileOpenInode(id: nat, ino: nat, flags: nat)
      requires Ok() && ino < |inodes|
      modifies this`files, this`inodes, this`procs
      ensures St() == OpenFile(old(St()), id, ino, flags) && Ok()
    {
      PipeOpenAccount(File(ino, flags, 1), 1);
      files := files[id := File(ino, flags, 1)];
    }

    method FileDup(id: nat)
      requires Ok()
      modifies this`files
      ensures St() == Bump(old(St()), id) && Ok()
    {
      if id in files {
        files := files[id := files[id].(refcnt := files[id].refcnt + 1)];
      }
    }

    method FileClose(id: nat)
      requires Ok()
      modifies this`files, this`inodes, this`procs
      ensures St() == CloseFile(old(St()), id) && Ok()
    {
      if id !in files {
        return;
      }
      var f := files[id];
      if f.refcnt - 1 <= 0 {
        PipeOpenAccount(f, -1);
        files := files - {id};
      } else {
        files := files[id := f.(refcnt := f.refcnt - 1)];
      }
    }

    method StoreFd(slot: nat, fd: nat, v: Option<nat>)
      requires Ok() && slot < NPROC && fd < NOFILE
      modifies this`procs
      ensures St() == SetFd(old(St()), slot, fd, v) && Ok()
    {
      procs := procs[slot := procs[slot].(fds := procs[slot].fds[fd := v])];
    }

    /** fd_alloc_from on the current process. */
    method FdAllocFrom(id: nat, min: int) returns (fd: Option<nat>)
      requires Ok()
      modifies this`procs
      ensures fd == FirstFree(old(procs)[cur].fds, if min < 0 then 0 else min) && Ok()
      ensures St() == if fd.Some? then SetFd(old(St()), cur, fd.value, Some(id)) else old(St())
    {
      var start := if min < 0 then 0 else min;
      var i := start;
      while i < NOFILE
        invariant start <= i && (i <= NOFILE || i == start)
        invariant FirstFree(procs[cur].fds, start) == FirstFree(procs[cur].fds, i)
        invariant St() == old(St())
      {
        if procs[cur].fds[i].None? {
          fd := Some(i);
          StoreFd(cur, i, Some(id));
          return;
        }
        i := i + 1;
      }
      fd := None;
    }

    method FdCloseAt(slot: nat, fd: nat)
      requires Ok() && slot < NPROC && fd < NOFILE
      modifies this`files, this`inodes, this`procs
      ensures St() == CloseFd(old(St()), slot, fd) && Ok()
    {
      if procs[slot].fds[fd].Some? {
        FileClose(procs[slot].fds[fd].value);
        StoreFd(slot, fd, None);
      }
    }

    method FdTableCloseAll(slot: nat)
      requires Ok() && slot < NPROC
      modifies this`files, this`inodes, this`procs
      ensures St() == CloseFrom(old(St()), slot, 0) && Ok()
    {
      var i := 0;
      while i < NOFILE
        invariant 0 <= i <= NOFILE && Ok()
        invariant CloseFrom(old(St()), slot, 0) == CloseFrom(St(), slot, i)
        invariant cur == old(cur) && nextPid == old(nextPid) && halted == old(halted)
      {
        FdCloseAt(slot, i);
        i := i + 1;
      }
    }

    // ---- exit and wait -----------------------------------------------------------------

    method FindInitProc() returns (r: Option<nat>)
      requires Ok()
      ensures r == FindInit(procs, 0)
    {
      var i := 0;
      while i < NPROC
        invariant 0 <= i <= NPROC
        invariant FindInit(procs, 0) == FindInit(procs, i)
      {
        if procs[i].pid == 1 && !procs[i].state.Unused? {
          return Some(i);
        }
        i := i + 1;
      }
      return None;
    }

    /** The children of the current process get a new parent, which is woken for each zombie. */
    method ReparentChildren(heir: nat)
      requires Ok() && heir < NPROC && heir != cur
      modifies this`procs
      ensures Ok()
      ensures procs == if OrphanZombie(old(procs), cur) then Wake(Reparent(old(procs), cur, heir), OnProc(heir))
                       else Reparent(old(procs), cur, heir)
    {
      ghost var before := procs;
      ghost var woken := false;
      for i := 0 to NPROC
        invariant |procs| == NPROC && Ok()
        invariant woken <==> exists j :: 0 <= j < i && j != cur && before[j].state.Zombie? && before[j].parent == Some(cur)
        invariant forall j :: 0 <= j < NPROC ==> procs[j] == HandedOver(before[j], j, cur, heir, i, woken)
      {
        var c := procs[i];
        assert c == HandedOver(before[i], i, cur, heir, i, woken);
        if i != cur && !c.state.Unused? && c.parent == Some(cur) {
          procs := procs[i := c.(parent := Some(heir))];
          if c.state.Zombie? {
            ProcWakeup(OnProc(heir));
            woken := true;
          }
        }
      }
      assert woken == OrphanZombie(before, cur);
      var r := Reparent(before, cur, heir);
      assert procs == if woken then Wake(r, OnProc(heir)) else r;
    }

    /** The middle of reap_current_and_switch: the children are handed over and the parent is woken. */
    method BuryCurrent()
      requires Ok()
      modifies this`procs
      ensures Ok() && St() == Bury(old(St()))
    {
      hide OrphanZombie, Reparent, Wake;
      var heir := FindInitProc();
      if heir.Some? && heir.value != cur {
        ReparentChildren(heir.value);
      }
      if procs[cur].parent.Some? {
        ProcWakeup(OnProc(procs[cur].parent.value));
      }
    }

    method ReapCurrentAndSwitch(code: int, sig: int)
      requires Ok()
      modifies this
      ensures St() == Die(old(St()), code, sig).s
    {
      hide CloseFrom, Bury, PickNext;
      procs := procs[cur := procs[cur].(exitCode := code, killedSig := sig, state := Zombie)];
      FdTableCloseAll(cur);
      BuryCurrent();
      var nx := PickNextProc();
      if nx.None? {
        halted := true;
      } else {
        SwitchToProc(nx.value);
      }
    }

    /** proc_wait; st is the status word written to the caller, if one is. */
    method ProcWait() returns (ret: int, st: Option<int>)
      requires Ok()
      modifies this
      ensures St() == Wait(old(St())).s && ret == Wait(old(St())).ret
      ensures st.Some? ==> ret >= 0 && Wait(old(St())).event == Reaped(ret, st.value)
      ensures st.None? ==> Wait(old(St())).event == Quiet
      ensures st.Some? ==> exists c :: 0 <= c < NPROC && Told(old(procs)[c], old(cur), ret, st.value)
    {
      var i := 0;
      while i < NPROC
        invariant 0 <= i <= NPROC && St() == old(St())
        invariant ZombieChild(procs, cur, 0) == ZombieChild(procs, cur, i)
      {
        var c := procs[i];
        if c.state.Zombie? && c.parent == Some(cur) {
          var word := if c.killedSig != 0 then c.killedSig % 128 else (c.exitCode % 256) * 256;
          StatusTells(c.exitCode, c.killedSig);
          procs := procs[i := c.(state := Unused)];
          return c.pid, Some(word);
        }
        i := i + 1;
      }
      var have := false;
      i := 0;
      while i < NPROC && !have
        invariant 0 <= i <= NPROC && St() == old(St())
        invariant have <==> exists j :: 0 <= j < i && procs[j].parent == Some(cur) && !procs[j].state.Unused?
      {
        have := procs[i].parent == Some(cur) && !procs[i].state.Unused?;
        i := i + 1;
      }
      assert have == HasChild(procs, cur);
      if have {
        var slept := ProcSleep(OnProc(cur));
        if slept {
          return 0, None;
        }
      }
      return ECHILD, None;
    }

    // ---- kernel/fs/fs_syscall.c ------------------------------------------------------------

    method FdLookup(fd: int) returns (r: Option<nat>)
      requires Ok()
      ensures r == FdGet(St(), fd)
    {
      if fd < 0 || fd >= NOFILE {
        return None;
      }
      return procs[cur].fds[fd];
    }

    method ReadWouldBlock(fd: int, n: nat) returns (r: Option<nat>)
      requires Ok()
      ensures r == ReadBlockChan(St(), fd, n)
    {
      if n == 0 {
        return None;
      }
      var id := FdLookup(fd);
      if id.None? || id.value !in files {
        return None;
      }
      var f := files[id.value];
      if inodes[f.inode].NonPipe? || f.flags / O_NONBLOCK % 2 != 0 {
        return None;
      }
      if inodes[f.inode].data == [] && inodes[f.inode].wrOpen > 0 {
        return Some(f.inode);
      }
      return None;
    }

    /** The dispatcher's read: sleep if it would block and somebody else can run, else read. */
    method SysRead(fd: int, n: nat) returns (ret: int, bytes: seq<int>)
      requires Ok()
      modifies this
      ensures St() == Read(old(St()), fd, n).s && ret == Read(old(St()), fd, n).ret
      ensures Read(old(St()), fd, n).event.PipeOut? ==> bytes == Read(old(St()), fd, n).event.bytes
    {
      bytes := [];
      var c := ReadWouldBlock(fd, n);
      if c.Some? {
        var slept := ProcSleep(OnInode(c.value));
        if slept {
          return 0, [];
        }
      }
      var id := FdLookup(fd);
      if id.None? {
        return EBADF, [];
      }
      if id.value !in files || inodes[files[id.value].inode].NonPipe? {
        return 0, [];
      }
      var ino := files[id.value].inode;
      var p := inodes[ino];
      var k := if n <= |p.data| then n else |p.data|;
      bytes := p.data[..k];
      inodes := inodes[ino := p.(data := p.data[k..])];
      ret := k;
    }

    method SysWrite(fd: int, bytes: seq<int>) returns (ret: int)
      requires Ok()
      modifies this
      ensures St() == Write(old(St()), fd, bytes).s && ret == Write(old(St()), fd, bytes).ret
    {
      var id := FdLookup(fd);
      if id.None? {
        return EBADF;
      }
      if id.value !in files || inodes[files[id.value].inode].NonPipe? {
        return |bytes|;
      }
      var ino := files[id.value].inode;
      var p := inodes[ino];
      if p.rdOpen == 0 {
        return EPIPE;
      }
      var room := if |p.data| <= PIPE_CAP then PIPE_CAP - |p.data| else 0;
      var k := if |bytes| <= room then |bytes| else room;
      inodes := inodes[ino := p.(data := p.data + bytes[..k])];
      if k > 0 {
        ProcWakeup(OnInode(ino));
      }
      return k;
    }

    method SysClose(fd: int) returns (ret: int)
      requires Ok()
      modifies this
      ensures St() == Close(old(St()), fd).s && ret == Close(old(St()), fd).ret
    {
      var id := FdLookup(fd);
      if id.None? {
        return EBADF;
      }
      FdCloseAt(cur, fd);
      return 0;
    }

    /** dup, and F_DUPFD with its lower bound. */
    method SysDup(fd: int, min: int) returns (ret: int)
      requires Ok()
      modifies this
      ensures St() == DupFrom(old(St()), fd, min).s && ret == DupFrom(old(St()), fd, min).ret
    {
      var f := FdLookup(fd);
      if f.None? {
        return EBADF;
      }
      FileDup(f.value);
      var nfd := FdAllocFrom(f.value, min);
      if nfd.None? {
        FileClose(f.value);
        return EMFILE;
      }
      return nfd.value;
    }

    method SysDup2(oldfd: int, newfd: int) returns (ret: int)
      requires Ok()
      modifies this
      ensures St() == Dup2(old(St()), oldfd, newfd).s && ret == Dup2(old(St()), oldfd, newfd).ret
    {
      var f := FdLookup(oldfd);
      if f.None? {
        return EBADF;
      }
      if oldfd == newfd {
        return newfd;
      }
      if newfd < 0 || newfd >= NOFILE {
        return EBADF;
      }
      FileDup(f.value);
      FdCloseAt(cur, newfd);
      StoreFd(cur, newfd, f);
      return newfd;
    }

    method SysOpen(ino: nat, flags: nat, id: Option<nat>) returns (ret: int)
      requires Ok() && ino < |inodes|
      modifies this
      ensures St() == Open(old(St()), ino, flags, id).s && ret == Open(old(St()), ino, flags, id).ret
    {
      if id.None? {
        return ENOMEM;
      }
      FileOpenInode(id.value, ino, flags);
      var fd := FdAllocFrom(id.value, 0);
      if fd.None? {
        FileClose(id.value);
        return EMFILE;
      }
      return fd.value;
    }

    /** sys_pipe2; fds are the two words written to the caller. */
    method SysPipe2(inodeOk: bool, r: Option<nat>, w: Option<nat>) returns (ret: int, fds: seq<int>)
      requires Ok()
      modifies this
      ensures St() == Pipe2(old(St()), inodeOk, r, w).s && ret == Pipe2(old(St()), inodeOk, r, w).ret
      ensures ret == 0 && r.value !in old(files) && w.value !in old(files) && r != w ==>
        |fds| == 2 && Ok() && PipeMade(old(St()), St(), fds[0], fds[1], r.value, w.value)
    {
      fds := [];
      if !inodeOk {
        return ENOMEM, [];
      }
      var ino := |inodes|;
      inodes := inodes + [Pipe([], 0, 0)];
      if r.Some? {
        FileOpenInode(r.value, ino, 0);
      }
      if w.Some? {
        FileOpenInode(w.value, ino, 1);
      }
      if r.None? || w.None? {
        if r.Some? {
          FileClose(r.value);
        }
        if w.Some? {
          FileClose(w.value);
        }
        return ENOMEM, [];
      }
      ghost var t := St();
      ret, fds := InstallPipe(r.value, w.value);
      if ret == 0 && r.value !in old(files) && w.value !in old(files) && r != w {
        EndsMade(old(St()), r.value, w.value);
        Installed(old(St()), t, r.value, w.value, fds[0], fds[1]);
      }
    }

    method InstallPipe(r: nat, w: nat) returns (ret: int, fds: seq<int>)
      requires Ok()
      modifies this
      ensures St() == Install(old(St()), r, w).s && ret == Install(old(St()), r, w).ret
      ensures ret == 0 ==> |fds| == 2 && 0 <= fds[0] < NOFILE && 0 <= fds[1] < NOFILE && FirstFree(old(procs[cur].fds), 0) == Some(fds[0])
      ensures ret == 0 ==> var u := SetFd(old(St()), old(cur), fds[0], Some(r));
        FirstFree(u.procs[old(cur)].fds, 0) == Some(fds[1]) && St() == SetFd(u, old(cur), fds[1], Some(w))
    {
      var rfd := FdAllocFrom(r, 0);
      var wfd := FdAllocFrom(w, 0);
      if rfd.None? || wfd.None? {
        if rfd.Some? {
          FdCloseAt(cur, rfd.value);
        } else {
          FileClose(r);
        }
        // The first search failing makes the second fail, so the write end never has a descriptor here.
        assert wfd.None?;
        FileClose(w);
        return EMFILE, [];
      }
      return 0, [rfd.value, wfd.value];
    }

    method SysSetFlags(fd: int, flags: nat) returns (ret: int)
      requires Ok()
      modifies this
      ensures St() == SetFlags(old(St()), fd, flags).s && ret == SetFlags(old(St()), fd, flags).ret
    {
      var id := FdLookup(fd);
      if id.None? {
        return EBADF;
      }
      if id.value in files {
        files := files[id.value := files[id.value].(flags := flags)];
      }
      return 0;
    }
  }

  /** One process while ReparentChildren is at slot i. */
  function HandedOver(p: Proc, j: nat, dead: nat, heir: nat, i: nat, woken: bool): Proc {
    var q := if j < i && j != dead then ReparentOne(p, dead, heir) else p;
    if woken then WakeOne(q, OnProc(heir)) else q
  }
}
