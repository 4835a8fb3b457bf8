/** The process table, open-file descriptions, descriptor tables and pipes of the kernel
    (kernel/kernel/proc.c, kernel/fs/file.c, kernel/fs/fs_syscall.c) as one value, and each
    system call, fault and timer tick as a function on it. */
module KernelState {
  import opened Options

  const NPROC: nat := 8
  const NOFILE: nat := 16
  const PIPE_CAP: nat := 4096
  const O_NONBLOCK: nat := 2048

  const EBADF: int := -9
  const ECHILD: int := -10
  const EAGAIN: int := -11
  const ENOMEM: int := -12
  const EMFILE: int := -24
  const EPIPE: int := -32

  datatype PState = Unused | Embryo | Runnable | Running | Blocked | Zombie

  /** A wait channel: a process's own PCB, or a pipe inode. */
  datatype Chan = NoChan | OnProc(slot: nat) | OnInode(ino: nat)

  datatype Proc = Proc(
    pid: nat, state: PState, parent: Option<nat>, exitCode: int, killedSig: int,
    chan: Chan, fds: seq<Option<nat>>)

  /** An open-file description; `flags` holds the access mode in its two low bits. */
  datatype File = File(inode: nat, flags: nat, refcnt: int)

  datatype Inode = NonPipe | Pipe(data: seq<int>, rdOpen: int, wrOpen: int)

  datatype State = State(
    procs: seq<Proc>, cur: nat, nextPid: nat, files: map<nat, File>, inodes: seq<Inode>, halted: bool)

  /** The shape every state has. */
  predicate Shaped(s: State) {
    && |s.procs| == NPROC && s.cur < NPROC
    && (forall i :: 0 <= i < NPROC ==> |s.procs[i].fds| == NOFILE)
    && (forall f :: f in s.files ==> s.files[f].inode < |s.inodes|)
  }

  // ---- sleep, wakeup, scheduling ---------------------------------------------------

  function WakeOne(p: Proc, c: Chan): Proc {
    if p.state.Blocked? && p.chan == c then p.(state := Runnable, chan := NoChan) else p
  }

  /** proc_wakeup */
  function Wake(procs: seq<Proc>, c: Chan): (r: seq<Proc>)
    ensures |r| == |procs|
    ensures forall i :: 0 <= i < |r| ==> r[i] == WakeOne(procs[i], c)
  {
    seq(|procs|, i requires 0 <= i < |procs| => WakeOne(procs[i], c))
  }

  /** pick_next from the k-th slot after cur on. */
  function PickFrom(procs: seq<Proc>, cur: nat, k: nat): (r: Option<nat>)
    requires |procs| == NPROC && cur < NPROC && 1 <= k
    ensures r.Some? ==> r.value < NPROC
    decreases NPROC + 1 - k
  {
    if k > NPROC then
      if procs[cur].state.Runnable? || procs[cur].state.Running? then Some(cur) else None
    else if procs[(cur + k) % NPROC].state.Runnable? then Some((cur + k) % NPROC)
    else PickFrom(procs, cur, k + 1)
  }

  function PickNext(procs: seq<Proc>, cur: nat): (r: Option<nat>)
    requires |procs| == NPROC && cur < NPROC
    ensures r.Some? ==> r.value < NPROC
  {
    PickFrom(procs, cur, 1)
  }

  function SwitchTo(s: State, n: nat): State
    requires n < |s.procs|
  {
    s.(cur := n, procs := s.procs[n := s.procs[n].(state := Running)])
  }

  /** proc_sleep; None when nobody else can run, and then nothing changes. */
  function Sleep(s: State, c: Chan): Option<State>
    requires Shaped(s)
  {
    match PickNext(s.procs, s.cur)
    case None => None
    case Some(n) =>
      if n == s.cur then None
      else Some(SwitchTo(s.(procs := s.procs[s.cur := s.procs[s.cur].(chan := c, state := Blocked)]), n))
  }

  // ---- open-file descriptions --------------------------------------------------------

  predicate Reads(f: File) { f.flags % 4 != 1 }
  predicate Writes(f: File) { f.flags % 4 != 0 }

  /** pipe_open_account, without its wakeup. */
  function Account(inodes: seq<Inode>, f: File, d: int): (r: seq<Inode>)
    requires f.inode < |inodes|
    ensures |r| == |inodes|
  {
    match inodes[f.inode]
    case NonPipe => inodes
    case Pipe(data, rd, wr) =>
      inodes[f.inode := Pipe(data, rd + (if Reads(f) then d else 0), wr + (if Writes(f) then d else 0))]
  }

  /** file_open_inode, with the address the allocator returned. */
  function OpenFile(s: State, id: nat, ino: nat, flags: nat): State
    requires ino < |s.inodes|
  {
    s.(files := s.files[id := File(ino, flags, 1)], inodes := Account(s.inodes, File(ino, flags, 1), 1))
  }

  /** file_dup */
  function Bump(s: State, id: nat): State {
    if id in s.files then s.(files := s.files[id := s.files[id].(refcnt := s.files[id].refcnt + 1)]) else s
  }

  /** The last reference is gone: account, wake who waits on the pipe, free. */
  function FreeFile(s: State, id: nat): State
    requires id in s.files && s.files[id].inode < |s.inodes|
  {
    var f := s.files[id];
    var inodes := Account(s.inodes, f, -1);
    var n := inodes[f.inode];
    s.(files := s.files - {id}, inodes := inodes,
       procs := if n.Pipe? && (n.wrOpen == 0 || n.rdOpen == 0) then Wake(s.procs, OnInode(f.inode)) else s.procs)
  }

  /** file_close */
  function CloseFile(s: State, id: nat): State
    requires Shaped(s)
  {
    if id !in s.files then s
    else if s.files[id].refcnt > 1 then
      s.(files := s.files[id := s.files[id].(refcnt := s.files[id].refcnt - 1)])
    else FreeFile(s, id)
  }

  // ---- descriptor tables ------------------------------------------------------------

  function SetFd(s: State, slot: nat, fd: nat, v: Option<nat>): State
    requires slot < |s.procs| && fd < |s.procs[slot].fds|
  {
    s.(procs := s.procs[slot := s.procs[slot].(fds := s.procs[slot].fds[fd := v])])
  }

  /** fd_alloc_from's search. */
  function FirstFree(fds: seq<Option<nat>>, k: nat): (r: Option<nat>)
    ensures r.Some? ==> k <= r.value < |fds| && fds[r.value].None? && forall i :: k <= i < r.value ==> fds[i].Some?
    ensures r.None? ==> forall i :: k <= i < |fds| ==> fds[i].Some?
    decreases |fds| - k
  {
    if k >= |fds| then None else if fds[k].None? then Some(k) else FirstFree(fds, k + 1)
  }

  /** fd_get on the current process. */
  function FdGet(s: State, fd: int): Option<nat>
    requires Shaped(s)
  {
    if 0 <= fd < NOFILE then s.procs[s.cur].fds[fd] else None
  }

  /** file_close of one slot's file, then the slot is cleared. */
  function CloseFd(s: State, slot: nat, fd: nat): (r: State)
    requires Shaped(s) && slot < NPROC && fd < NOFILE
    ensures Shaped(r)
  {
    match s.procs[slot].fds[fd]
    case None => s
    case Some(id) => SetFd(CloseFile(s, id), slot, fd, None)
  }

  /** fdtable_closeall from slot k on. */
  function CloseFrom(s: State, slot: nat, k: nat): (r: State)
    requires Shaped(s) && slot < NPROC && k <= NOFILE
    ensures Shaped(r)
    decreases NOFILE - k
  {
    if k == NOFILE then s else CloseFrom(CloseFd(s, slot, k), slot, k + 1)
  }

  /** The reference counts after fdtable_copy has shared the first k slots. */
  function BumpAll(files: map<nat, File>, fds: seq<Option<nat>>, k: nat): (r: map<nat, File>)
    requires k <= |fds|
    ensures r.Keys == files.Keys
  {
    if k == 0 then files
    else
      var m := BumpAll(files, fds, k - 1);
      match fds[k - 1]
      case None => m
      case Some(id) => if id in m then m[id := m[id].(refcnt := m[id].refcnt + 1)] else m
  }

  // ---- processes --------------------------------------------------------------------

  /** What a step tells the outside: births, deaths, harvests and pipe traffic. */
  datatype Event =
    | Quiet
    | Forked(pid: nat)
    | Died(pid: nat, code: int, sig: int)
    | Reaped(pid: nat, status: int)
    | PipeIn(ino: nat, bytes: seq<int>)
    | PipeOut(ino: nat, bytes: seq<int>)

  /** The new state, the value left in r0 (0 where the call has not returned) and the event. */
  datatype Result = Result(s: State, ret: int, event: Event)

  function FirstUnused(procs: seq<Proc>, k: nat): (r: Option<nat>)
    requires k <= |procs|
    ensures r.Some? ==> k <= r.value < |procs| && procs[r.value].state.Unused?
    ensures r.None? ==> forall i :: k <= i < |procs| ==> !procs[i].state.Unused?
    decreases |procs| - k
  {
    if k == |procs| then None else if procs[k].state.Unused? then Some(k) else FirstUnused(procs, k + 1)
  }

  /** do_fork; vmOk says whether the address space could be created and copied. */
  function Fork(s: State, vmOk: bool): Result
    requires Shaped(s)
  {
    match FirstUnused(s.procs, 0)
    case None => Result(s, EAGAIN, Quiet)
    case Some(c) =>
      var embryo := s.procs[c].(pid := s.nextPid, parent := None, exitCode := 0, killedSig := 0, chan := NoChan);
      if !vmOk then Result(s.(nextPid := s.nextPid + 1, procs := s.procs[c := embryo]), ENOMEM, Quiet)
      else
        var fds := s.procs[s.cur].fds;
        var child := embryo.(state := Runnable, parent := Some(s.cur), fds := fds);
        Result(s.(nextPid := s.nextPid + 1, procs := s.procs[c := child], files := BumpAll(s.files, fds, NOFILE)),
               s.nextPid, Forked(s.nextPid))
  }

  function FindInit(procs: seq<Proc>, k: nat): (r: Option<nat>)
    requires k <= |procs|
    ensures r.Some? ==> r.value < |procs|
    decreases |procs| - k
  {
    if k == |procs| then None
    else if procs[k].pid == 1 && !procs[k].state.Unused? then Some(k)
    else FindInit(procs, k + 1)
  }

  function ReparentOne(p: Proc, dead: nat, heir: nat): Proc {
    if !p.state.Unused? && p.parent == Some(dead) then p.(parent := Some(heir)) else p
  }

  function Reparent(procs: seq<Proc>, dead: nat, heir: nat): (r: seq<Proc>)
    ensures |r| == |procs|
    ensures forall i :: 0 <= i < |r| ==> r[i] == if i == dead then procs[i] else ReparentOne(procs[i], dead, heir)
  {
    seq(|procs|, i requires 0 <= i < |procs| => if i == dead then procs[i] else ReparentOne(procs[i], dead, heir))
  }

  predicate OrphanZombie(procs: seq<Proc>, dead: nat) {
    exists i :: 0 <= i < |procs| && i != dead && procs[i].state.Zombie? && procs[i].parent == Some(dead)
  }

  function MarkDead(s: State, code: int, sig: int): State
    requires Shaped(s)
  {
    s.(procs := s.procs[s.cur := s.procs[s.cur].(exitCode := code, killedSig := sig, state := Zombie)])
  }

  /** The children of the dying process go to init, which is woken if one of them is a zombie. */
  function HandOver(procs: seq<Proc>, dead: nat): (r: seq<Proc>)
    ensures |r| == |procs|
  {
    match FindInit(procs, 0)
    case None => procs
    case Some(ini) =>
      if ini == dead then procs
      else if OrphanZombie(procs, dead) then Wake(Reparent(procs, dead, ini), OnProc(ini))
      else Reparent(procs, dead, ini)
  }

  function WakeParent(procs: seq<Proc>, dead: nat): (r: seq<Proc>)
    requires dead < |procs|
    ensures |r| == |procs|
  {
    if procs[dead].parent.Some? then Wake(procs, OnProc(procs[dead].parent.value)) else procs
  }

  /** Switch to the next process, or halt when there is none. */
  function Reschedule(s: State): State
    requires Shaped(s)
  {
    match PickNext(s.procs, s.cur)
    case None => s.(halted := true)
    case Some(n) => SwitchTo(s, n)
  }

  function Bury(s: State): (r: State)
    requires Shaped(s)
    ensures |r.procs| == |s.procs|
  {
    s.(procs := WakeParent(HandOver(s.procs, s.cur), s.cur))
  }

  /** reap_current_and_switch, for exit and for a fatal fault. */
  function Die(s: State, code: int, sig: int): Result
    requires Shaped(s)
  {
    var closed := CloseFrom(MarkDead(s, code, sig), s.cur, 0);
    CloseFromKeepsFds(MarkDead(s, code, sig), s.cur, 0);
    ShapedBury(closed);
    Result(Reschedule(Bury(closed)), 0, Died(s.procs[s.cur].pid, code, sig))
  }

  lemma CloseFromKeepsFds(s: State, slot: nat, k: nat)
    requires Shaped(s) && slot < NPROC && k <= NOFILE
    ensures CloseFrom(s, slot, k).cur == s.cur
    decreases NOFILE - k
  {
    if k < NOFILE {
      CloseFromKeepsFds(CloseFd(s, slot, k), slot, k + 1);
    }
  }

  lemma ShapedBury(s: State)
    requires Shaped(s)
    ensures Shaped(Bury(s))
  {
  }

  /** The wait status: the signal number, or the exit code's low byte in bits 15:8. */
  function WaitStatus(code: int, sig: int): int {
    if sig != 0 then sig % 128 else (code % 256) * 256
  }

  function ZombieChild(procs: seq<Proc>, parent: nat, k: nat): (r: Option<nat>)
    requires k <= |procs|
    ensures r.Some? ==> k <= r.value < |procs| && procs[r.value].state.Zombie? && procs[r.value].parent == Some(parent)
    ensures r.Some? ==> forall i :: k <= i < r.value ==> !(procs[i].state.Zombie? && procs[i].parent == Some(parent))
    ensures r.None? ==> forall i :: k <= i < |procs| ==> !(procs[i].state.Zombie? && procs[i].parent == Some(parent))
    decreases |procs| - k
  {
    if k == |procs| then None
    else if procs[k].state.Zombie? && procs[k].parent == Some(parent) then Some(k)
    else ZombieChild(procs, parent, k + 1)
  }

  predicate HasChild(procs: seq<Proc>, parent: nat) {
    exists i :: 0 <= i < |procs| && procs[i].parent == Some(parent) && !procs[i].state.Unused?
  }

  /** proc_wait */
  function Wait(s: State): Result
    requires Shaped(s)
  {
    match ZombieChild(s.procs, s.cur, 0)
    case Some(c) =>
      var z := s.procs[c];
      Result(s.(procs := s.procs[c := z.(state := Unused)]), z.pid, Reaped(z.pid, WaitStatus(z.exitCode, z.killedSig)))
    case None =>
      if HasChild(s.procs, s.cur) && Sleep(s, OnProc(s.cur)).Some? then
        Result(Sleep(s, OnProc(s.cur)).value, 0, Quiet)
      else Result(s, ECHILD, Quiet)
  }

  /** proc_preempt, for a tick that interrupted user mode. */
  function Preempt(s: State): Result
    requires Shaped(s)
  {
    match PickNext(s.procs, s.cur)
    case None => Result(s, 0, Quiet)
    case Some(n) =>
      if n == s.cur then Result(s, 0, Quiet)
      else Result(SwitchTo(s.(procs := s.procs[s.cur := s.procs[s.cur].(state := Runnable)]), n), 0, Quiet)
  }

  // ---- file system calls --------------------------------------------------------------

  /** read_block_chan: the pipe to sleep on, if the read would block. */
  function ReadBlockChan(s: State, fd: int, n: nat): (r: Option<nat>)
    requires Shaped(s)
    ensures r.Some? ==> r.value < |s.inodes| && s.inodes[r.value].Pipe?
    ensures r.Some? ==> s.inodes[r.value].data == [] && s.inodes[r.value].wrOpen > 0
  {
    if n == 0 then None
    else match FdGet(s, fd)
      case None => None
      case Some(id) =>
        if id !in s.files then None
        else
          var f := s.files[id];
          if s.inodes[f.inode].Pipe? && f.flags / O_NONBLOCK % 2 == 0
             && s.inodes[f.inode].data == [] && s.inodes[f.inode].wrOpen > 0
          then Some(f.inode) else None
  }

  /** ramfs_pipe_read: the oldest bytes, as many as wanted and there are. */
  function PipeRead(p: Inode, n: nat): (r: (Inode, seq<int>))
    requires p.Pipe?
  {
    var k := if n <= |p.data| then n else |p.data|;
    (p.(data := p.data[k..]), p.data[..k])
  }

  /** ramfs_pipe_write: refused without readers; else as many bytes as fit, behind the others. */
  function PipeWrite(p: Inode, bytes: seq<int>): (r: (Inode, int))
    requires p.Pipe?
  {
    if p.rdOpen == 0 then (p, EPIPE)
    else
      var room := if |p.data| <= PIPE_CAP then PIPE_CAP - |p.data| else 0;
      var k := if |bytes| <= room then |bytes| else room;
      (p.(data := p.data + bytes[..k]), k)
  }

  /** The pipe branch of sys_read; reads of other files change nothing modelled here. */
  function ReadNow(s: State, fd: int, n: nat): Result
    requires Shaped(s)
  {
    match FdGet(s, fd)
    case None => Result(s, EBADF, Quiet)
    case Some(id) =>
      if id !in s.files || s.inodes[s.files[id].inode].NonPipe? then Result(s, 0, Quiet)
      else
        var ino := s.files[id].inode;
        var r := PipeRead(s.inodes[ino], n);
        Result(s.(inodes := s.inodes[ino := r.0]), |r.1|, PipeOut(ino, r.1))
  }

  /** read(2): sleep on the pipe if the read would block and somebody else can run. */
  function Read(s: State, fd: int, n: nat): Result
    requires Shaped(s)
  {
    match ReadBlockChan(s, fd, n)
    case None => ReadNow(s, fd, n)
    case Some(ino) =>
      match Sleep(s, OnInode(ino))
      case Some(s') => Result(s', 0, Quiet)
      case None => ReadNow(s, fd, n)
  }

  /** The pipe branch of sys_write. */
  function Write(s: State, fd: int, bytes: seq<int>): Result
    requires Shaped(s)
  {
    match FdGet(s, fd)
    case None => Result(s, EBADF, Quiet)
    case Some(id) =>
      if id !in s.files || s.inodes[s.files[id].inode].NonPipe? then Result(s, |bytes|, Quiet)
      else
        var ino := s.files[id].inode;
        var r := PipeWrite(s.inodes[ino], bytes);
        if r.1 < 0 then Result(s, r.1, Quiet)
        else
          var s' := s.(inodes := s.inodes[ino := r.0]);
          Result(if r.1 > 0 then s'.(procs := Wake(s.procs, OnInode(ino))) else s', r.1, PipeIn(ino, bytes[..r.1]))
  }

  function Close(s: State, fd: int): Result
    requires Shaped(s)
  {
    if FdGet(s, fd).None? then Result(s, EBADF, Quiet)
    else Result(CloseFd(s, s.cur, fd), 0, Quiet)
  }

  /** dup and F_DUPFD: the lowest free slot at or above min. */
  function DupFrom(s: State, fd: int, min: int): Result
    requires Shaped(s)
  {
    match FdGet(s, fd)
    case None => Result(s, EBADF, Quiet)
    case Some(id) =>
      match FirstFree(s.procs[s.cur].fds, if min < 0 then 0 else min)
      case None => Result(CloseFile(Bump(s, id), id), EMFILE, Quiet)
      case Some(n) => Result(SetFd(Bump(s, id), s.cur, n, Some(id)), n, Quiet)
  }

  function Dup2(s: State, oldfd: int, newfd: int): Result
    requires Shaped(s)
  {
    match FdGet(s, oldfd)
    case None => Result(s, EBADF, Quiet)
    case Some(id) =>
      if oldfd == newfd then Result(s, newfd, Quiet)
      else if newfd < 0 || newfd >= NOFILE then Result(s, EBADF, Quiet)
      else Result(SetFd(CloseFd(Bump(s, id), s.cur, newfd), s.cur, newfd, Some(id)), newfd, Quiet)
  }

  /** open(2) of an existing inode; id is the address kzalloc returned, None when it failed. */
  function Open(s: State, ino: nat, flags: nat, id: Option<nat>): Result
    requires Shaped(s) && ino < |s.inodes|
  {
    match id
    case None => Result(s, ENOMEM, Quiet)
    case Some(f) =>
      var s1 := OpenFile(s, f, ino, flags);
      match FirstFree(s.procs[s.cur].fds, 0)
      case None => Result(CloseFile(s1, f), EMFILE, Quiet)
      case Some(n) => Result(SetFd(s1, s.cur, n, Some(f)), n, Quiet)
  }

  /** pipe2's two opens; either may fail to allocate. */
  function PipeEnds(s: State, ino: nat, r: Option<nat>, w: Option<nat>): State
    requires ino < |s.inodes|
  {
    var s1 := if r.Some? then OpenFile(s, r.value, ino, 0) else s;
    if w.Some? then OpenFile(s1, w.value, ino, 1) else s1
  }

  /** sys_pipe2: nothing when the inode cannot be allocated; both ends are closed again when an
      end or a descriptor is missing. */
  function Pipe2(s: State, inodeOk: bool, r: Option<nat>, w: Option<nat>): Result
    requires Shaped(s)
  {
    if !inodeOk then Result(s, ENOMEM, Quiet)
    else
      var ino := |s.inodes|;
      var s0 := s.(inodes := s.inodes + [Pipe([], 0, 0)]);
      var s1 := PipeEnds(s0, ino, r, w);
      if r.None? || w.None? then
        var s2 := if r.Some? then CloseFile(s1, r.value) else s1;
        Result(if w.Some? then CloseFile(s2, w.value) else s2, ENOMEM, Quiet)
      else Install(s1, r.value, w.value)
  }

  /** The two fd_alloc calls of pipe2, undone when one fails. */
  function Install(s: State, r: nat, w: nat): Result
    requires Shaped(s)
  {
    match FirstFree(s.procs[s.cur].fds, 0)
    case None => Result(CloseFile(CloseFile(s, r), w), EMFILE, Quiet)
    case Some(rfd) =>
      var s2 := SetFd(s, s.cur, rfd, Some(r));
      match FirstFree(s2.procs[s.cur].fds, 0)
      case None => Result(CloseFile(CloseFd(s2, s.cur, rfd), w), EMFILE, Quiet)
      case Some(wfd) => Result(SetFd(s2, s.cur, wfd, Some(w)), 0, Quiet)
  }

  /** F_SETFL overwrites all the flags, access mode included. */
  function SetFlags(s: State, fd: int, flags: nat): Result
    requires Shaped(s)
  {
    match FdGet(s, fd)
    case None => Result(s, EBADF, Quiet)
    case Some(id) =>
      if id !in s.files then Result(s, 0, Quiet)
      else Result(s.(files := s.files[id := s.files[id].(flags := flags)]), 0, Quiet)
  }
}
