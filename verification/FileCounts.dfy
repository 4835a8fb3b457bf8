/** Reference counts and pipe-end counts are exact, and nobody sleeps on a pipe that has
    data or has lost its last writer. `pending` holds the references that kernel code holds
    in local variables in the middle of a call; between calls it is empty. */
module FileCounts {
  import opened Options
  import opened KernelState

  /** How many descriptor slots, over all processes, hold x. */
  ghost function Refs(procs: seq<Proc>, x: Option<nat>): nat {
    if procs == [] then 0
    else Refs(procs[..|procs| - 1], x) + multiset(procs[|procs| - 1].fds)[x]
  }

  predicate InEnd(f: File, ino: nat, writing: bool) {
    f.inode == ino && if writing then Writes(f) else Reads(f)
  }

  /** The live descriptions that count against the read or the write end of an inode. */
  ghost function End(files: map<nat, File>, ino: nat, writing: bool): set<nat> {
    set f | f in files && InEnd(files[f], ino, writing)
  }

  /** No descriptor dangles. */
  ghost predicate Tabled(s: State) {
    forall i, fd :: 0 <= i < |s.procs| && 0 <= fd < |s.procs[i].fds| && s.procs[i].fds[fd].Some? ==>
      s.procs[i].fds[fd].value in s.files
  }

  /** A description lives exactly as long as somebody refers to it. */
  ghost predicate Counted(s: State, pending: multiset<nat>) {
    && (forall f :: f in s.files ==> s.files[f].refcnt == Refs(s.procs, Some(f)) + pending[f] >= 1)
    && (forall f :: f in pending ==> f in s.files)
  }

  ghost predicate EndsCounted(files: map<nat, File>, inodes: seq<Inode>) {
    forall k :: 0 <= k < |inodes| && inodes[k].Pipe? ==>
      inodes[k].rdOpen == |End(files, k, false)| && inodes[k].wrOpen == |End(files, k, true)|
  }

  /** A process sleeps on a pipe only while the pipe is empty and some write end is open. */
  ghost predicate PipeWaits(s: State) {
    forall i :: 0 <= i < |s.procs| && s.procs[i].state.Blocked? && s.procs[i].chan.OnInode? ==>
      var k := s.procs[i].chan.ino;
      k < |s.inodes| && s.inodes[k].Pipe? && s.inodes[k].data == [] && s.inodes[k].wrOpen > 0
  }

  ghost predicate FilesOk(s: State, pending: multiset<nat>) {
    Shaped(s) && Tabled(s) && Counted(s, pending) && EndsCounted(s.files, s.inodes) && PipeWaits(s)
  }

  /** What a call on descriptors leaves alone: who is who, and who runs; sleepers on a pipe may wake. */
  ghost predicate SameFamily(s: State, t: State) {
    && |t.procs| == |s.procs| && t.cur == s.cur && t.nextPid == s.nextPid && t.halted == s.halted
    && forall i :: 0 <= i < |s.procs| ==> SameProc(s.procs[i], t.procs[i])
  }

  predicate SameProc(p: Proc, q: Proc) {
    && q.pid == p.pid && q.parent == p.parent && q.exitCode == p.exitCode && q.killedSig == p.killedSig
    && (q.state == p.state || (p.state.Blocked? && p.chan.OnInode? && q.state.Runnable?))
    && (q.state.Blocked? ==> q.chan == p.chan)
  }

  lemma SameFamilyTrans(s: State, t: State, u: State)
    requires SameFamily(s, t) && SameFamily(t, u)
    ensures SameFamily(s, u)
  {
  }

  // ---- counting ---------------------------------------------------------------------

  lemma {:induction false} RefsUpdate(procs: seq<Proc>, i: nat, p: Proc, x: Option<nat>)
    requires i < |procs|
    ensures Refs(procs[i := p], x) + multiset(procs[i].fds)[x] == Refs(procs, x) + multiset(p.fds)[x]
  {
    var n := |procs| - 1;
    if i == n {
      assert procs[i := p][..n] == procs[..n];
    } else {
      RefsUpdate(procs[..n], i, p, x);
      assert procs[i := p][..n] == procs[..n][i := p];
    }
  }

  lemma {:induction false} RefsFrame(procs: seq<Proc>, qs: seq<Proc>, x: Option<nat>)
    requires |procs| == |qs| && forall i :: 0 <= i < |procs| ==> procs[i].fds == qs[i].fds
    ensures Refs(procs, x) == Refs(qs, x)
  {
    if procs != [] {
      RefsFrame(procs[..|procs| - 1], qs[..|qs| - 1], x);
    }
  }

  lemma {:induction false} RefsHas(procs: seq<Proc>, i: nat, fd: nat)
    requires i < |procs| && fd < |procs[i].fds|
    ensures Refs(procs, procs[i].fds[fd]) >= 1
  {
    var n := |procs| - 1;
    if i == n {
      assert procs[i].fds[fd] in multiset(procs[i].fds);
    } else {
      RefsHas(procs[..n], i, fd);
    }
  }

  lemma {:induction false} RefsWitness(procs: seq<Proc>, x: Option<nat>) returns (i: nat, fd: nat)
    requires Refs(procs, x) >= 1
    ensures i < |procs| && fd < |procs[i].fds| && procs[i].fds[fd] == x
  {
    var n := |procs| - 1;
    if x in multiset(procs[n].fds) {
      i := n;
      assert x in procs[n].fds;
      fd :| 0 <= fd < |procs[n].fds| && procs[n].fds[fd] == x;
    } else {
      i, fd := RefsWitness(procs[..n], x);
    }
  }

  lemma OccursUpdate(fds: seq<Option<nat>>, fd: nat, v: Option<nat>, x: Option<nat>)
    requires fd < |fds|
    ensures multiset(fds[fd := v])[x] == multiset(fds)[x] - (if fds[fd] == x then 1 else 0) + (if v == x then 1 else 0)
  {
    assert fds[fd] in multiset(fds);
  }

  /** One slot changes: the old reference is one fewer, the new one one more. */
  lemma SetFdRefs(s: State, slot: nat, fd: nat, v: Option<nat>, x: Option<nat>)
    requires slot < |s.procs| && fd < |s.procs[slot].fds|
    ensures Refs(SetFd(s, slot, fd, v).procs, x)
         == Refs(s.procs, x) - (if s.procs[slot].fds[fd] == x then 1 else 0) + (if v == x then 1 else 0)
  {
    var p := s.procs[slot];
    RefsUpdate(s.procs, slot, p.(fds := p.fds[fd := v]), x);
    OccursUpdate(p.fds, fd, v, x);
  }

  // ---- the primitive moves ------------------------------------------------------------

  /** file_open_inode: a new description with one pending reference. */
  lemma OpenFileOk(s: State, pending: multiset<nat>, id: nat, ino: nat, flags: nat)
    requires FilesOk(s, pending) && id !in s.files && ino < |s.inodes|
    ensures FilesOk(OpenFile(s, id, ino, flags), pending + multiset{id})
    ensures SameFamily(s, OpenFile(s, id, ino, flags))
  {
    var t := OpenFile(s, id, ino, flags);
    FreshUnreferenced(s, pending, id);
    forall k | 0 <= k < |s.inodes| && s.inodes[k].Pipe?
      ensures t.inodes[k].Pipe? && t.inodes[k].data == s.inodes[k].data
      ensures t.inodes[k].rdOpen == |End(t.files, k, false)| && t.inodes[k].wrOpen == |End(t.files, k, true)| >= s.inodes[k].wrOpen
    {
      EndAfterInsert(s.files, id, File(ino, flags, 1), k, false);
      EndAfterInsert(s.files, id, File(ino, flags, 1), k, true);
    }
  }

  lemma FreshUnreferenced(s: State, pending: multiset<nat>, id: nat)
    requires Tabled(s) && Counted(s, pending) && id !in s.files
    ensures Refs(s.procs, Some(id)) == 0 && pending[id] == 0
  {
    if Refs(s.procs, Some(id)) >= 1 {
      var i, fd := RefsWitness(s.procs, Some(id));
    }
  }

  lemma EndAfterInsert(files: map<nat, File>, id: nat, f: File, k: nat, writing: bool)
    requires id !in files
    ensures |End(files[id := f], k, writing)| == |End(files, k, writing)| + (if InEnd(f, k, writing) then 1 else 0)
  {
    hide InEnd;
    assert End(files[id := f], k, writing) == End(files, k, writing) + (if InEnd(f, k, writing) then {id} else {});
  }

  lemma EndAfterRemove(files: map<nat, File>, id: nat, k: nat, writing: bool)
    requires id in files
    ensures |End(files - {id}, k, writing)| == |End(files, k, writing)| - (if InEnd(files[id], k, writing) then 1 else 0)
  {
    hide InEnd;
    assert End(files - {id}, k, writing) == End(files, k, writing) - (if InEnd(files[id], k, writing) then {id} else {});
  }

  lemma EndSameModes(files: map<nat, File>, id: nat, f: File, k: nat, writing: bool)
    requires id in files && f.inode == files[id].inode && f.flags == files[id].flags
    ensures End(files[id := f], k, writing) == End(files, k, writing)
  {
  }

  /** Changing only a reference count. */
  lemma RecountOk(s: State, pending: multiset<nat>, id: nat, n: int, after: multiset<nat>)
    requires FilesOk(s, pending) && id in s.files && n == s.files[id].refcnt + after[id] - pending[id] >= 1
    requires forall f :: f != id ==> after[f] == pending[f]
    ensures FilesOk(s.(files := s.files[id := s.files[id].(refcnt := n)]), after)
    ensures SameFamily(s, s.(files := s.files[id := s.files[id].(refcnt := n)]))
  {
    var t := s.(files := s.files[id := s.files[id].(refcnt := n)]);
    forall k | 0 <= k < |s.inodes| && s.inodes[k].Pipe?
      ensures End(t.files, k, false) == End(s.files, k, false) && End(t.files, k, true) == End(s.files, k, true)
    {
      EndSameModes(s.files, id, t.files[id], k, false);
      EndSameModes(s.files, id, t.files[id], k, true);
    }
  }

  /** file_dup: one more pending reference. */
  lemma BumpOk(s: State, pending: multiset<nat>, id: nat)
    requires FilesOk(s, pending) && id in s.files
    ensures FilesOk(Bump(s, id), pending + multiset{id})
    ensures SameFamily(s, Bump(s, id)) && Bump(s, id).procs == s.procs
  {
    RecountOk(s, pending, id, s.files[id].refcnt + 1, pending + multiset{id});
  }

  lemma TabledAt(s: State, slot: nat, fd: nat)
    requires Tabled(s) && slot < |s.procs| && fd < |s.procs[slot].fds| && s.procs[slot].fds[fd].Some?
    ensures s.procs[slot].fds[fd].value in s.files
  {
  }

  lemma SetFdFrame(s: State, slot: nat, fd: nat, v: Option<nat>)
    requires Shaped(s) && Tabled(s) && PipeWaits(s) && slot < NPROC && fd < NOFILE && (v.Some? ==> v.value in s.files)
    ensures var t := SetFd(s, slot, fd, v);
      && Shaped(t) && Tabled(t) && PipeWaits(t) && t.files == s.files && t.inodes == s.inodes && SameFamily(s, t)
  {
  }

  /** A pending reference is stored into a free slot. */
  lemma StoreOk(s: State, pending: multiset<nat>, slot: nat, fd: nat, id: nat)
    requires FilesOk(s, pending) && id in pending
    requires slot < NPROC && fd < NOFILE && s.procs[slot].fds[fd].None?
    ensures FilesOk(SetFd(s, slot, fd, Some(id)), pending - multiset{id})
    ensures SameFamily(s, SetFd(s, slot, fd, Some(id)))
  {
    hide Refs, Tabled, PipeWaits, SameFamily, EndsCounted, SetFd;
    var t := SetFd(s, slot, fd, Some(id));
    SetFdFrame(s, slot, fd, Some(id));
    forall f | f in s.files
      ensures Refs(t.procs, Some(f)) == Refs(s.procs, Some(f)) + (if f == id then 1 else 0)
    {
      SetFdRefs(s, slot, fd, Some(id), Some(f));
    }
  }

  /** A slot is cleared and its reference becomes pending. */
  lemma ClearOk(s: State, pending: multiset<nat>, slot: nat, fd: nat, id: nat)
    requires FilesOk(s, pending)
    requires slot < NPROC && fd < NOFILE && s.procs[slot].fds[fd] == Some(id)
    ensures FilesOk(SetFd(s, slot, fd, None), pending + multiset{id})
    ensures SameFamily(s, SetFd(s, slot, fd, None))
  {
    hide Refs, Tabled, PipeWaits, SameFamily, EndsCounted, SetFd;
    var t := SetFd(s, slot, fd, None);
    SetFdFrame(s, slot, fd, None);
    TabledAt(s, slot, fd);
    forall f | f in s.files
      ensures Refs(t.procs, Some(f)) == Refs(s.procs, Some(f)) - (if f == id then 1 else 0)
    {
      SetFdRefs(s, slot, fd, None, Some(f));
    }
  }

  /** file_close of a pending reference; the description goes exactly with its last reference. */
  lemma CloseFileOk(s: State, pending: multiset<nat>, id: nat)
    requires FilesOk(s, pending) && id in pending
    ensures FilesOk(CloseFile(s, id), pending - multiset{id})
    ensures SameFamily(s, CloseFile(s, id))
    ensures forall i :: 0 <= i < NPROC ==> CloseFile(s, id).procs[i].fds == s.procs[i].fds
    ensures id in CloseFile(s, id).files <==> Refs(s.procs, Some(id)) + pending[id] > 1
  {
    hide Tabled, PipeWaits, EndsCounted, Refs, FreeFile;
    if s.files[id].refcnt > 1 {
      RecountOk(s, pending, id, s.files[id].refcnt - 1, pending - multiset{id});
    } else {
      FreeFileOk(s, pending, id);
    }
  }

  lemma FreeFileOk(s: State, pending: multiset<nat>, id: nat)
    requires FilesOk(s, pending) && id in pending && s.files[id].refcnt == 1
    ensures FilesOk(FreeFile(s, id), pending - multiset{id})
    ensures SameFamily(s, FreeFile(s, id))
    ensures forall i :: 0 <= i < NPROC ==> FreeFile(s, id).procs[i].fds == s.procs[i].fds
    ensures id !in FreeFile(s, id).files
  {
    hide Refs, Tabled, PipeWaits, EndsCounted, Account;
    var t := FreeFile(s, id);
    forall f | f in t.files
      ensures Refs(t.procs, Some(f)) == Refs(s.procs, Some(f))
    {
      RefsFrame(s.procs, t.procs, Some(f));
    }
    FreeFileTabled(s, pending, id);
    FreeFileEnds(s, pending, id);
    FreeFileWaits(s, pending, id);
  }

  lemma FreeFileTabled(s: State, pending: multiset<nat>, id: nat)
    requires FilesOk(s, pending) && id in pending && s.files[id].refcnt == 1
    ensures Tabled(FreeFile(s, id))
  {
    forall i, fd | 0 <= i < |s.procs| && 0 <= fd < |s.procs[i].fds| && s.procs[i].fds[fd].Some?
      ensures s.procs[i].fds[fd] != Some(id)
    {
      RefsHas(s.procs, i, fd);
    }
  }

  lemma FreeFileEnds(s: State, pending: multiset<nat>, id: nat)
    requires FilesOk(s, pending) && id in pending
    ensures EndsCounted(FreeFile(s, id).files, FreeFile(s, id).inodes)
  {
    var t := FreeFile(s, id);
    forall k | 0 <= k < |t.inodes| && t.inodes[k].Pipe?
      ensures t.inodes[k].rdOpen == |End(t.files, k, false)| && t.inodes[k].wrOpen == |End(t.files, k, true)|
    {
      EndAfterRemove(s.files, id, k, false);
      EndAfterRemove(s.files, id, k, true);
    }
  }

  /** When the last writer goes, everybody who slept on the pipe is awake. */
  lemma FreeFileWaits(s: State, pending: multiset<nat>, id: nat)
    requires FilesOk(s, pending) && id in pending
    ensures PipeWaits(FreeFile(s, id))
  {
    FreeFileEnds(s, pending, id);
  }

  /** fd_close as the two moves it is made of. */
  lemma CloseFdSplits(s: State, slot: nat, fd: nat, id: nat)
    requires Shaped(s) && slot < NPROC && fd < NOFILE && s.procs[slot].fds[fd] == Some(id)
    ensures CloseFd(s, slot, fd) == CloseFile(SetFd(s, slot, fd, None), id)
  {
    var t := SetFd(s, slot, fd, None);
    assert CloseFd(s, slot, fd).procs == CloseFile(t, id).procs;
  }

  lemma CloseFdOk(s: State, pending: multiset<nat>, slot: nat, fd: nat)
    requires FilesOk(s, pending) && slot < NPROC && fd < NOFILE
    ensures FilesOk(CloseFd(s, slot, fd), pending)
    ensures SameFamily(s, CloseFd(s, slot, fd))
    ensures CloseFd(s, slot, fd).procs[slot].fds == s.procs[slot].fds[fd := None]
    ensures forall i :: 0 <= i < NPROC && i != slot ==> CloseFd(s, slot, fd).procs[i].fds == s.procs[i].fds
  {
    hide Tabled, Counted, EndsCounted, PipeWaits, CloseFile;
    if s.procs[slot].fds[fd].Some? {
      var id := s.procs[slot].fds[fd].value;
      ClearOk(s, pending, slot, fd, id);
      CloseFdSplits(s, slot, fd, id);
      var t := SetFd(s, slot, fd, None);
      CloseFileOk(t, pending + multiset{id}, id);
      assert pending + multiset{id} - multiset{id} == pending;
      SameFamilyTrans(s, t, CloseFd(s, slot, fd));
    }
  }

  /** fdtable_closeall empties the table. */
  lemma {:induction false} CloseFromOk(s: State, slot: nat, k: nat)
    requires FilesOk(s, multiset{}) && slot < NPROC && k <= NOFILE
    requires forall j :: 0 <= j < k ==> s.procs[slot].fds[j].None?
    ensures FilesOk(CloseFrom(s, slot, k), multiset{})
    ensures SameFamily(s, CloseFrom(s, slot, k))
    ensures forall j :: 0 <= j < NOFILE ==> CloseFrom(s, slot, k).procs[slot].fds[j].None?
    ensures forall i :: 0 <= i < NPROC && i != slot ==> CloseFrom(s, slot, k).procs[i].fds == s.procs[i].fds
    decreases NOFILE - k
  {
    if k < NOFILE {
      CloseFdOk(s, multiset{}, slot, k);
      CloseFromOk(CloseFd(s, slot, k), slot, k + 1);
      SameFamilyTrans(s, CloseFd(s, slot, k), CloseFrom(s, slot, k));
    }
  }
}
