/** The ring buffer inside a pipe inode (kernel/fs/ramfs.c) is a first-in first-out queue of at
    most PIPE_CAP bytes. */
module PipeRing {
  import opened KernelState

  lemma Regroup(a: seq<int>, b: int, c: seq<int>)
    ensures a + ([b] + c) == (a + [b]) + c
  {
  }

  lemma Split(a: seq<int>, b: seq<int>)
    ensures (a + b)[..|a|] == a && (a + b)[|a|..] == b
  {
  }

  lemma TakeOneMore(a: seq<int>, s: seq<int>, k: nat)
    requires k < |s|
    ensures a + s[..k + 1] == (a + s[..k]) + [s[k]]
  {
  }

  class Ring {
    const pbuf: array<int>
    var phead: nat
    var ptail: nat
    var size: nat
    var rdOpen: int
    var wrOpen: int

    ghost predicate Valid()
      reads this
    {
      && pbuf.Length == PIPE_CAP && ptail < PIPE_CAP && size <= PIPE_CAP
      && phead == At(size)
    }

    /** The index of the k-th byte after the tail. */
    function At(k: nat): (i: nat)
      requires ptail < PIPE_CAP && k <= PIPE_CAP
      reads this`ptail
      ensures i < PIPE_CAP
    {
      if ptail + k < PIPE_CAP then ptail + k else ptail + k - PIPE_CAP
    }

    /** The bytes held, oldest first. */
    ghost function Contents(): (s: seq<int>)
      requires Valid()
      reads this, pbuf
      ensures |s| == size
    {
      seq(size, k requires 0 <= k < size && Valid() reads this, pbuf => pbuf[At(k)])
    }

    /** The pipe this ring is, for the system calls. */
    ghost function AsPipe(): (p: Inode)
      requires Valid()
      reads this, pbuf
    {
      Pipe(Contents(), rdOpen, wrOpen)
    }

    constructor ()
      ensures Valid() && AsPipe() == Pipe([], 0, 0)
    {
      pbuf := new int[PIPE_CAP](_ => 0);
      phead, ptail, size, rdOpen, wrOpen := 0, 0, 0, 0, 0;
    }

    /** The oldest byte goes. */
    method Drop()
      requires Valid() && size > 0
      modifies this`ptail, this`size
      ensures Valid() && size == old(size) - 1
      ensures old(Contents()) == [old(pbuf[ptail])] + Contents()
    {
      ptail := (ptail + 1) % PIPE_CAP;
      size := size - 1;
    }

    /** ramfs_pipe_read: the oldest bytes, as many as wanted and there are. */
    method Read(n: nat) returns (dst: seq<int>)
      requires Valid()
      modifies this
      ensures Valid() && (AsPipe(), dst) == PipeRead(old(AsPipe()), n)
      ensures |dst| == (if n <= old(size) then n else old(size)) && dst + Contents() == old(Contents())
    {
      hide Contents, At;
      dst := [];
      while |dst| < n && size > 0
        invariant Valid() && rdOpen == old(rdOpen) && wrOpen == old(wrOpen)
        invariant |dst| <= n && |dst| + size == old(size)
        invariant dst + Contents() == old(Contents())
      {
        var b := pbuf[ptail];
        Drop();
        Regroup(dst, b, Contents());
        dst := dst + [b];
      }
      Split(dst, Contents());
    }

    /** A byte behind the others. */
    method Push(b: int)
      requires Valid() && size < PIPE_CAP
      modifies this`phead, this`size, pbuf
      ensures Valid() && size == old(size) + 1 && Contents() == old(Contents()) + [b]
    {
      pbuf[phead] := b;
      phead := (phead + 1) % PIPE_CAP;
      size := size + 1;
    }

    /** ramfs_pipe_write: refused without readers; else as many bytes as fit, behind the others. */
    method Write(src: seq<int>) returns (r: int)
      requires Valid()
      modifies this, pbuf
      ensures Valid() && (AsPipe(), r) == PipeWrite(old(AsPipe()), src)
      ensures r == -32 <==> rdOpen == 0
      ensures Contents() == old(Contents()) + if r < 0 then [] else src[..r]
    {
      hide Contents, At;
      if rdOpen == 0 {
        return EPIPE;
      }
      var put := 0;
      while put < |src| && size < PIPE_CAP
        invariant Valid() && rdOpen == old(rdOpen) && wrOpen == old(wrOpen)
        invariant 0 <= put <= |src| && size == old(size) + put
        invariant Contents() == old(Contents()) + src[..put]
      {
        Push(src[put]);
        TakeOneMore(old(Contents()), src, put);
        put := put + 1;
      }
      return put;
    }
  }
}
