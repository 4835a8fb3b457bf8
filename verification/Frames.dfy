/** Physical frames: the bitmap, and who owns what. */
module Frames {
  const PAGE: int := 4096

  // ---- the bitmap -------------------------------------------------------------------------------

  function Used(bits: seq<bool>): (n: nat)
    ensures n <= |bits|
  {
    if bits == [] then 0 else Used(bits[..|bits| - 1]) + if bits[|bits| - 1] then 1 else 0
  }

  lemma {:induction false} UsedFlip(bits: seq<bool>, i: nat, b: bool)
    requires i < |bits|
    ensures Used(bits[i := b]) == Used(bits) + (if b then 1 else 0) - (if bits[i] then 1 else 0)
    decreases |bits|
  {
    var n := |bits| - 1;
    if i < n {
      UsedFlip(bits[..n], i, b);
      assert bits[i := b][..n] == bits[..n][i := b];
    } else {
      assert bits[i := b][..n] == bits[..n];
    }
  }

  /** The first free frame, from i on; |bits| when there is none. */
  function FirstFree(bits: seq<bool>, i: nat): (r: nat)
    requires i <= |bits|
    ensures i <= r <= |bits| && (r < |bits| ==> !bits[r]) && forall k :: i <= k < r ==> bits[k]
    decreases |bits| - i
  {
    if i == |bits| || !bits[i] then i else FirstFree(bits, i + 1)
  }

  // ---- addresses ----------------------------------------------------------------------------------

  /** Frame i, as a physical address. */
  function Pa(base: int, i: int): int { base + i * PAGE }

  /** The frame an address lies in, as pmm_free_page computes it. */
  function Idx(base: int, pa: int): int { (pa - base) / PAGE }

  lemma IdxPa(base: int, i: int)
    ensures Idx(base, Pa(base, i)) == i
  {
  }

  // ---- ownership ----------------------------------------------------------------------------------

  /** A page of the running process's user space, or a page slot of a file. */
  datatype Owner = Page(va: int) | FileSlot(ino: int, slot: int)

  /** own says which frame each owner has; others are the frames of the rest of the system. */
  datatype Mem = Mem(bits: seq<bool>, used: int, own: map<Owner, int>, others: set<int>)

  ghost predicate Frame(m: Mem, f: int) { 0 <= f < |m.bits| && m.bits[f] }

  /** No frame is free while owned, and none has two owners. */
  ghost predicate Single(m: Mem) {
    && (forall o :: o in m.own ==> Frame(m, m.own[o]) && m.own[o] !in m.others)
    && (forall f :: f in m.others ==> Frame(m, f))
    && (forall o, q :: o in m.own && q in m.own && o != q ==> m.own[o] != m.own[q])
  }

  ghost predicate MemOk(m: Mem) { m.used == Used(m.bits) && Single(m) }

  /** Frame f taken for o. What o had before, if anything, is forgotten. */
  function Take(m: Mem, o: Owner, f: nat): Mem
    requires f < |m.bits|
  {
    m.(bits := m.bits[f := true], used := m.used + 1, own := m.own[o := f])
  }

  lemma TakeKeeps(m: Mem, o: Owner, f: nat)
    requires MemOk(m) && f < |m.bits| && !m.bits[f]
    ensures MemOk(Take(m, o, f))
  {
    hide Used;
    UsedFlip(m.bits, f, true);
    var r := Take(m, o, f);
    forall q | q in r.own
      ensures Frame(r, r.own[q]) && r.own[q] !in r.others
    {
      if q != o {
        assert Frame(m, m.own[q]);
      }
    }
    forall g | g in r.others
      ensures Frame(r, g)
    {
      assert Frame(m, g);
    }
    forall p, q | p in r.own && q in r.own && p != q
      ensures r.own[p] != r.own[q]
    {
      if p != o { assert Frame(m, m.own[p]); }
      if q != o { assert Frame(m, m.own[q]); }
    }
  }

  /** o's frame given back: unmapped first, then freed. */
  function Give(m: Mem, o: Owner): Mem
    requires o in m.own && 0 <= m.own[o] < |m.bits|
  {
    m.(bits := m.bits[m.own[o] := false], used := m.used - 1, own := m.own - {o})
  }

  lemma GiveKeeps(m: Mem, o: Owner)
    requires MemOk(m) && o in m.own
    ensures Frame(m, m.own[o]) && MemOk(Give(m, o))
  {
    hide Used;
    assert Frame(m, m.own[o]);
    UsedFlip(m.bits, m.own[o], false);
    var r := Give(m, o);
    forall q | q in r.own
      ensures Frame(r, r.own[q]) && r.own[q] !in r.others
    {
      assert Frame(m, m.own[q]);
    }
    forall g | g in r.others
      ensures Frame(r, g)
    {
      assert Frame(m, g);
    }
  }

  /** Taking a frame for an owner without one, and giving it back, is as if nothing had happened. */
  lemma TakeGive(m: Mem, o: Owner, f: nat)
    requires f < |m.bits| && !m.bits[f] && o !in m.own
    ensures Give(Take(m, o, f), o) == m
  {
    var r := Give(Take(m, o, f), o);
    assert r.bits == m.bits;
    assert r.own == m.own;
  }

  // ---- several owners in a row --------------------------------------------------------------------

  /** Frames fs taken for the owners os, one after the other. */
  function TakeMany(m: Mem, os: seq<Owner>, fs: seq<nat>): (r: Mem)
    requires |os| == |fs| && forall i :: 0 <= i < |fs| ==> fs[i] < |m.bits|
    ensures |r.bits| == |m.bits|
    decreases |os|
  {
    if os == [] then m else TakeMany(Take(m, os[0], fs[0]), os[1..], fs[1..])
  }

  lemma {:induction false} TakeManyAppend(m: Mem, os: seq<Owner>, fs: seq<nat>, o: Owner, f: nat)
    requires |os| == |fs| && f < |m.bits| && forall i :: 0 <= i < |fs| ==> fs[i] < |m.bits|
    ensures TakeMany(m, os + [o], fs + [f]) == Take(TakeMany(m, os, fs), o, f)
    decreases |os|
  {
    if os == [] {
      assert (os + [o])[1..] == [] && (fs + [f])[1..] == [];
    } else {
      TakeManyAppend(Take(m, os[0], fs[0]), os[1..], fs[1..], o, f);
      assert (os + [o])[1..] == os[1..] + [o] && (fs + [f])[1..] == fs[1..] + [f];
    }
  }

  lemma TakeCommutes(m: Mem, o: Owner, f: nat, p: Owner, g: nat)
    requires f < |m.bits| && g < |m.bits| && o != p
    ensures Take(Take(m, o, f), p, g) == Take(Take(m, p, g), o, f)
  {
    var a, b := Take(Take(m, o, f), p, g), Take(Take(m, p, g), o, f);
    assert a.bits == b.bits;
    assert a.own == b.own;
  }

  /** Distinct free frames for distinct owners without one. */
  ghost predicate Fresh(m: Mem, os: seq<Owner>, fs: seq<nat>) {
    && |os| == |fs|
    && (forall i :: 0 <= i < |fs| ==> fs[i] < |m.bits| && !m.bits[fs[i]] && os[i] !in m.own)
    && (forall i, j :: 0 <= i < j < |fs| ==> fs[i] != fs[j] && os[i] != os[j])
  }

  /** Giving back the first of them leaves the rest. */
  lemma {:induction false} GiveFirst(m: Mem, o: Owner, f: nat, os: seq<Owner>, fs: seq<nat>)
    requires |os| == |fs| && f < |m.bits| && !m.bits[f] && o !in m.own
    requires forall i :: 0 <= i < |fs| ==> fs[i] < |m.bits| && fs[i] != f && os[i] != o
    ensures var t := TakeMany(Take(m, o, f), os, fs); o in t.own && t.own[o] == f && Give(t, o) == TakeMany(m, os, fs)
    decreases |os|
  {
    if os == [] {
      TakeGive(m, o, f);
    } else {
      TakeCommutes(m, o, f, os[0], fs[0]);
      GiveFirst(Take(m, os[0], fs[0]), o, f, os[1..], fs[1..]);
    }
  }

  lemma FreshTail(m: Mem, os: seq<Owner>, fs: seq<nat>)
    requires Fresh(m, os, fs) && os != []
    ensures Fresh(m, os[1..], fs[1..])
    ensures var t := TakeMany(m, os, fs); os[0] in t.own && 0 <= t.own[os[0]] < |t.bits| && Give(t, os[0]) == TakeMany(m, os[1..], fs[1..])
  {
    hide TakeMany, Give, Take;
    assert forall i :: 0 <= i < |fs| - 1 ==> fs[1..][i] == fs[i + 1] && os[1..][i] == os[i + 1];
    TakeManyStep(m, os, fs);
    GiveFirst(m, os[0], fs[0], os[1..], fs[1..]);
  }

  lemma TakeManyStep(m: Mem, os: seq<Owner>, fs: seq<nat>)
    requires |os| == |fs| && os != [] && forall i :: 0 <= i < |fs| ==> fs[i] < |m.bits|
    ensures TakeMany(m, os, fs) == TakeMany(Take(m, os[0], fs[0]), os[1..], fs[1..])
    ensures |TakeMany(m, os, fs).bits| == |m.bits|
  {
  }
}
