/** The bit reader of kernel/lib/inflate.c. `bitbuf` holds `bitcnt` bits, the next
    one to consume in its low bit; since bitbuf < 2^bitcnt the source's `|` is
    written here as the addition it then equals. */
module BitReader {
  import opened Bits

  lemma LoadValue(held: seq<bit>, x: byte)
    ensures LsbVal(held + LsbBits(x, 8)) == LsbVal(held) + Shl(x, |held|)
  {
    ByteRoundTrip(x);
    LsbConcat(held, LsbBits(x, 8));
  }

  lemma LoadRest(held: seq<bit>, src: seq<byte>, p: nat)
    requires p < |src|
    ensures (held + LsbBits(src[p], 8)) + BytesBits(src[p + 1..]) == held + BytesBits(src[p..])
  {
    assert src[p..][1..] == src[p + 1..];
    var b: seq<bit> := LsbBits(src[p], 8);
    assert held + (b + BytesBits(src[p + 1..])) == (held + b) + BytesBits(src[p + 1..]);
  }

  lemma ConsumeHeld(held: seq<bit>, tail: seq<bit>, n: nat)
    requires n <= |held|
    ensures Low(LsbVal(held), n) == LsbVal((held + tail)[..n])
    ensures Shr(LsbVal(held), n) < Pow2(|held| - n)
    ensures LsbBits(Shr(LsbVal(held), n), |held| - n) + tail == (held + tail)[n..]
  {
    LsbSplit(held, n);
    LsbBitsOfVal(held[n..]);
    assert (held + tail)[..n] == held[..n];
  }

  class Reader {
    const src: seq<byte>
    var pos: nat
    var bitbuf: nat
    var bitcnt: nat
    var err: bool

    /** Between calls at most the rest of one byte is held; the buffer never outgrows 32 bits. */
    ghost predicate Valid()
      reads this
    {
      && pos <= |src|
      && bitcnt < 32
      && bitbuf < Pow2(bitcnt)
      && (!err ==> bitcnt <= 7)
    }

    /** The bits not yet consumed, as one flat sequence. */
    ghost function Rest(): (r: seq<bit>)
      requires Valid()
      reads this
    {
      LsbBits(bitbuf, bitcnt) + BytesBits(src[pos..])
    }

    constructor (s: seq<byte>)
      ensures Valid() && !err && src == s && pos == 0
      ensures Rest() == BytesBits(s)
    {
      src := s;
      pos, bitbuf, bitcnt, err := 0, 0, 0, false;
      new;
      assert src[0..] == s;
    }

    /** bits(): the next n bits as a number, or 0 with `err` set when fewer are left. */
    method Bits(n: nat) returns (v: nat)
      requires Valid() && n <= 24
      modifies this
      ensures Valid()
      ensures n <= |old(Rest())| ==>
        && err == old(err)
        && v == LsbVal(old(Rest())[..n])
        && Rest() == old(Rest())[n..]
      ensures n > |old(Rest())| ==> err && v == 0 && Rest() == old(Rest())
    {
      ghost var rest := Rest();
      ghost var held := LsbBits(bitbuf, bitcnt);
      LsbRoundTrip(bitbuf, bitcnt);
      while bitcnt < n
        invariant pos <= |src| && bitcnt < 32
        invariant !err ==> bitcnt <= 7 + n
        invariant bitcnt == |held| && bitbuf == LsbVal(held)
        invariant held + BytesBits(src[pos..]) == rest
        invariant err == old(err)
        decreases |src| - pos
      {
        if pos >= |src| {
          LsbBitsOfVal(held);
          err := true;
          return 0;
        }
        LoadValue(held, src[pos]);
        LoadRest(held, src, pos);
        held := held + LsbBits(src[pos], 8);
        bitbuf := bitbuf + Shl(src[pos], bitcnt);
        pos := pos + 1;
        bitcnt := bitcnt + 8;
      }
      ConsumeHeld(held, BytesBits(src[pos..]), n);
      v := Low(bitbuf, n);
      bitbuf := Shr(bitbuf, n);
      bitcnt := bitcnt - n;
    }

    /** Before the reset: what follows the rest of the current byte is the next byte on. */
    lemma HeldIsPartOfByte()
      requires Valid() && !err
      ensures Rest()[|Rest()| % 8..] == BytesBits(src[pos..])
    {
      assert |Rest()| % 8 == bitcnt;
    }

    /** The stored-block reset drops exactly the rest of the current byte. */
    method AlignToByte()
      requires Valid() && !err
      modifies this
      ensures Valid() && !err
      ensures Rest() == old(Rest())[|old(Rest())| % 8..]
      ensures |Rest()| % 8 == 0 && Rest() == BytesBits(src[pos..])
      ensures pos == old(pos)
    {
      assert |Rest()| % 8 == bitcnt;
      bitbuf, bitcnt := 0, 0;
    }
  }
}
