/** Why inflate_raw refuses: the room in the buffer, and the codes it answers with. */
module DeflateErrors {
  import opened Bits
  import opened Huffman
  import opened Deflate
  import opened Decoding
  import opened RoundTrip

  // ---- room ----------------------------------------------------------------------------------------

  /** The answers for a buffer that is too small: at a literal, a copy or a stored block. */
  predicate NoRoom(o: Outcome) { o == Fail(-2) || o == Fail(-6) || o == Fail(-14) }

  /** With less room, small, the answer is the same or says so, and then what needs more room is not written. */
  ghost predicate RoomOnly(small: Outcome, large: Outcome, cap: nat) {
    small == large || (NoRoom(small) && (large.Done? ==> |large.out| > cap))
  }

  lemma TokenRoom(ll: seq<nat>, dl: seq<nat>, rest: seq<bit>, out: seq<byte>, c: nat, d: nat)
    requires |out| <= c <= d
    ensures var a, b := DecodeToken(ll, dl, rest, out, c), DecodeToken(ll, dl, rest, out, d);
      a == b || (a.Stop? && NoRoom(a.outcome) && (b.Stop? ==> b.outcome.Fail?) && (b.More? ==> |b.out| > c))
  {
    hide Match, ReadPair, CopyMatch;
  }

  lemma {:induction false} BlockRoom(ll: seq<nat>, dl: seq<nat>, rest: seq<bit>, out: seq<byte>, c: nat, d: nat)
    requires |out| <= c <= d
    ensures RoomOnly(DecodeBlock(ll, dl, rest, out, c), DecodeBlock(ll, dl, rest, out, d), c)
    decreases |rest|
  {
    hide DecodeToken;
    TokenRoom(ll, dl, rest, out, c, d);
    var a, b := DecodeToken(ll, dl, rest, out, c), DecodeToken(ll, dl, rest, out, d);
    if a == b {
      if a.More? {
        BlockRoom(ll, dl, a.rest, a.out, c, d);
      }
    } else if b.More? {
      BlockGrows(ll, dl, b.rest, b.out, d);
    }
  }

  lemma BlockGrows(ll: seq<nat>, dl: seq<nat>, rest: seq<bit>, out: seq<byte>, cap: nat)
    requires |out| <= cap
    ensures var r := DecodeBlock(ll, dl, rest, out, cap); r.Done? ==> |out| <= |r.out|
  {
  }

  lemma OneRoom(kind: nat, r: seq<bit>, out: seq<byte>, c: nat, d: nat)
    requires |out| <= c <= d
    ensures RoomOnly(DecodeOne(kind, r, out, c), DecodeOne(kind, r, out, d), c)
    ensures var o := DecodeOne(kind, r, out, d); o.Done? ==> |out| <= |o.out|
  {
    hide DecodeBlock, ReadTables, LsbVal, TakeBytes;
    if kind == 1 {
      BlockRoom(FixedLitLengths(), FixedDistLengths(), r, out, c, d);
    } else if kind == 2 {
      var t := ReadTables(r);
      if t.Tables? {
        BlockRoom(t.ll, t.dl, t.rest, out, c, d);
      }
    }
  }

  lemma {:induction false} StreamRoom(rest: seq<bit>, out: seq<byte>, c: nat, d: nat)
    requires |out| <= c <= d
    ensures RoomOnly(DecodeStream(rest, out, c), DecodeStream(rest, out, d), c)
    ensures var o := DecodeStream(rest, out, d); o.Done? ==> |out| <= |o.out|
    decreases |rest|
  {
    hide DecodeOne, LsbVal;
    if |rest| >= 3 {
      var k := LsbVal(rest[1..3]);
      OneRoom(k, rest[3..], out, c, d);
      var a, b := DecodeOne(k, rest[3..], out, c), DecodeOne(k, rest[3..], out, d);
      if b.Done? && rest[0] != 1 {
        if a == b {
          StreamRoom(b.rest, b.out, c, d);
        } else {
          StreamGrows(b.rest, b.out, d);
        }
      }
    }
  }

  lemma {:induction false} StreamGrows(rest: seq<bit>, out: seq<byte>, cap: nat)
    requires |out| <= cap
    ensures var o := DecodeStream(rest, out, cap); o.Done? ==> |out| <= |o.out|
    decreases |rest|
  {
    hide DecodeOne, LsbVal;
    if |rest| >= 3 {
      var k := LsbVal(rest[1..3]);
      OneRoom(k, rest[3..], out, cap, cap);
      var b := DecodeOne(k, rest[3..], out, cap);
      if b.Done? && rest[0] != 1 {
        StreamGrows(b.rest, b.out, cap);
      }
    }
  }

  /** So an encoded stream that does not fit the buffer is refused for that and nothing else. */
  lemma TooSmall(bs: seq<Block>, src: seq<byte>, cap: nat)
    requires FormedBlocks(bs, []) && AllNarrow(bs) && EncodeBlocks(bs, [], 0) <= BytesBits(src) && |ExpandBlocks(bs, [])| > cap
    ensures NoRoom(DecodeStream(BytesBits(src), [], cap))
  {
    hide DecodeStream, BytesBits, FormedBlocks, ExpandBlocks, EncodeBlocks, AllNarrow, NoRoom;
    var n := |ExpandBlocks(bs, [])|;
    InflateInvertsEncoding(bs, src, n);
    StreamRoom(BytesBits(src), [], cap, n);
    StreamBound(BytesBits(src), cap);
  }

  lemma StreamBound(rest: seq<bit>, cap: nat)
    ensures var o := DecodeStream(rest, [], cap); o.Done? ==> |o.out| <= cap
  {
  }

  // ---- codes -----------------------------------------------------------------------------------------

  /** Two numbers of n bits add up to all ones exactly when each bit of one is the opposite of the other's. */
  lemma {:induction false} Complement(x: seq<bit>, y: seq<bit>)
    requires |x| == |y|
    ensures LsbVal(x) + LsbVal(y) == Pow2(|x|) - 1 <==> forall i :: 0 <= i < |x| ==> x[i] != y[i]
    ensures LsbVal(x) < Pow2(|x|) && LsbVal(y) < Pow2(|x|)
  {
    if x != [] {
      Complement(x[1..], y[1..]);
      assert forall i :: 1 <= i < |x| ==> x[i] == x[1..][i - 1] && y[i] == y[1..][i - 1];
      if forall i :: 0 <= i < |x| ==> x[i] != y[i] {
        assert forall i :: 0 <= i < |x| - 1 ==> x[1..][i] != y[1..][i];
      }
    }
  }

  /** Fewer than three bits: -10. Block type 11: -16. */
  lemma TypeCodes(rest: seq<bit>, out: seq<byte>, cap: nat)
    requires |out| <= cap
    ensures |rest| < 3 ==> DecodeStream(rest, out, cap) == Fail(-10)
    ensures |rest| >= 3 && rest[1] == 1 && rest[2] == 1 ==> DecodeStream(rest, out, cap) == Fail(-16)
  {
    if |rest| >= 3 {
      var t := rest[1..3];
      assert t[1..] == [t[1]] && t[1..][1..] == [];
      assert LsbVal(t) == (t[0] as int) + 2 * (t[1] as int);
    }
  }

  /** A stored block, behind the rest of the current byte: -11 without its four length bytes, -12 when the
      second pair is not the complement of the first, -13 without all its data, -14 without room for it. */
  lemma StoredCodes(r: seq<bit>, out: seq<byte>, cap: nat)
    requires |out| <= cap
    ensures var a := r[|r| % 8..];
      DecodeStored(r, out, cap) ==
      if |a| < 32 then Fail(-11)
      else if exists i :: 0 <= i < 16 && a[i] == a[16 + i] then Fail(-12)
      else if |a| < 32 + 8 * LsbVal(a[..16]) then Fail(-13)
      else if |out| + LsbVal(a[..16]) > cap then Fail(-14)
      else Done(out + TakeBytes(a[32..], LsbVal(a[..16])), a[32 + 8 * LsbVal(a[..16])..])
  {
    hide LsbVal, TakeBytes;
    var a := r[|r| % 8..];
    if |a| >= 32 {
      SomeEqual(a);
    }
  }

  lemma SomeEqual(a: seq<bit>)
    requires |a| >= 32
    ensures 65535 - LsbVal(a[..16]) != LsbVal(a[16..32]) <==> exists i :: 0 <= i < 16 && a[i] == a[16 + i]
  {
    hide LsbVal;
    var x, y := a[..16], a[16..32];
    Complement(x, y);
    Ones();
    assert forall i :: 0 <= i < 16 ==> x[i] == a[i] && y[i] == a[16 + i];
  }

  /** Inside a block, in front of whatever follows: a literal without room is -2; a copy from before the start
      of the output is -5, and else one without room -6. */
  lemma TokenCodes(ll: seq<nat>, dl: seq<nat>, t: Token, more: seq<bit>, out: seq<byte>, cap: nat)
    requires Encodable(ll, dl, t) && Accepted(ll) && Accepted(dl) && |out| <= cap
    ensures var o := DecodeBlock(ll, dl, EncodeToken(ll, dl, t) + more, out, cap);
      && (t.Literal? && |out| == cap ==> o == Fail(-2))
      && (t.Copy? && Distance(t) > |out| ==> o == Fail(-5))
      && (t.Copy? && Distance(t) <= |out| && |out| + Length(t) > cap ==> o == Fail(-6))
  {
    hide CodeBits, LsbBits, Accepted, ReadPair, CopyMatch, Pow2;
    if t.Literal? {
      MatchCode(ll, t.value, more);
    } else {
      TokenSplit(ll, dl, t, more);
      PairInverts(dl, t, more);
      MatchCode(ll, 257 + t.lsym, LsbBits(t.lextra, LEN_EXTRA[t.lsym]) +
        (CodeBits(dl, t.dsym) + (LsbBits(t.dextra, DIST_EXTRA[t.dsym]) + more)));
    }
  }

  /** The length symbols 286 and 287 are -3. */
  lemma BadLength(ll: seq<nat>, dl: seq<nat>, sym: nat, more: seq<bit>, out: seq<byte>, cap: nat)
    requires Accepted(ll) && 286 <= sym < |ll| && ll[sym] >= 1 && |out| <= cap
    ensures DecodeBlock(ll, dl, CodeBits(ll, sym) + more, out, cap) == Fail(-3)
  {
    hide CodeBits, ReadPair, CopyMatch;
    MatchCode(ll, sym, more);
  }

  /** Behind a length, a stream that begins with no distance code, or with that of a symbol above 29, is -4. */
  lemma BadDistance(ll: seq<nat>, dl: seq<nat>, i: nat, extra: nat, more: seq<bit>, out: seq<byte>, cap: nat)
    requires Accepted(ll) && i < 29 && 257 + i < |ll| && ll[257 + i] >= 1 && |out| <= cap && extra < Pow2(LEN_EXTRA[i])
    requires Match(dl, more).None? || Match(dl, more).value >= 30
    ensures DecodeBlock(ll, dl, CodeBits(ll, 257 + i) + (LsbBits(extra, LEN_EXTRA[i]) + more), out, cap) == Fail(-4)
  {
    hide CodeBits, LsbBits, CopyMatch, Pow2;
    MatchCode(ll, 257 + i, LsbBits(extra, LEN_EXTRA[i]) + more);
    ReadBack(extra, LEN_EXTRA[i], more);
  }

  /** A stream that begins with no code at all is -1. */
  lemma NoSymbol(ll: seq<nat>, dl: seq<nat>, rest: seq<bit>, out: seq<byte>, cap: nat)
    requires Match(ll, rest).None? && |out| <= cap
    ensures DecodeBlock(ll, dl, rest, out, cap) == Fail(-1)
  {
  }

  lemma Ones()
    ensures Pow2(16) == 65536
  {
    assert Pow2(8) == 256;
  }
}
