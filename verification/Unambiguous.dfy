/** A bit string encodes at most one list of blocks, so whether it is a stream of the format can be
    told from the blocks it encodes. */
module Unambiguous {
  import opened Options
  import opened Bits
  import opened Huffman
  import opened Deflate
  import opened Decoding
  import opened RoundTrip
  import opened Acceptance

  // ---- tokens -------------------------------------------------------------------------------------

  /** The literal/length symbol a token begins with. */
  function Symbol(t: Token): nat {
    match t
    case Literal(b) => b
    case Copy(ls, _, _, _) => 257 + ls
  }

  /** What stands behind that symbol's code. */
  function AfterSymbol(dl: seq<nat>, t: Token): (bs: seq<bit>)
    requires t.Copy? ==> WellFormed(t) && t.dsym < |dl| && dl[t.dsym] >= 1
  {
    match t
    case Literal(_) => []
    case Copy(ls, le, ds, de) => LsbBits(le, LEN_EXTRA[ls]) + (CodeBits(dl, ds) + LsbBits(de, DIST_EXTRA[ds]))
  }

  lemma TokenParts(ll: seq<nat>, dl: seq<nat>, t: Token, more: seq<bit>)
    requires Encodable(ll, dl, t)
    ensures EncodeToken(ll, dl, t) + more == CodeBits(ll, Symbol(t)) + (AfterSymbol(dl, t) + more)
  {
    hide EncodeToken, AfterSymbol, CodeBits, Encodable;
    TokenIs(ll, dl, t);
    Regroup(CodeBits(ll, Symbol(t)), AfterSymbol(dl, t), more);
  }

  lemma TokenIs(ll: seq<nat>, dl: seq<nat>, t: Token)
    requires Encodable(ll, dl, t)
    ensures Symbol(t) < |ll| && ll[Symbol(t)] >= 1 && (t.Copy? ==> WellFormed(t) && t.dsym < |dl| && dl[t.dsym] >= 1)
    ensures EncodeToken(ll, dl, t) == CodeBits(ll, Symbol(t)) + AfterSymbol(dl, t)
  {
    hide CodeBits, LsbBits, Pow2;
  }

  lemma Regroup(a: seq<bit>, b: seq<bit>, c: seq<bit>)
    ensures (a + b) + c == a + (b + c)
  {
  }

  lemma PairUnique(dl: seq<nat>, p: Token, q: Token, s: seq<bit>, t: seq<bit>)
    requires Accepted(dl) && p.Copy? && q.Copy? && p.lsym == q.lsym && WellFormed(p) && WellFormed(q)
    requires p.dsym < |dl| && dl[p.dsym] >= 1 && q.dsym < |dl| && dl[q.dsym] >= 1
    requires AfterSymbol(dl, p) + s == AfterSymbol(dl, q) + t
    ensures p == q && s == t
  {
    hide CodeBits, LsbBits, LsbVal, Accepted, Pow2;
    ExtrasBack(dl, p, s);
    ExtrasBack(dl, q, t);
    var e := LEN_EXTRA[p.lsym];
    var x: seq<bit> := LsbBits(p.dextra, DIST_EXTRA[p.dsym]) + s;
    var y: seq<bit> := LsbBits(q.dextra, DIST_EXTRA[q.dsym]) + t;
    MatchCode(dl, p.dsym, x);
    MatchCode(dl, q.dsym, y);
    assert x == y;
    ReadBack(p.dextra, DIST_EXTRA[p.dsym], s);
    ReadBack(q.dextra, DIST_EXTRA[q.dsym], t);
  }

  lemma ExtrasBack(dl: seq<nat>, p: Token, s: seq<bit>)
    requires p.Copy? && WellFormed(p) && p.dsym < |dl| && dl[p.dsym] >= 1
    ensures var bs, e := AfterSymbol(dl, p) + s, LEN_EXTRA[p.lsym];
      && |bs| >= e && LsbVal(bs[..e]) == p.lextra
      && bs[e..] == CodeBits(dl, p.dsym) + (LsbBits(p.dextra, DIST_EXTRA[p.dsym]) + s)
  {
    hide CodeBits, LsbVal;
    var a: seq<bit>, c := LsbBits(p.lextra, LEN_EXTRA[p.lsym]), CodeBits(dl, p.dsym);
    var d: seq<bit> := LsbBits(p.dextra, DIST_EXTRA[p.dsym]);
    assert (a + (c + d)) + s == a + (c + (d + s));
    ReadBack(p.lextra, LEN_EXTRA[p.lsym], c + (d + s));
  }

  lemma TokenUnique(ll: seq<nat>, dl: seq<nat>, p: Token, q: Token, s: seq<bit>, t: seq<bit>)
    requires Accepted(ll) && Accepted(dl) && Encodable(ll, dl, p) && Encodable(ll, dl, q)
    requires EncodeToken(ll, dl, p) + s == EncodeToken(ll, dl, q) + t
    ensures p == q && s == t
  {
    hide EncodeToken, CodeBits, Accepted, Match, WellFormed, AfterSymbol;
    TokenParts(ll, dl, p, s);
    TokenParts(ll, dl, q, t);
    MatchCode(ll, Symbol(p), AfterSymbol(dl, p) + s);
    MatchCode(ll, Symbol(q), AfterSymbol(dl, q) + t);
    if p.Copy? {
      PairUnique(dl, p, q, s, t);
    } else {
      NothingAfter(dl, p, s);
      NothingAfter(dl, q, t);
    }
  }

  lemma NothingAfter(dl: seq<nat>, t: Token, s: seq<bit>)
    requires t.Literal?
    ensures AfterSymbol(dl, t) + s == s
  {
  }

  /** A token never looks like the end of the block. */
  lemma TokenIsNotEnd(ll: seq<nat>, dl: seq<nat>, p: Token, s: seq<bit>, t: seq<bit>)
    requires Accepted(ll) && Encodable(ll, dl, p) && END_OF_BLOCK < |ll| && ll[END_OF_BLOCK] >= 1
    ensures EncodeToken(ll, dl, p) + s != CodeBits(ll, END_OF_BLOCK) + t
  {
    hide EncodeToken, CodeBits, Accepted, Match, WellFormed, AfterSymbol;
    TokenParts(ll, dl, p, s);
    MatchCode(ll, Symbol(p), AfterSymbol(dl, p) + s);
    MatchCode(ll, END_OF_BLOCK, t);
  }

  lemma {:induction false} TokensUnique(ll: seq<nat>, dl: seq<nat>, ps: seq<Token>, qs: seq<Token>, s: seq<bit>, t: seq<bit>)
    requires Accepted(ll) && Accepted(dl) && END_OF_BLOCK < |ll| && ll[END_OF_BLOCK] >= 1
    requires forall i :: 0 <= i < |ps| ==> Encodable(ll, dl, ps[i])
    requires forall i :: 0 <= i < |qs| ==> Encodable(ll, dl, qs[i])
    requires EncodeTokens(ll, dl, ps) + s == EncodeTokens(ll, dl, qs) + t
    ensures ps == qs && s == t
    decreases |ps|
  {
    hide EncodeToken, CodeBits, Accepted, Encodable;
    if ps != [] && qs != [] {
      TokensSplit(ll, dl, ps, s);
      TokensSplit(ll, dl, qs, t);
      var u, v := EncodeTokens(ll, dl, ps[1..]) + s, EncodeTokens(ll, dl, qs[1..]) + t;
      TokenUnique(ll, dl, ps[0], qs[0], u, v);
      TokensUnique(ll, dl, ps[1..], qs[1..], s, t);
      assert ps == [ps[0]] + ps[1..] && qs == [qs[0]] + qs[1..];
    } else if ps != [] {
      TokensSplit(ll, dl, ps, s);
      TokenIsNotEnd(ll, dl, ps[0], EncodeTokens(ll, dl, ps[1..]) + s, t);
    } else if qs != [] {
      TokensSplit(ll, dl, qs, t);
      TokenIsNotEnd(ll, dl, qs[0], EncodeTokens(ll, dl, qs[1..]) + t, s);
    } else {
      MatchCode(ll, END_OF_BLOCK, s);
      MatchCode(ll, END_OF_BLOCK, t);
    }
  }

  lemma TokensSplit(ll: seq<nat>, dl: seq<nat>, ts: seq<Token>, s: seq<bit>)
    requires END_OF_BLOCK < |ll| && ll[END_OF_BLOCK] >= 1 && ts != []
    requires forall i :: 0 <= i < |ts| ==> Encodable(ll, dl, ts[i])
    ensures EncodeTokens(ll, dl, ts) + s == EncodeToken(ll, dl, ts[0]) + (EncodeTokens(ll, dl, ts[1..]) + s)
  {
    hide EncodeToken, CodeBits, Encodable;
  }

  // ---- blocks -------------------------------------------------------------------------------------

  /** The same block, up to the padding bits in front of stored bytes, which mean nothing. */
  predicate Alike(b: Block, c: Block) {
    if b.Stored? then c.Stored? && c.data == b.data else c == b
  }

  lemma {:induction false} BytesUnique(a: seq<byte>, b: seq<byte>, s: seq<bit>, t: seq<bit>)
    requires |a| == |b| && BytesBits(a) + s == BytesBits(b) + t
    ensures a == b && s == t
  {
    hide BytesBits, TakeBytes;
    TakeBytesOfBytesBits(a, s);
    TakeBytesOfBytesBits(b, t);
    assert (BytesBits(a) + s)[8 * |a|..] == s && (BytesBits(b) + t)[8 * |b|..] == t;
  }

  /** The parts of a stored block behind its padding. */
  lemma StoredParts(p: nat, pad: nat, data: seq<byte>, s: seq<bit>)
    requires |data| < 65536
    ensures var bs := (LsbBits(p, pad) + (LsbBits(|data|, 16) + (LsbBits(65535 - |data|, 16) + BytesBits(data)))) + s;
      |bs| >= pad + 32 && LsbVal(bs[pad..][..16]) == |data| && bs[pad + 32..] == BytesBits(data) + s
  {
    hide BytesBits, LsbVal;
    Powers();
    var a, b, c: seq<bit> := LsbBits(p, pad), LsbBits(|data|, 16), LsbBits(65535 - |data|, 16);
    var d: seq<bit> := BytesBits(data);
    assert (a + (b + (c + d))) + s == a + (b + (c + (d + s)));
    assert (a + (b + (c + (d + s))))[pad..] == b + (c + (d + s));
    ReadBack(|data|, 16, c + (d + s));
  }

  lemma BodyUnique(b: Block, c: Block, before: nat, n: nat, s: seq<bit>, t: seq<bit>)
    requires Formed(b, n) && Formed(c, n) && Kind(b) == Kind(c)
    requires EncodeBody(b, before, n) + s == EncodeBody(c, before, n) + t
    ensures Alike(b, c) && s == t
  {
    hide EncodeBody, ClippedHeader, ValidTokens;
    if b.Stored? {
      StoredUnique(b, c, before, n, s, t);
    } else if b.Fixed? {
      FixedBodyUnique(b, c, before, n, s, t);
    } else {
      DynamicUnique(b, c, before, n, s, t);
    }
  }

  lemma StoredUnique(b: Block, c: Block, before: nat, n: nat, s: seq<bit>, t: seq<bit>)
    requires b.Stored? && c.Stored? && Formed(b, n) && Formed(c, n)
    requires EncodeBody(b, before, n) + s == EncodeBody(c, before, n) + t
    ensures b.data == c.data && s == t
  {
    hide EncodeBody, LsbVal, BytesBits, Padding;
    var bs := EncodeBody(b, before, n) + s;
    StoredShows(b, before, n, s, bs);
    StoredShows(c, before, n, t, bs);
    BytesUnique(b.data, c.data, s, t);
  }

  lemma StoredShows(b: Block, before: nat, n: nat, s: seq<bit>, bs: seq<bit>)
    requires b.Stored? && Formed(b, n) && bs == EncodeBody(b, before, n) + s
    ensures |bs| >= Padding(before) + 32 && LsbVal(bs[Padding(before)..][..16]) == |b.data|
    ensures bs[Padding(before) + 32..] == BytesBits(b.data) + s
  {
    hide LsbBits, LsbVal, BytesBits, Padding;
    StoredParts(b.padding, Padding(before), b.data, s);
  }

  lemma FixedBodyUnique(b: Block, c: Block, before: nat, n: nat, s: seq<bit>, t: seq<bit>)
    requires b.Fixed? && c.Fixed? && Formed(b, n) && Formed(c, n)
    requires EncodeBody(b, before, n) + s == EncodeBody(c, before, n) + t
    ensures b == c && s == t
  {
    hide EncodeTokens, ValidTokens, FixedLitLengths, FixedDistLengths;
    FixedUnique(b.tokens, c.tokens, n, s, t);
  }

  lemma FixedUnique(ps: seq<Token>, qs: seq<Token>, n: nat, s: seq<bit>, t: seq<bit>)
    requires ValidTokens(FixedLitLengths(), FixedDistLengths(), ps, n) && ValidTokens(FixedLitLengths(), FixedDistLengths(), qs, n)
    requires EncodeTokens(FixedLitLengths(), FixedDistLengths(), ps) + s == EncodeTokens(FixedLitLengths(), FixedDistLengths(), qs) + t
    ensures ps == qs && s == t
  {
    hide EncodeTokens, Encodable, InWindow, Accepted;
    FixedCodesAccepted();
    TokensUnique(FixedLitLengths(), FixedDistLengths(), ps, qs, s, t);
  }

  lemma DynamicUnique(b: Block, c: Block, before: nat, n: nat, s: seq<bit>, t: seq<bit>)
    requires Formed(b, n) && Formed(c, n) && b.Dynamic? && c.Dynamic?
    requires EncodeBody(b, before, n) + s == EncodeBody(c, before, n) + t
    ensures b == c && s == t
  {
    hide EncodeHeader, EncodeTokens, SpellsOut, Accepted, Encodable, InWindow;
    var g, h := b.header, c.header;
    var x, y := EncodeTokens(g.ll, g.dl, b.tokens), EncodeTokens(h.ll, h.dl, c.tokens);
    assert (EncodeHeader(g) + x) + s == EncodeHeader(g) + (x + s);
    assert (EncodeHeader(h) + y) + t == EncodeHeader(h) + (y + t);
    HeaderUnique(g, h, x + s, y + t);
    TokensUnique(g.ll, g.dl, b.tokens, c.tokens, s, t);
  }

  lemma BlockUnique(b: Block, c: Block, l: bool, m: bool, before: nat, n: nat, s: seq<bit>, t: seq<bit>)
    requires Formed(b, n) && Formed(c, n) && EncodeBlock(b, l, before, n) + s == EncodeBlock(c, m, before, n) + t
    ensures l == m && Alike(b, c) && s == t && |EncodeBlock(b, l, before, n)| == |EncodeBlock(c, m, before, n)|
  {
    hide EncodeBlock, EncodeBody, Formed, Alike;
    BlockHeader(b, l, before, n, s);
    BlockHeader(c, m, before, n, t);
    BodyUnique(b, c, before + 3, n, s, t);
  }

  lemma AlikeExpands(b: Block, c: Block, out: seq<byte>)
    requires Formed(b, |out|) && Formed(c, |out|) && Alike(b, c)
    ensures ExpandBlock(b, out) == ExpandBlock(c, out)
  {
    hide ClippedHeader, ValidTokens, Expand;
  }

  ghost predicate AllAlike(bs: seq<Block>, cs: seq<Block>) {
    |bs| == |cs| && forall i :: 0 <= i < |bs| ==> Alike(bs[i], cs[i])
  }

  /** The encoding is injective, up to padding, whatever follows. */
  lemma {:induction false} BlocksUnique(bs: seq<Block>, cs: seq<Block>, out: seq<byte>, before: nat, s: seq<bit>, t: seq<bit>)
    requires FormedBlocks(bs, out) && FormedBlocks(cs, out)
    requires EncodeBlocks(bs, out, before) + s == EncodeBlocks(cs, out, before) + t
    ensures AllAlike(bs, cs) && s == t
    decreases |bs|
  {
    hide EncodeBlock, Formed, ExpandBlock, Alike;
    var l, m := |bs| == 1, |cs| == 1;
    var x := BlocksSplit(bs, out, before, s);
    var y := BlocksSplit(cs, out, before, t);
    BlockUnique(bs[0], cs[0], l, m, before, |out|, x, y);
    AlikeExpands(bs[0], cs[0], out);
    if !l {
      var n := before + |EncodeBlock(bs[0], l, before, |out|)|;
      BlocksUnique(bs[1..], cs[1..], ExpandBlock(bs[0], out), n, s, t);
      AlikeCons(bs, cs);
    }
  }

  lemma AlikeCons(bs: seq<Block>, cs: seq<Block>)
    requires bs != [] && cs != [] && Alike(bs[0], cs[0]) && AllAlike(bs[1..], cs[1..])
    ensures AllAlike(bs, cs)
  {
    hide Alike;
    forall i | 0 <= i < |bs|
      ensures Alike(bs[i], cs[i])
    {
      if i > 0 {
        assert bs[i] == bs[1..][i - 1] && cs[i] == cs[1..][i - 1];
      }
    }
  }

  lemma BlocksSplit(bs: seq<Block>, out: seq<byte>, before: nat, s: seq<bit>) returns (x: seq<bit>)
    requires FormedBlocks(bs, out)
    ensures EncodeBlocks(bs, out, before) + s == EncodeBlock(bs[0], |bs| == 1, before, |out|) + x
    ensures |bs| == 1 ==> x == s
    ensures |bs| > 1 ==> x == EncodeBlocks(bs[1..], ExpandBlock(bs[0], out), before + |EncodeBlock(bs[0], false, before, |out|)|) + s
  {
    hide EncodeBlock, Formed, ExpandBlock;
    if |bs| == 1 {
      x := s;
    } else {
      var e := EncodeBlock(bs[0], false, before, |out|);
      var more := EncodeBlocks(bs[1..], ExpandBlock(bs[0], out), before + |e|);
      x := more + s;
      assert (e + more) + s == e + (more + s);
    }
  }

  // ---- streams of the format ------------------------------------------------------------------------

  predicate AllInFormat(bs: seq<Block>) { forall i :: 0 <= i < |bs| ==> InFormat(bs[i]) }

  /** The bits begin with a stream of section 3.2.3. */
  ghost predicate FormatStream(bits: seq<bit>) {
    exists cs :: ValidBlocks(cs, []) && EncodeBlocks(cs, [], 0) <= bits
  }

  /** Bits that begin with the encoding of blocks begin with a stream of the format exactly when no
      header's last run overshoots and no 258 is spelled by length symbol 284. */
  lemma InFormatExactly(bits: seq<bit>, bs: seq<Block>)
    requires FormedBlocks(bs, []) && EncodeBlocks(bs, [], 0) <= bits
    ensures FormatStream(bits) <==> AllInFormat(bs)
  {
    hide FormedBlocks, EncodeBlocks, InFormat, Alike;
    if AllInFormat(bs) {
      assert ValidBlocks(bs, []);
    }
    if cs :| ValidBlocks(cs, []) && EncodeBlocks(cs, [], 0) <= bits {
      BlocksUnique(bs, cs, [], 0, bits[|EncodeBlocks(bs, [], 0)|..], bits[|EncodeBlocks(cs, [], 0)|..]);
      forall i | 0 <= i < |bs|
        ensures InFormat(bs[i])
      {
        assert Alike(bs[i], cs[i]) && InFormat(cs[i]);
        AlikeInFormat(bs[i], cs[i]);
      }
    }
  }

  lemma AlikeInFormat(b: Block, c: Block)
    requires Alike(b, c) && InFormat(c)
    ensures InFormat(b)
  {
  }

  /** On every byte string that begins with a stream of the format whose expansion fits, inflate_raw
      gives the expansion exactly when no header has more than MAX_DIST distance lengths; otherwise
      it fails with -15. */
  lemma FormatDecodes(bs: seq<Block>, src: seq<byte>, cap: nat)
    requires ValidBlocks(bs, []) && EncodeBlocks(bs, [], 0) <= BytesBits(src) && |ExpandBlocks(bs, [])| <= cap
    ensures DecodeStream(BytesBits(src), [], cap).Done? <==> AllNarrow(bs)
    ensures AllNarrow(bs) ==> DecodeStream(BytesBits(src), [], cap).out == ExpandBlocks(bs, [])
    ensures !AllNarrow(bs) ==> DecodeStream(BytesBits(src), [], cap) == Fail(-15)
  {
    hide FormedBlocks, EncodeBlocks, ExpandBlocks, BytesBits, DecodeStream, AllNarrow, InFormat;
    InflateInvertsEncoding(bs, src, cap);
  }

  /** The stream of one empty block with a header that overshoots is decoded, to nothing; it is no
      stream of the format. */
  lemma CutStreamAccepted()
    ensures FormedBlocks([Dynamic(CUT_HEADER, [])], [])
    ensures var src := Pack(EncodeBlocks([Dynamic(CUT_HEADER, [])], [], 0)); var o := DecodeStream(BytesBits(src), [], 0);
      o.Done? && o.out == [] && !FormatStream(BytesBits(src))
  {
    hide ClippedHeader, Overshoots, EncodeBlocks, Pack, BytesBits, DecodeStream, FormatStream;
    CutHeaderAccepted([]);
    var bs := [Dynamic(CUT_HEADER, [])];
    assert !InFormat(bs[0]);
    InflateInvertsPacking(bs, 0);
    PackKeepsBits(EncodeBlocks(bs, [], 0));
    InFormatExactly(BytesBits(Pack(EncodeBlocks(bs, [], 0))), bs);
  }

  /** A literal and a copy of 258 spelled by symbol 284. */
  const LONG_BLOCK := Fixed([Literal(97), Copy(27, 31, 0, 0)])

  lemma LongFormed()
    ensures FormedBlocks([LONG_BLOCK], []) && AllNarrow([LONG_BLOCK]) && !AllInFormat([LONG_BLOCK])
    ensures |ExpandBlocks([LONG_BLOCK], [])| == 259
  {
    hide CopyMatch;
    var ts := LONG_BLOCK.tokens;
    assert Pow2(5) == 32 && Pow2(0) == 1;
    assert ts[1..] == [ts[1]] && ts[1..][1..] == [];
    assert WellFormed(ts[0]) && WellFormed(ts[1]) && Distance(ts[1]) == 1 && Length(ts[1]) == 258;
    assert InWindow(ts[1..], 1);
    assert InWindow(ts, 0);
    assert Expand(ts[1..], [97]) == Append(ts[1], [97]);
    assert Append(ts[0], []) == [97];
    assert Expand(ts, []) == Expand(ts[1..], [97]);
    assert !InTable(ts[1]);
    assert !InFormat([LONG_BLOCK][0]);
  }

  /** inflate_raw decodes it, and no stream of the format has these bits. */
  lemma LongStreamAccepted()
    ensures FormedBlocks([LONG_BLOCK], [])
    ensures var src := Pack(EncodeBlocks([LONG_BLOCK], [], 0));
      DecodeStream(BytesBits(src), [], 259).Done? && !FormatStream(BytesBits(src))
  {
    hide FormedBlocks, EncodeBlocks, ExpandBlocks, Pack, BytesBits, DecodeStream, AllNarrow, AllInFormat, FormatStream;
    LongFormed();
    var bs := [LONG_BLOCK];
    InflateInvertsPacking(bs, 259);
    PackKeepsBits(EncodeBlocks(bs, [], 0));
    InFormatExactly(BytesBits(Pack(EncodeBlocks(bs, [], 0))), bs);
  }
}
