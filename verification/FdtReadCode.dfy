/** kfdt_getprop on the bytes of the blob. */
module FdtReadCode {
  import opened Options
  import opened Fdt
  import opened FdtTree
  import opened FdtBlob
  import opened FdtEdit
  import opened FdtSet
  import opened FdtCode
  import opened FdtRead
  import opened FdtMeaning

  /** node_matches */
  method NodeMatchesAt(d: array<byte>, p: nat, comp: seq<byte>) returns (r: bool)
    requires p <= d.Length && Terminated(d[p..]) && 0 !in comp
    ensures r <==> NodeMatches(CStr(d[p..]), comp)
  {
    ghost var s := d[p..];
    var i := 0;
    while i < |comp|
      invariant i <= |comp| && i <= StrLen(s) && s[..i] == comp[..i] && AT_SIGN !in comp[..i]
    {
      assert s[i] == d[p + i];
      if d[p + i] == 0 || d[p + i] == AT_SIGN || d[p + i] != comp[i] {
        NoMatch(s, comp, i);
        return false;
      }
      i := i + 1;
    }
    assert s[i] == d[p + i];
    assert comp[..i] == comp;
    r := d[p + i] == 0 || d[p + i] == AT_SIGN;
  }

  lemma NoMatch(s: seq<byte>, comp: seq<byte>, i: nat)
    requires Terminated(s) && 0 !in comp && i < |comp| && i <= StrLen(s)
    requires s[i] == 0 || s[i] == AT_SIGN || s[i] != comp[i]
    ensures !NodeMatches(CStr(s), comp)
  {
    if comp <= CStr(s) {
      assert CStr(s)[i] == comp[i];
    }
  }

  // ---- the walk ---------------------------------------------------------------------------------

  ghost function Tokens(d: seq<byte>): (rs: seq<RItem>)
    requires Walkable(d)
    ensures |rs| == |ParseItems(Struct(d)).items|
  {
    Resolve(Strings(d), ParseItems(Struct(d)).items)
  }

  /** Every word the loop reads lies before the strings block. */
  lemma BeforeStrings(d: seq<byte>, k: nat)
    requires Walkable(d) && k <= |ParseItems(Struct(d)).items|
    ensures Pos(d, k) + 4 <= HGet(d, H_OFF_STRINGS) <= |d|
  {
    hide ParseItems, Be32, HGet, TokenOffset, NamesOk, Strings, ParseToken, Align4, Struct;
    var st := Struct(d);
    if k < |ParseItems(st).items| {
      TokenThere(st, k);
      TokenShape(st[TokenOffset(st, k)..]);
    } else {
      SplitTokens(st, k);
      NoToken(st[TokenOffset(st, k)..]);
    }
  }

  lemma PropInside(d: seq<byte>, k: nat)
    requires Walkable(d) && k < |ParseItems(Struct(d)).items| && ParseItems(Struct(d)).items[k].Prop?
    ensures var x := ParseItems(Struct(d)).items[k];
      Pos(d, k) + 12 + |x.value| <= HGet(d, H_OFF_STRINGS) && x.nameoff < HGet(d, H_TOTALSIZE)
  {
    hide ParseItems, Be32, HGet, TokenOffset, ParseToken, Align4, Struct, Strings;
    var st, x := Struct(d), ParseItems(Struct(d)).items[k];
    TokenThere(st, k);
    PropShape(st[TokenOffset(st, k)..]);
    assert NameOk(Strings(d), x.nameoff);
  }

  /** The loop, at token k. */
  ghost predicate Reading(d: seq<byte>, comps: seq<seq<byte>>, name: seq<byte>, k: nat, p: nat, depth: int, matched: int) {
    && Walkable(d) && k <= |Tokens(d)| && p == Pos(d, k)
    && GetFrom(Tokens(d), comps, name, 0, 0, 0) == GetFrom(Tokens(d), comps, name, k, depth, matched)
  }

  lemma ReadOn(d: seq<byte>, comps: seq<seq<byte>>, name: seq<byte>, k: nat, p: nat, depth: int, matched: int)
    requires Reading(d, comps, name, k, p, depth, matched) && k < |Tokens(d)|
    ensures match Tokens(d)[k]
      case RNop => Reading(d, comps, name, k + 1, Pos(d, k + 1), depth, matched)
      case RBegin(n) => Reading(d, comps, name, k + 1, Pos(d, k + 1), depth + 1, Enter(comps, n, depth, matched))
      case REnd => Reading(d, comps, name, k + 1, Pos(d, k + 1), depth - 1, Leave(depth, matched))
      case RProp(n, _) =>
        if matched == |comps| && depth == |comps| + 1 && n == name then GetFrom(Tokens(d), comps, name, 0, 0, 0) == Some(k)
        else Reading(d, comps, name, k + 1, Pos(d, k + 1), depth, matched)
  {
    hide Walkable, Tokens, Pos, Enter, Leave;
  }

  lemma ReadEnds(d: seq<byte>, comps: seq<seq<byte>>, name: seq<byte>, p: nat, depth: int, matched: int)
    requires Walkable(d) && Reading(d, comps, name, |Tokens(d)|, p, depth, matched)
    ensures GetFrom(Tokens(d), comps, name, 0, 0, 0) == None
  {
    hide Walkable, Tokens, Pos;
  }

  lemma ReadBegins(d: seq<byte>, comps: seq<seq<byte>>, name: seq<byte>)
    requires Walkable(d)
    ensures Reading(d, comps, name, 0, HGet(d, H_OFF_STRUCT), 0, 0)
  {
    hide HGet, NamesOk, Resolve, GetFrom, ParseItems;
  }

  /** The value at token k, where the reader points. */
  ghost predicate PointsAt(d: seq<byte>, k: nat, pos: nat, len: nat)
    requires Walkable(d) && k < |Tokens(d)|
  {
    var x := ParseItems(Struct(d)).items[k];
    x.Prop? && len == |x.value| && 0 < pos && pos + len <= |d| && d[pos..pos + len] == x.value
  }

  /** kfdt_getprop, the path given by its components: the position and length of the value, or 0. */
  method Getprop(d: array<byte>, comps: seq<seq<byte>>, name: seq<byte>) returns (pos: nat, len: nat)
    requires d.Length >= HEADER && 0 !in name && forall i :: 0 <= i < |comps| ==> 0 !in comps[i]
    requires HGet(d[..], 0) == MAGIC ==> Walkable(d[..])
    ensures HGet(d[..], 0) != MAGIC ==> pos == 0
    ensures HGet(d[..], 0) == MAGIC ==>
      match GetFrom(Tokens(d[..]), comps, name, 0, 0, 0)
      case None => pos == 0
      case Some(k) => PointsAt(d[..], k, pos, len)
  {
    hide Walkable, HGet, GetFrom, Tokens, PointsAt;
    var magic := HeaderWord(d, 0);
    if magic != MAGIC {
      return 0, 0;
    }
    var offStruct := HeaderWord(d, H_OFF_STRUCT);
    var offStrings := HeaderWord(d, H_OFF_STRINGS);
    var total := HeaderWord(d, H_TOTALSIZE);
    pos, len := ReadWalk(d, comps, name, offStruct, offStrings, total);
  }

  /** The token loop of kfdt_getprop. */
  method ReadWalk(d: array<byte>, comps: seq<seq<byte>>, name: seq<byte>, offStruct: nat, offStrings: nat, total: nat)
    returns (pos: nat, len: nat)
    requires Walkable(d[..]) && 0 !in name && forall i :: 0 <= i < |comps| ==> 0 !in comps[i]
    requires offStruct == HGet(d[..], H_OFF_STRUCT) && offStrings == HGet(d[..], H_OFF_STRINGS) && total == HGet(d[..], H_TOTALSIZE)
    ensures match GetFrom(Tokens(d[..]), comps, name, 0, 0, 0)
      case None => pos == 0
      case Some(k) => PointsAt(d[..], k, pos, len)
  {
    hide HGet, Reading, Be32, ParseItems, Resolve, Struct, Strings, Pos, Align4, NamesOk, StrLen, CStr, Layout, GetFrom, PointsAt, NodeMatches;
    ghost var o := d[..];
    ghost var items := ParseItems(Struct(o)).items;
    var p: nat, depth, matched := offStruct, 0, 0;
    ghost var k := 0;
    ReadBegins(o, comps, name);
    while true
      invariant k <= |items| && Reading(o, comps, name, k, p, depth, matched)
      decreases |items| - k
    {
      ReadingIs(o, comps, name, k, p, depth, matched);
      BeforeStrings(o, k);
      if p + 4 > offStrings { break; }
      if k == |items| {
        AtTheEnd(o, k);
        ReadEnds(o, comps, name, p, depth, matched);
      } else {
        AtToken(o, k);
        ReadOn(o, comps, name, k, p, depth, matched);
      }
      var tok := Load32(d, p);
      p := p + 4;
      if tok == END { break; }
      if tok == NOP {
      } else if tok == BEGIN_NODE {
        NodeName(o, k);
        var n := StrLenAt(d, p);
        var at := p;
        p := p + Align4(n + 1);
        depth := depth + 1;
        if depth >= 2 {
          var ci := depth - 2;
          if matched == ci && ci < |comps| {
            var m := NodeMatchesAt(d, at, comps[ci]);
            if m {
              matched := ci + 1;
            }
          }
        }
      } else if tok == END_NODE {
        if matched > depth - 2 {
          matched := depth - 2;
        }
        if matched < 0 {
          matched := 0;
        }
        depth := depth - 1;
      } else if tok == PROP {
        PropWords(o, k);
        PropInside(o, k);
        PropName(o, k);
        if p + 8 > offStrings { break; }
        var vlen := Load32(d, p);
        var noff := Load32(d, p + 4);
        p := p + 8;
        if vlen > offStrings - p || noff >= total { break; }
        var pval := p;
        p := p + Align4(vlen);
        if matched == |comps| && depth == |comps| + 1 {
          var same := StrEqAt(d, offStrings + noff, name);
          if same {
            ValueAtToken(o, k, pval, vlen);
            return pval, vlen;
          }
        }
      } else {
        return 0, 0;
      }
      k := k + 1;
    }
    return 0, 0;
  }

  lemma ReadingIs(d: seq<byte>, comps: seq<seq<byte>>, name: seq<byte>, k: nat, p: nat, depth: int, matched: int)
    requires Reading(d, comps, name, k, p, depth, matched)
    ensures Walkable(d) && k <= |ParseItems(Struct(d)).items| && p == Pos(d, k)
    ensures |Tokens(d)| == |ParseItems(Struct(d)).items|
    ensures k < |Tokens(d)| ==> Tokens(d)[k] == ResolveOne(Strings(d), ParseItems(Struct(d)).items[k])
  {
    hide HGet, GetFrom, ParseItems, ResolveOne;
    assert k < |Tokens(d)| && ParseItems(Struct(d)).items[k].Prop? ==> NameOk(Strings(d), ParseItems(Struct(d)).items[k].nameoff);
  }

  lemma ValueAtToken(d: seq<byte>, k: nat, pos: nat, len: nat)
    requires Walkable(d) && k < |Tokens(d)| && ParseItems(Struct(d)).items[k].Prop?
    requires pos == Pos(d, k) + 12 && len == |ParseItems(Struct(d)).items[k].value|
    ensures PointsAt(d, k, pos, len)
  {
    hide HGet, ParseItems, Struct, Strings, NamesOk, Resolve;
    PropWords(d, k);
    ValueInBlob(d, k, Pos(d, k));
  }

  /** The bootloader writes and the kernel reads: what comes out is the command line that went in exactly
      when no other bootargs shadows it and the old value was not in the corner. */
  method BootRoundTrip(d: array<byte>, s: seq<byte>, ghost t: Doc) returns (code: int, pos: nat, len: nat)
    requires Represents(d[..], t) && Walkable(d[..]) && Room(d[..], s) && !Wanted(t).Nowhere? && 0 !in s
    modifies d
    ensures code == 0 && pos + len <= d.Length
    ensures ReadsAs(if pos == 0 then None else Some(d[pos..pos + len]), s) <==>
      if Shadowed(t, SpotOf(t).c) then ReadsAs(BlobReads(old(d[..])), s) else !Corner(t, s)
  {
    hide Represents, HGet, Room, SetBlob, Shadowed, Corner, ReadsAs, Wanted, SpotOf, Tokens, GetFrom, ParseItems, NamesOk, Struct, Strings, Walked;
    ghost var o := d[..];
    EditMeans(o, t, s);
    BlobReadsBack(o, t, s);
    MagicOf(o, t);
    code := FdtCode.SetBootargs(d, s);
    MagicOf(d[..], Walked(t, s));
    pos, len := Getprop(d, [CHOSEN], BOOTARGS);
    ReadsThere(d[..], pos, len);
    if pos == 0 {
      len := 0;
    }
  }

  lemma MagicOf(d: seq<byte>, t: Doc)
    requires Represents(d, t)
    ensures |d| >= HEADER && HGet(d, 0) == MAGIC && LayoutTest(d)
  {
    hide HGet, Resolve, FlattenDoc, NamesOk, Found;
    WellFormed(d, t);
  }

  lemma ReadsThere(d: seq<byte>, pos: nat, len: nat)
    requires Walkable(d)
    requires match GetFrom(Tokens(d), [CHOSEN], BOOTARGS, 0, 0, 0)
      case None => pos == 0
      case Some(k) => PointsAt(d, k, pos, len)
    ensures pos > 0 ==> pos + len <= |d|
    ensures BlobReads(d) == if pos == 0 then None else Some(d[pos..pos + len])
  {
    hide GetFrom, Resolve, ParseItems, NamesOk, Struct, Strings;
  }
}
