/** The LZNT1 format (section 2.5 of MS-XCA), as kext/ntfs_compress.c reads it.

    A compression block is a sequence of sub-blocks, each the compressed form of 4096 bytes. A compressed sub-block
    holds tokens in groups of eight behind a tag byte: a byte to copy, or a phrase of bytes that stand further up in
    the same sub-block. How many bits of a phrase are distance and how many are length depends on the position. */
module Lznt1 {
  import opened Bytes
  import opened AttrArea

  const SB_SIZE := 4096

  // ----- The split between distance and length

  /** Halvings of `u` until it is below 16. */
  function Lg(u: nat): (r: nat)
  {
    if u >= 16 then 1 + Lg(u / 2) else 0
  }

  /** 2^(12 - lg): the low part of a phrase token, its length less 3, is below this. */
  function Unit(lg: nat): (r: nat)
    requires lg <= 8
  {
    [4096, 2048, 1024, 512, 256, 128, 64, 32, 16][lg]
  }

  /** 2^(4 + lg): the high part, the distance less 1, is below this. */
  function Window(lg: nat): (r: nat)
    requires lg <= 8
  {
    [16, 32, 64, 128, 256, 512, 1024, 2048, 4096][lg]
  }

  lemma {:induction false} LgRange(u: nat)
    requires u < SB_SIZE
    ensures Lg(u) <= 8 && u < Window(Lg(u)) && (Lg(u) > 0 ==> u >= Window(Lg(u) - 1))
    ensures Unit(Lg(u)) * Window(Lg(u)) == 0x10000
  {
    if u >= 16 {
      assert u / 2 < 2048;
      LgRange(u / 2);
      if u / 2 >= 16 {
        LgHalf(u / 2);
      }
    }
  }

  lemma LgHalf(u: nat)
    requires 16 <= u < 2048 && Lg(u) <= 8 && (Lg(u) > 0 ==> u >= Window(Lg(u) - 1))
    ensures Lg(u) <= 7
  {
  }

  function Pow2(n: nat): (r: nat)
    ensures r > 0
  {
    if n == 0 then 1 else 2 * Pow2(n - 1)
  }

  lemma PowTable(lg: nat)
    requires lg <= 8
    ensures Pow2(12 - lg) == Unit(lg) && Pow2(4 + lg) == Window(lg)
  {
    assert Pow2(4) == 16;
    assert Pow2(5) == 32;
    assert Pow2(6) == 64;
    assert Pow2(7) == 128;
    assert Pow2(8) == 256;
    assert Pow2(9) == 512;
    assert Pow2(10) == 1024;
    assert Pow2(11) == 2048;
    assert Pow2(12) == 4096;
  }

  /** The split by position of section 2.5 of MS-XCA: with U bytes in the window the distance takes M bits, M being the
      largest number in 4..12 such that 2^(M - 1) < U, or 4 if there is none. */
  lemma SplitAsSpecified(pos: nat)
    requires 0 < pos <= SB_SIZE
    ensures var m := 4 + Lg(pos - 1);
            && 4 <= m <= 12
            && (m == 4 || Pow2(m - 1) < pos)
            && (forall k :: m <= k < 12 ==> Pow2(k) >= pos)
            && Unit(Lg(pos - 1)) == Pow2(16 - m)
  {
    hide Lg, Pow2;
    var lg := Lg(pos - 1);
    LgRange(pos - 1);
    PowTable(lg);
    if lg > 0 {
      PowTable(lg - 1);
    }
    forall k | 4 + lg <= k < 12
      ensures Pow2(k) >= pos
    {
      PowGrows(4 + lg, k);
    }
  }

  /** The loop the driver's documentation gives for the mask of the length and the shift of the distance. The driver
      computes lg of the same position and uses `0xfff >> lg` and `12 - lg`. */
  method DocumentedSplit(curPos: nat) returns (lMask: nat, pShift: nat)
    requires curPos < SB_SIZE
    ensures Lg(curPos) <= 8 && lMask == Unit(Lg(curPos)) - 1 && pShift == 12 - Lg(curPos)
    ensures Pow2(pShift) == Unit(Lg(curPos))
  {
    LgRange(curPos);
    PowTable(Lg(curPos));
    var i := curPos;
    ghost var n := 0;
    lMask, pShift := 0xfff, 12;
    while i >= 0x10
      invariant n + Lg(i) == Lg(curPos) && n <= 8 && lMask == Unit(n) - 1 && pShift == 12 - n
    {
      lMask := lMask / 2;
      pShift := pShift - 1;
      i := i / 2;
      n := n + 1;
    }
  }

  /** Every byte already produced can be reached: each distance has a code. */
  lemma WindowReachable(pos: nat, dist: nat)
    requires 0 < dist <= pos <= SB_SIZE
    ensures Lg(pos - 1) <= 8 && (dist - 1) * Unit(Lg(pos - 1)) + (Unit(Lg(pos - 1)) - 1) < 0x10000
  {
    LgRange(pos - 1);
    var lg := Lg(pos - 1);
    assert dist - 1 <= Window(lg) - 1;
    Scaled(dist - 1, Window(lg) - 1, Unit(lg));
  }

  /** Distance and length in a phrase token. */
  function Distance(pt: nat, lg: nat): (r: nat)
    requires lg <= 8
    ensures r >= 1
  {
    pt / Unit(lg) + 1
  }

  function Length(pt: nat, lg: nat): (r: nat)
    requires lg <= 8
    ensures r >= 3
  {
    pt % Unit(lg) + 3
  }

  /** And back. */
  function PhraseCode(dist: nat, len: nat, lg: nat): (r: nat)
    requires lg <= 8 && 1 <= dist && 3 <= len
  {
    (dist - 1) * Unit(lg) + (len - 3)
  }

  lemma PhraseParts(dist: nat, len: nat, lg: nat)
    requires lg <= 8 && 1 <= dist && 3 <= len <= Unit(lg) + 2
    ensures Distance(PhraseCode(dist, len, lg), lg) == dist && Length(PhraseCode(dist, len, lg), lg) == len
  {
    hide Unit;
    TokenParts(dist, len, Unit(lg));
  }

  // ----- Expansion

  /** `len` bytes copied from `dist` bytes back, one by one, so that bytes just written may be copied again. */
  function CopyBack(o: seq<byte>, dist: nat, len: nat): (r: seq<byte>)
    requires 1 <= dist <= |o|
    ensures |r| == |o| + len
    decreases len
  {
    if len == 0 then o else CopyBack(o + [o[|o| - dist]], dist, len - 1)
  }

  /** It is the one way to go on such that every byte equals the one `dist` before it. */
  lemma {:induction false} CopyBackUnique(o: seq<byte>, dist: nat, r: seq<byte>)
    requires 1 <= dist <= |o| <= |r| && r[..|o|] == o
    requires forall i :: |o| <= i < |r| ==> r[i] == r[i - dist]
    ensures r == CopyBack(o, dist, |r| - |o|)
    decreases |r| - |o|
  {
    if |r| == |o| {
      assert r == r[..|o|];
    } else {
      var o' := o + [o[|o| - dist]];
      assert r[..|o|][|o| - dist] == r[|o| - dist];
      assert r[..|o| + 1] == r[..|o|] + [r[|o|]];
      CopyBackUnique(o', dist, r);
    }
  }

  datatype Token = Symbol(b: byte) | Phrase(dist: nat, len: nat)

  /** The token makes sense behind `n` bytes of the sub-block. */
  ghost predicate TokenOk(t: Token, n: nat) {
    match t
    case Symbol(_) => n < SB_SIZE
    case Phrase(d, l) => 1 <= d <= n <= SB_SIZE && Lg(n - 1) <= 8 && 3 <= l <= Unit(Lg(n - 1)) + 2 && n + l <= SB_SIZE
  }

  ghost function Step(o: seq<byte>, t: Token): (r: seq<byte>)
    requires TokenOk(t, |o|)
    ensures |o| < |r| <= SB_SIZE
  {
    match t
    case Symbol(b) => o + [b]
    case Phrase(d, l) => CopyBack(o, d, l)
  }

  ghost predicate TokensOk(ts: seq<Token>, o: seq<byte>)
    decreases |ts|
  {
    ts != [] ==> TokenOk(ts[0], |o|) && TokensOk(ts[1..], Step(o, ts[0]))
  }

  /** The bytes that the tokens stand for. */
  ghost function Expand(ts: seq<Token>, o: seq<byte>): (r: seq<byte>)
    requires TokensOk(ts, o)
    ensures |o| <= SB_SIZE ==> |r| <= SB_SIZE
    decreases |ts|
  {
    if ts == [] then o else Expand(ts[1..], Step(o, ts[0]))
  }

  // ----- Encoding

  ghost function EncodeToken(t: Token, n: nat): (r: seq<byte>)
    requires TokenOk(t, n)
    ensures |r| == if t.Symbol? then 1 else 2
  {
    match t
    case Symbol(b) => [b]
    case Phrase(d, l) => WindowReachable(n, d); Put16(PhraseCode(d, l, Lg(n - 1)))
  }

  /** The tokens of a group, without the tag. */
  ghost function EncodeGroup(ts: seq<Token>, o: seq<byte>): (r: seq<byte>)
    requires TokensOk(ts, o)
    ensures |r| >= |ts|
    decreases |ts|
  {
    if ts == [] then [] else EncodeToken(ts[0], |o|) + EncodeGroup(ts[1..], Step(o, ts[0]))
  }

  /** The tag: bit `i` is set if token `i` is a phrase. */
  ghost function Tag(ts: seq<Token>): (r: nat)
    ensures r < Pow2(|ts|)
    decreases |ts|
  {
    if ts == [] then 0 else (if ts[0].Phrase? then 1 else 0) + 2 * Tag(ts[1..])
  }

  ghost function GroupSize(ts: seq<Token>): (r: nat)
    ensures r <= |ts| && r <= 8 && (ts != [] ==> r > 0)
  {
    if |ts| <= 8 then |ts| else 8
  }

  lemma TagFits(ts: seq<Token>)
    requires |ts| <= 8
    ensures Tag(ts) < 256
  {
    assert Pow2(8) == 256 by {
      PowTable(4);
    }
    PowGrows(|ts|, 8);
  }

  lemma {:induction false} PowGrows(a: nat, b: nat)
    requires a <= b
    ensures Pow2(a) <= Pow2(b)
    decreases b
  {
    if a < b {
      PowGrows(a, b - 1);
    }
  }

  lemma {:induction false} TokensSplit(ts: seq<Token>, o: seq<byte>, n: nat)
    requires TokensOk(ts, o) && n <= |ts|
    ensures TokensOk(ts[..n], o) && TokensOk(ts[n..], Expand(ts[..n], o))
    ensures Expand(ts, o) == Expand(ts[n..], Expand(ts[..n], o))
    decreases n
  {
    if n == 0 {
      assert ts[0..] == ts;
    } else {
      TokensSplit(ts[1..], Step(o, ts[0]), n - 1);
      assert ts[..n][1..] == ts[1..][..n - 1] && ts[1..][n - 1..] == ts[n..];
    }
  }

  /** The body of a compressed sub-block: groups of up to eight tokens, each behind its tag. */
  ghost function EncodeTokens(ts: seq<Token>, o: seq<byte>): (r: seq<byte>)
    requires TokensOk(ts, o)
    decreases |ts|
  {
    if ts == [] then []
    else
      var n := GroupSize(ts);
      TokensSplit(ts, o, n);
      TagFits(ts[..n]);
      [Tag(ts[..n])] + EncodeGroup(ts[..n], o) + EncodeTokens(ts[n..], Expand(ts[..n], o))
  }

  // ----- Decoding, as the driver does it

  /** What is left of a group: `s` are the bytes from here to the end of the sub-block, `tag` the bits and `t` the
      number of tokens taken, `o` the bytes produced. A range check that uses `>` lets one byte too many be
      produced. */
  function DecodeGroup(s: seq<byte>, tag: nat, t: nat, o: seq<byte>): (r: Option<seq<byte>>)
    requires t <= 8
    decreases |s|, 1, 8 - t
  {
    if t == 8 || s == [] || |o| > SB_SIZE then DecodeGroups(s, o)
    else if tag % 2 == 0 then DecodeGroup(s[1..], tag / 2, t + 1, o + [s[0]])
    else if o == [] || |s| == 1 then None
    else
      var pt, lg := LE16(s, 0), Lg(|o| - 1);
      if lg > 8 then None
      else
        var dist, len := Distance(pt, lg), Length(pt, lg);
        if dist > |o| || |o| + len > SB_SIZE then None
        else DecodeGroup(s[2..], tag / 2, t + 1, CopyBack(o, dist, len))
  }

  function DecodeGroups(s: seq<byte>, o: seq<byte>): (r: Option<seq<byte>>)
    decreases |s|, 0, 0
  {
    if s == [] then Some(o)
    else if |o| > SB_SIZE then None
    else DecodeGroup(s[1..], s[0], 0, o)
  }

  // ----- Decoding gives back what was encoded

  lemma TokenParts(d: nat, l: nat, u: nat)
    requires 1 <= d && 3 <= l && l - 3 < u
    ensures ((d - 1) * u + (l - 3)) / u == d - 1 && ((d - 1) * u + (l - 3)) % u == l - 3
  {
    var x, q, m := (d - 1) * u + (l - 3), d - 1, l - 3;
    assert x / u * u + x % u == x;
    if x / u < q {
      Scaled(x / u + 1, q, u);
    } else if x / u > q {
      Scaled(q + 1, x / u, u);
    }
  }

  lemma GroupEnds(tag: nat, t: nat, o: seq<byte>, rest: seq<byte>)
    requires t <= 8 && (t < 8 ==> rest == [])
    ensures DecodeGroup(rest, tag, t, o) == DecodeGroups(rest, o)
  {
    hide DecodeGroups;
  }

  lemma {:induction false} GroupDecodes(ts: seq<Token>, t: nat, o: seq<byte>, rest: seq<byte>)
    requires TokensOk(ts, o) && |o| <= SB_SIZE && t + |ts| <= 8 && (t + |ts| < 8 ==> rest == [])
    ensures DecodeGroup(EncodeGroup(ts, o) + rest, Tag(ts), t, o) == DecodeGroups(rest, Expand(ts, o))
    decreases |ts|
  {
    hide DecodeGroup, DecodeGroups, Step, TokenOk, EncodeToken, Pow2;
    if ts == [] {
      assert EncodeGroup(ts, o) + rest == rest;
      GroupEnds(Tag(ts), t, o, rest);
    } else {
      var tail := EncodeGroup(ts[1..], Step(o, ts[0])) + rest;
      var e := EncodeToken(ts[0], |o|);
      assert EncodeGroup(ts, o) + rest == e + tail;
      GroupDecodes(ts[1..], t + 1, Step(o, ts[0]), rest);
      TokenDecodes(ts[0], Tag(ts[1..]), t, o, tail);
    }
  }

  lemma TokenDecodes(tok: Token, tag: nat, t: nat, o: seq<byte>, tail: seq<byte>)
    requires TokenOk(tok, |o|) && |o| <= SB_SIZE && t < 8
    ensures DecodeGroup(EncodeToken(tok, |o|) + tail, (if tok.Phrase? then 1 else 0) + 2 * tag, t, o)
         == DecodeGroup(tail, tag, t + 1, Step(o, tok))
  {
    hide DecodeGroups, CopyBack, Lg, Unit, Distance, Length, PhraseCode;
    var s := EncodeToken(tok, |o|) + tail;
    if tok.Symbol? {
      assert s[1..] == tail;
    } else {
      PhraseDecodes(tok, tag, t, o, tail);
    }
  }

  lemma PhraseDecodes(tok: Token, tag: nat, t: nat, o: seq<byte>, tail: seq<byte>)
    requires TokenOk(tok, |o|) && tok.Phrase? && |o| <= SB_SIZE && t < 8
    ensures DecodeGroup(EncodeToken(tok, |o|) + tail, 1 + 2 * tag, t, o) == DecodeGroup(tail, tag, t + 1, Step(o, tok))
  {
    hide DecodeGroups, CopyBack, Lg, Unit, Distance, Length, PhraseCode;
    var s := EncodeToken(tok, |o|) + tail;
    WindowReachable(|o|, tok.dist);
    PhraseParts(tok.dist, tok.len, Lg(|o| - 1));
    assert s[2..] == tail;
    assert LE16(s, 0) == PhraseCode(tok.dist, tok.len, Lg(|o| - 1));
    assert (1 + 2 * tag) / 2 == tag && (1 + 2 * tag) % 2 == 1;
  }

  /** The body of a sub-block decodes to the expansion of its tokens. */
  lemma {:induction false} TokensDecode(ts: seq<Token>, o: seq<byte>)
    requires TokensOk(ts, o) && |o| <= SB_SIZE
    ensures DecodeGroups(EncodeTokens(ts, o), o) == Some(Expand(ts, o))
    decreases |ts|
  {
    hide DecodeGroup, Step, TokenOk, EncodeToken, Pow2, EncodeGroup, Tag, Expand, TokensOk;
    if ts == [] {
      NothingToExpand(o);
    } else {
      var n := GroupSize(ts);
      TokensSplit(ts, o, n);
      TagFits(ts[..n]);
      var g, m := EncodeGroup(ts[..n], o), Expand(ts[..n], o);
      var rest := EncodeTokens(ts[n..], m);
      TokensDecode(ts[n..], m);
      GroupDecodes(ts[..n], 0, o, rest);
      assert ([Tag(ts[..n])] + g + rest)[1..] == g + rest;
    }
  }

  lemma NothingToExpand(o: seq<byte>)
    ensures TokensOk([], o) && Expand([], o) == o
  {
  }
}
