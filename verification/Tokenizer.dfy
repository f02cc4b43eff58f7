/** The tokens that the body of a compressed sub-block spells, whatever they stand for, and which bodies the
    decompressor accepts (kext/ntfs_compress.c). */
module Tokenizer {
  import opened Bytes
  import opened AttrArea
  import opened Lznt1
  import opened Decompressor

  /** The tokens of a body; `spare` if there is a tag behind them that no token belongs to. */
  datatype Split = Split(tokens: seq<Token>, spare: bool)

  function Prepended(t: Token, r: Option<Split>): (q: Option<Split>) {
    if r.None? then None else Some(r.value.(tokens := [t] + r.value.tokens))
  }

  /** The rest of a group, behind `n` bytes. Nothing limits what the tokens stand for. */
  function TokenizeGroup(s: seq<byte>, tag: nat, t: nat, n: nat): (r: Option<Split>)
    requires t <= 8
    decreases |s|, 1
  {
    if t == 8 || s == [] then Tokenize(s, n)
    else if tag % 2 == 0 then Prepended(Symbol(s[0]), TokenizeGroup(s[1..], tag / 2, t + 1, n + 1))
    else if n == 0 || n > SB_SIZE || |s| == 1 then None
    else
      LgRange(n - 1);
      var pt, lg := LE16(s, 0), Lg(n - 1);
      Prepended(Phrase(Distance(pt, lg), Length(pt, lg)), TokenizeGroup(s[2..], tag / 2, t + 1, n + Length(pt, lg)))
  }

  function Tokenize(s: seq<byte>, n: nat): (r: Option<Split>)
    decreases |s|, 0
  {
    if |s| <= 1 then Some(Split([], s != [])) else TokenizeGroup(s[1..], s[0], 0, n)
  }

  /** The last token is a byte that stands right behind a full sub-block. */
  ghost predicate Spills(p: Split, o: seq<byte>) {
    && !p.spare && p.tokens != [] && p.tokens[|p.tokens| - 1].Symbol?
    && var front := p.tokens[..|p.tokens| - 1];
    TokensOk(front, o) && |Expand(front, o)| == SB_SIZE
  }

  /** What is decoded behind `o`, if anything, is what the tokens stand for, and all tokens are in range but for one
      byte. */
  ghost predicate Exactly(d: Option<seq<byte>>, k: Option<Split>, o: seq<byte>) {
    && (d.Some? <==> k.Some? && (TokensOk(k.value.tokens, o) || Spills(k.value, o)))
    && (k.Some? && TokensOk(k.value.tokens, o) ==> d == Some(Expand(k.value.tokens, o)))
    && (k.Some? && Spills(k.value, o) ==>
          var n := |k.value.tokens| - 1;
          d == Some(Expand(k.value.tokens[..n], o) + [k.value.tokens[n].b]))
  }

  lemma {:induction false} NothingLeft(s: seq<byte>, tag: nat, t: nat, n: nat)
    requires t <= 8 && s != []
    ensures var r := TokenizeGroup(s, tag, t, n);
            r.Some? && r.value.tokens == [] ==> r.value.spare
    decreases |s|
  {
    if t == 8 && |s| > 1 {
      NothingLeft(s[1..], s[0], 0, n);
    }
  }

  /** One token more in front, in range. */
  lemma TokenFirst(t: Token, d: Option<seq<byte>>, k: Option<Split>, o: seq<byte>)
    requires TokenOk(t, |o|) && Exactly(d, k, Step(o, t)) && (t.Symbol? ==> |o| < SB_SIZE)
    ensures Exactly(d, Prepended(t, k), o)
  {
    hide TokenOk, Step;
    if k.Some? {
      var ts := [t] + k.value.tokens;
      assert ts[1..] == k.value.tokens;
      if k.value.tokens != [] {
        var n := |k.value.tokens|;
        assert ts[..n] == [t] + k.value.tokens[..n - 1] && ts[..n][1..] == k.value.tokens[..n - 1];
        assert ts[n] == k.value.tokens[n - 1];
      } else {
        assert ts[..0] == [];
      }
    }
  }

  /** One that is out of range. */
  lemma TokenOut(t: Token, k: Option<Split>, o: seq<byte>)
    requires !TokenOk(t, |o|) && (k.Some? && k.value.tokens == [] && t.Symbol? ==> k.value.spare || |o| != SB_SIZE)
    ensures Exactly(None, Prepended(t, k), o)
  {
    hide TokenOk;
    if k.Some? {
      var ts := [t] + k.value.tokens;
      assert ts[0] == t;
      if k.value.tokens != [] {
        assert ts[..|ts| - 1][0] == t;
      } else {
        assert ts[..0] == [];
      }
    }
  }

  lemma {:induction false} GroupExactly(s: seq<byte>, tag: nat, t: nat, o: seq<byte>)
    requires t <= 8 && |o| <= SB_SIZE
    ensures Exactly(DecodeGroup(s, tag, t, o), TokenizeGroup(s, tag, t, |o|), o)
    decreases |s|, 1
  {
    hide Exactly, TokenOk, CopyBack, Distance, Length, Lg, LE16, DecodeGroup, DecodeGroups;
    if t == 8 || s == [] {
      GroupOver(s, tag, t, o);
      BodyExactly(s, o);
    } else if tag % 2 == 0 {
      SymbolStep(s, tag, t, o);
      SymbolExactly(s, tag, t, o);
    } else {
      PhraseExactly(s, tag, t, o);
    }
  }

  lemma {:induction false} SymbolExactly(s: seq<byte>, tag: nat, t: nat, o: seq<byte>)
    requires t < 8 && s != [] && |o| <= SB_SIZE && tag % 2 == 0
    ensures Exactly(DecodeGroup(s, tag, t, o), TokenizeGroup(s, tag, t, |o|), o)
    decreases |s|, 0
  {
    hide Exactly, CopyBack, Distance, Length, Lg, LE16, DecodeGroup, DecodeGroups;
    SymbolStep(s, tag, t, o);
    var r := TokenizeGroup(s[1..], tag / 2, t + 1, |o| + 1);
    if |o| < SB_SIZE {
      GroupExactly(s[1..], tag / 2, t + 1, o + [s[0]]);
      TokenFirst(Symbol(s[0]), DecodeGroup(s, tag, t, o), r, o);
    } else {
      GroupOver(s[1..], tag / 2, t + 1, o + [s[0]]);
      GroupsStep(s[1..], o + [s[0]]);
      if s[1..] == [] {
        SpilledOnly(s[0], o);
        assert r == Some(Split([], false));
      } else {
        NothingLeft(s[1..], tag / 2, t + 1, |o| + 1);
        TokenOut(Symbol(s[0]), r, o);
      }
    }
  }

  lemma SpilledOnly(b: byte, o: seq<byte>)
    requires |o| == SB_SIZE
    ensures Exactly(Some(o + [b]), Prepended(Symbol(b), Some(Split([], false))), o)
  {
    var ts := [Symbol(b)] + [];
    assert ts[..0] == [];
    assert !TokensOk(ts, o);
  }

  lemma {:induction false} PhraseExactly(s: seq<byte>, tag: nat, t: nat, o: seq<byte>)
    requires t < 8 && s != [] && |o| <= SB_SIZE && tag % 2 == 1
    ensures Exactly(DecodeGroup(s, tag, t, o), TokenizeGroup(s, tag, t, |o|), o)
    decreases |s|, 0
  {
    hide Exactly, CopyBack, Distance, Length, Lg, LE16, DecodeGroup, DecodeGroups, Unit, TokenizeGroup, Prepended;
    PhraseStep(s, tag, t, o);
    TokenizePhrase(s, tag, t, |o|);
    if o == [] || |s| == 1 {
      NothingDecoded(o);
    } else {
      LgRange(|o| - 1);
      var pt, lg := LE16(s, 0), Lg(|o| - 1);
      var tok := Phrase(Distance(pt, lg), Length(pt, lg));
      var r := TokenizeGroup(s[2..], tag / 2, t + 1, |o| + Length(pt, lg));
      LengthRange(pt, lg);
      if TokenOk(tok, |o|) {
        GroupExactly(s[2..], tag / 2, t + 1, CopyBack(o, tok.dist, tok.len));
        TokenFirst(tok, DecodeGroup(s, tag, t, o), r, o);
      } else {
        TokenOut(tok, r, o);
      }
    }
  }

  lemma TokenizePhrase(s: seq<byte>, tag: nat, t: nat, n: nat)
    requires t < 8 && s != [] && n <= SB_SIZE && tag % 2 == 1
    ensures n == 0 || |s| == 1 ==> TokenizeGroup(s, tag, t, n) == None
    ensures n != 0 && |s| > 1 ==>
              var pt, lg := LE16(s, 0), Lg(n - 1);
              lg <= 8 ==>
              TokenizeGroup(s, tag, t, n) ==
              Prepended(Phrase(Distance(pt, lg), Length(pt, lg)),
                        TokenizeGroup(s[2..], tag / 2, t + 1, n + Length(pt, lg)))
  {
    hide Lg, Unit, Distance, Length, LE16, Prepended, Tokenize;
  }

  lemma NothingDecoded(o: seq<byte>)
    ensures Exactly(None, None, o)
  {
  }

  lemma LengthRange(pt: nat, lg: nat)
    requires lg <= 8
    ensures 3 <= Length(pt, lg) <= Unit(lg) + 2 && Distance(pt, lg) >= 1
  {
  }

  lemma {:induction false} BodyExactly(s: seq<byte>, o: seq<byte>)
    requires |o| <= SB_SIZE
    ensures Exactly(DecodeGroups(s, o), Tokenize(s, |o|), o)
    decreases |s|, 0
  {
    hide DecodeGroup, DecodeGroups, TokenizeGroup, Exactly;
    GroupsStep(s, o);
    if |s| <= 1 {
      if s != [] {
        assert s[1..] == [];
        GroupOver([], s[0], 0, o);
        GroupsStep([], o);
      }
      EmptyExactly(s != [], o);
    } else {
      GroupExactly(s[1..], s[0], 0, o);
    }
  }

  lemma EmptyExactly(spare: bool, o: seq<byte>)
    ensures Exactly(Some(o), Some(Split([], spare)), o)
  {
  }

  /** A body is accepted with at most 4096 bytes exactly if it splits into tokens that are in range, and gives what
      these stand for; it is accepted with one byte more exactly if the last of its tokens is a byte right behind 4096
      others, and never with more. */
  lemma AcceptedExactly(s: seq<byte>)
    ensures var d, k := DecodeGroups(s, []), Tokenize(s, 0);
            && (d.Some? && |d.value| <= SB_SIZE <==> k.Some? && TokensOk(k.value.tokens, []))
            && (k.Some? && TokensOk(k.value.tokens, []) ==> d == Some(Expand(k.value.tokens, [])))
            && (d.Some? && |d.value| == SB_SIZE + 1 <==> k.Some? && Spills(k.value, []))
            && (d.Some? ==> |d.value| <= SB_SIZE + 1)
  {
    hide DecodeGroups, Tokenize, TokensOk, Expand;
    BodyExactly(s, []);
  }

  /** So for a sub-block: it fills its 4096 bytes, or one more exactly if it is compressed and its last token is a byte
      right behind 4096 others. */
  lemma SubBlockExactly(x: seq<byte>)
    requires |x| >= 3
    ensures var d, k := DecodeSubBlock(x), Tokenize(x[2..], 0);
            && (d.Some? <==> if LE16(x, 0) < 0x8000 then |x| == SB_SIZE + 2
                             else k.Some? && (TokensOk(k.value.tokens, []) || Spills(k.value, [])))
            && (d.Some? ==> |d.value| == if LE16(x, 0) >= 0x8000 && Spills(k.value, []) then SB_SIZE + 1 else SB_SIZE)
  {
    hide DecodeGroups, Tokenize, TokensOk, Expand, LE16;
    AcceptedExactly(x[2..]);
    BodyExactly(x[2..], []);
  }

  /** A sub-block that says: a byte, the same 4095 times more, and then one byte. As the only one of a block it makes
      the decompressor produce 4097 bytes where 4096 are wanted. */
  lemma OneByteTooMany(b: byte, c: byte, beyond: byte, init: seq<byte>)
    requires |init| == SB_SIZE
    ensures var r := Blocks([4, 0xb0, 2, b, 0xfc, 0x0f, c], beyond, [], init, 0, None, 0, 4096);
            r.Some? && |r.value| == SB_SIZE + 1 && r.value[SB_SIZE] == c
  {
    hide Blocks, DecodeGroups, DecodeGroup, CopyBack;
    var s: seq<byte> := [4, 0xb0, 2, b, 0xfc, 0x0f, c];
    assert HeaderAt(s, beyond) == LE16(s, 0) == 0xb004;
    BlocksStep(s, beyond, [], init, 0, None, 0, 4096);
    assert s[..7] == s && s[7..] == [];
    var body: seq<byte> := [2, b, 0xfc, 0x0f, c];
    assert s[2..] == body;
    FullAndOne(b, c);
    var o := DecodeGroups(body, []).value;
    assert [] + o == o;
    BlocksEnd([], beyond, o, init, 0, None, NextPage(0, 0, 4096), 4096);
  }

  lemma FullAndOne(b: byte, c: byte)
    ensures var d := DecodeGroups([2, b, 0xfc, 0x0f, c], []);
            d.Some? && |d.value| == SB_SIZE + 1 && d.value[SB_SIZE] == c
  {
    hide DecodeGroups, DecodeGroup, CopyBack;
    var body: seq<byte> := [2, b, 0xfc, 0x0f, c];
    GroupsStep(body, []);
    assert body[1..] == [b, 0xfc, 0x0f, c];
    SymbolStep([b, 0xfc, 0x0f, c], 2, 0, []);
    assert [b, 0xfc, 0x0f, c][1..] == [0xfc, 0x0f, c] && [] + [b] == [b];
    PhraseStep([0xfc, 0x0f, c], 1, 1, [b]);
    assert LE16([0xfc, 0x0f, c], 0) == 0x0ffc && Lg(0) == 0;
    assert Distance(0x0ffc, 0) == 1 && Length(0x0ffc, 0) == 4095;
    var o := CopyBack([b], 1, 4095);
    assert [0xfc, 0x0f, c][2..] == [c];
    SymbolStep([c], 0, 2, o);
    assert [c][1..] == [];
    GroupOver([], 0, 3, o + [c]);
    GroupsStep([], o + [c]);
  }
}
