/** `ntfs_decompress` (kext/ntfs_compress.c): a compression block is decompressed into a destination buffer, leaving out
    sub-blocks in front of the buffer and pages that are valid already. */
module Decompressor {
  import opened Errno
  import opened Bytes
  import opened AttrArea
  import opened Lznt1

  // ----- What it computes

  /** The 4096 bytes of one sub-block `x`, header included. */
  function DecodeSubBlock(x: seq<byte>): (r: Option<seq<byte>>)
    requires |x| >= 3
    ensures r.Some? ==> |r.value| >= SB_SIZE
  {
    if LE16(x, 0) < 0x8000 then
      if |x| == SB_SIZE + 2 then Some(x[2..]) else None
    else
      match DecodeGroups(x[2..], [])
      case None => None
      case Some(o) => Some(Padded(o))
  }

  function Padded(o: seq<byte>): (r: seq<byte>)
    ensures |r| >= SB_SIZE && |r| >= |o|
  {
    if |o| < SB_SIZE then o + Zeros(SB_SIZE - |o|) else o
  }

  /** The header in front of `s`; with a single byte left the driver reads the one behind the block, `beyond`. */
  function HeaderAt(s: seq<byte>, beyond: byte): (r: nat)
    requires s != []
  {
    if |s| >= 2 then LE16(s, 0) else s[0] as int + 256 * beyond as int
  }

  predicate ValidPage(pl: Option<seq<bool>>, pg: nat) {
    pl.Some? && pg < |pl.value| && pl.value[pg]
  }

  /** The page that the next sub-block belongs to. */
  function NextPage(pg: nat, ofs: nat, pageSize: nat): (r: nat)
    requires pageSize > 0
  {
    if (ofs + SB_SIZE) % pageSize == 0 then pg + 1 else pg
  }

  /** The rest `s` of the block, decompressed behind `out`, into a buffer that held `init`. */
  function Blocks(s: seq<byte>, beyond: byte, out: seq<byte>, init: seq<byte>, skip: nat,
                  pl: Option<seq<bool>>, pg: nat, pageSize: nat): (r: Option<seq<byte>>)
    requires pageSize > 0
    ensures r.Some? ==> |r.value| >= |init| && out <= r.value
    decreases |s|
  {
    if s == [] || HeaderAt(s, beyond) == 0 || |out| == |init| then
      Some(if |out| < |init| then out + Zeros(|init| - |out|) else out)
    else if |out| + SB_SIZE > |init| || |s| < 6 then None
    else
      var n := LE16(s, 0) % 4096 + 3;
      if n > |s| then None
      else if skip > 0 then Blocks(s[n..], beyond, out, init, skip - 1, pl, pg, pageSize)
      else if ValidPage(pl, pg) then
        Blocks(s[n..], beyond, out + init[|out|..|out| + SB_SIZE], init, 0, pl, NextPage(pg, |out|, pageSize), pageSize)
      else
        match DecodeSubBlock(s[..n])
        case None => None
        case Some(o) => Blocks(s[n..], beyond, out + o, init, 0, pl, NextPage(pg, |out|, pageSize), pageSize)
  }

  // ----- Doing it in place

  /** The buffer `now` is `was` with the bytes `o` written from `start` on. */
  ghost predicate Wrote(was: seq<byte>, now: seq<byte>, start: nat, o: seq<byte>) {
    && start + |o| <= |was| == |now|
    && now[..start] == was[..start] && now[start..start + |o|] == o && now[start + |o|..] == was[start + |o|..]
  }

  lemma WroteNothing(was: seq<byte>, start: nat)
    requires start <= |was|
    ensures Wrote(was, was, start, [])
  {
  }

  lemma WroteByte(was: seq<byte>, now: seq<byte>, start: nat, o: seq<byte>, b: byte)
    requires Wrote(was, now, start, o) && start + |o| < |was|
    ensures Wrote(was, now[start + |o| := b], start, o + [b])
  {
    var d := start + |o|;
    var r := now[d := b];
    assert r[..start] == now[..start];
    assert r[start..d + 1] == now[start..d] + [b];
    assert r[d + 1..] == now[d..][1..] && was[d + 1..] == was[d..][1..];
  }

  /** More was written over the same place. */
  lemma WroteMore(was: seq<byte>, mid: seq<byte>, now: seq<byte>, start: nat, o: seq<byte>, p: seq<byte>)
    requires Wrote(was, mid, start, o) && Wrote(mid, now, start, p) && |o| <= |p|
    ensures Wrote(was, now, start, p)
  {
    var d, e := start + |o|, start + |p|;
    assert now[e..] == mid[e..] == mid[d..][e - d..];
    assert was[e..] == was[d..][e - d..];
  }

  /** More was written behind it. */
  lemma WroteNext(was: seq<byte>, mid: seq<byte>, now: seq<byte>, start: nat, o: seq<byte>, p: seq<byte>)
    requires Wrote(was, mid, start, o) && Wrote(mid, now, start + |o|, p)
    ensures Wrote(was, now, start, o + p)
  {
    var d, e := start + |o|, start + |o| + |p|;
    assert now[..start] == now[..d][..start] && mid[..start] == mid[..d][..start];
    assert now[start..e] == now[..d][start..] + now[d..e] && mid[start..d] == mid[..d][start..];
    assert now[e..] == mid[e..] == mid[d..][e - d..];
    assert was[e..] == was[d..][e - d..];
  }

  /** What a phrase leaves behind is the overlapping copy. */
  lemma PhraseWritten(was: seq<byte>, now: seq<byte>, start: nat, d: nat, dist: nat, len: nat)
    requires start + dist <= d && 1 <= dist && d + len <= |was| == |now|
    requires forall i :: 0 <= i < d || d + len <= i < |was| ==> now[i] == was[i]
    requires forall i :: d <= i < d + len ==> now[i] == now[i - dist]
    ensures Wrote(was, now, start, CopyBack(was[start..d], dist, len))
  {
    hide CopyBack;
    var o, r := was[start..d], now[start..d + len];
    assert r[..d - start] == o;
    forall i | d - start <= i < |r|
      ensures r[i] == r[i - dist]
    {
      assert now[start + i] == now[start + i - dist];
    }
    CopyBackUnique(o, dist, r);
  }

  /** A phrase is copied as a block as far as it does not reach into itself, and byte by byte from there. That is the
      overlapping copy. */
  method CopyPhrase(dst: array<byte>, start: nat, d: nat, dist: nat, len: nat)
    requires start + dist <= d && 1 <= dist && d + len <= dst.Length
    modifies dst
    ensures Wrote(old(dst[..]), dst[..], start, CopyBack(old(dst[start..d]), dist, len))
  {
    hide CopyBack, Wrote;
    ghost var was := dst[..];
    var n := if len <= dist then len else dist;
    // memcpy
    forall i | 0 <= i < n {
      dst[d + i] := dst[d - dist + i];
    }
    var j := n;
    while j < len
      invariant n <= j <= len
      invariant forall i :: 0 <= i < d || d + j <= i < dst.Length ==> dst[i] == was[i]
      invariant forall i :: d <= i < d + j ==> dst[i] == dst[i - dist]
    {
      dst[d + j] := dst[d + j - dist];
      j := j + 1;
    }
    assert was[start..d] == old(dst[start..d]);
    PhraseWritten(was, dst[..], start, d, dist, len);
  }

  /** lg of the position, less one. */
  method ComputeLg(u0: nat) returns (lg: nat)
    ensures lg == Lg(u0)
  {
    lg := 0;
    var u := u0;
    while u >= 0x10
      invariant lg + Lg(u) == Lg(u0)
    {
      u := u / 2;
      lg := lg + 1;
    }
  }

  /** One phrase token, the code `pt`, behind the bytes from `start` to `d`. */
  method PhraseToken(dst: array<byte>, start: nat, d: nat, pt: nat) returns (err: int, len: nat)
    requires start < d <= start + SB_SIZE && start + SB_SIZE <= dst.Length
    modifies dst
    ensures var o, lg := old(dst[start..d]), Lg(d - start - 1);
            && lg <= 8 && len == Length(pt, lg)
            && (err == 0 <==> Distance(pt, lg) <= |o| && |o| + len <= SB_SIZE)
            && (err == 0 ==> Wrote(old(dst[..]), dst[..], start, CopyBack(o, Distance(pt, lg), len)))
            && (err != 0 ==> dst[..] == old(dst[..]))
  {
    hide Lg, Unit, CopyBack, Wrote;
    var lg := ComputeLg(d - start - 1);
    LgRange(d - start - 1);
    var dist := Distance(pt, lg);
    len := Length(pt, lg);
    if dist > d - start || d + len > start + SB_SIZE {
      return EOVERFLOW, len;
    }
    CopyPhrase(dst, start, d, dist, len);
    return 0, len;
  }

  /** What one token of a group makes of the rest of the group. */
  lemma SymbolStep(s: seq<byte>, tag: nat, t: nat, o: seq<byte>)
    requires s != [] && t < 8 && |o| <= SB_SIZE && tag % 2 == 0
    ensures DecodeGroup(s, tag, t, o) == DecodeGroup(s[1..], tag / 2, t + 1, o + [s[0]])
  {
    hide DecodeGroups, CopyBack, Lg, Unit, Distance, Length;
  }

  lemma PhraseStep(s: seq<byte>, tag: nat, t: nat, o: seq<byte>)
    requires s != [] && t < 8 && |o| <= SB_SIZE && tag % 2 == 1
    ensures o == [] || |s| == 1 ==> DecodeGroup(s, tag, t, o) == None
    ensures o != [] && |s| > 1 ==>
              var pt, lg := LE16(s, 0), Lg(|o| - 1);
              lg <= 8 ==>
              DecodeGroup(s, tag, t, o) ==
                if Distance(pt, lg) > |o| || |o| + Length(pt, lg) > SB_SIZE then None
                else DecodeGroup(s[2..], tag / 2, t + 1, CopyBack(o, Distance(pt, lg), Length(pt, lg)))
  {
    hide DecodeGroups, CopyBack, Lg, Unit, Distance, Length;
  }

  lemma GroupOver(s: seq<byte>, tag: nat, t: nat, o: seq<byte>)
    requires t <= 8 && (t == 8 || s == [] || |o| > SB_SIZE)
    ensures DecodeGroup(s, tag, t, o) == DecodeGroups(s, o)
  {
    hide DecodeGroups;
  }

  /** The rest of the sub-block body, in two slices. */
  lemma Sliced(body: seq<byte>, cb: nat, n: nat)
    requires cb + n <= |body|
    ensures body[cb..][n..] == body[cb + n..]
    ensures n >= 1 ==> body[cb..][0] == body[cb]
    ensures n >= 2 ==> LE16(body[cb..], 0) == LE16(body, cb)
  {
  }

  /** The tokens of one group, behind its tag. */
  method DecodeOneGroup(dst: array<byte>, start: nat, d0: nat, body: seq<byte>, cb0: nat, tag0: nat,
                        ghost was: seq<byte>, ghost o0: seq<byte>)
    returns (err: int, cb: nat, d: nat, ghost o: seq<byte>)
    requires start + SB_SIZE + 1 <= dst.Length && d0 == start + |o0| && cb0 <= |body| && |o0| <= SB_SIZE
    requires Wrote(was, dst[..], start, o0)
    modifies dst
    ensures |o| <= SB_SIZE + 1 && Wrote(was, dst[..], start, o) && d == start + |o|
    ensures err == 0 ==> cb0 <= cb <= |body| && DecodeGroup(body[cb0..], tag0, 0, o0) == DecodeGroups(body[cb..], o)
    ensures err != 0 ==> DecodeGroup(body[cb0..], tag0, 0, o0) == None
  {
    hide CopyBack, Lg, Unit, Distance, Length, DecodeGroup, DecodeGroups, LE16;
    err, cb, d, o := 0, cb0, d0, o0;
    var tag, token := tag0, 0;
    while token < 8 && cb < |body| && d <= start + SB_SIZE
      invariant 0 <= token <= 8 && cb0 <= cb <= |body| && |o| <= SB_SIZE + 1 && d == start + |o|
      invariant DecodeGroup(body[cb0..], tag0, 0, o0) == DecodeGroup(body[cb..], tag, token, o)
      invariant Wrote(was, dst[..], start, o)
    {
      Sliced(body, cb, 1);
      if tag % 2 == 0 {
        SymbolStep(body[cb..], tag, token, o);
        WroteByte(was, dst[..], start, o, body[cb]);
        ghost var mid := dst[..];
        dst[d] := body[cb];
        assert dst[..] == mid[d := body[cb]];
        o := o + [body[cb]];
        d, cb := d + 1, cb + 1;
      } else {
        PhraseStep(body[cb..], tag, token, o);
        if d == start || cb + 1 == |body| {
          // A token cut off at the end of the sub-block is read in full and found out of range afterwards.
          return EOVERFLOW, cb, d, o;
        }
        Sliced(body, cb, 2);
        ghost var mid := dst[..];
        assert mid[start..d] == o == dst[start..d];
        var e, len := PhraseToken(dst, start, d, LE16(body, cb));
        if e != 0 {
          return EOVERFLOW, cb, d, o;
        }
        ghost var lg := Lg(|o| - 1);
        ghost var p := CopyBack(o, Distance(LE16(body, cb), lg), len);
        WroteMore(was, mid, dst[..], start, o, p);
        o := p;
        d, cb := d + len, cb + 2;
      }
      tag, token := tag / 2, token + 1;
    }
    GroupOver(body[cb..], tag, token, o);
  }

  lemma GroupsStep(s: seq<byte>, o: seq<byte>)
    ensures s == [] ==> DecodeGroups(s, o) == Some(o)
    ensures s != [] ==> DecodeGroups(s, o) == if |o| > SB_SIZE then None else DecodeGroup(s[1..], s[0], 0, o)
  {
    hide DecodeGroup;
  }

  /** The tokens of a compressed sub-block. */
  method DecodeTokens(dst: array<byte>, start: nat, body: seq<byte>) returns (err: int, d: nat)
    requires start + SB_SIZE + 1 <= dst.Length
    modifies dst
    ensures err == 0 <==> DecodeGroups(body, []).Some?
    ensures err == 0 ==>
              && Wrote(old(dst[..]), dst[..], start, DecodeGroups(body, []).value)
              && d == start + |DecodeGroups(body, []).value|
    ensures err == 0 ==> d <= start + SB_SIZE + 1
  {
    hide DecodeGroup, DecodeGroups, Wrote;
    ghost var was, o := dst[..], [];
    WroteNothing(was, start);
    err := 0;
    var cb := 0;
    assert body[0..] == body;
    d := start;
    while cb != |body|
      invariant 0 <= cb <= |body| && |o| <= SB_SIZE + 1 && d == start + |o| && err == 0
      invariant DecodeGroups(body, []) == DecodeGroups(body[cb..], o)
      invariant Wrote(was, dst[..], start, o)
      decreases |body| - cb
    {
      GroupsStep(body[cb..], o);
      if d > start + SB_SIZE {
        return EOVERFLOW, d;
      }
      Sliced(body, cb, 1);
      ghost var p;
      err, cb, d, p := DecodeOneGroup(dst, start, d, body, cb + 1, body[cb], was, o);
      if err != 0 {
        return;
      }
      o := p;
    }
    GroupsStep(body[cb..], o);
  }

  // ----- The whole block

  method Bzero(dst: array<byte>, d: nat, n: nat)
    requires d + n <= dst.Length
    modifies dst
    ensures Wrote(old(dst[..]), dst[..], d, Zeros(n))
  {
    hide Wrote;
    ghost var was := dst[..];
    forall i | d <= i < d + n {
      dst[i] := 0;
    }
    CopiedIn(was, dst[..], d, Zeros(n));
  }

  /** The sub-block `x` goes to `start`. */
  method DecodeOne(dst: array<byte>, start: nat, x: seq<byte>) returns (err: int, d: nat)
    requires start + SB_SIZE + 1 <= dst.Length && |x| >= 3
    modifies dst
    ensures err == 0 <==> DecodeSubBlock(x).Some?
    ensures err == 0 ==> Wrote(old(dst[..]), dst[..], start, DecodeSubBlock(x).value)
    ensures err == 0 ==> d == start + |DecodeSubBlock(x).value| <= start + SB_SIZE + 1
  {
    hide DecodeGroups, Wrote;
    ghost var was := dst[..];
    if LE16(x, 0) < 0x8000 {
      if |x| - 2 != SB_SIZE {
        return EOVERFLOW, start;
      }
      forall i | 0 <= i < SB_SIZE {
        dst[start + i] := x[2 + i];
      }
      CopiedIn(was, dst[..], start, x[2..]);
      return 0, start + SB_SIZE;
    }
    err, d := DecodeTokens(dst, start, x[2..]);
    if err != 0 {
      return;
    }
    ghost var o, mid := DecodeGroups(x[2..], []).value, dst[..];
    if d < start + SB_SIZE {
      Bzero(dst, d, start + SB_SIZE - d);
      WroteNext(was, mid, dst[..], start, o, Zeros(start + SB_SIZE - d));
      d := start + SB_SIZE;
    }
  }

  lemma CopiedIn(was: seq<byte>, now: seq<byte>, start: nat, v: seq<byte>)
    requires start + |v| <= |was| == |now|
    requires forall i :: 0 <= i < |was| ==> now[i] == if start <= i < start + |v| then v[i - start] else was[i]
    ensures Wrote(was, now, start, v)
  {
  }

  /** One step of the walk over the sub-blocks. */
  lemma BlocksStep(s: seq<byte>, beyond: byte, out: seq<byte>, init: seq<byte>, skip: nat, pl: Option<seq<bool>>,
                   pg: nat, pageSize: nat)
    requires pageSize > 0 && s != [] && HeaderAt(s, beyond) != 0 && |out| != |init|
    ensures var r := Blocks(s, beyond, out, init, skip, pl, pg, pageSize);
            if |out| + SB_SIZE > |init| || |s| < 6 then r == None
            else
              var n := LE16(s, 0) % 4096 + 3;
              if n > |s| then r == None
              else if skip > 0 then r == Blocks(s[n..], beyond, out, init, skip - 1, pl, pg, pageSize)
              else if ValidPage(pl, pg) then
                r == Blocks(s[n..], beyond, out + init[|out|..|out| + SB_SIZE], init, 0, pl,
                            NextPage(pg, |out|, pageSize), pageSize)
              else if DecodeSubBlock(s[..n]).None? then r == None
              else r == Blocks(s[n..], beyond, out + DecodeSubBlock(s[..n]).value, init, 0, pl,
                               NextPage(pg, |out|, pageSize), pageSize)
  {
    hide DecodeSubBlock, NextPage, ValidPage, LE16;
  }

  lemma BlocksEnd(s: seq<byte>, beyond: byte, out: seq<byte>, init: seq<byte>, skip: nat, pl: Option<seq<bool>>,
                  pg: nat, pageSize: nat)
    requires pageSize > 0 && (s == [] || HeaderAt(s, beyond) == 0 || |out| == |init|)
    ensures Blocks(s, beyond, out, init, skip, pl, pg, pageSize)
              == Some(if |out| < |init| then out + Zeros(|init| - |out|) else out)
  {
    hide DecodeSubBlock, NextPage, ValidPage;
  }

  /** A page that stays as it is. */
  lemma WroteAsWas(was: seq<byte>, now: seq<byte>, start: nat, size: nat, o: seq<byte>)
    requires Wrote(was, now, start, o) && |o| + SB_SIZE <= size && start + size <= |was|
    ensures Wrote(was, now, start, o + was[start..start + size][|o|..|o| + SB_SIZE])
  {
    var d, e := start + |o|, start + |o| + SB_SIZE;
    SliceOfSlice(was, start, start + size, |o|, |o| + SB_SIZE);
    assert now[d..e] == now[d..][..SB_SIZE] && was[d..e] == was[d..][..SB_SIZE];
    assert now[start..e] == now[start..d] + now[d..e];
    assert now[e..] == now[d..][SB_SIZE..] && was[e..] == was[d..][SB_SIZE..];
  }

  /** `ntfs_decompress`. The destination is the `size` bytes from `d0` on; as the range check for a byte token lets one
      byte too many through, one more byte belongs to the buffer. */
  method Decompress(dst: array<byte>, d0: nat, ofsInCb: nat, size: nat, cb: seq<byte>, beyond: byte,
                    pl: Option<seq<bool>>, curPg: nat, pagesPerCb: nat, pageSize: nat) returns (err: int)
    requires d0 + size + 1 <= dst.Length && pageSize > 0
    modifies dst
    ensures var r := Blocks(cb, beyond, [], old(dst[d0..d0 + size]), ofsInCb / SB_SIZE,
                            if pagesPerCb > 1 then pl else None, curPg, pageSize);
            (err == 0 <==> r.Some?) && (err == 0 ==> Wrote(old(dst[..]), dst[..], d0, r.value))
  {
    hide DecodeSubBlock, NextPage, ValidPage, LE16, HeaderAt, Blocks, Wrote;
    ghost var was, o := dst[..], [];
    ghost var init := was[d0..d0 + size];
    assert init == dst[d0..d0 + size];
    var pages: Option<seq<bool>> := if pagesPerCb > 1 then pl else None;
    var skip: nat, pg: nat := ofsInCb / SB_SIZE, curPg;
    var i, d := 0, d0;
    WroteNothing(was, d0);
    assert cb[0..] == cb;
    while true
      invariant 0 <= i <= |cb| && |o| <= size + 1 && d == d0 + |o|
      invariant Blocks(cb, beyond, [], init, ofsInCb / SB_SIZE, pages, curPg, pageSize) ==
                Blocks(cb[i..], beyond, o, init, skip, pages, pg, pageSize)
      invariant Wrote(was, dst[..], d0, o)
      decreases |cb| - i
    {
      if i == |cb| || HeaderAt(cb[i..], beyond) == 0 || d == d0 + size {
        BlocksEnd(cb[i..], beyond, o, init, skip, pages, pg, pageSize);
        if d < d0 + size {
          ghost var mid := dst[..];
          Bzero(dst, d, size - (d - d0));
          WroteNext(was, mid, dst[..], d0, o, Zeros(size - |o|));
        }
        return 0;
      }
      BlocksStep(cb[i..], beyond, o, init, skip, pages, pg, pageSize);
      if d + SB_SIZE > d0 + size || i + 6 > |cb| {
        return EOVERFLOW;
      }
      var n := LE16(cb[i..], 0) % 4096 + 3;
      if i + n > |cb| {
        return EOVERFLOW;
      }
      Sliced(cb, i, n);
      if skip > 0 {
        skip, i := skip - 1, i + n;
        continue;
      }
      var valid := ValidPage(pages, pg);
      pg := NextPage(pg, d - d0, pageSize);
      if valid {
        WroteAsWas(was, dst[..], d0, size, o);
        o := o + init[|o|..|o| + SB_SIZE];
        i, d := i + n, d + SB_SIZE;
        continue;
      }
      ghost var mid, x := dst[..], DecodeSubBlock(cb[i..][..n]);
      var e, next := DecodeOne(dst, d, cb[i..][..n]);
      if e != 0 {
        return EOVERFLOW;
      }
      WroteNext(was, mid, dst[..], d0, o, x.value);
      o := o + x.value;
      i, d := i + n, next;
    }
  }
}
