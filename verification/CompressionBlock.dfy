/** Compression blocks as the format defines them, and what decompressing one gives. */
module CompressionBlock {
  import opened Bytes
  import opened AttrArea
  import opened Lznt1
  import opened Decompressor

  datatype SubBlock = Raw(data: seq<byte>) | Packed(tokens: seq<Token>)

  ghost predicate SubBlockOk(sb: SubBlock) {
    match sb
    case Raw(data) => |data| == SB_SIZE
    case Packed(ts) => ts != [] && TokensOk(ts, []) && |EncodeTokens(ts, [])| <= SB_SIZE
  }

  ghost predicate AllOk(bs: seq<SubBlock>) {
    forall i :: 0 <= i < |bs| ==> SubBlockOk(bs[i])
  }

  /** Header and body. The low twelve bits of the header are the size less 3, the top bit says that it is compressed. */
  ghost function EncodeSubBlock(sb: SubBlock): (r: seq<byte>)
    requires SubBlockOk(sb)
    ensures |r| >= 4
  {
    match sb
    case Raw(data) => Put16(0x3fff) + data
    case Packed(ts) => BodySize(ts); Put16(0xb000 + |EncodeTokens(ts, [])| - 1) + EncodeTokens(ts, [])
  }

  lemma BodySize(ts: seq<Token>)
    requires ts != [] && TokensOk(ts, [])
    ensures |EncodeTokens(ts, [])| >= 2
  {
  }

  /** The 4096 bytes it stands for. */
  ghost function Plain(sb: SubBlock): (r: seq<byte>)
    requires SubBlockOk(sb)
    ensures |r| == SB_SIZE
  {
    match sb
    case Raw(data) => data
    case Packed(ts) => Padded(Expand(ts, []))
  }

  /** A sub-block decodes to the bytes it stands for, and its header gives its size. */
  lemma SubBlockDecodes(sb: SubBlock)
    requires SubBlockOk(sb)
    ensures var x := EncodeSubBlock(sb);
            DecodeSubBlock(x) == Some(Plain(sb)) && LE16(x, 0) % 4096 + 3 == |x| && LE16(x, 0) != 0
  {
    hide DecodeGroups, EncodeTokens, Expand, TokensOk;
    var x := EncodeSubBlock(sb);
    match sb {
      case Raw(data) =>
        assert x[..2] == Put16(0x3fff);
        ReadSlice(x, 0, Put16(0x3fff), 0);
        assert x[2..] == data;
      case Packed(ts) =>
        TokensDecode(ts, []);
        var h := 0xb000 + |EncodeTokens(ts, [])| - 1;
        assert x[..2] == Put16(h);
        ReadSlice(x, 0, Put16(h), 0);
        assert x[2..] == EncodeTokens(ts, []);
    }
  }

  // ----- Sequences of sub-blocks

  ghost function EncodeBlock(bs: seq<SubBlock>): (r: seq<byte>)
    requires AllOk(bs)
  {
    if bs == [] then [] else EncodeSubBlock(bs[0]) + EncodeBlock(bs[1..])
  }

  ghost function PlainBlock(bs: seq<SubBlock>): (r: seq<byte>)
    requires AllOk(bs)
    ensures |r| == SB_SIZE * |bs|
  {
    if bs == [] then [] else Plain(bs[0]) + PlainBlock(bs[1..])
  }

  /** The block as stored: sub-blocks, then zeros. At least six bytes are left where the last sub-block starts, and a
      single zero is not followed by something else. */
  ghost predicate Stored(s: seq<byte>, beyond: byte, bs: seq<SubBlock>, pad: nat) {
    && AllOk(bs) && s == EncodeBlock(bs) + Zeros(pad) && (pad == 1 ==> beyond == 0)
    && (bs != [] ==> |EncodeSubBlock(bs[|bs| - 1])| + pad >= 6)
  }

  lemma StoredRest(s: seq<byte>, beyond: byte, bs: seq<SubBlock>, pad: nat)
    requires Stored(s, beyond, bs, pad) && bs != []
    ensures var n := |EncodeSubBlock(bs[0])|;
            && 6 <= |s| && n <= |s| && s[..n] == EncodeSubBlock(bs[0]) && Stored(s[n..], beyond, bs[1..], pad)
            && LE16(s, 0) == LE16(EncodeSubBlock(bs[0]), 0)
  {
    hide EncodeSubBlock, SubBlockOk, LE16;
    var x := EncodeSubBlock(bs[0]);
    assert s == x + (EncodeBlock(bs[1..]) + Zeros(pad));
    assert s[|x|..] == EncodeBlock(bs[1..]) + Zeros(pad);
    assert s[0..|x|] == x;
    ReadSlice(s, 0, x, 0);
    if |bs| > 1 {
      assert bs[1..][|bs[1..]| - 1] == bs[|bs| - 1];
      assert EncodeBlock(bs[1..]) == EncodeSubBlock(bs[1..][0]) + EncodeBlock(bs[1..][1..]);
    }
  }

  /** What is delivered, in terms of sub-blocks. */
  ghost function Deliver(bs: seq<SubBlock>, out: seq<byte>, init: seq<byte>, skip: nat, pl: Option<seq<bool>>, pg: nat,
                         pageSize: nat): (r: seq<byte>)
    requires AllOk(bs) && pageSize > 0 && |out| <= |init| && |out| % SB_SIZE == 0 && |init| % SB_SIZE == 0
    ensures |r| == |init|
    decreases |bs|
  {
    if bs == [] || |out| == |init| then out + Zeros(|init| - |out|)
    else if skip > 0 then Deliver(bs[1..], out, init, skip - 1, pl, pg, pageSize)
    else
      var o := if ValidPage(pl, pg) then init[|out|..|out| + SB_SIZE] else Plain(bs[0]);
      Deliver(bs[1..], out + o, init, 0, pl, NextPage(pg, |out|, pageSize), pageSize)
  }

  /** Decompressing a stored block delivers its sub-blocks. */
  lemma {:induction false} BlocksDeliver(s: seq<byte>, beyond: byte, bs: seq<SubBlock>, pad: nat, out: seq<byte>,
                                         init: seq<byte>, skip: nat, pl: Option<seq<bool>>, pg: nat, pageSize: nat)
    requires Stored(s, beyond, bs, pad) && pageSize > 0
    requires |out| <= |init| && |out| % SB_SIZE == 0 && |init| % SB_SIZE == 0
    ensures Blocks(s, beyond, out, init, skip, pl, pg, pageSize) == Some(Deliver(bs, out, init, skip, pl, pg, pageSize))
    decreases |bs|
  {
    hide Blocks, DecodeSubBlock, EncodeSubBlock, SubBlockOk, LE16, NextPage, ValidPage, Stored, Plain;
    StoredOk(s, beyond, bs, pad);
    if bs == [] || |out| == |init| {
      if bs == [] {
        StoredEnd(s, beyond, pad);
      }
      BlocksEnd(s, beyond, out, init, skip, pl, pg, pageSize);
      assert out + Zeros(0) == out;
    } else {
      StoredRest(s, beyond, bs, pad);
      SubBlockDecodes(bs[0]);
      HeaderRead(s, beyond);
      BlocksStep(s, beyond, out, init, skip, pl, pg, pageSize);
      var n := |EncodeSubBlock(bs[0])|;
      if skip > 0 {
        BlocksDeliver(s[n..], beyond, bs[1..], pad, out, init, skip - 1, pl, pg, pageSize);
      } else {
        var o := if ValidPage(pl, pg) then init[|out|..|out| + SB_SIZE] else Plain(bs[0]);
        BlocksDeliver(s[n..], beyond, bs[1..], pad, out + o, init, 0, pl, NextPage(pg, |out|, pageSize), pageSize);
      }
    }
  }

  lemma StoredOk(s: seq<byte>, beyond: byte, bs: seq<SubBlock>, pad: nat)
    requires Stored(s, beyond, bs, pad)
    ensures AllOk(bs)
  {
  }

  lemma StoredEnd(s: seq<byte>, beyond: byte, pad: nat)
    requires Stored(s, beyond, [], pad)
    ensures s == [] || HeaderAt(s, beyond) == 0
  {
  }

  lemma HeaderRead(s: seq<byte>, beyond: byte)
    requires |s| >= 2
    ensures HeaderAt(s, beyond) == LE16(s, 0)
  {
  }

  // ----- Byte by byte

  /** Byte `x` of the decompressed block, which goes on with zeros. */
  ghost function PlainByte(bs: seq<SubBlock>, x: nat): (r: byte)
    requires AllOk(bs)
  {
    if x < SB_SIZE * |bs| then PlainBlock(bs)[x] else 0
  }

  lemma PlainByteRest(bs: seq<SubBlock>, x: nat)
    requires AllOk(bs) && bs != []
    ensures PlainByte(bs, x) == if x < SB_SIZE then Plain(bs[0])[x] else PlainByte(bs[1..], x - SB_SIZE)
  {
    hide Plain, SubBlockOk;
  }

  lemma PastTheEnd(bs: seq<SubBlock>, x: nat)
    requires AllOk(bs)
    ensures x >= SB_SIZE * |bs| ==> PlainByte(bs, x) == 0
  {
  }

  /** The page a byte is in. */
  function PageOf(y: nat, pageSize: nat): (r: nat)
    requires pageSize > 0
  {
    y / pageSize
  }

  lemma PageStep(ofs: nat, pageSize: nat)
    requires pageSize > 0 && pageSize % SB_SIZE == 0 && ofs % SB_SIZE == 0
    ensures PageOf(ofs + SB_SIZE, pageSize)
              == PageOf(ofs, pageSize) + (if (ofs + SB_SIZE) % pageSize == 0 then 1 else 0)
    ensures forall y :: ofs <= y < ofs + SB_SIZE ==> PageOf(y, pageSize) == PageOf(ofs, pageSize)
  {
    var q := PageOf(ofs, pageSize);
    InPage(ofs, pageSize);
    forall y | ofs <= y < ofs + SB_SIZE
      ensures PageOf(y, pageSize) == q
    {
      Quotient(y, q, pageSize);
    }
    if ofs + SB_SIZE < q * pageSize + pageSize {
      Quotient(ofs + SB_SIZE, q, pageSize);
    } else {
      NextMultiple(q, pageSize);
      Quotient(ofs + SB_SIZE, q + 1, pageSize);
    }
  }

  /** The page counter of the driver is the page of the next sub-block. */
  lemma PageCounter(first: nat, pg: nat, ofs: nat, y: nat, pageSize: nat)
    requires pageSize > 0 && pageSize % SB_SIZE == 0 && ofs % SB_SIZE == 0 && pg == first + PageOf(ofs, pageSize)
    ensures NextPage(pg, ofs, pageSize) == first + PageOf(ofs + SB_SIZE, pageSize)
    ensures ofs <= y < ofs + SB_SIZE ==> PageOf(y, pageSize) == PageOf(ofs, pageSize)
  {
    hide PageOf;
    PageStep(ofs, pageSize);
  }

  lemma FirstPage(pageSize: nat)
    requires pageSize > 0
    ensures PageOf(0, pageSize) == 0
  {
    Quotient(0, 0, pageSize);
  }

  /** A sub-block does not cross a page boundary. */
  lemma InPage(ofs: nat, pageSize: nat)
    requires pageSize > 0 && pageSize % SB_SIZE == 0 && ofs % SB_SIZE == 0
    ensures var q := PageOf(ofs, pageSize);
            q * pageSize <= ofs && ofs + SB_SIZE <= q * pageSize + pageSize
  {
    var q, r := PageOf(ofs, pageSize), ofs % pageSize;
    assert ofs == q * pageSize + r;
    Divides(q, pageSize);
    Aligned(q * pageSize, r, pageSize);
  }

  lemma Aligned(a: nat, r: nat, p: nat)
    requires (a + r) % SB_SIZE == 0 && a % SB_SIZE == 0 && p % SB_SIZE == 0 && r < p
    ensures r + SB_SIZE <= p
  {
  }

  lemma {:induction false} Divides(q: nat, p: nat)
    requires p % SB_SIZE == 0
    ensures (q * p) % SB_SIZE == 0
  {
    if q > 0 {
      Divides(q - 1, p);
      NextMultiple(q - 1, p);
      Summed((q - 1) * p, p);
    }
  }

  lemma Summed(a: nat, b: nat)
    requires a % SB_SIZE == 0 && b % SB_SIZE == 0
    ensures (a + b) % SB_SIZE == 0
  {
  }

  lemma Quotient(y: nat, q: nat, p: nat)
    requires p > 0 && q * p <= y < q * p + p
    ensures PageOf(y, p) == q && (y % p == 0 <==> y == q * p)
  {
    var a := y / p;
    assert y == a * p + y % p;
    if a < q {
      Scaled(a + 1, q, p);
    } else if a > q {
      Scaled(q + 1, a, p);
    }
  }

  /** Byte `y` of what is delivered: what was in the buffer if its page is valid and covered by the block, otherwise the
      decompressed byte. */
  lemma {:induction false} DeliverByte(bs: seq<SubBlock>, out: seq<byte>, init: seq<byte>, skip: nat,
                                       pl: Option<seq<bool>>, pg: nat, pageSize: nat, first: nat, y: nat)
    requires AllOk(bs) && pageSize > 0 && pageSize % SB_SIZE == 0
    requires |out| <= |init| && |out| % SB_SIZE == 0 && |init| % SB_SIZE == 0 && |out| <= y < |init|
    requires pg == first + PageOf(|out|, pageSize)
    ensures var x := SB_SIZE * skip + (y - |out|);
            Deliver(bs, out, init, skip, pl, pg, pageSize)[y] ==
              if x < SB_SIZE * |bs| && ValidPage(pl, first + PageOf(y, pageSize)) then init[y] else PlainByte(bs, x)
    decreases |bs|
  {
    hide SubBlockOk, Plain, PlainBlock, ValidPage, PageOf, PlainByte, NextPage, Deliver;
    DeliverStep(bs, out, init, skip, pl, pg, pageSize);
    if bs == [] || |out| == |init| {
      PastTheEnd(bs, SB_SIZE * skip + (y - |out|));
    } else if skip > 0 {
      PlainByteRest(bs, SB_SIZE * skip + (y - |out|));
      DeliverByte(bs[1..], out, init, skip - 1, pl, pg, pageSize, first, y);
    } else {
      PlainByteRest(bs, y - |out|);
      PageCounter(first, pg, |out|, y, pageSize);
      var o := if ValidPage(pl, pg) then init[|out|..|out| + SB_SIZE] else Plain(bs[0]);
      if y < |out| + SB_SIZE {
        KeptPrefix(bs[1..], out + o, init, 0, pl, NextPage(pg, |out|, pageSize), pageSize);
        assert (out + o)[y] == o[y - |out|];
        assert init[|out|..|out| + SB_SIZE][y - |out|] == init[y];
      } else {
        DeliverByte(bs[1..], out + o, init, 0, pl, NextPage(pg, |out|, pageSize), pageSize, first, y);
      }
    }
  }

  lemma DeliverStep(bs: seq<SubBlock>, out: seq<byte>, init: seq<byte>, skip: nat, pl: Option<seq<bool>>, pg: nat,
                    pageSize: nat)
    requires AllOk(bs) && pageSize > 0 && |out| <= |init| && |out| % SB_SIZE == 0 && |init| % SB_SIZE == 0
    ensures var r := Deliver(bs, out, init, skip, pl, pg, pageSize);
            if bs == [] || |out| == |init| then r == out + Zeros(|init| - |out|)
            else if skip > 0 then r == Deliver(bs[1..], out, init, skip - 1, pl, pg, pageSize)
            else r == Deliver(bs[1..], out + (if ValidPage(pl, pg) then init[|out|..|out| + SB_SIZE] else Plain(bs[0])),
                              init, 0, pl, NextPage(pg, |out|, pageSize), pageSize)
  {
    hide SubBlockOk, Plain, ValidPage, NextPage;
  }

  lemma {:induction false} KeptPrefix(bs: seq<SubBlock>, out: seq<byte>, init: seq<byte>, skip: nat,
                                      pl: Option<seq<bool>>, pg: nat, pageSize: nat)
    requires AllOk(bs) && pageSize > 0 && |out| <= |init| && |out| % SB_SIZE == 0 && |init| % SB_SIZE == 0
    ensures forall y :: 0 <= y < |out| ==> Deliver(bs, out, init, skip, pl, pg, pageSize)[y] == out[y]
    decreases |bs|
  {
    hide SubBlockOk, Plain, ValidPage;
    if bs == [] || |out| == |init| {
    } else if skip > 0 {
      KeptPrefix(bs[1..], out, init, skip - 1, pl, pg, pageSize);
    } else {
      var o := if ValidPage(pl, pg) then init[|out|..|out| + SB_SIZE] else Plain(bs[0]);
      KeptPrefix(bs[1..], out + o, init, 0, pl, NextPage(pg, |out|, pageSize), pageSize);
      assert forall y :: 0 <= y < |out| ==> (out + o)[y] == out[y];
    }
  }

  // ----- The results

  /** Decompressed from sub-block `skip` on, without a page list: the bytes of the block from there on, then zeros. */
  lemma DecompressesSuffix(s: seq<byte>, beyond: byte, bs: seq<SubBlock>, pad: nat, init: seq<byte>, skip: nat, pg: nat,
                           pageSize: nat)
    requires Stored(s, beyond, bs, pad) && pageSize > 0 && pageSize % SB_SIZE == 0 && |init| % SB_SIZE == 0
    ensures var r := Blocks(s, beyond, [], init, skip, None, pg, pageSize);
            && r.Some? && |r.value| == |init|
            && forall y :: 0 <= y < |init| ==> r.value[y] == PlainByte(bs, SB_SIZE * skip + y)
  {
    hide Blocks, Deliver, Stored, PlainByte;
    StoredOk(s, beyond, bs, pad);
    FirstPage(pageSize);
    BlocksDeliver(s, beyond, bs, pad, [], init, skip, None, pg, pageSize);
    forall y | 0 <= y < |init|
      ensures Deliver(bs, [], init, skip, None, pg, pageSize)[y] == PlainByte(bs, SB_SIZE * skip + y)
    {
      DeliverByte(bs, [], init, skip, None, pg, pageSize, pg, y);
    }
  }

  /** With a page list, as far as the block reaches: valid pages are left alone and the others get the bytes of the
      block. */
  lemma DecompressesInvalidPages(s: seq<byte>, beyond: byte, bs: seq<SubBlock>, pad: nat, init: seq<byte>, skip: nat,
                                 valid: seq<bool>, pg: nat, pageSize: nat)
    requires Stored(s, beyond, bs, pad) && pageSize > 0 && pageSize % SB_SIZE == 0 && |init| % SB_SIZE == 0
    ensures var r := Blocks(s, beyond, [], init, skip, Some(valid), pg, pageSize);
            && r.Some? && |r.value| == |init|
            && forall y :: 0 <= y < |init| && SB_SIZE * skip + y < SB_SIZE * |bs| ==>
                 r.value[y] == if ValidPage(Some(valid), pg + PageOf(y, pageSize)) then init[y]
                   else PlainByte(bs, SB_SIZE * skip + y)
  {
    hide Blocks, Deliver, Stored, PlainByte, ValidPage, PageOf;
    StoredOk(s, beyond, bs, pad);
    FirstPage(pageSize);
    BlocksDeliver(s, beyond, bs, pad, [], init, skip, Some(valid), pg, pageSize);
    forall y | 0 <= y < |init| && SB_SIZE * skip + y < SB_SIZE * |bs|
      ensures Deliver(bs, [], init, skip, Some(valid), pg, pageSize)[y] ==
              if ValidPage(Some(valid), pg + PageOf(y, pageSize)) then init[y] else PlainByte(bs, SB_SIZE * skip + y)
    {
      DeliverByte(bs, [], init, skip, Some(valid), pg, pageSize, pg, y);
    }
  }

  // ----- Where the driver and the format disagree

  /** The test for six bytes is made at every sub-block, so a block whose last sub-block has fewer from its start to the
      end of the block is refused, well-formed as it may be. */
  lemma {:induction false} SixBytesNeeded(s: seq<byte>, beyond: byte, bs: seq<SubBlock>, pad: nat, out: seq<byte>,
                                          init: seq<byte>, skip: nat, pg: nat, pageSize: nat)
    requires AllOk(bs) && s == EncodeBlock(bs) + Zeros(pad) && bs != [] && |EncodeSubBlock(bs[|bs| - 1])| + pad < 6
    requires pageSize > 0 && |out| + SB_SIZE * |bs| <= |init|
    ensures Blocks(s, beyond, out, init, skip, None, pg, pageSize) == None
    decreases |bs|
  {
    hide Blocks, DecodeSubBlock, EncodeSubBlock, SubBlockOk, LE16, NextPage, Plain;
    var x := EncodeSubBlock(bs[0]);
    SubBlockDecodes(bs[0]);
    assert s == x + (EncodeBlock(bs[1..]) + Zeros(pad));
    assert s[0..|x|] == x;
    ReadSlice(s, 0, x, 0);
    HeaderRead(s, beyond);
    BlocksStep(s, beyond, out, init, skip, None, pg, pageSize);
    if |bs| > 1 {
      assert s[|x|..] == EncodeBlock(bs[1..]) + Zeros(pad);
      assert bs[1..][|bs[1..]| - 1] == bs[|bs| - 1];
      if skip > 0 {
        SixBytesNeeded(s[|x|..], beyond, bs[1..], pad, out, init, skip - 1, pg, pageSize);
      } else {
        SixBytesNeeded(s[|x|..], beyond, bs[1..], pad, out + Plain(bs[0]), init, 0, NextPage(pg, |out|, pageSize),
                       pageSize);
      }
    } else {
      assert EncodeBlock(bs[1..]) == [];
    }
  }
}
