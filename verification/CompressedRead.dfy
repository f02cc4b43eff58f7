/** Reading a compressed attribute block by block (`ntfs_get_cb_type` and `ntfs_read_compressed` without a page list,
    kext/ntfs_compress.c). */
module CompressedRead {
  import opened Errno
  import opened Bytes
  import opened AttrArea
  import opened Lznt1
  import opened Decompressor
  import opened CompressionBlock

  const CB_SPARSE := -1
  const CB_COMPRESSED := -2
  const CB_UNCOMPRESSED := -3
  const LCN_HOLE := -1
  const LCN_RL_NOT_MAPPED := -2

  // ----- Classifying a compression block

  /** An element of a runlist: `length` clusters from `vcn` on are a hole, are found at `lcn` or are not in memory. */
  datatype Run = Run(vcn: nat, lcn: int, length: nat)

  ghost predicate RunlistOk(rl: seq<Run>) {
    && (rl != [] ==> rl[0].vcn == 0)
    && (forall i :: 0 <= i < |rl| ==> rl[i].length > 0 && rl[i].lcn >= LCN_RL_NOT_MAPPED)
    && (forall i, j :: 0 <= i && j == i + 1 && j < |rl| ==> rl[j].vcn == rl[i].vcn + rl[i].length)
  }

  ghost predicate InRun(r: Run, vcn: nat) {
    r.vcn <= vcn < r.vcn + r.length
  }

  ghost predicate Real(rl: seq<Run>, vcn: nat) {
    exists i :: 0 <= i < |rl| && InRun(rl[i], vcn) && rl[i].lcn >= 0
  }

  ghost predicate Hole(rl: seq<Run>, vcn: nat) {
    exists i :: 0 <= i < |rl| && InRun(rl[i], vcn) && rl[i].lcn == LCN_HOLE
  }

  ghost predicate Mapped(rl: seq<Run>, vcn: nat) {
    Real(rl, vcn) || Hole(rl, vcn)
  }

  lemma {:induction false} RunsInOrder(rl: seq<Run>, i: nat, j: nat)
    requires RunlistOk(rl) && i < j < |rl|
    ensures rl[i].vcn + rl[i].length <= rl[j].vcn
    decreases j
  {
    if i < j - 1 {
      RunsInOrder(rl, i, j - 1);
    }
    assert rl[j].vcn == rl[j - 1].vcn + rl[j - 1].length;
  }

  /** A cluster is in at most one run. */
  lemma InOneRun(rl: seq<Run>, i: nat, vcn: nat)
    requires RunlistOk(rl) && i < |rl| && InRun(rl[i], vcn)
    ensures Real(rl, vcn) <==> rl[i].lcn >= 0
    ensures Hole(rl, vcn) <==> rl[i].lcn == LCN_HOLE
  {
    forall j | 0 <= j < |rl| && InRun(rl[j], vcn)
      ensures j == i
    {
      if j < i {
        RunsInOrder(rl, j, i);
      } else if i < j {
        RunsInOrder(rl, i, j);
      }
    }
  }

  ghost predicate Within(rl: seq<Run>, vcn: nat) {
    exists i :: 0 <= i < |rl| && InRun(rl[i], vcn)
  }

  /** Go on to the element that holds `vcn`. */
  method Seek(rl: seq<Run>, from: nat, vcn: nat) returns (i: nat)
    requires RunlistOk(rl) && from <= |rl| && (from < |rl| ==> rl[from].vcn <= vcn)
    requires forall j :: 0 <= j < from ==> !InRun(rl[j], vcn)
    ensures from <= i <= |rl| && (i < |rl| ==> InRun(rl[i], vcn)) && (i == |rl| ==> !Within(rl, vcn))
  {
    i := from;
    while i < |rl| && rl[i].vcn + rl[i].length <= vcn
      invariant from <= i <= |rl| && (i < |rl| ==> rl[i].vcn <= vcn)
      invariant forall j :: 0 <= j < i ==> !InRun(rl[j], vcn)
    {
      assert i + 1 < |rl| ==> rl[i + 1].vcn == rl[i].vcn + rl[i].length;
      i := i + 1;
    }
  }

  /** The part of a runlist that is in memory; `ended` says that nothing follows its last run. */
  datatype Cached = Cached(runs: seq<Run>, ended: bool)

  /** What mapping a fragment of a runlist gives (`ntfs_map_runlist_nolock`). */
  datatype Mapping = Failed(err: int) | Brought(cache: Cached)

  /** What is in memory is what the attribute has on disk. */
  ghost predicate Shows(c: Cached, rl: seq<Run>) {
    && RunlistOk(c.runs)
    && (forall v: nat :: (Real(c.runs, v) ==> Real(rl, v)) && (Hole(c.runs, v) ==> Hole(rl, v)))
    && (c.ended ==> forall v: nat :: Mapped(rl, v) ==> Within(c.runs, v))
  }

  /** Mapping fails or brings the fragment with the cluster asked for. */
  ghost predicate MappingOk(m: Mapping, rl: seq<Run>, vcn: nat) {
    match m
    case Failed(err) => err > 0
    case Brought(c) => Shows(c, rl) && (Mapped(rl, vcn) ==> Mapped(c.runs, vcn))
  }

  ghost predicate MapsRight(mapping: nat -> Mapping, rl: seq<Run>) {
    forall v: nat :: MappingOk(mapping(v), rl, v)
  }

  /** The reason for giving up at `vcn`: it could not be mapped, or there is no such cluster. */
  ghost predicate GivesUpAt(mapping: nat -> Mapping, rl: seq<Run>, vcn: nat, err: int) {
    (mapping(vcn).Failed? && err == mapping(vcn).err) || (!Mapped(rl, vcn) && err == EIO)
  }

  /** The run that holds `vcn` is looked up in memory and, if it is not there, once more after mapping it. */
  method Probe(c: Cached, ghost rl: seq<Run>, mapping: nat -> Mapping, from: nat, vcn: nat)
    returns (err: int, now: Cached, i: nat)
    requires Shows(c, rl) && MapsRight(mapping, rl)
    requires from <= |c.runs| && (0 < from < |c.runs| ==> c.runs[from].vcn <= vcn)
    requires forall j :: 0 <= j < from ==> !InRun(c.runs[j], vcn)
    ensures err == 0 ==>
              && Shows(now, rl) && i < |now.runs| && InRun(now.runs[i], vcn) && now.runs[i].lcn >= LCN_HOLE
              && (Mapped(c.runs, vcn) ==> now == c)
    ensures err != 0 ==> err > 0 && !Mapped(c.runs, vcn) && GivesUpAt(mapping, rl, vcn, err)
  {
    i := Seek(c.runs, from, vcn);
    if i < |c.runs| {
      InOneRun(c.runs, i, vcn);
      if c.runs[i].lcn >= LCN_HOLE {
        return 0, c, i;
      }
    } else if c.ended {
      return EIO, c, i;
    }
    var m := mapping(vcn);
    if m.Failed? {
      return m.err, c, i;
    }
    i := Seek(m.cache.runs, 0, vcn);
    if i < |m.cache.runs| {
      InOneRun(m.cache.runs, i, vcn);
      if m.cache.runs[i].lcn >= LCN_HOLE {
        return 0, m.cache, i;
      }
    }
    return EIO, m.cache, i;
  }

  /** The run in memory tells what the cluster is. */
  lemma Shown(c: Cached, rl: seq<Run>, i: nat, vcn: nat)
    requires Shows(c, rl) && RunlistOk(rl) && i < |c.runs| && InRun(c.runs[i], vcn) && c.runs[i].lcn >= LCN_HOLE
    ensures Mapped(rl, vcn) && Mapped(c.runs, vcn)
    ensures Hole(rl, vcn) <==> c.runs[i].lcn == LCN_HOLE
  {
    hide Real, Hole;
    InOneRun(c.runs, i, vcn);
    NotBoth(rl, vcn);
  }

  lemma NotEarlier(rl: seq<Run>, i: nat, vcn: nat)
    requires RunlistOk(rl) && i < |rl| && rl[i].vcn <= vcn
    ensures forall j :: 0 <= j < i ==> !InRun(rl[j], vcn)
  {
    forall j | 0 <= j < i
      ensures !InRun(rl[j], vcn)
    {
      RunsInOrder(rl, j, i);
    }
  }

  lemma AllShown(rl: seq<Run>)
    requires RunlistOk(rl)
    ensures Shows(Cached(rl, true), rl)
  {
  }

  /** `ntfs_get_cb_type` for the `n` clusters from `start` on of an attribute whose runlist is `rl`: the first cluster
      is looked at and, if the run found there ends before the block does, the last one. */
  method GetCbType(c: Cached, ghost rl: seq<Run>, mapping: nat -> Mapping, start: nat, n: nat) returns (ret: int)
    requires Shows(c, rl) && RunlistOk(rl) && MapsRight(mapping, rl) && n > 0
    ensures ret < 0 ==> Mapped(rl, start) && (Mapped(rl, start + n - 1) ==> ret == TwoProbes(rl, start, n))
    ensures ret >= 0 ==>
              && !(Mapped(c.runs, start) && Mapped(c.runs, start + n - 1))
              && (GivesUpAt(mapping, rl, start, ret) || GivesUpAt(mapping, rl, start + n - 1, ret))
  {
    hide RunlistOk, Real, Hole, Mapped, Within, MapsRight, GivesUpAt;
    var err, now, i := Probe(c, rl, mapping, 0, start);
    if err != 0 {
      return err;
    }
    Shown(now, rl, i, start);
    if now.runs[i].lcn == LCN_HOLE {
      return CB_SPARSE;
    }
    var last := start + n - 1;
    if start + (now.runs[i].vcn + now.runs[i].length - start) >= start + n {
      Shown(now, rl, i, last);
      return CB_UNCOMPRESSED;
    }
    NotEarlier(now.runs, i, last);
    var k;
    err, now, k := Probe(now, rl, mapping, i, last);
    if err != 0 {
      return err;
    }
    Shown(now, rl, k, last);
    if now.runs[k].lcn == LCN_HOLE {
      return CB_COMPRESSED;
    }
    return CB_UNCOMPRESSED;
  }

  /** What two probes tell. */
  ghost function TwoProbes(rl: seq<Run>, start: nat, n: nat): (r: int)
    requires n > 0
  {
    if Hole(rl, start) then CB_SPARSE else if Hole(rl, start + n - 1) then CB_COMPRESSED else CB_UNCOMPRESSED
  }

  ghost predicate AllReal(rl: seq<Run>, start: nat, n: nat) {
    forall v :: start <= v < start + n ==> Real(rl, v)
  }

  ghost predicate AllHole(rl: seq<Run>, start: nat, n: nat) {
    forall v :: start <= v < start + n ==> Hole(rl, v)
  }

  ghost predicate AllMapped(rl: seq<Run>, start: nat, n: nat) {
    forall v :: start <= v < start + n ==> Mapped(rl, v)
  }

  /** What a look at every cluster tells. */
  ghost function FullScan(rl: seq<Run>, start: nat, n: nat): (r: int) {
    if AllHole(rl, start, n) then CB_SPARSE else if AllReal(rl, start, n) then CB_UNCOMPRESSED else CB_COMPRESSED
  }

  lemma NotBoth(rl: seq<Run>, vcn: nat)
    requires RunlistOk(rl)
    ensures !(Real(rl, vcn) && Hole(rl, vcn))
  {
    if Real(rl, vcn) {
      var i :| 0 <= i < |rl| && InRun(rl[i], vcn) && rl[i].lcn >= 0;
      InOneRun(rl, i, vcn);
    }
  }

  /** Exactly when the two agree: a block that starts with a hole is all hole, and one that starts and ends with real
      clusters is all real. */
  lemma ProbesExactly(rl: seq<Run>, start: nat, n: nat)
    requires RunlistOk(rl) && n > 0 && AllMapped(rl, start, n)
    ensures TwoProbes(rl, start, n) == FullScan(rl, start, n) <==>
              && (Hole(rl, start) ==> AllHole(rl, start, n))
              && (Real(rl, start) && Real(rl, start + n - 1) ==> AllReal(rl, start, n))
  {
    hide Real, Hole;
    NotBoth(rl, start);
    NotBoth(rl, start + n - 1);
    assert Mapped(rl, start) && Mapped(rl, start + n - 1);
  }

  /** Real clusters form a prefix of the block. */
  ghost predicate RealPrefix(rl: seq<Run>, start: nat, n: nat) {
    forall v, w :: start <= v < w < start + n && Real(rl, w) ==> Real(rl, v)
  }

  /** On blocks as NTFS lays them out two probes see what a look at every cluster would. */
  lemma ProbesSuffice(rl: seq<Run>, start: nat, n: nat)
    requires RunlistOk(rl) && n > 0 && AllMapped(rl, start, n) && RealPrefix(rl, start, n)
    ensures TwoProbes(rl, start, n) == FullScan(rl, start, n)
  {
    hide Real, Hole;
    NotBoth(rl, start);
    ProbesExactly(rl, start, n);
    if Hole(rl, start) {
      forall v | start <= v < start + n
        ensures Hole(rl, v)
      {
        assert Mapped(rl, v);
      }
    }
  }

  /** A hole between real clusters is not seen. */
  lemma HoleInTheMiddle()
    ensures var rl := [Run(0, 5, 1), Run(1, LCN_HOLE, 1), Run(2, 7, 1)];
            RunlistOk(rl) && TwoProbes(rl, 0, 3) == CB_UNCOMPRESSED && FullScan(rl, 0, 3) == CB_COMPRESSED
  {
    var rl := [Run(0, 5, 1), Run(1, LCN_HOLE, 1), Run(2, 7, 1)];
    InOneRun(rl, 0, 0);
    InOneRun(rl, 1, 1);
    InOneRun(rl, 2, 2);
    assert !Hole(rl, 0) && !Real(rl, 1) && !Hole(rl, 2);
  }

  // ----- The stream

  /** A compressed attribute: its runlist, the bytes of its clusters (zero in holes) and the geometry. */
  datatype Stream = Stream(rl: seq<Run>, raw: seq<byte>, blockClusters: nat, clusterSize: nat)

  function BlockSize(a: Stream): (r: nat) {
    a.blockClusters * a.clusterSize
  }

  function RawBlock(a: Stream, b: nat): (r: seq<byte>)
    requires b * BlockSize(a) + BlockSize(a) <= |a.raw|
    ensures |r| == BlockSize(a)
  {
    a.raw[b * BlockSize(a)..b * BlockSize(a) + BlockSize(a)]
  }

  ghost function TypeOf(a: Stream, b: nat): (r: int) {
    FullScan(a.rl, b * a.blockClusters, a.blockClusters)
  }

  /** Block `b`: mapped, real clusters in front of holes and, if it is compressed, the sub-blocks `bs`. */
  ghost predicate BlockOk(a: Stream, bs: seq<SubBlock>, b: nat)
    requires b * BlockSize(a) + BlockSize(a) <= |a.raw|
  {
    && AllMapped(a.rl, b * a.blockClusters, a.blockClusters) && RealPrefix(a.rl, b * a.blockClusters, a.blockClusters)
    && AllOk(bs)
    && (TypeOf(a, b) == CB_COMPRESSED ==> exists pad: nat :: pad != 1 && Stored(RawBlock(a, b), 0, bs, pad))
  }

  ghost predicate StreamOk(a: Stream, sbs: seq<seq<SubBlock>>) {
    && a.blockClusters > 0 && BlockSize(a) > 0 && BlockSize(a) % SB_SIZE == 0 && RunlistOk(a.rl)
    && (forall v: nat :: Mapped(a.rl, v) ==> v < |sbs| * a.blockClusters)
    && (forall b :: 0 <= b < |sbs| ==> b * BlockSize(a) + BlockSize(a) <= |a.raw| && BlockOk(a, sbs[b], b))
  }

  /** Byte `o` of block `b`. */
  ghost function BlockByte(a: Stream, sbs: seq<seq<SubBlock>>, b: nat, o: nat): (r: byte)
    requires StreamOk(a, sbs) && o < BlockSize(a)
  {
    if b >= |sbs| || TypeOf(a, b) == CB_SPARSE then 0
    else if TypeOf(a, b) == CB_UNCOMPRESSED then RawBlock(a, b)[o]
    else PlainByte(sbs[b], o)
  }

  /** Byte `x` of the uncompressed data. */
  ghost function StreamByte(a: Stream, sbs: seq<seq<SubBlock>>, x: nat): (r: byte)
    requires StreamOk(a, sbs)
  {
    BlockByte(a, sbs, x / BlockSize(a), x % BlockSize(a))
  }

  lemma StreamAt(a: Stream, sbs: seq<seq<SubBlock>>, b: nat, o: nat)
    requires StreamOk(a, sbs) && o < BlockSize(a)
    ensures StreamByte(a, sbs, b * BlockSize(a) + o) == BlockByte(a, sbs, b, o)
  {
    hide BlockByte, StreamOk, BlockSize;
    SizePositive(a, sbs);
    DivMod(b, o, BlockSize(a));
  }

  lemma SizePositive(a: Stream, sbs: seq<seq<SubBlock>>)
    requires StreamOk(a, sbs)
    ensures BlockSize(a) > 0 && BlockSize(a) % SB_SIZE == 0 && a.blockClusters > 0 && RunlistOk(a.rl)
  {
  }

  /** The bytes of block `b` from `o` on. */
  ghost predicate IsBlockPart(v: seq<byte>, a: Stream, sbs: seq<seq<SubBlock>>, b: nat, o: nat)
    requires StreamOk(a, sbs)
  {
    o + |v| <= BlockSize(a) && forall i :: 0 <= i < |v| ==> v[i] == BlockByte(a, sbs, b, o + i)
  }

  /** What the type found means for the block. */
  lemma TypeIs(a: Stream, sbs: seq<seq<SubBlock>>, b: nat)
    requires StreamOk(a, sbs) && b < |sbs|
    ensures b * BlockSize(a) + BlockSize(a) <= |a.raw|
    ensures Mapped(a.rl, b * a.blockClusters) && Mapped(a.rl, b * a.blockClusters + a.blockClusters - 1)
    ensures TwoProbes(a.rl, b * a.blockClusters, a.blockClusters) == TypeOf(a, b)
  {
    hide Mapped, RealPrefix, Stored, FullScan, TwoProbes, RunlistOk;
    assert BlockOk(a, sbs[b], b);
    ProbesSuffice(a.rl, b * a.blockClusters, a.blockClusters);
  }

  lemma BlockExists(a: Stream, sbs: seq<seq<SubBlock>>, b: nat)
    requires StreamOk(a, sbs) && Mapped(a.rl, b * a.blockClusters)
    ensures b < |sbs|
  {
    hide Mapped, BlockOk, RunlistOk;
    if b >= |sbs| {
      Scaled(|sbs|, b, a.blockClusters);
    }
  }

  lemma StoredAnyway(s: seq<byte>, bs: seq<SubBlock>, pad: nat, beyond: byte)
    requires Stored(s, 0, bs, pad) && pad != 1
    ensures Stored(s, beyond, bs, pad)
  {
  }

  /** What decompressing part of a compressed block gives. */
  lemma PartDecompressed(a: Stream, sbs: seq<seq<SubBlock>>, b: nat, o: nat, init: seq<byte>, beyond: byte, pg: nat,
                         pageSize: nat)
    requires StreamOk(a, sbs) && b < |sbs| && TypeOf(a, b) == CB_COMPRESSED
    requires b * BlockSize(a) + BlockSize(a) <= |a.raw|
    requires o % SB_SIZE == 0 && |init| % SB_SIZE == 0 && o + |init| <= BlockSize(a) && pageSize > 0
    requires pageSize % SB_SIZE == 0
    ensures var r := Blocks(RawBlock(a, b), beyond, [], init, o / SB_SIZE, None, pg, pageSize);
            r.Some? && |r.value| == |init| && IsBlockPart(r.value, a, sbs, b, o)
  {
    hide Blocks, Stored, Mapped, RealPrefix, FullScan, RunlistOk, PlainByte, BlockSize;
    assert BlockOk(a, sbs[b], b);
    var pad: nat :| pad != 1 && Stored(RawBlock(a, b), 0, sbs[b], pad);
    StoredAnyway(RawBlock(a, b), sbs[b], pad, beyond);
    DecompressesSuffix(RawBlock(a, b), beyond, sbs[b], pad, init, o / SB_SIZE, pg, pageSize);
  }

  lemma PartPlain(a: Stream, sbs: seq<seq<SubBlock>>, b: nat, o: nat, n: nat)
    requires StreamOk(a, sbs) && b < |sbs| && o + n <= BlockSize(a) && b * BlockSize(a) + BlockSize(a) <= |a.raw|
    ensures TypeOf(a, b) == CB_SPARSE ==> IsBlockPart(Zeros(n), a, sbs, b, o)
    ensures TypeOf(a, b) == CB_UNCOMPRESSED ==> IsBlockPart(RawBlock(a, b)[o..o + n], a, sbs, b, o)
  {
    hide StreamOk, TypeOf, PlainByte, BlockSize;
  }

  /** Block `b` can be read: it is mapped, and it is a hole or none of its clusters is bad. */
  ghost predicate Readable(a: Stream, blocks: nat, bad: set<nat>, b: nat) {
    b < blocks && (TypeOf(a, b) == CB_SPARSE || b !in bad)
  }

  /** The part of block `b` from `o` on, `n` bytes, is read to `d`. Reading the clusters of the blocks in `bad`
      fails. */
  method ReadBlock(dst: array<byte>, d: nat, a: Stream, ghost sbs: seq<seq<SubBlock>>, b: nat, o: nat, n: nat,
                   pageSize: nat, bad: set<nat>)
    returns (err: int, ghost v: seq<byte>)
    requires StreamOk(a, sbs) && d + n + 1 <= dst.Length && o + n <= BlockSize(a)
    requires o % SB_SIZE == 0 && n % SB_SIZE == 0 && pageSize > 0 && pageSize % SB_SIZE == 0
    modifies dst
    ensures err == if Readable(a, |sbs|, bad, b) then 0 else EIO
    ensures err == 0 ==> |v| == n && IsBlockPart(v, a, sbs, b, o) && Wrote(old(dst[..]), dst[..], d, v)
  {
    hide StreamOk, TypeOf, PlainByte, BlockSize, Blocks, Wrote, TwoProbes, Mapped, IsBlockPart, RunlistOk;
    v := [];
    SizePositive(a, sbs);
    TypeKnown(a, sbs, b);
    AllShown(a.rl);
    var cbType := GetCbType(Cached(a.rl, true), a.rl, _ => Failed(EIO), b * a.blockClusters, a.blockClusters);
    if cbType >= 0 {
      return cbType, v;
    }
    BlockExists(a, sbs, b);
    TypeIs(a, sbs, b);
    PartPlain(a, sbs, b, o, n);
    if cbType == CB_SPARSE {
      v := Zeros(n);
      Bzero(dst, d, n);
      return 0, v;
    }
    if b in bad {
      return EIO, v;
    }
    var cb := RawBlock(a, b);
    if cbType == CB_UNCOMPRESSED {
      v := cb[o..o + n];
      ghost var was := dst[..];
      forall i | 0 <= i < n {
        dst[d + i] := cb[o + i];
      }
      CopiedIn(was, dst[..], d, v);
      return 0, v;
    }
    TypeIsOneOfThree(a, b);
    var beyond: byte := *;
    ghost var init := dst[d..d + n];
    PartDecompressed(a, sbs, b, o, init, beyond, 0, pageSize);
    v := Blocks(cb, beyond, [], init, o / SB_SIZE, None, 0, pageSize).value;
    err := Decompress(dst, d, o, n, cb, beyond, None, 0, 0xffff, pageSize);
  }

  /** The type of a block that exists is found. */
  lemma TypeKnown(a: Stream, sbs: seq<seq<SubBlock>>, b: nat)
    requires StreamOk(a, sbs)
    ensures b < |sbs| ==>
              && Mapped(a.rl, b * a.blockClusters) && Mapped(a.rl, b * a.blockClusters + a.blockClusters - 1)
              && TwoProbes(a.rl, b * a.blockClusters, a.blockClusters) == TypeOf(a, b) < 0
  {
    hide StreamOk, TwoProbes, Mapped;
    if b < |sbs| {
      TypeIs(a, sbs, b);
      TypeIsOneOfThree(a, b);
    }
  }

  lemma TypeIsOneOfThree(a: Stream, b: nat)
    ensures TypeOf(a, b) == CB_SPARSE || TypeOf(a, b) == CB_COMPRESSED || TypeOf(a, b) == CB_UNCOMPRESSED
  {
  }

  // ----- The whole read

  /** `(x + PAGE_MASK) & ~PAGE_MASK`. */
  function RoundPage(x: nat, pageSize: nat): (r: nat)
    requires pageSize > 0
  {
    (x + pageSize - 1) / pageSize * pageSize
  }

  /** Rounding up the byte count of `k` pages and `r` bytes. */
  lemma RoundExact(k: nat, r: nat, pageSize: nat)
    requires r < pageSize
    ensures RoundPage(k * pageSize + r, pageSize) == if r == 0 then k * pageSize else (k + 1) * pageSize
  {
    NextMultiple(k, pageSize);
    if r == 0 {
      DivMod(k, pageSize - 1, pageSize);
    } else {
      DivMod(k + 1, r - 1, pageSize);
      assert k * pageSize + r + pageSize - 1 == (k + 1) * pageSize + (r - 1);
    }
  }

  lemma DistributeOver(x: nat, y: nat, p: nat)
    ensures (x + y) * p == x * p + y * p
  {
  }

  /** The bytes of the stream from `ofs` on. */
  ghost predicate IsStreamPart(v: seq<byte>, a: Stream, sbs: seq<seq<SubBlock>>, ofs: nat)
    requires StreamOk(a, sbs)
  {
    forall i :: 0 <= i < |v| ==> v[i] == StreamByte(a, sbs, ofs + i)
  }

  /** Where block `b` starts. */
  function BlockStart(a: Stream, b: nat): (r: nat) {
    b * BlockSize(a)
  }

  lemma NextBlock(a: Stream, b: nat)
    ensures BlockStart(a, b + 1) == BlockStart(a, b) + BlockSize(a)
  {
    hide BlockSize;
    NextMultiple(b, BlockSize(a));
  }

  /** The block and the offset in it of byte `x`. */
  function Quot(x: nat, p: nat): (r: nat)
    requires p > 0
  {
    x / p
  }

  function Rem(x: nat, p: nat): (r: nat)
    requires p > 0
    ensures r < p
  {
    x % p
  }

  /** The next part of the stream is a part of block `b`. */
  lemma StreamGoesOn(v: seq<byte>, w: seq<byte>, a: Stream, sbs: seq<seq<SubBlock>>, ofs: nat, b: nat, o: nat)
    requires StreamOk(a, sbs) && IsStreamPart(v, a, sbs, ofs) && IsBlockPart(w, a, sbs, b, o)
    requires ofs + |v| == BlockStart(a, b) + o
    ensures IsStreamPart(v + w, a, sbs, ofs)
  {
    hide StreamOk, StreamByte, BlockByte;
    forall i | 0 <= i < |v + w|
      ensures (v + w)[i] == StreamByte(a, sbs, ofs + i)
    {
      if i >= |v| {
        StreamAt(a, sbs, b, o + (i - |v|));
      }
    }
  }

  /** All blocks that bytes `lo` to `hi` of the stream are in can be read. */
  ghost predicate RangeReadable(a: Stream, blocks: nat, bad: set<nat>, lo: nat, hi: nat) {
    BlockSize(a) > 0 ==> forall x :: lo <= x < hi ==> Readable(a, blocks, bad, Quot(x, BlockSize(a)))
  }

  /** The bytes from `at` on that are in block `b` are readable exactly if it is. */
  lemma RangeGoesOn(a: Stream, blocks: nat, bad: set<nat>, lo: nat, at: nat, b: nat, o: nat, n: nat)
    requires BlockSize(a) > 0 && 0 < n && o + n <= BlockSize(a) && lo <= at == BlockStart(a, b) + o
    requires RangeReadable(a, blocks, bad, lo, at)
    ensures RangeReadable(a, blocks, bad, lo, at + n) <==> Readable(a, blocks, bad, b)
  {
    hide Readable, BlockSize, Quot, BlockStart;
    forall x | at <= x < at + n
      ensures Quot(x, BlockSize(a)) == b
    {
      InBlock(a, b, x - at + o);
    }
    assert Quot(at, BlockSize(a)) == b;
  }

  lemma InBlock(a: Stream, b: nat, r: nat)
    requires r < BlockSize(a)
    ensures Quot(BlockStart(a, b) + r, BlockSize(a)) == b
  {
    hide BlockSize;
    DivMod(b, r, BlockSize(a));
  }

  lemma NothingToRead(a: Stream, blocks: nat, bad: set<nat>, lo: nat)
    ensures RangeReadable(a, blocks, bad, lo, lo)
  {
  }

  /** What is readable to the end is readable to any point before it. */
  lemma RangeShorter(a: Stream, blocks: nat, bad: set<nat>, lo: nat, mid: nat, hi: nat)
    requires mid <= hi && !RangeReadable(a, blocks, bad, lo, mid)
    ensures !RangeReadable(a, blocks, bad, lo, hi)
  {
    hide Readable, Quot, BlockSize;
  }

  /** Whole sub-blocks. */
  ghost predicate Whole(x: nat) {
    x % SB_SIZE == 0
  }

  lemma IsWhole(x: nat)
    ensures Whole(x) <==> x % SB_SIZE == 0
  {
  }

  /** What is read of a block is whole sub-blocks, and so is the rest. */
  lemma WholePart(cb: nat, o: nat, count: nat, n: nat)
    requires cb % SB_SIZE == 0 && Whole(o) && Whole(count) && o < cb && n == if cb - o > count then count else cb - o
    ensures o % SB_SIZE == 0 && n % SB_SIZE == 0 && Whole(count - n) && Whole(0)
  {
  }

  /** The loop over the compression blocks: `n` bytes of the stream from `ofs` on. */
  method ReadBlocks(dst: array<byte>, a: Stream, ghost sbs: seq<seq<SubBlock>>, ofs: nat, n: nat, pageSize: nat,
                    bad: set<nat>)
    returns (err: int, ghost v: seq<byte>)
    requires StreamOk(a, sbs) && n + 1 <= dst.Length && n > 0
    requires ofs % SB_SIZE == 0 && n % SB_SIZE == 0 && pageSize > 0 && pageSize % SB_SIZE == 0
    modifies dst
    ensures err == 0 || err == EIO
    ensures err == 0 <==> RangeReadable(a, |sbs|, bad, ofs, ofs + n)
    ensures err == 0 ==> |v| == n && IsStreamPart(v, a, sbs, ofs) && Wrote(old(dst[..]), dst[..], 0, v)
  {
    hide StreamOk, BlockSize, Wrote, IsBlockPart, IsStreamPart, BlockStart, Quot, Rem, Readable, RangeReadable, Whole;
    SizePositive(a, sbs);
    NothingToRead(a, |sbs|, bad, ofs);
    ghost var was := dst[..];
    v := [];
    WroteNothing(was, 0);
    NothingOfStream(a, sbs, ofs);
    var cb := BlockSize(a);
    StartAligned(a, ofs);
    var b: nat, inCb: nat := Quot(ofs, cb), Rem(ofs, cb);
    IsWhole(n);
    var d, count := 0, n;
    while true
      invariant 0 < count && d + count == n && d == |v| && inCb < cb && ofs + d == BlockStart(a, b) + inCb
      invariant Whole(inCb) && Whole(count)
      invariant IsStreamPart(v, a, sbs, ofs) && Wrote(was, dst[..], 0, v)
      invariant RangeReadable(a, |sbs|, bad, ofs, ofs + d)
      decreases count
    {
      var io := cb - inCb;
      if io > count {
        io := count;
      }
      WholePart(cb, inCb, count, io);
      ghost var mid := dst[..];
      ghost var w;
      err, w := ReadBlock(dst, d, a, sbs, b, inCb, io, pageSize, bad);
      RangeGoesOn(a, |sbs|, bad, ofs, ofs + d, b, inCb, io);
      if err != 0 {
        RangeShorter(a, |sbs|, bad, ofs, ofs + d + io, ofs + n);
        return;
      }
      StreamGoesOn(v, w, a, sbs, ofs, b, inCb);
      WroteNext(was, mid, dst[..], 0, v, w);
      v := v + w;
      d, count := d + io, count - io;
      if count == 0 {
        return 0, v;
      }
      NextBlock(a, b);
      b, inCb := b + 1, 0;
    }
  }

  lemma StartAligned(a: Stream, ofs: nat)
    requires BlockSize(a) > 0 && BlockSize(a) % SB_SIZE == 0 && ofs % SB_SIZE == 0
    ensures ofs == BlockStart(a, Quot(ofs, BlockSize(a))) + Rem(ofs, BlockSize(a)) && Whole(Rem(ofs, BlockSize(a)))
  {
    hide BlockSize;
    AlignedInBlock(ofs, BlockSize(a));
  }

  lemma NothingOfStream(a: Stream, sbs: seq<seq<SubBlock>>, ofs: nat)
    requires StreamOk(a, sbs)
    ensures IsStreamPart([], a, sbs, ofs)
  {
  }

  lemma AlignedInBlock(ofs: nat, cb: nat)
    requires cb > 0 && cb % SB_SIZE == 0 && ofs % SB_SIZE == 0
    ensures ofs / cb >= 0 && ofs == ofs / cb * cb + ofs % cb && (ofs % cb) % SB_SIZE == 0
  {
    assert ofs == ofs / cb * cb + ofs % cb;
    Divides(ofs / cb, cb);
    Difference(ofs / cb * cb, ofs % cb);
  }

  lemma Difference(x: nat, y: nat)
    requires x % SB_SIZE == 0 && (x + y) % SB_SIZE == 0
    ensures y % SB_SIZE == 0
  {
  }

  /** Byte `x` as it is read: beyond the initialized size everything is zero. */
  ghost function ReadByte(a: Stream, sbs: seq<seq<SubBlock>>, initSize: nat, x: nat): (r: byte)
    requires StreamOk(a, sbs)
  {
    if x < initSize then StreamByte(a, sbs, x) else 0
  }

  /** A multiple of the page size. */
  predicate PageAligned(x: nat, pageSize: nat)
    requires pageSize > 0
  {
    x % pageSize == 0
  }

  /** Where reading stops: at the end of what is asked for, or of the page in which the initialized size ends. */
  ghost function ReadEnd(ofs: nat, count: nat, initSize: nat, pageSize: nat): (r: nat)
    requires pageSize > 0
  {
    if ofs + count <= initSize then ofs + count else if ofs > initSize then ofs else RoundPage(initSize, pageSize)
  }

  /** What is left of the page behind `z` bytes. */
  function PageRest(z: nat, pageSize: nat): (r: nat)
    requires pageSize > 0
  {
    pageSize - z % pageSize
  }

  /** `ntfs_read_compressed` without a page list: `count` bytes from `ofs` on, both multiples of the page size. It fails
      exactly if a block cannot be read that is touched up to the page in which the initialized size ends. */
  method ReadCompressed(dst: array<byte>, a: Stream, ghost sbs: seq<seq<SubBlock>>, ofs: nat, count: nat, initSize: nat,
                        pageSize: nat, bad: set<nat>)
    returns (err: int)
    requires StreamOk(a, sbs) && pageSize > 0 && pageSize % SB_SIZE == 0
    requires PageAligned(ofs, pageSize) && PageAligned(count, pageSize) && count > 0 && count + 1 <= dst.Length
    modifies dst
    ensures err == 0 || err == EIO
    ensures err == 0 <==> RangeReadable(a, |sbs|, bad, ofs, ReadEnd(ofs, count, initSize, pageSize))
    ensures err == 0 ==> forall i :: 0 <= i < count ==> dst[i] == ReadByte(a, sbs, initSize, ofs + i)
    ensures err == 0 ==> dst[count..] == old(dst[count..])
  {
    hide StreamOk, BlockSize, IsStreamPart, StreamByte, Wrote, RoundPage, ReadByte, PageAligned, PageRest,
         RangeReadable;
    var n, zeroEnd := count, 0;
    PageFacts(ofs, count, initSize, pageSize);
    ghost var was := dst[..];
    if ofs + count > initSize {
      var size := RoundPage(initSize, pageSize);
      n := if ofs > initSize then 0 else size - ofs;
      Bzero(dst, n, count - n);
      if n == 0 {
        OnlyZeros(was, dst[..], a, sbs, ofs, count, initSize);
        NothingToRead(a, |sbs|, bad, ofs);
        return 0;
      }
      if initSize < size {
        zeroEnd := initSize - ofs;
      }
    } else {
      WroteNothing(was, count);
      assert Zeros(0) == [];
    }
    ghost var v, mid := [], dst[..];
    err, v := ReadBlocks(dst, a, sbs, ofs, n, pageSize, bad);
    if err != 0 {
      return;
    }
    ghost var late := dst[..];
    if zeroEnd != 0 {
      TailOfPage(ofs, initSize, pageSize);
      Bzero(dst, zeroEnd, PageRest(zeroEnd, pageSize));
      ReadThenZeroed(was, mid, late, dst[..], a, sbs, ofs, n, count, initSize, v);
    } else {
      ReadAll(was, mid, late, a, sbs, ofs, n, count, initSize, v);
    }
    assert dst[count..] == dst[..][count..] && was[count..] == old(dst[count..]);
  }

  lemma PageFacts(ofs: nat, count: nat, initSize: nat, pageSize: nat)
    requires pageSize > 0 && pageSize % SB_SIZE == 0 && PageAligned(ofs, pageSize) && PageAligned(count, pageSize)
    ensures ofs % SB_SIZE == 0 && count % SB_SIZE == 0
    ensures RoundPage(initSize, pageSize) % SB_SIZE == 0 && initSize <= RoundPage(initSize, pageSize)
    ensures ofs + count > initSize ==> RoundPage(initSize, pageSize) <= ofs + count
    ensures ofs == initSize ==> RoundPage(initSize, pageSize) == ofs
  {
    hide RoundPage, PageAligned;
    AlignedAlso(ofs, pageSize);
    AlignedAlso(count, pageSize);
    RoundedAlso(initSize, pageSize);
    SumAligned(ofs, count, pageSize);
    if ofs + count > initSize {
      RoundedWithin(initSize, ofs + count, pageSize);
    }
    if ofs == initSize {
      RoundedAligned(initSize, pageSize);
    }
  }

  lemma AlignedAlso(x: nat, pageSize: nat)
    requires pageSize > 0 && pageSize % SB_SIZE == 0 && PageAligned(x, pageSize)
    ensures x % SB_SIZE == 0
  {
    var k := x / pageSize;
    assert x == k * pageSize;
    Divides(k, pageSize);
  }

  lemma RoundedAlso(x: nat, pageSize: nat)
    requires pageSize > 0 && pageSize % SB_SIZE == 0
    ensures RoundPage(x, pageSize) % SB_SIZE == 0 && x <= RoundPage(x, pageSize)
  {
    hide RoundPage;
    var k, r := x / pageSize, x % pageSize;
    assert x == k * pageSize + r;
    RoundExact(k, r, pageSize);
    NextMultiple(k, pageSize);
    Divides(k, pageSize);
    Divides(k + 1, pageSize);
  }

  lemma SumAligned(x: nat, y: nat, pageSize: nat)
    requires pageSize > 0 && PageAligned(x, pageSize) && PageAligned(y, pageSize)
    ensures PageAligned(x + y, pageSize)
  {
    var j, k := x / pageSize, y / pageSize;
    assert x == j * pageSize && y == k * pageSize;
    DistributeOver(j, k, pageSize);
    DivMod(j + k, 0, pageSize);
  }

  lemma RoundedWithin(x: nat, y: nat, pageSize: nat)
    requires pageSize > 0 && PageAligned(y, pageSize) && x < y
    ensures RoundPage(x, pageSize) <= y
  {
    hide RoundPage;
    var j, k, r := y / pageSize, x / pageSize, x % pageSize;
    assert y == j * pageSize && x == k * pageSize + r;
    RoundExact(k, r, pageSize);
    NextMultiple(k, pageSize);
    if j <= k {
      Scaled(j, k, pageSize);
    } else {
      Scaled(k + 1, j, pageSize);
    }
  }

  lemma RoundedAligned(x: nat, pageSize: nat)
    requires pageSize > 0 && PageAligned(x, pageSize)
    ensures RoundPage(x, pageSize) == x
  {
    hide RoundPage;
    var k := x / pageSize;
    assert x == k * pageSize + 0;
    RoundExact(k, 0, pageSize);
  }

  /** From the initialized size to the end of its page. */
  lemma TailOfPage(ofs: nat, initSize: nat, pageSize: nat)
    requires pageSize > 0 && PageAligned(ofs, pageSize) && ofs <= initSize < RoundPage(initSize, pageSize)
    ensures initSize + PageRest(initSize - ofs, pageSize) == RoundPage(initSize, pageSize)
  {
    hide RoundPage;
    var page, z := ofs / pageSize, initSize - ofs;
    assert ofs == page * pageSize;
    var q, r := z / pageSize, z % pageSize;
    assert z == q * pageSize + r;
    DistributeOver(page, q, pageSize);
    RoundExact(page + q, r, pageSize);
    NextMultiple(page + q, pageSize);
  }

  lemma WroteAt(was: seq<byte>, now: seq<byte>, start: nat, o: seq<byte>)
    requires Wrote(was, now, start, o)
    ensures |was| == |now| && start + |o| <= |now|
    ensures forall i :: 0 <= i < |now| ==> now[i] == if start <= i < start + |o| then o[i - start] else was[i]
  {
    assert forall i :: 0 <= i < start ==> now[i] == now[..start][i] && was[i] == was[..start][i];
    assert forall i :: start <= i < start + |o| ==> now[i] == now[start..start + |o|][i - start];
    assert forall i :: start + |o| <= i < |now| ==>
           now[i] == now[start + |o|..][i - start - |o|] && was[i] == was[start + |o|..][i - start - |o|];
  }

  lemma OnlyZeros(was: seq<byte>, now: seq<byte>, a: Stream, sbs: seq<seq<SubBlock>>, ofs: nat, all: nat, initSize: nat)
    requires StreamOk(a, sbs) && Wrote(was, now, 0, Zeros(all)) && initSize <= ofs
    ensures |now| == |was| >= all && now[all..] == was[all..]
    ensures forall i :: 0 <= i < all ==> now[i] == ReadByte(a, sbs, initSize, ofs + i)
  {
    hide StreamOk, StreamByte, Wrote;
    WroteAt(was, now, 0, Zeros(all));
  }

  lemma ReadAll(was: seq<byte>, mid: seq<byte>, now: seq<byte>, a: Stream, sbs: seq<seq<SubBlock>>, ofs: nat, n: nat,
                all: nat, initSize: nat, v: seq<byte>)
    requires StreamOk(a, sbs) && n <= all && Wrote(was, mid, n, Zeros(all - n)) && |v| == n && Wrote(mid, now, 0, v)
    requires IsStreamPart(v, a, sbs, ofs)
    requires ofs + n <= initSize && (n < all ==> ofs + n == initSize)
    ensures |now| == |was| >= all && now[all..] == was[all..]
    ensures forall i :: 0 <= i < all ==> now[i] == ReadByte(a, sbs, initSize, ofs + i)
  {
    hide StreamOk, StreamByte, Wrote;
    WroteAt(was, mid, n, Zeros(all - n));
    WroteAt(mid, now, 0, v);
  }

  lemma ReadThenZeroed(was: seq<byte>, mid: seq<byte>, late: seq<byte>, now: seq<byte>, a: Stream,
                       sbs: seq<seq<SubBlock>>, ofs: nat, n: nat, all: nat, initSize: nat, v: seq<byte>)
    requires StreamOk(a, sbs) && n <= all && Wrote(was, mid, n, Zeros(all - n)) && |v| == n && Wrote(mid, late, 0, v)
    requires IsStreamPart(v, a, sbs, ofs)
    requires ofs <= initSize <= ofs + n && Wrote(late, now, initSize - ofs, Zeros(ofs + n - initSize))
    ensures |now| == |was| >= all && now[all..] == was[all..]
    ensures forall i :: 0 <= i < all ==> now[i] == ReadByte(a, sbs, initSize, ofs + i)
  {
    hide StreamOk, StreamByte, Wrote;
    WroteAt(was, mid, n, Zeros(all - n));
    WroteAt(mid, late, 0, v);
    WroteAt(late, now, initSize - ofs, Zeros(ofs + n - initSize));
  }
}
