/** Search contexts that stay valid while attributes move (@ctx in kext/ntfs_attr.c and kext/ntfs_attr_list.c). */
module Context {
  import opened Collate
  import opened AttrArea
  import opened Attr
  import opened AttrSearch
  import opened InodeState
  import opened InodeSteps

  /** A search context: an mft record and a byte position in it. */
  datatype Ctx = Ctx(ref: nat, ofs: int)

  /** The context points at the attribute that entry `e` leads to. */
  ghost predicate PointsTo(vol: Volume, records: Records, ctx: Ctx, e: Entry) {
    && ctx.ref in records && e.mref == ctx.ref
    && exists i :: 0 <= i < |records[ctx.ref].attrs| && At(records[ctx.ref], ctx, e, i)
  }

  ghost predicate At(r: Rec, ctx: Ctx, e: Entry, i: nat)
    requires i < |r.attrs|
  {
    WellFormed(r.attrs[i]) && EntryOf(ctx.ref, r.attrs[i]) == e && ctx.ofs == r.first + Offset(r.attrs, i)
  }

  /** A context that is given points at the attribute of entry `kc`. */
  ghost predicate Follows(vol: Volume, records: Records, list: seq<Entry>, ctx: Option<Ctx>, kc: nat)
    ensures ctx.None? ==> Follows(vol, records, list, ctx, kc)
  {
    ctx.Some? ==> kc < |list| && PointsTo(vol, records, ctx.value, list[kc])
  }

  // ----- Byte positions

  lemma OffsetWithout(bs: seq<Blob>, i: nat, j: nat)
    requires i < |bs| && j < |bs| && i != j
    ensures var l := if j < i then j else j - 1;
            && Without(bs, i)[l] == bs[j]
            && Offset(Without(bs, i), l) == if j < i then Offset(bs, j) else Offset(bs, j) - |bs[i]|
  {
    hide Flatten;
    if j < i {
      assert Without(bs, i)[..j] == bs[..j];
    } else {
      assert Without(bs, i)[..j - 1] == Without(bs[..j], i);
      SizeWithout(bs[..j], i);
    }
  }

  lemma OffsetUpdate(bs: seq<Blob>, p: nat, c: Blob, j: nat)
    requires p < |bs| && j < |bs|
    ensures Offset(bs[p := c], j) == if j <= p then Offset(bs, j) else Offset(bs, j) - |bs[p]| + |c|
  {
    hide Flatten;
    if j <= p {
      assert bs[p := c][..j] == bs[..j];
    } else {
      assert bs[p := c][..j] == bs[..j][p := c];
      SizeUpdate(bs[..j], p, c);
    }
  }

  /** Positions are ordered like indices. */
  lemma {:induction false} OffsetOrder(bs: seq<Blob>, i: nat, j: nat)
    requires i < j <= |bs| && AllWellFormed(bs)
    ensures Offset(bs, i) < Offset(bs, j)
    decreases j
  {
    hide Flatten, WellFormed;
    OffsetNext(bs, j - 1);
    if i < j - 1 {
      OffsetOrder(bs, i, j - 1);
    }
  }

  lemma OffsetCompare(bs: seq<Blob>, i: nat, j: nat)
    requires i < |bs| && j < |bs| && AllWellFormed(bs)
    ensures Offset(bs, i) < Offset(bs, j) <==> i < j
    ensures Offset(bs, i) == Offset(bs, j) <==> i == j
  {
    hide Flatten, WellFormed;
    if i < j {
      OffsetOrder(bs, i, j);
    } else if j < i {
      OffsetOrder(bs, j, i);
    }
  }

  // ----- Following a move

  /** What becomes of a context when the attribute of `len` bytes at byte position `ofs` of the base record moves
      to the new record `newRef`, whose first attribute is at `first`. */
  function FixContext(ctx: Ctx, base: nat, ofs: nat, len: nat, newRef: nat, first: nat): (r: Ctx) {
    if ctx.ref != base then ctx
    else if ofs < ctx.ofs then ctx.(ofs := ctx.ofs - len)
    else if ofs == ctx.ofs then Ctx(newRef, first)
    else ctx
  }

  lemma EntryIs(vol: Volume, base: nat, records: Records, list: seq<Entry>, pos: nat, k: nat, kc: nat, i: nat)
    requires Linked(vol, base, records, list) && k < |list| && kc < |list|
    requires pos < |records[base].attrs| && i < |records[base].attrs|
    requires list[k] == EntryOf(base, records[base].attrs[pos]) && list[kc] == EntryOf(base, records[base].attrs[i])
    ensures i == pos <==> kc == k
  {
    hide WellFormed, AName, LowestVcn, Sorted, ListSorted, EntriesResolve, AttrsListed, ExtentsOk, InUse;
    var bs := records[base].attrs;
    FormedIn(vol, records, base);
    assert Instance(bs[i]) == Instance(bs[pos]) <==> i == pos;
  }

  lemma ContextFollows(vol: Volume, base: nat, records: Records, list: seq<Entry>,
                       pos: nat, k: nat, newRef: nat, first: nat, alloc: nat, ctx: Ctx, kc: nat)
    requires CanMove(vol, base, records, list, base, pos, k, newRef, first, alloc) && kc < |list|
    requires PointsTo(vol, records, ctx, list[kc])
    ensures var rec := records[base];
            PointsTo(vol, MovedRecords(records, base, pos, newRef, first, alloc),
                     FixContext(ctx, base, rec.first + Offset(rec.attrs, pos), |rec.attrs[pos]|, newRef, first),
                     MovedList(list, k, newRef)[kc])
  {
    hide WellFormed, Linked, EntryOf, Offset, RecOk;
    LinkedFormed(vol, base, records, list);
    var rec := records[base];
    var i :| 0 <= i < |records[ctx.ref].attrs| && At(records[ctx.ref], ctx, list[kc], i);
    EntryFields(base, rec.attrs[pos]);
    if ctx.ref != base {
      FarContext(vol, base, records, list, pos, k, newRef, first, alloc, ctx, kc, i);
    } else {
      EntryIs(vol, base, records, list, pos, k, kc, i);
      if i == pos {
        MovedContext(vol, base, records, list, pos, k, newRef, first, alloc, ctx, kc);
      } else {
        NearContext(vol, base, records, list, pos, k, newRef, first, alloc, ctx, kc, i);
      }
    }
  }

  lemma LinkedFormed(vol: Volume, base: nat, records: Records, list: seq<Entry>)
    requires Linked(vol, base, records, list)
    ensures base in records && AllRecOk(vol, records)
    ensures AllWellFormed(records[base].attrs) && InstancesDistinct(records[base].attrs)
    ensures forall i :: 0 <= i < |records[base].attrs| ==> WellFormed(records[base].attrs[i])
  {
    hide WellFormed;
  }

  lemma FarContext(vol: Volume, base: nat, records: Records, list: seq<Entry>,
                   pos: nat, k: nat, newRef: nat, first: nat, alloc: nat, ctx: Ctx, kc: nat, i: nat)
    requires CanMove(vol, base, records, list, base, pos, k, newRef, first, alloc) && kc < |list|
    requires ctx.ref in records && ctx.ref != base && list[kc].mref == ctx.ref && i < |records[ctx.ref].attrs|
    requires At(records[ctx.ref], ctx, list[kc], i)
    ensures PointsTo(vol, MovedRecords(records, base, pos, newRef, first, alloc), ctx, MovedList(list, k, newRef)[kc])
  {
    hide WellFormed, Linked, Offset, AName, LowestVcn;
    LinkedFormed(vol, base, records, list);
    var rs := MovedRecords(records, base, pos, newRef, first, alloc);
    assert rs[ctx.ref] == records[ctx.ref];
    assert At(rs[ctx.ref], ctx, list[kc], i);
  }

  lemma MovedContext(vol: Volume, base: nat, records: Records, list: seq<Entry>,
                     pos: nat, k: nat, newRef: nat, first: nat, alloc: nat, ctx: Ctx, kc: nat)
    requires CanMove(vol, base, records, list, base, pos, k, newRef, first, alloc) && kc == k
    requires ctx.ref == base && At(records[base], ctx, list[kc], pos)
    ensures var rec := records[base];
            PointsTo(vol, MovedRecords(records, base, pos, newRef, first, alloc),
                     FixContext(ctx, base, rec.first + Offset(rec.attrs, pos), |rec.attrs[pos]|, newRef, first),
                     MovedList(list, k, newRef)[kc])
  {
    hide WellFormed, Linked, EntryOf;
    LinkedFormed(vol, base, records, list);
    var b := records[base].attrs[pos];
    MovedEntry(b, base, newRef);
    var r := Rec([WithInstance(b, 0)], first, alloc, 1);
    assert At(r, Ctx(newRef, first), EntryOf(newRef, WithInstance(b, 0)), 0);
  }

  lemma NearContext(vol: Volume, base: nat, records: Records, list: seq<Entry>,
                    pos: nat, k: nat, newRef: nat, first: nat, alloc: nat, ctx: Ctx, kc: nat, i: nat)
    requires CanMove(vol, base, records, list, base, pos, k, newRef, first, alloc) && kc < |list| && kc != k
    requires ctx.ref == base && i < |records[base].attrs| && i != pos && At(records[base], ctx, list[kc], i)
    ensures var rec := records[base];
            PointsTo(vol, MovedRecords(records, base, pos, newRef, first, alloc),
                     FixContext(ctx, base, rec.first + Offset(rec.attrs, pos), |rec.attrs[pos]|, newRef, first),
                     MovedList(list, k, newRef)[kc])
  {
    hide WellFormed, Linked, EntryOf, Offset, RecOk, Without;
    LinkedFormed(vol, base, records, list);
    var rec := records[base];
    OffsetCompare(rec.attrs, i, pos);
    OffsetWithout(rec.attrs, pos, i);
    WithoutLength(rec.attrs, pos);
    EntryFields(base, rec.attrs[i]);
    var c := FixContext(ctx, base, rec.first + Offset(rec.attrs, pos), |rec.attrs[pos]|, newRef, first);
    var rs := MovedRecords(records, base, pos, newRef, first, alloc);
    assert rs[base] == rec.(attrs := Without(rec.attrs, pos)) && MovedList(list, k, newRef)[kc] == list[kc];
    assert At(rs[base], c, list[kc], if i < pos then i else i - 1);
  }

  lemma WithoutLength(bs: seq<Blob>, i: nat)
    requires i < |bs|
    ensures |Without(bs, i)| == |bs| - 1
  {
  }

  // ----- Following a change of the attribute list attribute

  /** What becomes of a context when the record at byte position `ofs` of the base record grows by `delta`. */
  function ShiftContext(ctx: Option<Ctx>, base: nat, ofs: nat, delta: int): (r: Option<Ctx>) {
    if ctx.Some? && ctx.value.ref == base && ofs <= ctx.value.ofs then Some(ctx.value.(ofs := ctx.value.ofs + delta))
    else ctx
  }

  lemma PointsAgain(vol: Volume, records: Records, ctx: Ctx, e: Entry, r: Rec, i: nat)
    requires ctx.ref in records && records[ctx.ref] == r && e.mref == ctx.ref && i < |r.attrs| && At(r, ctx, e, i)
    ensures PointsTo(vol, records, ctx, e)
  {
    hide At;
  }

  lemma ContextShifts(vol: Volume, base: nat, records: Records, list: seq<Entry>, p: nat, nb: Blob, ctx: Option<Ctx>,
                      kc: nat)
    requires Linked(vol, base, records, list) && OnlyListAt(records[base].attrs, p)
    requires Follows(vol, records, list, ctx, kc)
    ensures var rec := records[base];
            Follows(vol, records[base := rec.(attrs := rec.attrs[p := nb])], list,
                    ShiftContext(ctx, base, rec.first + Offset(rec.attrs, p), |nb| - |rec.attrs[p]|), kc)
  {
    hide WellFormed, Linked, EntryOf, Offset, RecOk;
    LinkedFormed(vol, base, records, list);
    if ctx.Some? {
      var rec, x := records[base], ctx.value;
      var i :| 0 <= i < |records[x.ref].attrs| && At(records[x.ref], x, list[kc], i);
      var c := ShiftContext(ctx, base, rec.first + Offset(rec.attrs, p), |nb| - |rec.attrs[p]|).value;
      var s := rec.(attrs := rec.attrs[p := nb]);
      if x.ref == base {
        NotTheList(vol, base, records, list, kc);
        EntryFields(base, rec.attrs[i]);
        OffsetCompare(rec.attrs, i, p);
        OffsetUpdate(rec.attrs, p, nb, i);
        PointsAgain(vol, records[base := s], c, list[kc], s, i);
      } else {
        PointsAgain(vol, records[base := s], c, list[kc], records[x.ref], i);
      }
    }
  }

  /** The attribute list attribute `nb` inserted at index `p`. */
  lemma ContextPastInsert(vol: Volume, base: nat, records: Records, list: seq<Entry>, p: nat, nb: Blob, n: nat,
                          ctx: Option<Ctx>, kc: nat)
    requires Linked(vol, base, records, list) && p <= |records[base].attrs|
    requires Follows(vol, records, list, ctx, kc)
    ensures var rec := records[base];
            Follows(vol, records[base := rec.(attrs := With(rec.attrs, p, nb), nextInst := n)], list,
                    ShiftContext(ctx, base, rec.first + Offset(rec.attrs, p), |nb|), kc)
  {
    hide WellFormed, Linked, EntryOf, Offset, RecOk, With;
    LinkedFormed(vol, base, records, list);
    if ctx.Some? {
      var rec, x := records[base], ctx.value;
      var i :| 0 <= i < |records[x.ref].attrs| && At(records[x.ref], x, list[kc], i);
      var c := ShiftContext(ctx, base, rec.first + Offset(rec.attrs, p), |nb|).value;
      var s := rec.(attrs := With(rec.attrs, p, nb), nextInst := n);
      if x.ref == base {
        OffsetWith(rec.attrs, p, nb, i);
        if i < p {
          OffsetOrder(rec.attrs, i, p);
        } else if p < i {
          OffsetOrder(rec.attrs, p, i);
        }
        PointsAgain(vol, records[base := s], c, list[kc], s, if i < p then i else i + 1);
      } else {
        PointsAgain(vol, records[base := s], c, list[kc], records[x.ref], i);
      }
    }
  }

  lemma OffsetWith(bs: seq<Blob>, p: nat, c: Blob, j: nat)
    requires p <= |bs| && j < |bs|
    ensures var l := if j < p then j else j + 1;
            && |With(bs, p, c)| == |bs| + 1 && With(bs, p, c)[l] == bs[j]
            && Offset(With(bs, p, c), l) == if j < p then Offset(bs, j) else Offset(bs, j) + |c|
  {
    hide Flatten;
    var cs := With(bs, p, c);
    if j < p {
      assert cs[..j] == bs[..j];
    } else {
      assert cs[..j + 1] == With(bs[..j], p, c);
      SizeWith(bs[..j], p, c);
    }
  }

  lemma NotTheList(vol: Volume, base: nat, records: Records, list: seq<Entry>, kc: nat)
    requires Linked(vol, base, records, list) && kc < |list|
    ensures list[kc].atype != AT_ATTRIBUTE_LIST
  {
    hide WellFormed, EntryOf;
    assert Resolves(records, list[kc]);
  }
}
