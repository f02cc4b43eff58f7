/** The steps on mft records that the operations on an inode are made of are the effects of the in-place edits of the
    record buffers (kext/ntfs_attr.c). */
module RecordSteps {
  import opened Errno
  import opened Bytes
  import opened Collate
  import opened AttrArea
  import opened Attr
  import opened MftRecord
  import opened InodeState
  import opened ListAttr
  import opened InodeFacts

  /** What a record buffer holds. */
  ghost function AsRec(r: Record): (x: Rec)
    requires r.Valid()
    reads r, r.m
  {
    Rec(r.Attrs(), r.attrsOffset, r.bytesAllocated, r.nextAttrInstance)
  }

  /** The bytes in use are those of the attribute records and the terminator. */
  lemma InUseIs(r: Record)
    requires r.Valid()
    ensures InUse(AsRec(r)) == r.bytesInUse
  {
    hide Parse, Flatten;
    FlattenParse(r.Area());
  }

  method Delete(r: Record, a: nat, ghost i: nat)
    requires r.Valid() && r.PointsAt(a, i) && i < |r.Attrs()|
    modifies r, r.m
    ensures r.Valid() && AsRec(r) == old(AsRec(r)).(attrs := Without(old(r.Attrs()), i))
  {
    hide Parse, Flatten;
    r.DeleteInternal(a, i);
  }

  /** Inserting a resident attribute, while instance numbers do not wrap around. */
  method Insert(r: Record, a: nat, t: nat, name: Name, value: seq<byte>, ghost i: nat) returns (err: int)
    requires r.Valid() && r.PointsAt(a, i) && Insertable(t, name, |value|, r.nextAttrInstance)
    requires r.nextAttrInstance < 0xffff
    modifies r, r.m
    ensures r.Valid()
    ensures err == if old(InUse(AsRec(r))) + ResidentLength(|name|, |value|) <= r.bytesAllocated then 0 else ENOSPC
    ensures AsRec(r) == if err != 0 then old(AsRec(r))
                        else WithNew(old(AsRec(r)), i, ResidentBlob(t, name, value, old(r.nextAttrInstance)))
  {
    hide Parse, Flatten, ResidentBlob, ResidentLength;
    InUseIs(r);
    err := r.InsertResident(a, t, name, value, i);
    assert err != 0 ==> r.Area() == old(r.Area());
  }

  /** Moving an attribute to an empty record that has just been laid out. */
  method Move(src: Record, a: nat, dst: Record, ghost i: nat) returns (err: int)
    requires src.Valid() && src.PointsAt(a, i) && |src.Attrs()| > 1 && i < |src.Attrs()| && |src.Attrs()[i]| >= 24
    requires dst != src && dst.m != src.m && dst.Valid() && dst.Attrs() == [] && dst.nextAttrInstance == 0
    requires dst.attrsOffset == src.attrsOffset && dst.bytesAllocated == src.bytesAllocated
    modifies src, src.m, dst, dst.m
    ensures err == 0 && src.Valid() && dst.Valid()
    ensures AsRec(src) == old(AsRec(src)).(attrs := Without(old(src.Attrs()), i))
    ensures AsRec(dst) == Rec([WithInstance(old(src.Attrs()[i]), 0)], old(src.attrsOffset), src.bytesAllocated, 1)
  {
    hide Parse, Flatten, WithInstance;
    err := MoveRecord(src, a, true, true, true, dst, true, i);
  }

  /** Giving the resident attribute list attribute another value: resize, then copy the value over it. */
  method SetListValue(r: Record, a: nat, v: seq<byte>, ghost i: nat) returns (err: int)
    requires r.Valid() && r.PointsAt(a, i) && i < |r.Attrs()| && ResidentList(r.Attrs()[i])
    requires |v| < 0x1000_0000 && |v| % 8 == 0
    modifies r, r.m
    ensures r.Valid()
    ensures err == if old(InUse(AsRec(r)) - |r.Attrs()[i]|) + RESIDENT_SIZE + |v| <= r.bytesAllocated then 0 else ENOSPC
    ensures AsRec(r) == if err != 0 then old(AsRec(r))
                        else old(AsRec(r)).(attrs := old(r.Attrs())[i := ListWithValue(old(r.Attrs()[i]), v)])
  {
    hide Parse, Flatten, WellFormed, ListWithValue, LE32, LE16, Store, Value, NonResident, ValueResized, InUse;
    ghost var b := r.Attrs()[i];
    InUseIs(r);
    ResidentAt(b, v);
    err := r.ValueResize(a, |v|, i);
    if err != 0 {
      assert r.Area() == old(r.Area());
      return;
    }
    ghost var c := r.Attrs()[i];
    ListWriteRefines(b, v, c);
    ListWithValueFields(b, v);
    ghost var area, bs := r.Area(), r.Attrs();
    r.Around(a, i);
    ghost var lo, hi := r.m[..a], r.m[a + |c|..];
    r.PutField(a, RESIDENT_SIZE, v, lo, c, hi);
    SizedIfFormed(ListWithValue(b, v));
    r.Overwritten(a, i, area, bs, lo, Store(c, RESIDENT_SIZE, v), hi);
  }

  lemma ResidentAt(b: Blob, v: seq<byte>)
    requires ResidentList(b) && |v| % 8 == 0
    ensures WellFormed(b) && !NonResident(b) && ValueOffset(b) == RESIDENT_SIZE
    ensures RoundUp8(RESIDENT_SIZE + |v|) == RESIDENT_SIZE + |v|
  {
  }
}
