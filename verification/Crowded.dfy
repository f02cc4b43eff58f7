/** A base record that holds too many attributes for an attribute list to be built (`ntfs_attr_list_add`,
    kext/ntfs_attr_list.c): the buffer the list is built in has 1024 bytes, and 33 entries take more. */
module Crowded {
  import opened Bytes
  import opened Collate
  import opened AttrArea
  import opened Attr
  import opened AttrSearch
  import opened InodeState
  import opened InodeSteps
  import opened ListBytes
  import opened InodeFacts

  lemma {:induction false} SizeAtLeast(list: seq<Entry>)
    ensures ListSize(list) >= 32 * |list|
  {
    if list != [] {
      SizeAtLeast(list[1..]);
    }
  }

  /** More than 32 attributes, of whatever size, are too many. */
  lemma ManyAreTooMany(base: nat, rec: Rec)
    requires AllWellFormed(rec.attrs) && |rec.attrs| > 32
    ensures TooManyFor(base, rec)
  {
    hide WellFormed, EntryOf, ListSize;
    SizeAtLeast(EntriesFor(base, rec.attrs));
  }

  const STREAM := 0x100

  function Small(inst: nat): (b: Blob)
    requires inst < 0x10000
  {
    ResidentBlob(STREAM, [], [], inst)
  }

  /** Forty attributes of 24 bytes fill a record of 1024 bytes. */
  function FullRecord(): (r: Rec) {
    Rec(seq(40, i requires 0 <= i < 40 => Small(i)), 56, 1024, 40)
  }

  lemma {:induction false} SmallSize(bs: seq<Blob>)
    requires forall i :: 0 <= i < |bs| ==> |bs[i]| == 24
    ensures |Flatten(bs)| == 24 * |bs|
  {
    if bs != [] {
      SmallSize(bs[1..]);
    }
  }

  lemma SmallFields(vol: Volume, i: nat)
    requires i < 0x10000
    ensures |Small(i)| == 24 && WellFormed(Small(i)) && AType(Small(i)) == STREAM && Instance(Small(i)) == i
    ensures LowestVcn(Small(i)) == 0
    ensures forall j: nat :: j < 0x10000 && WellFormed(Small(j)) ==> InOrder(vol, Small(i), Small(j))
  {
    hide WellFormed, LE32, LE16, AName, Value, LowestVcn, ResidentBlob, NonResident;
    ResidentBlobFields(STREAM, [], [], i);
    forall j: nat | j < 0x10000 && WellFormed(Small(j))
      ensures InOrder(vol, Small(i), Small(j))
    {
      ResidentBlobFields(STREAM, [], [], j);
      FileOrderTotal(vol, [], [], []);
    }
  }

  lemma FullRecordOk(vol: Volume)
    ensures RecOk(vol, FullRecord()) && InUse(FullRecord()) == FullRecord().alloc
    ensures forall i :: 0 <= i < 40 ==> |FullRecord().attrs[i]| >= 24 && AType(FullRecord().attrs[i]) == STREAM
    ensures AllStart(FullRecord().attrs)
  {
    hide WellFormed, LE32, LE16, LowestVcn, Flatten, InOrder, Small;
    var r := FullRecord();
    forall i | 0 <= i < 40
      ensures |r.attrs[i]| == 24 && WellFormed(r.attrs[i]) && AType(r.attrs[i]) == STREAM && Instance(r.attrs[i]) == i
      ensures LowestVcn(r.attrs[i]) == 0
    {
      SmallFields(vol, i);
    }
    forall i, j | 0 <= i < j < 40
      ensures InOrder(vol, r.attrs[i], r.attrs[j])
    {
      SmallFields(vol, i);
      assert r.attrs[j] == Small(j);
    }
    SmallSize(r.attrs);
  }

  /** It is the base record of an inode as good as any, and the list that one more attribute calls for cannot be
      built. */
  lemma FullRecordIsTooMany(vol: Volume, base: nat)
    requires base < MAX_REF
    ensures var rs := map[base := FullRecord()];
            && PlainInv(vol, base, rs) && LaidOut(rs, base, 56, 1024) && AllStart(rs[base].attrs)
            && InUse(rs[base]) == rs[base].alloc && TooManyFor(base, rs[base])
  {
    hide WellFormed, RecOk, LE32, AllStart, InUse, TooManyFor, Small;
    FullRecordOk(vol);
    ManyAreTooMany(base, FullRecord());
  }
}
