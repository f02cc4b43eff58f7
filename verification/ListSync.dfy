/** The cached attribute list and the value stored in the attribute list attribute. */
module ListSync {
  import opened Bytes
  import opened Collate
  import opened AttrArea
  import opened Attr
  import opened AttrSearch
  import opened InodeState
  import opened InodeSteps
  import opened ListBytes
  import opened ListAttr

  // ----- The attribute list attribute

  ghost function ListIndex(bs: seq<Blob>): (p: nat)
    requires AllWellFormed(bs) && HasListAttr(bs)
    ensures OnlyListAt(bs, p)
  {
    var p: nat :| OnlyListAt(bs, p);
    p
  }

  ghost function ListBlob(bs: seq<Blob>): (b: Blob)
    requires AllWellFormed(bs) && HasListAttr(bs)
    ensures WellFormed(b) && AType(b) == AT_ATTRIBUTE_LIST
  {
    bs[ListIndex(bs)]
  }

  lemma ListIndexIs(bs: seq<Blob>, p: nat)
    requires AllWellFormed(bs) && OnlyListAt(bs, p)
    ensures HasListAttr(bs) && ListIndex(bs) == p && ListBlob(bs) == bs[p]
  {
    hide WellFormed;
  }

  /** The record of the list attribute fits the kind of value it has: in the record or on disk. */
  ghost predicate ListRecOk(b: Blob, disk: seq<byte>) {
    ResidentList(b) || (NonResidentList(b) && DataSize(b) == |disk|)
  }

  ghost function StoredValue(b: Blob, disk: seq<byte>): (r: seq<byte>)
    requires ListRecOk(b, disk)
  {
    if NonResident(b) then disk else Value(b)
  }

  /** Records and cached list are linked, and below `ofs` the stored value is the cached list. */
  ghost predicate Synced(vol: Volume, base: nat, records: Records, list: seq<Entry>, disk: seq<byte>, ofs: nat) {
    && ListInv(vol, base, records, list) && AllFit(list)
    && Agrees(ListBlob(records[base].attrs), list, disk, ofs)
  }

  ghost predicate Agrees(b: Blob, list: seq<Entry>, disk: seq<byte>, ofs: nat)
    requires AllFit(list)
  {
    && ListRecOk(b, disk) && ofs <= |StoredValue(b, disk)| && ofs <= |Encode(list)|
    && StoredValue(b, disk)[..ofs] == Encode(list)[..ofs]
  }

  /** The whole stored value is the cached list. */
  ghost predicate InSync(vol: Volume, base: nat, records: Records, list: seq<Entry>, disk: seq<byte>) {
    && ListInv(vol, base, records, list) && AllFit(list)
    && ListRecOk(ListBlob(records[base].attrs), disk)
    && StoredValue(ListBlob(records[base].attrs), disk) == Encode(list)
  }

  // ----- Moving an attribute out

  lemma MovedFits(list: seq<Entry>, k: nat, newRef: nat)
    requires AllFit(list) && k < |list| && newRef < 0x1_0000_0000_0000_0000
    ensures AllFit(MovedList(list, k, newRef)) && ListSize(MovedList(list, k, newRef)) == ListSize(list)
    ensures ListSize(list[..k]) <= ListSize(list)
    ensures |Encode(MovedList(list, k, newRef))| == |Encode(list)| == ListSize(list)
  {
    hide Encode, ListSize;
    ListBytes.SizeUpdate(list, k, list[k].(mref := newRef, instance := 0));
    SizeAppend(list[..k], list[k..]);
    assert list == list[..k] + list[k..];
    EncodeSize(list);
    EncodeSize(MovedList(list, k, newRef));
  }

  /** After a move only the entry moved differs: what is stored still agrees in front of it. */
  lemma MoveAgrees(b: Blob, list: seq<Entry>, disk: seq<byte>, ofs: nat, k: nat, newRef: nat)
    requires AllFit(list) && Agrees(b, list, disk, ofs) && k < |list| && newRef < 0x1_0000_0000_0000_0000
    ensures var o := ListSize(list[..k]);
            AllFit(MovedList(list, k, newRef))
              && Agrees(b, MovedList(list, k, newRef), disk, if o < ofs then o else ofs)
  {
    hide Encode, ListSize, Fits, ListRecOk, StoredValue;
    MovedFits(list, k, newRef);
    var es := MovedList(list, k, newRef);
    assert es[..k] == list[..k];
    EncodePrefix(list, es, k);
    var o := ListSize(list[..k]);
    var m := if o < ofs then o else ofs;
    var x, y, s := Encode(list), Encode(es), StoredValue(b, disk);
    PrefixOf(x, y, o, m);
    PrefixOf(s, x, ofs, m);
  }

  lemma PrefixOf(x: seq<byte>, y: seq<byte>, n: nat, m: nat)
    requires m <= n <= |x| && n <= |y| && x[..n] == y[..n]
    ensures x[..m] == y[..m]
  {
    assert x[..m] == x[..n][..m] && y[..m] == y[..n][..m];
  }

  /** The list attribute is not touched by the move of another one. */
  lemma MoveListBlob(vol: Volume, base: nat, records: Records, i: nat)
    requires base in records && AllRecOk(vol, records) && i < |records[base].attrs|
    requires AType(records[base].attrs[i]) != AT_ATTRIBUTE_LIST && HasListAttr(records[base].attrs)
    ensures var cs := Without(records[base].attrs, i);
            && AllWellFormed(cs) && HasListAttr(cs) && ListBlob(cs) == ListBlob(records[base].attrs)
            && var p := ListIndex(records[base].attrs); p != i && ListIndex(cs) == if p < i then p else p - 1
  {
    hide WellFormed, Sorted, Flatten, LE32, Instance;
    var bs := records[base].attrs;
    var cs := Without(bs, i);
    InWithoutOf(vol, records, base, i);
    var p := ListIndex(bs);
    assert forall k :: 0 <= k < |cs| ==> cs[k] == if k < i then bs[k] else bs[k + 1];
    ListIndexIs(cs, if p < i then p else p - 1);
  }

  lemma MoveSynced(vol: Volume, base: nat, records: Records, list: seq<Entry>, disk: seq<byte>, ofs: nat,
                   pos: nat, k: nat, newRef: nat, first: nat, alloc: nat)
    requires Synced(vol, base, records, list, disk, ofs) && newRef < 0x1_0000_0000_0000_0000
    requires CanMove(vol, base, records, list, base, pos, k, newRef, first, alloc)
    ensures var o := ListSize(list[..k]);
            Synced(vol, base, MovedRecords(records, base, pos, newRef, first, alloc), MovedList(list, k, newRef), disk,
                   if o < ofs then o else ofs)
  {
    hide RecOk, WellFormed, ListSorted, EntriesDistinct, EntriesResolve, AttrsListed, ExtentsOk, Agrees, HasListAttr,
         Fits, Encode, ListSize, ListBlob;
    FormedIn(vol, records, base);
    MoveKeeps(vol, base, records, list, base, pos, k, newRef, first, alloc);
    EntryFields(base, records[base].attrs[pos]);
    MoveListBlob(vol, base, records, pos);
    MoveAgrees(ListBlob(records[base].attrs), list, disk, ofs, k, newRef);
  }

  // ----- Writing the value back

  /** What storing `value` from `ofs` on leaves of the bytes in front of it. */
  function WrittenFrom(stored: seq<byte>, value: seq<byte>, ofs: nat): (r: seq<byte>)
    requires ofs <= |stored| && ofs <= |value|
    ensures |r| == |value|
  {
    stored[..ofs] + value[ofs..]
  }

  /** Writing back from the offset below which the two agree makes them agree. */
  lemma WriteBack(b: Blob, list: seq<Entry>, disk: seq<byte>, ofs: nat)
    requires AllFit(list) && Agrees(b, list, disk, ofs)
    ensures WrittenFrom(StoredValue(b, disk), Encode(list), ofs) == Encode(list)
  {
    hide Encode, ListRecOk, StoredValue, Fits;
    assert Encode(list) == Encode(list)[..ofs] + Encode(list)[ofs..];
  }

  /** Another record for the list attribute in the same place. */
  lemma ListReplaced(vol: Volume, r: Rec, p: nat, nb: Blob)
    requires RecOk(vol, r) && OnlyListAt(r.attrs, p)
    requires WellFormed(nb) && AType(nb) == AT_ATTRIBUTE_LIST && Instance(nb) == Instance(r.attrs[p])
    requires InUse(r) - |r.attrs[p]| + |nb| <= r.alloc
    ensures var s := r.(attrs := r.attrs[p := nb]);
            && RecOk(vol, s) && SameButList(r, s) && HasListAttr(s.attrs) && ListIndex(s.attrs) == p
            && ListBlob(s.attrs) == nb
            && InUse(s) == InUse(r) - |r.attrs[p]| + |nb|
  {
    hide WellFormed, Flatten, LE16, LE32, AName, FileOrder, Value;
    var bs := r.attrs;
    var cs := bs[p := nb];
    InodeState.SizeUpdate(bs, p, nb);
    forall i, j | 0 <= i < j < |cs|
      ensures InOrder(vol, cs[i], cs[j])
    {
      assert InOrder(vol, bs[i], bs[j]);
    }
    ReplacedMembers(bs, p, nb);
    ListIndexIs(cs, p);
  }

  lemma ReplacedMembers(bs: seq<Blob>, p: nat, nb: Blob)
    requires AllWellFormed(bs) && OnlyListAt(bs, p) && WellFormed(nb) && AType(nb) == AT_ATTRIBUTE_LIST
    ensures forall b :: WellFormed(b) && AType(b) != AT_ATTRIBUTE_LIST ==> (b in bs <==> b in bs[p := nb])
  {
    hide WellFormed, LE32;
    var cs := bs[p := nb];
    forall b | WellFormed(b) && AType(b) != AT_ATTRIBUTE_LIST
      ensures b in bs <==> b in cs
    {
      if b in bs {
        var i :| 0 <= i < |bs| && bs[i] == b;
        assert cs[i] == b;
      }
      if b in cs {
        var i :| 0 <= i < |cs| && cs[i] == b;
        assert bs[i] == b;
      }
    }
  }

  /** A list attribute that holds the cached list, in place of the one there, brings the inode in sync. */
  lemma StoreList(vol: Volume, base: nat, records: Records, list: seq<Entry>, p: nat, nb: Blob, disk: seq<byte>)
    requires ListInv(vol, base, records, list) && AllFit(list) && OnlyListAt(records[base].attrs, p)
    requires ListRecOk(nb, disk) && StoredValue(nb, disk) == Encode(list)
    requires Instance(nb) == Instance(records[base].attrs[p])
    requires InUse(records[base]) - |records[base].attrs[p]| + |nb| <= records[base].alloc
    ensures var rs := records[base := records[base].(attrs := records[base].attrs[p := nb])];
            && InSync(vol, base, rs, list, disk) && Contents(rs, list) == Contents(records, list)
            && ListBlob(rs[base].attrs) == nb
  {
    hide RecOk, WellFormed, ListSorted, EntriesDistinct, EntriesResolve, AttrsListed, ExtentsOk, Fits,
         Encode, ListBlob, StoredValue, InUse, Contents, Resolves, LE16, LE32, LE64;
    ListReplaced(vol, records[base], p, nb);
    ListAttrChange(vol, base, records, list, records[base].(attrs := records[base].attrs[p := nb]));
  }

  // ----- Patching one entry

  /** An entry that leads somewhere else differs in the reference and the instance number only. */
  lemma EntryPatch(e: Entry, f: Entry)
    requires Fits(e) && Fits(f) && f == e.(mref := f.mref, instance := f.instance)
    ensures EntryLength(f) == EntryLength(e)
    ensures Store(Store(EncodeEntry(e), 16, Put64(f.mref)), 24, Put16(f.instance)) == EncodeEntry(f)
  {
    hide Put16, Put32, Put64, NameBytes, Zeros, RoundUp8, EntryLength, EntryTail, EntryHead;
    assert EntryHead(f) == EntryHead(e) by {
      SameHead(e, f);
    }
    assert EntryTail(f) == EntryTail(e) by {
      SameTail(e, f);
    }
    var x := EncodeEntry(e);
    assert x[..16] == EntryHead(e) && x[26..] == EntryTail(e);
  }

  lemma SameHead(e: Entry, f: Entry)
    requires Fits(e) && Fits(f) && f == e.(mref := f.mref, instance := f.instance)
    ensures EntryHead(f) == EntryHead(e) && EntryLength(f) == EntryLength(e)
  {
  }

  lemma SameTail(e: Entry, f: Entry)
    requires Fits(e) && Fits(f) && f == e.(mref := f.mref, instance := f.instance)
    ensures EntryTail(f) == EntryTail(e)
  {
  }

  /** The value with the reference and the instance number of entry `k` overwritten. */
  function PatchedFields(s: seq<byte>, list: seq<Entry>, k: nat): (r: seq<byte>)
    requires k < |list| && Fits(list[k]) && ListSize(list[..k]) + ENTRY_NAME <= |s|
    ensures |r| == |s|
  {
    var o := ListSize(list[..k]);
    Store(Store(s, o + 16, Put64(list[k].mref)), o + 24, Put16(list[k].instance))
  }

  /** The value with all of entry `k` overwritten. */
  function PatchedEntry(s: seq<byte>, list: seq<Entry>, k: nat): (r: seq<byte>)
    requires k < |list| && Fits(list[k]) && ListSize(list[..k]) + EntryLength(list[k]) <= |s|
    ensures |r| == |s|
  {
    Store(s, ListSize(list[..k]), EncodeEntry(list[k]))
  }

  /** Either patch turns the value of the list before a move into the value after it. */
  lemma PatchIsWrite(list: seq<Entry>, k: nat, newRef: nat)
    requires AllFit(list) && k < |list| && newRef < 0x1_0000_0000_0000_0000
    ensures var es := MovedList(list, k, newRef);
            && AllFit(es) && ListSize(es[..k]) + EntryLength(es[k]) <= |Encode(list)|
            && PatchedEntry(Encode(list), es, k) == Encode(es)
            && PatchedFields(Encode(list), es, k) == Encode(es)
  {
    hide Encode, ListSize, EncodeEntry, EntryLength, Fits, Put16, Put64;
    MovedFits(list, k, newRef);
    var es := MovedList(list, k, newRef);
    EncodeSplit(list, k);
    EncodeSplit(es, k);
    assert es[..k] == list[..k] && es[k + 1..] == list[k + 1..];
    EntryPatch(list[k], es[k]);
    var a, x, y, c := Encode(list[..k]), EncodeEntry(list[k]), EncodeEntry(es[k]), Encode(list[k + 1..]);
    PatchMiddle(a, x, y, c, Put64(es[k].mref), Put16(es[k].instance));
  }

  lemma PatchMiddle(a: seq<byte>, x: seq<byte>, y: seq<byte>, c: seq<byte>, p: seq<byte>, q: seq<byte>)
    requires |x| == |y| && |x| >= 26 && |p| == 8 && |q| == 2 && Store(Store(x, 16, p), 24, q) == y
    ensures Store(a + x + c, |a|, y) == a + y + c
    ensures Store(Store(a + x + c, |a| + 16, p), |a| + 24, q) == a + y + c
  {
    var s := a + x + c;
    assert s[|a| + |y|..] == c;
    assert Store(s, |a| + 16, p) == a + Store(x, 16, p) + c;
    var z := Store(x, 16, p);
    assert Store(a + z + c, |a| + 24, q) == a + Store(z, 24, q) + c;
  }
}
