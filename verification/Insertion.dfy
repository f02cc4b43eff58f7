/** Where a new attribute belongs, in its mft record and in the attribute list. */
module Insertion {
  import opened Errno
  import opened Bytes
  import opened Collate
  import opened AttrArea
  import opened Attr
  import opened AttrSearch
  import opened InodeState
  import opened InodeSteps
  import opened ListBytes
  import opened ListSync
  import opened ListLookup

  /** An attribute to insert. Without a value its `len` bytes are zero. */
  datatype New = New(atype: nat, name: Name, val: Option<seq<byte>>, len: nat)

  function ValueFor(n: New): (r: seq<byte>) {
    if n.val.Some? then n.val.value else Zeros(n.len)
  }

  /** What its caller has looked up. */
  function QueryFor(n: New): (r: Query) {
    Query(n.atype, if n.name == [] then Unnamed else Named(n.name), n.val)
  }

  /** It can be made into an attribute record. */
  ghost predicate Proper(vol: Volume, n: New)
    ensures Proper(vol, n) ==> Insertable(n.atype, n.name, |ValueFor(n)|, 0)
  {
    && Insertable(n.atype, n.name, |ValueFor(n)|, 0) && n.atype != AT_ATTRIBUTE_LIST && Legal(vol, n.name)
    && (n.atype < AT_ATTRIBUTE_LIST ==> n.atype == AT_STANDARD_INFORMATION)
  }

  function BlobFor(n: New, inst: nat): (b: Blob)
    requires Insertable(n.atype, n.name, |ValueFor(n)|, 0) && inst < 0x10000
  {
    ResidentBlob(n.atype, n.name, ValueFor(n), inst)
  }

  /** The attribute `c` does not stand in the way: it is not what is to be inserted, it does not differ from it in the
      case of the name only, and if a value was looked for it has one. */
  ghost predicate Admits(vol: Volume, n: New, c: Blob) {
    WellFormed(c) && AType(c) == n.atype ==>
      && (!vol.caseSensitive && SameFolded(vol, AName(c), n.name) ==> AName(c) == n.name)
      && (n.val.Some? ==> !NonResident(c))
      && !Matches(vol, QueryFor(n), c)
  }

  ghost predicate AllAdmit(vol: Volume, n: New, attrs: seq<Blob>) {
    forall i :: 0 <= i < |attrs| ==> Admits(vol, n, attrs[i])
  }

  lemma AnonAdmits(vol: Volume, n: New, b: Blob)
    requires WellFormed(b)
    ensures Admits(vol, n, Anon(b)) <==> Admits(vol, n, b)
  {
    hide WellFormed, AName, Value, LE16, LE32, NameMatches, SameFolded, WithInstance;
    WithInstanceKeeps(b, 0);
  }

  lemma AnonAllAdmit(vol: Volume, n: New, bs: seq<Blob>)
    requires AllWellFormed(bs)
    ensures AllAdmit(vol, n, AnonAll(bs)) <==> AllAdmit(vol, n, bs)
  {
    hide WellFormed, Admits, Anon;
    forall i | 0 <= i < |bs|
      ensures Admits(vol, n, AnonAll(bs)[i]) <==> Admits(vol, n, bs[i])
    {
      AnonAdmits(vol, n, bs[i]);
    }
  }

  /** What holds of the contents of an inode holds of the attributes in its records. */
  lemma RecordsAdmit(vol: Volume, base: nat, records: Records, list: seq<Entry>, n: New, ref: nat)
    requires Linked(vol, base, records, list) && ref in records && n.atype != AT_ATTRIBUTE_LIST
    requires AllAdmit(vol, n, Contents(records, list))
    ensures AllAdmit(vol, n, records[ref].attrs)
  {
    hide WellFormed, RecOk, Admits, Anon, EntryOf, ListSorted, EntriesDistinct, ExtentsOk;
    FormedIn(vol, records, ref);
    forall i | 0 <= i < |records[ref].attrs|
      ensures Admits(vol, n, records[ref].attrs[i])
    {
      var b := records[ref].attrs[i];
      if AType(b) != AT_ATTRIBUTE_LIST {
        assert Listed(ref, records[ref].attrs, list);
        var k :| 0 <= k < |list| && list[k] == EntryOf(ref, b);
        EntryFields(ref, b);
        TargetIs(records, list[k], b);
        assert Contents(records, list)[k] == Anon(b);
        AnonAdmits(vol, n, b);
      } else {
        OtherTypeAdmits(vol, n, b);
      }
    }
  }

  lemma OtherTypeAdmits(vol: Volume, n: New, b: Blob)
    requires |b| >= 24 && AType(b) != n.atype
    ensures Admits(vol, n, b)
  {
    hide LE32;
  }

  // ----- In the record

  /** The search in a record that admits the attribute is well put. */
  lemma AskableFor(vol: Volume, n: New, bs: seq<Blob>)
    requires AllWellFormed(bs) && AllAdmit(vol, n, bs) && Proper(vol, n)
    ensures Askable(vol, bs, QueryFor(n)) && ValueWithName(QueryFor(n)) && CaseUnique(vol, bs, QueryFor(n))
    ensures forall i :: 0 <= i < |bs| ==> !Matches(vol, QueryFor(n), bs[i])
  {
    hide AName, Value, LE16, LE32, Legal, NoNul, Collatable, Insertable;
    var q := QueryFor(n);
    LegalParts(vol, n.name);
    forall i | 0 <= i < |bs|
      ensures !Matches(vol, q, bs[i]) && (NamedAs(vol, bs[i], q) ==> AName(bs[i]) == n.name)
      ensures q.val.Some? && AType(bs[i]) == q.atype ==> !NonResident(bs[i])
    {
      assert Admits(vol, n, bs[i]);
    }
  }

  lemma BlobForFields(vol: Volume, n: New, inst: nat)
    requires Proper(vol, n) && inst < 0x10000
    ensures var b := BlobFor(n, inst);
            && WellFormed(b) && AType(b) == n.atype && AName(b) == n.name && Instance(b) == inst && LowestVcn(b) == 0
            && Specified(QueryFor(n), b) && |b| == ResidentLength(|n.name|, |ValueFor(n)|)
  {
    hide ResidentBlob, LE16, LE32, AName, Value, WellFormed, ResidentLength, LowestVcn;
    ResidentBlobFields(n.atype, n.name, ValueFor(n), inst);
  }

  /** The record with the new attribute at the position found. */
  lemma RecordWithNew(vol: Volume, r: Rec, n: New, pos: nat)
    requires RecOk(vol, r) && AllAdmit(vol, n, r.attrs) && Proper(vol, n) && r.nextInst < 0xffff
    requires Answers(vol, r.attrs, 0, QueryFor(n), false, ENOENT, pos)
    requires InUse(r) + ResidentLength(|n.name|, |ValueFor(n)|) <= r.alloc
    ensures pos <= |r.attrs|
    ensures var s := r.(attrs := With(r.attrs, pos, BlobFor(n, r.nextInst)), nextInst := r.nextInst + 1);
            RecOk(vol, s) && InUse(s) == InUse(r) + ResidentLength(|n.name|, |ValueFor(n)|)
  {
    hide WellFormed, Flatten, LE16, LE32, AName, Value, Judge, Sorted, Legal, NoNul, Collatable, Specified, Matches,
         Admits, Insertable, BlobFor;
    var bs, b := r.attrs, BlobFor(n, r.nextInst);
    BlobForFields(vol, n, r.nextInst);
    AskableFor(vol, n, bs);
    NewCaseFits(vol, n, bs, b);
    LegalParts(vol, n.name);
    InsertKeepsSorted(vol, bs, QueryFor(n), pos, b);
    InodeState.SizeWith(bs, pos, b);
    var cs := With(bs, pos, b);
    assert forall k :: 0 <= k < |cs| ==> cs[k] == if k < pos then bs[k] else if k == pos then b else bs[k - 1];
  }

  lemma NewCaseFits(vol: Volume, n: New, bs: seq<Blob>, b: Blob)
    requires AllWellFormed(bs) && AllAdmit(vol, n, bs) && WellFormed(b) && AType(b) == n.atype && AName(b) == n.name
    ensures CaseFits(vol, bs, b)
  {
    hide AName, LE32, SameFolded, Matches, NonResident;
    forall i | 0 <= i < |bs| && !vol.caseSensitive && AType(bs[i]) == AType(b)
      && SameFolded(vol, AName(bs[i]), AName(b))
      ensures AName(bs[i]) == AName(b)
    {
      assert Admits(vol, n, bs[i]);
    }
  }

  /** A record of its own. */
  lemma RecordOfNew(vol: Volume, n: New, first: nat, alloc: nat)
    requires Proper(vol, n) && first + ResidentLength(|n.name|, |ValueFor(n)|) + 8 <= alloc
    ensures RecOk(vol, Rec([BlobFor(n, 0)], first, alloc, 1))
  {
    hide WellFormed, BlobFor, AName, LE16, LE32, LowestVcn;
    BlobForFields(vol, n, 0);
    SingletonOk(vol, BlobFor(n, 0), first, alloc);
  }

  // ----- In the list

  /** The entry of the new attribute fits at the position found in the list. */
  lemma ListWithNew(vol: Volume, base: nat, records: Records, list: seq<Entry>, n: New, k: nat, ref: nat, inst: nat)
    requires Linked(vol, base, records, list) && AllAdmit(vol, n, Contents(records, list)) && Proper(vol, n)
    requires ListAnswers(vol, records, list, QueryFor(n), 0, ENOENT, k) && inst < 0x10000
    ensures k <= |list| && WellFormed(BlobFor(n, inst))
    ensures ListSorted(vol, AddedEntry(list, k, EntryOf(ref, BlobFor(n, inst))))
  {
    hide WellFormed, RecOk, EntryOf, ListSorted, EntriesDistinct, AttrsListed, ExtentsOk, Contents, Asked, Legal, NoNul,
         Collatable, BlobFor, JudgeEntry, Resolves, Insertable;
    BlobForFields(vol, n, inst);
    NewEntry(vol, n, ref, inst);
    LegalParts(vol, n.name);
    forall j | 0 <= j < |list| && Asked(vol, list, QueryFor(n), j)
      ensures list[j].name == n.name && list[j].vcn == 0
    {
      AskedIsLike(vol, base, records, list, n, j);
    }
    EntryBelongs(vol, records, list, QueryFor(n), k, EntryOf(ref, BlobFor(n, inst)));
  }

  /** The lookup does not find it. */
  lemma NotListed(vol: Volume, base: nat, records: Records, list: seq<Entry>, n: New, err: int, k: nat)
    requires Linked(vol, base, records, list) && AllAdmit(vol, n, Contents(records, list)) && Proper(vol, n)
    requires ListAnswers(vol, records, list, QueryFor(n), 0, err, k)
    ensures err == ENOENT
  {
    hide WellFormed, RecOk, Linked, Target, Legal, NoNul, Collatable, Insertable, AName, LE16, LE32, Value, JudgeEntry,
         Resolves, Matches, NameMatches, SameFolded, AllAdmit;
    LinkedBase(vol, base, records, list);
    LegalParts(vol, n.name);
    if err == 0 {
      TargetAdmits(vol, base, records, list, n, k);
      JudgeEntryMeans(vol, records, list, QueryFor(n), 0, k);
      LeadsTo(vol, records, list, QueryFor(n), k);
    }
  }

  lemma TargetAdmits(vol: Volume, base: nat, records: Records, list: seq<Entry>, n: New, k: nat)
    requires Linked(vol, base, records, list) && AllAdmit(vol, n, Contents(records, list)) && k < |list|
    ensures AllRecOk(vol, records) && Resolves(records, list[k]) && Admits(vol, n, Target(records, list[k]))
    ensures AType(Target(records, list[k])) == list[k].atype
  {
    hide WellFormed, RecOk, ListSorted, EntriesDistinct, AttrsListed, ExtentsOk, Target, Anon, Admits, AName, LE16,
         LE32, LowestVcn;
    assert Resolves(records, list[k]);
    AnonAdmits(vol, n, Target(records, list[k]));
    TargetMatches(vol, records, list[k]);
    assert Contents(records, list)[k] == Anon(Target(records, list[k]));
  }

  lemma NewEntry(vol: Volume, n: New, ref: nat, inst: nat)
    requires Proper(vol, n) && inst < 0x10000
    ensures WellFormed(BlobFor(n, inst))
    ensures EntryOf(ref, BlobFor(n, inst)) == Entry(n.atype, n.name, 0, ref, inst)
    ensures EntryFor(QueryFor(n), EntryOf(ref, BlobFor(n, inst)))
  {
    hide WellFormed, BlobFor, AName, LE16, LE32, LowestVcn, Specified;
    BlobForFields(vol, n, inst);
  }

  lemma AskedIsLike(vol: Volume, base: nat, records: Records, list: seq<Entry>, n: New, j: nat)
    requires Linked(vol, base, records, list) && AllAdmit(vol, n, Contents(records, list)) && Proper(vol, n)
    requires j < |list| && Asked(vol, list, QueryFor(n), j)
    ensures list[j].name == n.name && list[j].vcn == 0
  {
    hide WellFormed, RecOk, ListSorted, EntriesDistinct, AttrsListed, ExtentsOk, Target, Anon, Legal, NoNul, Collatable,
         Insertable, AName, LE16, LE32, Value;
    assert Resolves(records, list[j]);
    var t := Target(records, list[j]);
    TargetMatches(vol, records, list[j]);
    assert Contents(records, list)[j] == Anon(t);
    AnonAdmits(vol, n, t);
    assert Admits(vol, n, t);
  }

  /** What is stored agrees with the list up to the entry added. */
  lemma AddAgrees(b: Blob, list: seq<Entry>, disk: seq<byte>, k: nat, e: Entry)
    requires AllFit(list) && Fits(e) && ListRecOk(b, disk) && StoredValue(b, disk) == Encode(list) && k <= |list|
    ensures var es := AddedEntry(list, k, e);
            && AllFit(es) && Agrees(b, es, disk, ListSize(list[..k])) && es[..k] == list[..k]
            && |StoredValue(b, disk)| <= ListSize(es)
  {
    hide Encode, ListSize, Fits, ListRecOk, StoredValue;
    var es := AddedEntry(list, k, e);
    assert forall l :: 0 <= l < |es| ==> es[l] == if l < k then list[l] else if l == k then e else list[l - 1];
    assert es[..k] == list[..k];
    EncodePrefix(list, es, k);
    EncodeSize(list);
    assert list == list[..k] + list[k..];
    SizeAppend(list[..k], list[k..]);
    SizeAppend(list[..k] + [e], list[k..]);
    SizeAppend(list[..k], [e]);
  }

  /** Adding an attribute and its entry to an inode in sync: only the stored list lags behind. */
  lemma AddSynced(vol: Volume, base: nat, records: Records, list: seq<Entry>, disk: seq<byte>, ref: nat, r: Rec,
                  b: Blob, k: nat)
    requires InSync(vol, base, records, list, disk) && Adds(vol, records, ref, r, b) && k <= |list|
    requires ListSorted(vol, AddedEntry(list, k, EntryOf(ref, b))) && Fits(EntryOf(ref, b))
    ensures var rs, es := records[ref := r], AddedEntry(list, k, EntryOf(ref, b));
            && Synced(vol, base, rs, es, disk, ListSize(list[..k])) && es[..k] == list[..k]
            && |StoredValue(ListBlob(rs[base].attrs), disk)| <= ListSize(es)
            && Contents(rs, es) == Contents(records, list)[..k] + [Anon(b)] + Contents(records, list)[k..]
  {
    hide RecOk, WellFormed, EntryOf, HasListAttr, ListBlob, ListSorted, EntriesResolve, EntriesDistinct, AttrsListed,
         ExtentsOk, AddedEntry, ListSize, Encode, Agrees, Contents, Fits, StoredValue, ListRecOk, Adds, Resolves;
    AddsMembers(vol, records, ref, r, b);
    AddKeeps(vol, base, records, list, ref, r, b, k);
    AddListBlob(vol, base, records, ref, r, b);
    AddAgrees(ListBlob(records[base].attrs), list, disk, k, EntryOf(ref, b));
    AgreeingIsOk(ListBlob(records[base].attrs), AddedEntry(list, k, EntryOf(ref, b)), disk, ListSize(list[..k]));
  }

  lemma AgreeingIsOk(b: Blob, list: seq<Entry>, disk: seq<byte>, ofs: nat)
    requires AllFit(list) && Agrees(b, list, disk, ofs)
    ensures ListRecOk(b, disk)
  {
  }

  lemma AddListBlob(vol: Volume, base: nat, records: Records, ref: nat, r: Rec, b: Blob)
    requires base in records && AllRecOk(vol, records) && HasListAttr(records[base].attrs)
    requires Adds(vol, records, ref, r, b)
    ensures var rs := records[ref := r];
            && AllWellFormed(rs[base].attrs) && HasListAttr(rs[base].attrs)
            && ListBlob(rs[base].attrs) == ListBlob(records[base].attrs)
  {
    hide WellFormed, RecOk, With, HasListAttr, ListBlob, LE32;
    if ref == base {
      var bs := records[base].attrs;
      var i :| 0 <= i <= |bs| && r.attrs == With(bs, i, b);
      InsertedListBlob(bs, i, b);
    }
  }

  lemma InsertedListBlob(bs: seq<Blob>, i: nat, b: Blob)
    requires AllWellFormed(bs) && HasListAttr(bs) && i <= |bs| && WellFormed(b) && AType(b) != AT_ATTRIBUTE_LIST
    ensures AllWellFormed(With(bs, i, b)) && HasListAttr(With(bs, i, b)) && ListBlob(With(bs, i, b)) == ListBlob(bs)
  {
    hide WellFormed, LE32;
    var cs, p := With(bs, i, b), ListIndex(bs);
    assert forall k :: 0 <= k < |cs| ==> cs[k] == if k < i then bs[k] else if k == i then b else bs[k - 1];
    ListIndexIs(cs, if p < i then p else p + 1);
  }
}
