/** What the operations on an inode rest on: layout, passes, lockstep and the effect of each change. */
module InodeFacts {
  import opened Errno
  import opened Bytes
  import opened Collate
  import opened AttrArea
  import opened Attr
  import opened AttrSearch
  import opened InodeState
  import opened InodeSteps
  import opened ListBytes
  import opened ListAttr
  import opened ListSync
  import opened Context
  import opened ListLookup
  import opened Insertion

  const MAX_ATTR_LIST_SIZE := 0x40000
  const NTFS_ALLOC_BLOCK := 1024
  const MAX_CLUSTER_SIZE := 0x20_0000
  const MAX_REF := 0x1_0000_0000_0000_0000

  /** Of the defined attribute types only the standard information sorts in front of the attribute list. */
  ghost predicate DefinedTypes(bs: seq<Blob>) {
    forall i :: 0 <= i < |bs| ==>
      |bs[i]| >= 24 && (AType(bs[i]) < AT_ATTRIBUTE_LIST ==> AType(bs[i]) == AT_STANDARD_INFORMATION)
  }

  /** The records of an inode all have the layout of the volume. */
  ghost predicate LaidOut(records: Records, base: nat, first: nat, alloc: nat) {
    && base in records && DefinedTypes(records[base].attrs)
    && forall ref :: ref in records ==> ref < MAX_REF && records[ref].first == first && records[ref].alloc == alloc
  }

  /** The lists differ at most in where the entries lead. */
  ghost predicate SameKeys(x: seq<Entry>, y: seq<Entry>) {
    |x| == |y| && forall k :: 0 <= k < |x| ==> SameKey(x[k], y[k])
  }

  ghost predicate SameKey(e: Entry, f: Entry) {
    e.atype == f.atype && e.name == f.name && e.vcn == f.vcn
  }

  lemma MovedKeys(x: seq<Entry>, list: seq<Entry>, k: nat, newRef: nat)
    requires SameKeys(x, list) && k < |list|
    ensures SameKeys(x, MovedList(list, k, newRef))
  {
  }

  lemma MovedLayout(vol: Volume, base: nat, records: Records, pos: nat, newRef: nat, first: nat, alloc: nat)
    requires LaidOut(records, base, first, alloc) && pos < |records[base].attrs| && newRef < MAX_REF && newRef != base
    ensures LaidOut(MovedRecords(records, base, pos, newRef, first, alloc), base, first, alloc)
  {
    hide LE32, DefinedTypes;
    DefinedWithout(records[base].attrs, pos);
  }

  lemma DefinedWithout(bs: seq<Blob>, i: nat)
    requires DefinedTypes(bs) && i < |bs|
    ensures DefinedTypes(Without(bs, i))
  {
    hide LE32;
    var cs := Without(bs, i);
    assert forall k :: 0 <= k < |cs| ==> cs[k] == if k < i then bs[k] else bs[k + 1];
  }

  /** An attribute that fits in one record fits in an empty one. */
  lemma FitsAlone(vol: Volume, r: Rec, i: nat)
    requires RecOk(vol, r) && i < |r.attrs|
    ensures r.first + |r.attrs[i]| + 8 <= InUse(r) <= r.alloc
  {
    hide Flatten, WellFormed, Sorted;
    SizeWithout(r.attrs, i);
  }

  lemma IterationJudge(vol: Volume, b: Blob, t: nat)
    requires |b| >= 24
    ensures Judge(vol, Query(t, AnyName, None), true, b) ==
            if t == AT_UNUSED || AType(b) == t then Found else if AType(b) > t then Past else Skip
  {
    hide LE32, NameVerdict, Value, AName;
  }

  /** An iterating search for type `t`: the next attribute of this type, or of any type if `t` is AT_UNUSED. */
  lemma IterationStep(vol: Volume, r: Rec, i: nat, t: nat, err: int, pos: nat)
    requires RecOk(vol, r) && i <= |r.attrs|
    requires Answers(vol, r.attrs, i, Query(t, AnyName, None), true, err, pos)
    ensures i <= pos <= |r.attrs| && (err == 0 || err == ENOENT)
    ensures t == AT_UNUSED ==> pos == i
    ensures forall j :: i <= j < pos ==> AType(r.attrs[j]) != t
    ensures err == 0 ==> pos < |r.attrs| && (t == AT_UNUSED || AType(r.attrs[pos]) == t)
    ensures err != 0 ==>
              (t == AT_UNUSED ==> i == |r.attrs|) && forall j :: i <= j < |r.attrs| ==> AType(r.attrs[j]) != t
  {
    hide LE32, Judge, InOrder, InstancesDistinct, InstancesBelow, Flatten, WellFormed;
    forall j | i <= j < pos
      ensures AType(r.attrs[j]) != t
    {
      IterationJudge(vol, r.attrs[j], t);
    }
    if i < |r.attrs| {
      IterationJudge(vol, r.attrs[i], t);
    }
    if pos < |r.attrs| {
      IterationJudge(vol, r.attrs[pos], t);
    }
    if err != 0 && pos < |r.attrs| {
      forall j | pos <= j < |r.attrs|
        ensures AType(r.attrs[j]) > t
      {
        if pos < j {
          TypesInOrder(vol, r.attrs, pos, j);
        }
      }
    }
  }

  /** What moves out in front of the standard information and the list is nothing. */
  lemma MovesBehind(vol: Volume, base: nat, records: Records, list: seq<Entry>, first: nat, alloc: nat, pos: nat)
    requires ListInv(vol, base, records, list) && LaidOut(records, base, first, alloc) && pos < |records[base].attrs|
    requires AType(records[base].attrs[pos]) != AT_ATTRIBUTE_LIST
    requires AType(records[base].attrs[pos]) != AT_STANDARD_INFORMATION
    ensures ListIndex(records[base].attrs) < pos
  {
    hide WellFormed, LE32, EntriesResolve, EntriesDistinct, AttrsListed, ListSorted, ExtentsOk;
    LinkedFormed(vol, base, records, list);
    var p := ListIndex(records[base].attrs);
    if pos < p {
      TypesInOrder(vol, records[base].attrs, pos, p);
    }
  }

  /** What a pass of the space-making loop for type `t` leaves in the base record. */
  predicate LeftBy(t: nat, b: Blob)
    requires |b| >= 24
  {
    || AType(b) == AT_ATTRIBUTE_LIST
    || (t != AT_STANDARD_INFORMATION && AType(b) == AT_STANDARD_INFORMATION)
    || ((t == AT_UNUSED || t == AT_DATA) && AType(b) == AT_INDEX_ROOT)
    || (t == AT_UNUSED && AType(b) == AT_DATA && NameLength(b) == 0)
  }

  /** What it starts from. */
  ghost predicate LeftBefore(t: nat, b: Blob)
    requires |b| >= 24
  {
    t != AT_UNUSED ==>
      LeftBy(if t == AT_DATA then AT_UNUSED else if t == AT_INDEX_ROOT then AT_DATA else AT_INDEX_ROOT, b)
  }

  /** The passes still to come. */
  function PassesLeft(t: nat): (r: nat) {
    if t == AT_UNUSED then 3 else if t == AT_DATA then 2 else if t == AT_INDEX_ROOT then 1 else 0
  }

  function NextPass(t: nat): (r: nat) {
    if t == AT_UNUSED then AT_DATA else if t == AT_DATA then AT_INDEX_ROOT else AT_STANDARD_INFORMATION
  }

  /** The pass for `t` has come to attribute `i`. */
  ghost predicate Swept(bs: seq<Blob>, t: nat, i: nat) {
    && AllWellFormed(bs) && i <= |bs|
    && (t == AT_UNUSED || t == AT_DATA || t == AT_INDEX_ROOT || t == AT_STANDARD_INFORMATION)
    && (forall j :: 0 <= j < i ==> LeftBy(t, bs[j]))
    && (forall j :: i <= j < |bs| ==> LeftBefore(t, bs[j]))
  }

  lemma SweptNone(bs: seq<Blob>)
    requires AllWellFormed(bs)
    ensures Swept(bs, AT_UNUSED, 0)
  {
    hide WellFormed;
  }

  lemma MayMove(bs: seq<Blob>, t: nat, pos: nat)
    requires Swept(bs, t, pos) && pos < |bs|
    requires if t == AT_UNUSED then !LeftBy(AT_UNUSED, bs[pos]) else AType(bs[pos]) == t
    ensures AType(bs[pos]) != AT_ATTRIBUTE_LIST
  {
    hide WellFormed, LE32;
  }

  lemma SweptTo(bs: seq<Blob>, t: nat, i: nat, pos: nat)
    requires Swept(bs, t, i) && i <= pos <= |bs| && (t == AT_UNUSED ==> pos == i)
    requires forall j :: i <= j < pos ==> |bs[j]| >= 24 && AType(bs[j]) != t
    ensures Swept(bs, t, pos)
  {
    hide WellFormed, LE32;
  }

  lemma SweptAll(bs: seq<Blob>, t: nat)
    requires Swept(bs, t, |bs|) && t != AT_STANDARD_INFORMATION
    ensures Swept(bs, NextPass(t), 0) && PassesLeft(NextPass(t)) < PassesLeft(t)
  {
    hide WellFormed, LE32;
  }

  lemma OnlyListLeft(bs: seq<Blob>)
    requires Swept(bs, AT_STANDARD_INFORMATION, |bs|) && HasListAttr(bs)
    ensures |bs| == 1
  {
    hide WellFormed, LE32;
    var p := ListIndex(bs);
    assert LeftBy(AT_STANDARD_INFORMATION, bs[0]);
    assert LeftBy(AT_STANDARD_INFORMATION, bs[|bs| - 1]);
  }

  lemma SweptWithout(bs: seq<Blob>, pos: nat, t: nat)
    requires Swept(bs, t, pos) && pos < |bs|
    ensures |Without(bs, pos)| == |bs| - 1 && Swept(Without(bs, pos), t, pos)
  {
    hide WellFormed, LeftBy, LeftBefore;
    var cs := Without(bs, pos);
    assert forall k :: 0 <= k < |cs| ==> cs[k] == if k < pos then bs[k] else bs[k + 1];
  }

  lemma SweptPast(bs: seq<Blob>, pos: nat)
    requires Swept(bs, AT_UNUSED, pos) && pos < |bs| && LeftBy(AT_UNUSED, bs[pos])
    ensures Swept(bs, AT_UNUSED, pos + 1)
  {
    hide WellFormed, LeftBy;
  }

  lemma ReplacedLayout(base: nat, records: Records, first: nat, alloc: nat, p: nat, nb: Blob)
    requires LaidOut(records, base, first, alloc) && p < |records[base].attrs| && |nb| >= 24
    requires AType(nb) == AT_ATTRIBUTE_LIST
    ensures LaidOut(records[base := records[base].(attrs := records[base].attrs[p := nb])], base, first, alloc)
  {
    hide LE32;
  }

  /** How an operation on an inode came out, apart from failures outside. Each but the first stands for an error that is
      returned or for a panic. */
  datatype Outcome =
    | Fine
    /** the attribute to be inserted is there already */
    | Present
    /** the attribute to be deleted is not there */
    | Absent
    /** nothing but the attribute list attribute is left in the base record */
    | Exhausted
    /** the record of a list that becomes non-resident takes `need` bytes, and there is no room for it */
    | NoRoom(need: nat)
    /** the record of a list that shrinks takes `need` bytes, more than before */
    | Grew(need: nat)
    /** the allocation of the list is not whole clusters */
    | Ragged
    /** the last entry of a list that is not dropped was to be removed */
    | LastEntry
    /** a list was to be added where a non-resident one has been dropped before */
    | Stale
    /** an attribute of `len` bytes does not fit in front of the only one in the base record */
    | Alone(len: nat)
    /** an extent other than the first of an attribute was to be listed in a new list */
    | Split
    /** the entries of a new list do not fit in the buffer for it */
    | TooMany
    /** the list is too long for an entry of `len` bytes */
    | Full(len: nat)
    /** there is no room for the `need` bytes of a new list, and nothing that could move out */
    | OutOfSpace(need: nat)
    /** there is no room for the `need` bytes of a new list, and what could move out is looked for in a list that is not
        cached yet */
    | NoCache(need: nat)

  ghost predicate ListTooLong(rec: Rec, need: nat) {
    && AllWellFormed(rec.attrs) && HasListAttr(rec.attrs)
    && InUse(rec) - |ListBlob(rec.attrs)| + need > rec.alloc
  }

  ghost predicate ListGrew(rec: Rec, need: nat) {
    AllWellFormed(rec.attrs) && HasListAttr(rec.attrs) && need > |ListBlob(rec.attrs)|
  }

  ghost predicate ListRagged(rec: Rec, size: nat, clusterSize: nat)
    requires 0 < clusterSize
  {
    && AllWellFormed(rec.attrs) && HasListAttr(rec.attrs) && NonResidentList(ListBlob(rec.attrs))
    && ToCluster(size, clusterSize) > AllocatedSize(ListBlob(rec.attrs))
  }

  /** The record holds more attributes than the buffer for the list has entries for. */
  ghost predicate TooManyFor(base: nat, rec: Rec) {
    AllWellFormed(rec.attrs) && ListSize(EntriesFor(base, rec.attrs)) > NTFS_ALLOC_BLOCK
  }

  /** Standard information and index roots stay in the base record as long as possible. */
  predicate Fixed(b: Blob)
    requires |b| >= 24
  {
    AType(b) == AT_STANDARD_INFORMATION || AType(b) == AT_INDEX_ROOT
  }

  ghost predicate HasFixed(bs: seq<Blob>) {
    exists i :: 0 <= i < |bs| && |bs[i]| >= 24 && Fixed(bs[i])
  }

  lemma ResidentIsStored(b: Blob, disk: seq<byte>)
    requires ResidentList(b)
    ensures WellFormed(b) && AType(b) == AT_ATTRIBUTE_LIST && !NonResident(b) && ListRecOk(b, disk)
    ensures ValueOffset(b) + ValueLength(b) <= |b| && StoredValue(b, disk) == Value(b)
  {
  }

  lemma LayoutOf(records: Records, base: nat, first: nat, alloc: nat)
    requires LaidOut(records, base, first, alloc)
    ensures base in records && records[base].first == first && records[base].alloc == alloc
  {
  }

  lemma SyncedLinked(vol: Volume, base: nat, records: Records, list: seq<Entry>, disk: seq<byte>)
    requires InSync(vol, base, records, list, disk)
    ensures Linked(vol, base, records, list)
  {
  }

  lemma NonResidentIsStored(b: Blob, disk: seq<byte>)
    requires NonResidentList(b)
    ensures WellFormed(b) && AType(b) == AT_ATTRIBUTE_LIST && NonResident(b) && |b| >= NON_RESIDENT_SIZE
    ensures NameLength(b) == 0
    ensures NON_RESIDENT_SIZE <= PairsOffset(b) <= |b|
    ensures DataSize(b) == |disk| ==> ListRecOk(b, disk) && StoredValue(b, disk) == disk
  {
  }

  lemma ListIsUnnamed(b: Blob, disk: seq<byte>)
    requires ListRecOk(b, disk)
    ensures |b| >= 24 && NameLength(b) == 0
  {
    hide LE16, LE32, LE64;
  }

  lemma ListSizeOf(b: Blob, disk: seq<byte>)
    requires ListRecOk(b, disk)
    ensures WellFormed(b) && AType(b) == AT_ATTRIBUTE_LIST
    ensures NonResident(b) ==>
              NonResidentList(b) && |b| >= NON_RESIDENT_SIZE && DataSize(b) == |disk| && StoredValue(b, disk) == disk
    ensures !NonResident(b) ==>
              ResidentList(b) && ValueLength(b) == |StoredValue(b, disk)| && |b| == RESIDENT_SIZE + ValueLength(b)
  {
    hide LE16, LE32, LE64;
  }

  lemma AllocatedEnough(b: Blob)
    requires NonResidentList(b)
    ensures |b| >= NON_RESIDENT_SIZE && DataSize(b) <= AllocatedSize(b) && NON_RESIDENT_SIZE <= PairsOffset(b) <= |b|
  {
  }

  lemma InstanceFits(b: Blob)
    requires |b| >= 24
    ensures Instance(b) < 0x10000
  {
  }

  lemma UseFits(vol: Volume, r: Rec)
    requires RecOk(vol, r)
    ensures InUse(r) <= r.alloc
  {
  }

  /** The size of a list depends on its keys alone. */
  lemma {:induction false} KeysSize(x: seq<Entry>, y: seq<Entry>)
    requires SameKeys(x, y)
    ensures ListSize(x) == ListSize(y)
  {
    if x != [] {
      KeysSize(x[1..], y[1..]);
    }
  }

  /** The highest vcn of an allocation, as the 64-bit field holds it. */
  function HighestVcn(allocSize: nat, clusterSize: nat): (r: nat)
    requires 0 < clusterSize
    ensures r < 0x1_0000_0000_0000_0000
  {
    ((allocSize - 1) / clusterSize) % 0x1_0000_0000_0000_0000
  }

  // ----- Deleting

  lemma RemovedLayout(vol: Volume, records: Records, base: nat, first: nat, alloc: nat, ref: nat, i: nat)
    requires LaidOut(records, base, first, alloc) && AllRecOk(vol, records) && ref in records
    requires i < |records[ref].attrs|
    ensures LaidOut(RemovedRecords(records, base, ref, i), base, first, alloc)
  {
    hide LE32, RecOk, WellFormed, Without, DefinedTypes;
    if ref == base {
      DefinedWithout(records[base].attrs, i);
    }
  }

  lemma WithoutElements(bs: seq<Blob>, i: nat)
    requires i < |bs|
    ensures |Without(bs, i)| == |bs| - 1
    ensures forall j :: 0 <= j < |bs| - 1 ==> Without(bs, i)[j] == if j < i then bs[j] else bs[j + 1]
  {
  }

  /** What is stored agrees with the list up to the entry removed. */
  lemma RemoveAgrees(b: Blob, list: seq<Entry>, disk: seq<byte>, k: nat)
    requires AllFit(list) && ListRecOk(b, disk) && StoredValue(b, disk) == Encode(list) && k < |list|
    ensures var es := RemovedEntry(list, k);
            && AllFit(es) && Agrees(b, es, disk, ListSize(list[..k]))
            && ListSize(es) <= |StoredValue(b, disk)| && ListSize(es) <= ListSize(list)
  {
    hide Encode, ListSize, Fits, ListRecOk, StoredValue;
    var es := RemovedEntry(list, k);
    assert forall l :: 0 <= l < |es| ==> es[l] == list[if l < k then l else l + 1];
    assert es[..k] == list[..k];
    EncodePrefix(list, es, k);
    EncodeSize(list);
    SizeAppend(list[..k], list[k..]);
    SizeAppend(list[..k], list[k + 1..]);
    assert list[k..] == [list[k]] + list[k + 1..];
    SizeAppend([list[k]], list[k + 1..]);
    assert list == list[..k] + list[k..];
  }

  lemma RemoveListBlob(vol: Volume, base: nat, records: Records, list: seq<Entry>, ref: nat, i: nat, k: nat)
    requires CanRemove(vol, base, records, list, ref, i, k) && HasListAttr(records[base].attrs)
    ensures var rs := RemovedRecords(records, base, ref, i);
            && base in rs && AllWellFormed(rs[base].attrs) && HasListAttr(rs[base].attrs)
            && ListBlob(rs[base].attrs) == ListBlob(records[base].attrs)
  {
    hide RecOk, WellFormed, EntryOf, HasListAttr, ListBlob, Without, ListSorted, EntriesResolve, EntriesDistinct,
         AttrsListed, ExtentsOk;
    FormedIn(vol, records, ref);
    EntryFields(ref, records[ref].attrs[i]);
    if ref == base {
      MoveListBlob(vol, base, records, i);
    }
  }

  lemma RemoveSynced(vol: Volume, base: nat, records: Records, list: seq<Entry>, disk: seq<byte>, ref: nat, i: nat,
                     k: nat)
    requires InSync(vol, base, records, list, disk) && CanRemove(vol, base, records, list, ref, i, k)
    ensures var rs, es := RemovedRecords(records, base, ref, i), RemovedEntry(list, k);
            && Synced(vol, base, rs, es, disk, ListSize(list[..k]))
            && ListSize(es) <= |StoredValue(ListBlob(rs[base].attrs), disk)| && ListSize(es) <= ListSize(list)
            && Contents(rs, es) == Contents(records, list)[..k] + Contents(records, list)[k + 1..]
  {
    hide RecOk, WellFormed, EntryOf, HasListAttr, ListBlob, ListSorted, EntriesResolve, EntriesDistinct, AttrsListed,
         ExtentsOk, RemovedRecords, RemovedEntry, ListSize, Encode, Agrees, Contents, Fits, StoredValue, ListRecOk;
    RemoveKeeps(vol, base, records, list, ref, i, k);
    RemoveListBlob(vol, base, records, list, ref, i, k);
    RemoveAgrees(ListBlob(records[base].attrs), list, disk, k);
    AgreeingIsOk(ListBlob(records[base].attrs), RemovedEntry(list, k), disk, ListSize(list[..k]));
  }

  lemma BagRest(x: seq<Blob>, y: seq<Blob>, i: nat)
    requires x != [] && multiset(x) == multiset(y) && i < |y| && y[i] == x[0]
    ensures multiset(x[1..]) == multiset(Without(y, i))
  {
    hide Without;
    assert x == [x[0]] + x[1..];
    WithoutBag(y, i);
    assert multiset(x[1..]) == multiset(x) - multiset{x[0]};
    assert multiset(Without(y, i)) == multiset(y) - multiset{y[i]};
  }

  lemma AnonWithout(y: seq<Blob>, i: nat)
    requires AllWellFormed(y) && i < |y|
    ensures AllWellFormed(Without(y, i)) && AnonAll(Without(y, i)) == Without(AnonAll(y), i)
  {
    hide WellFormed, Anon;
    WithoutElements(y, i);
    WithoutElements(AnonAll(y), i);
  }

  /** The same attributes in another order, instance numbers aside. */
  lemma {:induction false} AnonBag(x: seq<Blob>, y: seq<Blob>)
    requires AllWellFormed(x) && AllWellFormed(y) && multiset(x) == multiset(y)
    ensures multiset(AnonAll(x)) == multiset(AnonAll(y))
    decreases |x|
  {
    hide WellFormed, Anon, Without;
    if x == [] {
      assert |multiset(x)| == |multiset(y)|;
    } else {
      assert x[0] in multiset(y);
      var i :| 0 <= i < |y| && y[i] == x[0];
      BagRest(x, y, i);
      AnonWithout(y, i);
      AnonBag(x[1..], Without(y, i));
      assert AnonAll(x) == [Anon(x[0])] + AnonAll(x[1..]);
      WithoutBag(AnonAll(y), i);
    }
  }

  lemma PlainDelete(vol: Volume, base: nat, records: Records, first: nat, alloc: nat, i: nat)
    requires PlainInv(vol, base, records) && LaidOut(records, base, first, alloc) && i < |records[base].attrs|
    ensures var rs := records[base := records[base].(attrs := Without(records[base].attrs, i))];
            PlainInv(vol, base, rs) && LaidOut(rs, base, first, alloc)
  {
    hide RecOk, WellFormed, DefinedTypes, Without, LE32;
    RecWithout(vol, records[base], i);
    InWithoutOf(vol, records, base, i);
    DefinedWithout(records[base].attrs, i);
  }

  lemma DropOrCut(records: Records, base: nat, ref: nat, i: nat)
    requires ref in records && i < |records[ref].attrs|
    ensures RemovedRecords(records, base, ref, i) ==
            if ref != base && |records[ref].attrs| == 1 then records - {ref}
            else records[ref := records[ref].(attrs := Without(records[ref].attrs, i))]
  {
  }

  /** When all entries lead to the base record, the inode without the list attribute has just the attributes listed. */
  lemma ListGone(vol: Volume, base: nat, records: Records, list: seq<Entry>, disk: seq<byte>, first: nat, alloc: nat)
    requires ListInv(vol, base, records, list) && LaidOut(records, base, first, alloc)
    requires forall k :: 0 <= k < |list| ==> list[k].mref == base
    ensures var bs := records[base].attrs;
            var rs := records[base := records[base].(attrs := Without(bs, ListIndex(bs)))];
            && PlainInv(vol, base, rs) && LaidOut(rs, base, first, alloc)
            && multiset(AnonAll(rs[base].attrs)) == multiset(Contents(records, list))
  {
    hide RecOk, WellFormed, DefinedTypes, Without, LE32, EntryOf, HasListAttr, ListSorted, Anon, Target, Resolves;
    var bs := records[base].attrs;
    var p := ListIndex(bs);
    var cs := Without(bs, p);
    NoExtents(vol, base, records, list);
    RecWithout(vol, records[base], p);
    InWithoutOf(vol, records, base, p);
    DefinedWithout(bs, p);
    NoListLeft(vol, base, records, p);
    var ts := seq(|list|, k requires 0 <= k < |list| => Target(records, list[k]));
    TargetsNamed(vol, base, records, list, p, ts);
    SameAttributes(base, cs, list, ts);
    AnonBag(ts, cs);
    assert AnonAll(ts) == Contents(records, list);
  }

  lemma NoListLeft(vol: Volume, base: nat, records: Records, p: nat)
    requires base in records && AllRecOk(vol, records) && OnlyListAt(records[base].attrs, p)
    ensures AllWellFormed(Without(records[base].attrs, p)) && NoListAttr(Without(records[base].attrs, p))
  {
    hide RecOk, WellFormed, LE32;
    InWithoutOf(vol, records, base, p);
    var bs := records[base].attrs;
    WithoutElements(bs, p);
  }

  lemma TargetsNamed(vol: Volume, base: nat, records: Records, list: seq<Entry>, p: nat, ts: seq<Blob>)
    requires Linked(vol, base, records, list) && OnlyListAt(records[base].attrs, p) && |ts| == |list|
    requires forall k :: 0 <= k < |list| ==>
             list[k].mref == base && Resolves(records, list[k]) && ts[k] == Target(records, list[k])
    ensures Names(base, Without(records[base].attrs, p), list, ts) && AllWellFormed(ts)
  {
    hide RecOk, WellFormed, EntryOf, Without, LE32, ListSorted, ExtentsOk, Resolves, Target, InstancesDistinct,
         EntriesDistinct;
    var bs := records[base].attrs;
    var cs := Without(bs, p);
    FormedIn(vol, records, base);
    InWithout(bs, p);
    NoListLeft(vol, base, records, p);
    forall k | 0 <= k < |list|
      ensures ts[k] in cs && WellFormed(ts[k]) && EntryOf(base, ts[k]) == list[k]
    {
      TargetMatches(vol, records, list[k]);
      EntryFields(base, ts[k]);
      NotTheList(vol, base, records, list, k);
    }
    assert Listed(base, bs, list);
  }

  // ----- Adding the list

  /** Entry `k` and those behind it are the entries of attribute `i` of the base record and those behind it. */
  ghost predicate Lockstep(base: nat, bs: seq<Blob>, al: seq<Entry>, i: nat, k: nat) {
    AllWellFormed(bs) && i <= |bs| && k <= |al| && al[k..] == EntriesFor(base, bs[i..])
  }

  lemma LockstepNext(base: nat, bs: seq<Blob>, al: seq<Entry>, i: nat, k: nat)
    requires Lockstep(base, bs, al, i, k) && i < |bs|
    ensures Lockstep(base, bs, al, i + 1, k + 1) && k < |al| && al[k] == EntryOf(base, bs[i])
  {
    hide WellFormed, EntryOf;
    assert al[k..][0] == al[k] && bs[i..][0] == bs[i];
    assert al[k + 1..] == al[k..][1..] && bs[i + 1..] == bs[i..][1..];
  }

  lemma LockstepMoves(base: nat, bs: seq<Blob>, al: seq<Entry>, i: nat, k: nat, newRef: nat)
    requires Lockstep(base, bs, al, i, k) && i < |bs| && k < |al|
    ensures Lockstep(base, Without(bs, i), MovedList(al, k, newRef), i, k + 1)
  {
    hide WellFormed, EntryOf;
    LockstepNext(base, bs, al, i, k);
    WithoutElements(bs, i);
    assert Without(bs, i)[i..] == bs[i + 1..];
    assert MovedList(al, k, newRef)[k + 1..] == al[k + 1..];
  }

  lemma LockstepStarts(base: nat, bs: seq<Blob>)
    requires AllWellFormed(bs)
    ensures Lockstep(base, bs, EntriesFor(base, bs), 0, 0)
  {
    hide WellFormed, EntryOf;
    assert bs[0..] == bs;
  }

  lemma TypeNotList(bs: seq<Blob>, i: nat)
    requires AllWellFormed(bs) && NoListAttr(bs) && i < |bs|
    ensures AType(bs[i]) != AT_ATTRIBUTE_LIST
  {
    assert bs[i] in bs;
  }

  lemma NoListWithout(bs: seq<Blob>, i: nat)
    requires AllWellFormed(bs) && NoListAttr(bs) && i < |bs|
    ensures AllWellFormed(Without(bs, i)) && NoListAttr(Without(bs, i))
  {
    hide WellFormed, LE32;
    WithoutElements(bs, i);
  }

  lemma EntriesFit(base: nat, bs: seq<Blob>)
    requires AllWellFormed(bs) && base < MAX_REF && forall b :: b in bs ==> LowestVcn(b) == 0
    ensures AllFit(EntriesFor(base, bs))
  {
    hide WellFormed, LowestVcn;
    forall k | 0 <= k < |bs|
      ensures Fits(EntriesFor(base, bs)[k])
    {
      assert bs[k] in bs;
      FieldsFit(bs[k]);
    }
  }

  lemma FieldsFit(b: Blob)
    requires WellFormed(b)
    ensures AType(b) < 0x1_0000_0000 && |AName(b)| < 256 && Instance(b) < 0x10000
  {
  }

  /** A new attribute list attribute goes between the standard information and everything else. */
  lemma ListInserted(vol: Volume, r: Rec, pos: nat, nb: Blob, err: int)
    requires RecOk(vol, r) && NoListAttr(r.attrs) && r.nextInst < 0xffff
    requires Answers(vol, r.attrs, 0, Query(AT_ATTRIBUTE_LIST, Unnamed, None), false, err, pos)
    requires WellFormed(nb) && AType(nb) == AT_ATTRIBUTE_LIST && Instance(nb) == r.nextInst
    requires InUse(r) + |nb| <= r.alloc
    ensures var s := r.(attrs := With(r.attrs, pos, nb), nextInst := r.nextInst + 1);
            && pos <= |r.attrs| && RecOk(vol, s) && SameButList(r, s) && HasListAttr(s.attrs)
            && ListIndex(s.attrs) == pos && ListBlob(s.attrs) == nb && InUse(s) == InUse(r) + |nb|
  {
    hide WellFormed, Flatten, LE16, LE32, AName, FileOrder, Value, Judge, Sorted, Answers, LowestVcn;
    PlaceBounds(vol, r, pos, err);
    ListPlace(vol, r, pos, err);
    var bs, cs := r.attrs, With(r.attrs, pos, nb);
    InodeState.SizeWith(bs, pos, nb);
    InWith(bs, pos, nb);
    assert forall k :: 0 <= k < |cs| ==> cs[k] == if k < pos then bs[k] else if k == pos then nb else bs[k - 1];
    SortedWithList(vol, bs, pos, nb);
    ListIndexIs(cs, pos);
  }

  lemma SortedWithList(vol: Volume, bs: seq<Blob>, pos: nat, nb: Blob)
    requires AllWellFormed(bs) && Sorted(vol, bs) && pos <= |bs| && WellFormed(nb) && AType(nb) == AT_ATTRIBUTE_LIST
    requires forall i :: 0 <= i < |bs| ==>
             AType(bs[i]) != AT_ATTRIBUTE_LIST && (AType(bs[i]) < AT_ATTRIBUTE_LIST <==> i < pos)
    ensures AllWellFormed(With(bs, pos, nb)) && Sorted(vol, With(bs, pos, nb))
  {
    hide WellFormed, LE32, AName, FileOrder, Value;
    var cs := With(bs, pos, nb);
    assert forall k :: 0 <= k < |cs| ==> cs[k] == if k < pos then bs[k] else if k == pos then nb else bs[k - 1];
    forall i, j | 0 <= i < j < |cs|
      ensures InOrder(vol, cs[i], cs[j])
    {
      if i != pos && j != pos {
        assert InOrder(vol, bs[if i < pos then i else i - 1], bs[if j < pos then j else j - 1]);
      }
    }
  }

  lemma ListPlace(vol: Volume, r: Rec, pos: nat, err: int)
    requires RecOk(vol, r) && NoListAttr(r.attrs)
    requires Answers(vol, r.attrs, 0, Query(AT_ATTRIBUTE_LIST, Unnamed, None), false, err, pos)
    ensures err == ENOENT
    ensures forall i :: 0 <= i < |r.attrs| ==>
              AType(r.attrs[i]) != AT_ATTRIBUTE_LIST && (AType(r.attrs[i]) < AT_ATTRIBUTE_LIST <==> i < pos)
  {
    hide WellFormed, LE32, Sorted, InstancesDistinct, InstancesBelow, Flatten;
    var q := Query(AT_ATTRIBUTE_LIST, Unnamed, None);
    SearchIsExhaustive(vol, r.attrs, 0, q, err, pos);
    forall i | 0 <= i < |r.attrs|
      ensures AType(r.attrs[i]) != AT_ATTRIBUTE_LIST && (AType(r.attrs[i]) < AT_ATTRIBUTE_LIST <==> i < pos)
    {
      assert r.attrs[i] in r.attrs;
      if i < pos {
        assert Judge(vol, q, false, r.attrs[i]) == Skip;
      } else if pos < i {
        assert r.attrs[pos] in r.attrs;
        TypesInOrder(vol, r.attrs, pos, i);
      }
    }
  }

  /** The base record with the new list attribute `nb` at `pos`. */
  function WithNew(rec: Rec, pos: nat, nb: Blob): (r: Rec)
    requires pos <= |rec.attrs|
  {
    rec.(attrs := With(rec.attrs, pos, nb), nextInst := rec.nextInst + 1)
  }

  lemma NewListInSync(vol: Volume, base: nat, records: Records, al: seq<Entry>, first: nat, alloc: nat,
                      pos: nat, nb: Blob, err: int, disk: seq<byte>)
    requires Linked(vol, base, records, al) && AllFit(al) && NoListAttr(records[base].attrs)
    requires records[base].nextInst < 0xffff
    requires LaidOut(records, base, first, alloc)
    requires Answers(vol, records[base].attrs, 0, Query(AT_ATTRIBUTE_LIST, Unnamed, None), false, err, pos)
    requires ListRecOk(nb, disk) && StoredValue(nb, disk) == Encode(al) && Instance(nb) == records[base].nextInst
    requires InUse(records[base]) + |nb| <= alloc
    ensures var rs := records[base := WithNew(records[base], pos, nb)];
            InSync(vol, base, rs, al, disk) && LaidOut(rs, base, first, alloc)
              && Contents(rs, al) == Contents(records, al)
  {
    hide RecOk, WellFormed, EntryOf, ListSorted, EntriesDistinct, EntriesResolve, AttrsListed, ExtentsOk, Contents,
         HasListAttr, LaidOut, Fits, InUse, LE32, LE16, LE64, Answers, NoListAttr, Encode, StoredValue, With, Resolves,
         ListBlob;
    LayoutOf(records, base, first, alloc);
    ListInserted(vol, records[base], pos, nb, err);
    ListAttrChange(vol, base, records, al, WithNew(records[base], pos, nb));
    InsertedLayout(records, base, first, alloc, pos, nb);
  }

  lemma InsertedLayout(records: Records, base: nat, first: nat, alloc: nat, pos: nat, nb: Blob)
    requires LaidOut(records, base, first, alloc) && pos <= |records[base].attrs|
    requires |nb| >= 24 && (AType(nb) < AT_ATTRIBUTE_LIST ==> AType(nb) == AT_STANDARD_INFORMATION)
    ensures LaidOut(records[base := WithNew(records[base], pos, nb)], base, first, alloc)
  {
    hide LE32;
    var bs := records[base].attrs;
    var cs := With(bs, pos, nb);
    assert forall k :: 0 <= k < |cs| ==> cs[k] == if k < pos then bs[k] else if k == pos then nb else bs[k - 1];
  }

  lemma NewResidentList(inst: nat, value: seq<byte>)
    requires inst < 0x10000 && |value| < 0x1000_0000 && |value| % 8 == 0
    ensures var b := ResidentBlob(AT_ATTRIBUTE_LIST, [], value, inst);
            ResidentList(b) && Value(b) == value && Instance(b) == inst && |b| == RESIDENT_SIZE + |value|
  {
    hide LE16, LE32, AName, ResidentBlob, Zeros, Value;
    var b := ResidentBlob(AT_ATTRIBUTE_LIST, [], value, inst);
    ResidentBlobFields(AT_ATTRIBUTE_LIST, [], value, inst);
    ResidentListHeader(inst, value);
  }

  lemma ResidentListHeader(inst: nat, value: seq<byte>)
    requires inst < 0x10000 && |value| < 0x1000_0000 && |value| % 8 == 0
    ensures var b := ResidentBlob(AT_ATTRIBUTE_LIST, [], value, inst);
            && |b| == RESIDENT_SIZE + |value| && NameLength(b) == 0
            && ValueOffset(b) == RESIDENT_SIZE && ValueLength(b) == |value|
  {
    hide LE16, LE32, ResidentHeader, Zeros, NameBytes;
    var h := ResidentHeader(AT_ATTRIBUTE_LIST, 0, |value|, inst);
    var b := ResidentBlob(AT_ATTRIBUTE_LIST, [], value, inst);
    ResidentParts(AT_ATTRIBUTE_LIST, [], value, inst);
    ResidentHeaderFields(AT_ATTRIBUTE_LIST, 0, |value|, inst);
    assert b[0..24] == h;
    ReadSlice(b, 0, h, 16);
    ReadSlice(b, 0, h, 20);
    assert b[9] == h[9];
  }

  lemma LayoutBase(records: Records, base: nat, first: nat, alloc: nat)
    requires LaidOut(records, base, first, alloc)
    ensures base in records && base < MAX_REF
  {
  }

  lemma PlaceBounds(vol: Volume, r: Rec, pos: nat, err: int)
    requires RecOk(vol, r) && Answers(vol, r.attrs, 0, Query(AT_ATTRIBUTE_LIST, Unnamed, None), false, err, pos)
    ensures pos <= |r.attrs|
  {
    hide RecOk, Judge;
  }

  // ----- Moving an attribute for good

  /** A move out of any record leaves the list attribute alone and the layout intact. */
  lemma MovedAny(vol: Volume, base: nat, records: Records, list: seq<Entry>, ref: nat, i: nat, k: nat, newRef: nat,
                 first: nat, alloc: nat)
    requires CanMove(vol, base, records, list, ref, i, k, newRef, first, alloc) && HasListAttr(records[base].attrs)
    requires LaidOut(records, base, first, alloc) && newRef < MAX_REF
    ensures var rs := MovedRecords(records, ref, i, newRef, first, alloc);
            && LaidOut(rs, base, first, alloc) && AllWellFormed(rs[base].attrs) && HasListAttr(rs[base].attrs)
            && ListBlob(rs[base].attrs) == ListBlob(records[base].attrs)
  {
    hide RecOk, WellFormed, EntryOf, HasListAttr, ListBlob, Without, ListSorted, EntriesResolve, EntriesDistinct,
         AttrsListed, ExtentsOk, DefinedTypes;
    FormedIn(vol, records, ref);
    EntryFields(ref, records[ref].attrs[i]);
    if ref == base {
      MoveListBlob(vol, base, records, i);
      DefinedWithout(records[base].attrs, i);
    }
  }

  lemma EntryAtLeast(e: Entry)
    ensures EntryLength(e) >= ENTRY_NAME
  {
  }

  lemma SameKeysSelf(list: seq<Entry>)
    ensures SameKeys(list, list)
  {
  }

  lemma LayoutAt(records: Records, base: nat, first: nat, alloc: nat, ref: nat)
    requires LaidOut(records, base, first, alloc) && ref in records
    ensures base in records && records[ref].first == first && records[ref].alloc == alloc
  {
  }

  lemma NewHome(vol: Volume, b: Blob, ref: nat, newRef: nat, records: Records, first: nat, alloc: nat)
    requires WellFormed(b) && newRef in records && records[newRef] == Rec([WithInstance(b, 0)], first, alloc, 1)
    ensures PointsTo(vol, records, Ctx(newRef, first), EntryOf(ref, b).(mref := newRef, instance := 0))
  {
    hide WellFormed, EntryOf;
    MovedEntry(b, ref, newRef);
    assert At(records[newRef], Ctx(newRef, first), EntryOf(newRef, WithInstance(b, 0)), 0);
  }

  // ----- Inserting

  /** `s` is `r` with `x` put in somewhere. */
  ghost predicate PutInto<T>(r: seq<T>, x: T, s: seq<T>) {
    exists k :: 0 <= k <= |r| && PutAt(r, x, s, k)
  }

  ghost predicate PutAt<T>(r: seq<T>, x: T, s: seq<T>, k: nat)
    requires k <= |r|
  {
    s == r[..k] + [x] + r[k..]
  }

  /** An inode without a list, with the attribute inserted. */
  lemma PlainInsert(vol: Volume, base: nat, records: Records, first: nat, alloc: nat, n: New, pos: nat)
    requires PlainInv(vol, base, records) && LaidOut(records, base, first, alloc) && Proper(vol, n)
    requires AllAdmit(vol, n, AnonAll(records[base].attrs)) && records[base].nextInst < 0xffff
    requires Answers(vol, records[base].attrs, 0, QueryFor(n), false, ENOENT, pos)
    requires InUse(records[base]) + ResidentLength(|n.name|, |ValueFor(n)|) <= alloc
    ensures var rec := records[base];
            && pos <= |rec.attrs|
            && var b := BlobFor(n, rec.nextInst);
               var rs := records[base := WithNew(rec, pos, b)];
            && WellFormed(b) && PlainInv(vol, base, rs) && LaidOut(rs, base, first, alloc)
            && PutInto(AnonAll(rec.attrs), Anon(b), AnonAll(rs[base].attrs))
  {
    hide RecOk, WellFormed, With, LE32, Answers, AllAdmit, BlobFor, Anon, Proper, DefinedTypes, InUse, LE16, AName,
         LowestVcn;
    LayoutOf(records, base, first, alloc);
    var rec := records[base];
    AnonAllAdmit(vol, n, rec.attrs);
    RecordWithNew(vol, rec, n, pos);
    var b := BlobFor(n, rec.nextInst);
    BlobForFields(vol, n, rec.nextInst);
    ProperType(vol, n);
    InsertedLayout(records, base, first, alloc, pos, b);
    InWith(rec.attrs, pos, b);
    AnonWith(rec.attrs, pos, b);
    assert PutAt(AnonAll(rec.attrs), Anon(b), AnonAll(With(rec.attrs, pos, b)), pos);
  }

  lemma AddedLayout(records: Records, base: nat, first: nat, alloc: nat, ref: nat, r: Rec)
    requires LaidOut(records, base, first, alloc) && ref < MAX_REF && r.first == first && r.alloc == alloc
    requires ref == base ==> LaidOut(records[ref := r], base, first, alloc)
    ensures LaidOut(records[ref := r], base, first, alloc)
  {
    hide DefinedTypes;
  }

  /** Instance numbers aside, the record is the same whatever number it got. */
  lemma AnonBlob(vol: Volume, n: New, inst: nat)
    requires Proper(vol, n) && inst < 0x10000
    ensures WellFormed(BlobFor(n, inst)) && Anon(BlobFor(n, inst)) == BlobFor(n, 0)
  {
    hide WellFormed, LE16, LE32, AName, LowestVcn, Put16, Put32, Zeros, NameBytes, RoundUp8, Proper, Specified,
         ResidentLength, ResidentHeader, Store;
    BlobForFields(vol, n, inst);
    var b, h := BlobFor(n, inst), ResidentHeader(n.atype, |n.name|, |ValueFor(n)|, inst);
    var z, g := BlobFor(n, 0), ResidentHeader(n.atype, |n.name|, |ValueFor(n)|, 0);
    HeaderInstance(n.atype, |n.name|, |ValueFor(n)|, inst);
    assert b == h + b[24..] && z == g + z[24..] && b[24..] == z[24..];
    StoreInHeader(h, g, 14, Put16(0), b[24..]);
  }

  lemma StoreInHeader(h: seq<byte>, g: seq<byte>, o: nat, v: seq<byte>, rest: seq<byte>)
    requires |h| == |g| && o + |v| <= |h|
    requires g[..o] == h[..o] && g[o..o + |v|] == v && g[o + |v|..] == h[o + |v|..]
    ensures Store(h + rest, o, v) == g + rest
  {
    assert g == g[..o] + g[o..o + |v|] + g[o + |v|..];
  }

  lemma HeaderInstance(t: nat, nameLen: nat, valLen: nat, inst: nat)
    requires 0 < t < AT_END && nameLen < 256 && inst < 0x10000 && valLen < 0x1000_0000
    ensures var h, g := ResidentHeader(t, nameLen, valLen, inst), ResidentHeader(t, nameLen, valLen, 0);
            g[..14] == h[..14] && g[14..16] == Put16(0) && g[16..24] == h[16..24]
  {
    hide Put16, Put32, ResidentLength, ResidentValueOffset;
  }

  lemma AddsToBase(vol: Volume, base: nat, records: Records, list: seq<Entry>, first: nat, alloc: nat, n: New, pos: nat,
                   k: nat)
    requires Linked(vol, base, records, list) && LaidOut(records, base, first, alloc) && Proper(vol, n)
    requires AllAdmit(vol, n, Contents(records, list)) && records[base].nextInst < 0xffff
    requires Answers(vol, records[base].attrs, 0, QueryFor(n), false, ENOENT, pos)
    requires ListAnswers(vol, records, list, QueryFor(n), 0, ENOENT, k)
    requires InUse(records[base]) + ResidentLength(|n.name|, |ValueFor(n)|) <= alloc
    ensures pos <= |records[base].attrs| && k <= |list|
    ensures var rec := records[base];
            var b := BlobFor(n, rec.nextInst);
            && WellFormed(b) && Adds(vol, records, base, WithNew(rec, pos, b), b) && Fits(EntryOf(base, b))
            && ListSorted(vol, AddedEntry(list, k, EntryOf(base, b)))
            && LaidOut(records[base := WithNew(rec, pos, b)], base, first, alloc)
  {
    hide RecOk, WellFormed, EntryOf, ListSorted, EntriesDistinct, EntriesResolve, AttrsListed, ExtentsOk, Contents,
         LaidOut, Fits, LE32, LE16, LE64, Answers, ListAnswers, AllAdmit, InUse, Proper, BlobFor, ResidentLength, AName,
         LowestVcn, Specified;
    LayoutOf(records, base, first, alloc);
    LayoutBase(records, base, first, alloc);
    var rec := records[base];
    var b := BlobFor(n, rec.nextInst);
    BaseAdmits(vol, base, records, list, n);
    RecordWithNew(vol, rec, n, pos);
    BlobForFields(vol, n, rec.nextInst);
    ProperType(vol, n);
    InsertedLayout(records, base, first, alloc, pos, b);
    ListWithNew(vol, base, records, list, n, k, base, rec.nextInst);
    NewEntryFits(vol, n, base, rec.nextInst);
  }

  lemma BaseAdmits(vol: Volume, base: nat, records: Records, list: seq<Entry>, n: New)
    requires Linked(vol, base, records, list) && Proper(vol, n) && AllAdmit(vol, n, Contents(records, list))
    ensures AllAdmit(vol, n, records[base].attrs)
  {
    hide RecOk, WellFormed, EntryOf, ListSorted, EntriesDistinct, EntriesResolve, AttrsListed, ExtentsOk, Contents,
         AllAdmit, Legal, NoNul, Collatable;
    RecordsAdmit(vol, base, records, list, n, base);
  }

  lemma NewEntryFits(vol: Volume, n: New, ref: nat, inst: nat)
    requires Proper(vol, n) && inst < 0x10000 && ref < MAX_REF
    ensures WellFormed(BlobFor(n, inst)) && Fits(EntryOf(ref, BlobFor(n, inst)))
  {
    hide WellFormed, EntryOf, BlobFor, Legal, NoNul, Collatable;
    NewEntry(vol, n, ref, inst);
  }

  lemma AddsAlone(vol: Volume, base: nat, records: Records, list: seq<Entry>, first: nat, alloc: nat, n: New, k: nat,
                  ref: nat)
    requires Linked(vol, base, records, list) && Proper(vol, n) && AllAdmit(vol, n, Contents(records, list))
    requires ListAnswers(vol, records, list, QueryFor(n), 0, ENOENT, k)
    requires first + ResidentLength(|n.name|, |ValueFor(n)|) + 8 <= alloc && ref !in records && ref < MAX_REF
    ensures k <= |list|
    ensures var b := BlobFor(n, 0);
            && WellFormed(b) && Adds(vol, records, ref, Rec([b], first, alloc, 1), b) && Fits(EntryOf(ref, b))
            && ListSorted(vol, AddedEntry(list, k, EntryOf(ref, b)))
  {
    hide RecOk, WellFormed, EntryOf, ListSorted, EntriesDistinct, EntriesResolve, AttrsListed, ExtentsOk, Contents,
         Fits, LE32, LE16, LE64, ListAnswers, AllAdmit, Proper, BlobFor, ResidentLength, AName, LowestVcn, Specified;
    RecordOfNew(vol, n, first, alloc);
    BlobForFields(vol, n, 0);
    ProperType(vol, n);
    ListWithNew(vol, base, records, list, n, k, ref, 0);
    NewEntryFits(vol, n, ref, 0);
  }

  lemma ProperType(vol: Volume, n: New)
    requires Proper(vol, n)
    ensures n.atype != AT_ATTRIBUTE_LIST && (n.atype < AT_ATTRIBUTE_LIST ==> n.atype == AT_STANDARD_INFORMATION)
  {
  }

  lemma AnonWith(bs: seq<Blob>, i: nat, b: Blob)
    requires AllWellFormed(bs) && i <= |bs| && WellFormed(b)
    ensures AllWellFormed(With(bs, i, b))
    ensures AnonAll(With(bs, i, b)) == AnonAll(bs)[..i] + [Anon(b)] + AnonAll(bs)[i..]
  {
    hide WellFormed, Anon;
    var cs := With(bs, i, b);
    assert forall k :: 0 <= k < |cs| ==> cs[k] == if k < i then bs[k] else if k == i then b else bs[k - 1];
  }

  /** The entries of the first attributes take no more than those of all. */
  lemma EntriesSize(base: nat, bs: seq<Blob>, j: nat)
    requires AllWellFormed(bs) && j <= |bs|
    ensures AllWellFormed(bs[..j]) && ListSize(EntriesFor(base, bs[..j])) <= ListSize(EntriesFor(base, bs))
  {
    hide WellFormed, EntryOf, ListSize;
    var es := EntriesFor(base, bs);
    assert EntriesFor(base, bs[..j]) == es[..j];
    SizeAppend(es[..j], es[j..]);
    assert es == es[..j] + es[j..];
  }

  /** What the entry of a new attribute adds to the size of the list. */
  lemma EntryTakes(vol: Volume, list: seq<Entry>, k: nat, n: New, ref: nat, inst: nat)
    requires Proper(vol, n) && k <= |list| && inst < 0x10000
    ensures WellFormed(BlobFor(n, inst)) && |n.name| < 256
    ensures ListSize(list[..k] + [EntryOf(ref, BlobFor(n, inst))] + list[k..])
              == ListSize(list) + EntryLength(Entry(n.atype, n.name, 0, 0, 0))
  {
    hide WellFormed, EntryOf, ListSize, BlobFor, Legal, NoNul, Collatable;
    NewEntry(vol, n, ref, inst);
    var e := EntryOf(ref, BlobFor(n, inst));
    SizeAppend(list[..k] + [e], list[k..]);
    SizeAppend(list[..k], [e]);
    SizeAppend(list[..k], list[k..]);
    SizeOne(e);
    assert list == list[..k] + list[k..];
  }

  // ----- A list that is added or dropped

  /** None is an extent other than the first of an attribute. */
  ghost predicate AllStart(bs: seq<Blob>) {
    forall i :: 0 <= i < |bs| ==> |bs[i]| >= 24 && LowestVcn(bs[i]) == 0
  }

  lemma StartsAlike(bs: seq<Blob>, rest: seq<Blob>)
    requires AllWellFormed(bs) && multiset(AnonAll(bs)) == multiset(rest)
    ensures AllStart(bs) <==> AllStart(rest)
  {
    hide WellFormed, LowestVcn, Anon, AllStart;
    AnonStarts(bs);
    if AllStart(AnonAll(bs)) {
      SameStarts(AnonAll(bs), rest);
    }
    if AllStart(rest) {
      SameStarts(rest, AnonAll(bs));
    }
  }

  lemma SameStarts(x: seq<Blob>, y: seq<Blob>)
    requires multiset(x) == multiset(y) && AllStart(x)
    ensures AllStart(y)
  {
    hide LowestVcn;
    forall i | 0 <= i < |y|
      ensures |y[i]| >= 24 && LowestVcn(y[i]) == 0
    {
      assert y[i] in multiset(x);
    }
  }

  lemma AnonStarts(bs: seq<Blob>)
    requires AllWellFormed(bs)
    ensures AllStart(AnonAll(bs)) <==> AllStart(bs)
  {
    hide WellFormed, LowestVcn, Anon;
    forall i | 0 <= i < |bs|
      ensures |bs[i]| >= 24 && |AnonAll(bs)[i]| >= 24 && LowestVcn(AnonAll(bs)[i]) == LowestVcn(bs[i])
    {
      AnonStart(bs[i]);
    }
  }

  lemma AnonStart(b: Blob)
    requires WellFormed(b)
    ensures |b| >= 24 && |Anon(b)| >= 24 && LowestVcn(Anon(b)) == LowestVcn(b)
  {
    hide WellFormed, LowestVcn, WithInstance;
    WithInstanceKeeps(b, 0);
  }

  lemma FixedWithout(bs: seq<Blob>, p: nat)
    requires p < |bs| && |bs[p]| >= 24 && !Fixed(bs[p])
    ensures HasFixed(Without(bs, p)) <==> HasFixed(bs)
  {
    hide Fixed;
    var cs := Without(bs, p);
    if i :| 0 <= i < |bs| && |bs[i]| >= 24 && Fixed(bs[i]) {
      assert cs[if i < p then i else i - 1] == bs[i];
    }
    if i :| 0 <= i < |cs| && |cs[i]| >= 24 && Fixed(cs[i]) {
      assert cs[i] == bs[if i < p then i else i + 1];
    }
  }

  // ----- The context of a new attribute

  /** The list has no room for the entry of the new attribute. */
  function NoMore(n: New): (r: Outcome)
    ensures r.Full?
  {
    Full(EntryLength(Entry(n.atype, n.name, 0, 0, 0)))
  }

  /** The context points at an attribute that is `c` but for its instance number. */
  ghost predicate Reaches(records: Records, ctx: Ctx, c: Blob) {
    ctx.ref in records && exists i :: 0 <= i < |records[ctx.ref].attrs| && Held(records[ctx.ref], ctx.ofs, c, i)
  }

  ghost predicate Held(r: Rec, ofs: int, c: Blob, i: nat)
    requires i < |r.attrs|
  {
    |r.attrs[i]| >= 24 && Anon(r.attrs[i]) == c && ofs == r.first + Offset(r.attrs, i)
  }

  /** The entry of `b` in record `ref` goes in the list at `k`. */
  ghost predicate EntryGoes(vol: Volume, list: seq<Entry>, k: nat, ref: nat, b: Blob) {
    && k <= |list| && WellFormed(b) && Fits(EntryOf(ref, b)) && ListSorted(vol, AddedEntry(list, k, EntryOf(ref, b)))
    && ListSize(AddedEntry(list, k, EntryOf(ref, b))) <= MAX_ATTR_LIST_SIZE
  }

  /** The inode has gained the attribute `b`, number `k` in list order. */
  ghost predicate Gained(records: Records, list: seq<Entry>, records': Records, list': seq<Entry>, b: Blob, k: nat) {
    && |b| >= 24 && EntriesResolve(records, list) && EntriesResolve(records', list') && k <= |list|
    && PutAt(Contents(records, list), Anon(b), Contents(records', list'), k)
  }

  /** The attribute `c` has been moved out of the base record. */
  ghost predicate Away(base: nat, records: Records, list: seq<Entry>, c: Blob) {
    && EntriesResolve(records, list)
    && exists k :: 0 <= k < |list| && list[k].mref != base && Contents(records, list)[k] == c
  }

  /** The context points at the attribute `c`, or was given up because the record that it has been moved to could not be
      mapped. */
  ghost predicate Tracked(base: nat, records: Records, list: seq<Entry>, ctx: Option<Ctx>, c: Blob) {
    if ctx.Some? then Reaches(records, ctx.value, c) else Away(base, records, list, c)
  }

  lemma AwayAt(base: nat, records: Records, list: seq<Entry>, k: nat)
    requires EntriesResolve(records, list) && k < |list| && list[k].mref != base
    ensures Away(base, records, list, Contents(records, list)[k])
  {
    hide EntriesResolve, Contents;
  }

  /** The context leads out of the base record with its entry. */
  lemma FollowsAway(vol: Volume, records: Records, list: seq<Entry>, ctx: Ctx, k: nat)
    requires Follows(vol, records, list, Some(ctx), k)
    ensures k < |list| && list[k].mref == ctx.ref
  {
  }

  lemma BaseLong(vol: Volume, base: nat, records: Records, list: seq<Entry>, hasList: bool, disk: seq<byte>)
    requires if hasList then InSync(vol, base, records, list, disk) else PlainInv(vol, base, records)
    ensures base in records && forall i :: 0 <= i < |records[base].attrs| ==> |records[base].attrs[i]| >= 24
  {
    hide WellFormed, Sorted, InstancesDistinct, InstancesBelow, InUse;
    FormedIn(vol, records, base);
    forall i | 0 <= i < |records[base].attrs|
      ensures |records[base].attrs[i]| >= 24
    {
      FormedLength(records[base].attrs[i]);
    }
  }

  lemma SyncedParts(vol: Volume, base: nat, records: Records, list: seq<Entry>)
    requires Linked(vol, base, records, list)
    ensures EntriesResolve(records, list)
  {
  }

  /** In front of the standard information there is no place for anything else. */
  lemma NotInFront(vol: Volume, n: New, bs: seq<Blob>)
    requires Proper(vol, n) && |bs| == 1 && |bs[0]| >= 24 && Answers(vol, bs, 0, QueryFor(n), false, ENOENT, 0)
    ensures AType(bs[0]) == AT_STANDARD_INFORMATION ==> n.atype == AT_STANDARD_INFORMATION
  {
    hide NameVerdict, LE16, LE32, AName, Value, Legal, Lex;
  }

  /** Some list would lead to all of `attrs`, wherever they have been moved to. */
  ghost predicate Preserved(vol: Volume, base: nat, records: Records, attrs: seq<Blob>) {
    exists al :: Linked(vol, base, records, al) && Contents(records, al) == attrs
  }

  lemma StillThere(vol: Volume, base: nat, records: Records, al: seq<Entry>)
    requires Linked(vol, base, records, al)
    ensures Preserved(vol, base, records, Contents(records, al))
  {
  }

  /** The list leads to all of `attrs`, and to nothing else but possibly `c`. */
  ghost predicate NoneLost(vol: Volume, base: nat, records: Records, list: seq<Entry>, attrs: seq<Blob>, c: Blob) {
    && Linked(vol, base, records, list)
    && (Contents(records, list) == attrs || PutInto(attrs, c, Contents(records, list)))
  }

  lemma FollowedReaches(vol: Volume, base: nat, records: Records, list: seq<Entry>, ctx: Ctx, k: nat)
    requires Linked(vol, base, records, list) && Follows(vol, records, list, Some(ctx), k)
    ensures k < |list| && Reaches(records, ctx, Contents(records, list)[k])
  {
    hide RecOk, WellFormed, EntryOf, ListSorted, EntriesDistinct, AttrsListed, ExtentsOk, Anon, Offset;
    FormedIn(vol, records, ctx.ref);
    var r := records[ctx.ref];
    var i :| 0 <= i < |r.attrs| && At(r, ctx, list[k], i);
    EntryFields(ctx.ref, r.attrs[i]);
    TargetIs(records, list[k], r.attrs[i]);
    assert Held(r, ctx.ofs, Contents(records, list)[k], i);
  }

  lemma NewFollows(vol: Volume, records: Records, list: seq<Entry>, ref: nat, r: Rec, b: Blob, i: nat, k: nat)
    requires WellFormed(b) && i < |r.attrs| && r.attrs[i] == b && k <= |list|
    ensures Follows(vol, records[ref := r], AddedEntry(list, k, EntryOf(ref, b)),
                    Some(Ctx(ref, r.first + Offset(r.attrs, i))), k)
  {
    hide WellFormed, EntryOf, Offset;
    EntryFields(ref, b);
    assert At(r, Ctx(ref, r.first + Offset(r.attrs, i)), EntryOf(ref, b), i);
  }

  lemma NewIn(bs: seq<Blob>, pos: nat, b: Blob)
    requires pos <= |bs|
    ensures pos < |With(bs, pos, b)| && With(bs, pos, b)[pos] == b && Offset(With(bs, pos, b), pos) == Offset(bs, pos)
  {
    assert With(bs, pos, b)[..pos] == bs[..pos];
  }

  lemma NewReached(rec: Rec, ref: nat, pos: nat, b: Blob, records: Records)
    requires pos <= |rec.attrs| && WellFormed(b)
    ensures Reaches(records[ref := WithNew(rec, pos, b)], Ctx(ref, rec.first + Offset(rec.attrs, pos)), Anon(b))
  {
    hide WellFormed, Anon, Offset, With;
    NewIn(rec.attrs, pos, b);
    assert |b| >= 24 by {
      FormedLength(b);
    }
    var rs := records[ref := WithNew(rec, pos, b)];
    assert Held(rs[ref], rec.first + Offset(rec.attrs, pos), Anon(b), pos);
  }

  lemma FormedLength(b: Blob)
    requires WellFormed(b)
    ensures |b| >= 24
  {
  }
}
