/** The metadata of one inode: its mft records and its attribute list.

    An inode is a base mft record plus any number of extent records, by mft reference. When an attribute list
    is present it has one entry for every attribute but itself, saying in which record and under which
    instance number the attribute is found. This module holds the invariant that ties the two together, what
    the inode means - the sequence of its attributes, wherever they are stored - and what each elementary
    change does to that meaning. */
module InodeState {
  import opened Collate
  import opened AttrArea
  import opened Attr
  import opened AttrSearch

  /** An attribute list entry. */
  datatype Entry = Entry(atype: nat, name: Name, vcn: nat, mref: nat, instance: nat)

  /** An mft record: its attribute records, where they start, its size and its instance counter. */
  datatype Rec = Rec(attrs: seq<Blob>, first: nat, alloc: nat, nextInst: nat)

  /** The entry that describes attribute `b` of the record `ref`. */
  function EntryOf(ref: nat, b: Blob): (r: Entry)
    requires WellFormed(b)
  {
    Entry(AType(b), AName(b), LowestVcn(b), ref, Instance(b))
  }

  // ----- One record

  /** Bytes in use: header, attribute records, terminator. */
  function InUse(r: Rec): (n: nat) {
    r.first + |Flatten(r.attrs)| + 8
  }

  ghost predicate InstancesDistinct(bs: seq<Blob>)
    requires AllWellFormed(bs)
  {
    forall i, j :: 0 <= i < j < |bs| ==> Instance(bs[i]) != Instance(bs[j])
  }

  ghost predicate InstancesBelow(bs: seq<Blob>, n: nat)
    requires AllWellFormed(bs)
  {
    forall i :: 0 <= i < |bs| ==> Instance(bs[i]) < n
  }

  ghost predicate RecOk(vol: Volume, r: Rec)
    ensures RecOk(vol, r) ==> AllWellFormed(r.attrs)
  {
    && AllWellFormed(r.attrs) && Sorted(vol, r.attrs)
    && InstancesDistinct(r.attrs) && InstancesBelow(r.attrs, r.nextInst) && r.nextInst < 0x10000
    && InUse(r) <= r.alloc
  }

  function Without(bs: seq<Blob>, i: nat): (r: seq<Blob>)
    requires i < |bs|
  {
    bs[..i] + bs[i + 1..]
  }

  function With(bs: seq<Blob>, i: nat, b: Blob): (r: seq<Blob>)
    requires i <= |bs|
  {
    bs[..i] + [b] + bs[i..]
  }

  /** The attribute with a given instance number. */
  ghost function AttrAt(bs: seq<Blob>, inst: nat): (b: Blob)
    requires AllWellFormed(bs) && exists b :: b in bs && Instance(b) == inst
    ensures b in bs && Instance(b) == inst
  {
    var b :| b in bs && Instance(b) == inst;
    b
  }

  lemma AttrAtIs(bs: seq<Blob>, b: Blob)
    requires AllWellFormed(bs) && InstancesDistinct(bs) && b in bs
    ensures AttrAt(bs, Instance(b)) == b
  {
    var c := AttrAt(bs, Instance(b));
    var i :| 0 <= i < |bs| && bs[i] == b;
    var j :| 0 <= j < |bs| && bs[j] == c;
  }

  lemma InWithout(bs: seq<Blob>, i: nat)
    requires i < |bs| && AllWellFormed(bs) && InstancesDistinct(bs)
    ensures AllWellFormed(Without(bs, i)) && InstancesDistinct(Without(bs, i))
    ensures forall b :: b in Without(bs, i) <==> b in bs && b != bs[i]
  {
    var cs := Without(bs, i);
    assert forall k :: 0 <= k < |cs| ==> cs[k] == if k < i then bs[k] else bs[k + 1];
    forall b | b in bs && b != bs[i]
      ensures b in cs
    {
      var j :| 0 <= j < |bs| && bs[j] == b;
      assert if j < i then cs[j] == b else cs[j - 1] == b;
    }
  }

  lemma SortedWithout(vol: Volume, bs: seq<Blob>, i: nat)
    requires i < |bs| && AllWellFormed(bs) && Sorted(vol, bs)
    ensures AllWellFormed(Without(bs, i)) && Sorted(vol, Without(bs, i))
  {
    hide InOrder, WellFormed;
    var cs := Without(bs, i);
    assert forall k :: 0 <= k < |cs| ==> cs[k] == if k < i then bs[k] else bs[k + 1];
  }

  lemma SizeWithout(bs: seq<Blob>, i: nat)
    requires i < |bs|
    ensures |Flatten(Without(bs, i))| == |Flatten(bs)| - |bs[i]|
  {
    hide Flatten;
    FlattenAppend(bs[..i], bs[i + 1..]);
    FlattenAppend(bs[..i] + [bs[i]], bs[i + 1..]);
    FlattenAppend(bs[..i], [bs[i]]);
    FlattenSingle(bs[i]);
    assert bs[..i] + [bs[i]] + bs[i + 1..] == bs;
  }

  lemma SizeWith(bs: seq<Blob>, i: nat, b: Blob)
    requires i <= |bs|
    ensures |Flatten(With(bs, i, b))| == |Flatten(bs)| + |b|
  {
    hide Flatten;
    SizeWithout(With(bs, i, b), i);
    assert Without(With(bs, i, b), i) == bs;
  }

  lemma SizeUpdate(bs: seq<Blob>, i: nat, b: Blob)
    requires i < |bs|
    ensures |Flatten(bs[i := b])| == |Flatten(bs)| - |bs[i]| + |b|
  {
    hide Flatten;
    SizeWithout(bs, i);
    SizeWithout(bs[i := b], i);
    assert Without(bs[i := b], i) == Without(bs, i);
  }

  /** Taking an attribute out of a record keeps the record in order. */
  lemma RecWithout(vol: Volume, r: Rec, i: nat)
    requires RecOk(vol, r) && i < |r.attrs|
    ensures RecOk(vol, r.(attrs := Without(r.attrs, i)))
    ensures InUse(r.(attrs := Without(r.attrs, i))) == InUse(r) - |r.attrs[i]|
  {
    hide Sorted, Flatten, WellFormed;
    InWithout(r.attrs, i);
    SortedWithout(vol, r.attrs, i);
    SizeWithout(r.attrs, i);
    var cs := Without(r.attrs, i);
    assert forall k :: 0 <= k < |cs| ==> cs[k] == if k < i then r.attrs[k] else r.attrs[k + 1];
  }

  // ----- Records and list

  type Records = map<nat, Rec>

  ghost predicate AllRecOk(vol: Volume, records: Records) {
    forall ref :: ref in records ==> RecOk(vol, records[ref])
  }

  /** The entry leads to an attribute that it describes in full, and that is not the list itself. */
  ghost predicate Resolves(records: Records, e: Entry) {
    && e.mref in records && AllWellFormed(records[e.mref].attrs)
    && exists b :: b in records[e.mref].attrs && EntryOf(e.mref, b) == e && e.atype != AT_ATTRIBUTE_LIST
  }

  ghost predicate EntriesResolve(records: Records, list: seq<Entry>) {
    forall k :: 0 <= k < |list| ==> Resolves(records, list[k])
  }

  /** No two entries lead to the same place. */
  ghost predicate EntriesDistinct(list: seq<Entry>) {
    forall k, l :: 0 <= k < l < |list| ==> list[k].mref != list[l].mref || list[k].instance != list[l].instance
  }

  /** Every attribute but the list itself has an entry. */
  ghost predicate AttrsListed(records: Records, list: seq<Entry>)
    requires forall ref :: ref in records ==> AllWellFormed(records[ref].attrs)
  {
    forall ref :: ref in records ==> Listed(ref, records[ref].attrs, list)
  }

  ghost predicate Listed(ref: nat, bs: seq<Blob>, list: seq<Entry>)
    requires AllWellFormed(bs)
  {
    forall b :: b in bs && AType(b) != AT_ATTRIBUTE_LIST ==> EntryOf(ref, b) in list
  }

  /** Order of entries: type, name, lowest vcn. */
  ghost predicate EntryLe(vol: Volume, a: Entry, b: Entry) {
    || a.atype < b.atype
    || (a.atype == b.atype &&
        var o := FileOrder(vol, a.name, b.name);
        o < 0 || (o == 0 && a.vcn <= b.vcn))
  }

  ghost predicate ListSorted(vol: Volume, list: seq<Entry>) {
    forall k, l :: 0 <= k < l < |list| ==> EntryLe(vol, list[k], list[l])
  }

  /** Exactly one attribute list attribute, at index `p`. */
  ghost predicate OnlyListAt(bs: seq<Blob>, p: nat)
    requires AllWellFormed(bs)
  {
    && p < |bs| && AType(bs[p]) == AT_ATTRIBUTE_LIST
    && forall i :: 0 <= i < |bs| && i != p ==> AType(bs[i]) != AT_ATTRIBUTE_LIST
  }

  ghost predicate NoListAttr(bs: seq<Blob>)
    requires AllWellFormed(bs)
  {
    forall b :: b in bs ==> AType(b) != AT_ATTRIBUTE_LIST
  }

  ghost predicate HasListAttr(bs: seq<Blob>)
    requires AllWellFormed(bs)
  {
    exists p :: OnlyListAt(bs, p)
  }

  /** Extent records are not empty and never hold the attribute list. */
  ghost predicate ExtentsOk(base: nat, records: Records)
    requires forall ref :: ref in records ==> AllWellFormed(records[ref].attrs)
  {
    forall ref :: ref in records && ref != base ==> records[ref].attrs != [] && NoListAttr(records[ref].attrs)
  }

  /** Records and list entries correspond one to one. This is also kept while the attribute list attribute
      itself has not been inserted yet. */
  ghost predicate Linked(vol: Volume, base: nat, records: Records, list: seq<Entry>) {
    && base in records && AllRecOk(vol, records) && ExtentsOk(base, records)
    && EntriesResolve(records, list) && EntriesDistinct(list) && AttrsListed(records, list) && ListSorted(vol, list)
  }

  /** The invariant of an inode that has an attribute list. */
  ghost predicate ListInv(vol: Volume, base: nat, records: Records, list: seq<Entry>) {
    Linked(vol, base, records, list) && HasListAttr(records[base].attrs)
  }

  /** The invariant of an inode without one: everything is in the base record. */
  ghost predicate PlainInv(vol: Volume, base: nat, records: Records) {
    && base in records && AllRecOk(vol, records)
    && records.Keys == {base} && NoListAttr(records[base].attrs)
  }

  // ----- What the inode means

  /** The bytes of an attribute but for its instance number. */
  ghost function Anon(b: Blob): (r: Blob)
    requires |b| >= 24
  {
    WithInstance(b, 0)
  }

  /** The attribute an entry leads to. */
  ghost function Target(records: Records, e: Entry): (b: Blob)
    requires Resolves(records, e)
    ensures b in records[e.mref].attrs && WellFormed(b)
  {
    AttrAt(records[e.mref].attrs, e.instance)
  }

  /** The attributes of the inode in list order, without their instance numbers. */
  ghost function Contents(records: Records, list: seq<Entry>): (r: seq<Blob>)
    requires EntriesResolve(records, list)
    ensures |r| == |list|
  {
    seq(|list|, k requires 0 <= k < |list| => Anon(Target(records, list[k])))
  }

  ghost function AnonAll(bs: seq<Blob>): (r: seq<Blob>)
    requires AllWellFormed(bs)
    ensures |r| == |bs|
  {
    seq(|bs|, k requires 0 <= k < |bs| => Anon(bs[k]))
  }

  lemma TargetIs(records: Records, e: Entry, b: Blob)
    requires e.mref in records && AllWellFormed(records[e.mref].attrs) && InstancesDistinct(records[e.mref].attrs)
    requires b in records[e.mref].attrs && EntryOf(e.mref, b) == e && e.atype != AT_ATTRIBUTE_LIST
    ensures Resolves(records, e) && Target(records, e) == b
  {
    AttrAtIs(records[e.mref].attrs, b);
  }

  /** The target is described by its entry. */
  lemma TargetMatches(vol: Volume, records: Records, e: Entry)
    requires AllRecOk(vol, records) && Resolves(records, e)
    ensures EntryOf(e.mref, Target(records, e)) == e
  {
    hide WellFormed, AName, LowestVcn, Sorted;
    var b :| b in records[e.mref].attrs && EntryOf(e.mref, b) == e && e.atype != AT_ATTRIBUTE_LIST;
    AttrAtIs(records[e.mref].attrs, b);
  }
}
