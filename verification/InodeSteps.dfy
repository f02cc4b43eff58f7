/** The elementary changes to the metadata of an inode: what each keeps, and what it does to the attributes. */
module InodeSteps {
  import opened Bytes
  import opened Collate
  import opened AttrArea
  import opened Attr
  import opened AttrSearch
  import opened InodeState

  // ----- Moving one attribute into a newly allocated extent record

  ghost function MovedRecords(records: Records, ref: nat, i: nat, newRef: nat, first: nat, alloc: nat): (r: Records)
    requires ref in records && i < |records[ref].attrs| && |records[ref].attrs[i]| >= 24
  {
    var rec := records[ref];
    records[ref := rec.(attrs := Without(rec.attrs, i))]
           [newRef := Rec([WithInstance(rec.attrs[i], 0)], first, alloc, 1)]
  }

  ghost function MovedList(list: seq<Entry>, k: nat, newRef: nat): (r: seq<Entry>)
    requires k < |list|
  {
    list[k := list[k].(mref := newRef, instance := 0)]
  }

  /** What a move needs: a listed attribute, a fresh reference and an empty record large enough. */
  ghost predicate CanMove(vol: Volume, base: nat, records: Records, list: seq<Entry>,
                          ref: nat, i: nat, k: nat, newRef: nat, first: nat, alloc: nat) {
    && Linked(vol, base, records, list)
    && ref in records && i < |records[ref].attrs| && (ref != base ==> |records[ref].attrs| > 1)
    && k < |list| && list[k] == EntryOf(ref, records[ref].attrs[i]) && list[k].atype != AT_ATTRIBUTE_LIST
    && newRef !in records && first + |records[ref].attrs[i]| + 8 <= alloc
  }

  lemma SingletonOk(vol: Volume, b: Blob, first: nat, alloc: nat)
    requires WellFormed(b) && Instance(b) == 0 && first + |b| + 8 <= alloc
    ensures RecOk(vol, Rec([b], first, alloc, 1))
  {
    hide WellFormed;
    FlattenSingle(b);
  }

  /** The records after a move are in order. */
  lemma MoveRecordsOk(vol: Volume, base: nat, records: Records, list: seq<Entry>,
                      ref: nat, i: nat, k: nat, newRef: nat, first: nat, alloc: nat)
    requires CanMove(vol, base, records, list, ref, i, k, newRef, first, alloc)
    ensures var r := MovedRecords(records, ref, i, newRef, first, alloc);
            base in r && AllRecOk(vol, r) && ExtentsOk(base, r)
  {
    hide RecOk, Sorted, EntriesResolve, EntriesDistinct, AttrsListed, ListSorted, WellFormed;
    FormedIn(vol, records, ref);
    var r := MovedRecords(records, ref, i, newRef, first, alloc);
    var b := records[ref].attrs[i];
    RecWithout(vol, records[ref], i);
    WithInstanceKeeps(b, 0);
    SingletonOk(vol, WithInstance(b, 0), first, alloc);
    InWithoutOf(vol, records, ref, i);
    forall x | x in r
      ensures RecOk(vol, r[x])
    {
      if x != newRef && x != ref {
        assert r[x] == records[x];
      }
    }
  }

  lemma FormedIn(vol: Volume, records: Records, ref: nat)
    requires AllRecOk(vol, records) && ref in records
    ensures AllWellFormed(records[ref].attrs) && InstancesDistinct(records[ref].attrs)
    ensures forall i :: 0 <= i < |records[ref].attrs| ==> WellFormed(records[ref].attrs[i])
  {
  }

  lemma InWithoutOf(vol: Volume, records: Records, ref: nat, i: nat)
    requires AllRecOk(vol, records) && ref in records && i < |records[ref].attrs|
    ensures AllWellFormed(Without(records[ref].attrs, i))
    ensures forall b :: b in Without(records[ref].attrs, i) <==> b in records[ref].attrs && b != records[ref].attrs[i]
  {
    InWithout(records[ref].attrs, i);
  }

  /** Two attributes of one record differ in their instance numbers. */
  lemma OtherInstance(bs: seq<Blob>, b: Blob, c: Blob)
    requires AllWellFormed(bs) && InstancesDistinct(bs) && b in bs && c in bs && b != c
    ensures Instance(b) != Instance(c)
  {
    var i :| 0 <= i < |bs| && bs[i] == b;
    var j :| 0 <= j < |bs| && bs[j] == c;
  }

  lemma MovedEntry(b: Blob, ref: nat, newRef: nat)
    requires WellFormed(b)
    ensures WellFormed(WithInstance(b, 0))
    ensures EntryOf(newRef, WithInstance(b, 0)) == EntryOf(ref, b).(mref := newRef, instance := 0)
    ensures Anon(WithInstance(b, 0)) == Anon(b)
  {
    hide WellFormed, AName, LowestVcn, Store;
    WithInstanceKeeps(b, 0);
    StoreSlices(b, 14, Put16(0));
    StoreSlices(WithInstance(b, 0), 14, Put16(0));
  }

  /** Every entry still leads to the attribute it led to. */
  lemma MoveTargets(vol: Volume, base: nat, records: Records, list: seq<Entry>,
                    ref: nat, i: nat, k: nat, newRef: nat, first: nat, alloc: nat, l: nat)
    requires CanMove(vol, base, records, list, ref, i, k, newRef, first, alloc) && l < |list|
    ensures var rs, es := MovedRecords(records, ref, i, newRef, first, alloc), MovedList(list, k, newRef);
            && Resolves(records, list[l]) && Resolves(rs, es[l])
            && Anon(Target(rs, es[l])) == Anon(Target(records, list[l]))
  {
    hide RecOk, ListSorted, WellFormed, ExtentsOk, AttrsListed, Listed, EntryOf, Anon;
    FormedIn(vol, records, ref);
    var rs, es := MovedRecords(records, ref, i, newRef, first, alloc), MovedList(list, k, newRef);
    var b := records[ref].attrs[i];
    MoveRecordsOk(vol, base, records, list, ref, i, k, newRef, first, alloc);
    var e := list[l];
    assert Resolves(records, e);
    FormedIn(vol, rs, es[l].mref);
    FormedIn(vol, records, e.mref);
    var t := Target(records, e);
    TargetMatches(vol, records, e);
    if l == k {
      MovedEntry(b, ref, newRef);
      EntryFields(ref, b);
      TargetIs(records, e, b);
      TargetIs(rs, es[l], WithInstance(b, 0));
    } else {
      InWithoutOf(vol, records, ref, i);
      EntryFields(ref, b);
      EntryFields(e.mref, t);
      assert t in rs[e.mref].attrs;
      TargetIs(rs, e, t);
    }
  }

  lemma EntryFields(ref: nat, b: Blob)
    requires WellFormed(b)
    ensures EntryOf(ref, b).mref == ref && EntryOf(ref, b).instance == Instance(b) && EntryOf(ref, b).atype == AType(b)
  {
  }

  /** Every attribute still has its entry. */
  lemma MoveListed(vol: Volume, base: nat, records: Records, list: seq<Entry>,
                   ref: nat, i: nat, k: nat, newRef: nat, first: nat, alloc: nat, x: nat)
    requires CanMove(vol, base, records, list, ref, i, k, newRef, first, alloc)
    requires x in MovedRecords(records, ref, i, newRef, first, alloc)
    ensures var rs, es := MovedRecords(records, ref, i, newRef, first, alloc), MovedList(list, k, newRef);
            AllWellFormed(rs[x].attrs) && Listed(x, rs[x].attrs, es)
  {
    hide RecOk, ListSorted, WellFormed, ExtentsOk, EntryOf, Resolves, EntriesDistinct, Anon;
    FormedIn(vol, records, ref);
    var rs, es := MovedRecords(records, ref, i, newRef, first, alloc), MovedList(list, k, newRef);
    var b := records[ref].attrs[i];
    MoveRecordsOk(vol, base, records, list, ref, i, k, newRef, first, alloc);
    FormedIn(vol, rs, x);
    EntryFields(ref, b);
    if x == newRef {
      MovedEntry(b, ref, newRef);
      assert es[k] == EntryOf(newRef, WithInstance(b, 0));
    } else {
      InWithoutOf(vol, records, ref, i);
      FormedIn(vol, records, x);
      assert Listed(x, records[x].attrs, list);
      forall c | c in rs[x].attrs && AType(c) != AT_ATTRIBUTE_LIST
        ensures EntryOf(x, c) in es
      {
        EntryFields(x, c);
        if x == ref {
          OtherInstance(records[ref].attrs, b, c);
        }
        var l :| 0 <= l < |list| && list[l] == EntryOf(x, c);
        assert es[l] == list[l];
      }
    }
  }

  /** A move keeps records and list linked and leaves every attribute, wherever it is now, as it was. */
  lemma MoveKeeps(vol: Volume, base: nat, records: Records, list: seq<Entry>,
                  ref: nat, i: nat, k: nat, newRef: nat, first: nat, alloc: nat)
    requires CanMove(vol, base, records, list, ref, i, k, newRef, first, alloc)
    ensures var rs, es := MovedRecords(records, ref, i, newRef, first, alloc), MovedList(list, k, newRef);
            Linked(vol, base, rs, es) && Contents(rs, es) == Contents(records, list)
  {
    hide RecOk, WellFormed, ExtentsOk, EntryOf, Resolves, Listed, Anon, EntryLe, Target;
    FormedIn(vol, records, ref);
    var rs, es := MovedRecords(records, ref, i, newRef, first, alloc), MovedList(list, k, newRef);
    MoveRecordsOk(vol, base, records, list, ref, i, k, newRef, first, alloc);
    forall x | x in rs
      ensures AllWellFormed(rs[x].attrs) && Listed(x, rs[x].attrs, es)
    {
      MoveListed(vol, base, records, list, ref, i, k, newRef, first, alloc, x);
    }
    forall l | 0 <= l < |list|
      ensures Resolves(records, list[l]) && Resolves(rs, es[l])
      ensures Anon(Target(rs, es[l])) == Anon(Target(records, list[l]))
    {
      MoveTargets(vol, base, records, list, ref, i, k, newRef, first, alloc, l);
    }
    MoveOrder(vol, base, records, list, ref, i, k, newRef, first, alloc);
  }

  lemma MoveOrder(vol: Volume, base: nat, records: Records, list: seq<Entry>,
                  ref: nat, i: nat, k: nat, newRef: nat, first: nat, alloc: nat)
    requires CanMove(vol, base, records, list, ref, i, k, newRef, first, alloc)
    ensures EntriesDistinct(MovedList(list, k, newRef)) && ListSorted(vol, MovedList(list, k, newRef))
  {
    hide RecOk, WellFormed, ExtentsOk, EntryOf, Listed, FileOrder, AttrsListed;
    var es := MovedList(list, k, newRef);
    forall l | 0 <= l < |list|
      ensures list[l].mref != newRef
    {
      assert Resolves(records, list[l]);
    }
    forall x, y | 0 <= x < y < |es|
      ensures EntryLe(vol, es[x], es[y])
    {
      assert EntryLe(vol, list[x], list[y]);
    }
  }

  // ----- Changing only the attribute list attribute

  /** `r` differs from the base record at most in its attribute list attribute. */
  ghost predicate SameButList(r: Rec, s: Rec)
    requires AllWellFormed(r.attrs) && AllWellFormed(s.attrs)
  {
    forall b :: WellFormed(b) && AType(b) != AT_ATTRIBUTE_LIST ==> (b in r.attrs <==> b in s.attrs)
  }

  lemma ListAttrChange(vol: Volume, base: nat, records: Records, list: seq<Entry>, r: Rec)
    requires Linked(vol, base, records, list) && RecOk(vol, r) && SameButList(records[base], r)
    ensures Linked(vol, base, records[base := r], list)
    ensures Contents(records[base := r], list) == Contents(records, list)
  {
    hide RecOk, WellFormed, EntryOf, Anon, EntryLe, ListSorted, EntriesDistinct;
    var rs := records[base := r];
    assert AllRecOk(vol, rs);
    forall x | x in rs
      ensures AllWellFormed(rs[x].attrs) && Listed(x, rs[x].attrs, list)
    {
      FormedIn(vol, rs, x);
      FormedIn(vol, records, x);
      assert Listed(x, records[x].attrs, list);
      forall b | b in rs[x].attrs && AType(b) != AT_ATTRIBUTE_LIST
        ensures EntryOf(x, b) in list
      {
        assert b in records[x].attrs;
      }
    }
    forall l | 0 <= l < |list|
      ensures Resolves(records, list[l]) && Resolves(rs, list[l]) && Target(rs, list[l]) == Target(records, list[l])
    {
      ListAttrTarget(vol, base, records, list, r, l);
    }
  }

  lemma ListAttrTarget(vol: Volume, base: nat, records: Records, list: seq<Entry>, r: Rec, l: nat)
    requires Linked(vol, base, records, list) && RecOk(vol, r) && SameButList(records[base], r) && l < |list|
    ensures var rs, e := records[base := r], list[l];
            Resolves(records, e) && Resolves(rs, e) && Target(rs, e) == Target(records, e)
  {
    hide RecOk, WellFormed, EntryOf, Anon, ListSorted, AttrsListed, EntriesDistinct, ExtentsOk;
    var rs, e := records[base := r], list[l];
    assert Resolves(records, e);
    assert AllRecOk(vol, rs);
    FormedIn(vol, records, e.mref);
    FormedIn(vol, rs, e.mref);
    var t := Target(records, e);
    TargetMatches(vol, records, e);
    EntryFields(e.mref, t);
    TargetIs(rs, e, t);
  }

  // ----- Adding one attribute and its entry

  /** `r` is the record `ref`, new or already there, with the attribute `b` added to it. */
  ghost predicate Adds(vol: Volume, records: Records, ref: nat, r: Rec, b: Blob) {
    && RecOk(vol, r) && WellFormed(b) && AType(b) != AT_ATTRIBUTE_LIST
    && (ref !in records ==> r.attrs == [b])
    && (ref in records ==>
          && AllWellFormed(records[ref].attrs)
          && exists i :: 0 <= i <= |records[ref].attrs| && r.attrs == With(records[ref].attrs, i, b))
  }

  ghost function AddedEntry(list: seq<Entry>, k: nat, e: Entry): (r: seq<Entry>)
    requires k <= |list|
  {
    list[..k] + [e] + list[k..]
  }

  lemma InWith(bs: seq<Blob>, i: nat, b: Blob)
    requires i <= |bs|
    ensures forall c :: c in With(bs, i, b) <==> c == b || c in bs
  {
    var cs := With(bs, i, b);
    assert cs[i] == b;
    assert bs == bs[..i] + bs[i..];
  }

  lemma InstanceIsNew(bs: seq<Blob>, i: nat, b: Blob, c: Blob)
    requires i <= |bs| && AllWellFormed(With(bs, i, b)) && InstancesDistinct(With(bs, i, b)) && c in bs
    ensures WellFormed(b) && WellFormed(c) && Instance(c) != Instance(b)
  {
    hide WellFormed, Instance;
    var cs := With(bs, i, b);
    var j :| 0 <= j < |bs| && bs[j] == c;
    assert cs[i] == b && cs[if j < i then j else j + 1] == c;
  }

  lemma AddsMembers(vol: Volume, records: Records, ref: nat, r: Rec, b: Blob)
    requires Adds(vol, records, ref, r, b)
    ensures WellFormed(b) && b in r.attrs
    ensures ref in records ==>
              (forall c :: c in r.attrs <==> c == b || c in records[ref].attrs) &&
              (forall c :: c in records[ref].attrs ==> WellFormed(c) && Instance(c) != Instance(b))
  {
    hide WellFormed, Sorted, Instance, InstancesDistinct, InstancesBelow, Flatten, With;
    if ref in records {
      var bs := records[ref].attrs;
      var i :| 0 <= i <= |bs| && r.attrs == With(bs, i, b);
      InWith(bs, i, b);
      forall c | c in bs
        ensures WellFormed(c) && Instance(c) != Instance(b)
      {
        InstanceIsNew(bs, i, b, c);
      }
    }
  }

  lemma AddKeeps(vol: Volume, base: nat, records: Records, list: seq<Entry>, ref: nat, r: Rec, b: Blob, k: nat)
    requires Linked(vol, base, records, list) && Adds(vol, records, ref, r, b) && k <= |list|
    requires ListSorted(vol, AddedEntry(list, k, EntryOf(ref, b)))
    ensures var rs, es := records[ref := r], AddedEntry(list, k, EntryOf(ref, b));
            && Linked(vol, base, rs, es)
            && Contents(rs, es) == Contents(records, list)[..k] + [Anon(b)] + Contents(records, list)[k..]
  {
    hide RecOk, WellFormed, EntryOf, Anon, EntryLe, ListSorted, Adds, Target, AttrsListed, EntriesDistinct, ExtentsOk;
    AddsMembers(vol, records, ref, r, b);
    var e := EntryOf(ref, b);
    var rs, es := records[ref := r], AddedEntry(list, k, e);
    AddRecords(vol, base, records, list, ref, r, b);
    AddListed(vol, base, records, list, ref, r, b, k);
    forall l | 0 <= l < |es|
      ensures Resolves(rs, es[l])
      ensures Target(rs, es[l]) == if l == k then b else Target(records, list[if l < k then l else l - 1])
    {
      if l == k {
        AddTargetNew(vol, base, records, list, ref, r, b);
      } else {
        AddTarget(vol, base, records, list, ref, r, b, if l < k then l else l - 1);
      }
    }
    AddDistinct(vol, base, records, list, ref, r, b, k);
  }

  lemma AddRecords(vol: Volume, base: nat, records: Records, list: seq<Entry>, ref: nat, r: Rec, b: Blob)
    requires Linked(vol, base, records, list) && Adds(vol, records, ref, r, b)
    ensures AllRecOk(vol, records[ref := r]) && ExtentsOk(base, records[ref := r])
  {
    hide RecOk, WellFormed, Sorted, EntriesResolve, EntriesDistinct, AttrsListed, ListSorted;
    AddsMembers(vol, records, ref, r, b);
    var rs := records[ref := r];
    assert AllRecOk(vol, rs);
    FormedIn(vol, rs, ref);
    if ref in records {
      FormedIn(vol, records, ref);
    }
  }

  lemma AddListed(vol: Volume, base: nat, records: Records, list: seq<Entry>, ref: nat, r: Rec, b: Blob, k: nat)
    requires Linked(vol, base, records, list) && Adds(vol, records, ref, r, b) && k <= |list|
    requires AllRecOk(vol, records[ref := r])
    ensures AttrsListed(records[ref := r], AddedEntry(list, k, EntryOf(ref, b)))
  {
    hide RecOk, WellFormed, Sorted, EntriesResolve, EntriesDistinct, ListSorted, EntryOf, ExtentsOk, Adds;
    AddsMembers(vol, records, ref, r, b);
    var e := EntryOf(ref, b);
    var rs, es := records[ref := r], AddedEntry(list, k, e);
    assert es[k] == e;
    assert forall x :: x in list ==> x in es;
    forall x | x in rs
      ensures AllWellFormed(rs[x].attrs) && Listed(x, rs[x].attrs, es)
    {
      FormedIn(vol, rs, x);
      if x in records {
        FormedIn(vol, records, x);
        assert Listed(x, records[x].attrs, list);
      } else {
        NewRecordOnly(vol, records, ref, r, b);
      }
    }
  }

  lemma NewRecordOnly(vol: Volume, records: Records, ref: nat, r: Rec, b: Blob)
    requires Adds(vol, records, ref, r, b) && ref !in records
    ensures r.attrs == [b]
  {
  }

  lemma AddTargetNew(vol: Volume, base: nat, records: Records, list: seq<Entry>, ref: nat, r: Rec, b: Blob)
    requires Adds(vol, records, ref, r, b)
    ensures Resolves(records[ref := r], EntryOf(ref, b)) && Target(records[ref := r], EntryOf(ref, b)) == b
  {
    hide WellFormed, Sorted;
    AddsMembers(vol, records, ref, r, b);
    TargetIs(records[ref := r], EntryOf(ref, b), b);
  }

  lemma AddTarget(vol: Volume, base: nat, records: Records, list: seq<Entry>, ref: nat, r: Rec, b: Blob, l: nat)
    requires Linked(vol, base, records, list) && Adds(vol, records, ref, r, b) && l < |list|
    requires AllRecOk(vol, records[ref := r])
    ensures Resolves(records, list[l]) && Resolves(records[ref := r], list[l])
    ensures Target(records[ref := r], list[l]) == Target(records, list[l])
  {
    hide RecOk, WellFormed, Sorted, EntriesDistinct, AttrsListed, ListSorted, EntryOf, ExtentsOk, Adds;
    AddsMembers(vol, records, ref, r, b);
    var rs, e := records[ref := r], list[l];
    assert Resolves(records, e);
    FormedIn(vol, records, e.mref);
    FormedIn(vol, rs, e.mref);
    TargetMatches(vol, records, e);
    TargetIs(rs, e, Target(records, e));
  }

  lemma AddDistinct(vol: Volume, base: nat, records: Records, list: seq<Entry>, ref: nat, r: Rec, b: Blob, k: nat)
    requires Linked(vol, base, records, list) && Adds(vol, records, ref, r, b) && k <= |list|
    ensures EntriesDistinct(AddedEntry(list, k, EntryOf(ref, b)))
  {
    hide RecOk, WellFormed, Sorted, AttrsListed, ListSorted, ExtentsOk, Adds, AName, LowestVcn;
    AddsMembers(vol, records, ref, r, b);
    var e := EntryOf(ref, b);
    var es := AddedEntry(list, k, e);
    forall l | 0 <= l < |list|
      ensures list[l].mref != e.mref || list[l].instance != e.instance
    {
      assert Resolves(records, list[l]);
    }
    assert forall l :: 0 <= l < |es| ==> es[l] == if l < k then list[l] else if l == k then e else list[l - 1];
  }

  // ----- Removing one attribute and its entry

  /** The records without attribute `i` of record `ref`; an extent record left empty is freed. */
  ghost function RemovedRecords(records: Records, base: nat, ref: nat, i: nat): (r: Records)
    requires ref in records && i < |records[ref].attrs|
  {
    var rec := records[ref];
    if ref != base && |rec.attrs| == 1 then records - {ref} else records[ref := rec.(attrs := Without(rec.attrs, i))]
  }

  ghost function RemovedEntry(list: seq<Entry>, k: nat): (r: seq<Entry>)
    requires k < |list|
  {
    list[..k] + list[k + 1..]
  }

  ghost predicate CanRemove(vol: Volume, base: nat, records: Records, list: seq<Entry>, ref: nat, i: nat, k: nat) {
    && Linked(vol, base, records, list)
    && ref in records && i < |records[ref].attrs|
    && k < |list| && list[k] == EntryOf(ref, records[ref].attrs[i]) && list[k].atype != AT_ATTRIBUTE_LIST
  }

  /** Exactly the attribute removed is gone, with its record if that is left empty. */
  lemma RemoveMembers(vol: Volume, base: nat, records: Records, ref: nat, i: nat)
    requires AllRecOk(vol, records) && ref in records && i < |records[ref].attrs|
    ensures var rs := RemovedRecords(records, base, ref, i);
            && (forall x :: x in rs ==> x in records && (x != ref ==> rs[x] == records[x]))
            && (forall x :: x in records && x != ref ==> x in rs)
            && (ref in rs ==> forall b :: b in rs[ref].attrs <==> b in records[ref].attrs && b != records[ref].attrs[i])
            && (ref !in rs ==> ref != base && forall b :: b in records[ref].attrs ==> b == records[ref].attrs[i])
  {
    hide RecOk, WellFormed, Without;
    InWithoutOf(vol, records, ref, i);
  }

  lemma RemoveRecordsOk(vol: Volume, base: nat, records: Records, list: seq<Entry>, ref: nat, i: nat, k: nat)
    requires CanRemove(vol, base, records, list, ref, i, k)
    ensures var rs := RemovedRecords(records, base, ref, i);
            base in rs && AllRecOk(vol, rs) && ExtentsOk(base, rs)
  {
    hide RecOk, Sorted, EntriesResolve, EntriesDistinct, AttrsListed, ListSorted, WellFormed, EntryOf, RemovedRecords,
         NoListAttr;
    var rs := RemovedRecords(records, base, ref, i);
    RemoveMembers(vol, base, records, ref, i);
    forall x | x in rs
      ensures RecOk(vol, rs[x]) && (x != base ==> rs[x].attrs != [] && NoListAttr(rs[x].attrs))
    {
      RemovedRecordOk(vol, base, records, ref, i, x);
    }
  }

  lemma RemovedRecordOk(vol: Volume, base: nat, records: Records, ref: nat, i: nat, x: nat)
    requires AllRecOk(vol, records) && ExtentsOk(base, records) && ref in records && i < |records[ref].attrs|
    requires x in RemovedRecords(records, base, ref, i)
    ensures var r := RemovedRecords(records, base, ref, i)[x];
            RecOk(vol, r) && (x != base ==> r.attrs != [] && NoListAttr(r.attrs))
  {
    hide RecOk, WellFormed;
    RecWithout(vol, records[ref], i);
    RemoveMembers(vol, base, records, ref, i);
  }

  lemma RemoveTarget(vol: Volume, base: nat, records: Records, list: seq<Entry>, ref: nat, i: nat, k: nat, l: nat)
    requires CanRemove(vol, base, records, list, ref, i, k) && l < |list| && l != k
    ensures var rs := RemovedRecords(records, base, ref, i);
            && Resolves(records, list[l]) && Resolves(rs, list[l])
            && Target(rs, list[l]) == Target(records, list[l])
  {
    hide RecOk, Sorted, AttrsListed, ListSorted, WellFormed, EntryOf, ExtentsOk, RemovedRecords;
    RemoveRecordsOk(vol, base, records, list, ref, i, k);
    RemoveMembers(vol, base, records, ref, i);
    var rs, e := RemovedRecords(records, base, ref, i), list[l];
    assert Resolves(records, e);
    FormedIn(vol, records, ref);
    FormedIn(vol, records, e.mref);
    var b, t := records[ref].attrs[i], Target(records, e);
    TargetMatches(vol, records, e);
    EntryFields(ref, b);
    EntryFields(e.mref, t);
    assert e.mref != ref || t != b;
    assert e.mref in rs && t in rs[e.mref].attrs;
    FormedIn(vol, rs, e.mref);
    TargetIs(rs, e, t);
  }

  lemma RemoveListed(vol: Volume, base: nat, records: Records, list: seq<Entry>, ref: nat, i: nat, k: nat, x: nat)
    requires CanRemove(vol, base, records, list, ref, i, k) && x in RemovedRecords(records, base, ref, i)
    ensures var rs := RemovedRecords(records, base, ref, i);
            AllWellFormed(rs[x].attrs) && Listed(x, rs[x].attrs, RemovedEntry(list, k))
  {
    hide RecOk, Sorted, ListSorted, WellFormed, EntryOf, ExtentsOk, RemovedRecords, EntriesResolve, EntriesDistinct;
    RemoveRecordsOk(vol, base, records, list, ref, i, k);
    RemoveMembers(vol, base, records, ref, i);
    var rs, es := RemovedRecords(records, base, ref, i), RemovedEntry(list, k);
    FormedIn(vol, records, ref);
    FormedIn(vol, rs, x);
    FormedIn(vol, records, x);
    var b := records[ref].attrs[i];
    assert Listed(x, records[x].attrs, list);
    forall c | c in rs[x].attrs && AType(c) != AT_ATTRIBUTE_LIST
      ensures EntryOf(x, c) in es
    {
      EntryFields(x, c);
      EntryFields(ref, b);
      if x == ref {
        OtherInstance(records[ref].attrs, b, c);
      }
      var l :| 0 <= l < |list| && list[l] == EntryOf(x, c);
      assert es[if l < k then l else l - 1] == list[l];
    }
  }

  lemma RemoveKeeps(vol: Volume, base: nat, records: Records, list: seq<Entry>, ref: nat, i: nat, k: nat)
    requires CanRemove(vol, base, records, list, ref, i, k)
    ensures var rs, es := RemovedRecords(records, base, ref, i), RemovedEntry(list, k);
            && Linked(vol, base, rs, es)
            && Contents(rs, es) == Contents(records, list)[..k] + Contents(records, list)[k + 1..]
  {
    hide RecOk, WellFormed, EntryOf, Anon, EntryLe, Target, ExtentsOk, RemovedRecords, Resolves, Listed;
    var rs, es := RemovedRecords(records, base, ref, i), RemovedEntry(list, k);
    RemoveRecordsOk(vol, base, records, list, ref, i, k);
    forall x | x in rs
      ensures AllWellFormed(rs[x].attrs) && Listed(x, rs[x].attrs, es)
    {
      RemoveListed(vol, base, records, list, ref, i, k, x);
    }
    assert forall l :: 0 <= l < |es| ==> es[l] == list[if l < k then l else l + 1];
    forall l | 0 <= l < |es|
      ensures Resolves(rs, es[l]) && Target(rs, es[l]) == Target(records, list[if l < k then l else l + 1])
    {
      RemoveTarget(vol, base, records, list, ref, i, k, if l < k then l else l + 1);
    }
  }

  // ----- Building the list of an inode that has none

  ghost function EntriesFor(base: nat, bs: seq<Blob>): (r: seq<Entry>)
    requires AllWellFormed(bs)
    ensures |r| == |bs|
  {
    seq(|bs|, i requires 0 <= i < |bs| => EntryOf(base, bs[i]))
  }

  /** A list with one entry for each attribute of the base record, in record order. */
  lemma BuildKeeps(vol: Volume, base: nat, records: Records)
    requires PlainInv(vol, base, records)
    requires forall b :: b in records[base].attrs ==> LowestVcn(b) == 0
    ensures var list := EntriesFor(base, records[base].attrs);
            && Linked(vol, base, records, list)
            && Contents(records, list) == AnonAll(records[base].attrs)
  {
    hide WellFormed, Anon, EntryLe, RecOk, EntryOf, Resolves, Target, LowestVcn, Sorted;
    FormedIn(vol, records, base);
    var bs := records[base].attrs;
    var list := EntriesFor(base, bs);
    forall k | 0 <= k < |list|
      ensures Resolves(records, list[k]) && Target(records, list[k]) == bs[k]
    {
      assert bs[k] in bs;
      EntryFields(base, bs[k]);
      TargetIs(records, list[k], bs[k]);
    }
    BuildOrder(vol, base, records);
    forall b | b in bs && AType(b) != AT_ATTRIBUTE_LIST
      ensures EntryOf(base, b) in list
    {
      var k :| 0 <= k < |bs| && bs[k] == b;
      assert list[k] == EntryOf(base, b);
    }
  }

  lemma BuildOrder(vol: Volume, base: nat, records: Records)
    requires PlainInv(vol, base, records)
    requires forall b :: b in records[base].attrs ==> LowestVcn(b) == 0
    ensures var list := EntriesFor(base, records[base].attrs);
            ListSorted(vol, list) && EntriesDistinct(list)
  {
    hide WellFormed, Flatten, LE16, LE32, AName, FileOrder, LowestVcn, Value;
    var bs := records[base].attrs;
    var list := EntriesFor(base, bs);
    forall k, l | 0 <= k < l < |list|
      ensures EntryLe(vol, list[k], list[l])
    {
      assert InOrder(vol, bs[k], bs[l]);
      assert LowestVcn(bs[k]) == LowestVcn(bs[l]) == 0;
    }
  }

  // ----- Dropping the list

  /** An extent record appears in the list. */
  lemma ExtentListed(vol: Volume, base: nat, records: Records, list: seq<Entry>, ref: nat) returns (k: nat)
    requires Linked(vol, base, records, list) && ref in records && ref != base
    ensures k < |list| && list[k].mref == ref
  {
    hide WellFormed, AName, LowestVcn, RecOk, EntriesResolve, EntriesDistinct, ListSorted, EntryOf;
    FormedIn(vol, records, ref);
    var b := records[ref].attrs[0];
    assert Listed(ref, records[ref].attrs, list);
    EntryFields(ref, b);
    k :| 0 <= k < |list| && list[k] == EntryOf(ref, b);
  }

  /** When every entry leads to the base record there are no extent records left. */
  lemma NoExtents(vol: Volume, base: nat, records: Records, list: seq<Entry>)
    requires Linked(vol, base, records, list)
    requires forall k :: 0 <= k < |list| ==> list[k].mref == base
    ensures records.Keys == {base}
  {
    hide Linked;
    assert base in records by {
      BaseIn(vol, base, records, list);
    }
    forall ref | ref in records
      ensures ref == base
    {
      if ref != base {
        var k := ExtentListed(vol, base, records, list, ref);
      }
    }
  }

  lemma BaseIn(vol: Volume, base: nat, records: Records, list: seq<Entry>)
    requires Linked(vol, base, records, list)
    ensures base in records
  {
  }

  /** `ts[k]` is the attribute that entry `k` names, and every one of the attributes `bs` is named. */
  ghost predicate Names(base: nat, bs: seq<Blob>, list: seq<Entry>, ts: seq<Blob>) {
    && AllWellFormed(bs) && InstancesDistinct(bs) && |ts| == |list| && EntriesDistinct(list)
    && (forall k :: 0 <= k < |list| ==> ts[k] in bs && WellFormed(ts[k]) && EntryOf(base, ts[k]) == list[k])
    && (forall b :: b in bs ==> WellFormed(b) && EntryOf(base, b) in list)
  }

  lemma NamesRest(base: nat, bs: seq<Blob>, list: seq<Entry>, ts: seq<Blob>, i: nat)
    requires Names(base, bs, list, ts) && list != [] && i < |bs| && bs[i] == ts[0]
    ensures Names(base, Without(bs, i), list[1..], ts[1..])
  {
    hide WellFormed, EntryOf, Instance, InstancesDistinct, Without;
    InWithout(bs, i);
    EntryFields(base, ts[0]);
    forall k | 0 <= k < |list[1..]|
      ensures ts[1..][k] in Without(bs, i)
    {
      EntryFields(base, ts[k + 1]);
    }
    forall b | b in Without(bs, i)
      ensures EntryOf(base, b) in list[1..]
    {
      OtherInstance(bs, ts[0], b);
      EntryFields(base, b);
      var k :| 0 <= k < |list| && list[k] == EntryOf(base, b);
      assert list[1..][k - 1] == list[k];
    }
  }

  /** Distinct entries for all of the attributes `bs` name just these, each once. */
  lemma {:induction false} SameAttributes(base: nat, bs: seq<Blob>, list: seq<Entry>, ts: seq<Blob>)
    requires Names(base, bs, list, ts)
    ensures multiset(ts) == multiset(bs)
    decreases |list|
  {
    hide EntryOf, InstancesDistinct, Without, WellFormed, EntriesDistinct;
    if list == [] {
      if bs != [] {
        NamedAtAll(base, bs, list, ts);
      }
    } else {
      var i :| 0 <= i < |bs| && bs[i] == ts[0];
      NamesRest(base, bs, list, ts, i);
      SameAttributes(base, Without(bs, i), list[1..], ts[1..]);
      assert ts == [ts[0]] + ts[1..];
      WithoutBag(bs, i);
    }
  }

  lemma WithoutBag(bs: seq<Blob>, i: nat)
    requires i < |bs|
    ensures multiset(bs) == multiset(Without(bs, i)) + multiset{bs[i]}
  {
    assert bs == bs[..i] + [bs[i]] + bs[i + 1..];
  }

  lemma NamedAtAll(base: nat, bs: seq<Blob>, list: seq<Entry>, ts: seq<Blob>)
    requires Names(base, bs, list, ts) && bs != []
    ensures list != []
  {
    assert bs[0] in bs;
  }

  /** An attribute deleted without its entry: the entry leads nowhere. */
  lemma LostEntry(vol: Volume, base: nat, records: Records, list: seq<Entry>, ref: nat, i: nat, k: nat)
    requires Linked(vol, base, records, list) && ref in records && i < |records[ref].attrs| && k < |list|
    requires WellFormed(records[ref].attrs[i]) && list[k] == EntryOf(ref, records[ref].attrs[i])
    ensures var rs := records[ref := records[ref].(attrs := Without(records[ref].attrs, i))];
            !Resolves(rs, list[k]) && !Linked(vol, base, rs, list)
  {
    hide WellFormed, ListSorted, EntriesDistinct, AttrsListed, ExtentsOk;
    var bs := records[ref].attrs;
    var cs := Without(bs, i);
    FormedIn(vol, records, ref);
    EntryFields(ref, bs[i]);
    forall j | 0 <= j < |cs|
      ensures EntryOf(ref, cs[j]) != list[k]
    {
      var l := if j < i then j else j + 1;
      assert cs[j] == bs[l] && WellFormed(bs[l]);
      EntryFields(ref, bs[l]);
    }
  }
}
