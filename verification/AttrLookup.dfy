/** Looking up an attribute of an inode (`ntfs_attr_lookup`, kext/ntfs_attr.c), with or without an attribute list, in
    terms of the attributes that the inode has. */
module AttrLookup {
  import opened Errno
  import opened Bytes
  import opened Collate
  import opened AttrArea
  import opened Attr
  import opened AttrSearch
  import opened InodeState
  import opened InodeSteps
  import opened ListLookup
  import opened Insertion

  /** One of the attributes is as asked for. */
  ghost predicate Holds(vol: Volume, q: Query, attrs: seq<Blob>) {
    exists i :: 0 <= i < |attrs| && WellFormed(attrs[i]) && Matches(vol, q, attrs[i])
  }

  /** The question is for one attribute by type and a name without NUL, possibly by value, and not for the list itself.
      On a volume that ignores case, attributes so named are spelled alike. */
  ghost predicate WellPut(vol: Volume, q: Query, attrs: seq<Blob>)
    ensures WellPut(vol, q, attrs) ==> q.atype != AT_ATTRIBUTE_LIST
  {
    && AllWellFormed(attrs) && Askable(vol, attrs, q) && CaseUnique(vol, attrs, q)
    && !q.name.AnyName? && q.atype != AT_ATTRIBUTE_LIST
  }

  /** The instance number makes no difference. */
  lemma AnonLike(vol: Volume, q: Query, b: Blob)
    requires WellFormed(b)
    ensures WellFormed(Anon(b)) && AType(Anon(b)) == AType(b) && AName(Anon(b)) == AName(b)
    ensures NonResident(Anon(b)) == NonResident(b)
    ensures Matches(vol, q, Anon(b)) <==> Matches(vol, q, b)
    ensures NamedAs(vol, Anon(b), q) <==> NamedAs(vol, b, q)
  {
    hide WellFormed, AName, Value, LE16, LE32, NameMatches, WithInstance;
    WithInstanceKeeps(b, 0);
  }

  // ----- Without a list

  lemma PlainLookup(vol: Volume, bs: seq<Blob>, q: Query, err: int, pos: nat)
    requires AllWellFormed(bs) && Sorted(vol, bs) && WellPut(vol, q, AnonAll(bs))
    requires Answers(vol, bs, 0, q, false, err, pos)
    ensures err == 0 || err == ENOENT
    ensures err == 0 <==> Holds(vol, q, AnonAll(bs))
    ensures err == 0 ==> pos < |bs| && Matches(vol, q, bs[pos])
  {
    hide Judge, Matches, NamedAs, Sorted, Legal, NoNul, Collatable, AName, LE32, LE16, NonResident, Anon, Answers;
    forall i | 0 <= i < |bs|
      ensures AnonAll(bs)[i] == Anon(bs[i]) && AType(Anon(bs[i])) == AType(bs[i]) && AName(Anon(bs[i])) == AName(bs[i])
      ensures NonResident(Anon(bs[i])) == NonResident(bs[i]) && WellFormed(Anon(bs[i]))
      ensures Matches(vol, q, Anon(bs[i])) <==> Matches(vol, q, bs[i])
      ensures NamedAs(vol, Anon(bs[i]), q) <==> NamedAs(vol, bs[i], q)
    {
      AnonLike(vol, q, bs[i]);
    }
    assert Askable(vol, bs, q);
    assert CaseUnique(vol, bs, q);
    SearchIsExhaustive(vol, bs, 0, q, err, pos);
    if i :| 0 <= i < |bs| && Matches(vol, q, bs[i]) {
      assert Matches(vol, q, AnonAll(bs)[i]);
    }
  }

  // ----- With a list

  /** An attribute in a record is one of the contents. */
  lemma InContents(vol: Volume, base: nat, records: Records, list: seq<Entry>, ref: nat, b: Blob) returns (k: nat)
    requires Linked(vol, base, records, list) && OfInode(records, ref, b) && WellFormed(b)
    requires AType(b) != AT_ATTRIBUTE_LIST
    ensures k < |list| && Contents(records, list)[k] == Anon(b) && list[k] == EntryOf(ref, b)
  {
    hide WellFormed, RecOk, Anon, EntryOf, ListSorted, EntriesDistinct, ExtentsOk;
    FormedIn(vol, records, ref);
    assert Listed(ref, records[ref].attrs, list);
    k :| 0 <= k < |list| && list[k] == EntryOf(ref, b);
    EntryFields(ref, b);
    TargetIs(records, list[k], b);
  }

  /** What is well put to the contents is well put to the base record. */
  lemma BaseWellPut(vol: Volume, base: nat, records: Records, list: seq<Entry>, q: Query)
    requires Linked(vol, base, records, list) && WellPut(vol, q, Contents(records, list))
    ensures AllWellFormed(records[base].attrs) && Askable(vol, records[base].attrs, q)
    ensures CaseUnique(vol, records[base].attrs, q)
  {
    hide RecOk, Anon, EntryOf, Linked, Contents, NamedAs, AName, LE32, LE16, NonResident, Legal, NoNul, Collatable;
    LinkedBase(vol, base, records, list);
    var bs, cs := records[base].attrs, Contents(records, list);
    forall i | 0 <= i < |bs| && AType(bs[i]) == q.atype
      ensures exists k :: 0 <= k < |cs| && cs[k] == Anon(bs[i])
    {
      assert OfInode(records, base, bs[i]);
      var k := InContents(vol, base, records, list, base, bs[i]);
    }
    forall i | 0 <= i < |bs| && AType(bs[i]) == q.atype && q.val.Some?
      ensures !NonResident(bs[i])
    {
      AnonLike(vol, q, bs[i]);
    }
    forall i, j | 0 <= i < |bs| && 0 <= j < |bs| && NamedAs(vol, bs[i], q) && NamedAs(vol, bs[j], q)
      ensures AName(bs[i]) == AName(bs[j])
    {
      NamedType(vol, bs[i], q);
      NamedType(vol, bs[j], q);
      AnonLike(vol, q, bs[i]);
      AnonLike(vol, q, bs[j]);
    }
  }

  lemma NamedType(vol: Volume, b: Blob, q: Query)
    requires WellFormed(b) && NamedAs(vol, b, q)
    ensures AType(b) == q.atype
  {
  }

  /** The entries asked for are spelled alike. */
  lemma ListOneName(vol: Volume, base: nat, records: Records, list: seq<Entry>, q: Query)
    requires Linked(vol, base, records, list) && WellPut(vol, q, Contents(records, list))
    ensures OneName(vol, list, q)
  {
    hide RecOk, Anon, ListSorted, EntriesDistinct, AttrsListed, ExtentsOk, AName, LE32, LE16, LowestVcn, NameMatches,
         Askable, Target;
    var cs := Contents(records, list);
    forall k | 0 <= k < |list| && Asked(vol, list, q, k)
      ensures NamedAs(vol, cs[k], q) && AName(cs[k]) == list[k].name
    {
      assert Resolves(records, list[k]);
      TargetMatches(vol, records, list[k]);
      AnonLike(vol, q, Target(records, list[k]));
    }
  }

  lemma ListedLookup(vol: Volume, base: nat, records: Records, list: seq<Entry>, q: Query, vcn: nat, err: int, k: nat)
    requires Linked(vol, base, records, list) && WellPut(vol, q, Contents(records, list)) && (q.val.Some? ==> vcn == 0)
    requires ListAnswers(vol, records, list, q, vcn, err, k)
    ensures err == 0 || err == ENOENT
    ensures err == 0 <==> Holds(vol, q, Contents(records, list))
    ensures err == 0 ==> k < |list| && Matches(vol, q, Target(records, list[k]))
    ensures err == 0 && q.val.None? ==> BestExtent(vol, records, q, vcn, Target(records, list[k]))
  {
    hide WellFormed, RecOk, Linked, Anon, ListAnswers, BestExtent, Matches, Target, Legal, NoNul, Collatable, Contents,
         OneName, LE32;
    LinkedBase(vol, base, records, list);
    ListOneName(vol, base, records, list, q);
    if q.val.None? {
      LookupIsFlatSearch(vol, base, records, list, q, vcn, err, k);
    } else {
      ValueLookupIsFlatSearch(vol, base, records, list, q, err, k);
    }
    HoldsFlat(vol, base, records, list, q);
  }

  /** The contents hold it if and only if some record does. */
  lemma HoldsFlat(vol: Volume, base: nat, records: Records, list: seq<Entry>, q: Query)
    requires Linked(vol, base, records, list) && q.atype != AT_ATTRIBUTE_LIST
    ensures Holds(vol, q, Contents(records, list)) <==>
              exists ref, c :: OfInode(records, ref, c) && WellFormed(c) && Matches(vol, q, c)
  {
    hide WellFormed, RecOk, Anon, ListSorted, EntriesDistinct, AttrsListed, ExtentsOk, Target, NameMatches, AName, LE32,
         NonResident, Value;
    var cs := Contents(records, list);
    if i :| 0 <= i < |cs| && WellFormed(cs[i]) && Matches(vol, q, cs[i]) {
      assert Resolves(records, list[i]);
      var b := Target(records, list[i]);
      assert cs[i] == Anon(b);
      AnonLike(vol, q, b);
      assert OfInode(records, list[i].mref, b);
    }
    if ref, c :| OfInode(records, ref, c) && WellFormed(c) && Matches(vol, q, c) {
      var k := InContents(vol, base, records, list, ref, c);
      AnonLike(vol, q, c);
      assert Matches(vol, q, cs[k]);
    }
  }

  /** If the contents do not hold it, neither does the base record. */
  lemma BaseHoldsNot(vol: Volume, base: nat, records: Records, list: seq<Entry>, q: Query)
    requires Linked(vol, base, records, list) && q.atype != AT_ATTRIBUTE_LIST && !Holds(vol, q, Contents(records, list))
    ensures AllWellFormed(records[base].attrs)
    ensures forall i :: 0 <= i < |records[base].attrs| ==> !Matches(vol, q, records[base].attrs[i])
  {
    hide WellFormed, RecOk, Linked, Holds, Contents, Matches;
    LinkedBase(vol, base, records, list);
    HoldsFlat(vol, base, records, list, q);
    forall i | 0 <= i < |records[base].attrs|
      ensures !Matches(vol, q, records[base].attrs[i])
    {
      assert OfInode(records, base, records[base].attrs[i]);
    }
  }

  // ----- A new attribute

  /** No attribute differs from the new one in the case of the name only, and if a value was looked for all have one. */
  ghost predicate Spelled(vol: Volume, n: New, attrs: seq<Blob>)
    requires AllWellFormed(attrs)
  {
    forall i :: 0 <= i < |attrs| && AType(attrs[i]) == n.atype ==>
      && (!vol.caseSensitive && SameFolded(vol, AName(attrs[i]), n.name) ==> AName(attrs[i]) == n.name)
      && (n.val.Some? ==> !NonResident(attrs[i]))
  }

  lemma SpelledWellPut(vol: Volume, n: New, attrs: seq<Blob>)
    requires AllWellFormed(attrs) && Proper(vol, n) && Spelled(vol, n, attrs)
    ensures WellPut(vol, QueryFor(n), attrs)
  {
    hide AName, LE32, LE16, NonResident, Legal, NoNul, Collatable, Insertable;
    LegalParts(vol, n.name);
    forall i | 0 <= i < |attrs| && NamedAs(vol, attrs[i], QueryFor(n))
      ensures AName(attrs[i]) == n.name
    {
      if n.name != [] {
        SameNameFolded(vol, n.name, AName(attrs[i]));
      }
    }
  }

  lemma NotHeldAdmits(vol: Volume, n: New, attrs: seq<Blob>)
    requires AllWellFormed(attrs) && Spelled(vol, n, attrs) && !Holds(vol, QueryFor(n), attrs)
    ensures AllAdmit(vol, n, attrs)
  {
    hide AName, LE32, LE16, NonResident, Matches, SameFolded;
  }

  /** Once inserted it is there, and can be asked for. */
  lemma InsertedHolds(vol: Volume, n: New, attrs: seq<Blob>, after: seq<Blob>, k: nat)
    requires AllWellFormed(attrs) && Proper(vol, n) && Spelled(vol, n, attrs)
    requires k <= |attrs| && after == attrs[..k] + [BlobFor(n, 0)] + attrs[k..]
    ensures AllWellFormed(after) && Spelled(vol, n, after) && Holds(vol, QueryFor(n), after)
  {
    hide AName, LE32, LE16, Legal, NoNul, Collatable, Insertable, BlobFor, SameFolded, Value, ResidentLength;
    var b := BlobFor(n, 0);
    BlobForFields(vol, n, 0);
    BlobForValue(vol, n);
    assert forall i :: 0 <= i < |after| ==> after[i] == if i < k then attrs[i] else if i == k then b else attrs[i - 1];
    assert Matches(vol, QueryFor(n), after[k]);
  }

  lemma BlobForValue(vol: Volume, n: New)
    requires Proper(vol, n)
    ensures WellFormed(BlobFor(n, 0)) && !NonResident(BlobFor(n, 0)) && Value(BlobFor(n, 0)) == ValueFor(n)
  {
    hide ResidentBlob, LE16, LE32, AName, Value, WellFormed;
    ResidentBlobFields(n.atype, n.name, ValueFor(n), 0);
  }

  lemma PlainBase(vol: Volume, base: nat, records: Records)
    requires PlainInv(vol, base, records)
    ensures base in records && AllWellFormed(records[base].attrs) && Sorted(vol, records[base].attrs)
    ensures forall i :: 0 <= i < |records[base].attrs| ==> |records[base].attrs[i]| >= 24
  {
    hide WellFormed, Sorted, InstancesDistinct, InstancesBelow, InUse;
  }

  lemma FoundIsListed(vol: Volume, base: nat, records: Records, list: seq<Entry>, k: nat)
    requires Linked(vol, base, records, list) && k < |list|
    ensures Resolves(records, list[k])
    ensures WellFormed(Target(records, list[k])) && list[k] == EntryOf(list[k].mref, Target(records, list[k]))
  {
    hide WellFormed, RecOk, EntryOf, ListSorted, EntriesDistinct, AttrsListed, ExtentsOk, Target;
    assert Resolves(records, list[k]);
    TargetMatches(vol, records, list[k]);
  }

  // ----- An attribute deleted

  /** What is left when one attribute as asked for is taken away, in some order. */
  ghost predicate TakenFrom(vol: Volume, q: Query, before: seq<Blob>, after: seq<Blob>) {
    exists k :: 0 <= k < |before| && WellFormed(before[k]) && Matches(vol, q, before[k])
      && multiset(after) == multiset(Without(before, k))
  }

  lemma Taken(vol: Volume, q: Query, before: seq<Blob>, k: nat, after: seq<Blob>)
    requires k < |before| && WellFormed(before[k]) && Matches(vol, q, before[k])
    requires multiset(after) == multiset(before[..k] + before[k + 1..])
    ensures TakenFrom(vol, q, before, after)
  {
    hide WellFormed, Matches;
    assert Without(before, k) == before[..k] + before[k + 1..];
  }

  lemma TakenListed(vol: Volume, base: nat, records: Records, list: seq<Entry>, q: Query, ref: nat, pos: nat, k: nat)
    requires Linked(vol, base, records, list) && ref in records && pos < |records[ref].attrs|
    requires WellFormed(records[ref].attrs[pos])
    requires Matches(vol, q, records[ref].attrs[pos]) && q.atype != AT_ATTRIBUTE_LIST
    requires k < |list| && list[k] == EntryOf(ref, records[ref].attrs[pos])
    ensures CanRemove(vol, base, records, list, ref, pos, k)
    ensures WellFormed(Contents(records, list)[k]) && Matches(vol, q, Contents(records, list)[k])
  {
    hide WellFormed, RecOk, Anon, ListSorted, EntriesDistinct, AttrsListed, ExtentsOk, Target, NameMatches, AName, LE32,
         LE16, Value, NonResident, LowestVcn;
    var b := records[ref].attrs[pos];
    FormedIn(vol, records, ref);
    TargetIs(records, list[k], b);
    AnonLike(vol, q, b);
  }

  lemma TakenPlain(vol: Volume, q: Query, bs: seq<Blob>, i: nat, cs: seq<Blob>)
    requires AllWellFormed(bs) && i < |bs| && Matches(vol, q, bs[i]) && cs == Without(bs, i)
    ensures AllWellFormed(cs) && TakenFrom(vol, q, AnonAll(bs), AnonAll(cs))
  {
    hide WellFormed, Matches, Anon;
    AnonLike(vol, q, bs[i]);
    assert AnonAll(cs) == Without(AnonAll(bs), i);
    assert Matches(vol, q, AnonAll(bs)[i]);
  }
}
