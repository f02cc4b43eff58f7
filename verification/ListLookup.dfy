/** Finding an attribute through the attribute list (`ntfs_attr_find_in_attribute_list`, kext/ntfs_attr.c).

    The search walks the sorted entries and skips an entry while the next one of the same attribute still starts
    at or below the vcn asked for. What it answers is compared with a search over all attributes of all records. */
module ListLookup {
  import opened Errno
  import opened Bytes
  import opened Collate
  import opened AttrArea
  import opened Attr
  import opened AttrSearch
  import opened InodeState
  import opened InodeSteps

  // ----- The search

  /** What the search makes of the name of an entry. */
  ghost function EntryName(vol: Volume, q: NameQuery, name: Name): (r: Verdict) {
    match q
    case AnyName => Found
    case Unnamed => if name == [] then Found else Past
    case Named(n) => NameVerdict(vol, n, name)
  }

  /** The next entry belongs to the same attribute and still fits the vcn. */
  ghost predicate NextFits(vol: Volume, list: seq<Entry>, vcn: nat, k: nat)
    requires k < |list|
  {
    && vcn != 0 && k + 1 < |list| && list[k + 1].vcn <= vcn && list[k + 1].atype == list[k].atype
    && |list[k + 1].name| == |list[k].name|
    && EqualUpToNul(View(vol, vol.caseSensitive, list[k + 1].name), View(vol, vol.caseSensitive, list[k].name))
  }

  ghost function JudgeEntry(vol: Volume, records: Records, list: seq<Entry>, q: Query, vcn: nat, k: nat): (r: Verdict)
    requires k < |list| && Resolves(records, list[k])
  {
    var e := list[k];
    if e.atype != q.atype then if e.atype < q.atype then Skip else Past
    else if EntryName(vol, q.name, e.name) != Found then EntryName(vol, q.name, e.name)
    else if NextFits(vol, list, vcn, k) then Skip
    else if q.val.None? || HasValue(Target(records, e), q.val.value) then Found
    else Skip
  }

  predicate HasValue(b: Blob, val: seq<byte>)
    requires WellFormed(b)
  {
    !NonResident(b) && Value(b) == val
  }

  /** The search stopped at entry `k`, the first it does not skip. */
  ghost predicate ListAnswers(vol: Volume, records: Records, list: seq<Entry>, q: Query, vcn: nat, err: int, k: nat)
    requires EntriesResolve(records, list)
  {
    && k <= |list|
    && (forall j :: 0 <= j < k ==> JudgeEntry(vol, records, list, q, vcn, j) == Skip)
    && (k < |list| ==> JudgeEntry(vol, records, list, q, vcn, k) != Skip)
    && err == if k < |list| && JudgeEntry(vol, records, list, q, vcn, k) == Found then 0 else ENOENT
  }

  /** The loop over the attributes of a record for the instance number of an entry. It ends at the attribute the entry
      describes, so the driver's checks for a mismatch cannot fail. */
  method FindInstance(vol: Volume, records: Records, e: Entry) returns (i: nat)
    requires AllRecOk(vol, records) && Resolves(records, e)
    ensures e.mref in records && i < |records[e.mref].attrs| && records[e.mref].attrs[i] == Target(records, e)
  {
    hide RecOk, WellFormed, AName, LowestVcn, LE16, LE32;
    var bs := records[e.mref].attrs;
    FormedIn(vol, records, e.mref);
    TargetMatches(vol, records, e);
    ghost var t :| 0 <= t < |bs| && bs[t] == Target(records, e);
    i := 0;
    while Instance(bs[i]) != e.instance
      invariant 0 <= i <= t
      decreases t - i
    {
      i := i + 1;
    }
  }

  /** The tests on the name of an entry. */
  method JudgeEntryName(vol: Volume, q: NameQuery, name: Name) returns (v: Verdict)
    ensures v == EntryName(vol, q, name)
  {
    hide NameVerdict;
    match q {
      case AnyName => v := Found;
      case Unnamed => v := if name != [] then Past else Found;
      case Named(n) => v := JudgeName(vol, n, name);
    }
  }

  /** The test whether to go on to the next entry of the same attribute. */
  method TestNext(vol: Volume, list: seq<Entry>, vcn: nat, k: nat) returns (r: bool)
    requires k < |list|
    ensures r <==> NextFits(vol, list, vcn, k)
  {
    hide EqualUpToNul;
    if vcn != 0 && k + 1 < |list| && list[k + 1].vcn <= vcn && list[k + 1].atype == list[k].atype {
      if |list[k + 1].name| == |list[k].name| {
        r := AreNamesEqual(vol, list[k + 1].name, list[k].name, vol.caseSensitive);
        return;
      }
    }
    r := false;
  }

  /** The loop over the entries. */
  method WalkList(vol: Volume, base: nat, records: Records, list: seq<Entry>, q: Query, vcn: nat)
    returns (err: int, k: nat, ref: nat, pos: nat)
    requires Linked(vol, base, records, list)
    ensures err == 0 || err == ENOENT
    ensures ListAnswers(vol, records, list, q, vcn, err, k)
    ensures err == 0 ==> k < |list| && ref == list[k].mref && ref in records && pos < |records[ref].attrs|
    ensures err == 0 ==> records[ref].attrs[pos] == Target(records, list[k])
  {
    hide RecOk, WellFormed, EntryOf, ListSorted, EntriesDistinct, AttrsListed, ExtentsOk, EntryName, NextFits, Resolves,
         Target, HasValue;
    k := 0;
    while k < |list|
      invariant 0 <= k <= |list|
      invariant forall j :: 0 <= j < k ==> JudgeEntry(vol, records, list, q, vcn, j) == Skip
    {
      var e := list[k];
      if e.atype < q.atype {
        k := k + 1;
        continue;
      }
      if e.atype > q.atype {
        return ENOENT, k, base, 0;
      }
      var v := JudgeEntryName(vol, q.name, e.name);
      NamesGiveVerdict(vol, q.name, e.name);
      if v == Past {
        return ENOENT, k, base, 0;
      }
      if v == Skip {
        k := k + 1;
        continue;
      }
      var next := TestNext(vol, list, vcn, k);
      if next {
        k := k + 1;
        continue;
      }
      var i := FindInstance(vol, records, e);
      if q.val.None? || HasValue(records[e.mref].attrs[i], q.val.value) {
        return 0, k, e.mref, i;
      }
      k := k + 1;
    }
    return ENOENT, k, base, 0;
  }

  lemma NamesGiveVerdict(vol: Volume, q: NameQuery, name: Name)
    ensures EntryName(vol, q, name) != Corrupt
  {
    if q.Named? {
      NameNeverCorrupt(vol, q.n, name);
    }
  }

  /** `ntfs_attr_find_in_attribute_list` with a fresh context. On success `k` is the entry and `ref`, `pos` the record
      and attribute it leads to; on ENOENT `k` and `pos` are where entry and attribute would have to be inserted. */
  method FindInList(vol: Volume, base: nat, records: Records, list: seq<Entry>, q: Query, vcn: nat)
    returns (err: int, k: nat, ref: nat, pos: nat)
    requires Linked(vol, base, records, list)
    ensures ListAnswers(vol, records, list, q, vcn, if err == 0 then 0 else ENOENT, k)
    ensures err == 0 ==> k < |list| && ref == list[k].mref && ref in records && pos < |records[ref].attrs|
    ensures err == 0 ==> records[ref].attrs[pos] == Target(records, list[k])
    ensures err != 0 ==> ref == base && GivesUp(vol, records[base].attrs, q, err, pos)
  {
    hide RecOk, WellFormed, Linked, Judge, Sorted, Target, ListAnswers;
    LinkedBase(vol, base, records, list);
    err, k, ref, pos := WalkList(vol, base, records, list, q, vcn);
    if err != 0 {
      ref := base;
      var found;
      err, found, pos := Enumerate(vol, records[base].attrs, q);
    }
  }

  /** Repeated searches in a record end at `pos`, where the search gives up. */
  ghost predicate GivesUp(vol: Volume, bs: seq<Blob>, q: Query, err: int, pos: nat)
    requires forall i :: 0 <= i < |bs| ==> |bs[i]| >= 24
  {
    && pos <= |bs|
    && (forall i :: 0 <= i < pos ==> Judge(vol, q, false, bs[i]) == Skip || Judge(vol, q, false, bs[i]) == Found)
    && (pos < |bs| ==> Judge(vol, q, false, bs[pos]) == Past || Judge(vol, q, false, bs[pos]) == Corrupt)
    && err == if pos < |bs| && Judge(vol, q, false, bs[pos]) == Corrupt then EIO else ENOENT
  }

  /** If nothing matches that is where a single search would end. */
  lemma EndOfSearch(vol: Volume, q: Query, bs: seq<Blob>, err: int, pos: nat)
    requires AllWellFormed(bs) && Askable(vol, bs, q) && GivesUp(vol, bs, q, err, pos)
    requires forall i :: 0 <= i < |bs| ==> !Matches(vol, q, bs[i])
    ensures err == ENOENT && Answers(vol, bs, 0, q, false, ENOENT, pos)
  {
    hide WellFormed, Judge, Matches, Legal, LE32, NonResident;
    forall i | 0 <= i < |bs|
      ensures Judge(vol, q, false, bs[i]) != Found && Judge(vol, q, false, bs[i]) != Corrupt
    {
      JudgeMeans(vol, q, bs[i]);
    }
  }

  lemma LinkedBase(vol: Volume, base: nat, records: Records, list: seq<Entry>)
    requires Linked(vol, base, records, list)
    ensures base in records && EntriesResolve(records, list)
    ensures AllWellFormed(records[base].attrs) && Sorted(vol, records[base].attrs)
    ensures forall i :: 0 <= i < |records[base].attrs| ==> |records[base].attrs[i]| >= 24
  {
    hide WellFormed;
  }

  // ----- What it finds

  /** Entry `k` is of the type and name looked for. */
  ghost predicate Asked(vol: Volume, list: seq<Entry>, q: Query, k: nat)
    requires k < |list|
  {
    list[k].atype == q.atype && NameMatches(vol, q.name, list[k].name)
  }

  /** The entries looked for are all of one attribute: they agree in the case of the name, too. */
  ghost predicate OneName(vol: Volume, list: seq<Entry>, q: Query) {
    forall i, j :: 0 <= i < |list| && 0 <= j < |list| && Asked(vol, list, q, i) && Asked(vol, list, q, j) ==>
      list[i].name == list[j].name
  }

  /** The question is for one attribute, by a name without NUL; a value is not asked for together with a vcn. */
  ghost predicate Precise(vol: Volume, q: Query, vcn: nat) {
    !q.name.AnyName? && (q.name.Named? ==> NoNul(vol, q.name.n)) && (q.val.Some? ==> vcn == 0)
  }

  /** What the verdict says: an entry that is asked for is never past the place, and one that is past the place has
      everything asked for in front of it. */
  lemma JudgeEntryMeans(vol: Volume, records: Records, list: seq<Entry>, q: Query, vcn: nat, k: nat)
    requires Precise(vol, q, vcn) && k < |list| && Resolves(records, list[k])
    ensures var v := JudgeEntry(vol, records, list, q, vcn, k);
            && v != Corrupt
            && (v == Found ==> Asked(vol, list, q, k))
            && (Asked(vol, list, q, k) ==> v != Past)
            && (Asked(vol, list, q, k) && q.val.None? ==> (v == Skip <==> NextFits(vol, list, vcn, k)))
            && (Asked(vol, list, q, k) && q.val.Some? ==>
                 (v == Found <==> HasValue(Target(records, list[k]), q.val.value)))
  {
    hide NameVerdict, Resolves, Target, HasValue, EqualUpToNul, Legal;
    if q.name.Named? {
      NameVerdictMeans(vol, q.name.n, list[k].name);
      NameNeverCorrupt(vol, q.name.n, list[k].name);
    }
  }

  lemma NextIsAsked(vol: Volume, list: seq<Entry>, q: Query, vcn: nat, k: nat)
    requires Precise(vol, q, vcn) && k < |list| && Asked(vol, list, q, k)
    ensures NextFits(vol, list, vcn, k) <==>
              vcn != 0 && k + 1 < |list| && list[k + 1].vcn <= vcn && Asked(vol, list, q, k + 1)
  {
    hide Legal;
    if k + 1 < |list| && |list[k + 1].name| == |list[k].name| && q.name.Named? {
      SameUpToNul(View(vol, vol.caseSensitive, list[k + 1].name), View(vol, vol.caseSensitive, list[k].name));
      NoNulView(vol, q.name.n);
    }
  }

  lemma NoNulView(vol: Volume, n: Name)
    requires NoNul(vol, n)
    ensures forall i :: 0 <= i < |n| ==> View(vol, vol.caseSensitive, n)[i] != 0
  {
  }

  lemma SameUpToNul(a: Name, b: Name)
    requires |a| == |b|
    ensures (forall i :: 0 <= i < |b| ==> b[i] != 0) ==> (EqualUpToNul(a, b) <==> a == b)
  {
    if (forall i :: 0 <= i < |b| ==> b[i] != 0) && EqualUpToNul(a, b) {
      var i := 0;
      while i < |a|
        invariant 0 <= i <= |a|
        invariant forall k :: 0 <= k < i ==> a[k] == b[k]
      {
        i := i + 1;
      }
    }
  }

  /** Behind an entry that is past the place nothing is asked for. */
  lemma NothingAskedBehind(vol: Volume, records: Records, list: seq<Entry>, q: Query, vcn: nat, i: nat, j: nat)
    requires Precise(vol, q, vcn) && ListSorted(vol, list) && i < j < |list| && Resolves(records, list[i])
    requires JudgeEntry(vol, records, list, q, vcn, i) == Past
    ensures !Asked(vol, list, q, j)
  {
    hide NameVerdict, Resolves, Target, HasValue, EqualUpToNul, Legal, FileOrder, SameName;
    var x, y := list[i].name, list[j].name;
    assert EntryLe(vol, list[i], list[j]);
    FileOrderTotal(vol, x, y, y);
    match q.name {
      case Unnamed => EmptyFirst(vol, x);
      case Named(n) =>
        NameVerdictMeans(vol, n, x);
        if list[i].atype == q.atype == list[j].atype {
          NamesBehind(vol, n, x, y);
        }
    }
  }

  /** The entries asked for stand together and are ordered by vcn. */
  lemma AskedTogether(vol: Volume, list: seq<Entry>, q: Query, i: nat, l: nat, j: nat)
    requires ListSorted(vol, list) && OneName(vol, list, q) && i <= l <= j < |list|
    requires Asked(vol, list, q, i) && Asked(vol, list, q, j)
    ensures Asked(vol, list, q, l) && list[i].vcn <= list[l].vcn <= list[j].vcn
  {
    hide FileOrder, SameName;
    var x, y := list[i].name, list[l].name;
    FileOrderTotal(vol, x, y, x);
    assert i < l ==> EntryLe(vol, list[i], list[l]);
    assert l < j ==> EntryLe(vol, list[l], list[j]);
  }

  /** From an entry asked for, skipping goes on to entries asked for. */
  lemma {:induction false} SkipsTo(vol: Volume, records: Records, list: seq<Entry>, q: Query, vcn: nat, j: nat, k: nat)
    requires Precise(vol, q, vcn) && q.val.None? && EntriesResolve(records, list) && j < k <= |list|
    requires Asked(vol, list, q, j)
    requires forall i :: j <= i < k ==> JudgeEntry(vol, records, list, q, vcn, i) == Skip
    ensures k < |list| && Asked(vol, list, q, k) && list[k].vcn <= vcn
    decreases k
  {
    hide JudgeEntry, Asked, NextFits, Resolves;
    if j < k - 1 {
      SkipsTo(vol, records, list, q, vcn, j, k - 1);
    }
    JudgeEntryMeans(vol, records, list, q, vcn, k - 1);
    NextIsAsked(vol, list, q, vcn, k - 1);
  }

  /** Looked up without a value: ENOENT exactly when no entry is asked for; otherwise an entry whose vcn is the greatest
      among those that do not exceed the vcn given, and the first of all if every one does. */
  lemma ListSearchExact(vol: Volume, records: Records, list: seq<Entry>, q: Query, vcn: nat, err: int, k: nat)
    requires EntriesResolve(records, list) && ListSorted(vol, list) && OneName(vol, list, q)
    requires Precise(vol, q, vcn) && q.val.None? && ListAnswers(vol, records, list, q, vcn, err, k)
    ensures err == ENOENT <==> forall j :: 0 <= j < |list| ==> !Asked(vol, list, q, j)
    ensures err == 0 || err == ENOENT
    ensures err == 0 ==> k < |list| && Asked(vol, list, q, k)
    ensures err == 0 ==> forall j :: 0 <= j < |list| && Asked(vol, list, q, j) && list[j].vcn <= vcn ==>
              list[j].vcn <= list[k].vcn <= vcn
    ensures err == 0 && list[k].vcn > vcn ==>
              forall j :: 0 <= j < |list| && Asked(vol, list, q, j) ==> k <= j && list[k].vcn <= list[j].vcn
  {
    hide JudgeEntry, Asked, NextFits, Resolves, ListSorted, OneName;
    if k < |list| {
      JudgeEntryMeans(vol, records, list, q, vcn, k);
    }
    forall j | 0 <= j < |list| && Asked(vol, list, q, j)
      ensures err == 0 && (list[j].vcn <= vcn ==> list[j].vcn <= list[k].vcn <= vcn)
      ensures list[k].vcn > vcn ==> k <= j && list[k].vcn <= list[j].vcn
    {
      if j < k {
        SkipsTo(vol, records, list, q, vcn, j, k);
        AskedTogether(vol, list, q, j, j, k);
      } else if j == k {
        JudgeEntryMeans(vol, records, list, q, vcn, k);
      } else {
        AskedBehind(vol, records, list, q, vcn, err, k, j);
        AskedTogether(vol, list, q, k, k, j);
      }
    }
  }

  lemma AskedBehind(vol: Volume, records: Records, list: seq<Entry>, q: Query, vcn: nat, err: int, k: nat, j: nat)
    requires EntriesResolve(records, list) && ListSorted(vol, list) && OneName(vol, list, q)
    requires Precise(vol, q, vcn) && q.val.None? && ListAnswers(vol, records, list, q, vcn, err, k)
    requires k < j < |list| && Asked(vol, list, q, j)
    ensures err == 0 && Asked(vol, list, q, k) && (list[j].vcn <= vcn ==> list[j].vcn <= list[k].vcn <= vcn)
  {
    hide JudgeEntry, Asked, NextFits, Resolves, ListSorted, OneName;
    JudgeEntryMeans(vol, records, list, q, vcn, k);
    if JudgeEntry(vol, records, list, q, vcn, k) == Past {
      NothingAskedBehind(vol, records, list, q, vcn, k, j);
    } else {
      AskedTogether(vol, list, q, k, k + 1, j);
      AskedTogether(vol, list, q, k, k, j);
      NextIsAsked(vol, list, q, vcn, k);
    }
  }

  /** With a value: the first attribute asked for that holds it, and ENOENT exactly when there is none. */
  lemma ListValueExact(vol: Volume, records: Records, list: seq<Entry>, q: Query, err: int, k: nat)
    requires EntriesResolve(records, list) && ListSorted(vol, list)
    requires Precise(vol, q, 0) && q.val.Some? && ListAnswers(vol, records, list, q, 0, err, k)
    ensures err == 0 || err == ENOENT
    ensures err == 0 ==> k < |list| && Asked(vol, list, q, k) && HasValue(Target(records, list[k]), q.val.value)
    ensures forall j :: 0 <= j < |list| && j != k && (err == 0 ==> j < k) ==>
              !(Asked(vol, list, q, j) && HasValue(Target(records, list[j]), q.val.value))
    ensures err == ENOENT && k < |list| ==> !Asked(vol, list, q, k)
  {
    hide JudgeEntry, Asked, NextFits, Resolves, ListSorted, HasValue, Target;
    if k < |list| {
      JudgeEntryMeans(vol, records, list, q, 0, k);
    }
    forall j | 0 <= j < |list| && j != k && (err == 0 ==> j < k)
      ensures !(Asked(vol, list, q, j) && HasValue(Target(records, list[j]), q.val.value))
    {
      JudgeEntryMeans(vol, records, list, q, 0, j);
      if k < j {
        NothingAskedBehind(vol, records, list, q, 0, k, j);
      }
    }
  }

  /** When every extent asked for starts behind the vcn the search does not answer ENOENT but the first extent. */
  lemma FirstExtentAnyway(vol: Volume, records: Records, list: seq<Entry>, q: Query, vcn: nat, err: int, k: nat)
    requires EntriesResolve(records, list) && ListSorted(vol, list) && OneName(vol, list, q)
    requires Precise(vol, q, vcn) && q.val.None? && ListAnswers(vol, records, list, q, vcn, err, k)
    requires forall j :: 0 <= j < |list| && Asked(vol, list, q, j) ==> list[j].vcn > vcn
    ensures err == 0 <==> exists j :: 0 <= j < |list| && Asked(vol, list, q, j)
    ensures err == 0 ==>
              k < |list| && Asked(vol, list, q, k) && forall j :: 0 <= j < |list| && Asked(vol, list, q, j) ==> k <= j
  {
    hide Asked, Resolves, ListSorted, OneName, ListAnswers;
    ListSearchExact(vol, records, list, q, vcn, err, k);
  }

  /** A list whose only extent starts at vcn 10, asked for vcn 5. */
  lemma OnlyExtentAnyway(vol: Volume, records: Records, err: int, k: nat)
    requires var list := [Entry(AT_DATA, [], 10, 7, 0)];
             EntriesResolve(records, list) && ListAnswers(vol, records, list, Query(AT_DATA, Unnamed, None), 5, err, k)
    ensures err == 0 && k == 0
  {
    hide Resolves, Target;
    var list := [Entry(AT_DATA, [], 10, 7, 0)];
    assert JudgeEntry(vol, records, list, Query(AT_DATA, Unnamed, None), 5, 0) == Found;
  }

  // ----- The same as a search over all attributes

  /** An attribute of some record of the inode. */
  ghost predicate OfInode(records: Records, ref: nat, b: Blob) {
    ref in records && b in records[ref].attrs
  }

  lemma ListedAs(vol: Volume, base: nat, records: Records, list: seq<Entry>, q: Query, ref: nat, b: Blob)
    returns (j: nat)
    requires Linked(vol, base, records, list) && OfInode(records, ref, b) && WellFormed(b)
    requires Matches(vol, q, b) && q.atype != AT_ATTRIBUTE_LIST
    ensures j < |list| && Asked(vol, list, q, j) && list[j].vcn == LowestVcn(b) && list[j].mref == ref
    ensures Resolves(records, list[j]) && Target(records, list[j]) == b
  {
    hide WellFormed, RecOk, ListSorted, EntriesDistinct, EntriesResolve, ExtentsOk, NameMatches, Value, LE16, LE32,
         AName, LowestVcn;
    FormedIn(vol, records, ref);
    assert Listed(ref, records[ref].attrs, list);
    j :| 0 <= j < |list| && list[j] == EntryOf(ref, b);
    TargetIs(records, list[j], b);
  }

  lemma LeadsTo(vol: Volume, records: Records, list: seq<Entry>, q: Query, k: nat)
    requires AllRecOk(vol, records) && k < |list| && Resolves(records, list[k]) && Asked(vol, list, q, k)
    ensures var b := Target(records, list[k]);
            && OfInode(records, list[k].mref, b) && LowestVcn(b) == list[k].vcn
            && ((q.val.Some? ==> HasValue(b, q.val.value)) ==> Matches(vol, q, b))
  {
    hide WellFormed, RecOk, NameMatches, Value, LE16, LE32, AName, LowestVcn;
    TargetMatches(vol, records, list[k]);
  }

  /** The extent that starts last at or below `vcn` if one does, and else the first. */
  ghost predicate BestExtent(vol: Volume, records: Records, q: Query, vcn: nat, b: Blob)
    requires WellFormed(b)
  {
    && (LowestVcn(b) <= vcn <==>
          exists ref, c :: OfInode(records, ref, c) && WellFormed(c) && Matches(vol, q, c) && LowestVcn(c) <= vcn)
    && forall ref, c :: OfInode(records, ref, c) && WellFormed(c) && Matches(vol, q, c) ==>
         if LowestVcn(b) <= vcn then LowestVcn(c) <= LowestVcn(b) || LowestVcn(c) > vcn
         else LowestVcn(b) <= LowestVcn(c)
  }

  /** The answer by vcn, over the attributes of all records: ENOENT if none is asked for, otherwise the one that starts
      closest to the vcn from below. When all start behind it the first of them is returned. */
  lemma LookupIsFlatSearch(vol: Volume, base: nat, records: Records, list: seq<Entry>, q: Query, vcn: nat, err: int,
                           k: nat)
    requires Linked(vol, base, records, list) && OneName(vol, list, q)
    requires Precise(vol, q, vcn) && q.val.None? && q.atype != AT_ATTRIBUTE_LIST
    requires ListAnswers(vol, records, list, q, vcn, err, k)
    ensures err == 0 || err == ENOENT
    ensures err == ENOENT <==> forall ref, c :: OfInode(records, ref, c) && WellFormed(c) ==> !Matches(vol, q, c)
    ensures err == 0 ==>
              && k < |list|
              && var b := Target(records, list[k]);
              && OfInode(records, list[k].mref, b) && Matches(vol, q, b) && BestExtent(vol, records, q, vcn, b)
  {
    hide WellFormed, RecOk, ListSorted, EntriesDistinct, AttrsListed, ExtentsOk, Matches, Asked, ListAnswers, OfInode,
         Target, Resolves, LowestVcn, OneName, Precise;
    ListSearchExact(vol, records, list, q, vcn, err, k);
    if err == 0 {
      LeadsTo(vol, records, list, q, k);
    }
    forall ref, c | OfInode(records, ref, c) && WellFormed(c) && Matches(vol, q, c)
      ensures err == 0 && (LowestVcn(c) <= vcn ==> LowestVcn(c) <= LowestVcn(Target(records, list[k])) <= vcn)
      ensures LowestVcn(Target(records, list[k])) > vcn ==> LowestVcn(Target(records, list[k])) <= LowestVcn(c)
    {
      var j := ListedAs(vol, base, records, list, q, ref, c);
    }
  }

  /** The answer by value, over the attributes of all records. */
  lemma ValueLookupIsFlatSearch(vol: Volume, base: nat, records: Records, list: seq<Entry>, q: Query, err: int, k: nat)
    requires Linked(vol, base, records, list)
    requires Precise(vol, q, 0) && q.val.Some? && q.atype != AT_ATTRIBUTE_LIST
    requires ListAnswers(vol, records, list, q, 0, err, k)
    ensures err == 0 || err == ENOENT
    ensures err == ENOENT <==> forall ref, c :: OfInode(records, ref, c) && WellFormed(c) ==> !Matches(vol, q, c)
    ensures err == 0 ==>
              && k < |list| && OfInode(records, list[k].mref, Target(records, list[k]))
              && Matches(vol, q, Target(records, list[k]))
  {
    hide WellFormed, RecOk, ListSorted, EntriesDistinct, AttrsListed, ExtentsOk, Asked, ListAnswers, OfInode, Target,
         Resolves, Precise, NameMatches, AName, LE32, Value;
    ListValueExact(vol, records, list, q, err, k);
    if err == 0 {
      LeadsTo(vol, records, list, q, k);
    }
    forall ref, c | OfInode(records, ref, c) && WellFormed(c) && Matches(vol, q, c)
      ensures err == 0
    {
      var j := ListedAs(vol, base, records, list, q, ref, c);
    }
  }

  // ----- Where a missing attribute belongs

  /** The entry of an attribute as asked for, by type and exact name. */
  ghost predicate EntryFor(q: Query, e: Entry) {
    && e.atype == q.atype && e.vcn == 0
    && match q.name
       case AnyName => false
       case Unnamed => e.name == []
       case Named(n) => e.name == n
  }

  /** Putting the entry at the position that came with ENOENT keeps the list sorted. Entries of the same type and name
      (that hold other values) are of this very name and start at vcn 0. */
  lemma EntryBelongs(vol: Volume, records: Records, list: seq<Entry>, q: Query, k: nat, e: Entry)
    requires EntriesResolve(records, list) && ListSorted(vol, list) && Precise(vol, q, 0)
    requires ListAnswers(vol, records, list, q, 0, ENOENT, k) && EntryFor(q, e)
    requires forall j :: 0 <= j < |list| && Asked(vol, list, q, j) ==> list[j].name == e.name && list[j].vcn == 0
    requires q.name.Named? ==> Collatable(vol, q.name.n)
    ensures ListSorted(vol, AddedEntry(list, k, e))
  {
    hide JudgeEntry, Asked, Resolves, EntryLe, Precise, EntryFor;
    forall j | 0 <= j < k
      ensures EntryLe(vol, list[j], e)
    {
      SkippedEntryBefore(vol, records, list, q, j, e);
    }
    if k < |list| {
      JudgeEntryMeans(vol, records, list, q, 0, k);
    }
    forall j | k <= j < |list|
      ensures EntryLe(vol, e, list[j])
    {
      RestOfEntriesBehind(vol, records, list, q, k, e, j);
    }
    var es := AddedEntry(list, k, e);
    assert forall l :: 0 <= l < |es| ==> es[l] == if l < k then list[l] else if l == k then e else list[l - 1];
  }

  lemma SkippedEntryBefore(vol: Volume, records: Records, list: seq<Entry>, q: Query, j: nat, e: Entry)
    requires Precise(vol, q, 0) && EntryFor(q, e) && j < |list| && Resolves(records, list[j])
    requires q.name.Named? ==> Collatable(vol, q.name.n)
    requires JudgeEntry(vol, records, list, q, 0, j) == Skip
    requires Asked(vol, list, q, j) ==> list[j].name == e.name && list[j].vcn == 0
    ensures EntryLe(vol, list[j], e)
  {
    hide NameVerdict, Resolves, Target, HasValue, EqualUpToNul, Legal, FileOrder, SameName;
    FileOrderTotal(vol, e.name, list[j].name, e.name);
    if q.name.Named? {
      NameVerdictMeans(vol, e.name, list[j].name);
    }
  }

  lemma RestOfEntriesBehind(vol: Volume, records: Records, list: seq<Entry>, q: Query, k: nat, e: Entry, j: nat)
    requires Precise(vol, q, 0) && EntryFor(q, e) && ListSorted(vol, list) && k <= j < |list|
    requires Resolves(records, list[k])
    requires JudgeEntry(vol, records, list, q, 0, k) == Past
    ensures EntryLe(vol, e, list[j])
  {
    hide NameVerdict, Resolves, Target, HasValue, EqualUpToNul, Legal, FileOrder, SameName;
    var x, y := list[k].name, list[j].name;
    assert k < j ==> EntryLe(vol, list[k], list[j]);
    FileOrderTotal(vol, e.name, x, y);
    FileOrderTotal(vol, x, y, e.name);
    FileOrderTotal(vol, y, e.name, x);
    EmptyFirst(vol, x);
    if q.name.Named? {
      NameVerdictMeans(vol, e.name, x);
    }
  }
}
