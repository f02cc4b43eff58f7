/** Searching the attribute records of one mft record (`ntfs_attr_find_in_mft_record`, kext/ntfs_attr.c).

    The search leaves the record as soon as it meets an attribute that sorts behind what is looked for.
    On a sorted record this early exit loses nothing: the search answers what a scan of every attribute
    would answer, and otherwise names the place where the attribute belongs. */
module AttrSearch {
  import opened Errno
  import opened Bytes
  import opened Collate
  import opened AttrArea
  import opened Attr

  /** The @name argument: NULL, AT_UNNAMED or a name. */
  datatype NameQuery = AnyName | Unnamed | Named(n: Name)

  datatype Query = Query(atype: nat, name: NameQuery, val: Option<seq<byte>>)

  // ----- What is looked for

  /** The name comparison of the volume. */
  ghost predicate SameName(vol: Volume, a: Name, b: Name) {
    View(vol, vol.caseSensitive, a) == View(vol, vol.caseSensitive, b)
  }

  ghost predicate NameMatches(vol: Volume, q: NameQuery, name: Name) {
    match q
    case AnyName => true
    case Unnamed => name == []
    case Named(n) => SameName(vol, n, name)
  }

  /** The attribute is of the type, has the name and holds the value asked for. */
  ghost predicate Matches(vol: Volume, q: Query, b: Blob)
    requires WellFormed(b)
  {
    && AType(b) == q.atype
    && NameMatches(vol, q.name, AName(b))
    && (q.val.Some? ==> !NonResident(b) && Value(b) == q.val.value)
  }

  // ----- The order of attribute records

  /** Order by type, then by name; records alike in both are ordered by value. */
  ghost predicate InOrder(vol: Volume, a: Blob, b: Blob)
    requires WellFormed(a) && WellFormed(b)
  {
    || AType(a) < AType(b)
    || (AType(a) == AType(b) &&
        var o := FileOrder(vol, AName(a), AName(b));
        o < 0 || (o == 0 && (!NonResident(a) && !NonResident(b) ==> Lex(Value(a), Value(b)) <= 0)))
  }

  ghost predicate AllWellFormed(bs: seq<Blob>) {
    forall i :: 0 <= i < |bs| ==> WellFormed(bs[i])
  }

  ghost predicate Sorted(vol: Volume, bs: seq<Blob>)
    requires AllWellFormed(bs)
  {
    forall i, j :: 0 <= i < j < |bs| ==> InOrder(vol, bs[i], bs[j])
  }

  // ----- The search

  /** What the search makes of one attribute record. */
  datatype Verdict = Skip | Found | Past | Corrupt

  /** The driver's equality and collation of two names, put together. */
  ghost function NameVerdict(vol: Volume, n: Name, m: Name): (r: Verdict) {
    if |n| == |m| && EqualUpToNul(View(vol, vol.caseSensitive, n), View(vol, vol.caseSensitive, m)) then Found
    else
      var ci := NameOrder(vol, n, m, false);
      if ci != 0 then if ci == -1 then Past else Skip
      else
        var cs := NameOrder(vol, n, m, true);
        if cs == -1 then Past else if cs != 0 then Skip else Found
  }

  ghost function Judge(vol: Volume, q: Query, isIteration: bool, b: Blob): (r: Verdict)
    requires |b| >= 24
  {
    if (!isIteration || q.atype != AT_UNUSED) && AType(b) > q.atype then Past
    else if isIteration && (q.atype == AT_UNUSED || q.atype == AType(b)) then Found
    else if AType(b) != q.atype then Skip
    else if q.name.Unnamed? && NameLength(b) != 0 then Past
    else if q.name.Named? && NameOffset(b) + 2 * NameLength(b) > |b| then Corrupt
    else if q.name.Named? && NameVerdict(vol, q.name.n, AName(b)) != Found then NameVerdict(vol, q.name.n, AName(b))
    else if q.val.None? then Found
    else if ValueOffset(b) + ValueLength(b) > |b| then Corrupt
    else
      var o := Lex(q.val.value, Value(b));
      if o == 0 then Found else if o < 0 then Past else Skip
  }

  /** One round of the search loop. */
  method JudgeName(vol: Volume, n: Name, m: Name) returns (v: Verdict)
    ensures v == NameVerdict(vol, n, m)
  {
    var eq := AreNamesEqual(vol, n, m, vol.caseSensitive);
    if eq {
      return Found;
    }
    var rc := CollateNames(vol, n, m, false);
    if rc == -1 {
      return Past;
    }
    if rc != 0 {
      return Skip;
    }
    rc := CollateNames(vol, n, m, true);
    if rc == -1 {
      return Past;
    }
    if rc != 0 {
      return Skip;
    }
    return Found;
  }

  method JudgeValue(val: seq<byte>, b: Blob) returns (v: Verdict)
    requires |b| >= 24
    ensures v == if ValueOffset(b) + ValueLength(b) > |b| then Corrupt
                 else if Lex(val, Value(b)) == 0 then Found
                 else if Lex(val, Value(b)) < 0 then Past else Skip
  {
    var len, ofs := ValueLength(b), ValueOffset(b);
    if ofs + len > |b| {
      return Corrupt;
    }
    var value := b[ofs..ofs + len];
    var n := if len <= |val| then len else |val|;
    var rc := Memcmp(val, value, n);
    LexTruncated(val, value, n);
    LexEqual(val[..n], value[..n]);
    if rc == 0 {
      if |val| == len {
        return Found;
      }
      if |val| < len {
        return Past;
      }
    } else if rc < 0 {
      return Past;
    }
    return Skip;
  }

  /** The search stopped at `pos`, the first attribute from `start` on that it does not skip. */
  ghost predicate Answers(vol: Volume, bs: seq<Blob>, start: nat, q: Query, isIteration: bool, err: int, pos: nat)
    requires forall i :: 0 <= i < |bs| ==> |bs[i]| >= 24
  {
    && start <= pos <= |bs|
    && (forall i :: start <= i < pos ==> Judge(vol, q, isIteration, bs[i]) == Skip)
    && (pos < |bs| ==> Judge(vol, q, isIteration, bs[pos]) != Skip)
    && err == if pos == |bs| then ENOENT
              else match Judge(vol, q, isIteration, bs[pos])
                   case Found => 0
                   case Corrupt => EIO
                   case _ => ENOENT
  }

  /** `ntfs_attr_find_in_mft_record`. `start` is the attribute the search begins with: @ctx->a itself if
      @ctx->is_first and the one behind it otherwise. `pos` is the new @ctx->a. */
  method FindInRecord(vol: Volume, bs: seq<Blob>, start: nat, q: Query, isIteration: bool) returns (err: int, pos: nat)
    requires start <= |bs|
    requires forall i :: 0 <= i < |bs| ==> |bs[i]| >= 24
    ensures Answers(vol, bs, start, q, isIteration, err, pos)
  {
    pos := start;
    while pos < |bs|
      invariant start <= pos <= |bs|
      invariant forall i :: start <= i < pos ==> Judge(vol, q, isIteration, bs[i]) == Skip
    {
      hide NameOrder, NameVerdict, LE32, LE16, EqualUpToNul, Lex, AName, Value;
      var b := bs[pos];
      if (!isIteration || q.atype != AT_UNUSED) && AType(b) > q.atype {
        return ENOENT, pos;
      }
      if isIteration {
        if q.atype == AT_UNUSED || q.atype == AType(b) {
          return 0, pos;
        }
      }
      if AType(b) != q.atype {
        pos := pos + 1;
        continue;
      }
      match q.name {
        case AnyName =>
        case Unnamed =>
          if NameLength(b) != 0 {
            return ENOENT, pos;
          }
        case Named(n) =>
          if NameOffset(b) + 2 * NameLength(b) > |b| {
            return EIO, pos;
          }
          var v := JudgeName(vol, n, AName(b));
          if v == Past {
            return ENOENT, pos;
          }
          if v == Skip {
            pos := pos + 1;
            continue;
          }
          NameNeverCorrupt(vol, n, AName(b));
      }
      if q.val.None? {
        return 0, pos;
      }
      var v := JudgeValue(q.val.value, b);
      match v {
        case Found => return 0, pos;
        case Past => return ENOENT, pos;
        case Corrupt => return EIO, pos;
        case Skip => pos := pos + 1;
      }
    }
    return ENOENT, pos;
  }

  lemma NameNeverCorrupt(vol: Volume, n: Name, m: Name)
    ensures NameVerdict(vol, n, m) != Corrupt
  {
  }

  // ----- The early exit loses nothing

  /** What a caller must see to: a name without NUL, and no value when the type can be non-resident. */
  ghost predicate Askable(vol: Volume, bs: seq<Blob>, q: Query)
    requires AllWellFormed(bs)
  {
    && (q.name.Named? ==> NoNul(vol, q.name.n))
    && (q.val.Some? ==> forall i :: 0 <= i < |bs| && AType(bs[i]) == q.atype ==> !NonResident(bs[i]))
  }

  /** The attributes of the type and name asked for agree in the case of the name, too. */
  ghost predicate CaseUnique(vol: Volume, bs: seq<Blob>, q: Query)
    requires AllWellFormed(bs)
  {
    forall i, j :: 0 <= i < |bs| && 0 <= j < |bs| && NamedAs(vol, bs[i], q) && NamedAs(vol, bs[j], q) ==>
      AName(bs[i]) == AName(bs[j])
  }

  ghost predicate NamedAs(vol: Volume, b: Blob, q: Query)
    requires WellFormed(b)
  {
    AType(b) == q.atype && NameMatches(vol, q.name, AName(b))
  }

  /** A value is only compared between attributes of one name. */
  ghost predicate ValueWithName(q: Query) {
    q.val.Some? ==> !q.name.AnyName?
  }

  /** The driver's verdict on a name without NUL, in terms of the orders. An illegal character can only make it go
      on. */
  lemma NameVerdictMeans(vol: Volume, n: Name, m: Name)
    requires NoNul(vol, n)
    ensures NameVerdict(vol, n, m) == Found <==> SameName(vol, n, m)
    ensures NameVerdict(vol, n, m) == Past ==> !SameName(vol, n, m) && FileOrder(vol, n, m) < 0
    ensures Collatable(vol, n) ==>
              (NameVerdict(vol, n, m) == Past <==> !SameName(vol, n, m) && FileOrder(vol, n, m) < 0)
    ensures Collatable(vol, n) ==>
              (NameVerdict(vol, n, m) == Skip <==> !SameName(vol, n, m) && FileOrder(vol, n, m) > 0)
  {
    hide ReachesIllegal, EqualUpToNul, Lex, NoNul, Collatable;
    if Collatable(vol, n) {
      OrderOnLegal(vol, n, m, false);
      OrderOnLegal(vol, n, m, true);
    }
    LexEqual(FoldName(vol.upcase, n), FoldName(vol.upcase, m));
    LexEqual(n, m);
    if |n| == |m| {
      EqualOnLegal(vol, n, m, vol.caseSensitive);
    }
  }

  /** The verdict on one well-formed attribute. */
  lemma JudgeMeans(vol: Volume, q: Query, b: Blob)
    requires WellFormed(b) && (q.name.Named? ==> NoNul(vol, q.name.n))
    requires q.val.Some? && AType(b) == q.atype ==> !NonResident(b)
    ensures Judge(vol, q, false, b) != Corrupt
    ensures Judge(vol, q, false, b) == Found <==> Matches(vol, q, b)
  {
    hide NameVerdict, Lex, LE16, LE32, AName, Value;
    if q.name.Named? {
      NameVerdictMeans(vol, q.name.n, AName(b));
      NameNeverCorrupt(vol, q.name.n, AName(b));
    }
    if q.val.Some? && ValueOffset(b) + ValueLength(b) <= |b| {
      LexEqual(q.val.value, Value(b));
    }
  }

  /** Behind an attribute at which the search gives up there is no match. */
  lemma NothingBehind(vol: Volume, bs: seq<Blob>, q: Query, i: nat, j: nat)
    requires AllWellFormed(bs) && Sorted(vol, bs) && Askable(vol, bs, q) && i < j < |bs|
    requires ValueWithName(q) && (q.val.Some? ==> CaseUnique(vol, bs, q))
    requires Judge(vol, q, false, bs[i]) == Past
    ensures !Matches(vol, q, bs[j])
  {
    hide NameVerdict, Lex, LE16, LE32, AName, Value, FileOrder, NoNul;
    var a, b := bs[i], bs[j];
    assert InOrder(vol, a, b);
    if AType(a) == q.atype == AType(b) {
      var x, y := AName(a), AName(b);
      FileOrderTotal(vol, x, y, y);
      match q.name {
        case AnyName =>
        case Unnamed =>
          if x != [] && y == [] {
            EmptyFirst(vol, x);
          }
        case Named(n) =>
          NameVerdictMeans(vol, n, x);
          if NameVerdict(vol, n, x) == Past {
            NamesBehind(vol, n, x, y);
          } else if SameName(vol, n, y) {
            SameNameFolded(vol, n, x);
            SameNameFolded(vol, n, y);
          }
      }
      if q.val.Some? && x == y && NameMatches(vol, q.name, x) {
        LexTransitive(q.val.value, Value(a), Value(b));
        LexEqual(q.val.value, Value(b));
      }
    }
  }

  lemma EmptyFirst(vol: Volume, x: Name)
    ensures x != [] ==> FileOrder(vol, x, []) > 0 && FileOrder(vol, [], x) < 0
  {
  }

  lemma SameNameFolded(vol: Volume, n: Name, m: Name)
    requires SameName(vol, n, m)
    ensures SameFolded(vol, n, m) && (vol.caseSensitive ==> n == m)
  {
  }

  lemma NamesBehind(vol: Volume, n: Name, x: Name, y: Name)
    requires !SameName(vol, n, x) && FileOrder(vol, n, x) < 0 && FileOrder(vol, x, y) <= 0
    ensures !SameName(vol, n, y) && FileOrder(vol, n, y) < 0
  {
    hide FileOrder;
    FileOrderTotal(vol, n, x, y);
    FileOrderTotal(vol, n, y, x);
    FileOrderTotal(vol, x, y, n);
    FileOrderTotal(vol, y, x, n);
    if SameName(vol, n, y) {
      SameNameFolded(vol, n, y);
      FoldedBlock(vol, n, x, y);
    }
  }

  /** A match that no attribute of the type and name with a greater value stands in front of. */
  ghost predicate InReach(vol: Volume, bs: seq<Blob>, start: nat, q: Query, m: nat)
    requires AllWellFormed(bs)
  {
    && start <= m < |bs| && Matches(vol, q, bs[m])
    && (q.val.Some? ==> forall i :: start <= i < m && NamedAs(vol, bs[i], q) && !NonResident(bs[i]) ==>
         Lex(Value(bs[i]), q.val.value) < 0)
  }

  /** A skipped attribute of the type and name asked for has a smaller value. */
  lemma SkippedIsSmaller(vol: Volume, q: Query, b: Blob)
    requires WellFormed(b) && (q.name.Named? ==> NoNul(vol, q.name.n)) && NamedAs(vol, b, q) && !NonResident(b)
    requires q.val.Some?
    ensures Judge(vol, q, false, b) == Skip <==> Lex(Value(b), q.val.value) < 0
    ensures Judge(vol, q, false, b) == Past <==> Lex(Value(b), q.val.value) > 0
  {
    hide NameVerdict, Lex, LE16, LE32, AName, Value, NoNul;
    if q.name.Named? {
      NameVerdictMeans(vol, q.name.n, AName(b));
    }
    LexAntisymmetric(q.val.value, Value(b));
  }

  /** Where the search gives up in front of a match, an attribute of the type and name asked for has a greater value. */
  lemma HiddenBy(vol: Volume, bs: seq<Blob>, q: Query, i: nat, m: nat)
    requires AllWellFormed(bs) && Sorted(vol, bs) && Askable(vol, bs, q) && i < m < |bs|
    requires Judge(vol, q, false, bs[i]) == Past && Matches(vol, q, bs[m])
    ensures NamedAs(vol, bs[i], q) && q.val.Some? && !NonResident(bs[i]) && Lex(Value(bs[i]), q.val.value) > 0
  {
    hide NameVerdict, Lex, LE16, LE32, AName, Value, FileOrder, NoNul;
    var a, b := bs[i], bs[m];
    assert InOrder(vol, a, b);
    var x, y := AName(a), AName(b);
    FileOrderTotal(vol, x, y, y);
    match q.name {
      case AnyName =>
      case Unnamed => EmptyFirst(vol, x);
      case Named(n) =>
        NameVerdictMeans(vol, n, x);
        if NameVerdict(vol, n, x) == Past {
          NamesBehind(vol, n, x, y);
        }
    }
    if q.val.Some? {
      SkippedIsSmaller(vol, q, a);
    }
  }

  /** On a sorted record the search finds a match exactly if there is one that no attribute of its type and name with a
      greater value stands in front of; and then the first match. Without a value, or if the attributes so named are
      spelled alike, it answers what a scan of every attribute from `start` on would answer. */
  lemma SearchIsExhaustive(vol: Volume, bs: seq<Blob>, start: nat, q: Query, err: int, pos: nat)
    requires AllWellFormed(bs) && Sorted(vol, bs) && Askable(vol, bs, q)
    requires Answers(vol, bs, start, q, false, err, pos)
    ensures err == 0 || err == ENOENT
    ensures err == 0 <==> exists m :: InReach(vol, bs, start, q, m)
    ensures err == 0 ==> pos < |bs| && Matches(vol, q, bs[pos])
    ensures forall i :: start <= i < pos ==> !Matches(vol, q, bs[i])
    ensures (q.val.Some? ==> ValueWithName(q) && CaseUnique(vol, bs, q)) ==>
              (err == 0 <==> exists i :: start <= i < |bs| && Matches(vol, q, bs[i]))
  {
    hide Judge, Matches, Sorted, CaseUnique, NamedAs, Lex, Value, NonResident, NoNul, LE32;
    forall i | start <= i < |bs|
      ensures Judge(vol, q, false, bs[i]) != Corrupt
      ensures Judge(vol, q, false, bs[i]) == Found <==> Matches(vol, q, bs[i])
    {
      JudgeMeans(vol, q, bs[i]);
    }
    if err == 0 {
      FoundInReach(vol, bs, start, q, pos);
    }
    forall m | start <= m < |bs| && Matches(vol, q, bs[m]) && err != 0
      ensures !InReach(vol, bs, start, q, m)
      ensures q.val.Some? && (ValueWithName(q) ==> !CaseUnique(vol, bs, q))
    {
      HiddenBy(vol, bs, q, pos, m);
      if ValueWithName(q) && CaseUnique(vol, bs, q) {
        NothingBehind(vol, bs, q, pos, m);
      }
    }
  }

  lemma FoundInReach(vol: Volume, bs: seq<Blob>, start: nat, q: Query, pos: nat)
    requires AllWellFormed(bs) && Askable(vol, bs, q) && start <= pos < |bs| && Matches(vol, q, bs[pos])
    requires forall i :: start <= i < pos ==> Judge(vol, q, false, bs[i]) == Skip
    ensures InReach(vol, bs, start, q, pos)
  {
    hide Judge, Matches, NamedAs, Lex, Value, NonResident, NoNul, LE32;
    if q.val.Some? {
      forall i | start <= i < pos && NamedAs(vol, bs[i], q) && !NonResident(bs[i])
        ensures Lex(Value(bs[i]), q.val.value) < 0
      {
        SkippedIsSmaller(vol, q, bs[i]);
      }
    }
  }

  lemma TypesInOrder(vol: Volume, bs: seq<Blob>, i: nat, j: nat)
    requires AllWellFormed(bs) && Sorted(vol, bs) && i < j < |bs|
    ensures AType(bs[i]) <= AType(bs[j])
  {
    assert InOrder(vol, bs[i], bs[j]);
  }

  /** Two attributes of one type, unnamed with value 5 and "A" with value 3: asked for value 3 under any name
      the search stops at the first. */
  lemma AnyNameMisses(vol: Volume, err: int, pos: nat)
    requires var bs := [ResidentBlob(0x100, [], [5], 0), ResidentBlob(0x100, [0x41], [3], 1)];
             Answers(vol, bs, 0, Query(0x100, AnyName, Some([3])), false, err, pos)
    ensures var bs := [ResidentBlob(0x100, [], [5], 0), ResidentBlob(0x100, [0x41], [3], 1)];
            var q := Query(0x100, AnyName, Some([3]));
            && AllWellFormed(bs) && Sorted(vol, bs) && Askable(vol, bs, q)
            && Matches(vol, q, bs[1]) && err == ENOENT
  {
    hide ResidentBlob, LE16, LE32, AName, Value;
    var a, b := ResidentBlob(0x100, [], [5], 0), ResidentBlob(0x100, [0x41], [3], 1);
    ResidentBlobFields(0x100, [], [5], 0);
    ResidentBlobFields(0x100, [0x41], [3], 1);
    EmptyFirst(vol, [0x41]);
    var bs := [a, b];
    var q := Query(0x100, AnyName, Some([3]));
    assert Lex([3], [5]) == -1;
    assert Judge(vol, q, false, bs[0]) == Past;
  }

  /** The upcase table of the letters a to z. */
  const LETTERS: seq<u16> := seq(0x7b, i requires 0 <= i < 0x7b => if 0x61 <= i then i - 0x20 else i)

  /** On a volume that ignores case, "A" with value 5 and "a" with value 3: asked for "a" with value 3 the search stops
      at the first. */
  lemma CaseVariantMisses(err: int, pos: nat)
    requires var bs := [ResidentBlob(0x100, [0x41], [5], 0), ResidentBlob(0x100, [0x61], [3], 1)];
             Answers(Volume(false, LETTERS), bs, 0, Query(0x100, Named([0x61]), Some([3])), false, err, pos)
    ensures var vol, bs :=
              Volume(false, LETTERS), [ResidentBlob(0x100, [0x41], [5], 0), ResidentBlob(0x100, [0x61], [3], 1)];
            var q := Query(0x100, Named([0x61]), Some([3]));
            && AllWellFormed(bs) && Sorted(vol, bs) && Askable(vol, bs, q)
            && Matches(vol, q, bs[1]) && err == ENOENT
  {
    hide ResidentBlob, LE16, LE32, AName, Value;
    var vol, a, b := Volume(false, LETTERS), ResidentBlob(0x100, [0x41], [5], 0), ResidentBlob(0x100, [0x61], [3], 1);
    ResidentBlobFields(0x100, [0x41], [5], 0);
    ResidentBlobFields(0x100, [0x61], [3], 1);
    assert FoldName(LETTERS, [0x41]) == [0x41] == FoldName(LETTERS, [0x61]);
    LexEqual([0x41], [0x41]);
    assert Lex([0x41], [0x61]) == -1;
    var bs := [a, b];
    var q := Query(0x100, Named([0x61]), Some([3]));
    assert Lex([3], [5]) == -1;
    assert Legal(vol, [0x61]);
    NameVerdictMeans(vol, [0x61], [0x41]);
    assert Judge(vol, q, false, bs[0]) == Past;
  }

  // ----- Every match, once, in order

  /** Repeated searches, each going on behind the attribute found last, until there is an error: all the attributes that
      the search finds, in order, up to one at which it gives up. */
  method Enumerate(vol: Volume, bs: seq<Blob>, q: Query) returns (err: int, found: seq<nat>, pos: nat)
    requires forall i :: 0 <= i < |bs| ==> |bs[i]| >= 24
    ensures pos <= |bs| && (forall k :: 0 <= k < |found| ==> found[k] < pos)
    ensures forall k, l :: 0 <= k < l < |found| ==> found[k] < found[l]
    ensures forall i :: 0 <= i < pos ==> Judge(vol, q, false, bs[i]) == if i in found then Found else Skip
    ensures pos < |bs| ==> Judge(vol, q, false, bs[pos]) == Past || Judge(vol, q, false, bs[pos]) == Corrupt
    ensures err == if pos < |bs| && Judge(vol, q, false, bs[pos]) == Corrupt then EIO else ENOENT
  {
    hide Judge;
    var start := 0;
    found := [];
    while true
      invariant start <= |bs|
      invariant forall k :: 0 <= k < |found| ==> found[k] < start
      invariant forall k, l :: 0 <= k < l < |found| ==> found[k] < found[l]
      invariant forall i :: 0 <= i < start ==> Judge(vol, q, false, bs[i]) == if i in found then Found else Skip
      decreases |bs| - start
    {
      err, pos := FindInRecord(vol, bs, start, q, false);
      if err != 0 {
        break;
      }
      found := found + [pos];
      start := pos + 1;
    }
  }

  /** On a sorted record these are the matches that no attribute of their type and name with a greater value stands in
      front of: all the matches without a value, or if the attributes so named are spelled alike. */
  lemma EnumeratesMatches(vol: Volume, bs: seq<Blob>, q: Query, found: seq<nat>, pos: nat)
    requires AllWellFormed(bs) && Sorted(vol, bs) && Askable(vol, bs, q) && pos <= |bs|
    requires forall k :: 0 <= k < |found| ==> found[k] < pos
    requires forall i :: 0 <= i < pos ==> Judge(vol, q, false, bs[i]) == if i in found then Found else Skip
    requires pos < |bs| ==> Judge(vol, q, false, bs[pos]) == Past || Judge(vol, q, false, bs[pos]) == Corrupt
    ensures pos < |bs| ==> Judge(vol, q, false, bs[pos]) == Past
    ensures forall i :: i in found ==> Matches(vol, q, bs[i])
    ensures forall m :: 0 <= m < |bs| && Matches(vol, q, bs[m]) ==> (m in found <==> m < pos)
    ensures forall m :: pos < m < |bs| && Matches(vol, q, bs[m]) ==>
              NamedAs(vol, bs[pos], q) && q.val.Some? && !NonResident(bs[pos]) && Lex(Value(bs[pos]), q.val.value) > 0
    ensures (q.val.Some? ==> ValueWithName(q) && CaseUnique(vol, bs, q)) ==>
              forall m :: 0 <= m < |bs| && Matches(vol, q, bs[m]) ==> m in found
  {
    hide Judge, Matches, Sorted, CaseUnique, NamedAs, Lex, Value, NonResident, NoNul, LE32;
    forall i | 0 <= i < |bs|
      ensures Judge(vol, q, false, bs[i]) != Corrupt
      ensures Judge(vol, q, false, bs[i]) == Found <==> Matches(vol, q, bs[i])
    {
      JudgeMeans(vol, q, bs[i]);
    }
    forall m | pos < m < |bs| && Matches(vol, q, bs[m])
      ensures NamedAs(vol, bs[pos], q) && q.val.Some? && !NonResident(bs[pos]) && Lex(Value(bs[pos]), q.val.value) > 0
      ensures !(ValueWithName(q) && CaseUnique(vol, bs, q))
    {
      HiddenBy(vol, bs, q, pos, m);
      if ValueWithName(q) && CaseUnique(vol, bs, q) {
        NothingBehind(vol, bs, q, pos, m);
      }
    }
  }

  // ----- Where a missing attribute belongs

  /** `b` is an attribute as asked for: type, exact name and value. */
  ghost predicate Specified(q: Query, b: Blob)
    requires WellFormed(b)
  {
    && AType(b) == q.atype
    && (match q.name
        case AnyName => false
        case Unnamed => AName(b) == []
        case Named(n) => AName(b) == n)
    && (q.val.Some? ==> !NonResident(b) && Value(b) == q.val.value)
  }

  /** On a volume that ignores case, `b` has the very name of every attribute of its type that it equals up to case. */
  ghost predicate CaseFits(vol: Volume, bs: seq<Blob>, b: Blob)
    requires AllWellFormed(bs) && WellFormed(b)
  {
    !vol.caseSensitive ==>
      forall i :: 0 <= i < |bs| && AType(bs[i]) == AType(b) && SameFolded(vol, AName(bs[i]), AName(b)) ==>
        AName(bs[i]) == AName(b)
  }

  /** An attribute as asked for, but for its value, that is spelled otherwise and collates before `b` has a smaller
      value; and one that collates behind `b` is reached only past a greater value. */
  ghost predicate Places(vol: Volume, bs: seq<Blob>, q: Query, b: Blob)
    requires AllWellFormed(bs) && WellFormed(b)
  {
    forall i :: 0 <= i < |bs| && NamedAs(vol, bs[i], q) && q.val.Some? && !NonResident(bs[i]) ==>
      && (FileOrder(vol, AName(bs[i]), AName(b)) < 0 ==> Lex(Value(bs[i]), q.val.value) < 0)
      && (FileOrder(vol, AName(bs[i]), AName(b)) > 0 ==> Greater(vol, bs, q, i))
  }

  /** Up to `i` some attribute as asked for, but for its value, has a greater one. */
  ghost predicate Greater(vol: Volume, bs: seq<Blob>, q: Query, i: nat)
    requires AllWellFormed(bs) && q.val.Some?
  {
    exists j :: 0 <= j <= i && j < |bs| && NamedAs(vol, bs[j], q) && !NonResident(bs[j])
      && Lex(Value(bs[j]), q.val.value) > 0
  }

  /** The name `m` is behind `n`, but an illegal character of `n` makes the search pass over it. */
  ghost predicate Misled(vol: Volume, n: Name, m: Name) {
    FileOrder(vol, n, m) < 0 && !SameName(vol, n, m) && NameVerdict(vol, n, m) == Skip
  }

  /** Before it comes to a name that it would pass over, though it is behind the one asked for, the search gives up. */
  ghost predicate Straight(vol: Volume, bs: seq<Blob>, q: Query)
    requires AllWellFormed(bs)
  {
    forall i :: 0 <= i < |bs| && AType(bs[i]) == q.atype && q.name.Named? && Misled(vol, q.name.n, AName(bs[i])) ==>
      exists j :: 0 <= j < i && Judge(vol, q, false, bs[j]) == Past
  }

  /** No name is passed over if the one asked for has no illegal character. */
  lemma StraightIfCollatable(vol: Volume, bs: seq<Blob>, q: Query)
    requires AllWellFormed(bs) && (q.name.Named? ==> NoNul(vol, q.name.n) && Collatable(vol, q.name.n))
    ensures Straight(vol, bs, q)
  {
    hide Judge, AName, LE32, NameVerdict, SameName, FileOrder, NoNul, Collatable;
    if q.name.Named? {
      forall i | 0 <= i < |bs|
        ensures !Misled(vol, q.name.n, AName(bs[i]))
      {
        NameVerdictMeans(vol, q.name.n, AName(bs[i]));
      }
    }
  }

  /** Putting the attribute at the position that came with ENOENT keeps the record sorted exactly if the attributes that
      differ from it in the case of the name only leave it the place, and no name behind it is passed over. */
  lemma InsertSortedExactly(vol: Volume, bs: seq<Blob>, q: Query, pos: nat, b: Blob)
    requires AllWellFormed(bs) && Sorted(vol, bs) && Askable(vol, bs, q)
    requires WellFormed(b) && Specified(q, b)
    requires Answers(vol, bs, 0, q, false, ENOENT, pos)
    ensures AllWellFormed(bs[..pos] + [b] + bs[pos..])
    ensures Sorted(vol, bs[..pos] + [b] + bs[pos..]) <==> Places(vol, bs, q, b) && Straight(vol, bs, q)
  {
    hide Judge, InOrder, WellFormed, Places, Straight, AName, LE32, NoNul;
    var cs := bs[..pos] + [b] + bs[pos..];
    assert forall k :: 0 <= k < |cs| ==> cs[k] == if k < pos then bs[k] else if k == pos then b else bs[k - 1];
    if Places(vol, bs, q, b) && Straight(vol, bs, q) {
      forall i | 0 <= i < pos
        ensures InOrder(vol, bs[i], b)
      {
        SkippedIsBefore(vol, bs, q, pos, i, b);
      }
      forall j | pos <= j < |bs|
        ensures InOrder(vol, b, bs[j])
      {
        RestIsBehind(vol, bs, q, pos, b, j);
      }
    }
    if Sorted(vol, cs) {
      forall i | 0 <= i < pos
        ensures InOrder(vol, bs[i], b)
      {
        assert InOrder(vol, cs[i], cs[pos]);
      }
      forall j | pos <= j < |bs|
        ensures InOrder(vol, b, bs[j])
      {
        assert InOrder(vol, cs[pos], cs[j + 1]);
      }
      SortedPlaces(vol, bs, q, pos, b);
      SortedStraight(vol, bs, q, pos, b);
    }
  }

  /** A name that is passed over in front of the place where the search gives up would be out of order. */
  lemma SortedStraight(vol: Volume, bs: seq<Blob>, q: Query, pos: nat, b: Blob)
    requires AllWellFormed(bs) && Sorted(vol, bs) && Askable(vol, bs, q) && Answers(vol, bs, 0, q, false, ENOENT, pos)
    requires WellFormed(b) && Specified(q, b)
    requires forall i :: 0 <= i < pos ==> InOrder(vol, bs[i], b)
    ensures Straight(vol, bs, q)
  {
    hide NameVerdict, Lex, LE16, LE32, AName, Value, FileOrder, NoNul, Judge, Sorted, SameName;
    forall i | 0 <= i < |bs| && AType(bs[i]) == q.atype && q.name.Named? && Misled(vol, q.name.n, AName(bs[i]))
      ensures exists j :: 0 <= j < i && Judge(vol, q, false, bs[j]) == Past
    {
      MisledIsSkipped(vol, q, bs[i]);
      FileOrderTotal(vol, AName(bs[i]), AName(b), AName(b));
      assert pos < |bs| ==> Judge(vol, q, false, bs[pos]) == Past;
    }
  }

  lemma MisledIsSkipped(vol: Volume, q: Query, b: Blob)
    requires WellFormed(b) && AType(b) == q.atype && q.name.Named? && Misled(vol, q.name.n, AName(b))
    ensures Judge(vol, q, false, b) == Skip
  {
    hide NameVerdict, Lex, LE16, LE32, AName, Value, FileOrder, SameName;
  }

  /** Behind "b" the search for "*" ends at the end of the record, where "*" does not belong. */
  lemma StarUnsorted(vol: Volume, pos: nat)
    requires vol.upcase == []
    requires Answers(vol, [ResidentBlob(0x100, [0x62], [], 0)], 0, Query(0x100, Named([0x2a]), None), false, ENOENT,
                     pos)
    ensures var a, b := ResidentBlob(0x100, [0x62], [], 0), ResidentBlob(0x100, [0x2a], [], 1);
            var cs := [a][..pos] + [b] + [a][pos..];
            AllWellFormed([a]) && Sorted(vol, [a]) && AllWellFormed(cs) && !Sorted(vol, cs)
  {
    hide ResidentBlob, LE16, LE32, AName, Value, Judge, NameVerdict;
    var a, b := ResidentBlob(0x100, [0x62], [], 0), ResidentBlob(0x100, [0x2a], [], 1);
    var q := Query(0x100, Named([0x2a]), None);
    ResidentBlobFields(0x100, [0x62], [], 0);
    ResidentBlobFields(0x100, [0x2a], [], 1);
    StarMisleads(vol);
    InsertSortedExactly(vol, [a], q, pos, b);
    assert Misled(vol, [0x2a], AName([a][0]));
  }

  lemma StarMisleads(vol: Volume)
    requires vol.upcase == []
    ensures Misled(vol, [0x2a], [0x62])
  {
    var star: Name, b: Name := [0x2a], [0x62];
    assert FoldName(vol.upcase, star) == star && FoldName(vol.upcase, b) == b;
    assert star[..0] == b[..0] && IllegalChar(star[0]);
    assert ReachesIllegal(star, b);
  }

  /** On a volume that ignores case, behind "A" with value 5 the search for "a" with value 3 ends in front of it, where
      "a" does not belong. */
  lemma CaseVariantUnsorted(pos: nat)
    requires Answers(Volume(false, LETTERS), [ResidentBlob(0x100, [0x41], [5], 0)], 0,
                     Query(0x100, Named([0x61]), Some([3])), false, ENOENT, pos)
    ensures var vol, a, b :=
              Volume(false, LETTERS), ResidentBlob(0x100, [0x41], [5], 0), ResidentBlob(0x100, [0x61], [3], 1);
            var cs := [a][..pos] + [b] + [a][pos..];
            AllWellFormed([a]) && Sorted(vol, [a]) && AllWellFormed(cs) && !Sorted(vol, cs)
  {
    hide ResidentBlob, LE16, LE32, AName, Value, Judge;
    var vol, a, b := Volume(false, LETTERS), ResidentBlob(0x100, [0x41], [5], 0), ResidentBlob(0x100, [0x61], [3], 1);
    var q := Query(0x100, Named([0x61]), Some([3]));
    ResidentBlobFields(0x100, [0x41], [5], 0);
    ResidentBlobFields(0x100, [0x61], [3], 1);
    assert FoldName(LETTERS, [0x41]) == [0x41] == FoldName(LETTERS, [0x61]);
    assert Legal(vol, [0x61]);
    LexEqual([0x41], [0x41]);
    assert FileOrder(vol, AName(a), AName(b)) < 0 && Lex(Value(a), [3]) > 0;
    InsertSortedExactly(vol, [a], q, pos, b);
    assert NamedAs(vol, [a][0], q);
  }

  /** So it does when there are none, and the name has no illegal character. */
  lemma InsertKeepsSorted(vol: Volume, bs: seq<Blob>, q: Query, pos: nat, b: Blob)
    requires AllWellFormed(bs) && Sorted(vol, bs) && Askable(vol, bs, q)
    requires WellFormed(b) && Specified(q, b) && CaseFits(vol, bs, b) && (q.name.Named? ==> Collatable(vol, q.name.n))
    requires Answers(vol, bs, 0, q, false, ENOENT, pos)
    ensures AllWellFormed(bs[..pos] + [b] + bs[pos..]) && Sorted(vol, bs[..pos] + [b] + bs[pos..])
  {
    hide Judge, Sorted, FileOrder, AName, LE32, LE16, NoNul, Answers, NonResident, Lex, Value, Greater;
    InsertSortedExactly(vol, bs, q, pos, b);
    StraightIfCollatable(vol, bs, q);
    forall i | 0 <= i < |bs| && NamedAs(vol, bs[i], q)
      ensures FileOrder(vol, AName(bs[i]), AName(b)) == 0
    {
      FileOrderTotal(vol, AName(b), AName(b), AName(b));
      if q.name.Named? {
        SameNameFolded(vol, AName(b), AName(bs[i]));
      }
    }
  }

  lemma SkippedIsBefore(vol: Volume, bs: seq<Blob>, q: Query, pos: nat, i: nat, b: Blob)
    requires AllWellFormed(bs) && Askable(vol, bs, q) && i < pos <= |bs|
    requires WellFormed(b) && Specified(q, b) && Places(vol, bs, q, b) && Straight(vol, bs, q)
    requires forall k :: 0 <= k < pos ==> Judge(vol, q, false, bs[k]) == Skip
    ensures InOrder(vol, bs[i], b)
  {
    hide NameVerdict, Lex, LE16, LE32, AName, Value, FileOrder, NoNul, Judge;
    var a := bs[i];
    SkipMeans(vol, q, a);
    if AType(a) == AType(b) {
      var x, y := AName(a), AName(b);
      FileOrderTotal(vol, y, x, x);
      if NamedAs(vol, a, q) {
        if q.val.Some? && FileOrder(vol, x, y) > 0 {
          var j :| 0 <= j <= i && NamedAs(vol, bs[j], q) && !NonResident(bs[j]) && Lex(Value(bs[j]), q.val.value) > 0;
          SkippedIsSmaller(vol, q, bs[j]);
        }
        if q.val.Some? {
          SkippedIsSmaller(vol, q, a);
        }
      }
    }
  }

  /** What is skipped is of a smaller type, or of a smaller name, or there is a value. */
  lemma SkipMeans(vol: Volume, q: Query, b: Blob)
    requires WellFormed(b) && (q.name.Named? ==> NoNul(vol, q.name.n)) && Judge(vol, q, false, b) == Skip
    ensures AType(b) <= q.atype
    ensures AType(b) == q.atype && q.name.Named? && !NamedAs(vol, b, q) ==>
              FileOrder(vol, q.name.n, AName(b)) > 0 || Misled(vol, q.name.n, AName(b))
    ensures AType(b) == q.atype && q.name.Unnamed? ==> NamedAs(vol, b, q)
    ensures NamedAs(vol, b, q) ==> q.val.Some?
  {
    hide NameVerdict, Lex, LE16, LE32, AName, Value, FileOrder, NoNul;
    if q.name.Named? {
      NameVerdictMeans(vol, q.name.n, AName(b));
      FileOrderTotal(vol, q.name.n, AName(b), AName(b));
      SameNameSelf(vol, q.name.n);
    }
  }

  lemma SameNameSelf(vol: Volume, n: Name)
    ensures SameName(vol, n, n)
  {
  }

  /** Where the search gives up the type is greater, or the name, or the value. */
  lemma PastMeans(vol: Volume, q: Query, b: Blob)
    requires WellFormed(b) && (q.name.Named? ==> NoNul(vol, q.name.n)) && Judge(vol, q, false, b) == Past
    ensures AType(b) >= q.atype
    ensures AType(b) == q.atype && q.name.Named? && !NamedAs(vol, b, q) ==> FileOrder(vol, q.name.n, AName(b)) < 0
    ensures NamedAs(vol, b, q) ==> q.val.Some?
  {
    hide NameVerdict, Lex, LE16, LE32, AName, Value, FileOrder, NoNul;
    if q.name.Named? {
      NameVerdictMeans(vol, q.name.n, AName(b));
    }
  }

  lemma RestIsBehind(vol: Volume, bs: seq<Blob>, q: Query, pos: nat, b: Blob, j: nat)
    requires AllWellFormed(bs) && Sorted(vol, bs) && Askable(vol, bs, q) && pos <= j < |bs|
    requires WellFormed(b) && Specified(q, b) && Places(vol, bs, q, b)
    requires Judge(vol, q, false, bs[pos]) == Past
    ensures InOrder(vol, b, bs[j])
  {
    hide NameVerdict, Lex, LE16, LE32, AName, Value, FileOrder, NoNul, Judge;
    var a, c := bs[pos], bs[j];
    assert pos < j ==> InOrder(vol, a, c);
    PastMeans(vol, q, a);
    if AType(a) == AType(c) == AType(b) {
      var x, y, z := AName(a), AName(b), AName(c);
      FileOrderTotal(vol, y, x, z);
      FileOrderTotal(vol, x, z, y);
      FileOrderTotal(vol, z, y, x);
      FileOrderTotal(vol, z, x, y);
      EmptyFirst(vol, x);
      if NamedAs(vol, a, q) {
        SkippedIsSmaller(vol, q, a);
        LexAntisymmetric(q.val.value, Value(a));
        LexTransitiveIf(q.val.value, Value(a), Value(c));
      }
    }
  }

  /** And the other way round. */
  lemma SortedPlaces(vol: Volume, bs: seq<Blob>, q: Query, pos: nat, b: Blob)
    requires AllWellFormed(bs) && Sorted(vol, bs) && Askable(vol, bs, q) && Answers(vol, bs, 0, q, false, ENOENT, pos)
    requires WellFormed(b) && Specified(q, b)
    requires forall i :: 0 <= i < pos ==> InOrder(vol, bs[i], b)
    requires forall j :: pos <= j < |bs| ==> InOrder(vol, b, bs[j])
    ensures Places(vol, bs, q, b)
  {
    hide NameVerdict, Lex, LE16, LE32, AName, Value, FileOrder, NoNul, Judge, Sorted;
    forall i | 0 <= i < |bs| && NamedAs(vol, bs[i], q) && q.val.Some? && !NonResident(bs[i])
      ensures FileOrder(vol, AName(bs[i]), AName(b)) < 0 ==> Lex(Value(bs[i]), q.val.value) < 0
      ensures FileOrder(vol, AName(bs[i]), AName(b)) > 0 ==> Greater(vol, bs, q, i)
    {
      FileOrderTotal(vol, AName(bs[i]), AName(b), AName(b));
      if i < pos {
        assert InOrder(vol, bs[i], b);
        SkippedIsSmaller(vol, q, bs[i]);
      } else {
        assert InOrder(vol, b, bs[i]);
        if FileOrder(vol, AName(bs[i]), AName(b)) > 0 {
          BetweenVariants(vol, bs, q, pos, b, i);
        }
      }
    }
  }

  lemma BetweenVariants(vol: Volume, bs: seq<Blob>, q: Query, pos: nat, b: Blob, i: nat)
    requires AllWellFormed(bs) && Sorted(vol, bs) && Askable(vol, bs, q) && pos <= i < |bs|
    requires WellFormed(b) && Specified(q, b) && InOrder(vol, b, bs[pos]) && Judge(vol, q, false, bs[pos]) == Past
    requires NamedAs(vol, bs[i], q) && q.val.Some?
    ensures Greater(vol, bs, q, i)
  {
    hide NameVerdict, Lex, LE16, LE32, AName, Value, FileOrder, NoNul, Judge;
    var a, c := bs[pos], bs[i];
    assert pos < i ==> InOrder(vol, a, c);
    FileOrderTotal(vol, AName(a), AName(c), AName(b));
    FileOrderTotal(vol, AName(b), AName(a), AName(c));
    if q.name.Named? {
      SameNameFolded(vol, AName(b), AName(c));
      FoldedBlock(vol, AName(b), AName(a), AName(c));
    } else {
      EmptyFirst(vol, AName(a));
    }
    SkippedIsSmaller(vol, q, a);
  }

  lemma LexTransitiveIf(a: seq<byte>, b: seq<byte>, c: seq<byte>)
    ensures Lex(a, b) <= 0 && Lex(b, c) <= 0 ==> Lex(a, c) <= 0
    ensures Lex(b, b) == 0
  {
    LexEqual(b, b);
    if Lex(a, b) <= 0 && Lex(b, c) <= 0 {
      LexTransitive(a, b, c);
    }
  }
}
