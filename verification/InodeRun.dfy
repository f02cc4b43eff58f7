/** Any sequence of insertions, deletions and moves of attributes of an inode: the inode stays valid, and its attributes
    are those it had, with those inserted and without those deleted. */
module InodeRun {
  import opened Bytes
  import opened Collate
  import opened AttrArea
  import opened Attr
  import opened AttrSearch
  import opened InodeState
  import opened Insertion
  import opened InodeFacts
  import opened AttrLookup
  import opened Inode

  /** What a caller does: insert an attribute unless it is there, delete one, or move one to a record of its own. */
  datatype Op =
    | Insert(n: New)
    | Delete(q: Query)
    | Move(q: Query, remapped: bool)

  // ----- What an operation does to the attributes

  type Bag = multiset<Blob>

  ghost predicate HeldIn(vol: Volume, q: Query, t: Bag) {
    exists c :: c in t && WellFormed(c) && Matches(vol, q, c)
  }

  ghost predicate Step(vol: Volume, op: Op, t: Bag, t': Bag) {
    match op
    case Insert(n) =>
      if HeldIn(vol, QueryFor(n), t) then t' == t else Proper(vol, n) && t' == t + multiset{BlobFor(n, 0)}
    case Delete(q) =>
      if HeldIn(vol, q, t) then exists c :: c in t && WellFormed(c) && Matches(vol, q, c) && t' == t - multiset{c}
      else t' == t
    case Move(q, _) => t' == t
  }

  ghost predicate Trace(vol: Volume, ops: seq<Op>, trace: seq<Bag>) {
    |trace| == |ops| + 1 && forall j :: 0 <= j < |ops| ==> Step(vol, ops[j], trace[j], trace[j + 1])
  }

  /** What an operation inserts and what it deletes. */
  ghost function Gain(vol: Volume, op: Op, t: Bag): (r: Bag) {
    if op.Insert? && Proper(vol, op.n) && !HeldIn(vol, QueryFor(op.n), t) then multiset{BlobFor(op.n, 0)}
    else multiset{}
  }

  ghost function Loss(op: Op, t: Bag, t': Bag): (r: Bag) {
    if op.Delete? then t - t' else multiset{}
  }

  ghost function Gains(vol: Volume, ops: seq<Op>, trace: seq<Bag>): (r: Bag)
    requires |trace| == |ops| + 1
  {
    if ops == [] then multiset{} else Gain(vol, ops[0], trace[0]) + Gains(vol, ops[1..], trace[1..])
  }

  ghost function Losses(ops: seq<Op>, trace: seq<Bag>): (r: Bag)
    requires |trace| == |ops| + 1
  {
    if ops == [] then multiset{} else Loss(ops[0], trace[0], trace[1]) + Losses(ops[1..], trace[1..])
  }

  lemma StepBalance(vol: Volume, op: Op, t: Bag, t': Bag)
    requires Step(vol, op, t, t')
    ensures t' + Loss(op, t, t') == t + Gain(vol, op, t) && |Loss(op, t, t')| <= 1
  {
    hide WellFormed, Matches, Proper, BlobFor, HeldIn;
    if op.Delete? {
      if HeldIn(vol, op.q, t) {
        var c :| c in t && WellFormed(c) && Matches(vol, op.q, c) && t' == t - multiset{c};
        OneTaken(t, c);
      }
      NothingTaken(t);
    }
  }

  lemma OneTaken(t: Bag, c: Blob)
    requires c in t
    ensures t - (t - multiset{c}) == multiset{c} && (t - multiset{c}) + multiset{c} == t
  {
  }

  lemma NothingTaken(t: Bag)
    ensures t - t == multiset{}
  {
  }

  /** Conservation: nothing comes or goes but what is inserted or deleted, and a deletion takes one attribute at
      most. */
  lemma {:induction false} Conserved(vol: Volume, ops: seq<Op>, trace: seq<Bag>)
    requires Trace(vol, ops, trace)
    ensures trace[|ops|] + Losses(ops, trace) == trace[0] + Gains(vol, ops, trace)
    ensures |Losses(ops, trace)| <= |ops|
  {
    hide Step, Gain, Loss;
    if ops != [] {
      StepBalance(vol, ops[0], trace[0], trace[1]);
      var l, g := Losses(ops[1..], trace[1..]), Gains(vol, ops[1..], trace[1..]);
      Conserved(vol, ops[1..], trace[1..]);
      Balance(trace[1], Loss(ops[0], trace[0], trace[1]), trace[0], Gain(vol, ops[0], trace[0]), trace[|ops|], l, g);
    }
  }

  lemma Balance(b: Bag, l: Bag, a: Bag, g: Bag, c: Bag, m: Bag, h: Bag)
    requires b + l == a + g && c + m == b + h
    ensures c + (l + m) == a + (g + h) && |l + m| == |l| + |m|
  {
    assert c + (l + m) == (c + m) + l == (b + l) + h == a + (g + h);
  }

  // ----- What may be asked for

  /** All attributes there may ever be: those of the inode and those to be inserted. */
  ghost function World(vol: Volume, attrs: seq<Blob>, ops: seq<Op>): (r: seq<Blob>)
    ensures forall c :: c in attrs ==> c in r
    ensures forall j :: 0 <= j < |ops| && ops[j].Insert? && Proper(vol, ops[j].n) ==> BlobFor(ops[j].n, 0) in r
  {
    if ops == [] then attrs
    else (if ops[0].Insert? && Proper(vol, ops[0].n) then [BlobFor(ops[0].n, 0)] else []) + World(vol, attrs, ops[1..])
  }

  /** Every question is well put, whatever has happened before; what is to be inserted fits in an mft record. */
  ghost predicate Planned(vol: Volume, first: nat, alloc: nat, op: Op, world: seq<Blob>) {
    && AllWellFormed(world)
    && match op
       case Insert(n) =>
         Proper(vol, n) && Spelled(vol, n, world) && first + ResidentLength(|n.name|, |ValueFor(n)|) + 8 <= alloc
       case Delete(q) => WellPut(vol, q, world)
       case Move(q, _) => WellPut(vol, q, world)
  }

  ghost predicate Within(attrs: seq<Blob>, world: seq<Blob>) {
    forall i :: 0 <= i < |attrs| ==> attrs[i] in world
  }

  lemma WithinSpelled(vol: Volume, n: New, attrs: seq<Blob>, world: seq<Blob>)
    requires AllWellFormed(world) && Within(attrs, world) && Spelled(vol, n, world)
    ensures AllWellFormed(attrs) && Spelled(vol, n, attrs)
  {
    hide WellFormed, SameFolded, AName, LE32, NonResident;
  }

  lemma WithinWellPut(vol: Volume, q: Query, attrs: seq<Blob>, world: seq<Blob>)
    requires Within(attrs, world) && WellPut(vol, q, world)
    ensures WellPut(vol, q, attrs)
  {
    hide WellFormed, NamedAs, AName, LE32, NonResident, Legal, NoNul, Collatable;
  }

  lemma HeldIsHeld(vol: Volume, q: Query, attrs: seq<Blob>)
    ensures Holds(vol, q, attrs) <==> HeldIn(vol, q, multiset(attrs))
  {
    hide WellFormed, Matches;
    if i :| 0 <= i < |attrs| && WellFormed(attrs[i]) && Matches(vol, q, attrs[i]) {
      assert attrs[i] in multiset(attrs);
    }
  }

  lemma InsertStep(vol: Volume, n: New, before: seq<Blob>, after: seq<Blob>, world: seq<Blob>)
    requires Proper(vol, n) && !Holds(vol, QueryFor(n), before) && PutInto(before, BlobFor(n, 0), after)
    requires Within(before, world) && BlobFor(n, 0) in world
    ensures Step(vol, Insert(n), multiset(before), multiset(after)) && Within(after, world)
  {
    hide WellFormed, Matches, Holds, HeldIn, Proper, BlobFor, PutAt;
    HeldIsHeld(vol, QueryFor(n), before);
    var k :| 0 <= k <= |before| && PutAt(before, BlobFor(n, 0), after, k);
    BagWith(before, BlobFor(n, 0), after, k);
  }

  lemma BagWith(s: seq<Blob>, x: Blob, r: seq<Blob>, k: nat)
    requires k <= |s| && PutAt(s, x, r, k)
    ensures multiset(r) == multiset(s) + multiset{x} && forall i :: 0 <= i < |r| ==> r[i] == x || r[i] in s
  {
    assert s == s[..k] + s[k..];
  }

  lemma BagWithout(s: seq<Blob>, k: nat)
    requires k < |s|
    ensures s[k] in multiset(s) && multiset(Without(s, k)) == multiset(s) - multiset{s[k]}
  {
    assert s == s[..k] + [s[k]] + s[k + 1..];
  }

  lemma DeleteStep(vol: Volume, q: Query, before: seq<Blob>, after: seq<Blob>, world: seq<Blob>)
    requires TakenFrom(vol, q, before, after) && Within(before, world)
    ensures Step(vol, Delete(q), multiset(before), multiset(after)) && Within(after, world)
  {
    hide WellFormed, Matches, HeldIn, Without;
    var k :| 0 <= k < |before| && WellFormed(before[k]) && Matches(vol, q, before[k])
      && multiset(after) == multiset(Without(before, k));
    HeldIsHeld(vol, q, before);
    BagWithout(before, k);
    forall i | 0 <= i < |after|
      ensures after[i] in world
    {
      assert after[i] in multiset(after);
    }
  }

  lemma SameStep(vol: Volume, op: Op, before: seq<Blob>, after: seq<Blob>, world: seq<Blob>)
    requires multiset(before) == multiset(after) && Within(before, world)
    requires op.Insert? ==> Holds(vol, QueryFor(op.n), before)
    requires op.Delete? ==> !Holds(vol, op.q, before)
    ensures Step(vol, op, multiset(before), multiset(after)) && Within(after, world)
  {
    hide WellFormed, Matches, Holds, HeldIn, Proper, BlobFor;
    if op.Insert? {
      HeldIsHeld(vol, QueryFor(op.n), before);
    }
    if op.Delete? {
      HeldIsHeld(vol, op.q, before);
    }
    forall i | 0 <= i < |after|
      ensures after[i] in world
    {
      assert after[i] in multiset(after);
    }
  }

  // ----- Runs

  /** Why a run may stop: something outside has failed, the outcome says what is in the way, or an insertion would make
      the instance numbers of the base record wrap around. */
  ghost predicate Stopped(ino: NtfsInode, op: Op, faults: nat, out: Outcome)
    reads ino
  {
    || faults < ino.faults
    || (!out.Fine? && !out.Present? && !out.Absent? && ino.Explained(out))
    || (op.Insert? && ino.base in ino.records && ino.records[ino.base].nextInst >= 0xfffe)
  }

  method Perform(ino: NtfsInode, op: Op, ghost world: seq<Blob>) returns (ok: bool, out: Outcome)
    requires ino.Valid() && Within(ino.Attributes(), world) && Planned(ino.vol, ino.first, ino.alloc, op, world)
    requires op.Insert? ==> BlobFor(op.n, 0) in world
    modifies ino
    ensures old(ino.faults) <= ino.faults
    ensures ok ==>
              && ino.Valid() && Within(ino.Attributes(), world)
              && Step(ino.vol, op, old(multiset(ino.Attributes())), multiset(ino.Attributes()))
    ensures !ok ==> Stopped(ino, op, old(ino.faults), out)
  {
    match op
    case Insert(n) => ok, out := PerformInsert(ino, n, world);
    case Delete(q) => ok, out := PerformDelete(ino, q, world);
    case Move(q, remapped) => ok, out := PerformMove(ino, q, remapped, world);
  }

  method PerformInsert(ino: NtfsInode, n: New, ghost world: seq<Blob>) returns (ok: bool, out: Outcome)
    requires ino.Valid() && Within(ino.Attributes(), world) && Planned(ino.vol, ino.first, ino.alloc, Insert(n), world)
    requires BlobFor(n, 0) in world
    modifies ino
    ensures old(ino.faults) <= ino.faults
    ensures ok ==> ino.Valid() && Within(ino.Attributes(), world)
    ensures ok ==> Step(ino.vol, Insert(n), old(multiset(ino.Attributes())), multiset(ino.Attributes()))
    ensures !ok ==> Stopped(ino, Insert(n), old(ino.faults), out)
  {
    hide ino.Valid, ino.Attributes, ino.Explained, WellFormed, Within, Step, Proper, Spelled, BlobFor, WellPut, Holds,
         PutInto, Reaches, ResidentLength, AllWellFormed;
    ghost var before := ino.Attributes();
    BaseThere(ino);
    if ino.records[ino.base].nextInst >= 0xfffe {
      return false, Fine;
    }
    WithinSpelled(ino.vol, n, before, world);
    var err, ctx;
    err, out, ctx := ino.LookupAndInsert(n);
    ok := err == 0 || out.Present?;
    if err == 0 {
      InsertStep(ino.vol, n, before, ino.Attributes(), world);
    } else if ok {
      SameStep(ino.vol, Insert(n), before, ino.Attributes(), world);
    }
  }

  method PerformDelete(ino: NtfsInode, q: Query, ghost world: seq<Blob>) returns (ok: bool, out: Outcome)
    requires ino.Valid() && Within(ino.Attributes(), world) && Planned(ino.vol, ino.first, ino.alloc, Delete(q), world)
    modifies ino
    ensures old(ino.faults) <= ino.faults
    ensures ok ==> ino.Valid() && Within(ino.Attributes(), world)
    ensures ok ==> Step(ino.vol, Delete(q), old(multiset(ino.Attributes())), multiset(ino.Attributes()))
    ensures !ok ==> Stopped(ino, Delete(q), old(ino.faults), out)
  {
    hide ino.Valid, ino.Attributes, ino.Explained, WellFormed, Within, Step, WellPut, Holds, TakenFrom, AllWellFormed;
    ghost var before := ino.Attributes();
    WithinWellPut(ino.vol, q, before, world);
    var err;
    err, out := ino.LookupAndDelete(q);
    ok := err == 0 || out.Absent?;
    if err == 0 {
      DeleteStep(ino.vol, q, before, ino.Attributes(), world);
    } else if ok {
      SameStep(ino.vol, Delete(q), before, ino.Attributes(), world);
    }
  }

  method PerformMove(ino: NtfsInode, q: Query, remapped: bool, ghost world: seq<Blob>) returns (ok: bool, out: Outcome)
    requires ino.Valid() && Within(ino.Attributes(), world)
    requires Planned(ino.vol, ino.first, ino.alloc, Move(q, remapped), world)
    modifies ino
    ensures old(ino.faults) <= ino.faults
    ensures ok ==> ino.Valid() && Within(ino.Attributes(), world)
    ensures ok ==> Step(ino.vol, Move(q, remapped), old(multiset(ino.Attributes())), multiset(ino.Attributes()))
    ensures !ok ==> Stopped(ino, Move(q, remapped), old(ino.faults), out)
  {
    hide ino.Valid, ino.Explained, WellFormed, Within, Step, WellPut, Holds, AllWellFormed, Matches, EntryOf, Contents,
         AnonAll;
    ghost var before := ino.Attributes();
    WithinWellPut(ino.vol, q, before, world);
    out, ok := Fine, true;
    var err, ref, pos, k := ino.Lookup(q, 0);
    if err == 0 && ino.hasList && |ino.records[ref].attrs| > 1 {
      var lost, ctx;
      err, lost, ctx := ino.RecordMove(ref, pos, k, remapped);
      ok := err == 0;
    }
    if ok {
      SameStep(ino.vol, Move(q, remapped), before, ino.Attributes(), world);
    }
  }

  /** Carries out the operations one after the other. */
  method Run(ino: NtfsInode, ops: seq<Op>) returns (done: nat, out: Outcome, ghost trace: seq<Bag>)
    requires ino.Valid()
    requires forall j :: 0 <= j < |ops| ==>
             Planned(ino.vol, ino.first, ino.alloc, ops[j], World(ino.vol, ino.Attributes(), ops))
    modifies ino
    ensures done <= |ops| && Trace(ino.vol, ops[..done], trace) && trace[0] == old(multiset(ino.Attributes()))
    ensures done == |ops| ==> ino.Valid() && multiset(ino.Attributes()) == trace[done]
    ensures done == |ops| ==>
              multiset(ino.Attributes()) + Losses(ops, trace)
                == old(multiset(ino.Attributes())) + Gains(ino.vol, ops, trace)
    ensures done < |ops| ==> Stopped(ino, ops[done], old(ino.faults), out)
  {
    hide ino.Valid, ino.Attributes, ino.Explained, Within, Planned, World, Step, Gains, Losses, BlobFor;
    ghost var world := World(ino.vol, ino.Attributes(), ops);
    done, out, trace := 0, Fine, [multiset(ino.Attributes())];
    WithinAll(ino.Attributes(), world);
    while done < |ops|
      invariant ino.Valid() && Within(ino.Attributes(), world) && old(ino.faults) <= ino.faults
      invariant done <= |ops| && |trace| == done + 1 && trace[0] == old(multiset(ino.Attributes()))
      invariant trace[done] == multiset(ino.Attributes())
      invariant forall j :: 0 <= j < done ==> Step(ino.vol, ops[j], trace[j], trace[j + 1])
    {
      if ops[done].Insert? {
        PlannedProper(ino.vol, ino.first, ino.alloc, ops[done], world);
      }
      var ok;
      ok, out := Perform(ino, ops[done], world);
      if !ok {
        return;
      }
      trace := trace + [multiset(ino.Attributes())];
      done := done + 1;
    }
    assert ops[..done] == ops;
    Conserved(ino.vol, ops, trace);
  }

  lemma WithinAll(attrs: seq<Blob>, world: seq<Blob>)
    requires forall c :: c in attrs ==> c in world
    ensures Within(attrs, world)
  {
  }

  lemma PlannedProper(vol: Volume, first: nat, alloc: nat, op: Op, world: seq<Blob>)
    requires Planned(vol, first, alloc, op, world) && op.Insert?
    ensures Proper(vol, op.n)
  {
  }

  lemma BaseThere(ino: NtfsInode)
    requires ino.Valid()
    ensures ino.base in ino.records
  {
  }
}
