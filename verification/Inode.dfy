/** Inserting, moving and deleting attributes of an inode, and keeping its attribute list (kext/ntfs_attr.c and
    kext/ntfs_attr_list.c).

    The driver keeps the attribute list in memory and writes the part that changed back to the list attribute,
    making room for it in the base mft record by moving other attributes out to extent records. */
module Inode {
  import opened Errno
  import opened Bytes
  import opened Collate
  import opened AttrArea
  import opened Attr
  import opened AttrSearch
  import opened InodeState
  import opened InodeSteps
  import opened ListBytes
  import opened ListAttr
  import opened ListSync
  import opened Context
  import opened ListLookup
  import opened Insertion
  import opened InodeFacts
  import opened AttrLookup

  class NtfsInode {
    const vol: Volume
    const base: nat
    const first: nat
    const alloc: nat
    const clusterSize: nat
    const isMft: bool
    var records: Records
    var hasList: bool
    var list: seq<Entry>
    var disk: seq<byte>
    /** The runlist of the attribute list still has its elements, although there is no list any more. */
    var stale: bool
    /** How often something outside has failed: the allocation of mft records, clusters or memory, or writing to
        disk. */
    ghost var faults: nat

    ghost predicate Layout()
      reads `records
    {
      LaidOut(records, base, first, alloc) && 0 < clusterSize <= MAX_CLUSTER_SIZE
    }

    /** The inode between operations: with a list, the list has an entry for every attribute and is stored as it is
        cached; without one, all attributes are in the base record. */
    ghost predicate Valid()
      reads `records, `hasList, `list, `disk
    {
      && Layout()
      && if hasList then InSync(vol, base, records, list, disk) && ListSize(list) <= MAX_ATTR_LIST_SIZE
         else PlainInv(vol, base, records) && list == []
    }

    /** The cached list is what the records hold, and what is stored agrees with it below `ofs`; the context points
        at the attribute of entry `kc`. */
    ghost predicate Syncing(ofs: nat, ctx: Option<Ctx>, kc: nat)
      reads `records, `list, `disk
    {
      && Layout() && Synced(vol, base, records, list, disk, ofs)
      && Follows(vol, records, list, ctx, kc)
    }

    /** Records and cached list belong together, whatever is stored. */
    ghost predicate Consistent(ctx: Option<Ctx>, kc: nat)
      reads `records, `list
    {
      Layout() && Linked(vol, base, records, list) && Follows(vol, records, list, ctx, kc)
    }

    // ----- What may fail

    ghost predicate Unharmed(before: nat, err: int)
      reads `faults
    {
      before <= faults && (err == 0 <==> faults == before)
    }

    /** What stands in the way when nothing outside has failed. */
    ghost predicate Explained(out: Outcome)
      reads `records, `hasList, `list, `stale
    {
      match out
      case Fine => true
      case Present => true
      case Absent => true
      case Exhausted => base in records && |records[base].attrs| == 1
      case NoRoom(need) => base in records && ListTooLong(records[base], need)
      case Grew(need) => base in records && ListGrew(records[base], need)
      case Ragged => base in records && 0 < clusterSize && ListRagged(records[base], ListSize(list), clusterSize)
      case LastEntry => hasList && |list| == 1
      case Alone(len) => base in records && |records[base].attrs| == 1 && InUse(records[base]) + len > alloc
      case Stale => !hasList && stale
      case Split => !hasList && base in records && !AllStart(records[base].attrs)
      case TooMany => !hasList && base in records && TooManyFor(base, records[base])
      case Full(len) => hasList && ListSize(list) + len > MAX_ATTR_LIST_SIZE
      case OutOfSpace(need) =>
        !hasList && base in records && InUse(records[base]) + need > alloc && !HasFixed(records[base].attrs)
      case NoCache(need) =>
        !hasList && base in records && InUse(records[base]) + need > alloc && HasFixed(records[base].attrs)
    }

    /** An error is due to one failure outside, or to what the outcome says. */
    ghost predicate Settled(before: nat, err: int, out: Outcome)
      reads `records, `hasList, `list, `stale, `faults
    {
      && before <= faults && (err == 0 <==> faults == before && out.Fine?) && (out.Fine? || faults == before)
      && Explained(out)
    }

    /** `ntfs_mft_record_alloc`: an mft record not in use, or an error. */
    method AllocExtent() returns (err: int, ref: nat)
      modifies `faults
      ensures Unharmed(old(faults), err)
      ensures err == 0 ==> ref !in records && ref < MAX_REF
    {
      ref := *;
      err := 0;
      if ref in records || ref >= MAX_REF {
        err := ENOSPC;
        faults := faults + 1;
      }
    }

    /** `ntfs_cluster_alloc`, or a change of the runlist, and the mapping pairs that result. */
    method MapClusters() returns (err: int, mp: seq<byte>)
      modifies `faults
      ensures Unharmed(old(faults), err)
      ensures err == 0 ==> |mp| < 0x1000_0000 && |mp| % 8 == 0
    {
      var granted: bool;
      granted, mp := *, *;
      err := 0;
      if !granted || |mp| >= 0x1000_0000 || |mp| % 8 != 0 {
        err := ENOSPC;
        faults := faults + 1;
      }
    }

    /** `ntfs_rl_write`: `value` becomes the list on disk, or what is there is lost. */
    method WriteDisk(value: seq<byte>) returns (err: int)
      modifies `disk, `faults
      ensures Unharmed(old(faults), err)
      ensures err == 0 ==> disk == value
    {
      var written: bool := *;
      if written {
        err, disk := 0, value;
      } else {
        err, disk := EIO, *;
        faults := faults + 1;
      }
    }

    /** Memory for a buffer. */
    method NeedMemory() returns (err: int)
      modifies `faults
      ensures Unharmed(old(faults), err)
    {
      var granted: bool := *;
      err := 0;
      if !granted {
        err := ENOMEM;
        faults := faults + 1;
      }
    }

    /** The extent record that the context points into is mapped again at the end. If that fails the context is given
        up, with its own error; the operation has succeeded all the same. */
    method Remap(ctx: Option<Ctx>) returns (ctx': Option<Ctx>)
      ensures ctx' == ctx || (ctx'.None? && ctx.Some? && ctx.value.ref != base)
    {
      var mapped: bool := *;
      ctx' := if ctx.Some? && ctx.value.ref != base && !mapped then None else ctx;
    }

    // ----- Moving attributes out

    /** `ntfs_attr_record_move_for_attr_list_attribute`: attribute `pos` of the base record moves to a new extent
        record, entry `k` of `al` follows it, and so does the context. */
    method MoveForList(al: seq<Entry>, pos: nat, k: nat, ctx: Option<Ctx>, ghost kc: nat)
      returns (err: int, al': seq<Entry>, ctx': Option<Ctx>, ghost newRef: nat)
      requires Layout() && Linked(vol, base, records, al)
      requires pos < |records[base].attrs| && k < |al| && WellFormed(records[base].attrs[pos])
      requires al[k] == EntryOf(base, records[base].attrs[pos]) && al[k].atype != AT_ATTRIBUTE_LIST
      requires Follows(vol, records, al, ctx, kc)
      modifies `records, `faults
      ensures Unharmed(old(faults), err)
      ensures ctx'.Some? == ctx.Some?
      ensures err != 0 ==> records == old(records) && al' == al && ctx' == ctx
      ensures err == 0 ==>
                && newRef < MAX_REF
                && CanMove(vol, base, old(records), al, base, pos, k, newRef, first, alloc)
                && records == MovedRecords(old(records), base, pos, newRef, first, alloc)
                && al' == MovedList(al, k, newRef)
                && Follows(vol, records, al', ctx', kc)
    {
      hide RecOk, WellFormed, EntryOf, Linked, PointsTo, Flatten, Offset, InUse, LE16, LE32;
      al', ctx' := al, ctx;
      var ref: nat;
      err, ref := AllocExtent();
      newRef := ref;
      if err != 0 {
        return;
      }
      LinkedFormed(vol, base, records, al);
      FitsAlone(vol, records[base], pos);
      if ctx.Some? {
        ContextFollows(vol, base, records, al, pos, k, ref, first, alloc, ctx.value, kc);
      }
      var rec := records[base];
      var b := rec.attrs[pos];
      // make space in the new record and copy, then delete from the base record
      records := records[base := rec.(attrs := rec.attrs[..pos] + rec.attrs[pos + 1..])]
                        [ref := Rec([WithInstance(b, 0)], first, alloc, 1)];
      al' := al[k := al[k].(mref := ref, instance := 0)];
      if ctx.Some? {
        ctx' := Some(FixContext(ctx.value, base, first + Offset(rec.attrs, pos), |b|, ref, first));
      }
    }

    /** The search for the entry of attribute `pos` of the base record. It finds the entry of just this attribute,
        so neither of the driver's checks for a corrupt list can fail. */
    method FindEntry(pos: nat) returns (k: nat)
      requires Linked(vol, base, records, list) && pos < |records[base].attrs|
      requires WellFormed(records[base].attrs[pos]) && AType(records[base].attrs[pos]) != AT_ATTRIBUTE_LIST
      ensures k < |list| && list[k] == EntryOf(base, records[base].attrs[pos])
    {
      hide RecOk, WellFormed, ListSorted, EntriesResolve, ExtentsOk, LE16, LE32, AName, LowestVcn;
      var b := records[base].attrs[pos];
      FormedIn(vol, records, base);
      assert Listed(base, records[base].attrs, list);
      ghost var l :| 0 <= l < |list| && list[l] == EntryOf(base, b);
      k := 0;
      while k < |list| && (list[k].mref != base || list[k].instance != Instance(b))
        invariant 0 <= k <= l
      {
        k := k + 1;
      }
    }

    /** One round of the loops that make room: find the entry of the attribute, move the attribute out, and lower
        the offset from which the list has to be written. */
    method MoveOut(pos: nat, alOfs: nat, ctx: Option<Ctx>, ghost kc: nat)
      returns (err: int, ofs: nat, ctx': Option<Ctx>)
      requires Syncing(alOfs, ctx, kc)
      requires pos < |records[base].attrs| && WellFormed(records[base].attrs[pos])
      requires AType(records[base].attrs[pos]) != AT_ATTRIBUTE_LIST
      modifies `records, `list, `faults
      ensures Unharmed(old(faults), err)
      ensures ctx'.Some? == ctx.Some?
      ensures Syncing(ofs, ctx', kc) && SameKeys(old(list), list)
      ensures Contents(records, list) == old(Contents(records, list))
      ensures err != 0 ==> records == old(records) && list == old(list)
      ensures err == 0 ==> records[base] == old(records[base]).(attrs := Without(old(records[base].attrs), pos))
    {
      hide RecOk, WellFormed, EntryOf, ListSorted, EntriesDistinct, EntriesResolve, AttrsListed, ExtentsOk, Contents,
           Follows, HasListAttr, Agrees, LaidOut, Fits, ListSize, InUse, LE32, LE16;
      var k := FindEntry(pos);
      EntryFields(base, records[base].attrs[pos]);
      ghost var rs, es := records, list;
      var al;
      ghost var newRef;
      err, al, ctx', newRef := MoveForList(list, pos, k, ctx, kc);
      ofs := alOfs;
      if err == 0 {
        MoveKeeps(vol, base, rs, es, base, pos, k, newRef, first, alloc);
        MoveSynced(vol, base, rs, es, disk, alOfs, pos, k, newRef, first, alloc);
        MovedLayout(vol, base, rs, pos, newRef, first, alloc);
        MovedKeys(es, es, k, newRef);
        var o := ListSize(list[..k]);
        if o < ofs {
          ofs := o;
        }
        list := al;
      }
    }

    /** The search for the attribute list attribute in the base record, which cannot fail. */
    method FindListAttr() returns (p: nat)
      requires base in records && RecOk(vol, records[base]) && HasListAttr(records[base].attrs)
      requires NameLength(ListBlob(records[base].attrs)) == 0
      ensures OnlyListAt(records[base].attrs, p) && p == ListIndex(records[base].attrs)
    {
      hide WellFormed, Sorted, LE32, LE16, Flatten, Judge, InstancesDistinct, InstancesBelow;
      var bs := records[base].attrs;
      var q := Query(AT_ATTRIBUTE_LIST, Unnamed, None);
      var err;
      err, p := FindInRecord(vol, bs, 0, q, false);
      SearchIsExhaustive(vol, bs, 0, q, err, p);
      assert Matches(vol, q, bs[ListIndex(bs)]);
    }

    /** The loop of `ntfs_attr_list_sync_extend` that makes room for a resident list: attributes other than the
        standard information and index roots move out until `need` bytes are free. It gives up when those that stay
        take too much or nothing is left to move. */
    method MakeRoomResident(need: nat, alOfs: nat, ctx: Option<Ctx>, ghost kc: nat)
      returns (err: int, room: bool, ofs: nat, ctx': Option<Ctx>)
      requires Syncing(alOfs, ctx, kc)
      modifies `records, `list, `faults
      ensures Unharmed(old(faults), err)
      ensures ctx'.Some? == ctx.Some?
      ensures Syncing(ofs, ctx', kc) && SameKeys(old(list), list)
      ensures Contents(records, list) == old(Contents(records, list))
      ensures ListIndex(records[base].attrs) == old(ListIndex(records[base].attrs))
      ensures ListBlob(records[base].attrs) == old(ListBlob(records[base].attrs))
      ensures err == 0 && room ==> need <= alloc - InUse(records[base])
    {
      hide RecOk, WellFormed, EntryOf, ListSorted, EntriesDistinct, EntriesResolve, AttrsListed, ExtentsOk, Contents,
           Follows, HasListAttr, Agrees, LaidOut, Fits, ListSize, InUse, LE32, LE16, Answers, Without;
      err, room, ofs, ctx' := 0, false, alOfs, ctx;
      var free := alloc - first;
      if need > free {
        return;
      }
      var i := 0;
      while need > alloc - InUse(records[base])
        invariant ctx'.Some? == ctx.Some? && Syncing(ofs, ctx', kc) && SameKeys(old(list), list)
        invariant Contents(records, list) == old(Contents(records, list))
        invariant ListIndex(records[base].attrs) == old(ListIndex(records[base].attrs))
        invariant ListBlob(records[base].attrs) == old(ListBlob(records[base].attrs))
        invariant 0 <= i <= |records[base].attrs| && err == 0 && faults == old(faults)
        decreases |records[base].attrs| - i
      {
        ghost var rs := records;
        LinkedFormed(vol, base, records, list);
        var e, pos := FindInRecord(vol, records[base].attrs, i, Query(AT_UNUSED, AnyName, None), true);
        IterationStep(vol, records[base], i, AT_UNUSED, e, pos);
        if e != 0 {
          return;
        }
        var a := records[base].attrs[pos];
        if AType(a) == AT_ATTRIBUTE_LIST {
          i := pos + 1;
          continue;
        }
        if AType(a) == AT_STANDARD_INFORMATION || AType(a) == AT_INDEX_ROOT {
          free := free - |a|;
          if need > free {
            return;
          }
          i := pos + 1;
          continue;
        }
        MovesBehind(vol, base, records, list, first, alloc, pos);
        MoveListBlob(vol, base, records, pos);
        err, ofs, ctx' := MoveOut(pos, ofs, ctx', kc);
        if err != 0 {
          return;
        }
        WithoutLength(rs[base].attrs, pos);
        i := pos;
      }
      room := true;
    }

    /** The loop that makes room for the record of a non-resident list, in up to four passes over the base record:
        first everything but standard information, index roots and the unnamed data moves out, then these, type by
        type. It is given up only when nothing but the attribute list attribute is left. */
    method MakeRoomNonResident(need: nat, alOfs: nat, ctx: Option<Ctx>, ghost kc: nat)
      returns (err: int, out: Outcome, ofs: nat, ctx': Option<Ctx>)
      requires Syncing(alOfs, ctx, kc)
      modifies `records, `list, `faults
      ensures Settled(old(faults), err, out) && (out.Fine? || out.Exhausted?)
      ensures ctx'.Some? == ctx.Some?
      ensures Syncing(ofs, ctx', kc) && SameKeys(old(list), list)
      ensures Contents(records, list) == old(Contents(records, list))
      ensures ListBlob(records[base].attrs) == old(ListBlob(records[base].attrs))
      ensures err == 0 ==> need <= alloc - InUse(records[base])
      ensures out.Exhausted? ==> err == ENOSPC && need > alloc - InUse(records[base])
    {
      hide RecOk, WellFormed, EntryOf, ListSorted, EntriesDistinct, EntriesResolve, AttrsListed, ExtentsOk, Contents,
           Follows, HasListAttr, Agrees, LaidOut, Fits, ListSize, InUse, LE32, LE16, Answers, Without, ListBlob, Swept,
           LeftBy, NextPass, PassesLeft;
      err, out, ofs, ctx' := 0, Fine, alOfs, ctx;
      var t: nat, i: nat := AT_UNUSED, 0;
      LinkedFormed(vol, base, records, list);
      SweptNone(records[base].attrs);
      while need > alloc - InUse(records[base])
        invariant ctx'.Some? == ctx.Some? && Syncing(ofs, ctx', kc) && SameKeys(old(list), list)
        invariant Contents(records, list) == old(Contents(records, list))
        invariant ListBlob(records[base].attrs) == old(ListBlob(records[base].attrs))
        invariant 0 <= i <= |records[base].attrs| && err == 0 && out.Fine? && faults == old(faults)
        invariant Swept(records[base].attrs, t, i)
        decreases PassesLeft(t), |records[base].attrs| - i
      {
        ghost var rs := records;
        LinkedFormed(vol, base, records, list);
        var e, pos := FindInRecord(vol, records[base].attrs, i, Query(t, AnyName, None), true);
        IterationStep(vol, records[base], i, t, e, pos);
        if e != 0 {
          if t == AT_STANDARD_INFORMATION {
            SweptTo(records[base].attrs, t, i, |records[base].attrs|);
            OnlyListLeft(records[base].attrs);
            err, out := ENOSPC, Exhausted;
            return;
          }
          SweptTo(records[base].attrs, t, i, |records[base].attrs|);
          SweptAll(records[base].attrs, t);
          t, i := NextPass(t), 0;
          continue;
        }
        SweptTo(records[base].attrs, t, i, pos);
        var a := records[base].attrs[pos];
        if t == AT_UNUSED {
          if LeftBy(AT_UNUSED, a) {
            SweptPast(records[base].attrs, pos);
            i := pos + 1;
            continue;
          }
        }
        MayMove(records[base].attrs, t, pos);
        MoveListBlob(vol, base, records, pos);
        SweptWithout(records[base].attrs, pos, t);
        err, ofs, ctx' := MoveOut(pos, ofs, ctx', kc);
        if err != 0 {
          return;
        }
        i := pos;
      }
    }

    /** The resident list value is resized to the cached list and overwritten with it from `ofs` on. */
    method WriteResident(p: nat, ofs: nat, ctx: Option<Ctx>, ghost kc: nat) returns (ctx': Option<Ctx>)
      requires Syncing(ofs, ctx, kc) && OnlyListAt(records[base].attrs, p) && ResidentList(records[base].attrs[p])
      requires ListSize(list) <= MAX_ATTR_LIST_SIZE
      requires InUse(records[base]) - |records[base].attrs[p]| + RESIDENT_SIZE + ListSize(list) <= alloc
      modifies `records
      ensures ctx'.Some? == ctx.Some?
      ensures Consistent(ctx', kc) && Contents(records, list) == old(Contents(records, list))
      ensures InSync(vol, base, records, list, disk)
    {
      hide RecOk, WellFormed, EntryOf, ListSorted, EntriesDistinct, EntriesResolve, AttrsListed, ExtentsOk, Contents,
           Follows, HasListAttr, LaidOut, Fits, ListSize, InUse, LE32, LE16, Encode, InSync, Value, ListWithValue,
           ResidentList;
      ListIndexIs(records[base].attrs, p);
      EncodeSize(list);
      var rec := records[base];
      var b := rec.attrs[p];
      ResidentIsStored(b, disk);
      WriteBack(b, list, disk, ofs);
      var nb := ListWithValue(b, WrittenFrom(Value(b), Encode(list), ofs));
      ListWithValueFields(b, Encode(list));
      ResidentIsStored(nb, disk);
      LayoutOf(records, base, first, alloc);
      StoreList(vol, base, records, list, p, nb, disk);
      ContextShifts(vol, base, records, list, p, nb, ctx, kc);
      ReplacedLayout(base, records, first, alloc, p, nb);
      records := records[base := rec.(attrs := rec.attrs[p := nb])];
      ctx' := ShiftContext(ctx, base, first + Offset(rec.attrs, p), |nb| - |b|);
      SyncedLinked(vol, base, records, list, disk);
    }

    /** The record of the non-resident list is replaced by `nb` and the value on disk overwritten with the cached list
        from `ofs` on, which may fail. */
    method WriteNonResident(p: nat, nb: Blob, ofs: nat, ctx: Option<Ctx>, ghost kc: nat)
      returns (err: int, ctx': Option<Ctx>)
      requires Consistent(ctx, kc) && AllFit(list) && OnlyListAt(records[base].attrs, p)
      requires NonResidentList(nb) && DataSize(nb) == ListSize(list) && Instance(nb) == Instance(records[base].attrs[p])
      requires InUse(records[base]) - |records[base].attrs[p]| + |nb| <= alloc
      requires ofs <= |disk| && ofs <= |Encode(list)| && disk[..ofs] == Encode(list)[..ofs]
      modifies `records, `disk, `faults
      ensures Unharmed(old(faults), err)
      ensures ctx'.Some? == ctx.Some?
      ensures Consistent(ctx', kc) && Contents(records, list) == old(Contents(records, list))
      ensures err == 0 ==> InSync(vol, base, records, list, disk)
    {
      hide RecOk, WellFormed, EntryOf, ListSorted, EntriesDistinct, EntriesResolve, AttrsListed, ExtentsOk, Contents,
           Follows, HasListAttr, LaidOut, Fits, ListSize, InUse, LE32, LE16, LE64, Encode, InSync, Value;
      ListIndexIs(records[base].attrs, p);
      EncodeSize(list);
      var rec := records[base];
      var b := rec.attrs[p];
      LayoutOf(records, base, first, alloc);
      StoreList(vol, base, records, list, p, nb, Encode(list));
      ContextShifts(vol, base, records, list, p, nb, ctx, kc);
      ReplacedLayout(base, records, first, alloc, p, nb);
      assert Encode(list) == Encode(list)[..ofs] + Encode(list)[ofs..];
      records := records[base := rec.(attrs := rec.attrs[p := nb])];
      ctx' := ShiftContext(ctx, base, first + Offset(rec.attrs, p), |nb| - |b|);
      SyncedLinked(vol, base, records, list, Encode(list));
      err := WriteDisk(WrittenFrom(disk, Encode(list), ofs));
    }

    /** The list attribute becomes non-resident and all of the list is written to the clusters allocated for it. The
        driver panics where this reports `NoRoom`, which cannot be if the non-resident record is no longer than the
        resident one. */
    method MakeNonResident(p: nat, ctx: Option<Ctx>, ghost kc: nat) returns (err: int, out: Outcome, ctx': Option<Ctx>)
      requires Consistent(ctx, kc) && AllFit(list) && OnlyListAt(records[base].attrs, p)
      requires ListSize(list) <= MAX_ATTR_LIST_SIZE
      modifies `records, `disk, `faults
      ensures Settled(old(faults), err, out) && (out.Fine? || out.NoRoom?)
      ensures out.NoRoom? ==>
                unchanged(`records, `disk) && out.need > |records[base].attrs[p]| && out.need >= NON_RESIDENT_SIZE
      ensures ctx'.Some? == ctx.Some?
      ensures Consistent(ctx', kc) && Contents(records, list) == old(Contents(records, list))
      ensures err == 0 ==> InSync(vol, base, records, list, disk)
    {
      hide RecOk, WellFormed, EntryOf, ListSorted, EntriesDistinct, EntriesResolve, AttrsListed, ExtentsOk, Contents,
           Follows, HasListAttr, LaidOut, Fits, ListSize, InUse, LE32, LE16, LE64, Encode, InSync, Value,
           NewNonResidentList, NonResidentList;
      out, ctx' := Fine, ctx;
      LinkedFormed(vol, base, records, list);
      LayoutOf(records, base, first, alloc);
      var b := records[base].attrs[p];
      var size := ListSize(list);
      var allocSize := ToCluster(size, clusterSize);
      var mp;
      err, mp := MapClusters();
      if err != 0 {
        return;
      }
      if InUse(records[base]) - |b| + RoundUp8(NON_RESIDENT_SIZE + |mp|) > alloc {
        ListIndexIs(records[base].attrs, p);
        UseFits(vol, records[base]);
        return ENOSPC, NoRoom(RoundUp8(NON_RESIDENT_SIZE + |mp|)), ctx;
      }
      InstanceFits(b);
      var nb := NewNonResidentList(Instance(b), mp, HighestVcn(allocSize, clusterSize), allocSize, size);
      NewNonResidentFields(Instance(b), mp, HighestVcn(allocSize, clusterSize), allocSize, size);
      err, ctx' := WriteNonResident(p, nb, 0, ctx, kc);
    }

    /** The rest of `ntfs_attr_list_sync_extend` for a list that already is non-resident. */
    method ExtendNonResident(p: nat, alOfs: nat, ctx: Option<Ctx>, ghost kc: nat)
      returns (err: int, out: Outcome, ctx': Option<Ctx>)
      requires Syncing(alOfs, ctx, kc) && OnlyListAt(records[base].attrs, p) && NonResidentList(records[base].attrs[p])
      requires DataSize(records[base].attrs[p]) == |disk| <= ListSize(list) <= MAX_ATTR_LIST_SIZE
      modifies `records, `list, `disk, `faults
      ensures Settled(old(faults), err, out) && (out.Fine? || out.Exhausted?)
      ensures ctx'.Some? == ctx.Some?
      ensures Consistent(ctx', kc) && Contents(records, list) == old(Contents(records, list))
      ensures SameKeys(old(list), list)
      ensures err == 0 ==> InSync(vol, base, records, list, disk)
    {
      hide RecOk, WellFormed, EntryOf, ListSorted, EntriesDistinct, EntriesResolve, AttrsListed, ExtentsOk, Contents,
           Follows, HasListAttr, LaidOut, Fits, ListSize, InUse, LE32, LE16, LE64, Encode, InSync, Value, GrownList,
           WithDataSize, NonResidentList;
      out, ctx' := Fine, ctx;
      ListIndexIs(records[base].attrs, p);
      LinkedFormed(vol, base, records, list);
      LayoutOf(records, base, first, alloc);
      var b := records[base].attrs[p];
      var size := ListSize(list);
      NonResidentIsStored(b, disk);
      UseFits(vol, records[base]);
      if size <= AllocatedSize(b) {
        WithDataSizeFields(b, size);
        err, ctx' := WriteNonResident(p, WithDataSize(b, size), alOfs, ctx, kc);
        return;
      }
      var allocSize := ToCluster(size, clusterSize);
      var mp;
      err, mp := MapClusters();
      if err != 0 {
        return;
      }
      var len := PairsOffset(b) + |mp|;
      var at, ofs := p, alOfs;
      if InUse(records[base]) - |b| + len > alloc {
        err, out, ofs, ctx' := MakeRoomNonResident(len - |b|, alOfs, ctx, kc);
        if err != 0 {
          return;
        }
        LinkedFormed(vol, base, records, list);
        at := FindListAttr();
      }
      KeysSize(old(list), list);
      GrownListFields(b, mp, HighestVcn(allocSize, clusterSize), allocSize, size);
      err, ctx' :=
        WriteNonResident(at, GrownList(b, mp, HighestVcn(allocSize, clusterSize), allocSize, size), ofs, ctx', kc);
    }

    /** `ntfs_attr_list_sync_extend` but for its end. */
    method ExtendList(alOfs: nat, ctx: Option<Ctx>, ghost kc: nat) returns (err: int, out: Outcome, ctx': Option<Ctx>)
      requires Syncing(alOfs, ctx, kc)
      requires |StoredValue(ListBlob(records[base].attrs), disk)| <= ListSize(list) <= MAX_ATTR_LIST_SIZE
      modifies `records, `list, `disk, `faults
      ensures Settled(old(faults), err, out) && (out.Fine? || out.Exhausted? || out.NoRoom?)
      ensures ctx'.Some? == ctx.Some?
      ensures Consistent(ctx', kc) && Contents(records, list) == old(Contents(records, list))
      ensures SameKeys(old(list), list)
      ensures err == 0 ==> InSync(vol, base, records, list, disk)
    {
      hide RecOk, WellFormed, EntryOf, ListSorted, EntriesDistinct, EntriesResolve, AttrsListed, ExtentsOk, Contents,
           Follows, HasListAttr, LaidOut, Fits, ListSize, InUse, LE32, LE16, LE64, Encode, InSync, Value,
           NonResidentList, ResidentList;
      err, out, ctx' := 0, Fine, ctx;
      LinkedFormed(vol, base, records, list);
      LayoutOf(records, base, first, alloc);
      ListIsUnnamed(ListBlob(records[base].attrs), disk);
      var p := FindListAttr();
      var b := records[base].attrs[p];
      var size := ListSize(list);
      ListSizeOf(b, disk);
      if NonResident(b) {
        if DataSize(b) == size {
          UseFits(vol, records[base]);
          err, ctx' := WriteNonResident(p, b, alOfs, ctx, kc);
        } else {
          err, out, ctx' := ExtendNonResident(p, alOfs, ctx, kc);
        }
        return;
      }
      if InUse(records[base]) - |b| + RESIDENT_SIZE + size <= alloc {
        ctx' := WriteResident(p, alOfs, ctx, kc);
        return;
      }
      var room, ofs;
      err, room, ofs, ctx' := MakeRoomResident(size - ValueLength(b), alOfs, ctx, kc);
      KeysSize(old(list), list);
      if err != 0 {
        return;
      }
      LinkedFormed(vol, base, records, list);
      if room {
        p := FindListAttr();
        ctx' := WriteResident(p, ofs, ctx', kc);
      } else {
        err, out, ctx' := MakeNonResident(p, ctx', kc);
      }
    }

    /** `ntfs_attr_list_sync_extend`: the list attribute is extended to the size of the cached list and rewritten from
        `alOfs` on, below which it agrees with it. Whatever else had to move on the way, afterwards the whole stored
        value is the cached list; on failure records and cached list still belong together. The context is given
        up only if the attribute is not in the base record. */
    method SyncExtend(alOfs: nat, ctx: Option<Ctx>, ghost kc: nat) returns (err: int, out: Outcome, ctx': Option<Ctx>)
      requires Syncing(alOfs, ctx, kc)
      requires |StoredValue(ListBlob(records[base].attrs), disk)| <= ListSize(list) <= MAX_ATTR_LIST_SIZE
      modifies `records, `list, `disk, `faults
      ensures Settled(old(faults), err, out) && (out.Fine? || out.Exhausted? || out.NoRoom?)
      ensures ctx.None? ==> ctx'.None?
      ensures ctx.Some? && ctx'.None? ==> kc < |list| && list[kc].mref != base
      ensures Consistent(ctx', kc) && Contents(records, list) == old(Contents(records, list))
      ensures SameKeys(old(list), list)
      ensures err == 0 ==> InSync(vol, base, records, list, disk)
    {
      hide Linked, Contents, InSync, Follows, LaidOut, Explained, SameKeys, Synced, ListSize, StoredValue;
      err, out, ctx' := ExtendList(alOfs, ctx, kc);
      if ctx'.Some? {
        FollowsAway(vol, records, list, ctx'.value, kc);
      }
      ctx' := Remap(ctx');
    }

    /** The record of a non-resident list that shrinks: other sizes and, when whole clusters are freed, other mapping
        pairs. The driver panics where this reports `Ragged`, which cannot be if the allocation is whole clusters, and
        where it reports `Grew`, which cannot be if fewer clusters take no more mapping pairs. */
    method ShrunkRecord(b: Blob, size: nat) returns (err: int, out: Outcome, nb: Blob)
      requires NonResidentList(b) && size <= DataSize(b) && size <= MAX_ATTR_LIST_SIZE
      requires 0 < clusterSize <= MAX_CLUSTER_SIZE
      modifies `faults
      ensures old(faults) <= faults && (err == 0 <==> faults == old(faults) && out.Fine?)
      ensures out.Fine? || faults == old(faults)
      ensures out.Fine? || out.Ragged? || out.Grew?
      ensures out.Ragged? <==> ToCluster(size, clusterSize) > AllocatedSize(b)
      ensures out.Ragged? ==> ToCluster(AllocatedSize(b), clusterSize) != AllocatedSize(b)
      ensures out.Grew? ==> out.need > |b|
      ensures err == 0 ==> NonResidentList(nb) && DataSize(nb) == size && Instance(nb) == Instance(b) && |nb| <= |b|
    {
      hide WellFormed, LE32, LE16, LE64, NonResidentList, GrownList, WithDataSize, ToCluster, HighestVcn;
      var allocSize := ToCluster(size, clusterSize);
      AllocatedEnough(b);
      out := Fine;
      if allocSize > AllocatedSize(b) {
        ClustersMonotone(size, AllocatedSize(b), clusterSize);
        return EIO, Ragged, b;
      }
      if allocSize == AllocatedSize(b) {
        WithDataSizeFields(b, size);
        return 0, Fine, WithDataSize(b, size);
      }
      var mp;
      err, mp := MapClusters();
      if err != 0 {
        return err, Fine, b;
      }
      if PairsOffset(b) + |mp| > |b| {
        return EIO, Grew(PairsOffset(b) + |mp|), b;
      }
      GrownListFields(b, mp, HighestVcn(allocSize, clusterSize), allocSize, size);
      return 0, Fine, GrownList(b, mp, HighestVcn(allocSize, clusterSize), allocSize, size);
    }

    /** `ntfs_attr_list_sync_shrink`: the list attribute is cut to the size of the cached list and rewritten from
        `start` on, below which it agrees with it. */
    method SyncShrink(start: nat) returns (err: int, out: Outcome)
      requires Syncing(start, None, 0)
      requires ListSize(list) <= |StoredValue(ListBlob(records[base].attrs), disk)|
      requires ListSize(list) <= MAX_ATTR_LIST_SIZE
      modifies `records, `disk, `faults
      ensures Settled(old(faults), err, out) && (out.Fine? || out.Ragged? || out.Grew?)
      ensures Consistent(None, 0) && Contents(records, list) == old(Contents(records, list))
      ensures err == 0 ==> InSync(vol, base, records, list, disk)
    {
      hide RecOk, WellFormed, EntryOf, ListSorted, EntriesDistinct, EntriesResolve, AttrsListed, ExtentsOk, Contents,
           Follows, HasListAttr, LaidOut, Fits, ListSize, InUse, LE32, LE16, LE64, Encode, InSync, Value,
           NonResidentList, ResidentList;
      err, out := 0, Fine;
      var c: Option<Ctx> := None;
      LinkedFormed(vol, base, records, list);
      LayoutOf(records, base, first, alloc);
      ListIsUnnamed(ListBlob(records[base].attrs), disk);
      var p := FindListAttr();
      var b := records[base].attrs[p];
      ListSizeOf(b, disk);
      UseFits(vol, records[base]);
      if !NonResident(b) {
        c := WriteResident(p, start, None, 0);
        return;
      }
      var nb := b;
      if ListSize(list) < DataSize(b) {
        err, out, nb := ShrunkRecord(b, ListSize(list));
        if err != 0 {
          return;
        }
      }
      err, c := WriteNonResident(p, nb, start, None, 0);
    }

    /** `ntfs_attr_list_is_needed`: whether an entry other than `skip` leads to an extent record. */
    method ListIsNeeded(skip: nat) returns (needed: bool)
      ensures needed <==> exists k :: 0 <= k < |list| && k != skip && list[k].mref != base
    {
      var k := 0;
      while k < |list|
        invariant 0 <= k <= |list|
        invariant forall j :: 0 <= j < k && j != skip ==> list[j].mref == base
      {
        if k != skip && list[k].mref != base {
          return true;
        }
        k := k + 1;
      }
      return false;
    }

    /** `ntfs_attr_list_delete`: the list attribute is deleted from the base record and the cached list dropped. The
        runlist of a non-resident one is freed, but its number of elements stays as it is. */
    method ListDelete()
      requires base in records && RecOk(vol, records[base]) && HasListAttr(records[base].attrs)
      requires NameLength(ListBlob(records[base].attrs)) == 0
      modifies `records, `hasList, `list, `disk, `stale
      ensures !hasList && list == [] && stale == (old(stale) || NonResident(old(ListBlob(records[base].attrs))))
      ensures var rec := old(records[base]);
              records == old(records)[base := rec.(attrs := Without(rec.attrs, ListIndex(rec.attrs)))]
    {
      hide RecOk, WellFormed, HasListAttr, LE32;
      var p := FindListAttr();
      var rec := records[base];
      ListIndexIs(rec.attrs, p);
      records := records[base := rec.(attrs := rec.attrs[..p] + rec.attrs[p + 1..])];
      hasList, list, disk, stale := false, [], [], stale || NonResident(rec.attrs[p]);
    }

    /** No entry but `k`, whose extent record has been freed, leads to an extent record: the list goes. */
    method DropList(ghost k: nat)
      requires Layout() && k < |list| && ListInv(vol, base, records, RemovedEntry(list, k)) && base in records
      requires NameLength(ListBlob(records[base].attrs)) == 0
      requires forall j :: 0 <= j < |list| && j != k ==> list[j].mref == base
      modifies `records, `hasList, `list, `disk, `stale
      ensures Valid() && !hasList && stale == (old(stale) || NonResident(old(ListBlob(records[base].attrs))))
      ensures multiset(AnonAll(records[base].attrs)) == multiset(old(Contents(records, RemovedEntry(list, k))))
      ensures AllStart(records[base].attrs) <==> AllStart(old(Contents(records, RemovedEntry(list, k))))
    {
      hide RecOk, WellFormed, EntryOf, ListSorted, EntriesDistinct, EntriesResolve, AttrsListed, ExtentsOk, Contents,
           HasListAttr, LaidOut, LE32, LE16, Without, AllStart, AnonAll;
      ghost var rest := Contents(records, RemovedEntry(list, k));
      ListGone(vol, base, records, RemovedEntry(list, k), disk, first, alloc);
      ListDelete();
      PlainBase(vol, base, records);
      StartsAlike(records[base].attrs, rest);
    }

    /** `ntfs_attr_record_delete`: attribute `i` of record `ref`, with entry `k` in the list if there is one, is
        deleted. An extent record left empty is freed. The list goes when no other entry leads to an extent record; if
        it does not go it may not become empty, or the driver panics. */
    method RecordDelete(ref: nat, i: nat, k: nat) returns (err: int, out: Outcome)
      requires Valid()
      requires !hasList ==> ref == base && i < |records[base].attrs|
      requires hasList ==> CanRemove(vol, base, records, list, ref, i, k)
      modifies `records, `hasList, `list, `disk, `stale, `faults
      ensures Settled(old(faults), err, out)
      ensures out.Fine? || out.Ragged? || out.Grew? || out.LastEntry?
      ensures out.LastEntry? <==> old(hasList && |list| == 1 && (ref == base || |records[ref].attrs| > 1))
      ensures err == 0 ==> Valid()
      ensures hasList ==> old(hasList)
      ensures hasList == old(hasList) ==> stale == old(stale)
      ensures !old(hasList) ==> err == 0 && records[base].attrs == Without(old(records[base].attrs), i)
      ensures hasList && !out.LastEntry? ==>
                && Linked(vol, base, records, list)
                && Contents(records, list) == old(Contents(records, list)[..k] + Contents(records, list)[k + 1..])
      ensures old(hasList) && !hasList ==>
                && err == 0 && stale == (old(stale) || NonResident(old(ListBlob(records[base].attrs))))
                && multiset(AnonAll(records[base].attrs))
                     == multiset(old(Contents(records, list)[..k] + Contents(records, list)[k + 1..]))
                && (AllStart(records[base].attrs) <==>
                     AllStart(old(Contents(records, list)[..k] + Contents(records, list)[k + 1..])))
    {
      hide RecOk, WellFormed, EntryOf, ListSorted, EntriesDistinct, EntriesResolve, AttrsListed, ExtentsOk, Contents,
           Follows, HasListAttr, LaidOut, Fits, ListSize, InUse, LE32, LE16, LE64, Encode, InSync, Value,
           RemovedRecords, Without, AllStart, ListTooLong, ListGrew, ListRagged, StoredValue, PlainInv, AnonAll,
           TooManyFor, HasFixed;
      out := Fine;
      LayoutBase(records, base, first, alloc);
      if !hasList {
        PlainDelete(vol, base, records, first, alloc, i);
        var rec := records[base];
        records := records[base := rec.(attrs := Without(rec.attrs, i))];
        return 0, Fine;
      }
      var gone := ref != base && |records[ref].attrs| == 1;
      if |list| == 1 && !gone {
        return EIO, LastEntry;
      }
      RemoveKeeps(vol, base, records, list, ref, i, k);
      RemoveSynced(vol, base, records, list, disk, ref, i, k);
      RemovedLayout(vol, records, base, first, alloc, ref, i);
      DropOrCut(records, base, ref, i);
      if gone {
        records := records - {ref};
        var needed := ListIsNeeded(k);
        if !needed {
          DropList(k);
          return 0, Fine;
        }
      } else {
        var rec := records[ref];
        records := records[ref := rec.(attrs := Without(rec.attrs, i))];
      }
      var start := ListSize(list[..k]);
      list := list[..k] + list[k + 1..];
      err, out := SyncShrink(start);
    }

    /** The first loop of `ntfs_attr_list_add`: an entry for every attribute of the base record, the room that is left
        when all that may not move has stayed, and whether standard information or an index root is among them. The
        driver panics when it comes to an extent other than the first of an attribute, and when the buffer for the list
        is full. */
    method BuildList() returns (out: Outcome, al: seq<Entry>, free: int, fixed: bool)
      requires base in records && RecOk(vol, records[base]) && NoListAttr(records[base].attrs)
      ensures out.Fine? <==> AllStart(records[base].attrs) && !TooManyFor(base, records[base])
      ensures out.Fine? ==> al == EntriesFor(base, records[base].attrs) && (fixed <==> HasFixed(records[base].attrs))
      ensures out.Fine? || (out.Split? && !AllStart(records[base].attrs))
                || (out.TooMany? && TooManyFor(base, records[base]))
    {
      hide RecOk, WellFormed, EntryOf, LE32, LE16, Answers, EntryLength, LowestVcn, Fixed;
      ghost var bs := records[base].attrs;
      out, al, free, fixed := Fine, [], alloc - first, false;
      var i := 0;
      while true
        invariant 0 <= i <= |bs| && al == EntriesFor(base, bs[..i]) && ListSize(al) <= NTFS_ALLOC_BLOCK
        invariant forall j :: 0 <= j < i ==> |bs[j]| >= 24 && LowestVcn(bs[j]) == 0
        invariant fixed <==> exists j :: 0 <= j < i && |bs[j]| >= 24 && Fixed(bs[j])
        decreases |bs| - i
      {
        var e, pos := FindInRecord(vol, records[base].attrs, i, Query(AT_UNUSED, AnyName, None), true);
        IterationStep(vol, records[base], i, AT_UNUSED, e, pos);
        if e != 0 {
          assert bs[..i] == bs;
          return;
        }
        var a := records[base].attrs[pos];
        if LowestVcn(a) != 0 {
          out := Split;
          return;
        }
        if Fixed(a) {
          fixed := true;
        }
        if Stays(a) {
          free := free - |a|;
        }
        assert bs[..i + 1][..i] == bs[..i];
        if ListSize(al + [EntryOf(base, a)]) > NTFS_ALLOC_BLOCK {
          assert al + [EntryOf(base, a)] == EntriesFor(base, bs[..i + 1]);
          EntriesSize(base, bs, i + 1);
          out := TooMany;
          return;
        }
        al := al + [EntryOf(base, a)];
        i := pos + 1;
      }
    }

    /** What adding the list leaves in the base record at first. */
    predicate Stays(a: Blob)
      requires |a| >= 24
    {
      Fixed(a) || (isMft && AType(a) == AT_DATA && NameLength(a) == 0)
    }

    /** Records and the list being built belong together; there is no list attribute yet. */
    ghost predicate Adding(al: seq<Entry>, ctx: Option<Ctx>, kc: nat)
      reads `records
    {
      && Layout() && Linked(vol, base, records, al) && AllFit(al) && NoListAttr(records[base].attrs)
      && Follows(vol, records, al, ctx, kc)
    }

    /** Attribute `pos` of the base record moves out, and entry `k` of the list being built follows it. */
    method MoveListed(al: seq<Entry>, pos: nat, k: nat, ctx: Option<Ctx>, ghost kc: nat, ghost built: seq<Entry>)
      returns (err: int, al': seq<Entry>, ctx': Option<Ctx>, ghost newRef: nat)
      requires Adding(al, ctx, kc) && SameKeys(built, al) && pos < |records[base].attrs| && k < |al|
      requires WellFormed(records[base].attrs[pos]) && !Fixed(records[base].attrs[pos])
      requires al[k] == EntryOf(base, records[base].attrs[pos])
      modifies `records, `faults
      ensures Unharmed(old(faults), err)
      ensures ctx'.Some? == ctx.Some? && Adding(al', ctx', kc) && SameKeys(built, al')
      ensures Contents(records, al') == old(Contents(records, al))
      ensures HasFixed(records[base].attrs) == old(HasFixed(records[base].attrs))
      ensures err != 0 ==> records == old(records) && al' == al
      ensures err == 0 ==> newRef < MAX_REF && newRef != base && al' == MovedList(al, k, newRef)
      ensures err == 0 ==> records[base] == old(records[base]).(attrs := Without(old(records[base].attrs), pos))
    {
      hide RecOk, WellFormed, EntryOf, ListSorted, EntriesDistinct, EntriesResolve, AttrsListed, ExtentsOk, Contents,
           Follows, LaidOut, Fits, InUse, LE32, LE16, NoListAttr, Without, HasFixed;
      ghost var rs := records;
      TypeNotList(records[base].attrs, pos);
      EntryFields(base, records[base].attrs[pos]);
      err, al', ctx', newRef := MoveForList(al, pos, k, ctx, kc);
      if err == 0 {
        MoveKeeps(vol, base, rs, al, base, pos, k, newRef, first, alloc);
        MovedLayout(vol, base, rs, pos, newRef, first, alloc);
        MovedFits(al, k, newRef);
        MovedKeys(built, al, k, newRef);
        NoListWithout(rs[base].attrs, pos);
        FixedWithout(rs[base].attrs, pos);
      }
    }

    /** The second loop of `ntfs_attr_list_add`: attributes move out, and the entry in step with each follows it, until
        `need` bytes are free. */
    method MakeRoomForNew(need: nat, built: seq<Entry>, ctx: Option<Ctx>, ghost kc: nat)
      returns (err: int, room: bool, al: seq<Entry>, ctx': Option<Ctx>)
      requires Adding(built, ctx, kc) && built == EntriesFor(base, records[base].attrs)
      modifies `records, `faults
      ensures Unharmed(old(faults), err)
      ensures ctx'.Some? == ctx.Some? && Adding(al, ctx', kc) && SameKeys(built, al)
      ensures Contents(records, al) == old(Contents(records, built))
      ensures records[base].nextInst == old(records[base].nextInst)
      ensures HasFixed(records[base].attrs) == old(HasFixed(records[base].attrs))
      ensures err == 0 && room ==> need <= alloc - InUse(records[base])
    {
      hide RecOk, WellFormed, EntryOf, ListSorted, EntriesDistinct, EntriesResolve, AttrsListed, ExtentsOk, Contents,
           Follows, LaidOut, Fits, InUse, LE32, LE16, Answers, NoListAttr, Lockstep, Without, EntriesFor, HasFixed,
           MovedList;
      err, room, al, ctx' := 0, false, built, ctx;
      LinkedFormed(vol, base, records, built);
      LockstepStarts(base, records[base].attrs);
      var i, k := 0, 0;
      while need > alloc - InUse(records[base])
        invariant ctx'.Some? == ctx.Some? && Adding(al, ctx', kc) && SameKeys(built, al)
        invariant Contents(records, al) == old(Contents(records, built))
        invariant records[base].nextInst == old(records[base].nextInst)
        invariant HasFixed(records[base].attrs) == old(HasFixed(records[base].attrs))
        invariant err == 0 && faults == old(faults)
        invariant 0 <= i <= |records[base].attrs| && Lockstep(base, records[base].attrs, al, i, k)
        decreases |records[base].attrs| - i
      {
        ghost var rs, es := records, al;
        LinkedFormed(vol, base, records, al);
        var e, pos := FindInRecord(vol, records[base].attrs, i, Query(AT_UNUSED, AnyName, None), true);
        IterationStep(vol, records[base], i, AT_UNUSED, e, pos);
        if e != 0 {
          return;
        }
        LockstepNext(base, records[base].attrs, al, pos, k);
        if Stays(records[base].attrs[pos]) {
          i, k := pos + 1, k + 1;
          continue;
        }
        ghost var newRef;
        err, al, ctx', newRef := MoveListed(al, pos, k, ctx', kc, built);
        if err != 0 {
          return;
        }
        LockstepMoves(base, rs[base].attrs, es, pos, k, newRef);
        WithoutLength(rs[base].attrs, pos);
        i, k := pos, k + 1;
      }
      room := true;
    }

    /** The list attribute `nb` with the value `value` on disk, if it is non-resident, is put in the base record, and
        the inode has a list. */
    method PutListAttr(al: seq<Entry>, pos: nat, nb: Blob, value: seq<byte>, ctx: Option<Ctx>, ghost kc: nat,
                       ghost err: int)
      returns (ctx': Option<Ctx>)
      requires Adding(al, ctx, kc) && records[base].nextInst < 0xffff
      requires Answers(vol, records[base].attrs, 0, Query(AT_ATTRIBUTE_LIST, Unnamed, None), false, err, pos)
      requires ListRecOk(nb, value) && StoredValue(nb, value) == Encode(al) && Instance(nb) == records[base].nextInst
      requires InUse(records[base]) + |nb| <= alloc && ListSize(al) <= MAX_ATTR_LIST_SIZE
      modifies `records, `hasList, `list, `disk
      ensures Valid() && hasList && SameKeys(al, list) && Contents(records, list) == old(Contents(records, al))
      ensures records[base].nextInst == old(records[base].nextInst) + 1
      ensures ctx'.Some? == ctx.Some? && Follows(vol, records, list, ctx', kc)
    {
      hide RecOk, WellFormed, EntryOf, ListSorted, EntriesDistinct, EntriesResolve, AttrsListed, ExtentsOk, Contents,
           Follows, LaidOut, Fits, InUse, LE32, LE16, Answers, NoListAttr, Without, Encode, StoredValue, ListRecOk,
           InSync, Linked;
      LinkedFormed(vol, base, records, al);
      LayoutOf(records, base, first, alloc);
      PlaceBounds(vol, records[base], pos, err);
      NewListInSync(vol, base, records, al, first, alloc, pos, nb, err, value);
      ContextPastInsert(vol, base, records, al, pos, nb, records[base].nextInst + 1, ctx, kc);
      var rec := records[base];
      ctx' := ShiftContext(ctx, base, first + Offset(rec.attrs, pos), |nb|);
      records := records[base := WithNew(rec, pos, nb)];
      hasList, list, disk := true, al, value;
    }

    /** The list goes to clusters allocated for it, if there is room for the mapping pairs in the base record. */
    method AddNonResident(al: seq<Entry>, pos: nat, fixed: bool, ctx: Option<Ctx>, ghost kc: nat, ghost e: int)
      returns (err: int, out: Outcome, ctx': Option<Ctx>)
      requires Adding(al, ctx, kc) && !hasList && records[base].nextInst < 0xffff
      requires fixed <==> HasFixed(records[base].attrs)
      requires Answers(vol, records[base].attrs, 0, Query(AT_ATTRIBUTE_LIST, Unnamed, None), false, e, pos)
      requires ListSize(al) <= MAX_ATTR_LIST_SIZE
      modifies `records, `hasList, `list, `disk, `faults
      ensures Settled(old(faults), err, out) && (out.Fine? || out.OutOfSpace? || out.NoCache?)
      ensures err == 0 ==>
                Valid() && hasList && SameKeys(al, list) && Contents(records, list) == old(Contents(records, al))
      ensures err == 0 ==> records[base].nextInst == old(records[base].nextInst) + 1
      ensures err == 0 ==> ctx'.Some? == ctx.Some? && Follows(vol, records, list, ctx', kc)
      ensures err != 0 ==> !hasList && records == old(records)
    {
      hide RecOk, WellFormed, EntryOf, ListSorted, EntriesDistinct, EntriesResolve, AttrsListed, ExtentsOk, Contents,
           Follows, LaidOut, Fits, InUse, LE32, LE16, LE64, Answers, NoListAttr, Without, Encode, InSync, Linked,
           ListSize, NewNonResidentList, NonResidentList, ResidentList, ToCluster, HighestVcn, HasFixed, RoundUp8,
           ListTooLong, ListGrew, ListRagged, TooManyFor, AllStart;
      out, ctx' := Fine, ctx;
      LayoutBase(records, base, first, alloc);
      EncodeSize(al);
      var inst, value := records[base].nextInst, Encode(al);
      var allocSize := ToCluster(|value|, clusterSize);
      var mp;
      err, mp := MapClusters();
      if err != 0 {
        return;
      }
      var len := RoundUp8(NON_RESIDENT_SIZE + |mp|);
      if InUse(records[base]) + len > alloc {
        return ENOSPC, if fixed then NoCache(len) else OutOfSpace(len), ctx;
      }
      err := WriteDisk(value);
      if err != 0 {
        return;
      }
      var nb := NewNonResidentList(inst, mp, HighestVcn(allocSize, clusterSize), allocSize, |value|);
      NewNonResidentFields(inst, mp, HighestVcn(allocSize, clusterSize), allocSize, |value|);
      NonResidentIsStored(nb, value);
      ctx' := PutListAttr(al, pos, nb, value, ctx, kc, e);
    }

    /** Room is made for the list that has been built, and it is inserted. */
    method AddBuilt(built: seq<Entry>, free: int, fixed: bool, ctx: Option<Ctx>, ghost kc: nat)
      returns (err: int, out: Outcome, ctx': Option<Ctx>)
      requires Adding(built, ctx, kc) && built == EntriesFor(base, records[base].attrs)
      requires ListSize(built) <= NTFS_ALLOC_BLOCK
      requires !hasList && records[base].nextInst < 0xffff && (fixed <==> HasFixed(records[base].attrs))
      modifies `records, `hasList, `list, `disk, `faults
      ensures Settled(old(faults), err, out) && (out.Fine? || out.OutOfSpace? || out.NoCache?)
      ensures err == 0 ==>
                Valid() && hasList && SameKeys(built, list) && Contents(records, list) == old(Contents(records, built))
      ensures err == 0 ==> records[base].nextInst == old(records[base].nextInst) + 1
      ensures err == 0 ==> ctx'.Some? == ctx.Some? && Follows(vol, records, list, ctx', kc)
      ensures err != 0 ==> !hasList && Preserved(vol, base, records, old(Contents(records, built)))
    {
      hide RecOk, WellFormed, EntryOf, ListSorted, EntriesDistinct, EntriesResolve, AttrsListed, ExtentsOk, Contents,
           Follows, LaidOut, Fits, InUse, LE32, LE16, LE64, Answers, NoListAttr, Without, Encode, InSync, Linked,
           EntriesFor, ListSize, ResidentBlob, ResidentList, Value, HasFixed, ListTooLong, ListGrew, ListRagged,
           StoredValue, Preserved, TooManyFor, AllStart;
      err, out, ctx' := 0, Fine, ctx;
      LayoutBase(records, base, first, alloc);
      var room, need, al := false, RESIDENT_SIZE + ListSize(built), built;
      SameKeysSelf(built);
      if need <= free {
        err, room, al, ctx' := MakeRoomForNew(need, built, ctx, kc);
        if err != 0 {
          StillThere(vol, base, records, al);
          return;
        }
      }
      KeysSize(built, al);
      LinkedFormed(vol, base, records, al);
      var e, pos := FindInRecord(vol, records[base].attrs, 0, Query(AT_ATTRIBUTE_LIST, Unnamed, None), false);
      if !room {
        err, out, ctx' := AddNonResident(al, pos, fixed, ctx', kc, e);
        if err != 0 {
          StillThere(vol, base, records, al);
        }
        return;
      }
      EncodeSize(al);
      var inst, value := records[base].nextInst, Encode(al);
      NewResidentList(inst, value);
      ResidentIsStored(ResidentBlob(AT_ATTRIBUTE_LIST, [], value, inst), []);
      ctx' := PutListAttr(al, pos, ResidentBlob(AT_ATTRIBUTE_LIST, [], value, inst), [], ctx', kc, e);
    }

    /** `ntfs_attr_list_add`. The list is built, room is made for it and it is inserted, resident if it can be. The
        attributes of the inode stay as they are and the context follows. When the non-resident list finds no room the
        driver would move index roots and the standard information out too, but looks for their entries in the cached
        list of the inode, which is not there before the end. */
    method ListAdd(ctx: Option<Ctx>, ghost kc: nat) returns (err: int, out: Outcome, ctx': Option<Ctx>)
      requires Valid() && !hasList && records[base].nextInst < 0xffff
      requires Follows(vol, records, EntriesFor(base, records[base].attrs), ctx, kc)
      modifies `records, `hasList, `list, `disk, `faults
      ensures Settled(old(faults), err, out)
      ensures out.Fine? || out.Stale? || out.Split? || out.TooMany? || out.OutOfSpace? || out.NoCache?
      ensures out.Stale? <==> stale
      ensures out.Split? || out.TooMany? <==>
                && !stale && (!old(AllStart(records[base].attrs)) || old(TooManyFor(base, records[base])))
                && faults == old(faults)
      ensures err == 0 ==> Valid() && hasList && Contents(records, list) == old(AnonAll(records[base].attrs))
      ensures err == 0 ==> SameKeys(old(EntriesFor(base, records[base].attrs)), list)
      ensures err == 0 ==> records[base].nextInst == old(records[base].nextInst) + 1
      ensures err == 0 ==> (ctx.None? ==> ctx'.None?) && Follows(vol, records, list, ctx', kc)
      ensures err == 0 && ctx.Some? && ctx'.None? ==> kc < |list| && list[kc].mref != base
      ensures err != 0 ==>
                && !hasList
                && (records == old(records) || Preserved(vol, base, records, old(AnonAll(records[base].attrs))))
    {
      hide RecOk, WellFormed, EntryOf, ListSorted, EntriesDistinct, EntriesResolve, AttrsListed, ExtentsOk, Contents,
           Follows, LaidOut, Fits, InUse, LE32, LE16, LE64, Answers, NoListAttr, Without, Encode, InSync, Linked,
           EntriesFor, ListSize, LowestVcn, HasFixed, ListTooLong, ListGrew, ListRagged, AnonAll, Preserved;
      if stale {
        return EIO, Stale, ctx;
      }
      err := NeedMemory();
      if err != 0 {
        return err, Fine, ctx;
      }
      var al, free, fixed;
      out, al, free, fixed := BuildList();
      if !out.Fine? {
        return EIO, out, ctx;
      }
      BuildKeeps(vol, base, records);
      LayoutBase(records, base, first, alloc);
      EntriesFit(base, records[base].attrs);
      err, out, ctx' := AddBuilt(al, free, fixed, ctx, kc);
      if err == 0 && ctx'.Some? {
        FollowsAway(vol, records, list, ctx'.value, kc);
        ctx' := Remap(ctx');
      }
    }

    /** `ntfs_attr_record_move`: attribute `i` of record `ref`, described by entry `k`, moves to a new extent record.
        Only the bytes of its entry are written to the stored list. The attribute is deleted before the new record is
        allocated. If that fails it is put back, but not if it came from an extent record and that cannot be mapped
        again: then it is lost and the list still has its entry. */
    method RecordMove(ref: nat, i: nat, k: nat, remapped: bool) returns (err: int, lost: bool, ctx: Ctx)
      requires Valid() && hasList && ref in records && i < |records[ref].attrs| && |records[ref].attrs| > 1
      requires WellFormed(records[ref].attrs[i]) && k < |list| && list[k] == EntryOf(ref, records[ref].attrs[i])
      modifies `records, `list, `disk, `faults
      ensures Unharmed(old(faults), err)
      ensures ref == base || remapped ==> !lost
      ensures lost ==>
                && err != 0 && ref != base && list == old(list) && disk == old(disk)
                && records == old(records)[ref := old(records[ref]).(attrs := Without(old(records[ref].attrs), i))]
                && !Linked(vol, base, records, list)
      ensures !lost ==>
                && Consistent(None, 0) && Contents(records, list) == old(Contents(records, list))
                && SameKeys(old(list), list)
      ensures !lost && ctx.ref in old(records) ==> err != 0 && unchanged(`records, `list, `disk)
      ensures err == 0 ==> Valid() && PointsTo(vol, records, ctx, list[k]) && ctx.ref !in old(records)
    {
      hide RecOk, WellFormed, EntryOf, ListSorted, EntriesDistinct, EntriesResolve, AttrsListed, ExtentsOk, Contents,
           Follows, HasListAttr, LaidOut, Fits, ListSize, InUse, LE32, LE16, LE64, Encode, Value, ResidentList,
           NonResidentList, PointsTo, ListWithValue, EntryLength, PatchedEntry, PatchedFields, Without, SameKeys;
      err, lost, ctx := 0, false, Ctx(ref, 0);
      NotTheList(vol, base, records, list, k);
      SameKeysSelf(list);
      SyncedLinked(vol, base, records, list, disk);
      var memory: bool := *;
      if !memory {
        faults := faults + 1;
        return ENOMEM, false, ctx;
      }
      ghost var rs, es := records, list;
      var rec := records[ref];
      var b := rec.attrs[i];
      records := records[ref := rec.(attrs := Without(rec.attrs, i))];
      var newRef;
      err, newRef := AllocExtent();
      if err != 0 {
        if ref != base && !remapped {
          LostEntry(vol, base, rs, es, ref, i, k);
          lost := true;
          return;
        }
        records := records[ref := rec];
        assert records == rs;
        return;
      }
      LayoutAt(rs, base, first, alloc, ref);
      FitsAlone(vol, rs[ref], i);
      MoveKeeps(vol, base, rs, es, ref, i, k, newRef, first, alloc);
      MovedAny(vol, base, rs, es, ref, i, k, newRef, first, alloc);
      MovedFits(es, k, newRef);
      MovedKeys(es, es, k, newRef);
      PatchIsWrite(es, k, newRef);
      records := records[newRef := Rec([WithInstance(b, 0)], first, alloc, 1)];
      list := list[k := list[k].(mref := newRef, instance := 0)];
      ctx := Ctx(newRef, first);
      err := PatchStored(k, Encode(es));
      NewHome(vol, b, ref, newRef, records, first, alloc);
    }

    /** Writing the one entry that changed to the stored list: the fields of a resident one, all of the entry if it is
        on disk. */
    method PatchStored(k: nat, ghost was: seq<byte>) returns (err: int)
      requires Consistent(None, 0) && HasListAttr(records[base].attrs) && AllFit(list) && k < |list|
      requires ListSize(list) <= MAX_ATTR_LIST_SIZE
      requires ListRecOk(ListBlob(records[base].attrs), disk) && StoredValue(ListBlob(records[base].attrs), disk) == was
      requires |was| == ListSize(list) && ListSize(list[..k]) + EntryLength(list[k]) <= |was|
      requires PatchedEntry(was, list, k) == Encode(list) == PatchedFields(was, list, k)
      modifies `records, `disk, `faults
      ensures Unharmed(old(faults), err)
      ensures Consistent(None, 0) && Contents(records, list) == old(Contents(records, list))
      ensures err == 0 ==> InSync(vol, base, records, list, disk)
      ensures forall ref :: ref in old(records) && ref != base ==> ref in records && records[ref] == old(records[ref])
    {
      hide RecOk, WellFormed, EntryOf, ListSorted, EntriesDistinct, EntriesResolve, AttrsListed, ExtentsOk, Contents,
           Follows, HasListAttr, LaidOut, Fits, ListSize, InUse, LE32, LE16, LE64, Encode, Value, ResidentList,
           NonResidentList, ListWithValue, EntryLength, PatchedEntry, PatchedFields;
      err := 0;
      LinkedFormed(vol, base, records, list);
      LayoutOf(records, base, first, alloc);
      ListIsUnnamed(ListBlob(records[base].attrs), disk);
      var p := FindListAttr();
      var rec := records[base];
      var b := rec.attrs[p];
      ListSizeOf(b, disk);
      EntryAtLeast(list[k]);
      if NonResident(b) {
        err := WriteDisk(PatchedEntry(disk, list, k));
        return;
      }
      ResidentIsStored(b, disk);
      var nb := ListWithValue(b, PatchedFields(Value(b), list, k));
      ListWithValueFields(b, Encode(list));
      ResidentIsStored(nb, disk);
      UseFits(vol, rec);
      StoreList(vol, base, records, list, p, nb, disk);
      ReplacedLayout(base, records, first, alloc, p, nb);
      records := records[base := rec.(attrs := rec.attrs[p := nb])];
    }

    /** The attributes of the inode without their instance numbers, in list order if there is a list. */
    ghost function Attributes(): (r: seq<Blob>)
      requires Valid()
      reads `records, `hasList, `list, `disk
    {
      if hasList then Contents(records, list) else AnonAll(records[base].attrs)
    }

    /** What `ntfs_attr_lookup` answered for the new attribute: it is not there, and here is where it belongs. */
    ghost predicate LookedUp(n: New, pos: nat, k: nat)
      requires Valid()
      reads `records, `hasList, `list, `disk
    {
      && AllAdmit(vol, n, Attributes())
      && Answers(vol, records[base].attrs, 0, QueryFor(n), false, ENOENT, pos)
      && (hasList ==> ListAnswers(vol, records, list, QueryFor(n), 0, ENOENT, k))
    }

    /** The new attribute `b` is number `i` in the record `r` with reference `ref`; its entry is added at `k` and the
        list synced. The context points at the attribute, wherever the sync has moved it. */
    method AddEntry(ref: nat, r: Rec, b: Blob, i: nat, k: nat) returns (err: int, out: Outcome, ctx: Option<Ctx>)
      requires Valid() && hasList && ref < MAX_REF && r.first == first && r.alloc == alloc
      requires Adds(vol, records, ref, r, b) && i < |r.attrs| && r.attrs[i] == b && EntryGoes(vol, list, k, ref, b)
      requires ref == base ==> LaidOut(records[ref := r], base, first, alloc)
      modifies `records, `list, `disk, `faults
      ensures Settled(old(faults), err, out) && (out.Fine? || out.Exhausted? || out.NoRoom?)
      ensures Linked(vol, base, records, list) && Gained(old(records), old(list), records, list, b, k)
      ensures err == 0 ==> Valid() && hasList && |b| >= 24 && Tracked(base, records, list, ctx, Anon(b))
    {
      hide RecOk, WellFormed, EntryOf, ListSorted, EntriesDistinct, EntriesResolve, AttrsListed, ExtentsOk, Contents,
           Follows, HasListAttr, LaidOut, Fits, ListSize, LE32, LE16, LE64, Encode, InSync, Adds, Anon, ListBlob,
           Offset, Reaches, Away, ListTooLong, ListGrew, ListRagged, TooManyFor, HasFixed, AllStart;
      SyncedLinked(vol, base, records, list, disk);
      AddSynced(vol, base, records, list, disk, ref, r, b, k);
      AddedLayout(records, base, first, alloc, ref, r);
      NewFollows(vol, records, list, ref, r, b, i, k);
      var start := ListSize(list[..k]);
      records := records[ref := r];
      list := list[..k] + [EntryOf(ref, b)] + list[k..];
      ghost var es := list;
      err, out, ctx := SyncExtend(start, Some(Ctx(ref, first + Offset(r.attrs, i))), k);
      KeysSize(es, list);
      if ctx.Some? {
        FollowedReaches(vol, base, records, list, ctx.value, k);
      } else {
        SyncedParts(vol, base, records, list);
        AwayAt(base, records, list, k);
      }
    }

    /** The attribute fits in the base record. */
    method InsertInBase(n: New, pos: nat, k: nat) returns (err: int, out: Outcome, ctx: Option<Ctx>)
      requires Valid() && Proper(vol, n) && LookedUp(n, pos, k) && records[base].nextInst < 0xffff
      requires InUse(records[base]) + ResidentLength(|n.name|, |ValueFor(n)|) <= alloc
      modifies `records, `list, `disk, `faults
      ensures Settled(old(faults), err, out) && (out.Fine? || out.Exhausted? || out.NoRoom? || out == NoMore(n))
      ensures !hasList ==> err == 0
      ensures err != 0 ==> NoneLost(vol, base, records, list, old(Attributes()), BlobFor(n, 0))
      ensures err == 0 ==> Valid() && PutInto(old(Attributes()), BlobFor(n, 0), Attributes())
      ensures err == 0 ==> Tracked(base, records, list, ctx, BlobFor(n, 0))
    {
      hide RecOk, WellFormed, EntryOf, ListSorted, EntriesDistinct, EntriesResolve, AttrsListed, ExtentsOk, Contents,
           HasListAttr, LaidOut, Fits, ListSize, LE32, LE16, LE64, Encode, InSync, Adds, Anon, ListBlob, Answers,
           ListAnswers, AllAdmit, InUse, Proper, BlobFor, AnonAll, With, PutAt, ResidentLength, Linked, Offset, Reaches,
           Away, ListTooLong, ListGrew, ListRagged, TooManyFor, HasFixed, AllStart;
      LayoutBase(records, base, first, alloc);
      var rec := records[base];
      var b := BlobFor(n, rec.nextInst);
      AnonBlob(vol, n, rec.nextInst);
      if !hasList {
        PlainInsert(vol, base, records, first, alloc, n, pos);
        LayoutOf(records, base, first, alloc);
        NewReached(rec, base, pos, b, records);
        records := records[base := WithNew(rec, pos, b)];
        return 0, Fine, Some(Ctx(base, first + Offset(rec.attrs, pos)));
      }
      SyncedLinked(vol, base, records, list, disk);
      LayoutOf(records, base, first, alloc);
      AddsToBase(vol, base, records, list, first, alloc, n, pos, k);
      if ListSize(list[..k] + [EntryOf(base, b)] + list[k..]) > MAX_ATTR_LIST_SIZE {
        EntryTakes(vol, list, k, n, base, rec.nextInst);
        return ENOSPC, NoMore(n), None;
      }
      err := NeedMemory();
      if err != 0 {
        return err, Fine, None;
      }
      NewIn(rec.attrs, pos, b);
      err, out, ctx := AddEntry(base, WithNew(rec, pos, b), b, pos, k);
      assert err == 0 ==> PutAt(old(Attributes()), BlobFor(n, 0), Attributes(), k);
    }

    /** The attribute goes to an extent record of its own. */
    method InsertInNew(n: New, k: nat) returns (err: int, out: Outcome, ctx: Option<Ctx>)
      requires Valid() && hasList && Proper(vol, n) && AllAdmit(vol, n, Attributes())
      requires ListAnswers(vol, records, list, QueryFor(n), 0, ENOENT, k)
      requires first + ResidentLength(|n.name|, |ValueFor(n)|) + 8 <= alloc
      modifies `records, `list, `disk, `faults
      ensures Settled(old(faults), err, out) && (out.Fine? || out.Exhausted? || out.NoRoom? || out == NoMore(n))
      ensures err != 0 ==> NoneLost(vol, base, records, list, old(Attributes()), BlobFor(n, 0))
      ensures err == 0 ==> Valid() && PutInto(old(Attributes()), BlobFor(n, 0), Attributes())
      ensures err == 0 ==> Tracked(base, records, list, ctx, BlobFor(n, 0))
    {
      hide RecOk, WellFormed, EntryOf, ListSorted, EntriesDistinct, EntriesResolve, AttrsListed, ExtentsOk, Contents,
           HasListAttr, LaidOut, Fits, ListSize, LE32, LE16, LE64, Encode, InSync, Adds, Anon, ListBlob, ListAnswers,
           AllAdmit, InUse, Proper, BlobFor, AnonAll, With, PutAt, ResidentLength, Linked, Offset, Reaches, Away,
           ListTooLong, ListGrew, ListRagged, TooManyFor, HasFixed, AllStart;
      LayoutBase(records, base, first, alloc);
      SyncedLinked(vol, base, records, list, disk);
      out, ctx := Fine, None;
      var ref;
      err, ref := AllocExtent();
      if err != 0 {
        return;
      }
      var b := BlobFor(n, 0);
      AnonBlob(vol, n, 0);
      SyncedLinked(vol, base, records, list, disk);
      LayoutOf(records, base, first, alloc);
      AddsAlone(vol, base, records, list, first, alloc, n, k, ref);
      if ListSize(list[..k] + [EntryOf(ref, b)] + list[k..]) > MAX_ATTR_LIST_SIZE {
        EntryTakes(vol, list, k, n, ref, 0);
        return ENOSPC, NoMore(n), None;
      }
      err := NeedMemory();
      if err != 0 {
        return err, Fine, None;
      }
      err, out, ctx := AddEntry(ref, Rec([b], first, alloc, 1), b, 0, k);
    }

    /** The attribute does not fit in front of the only one in the base record. */
    ghost predicate InFrontOfOnly(n: New, pos: nat)
      requires Valid()
      reads `records, `hasList, `list, `disk
    {
      && pos == 0 && |records[base].attrs| == 1
      && InUse(records[base]) + ResidentLength(|n.name|, |ValueFor(n)|) > alloc
    }

    /** Nothing but another standard information is refused in front of the standard information. */
    ghost predicate AloneRightly(n: New, out: Outcome)
      reads `records
    {
      out.Alone? ==>
        && out.len == ResidentLength(|n.name|, |ValueFor(n)|) && base in records && records[base].attrs != []
        && |records[base].attrs[0]| >= 24
        && (n.atype != AT_STANDARD_INFORMATION ==> AType(records[base].attrs[0]) != AT_STANDARD_INFORMATION)
    }

    /** In the base record if it fits, else in an extent record; but the driver panics rather than leave the base record
        with an only attribute behind the place. */
    method InsertHere(n: New, pos: nat, k: nat) returns (err: int, out: Outcome, ctx: Option<Ctx>)
      requires Valid() && Proper(vol, n) && LookedUp(n, pos, k) && records[base].nextInst < 0xffff
      requires first + ResidentLength(|n.name|, |ValueFor(n)|) + 8 <= alloc
      requires hasList || InFrontOfOnly(n, pos)
               || InUse(records[base]) + ResidentLength(|n.name|, |ValueFor(n)|) <= alloc
      modifies `records, `list, `disk, `faults
      ensures Settled(old(faults), err, out)
      ensures out.Fine? || out.Exhausted? || out.NoRoom? || out == NoMore(n) || out.Alone?
      ensures AloneRightly(n, out) && (out.Alone? <==> old(InFrontOfOnly(n, pos)))
      ensures err != 0 && hasList ==> NoneLost(vol, base, records, list, old(Attributes()), BlobFor(n, 0))
      ensures err != 0 && !hasList ==> records == old(records)
      ensures err == 0 ==> Valid() && PutInto(old(Attributes()), BlobFor(n, 0), Attributes())
      ensures err == 0 ==> Tracked(base, records, list, ctx, BlobFor(n, 0))
    {
      hide RecOk, WellFormed, EntryOf, ListSorted, EntriesDistinct, EntriesResolve, AttrsListed, ExtentsOk, Contents,
           HasListAttr, LaidOut, ListSize, LE32, LE16, LE64, InSync, Anon, ListBlob, Answers, ListAnswers, AllAdmit,
           InUse, Proper, BlobFor, AnonAll, PutInto, ResidentLength, Linked, Tracked, ListTooLong, ListGrew, ListRagged,
           TooManyFor, HasFixed, AllStart, NoMore;
      LayoutBase(records, base, first, alloc);
      var len := ResidentLength(|n.name|, |ValueFor(n)|);
      if InUse(records[base]) + len <= alloc {
        err, out, ctx := InsertInBase(n, pos, k);
        return;
      }
      if pos == 0 && |records[base].attrs| == 1 {
        BaseLong(vol, base, records, list, hasList, disk);
        NotInFront(vol, n, records[base].attrs);
        if hasList {
          SyncedLinked(vol, base, records, list, disk);
        }
        return EIO, Alone(len), None;
      }
      err, out, ctx := InsertInNew(n, k);
    }

    /** `ntfs_resident_attr_record_insert`: the attribute goes into the base record if it fits. If not, the inode gets a
        list and the base record is tried once more; failing that the attribute gets an extent record. The context
        returned points at it. */
    method RecordInsert(n: New, pos: nat, k: nat) returns (err: int, out: Outcome, ctx: Option<Ctx>)
      requires Valid() && Proper(vol, n) && LookedUp(n, pos, k) && records[base].nextInst < 0xfffe
      requires first + ResidentLength(|n.name|, |ValueFor(n)|) + 8 <= alloc
      modifies `records, `hasList, `list, `disk, `faults
      ensures Settled(old(faults), err, out) && (out.Full? ==> out == NoMore(n))
      ensures AloneRightly(n, out) && (old(InFrontOfOnly(n, pos)) ==> out.Alone?)
      ensures !out.Present? && !out.Absent? && !out.Grew? && !out.Ragged? && !out.LastEntry?
      ensures err != 0 && hasList ==> NoneLost(vol, base, records, list, old(Attributes()), BlobFor(n, 0))
      ensures err != 0 && !hasList ==> records == old(records) || Preserved(vol, base, records, old(Attributes()))
      ensures err == 0 ==> Valid() && PutInto(old(Attributes()), BlobFor(n, 0), Attributes())
      ensures err == 0 ==> Tracked(base, records, list, ctx, BlobFor(n, 0))
    {
      hide RecOk, WellFormed, EntryOf, ListSorted, EntriesDistinct, EntriesResolve, AttrsListed, ExtentsOk, Contents,
           Follows, HasListAttr, LaidOut, Fits, ListSize, LE32, LE16, LE64, Encode, InSync, Adds, Anon, ListBlob,
           Answers, ListAnswers, AllAdmit, InUse, Proper, BlobFor, AnonAll, PutInto, ResidentLength, Linked, Judge,
           Askable, CaseUnique, LowestVcn, EntriesFor, Tracked, ListTooLong, ListGrew, ListRagged, TooManyFor, HasFixed,
           AllStart, NoMore;
      LayoutBase(records, base, first, alloc);
      ctx := None;
      var p, al := pos, k;
      var len := ResidentLength(|n.name|, |ValueFor(n)|);
      if InUse(records[base]) + len > alloc && !(pos == 0 && |records[base].attrs| == 1) && !hasList {
        var c;
        err, out, c := ListAdd(None, 0);
        if err != 0 {
          return;
        }
        SyncedLinked(vol, base, records, list, disk);
        BaseAdmits(vol, base, records, list, n);
        LinkedFormed(vol, base, records, list);
        AskableFor(vol, n, records[base].attrs);
        var e, ref;
        e, al, ref, p := FindInList(vol, base, records, list, QueryFor(n), 0);
        NotListed(vol, base, records, list, n, if e == 0 then 0 else ENOENT, al);
        EndOfSearch(vol, QueryFor(n), records[base].attrs, e, p);
      }
      err, out, ctx := InsertHere(n, p, al);
    }

    /** `ntfs_attr_lookup` of the extent of an attribute for `vcn`: whether the inode has it, and where; or where it
        belongs. */
    method Lookup(q: Query, vcn: nat) returns (err: int, ref: nat, pos: nat, k: nat)
      requires Valid() && WellPut(vol, q, Attributes()) && (q.val.Some? ==> vcn == 0)
      ensures err == 0 || err == ENOENT
      ensures err == 0 <==> Holds(vol, q, Attributes())
      ensures err == 0 ==>
                && ref in records && pos < |records[ref].attrs|
                && WellFormed(records[ref].attrs[pos]) && Matches(vol, q, records[ref].attrs[pos])
                && if hasList then k < |list| && list[k] == EntryOf(ref, records[ref].attrs[pos]) else ref == base
      ensures err == 0 && hasList && q.val.None? ==> BestExtent(vol, records, q, vcn, records[ref].attrs[pos])
      ensures err == ENOENT ==>
                && ref == base && Answers(vol, records[base].attrs, 0, q, false, ENOENT, pos)
                && (hasList ==> ListAnswers(vol, records, list, q, vcn, ENOENT, k))
    {
      hide RecOk, EntryOf, ListSorted, EntriesDistinct, EntriesResolve, AttrsListed, ExtentsOk, Contents, LaidOut,
           ListSize, LE32, LE16, LE64, Encode, Answers, ListAnswers, AnonAll, Linked, Holds, Judge, Matches, Askable,
           CaseUnique, Target, InSync, BestExtent, WellFormed;
      if !hasList {
        PlainBase(vol, base, records);
        err, pos := FindInRecord(vol, records[base].attrs, 0, q, false);
        PlainLookup(vol, records[base].attrs, q, err, pos);
        return err, base, pos, 0;
      }
      SyncedLinked(vol, base, records, list, disk);
      BaseWellPut(vol, base, records, list, q);
      err, k, ref, pos := FindInList(vol, base, records, list, q, vcn);
      ListedLookup(vol, base, records, list, q, vcn, if err == 0 then 0 else ENOENT, k);
      if err != 0 {
        BaseHoldsNot(vol, base, records, list, q);
        EndOfSearch(vol, q, records[base].attrs, err, pos);
      } else {
        FoundIsListed(vol, base, records, list, k);
      }
    }

    /** Look up, then insert: an attribute that is already there is not inserted again; afterwards it can be looked
        up. */
    method LookupAndInsert(n: New) returns (err: int, out: Outcome, ctx: Option<Ctx>)
      requires Valid() && AllWellFormed(Attributes()) && Proper(vol, n) && Spelled(vol, n, Attributes())
      requires records[base].nextInst < 0xfffe && first + ResidentLength(|n.name|, |ValueFor(n)|) + 8 <= alloc
      modifies `records, `hasList, `list, `disk, `faults
      ensures Settled(old(faults), err, out)
      ensures out.Present? <==> old(Holds(vol, QueryFor(n), Attributes()))
      ensures !out.Absent? && (out.Present? ==> err == EEXIST && unchanged(this))
      ensures err == 0 ==> Valid() && PutInto(old(Attributes()), BlobFor(n, 0), Attributes())
      ensures err == 0 ==> WellPut(vol, QueryFor(n), Attributes()) && Holds(vol, QueryFor(n), Attributes())
      ensures err == 0 ==> Tracked(base, records, list, ctx, BlobFor(n, 0))
    {
      hide RecOk, WellFormed, EntryOf, ListSorted, EntriesDistinct, EntriesResolve, AttrsListed, ExtentsOk, Contents,
           LaidOut, ListSize, LE32, LE16, LE64, Encode, Answers, ListAnswers, AnonAll, Linked, Holds, Matches, InSync,
           BlobFor, Proper, WellPut, Spelled, AllAdmit, ResidentLength, LowestVcn, Valid, Tracked;
      ghost var before := Attributes();
      SpelledWellPut(vol, n, before);
      var e, ref, pos, k := Lookup(QueryFor(n), 0);
      if e == 0 {
        return EEXIST, Present, None;
      }
      NotHeldAdmits(vol, n, before);
      err, out, ctx := RecordInsert(n, pos, k);
      if err == 0 {
        ghost var at :| 0 <= at <= |before| && PutAt(before, BlobFor(n, 0), Attributes(), at);
        InsertedHolds(vol, n, before, Attributes(), at);
        SpelledWellPut(vol, n, Attributes());
      }
    }

    /** Look up, then delete: exactly one attribute as asked for is gone. */
    method LookupAndDelete(q: Query) returns (err: int, out: Outcome)
      requires Valid() && WellPut(vol, q, Attributes())
      modifies `records, `hasList, `list, `disk, `stale, `faults
      ensures Settled(old(faults), err, out)
      ensures out.Absent? <==> !old(Holds(vol, q, Attributes()))
      ensures !out.Present? && (out.Absent? ==> err == ENOENT && unchanged(this))
      ensures err == 0 ==> Valid() && TakenFrom(vol, q, old(Attributes()), Attributes())
    {
      hide RecOk, EntryOf, ListSorted, EntriesDistinct, EntriesResolve, AttrsListed, ExtentsOk, Contents, LaidOut,
           ListSize, LE32, LE16, LE64, Encode, Answers, ListAnswers, AnonAll, Holds, Matches, InSync, WellPut,
           WellFormed, TakenFrom;
      ghost var before := Attributes();
      var e, ref, pos, k := Lookup(q, 0);
      if e != 0 {
        return e, Absent;
      }
      ghost var rs, es, wasListed := records, list, hasList;
      if hasList {
        SyncedLinked(vol, base, records, list, disk);
        TakenListed(vol, base, records, list, q, ref, pos, k);
      }
      err, out := RecordDelete(ref, pos, k);
      if err == 0 {
        if wasListed {
          Taken(vol, q, before, k, Attributes());
        } else {
          TakenPlain(vol, q, rs[base].attrs, pos, records[base].attrs);
        }
      }
    }
  }
}
