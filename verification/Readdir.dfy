/** Reading a directory in calls that go on where the last one stopped (`ntfs_readdir` and the directory hints,
    kext/ntfs_dir.c). */
module Readdir {
  import opened Errno
  import opened Collate
  import opened AttrArea
  import opened DirTree
  import opened IndexTree
  import opened ReaddirRun

  const MAX_DIRHINTS := 32
  const DIRHINT_TTL := 45
  /** Offsets have 26 bits of position and 6 bits of tag; all ones is the end of the directory. */
  const POS_SPAN := 0x400_0000
  const EOF_OFS := 0xffff_ffff
  const LAST_TAG := 62

  /** A directory hint: the offset it belongs to, when it was used last and the name to go on with, if it has one. */
  datatype Hint = Hint(ofs: nat, time: int, name: Option<Name>)

  /** The first hint with this offset, or the number of hints. */
  function FindHint(hs: seq<Hint>, ofs: nat): (r: nat)
    ensures r <= |hs| && (r < |hs| ==> hs[r].ofs == ofs)
    ensures forall j :: 0 <= j < r ==> hs[j].ofs != ofs
  {
    if hs == [] then 0 else if hs[0].ofs == ofs then 0 else 1 + FindHint(hs[1..], ofs)
  }

  /** The name a call at this offset finds in the hints. */
  function HintName(hs: seq<Hint>, ofs: nat): (r: Option<Name>) {
    var f := FindHint(hs, ofs);
    if ofs >= POS_SPAN && f < |hs| then hs[f].name else None
  }

  /** Newest first, and none from the future. */
  ghost predicate NewestFirst(hs: seq<Hint>, now: int) {
    && (forall i, j :: 0 <= i < j < |hs| ==> hs[i].time >= hs[j].time)
    && (forall i :: 0 <= i < |hs| ==> hs[i].time <= now)
  }

  /** The hints that have not expired. */
  ghost function Fresh(hs: seq<Hint>, now: int): (r: seq<Hint>) {
    if hs == [] then [] else (if now - hs[0].time < DIRHINT_TTL then [hs[0]] else []) + Fresh(hs[1..], now)
  }

  lemma {:induction false} FreshPrefix(hs: seq<Hint>, now: int, k: nat)
    requires k <= |hs|
    requires forall i :: 0 <= i < k ==> now - hs[i].time < DIRHINT_TTL
    requires forall i :: k <= i < |hs| ==> now - hs[i].time >= DIRHINT_TTL
    ensures Fresh(hs, now) == hs[..k]
  {
    if hs != [] {
      FreshPrefix(hs[1..], now, if k > 0 then k - 1 else 0);
      if k > 0 {
        assert hs[..k] == [hs[0]] + hs[1..][..k - 1];
      }
    }
  }

  /** What a call returns: error, end of directory, the entries handed out, how many of "." and "..", and the offset to
      go on with; and which part of the directory it went through, how it ended, whether it started by name or by
      position, whether the index could be read, and whether a hint was left for the next call. */
  datatype Outcome = Outcome(err: int, eof: bool, out: seq<Key>, dots: nat, ofs: nat,
                             p: nat, q: nat, next: Next, byName: bool, failed: bool, kept: bool)

  function Pack(pos: nat, tag: nat): (r: nat) {
    pos + tag * POS_SPAN
  }

  /** The position of the first entry asked for; "." and ".." come first. */
  function EntryPos(ofs: nat): (r: nat)
    ensures r >= 2
  {
    if ofs % POS_SPAN < 2 then 2 else ofs % POS_SPAN
  }

  /** The hint that a call at this offset looks for. */
  function HintOfs(ofs: nat): (r: nat) {
    Pack(EntryPos(ofs), ofs / POS_SPAN)
  }

  lemma VisibleNext(representable: Name -> bool, ks: seq<Key>, p: nat, q: nat)
    requires p <= q < |ks|
    ensures VisibleOf(representable, ks[p..q + 1]) ==
            VisibleOf(representable, ks[p..q]) + if Visible(representable, ks[q]) then [ks[q]] else []
  {
    hide Visible;
    assert ks[p..q + 1] == ks[p..q] + [ks[q]];
    VisibleAppend(representable, ks[p..q], [ks[q]]);
    assert [ks[q]][1..] == [];
  }

  /** The state of the directory and of its hints at the time of a call. */
  datatype Env = Env(root: Node, hints: seq<Hint>, tag: nat, links: nat, now: int)

  ghost predicate EnvOk(vol: Volume, e: Env) {
    && TreeOk(vol, e.root) && RootOk(e.root)
    && |e.hints| <= MAX_DIRHINTS && NewestFirst(e.hints, e.now) && e.tag <= LAST_TAG
  }

  lemma NothingDelivered()
    ensures Delivered([]) == []
  {
  }

  lemma NoTagNoName(hs: seq<Hint>, ofs: nat)
    ensures ofs < POS_SPAN ==> HintName(hs, ofs) == None
  {
  }

  lemma CallMade(vol: Volume, representable: Name -> bool, c: Call, p: nat, q: nat)
    requires StartsAt(vol, c.root, c.start, p) && Handed(representable, KeysFrom(c.root, 0), p, q, c.out, c.next)
    ensures Delivers(vol, representable, c.root, c.start, c.out, c.next)
  {
  }

  lemma RunGoesOn(vol: Volume, representable: Name -> bool, cs: seq<Call>, c: Call)
    requires CallOk(vol, representable, c)
    requires cs == [] ==> c.start == Begin
    requires cs != [] ==> Run(vol, representable, cs) && !cs[|cs| - 1].next.Eof? && Stands(cs) == c.start
    ensures Run(vol, representable, cs + [c]) && Delivered(cs + [c]) == Delivered(cs) + c.out
  {
    hide CallOk, Delivered, Continues;
    var ds := cs + [c];
    assert ds[..|ds| - 1] == cs;
    DeliveredLast(ds);
    forall i, j | 0 <= i && j == i + 1 && j < |ds|
      ensures Continues(ds[i], ds[j])
    {
      if j == |cs| {
        StandsContinues(cs, c);
      } else {
        assert Continues(cs[i], cs[j]);
      }
    }
  }

  lemma StandsContinues(cs: seq<Call>, c: Call)
    requires cs != [] && !cs[|cs| - 1].next.Eof? && Stands(cs) == c.start
    ensures Continues(cs[|cs| - 1], c)
  {
  }

  class DirIndex {
    const vol: Volume
    const representable: Name -> bool
    var root: Node
    var hints: seq<Hint>
    var nrHints: nat
    var dirhintTag: nat
    var linkCount: nat

    /** The names in the directory. */
    ghost function Keys(): (r: seq<Key>)
      reads `root
    {
      KeysFrom(root, 0)
    }

    ghost predicate IndexOk()
      reads `root
    {
      TreeOk(vol, root) && RootOk(root)
    }

    ghost predicate HintsOk(now: int)
      reads `hints, `nrHints
    {
      nrHints == |hints| <= MAX_DIRHINTS && NewestFirst(hints, now)
    }

    /** `ntfs_dirhint_get`. A hint that matches, a new one or the oldest one, used again, comes first in the list. */
    method DirhintGet(ofs: nat, now: int) returns (got: bool)
      requires HintsOk(now)
      modifies `hints, `nrHints
      ensures HintsOk(now) && got == (hints != [])
      ensures got ==> hints[0].ofs == ofs && hints[0].time == now && hints[0].name == HintName(old(hints), ofs)
      ensures HintName(old(hints), ofs).Some? ==> got
      ensures var f := FindHint(old(hints), ofs);
              if ofs >= POS_SPAN && f < |old(hints)|
              then hints == [old(hints)[f].(time := now)] + old(hints)[..f] + old(hints)[f + 1..]
              else (got ==> hints[0].name == None && hints[1..] <= old(hints) && |hints| >= |old(hints)|)
    {
      var f := |hints|;
      if ofs >= POS_SPAN {
        f := FindHint(hints, ofs);
      }
      if f < |hints| {
        hints := [hints[f].(time := now)] + hints[..f] + hints[f + 1..];
        return true;
      }
      var room: bool := *;
      if nrHints < MAX_DIRHINTS && room {
        nrHints := nrHints + 1;
        hints := [Hint(ofs, now, None)] + hints;
        return true;
      }
      if hints == [] {
        return false;
      }
      hints := [Hint(ofs, now, None)] + hints[..|hints| - 1];
      return true;
    }

    /** `ntfs_dirhint_put` of the hint `i`. */
    method DirhintPut(i: nat, now: int)
      requires HintsOk(now) && i < |hints|
      modifies `hints, `nrHints
      ensures HintsOk(now) && hints == old(hints)[..i] + old(hints)[i + 1..]
    {
      hints := hints[..i] + hints[i + 1..];
      nrHints := nrHints - 1;
    }

    /** `ntfs_dirhints_put`: from the oldest on, until one is met that has not expired. As the list is in order of age
        this drops exactly the expired ones. */
    method DirhintsPut(staleOnly: bool, now: int)
      requires HintsOk(now)
      modifies `hints, `nrHints
      ensures HintsOk(now) && hints == if staleOnly then Fresh(old(hints), now) else []
    {
      ghost var was := hints;
      while hints != []
        invariant HintsOk(now) && hints <= was
        invariant staleOnly ==> forall i :: |hints| <= i < |was| ==> now - was[i].time >= DIRHINT_TTL
        decreases |hints|
      {
        if staleOnly && now - hints[|hints| - 1].time < DIRHINT_TTL {
          break;
        }
        DirhintPut(|hints| - 1, now);
      }
      if staleOnly {
        FreshPrefix(was, now, |hints|);
      }
    }

    /** A tag for a new hint, never 0 and never one that could make an offset all ones. */
    method NewTag() returns (tag: nat)
      requires dirhintTag <= LAST_TAG
      modifies `dirhintTag
      ensures dirhintTag <= LAST_TAG && 1 <= tag <= LAST_TAG
    {
      dirhintTag := (dirhintTag + 1) % 0x10000;
      tag := dirhintTag % 64;
      if tag == 0 || tag == 63 {
        dirhintTag, tag := 1, 1;
      }
    }

    /** "." and "..", unless the directory has been deleted. The buffer may be full after each of them. */
    method Dots(from: nat) returns (pos: nat, dots: nat, full: bool)
      ensures from < 2 ==> pos <= 2 && (!full ==> pos == 2)
      ensures from >= 2 ==> pos == from && !full && dots == 0
      ensures linkCount == 0 ==> dots == 0 && !full
      ensures dots <= 2
    {
      pos, dots, full := from, 0, false;
      while pos < 2
        invariant from < 2 ==> pos <= 2
        invariant from >= 2 ==> pos == from
        invariant dots + (if from < 2 then from else pos) <= pos && (linkCount == 0 ==> dots == 0)
        invariant !full
      {
        if linkCount == 0 {
          pos := 2;
          break;
        }
        // An inode number that does not fit is left out.
        var skipped: bool := *;
        if !skipped {
          dots := dots + 1;
        }
        pos := pos + 1;
        var noRoom: bool := *;
        if noRoom {
          full := true;
          return;
        }
      }
    }

    /** The loop over the entries from position `p` on, where the path leads unless that is the end. `q` is where it
        ended: at the end, at an entry for which there was no room, or, if the copy failed, with an error. */
    method HandOut(path0: seq<Place>, p: nat) returns (err: int, out: seq<Key>, q: nat, name: Name)
      requires p < |Keys()| ==> PathGrown(path0) && AtEntry(path0) && Rest(path0) == Keys()[p..]
      requires p <= |Keys()|
      ensures p <= q <= |Keys()| && out == VisibleOf(representable, Keys()[p..q])
      ensures err == ENOENT <==> q == |Keys()|
      ensures err < 0 ==> q < |Keys()| && Visible(representable, Keys()[q])
      ensures q < |Keys()| ==> name == Keys()[q].name
      ensures err != 0
    {
      hide Visible, KeysFrom, Rest, PathGrown, AtEntry;
      q, out, name := p, [], [];
      ghost var ks := Keys();
      assert ks[p..p] == [];
      var path := path0;
      var more := p < |KeysFrom(root, 0)|;
      while more
        invariant p <= q <= |ks| && out == VisibleOf(representable, ks[p..q]) && (more <==> q < |ks|)
        invariant more ==> PathGrown(path) && AtEntry(path) && Rest(path) == ks[q..]
        decreases |ks| - q
      {
        var k := CurrentKey(path);
        name := k.name;
        if Visible(representable, k) {
          var fits: bool, copied: bool := *, *;
          if !fits {
            return -1, out, q, name;
          }
          if !copied {
            return EINVAL, out, q, name;
          }
          out := out + [k];
        }
        VisibleNext(representable, ks, p, q);
        q := q + 1;
        err, path := LookupNext(path);
        more := err == 0;
      }
      err := ENOENT;
    }

    /** Where to start: at the name of the hint, which has come first in the list, or at the position. */
    method StartIndex(got: bool, pos: nat) returns (path: seq<Place>, p: nat, byName: bool, failed: bool)
      requires IndexOk() && pos >= 2 && (got ==> hints != [])
      ensures p <= |Keys()| && (p < |Keys()| ==> PathGrown(path) && AtEntry(path) && Rest(path) == Keys()[p..])
      ensures byName ==> got && hints[0].name.Some? && p == Landing(vol, root, hints[0].name.value)
      ensures got && hints[0].name.Some? ==> byName == !failed
      ensures !byName ==> p == if pos - 2 <= |Keys()| then pos - 2 else |Keys()|
    {
      hide TreeOk, RootOk, KeysFrom, Rest, PathGrown, AtEntry, Landing, Left;
      failed := false;
      var err, all := 0, |KeysFrom(root, 0)|;
      if got && hints[0].name.Some? {
        failed := *;
        if !failed {
          err, path := IndexLookup(vol, root, hints[0].name.value);
          assert Keys()[Landing(vol, root, hints[0].name.value)..] == Left(vol, root, hints[0].name.value);
          if err != 0 {
            return path, all, true, false;
          }
          AllGrown(path);
          return path, all - |Rest(path)|, true, false;
        }
      }
      byName := false;
      err, path := LookupByPosition(root, pos - 2);
      p := if err == 0 then pos - 2 else all;
    }

    /** The offset to return: the tag stays with the reader, or is a new one if it has none. A position that needs more
        than 26 bits is cut off and told apart by a new tag. */
    method NextOffset(pos: nat, tag0: nat, got: bool, name: Name, now: int) returns (ofs: nat, kept: bool)
      requires HintsOk(now) && dirhintTag <= LAST_TAG && tag0 <= LAST_TAG
      requires got ==> hints != [] && hints[0].time == now
      modifies `hints, `nrHints, `dirhintTag
      ensures HintsOk(now) && dirhintTag <= LAST_TAG && ofs / POS_SPAN <= LAST_TAG
      ensures kept ==> ofs >= POS_SPAN && hints != [] && hints[0] == Hint(ofs, now, Some(name))
      ensures got && !kept ==> ofs / POS_SPAN == 0
      ensures pos < POS_SPAN ==> ofs % POS_SPAN == pos
      ensures pos >= 2 ==> ofs % POS_SPAN >= 2
    {
      var p, tag := pos, tag0;
      if p >= POS_SPAN {
        p := POS_SPAN - 1;
        tag := NewTag();
      }
      if !got {
        return Pack(p, tag), false;
      }
      var room: bool := *;
      if !room {
        DirhintPut(0, now);
        return Pack(p, 0), false;
      }
      if tag == 0 {
        tag := NewTag();
      }
      hints := [Hint(Pack(p, tag), now, Some(name))] + hints[1..];
      return Pack(p, tag), true;
    }

    /** The entries: from the hint or the position on, as many as there is room for. */
    method ReadEntries(pos: nat, tag0: nat, dots: nat, now: int) returns (o: Outcome)
      requires HintsOk(now) && dirhintTag <= LAST_TAG && tag0 <= LAST_TAG && IndexOk() && pos >= 2
      modifies `hints, `nrHints, `dirhintTag
      ensures HintsOk(now) && dirhintTag <= LAST_TAG
      ensures o.err == 0 ==>
                Handed(representable, Keys(), o.p, o.q, o.out, o.next) && !o.next.Again? && (o.eof <==> o.next.Eof?)
      ensures o.err == 0 ==> StartsRight(HintName(old(hints), Pack(pos, tag0)), pos, o)
      ensures o.err == 0 && !o.eof ==> o.ofs / POS_SPAN <= LAST_TAG
      ensures o.err == 0 && o.kept ==>
                o.next.More? && o.ofs >= POS_SPAN && hints != [] && hints[0] == Hint(o.ofs, now, Some(o.next.name))
      ensures o.err == 0 && o.next.More? && o.p + 2 == pos && o.q + 2 < POS_SPAN ==> o.ofs % POS_SPAN == o.q + 2
      ensures o.err == 0 && o.next.More? ==> o.ofs % POS_SPAN >= 2
    {
      hide IndexOk, KeysFrom, NewestFirst, Landing, VisibleOf, Visible, HintName, FindHint, PathGrown, AtEntry, Rest;
      var tag := tag0;
      var got := DirhintGet(Pack(pos, tag), now);
      if !got {
        tag := 0;
      }
      var path, p, byName, failed := StartIndex(got, pos);
      var err, out, q, name := HandOut(path, p);
      if err == ENOENT {
        if got {
          DirhintPut(0, now);
        }
        return Outcome(0, true, out, dots, EOF_OFS, p, q, Eof, byName, failed, false);
      }
      if err > 0 || (out == [] && dots == 0) {
        if got {
          DirhintPut(0, now);
        }
        return Outcome(EINVAL, false, out, dots, Pack(pos, tag), p, q, Again, byName, failed, false);
      }
      var next, kept := NextOffset(pos + (q - p), tag, got, name, now);
      return Outcome(0, false, out, dots, next, p, q, More(name), byName, failed, kept);
    }

    /** `ntfs_readdir`. Offsets fed back were returned before, so their tag is at most 62; then the offset returned,
        unless it means the end, is not all ones either. */
    method Readdir(ofs: nat, now: int) returns (o: Outcome)
      requires HintsOk(now) && dirhintTag <= LAST_TAG && IndexOk()
      requires ofs == EOF_OFS || ofs / POS_SPAN <= LAST_TAG
      modifies `hints, `nrHints, `dirhintTag
      ensures HintsOk(now) && dirhintTag <= LAST_TAG
      ensures ofs == EOF_OFS ==> o.err == 0 && o.eof && o.out == [] && o.ofs == EOF_OFS
      ensures o.err == 0 && !o.eof ==> o.ofs / POS_SPAN <= LAST_TAG && o.ofs != EOF_OFS
      ensures o.err == 0 && ofs != EOF_OFS ==>
                Handed(representable, Keys(), o.p, o.q, o.out, o.next) && (o.eof <==> o.next.Eof?)
      ensures o.err == 0 && ofs != EOF_OFS && !o.next.Again? ==>
                StartsRight(HintName(old(hints), HintOfs(ofs)), EntryPos(ofs), o)
      ensures o.err == 0 && o.next.Again? ==>
                ofs % POS_SPAN < 2 && o.ofs % POS_SPAN <= 2 && o.ofs / POS_SPAN == ofs / POS_SPAN && o.p == 0
      ensures o.err == 0 && o.kept ==>
                o.next.More? && o.ofs >= POS_SPAN && hints != [] && hints[0] == Hint(o.ofs, now, Some(o.next.name))
      ensures o.err == 0 && o.next.More? && o.p + 2 == EntryPos(ofs) && o.q + 2 < POS_SPAN ==>
                o.ofs % POS_SPAN == o.q + 2
      ensures o.err == 0 && o.next.More? ==> o.ofs % POS_SPAN >= 2
    {
      hide IndexOk, KeysFrom, NewestFirst, VisibleOf, Visible, HintName, FindHint, StartsRight;
      var end := |KeysFrom(root, 0)|;
      o := Outcome(0, true, [], 0, EOF_OFS, end, end, Eof, false, false, false);
      if ofs == EOF_OFS {
        return;
      }
      var tooSmall: bool := *;
      if tooSmall {
        return o.(err := EINVAL, eof := false, ofs := ofs);
      }
      var tag: nat, pos: nat := ofs / POS_SPAN, ofs % POS_SPAN;
      var dots, full;
      pos, dots, full := Dots(pos);
      if full {
        NothingVisible(representable);
        assert Keys()[0..0] == [];
        return Outcome(if dots == 0 then EINVAL else 0, false, [], dots, Pack(pos, tag), 0, 0, Again, false, false,
                       false);
      }
      var indexed: bool := *;
      if !indexed {
        return o.(err := EIO, eof := false, ofs := Pack(pos, tag));
      }
      o := ReadEntries(pos, tag, dots, now);
    }

    /** A call that finds a hint with a name starts at that name, unless the index could not be read; any other starts
        at the position. */
    ghost predicate StartsRight(name: Option<Name>, pos: nat, o: Outcome)
      reads `root
    {
      if name.Some? && !o.failed then o.p == Landing(vol, root, name.value)
      else o.p == if pos - 2 <= |Keys()| then pos - 2 else |Keys()|
    }

    /** One call of an enumeration that stands at `at`, in the state `e`. It is given up on an error, when the hint
        stored for it is not found any more, and when none could be stored for the next. */
    method CallIn(e: Env, ofs: nat, at: Option<Name>) returns (ok: bool, o: Outcome)
      requires EnvOk(vol, e) && (if at.Some? then ofs % POS_SPAN >= 2 && ofs / POS_SPAN <= LAST_TAG else ofs <= 2)
      modifies this
      ensures ok ==> Delivers(vol, representable, e.root, if at.Some? then At(at.value) else Begin, o.out, o.next)
      ensures ok ==> o.eof == o.next.Eof?
      ensures ok && o.next.More? ==> o.ofs % POS_SPAN >= 2 && o.ofs / POS_SPAN <= LAST_TAG
      ensures ok && o.next.Again? ==> at.None? && o.ofs <= 2
    {
      hide TreeOk, RootOk, KeysFrom, NewestFirst, VisibleOf, Visible, HintName, FindHint, Handed, Landing, Delivers;
      root, hints, nrHints, dirhintTag, linkCount := e.root, e.hints, |e.hints|, e.tag, e.links;
      o := Outcome(0, true, [], 0, EOF_OFS, 0, 0, Eof, false, false, false);
      if at.Some? && HintName(hints, HintOfs(ofs)) != at {
        return false, o;
      }
      NoTagNoName(hints, HintOfs(ofs));
      o := Readdir(ofs, e.now);
      if o.err != 0 || o.failed || (o.next.More? && !o.kept) {
        return false, o;
      }
      ghost var start := if at.Some? then At(at.value) else Begin;
      assert StartsAt(vol, root, start, o.p);
      CallMade(vol, representable, Call(root, start, o.out, o.next), o.p, o.q);
      ok := true;
    }

    /** A whole enumeration: each call is made in the state of `envs` that other threads have brought about by then, and
        is given the offset returned last. */
    method Enumerate(envs: seq<Env>) returns (ended: bool, all: seq<Key>, ghost cs: seq<Call>)
      requires forall i :: 0 <= i < |envs| ==> EnvOk(vol, envs[i])
      modifies this
      ensures ended ==>
                0 < |cs| <= |envs| && Run(vol, representable, cs) && cs[|cs| - 1].next == Eof && all == Delivered(cs)
      ensures ended ==> forall i :: 0 <= i < |cs| ==> cs[i].root == envs[i].root
      ensures ended ==>
                && Ascending(vol, all)
                && forall u :: Persistent(representable, cs, u) && Unhidden(vol, cs, u) ==>
                     exists i :: 0 <= i < |all| && OnlyAt(all, u, i)
    {
      hide TreeOk, RootOk, NewestFirst, Delivers, Delivered, Run, Ascending, Persistent, Unhidden, OnlyAt;
      var ofs: nat, i: nat := 0, 0;
      var at: Option<Name> := None;
      all, cs := [], [];
      NothingDelivered();
      while i < |envs|
        invariant 0 <= i <= |envs| && |cs| == i && all == Delivered(cs)
        invariant forall j :: 0 <= j < i ==> cs[j].root == envs[j].root
        invariant i > 0 ==> Run(vol, representable, cs) && !cs[i - 1].next.Eof?
        invariant i > 0 ==> Stands(cs) == if at.Some? then At(at.value) else Begin
        invariant if at.Some? then ofs % POS_SPAN >= 2 && ofs / POS_SPAN <= LAST_TAG else ofs <= 2
        invariant i == 0 ==> at.None?
      {
        var ok, o := CallIn(envs[i], ofs, at);
        if !ok {
          return false, all, cs;
        }
        ghost var c := Call(envs[i].root, if at.Some? then At(at.value) else Begin, o.out, o.next);
        RunGoesOn(vol, representable, cs, c);
        all, cs, i := all + o.out, cs + [c], i + 1;
        if o.eof {
          RunDelivers(vol, representable, cs);
          return true, all, cs;
        }
        if o.next.More? {
          at := Some(o.next.name);
        }
        ofs := o.ofs;
      }
      ended := false;
    }
  }
}
