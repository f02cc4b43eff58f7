/** The release of an unmounted volume (kext/ntfs_inode.c and kext/ntfs_vfsops.c): when it is done no inode of the
    volume is left in memory, on its list or off it. */
module InodeRelease {
  import opened AttrArea
  import opened InodeHash
  import opened InodeCache

  /** The thread has made the inode and not put it on the list of its volume yet. */
  ghost predicate Makes(pc: Pc, i: nat) {
    match pc
    case Allocated(_, n) => n == i
    case Found(_, _, _, x) => x == Some(i)
    case Listing(n) => n == i
    case _ => false
  }

  ghost predicate MadeBy(threads: map<nat, Pc>, i: nat) {
    exists t :: t in threads && Makes(threads[t], i)
  }

  /** An inode that is not on the list of its volume is being made. */
  ghost predicate Accounted(s: State) {
    forall i :: i in s.m.inos ==> OnList(s.m, i) || MadeBy(s.threads, i)
  }

  /** Nobody looks for an inode of an unmounted volume. */
  ghost predicate Calm(s: State) {
    forall v :: v in s.m.vols && s.m.vols[v].unmounted ==> NoneUnderWay(s, v)
  }

  ghost predicate Due(s: State, v: nat)
    requires v in s.m.vols
  {
    s.m.vols[v].released > 0 || !NoneReleasing(s.threads, v)
  }

  /** A volume that is being released, or has been, has no inodes on its list. */
  ghost predicate Emptied(s: State) {
    forall v :: v in s.m.vols && Due(s, v) ==> s.m.vols[v].inodes == {}
  }

  ghost predicate Quiet(s: State) {
    Accounted(s) && Calm(s) && Emptied(s)
  }

  /** No inode of a released volume is left. */
  ghost predicate ReleasedEmpty(m: Mem) {
    forall v, i :: v in m.vols && m.vols[v].released > 0 && i in m.inos ==> m.inos[i].key.vol != v
  }

  lemma MakerUnderWay(m: Mem, pc: Pc, i: nat)
    requires |m.table| > 0 && PcOk(m, pc) && Makes(pc, i)
    ensures i in m.inos && UnderWay(m, pc, m.inos[i].key.vol)
  {
    hide Hashed, OnList;
  }

  lemma QuietEmpty(s: State)
    requires Inv(s) && Quiet(s)
    ensures ReleasedEmpty(s.m)
  {
    hide Hashed, KeysUnique, TableOk, ListsOk, InoOk, PcOk, OwnersApart, UnderWay, Makes;
    TableThere(s);
    forall v, i | v in s.m.vols && s.m.vols[v].released > 0 && i in s.m.inos
      ensures s.m.inos[i].key.vol != v
    {
      if s.m.inos[i].key.vol == v {
        assert ReleaseOk(s.threads, s.m.vols[v], v) && Due(s, v);
        var t :| t in s.threads && Makes(s.threads[t], i);
        MakerUnderWay(s.m, s.threads[t], i);
        assert false;
      }
    }
  }

  // ----- What keeps it

  lemma AccountedKept(s: State, s': State, t: nat, pc: Pc)
    requires Accounted(s) && t in s.threads && s'.threads == s.threads[t := pc]
    requires forall i :: i in s'.m.inos ==>
               OnList(s'.m, i) || Makes(pc, i) || (i in s.m.inos && !OnList(s.m, i) && !Makes(s.threads[t], i))
    ensures Accounted(s')
  {
    hide OnList, Makes;
    forall i | i in s'.m.inos
      ensures OnList(s'.m, i) || MadeBy(s'.threads, i)
    {
      if Makes(pc, i) {
        assert s'.threads[t] == pc;
      } else if !OnList(s'.m, i) {
        var u :| u in s.threads && Makes(s.threads[u], i);
        assert s'.threads[u] == s.threads[u];
      }
    }
  }

  /** The inodes that were there have the keys they had. */
  ghost predicate SameKeys(m: Mem, m': Mem) {
    forall i :: i in m.inos && i in m'.inos ==> m'.inos[i].key == m.inos[i].key
  }

  lemma OtherUnderWay(m: Mem, m': Mem, pc: Pc, v: nat)
    requires |m.table| > 0 && PcOk(m, pc) && SameKeys(m, m') && UnderWay(m', pc, v)
    ensures UnderWay(m, pc, v)
  {
    hide Hashed, OnList;
  }

  lemma CalmKept(s: State, s': State, t: nat, pc: Pc)
    requires Inv(s) && Calm(s) && t in s.threads && s'.threads == s.threads[t := pc] && SameKeys(s.m, s'.m)
    requires s'.m.vols.Keys == s.m.vols.Keys
    requires forall v :: v in s.m.vols ==> s'.m.vols[v].unmounted == s.m.vols[v].unmounted
    requires forall v :: v in s.m.vols && s.m.vols[v].unmounted ==> !UnderWay(s'.m, pc, v)
    ensures Calm(s')
  {
    hide Hashed, OnList, MemOk, PcOk, OwnersApart, ReleasesOk, UnderWay, SameKeys;
    TableThere(s);
    forall v, u | v in s'.m.vols && s'.m.vols[v].unmounted && u in s'.threads
      ensures !UnderWay(s'.m, s'.threads[u], v)
    {
      assert NoneUnderWay(s, v);
      if u != t && UnderWay(s'.m, s'.threads[u], v) {
        OtherUnderWay(s.m, s'.m, s.threads[u], v);
      }
    }
  }

  lemma DueKept(s: State, s': State, t: nat, pc: Pc, v: nat)
    requires t in s.threads && s'.threads == s.threads[t := pc] && pc != Releasing(v) && v in s.m.vols && v in s'.m.vols
    requires s'.m.vols[v].released == s.m.vols[v].released && Due(s', v)
    ensures Due(s, v)
  {
    if !NoneReleasing(s'.threads, v) {
      var u :| u in s'.threads && IsReleasing(s'.threads, u, v);
      assert IsReleasing(s.threads, u, v);
    }
  }

  lemma EmptiedKept(s: State, s': State, t: nat, pc: Pc)
    requires Emptied(s) && t in s.threads && s'.threads == s.threads[t := pc] && !pc.Releasing?
    requires s'.m.vols.Keys == s.m.vols.Keys
    requires forall v :: v in s.m.vols ==> s'.m.vols[v].released == s.m.vols[v].released
    requires forall v :: v in s.m.vols ==> s'.m.vols[v].inodes <= s.m.vols[v].inodes || !Due(s, v)
    ensures Emptied(s')
  {
    hide Due;
    forall v | v in s'.m.vols && Due(s', v)
      ensures s'.m.vols[v].inodes == {}
    {
      DueKept(s, s', t, pc, v);
    }
  }

  /** Nothing changes on the lists, and no thread begins to release a volume. */
  lemma QuietKept(s: State, s': State, t: nat, pc: Pc)
    requires Inv(s) && Quiet(s) && t in s.threads && s'.threads == s.threads[t := pc] && !pc.Releasing?
    requires s'.m.vols == s.m.vols && SameKeys(s.m, s'.m)
    requires forall i :: i in s'.m.inos ==>
               OnList(s'.m, i) || Makes(pc, i) || (i in s.m.inos && !OnList(s.m, i) && !Makes(s.threads[t], i))
    requires forall v :: v in s.m.vols && UnderWay(s'.m, pc, v) ==>
             UnderWay(s.m, s.threads[t], v) || !s.m.vols[v].unmounted
    ensures Quiet(s')
  {
    hide Inv, OnList, Makes, UnderWay, SameKeys, Due;
    AccountedKept(s, s', t, pc);
    forall v | v in s.m.vols && s.m.vols[v].unmounted
      ensures !UnderWay(s'.m, pc, v)
    {
      assert NoneUnderWay(s, v);
    }
    CalmKept(s, s', t, pc);
    EmptiedKept(s, s', t, pc);
  }

  /** The flags of one inode change, if anything, and nobody makes or drops one. */
  lemma FlagsQuiet(s: State, s': State, t: nat, pc: Pc)
    requires Inv(s) && Quiet(s) && t in s.threads && s'.threads == s.threads[t := pc] && !pc.Releasing?
    requires s'.m.vols == s.m.vols && s'.m.inos.Keys == s.m.inos.Keys && SameKeys(s.m, s'.m)
    requires forall i :: Makes(s.threads[t], i) ==> Makes(pc, i)
    requires forall v :: v in s.m.vols && UnderWay(s'.m, pc, v) ==>
             UnderWay(s.m, s.threads[t], v) || !s.m.vols[v].unmounted
    ensures Quiet(s')
  {
    hide Inv, Quiet, Makes, UnderWay;
    forall i | i in s'.m.inos
      ensures OnList(s'.m, i) || Makes(pc, i) || (i in s.m.inos && !OnList(s.m, i) && !Makes(s.threads[t], i))
    {
      assert OnList(s'.m, i) <==> OnList(s.m, i);
    }
    QuietKept(s, s', t, pc);
  }

  lemma AskQuiet(s: State, s': State, t: nat, k: Key)
    requires Inv(s) && Quiet(s) && Ask(s, s', t, k)
    ensures Quiet(s')
  {
    hide Inv, Quiet;
    FlagsQuiet(s, s', t, Finding(k));
  }

  lemma SearchFirstQuiet(s: State, s': State, t: nat, r: Option<nat>, n: nat)
    requires Inv(s) && Quiet(s) && SearchFirst(s, s', t, r, n)
    ensures Quiet(s')
  {
    hide MemOk, PcsOk, OwnersApart, ReleasesOk, Quiet, SearchAnswers;
    TableThere(s);
    AllUsed(s.m);
    if s' == s {
      return;
    }
    var pc := s'.threads[t];
    if s'.m == s.m {
      FlagsQuiet(s, s', t, pc);
    } else {
      QuietKept(s, s', t, pc);
    }
  }

  lemma SearchAgainQuiet(s: State, s': State, t: nat, r: Option<nat>)
    requires Inv(s) && Quiet(s) && SearchAgain(s, s', t, r)
    ensures Quiet(s')
  {
    hide MemOk, OwnersApart, ReleasesOk, Quiet, SearchAnswers, Hashed, OnList;
    TableThere(s);
    assert PcOk(s.m, s.threads[t]);
    if s' == s {
      return;
    }
    FlagsQuiet(s, s', t, s'.threads[t]);
  }

  lemma TakeVnodeQuiet(s: State, s': State, t: nat)
    requires Inv(s) && Quiet(s) && TakeVnode(s, s', t)
    ensures Quiet(s')
  {
    hide MemOk, OwnersApart, ReleasesOk, Quiet, Hashed;
    TableThere(s);
    assert PcOk(s.m, s.threads[t]);
    if s'.m == s.m {
      FlagsQuiet(s, s', t, s'.threads[t]);
    } else {
      QuietKept(s, s', t, s'.threads[t]);
    }
  }

  lemma AddToListQuiet(s: State, s': State, t: nat)
    requires Inv(s) && Quiet(s) && AddToList(s, s', t)
    ensures Quiet(s')
  {
    hide MemOk, PcsOk, OwnersApart;
    TableThere(s);
    var i := s.threads[t].ni;
    var v := s.m.inos[i].key.vol;
    assert UnderWay(s.m, s.threads[t], v);
    assert ReleaseOk(s.threads, s.m.vols[v], v);
    AccountedKept(s, s', t, Loading(i));
    CalmKept(s, s', t, Loading(i));
    EmptiedKept(s, s', t, Loading(i));
  }

  lemma FreeQuiet(s: State, s': State, t: nat)
    requires Inv(s) && Quiet(s) && Free(s, s', t)
    ensures Quiet(s')
  {
    hide PcsOk, OwnersApart, TableOk, KeysUnique, InoOk, ReleaseOk;
    TableThere(s);
    var i := s.threads[t].ni;
    var v := s.m.inos[i].key.vol;
    var pc := s'.threads[t];
    AccountedKept(s, s', t, pc);
    CalmKept(s, s', t, pc);
    forall w | w in s'.m.vols && Due(s', w)
      ensures s'.m.vols[w].inodes == {}
    {
      if pc != Releasing(w) {
        DueKept(s, s', t, pc, w);
      }
    }
  }

  lemma ReleaseQuiet(s: State, s': State, t: nat)
    requires Inv(s) && Quiet(s) && Release(s, s', t)
    ensures Quiet(s')
  {
    hide PcsOk, OwnersApart, TableOk, KeysUnique, InoOk, ReleaseOk, ListsOk;
    TableThere(s);
    var v := s.threads[t].vol;
    assert IsReleasing(s.threads, t, v);
    AccountedKept(s, s', t, Idle);
    CalmKept(s, s', t, Idle);
    forall w | w in s'.m.vols && Due(s', w)
      ensures s'.m.vols[w].inodes == {}
    {
      if w != v {
        DueKept(s, s', t, Idle, w);
      }
    }
  }

  lemma UnmountQuiet(s: State, s': State, t: nat, v: nat)
    requires Inv(s) && Quiet(s) && Unmount(s, s', t, v)
    ensures Quiet(s')
  {
    hide PcsOk, OwnersApart, TableOk, KeysUnique, InoOk, ReleaseOk, ListsOk;
    TableThere(s);
    var pc := s'.threads[t];
    AccountedKept(s, s', t, pc);
    forall w | w in s'.m.vols && s'.m.vols[w].unmounted
      ensures NoneUnderWay(s', w)
    {
      assert NoneUnderWay(s, w);
    }
    forall w | w in s'.m.vols && Due(s', w)
      ensures s'.m.vols[w].inodes == {}
    {
      if pc != Releasing(w) {
        DueKept(s, s', t, pc, w);
      }
    }
  }

  /** The other steps change flags and buckets only. */
  lemma FlagsOnlyQuiet(s: State, s': State, t: nat, a: Action)
    requires Inv(s) && Quiet(s) && Step(s, s', t, a)
    requires a.DoLoaded? || a.DoLoadFails? || a.DoLetGo? || a.DoTerminate? || a.DoUnhash? || a.DoDelete?
    ensures Quiet(s')
  {
    hide Inv, Quiet, OnList, Hashed, BucketOf, Unhashed;
    TableThere(s);
    FlagsQuiet(s, s', t, s'.threads[t]);
  }

  lemma StepQuiet(s: State, s': State, t: nat, a: Action)
    requires Inv(s) && Quiet(s) && Step(s, s', t, a)
    ensures Quiet(s')
  {
    hide Inv, Quiet, Ask, SearchFirst, SearchAgain, TakeVnode, AddToList, Loaded, LoadFails, LetGo, Terminate, Unhash,
         Free, Release, Delete, Unmount;
    match a
    case DoAsk(k) => AskQuiet(s, s', t, k);
    case DoSearchFirst(r, n) => SearchFirstQuiet(s, s', t, r, n);
    case DoSearchAgain(r) => SearchAgainQuiet(s, s', t, r);
    case DoTakeVnode => TakeVnodeQuiet(s, s', t);
    case DoAddToList => AddToListQuiet(s, s', t);
    case DoFree => FreeQuiet(s, s', t);
    case DoRelease => ReleaseQuiet(s, s', t);
    case DoUnmount(v) => UnmountQuiet(s, s', t, v);
    case _ => FlagsOnlyQuiet(s, s', t, a);
  }

  /** In every state of every run, a volume that has been released has no inodes left in memory. */
  lemma {:induction false} RunReleased(run: seq<State>, k: nat)
    requires Run(run) && k < |run| && Init(run[0])
    ensures Quiet(run[k]) && ReleasedEmpty(run[k].m)
  {
    hide Step, Inv, Quiet, Init, ReleasedEmpty, Safe;
    RunSafe(run, k);
    if k == 0 {
      InitQuiet(run[0]);
    } else {
      RunReleased(run, k - 1);
      RunSafe(run, k - 1);
      var t, a :| Step(run[k - 1], run[k], t, a);
      StepQuiet(run[k - 1], run[k], t, a);
    }
    QuietEmpty(run[k]);
  }

  lemma InitQuiet(s: State)
    requires Init(s)
    ensures Quiet(s)
  {
  }
}
