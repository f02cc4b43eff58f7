/** The inode cache as a state machine: one step for every critical section of every thread, and what all of them
    keep. */
module InodeCache {
  import opened AttrArea
  import opened InodeHash

  // ----- Steps

  ghost function WithPc(s: State, t: nat, pc: Pc): (r: State) {
    s.(threads := s.threads[t := pc])
  }

  ghost function WithIno(m: Mem, i: nat, ino: Ino): (r: Mem) {
    m.(inos := m.inos[i := ino])
  }

  ghost function WithVol(m: Mem, v: nat, vol: Vol): (r: Mem) {
    m.(vols := m.vols[v := vol])
  }

  ghost predicate At(s: State, t: nat) {
    t in s.threads && |s.m.table| > 0
  }

  /** A caller asks for an inode. */
  ghost predicate Ask(s: State, s': State, t: nat, k: Key) {
    && At(s, t) && s.threads[t].Idle? && k.vol in s.m.vols && !s.m.vols[k.vol].unmounted
    && s' == WithPc(s, t, Finding(k))
  }

  /** `ntfs_inode_init`: locked and being allocated. */
  function NewIno(k: Key): (r: Ino) {
    Ino(k, true, true, false, false, false, false)
  }

  ghost function Made(m: Mem, n: nat, k: Key): (r: Mem) {
    m.(inos := m.inos[n := NewIno(k)], used := m.used + {n})
  }

  /** The first search, under the hash lock. An inode that is being allocated or reclaimed is waited for; if there is
      none a new one is made, still private. A mere lookup, or one for which there is no memory, returns with
      nothing. */
  ghost predicate SearchFirst(s: State, s': State, t: nat, r: Option<nat>, n: nat) {
    && At(s, t) && s.threads[t].Finding? && s.threads[t].k.vol in s.m.vols
    && var k := s.threads[t].k;
    && SearchAnswers(s.m, s.m.table[BucketOf(s.m, k)], k, r)
    && match r
       case None =>
         || (n !in s.m.used && s' == State(Made(s.m, n, k), s.threads[t := Allocated(k, n)]))
         || s' == WithPc(s, t, Idle)
       case Some(ni) =>
         if s.m.inos[ni].reclaim || s.m.inos[ni].alloc then s' == s
         else s' == WithPc(s, t, Found(k, ni, s.m.inos[ni].vn, None))
  }

  /** The second search. Only if it, too, finds nothing is the new inode inserted, in the same critical section. */
  ghost predicate SearchAgain(s: State, s': State, t: nat, r: Option<nat>) {
    && At(s, t) && s.threads[t].Allocated? && s.threads[t].k.vol in s.m.vols
    && var k, n := s.threads[t].k, s.threads[t].spare;
    && var b := BucketOf(s.m, k);
    && SearchAnswers(s.m, s.m.table[b], k, r)
    && match r
       case None => s' == State(s.m.(table := s.m.table[b := [n] + s.m.table[b]]), s.threads[t := Listing(n)])
       case Some(ni) =>
         if s.m.inos[ni].reclaim || s.m.inos[ni].alloc then s' == s
         else s' == WithPc(s, t, Found(k, ni, s.m.inos[ni].vn, Some(n)))
  }

  /** The lock is dropped and a reference on the vnode is taken, which fails if the vnode has gone away since; then the
      search starts over. A spare inode is thrown away. */
  ghost predicate TakeVnode(s: State, s': State, t: nat) {
    && At(s, t) && s.threads[t].Found?
    && var pc := s.threads[t];
    if pc.vn && (pc.ni !in s.m.inos || s.m.inos[pc.ni].dying)
    then s' == WithPc(s, t, if pc.extra.None? then Finding(pc.k) else Allocated(pc.k, pc.extra.value))
    else s' == State(if pc.extra.None? then s.m else s.m.(inos := s.m.inos - {pc.extra.value}),
                     s.threads[t := Holding(pc.ni, pc.vn)])
  }

  /** The new inode goes on the list of its volume. */
  ghost predicate AddToList(s: State, s': State, t: nat) {
    && At(s, t) && s.threads[t].Listing? && s.threads[t].ni in s.m.inos && s.m.inos[s.threads[t].ni].key.vol in s.m.vols
    && var i := s.threads[t].ni;
    && var v := s.m.inos[i].key.vol;
    && s' == State(WithVol(s.m, v, s.m.vols[v].(inodes := s.m.vols[v].inodes + {i})), s.threads[t := Loading(i)])
  }

  /** It has been read in and, unless it is an extent inode, given a vnode. */
  ghost predicate Loaded(s: State, s': State, t: nat, vn: bool) {
    && At(s, t) && s.threads[t].Loading? && s.threads[t].ni in s.m.inos
    && var i := s.threads[t].ni;
    && s' == State(WithIno(s.m, i, s.m.inos[i].(alloc := false, locked := false, vn := vn)),
                   s.threads[t := Holding(i, vn)])
  }

  /** It could not be read in. */
  ghost predicate LoadFails(s: State, s': State, t: nat) {
    && At(s, t) && s.threads[t].Loading? && s.threads[t].ni in s.m.inos
    && var i := s.threads[t].ni;
    && s' == State(WithIno(s.m, i, s.m.inos[i].(dying := true)), s.threads[t := Terminating(i)])
  }

  ghost predicate LetGo(s: State, s': State, t: nat) {
    At(s, t) && s.threads[t].Holding? && s' == WithPc(s, t, Idle)
  }

  /** The system takes away an inode that nobody holds a reference on. */
  ghost predicate Terminate(s: State, s': State, t: nat, i: nat) {
    && At(s, t) && s.threads[t].Idle? && i in s.m.inos && !s.m.inos[i].alloc && !s.m.inos[i].dying
    && (forall u :: u in s.threads ==> s.threads[u] != Holding(i, true))
    && s' == State(WithIno(s.m, i, s.m.inos[i].(dying := true)), s.threads[t := Terminating(i)])
  }

  /** Out of its bucket. */
  ghost function Without(b: seq<nat>, i: nat): (r: seq<nat>) {
    if b == [] then [] else (if b[0] == i then [] else [b[0]]) + Without(b[1..], i)
  }

  ghost function Unhashed(m: Mem, i: nat): (r: Mem)
    requires |m.table| > 0 && i in m.inos && m.inos[i].key.vol in m.vols
    ensures r.inos == m.inos && r.used == m.used && r.vols == m.vols
  {
    var b := BucketOf(m, m.inos[i].key);
    m.(table := m.table[b := Without(m.table[b], i)])
  }

  /** The unhashing section of `ntfs_inode_reclaim`. */
  ghost predicate Unhash(s: State, s': State, t: nat) {
    && At(s, t) && s.threads[t].Terminating? && s.threads[t].ni in s.m.inos
    && s.m.inos[s.threads[t].ni].key.vol in s.m.vols
    && var i := s.threads[t].ni;
    && var u := if s.m.inos[i].deleted then s.m else Unhashed(s.m, i);
    && s' == State(WithIno(u, i, s.m.inos[i].(reclaim := true, deleted := true, alloc := false, locked := false)),
                   s.threads[t := Reclaiming(i)])
  }

  /** `ntfs_inode_free`: off the list of the volume. Whoever takes the last inode off a volume whose release was
      postponed takes the release upon itself. */
  ghost predicate Free(s: State, s': State, t: nat) {
    && At(s, t) && s.threads[t].Reclaiming? && s.threads[t].ni in s.m.inos
    && s.m.inos[s.threads[t].ni].key.vol in s.m.vols
    && var i := s.threads[t].ni;
    && var v := s.m.inos[i].key.vol;
    && var left := s.m.vols[v].inodes - {i};
    && var last := left == {} && s.m.vols[v].postponed;
    && s' == State(WithVol(s.m.(inos := s.m.inos - {i}), v,
                           s.m.vols[v].(inodes := left, postponed := s.m.vols[v].postponed && !last)),
                   s.threads[t := if last then Releasing(v) else Idle])
  }

  ghost predicate Release(s: State, s': State, t: nat) {
    && At(s, t) && s.threads[t].Releasing? && s.threads[t].vol in s.m.vols
    && var v := s.threads[t].vol;
    && s' == State(WithVol(s.m, v, s.m.vols[v].(released := s.m.vols[v].released + 1)), s.threads[t := Idle])
  }

  /** An inode whose last link is gone is taken out of the hash early, by a thread that holds it. */
  ghost predicate Delete(s: State, s': State, t: nat) {
    && At(s, t) && s.threads[t].Holding? && s.threads[t].vn && s.threads[t].ni in s.m.inos
    && s.m.inos[s.threads[t].ni].key.vol in s.m.vols
    && var i := s.threads[t].ni;
    && !s.m.inos[i].deleted
    && s' == s.(m := WithIno(Unhashed(s.m, i), i, s.m.inos[i].(deleted := true)))
  }

  /** The thread is looking for an inode of the volume, or making one. */
  ghost predicate UnderWay(m: Mem, pc: Pc, v: nat) {
    match pc
    case Finding(k) => k.vol == v
    case Allocated(k, _) => k.vol == v
    case Found(k, _, _, _) => k.vol == v
    case Listing(i) => i in m.inos && m.inos[i].key.vol == v
    case _ => false
  }

  ghost predicate NoneUnderWay(s: State, v: nat) {
    forall t :: t in s.threads ==> !UnderWay(s.m, s.threads[t], v)
  }

  /** The end of an unmount: the volume is released at once if it has no inodes left, and later otherwise. The system
      has waited for those who look for inodes of the volume. */
  ghost predicate Unmount(s: State, s': State, t: nat, v: nat) {
    && At(s, t) && s.threads[t].Idle? && v in s.m.vols && !s.m.vols[v].unmounted && NoneUnderWay(s, v)
    && var empty := s.m.vols[v].inodes == {};
    && s' == State(WithVol(s.m, v, s.m.vols[v].(unmounted := true, postponed := !empty)),
                   s.threads[t := if empty then Releasing(v) else Idle])
  }

  datatype Action =
    | DoAsk(k: Key) | DoSearchFirst(r: Option<nat>, n: nat) | DoSearchAgain(r: Option<nat>) | DoTakeVnode | DoAddToList
    | DoLoaded(vn: bool) | DoLoadFails | DoLetGo | DoTerminate(i: nat) | DoUnhash | DoFree | DoRelease
    | DoDelete | DoUnmount(v: nat)

  ghost predicate Step(s: State, s': State, t: nat, a: Action) {
    match a
    case DoAsk(k) => Ask(s, s', t, k)
    case DoSearchFirst(r, n) => SearchFirst(s, s', t, r, n)
    case DoSearchAgain(r) => SearchAgain(s, s', t, r)
    case DoTakeVnode => TakeVnode(s, s', t)
    case DoAddToList => AddToList(s, s', t)
    case DoLoaded(vn) => Loaded(s, s', t, vn)
    case DoLoadFails => LoadFails(s, s', t)
    case DoLetGo => LetGo(s, s', t)
    case DoTerminate(i) => Terminate(s, s', t, i)
    case DoUnhash => Unhash(s, s', t)
    case DoFree => Free(s, s', t)
    case DoRelease => Release(s, s', t)
    case DoDelete => Delete(s, s', t)
    case DoUnmount(v) => Unmount(s, s', t, v)
  }

  // ----- The invariant

  ghost predicate Hashed(m: Mem, i: nat)
    requires |m.table| > 0
    ensures Hashed(m, i) ==> i in m.inos
  {
    i in m.inos && m.inos[i].key.vol in m.vols && i in m.table[BucketOf(m, m.inos[i].key)]
  }

  /** Every inode in the table is in its own bucket, once. */
  ghost predicate TableOk(m: Mem)
    ensures TableOk(m) ==> |m.table| > 0
  {
    && |m.table| > 0
    && (forall b, x :: 0 <= b < |m.table| && x in m.table[b] ==>
         x in m.inos && m.inos[x].key.vol in m.vols && BucketOf(m, m.inos[x].key) == b)
    && (forall b :: 0 <= b < |m.table| ==> NoRepeats(m.table[b]))
  }

  ghost predicate NoRepeats(b: seq<nat>) {
    forall i, j :: 0 <= i < j < |b| ==> b[i] != b[j]
  }

  /** No two inodes in the hash answer to the same key. */
  ghost predicate KeysUnique(m: Mem)
    requires |m.table| > 0
  {
    forall i, j :: Hashed(m, i) && Hashed(m, j) && i != j ==> !Matches(m, i, m.inos[j].key)
  }

  ghost predicate InoOk(m: Mem, i: nat)
    requires |m.table| > 0 && i in m.inos
  {
    var ino := m.inos[i];
    && ino.key.vol in m.vols
    && (ino.locked <==> ino.alloc)
    && (Hashed(m, i) ==> !ino.deleted && !ino.reclaim)
    && (ino.reclaim ==> ino.dying)
    && i in m.used
    && (!ino.alloc ==> OnList(m, i))
    && (!ino.alloc && !ino.deleted ==> Hashed(m, i))
  }

  /** On the list of its volume. */
  ghost predicate OnList(m: Mem, i: nat)
    ensures OnList(m, i) ==> i in m.inos
  {
    i in m.inos && m.inos[i].key.vol in m.vols && i in m.vols[m.inos[i].key.vol].inodes
  }

  ghost predicate ListsOk(m: Mem) {
    forall v, i :: v in m.vols && i in m.vols[v].inodes ==> i in m.inos && m.inos[i].key.vol == v
  }

  ghost predicate MemOk(m: Mem) {
    TableOk(m) && KeysUnique(m) && ListsOk(m) && forall i :: i in m.inos ==> InoOk(m, i)
  }

  /** The inode that a thread has to itself. */
  ghost predicate Owns(pc: Pc, i: nat) {
    match pc
    case Allocated(_, n) => n == i
    case Found(_, _, _, x) => x == Some(i)
    case Listing(n) => n == i
    case Loading(n) => n == i
    case Terminating(n) => n == i
    case Reclaiming(n) => n == i
    case _ => false
  }

  ghost predicate Spare(m: Mem, k: Key, i: nat)
    requires |m.table| > 0
  {
    i in m.inos && m.inos[i] == NewIno(k) && !Hashed(m, i) && k.vol in m.vols && !OnList(m, i)
  }

  /** Has been found, and may have gone away since. */
  ghost predicate Settled(m: Mem, i: nat) {
    i in m.used && (i in m.inos ==> !m.inos[i].alloc)
  }

  ghost predicate PcOk(m: Mem, pc: Pc)
    requires |m.table| > 0
  {
    match pc
    case Idle => true
    case Finding(k) => k.vol in m.vols
    case Allocated(k, n) => Spare(m, k, n)
    case Found(k, ni, _, x) => k.vol in m.vols && Settled(m, ni) && (x.Some? ==> Spare(m, k, x.value))
    case Listing(i) => Hashed(m, i) && m.inos[i].alloc && !m.inos[i].dying && !OnList(m, i)
    case Loading(i) => Hashed(m, i) && m.inos[i].alloc && !m.inos[i].dying && OnList(m, i)
    case Terminating(i) => OnList(m, i) && m.inos[i].dying && !m.inos[i].reclaim && (m.inos[i].deleted || Hashed(m, i))
    case Reclaiming(i) => OnList(m, i) && m.inos[i].dying && m.inos[i].reclaim && !m.inos[i].alloc && !Hashed(m, i)
    case Holding(i, vn) => vn ==> i in m.inos && !m.inos[i].dying && !m.inos[i].alloc
    case Releasing(v) => v in m.vols
  }

  ghost predicate PcsOk(s: State)
    requires |s.m.table| > 0
  {
    forall t :: t in s.threads ==> PcOk(s.m, s.threads[t])
  }

  ghost predicate OwnersApart(threads: map<nat, Pc>) {
    forall t, u, i :: t in threads && u in threads && t != u && Owns(threads[t], i) ==> !Owns(threads[u], i)
  }

  ghost predicate IsReleasing(threads: map<nat, Pc>, t: nat, v: nat) {
    t in threads && threads[t] == Releasing(v)
  }

  ghost predicate NoneReleasing(threads: map<nat, Pc>, v: nat) {
    forall t :: t in threads ==> !IsReleasing(threads, t, v)
  }

  /** The release of a volume is due once: it is postponed, for as long as there are inodes, or taken on by one thread,
      or done. */
  ghost predicate ReleaseOk(threads: map<nat, Pc>, vol: Vol, v: nat) {
    && (!vol.unmounted ==> !vol.postponed && vol.released == 0)
    && (!vol.unmounted || vol.postponed || vol.released > 0 ==> NoneReleasing(threads, v))
    && (vol.postponed ==> vol.released == 0 && vol.inodes != {})
    && (vol.unmounted && !vol.postponed && vol.released == 0 ==> !NoneReleasing(threads, v))
    && (forall t, u :: IsReleasing(threads, t, v) && IsReleasing(threads, u, v) ==> t == u)
    && vol.released <= 1
  }

  ghost predicate ReleasesOk(s: State) {
    forall v :: v in s.m.vols ==> ReleaseOk(s.threads, s.m.vols[v], v)
  }

  ghost predicate Inv(s: State) {
    MemOk(s.m) && PcsOk(s) && OwnersApart(s.threads) && ReleasesOk(s)
  }

  /** What callers rely on. */
  ghost predicate Safe(s: State) {
    && TableOk(s.m) && KeysUnique(s.m)
    && (forall i :: Hashed(s.m, i) && !s.m.inos[i].alloc ==> OnList(s.m, i))
    && (forall t, i :: t in s.threads && s.threads[t] == Holding(i, true) ==>
         i in s.m.inos && !s.m.inos[i].reclaim && !s.m.inos[i].alloc)
    && (forall v :: v in s.m.vols ==> s.m.vols[v].released <= 1)
    && (forall v :: v in s.m.vols && s.m.vols[v].unmounted && s.m.vols[v].released == 0 ==>
          (s.m.vols[v].postponed && s.m.vols[v].inodes != {}) || exists t :: IsReleasing(s.threads, t, v))
  }

  /** Nothing has happened yet. */
  ghost predicate Init(s: State) {
    && s.m.inos == map[] && |s.m.table| > 0 && (forall b :: 0 <= b < |s.m.table| ==> s.m.table[b] == [])
    && (forall v :: v in s.m.vols ==>
          s.m.vols[v].inodes == {} && !s.m.vols[v].postponed && !s.m.vols[v].unmounted && s.m.vols[v].released == 0)
    && (forall t :: t in s.threads ==> s.threads[t] == Idle)
  }

  lemma InitInv(s: State)
    requires Init(s)
    ensures Inv(s)
  {
  }

  lemma InvSafe(s: State)
    requires Inv(s)
    ensures Safe(s)
  {
    hide Matches, NoRepeats;
    forall i | Hashed(s.m, i) && !s.m.inos[i].alloc
      ensures OnList(s.m, i)
    {
      assert InoOk(s.m, i);
    }
    forall t, i | t in s.threads && s.threads[t] == Holding(i, true)
      ensures i in s.m.inos && !s.m.inos[i].reclaim && !s.m.inos[i].alloc
    {
      assert PcOk(s.m, s.threads[t]);
      assert InoOk(s.m, i);
    }
  }

  // ----- What a step leaves alone

  /** Only inode `i` is different, if anything. */
  ghost predicate OnlyIno(m: Mem, m': Mem, i: nat)
    requires |m.table| > 0 && |m'.table| > 0
  {
    && m'.vols.Keys == m.vols.Keys && |m'.table| == |m.table|
    && m.used <= m'.used <= m.used + {i}
    && (forall v :: v in m.vols ==> m'.vols[v].info == m.vols[v].info && m'.vols[v].dev == m.vols[v].dev)
    && (forall v, j :: v in m.vols && j != i ==> (j in m'.vols[v].inodes <==> j in m.vols[v].inodes))
    && (forall j :: j != i ==> (j in m'.inos <==> j in m.inos))
    && (forall j :: j != i && j in m.inos ==> m'.inos[j] == m.inos[j])
    && (forall b, j :: 0 <= b < |m.table| && j != i ==> (j in m'.table[b] <==> j in m.table[b]))
  }

  lemma OthersSame(m: Mem, m': Mem, i: nat, j: nat)
    requires |m.table| > 0 && |m'.table| > 0 && OnlyIno(m, m', i) && j != i
    ensures Hashed(m', j) <==> Hashed(m, j)
    ensures OnList(m', j) <==> OnList(m, j)
    ensures j in m'.inos <==> j in m.inos
    ensures j in m.inos ==> m'.inos[j] == m.inos[j]
    ensures j in m'.used <==> j in m.used
  {
  }

  /** A thread that has nothing to do with `i` does not notice. */
  lemma OtherPc(m: Mem, m': Mem, i: nat, pc: Pc)
    requires |m.table| > 0 && |m'.table| > 0 && OnlyIno(m, m', i)
    requires PcOk(m, pc) && !Owns(pc, i)
    requires PcOk(m, Holding(i, true)) ==> PcOk(m', Holding(i, true)) || pc != Holding(i, true)
    requires Settled(m, i) ==> Settled(m', i)
    ensures PcOk(m', pc)
  {
    hide Hashed, OnList;
    match pc {
      case Allocated(k, n) => OthersSame(m, m', i, n);
      case Found(k, ni, _, x) =>
        if x.Some? {
          OthersSame(m, m', i, x.value);
        }
        if ni != i {
          OthersSame(m, m', i, ni);
        }
      case Listing(n) => OthersSame(m, m', i, n);
      case Loading(n) => OthersSame(m, m', i, n);
      case Terminating(n) => OthersSame(m, m', i, n);
      case Reclaiming(n) => OthersSame(m, m', i, n);
      case Holding(n, vn) =>
        if vn && n != i {
          OthersSame(m, m', i, n);
        }
      case _ =>
    }
  }

  lemma OtherIno(m: Mem, m': Mem, i: nat, j: nat)
    requires |m.table| > 0 && |m'.table| > 0 && OnlyIno(m, m', i) && j != i
    requires j in m.inos && InoOk(m, j)
    ensures j in m'.inos && InoOk(m', j)
  {
    hide Hashed, OnList;
    OthersSame(m, m', i, j);
  }

  /** No other inode in the hash has the key that `i` has in `m`. */
  ghost predicate Alone(m: Mem, i: nat)
    requires |m.table| > 0 && i in m.inos
  {
    forall j :: Hashed(m, j) && j != i ==> !Matches(m, i, m.inos[j].key) && !Matches(m, j, m.inos[i].key)
  }

  lemma OtherMatches(m: Mem, m': Mem, i: nat, j: nat, k: Key)
    requires |m.table| > 0 && |m'.table| > 0 && OnlyIno(m, m', i) && j != i
    ensures Matches(m', j, k) <==> Matches(m, j, k)
  {
    hide Test;
  }

  lemma KeysKept(m: Mem, m': Mem, i: nat)
    requires |m.table| > 0 && |m'.table| > 0 && KeysUnique(m) && OnlyIno(m, m', i)
    requires Hashed(m', i) ==> i in m'.inos && Alone(m', i)
    ensures KeysUnique(m')
  {
    hide Matches, Hashed, OnlyIno;
    forall x, y | Hashed(m', x) && Hashed(m', y) && x != y
      ensures !Matches(m', x, m'.inos[y].key)
    {
      if x != i && y != i {
        OthersSame(m, m', i, x);
        OthersSame(m, m', i, y);
        OtherMatches(m, m', i, x, m'.inos[y].key);
      }
    }
  }

  lemma MemKept(m: Mem, m': Mem, i: nat)
    requires MemOk(m) && TableOk(m') && OnlyIno(m, m', i) && ListsOk(m')
    requires i in m'.inos ==> InoOk(m', i)
    requires Hashed(m', i) ==> i in m'.inos && Alone(m', i)
    ensures MemOk(m')
  {
    hide Hashed, KeysUnique, Alone, TableOk, ListsOk, InoOk, Matches;
    KeysKept(m, m', i);
    forall j | j in m'.inos
      ensures InoOk(m', j)
    {
      if j != i {
        OtherIno(m, m', i, j);
      }
    }
  }

  // ----- The threads

  /** No thread but `t` has `i` to itself. */
  ghost predicate Private(threads: map<nat, Pc>, t: nat, i: nat) {
    forall u :: u in threads && u != t ==> !Owns(threads[u], i)
  }

  ghost predicate HeldElsewhere(threads: map<nat, Pc>, t: nat, i: nat) {
    exists u :: u in threads && u != t && threads[u] == Holding(i, true)
  }

  lemma PcsKept(s: State, s': State, t: nat, i: nat, pc: Pc)
    requires |s.m.table| > 0 && |s'.m.table| > 0 && OnlyIno(s.m, s'.m, i)
    requires PcsOk(s) && t in s.threads && s'.threads == s.threads[t := pc] && PcOk(s'.m, pc)
    requires Private(s.threads, t, i)
    requires HeldElsewhere(s.threads, t, i) && PcOk(s.m, Holding(i, true)) ==> PcOk(s'.m, Holding(i, true))
    requires Settled(s.m, i) ==> Settled(s'.m, i)
    ensures PcsOk(s')
  {
    hide PcOk, OnlyIno, Owns, Settled;
    forall u | u in s'.threads
      ensures PcOk(s'.m, s'.threads[u])
    {
      if u != t {
        OtherPc(s.m, s'.m, i, s.threads[u]);
      }
    }
  }

  lemma OwnersKept(threads: map<nat, Pc>, t: nat, i: nat, pc: Pc)
    requires OwnersApart(threads) && t in threads && Private(threads, t, i)
    requires forall j :: Owns(pc, j) ==> i == j
    ensures OwnersApart(threads[t := pc])
  {
    hide Owns;
  }

  lemma OwnerAlone(threads: map<nat, Pc>, t: nat, i: nat)
    requires OwnersApart(threads) && t in threads && Owns(threads[t], i)
    ensures Private(threads, t, i)
  {
    hide Owns;
  }

  /** The same volumes, as far as their release goes. */
  ghost predicate SameReleases(m: Mem, m': Mem) {
    && m'.vols.Keys == m.vols.Keys
    && forall v :: v in m.vols ==>
         && m'.vols[v].unmounted == m.vols[v].unmounted && m'.vols[v].postponed == m.vols[v].postponed
         && m'.vols[v].released == m.vols[v].released && (m.vols[v].inodes != {} ==> m'.vols[v].inodes != {})
  }

  lemma ReleasesKept(s: State, s': State, t: nat, pc: Pc)
    requires ReleasesOk(s) && t in s.threads && s'.threads == s.threads[t := pc] && SameReleases(s.m, s'.m)
    requires !pc.Releasing? && !s.threads[t].Releasing?
    ensures ReleasesOk(s')
  {
    forall v | v in s'.m.vols
      ensures ReleaseOk(s'.threads, s'.m.vols[v], v)
    {
      ReleaseKept(s.threads, s.m.vols[v], s'.m.vols[v], v, t, pc);
    }
  }

  lemma ReleaseKept(threads: map<nat, Pc>, vol: Vol, vol': Vol, v: nat, t: nat, pc: Pc)
    requires ReleaseOk(threads, vol, v) && t in threads && pc != Releasing(v) && threads[t] != Releasing(v)
    requires vol'.unmounted == vol.unmounted && vol'.postponed == vol.postponed && vol'.released == vol.released
    requires vol.postponed && vol.inodes != {} ==> vol'.inodes != {}
    ensures ReleaseOk(threads[t := pc], vol', v)
  {
    var after := threads[t := pc];
    assert forall u :: IsReleasing(after, u, v) <==> IsReleasing(threads, u, v);
  }

  /** One thread goes on, and only inode `i`, which no other thread has to itself, may be different. */
  lemma Proceed(s: State, s': State, t: nat, i: nat, pc: Pc)
    requires Inv(s) && MemOk(s'.m) && OnlyIno(s.m, s'.m, i)
    requires t in s.threads && s'.threads == s.threads[t := pc] && PcOk(s'.m, pc)
    requires Private(s.threads, t, i) && forall j :: Owns(pc, j) ==> i == j
    requires HeldElsewhere(s.threads, t, i) && PcOk(s.m, Holding(i, true)) ==> PcOk(s'.m, Holding(i, true))
    requires Settled(s.m, i) ==> Settled(s'.m, i)
    requires ReleasesOk(s')
    ensures Inv(s')
  {
    hide PcOk, OnlyIno, Owns, Settled, Private, HeldElsewhere, PcsOk, OwnersApart, ReleasesOk;
    PcsKept(s, s', t, i, pc);
    OwnersKept(s.threads, t, i, pc);
  }

  /** The same in a step that has nothing to do with the release of a volume. */
  lemma Advance(s: State, s': State, t: nat, i: nat, pc: Pc)
    requires Inv(s) && MemOk(s'.m) && OnlyIno(s.m, s'.m, i)
    requires t in s.threads && s'.threads == s.threads[t := pc] && PcOk(s'.m, pc)
    requires Private(s.threads, t, i) && forall j :: Owns(pc, j) ==> i == j
    requires HeldElsewhere(s.threads, t, i) && PcOk(s.m, Holding(i, true)) ==> PcOk(s'.m, Holding(i, true))
    requires Settled(s.m, i) ==> Settled(s'.m, i)
    requires SameReleases(s.m, s'.m) && !pc.Releasing? && !s.threads[t].Releasing?
    ensures Inv(s')
  {
    hide PcOk, OnlyIno, Owns, Settled, Private, HeldElsewhere, SameReleases, PcsOk, OwnersApart, ReleasesOk;
    ReleasesKept(s, s', t, pc);
    Proceed(s, s', t, i, pc);
  }

  // ----- What a step does to the shared state

  lemma SameBuckets(m: Mem, m': Mem)
    requires 0 < |m.table| == |m'.table| && m'.vols.Keys == m.vols.Keys
    requires forall v :: v in m.vols ==> m'.vols[v].dev == m.vols[v].dev
    ensures forall k: Key :: k.vol in m.vols ==> BucketOf(m', k) == BucketOf(m, k)
  {
  }

  /** The same table, and no inode in it is lost or gets another key. */
  lemma TableSame(m: Mem, m': Mem)
    requires TableOk(m) && m'.table == m.table && m'.vols.Keys == m.vols.Keys
    requires forall v :: v in m.vols ==> m'.vols[v].dev == m.vols[v].dev
    requires forall x :: x in m.inos && Hashed(m, x) ==> x in m'.inos && m'.inos[x].key == m.inos[x].key
    ensures TableOk(m')
  {
    hide BucketOf, NoRepeats;
    SameBuckets(m, m');
    forall b, x | 0 <= b < |m'.table| && x in m'.table[b]
      ensures x in m'.inos && m'.inos[x].key.vol in m'.vols && BucketOf(m', m'.inos[x].key) == b
    {
      assert Hashed(m, x);
    }
  }

  /** Other flags. */
  lemma FlagsSet(m: Mem, i: nat, ino: Ino)
    requires MemOk(m) && i in m.inos && ino.key == m.inos[i].key
    ensures var m' := WithIno(m, i, ino);
            && TableOk(m') && ListsOk(m') && OnlyIno(m, m', i) && SameReleases(m, m')
            && (Hashed(m', i) <==> Hashed(m, i)) && (OnList(m', i) <==> OnList(m, i))
            && (Hashed(m', i) ==> Alone(m', i))
  {
    hide Matches, KeysUnique, InoOk, BucketOf, TableOk, Alone;
    var m' := WithIno(m, i, ino);
    TableSame(m, m');
    SameBuckets(m, m');
    if Hashed(m, i) {
      StillAlone(m, m', i);
    }
  }

  /** An inode that was in the hash and keeps its key is the only one with it. */
  lemma StillAlone(m: Mem, m': Mem, i: nat)
    requires |m.table| > 0 && |m'.table| > 0 && KeysUnique(m) && OnlyIno(m, m', i)
    requires Hashed(m, i) && i in m'.inos && m'.inos[i].key == m.inos[i].key
    ensures Alone(m', i)
  {
    hide Hashed, OnlyIno, Test;
    forall j | Hashed(m', j) && j != i
      ensures !Matches(m', i, m'.inos[j].key) && !Matches(m', j, m'.inos[i].key)
    {
      OthersSame(m, m', i, j);
      OtherMatches(m, m', i, j, m.inos[i].key);
      SameInfo(m, m', i);
    }
  }

  lemma SameInfo(m: Mem, m': Mem, i: nat)
    requires |m.table| > 0 && |m'.table| > 0 && OnlyIno(m, m', i)
    ensures m'.vols.Keys == m.vols.Keys && forall v :: v in m.vols ==> m'.vols[v].info == m.vols[v].info
  {
  }

  lemma LoadedKeeps(s: State, s': State, t: nat, vn: bool)
    requires Inv(s) && Loaded(s, s', t, vn)
    ensures Inv(s')
  {
    hide Hashed, OnList, OnlyIno, Alone, TableOk, ListsOk, SameReleases, KeysUnique, OwnersApart, ReleasesOk;
    var i := s.threads[t].ni;
    assert PcOk(s.m, s.threads[t]) && InoOk(s.m, i);
    FlagsSet(s.m, i, s'.m.inos[i]);
    MemKept(s.m, s'.m, i);
    OwnerAlone(s.threads, t, i);
    Advance(s, s', t, i, Holding(i, vn));
  }

  lemma LoadFailsKeeps(s: State, s': State, t: nat)
    requires Inv(s) && LoadFails(s, s', t)
    ensures Inv(s')
  {
    hide Hashed, OnList, OnlyIno, Alone, TableOk, ListsOk, SameReleases, KeysUnique, OwnersApart, ReleasesOk;
    var i := s.threads[t].ni;
    assert PcOk(s.m, s.threads[t]) && InoOk(s.m, i);
    FlagsSet(s.m, i, s'.m.inos[i]);
    MemKept(s.m, s'.m, i);
    OwnerAlone(s.threads, t, i);
    Advance(s, s', t, i, Terminating(i));
  }

  lemma TerminateKeeps(s: State, s': State, t: nat, i: nat)
    requires Inv(s) && Terminate(s, s', t, i)
    ensures Inv(s')
  {
    hide Hashed, OnList, OnlyIno, Alone, TableOk, ListsOk, SameReleases, KeysUnique, OwnersApart, ReleasesOk;
    assert InoOk(s.m, i);
    FlagsSet(s.m, i, s'.m.inos[i]);
    MemKept(s.m, s'.m, i);
    forall u | u in s.threads
      ensures !Owns(s.threads[u], i)
    {
      assert PcOk(s.m, s.threads[u]);
    }
    Advance(s, s', t, i, Terminating(i));
  }

  /** Nothing shared changes, and the thread takes nothing more to itself. */
  lemma OnlyPc(s: State, t: nat, pc: Pc)
    requires Inv(s) && t in s.threads && PcOk(s.m, pc) && !pc.Releasing? && !s.threads[t].Releasing?
    requires forall j :: Owns(pc, j) ==> Owns(s.threads[t], j)
    ensures Inv(WithPc(s, t, pc))
  {
    hide MemOk, ReleasesOk, PcOk, Owns;
    ReleasesKept(s, WithPc(s, t, pc), t, pc);
  }

  /** An inode that no thread has to itself. */
  lemma Unowned(s: State, i: nat)
    requires Inv(s) && i !in s.m.inos
    ensures forall u :: u in s.threads ==> !Owns(s.threads[u], i)
  {
    hide Hashed, OnList, TableOk, ListsOk, KeysUnique, OwnersApart, ReleasesOk;
    forall u | u in s.threads
      ensures !Owns(s.threads[u], i)
    {
      assert PcOk(s.m, s.threads[u]);
    }
  }

  lemma AskKeeps(s: State, s': State, t: nat, k: Key)
    requires Inv(s) && Ask(s, s', t, k)
    ensures Inv(s')
  {
    hide Inv;
    TableThere(s);
    OnlyPc(s, t, Finding(k));
  }

  lemma LetGoKeeps(s: State, s': State, t: nat)
    requires Inv(s) && LetGo(s, s', t)
    ensures Inv(s')
  {
    hide Inv;
    TableThere(s);
    OnlyPc(s, t, Idle);
  }

  lemma TableThere(s: State)
    requires Inv(s)
    ensures |s.m.table| > 0 && forall t :: t in s.threads ==> PcOk(s.m, s.threads[t])
  {
  }

  lemma NotInTable(m: Mem, n: nat)
    requires TableOk(m) && !Hashed(m, n)
    ensures forall b :: 0 <= b < |m.table| ==> n !in m.table[b]
  {
    hide BucketOf;
  }

  lemma AllUsed(m: Mem)
    requires MemOk(m)
    ensures forall i :: i in m.inos ==> i in m.used
  {
    hide TableOk, KeysUnique, ListsOk;
    forall i | i in m.inos
      ensures i in m.used
    {
      assert InoOk(m, i);
    }
  }

  /** A new inode, in nobody's sight. */
  lemma MadeKeeps(m: Mem, n: nat, k: Key)
    requires MemOk(m) && n !in m.used && k.vol in m.vols
    ensures var m' := Made(m, n, k);
            TableOk(m') && OnlyIno(m, m', n) && MemOk(m') && SameReleases(m, m') && Spare(m', k, n)
  {
    hide Matches, KeysUnique, BucketOf, TableOk, Alone;
    var m' := Made(m, n, k);
    AllUsed(m);
    TableSame(m, m');
    assert n !in m.table[BucketOf(m', k)] by {
      NotInTable(m, n);
    }
    MemKept(m, m', n);
  }

  lemma SearchFirstKeeps(s: State, s': State, t: nat, r: Option<nat>, n: nat)
    requires Inv(s) && SearchFirst(s, s', t, r, n)
    ensures Inv(s')
  {
    hide Hashed, OnList, OnlyIno, TableOk, ListsOk, SameReleases, KeysUnique, OwnersApart, ReleasesOk, BucketOf, Test;
    TableThere(s);
    var k := s.threads[t].k;
    match r
    case None =>
      if s' == WithPc(s, t, Idle) {
        OnlyPc(s, t, Idle);
      } else {
        MadeKeeps(s.m, n, k);
        AllUsed(s.m);
        Unowned(s, n);
        Advance(s, s', t, n, Allocated(k, n));
      }
    case Some(ni) =>
      if s' != s {
        assert InoOk(s.m, ni);
        OnlyPc(s, t, Found(k, ni, s.m.inos[ni].vn, None));
      }
  }

  ghost function Inserted(m: Mem, n: nat, b: nat): (r: Mem)
    requires b < |m.table|
  {
    m.(table := m.table[b := [n] + m.table[b]])
  }

  lemma InsertedTable(m: Mem, k: Key, n: nat)
    requires MemOk(m) && Spare(m, k, n)
    ensures var m' := Inserted(m, n, BucketOf(m, k));
            && TableOk(m') && OnlyIno(m, m', n) && ListsOk(m') && SameReleases(m, m')
            && Hashed(m', n) && !OnList(m', n)
  {
    hide Matches, KeysUnique, BucketOf, Alone, InoOk;
    var b := BucketOf(m, k);
    var m' := Inserted(m, n, b);
    SameBuckets(m, m');
    NotInTable(m, n);
    assert m'.table[b][0] == n;
    assert forall x :: x in m'.table[b] <==> x == n || x in m.table[b];
  }

  lemma SameBucket(m: Mem, i: nat, k: Key)
    requires |m.table| > 0 && Matches(m, i, k)
    ensures BucketOf(m, m.inos[i].key) == BucketOf(m, k)
  {
    hide NamesEqual;
  }

  /** The second search found nothing, so nothing in the hash has the key of the new inode. */
  lemma InsertedAlone(m: Mem, k: Key, n: nat)
    requires MemOk(m) && Spare(m, k, n) && SearchAnswers(m, m.table[BucketOf(m, k)], k, None)
    ensures Alone(Inserted(m, n, BucketOf(m, k)), n)
  {
    hide KeysUnique, BucketOf, InoOk, Test, TableOk, OnlyIno, ListsOk, OnList, SameReleases;
    InsertedTable(m, k, n);
    var m' := Inserted(m, n, BucketOf(m, k));
    forall j | Hashed(m', j) && j != n
      ensures !Matches(m', n, m'.inos[j].key) && !Matches(m', j, m'.inos[n].key)
    {
      OthersSame(m, m', n, j);
      if Matches(m, j, k) {
        SameBucket(m, j, k);
      }
      TestEquivalence(m.vols[k.vol].info, k, m.inos[j].key, k);
      TestEquivalence(m.vols[k.vol].info, m.inos[j].key, k, k);
    }
  }

  lemma SearchAgainKeeps(s: State, s': State, t: nat, r: Option<nat>)
    requires Inv(s) && SearchAgain(s, s', t, r)
    ensures Inv(s')
  {
    hide Hashed, OnList, OnlyIno, TableOk, ListsOk, SameReleases, KeysUnique, OwnersApart, ReleasesOk, BucketOf, Test,
         Alone;
    TableThere(s);
    var k, n := s.threads[t].k, s.threads[t].spare;
    match r
    case None =>
      InsertedTable(s.m, k, n);
      InsertedAlone(s.m, k, n);
      assert InoOk(s.m, n);
      MemKept(s.m, s'.m, n);
      OwnerAlone(s.threads, t, n);
      Advance(s, s', t, n, Listing(n));
    case Some(ni) =>
      if s' != s {
        assert InoOk(s.m, ni);
        OnlyPc(s, t, Found(k, ni, s.m.inos[ni].vn, Some(n)));
      }
  }

  ghost function Dropped(m: Mem, n: nat): (r: Mem) {
    m.(inos := m.inos - {n})
  }

  lemma DroppedKeeps(m: Mem, k: Key, n: nat)
    requires MemOk(m) && Spare(m, k, n)
    ensures var m' := Dropped(m, n);
            TableOk(m') && OnlyIno(m, m', n) && MemOk(m') && SameReleases(m, m')
  {
    hide Matches, KeysUnique, BucketOf, TableOk, Alone, InoOk;
    var m' := Dropped(m, n);
    TableSame(m, m');
    MemKept(m, m', n);
  }

  lemma TakeVnodeKeeps(s: State, s': State, t: nat)
    requires Inv(s) && TakeVnode(s, s', t)
    ensures Inv(s')
  {
    hide Hashed, OnList, OnlyIno, TableOk, ListsOk, SameReleases, KeysUnique, OwnersApart, ReleasesOk, InoOk;
    TableThere(s);
    var pc := s.threads[t];
    if pc.vn && (pc.ni !in s.m.inos || s.m.inos[pc.ni].dying) {
      OnlyPc(s, t, if pc.extra.None? then Finding(pc.k) else Allocated(pc.k, pc.extra.value));
    } else if pc.extra.None? {
      OnlyPc(s, t, Holding(pc.ni, pc.vn));
    } else {
      var n := pc.extra.value;
      DroppedKeeps(s.m, pc.k, n);
      OwnerAlone(s.threads, t, n);
      Advance(s, s', t, n, Holding(pc.ni, pc.vn));
    }
  }

  ghost function Listed(m: Mem, i: nat, v: nat): (r: Mem)
    requires v in m.vols
  {
    WithVol(m, v, m.vols[v].(inodes := m.vols[v].inodes + {i}))
  }

  lemma ListedKeeps(m: Mem, i: nat)
    requires MemOk(m) && Hashed(m, i)
    ensures var m' := Listed(m, i, m.inos[i].key.vol);
            && TableOk(m') && OnlyIno(m, m', i) && MemOk(m') && SameReleases(m, m') && Hashed(m', i) && OnList(m', i)
  {
    hide Matches, KeysUnique, BucketOf, TableOk, Alone;
    var m' := Listed(m, i, m.inos[i].key.vol);
    TableSame(m, m');
    SameBuckets(m, m');
    assert InoOk(m, i);
    StillAlone(m, m', i);
    MemKept(m, m', i);
  }

  lemma AddToListKeeps(s: State, s': State, t: nat)
    requires Inv(s) && AddToList(s, s', t)
    ensures Inv(s')
  {
    hide Hashed, OnList, OnlyIno, TableOk, ListsOk, SameReleases, KeysUnique, OwnersApart, ReleasesOk, InoOk;
    TableThere(s);
    var i := s.threads[t].ni;
    ListedKeeps(s.m, i);
    OwnerAlone(s.threads, t, i);
    Advance(s, s', t, i, Loading(i));
  }

  lemma {:induction false} WithoutMembers(b: seq<nat>, i: nat)
    ensures forall x :: x in Without(b, i) <==> x in b && x != i
    ensures NoRepeats(b) ==> NoRepeats(Without(b, i))
  {
    if b != [] {
      WithoutMembers(b[1..], i);
      assert b == [b[0]] + b[1..];
      if NoRepeats(b) {
        assert forall j :: 0 <= j < |b[1..]| ==> b[1..][j] == b[j + 1];
        assert b[0] !in b[1..];
        assert NoRepeats(b[1..]);
      }
    }
  }

  lemma UnhashedTable(m: Mem, i: nat, ino: Ino)
    requires MemOk(m) && i in m.inos && m.inos[i].key.vol in m.vols && ino.key == m.inos[i].key
    ensures var m' := WithIno(Unhashed(m, i), i, ino);
            && TableOk(m') && OnlyIno(m, m', i) && ListsOk(m') && SameReleases(m, m')
            && !Hashed(m', i) && (OnList(m', i) <==> OnList(m, i))
  {
    hide Matches, KeysUnique, BucketOf, NoRepeats, Without, InoOk;
    var m' := WithIno(Unhashed(m, i), i, ino);
    SameBuckets(m, m');
    WithoutMembers(m.table[BucketOf(m, m.inos[i].key)], i);
  }

  lemma UnhashKeeps(s: State, s': State, t: nat)
    requires Inv(s) && Unhash(s, s', t)
    ensures Inv(s')
  {
    hide Hashed, OnList, OnlyIno, TableOk, ListsOk, SameReleases, KeysUnique, OwnersApart, ReleasesOk, Unhashed, Alone;
    TableThere(s);
    var i := s.threads[t].ni;
    assert InoOk(s.m, i);
    if s.m.inos[i].deleted {
      FlagsSet(s.m, i, s'.m.inos[i]);
    } else {
      UnhashedTable(s.m, i, s'.m.inos[i]);
    }
    MemKept(s.m, s'.m, i);
    OwnerAlone(s.threads, t, i);
    Advance(s, s', t, i, Reclaiming(i));
  }

  lemma DeleteKeeps(s: State, s': State, t: nat)
    requires Inv(s) && Delete(s, s', t)
    ensures Inv(s')
  {
    hide Hashed, OnList, OnlyIno, TableOk, ListsOk, SameReleases, KeysUnique, OwnersApart, ReleasesOk, Unhashed, Alone;
    TableThere(s);
    var i := s.threads[t].ni;
    assert InoOk(s.m, i);
    UnhashedTable(s.m, i, s'.m.inos[i]);
    MemKept(s.m, s'.m, i);
    forall u | u in s.threads
      ensures !Owns(s.threads[u], i)
    {
      assert PcOk(s.m, s.threads[u]);
    }
    assert s'.threads == s.threads[t := s.threads[t]];
    Advance(s, s', t, i, s.threads[t]);
  }

  // ----- The release of a volume

  /** The thread takes the release upon itself, which was postponed or not due before. */
  lemma ReleaseTaken(threads: map<nat, Pc>, vol: Vol, vol': Vol, v: nat, t: nat)
    requires ReleaseOk(threads, vol, v) && t in threads && (vol.postponed || !vol.unmounted)
    requires vol'.unmounted && !vol'.postponed && vol'.released == vol.released
    ensures ReleaseOk(threads[t := Releasing(v)], vol', v)
  {
    var after := threads[t := Releasing(v)];
    assert forall u :: IsReleasing(after, u, v) && u != t ==> IsReleasing(threads, u, v);
    assert IsReleasing(after, t, v);
  }

  /** Nobody has to release the volume, and nobody had to before. */
  lemma ReleaseNotYet(threads: map<nat, Pc>, vol: Vol, vol': Vol, v: nat, t: nat, pc: Pc)
    requires ReleaseOk(threads, vol, v) && t in threads && !pc.Releasing?
    requires !vol.unmounted && vol'.unmounted && vol'.postponed && vol'.inodes != {} && vol'.released == vol.released
    ensures ReleaseOk(threads[t := pc], vol', v)
  {
    var after := threads[t := pc];
    assert forall u :: IsReleasing(after, u, v) ==> IsReleasing(threads, u, v);
  }

  lemma ReleaseDone(threads: map<nat, Pc>, vol: Vol, vol': Vol, v: nat, t: nat)
    requires ReleaseOk(threads, vol, v) && t in threads && threads[t] == Releasing(v)
    requires vol'.unmounted == vol.unmounted && vol'.postponed == vol.postponed && vol'.released == vol.released + 1
    ensures ReleaseOk(threads[t := Idle], vol', v)
  {
    var after := threads[t := Idle];
    assert IsReleasing(threads, t, v);
    assert forall u :: IsReleasing(after, u, v) ==> IsReleasing(threads, u, v) && u != t;
  }

  lemma OthersReleases(s: State, s': State, t: nat, v: nat, pc: Pc)
    requires ReleasesOk(s) && t in s.threads && s'.threads == s.threads[t := pc] && s'.m.vols.Keys == s.m.vols.Keys
    requires v in s.m.vols && forall w :: w in s.m.vols && w != v ==> s'.m.vols[w] == s.m.vols[w]
    requires (pc.Releasing? ==> pc.vol == v) && (s.threads[t].Releasing? ==> s.threads[t].vol == v)
    requires ReleaseOk(s'.threads, s'.m.vols[v], v)
    ensures ReleasesOk(s')
  {
    hide ReleaseOk;
    forall w | w in s'.m.vols
      ensures ReleaseOk(s'.threads, s'.m.vols[w], w)
    {
      if w != v {
        ReleaseKept(s.threads, s.m.vols[w], s'.m.vols[w], w, t, pc);
      }
    }
  }

  /** Freed: gone, and off the list of its volume. */
  lemma FreedKeeps(m: Mem, m': Mem, i: nat, v: nat)
    requires MemOk(m) && i in m.inos && !Hashed(m, i) && OnList(m, i) && v == m.inos[i].key.vol && v in m.vols
    requires m'.inos == m.inos - {i} && m'.used == m.used && m'.table == m.table && m'.vols.Keys == m.vols.Keys
    requires forall w :: w in m.vols && w != v ==> m'.vols[w] == m.vols[w]
    requires m'.vols[v].info == m.vols[v].info && m'.vols[v].dev == m.vols[v].dev
    requires m'.vols[v].inodes == m.vols[v].inodes - {i}
    ensures TableOk(m') && OnlyIno(m, m', i) && MemOk(m')
  {
    hide Matches, KeysUnique, BucketOf, TableOk, Alone, InoOk;
    TableSame(m, m');
    MemKept(m, m', i);
  }

  lemma FreeKeeps(s: State, s': State, t: nat)
    requires Inv(s) && Free(s, s', t)
    ensures Inv(s')
  {
    hide Hashed, OnList, OnlyIno, TableOk, ListsOk, SameReleases, KeysUnique, OwnersApart, ReleaseOk, InoOk;
    TableThere(s);
    var i := s.threads[t].ni;
    var v := s.m.inos[i].key.vol;
    FreedKeeps(s.m, s'.m, i, v);
    OwnerAlone(s.threads, t, i);
    if s'.threads[t] == Releasing(v) {
      PostponedUnmounted(s.threads, s.m.vols[v], v);
      ReleaseTaken(s.threads, s.m.vols[v], s'.m.vols[v], v, t);
    } else {
      ReleaseKept(s.threads, s.m.vols[v], s'.m.vols[v], v, t, Idle);
    }
    OthersReleases(s, s', t, v, s'.threads[t]);
    Proceed(s, s', t, i, s'.threads[t]);
  }

  lemma PostponedUnmounted(threads: map<nat, Pc>, vol: Vol, v: nat)
    requires ReleaseOk(threads, vol, v) && vol.postponed
    ensures vol.unmounted
  {
  }

  lemma Above(x: set<nat>) returns (i: nat)
    ensures forall y :: y in x ==> y < i
  {
    i := 0;
    if x != {} {
      var z :| z in x;
      var j := Above(x - {z});
      i := if j <= z then z + 1 else j;
      assert forall y :: y in x ==> y == z || y in x - {z};
    }
  }

  /** Only what concerns the release of a volume changes. */
  lemma VolumeKeeps(m: Mem, v: nat, vol: Vol, i: nat)
    requires MemOk(m) && v in m.vols && i !in m.used
    requires vol.info == m.vols[v].info && vol.dev == m.vols[v].dev && vol.inodes == m.vols[v].inodes
    ensures var m' := WithVol(m, v, vol);
            TableOk(m') && OnlyIno(m, m', i) && MemOk(m')
  {
    hide Matches, KeysUnique, BucketOf, TableOk, Alone, InoOk;
    AllUsed(m);
    var m' := WithVol(m, v, vol);
    TableSame(m, m');
    MemKept(m, m', i);
  }

  lemma ReleaseKeeps(s: State, s': State, t: nat)
    requires Inv(s) && Release(s, s', t)
    ensures Inv(s')
  {
    hide Hashed, OnList, OnlyIno, TableOk, ListsOk, SameReleases, KeysUnique, OwnersApart, ReleaseOk, InoOk;
    TableThere(s);
    var v := s.threads[t].vol;
    var i := Above(s.m.used);
    AllUsed(s.m);
    Unowned(s, i);
    VolumeKeeps(s.m, v, s'.m.vols[v], i);
    ReleaseDone(s.threads, s.m.vols[v], s'.m.vols[v], v, t);
    OthersReleases(s, s', t, v, Idle);
    Proceed(s, s', t, i, Idle);
  }

  lemma UnmountKeeps(s: State, s': State, t: nat, v: nat)
    requires Inv(s) && Unmount(s, s', t, v)
    ensures Inv(s')
  {
    hide Hashed, OnList, OnlyIno, TableOk, ListsOk, SameReleases, KeysUnique, OwnersApart, ReleaseOk, InoOk,
         NoneUnderWay;
    TableThere(s);
    var i := Above(s.m.used);
    AllUsed(s.m);
    Unowned(s, i);
    VolumeKeeps(s.m, v, s'.m.vols[v], i);
    if s.m.vols[v].inodes == {} {
      ReleaseTaken(s.threads, s.m.vols[v], s'.m.vols[v], v, t);
    } else {
      ReleaseNotYet(s.threads, s.m.vols[v], s'.m.vols[v], v, t, Idle);
    }
    OthersReleases(s, s', t, v, s'.threads[t]);
    Proceed(s, s', t, i, s'.threads[t]);
  }

  // ----- Every run

  lemma StepKeeps(s: State, s': State, t: nat, a: Action)
    requires Inv(s) && Step(s, s', t, a)
    ensures Inv(s')
  {
    hide Inv, Ask, SearchFirst, SearchAgain, TakeVnode, AddToList, Loaded, LoadFails, LetGo, Terminate, Unhash, Free,
         Release, Delete, Unmount;
    match a
    case DoAsk(k) => AskKeeps(s, s', t, k);
    case DoSearchFirst(r, n) => SearchFirstKeeps(s, s', t, r, n);
    case DoSearchAgain(r) => SearchAgainKeeps(s, s', t, r);
    case DoTakeVnode => TakeVnodeKeeps(s, s', t);
    case DoAddToList => AddToListKeeps(s, s', t);
    case DoLoaded(vn) => LoadedKeeps(s, s', t, vn);
    case DoLoadFails => LoadFailsKeeps(s, s', t);
    case DoLetGo => LetGoKeeps(s, s', t);
    case DoTerminate(i) => TerminateKeeps(s, s', t, i);
    case DoUnhash => UnhashKeeps(s, s', t);
    case DoFree => FreeKeeps(s, s', t);
    case DoRelease => ReleaseKeeps(s, s', t);
    case DoDelete => DeleteKeeps(s, s', t);
    case DoUnmount(v) => UnmountKeeps(s, s', t, v);
  }

  /** A run: each state follows from the one before by a step of some thread. */
  ghost predicate Run(run: seq<State>) {
    forall j, k :: 0 <= j && k == j + 1 && k < |run| ==> exists t, a :: Step(run[j], run[k], t, a)
  }

  /** In every state of every run of any number of threads: each inode in the hash is in its own bucket and once, no two
      of them answer to the same key, one that is no longer being allocated is on the list of its volume, whoever holds
      an inode with its vnode has one that is loaded and not being reclaimed, and the release of an unmounted volume is
      neither lost nor done twice. */
  lemma {:induction false} RunSafe(run: seq<State>, k: nat)
    requires Run(run) && k < |run| && Init(run[0])
    ensures Inv(run[k]) && Safe(run[k])
  {
    hide Step, Inv, Init, Safe;
    if k == 0 {
      InitInv(run[0]);
    } else {
      RunSafe(run, k - 1);
      var t, a :| Step(run[k - 1], run[k], t, a);
      StepKeeps(run[k - 1], run[k], t, a);
    }
    InvSafe(run[k]);
  }
}
