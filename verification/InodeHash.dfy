/** The cache of inodes (kext/ntfs_hash.c and parts of kext/ntfs_inode.c), as steps of any number of threads.

    A thread that looks for an inode searches its hash bucket under the hash lock. If it is not there the thread drops
    the lock, makes a new inode, takes the lock again, searches once more and only then inserts. Meanwhile other threads
    do the same, or take inodes out of the hash and free them. */
module InodeHash {
  import opened Collate
  import opened AttrArea
  import opened Attr

  /** What an inode is looked up by. */
  datatype Key = Key(vol: nat, mft: nat, atype: nat, name: Name, raw: bool)

  /** An inode in memory: its key, the flags NI_Alloc, NI_Locked, NI_Reclaim and NI_Deleted, whether it has a vnode, and
      whether the system has begun to take that away. */
  datatype Ino = Ino(key: Key, alloc: bool, locked: bool, reclaim: bool, deleted: bool, vn: bool, dying: bool)

  /** A mounted volume: its device number, its list of inodes, and the state of its release. */
  datatype Vol = Vol(info: Volume, dev: nat, inodes: set<nat>, postponed: bool, unmounted: bool, released: nat)

  /** Where a thread is. `spare` is an inode it has allocated and not inserted. */
  datatype Pc =
    | Idle
    | Finding(k: Key)
    | Allocated(k: Key, spare: nat)
    | Found(k: Key, ni: nat, vn: bool, extra: Option<nat>)
    | Listing(ni: nat)
    | Loading(ni: nat)
    | Holding(ni: nat, vn: bool)
    | Terminating(ni: nat)
    | Reclaiming(ni: nat)
    | Releasing(vol: nat)

  /** What the threads share. A number stands for one allocation and is not used again, as the version number of a vnode
      tells the inode that was found from a later one at the same place; `used` are the numbers given out so far. */
  datatype Mem = Mem(inos: map<nat, Ino>, used: set<nat>, table: seq<seq<nat>>, vols: map<nat, Vol>)

  datatype State = State(m: Mem, threads: map<nat, Pc>)

  // ----- Keys

  ghost predicate NamesEqual(info: Volume, a: Name, b: Name) {
    |a| == |b| && EqualUpToNul(View(info, info.caseSensitive, a), View(info, info.caseSensitive, b))
  }

  /** `ntfs_inode_test`: an inode with key `a` is what is looked for by `b`. */
  ghost predicate Test(info: Volume, a: Key, b: Key) {
    && a.mft == b.mft
    && (if a.atype == AT_UNUSED then b.atype == AT_UNUSED else a.atype == b.atype && NamesEqual(info, a.name, b.name))
    && a.raw == b.raw
  }

  method InodeTest(info: Volume, a: Key, b: Key) returns (r: bool)
    ensures r <==> Test(info, a, b)
  {
    hide EqualUpToNul;
    if a.mft != b.mft {
      return false;
    }
    if a.atype == AT_UNUSED {
      if b.atype != AT_UNUSED {
        return false;
      }
    } else {
      if a.atype != b.atype {
        return false;
      }
      var eq := AreNamesEqual(info, a.name, b.name, info.caseSensitive);
      if !eq {
        return false;
      }
    }
    return a.raw == b.raw;
  }

  lemma UpToNul(a: Name, b: Name, c: Name)
    requires |a| == |b| == |c|
    ensures EqualUpToNul(a, b) ==> EqualUpToNul(b, a)
    ensures EqualUpToNul(a, b) && EqualUpToNul(b, c) ==> EqualUpToNul(a, c)
    ensures EqualUpToNul(a, a)
  {
    if EqualUpToNul(a, b) {
      SameUntilNul(a, b);
      if EqualUpToNul(b, c) {
        SameUntilNul(b, c);
      }
    }
  }

  /** Up to the first NUL of `a` the two are the same. */
  lemma SameUntilNul(a: Name, b: Name)
    requires |a| == |b| && EqualUpToNul(a, b)
    ensures forall i :: 0 <= i < |a| && (forall k :: 0 <= k < i ==> b[k] != 0) ==>
              a[i] == b[i] && forall k :: 0 <= k < i ==> a[k] == b[k]
  {
    forall i | 0 <= i < |a| && (forall k :: 0 <= k < i ==> b[k] != 0)
      ensures a[i] == b[i] && forall k :: 0 <= k < i ==> a[k] == b[k]
    {
      var j := 0;
      while j < i
        invariant 0 <= j <= i && forall k :: 0 <= k < j ==> a[k] == b[k]
      {
        assert forall k :: 0 <= k < j ==> a[k] != 0;
        j := j + 1;
      }
      assert forall k :: 0 <= k < i ==> a[k] != 0;
    }
  }

  /** The test is an equivalence: whether an inode is found depends on the key alone. */
  lemma TestEquivalence(info: Volume, a: Key, b: Key, c: Key)
    ensures Test(info, a, a)
    ensures Test(info, a, b) ==> Test(info, b, a)
    ensures Test(info, a, b) && Test(info, b, c) ==> Test(info, a, c)
  {
    hide EqualUpToNul;
    var va := View(info, info.caseSensitive, a.name);
    UpToNul(va, va, va);
    if |a.name| == |b.name| {
      UpToNul(va, View(info, info.caseSensitive, b.name), va);
      if |b.name| == |c.name| {
        UpToNul(va, View(info, info.caseSensitive, b.name), View(info, info.caseSensitive, c.name));
      }
    }
  }

  // ----- The hash table

  /** `ntfs_inode_hash`: the device number plus the mft record number, masked to the size of the table. */
  function BucketOf(m: Mem, k: Key): (r: nat)
    requires |m.table| > 0 && k.vol in m.vols
    ensures r < |m.table|
  {
    (m.vols[k.vol].dev + k.mft) % |m.table|
  }

  ghost predicate Matches(m: Mem, i: nat, k: Key) {
    i in m.inos && k.vol in m.vols && m.inos[i].key.vol == k.vol && Test(m.vols[k.vol].info, m.inos[i].key, k)
  }

  /** What a search of the bucket answers: the first inode that matches, if any. */
  ghost predicate SearchAnswers(m: Mem, bucket: seq<nat>, k: Key, r: Option<nat>) {
    && (r.Some? ==> r.value in bucket && Matches(m, r.value, k))
    && (r.None? ==> forall i :: i in bucket ==> !Matches(m, i, k))
  }

  /** The loop of `ntfs_inode_hash_list_find_nolock` over a bucket. */
  method FindInBucket(m: Mem, bucket: seq<nat>, k: Key) returns (r: Option<nat>)
    requires k.vol in m.vols && forall i :: i in bucket ==> i in m.inos
    ensures SearchAnswers(m, bucket, k, r)
  {
    hide Test;
    var j := 0;
    while j < |bucket|
      invariant 0 <= j <= |bucket| && forall x :: 0 <= x < j ==> !Matches(m, bucket[x], k)
    {
      if m.inos[bucket[j]].key.vol == k.vol {
        var same := InodeTest(m.vols[k.vol].info, m.inos[bucket[j]].key, k);
        if same {
          return Some(bucket[j]);
        }
      }
      j := j + 1;
    }
    return None;
  }
}
