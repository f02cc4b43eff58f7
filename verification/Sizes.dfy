/** The sizes of an attribute (kext/ntfs_attr.c).

    The inode of an attribute caches three sizes, the attribute record holds them too, and the page cache of the vnode
    has one of its own. Resizing, extending the allocation, setting the initialized size and writing a resident value
    update them one at a time, and each may fail half way. */
module Sizes {
  import opened Errno
  import opened Bytes

  /** The attribute record: resident, with the bytes from its value to its end, or the first extent of a non-resident
      one. */
  datatype AttrRecord =
    | Resident(valueOffset: nat, body: seq<byte>, valueLength: nat)
    | NonResident(allocSize: nat, dataSize: nat, initializedSize: nat)

  function Max(x: int, y: int): (r: int) {
    if x < y then y else x
  }

  function Min(x: int, y: int): (r: int) {
    if x < y then x else y
  }

  const TWO64 := 0x1_0000_0000_0000_0000

  /** A 64-bit number read as a signed one. */
  function Signed(x: nat): (r: int) {
    if x < TWO64 / 2 then x else x - TWO64
  }

  lemma StillFits(vo: nat, n: nat, b: nat)
    requires vo % 8 == 0 && b % 8 == 0 && n <= b
    ensures RoundUp8(vo + n) <= vo + b
  {
  }

  // ----- What reading a resident value gives

  /** The bytes asked for, as far as there are any, and zeros behind them. */
  function Wanted(content: seq<byte>, ofs: nat, cnt: nat): (r: seq<byte>)
    ensures |r| == cnt
  {
    if ofs + cnt <= |content| then content[ofs..ofs + cnt]
    else if ofs < |content| then content[ofs..] + Zeros(ofs + cnt - |content|)
    else Zeros(cnt)
  }

  lemma WantedAt(content: seq<byte>, ofs: nat, r: seq<byte>)
    requires forall k :: 0 <= k < |r| ==> r[k] == if ofs + k < |content| then content[ofs + k] else 0
    ensures r == Wanted(content, ofs, |r|)
  {
  }

  /** What the buffer holds afterwards if it held `before`. */
  function Read(content: seq<byte>, ofs: nat, before: seq<byte>): (r: seq<byte>)
    ensures |r| == |before|
  {
    if ofs < |content| then Wanted(content, ofs, |before|) else before
  }

  /** Reading gives what was asked for unless the read starts at or behind the end: then the buffer is left as it was,
      not cleared. */
  lemma ReadExactly(content: seq<byte>, ofs: nat, before: seq<byte>)
    ensures Read(content, ofs, before) == Wanted(content, ofs, |before|) <==>
              ofs < |content| || before == Zeros(|before|)
  {
  }

  lemma StaleRead()
    ensures Read([], 0, [7]) == [7] && Wanted([], 0, 1) == [0]
  {
    assert Zeros(1) == [0];
  }

  /** Shortened, or lengthened by zeros. */
  function Resized(content: seq<byte>, n: nat): (r: seq<byte>)
    ensures |r| == n
  {
    if n <= |content| then content[..n] else content + Zeros(n - |content|)
  }

  class AttrInode {
    const cluster: nat
    const recordSize: nat
    /** Compressed or encrypted. */
    const packed: bool
    var alloc: nat
    var data: nat
    var init: nat
    var nonResident: bool
    var a: AttrRecord
    /** The size in the page cache. */
    var ubc: nat
    /** How often something outside has failed. */
    ghost var faults: nat

    predicate Ordered()
      reads `alloc, `data, `init
    {
      init <= data <= alloc
    }

    /** The sizes of the inode are those of the attribute record. A resident value is initialized as far as it goes. */
    predicate Agrees()
      reads `alloc, `data, `init, `nonResident, `a
    {
      match a
      case Resident(vo, body, len) => !nonResident && alloc == |body| && data == len && init == len
      case NonResident(al, d, i) => nonResident && alloc == al && data == d && init == i
    }

    /** Records are made of eight byte units, allocations of clusters. */
    ghost predicate Laid()
      reads `a
    {
      && cluster > 0
      && (a.Resident? ==>
           24 <= a.valueOffset && a.valueOffset % 8 == 0 && |a.body| % 8 == 0 && a.valueOffset + |a.body| <= recordSize)
      && (a.NonResident? ==> ToCluster(a.allocSize, cluster) == a.allocSize)
    }

    ghost predicate Valid()
      reads `alloc, `data, `init, `nonResident, `a
    {
      Ordered() && Agrees() && Laid()
    }

    function Content(): (r: seq<byte>)
      requires a.Resident? && a.valueLength <= |a.body|
      reads `a
    {
      a.body[..a.valueLength]
    }

    /** The check of the sizes of a non-resident attribute when its inode is read in: they are taken for signed numbers,
        and what passes is exactly what is in order and has no sign bit. */
    method ReadSizes(storedAlloc: nat, storedData: nat, storedInit: nat) returns (err: int)
      requires storedAlloc < TWO64 && storedData < TWO64 && storedInit < TWO64
      modifies this
      ensures err == 0 <==> storedInit <= storedData <= storedAlloc < TWO64 / 2
      ensures err == 0 ==>
                Ordered() && Agrees() && nonResident && alloc == storedAlloc && data == storedData && init == storedInit
      ensures err != 0 ==> err == EIO && unchanged(this)
    {
      var al, d, i := Signed(storedAlloc), Signed(storedData), Signed(storedInit);
      if i < 0 || d < i || al < d {
        return EIO;
      }
      a := NonResident(storedAlloc, storedData, storedInit);
      alloc, data, init, nonResident := al, d, i, true;
      return 0;
    }

    ghost predicate Unharmed(before: nat, err: int)
      reads `faults
    {
      before <= faults && (err == 0 <==> faults == before)
    }

    /** Mapping the mft record, looking up the attribute, allocating clusters or memory. */
    method Outside() returns (err: int)
      modifies `faults
      ensures Unharmed(old(faults), err)
    {
      err := *;
      if err != 0 {
        faults := faults + 1;
      }
    }

    method SetUbc(n: nat) returns (ok: bool)
      modifies `ubc, `faults
      ensures ubc == if ok then n else old(ubc)
      ensures faults == old(faults) + if ok then 0 else 1
    {
      ok := *;
      if ok {
        ubc := n;
      } else {
        faults := faults + 1;
      }
    }

    /** `ntfs_attr_set_initialized_size`. A negative size asks only for the size in the inode to be written to the
        record. The order of the sizes is kept if and only if the new one is within the allocation. */
    method SetInitializedSize(newInit: int) returns (err: int)
      requires Valid()
      requires newInit < 0 ==> nonResident
      requires newInit >= 0 ==> init <= newInit && (nonResident || newInit <= |a.body|)
      modifies this
      ensures Unharmed(old(faults), err)
      ensures err != 0 ==> unchanged(`alloc, `data, `init, `nonResident, `a, `ubc)
      ensures err == 0 ==>
                && Agrees() && Laid() && alloc == old(alloc) && nonResident == old(nonResident)
                && init == (if newInit < 0 then old(init) else newInit) && data == Max(old(data), init)
                && (Valid() <==> newInit <= alloc)
      ensures err == 0 && !nonResident ==> Valid() && Content()[..old(data)] == old(Content())
      ensures ubc == if err == 0 && newInit > old(data) then newInit else old(ubc)
    {
      err := Outside();
      if err != 0 {
        return;
      }
      if newInit >= 0 {
        var grown := newInit > data;
        if grown {
          data := newInit;
          if a.NonResident? {
            a := a.(dataSize := newInit);
          } else {
            a := a.(valueLength := newInit);
          }
        }
        init := newInit;
        if grown {
          ubc := newInit;
        }
      }
      if a.NonResident? {
        a := a.(initializedSize := init);
      }
    }

    /** `ntfs_resident_attr_write`. */
    method ResidentWrite(buf: seq<byte>, ofs: nat) returns (err: int, n: nat)
      requires Valid()
      modifies this
      ensures Valid() && nonResident == old(nonResident) && alloc == old(alloc) && data == old(data)
      ensures init == old(init)
      ensures ubc == old(ubc)
      ensures old(faults) <= faults && (err == 0 <==> faults == old(faults) && !nonResident && ofs <= data)
      ensures err != 0 ==> unchanged(`alloc, `data, `init, `nonResident, `a, `ubc)
      ensures err == 0 ==> n == Min(|buf|, data - ofs) && Content() == Store(old(Content()), ofs, buf[..n])
    {
      n := 0;
      err := Outside();
      if err != 0 {
        return;
      }
      if nonResident {
        return EAGAIN, 0;
      }
      var len := a.valueLength;
      if ofs > len {
        return EINVAL, 0;
      }
      n := |buf|;
      if ofs + n > len {
        n := len - ofs;
      }
      init := Max(ofs + n, init);
      ghost var before := a.body;
      a := a.(body := Store(a.body, ofs, buf[..n]));
      assert Content() == Store(before[..len], ofs, buf[..n]);
    }

    /** `ntfs_resident_attr_read`, as far as the page cache reaches. */
    method ResidentRead(ofs: nat, cnt: nat, buf: array<byte>) returns (err: int)
      requires Valid() && cnt <= buf.Length
      modifies `faults, buf
      ensures old(faults) <= faults && (err == 0 <==> faults == old(faults) && !nonResident)
      ensures err != 0 ==> buf[..] == old(buf[..])
      ensures err == 0 ==>
                && buf[cnt..] == old(buf[cnt..])
                && buf[..cnt] == Read(Content()[..Min(data, ubc)], ofs, old(buf[..cnt]))
    {
      hide Wanted, Laid;
      err := Outside();
      if err != 0 {
        return;
      }
      if nonResident {
        return EAGAIN;
      }
      var len := a.valueLength;
      if len > data {
        len := data;
      }
      if len > ubc {
        len := ubc;
      }
      if len > init {
        len := init;
      }
      var bytes := cnt;
      if len > ofs {
        if bytes > len - ofs {
          bytes := len - ofs;
        }
        forall k | 0 <= k < bytes {
          buf[k] := a.body[ofs + k];
        }
      }
      if bytes < cnt {
        forall k | bytes <= k < cnt {
          buf[k] := 0;
        }
      }
      ghost var content := Content()[..len];
      if len > ofs {
        WantedAt(content, ofs, buf[..cnt]);
      }
    }

    /** The sizes that `ntfs_attr_make_non_resident` leaves. */
    method MakeNonResident() returns (err: int)
      requires Valid() && !nonResident
      modifies this
      ensures Valid() && data == old(data) && init == old(init) && ubc == old(ubc)
      ensures Unharmed(old(faults), err)
      ensures err != 0 ==> unchanged(`alloc, `data, `init, `nonResident, `a, `ubc)
      ensures err == 0 ==> nonResident && alloc == ToCluster(data, cluster)
    {
      hide ToCluster;
      err := Outside();
      if err != 0 {
        return;
      }
      RoundedUp(data, cluster);
      a := NonResident(ToCluster(data, cluster), a.valueLength, a.valueLength);
      nonResident := true;
      alloc := a.allocSize;
    }

    /** A resident record resized to hold a value of `n` bytes, the first `len` of which are set. What is behind them is
        what happens to be in the record. */
    method Reshape(len: nat, n: nat)
      requires a.Resident? && cluster > 0 && 24 <= a.valueOffset && a.valueOffset % 8 == 0 && len <= n
      requires RoundUp8(a.valueOffset + n) <= recordSize
      requires a.valueLength <= |a.body|
      modifies this`a
      ensures Laid() && a.Resident? && a.valueOffset == old(a.valueOffset) && a.valueLength == len
      ensures |a.body| == RoundUp8(a.valueOffset + n) - a.valueOffset && |a.body| == RoundUp8(n)
      ensures Content() == Resized(old(Content()), len)
    {
      var size := RoundUp8(a.valueOffset + n) - a.valueOffset;
      var v := Resized(a.body[..a.valueLength], len);
      var rest: seq<byte> :| |rest| == size - len by {
        assert |Zeros(size - len)| == size - len;
      }
      a := a.(body := v + rest, valueLength := len);
    }

    /** The resident case of `ntfs_attr_extend_allocation`, when the record can be made large enough. */
    method ExtendResident(newAlloc: nat, newData: int) returns (err: int)
      requires Valid() && !nonResident && alloc <= newAlloc && newData <= newAlloc
      requires RoundUp8(a.valueOffset + newAlloc) <= recordSize
      modifies this
      ensures Valid() && !nonResident
      ensures Unharmed(old(faults), err)
      ensures err != 0 ==> unchanged(`alloc, `data, `init, `nonResident, `a, `ubc)
      ensures err == 0 ==>
                && alloc == RoundUp8(newAlloc) && data == Max(old(data), newData)
                && Content() == Resized(old(Content()), data)
                && ubc == (if newData > old(data) then newData else old(ubc))
    {
      if newData > a.valueLength {
        var ok := SetUbc(newData);
        if !ok {
          return EIO;
        }
        Reshape(newData, newAlloc);
        init, data := newData, newData;
      } else {
        Reshape(a.valueLength, newAlloc);
      }
      alloc := |a.body|;
      return 0;
    }

    /** The non-resident case: the clusters, then the sizes. */
    method ExtendNonResident(newAlloc: nat, newData: int) returns (err: int)
      requires Valid() && nonResident && alloc <= newAlloc && newData <= newAlloc
      requires ToCluster(newAlloc, cluster) == newAlloc
      modifies this
      ensures Valid() && nonResident && init == old(init)
      ensures Unharmed(old(faults), err)
      ensures err == 0 ==>
                alloc == newAlloc && data == Max(old(data), newData) && (newData > old(data) ==> ubc == newData)
      ensures err != 0 ==> data == old(data) || data == newData
    {
      hide ToCluster;
      err := 0;
      if newAlloc > alloc {
        err := Outside();
        if err != 0 {
          return;
        }
        alloc := newAlloc;
        a := a.(allocSize := newAlloc);
      }
      if newData > a.dataSize {
        var ok := SetUbc(newData);
        if !ok {
          err := EIO;
        }
        data := newData;
        a := a.(dataSize := newData);
      }
    }

    /** `ntfs_attr_extend_allocation` for a whole extension (`data_start` negative): the size updates and the conversion
        to non-resident. */
    method ExtendAllocation(wanted: nat, newData: int) returns (err: int)
      requires Valid() && newData <= (if nonResident then ToCluster(wanted, cluster) else wanted)
      modifies this
      ensures Valid() && (old(nonResident) ==> nonResident)
      ensures Unharmed(old(faults), err)
      ensures err == 0 ==> wanted <= alloc && old(alloc) <= alloc && data == Max(old(data), newData)
      ensures err == 0 ==> init == if nonResident then old(init) else data
      ensures err == 0 && old(nonResident) && old(alloc) < ToCluster(wanted, cluster) ==>
                alloc == ToCluster(wanted, cluster)
      ensures err == 0 && newData > old(data) ==> ubc == newData
      ensures err != 0 ==> (data == old(data) || data == newData) && init == old(init)
      ensures !nonResident ==> Content() == Resized(old(Content()), data)
    {
      hide ToCluster, RoundUp8;
      var newAlloc := wanted;
      while true
        invariant faults == old(faults)
        invariant Valid() && data == old(data) && init == old(init) && ubc == old(ubc) && wanted <= newAlloc
        invariant newData <= (if nonResident then ToCluster(newAlloc, cluster) else newAlloc)
        invariant old(nonResident) ==> nonResident && alloc == old(alloc) && newAlloc == wanted
        invariant !nonResident ==> Content() == old(Content()) && alloc == old(alloc)
        invariant nonResident && !old(nonResident) ==> old(alloc) <= newAlloc
        decreases if nonResident then 0 else 1
      {
        if nonResident {
          RoundedUp(newAlloc, cluster);
          newAlloc := ToCluster(newAlloc, cluster);
        }
        err := Outside();
        if err != 0 {
          return;
        }
        if newAlloc <= alloc {
          newAlloc := alloc;
          if newData < 0 {
            return 0;
          }
        }
        if nonResident {
          err := ExtendNonResident(newAlloc, newData);
          return;
        }
        var fits := *;
        if fits && RoundUp8(a.valueOffset + newAlloc) <= recordSize {
          err := ExtendResident(newAlloc, newData);
          return;
        }
        err := MakeNonResident();
        if err != 0 {
          return;
        }
        RoundedUp(newAlloc, cluster);
      }
    }

    /** The resident case of `ntfs_attr_resize`, which fails only for want of space. */
    method ResizeResident(newSize: nat) returns (ok: bool)
      requires Valid() && !nonResident
      modifies this`a, this`alloc, this`data, this`init
      ensures Valid() && !nonResident
      ensures !ok ==> newSize > data && unchanged(`alloc, `data, `init, `nonResident, `a, `ubc)
      ensures ok ==>
                && data == newSize && init == newSize && alloc == RoundUp8(newSize)
                && Content() == Resized(old(Content()), newSize)
    {
      hide RoundUp8, Resized;
      var fits := *;
      var size := RoundUp8(a.valueOffset + newSize);
      if newSize <= data {
        StillFits(a.valueOffset, newSize, |a.body|);
      }
      ok := newSize < recordSize && (size <= a.valueOffset + |a.body| || (fits && size <= recordSize));
      if ok {
        Reshape(newSize, newSize);
        alloc := |a.body|;
        data := a.valueLength;
        init := newSize;
      }
    }

    /** The non-resident case when the allocation does not grow. On failure the data size may have been changed, and the
        allocation may be larger than it takes. */
    method ShrinkNonResident(newSize: nat, newAlloc: nat) returns (err: int)
      requires Valid() && nonResident && newAlloc == ToCluster(newSize, cluster) <= alloc
      modifies `a, `alloc, `data, `init, `faults
      ensures Unharmed(old(faults), err)
      ensures Valid() && nonResident && data == newSize && init == Min(old(init), newSize)
      ensures err == 0 ==> alloc == newAlloc
      ensures newAlloc == old(alloc) ==> err == 0
    {
      hide ToCluster;
      RoundedUp(newSize, cluster);
      if newSize < data {
        if newSize < init {
          init := newSize;
          a := a.(initializedSize := newSize);
        }
      }
      if newSize != data {
        data := newSize;
        a := a.(dataSize := newSize);
      }
      if newAlloc == alloc {
        return 0;
      }
      err := Outside();
      if err != 0 {
        return;
      }
      alloc := newAlloc;
      a := a.(allocSize := newAlloc);
      err := Outside();
    }

    /** What a successful resize leaves. Only when just the allocation grew may the page cache keep a size that an
        earlier failure left. */
    ghost predicate ResizedTo(newSize: nat, oldData: nat, oldInit: nat, oldAlloc: nat)
      reads this
    {
      && cluster > 0 && data == newSize
      && (ubc == newSize || (nonResident && oldData == newSize && oldAlloc < alloc))
      && init == (if nonResident then Min(oldInit, newSize) else newSize)
      && alloc == (if nonResident then ToCluster(newSize, cluster) else RoundUp8(newSize))
    }

    /** `ntfs_attr_resize`, from the lookup of the attribute to the point where the sizes are set. `goOn` is set if the
        attribute has been made non-resident and the work starts over. */
    method ResizeStep(newSize: nat, needUbc: bool) returns (err: int, goOn: bool, need: bool)
      requires Valid() && (!needUbc ==> ubc == newSize)
      modifies this
      ensures Valid() && (old(nonResident) ==> nonResident)
      ensures old(faults) <= faults && (err == 0 ==> faults == old(faults))
      ensures err != 0 ==> faults > old(faults) || packed
      ensures !need ==> ubc == newSize || err != 0 || (nonResident && old(data) == newSize && old(alloc) < alloc)
      ensures goOn ==> err == 0 && nonResident && !old(nonResident) && data == old(data) && init == old(init)
      ensures goOn ==> newSize > data && need == needUbc && ubc == old(ubc) && alloc == ToCluster(data, cluster)
      ensures !goOn && err == 0 ==>
                && data == newSize && init == (if nonResident then Min(old(init), newSize) else newSize)
                && alloc == (if nonResident then ToCluster(newSize, cluster) else RoundUp8(newSize))
      ensures !goOn && err == 0 ==> nonResident == old(nonResident)
      ensures err != 0 ==> data == old(data) || data == newSize
      ensures !nonResident ==> Content() == if err == 0 then Resized(old(Content()), newSize) else old(Content())
    {
      hide ToCluster, RoundUp8, Resized;
      need := needUbc;
      goOn := false;
      err := Outside();
      if err != 0 {
        return;
      }
      var newAlloc := if nonResident then ToCluster(newSize, cluster) else RoundUp8(newSize);
      if need && newSize < data {
        var ok := SetUbc(newSize);
        if !ok {
          return EIO, false, need;
        }
        need := false;
      }
      if newSize == data && newAlloc == alloc {
        SameContent(newSize);
        return;
      }
      err := Outside();
      if err != 0 {
        return;
      }
      if packed {
        return ENOTSUP, false, need;
      }
      if !nonResident {
        var ok := ResizeResident(newSize);
        if !ok {
          err := MakeNonResident();
          goOn := err == 0;
        }
        return;
      }
      err, need := ResizeClusters(newSize, newAlloc, need);
    }

    /** The part for a non-resident attribute: more clusters, or fewer. */
    method ResizeClusters(newSize: nat, newAlloc: nat, needUbc: bool) returns (err: int, need: bool)
      requires Valid() && nonResident && newAlloc == ToCluster(newSize, cluster) && (!needUbc ==> ubc == newSize)
      modifies this
      ensures Valid() && nonResident && Unharmed(old(faults), err)
      ensures !need ==> ubc == newSize || err != 0 || (old(data) == newSize && old(alloc) < alloc)
      ensures err == 0 ==> data == newSize && init == Min(old(init), newSize) && alloc == newAlloc
      ensures err != 0 ==> data == old(data) || data == newSize
    {
      hide ToCluster, RoundUp8, Resized;
      need := needUbc;
      if newSize < data {
        ClustersMonotone(newSize, alloc, cluster);
        assert newAlloc <= alloc;
      } else if newAlloc > alloc {
        RoundedUp(newSize, cluster);
        err := ExtendAllocation(newSize, if newSize > data then newSize else -1);
        need := false;
        return;
      }
      err := ShrinkNonResident(newSize, newAlloc);
    }

    lemma SameContent(n: nat)
      requires Valid() && data == n
      ensures !nonResident ==> Content() == Resized(Content(), n)
    {
    }

    /** `ntfs_attr_resize`. Whether it succeeds or not the sizes stay in order and agree with the attribute record; if
        it succeeds they are what was asked for, and a value that is still resident is cut off or continued with
        zeros. */
    method Resize(newSize: nat) returns (err: int)
      requires Valid()
      modifies this
      ensures Valid() && (old(nonResident) ==> nonResident)
      ensures old(faults) <= faults && (err == 0 ==> faults == old(faults))
      ensures err != 0 ==> faults > old(faults) || packed
      ensures err == 0 ==>
                ResizedTo(newSize, old(data), old(init), if nonResident
                  && !old(nonResident) then ToCluster(old(data), cluster) else old(alloc))
      ensures err != 0 ==> data == old(data) || data == newSize
      ensures !nonResident ==>
                Content() == Resized(old(Content()), newSize) || (err != 0 && Content() == old(Content()))
    {
      hide ToCluster, RoundUp8, Resized;
      var oldSize := ubc;
      var need := true;
      if newSize < oldSize {
        var ok := SetUbc(newSize);
        if !ok {
          err := EIO;
          var restored := SetUbc(oldSize);
          return;
        }
        need := false;
      }
      oldSize := data;
      var goOn;
      err, goOn, need := ResizeStep(newSize, need);
      if goOn {
        err, goOn, need := ResizeStep(newSize, need);
      }
      if err == 0 && need {
        var ok := SetUbc(newSize);
        if !ok {
          err := EIO;
        }
      }
      if err != 0 {
        var restored := SetUbc(oldSize);
      }
    }

    // ----- Runs

    /** Any sequence of these operations, successful or not, on an attribute that starts out in order. The initialized
        size is only ever set within the allocation. */
    method Run(ops: seq<Op>)
      requires Valid()
      modifies this
      ensures Valid()
    {
      hide Ordered, Agrees, Laid;
      for k := 0 to |ops|
        invariant Valid()
      {
        match ops[k]
        case DoResize(n) =>
          var err := Resize(n);
        case DoExtend(n, d) =>
          if d <= n {
            Covers(n);
            var err := ExtendAllocation(n, d);
          }
        case DoSetInitialized(n) =>
          if (if n < 0 then nonResident else init <= n <= alloc) {
            Within(n);
            var err := SetInitializedSize(n);
          }
        case DoWrite(buf, ofs) =>
          var err, n := ResidentWrite(buf, ofs);
      }
    }

    lemma Covers(n: nat)
      requires Valid()
      ensures cluster > 0 && n <= ToCluster(n, cluster)
    {
      RoundedUp(n, cluster);
    }

    lemma Within(n: int)
      requires Valid() && (n >= 0 ==> n <= alloc)
      ensures n >= 0 ==> nonResident || (a.Resident? && n <= |a.body|)
    {
    }
  }

  datatype Op = DoResize(n: nat) | DoExtend(alloc: nat, d: int) | DoSetInitialized(i: int) | DoWrite(buf: seq<byte>,
    ofs: nat)
}
