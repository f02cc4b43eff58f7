/** Setting a run of bits in an on-disk bitmap, page by page (`__ntfs_bitmap_set_bits_in_run`, kext/ntfs_bitmap.c). */
module Bitmap {
  import opened Errno

  const PAGE_SIZE := 4096

  // ----- Bits

  /** `1 << k`. */
  function Mask(k: nat): (r: bv8)
    requires k < 8
  {
    if k == 0 then 1 else if k == 1 then 2 else if k == 2 then 4 else if k == 3 then 8
    else if k == 4 then 16 else if k == 5 then 32 else if k == 6 then 64 else 128
  }

  predicate BitOf(x: bv8, k: nat)
    requires k < 8
  {
    x & Mask(k) != 0
  }

  /** Bit `i` of the bitmap: bytes in order, low bits first. */
  predicate BitAt(s: seq<bv8>, i: nat)
    requires i < 8 * |s|
  {
    BitOf(s[i / 8], i % 8)
  }

  function WithBit(x: bv8, k: nat, v: bool): (r: bv8)
    requires k < 8
  {
    if v then x | Mask(k) else x & !Mask(k)
  }

  lemma OneBitChanges(x: bv8, k: nat, v: bool, j: nat)
    requires k < 8 && j < 8
    ensures BitOf(WithBit(x, k, v), j) == if j == k then v else BitOf(x, j)
  {
    MasksDiffer(x, Mask(k), Mask(j));
    MasksApart(k, j);
  }

  lemma MasksApart(k: nat, j: nat)
    requires k < 8 && j < 8
    ensures Mask(k) & Mask(k) == Mask(k) != 0
    ensures k != j ==> Mask(k) & Mask(j) == 0
  {
  }

  lemma MasksDiffer(x: bv8, a: bv8, b: bv8)
    ensures a & b == 0 ==> ((x | a) & b) == x & b && ((x & !a) & b) == x & b
    ensures a == b && a != 0 ==> (x | a) & b != 0 && (x & !a) & b == 0
  {
  }

  /** All bits of a byte alike. */
  lemma FullByte(v: bool, k: nat)
    requires k < 8
    ensures BitOf(if v then 0xff else 0, k) == v
  {
  }

  /** A byte is determined by its bits. */
  lemma ByteFromBits(x: bv8, y: bv8)
    requires forall k :: 0 <= k < 8 ==> BitOf(x, k) == BitOf(y, k)
    ensures x == y
  {
    assert BitOf(x, 0) == BitOf(y, 0) && BitOf(x, 1) == BitOf(y, 1) && BitOf(x, 2) == BitOf(y, 2)
           && BitOf(x, 3) == BitOf(y, 3);
    assert BitOf(x, 4) == BitOf(y, 4) && BitOf(x, 5) == BitOf(y, 5) && BitOf(x, 6) == BitOf(y, 6)
           && BitOf(x, 7) == BitOf(y, 7);
    FromMasks(x, y);
  }

  lemma FromMasks(x: bv8, y: bv8)
    requires (x & 1 != 0) == (y & 1 != 0) && (x & 2 != 0) == (y & 2 != 0) && (x & 4 != 0) == (y & 4 != 0)
    requires (x & 8 != 0) == (y & 8 != 0)
    requires (x & 16 != 0) == (y & 16 != 0) && (x & 32 != 0) == (y & 32 != 0) && (x & 64 != 0) == (y & 64 != 0)
    requires (x & 128 != 0) == (y & 128 != 0)
    ensures x == y
  {
  }

  // ----- Runs

  /** `now` is `was` with the bits from `lo` up to `hi` set to `v`, and no others changed. */
  ghost predicate SetTo(was: seq<bv8>, now: seq<bv8>, lo: nat, hi: nat, v: bool) {
    && |now| == |was|
    && forall i :: 0 <= i < 8 * |was| ==> BitAt(now, i) == if lo <= i < hi then v else BitAt(was, i)
  }

  lemma SetNothing(was: seq<bv8>, lo: nat, v: bool)
    ensures SetTo(was, was, lo, lo, v)
  {
  }

  lemma SetMore(a: seq<bv8>, b: seq<bv8>, c: seq<bv8>, lo: nat, mid: nat, hi: nat, v: bool)
    requires lo <= mid <= hi
    requires (SetTo(a, b, lo, mid, v) && SetTo(b, c, mid, hi, v))
             || (SetTo(a, b, mid, hi, v) && SetTo(b, c, lo, mid, v))
    ensures SetTo(a, c, lo, hi, v)
  {
    hide BitAt;
  }

  /** The bits determine the bitmap. */
  lemma SameBits(a: seq<bv8>, b: seq<bv8>)
    requires |a| == |b| && forall i :: 0 <= i < 8 * |a| ==> BitAt(a, i) == BitAt(b, i)
    ensures a == b
  {
    hide BitOf;
    forall j | 0 <= j < |a|
      ensures a[j] == b[j]
    {
      forall k | 0 <= k < 8
        ensures BitOf(a[j], k) == BitOf(b[j], k)
      {
        assert BitAt(a, 8 * j + k) == BitAt(b, 8 * j + k);
      }
      ByteFromBits(a[j], b[j]);
    }
  }

  /** Setting bits and setting them back: the bitmap is as before exactly if they all had the other value. */
  lemma RolledBack(was: seq<bv8>, mid: seq<bv8>, now: seq<bv8>, lo: nat, hi: nat, v: bool)
    requires SetTo(was, mid, lo, hi, v) && SetTo(mid, now, lo, hi, !v) && lo <= hi <= 8 * |was|
    ensures now == was <==> forall i :: lo <= i < hi ==> BitAt(was, i) == !v
  {
    hide BitAt;
    if forall i :: lo <= i < hi ==> BitAt(was, i) == !v {
      SameBits(was, now);
    } else {
      var i :| lo <= i < hi && BitAt(was, i) != !v;
      assert BitAt(now, i) == !v;
    }
  }

  /** The page a byte is in, by the offset of its first byte. */
  function PageStart(p: nat): (r: nat)
    ensures r % PAGE_SIZE == 0 && r <= p < r + PAGE_SIZE
  {
    p / PAGE_SIZE * PAGE_SIZE
  }

  lemma PagesApart(p: nat, q: nat)
    requires p <= q
    ensures PageStart(p) <= PageStart(q)
    ensures PageStart(p) < PageStart(q) ==> PageStart(p) + PAGE_SIZE <= PageStart(q)
  {
  }

  /** The whole bytes of `cnt` bits that fit in a page. */
  function PageLen(cnt: nat): (r: nat)
    ensures r <= PAGE_SIZE && 8 * r <= cnt
  {
    if PAGE_SIZE > cnt / 8 then cnt / 8 else PAGE_SIZE
  }

  /** How far one page takes the run: to its end, or to the last byte of the run if that is in the page. */
  lemma PageTakes(end: nat, ofs: nat, endOfs: nat, cnt: nat)
    requires ofs % PAGE_SIZE == 0 && endOfs % PAGE_SIZE == 0 && ofs <= endOfs
    requires 8 * endOfs < end <= 8 * (endOfs + PAGE_SIZE)
    requires 8 * ofs + cnt == end
    ensures var len := PageLen(cnt);
            && ofs + PAGE_SIZE <= endOfs + PAGE_SIZE
            && (ofs < endOfs ==> ofs + PAGE_SIZE <= endOfs && len == PAGE_SIZE && cnt - 8 * len > 0)
            && (ofs == endOfs ==> 0 <= cnt - 8 * len < 8)
  {
  }

  lemma NextPageStart(ofs: nat, endOfs: nat)
    requires ofs % PAGE_SIZE == 0 && endOfs % PAGE_SIZE == 0 && ofs < endOfs
    ensures (ofs + PAGE_SIZE) % PAGE_SIZE == 0 && ofs + PAGE_SIZE <= endOfs
  {
  }

  /** The first bit of a page. */
  predicate AtPage(bit: int) {
    bit % (8 * PAGE_SIZE) == 0
  }

  lemma PageBoundary(ofs: nat)
    requires ofs % PAGE_SIZE == 0
    ensures AtPage(8 * ofs)
  {
  }

  class BitmapInode {
    const bytes: array<bv8>
    /** The volume has been marked for a check. */
    var errors: bool
    /** How often a page could not be mapped. */
    ghost var faults: nat

    method MapPage() returns (mapped: bool)
      modifies `faults
      ensures faults == old(faults) + if mapped then 0 else 1
    {
      mapped := *;
      if !mapped {
        faults := faults + 1;
      }
    }

    /** Bit `k` of byte `p`. */
    method SetOne(p: nat, k: nat, v: bool)
      requires p < bytes.Length && k < 8
      modifies bytes
      ensures SetTo(old(bytes[..]), bytes[..], 8 * p + k, 8 * p + k + 1, v)
    {
      hide BitOf, WithBit;
      ghost var was := bytes[..];
      bytes[p] := WithBit(bytes[p], k, v);
      ghost var now := bytes[..];
      forall i | 0 <= i < 8 * |was|
        ensures BitAt(now, i) == if i == 8 * p + k then v else BitAt(was, i)
      {
        if i / 8 == p {
          OneBitChanges(was[p], k, v, i % 8);
        }
      }
    }

    /** Whole bytes. */
    method Memset(p: nat, len: nat, v: bool)
      requires p + len <= bytes.Length
      modifies bytes
      ensures SetTo(old(bytes[..]), bytes[..], 8 * p, 8 * (p + len), v)
    {
      hide BitOf;
      ghost var was := bytes[..];
      forall i | p <= i < p + len {
        bytes[i] := if v then 0xff else 0;
      }
      ghost var now := bytes[..];
      forall i | 0 <= i < 8 * |was|
        ensures BitAt(now, i) == if 8 * p <= i < 8 * (p + len) then v else BitAt(was, i)
      {
        FullByte(v, i % 8);
      }
    }

    /** The bits from `bit` on of the first byte, which is partial, as far as they belong to the run. */
    method FirstByte(start: nat, count: nat, v: bool) returns (cnt: nat)
      requires start % 8 != 0 && 0 < count && start + count <= 8 * bytes.Length
      modifies bytes
      ensures cnt <= count && SetTo(old(bytes[..]), bytes[..], start, start + (count - cnt), v)
      ensures cnt == 0 ==> (start + count - 1) / 8 == start / 8
      ensures cnt > 0 ==> start + (count - cnt) == 8 * (start / 8 + 1)
    {
      hide SetTo;
      ghost var was := bytes[..];
      var bit := start % 8;
      cnt := count;
      SetNothing(was, start, v);
      while bit % 8 != 0 && cnt > 0
        invariant start % 8 <= bit <= 8 && cnt <= count && count - cnt == bit - start % 8
        invariant SetTo(was, bytes[..], start, start + (count - cnt), v)
        decreases cnt
      {
        ghost var mid := bytes[..];
        cnt := cnt - 1;
        SetOne(start / 8, bit, v);
        SetMore(was, mid, bytes[..], start, start + (count - cnt) - 1, start + (count - cnt), v);
        bit := bit + 1;
      }
    }

    /** The low `cnt` bits of byte `p`, from the top down. */
    method LastByte(p: nat, cnt: nat, v: bool)
      requires p < bytes.Length && cnt < 8
      modifies bytes
      ensures SetTo(old(bytes[..]), bytes[..], 8 * p, 8 * p + cnt, v)
    {
      hide SetTo;
      ghost var was := bytes[..];
      var bit := cnt;
      SetNothing(was, 8 * p + cnt, v);
      while bit > 0
        invariant 0 <= bit <= cnt && SetTo(was, bytes[..], 8 * p + bit, 8 * p + cnt, v)
      {
        ghost var mid := bytes[..];
        bit := bit - 1;
        SetOne(p, bit, v);
        SetMore(was, mid, bytes[..], 8 * p + bit, 8 * p + bit + 1, 8 * p + cnt, v);
      }
    }

    /** What there is to set in the first page. `len` is the first byte of the page not done yet, if it is the last
        one. */
    method FirstPage(start: nat, count: nat, v: bool, ofs: nat, endOfs: nat) returns (cnt: nat, len: nat)
      requires 0 < count && start + count <= 8 * bytes.Length && bytes.Length % PAGE_SIZE == 0
      requires ofs == PageStart(start / 8) && endOfs == PageStart((start + count - 1) / 8)
      modifies bytes
      ensures cnt <= count && SetTo(old(bytes[..]), bytes[..], start, start + (count - cnt), v)
      ensures ofs <= endOfs && (cnt > 0 && ofs < endOfs ==> start + (count - cnt) == 8 * (ofs + PAGE_SIZE))
      ensures ofs < endOfs ==> cnt > 0
      ensures ofs == endOfs && cnt > 0 ==> cnt < 8 && len <= PAGE_SIZE && start + (count - cnt) == 8 * (ofs + len)
    {
      hide SetTo, PageStart, AtPage;
      ghost var was := bytes[..];
      PagesApart(start / 8, (start + count - 1) / 8);
      cnt, len := count, 0;
      SetNothing(was, start, v);
      var pos := start / 8 - ofs;
      if start % 8 != 0 {
        cnt := FirstByte(start, count, v);
        if cnt == 0 {
          return;
        }
        pos := pos + 1;
      }
      len := PAGE_SIZE - pos;
      if len > cnt / 8 {
        len := cnt / 8;
      }
      ghost var mid, at := bytes[..], start + (count - cnt);
      assert at == 8 * (ofs + pos);
      Memset(ofs + pos, len, v);
      SetMore(was, mid, bytes[..], start, at, at + 8 * len, v);
      cnt := cnt - 8 * len;
      if cnt < 8 {
        len := len + pos;
      }
    }

    /** The pages from the first on, as far as they can be mapped: `cnt` bits are left over when one cannot. */
    method SetPages(start: nat, count: nat, v: bool) returns (err: int, cnt: nat)
      requires 0 < count && start + count <= 8 * bytes.Length && bytes.Length % PAGE_SIZE == 0
      modifies `faults, bytes
      ensures err == 0 <==> cnt == 0
      ensures faults == old(faults) + if err == 0 then 0 else 1
      ensures err != 0 ==> cnt == count || AtPage(start + (count - cnt))
      ensures cnt <= count && SetTo(old(bytes[..]), bytes[..], start, start + (count - cnt), v)
    {
      hide SetTo, PageStart, AtPage;
      ghost var was := bytes[..];
      cnt := count;
      SetNothing(was, start, v);
      var ofs, endOfs := PageStart(start / 8), PageStart((start + count - 1) / 8);
      PagesApart(start / 8, (start + count - 1) / 8);
      var mapped := MapPage();
      if !mapped {
        return EIO, cnt;
      }
      var len;
      cnt, len := FirstPage(start, count, v, ofs, endOfs);
      if cnt == 0 {
        return 0, 0;
      }
      err, cnt := OtherPages(start, count, v, ofs, endOfs, cnt, len, was);
    }

    /** The loop over the pages behind the first, and the last byte. */
    method OtherPages(start: nat, count: nat, v: bool, first: nat, endOfs: nat, left: nat, len0: nat,
                      ghost was: seq<bv8>)
      returns (err: int, cnt: nat)
      requires start + count <= 8 * bytes.Length && bytes.Length % PAGE_SIZE == 0 && 0 < left <= count
      requires first % PAGE_SIZE == 0 && endOfs % PAGE_SIZE == 0 && first <= endOfs
      requires 8 * endOfs < start + count <= 8 * (endOfs + PAGE_SIZE)
      requires SetTo(was, bytes[..], start, start + (count - left), v)
      requires first < endOfs ==> start + (count - left) == 8 * (first + PAGE_SIZE)
      requires first == endOfs ==> left < 8 && len0 <= PAGE_SIZE && start + (count - left) == 8 * (first + len0)
      modifies `faults, bytes
      ensures err == 0 <==> cnt == 0
      ensures faults == old(faults) + if err == 0 then 0 else 1
      ensures err != 0 ==> AtPage(start + (count - cnt))
      ensures cnt <= count && SetTo(was, bytes[..], start, start + (count - cnt), v)
    {
      hide SetTo, PageLen, AtPage;
      var ofs, len := first, len0;
      cnt := left;
      while ofs < endOfs
        invariant ofs % PAGE_SIZE == 0 && ofs <= endOfs && cnt <= count && faults == old(faults)
        invariant SetTo(was, bytes[..], start, start + (count - cnt), v)
        invariant ofs < endOfs ==> start + (count - cnt) == 8 * (ofs + PAGE_SIZE)
        invariant ofs == endOfs ==> cnt < 8 && len <= PAGE_SIZE && start + (count - cnt) == 8 * (ofs + len)
        decreases endOfs - ofs
      {
        // `cnt <= 0` would make the driver panic.
        assert cnt > 0;
        var mapped := MapPage();
        if !mapped {
          PageBoundary(ofs + PAGE_SIZE);
          return EIO, cnt;
        }
        NextPageStart(ofs, endOfs);
        ofs := ofs + PAGE_SIZE;
        len := PageLen(cnt);
        PageTakes(start + count, ofs, endOfs, cnt);
        ghost var mid, at := bytes[..], start + (count - cnt);
        Memset(ofs, len, v);
        SetMore(was, mid, bytes[..], start, at, at + 8 * len, v);
        cnt := cnt - 8 * len;
      }
      if cnt > 0 {
        // `cnt > 7` would make the driver panic.
        assert cnt <= 7;
        ghost var mid, at := bytes[..], start + (count - cnt);
        LastByte(ofs + len, cnt, v);
        SetMore(was, mid, bytes[..], start, at, at + cnt, v);
        cnt := 0;
      }
      err := 0;
    }

    /** `__ntfs_bitmap_set_bits_in_run`. When a page cannot be mapped, the `m` bits set by then are set to the other
        value; `r` of them are if that fails, too, and then the volume is marked. */
    method SetBitsInRun(start: nat, count: nat, v: bool, isRollback: bool)
      returns (err: int, ghost m: nat, ghost r: nat, ghost mid: seq<bv8>)
      requires 0 < count && start + count <= 8 * bytes.Length && bytes.Length % PAGE_SIZE == 0
      modifies `errors, `faults, bytes
      ensures err == 0 <==> faults == old(faults)
      ensures if err == 0 then m == count else m < count && (m == 0 || AtPage(start + m))
      ensures err != 0 ==> faults == old(faults) + if isRollback || r == m then 1 else 2
      ensures err == 0 || isRollback ==>
                m <= count && SetTo(old(bytes[..]), bytes[..], start, start + m, v) && errors == old(errors)
      ensures err != 0 && !isRollback ==>
                && r <= m <= count && SetTo(old(bytes[..]), mid, start, start + m, v)
                && SetTo(mid, bytes[..], start, start + r, !v)
                && (r == m || errors) && (r == m ==> errors == old(errors))
      decreases if isRollback then 0 else 1
    {
      hide SetTo;
      ghost var was := bytes[..];
      var cnt;
      err, cnt := SetPages(start, count, v);
      m, r, mid := count - cnt, 0, bytes[..];
      if err == 0 || isRollback {
        return;
      }
      SetNothing(mid, start, !v);
      if count != cnt {
        ghost var r2, mid2;
        var err2;
        err2, r, r2, mid2 := SetBitsInRun(start, count - cnt, !v, true);
        if err2 != 0 {
          errors := true;
        }
      }
    }
  }
}
