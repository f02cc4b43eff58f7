/** In-place edits of the attribute records of an mft record (kext/ntfs_attr.c).

    Each edit moves bytes inside the record buffer; each is shown to be an edit of the parsed sequence of
    attribute records. */
module MftRecord {
  import opened Errno
  import opened Bytes
  import opened AttrArea
  import opened Attr
  import opened Collate

  /** An attribute record of `n` zero bytes but for its length field. */
  ghost function Blank(n: nat): (r: Blob)
    requires 8 <= n < 0x1_0000_0000
    ensures |r| == n
  {
    Store(Zeros(n), 4, Put32(n))
  }

  lemma BlankWellSized(n: nat)
    requires 8 <= n < 0x1_0000_0000 && n % 8 == 0
    ensures WellSized(Blank(n)) && LE32(Blank(n), 0) == 0
  {
    var b := Blank(n);
    assert b[4..8] == Put32(n);
    assert b[0] == b[1] == b[2] == b[3] == 0;
  }

  lemma GapBytes(s: seq<byte>, a: nat, sz: nat, muse: nat)
    requires a <= muse && 8 <= sz && muse + sz <= |s| < 0x1_0000_0000
    ensures Store(Store(Store(s, a + sz, s[a..muse]), a, Zeros(sz)), a + 4, Put32(sz))[..muse + sz]
         == s[..a] + Blank(sz) + s[a..muse]
  {
    hide LE32, Put32, Zeros, Store;
  }

  /** The same for the whole buffer `t` afterwards, and for the part of it from `off` on. */
  lemma GapArea(s: seq<byte>, t: seq<byte>, off: nat, a: nat, sz: nat, muse: nat)
    requires off <= a <= muse && 8 <= sz && muse + sz <= |s| < 0x1_0000_0000
    requires t == Store(Store(Store(s, a + sz, s[a..muse]), a, Zeros(sz)), a + 4, Put32(sz))
    ensures |t| == |s| && t[..muse + sz] == s[..a] + Blank(sz) + s[a..muse]
    ensures t[off..muse + sz] == s[off..a] + Blank(sz) + s[a..muse]
  {
    hide LE32, Put32, Zeros, Store, Blank;
    GapBytes(s, a, sz, muse);
    assert t[off..muse + sz] == t[..muse + sz][off..];
    assert s[off..a] == s[..a][off..];
  }

  lemma Extensional(x: seq<byte>, y: seq<byte>)
    requires |x| == |y| && forall k :: 0 <= k < |x| ==> x[k] == y[k]
    ensures x == y
  {
  }

  /** After the bytes behind the old record have been moved and the new length stored, byte by byte. */
  lemma ShiftedAt(s: seq<byte>, t: seq<byte>, a: nat, n: nat, sz: nat, muse: nat, k: nat)
    requires a + n <= muse && muse - n + sz <= |s| && muse <= |s| < 0x1_0000_0000
    requires var u := Store(s, a + sz, s[a + n..muse]);
             t == if sz >= 8 then Store(u, a + 4, Put32(sz)) else u
    ensures |t| == |s|
    ensures k < a + sz && !(sz >= 8 && a + 4 <= k < a + 8) ==> t[k] == s[k]
    ensures sz >= 8 && k < 4 ==> t[a + 4 + k] == Put32(sz)[k]
    ensures k < muse - a - n ==> t[a + sz + k] == s[a + n + k]
  {
    hide Store, Put32;
  }

  lemma ShiftedBytes(s: seq<byte>, t: seq<byte>, a: nat, n: nat, sz: nat, muse: nat)
    requires a + n <= muse && muse - n + sz <= |s| && muse <= |s| < 0x1_0000_0000
    requires var u := Store(s, a + sz, s[a + n..muse]);
             t == if sz >= 8 then Store(u, a + 4, Put32(sz)) else u
    ensures |t| == |s| && t[..a] == s[..a] && t[a + sz..muse - n + sz] == s[a + n..muse]
    ensures 8 <= sz && 8 <= n ==>
              var k := if sz < n then sz else n;
              var b, c := s[a..a + n], t[a..a + sz];
              c[..4] == b[..4] && c[4..8] == Put32(sz) && c[8..k] == b[8..k]
  {
    hide Store, Put32;
    var x, y := t[..a], s[..a];
    forall k | 0 <= k < a
      ensures x[k] == y[k]
    {
      ShiftedAt(s, t, a, n, sz, muse, k);
    }
    Extensional(x, y);
    var v, w := t[a + sz..muse - n + sz], s[a + n..muse];
    forall k | 0 <= k < |v|
      ensures v[k] == w[k]
    {
      ShiftedAt(s, t, a, n, sz, muse, k);
    }
    Extensional(v, w);
    if 8 <= sz && 8 <= n {
      ShiftedHead(s, t, a, n, sz, muse);
    }
  }

  lemma ShiftedHead(s: seq<byte>, t: seq<byte>, a: nat, n: nat, sz: nat, muse: nat)
    requires a + n <= muse && muse - n + sz <= |s| && muse <= |s| < 0x1_0000_0000 && 8 <= sz && 8 <= n
    requires t == Store(Store(s, a + sz, s[a + n..muse]), a + 4, Put32(sz))
    ensures |t| == |s|
    ensures var k := if sz < n then sz else n;
            var b, c := s[a..a + n], t[a..a + sz];
            c[..4] == b[..4] && c[4..8] == Put32(sz) && c[8..k] == b[8..k]
  {
    hide Store, Put32;
    var m := if sz < n then sz else n;
    var b, c := s[a..a + n], t[a..a + sz];
    forall k | 0 <= k < m && !(4 <= k < 8)
      ensures c[k] == b[k]
    {
      ShiftedAt(s, t, a, n, sz, muse, a + k);
    }
    Extensional(c[..4], b[..4]);
    Extensional(c[8..m], b[8..m]);
    var x, y := c[4..8], Put32(sz);
    forall k | 0 <= k < 4
      ensures x[k] == y[k]
    {
      ShiftedAt(s, t, a, n, sz, muse, k);
    }
    Extensional(x, y);
  }

  // ----- In-place edits

  /** Overlap-safe copy of `n` bytes inside one buffer. */
  method Memmove(m: array<byte>, dst: nat, src: nat, n: nat)
    requires dst + n <= m.Length && src + n <= m.Length
    modifies m
    ensures m[..] == Store(old(m[..]), dst, old(m[..])[src..src + n])
  {
    forall i | 0 <= i < n {
      m[dst + i] := m[src + i];
    }
  }

  method WriteBytes(m: array<byte>, o: nat, v: seq<byte>)
    requires o + |v| <= m.Length
    modifies m
    ensures m[..] == Store(old(m[..]), o, v)
  {
    forall i | 0 <= i < |v| {
      m[o + i] := v[i];
    }
  }

  class Record {
    var attrsOffset: nat
    var bytesInUse: nat
    const bytesAllocated: nat
    var nextAttrInstance: nat
    const m: array<byte>

    /** An empty mft record, as `ntfs_mft_record_lay_out` lays it out. */
    constructor (size: nat, first: nat)
      requires first % 8 == 0 && first + 8 <= size < 0x1_0000_0000
      ensures Valid() && fresh(m) && Attrs() == []
      ensures attrsOffset == first && bytesAllocated == size && nextAttrInstance == 0
    {
      attrsOffset, bytesInUse, bytesAllocated, nextAttrInstance := first, first + 8, size, 0;
      m := new byte[size](i => 0);
      new;
      ghost var zeros := m[..];
      WriteBytes(m, first, Put32(AT_END));
      StoreSlices(zeros, first, Put32(AT_END));
      SliceOfSlice(m[..], first, first + 8, 0, 4);
      assert Area() == m[..][first..first + 8];
      ReadSlice(Area(), 0, Put32(AT_END), 0);
    }

    /** The attribute area. */
    ghost function Area(): (r: seq<byte>)
      reads `attrsOffset, `bytesInUse, m
      requires attrsOffset <= bytesInUse <= m.Length
    {
      m[attrsOffset..bytesInUse]
    }

    ghost predicate Valid()
      reads `attrsOffset, `bytesInUse, m
    {
      && attrsOffset % 8 == 0
      && attrsOffset + 8 <= bytesInUse <= bytesAllocated == m.Length < 0x1_0000_0000
      && Parse(Area()).Some?
    }

    /** The attribute records, in the order they are stored. */
    ghost function Attrs(): (r: seq<Blob>)
      reads `attrsOffset, `bytesInUse, m
      requires Valid()
    {
      Parse(Area()).value
    }

    /** `a` is the byte position of the attribute record with index `i`, or of the terminator for the last
        index. That the record at `a` and the terminator lie inside the used bytes follows. */
    ghost predicate PointsAt(a: nat, i: nat)
      reads `attrsOffset, `bytesInUse, m
      requires Valid()
    {
      && i <= |Attrs()| && a == attrsOffset + Offset(Attrs(), i)
      && a + 8 <= bytesInUse
      && (i < |Attrs()| ==> a + |Attrs()[i]| + 8 <= bytesInUse)
    }

    lemma PointsInside(i: nat)
      requires Valid() && i <= |Attrs()|
      ensures PointsAt(attrsOffset + Offset(Attrs(), i), i)
    {
      SplitAt(Area(), i);
      if i < |Attrs()| {
        CutOut(Area(), i);
      }
    }

    /** Reading the header of the attribute record at `a`. */
    lemma ReadHeader(a: nat, i: nat)
      requires Valid() && PointsAt(a, i)
      ensures i == |Attrs()| <==> LE32(m[..], a) == AT_END
      ensures i < |Attrs()| ==>
                var b := Attrs()[i];
                && WellSized(b) && LE32(m[..], a + 4) == |b|
                && m[a..a + |b|] == b && PointsAt(a + |b|, i + 1)
    {
      hide Parse, Flatten, LE32;
      var bs := Attrs();
      HeadOf(Area(), i);
      var t := Area()[Offset(bs, i)..];
      assert t == m[a..bytesInUse];
      SameHeader(m[..], a, t);
      if i < |bs| {
        OffsetNext(bs, i);
        PointsInside(i + 1);
      }
    }

    /** `ntfs_attr_record_is_only_one`. */
    method IsOnlyOne(a: nat, ghost i: nat) returns (r: bool)
      requires Valid() && PointsAt(a, i) && i < |Attrs()|
      ensures r <==> |Attrs()| == 1
    {
      hide Parse, Flatten, LE32;
      ReadHeader(a, i);
      var len := LE32(m[..], a + 4);
      ReadHeader(a + len, i + 1);
      r := attrsOffset == a && LE32(m[..], a + len) == AT_END;
      FlattenParse(Area());
      OffsetZero(Attrs(), i);
    }

    /** The buffer and the attribute area split around the attribute record at `a`. */
    lemma Around(a: nat, i: nat)
      requires Valid() && PointsAt(a, i) && i < |Attrs()|
      ensures attrsOffset % 8 == 0 && a == attrsOffset + Offset(Attrs(), i)
      ensures a + |Attrs()[i]| + 8 <= bytesInUse <= bytesAllocated == m.Length < 0x1_0000_0000
      ensures WellSized(Attrs()[i]) && 8 <= |Attrs()[i]| == LE32(m[..], a + 4) && Parse(Area()) == Some(Attrs())
      ensures m[..] == m[..a] + Attrs()[i] + m[a + |Attrs()[i]|..]
      ensures Area() == m[attrsOffset..a] + Attrs()[i] + m[a + |Attrs()[i]|..bytesInUse]
      ensures Area() == (m[..a] + Attrs()[i] + m[a + |Attrs()[i]|..])[attrsOffset..bytesInUse]
    {
      hide Parse, Flatten, LE32;
      ReadHeader(a, i);
    }

    /** After the bytes of one attribute record have been exchanged for `c`, or removed, the other records
        are as before: `area` is the attribute area as it was and `bs` its records. */
    lemma Resplice(a: nat, i: nat, area: seq<byte>, bs: seq<Blob>, lo: seq<byte>, c: Blob, hi: seq<byte>)
      requires attrsOffset % 8 == 0 && bytesInUse <= bytesAllocated == m.Length < 0x1_0000_0000
      requires Parse(area) == Some(bs) && i < |bs| && a == attrsOffset + Offset(bs, i) && |lo| == Offset(bs, i)
      requires area == lo + bs[i] + hi && |hi| >= 8
      requires c == [] || WellSized(c)
      requires attrsOffset <= bytesInUse && Area() == lo + c + hi
      ensures Valid() && Attrs() == if c == [] then bs[..i] + bs[i + 1..] else bs[i := c]
      ensures PointsAt(a, i)
    {
      hide Parse, Flatten, LE32;
      Respliced(area, i, lo, c, hi);
      assert Attrs()[..i] == bs[..i];
      PointsInside(i);
    }

    /** The same, said of the whole buffer, when the size stays. */
    lemma Overwritten(a: nat, i: nat, area: seq<byte>, bs: seq<Blob>, lo: seq<byte>, e: Blob, hi: seq<byte>)
      requires attrsOffset % 8 == 0 && bytesInUse <= bytesAllocated == m.Length < 0x1_0000_0000
      requires Parse(area) == Some(bs) && i < |bs| && |e| == |bs[i]| && WellSized(e)
      requires |lo| == a == attrsOffset + Offset(bs, i) && a + |e| + 8 <= bytesInUse
      requires bytesInUse <= |lo| + |e| + |hi| && area == (lo + bs[i] + hi)[attrsOffset..bytesInUse]
      requires m[..] == lo + e + hi
      ensures Valid() && Attrs() == bs[i := e]
      ensures PointsAt(a, i)
    {
      hide Parse, Flatten, LE32;
      var n := bytesInUse - a - |e|;
      assert area == lo[attrsOffset..] + bs[i] + hi[..n];
      Resplice(a, i, area, bs, lo[attrsOffset..], e, hi[..n]);
    }

    /** `ntfs_attr_record_delete_internal`: the record is cut out, everything else keeps its bytes. */
    method DeleteInternal(a: nat, ghost i: nat)
      requires Valid() && PointsAt(a, i) && i < |Attrs()|
      modifies this`bytesInUse, m
      ensures Valid()
      ensures Attrs() == old(Attrs()[..i] + Attrs()[i + 1..])
      ensures bytesInUse == old(bytesInUse - |Attrs()[i]|)
      ensures m[..bytesInUse] == old(m[..a] + m[a + |Attrs()[i]|..bytesInUse])
      ensures PointsAt(a, i)
    {
      hide *;
      Around(a, i);
      ghost var bs, area, lo, hi := Attrs(), Area(), m[attrsOffset..a], m[a + |Attrs()[i]|..bytesInUse];
      var len := LE32(m[..], a + 4);
      ShiftTail(a, len, 0);
      AreaSplit(a, 0);
      assert m[attrsOffset..a] == m[..a][attrsOffset..];
      Resplice(a, i, area, bs, lo, [], hi);
      assert m[..bytesInUse] == m[..a] + m[a..bytesInUse];
    }

    lemma AreaSplit(a: nat, n: nat)
      requires attrsOffset <= a && a + n <= bytesInUse <= m.Length
      ensures Area() == m[attrsOffset..a] + m[a..a + n] + m[a + n..bytesInUse]
    {
    }

    /** Move the bytes behind the `oldSize` bytes at `a` so that `sz` bytes are left at `a`, and store the
        new length there. */
    method ShiftTail(a: nat, oldSize: nat, sz: nat)
      requires a + oldSize <= bytesInUse <= m.Length < 0x1_0000_0000 && bytesInUse - oldSize + sz <= m.Length
      modifies this`bytesInUse, m
      ensures bytesInUse == old(bytesInUse) - oldSize + sz
      ensures m[..a] == old(m[..a]) && m[a + sz..bytesInUse] == old(m[a + oldSize..bytesInUse])
      ensures 8 <= sz && 8 <= oldSize ==>
                var n := if sz < oldSize then sz else oldSize;
                var b, c := old(m[a..a + oldSize]), m[a..a + sz];
                c[..4] == b[..4] && c[4..8] == Put32(sz) && c[8..n] == b[8..n]
    {
      hide Put32, Store;
      var muse := bytesInUse;
      ghost var s := m[..];
      Memmove(m, a + sz, a + oldSize, muse - a - oldSize);
      bytesInUse := muse - oldSize + sz;
      if sz >= 8 {
        WriteBytes(m, a + 4, Put32(sz));
      }
      ShiftedBytes(s, m[..], a, oldSize, sz, muse);
      assert old(m[a + oldSize..bytesInUse]) == s[a + oldSize..muse] && old(m[..a]) == s[..a];
      assert m[a + sz..bytesInUse] == m[..][a + sz..bytesInUse] && m[..a] == m[..][..a];
      assert m[a..a + sz] == m[..][a..a + sz] && old(m[a..a + oldSize]) == s[a..a + oldSize];
    }

    /** The byte moves of `ntfs_attr_record_make_space`, once it is known that they fit. */
    method OpenGap(a: nat, sz: nat)
      requires attrsOffset <= a <= bytesInUse && 8 <= sz && bytesInUse + sz <= m.Length < 0x1_0000_0000
      modifies this`bytesInUse, m
      ensures bytesInUse == old(bytesInUse) + sz
      ensures m[..bytesInUse] == old(m[..a]) + Blank(sz) + old(m[a..bytesInUse])
      ensures Area() == old(m[attrsOffset..a]) + Blank(sz) + old(m[a..bytesInUse])
    {
      hide LE32, Put32, Zeros, Store, Blank;
      ghost var s := m[..];
      var muse := bytesInUse;
      assert s[a..muse] == m[a..muse] && s[..a] == m[..a] && s[attrsOffset..a] == m[attrsOffset..a];
      Memmove(m, a + sz, a, muse - a);
      bytesInUse := muse + sz;
      WriteBytes(m, a, Zeros(sz));
      WriteBytes(m, a + 4, Put32(sz));
      GapArea(s, m[..], attrsOffset, a, sz, muse);
      assert m[..bytesInUse] == m[..][..bytesInUse];
      assert Area() == m[..][attrsOffset..bytesInUse];
    }

    /** `ntfs_attr_record_make_space`: a blank record of the rounded size appears in front of `a`, or the
        record is left untouched because it does not fit. */
    method MakeSpace(a: nat, size: nat, ghost i: nat) returns (err: int)
      requires Valid() && PointsAt(a, i)
      requires 0 < size <= 0x1_0000_0000 - 8
      modifies this`bytesInUse, m
      ensures Valid()
      ensures err == if old(bytesInUse) + RoundUp8(size) <= bytesAllocated then 0 else ENOSPC
      ensures err != 0 ==> m[..] == old(m[..]) && bytesInUse == old(bytesInUse)
      ensures err == 0 ==>
                && Attrs() == old(Attrs()[..i]) + [Blank(RoundUp8(size))] + old(Attrs()[i..])
                && bytesInUse == old(bytesInUse) + RoundUp8(size)
                && m[..bytesInUse] == old(m[..a]) + Blank(RoundUp8(size)) + old(m[a..bytesInUse])
                && PointsAt(a, i)
    {
      hide Parse, Flatten, LE32, Valid, Attrs, PointsAt, RoundUp8, Blank, WellSized;
      Before(a, i);
      var sz := size;
      if sz % 8 != 0 {
        sz := RoundUp8(sz);
      }
      RoundsTo(size, sz);
      if bytesInUse + sz > bytesAllocated {
        return ENOSPC;
      }
      ghost var bs, area, lo, hi := Attrs(), Area(), m[attrsOffset..a], m[a..bytesInUse];
      OpenGap(a, sz);
      BlankWellSized(sz);
      Opened(a, i, area, bs, lo, Blank(sz), hi);
      return 0;
    }

    /** The attribute area split in front of the attribute record at `a`. */
    lemma Before(a: nat, i: nat)
      requires Valid() && PointsAt(a, i)
      ensures attrsOffset % 8 == 0 && a == attrsOffset + Offset(Attrs(), i) && i <= |Attrs()|
      ensures a + 8 <= bytesInUse <= bytesAllocated == m.Length < 0x1_0000_0000
      ensures Parse(Area()) == Some(Attrs()) && Area() == m[attrsOffset..a] + m[a..bytesInUse]
    {
      hide Parse, Flatten, LE32;
    }

    /** After a record `b` has been put in front of `hi`. */
    lemma Opened(a: nat, i: nat, area: seq<byte>, bs: seq<Blob>, lo: seq<byte>, b: Blob, hi: seq<byte>)
      requires attrsOffset % 8 == 0 && bytesInUse <= bytesAllocated == m.Length < 0x1_0000_0000
      requires Parse(area) == Some(bs) && i <= |bs| && a == attrsOffset + Offset(bs, i) && |lo| == Offset(bs, i)
      requires area == lo + hi && |hi| >= 8 && WellSized(b)
      requires attrsOffset <= bytesInUse && Area() == lo + b + hi
      ensures Valid() && Attrs() == bs[..i] + [b] + bs[i..]
      ensures PointsAt(a, i)
    {
      hide Parse, Flatten, LE32;
      PutIn(area, i, b);
      assert area[..Offset(bs, i)] == lo && area[Offset(bs, i)..] == hi;
      assert (bs[..i] + [b] + bs[i..])[..i] == bs[..i];
      PointsInside(i);
    }

    /** `ntfs_attr_record_resize`. The record keeps its leading bytes, but for the length field; nothing is
        said of the bytes it gains. Resizing to zero removes it. */
    method Resize(a: nat, newSize: nat, ghost i: nat) returns (err: int)
      requires Valid() && PointsAt(a, i) && i < |Attrs()| && newSize < 0x1_0000_0000 - 8
      modifies this`bytesInUse, m
      ensures Valid()
      ensures err == if old(bytesInUse - |Attrs()[i]|) + RoundUp8(newSize) <= bytesAllocated then 0 else ENOSPC
      ensures err != 0 ==> m[..] == old(m[..]) && bytesInUse == old(bytesInUse)
      ensures err == 0 && RoundUp8(newSize) == 0 ==> Attrs() == old(Attrs()[..i] + Attrs()[i + 1..])
      ensures err == 0 && RoundUp8(newSize) != 0 ==>
                PointsAt(a, i) && ResizedAt(old(Attrs()), i, RoundUp8(newSize), Attrs())
      ensures err == 0 ==> bytesInUse == old(bytesInUse - |Attrs()[i]|) + RoundUp8(newSize)
    {
      hide Parse, Flatten, LE32;
      ReadHeader(a, i);
      var oldSize := LE32(m[..], a + 4);
      var sz := newSize;
      if sz % 8 != 0 {
        sz := RoundUp8(sz);
      }
      if sz != oldSize {
        var muse := bytesInUse;
        var newMuse := muse - oldSize + sz;
        if newMuse > bytesAllocated {
          return ENOSPC;
        }
        MoveTail(a, oldSize, sz, i);
      }
      return 0;
    }

    /** The byte moves of `ntfs_attr_record_resize` when the size changes and the result fits. */
    method MoveTail(a: nat, oldSize: nat, sz: nat, ghost i: nat)
      requires Valid() && PointsAt(a, i) && i < |Attrs()|
      requires oldSize == |Attrs()[i]| && sz % 8 == 0 && bytesInUse - oldSize + sz <= bytesAllocated
      modifies this`bytesInUse, m
      ensures Valid() && bytesInUse == old(bytesInUse) - oldSize + sz
      ensures sz == 0 ==> Attrs() == old(Attrs()[..i] + Attrs()[i + 1..])
      ensures sz != 0 ==> PointsAt(a, i) && ResizedAt(old(Attrs()), i, sz, Attrs())
    {
      hide *;
      Around(a, i);
      ghost var bs, area, lo, hi := Attrs(), Area(), m[attrsOffset..a], m[a + oldSize..bytesInUse];
      ghost var b := bs[i];
      assert b == m[a..a + oldSize];
      assert sz != 0 ==> sz >= 8;
      ShiftTail(a, oldSize, sz);
      AreaSplit(a, sz);
      ghost var c := m[a..a + sz];
      assert m[attrsOffset..a] == m[..a][attrsOffset..];
      if sz != 0 {
        HeaderKept(b, c, sz);
      }
      Resplice(a, i, area, bs, lo, c, hi);
      if sz != 0 {
        SizedAt(bs, i, c);
      }
    }

    /** `ntfs_resident_attr_value_resize`: the value is cut or extended with zeros. */
    method ValueResize(a: nat, newSize: nat, ghost i: nat) returns (err: int)
      requires Valid() && PointsAt(a, i) && i < |Attrs()|
      requires WellFormed(Attrs()[i]) && !NonResident(Attrs()[i])
      requires newSize < 0x1000_0000
      modifies this`bytesInUse, m
      ensures Valid()
      ensures var sz := RoundUp8(old(ValueOffset(Attrs()[i])) + newSize);
              && err == (if old(bytesInUse - |Attrs()[i]|) + sz <= bytesAllocated then 0 else ENOSPC)
              && (err == 0 ==> bytesInUse == old(bytesInUse - |Attrs()[i]|) + sz)
      ensures err != 0 ==> m[..] == old(m[..]) && bytesInUse == old(bytesInUse)
      ensures err == 0 ==>
                && PointsAt(a, i) && |Attrs()| == old(|Attrs()|)
                && Attrs() == old(Attrs())[i := Attrs()[i]]
                && ValueResized(old(Attrs()[i]), newSize, Attrs()[i])
    {
      hide Parse, Flatten, LE32, LE16, RoundUp8, ValueResized;
      ReadHeader(a, i);
      ghost var b := Attrs()[i];
      assert m[..][a..a + |b|] == b;
      ReadSlice(m[..], a, b, 16);
      ReadSlice(m[..], a, b, 20);
      var oldSize := LE32(m[..], a + 16);
      var valueOffset := LE16(m[..], a + 20);
      err := Resize(a, valueOffset + newSize, i);
      if err == 0 {
        SetValueLength(a, valueOffset, oldSize, newSize, i, b);
      }
    }

    /** The field updates of `ntfs_resident_attr_value_resize` after the record has been resized. */
    method SetValueLength(a: nat, valueOffset: nat, oldSize: nat, newSize: nat, ghost i: nat, ghost b: Blob)
      requires Valid() && PointsAt(a, i) && i < |Attrs()|
      requires WellFormed(b) && !NonResident(b) && oldSize == ValueLength(b) && valueOffset == ValueOffset(b)
      requires newSize < 0x1000_0000 && |Attrs()[i]| == RoundUp8(valueOffset + newSize)
      requires forall k :: 0 <= k < |Attrs()[i]| && k < |b| && !(4 <= k < 8) ==> Attrs()[i][k] == b[k]
      modifies m
      ensures Valid() && PointsAt(a, i)
      ensures |Attrs()| == old(|Attrs()|) && Attrs() == old(Attrs())[i := Attrs()[i]]
      ensures ValueResized(b, newSize, Attrs()[i])
    {
      hide *;
      ghost var c := Attrs()[i];
      Around(a, i);
      ValueInside(b, newSize, |c|);
      ghost var bs, area, lo, hi := Attrs(), Area(), m[..a], m[a + |c|..];
      ghost var d := c;
      if newSize > oldSize {
        PutField(a, valueOffset + oldSize, Zeros(newSize - oldSize), lo, c, hi);
        d := Store(c, valueOffset + oldSize, Zeros(newSize - oldSize));
      }
      PutField(a, 16, Put32(newSize), lo, d, hi);
      ghost var e := Store(d, 16, Put32(newSize));
      ValueBytes(b, c, e, newSize);
      Overwritten(a, i, area, bs, lo, e, hi);
    }

    /** Store `v` at offset `o` of the middle part of the buffer. */
    method PutField(a: nat, o: nat, v: seq<byte>, ghost lo: seq<byte>, ghost c: Blob, ghost hi: seq<byte>)
      requires m[..] == lo + c + hi && |lo| == a && o + |v| <= |c|
      modifies m
      ensures m[..] == lo + Store(c, o, v) + hi
    {
      hide Store;
      assert a + o + |v| <= |m[..]|;
      WriteBytes(m, a + o, v);
      StoreInside(lo, c, hi, o, v);
    }

    /** `ntfs_resident_attr_record_insert`, the part that works on one mft record, and
        `ntfs_resident_attr_record_insert_internal`: a complete record appears in front of `a`. */
    method InsertResident(a: nat, t: nat, name: Name, value: seq<byte>, ghost i: nat) returns (err: int)
      requires Valid() && PointsAt(a, i) && Insertable(t, name, |value|, nextAttrInstance)
      modifies this`bytesInUse, this`nextAttrInstance, m
      ensures Valid()
      ensures err == if old(bytesInUse) + ResidentLength(|name|, |value|) <= bytesAllocated then 0 else ENOSPC
      ensures err != 0 ==>
                m[..] == old(m[..]) && bytesInUse == old(bytesInUse) && nextAttrInstance == old(nextAttrInstance)
      ensures err == 0 ==>
                && Attrs() == old(Attrs()[..i] + [ResidentBlob(t, name, value, nextAttrInstance)] + Attrs()[i..])
                && nextAttrInstance == (old(nextAttrInstance) + 1) % 0x10000
                && bytesInUse == old(bytesInUse) + ResidentLength(|name|, |value|)
                && PointsAt(a, i)
    {
      hide Parse, Flatten, LE32, LE16, Store, Blank, ResidentBlob, RoundUp8, ResidentValueOffset, ResidentLength, Valid;
      ghost var before := Attrs();
      ResidentSizes(|name|, |value|);
      var valOfs := ResidentValueOffset(|name|);
      err := MakeSpace(a, valOfs + |value|, i);
      if err != 0 {
        return;
      }
      Inserted(before, i, Blank(RoundUp8(valOfs + |value|)));
      FillResident(a, t, name, value, i);
      Inserted(before, i, ResidentBlob(t, name, value, nextAttrInstance));
      nextAttrInstance := (nextAttrInstance + 1) % 0x10000;
    }

    /** Setting up the blank record at `a` field by field. */
    method FillResident(a: nat, t: nat, name: Name, value: seq<byte>, ghost i: nat)
      requires Valid() && PointsAt(a, i) && i < |Attrs()| && Insertable(t, name, |value|, nextAttrInstance)
      requires 8 <= ResidentLength(|name|, |value|) < 0x1_0000_0000
      requires Attrs()[i] == Blank(ResidentLength(|name|, |value|))
      modifies m
      ensures Valid() && PointsAt(a, i)
      ensures Attrs() == old(Attrs())[i := ResidentBlob(t, name, value, nextAttrInstance)]
    {
      hide Parse, Flatten, LE32, LE16, Store, Blank, ResidentBlob, RoundUp8, ResidentValueOffset, ResidentLength, Valid,
           Put16, Put32, NameBytes;
      ghost var c0 := Attrs()[i];
      Around(a, i);
      ghost var bs, area, lo, hi := Attrs(), Area(), m[..a], m[a + |c0|..];
      var valOfs := ResidentValueOffset(|name|);
      ResidentSizes(|name|, |value|);
      FilledIsResident(t, name, value, nextAttrInstance);
      PutField(a, 0, Put32(t), lo, c0, hi);
      ghost var c1 := Store(c0, 0, Put32(t));
      PutField(a, 9, [|name|], lo, c1, hi);
      ghost var c2 := Store(c1, 9, [|name|]);
      PutField(a, 10, Put16(24), lo, c2, hi);
      ghost var c3 := Store(c2, 10, Put16(24));
      PutField(a, 14, Put16(nextAttrInstance), lo, c3, hi);
      ghost var c4 := Store(c3, 14, Put16(nextAttrInstance));
      PutField(a, 16, Put32(|value|), lo, c4, hi);
      ghost var c5 := Store(c4, 16, Put32(|value|));
      PutField(a, 20, Put16(valOfs), lo, c5, hi);
      ghost var c6 := Store(c5, 20, Put16(valOfs));
      PutField(a, 22, if t == 0x30 then [1] else [0], lo, c6, hi);
      ghost var c7 := Store(c6, 22, if t == 0x30 then [1] else [0]);
      PutField(a, 24, NameBytes(name), lo, c7, hi);
      ghost var c8 := Store(c7, 24, NameBytes(name));
      PutField(a, valOfs, value, lo, c8, hi);
      Overwritten(a, i, area, bs, lo, ResidentBlob(t, name, value, nextAttrInstance), hi);
    }

    /** Copy a whole attribute record over the one at `a`. */
    method PutBlob(a: nat, b: Blob, ghost i: nat)
      requires Valid() && PointsAt(a, i) && i < |Attrs()| && |b| == |Attrs()[i]| && WellSized(b)
      modifies m
      ensures Valid() && PointsAt(a, i)
      ensures Attrs() == old(Attrs())[i := b]
      ensures m[..bytesInUse] == old(m[..a]) + b + old(m[a + |b|..bytesInUse])
    {
      hide *;
      Around(a, i);
      ghost var bs, area, lo, hi := Attrs(), Area(), m[..a], m[a + |b|..];
      PutField(a, 0, b, lo, bs[i], hi);
      StoreAll(bs[i], b);
      Overwritten(a, i, area, bs, lo, b, hi);
      assert m[..bytesInUse] == (lo + b + hi)[..bytesInUse];
    }

    /** `ntfs_attr_record_make_space` followed by a copy of a whole attribute record into the space. */
    method InsertBlob(a: nat, b: Blob, ghost i: nat) returns (err: int)
      requires Valid() && PointsAt(a, i) && WellSized(b)
      modifies this`bytesInUse, m
      ensures Valid()
      ensures err == if old(bytesInUse) + |b| <= bytesAllocated then 0 else ENOSPC
      ensures err != 0 ==> m[..] == old(m[..]) && bytesInUse == old(bytesInUse)
      ensures err == 0 ==>
                && Attrs() == old(Attrs()[..i]) + [b] + old(Attrs()[i..])
                && bytesInUse == old(bytesInUse) + |b|
                && m[..bytesInUse] == old(m[..a]) + b + old(m[a..bytesInUse])
    {
      hide Parse, Flatten, LE32, Blank, RoundUp8;
      ghost var bs, lo, hi := Attrs(), m[..a], m[a..bytesInUse];
      RoundedAlready(b);
      err := MakeSpace(a, |b|, i);
      if err == 0 {
        Inserted(bs, i, Blank(|b|));
        assert m[..bytesInUse] == lo + Blank(|b|) + hi;
        assert m[..a] == m[..bytesInUse][..a] && m[a + |b|..bytesInUse] == m[..bytesInUse][a + |b|..];
        PutBlob(a, b, i);
      }
    }

    lemma InUseFits()
      requires Valid()
      ensures bytesInUse <= bytesAllocated == m.Length
    {
      hide Parse;
    }

    /** Space that is made and then deleted again, as the undo paths do: every used byte is as before. */
    method SpaceAndBack(a: nat, size: nat, ghost i: nat) returns (err: int)
      requires Valid() && PointsAt(a, i)
      requires 0 < size <= 0x1_0000_0000 - 8
      modifies this`bytesInUse, m
      ensures Valid() && Attrs() == old(Attrs())
      ensures bytesInUse == old(bytesInUse) && m[..bytesInUse] == old(m[..bytesInUse])
    {
      hide Parse, Flatten, LE32, RoundUp8, Blank;
      Before(a, i);
      err := MakeSpace(a, size, i);
      if err == 0 {
        SpaceIsThere(size);
        ghost var used, n := m[..bytesInUse], RoundUp8(size);
        assert Attrs()[i] == Blank(n);
        DeleteInternal(a, i);
        assert used[..a] == old(m[..a]) && used[a + n..] == old(m[a..bytesInUse]);
      }
    }
  }

  lemma SpaceIsThere(size: nat)
    requires 0 < size <= 0x1_0000_0000 - 8
    ensures 8 <= RoundUp8(size) < 0x1_0000_0000 && |Blank(RoundUp8(size))| == RoundUp8(size)
  {
  }

  lemma StoreAll(c: seq<byte>, b: seq<byte>)
    requires |c| == |b|
    ensures Store(c, 0, b) == b
  {
  }

  /** `ntfs_attr_record_move` as far as mft records go. What may fail: `buffer` says whether there was memory for a copy
      of the attribute, `listFound` whether the attribute list attribute was looked up, `dst` is the newly allocated
      extent record, null when the allocation failed, and `remapped` says whether an extent record could be mapped once
      more to undo the deletion. On failure the used bytes of the source are as before, unless it is an extent record
      that could not be mapped again: then the attribute is gone. */
  method MoveRecord(src: Record, a: nat, srcIsBase: bool, buffer: bool, listFound: bool, dst: Record?, remapped: bool,
                    ghost i: nat)
    returns (err: int)
    requires src.Valid() && src.PointsAt(a, i) && |src.Attrs()| > 1 && i < |src.Attrs()| && |src.Attrs()[i]| >= 24
    requires dst != null ==>
               && dst != src && dst.m != src.m && dst.Valid() && dst.Attrs() == [] && dst.nextAttrInstance < 0x10000
               && src.bytesAllocated - src.attrsOffset <= dst.bytesAllocated - dst.attrsOffset
    modifies src`bytesInUse, src.m
    modifies if dst == null then {} else {dst, dst.m}
    ensures err == 0 <==> buffer && listFound && dst != null
    ensures src.Valid()
    ensures err != 0 && (!buffer || srcIsBase || remapped) ==>
              && src.bytesInUse == old(src.bytesInUse) && src.m[..src.bytesInUse] == old(src.m[..src.bytesInUse])
              && src.Attrs() == old(src.Attrs())
    ensures err == 0 || (buffer && !srcIsBase && !remapped) ==>
              && src.bytesInUse < old(src.bytesInUse) && src.Attrs() == old(src.Attrs()[..i] + src.Attrs()[i + 1..])
              && src.m[..src.bytesInUse] == old(src.m[..a] + src.m[a + |src.Attrs()[i]|..src.bytesInUse])
    ensures err == 0 ==>
              && dst.Valid() && dst.Attrs() == [WithInstance(old(src.Attrs()[i]), old(dst.nextAttrInstance))]
              && dst.nextAttrInstance == (old(dst.nextAttrInstance) + 1) % 0x10000
              && dst.attrsOffset == old(dst.attrsOffset)
  {
    hide Parse, Flatten, LE32, WellSized, Store, WithInstance, Put16, IsTerminator;
    if !buffer {
      return ENOMEM;
    }
    var copy := CutCopy(src, a, i);
    if !listFound || dst == null {
      if srcIsBase || remapped {
        PutBack(src, a, copy, i);
      }
      return EIO;
    }
    CopyInto(dst, copy);
    return 0;
  }

  /** The attribute is copied and deleted. */
  method CutCopy(src: Record, a: nat, ghost i: nat) returns (copy: Blob)
    requires src.Valid() && src.PointsAt(a, i) && i < |src.Attrs()|
    modifies src`bytesInUse, src.m
    ensures src.Valid() && src.PointsAt(a, i) && src.Attrs() == old(src.Attrs()[..i] + src.Attrs()[i + 1..])
    ensures copy == old(src.Attrs()[i]) && WellSized(copy) && 8 <= |copy|
    ensures src.bytesInUse + |copy| == old(src.bytesInUse)
    ensures a <= src.bytesInUse <= src.m.Length
    ensures src.attrsOffset + |copy| + 8 <= old(src.bytesInUse) <= src.bytesAllocated
    ensures src.m[..src.bytesInUse] == old(src.m[..a] + src.m[a + |src.Attrs()[i]|..src.bytesInUse])
    ensures old(src.m[..src.bytesInUse]) == src.m[..a] + copy + src.m[a..src.bytesInUse]
  {
    hide *;
    src.Around(a, i);
    ghost var used := src.m[..src.bytesInUse];
    var attrLen := LE32(src.m[..], a + 4);
    copy := src.m[a..a + attrLen];
    assert used == src.m[..a] + copy + src.m[a + attrLen..src.bytesInUse];
    src.DeleteInternal(a, i);
    src.Before(a, i);
    assert src.m[..a] == src.m[..src.bytesInUse][..a] == used[..a];
    assert src.m[a..src.bytesInUse] == src.m[..src.bytesInUse][a..] == used[a + attrLen..];
  }

  /** The copy is inserted again where it was. */
  method PutBack(src: Record, a: nat, copy: Blob, ghost i: nat)
    requires src.Valid() && src.PointsAt(a, i) && WellSized(copy) && src.bytesInUse + |copy| <= src.bytesAllocated
    requires a <= src.bytesInUse <= src.m.Length
    modifies src`bytesInUse, src.m
    ensures src.Valid() && src.Attrs() == old(src.Attrs()[..i]) + [copy] + old(src.Attrs()[i..])
    ensures src.bytesInUse == old(src.bytesInUse) + |copy| <= src.m.Length
    ensures src.m[..src.bytesInUse] == old(src.m[..a]) + copy + old(src.m[a..src.bytesInUse])
  {
    hide *;
    src.Before(a, i);
    var err := src.InsertBlob(a, copy, i);
    src.InUseFits();
  }

  /** The copy goes into an empty record, with the next instance number. */
  method CopyInto(dst: Record, copy: Blob)
    requires dst.Valid() && dst.Attrs() == [] && dst.nextAttrInstance < 0x10000 && WellSized(copy) && |copy| >= 24
    requires dst.attrsOffset + |copy| + 8 <= dst.bytesAllocated
    modifies dst`bytesInUse, dst`nextAttrInstance, dst.m
    ensures dst.Valid() && dst.Attrs() == [WithInstance(copy, old(dst.nextAttrInstance))]
    ensures dst.nextAttrInstance == (old(dst.nextAttrInstance) + 1) % 0x10000
  {
    hide *;
    EmptyRecord(dst);
    var inst := dst.nextAttrInstance;
    InstanceSized(copy, inst);
    var err := dst.InsertBlob(dst.attrsOffset, WithInstance(copy, inst), 0);
    dst.nextAttrInstance := (inst + 1) % 0x10000;
  }

  lemma EmptyRecord(r: Record)
    requires r.Valid() && r.Attrs() == []
    ensures r.PointsAt(r.attrsOffset, 0) && r.bytesInUse == r.attrsOffset + 8 <= r.bytesAllocated
  {
    FlattenParse(r.Area());
    assert Flatten([]) == [];
  }

  lemma InstanceSized(b: Blob, n: nat)
    requires WellSized(b) && |b| >= 24 && n < 0x10000
    ensures WellSized(WithInstance(b, n)) && |WithInstance(b, n)| == |b|
  {
    StoreSlices(b, 14, Put16(n));
  }

  lemma RoundedAlready(b: Blob)
    requires WellSized(b)
    ensures RoundUp8(|b|) == |b| && 8 <= |b| <= 0x1_0000_0000 - 8
  {
  }

  lemma RoundsTo(size: nat, sz: nat)
    requires 0 < size <= 0x1_0000_0000 - 8 && sz == if size % 8 != 0 then RoundUp8(size) else size
    ensures sz == RoundUp8(size) && sz % 8 == 0 && 8 <= sz < 0x1_0000_0000
  {
  }

  lemma ResidentSizes(nameLen: nat, valLen: nat)
    requires nameLen < 256 && valLen < 0x1000_0000
    ensures 24 <= ResidentValueOffset(nameLen) < 0x10000
    ensures 8 <= ResidentLength(nameLen, valLen) == RoundUp8(ResidentValueOffset(nameLen) + valLen) < 0x1_0000_0000 - 8
    ensures 24 + 2 * nameLen <= ResidentValueOffset(nameLen)
    ensures ResidentValueOffset(nameLen) + valLen <= ResidentLength(nameLen, valLen)
  {
  }

  lemma Inserted(bs: seq<Blob>, i: nat, b: Blob)
    requires i <= |bs|
    ensures (bs[..i] + [b] + bs[i..])[i] == b
    ensures forall c :: (bs[..i] + [b] + bs[i..])[i := c] == bs[..i] + [c] + bs[i..]
  {
  }

  /** The blank record after all the stores of the insertion. */
  ghost function Filled(t: nat, name: Name, value: seq<byte>, inst: nat): (r: Blob)
    requires Insertable(t, name, |value|, inst)
  {
    ResidentSizes(|name|, |value|);
    var vo := ResidentValueOffset(|name|);
    var c1 := Store(Blank(ResidentLength(|name|, |value|)), 0, Put32(t));
    var c4 := Store(Store(Store(c1, 9, [|name|]), 10, Put16(24)), 14, Put16(inst));
    var c6 := Store(Store(c4, 16, Put32(|value|)), 20, Put16(vo));
    var c7 := Store(c6, 22, if t == 0x30 then [1] else [0]);
    Store(Store(c7, 24, NameBytes(name)), vo, value)
  }

  lemma FilledIsResident(t: nat, name: Name, value: seq<byte>, inst: nat)
    requires Insertable(t, name, |value|, inst)
    ensures Filled(t, name, value, inst) == ResidentBlob(t, name, value, inst)
    ensures WellSized(ResidentBlob(t, name, value, inst))
  {
    hide *;
    var f, b := Filled(t, name, value, inst), ResidentBlob(t, name, value, inst);
    ResidentBlobFields(t, name, value, inst);
    SizedIfFormed(b);
    FilledHead(t, name, value, inst);
    FilledTail(t, name, value, inst);
    assert f == f[..24] + f[24..] && b == b[..24] + b[24..];
  }

  lemma FilledHead(t: nat, name: Name, value: seq<byte>, inst: nat)
    requires Insertable(t, name, |value|, inst)
    ensures var f, b := Filled(t, name, value, inst), ResidentBlob(t, name, value, inst);
            |f| >= 24 && |b| >= 24 && f[..24] == b[..24]
  {
    hide LE16, LE32, Put16, Put32, NameBytes, Zeros, Store, RoundUp8, ResidentLength, ResidentValueOffset;
    ResidentSizes(|name|, |value|);
  }

  lemma FilledTail(t: nat, name: Name, value: seq<byte>, inst: nat)
    requires Insertable(t, name, |value|, inst)
    ensures var f, b := Filled(t, name, value, inst), ResidentBlob(t, name, value, inst);
            |f| >= 24 && |b| >= 24 && f[24..] == b[24..]
  {
    hide LE16, LE32, Put16, Put32, NameBytes, Zeros, Store, RoundUp8, ResidentLength, ResidentValueOffset,
         ResidentHeader;
    ResidentSizes(|name|, |value|);
  }

  lemma SizedIfFormed(b: Blob)
    requires WellFormed(b)
    ensures WellSized(b)
  {
  }

  /** `cs` is `bs` with the record at `i` given the size `n`; it keeps its leading bytes but for the length. */
  ghost predicate ResizedAt(bs: seq<Blob>, i: nat, n: nat, cs: seq<Blob>)
    requires i < |bs|
  {
    && |cs| == |bs| && cs == bs[i := cs[i]]
    && |cs[i]| == n
    && forall k :: 0 <= k < n && k < |bs[i]| && !(4 <= k < 8) ==> cs[i][k] == bs[i][k]
  }

  lemma SizedAt(bs: seq<Blob>, i: nat, c: Blob)
    requires i < |bs|
    requires 8 <= |c| && 8 <= |bs[i]|
    requires c[..4] == bs[i][..4]
    requires var n := if |c| < |bs[i]| then |c| else |bs[i]|;
             c[8..n] == bs[i][8..n]
    ensures ResizedAt(bs, i, |c|, bs[i := c])
  {
    var n := if |c| < |bs[i]| then |c| else |bs[i]|;
    forall k | 0 <= k < n && !(4 <= k < 8)
      ensures c[k] == bs[i][k]
    {
      if k < 4 {
        assert c[..4][k] == bs[i][..4][k];
      } else {
        assert c[8..n][k - 8] == bs[i][8..n][k - 8];
      }
    }
  }

  /** `r` is the resident record `b` with its value cut or extended with zeros to `n` bytes. */
  ghost predicate ValueResized(b: Blob, n: nat, r: Blob)
    requires WellFormed(b) && !NonResident(b)
  {
    && WellFormed(r) && !NonResident(r)
    && |r| == RoundUp8(ValueOffset(b) + n)
    && ValueOffset(r) == ValueOffset(b) && ValueLength(r) == n
    && (forall k :: 0 <= k < ValueOffset(b) && !(4 <= k < 8) && !(16 <= k < 20) ==> r[k] == b[k])
    && Value(r) == if n <= ValueLength(b) then Value(b)[..n] else Value(b) + Zeros(n - ValueLength(b))
  }

  /** The stores that follow the resize of the record: `c` is the resized record, `e` the final one. */
  lemma ValueBytes(b: Blob, c: Blob, e: Blob, n: nat)
    requires WellFormed(b) && !NonResident(b) && WellSized(c) && n < 0x1_0000_0000
    requires |e| == |c| == RoundUp8(ValueOffset(b) + n)
    requires forall k :: 0 <= k < |c| && k < |b| && !(4 <= k < 8) ==> c[k] == b[k]
    requires forall k :: 0 <= k < |c| ==>
               e[k] == if 16 <= k < 20 then Put32(n)[k - 16]
                       else if ValueOffset(b) + ValueLength(b) <= k < ValueOffset(b) + n then 0 else c[k]
    ensures ValueResized(b, n, e) && WellSized(e)
  {
    hide RoundUp8, Zeros, Put32;
    var vo := ValueOffset(b);
    assert vo >= RESIDENT_SIZE;
    assert e[16..20] == Put32(n);
    assert e[..16] == c[..16] && e[20..24] == c[20..24] == b[20..24];
    ReadSlice(e, 16, Put32(n), 0);
    ResizedHeader(b, c, e);
    assert Value(e) == if n <= ValueLength(b) then Value(b)[..n] else Value(b) + Zeros(n - ValueLength(b));
  }

  lemma ValueInside(b: Blob, n: nat, len: nat)
    requires WellFormed(b) && !NonResident(b) && len == RoundUp8(ValueOffset(b) + n)
    ensures 24 <= ValueOffset(b) && ValueOffset(b) + n <= len
  {
  }

  lemma ResizedHeader(b: Blob, c: Blob, e: Blob)
    requires WellFormed(b) && WellSized(c) && |e| == |c| >= 24
    requires forall k :: 0 <= k < 24 && !(4 <= k < 8) ==> c[k] == b[k]
    requires forall k :: 0 <= k < 24 && !(16 <= k < 20) ==> e[k] == c[k]
    ensures WellSized(e) && AType(e) == AType(b) && NonResident(e) == NonResident(b)
    ensures NameLength(e) == NameLength(b) && NameOffset(e) == NameOffset(b) && ValueOffset(e) == ValueOffset(b)
  {
  }

  lemma HeaderKept(b: Blob, c: Blob, n: nat)
    requires WellSized(b) && |c| == n && 8 <= n < 0x1_0000_0000 && n % 8 == 0
    requires c[..4] == b[..4] && c[4..8] == Put32(n)
    ensures WellSized(c)
  {
  }
}
