/** The attribute record of the attribute list itself. */
module ListAttr {
  import opened Bytes
  import opened AttrArea
  import opened Attr
  import opened MftRecord

  function AllocatedSize(b: Blob): (r: nat)
    requires |b| >= NON_RESIDENT_SIZE
  {
    LE64(b, 40)
  }

  function DataSize(b: Blob): (r: nat)
    requires |b| >= NON_RESIDENT_SIZE
  {
    LE64(b, 48)
  }

  /** Where the mapping pairs array starts. */
  function PairsOffset(b: Blob): (r: nat)
    requires |b| >= NON_RESIDENT_SIZE
  {
    LE16(b, 32)
  }

  /** A resident attribute list: unnamed, the value right behind the header and nothing after it. */
  ghost predicate ResidentList(b: Blob) {
    && WellFormed(b) && AType(b) == AT_ATTRIBUTE_LIST && !NonResident(b) && NameLength(b) == 0
    && ValueOffset(b) == RESIDENT_SIZE && ValueLength(b) % 8 == 0 && |b| == RESIDENT_SIZE + ValueLength(b)
  }

  /** A non-resident one: unnamed, its data within the clusters allocated. */
  ghost predicate NonResidentList(b: Blob) {
    && WellFormed(b) && AType(b) == AT_ATTRIBUTE_LIST && NonResident(b) && NameLength(b) == 0
    && NON_RESIDENT_SIZE <= PairsOffset(b) <= |b| && PairsOffset(b) % 8 == 0 && NameOffset(b) <= PairsOffset(b)
    && DataSize(b) <= AllocatedSize(b)
  }

  /** A resident list record with another value, as left by resizing the value and copying the new one in. */
  function ListWithValue(b: Blob, v: seq<byte>): (r: Blob)
    requires |b| >= 24 && |v| < 0x1000_0000
    ensures |r| == RESIDENT_SIZE + |v|
  {
    b[..4] + Put32(RESIDENT_SIZE + |v|) + b[8..16] + Put32(|v|) + b[20..24] + v
  }

  lemma ListWithValueFields(b: Blob, v: seq<byte>)
    requires ResidentList(b) && |v| < 0x1000_0000 && |v| % 8 == 0
    ensures var r := ListWithValue(b, v);
            ResidentList(r) && Value(r) == v && ValueLength(r) == |v| && Instance(r) == Instance(b)
  {
    hide LE16, LE32, Put32;
    var r := ListWithValue(b, v);
    assert r[0..4] == b[0..4];
    assert r[4..8] == Put32(RESIDENT_SIZE + |v|);
    assert r[8..16] == b[8..16];
    assert r[16..20] == Put32(|v|);
    assert r[20..24] == b[20..24];
    ReadSlice(r, 4, Put32(RESIDENT_SIZE + |v|), 0);
    ReadSlice(r, 16, Put32(|v|), 0);
    ReadSlice(r, 0, b[0..4], 0);
    ReadSlice(b, 0, b[0..4], 0);
    ReadSlice(r, 8, b[8..16], 2);
    ReadSlice(b, 8, b[8..16], 2);
    ReadSlice(r, 8, b[8..16], 6);
    ReadSlice(b, 8, b[8..16], 6);
    ReadSlice(r, 20, b[20..24], 0);
    ReadSlice(b, 20, b[20..24], 0);
    assert r[8] == b[8..16][0] == b[8] && r[9] == b[8..16][1] == b[9];
    assert r[24..24 + |v|] == v;
  }

  /** The record buffer is left in just this state: resize the value, then store the new value over it. */
  lemma ListWriteRefines(b: Blob, v: seq<byte>, r: Blob)
    requires ResidentList(b) && |v| < 0x1000_0000 && |v| % 8 == 0
    requires ValueResized(b, |v|, r)
    ensures |r| == RESIDENT_SIZE + |v| && Store(r, RESIDENT_SIZE, v) == ListWithValue(b, v)
  {
    hide LE16, Put32, Store, Zeros, Value, ListWithValue;
    NumberBytes(r, 4, |r|);
    NumberBytes(r, 16, |v|);
    assert r[..4] == b[..4] && r[8..16] == b[8..16] && r[20..24] == b[20..24];
    StoreBehind(r, v);
    HeaderAndValue(b, v, r);
  }

  lemma HeaderAndValue(b: Blob, v: seq<byte>, r: Blob)
    requires |b| >= 24 && |v| < 0x1000_0000 && |r| == RESIDENT_SIZE + |v|
    requires r[..4] == b[..4] && r[8..16] == b[8..16] && r[20..24] == b[20..24]
    requires r[4..8] == Put32(RESIDENT_SIZE + |v|) && r[16..20] == Put32(|v|)
    ensures r[..RESIDENT_SIZE] + v == ListWithValue(b, v)
  {
    hide Put32;
    HeaderParts(r);
  }

  lemma StoreBehind(r: seq<byte>, v: seq<byte>)
    requires |r| == RESIDENT_SIZE + |v|
    ensures Store(r, RESIDENT_SIZE, v) == r[..RESIDENT_SIZE] + v
  {
    assert r[RESIDENT_SIZE + |v|..] == [];
  }

  lemma HeaderParts(r: seq<byte>)
    requires |r| >= RESIDENT_SIZE
    ensures r[..RESIDENT_SIZE] == r[..4] + r[4..8] + r[8..16] + r[16..20] + r[20..24]
  {
  }

  /** Four bytes are determined by the number they spell. */
  lemma NumberBytes(s: seq<byte>, o: nat, n: nat)
    requires o + 4 <= |s| && LE32(s, o) == n < 0x1_0000_0000
    ensures s[o..o + 4] == Put32(n)
  {
    assert n % 0x10000 == LE16(s, o) && n / 0x10000 == LE16(s, o + 2);
  }

  /** A non-resident list record with mapping pairs `mp`. */
  function NewNonResidentList(inst: nat, mp: seq<byte>, highest: nat, alloc: nat, data: nat): (r: Blob)
    requires inst < 0x10000 && |mp| < 0x1000_0000
    requires highest < 0x1_0000_0000_0000_0000 && alloc < 0x1_0000_0000_0000_0000 && data < 0x1_0000_0000_0000_0000
    ensures |r| == RoundUp8(NON_RESIDENT_SIZE + |mp|)
  {
    var len := RoundUp8(NON_RESIDENT_SIZE + |mp|);
    (Put32(AT_ATTRIBUTE_LIST) + Put32(len) + [1, 0] + Put16(NON_RESIDENT_SIZE) + [0, 0] + Put16(inst))
    + (Put64(0) + Put64(highest) + Put16(NON_RESIDENT_SIZE) + [0, 0, 0, 0, 0, 0])
    + (Put64(alloc) + Put64(data) + Put64(data))
    + (mp + Zeros(len - NON_RESIDENT_SIZE - |mp|))
  }

  lemma NewNonResidentFields(inst: nat, mp: seq<byte>, highest: nat, alloc: nat, data: nat)
    requires inst < 0x10000 && |mp| < 0x1000_0000 && data <= alloc
    requires highest < 0x1_0000_0000_0000_0000 && alloc < 0x1_0000_0000_0000_0000
    ensures var r := NewNonResidentList(inst, mp, highest, alloc, data);
            NonResidentList(r) && Instance(r) == inst && DataSize(r) == data && AllocatedSize(r) == alloc
  {
    hide LE16, LE32, LE64, Put16, Put32, Put64, Zeros;
    var r := NewNonResidentList(inst, mp, highest, alloc, data);
    var len := RoundUp8(NON_RESIDENT_SIZE + |mp|);
    assert r[0..4] == Put32(AT_ATTRIBUTE_LIST);
    assert r[4..8] == Put32(len);
    assert r[8] == 1 && r[9] == 0;
    assert r[10..12] == Put16(NON_RESIDENT_SIZE);
    assert r[14..16] == Put16(inst);
    assert r[32..34] == Put16(NON_RESIDENT_SIZE);
    assert r[40..48] == Put64(alloc);
    assert r[48..56] == Put64(data);
    ReadSlice(r, 0, Put32(AT_ATTRIBUTE_LIST), 0);
    ReadSlice(r, 4, Put32(len), 0);
    ReadSlice(r, 10, Put16(NON_RESIDENT_SIZE), 0);
    ReadSlice(r, 14, Put16(inst), 0);
    ReadSlice(r, 32, Put16(NON_RESIDENT_SIZE), 0);
    Read64(r, 40, Put64(alloc));
    Read64(r, 48, Put64(data));
  }

  /** A non-resident list record with other mapping pairs, padded to a multiple of eight, and other sizes. */
  function GrownList(b: Blob, mp: seq<byte>, highest: nat, alloc: nat, data: nat): (r: Blob)
    requires |b| >= NON_RESIDENT_SIZE && NON_RESIDENT_SIZE <= PairsOffset(b) <= |b|
    requires |mp| < 0x1000_0000
    requires highest < 0x1_0000_0000_0000_0000 && alloc < 0x1_0000_0000_0000_0000 && data < 0x1_0000_0000_0000_0000
    ensures |r| == PairsOffset(b) + |mp|
  {
    (b[..4] + Put32(PairsOffset(b) + |mp|) + b[8..24])
    + (Put64(highest) + b[32..40])
    + (Put64(alloc) + Put64(data) + Put64(data))
    + (b[NON_RESIDENT_SIZE..PairsOffset(b)] + mp)
  }

  lemma GrownListFields(b: Blob, mp: seq<byte>, highest: nat, alloc: nat, data: nat)
    requires NonResidentList(b) && |mp| < 0x1000_0000 && |mp| % 8 == 0 && data <= alloc
    requires highest < 0x1_0000_0000_0000_0000 && alloc < 0x1_0000_0000_0000_0000
    ensures var r := GrownList(b, mp, highest, alloc, data);
            NonResidentList(r) && Instance(r) == Instance(b) && DataSize(r) == data && AllocatedSize(r) == alloc
  {
    hide LE16, LE32, LE64, Put32, Put64;
    var r := GrownList(b, mp, highest, alloc, data);
    var len := PairsOffset(b) + |mp|;
    assert r[0..4] == b[0..4];
    assert r[4..8] == Put32(len);
    assert r[8..24] == b[8..24];
    assert r[32..40] == b[32..40];
    assert r[40..48] == Put64(alloc);
    assert r[48..56] == Put64(data);
    ReadSame(r, b, 0, 0, 4);
    ReadSlice(r, 4, Put32(len), 0);
    assert r[8] == r[8..24][0] == b[8] && r[9] == r[8..24][1] == b[9];
    Read16Same(r, b, 8, 2, 16);
    Read16Same(r, b, 8, 6, 16);
    Read16Same(r, b, 32, 0, 8);
    Read64(r, 40, Put64(alloc));
    Read64(r, 48, Put64(data));
  }

  lemma ReadSame(r: seq<byte>, b: seq<byte>, a: nat, d: nat, n: nat)
    requires a + n <= |r| && a + n <= |b| && r[a..a + n] == b[a..a + n] && d + 4 <= n
    ensures LE32(r, a + d) == LE32(b, a + d)
  {
    ReadSlice(r, a, r[a..a + n], d);
    ReadSlice(b, a, r[a..a + n], d);
  }

  lemma Read16Same(r: seq<byte>, b: seq<byte>, a: nat, d: nat, n: nat)
    requires a + n <= |r| && a + n <= |b| && r[a..a + n] == b[a..a + n] && d + 2 <= n
    ensures LE16(r, a + d) == LE16(b, a + d)
  {
    ReadSlice(r, a, r[a..a + n], d);
    ReadSlice(b, a, r[a..a + n], d);
  }

  /** A non-resident list record with another data size and, with it, initialized size. */
  function WithDataSize(b: Blob, n: nat): (r: Blob)
    requires |b| >= NON_RESIDENT_SIZE && n < 0x1_0000_0000_0000_0000
    ensures |r| == |b|
  {
    Store(Store(b, 48, Put64(n)), 56, Put64(n))
  }

  lemma WithDataSizeFields(b: Blob, n: nat)
    requires NonResidentList(b) && n <= AllocatedSize(b)
    ensures var r := WithDataSize(b, n);
            NonResidentList(r) && Instance(r) == Instance(b) && DataSize(r) == n && AllocatedSize(r) == AllocatedSize(b)
  {
    hide LE16, LE32, LE64, Put64, Store;
    var r := WithDataSize(b, n);
    assert r[0..16] == b[0..16];
    assert r[32..34] == b[32..34];
    assert r[40..48] == b[40..48];
    assert r[48..56] == Put64(n);
    Read64(r, 48, Put64(n));
    Read64(r, 40, b[40..48]);
    Read64(b, 40, b[40..48]);
    ReadSame(r, b, 0, 0, 16);
    ReadSame(r, b, 0, 4, 16);
    Read16Same(r, b, 0, 10, 16);
    Read16Same(r, b, 0, 14, 16);
    Read16Same(r, b, 32, 0, 2);
    assert r[8] == b[0..16][8] == b[8] && r[9] == b[0..16][9] == b[9];
  }
}
