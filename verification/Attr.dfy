/** The fields of one attribute record (ATTR_RECORD in kext/ntfs_layout.h). */
module Attr {
  import opened Bytes
  import opened Collate
  import opened AttrArea

  const AT_UNUSED := 0
  const AT_STANDARD_INFORMATION := 0x10
  const AT_ATTRIBUTE_LIST := 0x20
  const AT_FILENAME := 0x30
  const AT_DATA := 0x80
  const AT_INDEX_ROOT := 0x90

  /** Size of the fixed part of a resident attribute record, and the offset of its name if it has one. */
  const RESIDENT_SIZE := 24
  /** Size of the fixed part of a non-resident attribute record that has no compressed size. */
  const NON_RESIDENT_SIZE := 64

  function AType(b: Blob): (r: nat)
    requires |b| >= 24
  {
    LE32(b, 0)
  }

  predicate NonResident(b: Blob)
    requires |b| >= 24
  {
    b[8] != 0
  }

  function NameLength(b: Blob): (r: nat)
    requires |b| >= 24
  {
    b[9]
  }

  function NameOffset(b: Blob): (r: nat)
    requires |b| >= 24
  {
    LE16(b, 10)
  }

  function Instance(b: Blob): (r: nat)
    requires |b| >= 24
  {
    LE16(b, 14)
  }

  function ValueLength(b: Blob): (r: nat)
    requires |b| >= 24
  {
    LE32(b, 16)
  }

  function ValueOffset(b: Blob): (r: nat)
    requires |b| >= 24
  {
    LE16(b, 20)
  }

  /** The lowest vcn of a non-resident extent; a resident attribute counts as starting at zero. */
  function LowestVcn(b: Blob): (r: nat)
    requires |b| >= 24
  {
    if NonResident(b) then LE64(b, 16) else 0
  }

  /** What a record must look like for its name, its value and its successor to be found. The name of a
      resident record is placed in front of its value. */
  ghost predicate WellFormed(b: Blob)
    ensures WellFormed(b) ==> |b| >= 24
  {
    && WellSized(b)
    && |b| >= RESIDENT_SIZE
    && AType(b) != AT_UNUSED
    && (NameLength(b) > 0 ==> NameOffset(b) >= RESIDENT_SIZE)
    && NameOffset(b) + 2 * NameLength(b) <= |b|
    && (NonResident(b) ==> |b| >= NON_RESIDENT_SIZE)
    && (!NonResident(b) ==>
          && RESIDENT_SIZE <= ValueOffset(b) && ValueOffset(b) + ValueLength(b) <= |b|
          && NameOffset(b) + 2 * NameLength(b) <= ValueOffset(b))
  }

  function AName(b: Blob): (r: Name)
    requires |b| >= 24 && NameOffset(b) + 2 * NameLength(b) <= |b|
    ensures |r| == NameLength(b)
  {
    var o := NameOffset(b);
    seq(NameLength(b), i requires 0 <= i < NameLength(b) => LE16(b, o + 2 * i))
  }

  function Value(b: Blob): (r: seq<byte>)
    requires |b| >= 24 && ValueOffset(b) + ValueLength(b) <= |b|
  {
    b[ValueOffset(b)..ValueOffset(b) + ValueLength(b)]
  }

  /** `b` with another instance number. */
  function WithInstance(b: Blob, n: nat): (r: Blob)
    requires |b| >= 24 && n < 0x10000
    ensures |r| == |b|
  {
    Store(b, 14, Put16(n))
  }

  /** Only the instance number changes. */
  lemma WithInstanceKeeps(b: Blob, n: nat)
    requires WellFormed(b) && n < 0x10000
    ensures var r := WithInstance(b, n);
            && WellFormed(r) && Instance(r) == n
            && AType(r) == AType(b) && AName(r) == AName(b) && NonResident(r) == NonResident(b)
            && LowestVcn(r) == LowestVcn(b) && (!NonResident(b) ==> Value(r) == Value(b))
            && forall k :: 0 <= k < |b| && k != 14 && k != 15 ==> r[k] == b[k]
  {
    hide LE16, LE32, LE64, Put16, Store, AName;
    var r := WithInstance(b, n);
    StoreSlices(b, 14, Put16(n));
    ReadSlice(r, 14, Put16(n), 0);
    SameBeside(b, r);
  }

  lemma SameBeside(b: Blob, r: Blob)
    requires WellFormed(b) && |r| == |b|
    requires forall k :: 0 <= k < |b| && k != 14 && k != 15 ==> r[k] == b[k]
    ensures WellFormed(r) && AType(r) == AType(b) && NonResident(r) == NonResident(b) && LowestVcn(r) == LowestVcn(b)
    ensures ValueOffset(r) == ValueOffset(b) && ValueLength(r) == ValueLength(b)
    ensures AName(r) == AName(b)
    ensures !NonResident(b) ==> Value(r) == Value(b)
  {
  }

  /** The characters of a name as stored, two bytes each. */
  function NameBytes(n: Name): (r: seq<byte>)
    ensures |r| == 2 * |n|
    ensures forall i :: 0 <= i < |n| ==> LE16(r, 2 * i) == n[i]
  {
    seq(2 * |n|, i requires 0 <= i < 2 * |n| => if i % 2 == 0 then n[i / 2] % 256 else n[i / 2] / 256)
  }

  /** Where the value of a resident record starts when its name has `n` characters. */
  function ResidentValueOffset(n: nat): (r: nat) {
    RESIDENT_SIZE + RoundUp8(2 * n)
  }

  /** The size of a resident record, a multiple of eight. */
  function ResidentLength(nameLen: nat, valLen: nat): (r: nat) {
    RoundUp8(ResidentValueOffset(nameLen) + valLen)
  }

  /** A new resident record may have this type, name and value. */
  predicate Insertable(t: nat, name: Name, valLen: nat, inst: nat) {
    0 < t < AT_END && |name| < 256 && inst < 0x10000 && valLen < 0x1000_0000
  }

  /** The first sixteen bytes and the resident header of a new attribute record. */
  function ResidentHeader(t: nat, nameLen: nat, valLen: nat, inst: nat): (r: seq<byte>)
    requires 0 < t < AT_END && nameLen < 256 && inst < 0x10000 && valLen < 0x1000_0000
    ensures |r| == RESIDENT_SIZE
  {
    Put32(t) + Put32(ResidentLength(nameLen, valLen)) + [0, nameLen] + Put16(RESIDENT_SIZE) + [0, 0] + Put16(inst)
    + Put32(valLen) + Put16(ResidentValueOffset(nameLen)) + [if t == AT_FILENAME then 1 else 0, 0]
  }

  /** The bytes of a new resident attribute record. */
  function ResidentBlob(t: nat, name: Name, value: seq<byte>, inst: nat): (r: Blob)
    requires Insertable(t, name, |value|, inst)
    ensures |r| == ResidentLength(|name|, |value|)
  {
    var vo, len := ResidentValueOffset(|name|), ResidentLength(|name|, |value|);
    ResidentHeader(t, |name|, |value|, inst)
    + (NameBytes(name) + Zeros(vo - RESIDENT_SIZE - 2 * |name|))
    + (value + Zeros(len - vo - |value|))
  }

  lemma ResidentHeaderFields(t: nat, nameLen: nat, valLen: nat, inst: nat)
    requires 0 < t < AT_END && nameLen < 256 && inst < 0x10000 && valLen < 0x1000_0000
    ensures var h := ResidentHeader(t, nameLen, valLen, inst);
            && LE32(h, 0) == t && LE32(h, 4) == ResidentLength(nameLen, valLen) && h[8] == 0 && h[9] == nameLen
            && LE16(h, 10) == RESIDENT_SIZE && LE16(h, 14) == inst
            && LE32(h, 16) == valLen && LE16(h, 20) == ResidentValueOffset(nameLen)
  {
    hide RoundUp8, ResidentLength, ResidentValueOffset;
    var h := ResidentHeader(t, nameLen, valLen, inst);
    assert h[0..4] == Put32(t);
    assert h[4..8] == Put32(ResidentLength(nameLen, valLen));
    assert h[10..12] == Put16(RESIDENT_SIZE);
    assert h[14..16] == Put16(inst);
    assert h[16..20] == Put32(valLen);
    assert h[20..22] == Put16(ResidentValueOffset(nameLen));
  }

  /** The record inserted carries exactly the type, name, value and instance asked for. */
  lemma ResidentBlobFields(t: nat, name: Name, value: seq<byte>, inst: nat)
    requires Insertable(t, name, |value|, inst)
    ensures var b := ResidentBlob(t, name, value, inst);
            && WellFormed(b) && !NonResident(b) && AType(b) == t && AName(b) == name
            && Value(b) == value && Instance(b) == inst && LowestVcn(b) == 0
  {
    hide LE16, LE32, NameBytes, ResidentHeader, RoundUp8, Zeros, ResidentBlob;
    var b := ResidentBlob(t, name, value, inst);
    var vo := ResidentValueOffset(|name|);
    ResidentParts(t, name, value, inst);
    ResidentHeaderFields(t, |name|, |value|, inst);
    var h := ResidentHeader(t, |name|, |value|, inst);
    ReadSlice(b, 0, h, 0);
    ReadSlice(b, 0, h, 4);
    ReadSlice(b, 0, h, 10);
    ReadSlice(b, 0, h, 14);
    ReadSlice(b, 0, h, 16);
    ReadSlice(b, 0, h, 20);
    assert b[8] == h[8] && b[9] == h[9];
    forall i | 0 <= i < |name|
      ensures LE16(b, RESIDENT_SIZE + 2 * i) == name[i]
    {
      ReadSlice(b, RESIDENT_SIZE, NameBytes(name), 2 * i);
    }
    assert AName(b) == name;
  }

  lemma ResidentParts(t: nat, name: Name, value: seq<byte>, inst: nat)
    requires Insertable(t, name, |value|, inst)
    ensures var b := ResidentBlob(t, name, value, inst);
            var vo := ResidentValueOffset(|name|);
            && RESIDENT_SIZE + 2 * |name| <= vo && vo + |value| <= |b|
            && b[0..RESIDENT_SIZE] == ResidentHeader(t, |name|, |value|, inst)
            && b[RESIDENT_SIZE..RESIDENT_SIZE + 2 * |name|] == NameBytes(name)
            && b[vo..vo + |value|] == value
  {
    hide NameBytes, ResidentHeader, RoundUp8, Zeros;
  }
}
