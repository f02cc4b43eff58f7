/** The attribute list value: its entries as bytes (ATTR_LIST_ENTRY in kext/ntfs_layout.h). */
module ListBytes {
  import opened Bytes
  import opened AttrArea
  import opened Attr
  import opened InodeState

  /** Offset of the name in an entry. */
  const ENTRY_NAME := 26

  /** The fields have the widths of the entry. */
  ghost predicate Fits(e: Entry) {
    && e.atype < 0x1_0000_0000 && |e.name| < 256 && e.instance < 0x10000
    && e.vcn < 0x1_0000_0000_0000_0000 && e.mref < 0x1_0000_0000_0000_0000
  }

  ghost predicate AllFit(list: seq<Entry>) {
    forall k :: 0 <= k < |list| ==> Fits(list[k])
  }

  /** Size of an entry, a multiple of eight. */
  function EntryLength(e: Entry): (r: nat)
    ensures r % 8 == 0 && r >= ENTRY_NAME
  {
    RoundUp8(ENTRY_NAME + 2 * |e.name|)
  }

  /** The first sixteen bytes and the name stay when an attribute moves; the reference and the instance between
      them change. */
  function EntryHead(e: Entry): (r: seq<byte>)
    requires Fits(e)
    ensures |r| == 16
  {
    Put32(e.atype) + Put16(EntryLength(e)) + [|e.name|, ENTRY_NAME] + Put64(e.vcn)
  }

  function EntryTail(e: Entry): (r: seq<byte>)
    requires Fits(e)
    ensures |r| == EntryLength(e) - ENTRY_NAME
  {
    NameBytes(e.name) + Zeros(EntryLength(e) - ENTRY_NAME - 2 * |e.name|)
  }

  function EncodeEntry(e: Entry): (r: seq<byte>)
    requires Fits(e)
    ensures |r| == EntryLength(e)
  {
    EntryHead(e) + Put64(e.mref) + Put16(e.instance) + EntryTail(e)
  }

  /** The whole list value. */
  function Encode(list: seq<Entry>): (r: seq<byte>)
    requires AllFit(list)
  {
    if list == [] then [] else EncodeEntry(list[0]) + Encode(list[1..])
  }

  /** Size of the list value. */
  function ListSize(list: seq<Entry>): (r: nat)
    ensures r % 8 == 0
  {
    if list == [] then 0 else EntryLength(list[0]) + ListSize(list[1..])
  }

  lemma {:induction false} EncodeSize(list: seq<Entry>)
    requires AllFit(list)
    ensures |Encode(list)| == ListSize(list)
  {
    hide EncodeEntry, EntryLength, Fits;
    if list != [] {
      EncodeSize(list[1..]);
    }
  }

  lemma {:induction false} EncodeAppend(x: seq<Entry>, y: seq<Entry>)
    requires AllFit(x) && AllFit(y)
    ensures AllFit(x + y) && Encode(x + y) == Encode(x) + Encode(y)
  {
    hide EncodeEntry, Fits;
    if x == [] {
      assert x + y == y;
    } else {
      assert (x + y)[1..] == x[1..] + y;
      EncodeAppend(x[1..], y);
    }
  }

  lemma {:induction false} SizeAppend(x: seq<Entry>, y: seq<Entry>)
    ensures ListSize(x + y) == ListSize(x) + ListSize(y)
  {
    hide EntryLength;
    if x == [] {
      assert x + y == y;
    } else {
      assert (x + y)[1..] == x[1..] + y;
      SizeAppend(x[1..], y);
    }
  }

  /** The bytes of entry `k` within the value. */
  lemma EncodeSplit(list: seq<Entry>, k: nat)
    requires AllFit(list) && k < |list|
    ensures Encode(list) == Encode(list[..k]) + EncodeEntry(list[k]) + Encode(list[k + 1..])
    ensures |Encode(list[..k])| == ListSize(list[..k])
  {
    hide EncodeEntry, Fits, Encode;
    assert list == list[..k] + [list[k]] + list[k + 1..];
    EncodeAppend(list[..k], [list[k]]);
    EncodeAppend(list[..k] + [list[k]], list[k + 1..]);
    EncodeOne(list[k]);
    EncodeSize(list[..k]);
  }

  lemma EncodeOne(e: Entry)
    requires Fits(e)
    ensures Encode([e]) == EncodeEntry(e)
  {
    hide EncodeEntry, Fits;
    assert [e][1..] == [];
  }

  /** Lists that agree up to entry `k` have values that agree up to its offset. */
  lemma EncodePrefix(x: seq<Entry>, y: seq<Entry>, k: nat)
    requires AllFit(x) && AllFit(y) && k <= |x| && k <= |y| && x[..k] == y[..k]
    ensures ListSize(x[..k]) <= |Encode(x)| && ListSize(x[..k]) <= |Encode(y)|
    ensures Encode(x)[..ListSize(x[..k])] == Encode(y)[..ListSize(x[..k])]
  {
    hide EncodeEntry, Fits, Encode;
    assert x == x[..k] + x[k..] && y == y[..k] + y[k..];
    EncodeAppend(x[..k], x[k..]);
    EncodeAppend(y[..k], y[k..]);
    EncodeSize(x[..k]);
  }

  /** Two entries that differ only in where they lead have the same size. */
  lemma {:induction false} SizeUpdate(list: seq<Entry>, k: nat, e: Entry)
    requires k < |list| && e.name == list[k].name
    ensures ListSize(list[k := e]) == ListSize(list)
  {
    hide ListSize;
    assert list == list[..k] + [list[k]] + list[k + 1..];
    assert list[k := e] == list[..k] + [e] + list[k + 1..];
    SizeAppend(list[..k] + [list[k]], list[k + 1..]);
    SizeAppend(list[..k], [list[k]]);
    SizeAppend(list[..k] + [e], list[k + 1..]);
    SizeAppend(list[..k], [e]);
    SizeOne(list[k]);
    SizeOne(e);
  }

  lemma SizeOne(e: Entry)
    ensures ListSize([e]) == EntryLength(e)
  {
    assert [e][1..] == [];
  }

  // ----- Reading entries back

  /** The entry at the start of `s`, as its fields are read. */
  ghost function DecodeEntry(s: seq<byte>): (r: Entry)
    requires |s| >= ENTRY_NAME && ENTRY_NAME + 2 * s[6] as int <= |s|
  {
    Entry(LE32(s, 0), seq(s[6], i requires 0 <= i < s[6] => LE16(s, ENTRY_NAME + 2 * i)), LE64(s, 8), LE64(s, 16),
          LE16(s, 24))
  }

  /** Walking a list value by the length fields. */
  ghost function Decode(s: seq<byte>): (r: Option<seq<Entry>>)
    decreases |s|
  {
    if s == [] then Some([])
    else if |s| < ENTRY_NAME then None
    else
      var n := LE16(s, 4);
      if n < ENTRY_NAME || n > |s| || ENTRY_NAME + 2 * s[6] as int > n then None
      else
        match Decode(s[n..])
        case None => None
        case Some(rest) => Some([DecodeEntry(s)] + rest)
  }

  lemma EntryFieldsRead(e: Entry, rest: seq<byte>)
    requires Fits(e)
    ensures var s := EncodeEntry(e) + rest;
            && LE32(s, 0) == e.atype && LE16(s, 4) == EntryLength(e) && s[6] == |e.name|
            && LE64(s, 8) == e.vcn && LE64(s, 16) == e.mref && LE16(s, 24) == e.instance
  {
    hide RoundUp8, Put16, Put32, Put64, NameBytes, LE16, LE32, LE64, EntryLength, EntryTail;
    EntryLengthFits(e);
    var s := EncodeEntry(e) + rest;
    assert s[0..4] == Put32(e.atype);
    assert s[4..6] == Put16(EntryLength(e));
    assert s[8..16] == Put64(e.vcn);
    assert s[16..24] == Put64(e.mref);
    assert s[24..26] == Put16(e.instance);
    ReadSlice(s, 0, Put32(e.atype), 0);
    ReadSlice(s, 4, Put16(EntryLength(e)), 0);
    ReadSlice(s, 24, Put16(e.instance), 0);
    Read64(s, 8, Put64(e.vcn));
    Read64(s, 16, Put64(e.mref));
  }

  lemma EntryLengthFits(e: Entry)
    requires |e.name| < 256
    ensures ENTRY_NAME + 2 * |e.name| <= EntryLength(e) < 0x10000
  {
  }

  lemma NameRead(e: Entry, rest: seq<byte>, i: nat)
    requires Fits(e) && i < |e.name|
    ensures EntryLength(e) >= ENTRY_NAME + 2 * |e.name| && LE16(EncodeEntry(e) + rest, ENTRY_NAME + 2 * i) == e.name[i]
  {
    hide RoundUp8, Put16, Put32, Put64, NameBytes, LE16, EntryLength, EntryHead;
    EntryLengthFits(e);
    var s := EncodeEntry(e) + rest;
    assert s[ENTRY_NAME..ENTRY_NAME + 2 * |e.name|] == NameBytes(e.name);
    ReadSlice(s, ENTRY_NAME, NameBytes(e.name), 2 * i);
  }

  lemma EntryRoundTrip(e: Entry, rest: seq<byte>)
    requires Fits(e)
    ensures var s := EncodeEntry(e) + rest;
            ENTRY_NAME + 2 * s[6] as int <= EntryLength(e) == LE16(s, 4) && DecodeEntry(s) == e
  {
    hide EncodeEntry, LE16, LE32, LE64, EntryLength, Fits;
    EntryFieldsRead(e, rest);
    NameLengthFits(e);
    forall i | 0 <= i < |e.name|
      ensures LE16(EncodeEntry(e) + rest, ENTRY_NAME + 2 * i) == e.name[i]
    {
      NameRead(e, rest, i);
    }
    var d := DecodeEntry(EncodeEntry(e) + rest);
    assert d.name == e.name;
  }

  lemma NameLengthFits(e: Entry)
    requires Fits(e)
    ensures ENTRY_NAME + 2 * |e.name| <= EntryLength(e)
  {
  }

  /** The stored value determines the entries: it is read back as the list it was written from. */
  lemma {:induction false} ListRoundTrip(list: seq<Entry>)
    requires AllFit(list)
    ensures Decode(Encode(list)) == Some(list)
  {
    hide EncodeEntry, LE16, DecodeEntry, EntryLength, Fits;
    if list != [] {
      var e, rest := list[0], Encode(list[1..]);
      ListRoundTrip(list[1..]);
      EntryRoundTrip(e, rest);
      var s := EncodeEntry(e) + rest;
      assert s[EntryLength(e)..] == rest;
      assert [e] + list[1..] == list;
    }
  }
}
