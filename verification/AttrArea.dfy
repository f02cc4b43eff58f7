/** The attribute area of an mft record.

    An mft record holds its attribute records back to back, each carrying its own length, closed by a
    terminator of type AT_END. Walking it by the length fields gives the sequence of attribute records;
    cutting, inserting and replacing bytes at record boundaries is cutting, inserting and replacing in
    that sequence. */
module AttrArea {
  import opened Bytes

  const AT_END := 0xffffffff

  /** The bytes of one attribute record. */
  type Blob = seq<byte>

  // ----- Parsing

  datatype Option<+T> = None | Some(value: T)

  /** The length field of an attribute record is its size, and its type is not the terminator's. */
  ghost predicate WellSized(b: Blob) {
    |b| >= 8 && |b| % 8 == 0 && LE32(b, 4) == |b| && LE32(b, 0) != AT_END
  }

  ghost predicate AllWellSized(bs: seq<Blob>) {
    forall i :: 0 <= i < |bs| ==> WellSized(bs[i])
  }

  /** The eight bytes that close the attribute area. */
  ghost predicate IsTerminator(t: seq<byte>) {
    |t| == 8 && LE32(t, 0) == AT_END
  }

  /** Walk the attribute area by the length fields, up to the terminator. */
  ghost function Parse(s: seq<byte>): (r: Option<seq<Blob>>)
    decreases |s|
  {
    if |s| < 8 then None
    else if LE32(s, 0) == AT_END then if |s| == 8 then Some([]) else None
    else
      var n := LE32(s, 4);
      if n < 8 || n % 8 != 0 || n > |s| then None
      else
        match Parse(s[n..])
        case None => None
        case Some(rest) => Some([s[..n]] + rest)
  }

  function Flatten(bs: seq<Blob>): (r: seq<byte>) {
    if bs == [] then [] else bs[0] + Flatten(bs[1..])
  }

  lemma {:induction false} FlattenAppend(x: seq<Blob>, y: seq<Blob>)
    ensures Flatten(x + y) == Flatten(x) + Flatten(y)
  {
    if x == [] {
      assert x + y == y;
    } else {
      assert (x + y)[1..] == x[1..] + y;
      FlattenAppend(x[1..], y);
    }
  }

  /** A well-formed area parses into exactly the attribute records it was put together from. */
  lemma {:induction false} ParseFlatten(bs: seq<Blob>, t: seq<byte>)
    requires AllWellSized(bs)
    requires IsTerminator(t)
    ensures Parse(Flatten(bs) + t) == Some(bs)
  {
    var s := Flatten(bs) + t;
    if bs == [] {
      assert s == t;
    } else {
      var b := bs[0];
      assert s == b + (Flatten(bs[1..]) + t);
      HeaderOfPrefix(b, Flatten(bs[1..]) + t);
      assert s[..|b|] == b && s[|b|..] == Flatten(bs[1..]) + t;
      ParseFlatten(bs[1..], t);
      assert [b] + bs[1..] == bs;
    }
  }

  lemma HeaderOfPrefix(b: seq<byte>, rest: seq<byte>)
    requires |b| >= 8
    ensures LE32(b + rest, 0) == LE32(b, 0) && LE32(b + rest, 4) == LE32(b, 4)
  {
  }

  /** And whatever parses was put together that way. */
  lemma {:induction false} FlattenParse(s: seq<byte>)
    requires Parse(s).Some?
    ensures |s| >= 8 && IsTerminator(s[|s| - 8..])
    ensures s == Flatten(Parse(s).value) + s[|s| - 8..] && AllWellSized(Parse(s).value)
    decreases |s|
  {
    if LE32(s, 0) == AT_END {
      assert s[|s| - 8..] == s;
    } else {
      var n := LE32(s, 4);
      var b, rest := s[..n], s[n..];
      FlattenParse(rest);
      assert s == b + rest;
      HeaderOfPrefix(b, rest);
      assert rest[|rest| - 8..] == s[|s| - 8..];
      var bs := Parse(rest).value;
      assert ([b] + bs)[1..] == bs;
    }
  }

  /** Byte offset of the attribute record with index `i`, from the start of the first one. */
  function Offset(bs: seq<Blob>, i: nat): (r: nat)
    requires i <= |bs|
  {
    |Flatten(bs[..i])|
  }

  /** Splitting a parsed area at an attribute record boundary. */
  lemma SplitAt(s: seq<byte>, i: nat)
    requires Parse(s).Some? && i <= |Parse(s).value|
    ensures var bs := Parse(s).value;
            && Offset(bs, i) + 8 <= |s|
            && s[..Offset(bs, i)] == Flatten(bs[..i])
            && Parse(s[Offset(bs, i)..]) == Some(bs[i..])
  {
    hide Parse, Flatten, LE32;
    FlattenParse(s);
    var bs := Parse(s).value;
    var t := s[|s| - 8..];
    FlattenAppend(bs[..i], bs[i..]);
    assert bs == bs[..i] + bs[i..];
    assert s == Flatten(bs[..i]) + (Flatten(bs[i..]) + t);
    ParseFlatten(bs[i..], t);
  }

  /** What is found at the boundary in front of index `i`. */
  lemma HeadOf(s: seq<byte>, i: nat)
    requires Parse(s).Some? && i <= |Parse(s).value|
    ensures var bs := Parse(s).value;
            && Offset(bs, i) + 8 <= |s|
            && var t := s[Offset(bs, i)..];
            && (LE32(t, 0) == AT_END <==> i == |bs|)
            && (i < |bs| ==> WellSized(bs[i]) && LE32(t, 4) == |bs[i]| <= |t| && t[..|bs[i]|] == bs[i])
  {
    hide Flatten, LE32;
    var bs := Parse(s).value;
    SplitAt(s, i);
    assert AllWellSized(bs) by {
      FlattenParse(s);
    }
    if i < |bs| {
      assert bs[i..][0] == bs[i];
    }
  }

  lemma SameHeader(s: seq<byte>, a: nat, t: seq<byte>)
    requires a + 8 <= |s| && 8 <= |t| && t[..8] == s[a..a + 8]
    ensures LE32(s, a) == LE32(t, 0) && LE32(s, a + 4) == LE32(t, 4)
  {
    forall k | 0 <= k < 8
      ensures s[a + k] == t[k]
    {
      assert t[..8][k] == s[a..a + 8][k];
    }
  }

  /** Cutting one attribute record out of a parsed area. */
  lemma CutOut(s: seq<byte>, i: nat)
    requires Parse(s).Some? && i < |Parse(s).value|
    ensures var bs := Parse(s).value;
            && Offset(bs, i) + |bs[i]| == Offset(bs, i + 1) && Offset(bs, i + 1) + 8 <= |s|
            && Parse(s[..Offset(bs, i)] + s[Offset(bs, i + 1)..]) == Some(bs[..i] + bs[i + 1..])
  {
    var bs := Parse(s).value;
    SplitAt(s, i);
    SplitAt(s, i + 1);
    FlattenParse(s);
    Prepend(bs[..i], s[Offset(bs, i + 1)..]);
    OffsetNext(bs, i);
  }

  /** Inserting one attribute record into a parsed area. */
  lemma PutIn(s: seq<byte>, i: nat, b: Blob)
    requires Parse(s).Some? && i <= |Parse(s).value| && WellSized(b)
    ensures var bs := Parse(s).value;
            && Offset(bs, i) + 8 <= |s|
            && Parse(s[..Offset(bs, i)] + b + s[Offset(bs, i)..]) == Some(bs[..i] + [b] + bs[i..])
  {
    var bs := Parse(s).value;
    SplitAt(s, i);
    FlattenParse(s);
    var rest := s[Offset(bs, i)..];
    FlattenSingle(b);
    FlattenAppend(bs[..i], [b]);
    assert Flatten(bs[..i] + [b]) == s[..Offset(bs, i)] + b;
    Prepend(bs[..i] + [b], rest);
  }

  /** Replacing one attribute record in a parsed area, by one of any size. */
  lemma Exchange(s: seq<byte>, i: nat, b: Blob)
    requires Parse(s).Some? && i < |Parse(s).value| && WellSized(b)
    ensures var bs := Parse(s).value;
            && Offset(bs, i) + |bs[i]| == Offset(bs, i + 1) && Offset(bs, i + 1) + 8 <= |s|
            && Parse(s[..Offset(bs, i)] + b + s[Offset(bs, i + 1)..]) == Some(bs[i := b])
  {
    hide Parse, Flatten, LE32;
    var bs := Parse(s).value;
    CutOut(s, i);
    var cut := bs[..i] + bs[i + 1..];
    assert cut[..i] == bs[..i];
    PutIn(s[..Offset(bs, i)] + s[Offset(bs, i + 1)..], i, b);
    assert cut[..i] + [b] + cut[i..] == bs[i := b];
  }

  /** An area that differs from a parsed one only in what stands between two record boundaries. */
  lemma Respliced(s: seq<byte>, i: nat, lo: seq<byte>, c: Blob, hi: seq<byte>)
    requires Parse(s).Some? && i < |Parse(s).value|
    requires |lo| == Offset(Parse(s).value, i)
    requires s == lo + Parse(s).value[i] + hi
    requires c == [] || WellSized(c)
    ensures Parse(lo + c + hi)
              == Some(if c == [] then Parse(s).value[..i] + Parse(s).value[i + 1..] else Parse(s).value[i := c])
  {
    hide Parse, Flatten, LE32;
    CutOut(s, i);
    var bs := Parse(s).value;
    assert s[..Offset(bs, i)] == lo && s[Offset(bs, i + 1)..] == hi;
    if c == [] {
      assert lo + c + hi == lo + hi;
    } else {
      Exchange(s, i, c);
    }
  }

  lemma FlattenSingle(b: Blob)
    ensures Flatten([b]) == b
  {
    assert [b][1..] == [];
    assert b + [] == b;
  }

  lemma OffsetNext(bs: seq<Blob>, i: nat)
    requires i < |bs|
    ensures Offset(bs, i + 1) == Offset(bs, i) + |bs[i]|
  {
    assert bs[..i + 1] == bs[..i] + [bs[i]];
    FlattenAppend(bs[..i], [bs[i]]);
    FlattenSingle(bs[i]);
  }

  /** Putting a prefix of attribute records in front of a parsed area. */
  lemma {:induction false} Prepend(bs: seq<Blob>, s: seq<byte>)
    requires Parse(s).Some?
    requires AllWellSized(bs)
    ensures Parse(Flatten(bs) + s) == Some(bs + Parse(s).value)
  {
    hide Parse, Flatten, LE32;
    FlattenParse(s);
    var t := s[|s| - 8..];
    FlattenAppend(bs, Parse(s).value);
    assert Flatten(bs) + s == Flatten(bs + Parse(s).value) + t;
    ParseFlatten(bs + Parse(s).value, t);
  }

  lemma OffsetZero(bs: seq<Blob>, i: nat)
    requires i < |bs| && AllWellSized(bs)
    ensures Offset(bs, i) == 0 <==> i == 0
  {
    if i > 0 {
      assert bs[..i][0] == bs[0];
    }
  }
}
