/** Collation orders (kext/ntfs_collate.c) and the name comparisons they rest on (kext/ntfs_unistr.c). */
module Collate {
  import opened Bytes

  type u16 = x: int | 0 <= x < 0x10000
  type Name = seq<u16>

  /** What a comparison needs to know of a volume. */
  datatype Volume = Volume(caseSensitive: bool, upcase: seq<u16>)

  // ----- The reference order: lexicographic comparison of integer sequences

  /** -1, 0 or 1 as `a` is before, equal to or after `b`; a proper prefix comes first. */
  function Lex(a: seq<int>, b: seq<int>): (r: int)
    ensures r == -1 || r == 0 || r == 1
  {
    if a == [] then if b == [] then 0 else -1
    else if b == [] then 1
    else if a[0] < b[0] then -1
    else if a[0] > b[0] then 1
    else Lex(a[1..], b[1..])
  }

  /** Only a sequence itself compares equal to it. */
  lemma {:induction false} LexEqual(a: seq<int>, b: seq<int>)
    ensures Lex(a, b) == 0 <==> a == b
  {
    if a != [] && b != [] && a[0] == b[0] {
      LexEqual(a[1..], b[1..]);
      assert a == [a[0]] + a[1..] && b == [b[0]] + b[1..];
    }
  }

  lemma {:induction false} LexAntisymmetric(a: seq<int>, b: seq<int>)
    ensures Lex(a, b) == -Lex(b, a)
  {
    if a != [] && b != [] && a[0] == b[0] {
      LexAntisymmetric(a[1..], b[1..]);
    }
  }

  lemma {:induction false} LexTransitive(a: seq<int>, b: seq<int>, c: seq<int>)
    requires Lex(a, b) <= 0 && Lex(b, c) <= 0
    ensures Lex(a, c) <= 0
    ensures Lex(a, c) == 0 ==> Lex(a, b) == 0 && Lex(b, c) == 0
  {
    if a != [] && b != [] && c != [] && a[0] == b[0] == c[0] {
      LexTransitive(a[1..], b[1..], c[1..]);
    }
  }

  /** Comparing two sequences that agree below `i` is comparing what follows. */
  lemma {:induction false} LexSkip(a: seq<int>, b: seq<int>, i: nat)
    requires i <= |a| && i <= |b| && a[..i] == b[..i]
    ensures Lex(a, b) == Lex(a[i..], b[i..])
  {
    if i > 0 {
      assert a[0] == a[..i][0] == b[..i][0] == b[0];
      assert a[1..][..i - 1] == a[..i][1..] == b[..i][1..] == b[1..][..i - 1];
      LexSkip(a[1..], b[1..], i - 1);
      assert a[1..][i - 1..] == a[i..] && b[1..][i - 1..] == b[i..];
    } else {
      assert a[i..] == a && b[i..] == b;
    }
  }

  // ----- Binary collation

  /** `memcmp` over the first `n` bytes: the difference of the first bytes that differ. */
  method Memcmp(a: seq<byte>, b: seq<byte>, n: nat) returns (rc: int)
    requires n <= |a| && n <= |b|
    ensures rc == 0 <==> a[..n] == b[..n]
    ensures rc < 0 <==> Lex(a[..n], b[..n]) == -1
    ensures rc > 0 <==> Lex(a[..n], b[..n]) == 1
  {
    var i := 0;
    while i < n && a[i] == b[i]
      invariant i <= n && a[..i] == b[..i]
    {
      i := i + 1;
    }
    assert a[..n][..i] == a[..i] && b[..n][..i] == b[..i];
    LexSkip(a[..n], b[..n], i);
    if i == n {
      return 0;
    }
    assert a[..n][i..][0] == a[i] && b[..n][i..][0] == b[i];
    LexEqual(a[..n], b[..n]);
    return a[i] as int - b[i] as int;
  }

  /** The result has the sign of the lexicographic order of the two byte strings. */
  method CollateBinary(a: seq<byte>, b: seq<byte>) returns (rc: int)
    ensures rc < 0 <==> Lex(a, b) == -1
    ensures rc == 0 <==> a == b
    ensures rc > 0 <==> Lex(a, b) == 1
  {
    var len := |a|;
    if |b| < |a| {
      len := |b|;
    }
    rc := Memcmp(a, b, len);
    LexTruncated(a, b, len);
    LexEqual(a, b);
    if rc == 0 && |a| != |b| {
      if len == |a| {
        rc := -1;
      } else {
        rc := 1;
      }
    }
    if rc == 0 {
      assert a == a[..len] && b == b[..len];
    }
  }

  /** Up to the shorter length the order is that of the truncated strings. */
  lemma {:induction false} LexTruncated(a: seq<int>, b: seq<int>, n: nat)
    requires n == if |b| < |a| then |b| else |a|
    ensures Lex(a, b) == if Lex(a[..n], b[..n]) != 0 then Lex(a[..n], b[..n])
                         else if |a| < |b| then -1 else if |a| > |b| then 1 else 0
  {
    if n > 0 {
      assert a[..n][1..] == a[1..][..n - 1] && b[..n][1..] == b[1..][..n - 1];
      LexTruncated(a[1..], b[1..], n - 1);
    }
  }

  // ----- Collation by 32-bit words

  /** The words of a byte string, four bytes each. */
  function Words(s: seq<byte>): (r: seq<int>)
    requires |s| % 4 == 0
    ensures |r| == |s| / 4
    ensures forall i :: 0 <= i < |r| ==> r[i] == LE32(s, 4 * i)
  {
    seq(|s| / 4, i requires 0 <= i < |s| / 4 => LE32(s, 4 * i))
  }

  lemma LowDigit(x: nat, y: nat, p: nat, q: nat)
    requires x < 256 && y < 256 && x + 256 * p == y + 256 * q
    ensures x == y && p == q
  {
  }

  lemma SameWord(a: seq<byte>, b: seq<byte>, o: nat)
    requires o + 4 <= |a| && o + 4 <= |b| && LE32(a, o) == LE32(b, o)
    ensures forall k :: o <= k < o + 4 ==> a[k] == b[k]
  {
    var x0: nat, x1: nat, x2: nat, x3: nat := a[o], a[o + 1], a[o + 2], a[o + 3];
    var y0: nat, y1: nat, y2: nat, y3: nat := b[o], b[o + 1], b[o + 2], b[o + 3];
    LowDigit(x0, y0, x1 + 256 * (x2 + 256 * x3), y1 + 256 * (y2 + 256 * y3));
    LowDigit(x1, y1, x2 + 256 * x3, y2 + 256 * y3);
    LowDigit(x2, y2, x3, y3);
  }

  /** Nothing is lost by looking at words. */
  lemma SameWords(a: seq<byte>, b: seq<byte>)
    requires |a| % 4 == 0 && |b| % 4 == 0 && Words(a) == Words(b)
    ensures a == b
  {
    hide LE32;
    forall k | 0 <= k < |a|
      ensures a[k] == b[k]
    {
      var i := k / 4;
      assert Words(a)[i] == Words(b)[i];
      SameWord(a, b, 4 * i);
    }
  }

  lemma WordsOrder(a: seq<byte>, b: seq<byte>)
    requires |a| % 4 == 0 && |b| % 4 == 0
    ensures Lex(Words(a), Words(b)) == 0 <==> a == b
  {
    LexEqual(Words(a), Words(b));
    if Words(a) == Words(b) {
      SameWords(a, b);
    }
  }

  /** The lexicographic order of the two word sequences, for any two lengths; only equal strings are equal. */
  method CollateUlongs(a: seq<byte>, b: seq<byte>) returns (rc: int)
    requires |a| % 4 == 0 && |b| % 4 == 0
    ensures rc == Lex(Words(a), Words(b))
    ensures rc == 0 <==> a == b
  {
    hide LE32;
    WordsOrder(a, b);
    var minLen := |a|;
    if minLen > |b| {
      minLen := |b|;
    }
    minLen := minLen / 4;
    ghost var wa, wb := Words(a), Words(b);
    var i := 0;
    while i < minLen
      invariant 0 <= i <= minLen
      invariant wa[..i] == wb[..i]
    {
      LexSkip(wa, wb, i);
      var u1 := LE32(a, 4 * i);
      var u2 := LE32(b, 4 * i);
      if u1 > u2 {
        return 1;
      }
      if u1 < u2 {
        return -1;
      }
      i := i + 1;
    }
    LexSkip(wa, wb, i);
    rc := 1;
    if |a| < |b| {
      rc := -1;
    } else if |a| == |b| {
      rc := 0;
    }
  }

  // ----- Names

  /** The upcase table applied to one character; characters past its end are kept. */
  function Fold(upcase: seq<u16>, c: u16): (r: u16) {
    if c < |upcase| then upcase[c] else c
  }

  function FoldName(upcase: seq<u16>, n: Name): (r: Name)
    ensures |r| == |n| && forall i :: 0 <= i < |n| ==> r[i] == Fold(upcase, n[i])
  {
    seq(|n|, i requires 0 <= i < |n| => Fold(upcase, n[i]))
  }

  /** The characters whose legal_ansi_char entry has bit 3 set: `"`, `*`, `<`, `>` and `?`. */
  predicate IllegalChar(c: u16) {
    c == 0x22 || c == 0x2a || c == 0x3c || c == 0x3e || c == 0x3f
  }

  /** `n` as it takes part in a comparison. */
  function View(vol: Volume, caseSensitive: bool, n: Name): (r: Name)
    ensures |r| == |n|
  {
    if caseSensitive then n else FoldName(vol.upcase, n)
  }

  /** The comparison of `a` against `b` reaches an illegal character of `a` before a difference. */
  ghost predicate ReachesIllegal(a: Name, b: Name) {
    exists i :: 0 <= i < |a| && i < |b| && a[..i] == b[..i] && IllegalChar(a[i])
  }

  /** `ntfs_collate_names` with @err_val 1, the only value the modelled callers pass. */
  method CollateNames(vol: Volume, name1: Name, name2: Name, caseSensitive: bool) returns (rc: int)
    ensures rc == NameOrder(vol, name1, name2, caseSensitive)
  {
    ghost var v1, v2 := View(vol, caseSensitive, name1), View(vol, caseSensitive, name2);
    var minLen := |name1|;
    if |name1| > |name2| {
      minLen := |name2|;
    }
    var cnt := 0;
    while cnt < minLen
      invariant 0 <= cnt <= minLen
      invariant v1[..cnt] == v2[..cnt]
      invariant forall i :: 0 <= i < cnt ==> !IllegalChar(v1[i])
    {
      var c1, c2 := name1[cnt], name2[cnt];
      if !caseSensitive {
        c1, c2 := Fold(vol.upcase, c1), Fold(vol.upcase, c2);
      }
      assert v1[cnt] == c1 && v2[cnt] == c2;
      LexSkip(v1, v2, cnt);
      if IllegalChar(c1) {
        assert ReachesIllegal(v1, v2);
        return 1;
      }
      if c1 != c2 {
        NoIllegalBefore(v1, v2, cnt);
      }
      if c1 < c2 {
        return -1;
      }
      if c1 > c2 {
        return 1;
      }
      cnt := cnt + 1;
    }
    LexSkip(v1, v2, cnt);
    if |name1| < |name2| {
      return -1;
    }
    if |name1| == |name2| {
      return 0;
    }
    // The check of the rest of name1 for illegal characters returns @err_val, which is 1 as well.
    return 1;
  }

  lemma NoIllegalBefore(a: Name, b: Name, k: nat)
    requires k < |a| && k < |b| && a[k] != b[k]
    requires forall i :: 0 <= i <= k ==> !IllegalChar(a[i])
    ensures !ReachesIllegal(a, b)
  {
    forall i | 0 <= i < |a| && i < |b|
      ensures a[..i] == b[..i] ==> !IllegalChar(a[i])
    {
      if i > k {
        assert a[..i][k] != b[..i][k];
      }
    }
  }

  /** What the collation of two names answers: the lexicographic order of what is compared, unless an
      illegal character of the first name is met first. */
  ghost function NameOrder(vol: Volume, a: Name, b: Name, caseSensitive: bool): (r: int) {
    var va, vb := View(vol, caseSensitive, a), View(vol, caseSensitive, b);
    if ReachesIllegal(va, vb) then 1 else Lex(va, vb)
  }

  /** `ntfs_ucsncmp` and `ntfs_ucsncasecmp` stop at a NUL that both strings share. */
  ghost predicate EqualUpToNul(a: Name, b: Name)
    requires |a| == |b|
  {
    forall i :: 0 <= i < |a| && (forall k :: 0 <= k < i ==> a[k] != 0) ==> a[i] == b[i]
  }

  /** `ntfs_are_names_equal`. */
  method AreNamesEqual(vol: Volume, a: Name, b: Name, caseSensitive: bool) returns (r: bool)
    ensures r <==> |a| == |b| && EqualUpToNul(View(vol, caseSensitive, a), View(vol, caseSensitive, b))
  {
    if |a| != |b| {
      return false;
    }
    ghost var va, vb := View(vol, caseSensitive, a), View(vol, caseSensitive, b);
    var i := 0;
    while i < |a|
      invariant 0 <= i <= |a|
      invariant va[..i] == vb[..i]
      invariant forall k :: 0 <= k < i ==> va[k] != 0
    {
      var c1, c2 := a[i], b[i];
      if !caseSensitive {
        c1, c2 := Fold(vol.upcase, c1), Fold(vol.upcase, c2);
      }
      assert va[i] == c1 && vb[i] == c2;
      if c1 != c2 {
        return false;
      }
      if c1 == 0 {
        forall j | 0 <= j < |a| && (forall k :: 0 <= k < j ==> va[k] != 0)
          ensures va[j] == vb[j]
        {
          assert j <= i;
          if j < i {
            assert va[..i][j] == vb[..i][j];
          }
        }
        return true;
      }
      i := i + 1;
    }
    assert va == va[..i] && vb == vb[..i];
    return true;
  }

  /** The names the driver creates: no NUL and no illegal character, before and after upcasing. */
  ghost predicate Legal(vol: Volume, n: Name) {
    forall i :: 0 <= i < |n| ==>
      n[i] != 0 && !IllegalChar(n[i]) && Fold(vol.upcase, n[i]) != 0 && !IllegalChar(Fold(vol.upcase, n[i]))
  }

  /** No NUL, before and after upcasing. */
  ghost predicate NoNul(vol: Volume, n: Name) {
    forall i :: 0 <= i < |n| ==> n[i] != 0 && Fold(vol.upcase, n[i]) != 0
  }

  /** No character that cannot be collated, before and after upcasing. */
  ghost predicate Collatable(vol: Volume, n: Name) {
    forall i :: 0 <= i < |n| ==> !IllegalChar(n[i]) && !IllegalChar(Fold(vol.upcase, n[i]))
  }

  lemma LegalParts(vol: Volume, n: Name)
    ensures Legal(vol, n) <==> NoNul(vol, n) && Collatable(vol, n)
  {
  }

  /** On a first name without NUL, equality by the driver's routine is equality of what is compared. */
  lemma EqualOnLegal(vol: Volume, a: Name, b: Name, caseSensitive: bool)
    requires NoNul(vol, a) && |a| == |b|
    ensures EqualUpToNul(View(vol, caseSensitive, a), View(vol, caseSensitive, b))
        <==> View(vol, caseSensitive, a) == View(vol, caseSensitive, b)
  {
    var va, vb := View(vol, caseSensitive, a), View(vol, caseSensitive, b);
    if EqualUpToNul(va, vb) {
      forall i | 0 <= i < |a|
        ensures va[i] == vb[i]
      {
        assert forall k :: 0 <= k < i ==> va[k] != 0;
      }
    }
  }

  lemma OrderOnLegal(vol: Volume, a: Name, b: Name, caseSensitive: bool)
    requires Collatable(vol, a)
    ensures NameOrder(vol, a, b, caseSensitive) == Lex(View(vol, caseSensitive, a), View(vol, caseSensitive, b))
  {
    var va := View(vol, caseSensitive, a);
    assert forall i :: 0 <= i < |va| ==> !IllegalChar(va[i]);
  }

  /** Exactly when two calls with the names exchanged answer opposite signs. */
  lemma AntisymmetricExactly(vol: Volume, a: Name, b: Name, caseSensitive: bool)
    ensures var va, vb := View(vol, caseSensitive, a), View(vol, caseSensitive, b);
            NameOrder(vol, a, b, caseSensitive) == -NameOrder(vol, b, a, caseSensitive)
            <==> (ReachesIllegal(va, vb) ==> Lex(va, vb) == 1) && (ReachesIllegal(vb, va) ==> Lex(va, vb) == -1)
  {
    LexAntisymmetric(View(vol, caseSensitive, a), View(vol, caseSensitive, b));
  }

  /** "*" and "a": each collates after the other. */
  lemma StarIsAfterAndBefore(vol: Volume)
    ensures NameOrder(vol, [0x2a], [0x61], true) == 1 == NameOrder(vol, [0x61], [0x2a], true)
  {
    var star: Name, a: Name := [0x2a], [0x61];
    assert star[..0] == a[..0] && IllegalChar(star[0]);
    assert ReachesIllegal(star, a);
  }

  // ----- Filename collation

  /** What `ntfs_collate_filename` answers: the order ignoring case and, on a tie, the one respecting it. */
  ghost function Collated(vol: Volume, a: Name, b: Name): (r: int) {
    if NameOrder(vol, a, b, false) != 0 then NameOrder(vol, a, b, false) else NameOrder(vol, a, b, true)
  }

  /** The collation can be trusted when it answers "in front of" or "equal", and for a name without illegal characters
      always. */
  lemma CollatedMeans(vol: Volume, a: Name, b: Name)
    ensures -1 <= Collated(vol, a, b) <= 1
    ensures Collated(vol, a, b) == -1 ==> FileOrder(vol, a, b) < 0
    ensures Collated(vol, a, b) == 0 ==> a == b
    ensures Collatable(vol, a) ==> Collated(vol, a, b) == FileOrder(vol, a, b)
  {
    hide Lex, ReachesIllegal;
    FileOrderTotal(vol, a, b, b);
    if Collatable(vol, a) {
      NothingIllegal(a, b);
      NothingIllegal(FoldName(vol.upcase, a), FoldName(vol.upcase, b));
    }
  }

  lemma NothingIllegal(a: Name, b: Name)
    requires forall i :: 0 <= i < |a| ==> !IllegalChar(a[i])
    ensures !ReachesIllegal(a, b)
  {
  }

  /** `ntfs_collate_filename`: ignoring case first, then respecting it. */
  method CollateFilename(vol: Volume, a: Name, b: Name) returns (rc: int)
    ensures rc == Collated(vol, a, b)
    ensures Collatable(vol, a) ==> rc == FileOrder(vol, a, b)
  {
    CollatedMeans(vol, a, b);
    rc := CollateNames(vol, a, b, false);
    if rc == 0 {
      rc := CollateNames(vol, a, b, true);
    }
  }

  /** The order of a directory index and of attribute names. */
  function FileOrder(vol: Volume, a: Name, b: Name): (r: int) {
    var ci := Lex(FoldName(vol.upcase, a), FoldName(vol.upcase, b));
    if ci != 0 then ci else Lex(a, b)
  }

  /** `a` and `b` differ at most in case. */
  ghost predicate SameFolded(vol: Volume, a: Name, b: Name) {
    FoldName(vol.upcase, a) == FoldName(vol.upcase, b)
  }

  /** A total order whose only ties are between a name and itself. */
  lemma FileOrderTotal(vol: Volume, a: Name, b: Name, c: Name)
    ensures FileOrder(vol, a, b) == 0 <==> a == b
    ensures FileOrder(vol, a, b) == -FileOrder(vol, b, a)
    ensures FileOrder(vol, a, b) <= 0 && FileOrder(vol, b, c) <= 0 ==> FileOrder(vol, a, c) <= 0
  {
    var fa, fb, fc := FoldName(vol.upcase, a), FoldName(vol.upcase, b), FoldName(vol.upcase, c);
    LexEqual(fa, fb);
    LexEqual(fb, fc);
    LexEqual(fa, fc);
    LexEqual(a, b);
    LexAntisymmetric(fa, fb);
    LexAntisymmetric(a, b);
    if FileOrder(vol, a, b) <= 0 && FileOrder(vol, b, c) <= 0 {
      LexTransitive(fa, fb, fc);
      if Lex(fa, fc) == 0 {
        LexTransitive(a, b, c);
      }
    }
  }

  /** Names equal up to case form one contiguous block of the order. */
  lemma FoldedBlock(vol: Volume, a: Name, b: Name, c: Name)
    requires FileOrder(vol, a, b) <= 0 && FileOrder(vol, b, c) <= 0
    requires SameFolded(vol, a, c)
    ensures SameFolded(vol, a, b)
  {
    var fa, fb, fc := FoldName(vol.upcase, a), FoldName(vol.upcase, b), FoldName(vol.upcase, c);
    LexTransitive(fa, fb, fc);
    LexEqual(fa, fc);
    LexEqual(fa, fb);
  }
}
