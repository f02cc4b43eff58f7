/** Little endian integers inside byte sequences, and rounding to multiples. */
module Bytes {

  type byte = x: int | 0 <= x < 256

  /** The two byte little endian number at offset `o`. */
  function LE16(s: seq<byte>, o: nat): (r: nat)
    requires o + 2 <= |s|
    ensures r < 0x10000
  {
    s[o] as int + 256 * s[o + 1] as int
  }

  /** The four byte little endian number at offset `o`. */
  function LE32(s: seq<byte>, o: nat): (r: nat)
    requires o + 4 <= |s|
    ensures r < 0x1_0000_0000
  {
    LE16(s, o) + 0x10000 * LE16(s, o + 2)
  }

  /** The eight byte little endian number at offset `o`, read as unsigned. */
  function LE64(s: seq<byte>, o: nat): (r: nat)
    requires o + 8 <= |s|
    ensures r < 0x1_0000_0000_0000_0000
  {
    LE32(s, o) + 0x1_0000_0000 * LE32(s, o + 4)
  }

  /** The bytes of `v` as a two byte little endian number. */
  function Put16(v: nat): (r: seq<byte>)
    requires v < 0x10000
    ensures |r| == 2 && LE16(r, 0) == v
  {
    [v % 256, v / 256]
  }

  function Put32(v: nat): (r: seq<byte>)
    requires v < 0x1_0000_0000
    ensures |r| == 4 && LE32(r, 0) == v
  {
    Put16(v % 0x10000) + Put16(v / 0x10000)
  }

  function Put64(v: nat): (r: seq<byte>)
    requires v < 0x1_0000_0000_0000_0000
    ensures |r| == 8 && LE64(r, 0) == v
  {
    var lo, hi := Put32(v % 0x1_0000_0000), Put32(v / 0x1_0000_0000);
    assert (lo + hi)[..4] == lo && (lo + hi)[4..] == hi;
    lo + hi
  }

  /** `(n + 7) & ~7`. */
  function RoundUp8(n: nat): (r: nat)
    ensures r % 8 == 0 && n <= r < n + 8
    ensures n % 8 == 0 ==> r == n
  {
    (n + 7) / 8 * 8
  }

  /** `s` with the bytes `v` stored at offset `o`. */
  function Store(s: seq<byte>, o: nat, v: seq<byte>): (r: seq<byte>)
    requires o + |v| <= |s|
    ensures |r| == |s|
    ensures forall i :: 0 <= i < |s| ==> r[i] == if o <= i < o + |v| then v[i - o] else s[i]
  {
    s[..o] + v + s[o + |v|..]
  }

  function Zeros(n: nat): (r: seq<byte>)
    ensures |r| == n && forall i :: 0 <= i < n ==> r[i] == 0
  {
    seq(n, i => 0)
  }

  /** What was stored is read back, and what lies beside it is kept. */
  lemma StoreSlices(s: seq<byte>, o: nat, v: seq<byte>)
    requires o + |v| <= |s|
    ensures var r := Store(s, o, v);
            r[..o] == s[..o] && r[o..o + |v|] == v && r[o + |v|..] == s[o + |v|..]
  {
  }

  lemma SliceOfSlice<T>(s: seq<T>, a: nat, b: nat, i: nat, j: nat)
    requires i <= j <= b - a && a <= b <= |s|
    ensures s[a..b][i..j] == s[a + i..a + j]
  {
    forall k | 0 <= k < j - i
      ensures s[a..b][i..j][k] == s[a + i..a + j][k]
    {
      assert s[a..b][i + k] == s[a + (i + k)];
    }
  }

  /** Storing into the middle one of three parts. */
  lemma StoreInside(lo: seq<byte>, c: seq<byte>, hi: seq<byte>, o: nat, v: seq<byte>)
    requires o + |v| <= |c|
    ensures Store(lo + c + hi, |lo| + o, v) == lo + Store(c, o, v) + hi
  {
  }

  /** Numbers read from a slice are the numbers read from the whole. */
  lemma ReadSlice(s: seq<byte>, a: nat, t: seq<byte>, o: nat)
    requires a + |t| <= |s| && s[a..a + |t|] == t
    ensures o + 2 <= |t| ==> LE16(s, a + o) == LE16(t, o)
    ensures o + 4 <= |t| ==> LE32(s, a + o) == LE32(t, o)
  {
    forall k | 0 <= k < |t|
      ensures s[a + k] == t[k]
    {
      assert s[a..a + |t|][k] == t[k];
    }
  }

  lemma Read64(s: seq<byte>, a: nat, t: seq<byte>)
    requires |t| == 8 && a + 8 <= |s| && s[a..a + 8] == t
    ensures LE64(s, a) == LE64(t, 0)
  {
    hide LE32;
    ReadSlice(s, a, t, 0);
    ReadSlice(s, a, t, 4);
  }

  // ----- Multiples

  lemma Scaled(x: nat, y: nat, u: nat)
    requires x <= y
    ensures x * u <= y * u
  {
  }

  lemma NextMultiple(q: nat, p: nat)
    ensures (q + 1) * p == q * p + p
  {
  }

  lemma DivMod(q: nat, r: nat, p: nat)
    requires r < p
    ensures (q * p + r) / p == q && (q * p + r) % p == r
  {
    var y := q * p + r;
    assert y == y / p * p + y % p;
    if y / p < q {
      Scaled(y / p + 1, q, p);
    } else if y / p > q {
      Scaled(q + 1, y / p, p);
    }
  }

  // ----- Clusters

  function Clusters(n: nat, c: nat): (r: nat)
    requires c > 0
  {
    (n + c - 1) / c
  }

  /** Rounded up to whole clusters. */
  function ToCluster(n: nat, c: nat): (r: nat)
    requires c > 0
    ensures n <= r < n + c
  {
    Clusters(n, c) * c
  }

  lemma RoundedUp(n: nat, c: nat)
    requires c > 0
    ensures n <= ToCluster(n, c) < n + c && ToCluster(ToCluster(n, c), c) == ToCluster(n, c)
  {
    var q := Clusters(n, c);
    assert n + c - 1 == q * c + (n + c - 1) % c;
    DivMod(q, c - 1, c);
  }

  lemma ClustersMonotone(n: nat, x: nat, c: nat)
    requires c > 0 && n <= x
    ensures ToCluster(n, c) <= ToCluster(x, c)
  {
    var p, q := Clusters(x, c), Clusters(n, c);
    assert x + c - 1 == p * c + (x + c - 1) % c && n + c - 1 == q * c + (n + c - 1) % c;
    if p < q {
      Scaled(p + 1, q, c);
      NextMultiple(p, c);
    } else {
      Scaled(q, p, c);
    }
  }
}
