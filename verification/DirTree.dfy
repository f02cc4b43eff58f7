/** Looking up a name in a directory (`ntfs_lookup_inode_by_name`, kext/ntfs_dir.c).

    A directory is a B+tree of names in collation order. One descent from the root to a leaf answers two questions at
    once: whether the exact name is there and, on a volume that ignores case, whether some name is there that differs
    from it in case only. */
module DirTree {
  import opened Errno
  import opened Collate
  import opened AttrArea

  const FILENAME_POSIX := 0
  const FILENAME_WIN32 := 1
  const FILENAME_DOS := 2
  const FILENAME_WIN32_AND_DOS := 3

  /** A filename in the index and the mft reference it leads to. */
  datatype Key = Key(name: Name, ftype: nat, mref: nat)

  /** A node: entries, each with the child that holds the names in front of it, and the child behind the last entry. */
  datatype Node = Node(entries: seq<Ent>, last: Option<Node>)
  datatype Ent = Ent(key: Key, child: Option<Node>)

  // ----- The names of a tree, in order

  function KeysFrom(n: Node, i: nat): (r: seq<Key>)
    requires i <= |n.entries|
    decreases n, |n.entries| - i
  {
    if i == |n.entries| then KeysBelow(n.last)
    else KeysBelow(n.entries[i].child) + [n.entries[i].key] + KeysFrom(n, i + 1)
  }

  function KeysBelow(c: Option<Node>): (r: seq<Key>)
    decreases c, 0
  {
    match c
    case None => []
    case Some(n) => KeysFrom(n, 0)
  }

  /** Names ascend strictly. */
  ghost predicate Ascending(vol: Volume, ks: seq<Key>) {
    forall i, j :: 0 <= i < j < |ks| ==> FileOrder(vol, ks[i].name, ks[j].name) < 0
  }

  lemma BeforeBoth(vol: Volume, a: Name, b: Name, c: Name)
    requires FileOrder(vol, a, b) < 0 && FileOrder(vol, b, c) <= 0
    ensures FileOrder(vol, a, c) < 0
  {
    hide FileOrder;
    FileOrderTotal(vol, a, b, c);
    FileOrderTotal(vol, c, a, b);
    FileOrderTotal(vol, b, c, a);
    FileOrderTotal(vol, b, a, c);
  }

  ghost predicate TreeOk(vol: Volume, root: Node) {
    Ascending(vol, KeysFrom(root, 0))
  }

  ghost predicate Contains(ks: seq<Key>, u: Name) {
    exists i :: 0 <= i < |ks| && ks[i].name == u
  }

  ghost predicate ContainsFolded(vol: Volume, ks: seq<Key>, u: Name) {
    exists i :: 0 <= i < |ks| && SameFolded(vol, ks[i].name, u)
  }

  // ----- The descent

  ghost predicate Same(vol: Volume, u: Name, k: Name, caseSensitive: bool) {
    |u| == |k| && EqualUpToNul(View(vol, caseSensitive, u), View(vol, caseSensitive, k))
  }

  /** The case insensitive match remembered: the first one, or a later one that is a Win32 name. */
  ghost function Remember(vol: Volume, u: Name, k: Key, cached: Option<Key>): (r: Option<Key>) {
    if !vol.caseSensitive && Same(vol, u, k.name, false)
      && (cached.None? || k.ftype == FILENAME_WIN32 || k.ftype == FILENAME_WIN32_AND_DOS)
    then Some(k) else cached
  }

  datatype Way = Down | Right | Here

  /** Where to go at a name that is not equal. */
  ghost function WayAt(vol: Volume, u: Name, k: Name): (r: Way) {
    var ci := NameOrder(vol, u, k, false);
    if ci == -1 then Down else if ci != 0 then Right
    else
      var cs := NameOrder(vol, u, k, true);
      if cs == -1 then Down else if cs != 0 then Right else Here
  }

  /** What the descent finds from entry `i` of `n` on. */
  ghost function Search(vol: Volume, n: Node, i: nat, u: Name, cached: Option<Key>): (r: Option<Key>)
    requires i <= |n.entries|
    decreases n, |n.entries| - i
  {
    if i == |n.entries| then SearchBelow(vol, n.last, u, cached)
    else
      var k := n.entries[i].key;
      if Same(vol, u, k.name, true) then Some(k)
      else
        var c := Remember(vol, u, k, cached);
        match WayAt(vol, u, k.name)
        case Down => SearchBelow(vol, n.entries[i].child, u, c)
        case Right => Search(vol, n, i + 1, u, c)
        case Here => Some(k)
  }

  ghost function SearchBelow(vol: Volume, c: Option<Node>, u: Name, cached: Option<Key>): (r: Option<Key>)
    decreases c, 0
  {
    match c
    case None => cached
    case Some(n) => Search(vol, n, 0, u, cached)
  }

  method ComputeWay(vol: Volume, u: Name, k: Name) returns (w: Way)
    ensures w == WayAt(vol, u, k)
  {
    hide NameOrder;
    var rc := CollateNames(vol, u, k, false);
    if rc == -1 {
      return Down;
    }
    if rc != 0 {
      return Right;
    }
    rc := CollateNames(vol, u, k, true);
    return if rc == -1 then Down else if rc != 0 then Right else Here;
  }

  /** `ntfs_lookup_inode_by_name`. The name found is returned with its type and mft reference. */
  method LookupName(vol: Volume, root: Node, u: Name) returns (err: int, found: Option<Key>)
    ensures found == Search(vol, root, 0, u, None)
    ensures err == if found.Some? then 0 else ENOENT
  {
    hide WayAt, Same;
    var n, i := root, 0;
    found := None;
    while true
      invariant 0 <= i <= |n.entries| && Search(vol, root, 0, u, None) == Search(vol, n, i, u, found)
      decreases n, |n.entries| - i
    {
      var child := n.last;
      if i < |n.entries| {
        var k := n.entries[i].key;
        var eq := AreNamesEqual(vol, u, k.name, true);
        SameIs(vol, u, k.name, true);
        if eq {
          return 0, Some(k);
        }
        if !vol.caseSensitive {
          eq := AreNamesEqual(vol, u, k.name, false);
          SameIs(vol, u, k.name, false);
          if eq && (found.None? || k.ftype == FILENAME_WIN32 || k.ftype == FILENAME_WIN32_AND_DOS) {
            found := Some(k);
          }
        }
        var way := ComputeWay(vol, u, k.name);
        if way == Right {
          i := i + 1;
          continue;
        }
        if way == Here {
          return 0, Some(k);
        }
        child := n.entries[i].child;
      }
      if child.None? {
        return if found.Some? then 0 else ENOENT, found;
      }
      n, i := child.value, 0;
    }
  }

  lemma SameIs(vol: Volume, u: Name, k: Name, cs: bool)
    ensures Same(vol, u, k, cs) <==> |u| == |k| && EqualUpToNul(View(vol, cs, u), View(vol, cs, k))
  {
  }

  // ----- A single descent is enough

  /** For a legal name the comparisons are those of the collation order. */
  lemma LegalCompare(vol: Volume, u: Name, k: Name)
    requires Legal(vol, u)
    ensures Same(vol, u, k, true) <==> u == k
    ensures Same(vol, u, k, false) <==> SameFolded(vol, k, u)
    ensures WayAt(vol, u, k) ==
              if FileOrder(vol, u, k) < 0 then Down else if FileOrder(vol, u, k) > 0 then Right else Here
  {
    hide ReachesIllegal, EqualUpToNul, Lex;
    LegalParts(vol, u);
    OrderOnLegal(vol, u, k, false);
    OrderOnLegal(vol, u, k, true);
    if |u| == |k| {
      EqualOnLegal(vol, u, k, true);
      EqualOnLegal(vol, u, k, false);
    }
  }

  /** Where the search stands: everything in `left` is in front of the name, everything in `right` behind it, and the
      neighbours of the part still open have been looked at. */
  ghost predicate Between(vol: Volume, u: Name, left: seq<Key>, right: seq<Key>, cached: Option<Key>) {
    && (forall i :: 0 <= i < |left| ==> FileOrder(vol, left[i].name, u) < 0)
    && (forall i :: 0 <= i < |right| ==> FileOrder(vol, u, right[i].name) < 0)
    && (!vol.caseSensitive && left != [] && SameFolded(vol, left[|left| - 1].name, u) ==> cached.Some?)
    && (!vol.caseSensitive && right != [] && SameFolded(vol, right[0].name, u) ==> cached.Some?)
    && (cached.Some? ==> !vol.caseSensitive && SameFolded(vol, cached.value.name, u) && cached.value in left + right)
  }

  /** What a lookup has to answer. */
  ghost predicate Answer(vol: Volume, ks: seq<Key>, u: Name, r: Option<Key>) {
    && (r.Some? ==> r.value in ks && (r.value.name == u || (!vol.caseSensitive && SameFolded(vol, r.value.name, u))))
    && (Contains(ks, u) ==> r.Some? && r.value.name == u)
    && (r.None? <==> !Contains(ks, u) && (vol.caseSensitive || !ContainsFolded(vol, ks, u)))
  }

  /** Nothing is left to look at: a name that differs in case only would have had its neighbour looked at. */
  lemma NothingBetween(vol: Volume, u: Name, left: seq<Key>, right: seq<Key>, cached: Option<Key>)
    requires Between(vol, u, left, right, cached) && Ascending(vol, left + right)
    ensures Answer(vol, left + right, u, cached)
  {
    hide FileOrder, SameFolded;
    var ks := left + right;
    forall i | 0 <= i < |ks|
      ensures ks[i].name != u
      ensures !vol.caseSensitive && SameFolded(vol, ks[i].name, u) ==> cached.Some?
    {
      FileOrderTotal(vol, ks[i].name, u, u);
      FileOrderTotal(vol, u, ks[i].name, u);
      if i < |left| {
        var z := left[|left| - 1].name;
        assert i < |left| - 1 ==> FileOrder(vol, ks[i].name, ks[|left| - 1].name) < 0;
        FileOrderTotal(vol, z, z, z);
        if SameFolded(vol, ks[i].name, u) {
          FoldedBlock(vol, ks[i].name, z, u);
          FoldedChain(vol, ks[i].name, z, u);
        }
      } else {
        var z := right[0].name;
        assert i > |left| ==> FileOrder(vol, ks[|left|].name, ks[i].name) < 0;
        FileOrderTotal(vol, z, z, z);
        if SameFolded(vol, ks[i].name, u) {
          FoldedChain(vol, u, u, ks[i].name);
          FoldedBlock(vol, u, z, ks[i].name);
          FoldedChain(vol, u, z, u);
        }
      }
    }
  }

  lemma FoldedChain(vol: Volume, a: Name, b: Name, c: Name)
    ensures SameFolded(vol, a, b) && SameFolded(vol, a, c) ==> SameFolded(vol, b, c)
    ensures SameFolded(vol, a, b) <==> SameFolded(vol, b, a)
    ensures SameFolded(vol, a, a) && SameFolded(vol, c, a) == SameFolded(vol, a, c)
  {
  }

  /** Going down in front of `k` keeps the search between its neighbours. */
  lemma BetweenDown(vol: Volume, u: Name, left: seq<Key>, k: Key, rest: seq<Key>, right: seq<Key>, cached: Option<Key>)
    requires Legal(vol, u) && Between(vol, u, left, right, cached) && Ascending(vol, [k] + rest + right)
    requires FileOrder(vol, u, k.name) < 0
    ensures Between(vol, u, left, [k] + rest + right, Remember(vol, u, k, cached))
  {
    hide FileOrder, SameFolded, Same;
    LegalCompare(vol, u, k.name);
    var r := [k] + rest + right;
    forall i | 0 <= i < |r|
      ensures FileOrder(vol, u, r[i].name) < 0
    {
      if i > 0 {
        assert FileOrder(vol, r[0].name, r[i].name) < 0;
        FileOrderTotal(vol, u, k.name, r[i].name);
        FileOrderTotal(vol, u, r[i].name, k.name);
        FileOrderTotal(vol, r[i].name, u, k.name);
      }
    }
    assert forall x :: x in left + right ==> x in left + r;
    assert (left + r)[|left|] == k;
  }

  /** And so does going on behind it. */
  lemma BetweenRight(vol: Volume, u: Name, left: seq<Key>, below: seq<Key>, k: Key, right: seq<Key>,
                     cached: Option<Key>)
    requires Legal(vol, u) && Between(vol, u, left, right, cached) && Ascending(vol, left + below + [k])
    requires FileOrder(vol, u, k.name) > 0
    ensures Between(vol, u, left + below + [k], right, Remember(vol, u, k, cached))
  {
    hide FileOrder, SameFolded, Same;
    LegalCompare(vol, u, k.name);
    var l := left + below + [k];
    FileOrderTotal(vol, u, k.name, u);
    forall i | 0 <= i < |l|
      ensures FileOrder(vol, l[i].name, u) < 0
    {
      if i < |l| - 1 {
        assert FileOrder(vol, l[i].name, l[|l| - 1].name) < 0;
        FileOrderTotal(vol, l[i].name, k.name, u);
        FileOrderTotal(vol, u, l[i].name, k.name);
        FileOrderTotal(vol, l[i].name, u, k.name);
        FileOrderTotal(vol, k.name, u, l[i].name);
      }
    }
    assert forall x :: x in left + right ==> x in l + right;
    assert (l + right)[|l| - 1] == k;
  }

  /** The parts of an ascending sequence ascend. */
  lemma HalvesAscend(vol: Volume, a: seq<Key>, b: seq<Key>)
    requires Ascending(vol, a + b)
    ensures Ascending(vol, a) && Ascending(vol, b)
  {
    hide FileOrder;
    var s := a + b;
    assert forall i :: 0 <= i < |a| ==> a[i] == s[i];
    forall i, j | 0 <= i < j < |b|
      ensures FileOrder(vol, b[i].name, b[j].name) < 0
    {
      assert s[|a| + i] == b[i] && s[|a| + j] == b[j];
    }
  }

  /** The exact name was met. */
  lemma MetExactly(vol: Volume, u: Name, ks: seq<Key>, i: nat)
    requires i < |ks| && ks[i].name == u
    ensures Answer(vol, ks, u, Some(ks[i]))
  {
  }

  /** What is found in the part still open, with its neighbours, is what a look at all names would find. */
  lemma {:induction false} SearchIsRight(vol: Volume, n: Node, i: nat, u: Name, cached: Option<Key>, left: seq<Key>,
                                         right: seq<Key>)
    requires i <= |n.entries| && Legal(vol, u) && Between(vol, u, left, right, cached)
    requires Ascending(vol, left + KeysFrom(n, i) + right)
    ensures Answer(vol, left + KeysFrom(n, i) + right, u, Search(vol, n, i, u, cached))
    decreases n, |n.entries| - i
  {
    hide FileOrder, SameFolded, Same, Between, Answer, WayAt, Remember, Legal, Ascending;
    if i == |n.entries| {
      BelowIsRight(vol, n.last, u, cached, left, right);
    } else {
      var k, below, rest := n.entries[i].key, KeysBelow(n.entries[i].child), KeysFrom(n, i + 1);
      LegalCompare(vol, u, k.name);
      FileOrderTotal(vol, u, k.name, u);
      var ks := left + KeysFrom(n, i) + right;
      assert ks == (left + below) + ([k] + rest + right) == (left + below + [k]) + (rest + right);
      if u == k.name {
        MetExactly(vol, u, ks, |left| + |below|);
      } else if FileOrder(vol, u, k.name) < 0 {
        HalvesAscend(vol, left + below, [k] + rest + right);
        BetweenDown(vol, u, left, k, rest, right, cached);
        assert left + below + ([k] + rest + right) == ks;
        BelowIsRight(vol, n.entries[i].child, u, Remember(vol, u, k, cached), left, [k] + rest + right);
      } else {
        HalvesAscend(vol, left + below + [k], rest + right);
        assert (left + below + [k]) + rest + right == ks;
        BetweenRight(vol, u, left, below, k, right, cached);
        SearchIsRight(vol, n, i + 1, u, Remember(vol, u, k, cached), left + below + [k], right);
      }
    }
  }

  lemma {:induction false} BelowIsRight(vol: Volume, c: Option<Node>, u: Name, cached: Option<Key>, left: seq<Key>,
                                        right: seq<Key>)
    requires Legal(vol, u) && Between(vol, u, left, right, cached) && Ascending(vol, left + KeysBelow(c) + right)
    ensures Answer(vol, left + KeysBelow(c) + right, u, SearchBelow(vol, c, u, cached))
    decreases c, 0
  {
    hide FileOrder, SameFolded, Same, Between, Answer, WayAt, Remember, Legal, Ascending;
    match c {
      case None =>
        assert left + KeysBelow(c) + right == left + right;
        NothingBetween(vol, u, left, right, cached);
      case Some(n) =>
        SearchIsRight(vol, n, 0, u, cached, left, right);
    }
  }

  /** One descent answers for the whole tree: the exact name if it is anywhere; failing that, on a volume that ignores
      case, some name that differs in case only if there is one anywhere; and nothing otherwise. */
  lemma OneDescentSuffices(vol: Volume, root: Node, u: Name)
    requires TreeOk(vol, root) && Legal(vol, u)
    ensures Answer(vol, KeysFrom(root, 0), u, Search(vol, root, 0, u, None))
  {
    hide Answer, Search, KeysFrom, Legal;
    var ks := KeysFrom(root, 0);
    assert [] + ks + [] == ks;
    SearchIsRight(vol, root, 0, u, None, [], []);
  }

  // ----- Names with characters that cannot be collated

  ghost predicate FindsExact(vol: Volume, root: Node, u: Name) {
    TreeOk(vol, root) && Contains(KeysFrom(root, 0), u) ==>
      Search(vol, root, 0, u, None).Some? && Search(vol, root, 0, u, None).value.name == u
  }

  function Leaf(k: Key): (r: Node) {
    Node([Ent(k, None)], None)
  }

  /** The name `u` in a leaf, in front of a longer name in the root; a still longer one is in the other leaf. */
  function HiddenIn(u: Name): (r: Node) {
    Node([Ent(Key(u + [0x41], FILENAME_POSIX, 17), Some(Leaf(Key(u, FILENAME_POSIX, 16))))],
         Some(Leaf(Key(u + [0x41, 0x41], FILENAME_POSIX, 18))))
  }

  lemma LeafKeys(k: Key)
    ensures KeysFrom(Leaf(k), 0) == [k]
  {
    assert KeysFrom(Leaf(k), 1) == [];
  }

  lemma HiddenKeys(vol: Volume, u: Name)
    ensures KeysFrom(HiddenIn(u), 0) ==
            [Key(u, FILENAME_POSIX, 16), Key(u + [0x41], FILENAME_POSIX, 17), Key(u + [0x41, 0x41], FILENAME_POSIX, 18)]
    ensures TreeOk(vol, HiddenIn(u)) && Contains(KeysFrom(HiddenIn(u), 0), u)
  {
    hide FileOrder;
    var root := HiddenIn(u);
    LeafKeys(Key(u, FILENAME_POSIX, 16));
    LeafKeys(Key(u + [0x41, 0x41], FILENAME_POSIX, 18));
    assert KeysFrom(root, 1) == [Key(u + [0x41, 0x41], FILENAME_POSIX, 18)];
    PrefixFirst(vol, u, [0x41]);
    PrefixFirst(vol, u, [0x41, 0x41]);
    PrefixFirst(vol, u + [0x41], [0x41]);
    assert u + [0x41] + [0x41] == u + [0x41, 0x41];
    assert KeysFrom(root, 0)[0].name == u;
  }

  lemma PrefixFirst(vol: Volume, u: Name, c: Name)
    requires c != []
    ensures FileOrder(vol, u, u + c) < 0
  {
    var fu, fv := FoldName(vol.upcase, u), FoldName(vol.upcase, u + c);
    assert fv[..|u|] == fu;
    LexPrefix(fu, fv);
  }

  lemma LexPrefix(a: Name, b: Name)
    requires |a| < |b| && b[..|a|] == a
    ensures Lex(a, b) == -1
  {
    LexSkip(a, b, |a|);
  }

  /** An illegal character sends the search to the right of the longer name. */
  lemma HiddenIsMissed(vol: Volume, u: Name, i: nat)
    requires i < |u| && IllegalChar(Fold(vol.upcase, u[i]))
    ensures Search(vol, HiddenIn(u), 0, u, None) == None
  {
    var root := HiddenIn(u);
    GoesRight(vol, u, i, [0x41]);
    GoesRight(vol, u, i, [0x41, 0x41]);
    var leaf := root.last.value;
    assert Search(vol, leaf, 1, u, None) == None;
    assert Search(vol, leaf, 0, u, None) == None;
    assert Search(vol, root, 1, u, None) == None;
  }

  lemma GoesRight(vol: Volume, u: Name, i: nat, c: Name)
    requires i < |u| && IllegalChar(Fold(vol.upcase, u[i])) && c != []
    ensures WayAt(vol, u, u + c) == Right && !Same(vol, u, u + c, true) && !Same(vol, u, u + c, false)
  {
    var vu, vk := View(vol, false, u), View(vol, false, u + c);
    assert vu[..i] == vk[..i] && IllegalChar(vu[i]);
    assert ReachesIllegal(vu, vk);
  }

  /** Without NUL in the name, and with an upcase table that leaves the illegal characters alone: the search finds the
      name in every directory that holds it exactly when the name has no illegal character. */
  lemma FindsExactlyLegal(vol: Volume, u: Name)
    requires forall i :: 0 <= i < |u| ==> u[i] != 0 && Fold(vol.upcase, u[i]) != 0
    requires forall c: u16 :: IllegalChar(c) <==> IllegalChar(Fold(vol.upcase, c))
    ensures Legal(vol, u) <==> forall root: Node :: FindsExact(vol, root, u)
  {
    hide Search, KeysFrom, TreeOk, Answer, HiddenIn;
    if Legal(vol, u) {
      forall root: Node
        ensures FindsExact(vol, root, u)
      {
        if TreeOk(vol, root) {
          OneDescentSuffices(vol, root, u);
          AnswerFinds(vol, KeysFrom(root, 0), u, Search(vol, root, 0, u, None));
        }
      }
    } else {
      var i :| 0 <= i < |u| && IllegalChar(Fold(vol.upcase, u[i]));
      HiddenKeys(vol, u);
      HiddenIsMissed(vol, u, i);
      assert !FindsExact(vol, HiddenIn(u), u);
    }
  }

  lemma AnswerFinds(vol: Volume, ks: seq<Key>, u: Name, r: Option<Key>)
    requires Answer(vol, ks, u, r)
    ensures Contains(ks, u) ==> r.Some? && r.value.name == u
  {
  }
}
