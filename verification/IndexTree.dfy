/** Finding a place in an index and going on from there (`ntfs_index_lookup`, `ntfs_index_lookup_by_position` and
    `ntfs_index_lookup_next`, kext/ntfs_index.c).

    A lookup searches the entries of a node by halving, and goes down from the entry it ends at. The path taken is kept,
    so that the entry behind the one found can be reached later. */
module IndexTree {
  import opened Errno
  import opened Collate
  import opened AttrArea
  import opened DirTree

  // ----- One node

  /** Where the search in a node ends: at the name, or at the entry to go down from. */
  datatype Spot = Spot(met: bool, nr: nat)

  /** The search among the entries from `lo` to `hi`. */
  ghost function Probe(vol: Volume, es: seq<Ent>, u: Name, lo: nat, hi: nat): (r: Spot)
    requires lo <= hi < |es|
    ensures r.nr <= |es| && (r.met ==> r.nr < |es|)
    decreases hi - lo
  {
    var c := (lo + hi) / 2;
    var rc := Collated(vol, u, es[c].key.name);
    if es[c].key.name == u then Spot(true, c)
    else if rc == -1 then if c == lo then Spot(false, c) else Probe(vol, es, u, lo, c - 1)
    else if rc == 0 then Spot(true, c)
    else if c == hi then Spot(false, c + 1) else Probe(vol, es, u, c + 1, hi)
  }

  ghost function InNode(vol: Volume, es: seq<Ent>, u: Name): (r: Spot)
    ensures r.nr <= |es| && (r.met ==> r.nr < |es|)
  {
    if es == [] then Spot(false, 0) else Probe(vol, es, u, 0, |es| - 1)
  }

  /** `ntfs_index_lookup_in_node`. */
  method LookupInNode(vol: Volume, es: seq<Ent>, u: Name) returns (s: Spot)
    ensures s == InNode(vol, es, u)
  {
    hide Collated;
    if es == [] {
      return Spot(false, 0);
    }
    var minLeft: nat, maxRight: nat := 0, |es| - 1;
    var cur := maxRight / 2;
    while true
      invariant minLeft <= maxRight < |es| && cur == (minLeft + maxRight) / 2
      invariant Probe(vol, es, u, minLeft, maxRight) == Probe(vol, es, u, 0, |es| - 1)
      decreases maxRight - minLeft
    {
      if es[cur].key.name == u {
        return Spot(true, cur);
      }
      var rc := CollateFilename(vol, u, es[cur].key.name);
      if rc == -1 {
        if cur == minLeft {
          return Spot(false, cur);
        }
        maxRight := cur - 1;
      } else {
        if rc == 0 {
          return Spot(true, cur);
        }
        if cur == maxRight {
          return Spot(false, cur + 1);
        }
        minLeft := cur + 1;
      }
      cur := (minLeft + maxRight) / 2;
    }
  }

  ghost predicate EntsAscend(vol: Volume, es: seq<Ent>) {
    forall i, j :: 0 <= i < j < |es| ==> FileOrder(vol, es[i].key.name, es[j].key.name) < 0
  }

  /** All entries from `i` on are behind the name; those in front of `i` are in front of it, if it can be collated. */
  ghost predicate Parts(vol: Volume, es: seq<Ent>, u: Name, lo: nat, hi: nat) {
    && lo <= |es| && (forall j :: hi <= j < |es| ==> FileOrder(vol, u, es[j].key.name) < 0)
    && (Collatable(vol, u) ==> forall j :: 0 <= j < lo ==> FileOrder(vol, es[j].key.name, u) < 0)
  }

  /** The name is in front of entry `c`. */
  lemma PartsLeft(vol: Volume, es: seq<Ent>, u: Name, lo: nat, hi: nat, c: nat)
    requires EntsAscend(vol, es) && Parts(vol, es, u, lo, hi) && c < |es| && FileOrder(vol, u, es[c].key.name) < 0
    ensures Parts(vol, es, u, lo, c)
  {
    hide FileOrder, Collatable;
    forall j | c <= j < |es|
      ensures FileOrder(vol, u, es[j].key.name) < 0
    {
      if c < j {
        BeforeBoth(vol, u, es[c].key.name, es[j].key.name);
      }
    }
  }

  /** It is behind entry `c`, if it can be collated. */
  lemma PartsRight(vol: Volume, es: seq<Ent>, u: Name, lo: nat, hi: nat, c: nat)
    requires EntsAscend(vol, es) && Parts(vol, es, u, lo, hi) && c < |es|
    requires Collatable(vol, u) ==> FileOrder(vol, es[c].key.name, u) < 0
    ensures Parts(vol, es, u, c + 1, hi)
  {
    hide FileOrder, Collatable;
    if Collatable(vol, u) {
      forall j | 0 <= j < c + 1
        ensures FileOrder(vol, es[j].key.name, u) < 0
      {
        if j < c {
          BeforeBoth(vol, es[j].key.name, es[c].key.name, u);
        }
      }
    }
  }

  lemma {:induction false} ProbeParts(vol: Volume, es: seq<Ent>, u: Name, lo: nat, hi: nat)
    requires lo <= hi < |es| && EntsAscend(vol, es) && Parts(vol, es, u, lo, hi + 1)
    ensures var s := Probe(vol, es, u, lo, hi);
            if s.met then es[s.nr].key.name == u else Parts(vol, es, u, s.nr, s.nr)
    decreases hi - lo
  {
    hide FileOrder, Collated, Collatable, Parts, EntsAscend;
    var c := (lo + hi) / 2;
    var k := es[c].key.name;
    CollatedMeans(vol, u, k);
    FileOrderTotal(vol, u, k, u);
    if k != u && Collated(vol, u, k) == -1 {
      PartsLeft(vol, es, u, lo, hi + 1, c);
      if c != lo {
        ProbeParts(vol, es, u, lo, c - 1);
      }
    } else if k != u && Collated(vol, u, k) != 0 {
      PartsRight(vol, es, u, lo, hi + 1, c);
      if c != hi {
        ProbeParts(vol, es, u, c + 1, hi);
      }
    }
  }

  lemma InNodeParts(vol: Volume, es: seq<Ent>, u: Name)
    requires EntsAscend(vol, es)
    ensures var s := InNode(vol, es, u);
            if s.met then es[s.nr].key.name == u else Parts(vol, es, u, s.nr, s.nr)
  {
    hide FileOrder, Collatable, Probe;
    if es != [] {
      ProbeParts(vol, es, u, 0, |es| - 1);
    }
  }

  // ----- The descent

  function Child(n: Node, i: nat): (r: Option<Node>)
    requires i <= |n.entries|
  {
    if i == |n.entries| then n.last else n.entries[i].child
  }

  /** Entry `i` and all that is behind it in the node and below. */
  function After(n: Node, i: nat): (r: seq<Key>)
    requires i <= |n.entries|
  {
    if i == |n.entries| then [] else [n.entries[i].key] + KeysFrom(n, i + 1)
  }

  /** What is left of the names from where a lookup ends. */
  ghost function Left(vol: Volume, n: Node, u: Name): (r: seq<Key>)
    decreases n
  {
    var s := InNode(vol, n.entries, u);
    var c := Child(n, s.nr);
    if s.met || c.None? then After(n, s.nr) else Left(vol, c.value, u) + After(n, s.nr)
  }

  lemma FromIs(n: Node, i: nat)
    requires i <= |n.entries|
    ensures KeysFrom(n, i) == KeysBelow(Child(n, i)) + After(n, i)
  {
  }

  /** The names in front of entry `i` and what is below it. */
  ghost function Upto(n: Node, i: nat): (r: seq<Key>)
    requires i <= |n.entries|
  {
    if i == 0 then [] else Upto(n, i - 1) + KeysBelow(n.entries[i - 1].child) + [n.entries[i - 1].key]
  }

  lemma {:induction false} UptoFrom(n: Node, i: nat)
    requires i <= |n.entries|
    ensures KeysFrom(n, 0) == Upto(n, i) + KeysFrom(n, i)
    ensures KeysFrom(n, 0) == Upto(n, i) + KeysBelow(Child(n, i)) + After(n, i)
    decreases i
  {
    if i > 0 {
      UptoFrom(n, i - 1);
    }
    FromIs(n, i);
  }

  lemma {:induction false} UptoGrows(n: Node, i: nat, j: nat)
    requires i <= j <= |n.entries|
    ensures |Upto(n, i)| + j - i <= |Upto(n, j)|
    decreases j
  {
    if i < j {
      UptoGrows(n, i, j - 1);
    }
  }

  lemma EntriesAscend(vol: Volume, n: Node)
    requires TreeOk(vol, n)
    ensures EntsAscend(vol, n.entries)
  {
    hide FileOrder, KeysFrom, KeysBelow;
    forall i, j | 0 <= i < j < |n.entries|
      ensures FileOrder(vol, n.entries[i].key.name, n.entries[j].key.name) < 0
    {
      var x, y := |Upto(n, i + 1)| - 1, |Upto(n, j + 1)| - 1;
      UptoGrows(n, i + 1, j);
      UptoFrom(n, i + 1);
      UptoFrom(n, j + 1);
      var ks := KeysFrom(n, 0);
      assert ks[x] == n.entries[i].key && ks[y] == n.entries[j].key;
    }
  }

  lemma {:induction false} LeftIsSuffix(vol: Volume, n: Node, u: Name) returns (front: seq<Key>)
    ensures KeysFrom(n, 0) == front + Left(vol, n, u)
    decreases n
  {
    hide InNode;
    var s := InNode(vol, n.entries, u);
    var c := Child(n, s.nr);
    UptoFrom(n, s.nr);
    if s.met || c.None? {
      front := Upto(n, s.nr) + KeysBelow(c);
    } else {
      var f := LeftIsSuffix(vol, c.value, u);
      front := Upto(n, s.nr) + f;
      assert Upto(n, s.nr) + (f + Left(vol, c.value, u)) + After(n, s.nr) == front + Left(vol, n, u);
    }
  }

  /** The position at which a lookup ends. */
  ghost function Landing(vol: Volume, n: Node, u: Name): (p: nat)
    ensures p <= |KeysFrom(n, 0)| && KeysFrom(n, 0)[p..] == Left(vol, n, u)
  {
    LandingFits(vol, n, u);
    |KeysFrom(n, 0)| - |Left(vol, n, u)|
  }

  lemma LandingFits(vol: Volume, n: Node, u: Name)
    ensures var p := |KeysFrom(n, 0)| - |Left(vol, n, u)|;
            0 <= p && KeysFrom(n, 0)[p..] == Left(vol, n, u)
  {
    hide KeysFrom, Left;
    var front := LeftIsSuffix(vol, n, u);
  }

  // ----- Where a lookup ends

  ghost predicate AllBefore(vol: Volume, ks: seq<Key>, u: Name) {
    forall i :: 0 <= i < |ks| ==> FileOrder(vol, ks[i].name, u) < 0
  }

  ghost predicate NoneBefore(vol: Volume, ks: seq<Key>, u: Name) {
    forall i :: 0 <= i < |ks| ==> FileOrder(vol, ks[i].name, u) >= 0
  }

  lemma UptoBefore(vol: Volume, n: Node, i: nat, u: Name)
    requires TreeOk(vol, n) && i <= |n.entries| && (i > 0 ==> FileOrder(vol, n.entries[i - 1].key.name, u) < 0)
    ensures AllBefore(vol, Upto(n, i), u)
  {
    hide FileOrder, KeysFrom, KeysBelow;
    UptoFrom(n, i);
    var front, ks := Upto(n, i), KeysFrom(n, 0);
    forall x | 0 <= x < |front|
      ensures FileOrder(vol, front[x].name, u) < 0
    {
      assert ks[x] == front[x] && ks[|front| - 1] == front[|front| - 1] == n.entries[i - 1].key;
      if x < |front| - 1 {
        BeforeBoth(vol, ks[x].name, ks[|front| - 1].name, u);
      }
    }
  }

  lemma AfterBehind(vol: Volume, n: Node, i: nat, u: Name)
    requires TreeOk(vol, n) && i <= |n.entries| && (i < |n.entries| ==> FileOrder(vol, u, n.entries[i].key.name) <= 0)
    ensures NoneBefore(vol, After(n, i), u)
  {
    hide FileOrder, KeysFrom, KeysBelow, Upto;
    UptoFrom(n, i);
    var rest, ks := After(n, i), KeysFrom(n, 0);
    forall x | 0 <= x < |rest|
      ensures FileOrder(vol, rest[x].name, u) >= 0
    {
      var d := |ks| - |rest|;
      assert ks[d + x] == rest[x] && ks[d] == rest[0] == n.entries[i].key;
      FileOrderTotal(vol, rest[x].name, u, u);
      if x > 0 && FileOrder(vol, rest[x].name, u) < 0 {
        assert FileOrder(vol, ks[d].name, ks[d + x].name) < 0;
        BeforeBoth(vol, rest[x].name, u, ks[d].name);
        FileOrderTotal(vol, rest[x].name, ks[d].name, u);
      } else if x == 0 {
        FileOrderTotal(vol, u, rest[0].name, u);
      }
    }
  }

  /** What is below an entry ascends, and all of it is in front of the entry. */
  lemma BelowBefore(vol: Volume, n: Node, i: nat)
    requires TreeOk(vol, n) && i <= |n.entries|
    ensures Ascending(vol, KeysBelow(Child(n, i)))
    ensures i < |n.entries| ==> AllBefore(vol, KeysBelow(Child(n, i)), n.entries[i].key.name)
  {
    hide FileOrder, KeysFrom, KeysBelow, Upto;
    UptoFrom(n, i);
    var a, b, c, ks := Upto(n, i), KeysBelow(Child(n, i)), After(n, i), KeysFrom(n, 0);
    HalvesAscend(vol, a + b, c);
    HalvesAscend(vol, a, b);
    forall x | 0 <= x < |b| && i < |n.entries|
      ensures FileOrder(vol, b[x].name, n.entries[i].key.name) < 0
    {
      assert ks[|a| + x] == b[x] && ks[|a| + |b|] == c[0];
    }
  }

  lemma OrdersJoin(vol: Volume, a: seq<Key>, b: seq<Key>, u: Name)
    ensures AllBefore(vol, a, u) && AllBefore(vol, b, u) ==> AllBefore(vol, a + b, u)
    ensures NoneBefore(vol, a, u) && NoneBefore(vol, b, u) ==> NoneBefore(vol, a + b, u)
  {
    hide FileOrder;
  }

  /** Where the search in a node ends, seen from the names of its tree. */
  lemma SpotFits(vol: Volume, n: Node, u: Name)
    requires TreeOk(vol, n)
    ensures var s := InNode(vol, n.entries, u);
            && KeysFrom(n, 0) == Upto(n, s.nr) + KeysBelow(Child(n, s.nr)) + After(n, s.nr)
            && NoneBefore(vol, After(n, s.nr), u)
            && (s.met ==> AllBefore(vol, Upto(n, s.nr) + KeysBelow(Child(n, s.nr)), u))
            && (!s.met && Collatable(vol, u) ==> AllBefore(vol, Upto(n, s.nr), u))
            && (Child(n, s.nr).Some? ==> TreeOk(vol, Child(n, s.nr).value))
  {
    hide FileOrder, InNode, KeysFrom, KeysBelow, Upto, After, Collatable, AllBefore, NoneBefore;
    var s := InNode(vol, n.entries, u);
    EntriesAscend(vol, n);
    InNodeParts(vol, n.entries, u);
    UptoFrom(n, s.nr);
    BelowBefore(vol, n, s.nr);
    FileOrderTotal(vol, u, u, u);
    AfterBehind(vol, n, s.nr, u);
    if s.met {
      EntriesBefore(vol, n, s.nr);
      OrdersJoin(vol, Upto(n, s.nr), KeysBelow(Child(n, s.nr)), u);
    } else if Collatable(vol, u) {
      UptoBefore(vol, n, s.nr, u);
    }
    if Child(n, s.nr).Some? {
      BelowIs(Child(n, s.nr).value);
    }
  }

  /** A lookup never ends too far in front: nothing from there on is in front of the name. It does not end too far
      behind either if the name can be collated. */
  lemma {:induction false} EndsAt(vol: Volume, n: Node, u: Name) returns (front: seq<Key>)
    requires TreeOk(vol, n)
    ensures KeysFrom(n, 0) == front + Left(vol, n, u)
    ensures NoneBefore(vol, Left(vol, n, u), u) && (Collatable(vol, u) ==> AllBefore(vol, front, u))
    decreases n
  {
    hide FileOrder, InNode, KeysFrom, KeysBelow, Upto, After, Collatable, TreeOk, AllBefore, NoneBefore;
    var s := InNode(vol, n.entries, u);
    var c := Child(n, s.nr);
    SpotFits(vol, n, u);
    front := Upto(n, s.nr);
    if s.met {
      front := front + KeysBelow(c);
    } else if c.Some? {
      BelowIs(c.value);
      var f := EndsAt(vol, c.value, u);
      OrdersJoin(vol, front, f, u);
      OrdersJoin(vol, Left(vol, c.value, u), After(n, s.nr), u);
      assert front + (f + Left(vol, c.value, u)) + After(n, s.nr) == front + f + Left(vol, n, u);
      front := front + f;
    } else {
      NothingBelow();
    }
  }

  lemma BelowIs(n: Node)
    ensures KeysBelow(Some(n)) == KeysFrom(n, 0)
  {
  }

  lemma NothingBelow()
    ensures KeysBelow(None) == []
  {
  }

  lemma EntriesBefore(vol: Volume, n: Node, i: nat)
    requires TreeOk(vol, n) && i < |n.entries|
    ensures AllBefore(vol, Upto(n, i), n.entries[i].key.name)
  {
    hide FileOrder, KeysFrom, KeysBelow;
    EntriesAscend(vol, n);
    UptoBefore(vol, n, i, n.entries[i].key.name);
  }

  /** The first entry not in front of `name`. */
  ghost predicate LowerBound(vol: Volume, ks: seq<Key>, name: Name, p: nat) {
    && p <= |ks|
    && (forall i :: 0 <= i < p ==> FileOrder(vol, ks[i].name, name) < 0)
    && (forall i :: p <= i < |ks| ==> FileOrder(vol, ks[i].name, name) >= 0)
  }

  /** That entry or one behind it. */
  ghost predicate AtOrBehind(vol: Volume, ks: seq<Key>, name: Name, p: nat) {
    p <= |ks| && forall i :: p <= i < |ks| ==> FileOrder(vol, ks[i].name, name) >= 0
  }

  /** A lookup ends at the first entry that is not in front of the name, if the name can be collated, and never in front
      of that entry. */
  lemma LookupLands(vol: Volume, root: Node, u: Name)
    requires TreeOk(vol, root)
    ensures AtOrBehind(vol, KeysFrom(root, 0), u, Landing(vol, root, u))
    ensures Collatable(vol, u) ==> LowerBound(vol, KeysFrom(root, 0), u, Landing(vol, root, u))
  {
    hide FileOrder, KeysFrom, Left, Collatable, TreeOk;
    var front := EndsAt(vol, root, u);
    var ks, p := KeysFrom(root, 0), Landing(vol, root, u);
    assert |front| == p;
    forall i | p <= i < |ks|
      ensures FileOrder(vol, ks[i].name, u) >= 0
    {
      assert ks[i] == Left(vol, root, u)[i - p];
    }
    forall i | 0 <= i < p && Collatable(vol, u)
      ensures FileOrder(vol, ks[i].name, u) < 0
    {
      assert ks[i] == front[i];
    }
  }

  lemma OneLowerBound(vol: Volume, ks: seq<Key>, u: Name, p: nat, q: nat)
    requires LowerBound(vol, ks, u, p) && LowerBound(vol, ks, u, q)
    ensures p == q
  {
    hide FileOrder;
    assert p < |ks| ==> FileOrder(vol, ks[p].name, u) >= 0;
    assert q < |ks| ==> FileOrder(vol, ks[q].name, u) >= 0;
  }

  lemma OwnLowerBound(vol: Volume, ks: seq<Key>, q: nat)
    requires Ascending(vol, ks) && q < |ks|
    ensures LowerBound(vol, ks, ks[q].name, q)
  {
    hide FileOrder;
    forall i | q <= i < |ks|
      ensures FileOrder(vol, ks[i].name, ks[q].name) >= 0
    {
      FileOrderTotal(vol, ks[q].name, ks[i].name, ks[q].name);
      FileOrderTotal(vol, ks[i].name, ks[q].name, ks[q].name);
      assert q < i ==> FileOrder(vol, ks[q].name, ks[i].name) < 0;
    }
  }

  /** In a directory that has not changed, the name of an entry that can be collated leads to where its position
      does. */
  lemma NameIsPosition(vol: Volume, root: Node, q: nat)
    requires TreeOk(vol, root) && q < |KeysFrom(root, 0)| && Collatable(vol, KeysFrom(root, 0)[q].name)
    ensures Landing(vol, root, KeysFrom(root, 0)[q].name) == q
  {
    hide FileOrder, KeysFrom, Landing, Collatable, LowerBound, Ascending;
    var ks := KeysFrom(root, 0);
    LookupLands(vol, root, ks[q].name);
    OwnLowerBound(vol, ks, q);
    OneLowerBound(vol, ks, ks[q].name, q, Landing(vol, root, ks[q].name));
  }

  // ----- Names that cannot be collated

  /** Every name in the tree is passed over, the one looked for too. */
  lemma PastAll(vol: Volume, u: Name, i: nat)
    requires i < |u| && IllegalChar(Fold(vol.upcase, u[i]))
    ensures Landing(vol, HiddenIn(u), u) == |KeysFrom(HiddenIn(u), 0)|
  {
    hide KeysFrom, Landing, Collated;
    var root := HiddenIn(u);
    CollatesAfter(vol, u, i, [0x41]);
    CollatesAfter(vol, u, i, [0x41, 0x41]);
    var leaf := root.last.value;
    assert InNode(vol, leaf.entries, u) == Spot(false, 1);
    assert Left(vol, leaf, u) == [];
    assert InNode(vol, root.entries, u) == Spot(false, 1);
    assert Left(vol, root, u) == [];
  }

  lemma HiddenGrown(u: Name)
    ensures RootOk(HiddenIn(u))
  {
    var root := HiddenIn(u);
    LeafGrown(root.entries[0].child.value);
    LeafGrown(root.last.value);
  }

  lemma LeafGrown(n: Node)
    requires n.last.None? && |n.entries| == 1 && n.entries[0].child.None?
    ensures Grown(n)
  {
  }

  lemma CollatesAfter(vol: Volume, u: Name, i: nat, c: Name)
    requires i < |u| && IllegalChar(Fold(vol.upcase, u[i])) && c != []
    ensures Collated(vol, u, u + c) == 1 && u + c != u
  {
    var vu, vk := View(vol, false, u), View(vol, false, u + c);
    assert vu[..i] == vk[..i] && IllegalChar(vu[i]);
    assert ReachesIllegal(vu, vk);
    assert |u + c| > |u|;
  }

  ghost predicate LandsRight(vol: Volume, root: Node, u: Name) {
    TreeOk(vol, root) && RootOk(root) ==> LowerBound(vol, KeysFrom(root, 0), u, Landing(vol, root, u))
  }

  /** With an upcase table that leaves the illegal characters alone: a lookup ends where it should in every directory
      exactly if the name has no illegal character. */
  lemma LandsExactly(vol: Volume, u: Name)
    requires forall c: u16 :: IllegalChar(c) <==> IllegalChar(Fold(vol.upcase, c))
    ensures Collatable(vol, u) <==> forall root: Node :: LandsRight(vol, root, u)
  {
    hide KeysFrom, Landing, TreeOk, HiddenIn, LowerBound, RootOk;
    if Collatable(vol, u) {
      forall root: Node
        ensures LandsRight(vol, root, u)
      {
        if TreeOk(vol, root) {
          LookupLands(vol, root, u);
        }
      }
    } else {
      var i :| 0 <= i < |u| && IllegalChar(Fold(vol.upcase, u[i]));
      HiddenKeys(vol, u);
      HiddenGrown(u);
      PastAll(vol, u, i);
      NotTheEnd(vol, KeysFrom(HiddenIn(u), 0), u);
      assert !LandsRight(vol, HiddenIn(u), u);
    }
  }

  lemma NotTheEnd(vol: Volume, ks: seq<Key>, u: Name)
    requires ks != [] && ks[0].name == u
    ensures !LowerBound(vol, ks, u, |ks|)
  {
    hide FileOrder;
    FileOrderTotal(vol, u, u, u);
  }

  /** The names "*", "b" and "c" in the root. */
  function Stars(): (r: Node) {
    Node([Ent(Key([0x2a], FILENAME_POSIX, 16), None), Ent(Key([0x62], FILENAME_POSIX, 17), None),
          Ent(Key([0x63], FILENAME_POSIX, 18), None)], None)
  }

  lemma StarKeys(vol: Volume)
    requires vol.upcase == []
    ensures KeysFrom(Stars(), 0)
              == [Key([0x2a], FILENAME_POSIX, 16), Key([0x62], FILENAME_POSIX, 17), Key([0x63], FILENAME_POSIX, 18)]
    ensures TreeOk(vol, Stars()) && RootOk(Stars())
  {
    var r := Stars();
    assert KeysFrom(r, 3) == [];
    assert KeysFrom(r, 2) == [r.entries[2].key];
    assert KeysFrom(r, 1) == [r.entries[1].key, r.entries[2].key];
    assert KeysFrom(r, 0) == [r.entries[0].key, r.entries[1].key, r.entries[2].key];
    assert FoldName(vol.upcase, [0x2a]) == [0x2a] && FoldName(vol.upcase, [0x62]) == [0x62]
           && FoldName(vol.upcase, [0x63]) == [0x63];
  }

  /** A lookup of "*" looks at "b" and "c" only and ends behind all three. */
  lemma StarIsPassed(vol: Volume)
    requires vol.upcase == []
    ensures Landing(vol, Stars(), [0x2a]) == 3 == |KeysFrom(Stars(), 0)|
  {
    hide Landing, KeysFrom;
    StarKeys(vol);
    var star: Name := [0x2a];
    AfterStar(vol, [0x62]);
    AfterStar(vol, [0x63]);
    var es := Stars().entries;
    assert Probe(vol, es, star, 2, 2) == Spot(false, 3);
    assert Probe(vol, es, star, 0, 2) == Spot(false, 3);
    assert Left(vol, Stars(), star) == [];
  }

  lemma AfterStar(vol: Volume, k: Name)
    requires vol.upcase == [] && |k| == 1
    ensures Collated(vol, [0x2a], k) == 1
  {
    var star: Name := [0x2a];
    var vs, vk := View(vol, false, star), View(vol, false, k);
    assert vs[..0] == vk[..0] && IllegalChar(vs[0]);
    assert ReachesIllegal(vs, vk);
  }

  // ----- The path

  /** An index context: a node and the number of an entry in it, the end entry included. A path leads from the root
      down. */
  datatype Place = Place(node: Node, nr: nat)

  ghost predicate PlaceOk(p: Place) {
    p.nr <= |p.node.entries|
  }

  ghost predicate PathOk(path: seq<Place>)
    ensures PathOk(path) ==> path != [] && path[|path| - 1].nr <= |path[|path| - 1].node.entries|
  {
    && path != [] && (forall i :: 0 <= i < |path| ==> PlaceOk(path[i]))
    && (forall i, j :: 0 <= i && j == i + 1 && j < |path| ==> Child(path[i].node, path[i].nr) == Some(path[j].node))
  }

  function Bottom(path: seq<Place>): (r: Place)
    requires path != []
  {
    path[|path| - 1]
  }

  function Up(path: seq<Place>): (r: seq<Place>)
    requires path != []
  {
    path[..|path| - 1]
  }

  /** The names from the bottom of the path on. */
  function Rest(path: seq<Place>): (r: seq<Key>)
    requires forall i :: 0 <= i < |path| ==> path[i].nr <= |path[i].node.entries|
  {
    if path == [] then [] else After(Bottom(path).node, Bottom(path).nr) + Rest(Up(path))
  }

  /** The path ends at an entry with a name. */
  ghost predicate AtEntry(path: seq<Place>) {
    path != [] && Bottom(path).nr < |Bottom(path).node.entries|
  }

  /** And those below the bottom, too. */
  ghost function Whole(path: seq<Place>): (r: seq<Key>)
    requires PathOk(path)
  {
    KeysBelow(Child(Bottom(path).node, Bottom(path).nr)) + Rest(path)
  }

  lemma PathUp(path: seq<Place>)
    requires PathOk(path)
    ensures |path| > 1 ==> PathOk(Up(path))
    ensures Rest(path) == After(Bottom(path).node, Bottom(path).nr) + Rest(Up(path))
  {
  }

  lemma PathDown(path: seq<Place>, c: Node, i: nat)
    requires PathOk(path) && Child(Bottom(path).node, Bottom(path).nr) == Some(c) && i <= |c.entries|
    ensures PathOk(path + [Place(c, i)]) && Rest(path + [Place(c, i)]) == After(c, i) + Rest(path)
  {
    hide After;
    var q := path + [Place(c, i)];
    assert Up(q) == path;
  }

  /** Another entry of the same node. */
  lemma PathAlong(path: seq<Place>, i: nat)
    requires PathOk(path) && i <= |Bottom(path).node.entries|
    ensures var q := Up(path) + [Bottom(path).(nr := i)];
            PathOk(q) && Rest(q) == After(Bottom(path).node, i) + Rest(Up(path))
  {
    hide After;
    var q := Up(path) + [Bottom(path).(nr := i)];
    assert Up(q) == Up(path);
  }

  /** The loop that moves up to the first node that is not done: at least one level, and on while at the end entry. */
  method Climb(path: seq<Place>) returns (err: int, up: seq<Place>)
    requires PathOk(path)
    ensures err == 0 || err == ENOENT
    ensures err == 0 ==> PathOk(up) && AtEntry(up) && up[0].node == path[0].node && Rest(up) == Rest(Up(path))
    ensures err == 0 ==> Child(Bottom(up).node, Bottom(up).nr).Some? && |up| < |path| && up <= path
    ensures err == ENOENT <==> Rest(Up(path)) == []
  {
    hide After;
    up := path;
    while true
      invariant PathOk(up) && up <= path && Rest(Up(up)) == Rest(Up(path))
      decreases |up|
    {
      if |up| == 1 {
        return ENOENT, up;
      }
      PathUp(up);
      assert Child(up[|up| - 2].node, up[|up| - 2].nr) == Some(up[|up| - 1].node);
      up := Up(up);
      PathUp(up);
      AfterIs(Bottom(up).node, Bottom(up).nr);
      if Bottom(up).nr != |Bottom(up).node.entries| {
        return 0, up;
      }
    }
  }

  lemma AfterIs(n: Node, i: nat)
    requires i <= |n.entries|
    ensures After(n, i) == [] <==> i == |n.entries|
    ensures i < |n.entries| ==> After(n, i) == [n.entries[i].key] + (KeysBelow(Child(n, i + 1)) + After(n, i + 1))
  {
  }

  /** `ntfs_index_lookup`, and going up to the next name if it ends at the end of a node. */
  method IndexLookup(vol: Volume, root: Node, u: Name) returns (err: int, path: seq<Place>)
    ensures err == 0 || err == ENOENT
    ensures err == ENOENT <==> Left(vol, root, u) == []
    ensures err == 0 ==> PathOk(path) && AtEntry(path) && path[0].node == root && Rest(path) == Left(vol, root, u)
  {
    hide After, InNode, KeysFrom;
    var s := LookupInNode(vol, root.entries, u);
    path := [Place(root, s.nr)];
    assert Up(path) == [];
    while !s.met && Child(Bottom(path).node, Bottom(path).nr).Some?
      invariant PathOk(path) && path[0].node == root && s == InNode(vol, Bottom(path).node.entries, u)
                && Bottom(path).nr == s.nr
      invariant Left(vol, root, u) == Left(vol, Bottom(path).node, u) + Rest(Up(path))
      decreases Bottom(path).node
    {
      var c := Child(Bottom(path).node, Bottom(path).nr).value;
      PathUp(path);
      s := LookupInNode(vol, c.entries, u);
      PathDown(path, c, s.nr);
      path := path + [Place(c, s.nr)];
      assert Up(path) == path[..|path| - 1];
    }
    PathUp(path);
    AfterIs(Bottom(path).node, Bottom(path).nr);
    err := 0;
    if Bottom(path).nr == |Bottom(path).node.entries| {
      err, path := Climb(path);
    }
  }

  // ----- Going on

  /** All entries of a node, the end entry included, have a child, or none has. */
  ghost predicate Uniform(n: Node) {
    forall i :: 0 <= i <= |n.entries| ==> Child(n, i).Some? == n.last.Some?
  }

  /** Only the root may be a leaf without entries. */
  ghost predicate Grown(n: Node)
    decreases n
  {
    && Uniform(n) && (n.last.None? ==> n.entries != [])
    && forall i :: 0 <= i <= |n.entries| && Child(n, i).Some? ==> Grown(Child(n, i).value)
  }

  ghost predicate RootOk(n: Node) {
    Uniform(n) && forall i :: 0 <= i <= |n.entries| && Child(n, i).Some? ==> Grown(Child(n, i).value)
  }

  ghost predicate PathGrown(path: seq<Place>)
    ensures PathGrown(path) ==> PathOk(path)
  {
    PathOk(path) && RootOk(path[0].node) && forall i :: 0 < i < |path| ==> Grown(path[i].node)
  }

  lemma GrownBelow(path: seq<Place>, c: Node)
    requires PathGrown(path) && Child(Bottom(path).node, Bottom(path).nr) == Some(c)
    ensures Grown(c) && PathGrown(path + [Place(c, 0)])
  {
    hide Uniform;
  }

  lemma GrownPrefix(path: seq<Place>, up: seq<Place>)
    requires PathGrown(path) && up <= path && PathOk(up)
    ensures PathGrown(up)
  {
    hide Grown, RootOk;
  }

  lemma {:induction false} AllGrown(path: seq<Place>)
    requires PathOk(path) && RootOk(path[0].node)
    ensures PathGrown(path)
    decreases |path|
  {
    hide Grown, Uniform;
    if |path| > 1 {
      AllGrown(Up(path));
      var a, b := path[|path| - 2], path[|path| - 1];
      assert Child(a.node, a.nr) == Some(b.node);
      if |path| > 2 {
        GrownChild(a.node, a.nr);
      }
      assert Grown(b.node);
      assert forall i :: 0 < i < |path| - 1 ==> path[i] == Up(path)[i];
    }
  }

  lemma GrownChild(n: Node, i: nat)
    requires Grown(n) && i <= |n.entries| && Child(n, i).Some?
    ensures Grown(Child(n, i).value)
  {
  }

  /** The loop that goes down to the first leaf below the bottom entry. */
  method Leftmost(path: seq<Place>) returns (down: seq<Place>)
    requires PathGrown(path)
    ensures PathGrown(down) && path <= down && Rest(down) == Whole(path)
    ensures Child(Bottom(down).node, Bottom(down).nr).None?
    ensures |down| > |path| ==> AtEntry(down) && Bottom(down).nr == 0
    ensures |down| == |path| ==> down == path
  {
    hide After, KeysFrom, PathGrown, Grown, Uniform, Rest, PathOk, KeysBelow;
    down := path;
    while Child(Bottom(down).node, Bottom(down).nr).Some?
      invariant PathGrown(down) && PathOk(down) && path <= down && Whole(down) == Whole(path)
      invariant |down| > |path| ==> Bottom(down).nr == 0 && Grown(Bottom(down).node)
      decreases Bottom(down).node
    {
      var c := Child(Bottom(down).node, Bottom(down).nr).value;
      GrownBelow(down, c);
      PathDown(down, c, 0);
      FromIs(c, 0);
      BelowIs(c);
      down := down + [Place(c, 0)];
    }
    NothingBelow();
    if |down| > |path| {
      LeafHas(Bottom(down).node);
    }
  }

  lemma LeafHas(n: Node)
    requires Grown(n) && Child(n, 0).None?
    ensures n.entries != []
  {
  }

  /** Another entry of the same node. */
  lemma GrownAlong(path: seq<Place>, i: nat)
    requires PathGrown(path) && i <= |Bottom(path).node.entries|
    ensures Uniform(Bottom(path).node) && PathGrown(Up(path) + [Bottom(path).(nr := i)])
  {
    hide Uniform;
    PathAlong(path, i);
  }

  /** The entry at the bottom of the path. */
  method CurrentKey(path: seq<Place>) returns (k: Key)
    requires PathGrown(path) && AtEntry(path)
    ensures Rest(path) != [] && k == Rest(path)[0]
  {
    hide After, PathGrown;
    PathUp(path);
    AfterIs(Bottom(path).node, Bottom(path).nr);
    k := Bottom(path).node.entries[Bottom(path).nr].key;
  }

  /** `ntfs_index_lookup_next`: the names that are left are those behind the current one. */
  method LookupNext(path: seq<Place>) returns (err: int, next: seq<Place>)
    requires PathGrown(path) && AtEntry(path)
    ensures err == 0 || err == ENOENT
    ensures Rest(path) != [] && (err == ENOENT <==> Rest(path)[1..] == [])
    ensures err == 0 ==>
              PathGrown(next) && AtEntry(next) && Rest(next) == Rest(path)[1..] && next[0].node == path[0].node
  {
    hide After, KeysFrom, PathGrown, Grown, Uniform, Rest, Child, KeysBelow;
    var b := Bottom(path);
    PathUp(path);
    AfterIs(b.node, b.nr);
    GrownAlong(path, b.nr + 1);
    PathAlong(path, b.nr + 1);
    SameKind(b.node, b.nr, b.nr + 1);
    NothingBelow();
    var along := Up(path) + [b.(nr := b.nr + 1)];
    assert Rest(path)[1..] == KeysBelow(Child(b.node, b.nr + 1)) + Rest(along);
    if Child(b.node, b.nr).None? {
      if b.nr + 1 < |b.node.entries| {
        AfterIs(b.node, b.nr + 1);
        return 0, along;
      }
      AfterIs(b.node, b.nr + 1);
      err, next := Climb(path);
      if err == 0 {
        GrownPrefix(path, next);
      }
      return;
    }
    next := Leftmost(along);
    PathUp(next);
    AfterIs(Bottom(next).node, Bottom(next).nr);
    err := 0;
  }

  lemma SameKind(n: Node, i: nat, j: nat)
    requires Uniform(n) && i <= |n.entries| && j <= |n.entries|
    ensures Child(n, i).Some? == Child(n, j).Some?
  {
  }

  /** A leaf holds just its own names. */
  lemma {:induction false} LeafAfter(n: Node, i: nat)
    requires Uniform(n) && n.last.None? && i <= |n.entries|
    ensures |After(n, i)| == |n.entries| - i
    decreases |n.entries| - i
  {
    hide Uniform, KeysFrom;
    AfterIs(n, i);
    if i < |n.entries| {
      SameKind(n, i + 1, |n.entries|);
      NothingBelow();
      LeafAfter(n, i + 1);
    }
  }

  /** What is behind the first `d` names of a leaf. */
  lemma {:induction false} LeafSkip(n: Node, d: nat)
    requires Uniform(n) && n.last.None? && d <= |n.entries|
    ensures |After(n, 0)| == |n.entries| && After(n, 0)[d..] == After(n, d)
    decreases d
  {
    hide Uniform, KeysFrom, After;
    LeafAfter(n, 0);
    if d > 0 {
      LeafSkip(n, d - 1);
      AfterIs(n, d - 1);
      SameKind(n, d, |n.entries|);
      NothingBelow();
      assert After(n, 0)[d..] == After(n, 0)[d - 1..][1..];
    }
  }

  /** The first `d` names of the leaf at the bottom are skipped. */
  lemma LeafAlong(path: seq<Place>, d: nat)
    requires PathGrown(path) && Bottom(path).nr == 0 && Child(Bottom(path).node, 0).None?
    requires d <= |Bottom(path).node.entries|
    ensures var q := Up(path) + [Bottom(path).(nr := d)];
            PathGrown(q) && d <= |Rest(path)| && Rest(q) == Rest(path)[d..]
    ensures d == |Bottom(path).node.entries| ==> Rest(Up(path)) == Rest(path)[d..]
  {
    hide After, KeysFrom, Grown, Uniform;
    var n := Bottom(path).node;
    PathUp(path);
    GrownAlong(path, d);
    PathAlong(path, d);
    SameKind(n, 0, |n.entries|);
    LeafSkip(n, d);
    AfterIs(n, d);
  }

  /** On to the next entry of an inner node, with what is below it. */
  lemma InnerAlong(path: seq<Place>)
    requires PathGrown(path) && AtEntry(path) && Child(Bottom(path).node, Bottom(path).nr).Some?
    ensures var b := Bottom(path);
            var q := Up(path) + [b.(nr := b.nr + 1)];
            && PathGrown(q) && Rest(path) != [] && Whole(q) == Rest(path)[1..]
            && Child(b.node, b.nr + 1).Some?
  {
    hide After, KeysFrom, Grown, Uniform;
    var b := Bottom(path);
    PathUp(path);
    AfterIs(b.node, b.nr);
    GrownAlong(path, b.nr + 1);
    PathAlong(path, b.nr + 1);
    SameKind(b.node, b.nr, b.nr + 1);
  }

  lemma AtEntryRest(path: seq<Place>)
    requires PathOk(path) && AtEntry(path)
    ensures Rest(path) != []
  {
    hide After;
    PathUp(path);
    AfterIs(Bottom(path).node, Bottom(path).nr);
  }

  /** `ntfs_index_lookup_by_position`. */
  method LookupByPosition(root: Node, pos: nat) returns (err: int, path: seq<Place>)
    requires RootOk(root)
    ensures err == 0 || err == ENOENT
    ensures err == 0 <==> pos < |KeysFrom(root, 0)|
    ensures err == 0 ==>
              PathGrown(path) && AtEntry(path) && path[0].node == root && Rest(path) == KeysFrom(root, 0)[pos..]
  {
    hide After, KeysFrom, PathGrown, Grown, Uniform, Whole, Rest, PathOk, Child, RootOk;
    var cur: nat := 0;
    path := [Place(root, 0)];
    ghost var ks := KeysFrom(root, 0);
    RootPath(root);
    while true
      invariant PathGrown(path) && path[0].node == root && cur <= pos && cur <= |ks| && Whole(path) == ks[cur..]
      invariant Bottom(path).nr == 0 || Child(Bottom(path).node, Bottom(path).nr).Some?
      decreases pos - cur
    {
      path := Leftmost(path);
      var n := Bottom(path).node;
      LeafAlong(path, |n.entries|);
      if cur + |n.entries| > pos {
        LeafAlong(path, pos - cur);
        return 0, Up(path) + [Place(n, pos - cur)];
      }
      cur := cur + |n.entries|;
      ghost var was := path;
      err, path := Climb(path);
      if err != 0 {
        return;
      }
      GrownPrefix(was, path);
      AtEntryRest(path);
      if cur == pos {
        return;
      }
      InnerAlong(path);
      var b := Bottom(path);
      path := Up(path) + [b.(nr := b.nr + 1)];
      cur := cur + 1;
    }
  }

  lemma RootPath(root: Node)
    requires RootOk(root)
    ensures PathGrown([Place(root, 0)]) && Whole([Place(root, 0)]) == KeysFrom(root, 0)[0..]
  {
    hide After, KeysFrom, Uniform, Grown;
    var path := [Place(root, 0)];
    assert Up(path) == [];
    FromIs(root, 0);
    PathUp(path);
  }
}
