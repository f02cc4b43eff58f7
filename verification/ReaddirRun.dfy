/** Enumerating a directory in several calls while it changes (`ntfs_readdir`, kext/ntfs_dir.c): what each call delivers
    and what a whole run of calls delivers. */
module ReaddirRun {
  import opened Collate
  import opened DirTree
  import opened IndexTree

  const FILE_FIRST_USER := 16

  /** The entries that are handed out: not the short name of a file that has a long one, not a system file, and with a
      name that can be represented. */
  predicate Visible(representable: Name -> bool, k: Key) {
    k.ftype != FILENAME_DOS && k.mref % 0x1_0000_0000_0000 >= FILE_FIRST_USER && representable(k.name)
  }

  ghost function VisibleOf(representable: Name -> bool, ks: seq<Key>): (r: seq<Key>) {
    if ks == [] then [] else (if Visible(representable, ks[0]) then [ks[0]] else []) + VisibleOf(representable, ks[1..])
  }

  lemma {:induction false} VisibleAppend(representable: Name -> bool, a: seq<Key>, b: seq<Key>)
    ensures VisibleOf(representable, a + b) == VisibleOf(representable, a) + VisibleOf(representable, b)
  {
    if a == [] {
      assert a + b == b;
    } else {
      assert (a + b)[1..] == a[1..] + b;
      VisibleAppend(representable, a[1..], b);
    }
  }

  lemma {:induction false} VisibleMembers(representable: Name -> bool, ks: seq<Key>)
    ensures forall k :: k in VisibleOf(representable, ks) <==> k in ks && Visible(representable, k)
  {
    if ks != [] {
      VisibleMembers(representable, ks[1..]);
      assert ks == [ks[0]] + ks[1..];
    }
  }

  lemma {:induction false} VisibleAscends(vol: Volume, representable: Name -> bool, ks: seq<Key>)
    requires Ascending(vol, ks)
    ensures Ascending(vol, VisibleOf(representable, ks))
  {
    hide FileOrder;
    if ks != [] {
      HalvesAscend(vol, [ks[0]], ks[1..]);
      assert [ks[0]] + ks[1..] == ks;
      VisibleAscends(vol, representable, ks[1..]);
      VisibleMembers(representable, ks[1..]);
      var rest := VisibleOf(representable, ks[1..]);
      forall j | 0 <= j < |rest|
        ensures FileOrder(vol, ks[0].name, rest[j].name) < 0
      {
        assert rest[j] in ks[1..];
        var i :| 0 <= i < |ks[1..]| && ks[1..][i] == rest[j];
        assert ks[i + 1] == rest[j];
      }
    }
  }

  // ----- One call

  /** Where a call starts: at the first entry, or at a name. */
  datatype Start = Begin | At(name: Name)

  /** How it ends: the directory is exhausted, the entry `name` did not fit any more, or there was no room for any. */
  datatype Next = Eof | More(name: Name) | Again

  ghost predicate StartsAt(vol: Volume, root: Node, start: Start, p: nat) {
    match start
    case Begin => p == 0
    case At(name) => p == Landing(vol, root, name)
  }

  /** The call handed out the visible entries from `p` up to `q`. */
  ghost predicate Handed(representable: Name -> bool, ks: seq<Key>, p: nat, q: nat, out: seq<Key>, next: Next) {
    && p <= q <= |ks| && out == VisibleOf(representable, ks[p..q])
    && match next
       case Eof => q == |ks|
       case More(name) => q < |ks| && ks[q].name == name && Visible(representable, ks[q])
       case Again => p == q
  }

  ghost predicate Delivers(vol: Volume, representable: Name -> bool, root: Node, start: Start, out: seq<Key>,
                           next: Next) {
    exists p: nat, q: nat ::
      StartsAt(vol, root, start, p) && Handed(representable, KeysFrom(root, 0), p, q, out, next)
  }

  // ----- A run of calls

  /** A call on a directory, with the names in it. */
  datatype Call = Call(root: Node, start: Start, out: seq<Key>, next: Next) {
    ghost function Keys(): (r: seq<Key>) {
      KeysFrom(root, 0)
    }
  }

  /** Every call is made on the directory as it is then, and starts where the one before it ended. */
  ghost predicate Run(vol: Volume, representable: Name -> bool, cs: seq<Call>) {
    && cs != [] && cs[0].start == Begin
    && (forall i :: 0 <= i < |cs| ==> CallOk(vol, representable, cs[i]))
    && (forall i, j :: 0 <= i && j == i + 1 && j < |cs| ==> Continues(cs[i], cs[j]))
  }

  ghost predicate CallOk(vol: Volume, representable: Name -> bool, c: Call) {
    TreeOk(vol, c.root) && Delivers(vol, representable, c.root, c.start, c.out, c.next)
  }

  ghost predicate Continues(a: Call, b: Call) {
    match a.next
    case Eof => false
    case More(name) => b.start == At(name)
    case Again => b.start == a.start
  }

  ghost function Delivered(cs: seq<Call>): (r: seq<Key>) {
    if cs == [] then [] else Delivered(cs[..|cs| - 1]) + cs[|cs| - 1].out
  }

  /** The name is in front of where the run stands. */
  ghost predicate Before(vol: Volume, u: Name, cs: seq<Call>)
    requires cs != []
  {
    match Stands(cs)
    case Begin => false
    case At(name) => FileOrder(vol, u, name) < 0
  }

  /** Where the next call starts. */
  ghost function Stands(cs: seq<Call>): (r: Start)
    requires cs != []
  {
    var c := cs[|cs| - 1];
    match c.next
    case Eof => c.start
    case More(name) => At(name)
    case Again => c.start
  }

  /** The name is visible in every directory of the run. */
  ghost predicate Persistent(representable: Name -> bool, cs: seq<Call>, u: Name) {
    forall i :: 0 <= i < |cs| ==> VisibleIn(representable, cs[i].Keys(), u)
  }

  ghost predicate VisibleIn(representable: Name -> bool, ks: seq<Key>, u: Name) {
    exists j :: 0 <= j < |ks| && ks[j].name == u && Visible(representable, ks[j])
  }

  /** The name is in front of every name gone on with that cannot be collated. */
  ghost predicate Unhidden(vol: Volume, cs: seq<Call>, u: Name) {
    forall i :: 0 <= i < |cs| && cs[i].start.At? && !Collatable(vol, cs[i].start.name) ==>
      FileOrder(vol, u, cs[i].start.name) < 0
  }

  ghost predicate HasName(ks: seq<Key>, u: Name) {
    exists k :: k in ks && k.name == u
  }

  /** A name that the call has to hand out if it is visible. */
  ghost predicate Due(vol: Volume, c: Call, u: Name) {
    && (c.start.At? ==> FileOrder(vol, u, c.start.name) >= 0)
    && (c.next.More? ==> FileOrder(vol, u, c.next.name) < 0) && !c.next.Again?
  }

  /** A call hands out visible entries in order, none in front of where it starts and all in front of where it stops. */
  lemma CallHands(vol: Volume, representable: Name -> bool, c: Call)
    requires TreeOk(vol, c.root) && Delivers(vol, representable, c.root, c.start, c.out, c.next)
    ensures Ascending(vol, c.out)
    ensures forall k :: k in c.out ==> k in c.Keys() && Visible(representable, k)
    ensures c.start.At? ==> forall k :: k in c.out ==> FileOrder(vol, k.name, c.start.name) >= 0
    ensures c.next.More? ==> forall k :: k in c.out ==> FileOrder(vol, k.name, c.next.name) < 0
    ensures c.next.Again? ==> c.out == []
    ensures c.next.More? && c.start.At? ==> FileOrder(vol, c.start.name, c.next.name) <= 0
  {
    hide FileOrder, Visible, VisibleOf, KeysFrom, Landing;
    var p: nat, q: nat :| StartsAt(vol, c.root, c.start, p)
      && Handed(representable, KeysFrom(c.root, 0), p, q, c.out, c.next);
    var ks, part := c.Keys(), c.Keys()[p..q];
    if c.start.At? {
      LookupLands(vol, c.root, c.start.name);
    }
    PartAscends(vol, ks, p, q);
    VisibleAscends(vol, representable, part);
    VisibleMembers(representable, part);
    NothingVisible(representable);
    forall k | k in c.out
      ensures k in ks
      ensures c.start.At? ==> FileOrder(vol, k.name, c.start.name) >= 0
      ensures c.next.More? ==> FileOrder(vol, k.name, c.next.name) < 0
    {
      var i :| 0 <= i < |part| && part[i] == k;
      assert ks[p + i] == k;
    }
    if c.next.More? && c.start.At? {
      FileOrderTotal(vol, c.start.name, c.next.name, c.next.name);
    }
  }

  lemma NothingVisible(representable: Name -> bool)
    ensures VisibleOf(representable, []) == []
  {
  }

  /** And it leaves out no visible one in between, if the name it starts at can be collated. */
  lemma CallCovers(vol: Volume, representable: Name -> bool, c: Call, u: Name)
    requires TreeOk(vol, c.root) && Delivers(vol, representable, c.root, c.start, c.out, c.next)
    requires VisibleIn(representable, c.Keys(), u) && Due(vol, c, u)
    requires c.start.At? ==> Collatable(vol, c.start.name)
    ensures HasName(c.out, u)
  {
    hide FileOrder, Visible, VisibleOf, KeysFrom, Landing, Collatable;
    var p: nat, q: nat :| StartsAt(vol, c.root, c.start, p)
      && Handed(representable, KeysFrom(c.root, 0), p, q, c.out, c.next);
    var ks, part := c.Keys(), c.Keys()[p..q];
    if c.start.At? {
      LookupLands(vol, c.root, c.start.name);
    }
    VisibleMembers(representable, part);
    var j :| 0 <= j < |ks| && ks[j].name == u && Visible(representable, ks[j]);
    if c.next.More? && j >= q {
      NotBehind(vol, ks, q, j);
    }
    assert part[j - p] == ks[j];
  }

  lemma NotBehind(vol: Volume, ks: seq<Key>, q: nat, j: nat)
    requires Ascending(vol, ks) && q <= j < |ks|
    ensures FileOrder(vol, ks[j].name, ks[q].name) >= 0
  {
    hide FileOrder;
    FileOrderTotal(vol, ks[q].name, ks[j].name, ks[q].name);
    FileOrderTotal(vol, ks[j].name, ks[q].name, ks[q].name);
    assert q < j ==> FileOrder(vol, ks[q].name, ks[j].name) < 0;
  }

  lemma PartAscends(vol: Volume, ks: seq<Key>, p: nat, q: nat)
    requires Ascending(vol, ks) && p <= q <= |ks|
    ensures Ascending(vol, ks[p..q])
  {
    hide FileOrder;
  }

  // ----- What the whole run delivers

  /** Up to here: what was delivered ascends and is in front of where the run stands, and what persists in front of
      that, and is not hidden, has been delivered. */
  ghost predicate SoFar(vol: Volume, representable: Name -> bool, cs: seq<Call>)
    requires cs != []
  {
    && Ascending(vol, Delivered(cs))
    && (!cs[|cs| - 1].next.Eof? ==> forall k :: k in Delivered(cs) ==> Before(vol, k.name, cs))
    && (forall u :: Persistent(representable, cs, u) && Unhidden(vol, cs, u)
                    && (cs[|cs| - 1].next.Eof? || Before(vol, u, cs)) ==>
          HasName(Delivered(cs), u))
  }

  lemma {:induction false} RunSoFar(vol: Volume, representable: Name -> bool, cs: seq<Call>)
    requires Run(vol, representable, cs)
    ensures SoFar(vol, representable, cs)
    decreases |cs|
  {
    hide FileOrder, Delivers, SoFar, VisibleIn;
    var c := cs[|cs| - 1];
    if |cs| == 1 {
      FirstCall(vol, representable, cs);
    } else {
      var front := cs[..|cs| - 1];
      assert forall i :: 0 <= i < |front| ==> front[i] == cs[i];
      RunSoFar(vol, representable, front);
      NextCall(vol, representable, cs);
    }
  }

  lemma FirstCall(vol: Volume, representable: Name -> bool, cs: seq<Call>)
    requires Run(vol, representable, cs) && |cs| == 1
    ensures SoFar(vol, representable, cs)
  {
    hide FileOrder, Delivers, VisibleIn;
    var c := cs[0];
    CallHands(vol, representable, c);
    assert cs[..0] == [];
    assert Delivered(cs) == [] + c.out == c.out;
    forall u | Persistent(representable, cs, u) && Unhidden(vol, cs, u) && (c.next.Eof? || Before(vol, u, cs))
      ensures HasName(Delivered(cs), u)
    {
      assert VisibleIn(representable, cs[0].Keys(), u);
      CallCovers(vol, representable, c, u);
    }
  }

  /** The last call goes on where the calls in front of it stand. */
  lemma LastGoesOn(vol: Volume, representable: Name -> bool, cs: seq<Call>)
    requires Run(vol, representable, cs) && |cs| > 1
    ensures var front, c := cs[..|cs| - 1], cs[|cs| - 1];
            && !front[|front| - 1].next.Eof? && c.start == Stands(front) && TreeOk(vol, c.root)
            && Delivers(vol, representable, c.root, c.start, c.out, c.next)
  {
    hide FileOrder, Delivers, Ascending, Delivered;
    assert Continues(cs[|cs| - 2], cs[|cs| - 1]);
  }

  /** What was delivered is in front of where the calls stand. */
  lemma InFront(vol: Volume, representable: Name -> bool, front: seq<Call>, k: Key)
    requires front != [] && SoFar(vol, representable, front) && !front[|front| - 1].next.Eof? && k in Delivered(front)
    ensures Stands(front).At? && FileOrder(vol, k.name, Stands(front).name) < 0
  {
    hide FileOrder, Delivered, Persistent, Ascending;
    assert Before(vol, k.name, front);
  }

  lemma NextAscends(vol: Volume, representable: Name -> bool, cs: seq<Call>)
    requires Run(vol, representable, cs) && |cs| > 1 && SoFar(vol, representable, cs[..|cs| - 1])
    ensures Ascending(vol, Delivered(cs))
  {
    hide FileOrder, Delivers, Delivered, Run, Ascending, Persistent, Before, Stands;
    var front, c := cs[..|cs| - 1], cs[|cs| - 1];
    LastGoesOn(vol, representable, cs);
    CallHands(vol, representable, c);
    DeliveredLast(cs);
    var d := Delivered(front);
    forall k | k in d
      ensures c.start.At? && FileOrder(vol, k.name, c.start.name) < 0
    {
      InFront(vol, representable, front, k);
    }
    assert c.start.Begin? ==> d == [] by {
      assert |d| > 0 ==> d[0] in d;
    }
    Joined(vol, d, c.out, c.start);
  }

  lemma NextBefore(vol: Volume, representable: Name -> bool, cs: seq<Call>, k: Key)
    requires Run(vol, representable, cs) && |cs| > 1 && SoFar(vol, representable, cs[..|cs| - 1])
    requires !cs[|cs| - 1].next.Eof? && k in Delivered(cs)
    ensures Before(vol, k.name, cs)
  {
    hide FileOrder, Delivers, Delivered, Run, Ascending, Persistent, SoFar;
    var front, c := cs[..|cs| - 1], cs[|cs| - 1];
    LastGoesOn(vol, representable, cs);
    CallHands(vol, representable, c);
    DeliveredLast(cs);
    if k in Delivered(front) {
      InFront(vol, representable, front, k);
      if c.next.More? {
        BeforeBoth(vol, k.name, c.start.name, c.next.name);
      }
    }
  }

  lemma NextCovers(vol: Volume, representable: Name -> bool, cs: seq<Call>, u: Name)
    requires Run(vol, representable, cs) && |cs| > 1 && SoFar(vol, representable, cs[..|cs| - 1])
    requires Persistent(representable, cs, u) && Unhidden(vol, cs, u) && (cs[|cs| - 1].next.Eof? || Before(vol, u, cs))
    ensures HasName(Delivered(cs), u)
  {
    hide FileOrder, Delivers, Delivered, Run, Ascending, VisibleIn, Collatable;
    var front, c := cs[..|cs| - 1], cs[|cs| - 1];
    LastGoesOn(vol, representable, cs);
    CallHands(vol, representable, c);
    DeliveredLast(cs);
    assert VisibleIn(representable, cs[|cs| - 1].Keys(), u);
    assert Persistent(representable, front, u) && Unhidden(vol, front, u);
    if c.start.At? && FileOrder(vol, u, c.start.name) < 0 {
      assert Before(vol, u, front);
      assert HasName(Delivered(front), u);
    } else if !c.next.Again? {
      CallCovers(vol, representable, c, u);
    }
  }

  lemma NextCall(vol: Volume, representable: Name -> bool, cs: seq<Call>)
    requires Run(vol, representable, cs) && |cs| > 1 && SoFar(vol, representable, cs[..|cs| - 1])
    ensures SoFar(vol, representable, cs)
  {
    hide FileOrder, Delivered, Run, Ascending, Persistent, Before;
    NextAscends(vol, representable, cs);
    forall k | k in Delivered(cs) && !cs[|cs| - 1].next.Eof?
      ensures Before(vol, k.name, cs)
    {
      NextBefore(vol, representable, cs, k);
    }
    forall u | Persistent(representable, cs, u) && Unhidden(vol, cs, u)
      && (cs[|cs| - 1].next.Eof? || Before(vol, u, cs))
      ensures HasName(Delivered(cs), u)
    {
      NextCovers(vol, representable, cs, u);
    }
  }

  lemma DeliveredLast(cs: seq<Call>)
    requires cs != []
    ensures Delivered(cs) == Delivered(cs[..|cs| - 1]) + cs[|cs| - 1].out
  {
  }

  lemma Joined(vol: Volume, d: seq<Key>, out: seq<Key>, start: Start)
    requires Ascending(vol, d) && Ascending(vol, out)
    requires start.Begin? ==> d == []
    requires start.At? ==> (forall k :: k in d ==> FileOrder(vol, k.name, start.name) < 0) && forall k :: k in out ==>
             FileOrder(vol, k.name, start.name) >= 0
    ensures Ascending(vol, d + out)
  {
    hide FileOrder;
    forall i, j | 0 <= i < |d| && 0 <= j < |out|
      ensures FileOrder(vol, d[i].name, out[j].name) < 0
    {
      FileOrderTotal(vol, d[i].name, start.name, out[j].name);
      FileOrderTotal(vol, out[j].name, start.name, d[i].name);
      FileOrderTotal(vol, start.name, out[j].name, d[i].name);
      FileOrderTotal(vol, out[j].name, d[i].name, start.name);
      FileOrderTotal(vol, d[i].name, out[j].name, start.name);
    }
  }

  /** Over a whole run the names strictly ascend, whatever happens to the directory between the calls; and when the end
      is reached every name that was visible all the time, and is in front of all names gone on with that cannot be
      collated, has been delivered, exactly once. */
  lemma RunDelivers(vol: Volume, representable: Name -> bool, cs: seq<Call>)
    requires Run(vol, representable, cs)
    ensures Ascending(vol, Delivered(cs))
    ensures cs[|cs| - 1].next.Eof? ==>
              forall u :: Persistent(representable, cs, u) && Unhidden(vol, cs, u) ==>
                exists i :: 0 <= i < |Delivered(cs)| && OnlyAt(Delivered(cs), u, i)
  {
    hide FileOrder, Delivered;
    RunSoFar(vol, representable, cs);
    var d := Delivered(cs);
    if cs[|cs| - 1].next.Eof? {
      forall u | Persistent(representable, cs, u) && Unhidden(vol, cs, u)
        ensures exists i :: 0 <= i < |d| && OnlyAt(d, u, i)
      {
        var k :| k in d && k.name == u;
        var i :| 0 <= i < |d| && d[i] == k;
        OnlyOne(vol, d, i);
      }
    }
  }

  /** The name occurs at `i` and nowhere else. */
  ghost predicate OnlyAt(ks: seq<Key>, u: Name, i: nat) {
    i < |ks| && forall j :: 0 <= j < |ks| ==> (ks[j].name == u <==> j == i)
  }

  lemma OnlyOne(vol: Volume, ks: seq<Key>, i: nat)
    requires Ascending(vol, ks) && i < |ks|
    ensures OnlyAt(ks, ks[i].name, i)
  {
    hide FileOrder;
    forall j | 0 <= j < |ks| && ks[j].name == ks[i].name
      ensures j == i
    {
      FileOrderTotal(vol, ks[i].name, ks[j].name, ks[i].name);
      FileOrderTotal(vol, ks[j].name, ks[i].name, ks[i].name);
    }
  }

  /** All names in the directory can be collated. */
  ghost predicate AllCollatable(vol: Volume, ks: seq<Key>) {
    forall i :: 0 <= i < |ks| ==> Collatable(vol, ks[i].name)
  }

  /** If all names in the directory can be collated all the time, nothing is hidden: every name that was visible all the
      time is delivered exactly once. */
  lemma RunDeliversAll(vol: Volume, representable: Name -> bool, cs: seq<Call>)
    requires Run(vol, representable, cs) && cs[|cs| - 1].next.Eof?
    requires forall i :: 0 <= i < |cs| ==> AllCollatable(vol, cs[i].Keys())
    ensures forall u :: Persistent(representable, cs, u) ==>
              exists i :: 0 <= i < |Delivered(cs)| && OnlyAt(Delivered(cs), u, i)
  {
    hide FileOrder, Delivered, Collatable, OnlyAt, Persistent;
    RunDelivers(vol, representable, cs);
    forall i | 0 <= i < |cs| && cs[i].start.At?
      ensures Collatable(vol, cs[i].start.name)
    {
      StartsCollatable(vol, representable, cs, i);
    }
  }

  lemma {:induction false} StartsCollatable(vol: Volume, representable: Name -> bool, cs: seq<Call>, i: nat)
    requires Run(vol, representable, cs) && i < |cs| && cs[i].start.At?
    requires forall j :: 0 <= j < |cs| ==> AllCollatable(vol, cs[j].Keys())
    ensures Collatable(vol, cs[i].start.name)
    decreases i
  {
    hide Collatable, KeysFrom, StartsAt, VisibleOf, Visible;
    if i > 0 {
      assert Continues(cs[i - 1], cs[i]);
      if cs[i - 1].next.Again? {
        StartsCollatable(vol, representable, cs, i - 1);
      } else {
        MoreIsName(vol, representable, cs[i - 1]);
      }
    }
  }

  lemma MoreIsName(vol: Volume, representable: Name -> bool, c: Call)
    requires CallOk(vol, representable, c) && c.next.More? && AllCollatable(vol, c.Keys())
    ensures Collatable(vol, c.next.name)
  {
    hide Collatable, KeysFrom, StartsAt, VisibleOf, Visible, TreeOk;
    var p: nat, q: nat :| StartsAt(vol, c.root, c.start, p)
      && Handed(representable, KeysFrom(c.root, 0), p, q, c.out, c.next);
    assert c.Keys()[q].name == c.next.name;
  }

  // ----- Names that are lost

  ghost predicate Covers(vol: Volume, representable: Name -> bool, c: Call) {
    forall v :: VisibleIn(representable, c.Keys(), v) && Due(vol, c, v) ==> HasName(c.out, v)
  }

  /** With an upcase table that leaves the illegal characters alone: calls that start at a visible name leave nothing
      out, whatever the directory, exactly if the name has no illegal character. */
  lemma CoversExactly(vol: Volume, representable: Name -> bool, u: Name)
    requires representable(u) && forall c: u16 :: IllegalChar(c) <==> IllegalChar(Fold(vol.upcase, c))
    ensures Collatable(vol, u) <==>
            forall c: Call :: c.start == At(u) && CallOk(vol, representable, c) ==> Covers(vol, representable, c)
  {
    hide FileOrder, Landing, KeysFrom, TreeOk, Delivers, HiddenIn, VisibleIn, Due, Visible;
    if Collatable(vol, u) {
      forall c: Call, v: Name | c.start == At(u) && CallOk(vol, representable, c)
        && VisibleIn(representable, c.Keys(), v) && Due(vol, c, v)
        ensures HasName(c.out, v)
      {
        CallCovers(vol, representable, c, v);
      }
    } else {
      var i :| 0 <= i < |u| && IllegalChar(Fold(vol.upcase, u[i]));
      NothingCovered(vol, representable, u, i);
    }
  }

  lemma NothingCovered(vol: Volume, representable: Name -> bool, u: Name, i: nat)
    requires i < |u| && IllegalChar(Fold(vol.upcase, u[i])) && representable(u)
    ensures var c := Call(HiddenIn(u), At(u), [], Eof);
            CallOk(vol, representable, c) && !Covers(vol, representable, c)
  {
    hide FileOrder, Landing, KeysFrom, HiddenIn;
    var root := HiddenIn(u);
    var c, ks := Call(root, At(u), [], Eof), KeysFrom(root, 0);
    HiddenKeys(vol, u);
    PastAll(vol, u, i);
    NothingVisible(representable);
    assert ks[|ks|..|ks|] == [];
    assert StartsAt(vol, root, At(u), |ks|) && Handed(representable, ks, |ks|, |ks|, [], Eof);
    FileOrderTotal(vol, u, u, u);
    assert ks[0].name == u && VisibleIn(representable, c.Keys(), u) && Due(vol, c, u);
    assert !HasName(c.out, u);
  }

  /** For every name with an illegal character there is a directory that holds three names, all of them visible, of
      which an enumeration delivers none, although nothing changes: the first call has no room for any, the second goes
      on at the name. */
  lemma NamesAreLost(vol: Volume, representable: Name -> bool, u: Name, i: nat)
    requires i < |u| && IllegalChar(Fold(vol.upcase, u[i])) && forall n: Name :: representable(n)
    ensures var root := HiddenIn(u);
            var cs := [Call(root, Begin, [], More(u)), Call(root, At(u), [], Eof)];
            && Run(vol, representable, cs) && Delivered(cs) == []
            && |KeysFrom(root, 0)| == 3 && forall k :: k in KeysFrom(root, 0) ==> Persistent(representable, cs, k.name)
  {
    hide FileOrder, Landing, KeysFrom, HiddenIn, Run, Delivered, Persistent, TreeOk;
    HiddenKeys(vol, u);
    PastAll(vol, u, i);
    EmptyRun(vol, representable, HiddenIn(u), u);
  }

  /** The same for "*", "b" and "c". */
  lemma StarsAreLost(vol: Volume, representable: Name -> bool)
    requires vol.upcase == [] && forall n: Name :: representable(n)
    ensures var root, star := Stars(), [0x2a];
            var cs := [Call(root, Begin, [], More(star)), Call(root, At(star), [], Eof)];
            && Run(vol, representable, cs) && Delivered(cs) == []
            && |KeysFrom(root, 0)| == 3 && forall k :: k in KeysFrom(root, 0) ==> Persistent(representable, cs, k.name)
  {
    hide FileOrder, Landing, KeysFrom, Stars, Run, Delivered, Persistent, TreeOk;
    StarKeys(vol);
    StarIsPassed(vol);
    EmptyRun(vol, representable, Stars(), [0x2a]);
  }

  lemma EmptyRun(vol: Volume, representable: Name -> bool, root: Node, u: Name)
    requires TreeOk(vol, root) && Landing(vol, root, u) == |KeysFrom(root, 0)| > 0
    requires KeysFrom(root, 0)[0].name == u && forall k :: k in KeysFrom(root, 0) ==> Visible(representable, k)
    ensures var cs := [Call(root, Begin, [], More(u)), Call(root, At(u), [], Eof)];
            && Run(vol, representable, cs) && Delivered(cs) == []
            && forall k :: k in KeysFrom(root, 0) ==> Persistent(representable, cs, k.name)
  {
    hide FileOrder, Landing, KeysFrom, TreeOk, Visible;
    var a, b := Call(root, Begin, [], More(u)), Call(root, At(u), [], Eof);
    var cs, ks := [a, b], KeysFrom(root, 0);
    NothingVisible(representable);
    assert ks[0..0] == [] && ks[|ks|..|ks|] == [];
    assert StartsAt(vol, root, Begin, 0) && Handed(representable, ks, 0, 0, [], More(u));
    assert StartsAt(vol, root, At(u), |ks|) && Handed(representable, ks, |ks|, |ks|, [], Eof);
    assert cs[..1] == [a] && [a][..0] == [];
    assert Delivered([a]) == Delivered([]) + a.out == [];
    forall k | k in ks
      ensures Persistent(representable, cs, k.name)
    {
      assert VisibleIn(representable, ks, k.name);
    }
  }
}
