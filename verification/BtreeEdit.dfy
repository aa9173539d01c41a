/** Adding and removing keys and levels of a B+ tree, and how full its nodes are (src/btree/btree.c). */
module BtreeEdits {
  import opened Orders
  import opened BtreeShape
  import opened BtreeCuts
  import opened BtreeJoins

  // ---------------------------------------------------------------- keys of a leaf

  /** A new key and its record, at place x of a leaf. */
  ghost function AddKey<N, R>(t: Shape<N, R>, n: N, x: nat, k: int, rec: R): Shape<N, R>
    requires n in t.nodes && x <= |t.nodes[n].keys| && x <= |t.nodes[n].recs|
  {
    var i := t.nodes[n];
    Shape(t.root,
          t.nodes[n := i.(keys := i.keys[..x] + [k] + i.keys[x..], recs := i.recs[..x] + [rec] + i.recs[x..])],
          t.m[k := rec], t.home[k := n])
  }

  /** A leaf without its key at place x. */
  ghost function RemoveKey<N, R>(t: Shape<N, R>, n: N, x: nat): Shape<N, R>
    requires n in t.nodes && x < |t.nodes[n].keys| && x < |t.nodes[n].recs|
  {
    var i := t.nodes[n];
    Shape(t.root,
          t.nodes[n := i.(keys := i.keys[..x] + i.keys[x + 1..], recs := i.recs[..x] + i.recs[x + 1..])],
          t.m - {i.keys[x]}, t.home)
  }

  /** Changing a leaf's keys and records leaves every other relation between nodes as it is. */
  lemma SameLinks<N, R>(t: Shape<N, R>, n: N, i': Info<N, R>, x: N)
    requires Formed(t) && n in t.nodes && x in t.nodes && t.nodes[n].height == 0
    requires i'.(keys := t.nodes[n].keys, recs := t.nodes[n].recs) == t.nodes[n]
    ensures var nodes' := t.nodes[n := i'];
            t.root in nodes' && KidsOk(nodes', x) && ParentOk(t.root, nodes', x) && NextOk(nodes', x)
  {
    hide LocalOk, KidsOk, HomesOk, Formed;
    FormedNode(t, x);
    FormedNode(t, n);
    LocalOf(t.nodes[n]);
    var nodes' := t.nodes[n := i'];
    KidsBound(t, x);
    forall y: nat | y < |nodes'[x].kids| ensures KidOk(nodes', x, y) {
      KidsOwned(t, n, x, y);
    }
    KidsIntro(nodes', x);
  }

  ghost predicate CanAdd<N, R>(t: Shape<N, R>, n: N, x: nat, k: int, rec: R) {
    && Formed(t) && n in t.nodes && t.nodes[n].height == 0 && Covers(t.nodes[n], k) && k !in t.m
    && x <= |t.nodes[n].keys| == |t.nodes[n].recs|
    && (forall y | 0 <= y < x :: t.nodes[n].keys[y] < k)
    && (forall y | x <= y < |t.nodes[n].keys| :: k < t.nodes[n].keys[y])
    && (forall k' | k' in t.m :: t.m[k'] != rec)
  }

  lemma AddKeyFormed<N, R>(t: Shape<N, R>, n: N, x: nat, k: int, rec: R)
    requires CanAdd(t, n, x, k, rec)
    ensures Formed(AddKey(t, n, x, k, rec))
  {
    hide KidsOk, ParentOk, NextOk, HomesOk, Formed, LocalOk;
    var i, t' := t.nodes[n], AddKey(t, n, x, k, rec);
    FormedNode(t, n);
    forall y | y in t'.nodes
      ensures LocalOk(t'.nodes[y]) && KidsOk(t'.nodes, y) && ParentOk(t'.root, t'.nodes, y) && NextOk(t'.nodes, y)
    {
      FormedNode(t, y);
      SameLinks(t, n, t'.nodes[n], y);
      AddedLocal(i, x, k, rec);
    }
    AddKeyHomes(t, n, x, k, rec);
    Form(t');
  }

  lemma AddedLocal<N, R>(i: Info<N, R>, x: nat, k: int, rec: R)
    requires LocalOk(i) && i.height == 0 && x <= |i.keys| == |i.recs| && Covers(i, k)
    requires forall y | 0 <= y < x :: i.keys[y] < k
    requires forall y | x <= y < |i.keys| :: k < i.keys[y]
    ensures LocalOk(i.(keys := i.keys[..x] + [k] + i.keys[x..], recs := i.recs[..x] + [rec] + i.recs[x..]))
  {
    hide Increasing;
    LocalOf(i);
    IncreasingSlice(i.keys, 0, x);
    IncreasingSlice(i.keys, x, |i.keys|);
    assert i.keys[..x] == i.keys[0..x] && i.keys[x..] == i.keys[x..|i.keys|];
    SingleIncreasing(k);
    ConcatIncreasing(i.keys[..x], [k]);
    ConcatIncreasing(i.keys[..x] + [k], i.keys[x..]);
  }

  /** Every key is in its leaf after the addition. */
  lemma AddKeyHome<N, R>(t: Shape<N, R>, n: N, x: nat, k: int, rec: R, k': int)
    requires CanAdd(t, n, x, k, rec) && k' in AddKey(t, n, x, k, rec).m
    ensures var t' := AddKey(t, n, x, k, rec);
            k' in t'.home && t'.home[k'] in t'.nodes && t'.nodes[t'.home[k']].height == 0 &&
              k' in t'.nodes[t'.home[k']].keys
  {
    hide Formed, HomesOk, LocalOk;
    var i, t' := t.nodes[n], AddKey(t, n, x, k, rec);
    FormedHomes(t);
    assert t'.nodes[n].keys[x] == k;
    if k' != k {
      HomeOf(t, k');
      if t.home[k'] == n {
        var y :| 0 <= y < |i.keys| && i.keys[y] == k';
        assert t'.nodes[n].keys[if y < x then y else y + 1] == k';
      }
    }
  }

  lemma AddKeyHomes<N, R>(t: Shape<N, R>, n: N, x: nat, k: int, rec: R)
    requires CanAdd(t, n, x, k, rec)
    ensures HomesOk(AddKey(t, n, x, k, rec))
  {
    hide Formed, HomesOk, LocalOk;
    var i, t' := t.nodes[n], AddKey(t, n, x, k, rec);
    FormedHomes(t);
    assert t'.nodes[n].keys[x] == k;
    forall k' | k' in t'.m
      ensures k' in t'.home && t'.home[k'] in t'.nodes && t'.nodes[t'.home[k']].height == 0 &&
              k' in t'.nodes[t'.home[k']].keys
    {
      AddKeyHome(t, n, x, k, rec, k');
    }
    forall o, y | o in t'.nodes && t'.nodes[o].height == 0 && 0 <= y < |t'.nodes[o].keys| ensures HomeOk(t', o, y) {
      if o != n {
        HomesHere(t, o, y);
      } else if y != x {
        HomesHere(t, n, if y < x then y else y - 1);
      }
    }
    forall k', k'' | k' in t'.m && k'' in t'.m && k' != k'' ensures t'.m[k'] != t'.m[k''] {
      if k' != k && k'' != k { RecordsDiffer(t, k', k''); }
    }
    HomesMake(t');
  }

  lemma HomesMake<N, R>(t: Shape<N, R>)
    requires forall k | k in t.m ::
             k in t.home && t.home[k] in t.nodes && t.nodes[t.home[k]].height == 0 && k in t.nodes[t.home[k]].keys
    requires forall n, x | n in t.nodes && t.nodes[n].height == 0 && 0 <= x < |t.nodes[n].keys| :: HomeOk(t, n, x)
    requires forall k, k' | k in t.m && k' in t.m && k != k' :: t.m[k] != t.m[k']
    ensures HomesOk(t)
  {
    hide HomeOk;
  }

  lemma HomeOf<N, R>(t: Shape<N, R>, k: int)
    requires HomesOk(t) && k in t.m
    ensures k in t.home && t.home[k] in t.nodes && t.nodes[t.home[k]].height == 0 && k in t.nodes[t.home[k]].keys
  {
    hide HomeOk;
  }

  lemma RecordsDiffer<N, R>(t: Shape<N, R>, k: int, k': int)
    requires HomesOk(t) && k in t.m && k' in t.m && k != k'
    ensures t.m[k] != t.m[k']
  {
    hide HomeOk;
  }

  lemma RemoveKeyFormed<N, R>(t: Shape<N, R>, n: N, x: nat)
    requires Formed(t) && n in t.nodes && t.nodes[n].height == 0 && x < |t.nodes[n].keys| == |t.nodes[n].recs|
    ensures Formed(RemoveKey(t, n, x))
  {
    hide KidsOk, ParentOk, NextOk, HomesOk, Formed, LocalOk;
    var i, t' := t.nodes[n], RemoveKey(t, n, x);
    FormedNode(t, n);
    forall y | y in t'.nodes
      ensures LocalOk(t'.nodes[y]) && KidsOk(t'.nodes, y) && ParentOk(t'.root, t'.nodes, y) && NextOk(t'.nodes, y)
    {
      FormedNode(t, y);
      SameLinks(t, n, t'.nodes[n], y);
      RemovedLocal(i, x);
    }
    RemoveKeyHomes(t, n, x);
    Form(t');
  }

  lemma RemovedLocal<N, R>(i: Info<N, R>, x: nat)
    requires LocalOk(i) && i.height == 0 && x < |i.keys| == |i.recs|
    ensures LocalOk(i.(keys := i.keys[..x] + i.keys[x + 1..], recs := i.recs[..x] + i.recs[x + 1..]))
  {
    hide Increasing;
    LocalOf(i);
    IncreasingSlice(i.keys, 0, x);
    IncreasingSlice(i.keys, x + 1, |i.keys|);
    assert i.keys[..x] == i.keys[0..x] && i.keys[x + 1..] == i.keys[x + 1..|i.keys|];
    ConcatIncreasing(i.keys[..x], i.keys[x + 1..]);
  }

  lemma RemoveKeyHomes<N, R>(t: Shape<N, R>, n: N, x: nat)
    requires Formed(t) && n in t.nodes && t.nodes[n].height == 0 && x < |t.nodes[n].keys| == |t.nodes[n].recs|
    ensures HomesOk(RemoveKey(t, n, x))
  {
    hide Formed, HomesOk, LocalOk, KidsOk, ParentOk, NextOk;
    var i, t' := t.nodes[n], RemoveKey(t, n, x);
    FormedHomes(t);
    FormedNode(t, n);
    LocalOf(i);
    forall k' | k' in t'.m
      ensures k' in t'.home && t'.home[k'] in t'.nodes && t'.nodes[t'.home[k']].height == 0 &&
              k' in t'.nodes[t'.home[k']].keys
    {
      HomeOf(t, k');
      if t.home[k'] == n {
        var y :| 0 <= y < |i.keys| && i.keys[y] == k';
        assert t'.nodes[n].keys[if y < x then y else y - 1] == k';
      }
    }
    forall o, y | o in t'.nodes && t'.nodes[o].height == 0 && 0 <= y < |t'.nodes[o].keys| ensures HomeOk(t', o, y) {
      RemoveKeyHome(t, n, x, o, y);
    }
    forall k', k'' | k' in t'.m && k'' in t'.m && k' != k'' ensures t'.m[k'] != t'.m[k''] {
      RecordsDiffer(t, k', k'');
    }
    HomesMake(t');
  }

  lemma RemoveKeyHome<N, R>(t: Shape<N, R>, n: N, x: nat, o: N, y: nat)
    requires Formed(t) && n in t.nodes && t.nodes[n].height == 0 && x < |t.nodes[n].keys| == |t.nodes[n].recs|
    requires var t' := RemoveKey(t, n, x); o in t'.nodes && t'.nodes[o].height == 0 && y < |t'.nodes[o].keys|
    ensures HomeOk(RemoveKey(t, n, x), o, y)
  {
    hide Formed, HomesOk, LocalOk, KidsOk, ParentOk, NextOk, Increasing;
    FormedNode(t, n);
    LocalOf(t.nodes[n]);
    HomesHere(t, o, if o != n || y < x then y else y + 1);
    if o != n {
      OtherKey(t, n, x, o, y);
    } else if y < x {
      IncreasingAt(t.nodes[n].keys, y, x);
    } else {
      IncreasingAt(t.nodes[n].keys, x, y + 1);
    }
  }

  /** A key is in one leaf only. */
  lemma OtherKey<N, R>(t: Shape<N, R>, n: N, x: nat, o: N, y: nat)
    requires Formed(t) && n in t.nodes && o in t.nodes && n != o && t.nodes[n].height == t.nodes[o].height == 0
    requires x < |t.nodes[n].keys| && y < |t.nodes[o].keys|
    ensures t.nodes[n].keys[x] != t.nodes[o].keys[y]
  {
    hide KidsOk, ParentOk, NextOk, Formed, LocalOk, HomesOk;
    FormedNode(t, n);
    FormedNode(t, o);
    LocalOf(t.nodes[n]);
    LocalOf(t.nodes[o]);
    Heights(t, n);
    assert Covers(t.nodes[n], t.nodes[n].keys[x]) && Covers(t.nodes[o], t.nodes[o].keys[y]);
    if t.nodes[n].keys[x] == t.nodes[o].keys[y] {
      OneCover(t, n, o, t.nodes[n].keys[x]);
    }
  }

  // ---------------------------------------------------------------- levels

  /** A new root above the old one, which becomes its only child. */
  ghost function GrowRoot<N, R>(t: Shape<N, R>, nr: N): Shape<N, R>
    requires t.root in t.nodes
  {
    var i := t.nodes[t.root];
    Shape(nr,
          t.nodes[t.root := i.(parent := Some(nr))][nr := Info(i.height + 1, [], [t.root], [], None, None, None, None)],
          t.m, t.home)
  }

  /** The only child of the root takes its place. */
  ghost function ShrinkRoot<N, R>(t: Shape<N, R>): Shape<N, R>
    requires t.root in t.nodes && |t.nodes[t.root].kids| == 1
  {
    var c := t.nodes[t.root].kids[0];
    Shape(c, map x | x in t.nodes && x != t.root :: if x == c then t.nodes[x].(parent := None) else t.nodes[x],
          t.m, t.home)
  }

  lemma GrowRootFormed<N, R>(t: Shape<N, R>, nr: N)
    requires Formed(t) && nr !in t.nodes
    ensures t.root in t.nodes && Formed(GrowRoot(t, nr))
  {
    hide KidsOk, ParentOk, NextOk, HomesOk, Formed, LocalOk;
    RootIn(t);
    var t' := GrowRoot(t, nr);
    forall x | x in t'.nodes
      ensures LocalOk(t'.nodes[x]) && KidsOk(t'.nodes, x) && ParentOk(t'.root, t'.nodes, x) && NextOk(t'.nodes, x)
    {
      GrowRootNode(t, nr, x);
    }
    GrowRootHomes(t, nr);
    Form(t');
  }

  lemma RootIn<N, R>(t: Shape<N, R>)
    requires Formed(t)
    ensures t.root in t.nodes
  {
    hide KidsOk, ParentOk, NextOk, HomesOk, LocalOk;
  }

  lemma GrowRootNode<N, R>(t: Shape<N, R>, nr: N, x: N)
    requires Formed(t) && nr !in t.nodes && t.root in t.nodes && x in GrowRoot(t, nr).nodes
    ensures var t' := GrowRoot(t, nr);
            LocalOk(t'.nodes[x]) && KidsOk(t'.nodes, x) && ParentOk(t'.root, t'.nodes, x) && NextOk(t'.nodes, x)
  {
    hide KidsOk, HomesOk, Formed, LocalOk;
    var t' := GrowRoot(t, nr);
    FormedNode(t, t.root);
    if x == nr {
      TopLocal<N, R>(t'.nodes[nr]);
      forall y: nat | y < |t'.nodes[nr].kids| ensures KidOk(t'.nodes, nr, y) {}
    } else {
      FormedNode(t, x);
      LocalReparented(t.nodes[x], Some(nr));
      KidsBound(t, x);
      forall y: nat | y < |t'.nodes[x].kids| ensures KidOk(t'.nodes, x, y) {
        KidsOwned(t, x, x, y);
      }
    }
    KidsIntro(t'.nodes, x);
  }

  lemma TopLocal<N, R>(i: Info<N, R>)
    requires i.height > 0 && i.keys == [] && |i.kids| == 1 && i.recs == [] && i.next == None && i.lo == i.hi == None
    ensures LocalOk(i)
  {
  }

  lemma GrowRootHomes<N, R>(t: Shape<N, R>, nr: N)
    requires Formed(t) && nr !in t.nodes && t.root in t.nodes
    ensures HomesOk(GrowRoot(t, nr))
  {
    hide KidsOk, ParentOk, NextOk, Formed, LocalOk;
    FormedHomes(t);
    var t' := GrowRoot(t, nr);
    forall o, y | o in t'.nodes && t'.nodes[o].height == 0 && 0 <= y < |t'.nodes[o].keys| ensures HomeOk(t', o, y) {
      assert HomeOk(t, o, y);
    }
  }

  lemma ShrinkRootFormed<N, R>(t: Shape<N, R>)
    requires Formed(t) && t.root in t.nodes && |t.nodes[t.root].kids| == 1 && t.nodes[t.root].height > 0
    ensures Formed(ShrinkRoot(t))
  {
    hide KidsOk, ParentOk, NextOk, HomesOk, Formed, LocalOk;
    var t' := ShrinkRoot(t);
    KidsOwned(t, t.root, t.root, 0);
    forall x | x in t'.nodes
      ensures LocalOk(t'.nodes[x]) && KidsOk(t'.nodes, x) && ParentOk(t'.root, t'.nodes, x) && NextOk(t'.nodes, x)
    {
      ShrinkRootNode(t, x);
    }
    ShrinkRootHomes(t);
    Form(t');
  }

  lemma ShrinkRootNode<N, R>(t: Shape<N, R>, x: N)
    requires Formed(t) && t.root in t.nodes && |t.nodes[t.root].kids| == 1 && t.nodes[t.root].height > 0
    requires x in ShrinkRoot(t).nodes
    ensures var t' := ShrinkRoot(t);
            && t'.root in t'.nodes
            && LocalOk(t'.nodes[x]) && KidsOk(t'.nodes, x) && ParentOk(t'.root, t'.nodes, x) && NextOk(t'.nodes, x)
  {
    hide KidsOk, HomesOk, Formed, LocalOk;
    var t', c := ShrinkRoot(t), t.nodes[t.root].kids[0];
    FormedNode(t, t.root);
    LocalOf(t.nodes[t.root]);
    KidsOwned(t, t.root, t.root, 0);
    FormedNode(t, x);
    LocalReparented(t.nodes[x], None);
    KidsBound(t, x);
    Heights(t, c);
    forall y: nat | y < |t'.nodes[x].kids| ensures KidOk(t'.nodes, x, y) {
      KidsOwned(t, t.root, x, y);
      Heights(t, t.nodes[x].kids[y]);
    }
    KidsIntro(t'.nodes, x);
    var p := t.nodes[x].parent.value;
    var z: nat :| z < |t.nodes[p].kids| && t.nodes[p].kids[z] == x;
    KidsOwned(t, t.root, p, z);
    Heights(t, p);
  }

  lemma ShrinkRootHomes<N, R>(t: Shape<N, R>)
    requires Formed(t) && t.root in t.nodes && |t.nodes[t.root].kids| == 1 && t.nodes[t.root].height > 0
    ensures HomesOk(ShrinkRoot(t))
  {
    hide KidsOk, ParentOk, NextOk, Formed, LocalOk;
    FormedHomes(t);
    var t' := ShrinkRoot(t);
    forall o, y | o in t'.nodes && t'.nodes[o].height == 0 && 0 <= y < |t'.nodes[o].keys| ensures HomeOk(t', o, y) {
      assert HomeOk(t, o, y);
    }
  }
}
