/** Joining two neighbouring nodes of a B+ tree (src/btree/btree.c). */
module BtreeJoins {
  import opened Orders
  import opened BtreeShape
  import opened BtreeCuts

  /** Two neighbours in one; inner nodes take the separator between them down. */
  ghost function Joined<N, R>(l: Info<N, R>, r: Info<N, R>, sep: int): Info<N, R> {
    if l.height == 0 then l.(keys := l.keys + r.keys, recs := l.recs + r.recs, next := r.next, hi := r.hi)
    else l.(keys := l.keys + [sep] + r.keys, kids := l.kids + r.kids, hi := r.hi)
  }

  /** A node without its j-th separator and the child to its right. */
  ghost function WithoutKid<N, R>(i: Info<N, R>, j: nat): Info<N, R>
    requires j < |i.keys| && j + 1 < |i.kids|
  {
    i.(keys := i.keys[..j] + i.keys[j + 1..], kids := i.kids[..j + 1] + i.kids[j + 2..])
  }

  /** The children j and j + 1 of p. */
  ghost predicate Neighbours<N, R>(nodes: Nodes<N, R>, p: N, j: nat) {
    p in nodes && j + 1 < |nodes[p].kids| == |nodes[p].keys| + 1
    && nodes[p].kids[j] in nodes && nodes[p].kids[j + 1] in nodes
  }

  /** The right one of two neighbours goes into the left one. */
  ghost function Join<N, R>(t: Shape<N, R>, p: N, j: nat): Shape<N, R>
    requires Neighbours(t.nodes, p, j)
  {
    var l, r := t.nodes[p].kids[j], t.nodes[p].kids[j + 1];
    Shape(t.root,
          map x | x in t.nodes && x != r ::
            if x == l then Joined(t.nodes[l], t.nodes[r], t.nodes[p].keys[j])
            else if x == p then WithoutKid(t.nodes[p], j)
            else if x in t.nodes[r].kids then t.nodes[x].(parent := Some(l))
            else t.nodes[x],
          t.m,
          map k | k in t.home :: if t.home[k] == r then l else t.home[k])
  }

  ghost predicate JoinReady<N, R>(t: Shape<N, R>, p: N, j: nat) {
    Formed(t) && Neighbours(t.nodes, p, j)
  }

  lemma JoinPlaces<N, R>(t: Shape<N, R>, p: N, j: nat)
    requires JoinReady(t, p, j)
    ensures var l, r, sep := t.nodes[p].kids[j], t.nodes[p].kids[j + 1], t.nodes[p].keys[j];
            && p != l && p != r && l != r && l != t.root && r != t.root && t.root in t.nodes
            && t.nodes[l].height == t.nodes[r].height == t.nodes[p].height - 1
            && t.nodes[l].parent == t.nodes[r].parent == Some(p)
            && t.nodes[l].hi == Some(sep) == t.nodes[r].lo
            && t.nodes[l].lo == KidLo(t.nodes[p], j) && t.nodes[r].hi == KidHi(t.nodes[p], j + 1)
  {
    hide LocalOk, ParentOk, NextOk, HomesOk, Formed;
    FormedNode(t, p);
    assert KidOk(t.nodes, p, j) && KidOk(t.nodes, p, j + 1);
    KidsDistinct(t, p, j, j + 1);
    Heights(t, t.nodes[p].kids[j]);
    Heights(t, t.nodes[p].kids[j + 1]);
    Heights(t, p);
  }

  lemma JoinNodes<N, R>(t: Shape<N, R>, p: N, j: nat)
    requires JoinReady(t, p, j)
    ensures t.nodes[p].kids[j] != t.nodes[p].kids[j + 1] && t.nodes[p].kids[j + 1] != p
    ensures var l, r, sep, t' := t.nodes[p].kids[j], t.nodes[p].kids[j + 1], t.nodes[p].keys[j], Join(t, p, j);
            && t'.nodes.Keys == t.nodes.Keys - {r}
            && t'.nodes[l] == Joined(t.nodes[l], t.nodes[r], sep) && t'.nodes[p] == WithoutKid(t.nodes[p], j)
            && t'.root == t.root && t'.m == t.m
  {
    hide Formed, Joined, WithoutKid;
    JoinPlaces(t, p, j);
  }

  /** Nodes outside the join keep their height and bounds; the right one's children get a new parent. */
  lemma JoinOther<N, R>(t: Shape<N, R>, p: N, j: nat, x: N)
    requires JoinReady(t, p, j) && x in t.nodes && x != t.nodes[p].kids[j] && x != t.nodes[p].kids[j + 1]
    ensures x in Join(t, p, j).nodes
    ensures var l, r, i, i' := t.nodes[p].kids[j], t.nodes[p].kids[j + 1], t.nodes[x], Join(t, p, j).nodes[x];
            && i'.height == i.height && i'.lo == i.lo && i'.hi == i.hi && i'.next == i.next
            && i'.parent == (if x in t.nodes[r].kids then Some(l) else i.parent)
            && (x != p ==> i'.keys == i.keys && i'.kids == i.kids && i'.recs == i.recs)
  {
    hide LocalOk, NextOk, HomesOk, Formed;
    JoinPlaces(t, p, j);
    var r := t.nodes[p].kids[j + 1];
    if x == p {
      forall y: nat | y < |t.nodes[r].kids| ensures t.nodes[r].kids[y] != p {
        KidsOwned(t, r, r, y);
      }
    }
  }

  lemma ConcatIncreasing(a: seq<int>, b: seq<int>)
    requires Increasing(a) && Increasing(b)
    requires forall k, k' | k in a && k' in b :: k < k'
    ensures Increasing(a + b)
  {
    var c := a + b;
    forall x, y | 0 <= x < y < |c| ensures c[x] < c[y] {
      if x < |a| <= y { assert a[x] in a && b[y - |a|] in b; }
    }
  }

  lemma JoinedLocal<N, R>(l: Info<N, R>, r: Info<N, R>, sep: int)
    requires LocalOk(l) && LocalOk(r) && l.height == r.height && l.hi == Some(sep) == r.lo
    ensures LocalOk(Joined(l, r, sep))
  {
    hide Increasing;
    LocalOf(l);
    LocalOf(r);
    if l.height == 0 {
      ConcatIncreasing(l.keys, r.keys);
    } else {
      SingleIncreasing(sep);
      ConcatIncreasing(l.keys, [sep]);
      ConcatIncreasing(l.keys + [sep], r.keys);
    }
  }

  lemma SingleIncreasing(k: int)
    ensures Increasing([k])
  {
  }

  lemma WithoutKidLocal<N, R>(i: Info<N, R>, j: nat)
    requires LocalOk(i) && i.height > 0 && j < |i.keys|
    ensures j + 1 < |i.kids| && LocalOk(WithoutKid(i, j))
  {
    hide Increasing;
    LocalOf(i);
    IncreasingSlice(i.keys, 0, j);
    IncreasingSlice(i.keys, j + 1, |i.keys|);
    assert i.keys[..j] == i.keys[0..j] && i.keys[j + 1..] == i.keys[j + 1..|i.keys|];
    ConcatIncreasing(i.keys[..j], i.keys[j + 1..]);
  }

  lemma JoinLocal<N, R>(t: Shape<N, R>, p: N, j: nat, x: N)
    requires JoinReady(t, p, j) && x in Join(t, p, j).nodes
    ensures LocalOk(Join(t, p, j).nodes[x])
  {
    hide KidsOk, ParentOk, NextOk, HomesOk, Formed, LocalOk, Joined, WithoutKid;
    JoinPlaces(t, p, j);
    JoinNodes(t, p, j);
    var l, r := t.nodes[p].kids[j], t.nodes[p].kids[j + 1];
    FormedNode(t, x);
    FormedNode(t, r);
    if x == l {
      JoinedLocal(t.nodes[l], t.nodes[r], t.nodes[p].keys[j]);
    } else if x == p {
      WithoutKidLocal(t.nodes[p], j);
    } else {
      LocalReparented(t.nodes[x], Some(l));
    }
  }

  lemma JoinKidsElsewhere<N, R>(t: Shape<N, R>, p: N, j: nat, x: N)
    requires JoinReady(t, p, j) && x in t.nodes && x != p && x != t.nodes[p].kids[j] && x != t.nodes[p].kids[j + 1]
    ensures x in Join(t, p, j).nodes && KidsOk(Join(t, p, j).nodes, x)
  {
    hide LocalOk, KidsOk, ParentOk, NextOk, HomesOk, Formed, Join;
    JoinPlaces(t, p, j);
    JoinNodes(t, p, j);
    JoinOther(t, p, j, x);
    KidsBound(t, x);
    var nodes' := Join(t, p, j).nodes;
    forall y: nat | y < |nodes'[x].kids| ensures KidOk(nodes', x, y) {
      KidsOwned(t, t.nodes[p].kids[j + 1], x, y);
      JoinOther(t, p, j, t.nodes[x].kids[y]);
    }
    KidsIntro(nodes', x);
  }

  lemma JoinKidsLeft<N, R>(t: Shape<N, R>, p: N, j: nat)
    requires JoinReady(t, p, j)
    ensures var l := t.nodes[p].kids[j]; l in Join(t, p, j).nodes && KidsOk(Join(t, p, j).nodes, l)
  {
    hide LocalOk, KidsOk, ParentOk, NextOk, HomesOk, Formed, Join;
    JoinPlaces(t, p, j);
    JoinNodes(t, p, j);
    var l, r, nodes' := t.nodes[p].kids[j], t.nodes[p].kids[j + 1], Join(t, p, j).nodes;
    FormedNode(t, l);
    FormedNode(t, r);
    LocalOf(t.nodes[l]);
    LocalOf(t.nodes[r]);
    forall y: nat | y < |nodes'[l].kids| ensures KidOk(nodes', l, y) {
      var o := if y < |t.nodes[l].kids| then l else r;
      var z: nat := if y < |t.nodes[l].kids| then y else y - |t.nodes[l].kids|;
      KidsOwned(t, r, o, z);
      if o == r { assert t.nodes[r].kids[z] in t.nodes[r].kids; }
      JoinOther(t, p, j, t.nodes[o].kids[z]);
    }
    KidsIntro(nodes', l);
  }

  lemma JoinKidsAbove<N, R>(t: Shape<N, R>, p: N, j: nat)
    requires JoinReady(t, p, j)
    ensures p in Join(t, p, j).nodes && KidsOk(Join(t, p, j).nodes, p)
  {
    hide LocalOk, KidsOk, ParentOk, NextOk, HomesOk, Formed, Join;
    JoinPlaces(t, p, j);
    JoinNodes(t, p, j);
    var l, r, q, nodes' := t.nodes[p].kids[j], t.nodes[p].kids[j + 1], t.nodes[p], Join(t, p, j).nodes;
    forall y: nat | y < |nodes'[p].kids| ensures KidOk(nodes', p, y) {
      var z := if y <= j then y else y + 1;
      KidsOwned(t, r, p, z);
      if z < j { KidsDistinct(t, p, z, j); KidsDistinct(t, p, z, j + 1); }
      if z > j { KidsDistinct(t, p, j, z); KidsDistinct(t, p, j + 1, z); }
      if z != j { JoinOther(t, p, j, q.kids[z]); }
    }
    KidsIntro(nodes', p);
  }

  lemma JoinKids<N, R>(t: Shape<N, R>, p: N, j: nat, x: N)
    requires JoinReady(t, p, j) && x in Join(t, p, j).nodes
    ensures KidsOk(Join(t, p, j).nodes, x)
  {
    hide Formed, KidsOk, Join;
    JoinNodes(t, p, j);
    if x == p { JoinKidsAbove(t, p, j); }
    else if x == t.nodes[p].kids[j] { JoinKidsLeft(t, p, j); }
    else { JoinKidsElsewhere(t, p, j, x); }
  }

  lemma JoinParents<N, R>(t: Shape<N, R>, p: N, j: nat, x: N)
    requires JoinReady(t, p, j) && x in Join(t, p, j).nodes
    ensures t.root in Join(t, p, j).nodes && ParentOk(t.root, Join(t, p, j).nodes, x)
  {
    hide LocalOk, KidsOk, NextOk, HomesOk, Formed, Join;
    JoinPlaces(t, p, j);
    JoinNodes(t, p, j);
    var l, r, nodes' := t.nodes[p].kids[j], t.nodes[p].kids[j + 1], Join(t, p, j).nodes;
    JoinOther(t, p, j, t.root);
    FormedNode(t, t.root);
    FormedNode(t, l);
    FormedNode(t, x);
    NotOfRight(t, p, j, t.root);
    if x == l {
      assert nodes'[p].kids[j] == l;
    } else {
      JoinOther(t, p, j, x);
      if x != t.root { JoinOwned(t, p, j, x); }
    }
  }

  /** A node outside the join is still a child of its parent, which may be the joined node now. */
  lemma JoinOwned<N, R>(t: Shape<N, R>, p: N, j: nat, x: N)
    requires JoinReady(t, p, j) && x in t.nodes && x != t.root
    requires x != t.nodes[p].kids[j] && x != t.nodes[p].kids[j + 1]
    ensures var nodes' := Join(t, p, j).nodes;
            && x in nodes' && nodes'[x].parent.Some? && nodes'[x].parent.value in nodes'
            && x in nodes'[nodes'[x].parent.value].kids
  {
    hide LocalOk, KidsOk, NextOk, HomesOk, Formed, Join;
    JoinPlaces(t, p, j);
    JoinNodes(t, p, j);
    var l, r, nodes' := t.nodes[p].kids[j], t.nodes[p].kids[j + 1], Join(t, p, j).nodes;
    FormedNode(t, l);
    FormedNode(t, x);
    JoinOther(t, p, j, x);
    LocalOf(t.nodes[l]);
    var o := t.nodes[x].parent.value;
    var y: nat :| y < |t.nodes[o].kids| && t.nodes[o].kids[y] == x;
    if o == r {
      FormedNode(t, r);
      LocalOf(t.nodes[r]);
      assert nodes'[l].kids[|t.nodes[l].kids| + y] == x;
    } else {
      NotOfRight(t, p, j, x);
      if o == l {
        assert nodes'[l].kids[y] == x;
      } else if o == p {
        assert nodes'[p].kids[if y <= j then y else y - 1] == x;
      } else {
        JoinOther(t, p, j, o);
      }
    }
  }

  lemma NotOfRight<N, R>(t: Shape<N, R>, p: N, j: nat, c: N)
    requires JoinReady(t, p, j) && c in t.nodes && t.nodes[c].parent != Some(t.nodes[p].kids[j + 1])
    ensures c !in t.nodes[t.nodes[p].kids[j + 1]].kids
  {
    hide LocalOk, KidsOk, ParentOk, NextOk, HomesOk, Formed;
    var r := t.nodes[p].kids[j + 1];
    forall z: nat | z < |t.nodes[r].kids| ensures t.nodes[r].kids[z] != c {
      KidsOwned(t, r, r, z);
    }
  }

  lemma JoinNexts<N, R>(t: Shape<N, R>, p: N, j: nat, x: N)
    requires JoinReady(t, p, j) && x in Join(t, p, j).nodes
    ensures NextOk(Join(t, p, j).nodes, x)
  {
    hide LocalOk, KidsOk, ParentOk, HomesOk, Formed, Join;
    JoinPlaces(t, p, j);
    JoinNodes(t, p, j);
    var l, r := t.nodes[p].kids[j], t.nodes[p].kids[j + 1];
    var o := if x == l then r else x;
    FormedNode(t, o);
    LocalOf(t.nodes[o]);
    if x != l {
      JoinOther(t, p, j, x);
      if t.nodes[x].height == t.nodes[l].height == 0 && t.nodes[x].hi == t.nodes[l].hi { OnePrevious(t, x, l); }
    }
    if t.nodes[o].height == 0 && t.nodes[o].next.Some? {
      var z := t.nodes[o].next.value;
      if z != l && z != r { JoinOther(t, p, j, z); }
    }
  }

  lemma JoinHome<N, R>(t: Shape<N, R>, p: N, j: nat, k: int)
    requires JoinReady(t, p, j) && k in t.m
    ensures var t' := Join(t, p, j);
            k in t'.home && t'.home[k] in t'.nodes && t'.nodes[t'.home[k]].height == 0 && k in t'.nodes[t'.home[k]].keys
  {
    hide LocalOk, KidsOk, ParentOk, NextOk, Formed;
    JoinPlaces(t, p, j);
    JoinNodes(t, p, j);
    FormedHomes(t);
    var h := t.home[k];
    if h != t.nodes[p].kids[j] && h != t.nodes[p].kids[j + 1] {
      JoinOther(t, p, j, h);
      FormedNode(t, h);
      Heights(t, h);
      HeightsOver(t, p, j);
    }
  }

  lemma HeightsOver<N, R>(t: Shape<N, R>, p: N, j: nat)
    requires JoinReady(t, p, j)
    ensures t.nodes[p].height > 0
  {
    JoinPlaces(t, p, j);
  }

  lemma JoinHomes<N, R>(t: Shape<N, R>, p: N, j: nat)
    requires JoinReady(t, p, j)
    ensures HomesOk(Join(t, p, j))
  {
    hide LocalOk, KidsOk, ParentOk, NextOk, Formed, Join, HomesOk;
    JoinPlaces(t, p, j);
    JoinNodes(t, p, j);
    var l, r, t' := t.nodes[p].kids[j], t.nodes[p].kids[j + 1], Join(t, p, j);
    FormedNode(t, l);
    FormedNode(t, r);
    LocalOf(t.nodes[l]);
    LocalOf(t.nodes[r]);
    forall k | k in t'.m ensures k in t'.home && t'.home[k] in t'.nodes && t'.nodes[t'.home[k]].height == 0 &&
           k in t'.nodes[t'.home[k]].keys {
      JoinHome(t, p, j, k);
    }
    forall x, y | x in t'.nodes && t'.nodes[x].height == 0 && 0 <= y < |t'.nodes[x].keys| ensures HomeOk(t', x, y) {
      if x != l {
        JoinOther(t, p, j, x);
        HomesHere(t, x, y);
      } else if y < |t.nodes[l].keys| {
        HomesHere(t, l, y);
      } else {
        HomesHere(t, r, y - |t.nodes[l].keys|);
      }
    }
    HomesIntro(t', t);
  }

  /** A join leaves a well-formed tree with the same contents. */
  lemma JoinFormed<N, R>(t: Shape<N, R>, p: N, j: nat)
    requires JoinReady(t, p, j)
    ensures Formed(Join(t, p, j))
  {
    hide LocalOk, KidsOk, ParentOk, NextOk, Formed, Join, HomesOk;
    JoinNodes(t, p, j);
    JoinPlaces(t, p, j);
    var t' := Join(t, p, j);
    forall x | x in t'.nodes
      ensures LocalOk(t'.nodes[x]) && KidsOk(t'.nodes, x) && ParentOk(t'.root, t'.nodes, x) && NextOk(t'.nodes, x)
    {
      JoinLocal(t, p, j, x);
      JoinKids(t, p, j, x);
      JoinParents(t, p, j, x);
      JoinNexts(t, p, j, x);
    }
    JoinHomes(t, p, j);
    Form(t');
  }
}
