/** Cutting a node of a B+ tree in two (src/btree/btree.c). */
module BtreeCuts {
  import opened Orders
  import opened BtreeShape

  /** The left part of a node cut at a key; in a leaf that key goes right, in an inner node it goes up. */
  ghost function LeftPart<N, R>(i: Info<N, R>, r: N, at: nat): Info<N, R>
    requires at < |i.keys| && |i.recs| == (if i.height == 0 then |i.keys| else 0)
    requires |i.kids| == (if i.height == 0 then 0 else |i.keys| + 1)
  {
    if i.height == 0 then i.(keys := i.keys[..at], recs := i.recs[..at], next := Some(r), hi := Some(i.keys[at]))
    else i.(keys := i.keys[..at], kids := i.kids[..at + 1], hi := Some(i.keys[at]))
  }

  ghost function RightPart<N, R>(i: Info<N, R>, at: nat): Info<N, R>
    requires at < |i.keys| && |i.recs| == (if i.height == 0 then |i.keys| else 0)
    requires |i.kids| == (if i.height == 0 then 0 else |i.keys| + 1)
  {
    if i.height == 0 then i.(keys := i.keys[at..], recs := i.recs[at..], lo := Some(i.keys[at]))
    else i.(keys := i.keys[at + 1..], kids := i.kids[at + 1..], lo := Some(i.keys[at]))
  }

  ghost predicate Cuttable<N, R>(nodes: Nodes<N, R>, n: N, at: nat) {
    n in nodes &&
    var i := nodes[n];
    && at < |i.keys| && (i.height == 0 ==> at > 0)
    && |i.recs| == (if i.height == 0 then |i.keys| else 0)
    && |i.kids| == (if i.height == 0 then 0 else |i.keys| + 1)
  }

  /** The node n in two halves, n and r; the parent does not know of r yet. */
  ghost function Halves<N, R>(nodes: Nodes<N, R>, n: N, r: N, at: nat): Nodes<N, R>
    requires Cuttable(nodes, n, at)
  {
    var right := RightPart(nodes[n], at);
    map x | x in nodes.Keys + {r} ::
      if x == n then LeftPart(nodes[n], r, at)
      else if x == r then right
      else if x in right.kids then nodes[x].(parent := Some(r))
      else nodes[x]
  }

  /** A separator and the child to its right, new among a node's. */
  ghost function WithKid<N, R>(i: Info<N, R>, j: nat, sep: int, r: N): Info<N, R>
    requires j <= |i.keys| && j < |i.kids|
  {
    i.(keys := i.keys[..j] + [sep] + i.keys[j..], kids := i.kids[..j + 1] + [r] + i.kids[j + 1..])
  }

  /** n is the j-th child of p. */
  ghost predicate KidAt<N, R>(nodes: Nodes<N, R>, p: N, j: nat, n: N) {
    p in nodes && j < |nodes[p].kids| == |nodes[p].keys| + 1 && nodes[p].kids[j] == n
  }

  /** Cutting the j-th child n of p at a key, its right part becoming the new node r. */
  ghost function Cut<N, R>(t: Shape<N, R>, n: N, r: N, at: nat, p: N, j: nat): Shape<N, R>
    requires Cuttable(t.nodes, n, at) && KidAt(t.nodes, p, j, n)
  {
    var i := t.nodes[n];
    Shape(t.root,
          Halves(t.nodes, n, r, at)[p := WithKid(t.nodes[p], j, i.keys[at], r)],
          t.m,
          map k | k in t.home :: if i.height == 0 && k in i.keys[at..] then r else t.home[k])
  }

  /** The separator of a cut lies strictly within the node's bounds, and the parts are in order. */
  lemma PartsLocal<N, R>(i: Info<N, R>, r: N, at: nat)
    requires LocalOk(i) && at < |i.keys| && (i.height == 0 ==> at > 0)
    ensures |i.recs| == (if i.height == 0 then |i.keys| else 0) &&
            |i.kids| == (if i.height == 0 then 0 else |i.keys| + 1)
    ensures LocalOk(LeftPart(i, r, at)) && LocalOk(RightPart(i, at))
    ensures Inside(i, i.keys[at])
  {
    hide LocalOk, Increasing, LeftPart, RightPart;
    LocalOf(i);
    LeftLocal(i, r, at);
    RightLocal(i, at);
    assert i.keys[at] in i.keys;
    if i.height == 0 {
      IncreasingAt(i.keys, 0, at);
      assert i.keys[0] in i.keys;
    }
  }

  lemma LeftLocal<N, R>(i: Info<N, R>, r: N, at: nat)
    requires LocalOk(i) && at < |i.keys| && (i.height == 0 ==> at > 0)
    ensures |i.recs| == (if i.height == 0 then |i.keys| else 0) &&
            |i.kids| == (if i.height == 0 then 0 else |i.keys| + 1)
    ensures LocalOk(LeftPart(i, r, at))
  {
    hide Increasing;
    LocalOf(i);
    assert i.keys[..at] == i.keys[0..at];
    IncreasingSlice(i.keys, 0, at);
    IncreasingAt(i.keys, 0, at);
    assert i.keys[at] in i.keys && i.keys[0] in i.keys;
  }

  lemma RightLocal<N, R>(i: Info<N, R>, at: nat)
    requires LocalOk(i) && at < |i.keys| && (i.height == 0 ==> at > 0)
    ensures |i.recs| == (if i.height == 0 then |i.keys| else 0) &&
            |i.kids| == (if i.height == 0 then 0 else |i.keys| + 1)
    ensures LocalOk(RightPart(i, at))
  {
    hide Increasing;
    LocalOf(i);
    var n := |i.keys|;
    assert i.keys[at..] == i.keys[at..n] && i.keys[at + 1..] == i.keys[at + 1..n];
    IncreasingSlice(i.keys, at, n);
    IncreasingSlice(i.keys, at + 1, n);
    assert i.keys[at] in i.keys;
  }

  lemma WithKeyIncreasing(keys: seq<int>, j: nat, sep: int)
    requires Increasing(keys) && j <= |keys|
    requires (j > 0 ==> keys[j - 1] < sep) && (j < |keys| ==> sep < keys[j])
    ensures Increasing(keys[..j] + [sep] + keys[j..])
  {
    var keys' := keys[..j] + [sep] + keys[j..];
    forall a, b | 0 <= a < b < |keys'| ensures keys'[a] < keys'[b] {
      if a < j { IncreasingAt(keys, a, j - 1); }
      if b > j { IncreasingAt(keys, j, b - 1); }
    }
  }

  lemma WithKidLocal<N, R>(i: Info<N, R>, j: nat, sep: int, r: N)
    requires LocalOk(i) && i.height > 0 && j <= |i.keys|
    requires KidLo(i, j).Some? ==> KidLo(i, j).value < sep
    requires KidHi(i, j).Some? ==> sep < KidHi(i, j).value
    ensures j < |i.kids| && LocalOk(WithKid(i, j, sep, r))
  {
    hide Increasing;
    LocalOf(i);
    var i' := WithKid(i, j, sep, r);
    WithKeyIncreasing(i.keys, j, sep);
    if j > 0 { assert i.keys[j - 1] in i.keys; }
    if j < |i.keys| { assert i.keys[j] in i.keys; }
    forall k | k in i'.keys ensures Inside(i', k) {
      if k != sep { assert k in i.keys; }
    }
  }

  /** What is known of the places involved in a cut. */
  ghost predicate CutReady<N, R>(t: Shape<N, R>, n: N, r: N, at: nat, p: N, j: nat) {
    && Formed(t) && Cuttable(t.nodes, n, at) && KidAt(t.nodes, p, j, n) && r !in t.nodes
  }

  lemma CutPlaces<N, R>(t: Shape<N, R>, n: N, r: N, at: nat, p: N, j: nat)
    requires CutReady(t, n, r, at, p, j)
    ensures p != n && p != r && n != r
    ensures t.nodes[n].parent == Some(p) && t.nodes[p].height == t.nodes[n].height + 1
    ensures t.nodes[n].lo == KidLo(t.nodes[p], j) && t.nodes[n].hi == KidHi(t.nodes[p], j)
    ensures n != t.root && t.root in t.nodes
  {
    hide LocalOk, ParentOk, NextOk, HomesOk, Formed;
    FormedNode(t, p);
    FormedNode(t, n);
    assert KidOk(t.nodes, p, j);
    Heights(t, n);
    Heights(t, p);
  }

  lemma CutLocal<N, R>(t: Shape<N, R>, n: N, r: N, at: nat, p: N, j: nat, x: N)
    requires CutReady(t, n, r, at, p, j) && x in Cut(t, n, r, at, p, j).nodes
    ensures LocalOk(Cut(t, n, r, at, p, j).nodes[x])
  {
    hide KidsOk, ParentOk, NextOk, HomesOk, Formed, LeftPart, RightPart, WithKid, Increasing, LocalOk;
    CutPlaces(t, n, r, at, p, j);
    FormedNode(t, n);
    FormedNode(t, p);
    PartsLocal(t.nodes[n], r, at);
    if x == p {
      WithKidLocal(t.nodes[p], j, t.nodes[n].keys[at], r);
    } else if x in t.nodes && x != n {
      FormedNode(t, x);
      LocalReparented(t.nodes[x], Some(r));
    }
  }

  lemma LocalReparented<N, R>(i: Info<N, R>, p: Option<N>)
    requires LocalOk(i)
    ensures LocalOk(i.(parent := p))
  {
    hide Increasing;
  }

  /** A node outside the cut keeps its height and its bounds; its parent changes if it was handed over. */
  lemma CutOther<N, R>(t: Shape<N, R>, n: N, r: N, at: nat, p: N, j: nat, x: N)
    requires CutReady(t, n, r, at, p, j) && x in t.nodes && x != n
    ensures var i, i' := t.nodes[x], Cut(t, n, r, at, p, j).nodes[x];
            && i'.height == i.height && i'.lo == i.lo && i'.hi == i.hi && i'.next == i.next
            && i'.parent == (if x in RightPart(t.nodes[n], at).kids then Some(r) else i.parent)
            && (x != p ==> i'.keys == i.keys && i'.kids == i.kids && i'.recs == i.recs)
  {
    hide LocalOk, NextOk, HomesOk, Formed;
    CutPlaces(t, n, r, at, p, j);
    if x == p {
      FormedNode(t, n);
      forall y: nat | y < |t.nodes[n].kids| ensures t.nodes[n].kids[y] != p {
        assert KidOk(t.nodes, n, y);
      }
    }
  }

  /** The children of the node that is cut have it as their parent, and no other node has. */
  lemma KidsOwned<N, R>(t: Shape<N, R>, n: N, x: N, y: nat)
    requires Formed(t) && n in t.nodes && x in t.nodes && y < |t.nodes[x].kids|
    ensures t.nodes[x].kids[y] in t.nodes && t.nodes[t.nodes[x].kids[y]].parent == Some(x)
    ensures |t.nodes[x].kids| <= |t.nodes[x].keys| + 1 && KidOk(t.nodes, x, y)
    ensures x != n ==> t.nodes[x].kids[y] !in t.nodes[n].kids
  {
    hide LocalOk, ParentOk, NextOk, HomesOk, Formed;
    FormedNode(t, x);
    FormedNode(t, n);
    assert KidOk(t.nodes, x, y);
    forall z: nat | z < |t.nodes[n].kids|
      ensures t.nodes[n].kids[z] in t.nodes && t.nodes[t.nodes[n].kids[z]].parent == Some(n) {
      assert KidOk(t.nodes, n, z);
    }
  }

  lemma CutKidsElsewhere<N, R>(t: Shape<N, R>, n: N, r: N, at: nat, p: N, j: nat, x: N)
    requires CutReady(t, n, r, at, p, j) && x in t.nodes && x != n && x != p
    ensures KidsOk(Cut(t, n, r, at, p, j).nodes, x)
  {
    hide LocalOk, KidsOk, ParentOk, NextOk, HomesOk, Formed, Cut, LeftPart;
    CutPlaces(t, n, r, at, p, j);
    CutNodes(t, n, r, at, p, j);
    CutOther(t, n, r, at, p, j, x);
    FormedNode(t, x);
    var i, nodes' := t.nodes[x], Cut(t, n, r, at, p, j).nodes;
    KidsBound(t, x);
    forall y: nat | y < |nodes'[x].kids| ensures KidOk(nodes', x, y) {
      KidsOwned(t, n, x, y);
      CutOther(t, n, r, at, p, j, i.kids[y]);
    }
    KidsIntro(nodes', x);
  }

  lemma KidsBound<N, R>(t: Shape<N, R>, x: N)
    requires Formed(t) && x in t.nodes
    ensures |t.nodes[x].kids| <= |t.nodes[x].keys| + 1
  {
    hide LocalOk, ParentOk, NextOk, HomesOk, Formed;
    FormedNode(t, x);
  }

  lemma KidsIntro<N, R>(nodes: Nodes<N, R>, n: N)
    requires n in nodes && |nodes[n].kids| <= |nodes[n].keys| + 1
    requires forall x: nat | x < |nodes[n].kids| :: KidOk(nodes, n, x)
    ensures KidsOk(nodes, n)
  {
    hide KidOk;
  }

  lemma CutNodes<N, R>(t: Shape<N, R>, n: N, r: N, at: nat, p: N, j: nat)
    requires CutReady(t, n, r, at, p, j)
    ensures var i, t' := t.nodes[n], Cut(t, n, r, at, p, j);
            && t'.nodes.Keys == t.nodes.Keys + {r}
            && t'.nodes[n] == LeftPart(i, r, at) && t'.nodes[r] == RightPart(i, at)
            && t'.nodes[p] == WithKid(t.nodes[p], j, i.keys[at], r)
            && t'.root == t.root && t'.m == t.m
  {
    hide Formed, LeftPart, RightPart, WithKid;
    CutPlaces(t, n, r, at, p, j);
  }

  /** The parts of the children of a cut inner node. */
  lemma PartKids<N, R>(t: Shape<N, R>, n: N, r: N, at: nat, p: N, j: nat, y: nat)
    requires CutReady(t, n, r, at, p, j) && y < |t.nodes[n].kids|
    ensures t.nodes[n].height > 0 && |t.nodes[n].kids| == |t.nodes[n].keys| + 1
    ensures var c := t.nodes[n].kids[y];
            && c in t.nodes && c != n && c != p && c != r
            && t.nodes[c].height + 1 == t.nodes[n].height
            && t.nodes[c].lo == KidLo(t.nodes[n], y) && t.nodes[c].hi == KidHi(t.nodes[n], y)
            && (c in RightPart(t.nodes[n], at).kids <==> y > at)
  {
    hide LocalOk, ParentOk, NextOk, HomesOk, Formed;
    CutPlaces(t, n, r, at, p, j);
    FormedNode(t, n);
    var i, c := t.nodes[n], t.nodes[n].kids[y];
    LocalOf(i);
    assert KidOk(t.nodes, n, y);
    if y > at {
      assert RightPart(i, at).kids[y - at - 1] == c;
    } else if c in RightPart(i, at).kids {
      var z: nat :| z < |i.kids| - at - 1 && i.kids[at + 1..][z] == c;
      KidsDistinct(t, n, y, at + 1 + z);
    }
  }

  lemma CutKidsLeft<N, R>(t: Shape<N, R>, n: N, r: N, at: nat, p: N, j: nat)
    requires CutReady(t, n, r, at, p, j)
    ensures n in Cut(t, n, r, at, p, j).nodes && KidsOk(Cut(t, n, r, at, p, j).nodes, n)
  {
    hide LocalOk, KidsOk, ParentOk, NextOk, HomesOk, Formed, Cut, RightPart;
    CutPlaces(t, n, r, at, p, j);
    CutNodes(t, n, r, at, p, j);
    var i, nodes' := t.nodes[n], Cut(t, n, r, at, p, j).nodes;
    forall y: nat | y < |nodes'[n].kids| ensures KidOk(nodes', n, y) {
      PartKids(t, n, r, at, p, j, y);
      KidsOwned(t, n, n, y);
      CutOther(t, n, r, at, p, j, i.kids[y]);
    }
    KidsIntro(nodes', n);
  }

  lemma CutKidsRight<N, R>(t: Shape<N, R>, n: N, r: N, at: nat, p: N, j: nat)
    requires CutReady(t, n, r, at, p, j)
    ensures r in Cut(t, n, r, at, p, j).nodes && KidsOk(Cut(t, n, r, at, p, j).nodes, r)
  {
    hide LocalOk, KidsOk, ParentOk, NextOk, HomesOk, Formed, Cut, LeftPart;
    CutPlaces(t, n, r, at, p, j);
    CutNodes(t, n, r, at, p, j);
    var i, nodes' := t.nodes[n], Cut(t, n, r, at, p, j).nodes;
    forall y: nat | y < |nodes'[r].kids| ensures KidOk(nodes', r, y) {
      PartKids(t, n, r, at, p, j, at + 1 + y);
      CutOther(t, n, r, at, p, j, i.kids[at + 1 + y]);
    }
    KidsIntro(nodes', r);
  }

  lemma CutKidsAbove<N, R>(t: Shape<N, R>, n: N, r: N, at: nat, p: N, j: nat)
    requires CutReady(t, n, r, at, p, j)
    ensures p in Cut(t, n, r, at, p, j).nodes && KidsOk(Cut(t, n, r, at, p, j).nodes, p)
  {
    hide LocalOk, KidsOk, ParentOk, NextOk, HomesOk, Formed, Cut;
    CutPlaces(t, n, r, at, p, j);
    CutNodes(t, n, r, at, p, j);
    var i, q, nodes' := t.nodes[n], t.nodes[p], Cut(t, n, r, at, p, j).nodes;
    forall y: nat | y < |nodes'[p].kids| ensures KidOk(nodes', p, y) {
      if y != j + 1 {
        var z := if y <= j then y else y - 1;
        KidsOwned(t, n, p, z);
        if z < j { KidsDistinct(t, p, z, j); }
        if j < z { KidsDistinct(t, p, j, z); }
        RightKidsOwned(t, n, r, at, p, j, q.kids[z]);
        if z != j { CutOther(t, n, r, at, p, j, q.kids[z]); }
      }
    }
    KidsIntro(nodes', p);
  }

  lemma RightKidsOwned<N, R>(t: Shape<N, R>, n: N, r: N, at: nat, p: N, j: nat, c: N)
    requires CutReady(t, n, r, at, p, j) && c in t.nodes && t.nodes[c].parent != Some(n)
    ensures c !in RightPart(t.nodes[n], at).kids
  {
    hide LocalOk, KidsOk, ParentOk, NextOk, HomesOk, Formed;
    if c in RightPart(t.nodes[n], at).kids {
      var z: nat :| z < |t.nodes[n].kids| - at - 1 && t.nodes[n].kids[at + 1..][z] == c;
      KidsOwned(t, n, n, at + 1 + z);
    }
  }

  lemma CutKids<N, R>(t: Shape<N, R>, n: N, r: N, at: nat, p: N, j: nat, x: N)
    requires CutReady(t, n, r, at, p, j) && x in Cut(t, n, r, at, p, j).nodes
    ensures KidsOk(Cut(t, n, r, at, p, j).nodes, x)
  {
    hide Formed, KidsOk, Cut;
    CutNodes(t, n, r, at, p, j);
    if x == n { CutKidsLeft(t, n, r, at, p, j); }
    else if x == r { CutKidsRight(t, n, r, at, p, j); }
    else if x == p { CutKidsAbove(t, n, r, at, p, j); }
    else { CutKidsElsewhere(t, n, r, at, p, j, x); }
  }

  lemma CutParents<N, R>(t: Shape<N, R>, n: N, r: N, at: nat, p: N, j: nat, x: N)
    requires CutReady(t, n, r, at, p, j) && x in Cut(t, n, r, at, p, j).nodes
    ensures t.root in Cut(t, n, r, at, p, j).nodes && ParentOk(t.root, Cut(t, n, r, at, p, j).nodes, x)
  {
    hide LocalOk, KidsOk, NextOk, HomesOk, Formed, Cut;
    CutPlaces(t, n, r, at, p, j);
    CutNodes(t, n, r, at, p, j);
    var i, q, nodes' := t.nodes[n], t.nodes[p], Cut(t, n, r, at, p, j).nodes;
    Heights(t, n);
    Heights(t, p);
    CutOther(t, n, r, at, p, j, t.root);
    FormedNode(t, t.root);
    RightKidsOwned(t, n, r, at, p, j, t.root);
    if x == n {
      assert nodes'[p].kids[j] == n;
    } else if x == r {
      assert nodes'[p].kids[j + 1] == r;
    } else {
      FormedNode(t, x);
      CutOther(t, n, r, at, p, j, x);
      if x != t.root && x !in RightPart(i, at).kids {
        var o := t.nodes[x].parent.value;
        var y: nat :| y < |t.nodes[o].kids| && t.nodes[o].kids[y] == x;
        if o == n {
          PartKids(t, n, r, at, p, j, y);
          assert nodes'[n].kids[y] == x;
        } else if o == p {
          assert nodes'[p].kids[if y <= j then y else y + 1] == x;
        } else {
          CutOther(t, n, r, at, p, j, o);
        }
      }
    }
  }

  lemma CutNexts<N, R>(t: Shape<N, R>, n: N, r: N, at: nat, p: N, j: nat, x: N)
    requires CutReady(t, n, r, at, p, j) && x in Cut(t, n, r, at, p, j).nodes
    ensures NextOk(Cut(t, n, r, at, p, j).nodes, x)
  {
    hide LocalOk, KidsOk, ParentOk, HomesOk, Formed, Cut;
    CutPlaces(t, n, r, at, p, j);
    CutNodes(t, n, r, at, p, j);
    var y := if x == r then n else x;
    FormedNode(t, y);
    if y != n { CutOther(t, n, r, at, p, j, y); }
    if t.nodes[y].next.Some? && t.nodes[y].height == 0 {
      var z := t.nodes[y].next.value;
      if z != n { CutOther(t, n, r, at, p, j, z); }
    }
  }

  lemma CutHomes<N, R>(t: Shape<N, R>, n: N, r: N, at: nat, p: N, j: nat)
    requires CutReady(t, n, r, at, p, j)
    ensures HomesOk(Cut(t, n, r, at, p, j))
  {
    hide LocalOk, KidsOk, ParentOk, NextOk, Formed, Cut, HomesOk;
    CutPlaces(t, n, r, at, p, j);
    CutNodes(t, n, r, at, p, j);
    FormedHomes(t);
    FormedNode(t, n);
    LocalOf(t.nodes[n]);
    var i, t' := t.nodes[n], Cut(t, n, r, at, p, j);
    forall k | k in t'.m ensures k in t'.home && t'.home[k] in t'.nodes && t'.nodes[t'.home[k]].height == 0 &&
           k in t'.nodes[t'.home[k]].keys {
      CutHome(t, n, r, at, p, j, k);
    }
    forall x, y | x in t'.nodes && t'.nodes[x].height == 0 && 0 <= y < |t'.nodes[x].keys| ensures HomeOk(t', x, y) {
      if x != n && x != r { CutOther(t, n, r, at, p, j, x); }
      HomesHere(t, if x == r then n else x, if x == r then at + y else y);
    }
    HomesIntro(t', t);
  }

  lemma HomesHere<N, R>(t: Shape<N, R>, n: N, x: nat)
    requires Formed(t) && n in t.nodes && t.nodes[n].height == 0
    ensures x < |t.nodes[n].keys| ==> HomeOk(t, n, x)
  {
    hide LocalOk, KidsOk, ParentOk, NextOk, Formed;
    FormedHomes(t);
  }

  lemma HomesIntro<N, R>(t': Shape<N, R>, t: Shape<N, R>)
    requires Formed(t) && t'.m == t.m
    requires forall k | k in t'.m ::
               && k in t'.home && t'.home[k] in t'.nodes
               && t'.nodes[t'.home[k]].height == 0 && k in t'.nodes[t'.home[k]].keys
    requires forall n, x | n in t'.nodes && t'.nodes[n].height == 0 && 0 <= x < |t'.nodes[n].keys| :: HomeOk(t', n, x)
    ensures HomesOk(t')
  {
    hide LocalOk, KidsOk, ParentOk, NextOk, Formed, HomeOk;
    FormedHomes(t);
  }

  lemma CutHome<N, R>(t: Shape<N, R>, n: N, r: N, at: nat, p: N, j: nat, k: int)
    requires CutReady(t, n, r, at, p, j) && k in t.m
    ensures var t' := Cut(t, n, r, at, p, j);
            k in t'.home && t'.home[k] in t'.nodes && t'.nodes[t'.home[k]].height == 0 && k in t'.nodes[t'.home[k]].keys
  {
    hide LocalOk, KidsOk, ParentOk, NextOk, Formed;
    CutPlaces(t, n, r, at, p, j);
    CutNodes(t, n, r, at, p, j);
    FormedHomes(t);
    FormedNode(t, n);
    LocalOf(t.nodes[n]);
    var i, h := t.nodes[n], t.home[k];
    if i.height == 0 && k in i.keys[at..] {
    } else if h == n {
      assert i.keys == i.keys[..at] + i.keys[at..];
    } else {
      CutOther(t, n, r, at, p, j, h);
    }
  }

  /** A cut leaves a well-formed tree with the same contents. */
  lemma CutFormed<N, R>(t: Shape<N, R>, n: N, r: N, at: nat, p: N, j: nat)
    requires CutReady(t, n, r, at, p, j)
    ensures Formed(Cut(t, n, r, at, p, j))
  {
    hide LocalOk, KidsOk, ParentOk, NextOk, Formed, Cut, HomesOk;
    CutNodes(t, n, r, at, p, j);
    CutPlaces(t, n, r, at, p, j);
    var t' := Cut(t, n, r, at, p, j);
    forall x | x in t'.nodes
      ensures LocalOk(t'.nodes[x]) && KidsOk(t'.nodes, x) && ParentOk(t'.root, t'.nodes, x) && NextOk(t'.nodes, x)
    {
      CutLocal(t, n, r, at, p, j, x);
      CutKids(t, n, r, at, p, j, x);
      CutParents(t, n, r, at, p, j, x);
      CutNexts(t, n, r, at, p, j, x);
    }
    CutHomes(t, n, r, at, p, j);
    Form(t');
  }
}
