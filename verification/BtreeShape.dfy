/** The shape of a B+ tree, as a map from nodes to what they hold (src/btree/btree.h, src/btree/btree.c). */
module BtreeShape {
  import opened Orders

  /**
   * What a node holds. Leaves are the nodes of height 0. A node covers the keys from lo (or all, if none) up to but
   * excluding hi.
   */
  datatype Info<N, R> = Info(
    height: nat, keys: seq<int>, kids: seq<N>, recs: seq<R>,
    parent: Option<N>, next: Option<N>, lo: Option<int>, hi: Option<int>)

  type Nodes<N, R> = map<N, Info<N, R>>

  /** A tree, with the records it maps keys to, and for each key its leaf. */
  datatype Shape<N, R> = Shape(root: N, nodes: Nodes<N, R>, m: map<int, R>, home: map<int, N>)

  predicate Covers<N, R>(i: Info<N, R>, k: int) {
    (i.lo.Some? ==> i.lo.value <= k) && (i.hi.Some? ==> k < i.hi.value)
  }

  predicate Inside<N, R>(i: Info<N, R>, k: int) {
    (i.lo.Some? ==> i.lo.value < k) && (i.hi.Some? ==> k < i.hi.value)
  }

  predicate Increasing(keys: seq<int>) {
    forall a, b | 0 <= a < b < |keys| :: keys[a] < keys[b]
  }

  lemma IncreasingAt(keys: seq<int>, a: nat, b: nat)
    requires Increasing(keys) && a <= b < |keys|
    ensures keys[a] <= keys[b] && (a < b ==> keys[a] < keys[b])
  {
  }

  lemma IncreasingSlice(keys: seq<int>, a: nat, b: nat)
    requires Increasing(keys) && a <= b <= |keys|
    ensures Increasing(keys[a..b])
    ensures forall k | k in keys[a..b] ::
            k in keys && (a > 0 ==> keys[a - 1] < k) && keys[a] <= k && (b < |keys| ==> k < keys[b])
  {
  }

  /** A node by itself: keys in order and within its bounds, as many records or children as there should be. */
  ghost predicate LocalOk<N, R>(i: Info<N, R>) {
    match i
    case Info(height, keys, kids, recs, parent, next, lo, hi) =>
      && (lo.Some? && hi.Some? ==> lo.value < hi.value)
      && Increasing(keys)
      && if height == 0 then
           kids == [] && |recs| == |keys| && forall k | k in keys :: Covers(i, k)
         else
           |kids| == |keys| + 1 && recs == [] && next == None && forall k | k in keys :: Inside(i, k)
  }

  ghost function KidLo<N, R>(i: Info<N, R>, x: nat): Option<int>
    requires x <= |i.keys|
  {
    if x == 0 then i.lo else Some(i.keys[x - 1])
  }

  ghost function KidHi<N, R>(i: Info<N, R>, x: nat): Option<int>
    requires x <= |i.keys|
  {
    if x == |i.keys| then i.hi else Some(i.keys[x])
  }

  /** A child one level down, pointing back at its parent, between the separators around it. */
  ghost predicate KidOk<N, R>(nodes: Nodes<N, R>, n: N, x: nat)
    requires n in nodes && x < |nodes[n].kids| <= |nodes[n].keys| + 1
  {
    var i := nodes[n];
    && i.kids[x] in nodes
    && var c := nodes[i.kids[x]];
       c.parent == Some(n) && c.height + 1 == i.height && c.lo == KidLo(i, x) && c.hi == KidHi(i, x)
  }

  ghost predicate KidsOk<N, R>(nodes: Nodes<N, R>, n: N)
    requires n in nodes
  {
    && |nodes[n].kids| <= |nodes[n].keys| + 1
    && forall x: nat | x < |nodes[n].kids| :: KidOk(nodes, n, x)
  }

  /** The root alone is on top; every other node is a child of its parent. */
  ghost predicate ParentOk<N, R>(root: N, nodes: Nodes<N, R>, n: N)
    requires root in nodes && n in nodes
  {
    var i := nodes[n];
    && i.height <= nodes[root].height
    && (n == root <==> i.height == nodes[root].height)
    && (n == root <==> i.parent == None)
    && (n == root ==> i.lo == i.hi == None)
    && (n != root ==> i.parent.value in nodes && n in nodes[i.parent.value].kids)
  }

  /** The leaves are chained: the next leaf begins where this one ends. */
  ghost predicate NextOk<N, R>(nodes: Nodes<N, R>, n: N)
    requires n in nodes
  {
    var i := nodes[n];
    i.height == 0 ==>
      && (i.next == None <==> i.hi == None)
      && (i.next.Some? ==> i.next.value in nodes && nodes[i.next.value].height == 0 && nodes[i.next.value].lo == i.hi)
  }

  /** The keys and records of the leaves are those of the map, and no record has two keys. */
  ghost predicate HomesOk<N, R>(t: Shape<N, R>) {
    match t
    case Shape(root, nodes, m, home) =>
      && (forall k | k in m :: k in home && home[k] in nodes && nodes[home[k]].height == 0 && k in nodes[home[k]].keys)
      && (forall n, x | n in nodes && nodes[n].height == 0 && 0 <= x < |nodes[n].keys| :: HomeOk(t, n, x))
      && (forall k, k' | k in m && k' in m && k != k' :: m[k] != m[k'])
  }

  ghost predicate HomeOk<N, R>(t: Shape<N, R>, n: N, x: int)
    requires n in t.nodes && 0 <= x < |t.nodes[n].keys|
  {
    var i := t.nodes[n];
    i.keys[x] in t.m && x < |i.recs| && t.m[i.keys[x]] == i.recs[x]
  }

  ghost predicate Formed<N, R>(t: Shape<N, R>) {
    match t
    case Shape(root, nodes, m, home) =>
      && root in nodes
      && (forall n | n in nodes :: LocalOk(nodes[n]))
      && (forall n | n in nodes :: KidsOk(nodes, n))
      && (forall n | n in nodes :: ParentOk(root, nodes, n))
      && (forall n | n in nodes :: NextOk(nodes, n))
      && HomesOk(t)
  }

  lemma FormedNode<N, R>(t: Shape<N, R>, n: N)
    requires Formed(t) && n in t.nodes
    ensures t.root in t.nodes
    ensures LocalOk(t.nodes[n]) && KidsOk(t.nodes, n) && ParentOk(t.root, t.nodes, n) && NextOk(t.nodes, n)
  {
    hide LocalOk, KidsOk, ParentOk, NextOk, HomesOk;
  }

  lemma FormedHomes<N, R>(t: Shape<N, R>)
    requires Formed(t)
    ensures HomesOk(t)
  {
    hide LocalOk, KidsOk, ParentOk, NextOk, HomesOk;
  }

  lemma Form<N, R>(t: Shape<N, R>)
    requires t.root in t.nodes && HomesOk(t)
    requires forall n | n in t.nodes ::
               LocalOk(t.nodes[n]) && KidsOk(t.nodes, n) && ParentOk(t.root, t.nodes, n) && NextOk(t.nodes, n)
    ensures Formed(t)
  {
    hide LocalOk, KidsOk, ParentOk, NextOk, HomesOk;
  }

  lemma LocalOf<N, R>(i: Info<N, R>)
    requires LocalOk(i)
    ensures Increasing(i.keys) && (i.lo.Some? && i.hi.Some? ==> i.lo.value < i.hi.value)
    ensures if i.height == 0 then i.kids == [] && |i.recs| == |i.keys|
            else |i.kids| == |i.keys| + 1 && i.recs == [] && i.next == None
    ensures forall k | k in i.keys :: Covers(i, k) && (i.height > 0 ==> Inside(i, k))
  {
  }

  // ---------------------------------------------------------------- finding the way

  /** The bounds of a child lie within its parent's. */
  lemma KidCovers<N, R>(t: Shape<N, R>, n: N, x: nat, k: int)
    requires Formed(t) && n in t.nodes && x < |t.nodes[n].kids|
    ensures t.nodes[n].kids[x] in t.nodes && t.nodes[t.nodes[n].kids[x]].height + 1 == t.nodes[n].height
    ensures |t.nodes[n].kids| == |t.nodes[n].keys| + 1
    ensures Covers(t.nodes[t.nodes[n].kids[x]], k) ==> Covers(t.nodes[n], k)
    ensures Covers(t.nodes[t.nodes[n].kids[x]], k) <==>
            Covers(t.nodes[n], k) && (x > 0 ==> t.nodes[n].keys[x - 1] <= k) &&
              (x < |t.nodes[n].keys| ==> k < t.nodes[n].keys[x])
  {
    hide ParentOk, NextOk, HomesOk, Formed;
    FormedNode(t, n);
    LocalOf(t.nodes[n]);
    assert KidOk(t.nodes, n, x);
    if x > 0 { assert t.nodes[n].keys[x - 1] in t.nodes[n].keys; }
    if x < |t.nodes[n].keys| { assert t.nodes[n].keys[x] in t.nodes[n].keys; }
  }

  /** On one level at most one node covers a key. */
  lemma {:induction false} OneCover<N, R>(t: Shape<N, R>, a: N, b: N, k: int)
    requires Formed(t) && a in t.nodes && b in t.nodes
    requires t.nodes[a].height == t.nodes[b].height && Covers(t.nodes[a], k) && Covers(t.nodes[b], k)
    requires t.root in t.nodes && t.nodes[a].height <= t.nodes[t.root].height
    ensures a == b
    decreases t.nodes[t.root].height - t.nodes[a].height
  {
    hide LocalOk, NextOk, HomesOk, Formed, KidsOk;
    FormedNode(t, a);
    FormedNode(t, b);
    if a != t.root {
      var p, q := t.nodes[a].parent.value, t.nodes[b].parent.value;
      var x: nat :| x < |t.nodes[p].kids| && t.nodes[p].kids[x] == a;
      var y: nat :| y < |t.nodes[q].kids| && t.nodes[q].kids[y] == b;
      KidCovers(t, p, x, k);
      KidCovers(t, q, y, k);
      FormedNode(t, p);
      OneCover(t, p, q, k);
      OneKid(t.nodes[p], x, y, k);
    }
  }

  lemma OneKid<N, R>(i: Info<N, R>, x: nat, y: nat, k: int)
    requires LocalOk(i) && x <= |i.keys| && y <= |i.keys|
    requires (x > 0 ==> i.keys[x - 1] <= k) && (x < |i.keys| ==> k < i.keys[x])
    requires (y > 0 ==> i.keys[y - 1] <= k) && (y < |i.keys| ==> k < i.keys[y])
    ensures x == y
  {
    LocalOf(i);
    assert forall a, b | 0 <= a <= b < |i.keys| :: i.keys[a] <= i.keys[b];
  }

  /** The leaf that covers a key decides whether the key is in the map. */
  lemma LeafDecides<N, R>(t: Shape<N, R>, n: N, k: int)
    requires Formed(t) && n in t.nodes && t.nodes[n].height == 0 && Covers(t.nodes[n], k)
    ensures k in t.m <==> k in t.nodes[n].keys
    ensures k in t.m ==> k in t.home && t.home[k] == n
    ensures |t.nodes[n].recs| == |t.nodes[n].keys|
    ensures forall x | 0 <= x < |t.nodes[n].keys| ::
            t.nodes[n].keys[x] in t.m && t.m[t.nodes[n].keys[x]] == t.nodes[n].recs[x]
  {
    hide LocalOk, KidsOk, ParentOk, NextOk, Formed;
    FormedHomes(t);
    FormedNode(t, n);
    LocalOf(t.nodes[n]);
    forall x | 0 <= x < |t.nodes[n].keys|
      ensures t.nodes[n].keys[x] in t.m && t.m[t.nodes[n].keys[x]] == t.nodes[n].recs[x] {
      assert HomeOk(t, n, x);
    }
    if k in t.m {
      var h := t.home[k];
      FormedNode(t, h);
      LocalOf(t.nodes[h]);
      Heights(t, n);
      OneCover(t, n, h, k);
    }
  }

  lemma Heights<N, R>(t: Shape<N, R>, n: N)
    requires Formed(t) && n in t.nodes
    ensures t.root in t.nodes && t.nodes[n].height <= t.nodes[t.root].height
    ensures t.nodes[n].height == t.nodes[t.root].height <==> n == t.root
  {
    hide LocalOk, KidsOk, NextOk, HomesOk, Formed;
    FormedNode(t, n);
  }

  /** No node is twice among the children of a node. */
  lemma KidsDistinct<N, R>(t: Shape<N, R>, n: N, x: nat, y: nat)
    requires Formed(t) && n in t.nodes && x < y < |t.nodes[n].kids|
    ensures t.nodes[n].kids[x] != t.nodes[n].kids[y]
  {
    hide ParentOk, NextOk, HomesOk, Formed;
    FormedNode(t, n);
    var i := t.nodes[n];
    LocalOf(i);
    assert KidOk(t.nodes, n, x) && KidOk(t.nodes, n, y);
    assert i.keys[y - 1] in i.keys;
    if x > 0 { assert i.keys[x - 1] < i.keys[y - 1]; }
  }

  /** The only leaf before a leaf is the one that ends where it begins. */
  lemma OnePrevious<N, R>(t: Shape<N, R>, a: N, b: N)
    requires Formed(t) && a in t.nodes && b in t.nodes && t.nodes[a].height == t.nodes[b].height == 0
    requires t.nodes[a].hi == t.nodes[b].hi
    ensures a == b
  {
    hide LocalOk, KidsOk, ParentOk, NextOk, HomesOk, Formed;
    FormedNode(t, a);
    FormedNode(t, b);
    LocalOf(t.nodes[a]);
    LocalOf(t.nodes[b]);
    var i, j := t.nodes[a], t.nodes[b];
    Heights(t, a);
    var k := if i.hi.Some? then i.hi.value - 1
             else if i.lo.None? then (if j.lo.None? then 0 else j.lo.value)
             else if j.lo.None? || j.lo.value < i.lo.value then i.lo.value else j.lo.value;
    OneCover(t, a, b, k);
  }

  /** The leaf chain is in key order, and passes over no key. */
  lemma ChainInOrder<N, R>(t: Shape<N, R>, l: N, r: N)
    requires Formed(t) && l in t.nodes && t.nodes[l].height == 0 && t.nodes[l].next == Some(r)
    ensures r in t.nodes && t.nodes[r].height == 0
    ensures forall a, b | a in t.nodes[l].keys && b in t.nodes[r].keys :: a < b
    ensures forall a, b, k | a in t.nodes[l].keys && b in t.nodes[r].keys && k in t.m && a <= k <= b ::
              k in t.nodes[l].keys || k in t.nodes[r].keys
  {
    hide LocalOk, KidsOk, ParentOk, HomesOk, Formed;
    FormedNode(t, l);
    FormedNode(t, r);
    LocalOf(t.nodes[l]);
    LocalOf(t.nodes[r]);
    forall a, b, k | a in t.nodes[l].keys && b in t.nodes[r].keys && k in t.m && a <= k <= b
      ensures k in t.nodes[l].keys || k in t.nodes[r].keys
    {
      if k < t.nodes[l].hi.value {
        LeafDecides(t, l, k);
      } else {
        LeafDecides(t, r, k);
      }
    }
  }

  // ---------------------------------------------------------------- the whole chain

  /** The leaves that begin where leaf l does or to its right. */
  ghost function Rightward<N, R>(t: Shape<N, R>, l: N): set<N>
    requires l in t.nodes
  {
    set n | n in t.nodes && t.nodes[n].height == 0 && BeginsAfter(t.nodes[l], t.nodes[n])
  }

  predicate BeginsAfter<N, R>(i: Info<N, R>, j: Info<N, R>) {
    i.lo.Some? ==> j.lo.Some? && i.lo.value <= j.lo.value
  }

  lemma NextRightward<N, R>(t: Shape<N, R>, l: N)
    requires Formed(t) && l in t.nodes && t.nodes[l].height == 0 && t.nodes[l].next.Some?
    ensures var r := t.nodes[l].next.value;
            r in t.nodes && t.nodes[r].height == 0 && Rightward(t, r) < Rightward(t, l)
    ensures t.nodes[l].hi.Some? && t.nodes[t.nodes[l].next.value].lo == t.nodes[l].hi
  {
    hide LocalOk, KidsOk, ParentOk, HomesOk, Formed;
    FormedNode(t, l);
    LocalOf(t.nodes[l]);
    var r := t.nodes[l].next.value;
    assert l in Rightward(t, l) && l !in Rightward(t, r);
  }

  /** The keys met by walking the chain from leaf l to its end. */
  ghost function ChainKeys<N, R>(t: Shape<N, R>, l: N): seq<int>
    requires Formed(t) && l in t.nodes && t.nodes[l].height == 0
    decreases Rightward(t, l)
  {
    if t.nodes[l].next.None? then t.nodes[l].keys
    else
      NextRightward(t, l);
      t.nodes[l].keys + ChainKeys(t, t.nodes[l].next.value)
  }

  /** Walking the chain from any leaf lists, in order, all keys of the map from where the leaf begins. */
  lemma {:induction false} ChainLists<N, R>(t: Shape<N, R>, l: N)
    requires Formed(t) && l in t.nodes && t.nodes[l].height == 0
    ensures Increasing(ChainKeys(t, l))
    ensures forall k :: k in ChainKeys(t, l) <==> k in t.m && (t.nodes[l].lo.Some? ==> t.nodes[l].lo.value <= k)
    decreases Rightward(t, l)
  {
    hide LocalOk, KidsOk, ParentOk, HomesOk, Formed, Rightward;
    var i := t.nodes[l];
    FormedNode(t, l);
    LocalOf(i);
    forall k | Covers(i, k) ensures k in i.keys <==> k in t.m { LeafDecides(t, l, k); }
    if i.next.Some? {
      NextRightward(t, l);
      ChainLists(t, i.next.value);
      var rest := ChainKeys(t, i.next.value);
      forall a, b | 0 <= a < b < |i.keys + rest| ensures (i.keys + rest)[a] < (i.keys + rest)[b] {
        if a < |i.keys| <= b { assert i.keys[a] in i.keys && rest[b - |i.keys|] in rest; }
      }
      forall k ensures k in i.keys + rest <==> k in t.m && (i.lo.Some? ==> i.lo.value <= k) {
        assert k in i.keys + rest <==> k in i.keys || k in rest;
      }
    }
  }

  /** Down the first children from a node that covers everything to the left. */
  ghost function Leftmost<N, R>(t: Shape<N, R>, n: N): (l: N)
    requires Formed(t) && n in t.nodes && t.nodes[n].lo == None
    ensures l in t.nodes && t.nodes[l].height == 0 && t.nodes[l].lo == None
    decreases t.nodes[n].height
  {
    if t.nodes[n].height == 0 then n
    else
      FormedNode(t, n);
      LocalOf(t.nodes[n]);
      assert KidOk(t.nodes, n, 0);
      Leftmost(t, t.nodes[n].kids[0])
  }

  /** From the leftmost leaf, the chain lists all keys of the map in order. */
  lemma ChainListsAll<N, R>(t: Shape<N, R>)
    requires Formed(t)
    ensures t.root in t.nodes && t.nodes[t.root].lo == None
    ensures Increasing(ChainKeys(t, Leftmost(t, t.root)))
    ensures forall k :: k in ChainKeys(t, Leftmost(t, t.root)) <==> k in t.m
  {
    hide LocalOk, KidsOk, HomesOk, NextOk, Leftmost, ChainKeys;
    assert t.root in t.nodes && ParentOk(t.root, t.nodes, t.root);
    ChainLists(t, Leftmost(t, t.root));
  }

  /** Separators bound the subtrees: a key of the map goes to the child between the separators around it. */
  lemma SeparatorsBound<N, R>(t: Shape<N, R>, n: N, x: nat, k: int)
    requires Formed(t) && n in t.nodes && x < |t.nodes[n].kids| && k in t.m
    ensures |t.nodes[n].kids| == |t.nodes[n].keys| + 1 && t.nodes[n].kids[x] in t.nodes
    ensures Beneath(t, t.nodes[n].kids[x], k) <==>
            Beneath(t, n, k) && (x > 0 ==> t.nodes[n].keys[x - 1] <= k) &&
              (x < |t.nodes[n].keys| ==> k < t.nodes[n].keys[x])
  {
    hide LocalOk, KidsOk, ParentOk, HomesOk, Formed, NextOk;
    KidCovers(t, n, x, k);
    BeneathCovers(t, n, k);
    BeneathCovers(t, t.nodes[n].kids[x], k);
  }

  /** A key's leaf is reached from a node by going down: the node is on the way from the leaf to the root. */
  ghost predicate Beneath<N, R>(t: Shape<N, R>, n: N, k: int)
    requires Formed(t) && n in t.nodes && k in t.m
  {
    FormedHomes(t);
    OnTheWay(t, t.home[k], n)
  }

  /** Going up by parent pointers leads from a to b. */
  ghost predicate OnTheWay<N, R>(t: Shape<N, R>, a: N, b: N)
    requires Formed(t) && a in t.nodes && b in t.nodes
    decreases if t.root in t.nodes then t.nodes[t.root].height - t.nodes[a].height else 0
  {
    FormedNode(t, a);
    a == b || (a != t.root && Higher(t, a) && OnTheWay(t, t.nodes[a].parent.value, b))
  }

  ghost predicate Higher<N, R>(t: Shape<N, R>, a: N)
    requires Formed(t) && a in t.nodes && a != t.root
    ensures t.nodes[a].parent.Some? && t.nodes[a].parent.value in t.nodes
    ensures t.nodes[t.nodes[a].parent.value].height == t.nodes[a].height + 1
    ensures t.root in t.nodes && t.nodes[t.nodes[a].parent.value].height <= t.nodes[t.root].height
    ensures Higher(t, a)
  {
    FormedNode(t, a);
    var p := t.nodes[a].parent.value;
    assert t.nodes[p].height == t.nodes[a].height + 1 by {
      var x: nat :| x < |t.nodes[p].kids| && t.nodes[p].kids[x] == a;
      KidCovers(t, p, x, 0);
    }
    Heights(t, p);
    true
  }

  /** A node is on the way from a key's leaf to the root exactly when it covers the key. */
  lemma BeneathCovers<N, R>(t: Shape<N, R>, n: N, k: int)
    requires Formed(t) && n in t.nodes && k in t.m
    ensures Beneath(t, n, k) <==> Covers(t.nodes[n], k)
  {
    hide LocalOk, KidsOk, ParentOk, Formed, NextOk;
    FormedHomes(t);
    var h := t.home[k];
    FormedNode(t, h);
    LocalOf(t.nodes[h]);
    WayCovers(t, h, n, k);
  }

  lemma {:induction false} WayCovers<N, R>(t: Shape<N, R>, a: N, n: N, k: int)
    requires Formed(t) && a in t.nodes && n in t.nodes && Covers(t.nodes[a], k) &&
             t.nodes[a].height <= t.nodes[n].height
    ensures OnTheWay(t, a, n) <==> Covers(t.nodes[n], k)
    decreases t.nodes[n].height - t.nodes[a].height
  {
    hide LocalOk, KidsOk, Formed, NextOk, HomesOk, OnTheWay;
    Heights(t, a);
    Heights(t, n);
    WayStep(t, a, n);
    if t.nodes[a].height == t.nodes[n].height {
      if Covers(t.nodes[n], k) { OneCover(t, a, n, k); }
      if a != n && a != t.root { TooHigh(t, t.nodes[a].parent.value, n); }
    } else {
      FormedNode(t, a);
      var p := t.nodes[a].parent.value;
      var x: nat :| x < |t.nodes[p].kids| && t.nodes[p].kids[x] == a;
      KidCovers(t, p, x, k);
      WayCovers(t, p, n, k);
    }
  }

  lemma WayStep<N, R>(t: Shape<N, R>, a: N, n: N)
    requires Formed(t) && a in t.nodes && n in t.nodes
    ensures a != t.root ==> t.nodes[a].parent.Some? && t.nodes[a].parent.value in t.nodes
    ensures a != t.root ==> t.nodes[t.nodes[a].parent.value].height == t.nodes[a].height + 1
    ensures OnTheWay(t, a, n) <==> a == n || (a != t.root && OnTheWay(t, t.nodes[a].parent.value, n))
  {
    hide Formed;
    if a != t.root { assert Higher(t, a); }
  }

  lemma {:induction false} TooHigh<N, R>(t: Shape<N, R>, a: N, n: N)
    requires Formed(t) && a in t.nodes && n in t.nodes && t.nodes[a].height > t.nodes[n].height
    ensures !OnTheWay(t, a, n)
    decreases if t.root in t.nodes then t.nodes[t.root].height - t.nodes[a].height else 0
  {
    hide Formed, OnTheWay;
    Heights(t, a);
    WayStep(t, a, n);
    if a != t.root {
      Heights(t, t.nodes[a].parent.value);
      TooHigh(t, t.nodes[a].parent.value, n);
    }
  }
}
