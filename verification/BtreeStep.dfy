/** The steps of insertion and deletion in a B+ tree, each kept in line with the tree's shape (src/btree/btree.c). */
module BtreeSteps {
  import opened Orders
  import opened BtreeShape
  import opened BtreeCuts
  import opened BtreeJoins
  import opened BtreeEdits
  import opened BtreeSizes
  import opened BtreeNodes
  import opened BtreeEntries

  type Tree = Shape<BtNode, Record>
  type NodeMap = Nodes<BtNode, Record>

  lemma MirrorAt(order: nat, nodes: NodeMap, n: BtNode)
    requires Mirror(order, nodes) && n in nodes
    ensures Shows(order, n.All(), nodes[n])
  {
    hide Shows;
  }

  /** A node's children handed to the node q. */
  ghost function Adopted(nodes: NodeMap, kids: seq<BtNode>, q: BtNode): NodeMap {
    map x | x in nodes :: if x in kids then nodes[x].(parent := Some(q)) else nodes[x]
  }

  /** The loop that makes all children of a node point up at it. */
  method AdoptKids(order: nat, q: BtNode, ghost nodes: NodeMap)
    requires Mirror(order, nodes) && q in nodes && nodes[q].height > 0
    requires q !in nodes[q].kids && forall c | c in nodes[q].kids :: c in nodes
    modifies set c | c in nodes[q].kids
    ensures Mirror(order, Adopted(nodes, nodes[q].kids, q))
  {
    hide Shows;
    ghost var kids := nodes[q].kids;
    MirrorAt(order, nodes, q);
    Shown(order, q.All(), nodes[q]);
    AdoptNone(nodes, q);
    var i := 0;
    while i <= q.numKeys
      invariant 0 <= i <= |kids| == q.numKeys + 1 && q.All() == old(q.All())
      invariant Mirror(order, Adopted(nodes, kids[..i], q))
      decreases |kids| - i
    {
      var child := q.pointers[i].node;
      assert child in kids;
      MirrorAt(order, Adopted(nodes, kids[..i], q), child);
      SetParent(order, child, q, Some(q), Adopted(nodes, kids[..i], q)[child]);
      AdoptOne(nodes, kids, i, q);
      i := i + 1;
    }
    assert kids[..i] == kids;
  }

  lemma AdoptNone(nodes: NodeMap, q: BtNode)
    requires q in nodes
    ensures Adopted(nodes, nodes[q].kids[..0], q) == nodes
  {
  }

  lemma AdoptOne(nodes: NodeMap, kids: seq<BtNode>, i: nat, q: BtNode)
    requires i < |kids| && kids[i] in nodes
    ensures var a := Adopted(nodes, kids[..i], q);
            kids[i] in a && Adopted(nodes, kids[..i + 1], q) == a[kids[i] := a[kids[i]].(parent := Some(q))]
  {
    assert kids[..i + 1] == kids[..i] + [kids[i]];
  }

  /** A new root node above two nodes. */
  method LinkRoot(order: nat, left: BtNode, key: int, right: BtNode, ghost h: nat, ghost nodes: NodeMap)
    returns (nr: BtNode)
    requires order >= 3 && left in nodes && right in nodes && left != right && Mirror(order, nodes)
    modifies left`parent, right`parent
    ensures fresh(nr) && nr !in nodes
    ensures Mirror(order, nodes[left := nodes[left].(parent := Some(nr))][right := nodes[right].(parent := Some(nr))]
                               [nr := Info(h + 1, [key], [left, right], [], None, None, None, None)])
  {
    hide Shows;
    nr := new BtNode(order, false);
    nr.keys := nr.keys[0 := key];
    nr.pointers := nr.pointers[0 := NodePtr(left)][1 := NodePtr(right)];
    nr.numKeys := nr.numKeys + 1;
    nr.parent := null;
    Show(order, nr.All(), Info(h + 1, [key], [left, right], [], None, None, None, None));
    SetParent(order, left, nr, Some(nr), nodes[left]);
    SetParent(order, right, nr, Some(nr), nodes[right]);
  }

  /** A leaf with one entry. */
  method NewLeaf(order: nat, key: int, pointer: Record) returns (leaf: BtNode)
    requires order >= 3
    ensures fresh(leaf) && Shows(order, leaf.All(), Info(0, [key], [], [pointer], None, None, None, None))
  {
    hide Shows;
    leaf := new BtNode(order, true);
    leaf.keys := leaf.keys[0 := key];
    leaf.pointers := leaf.pointers[0 := RecordPtr(pointer)];
    leaf.pointers := leaf.pointers[order - 1 := NullPtr];
    leaf.parent := null;
    leaf.numKeys := leaf.numKeys + 1;
    Show(order, leaf.All(), Info(0, [key], [], [pointer], None, None, None, None));
  }

  /** btree_insert_into_node, in a tree. */
  method PutKid(order: nat, p: BtNode, j: nat, key: int, right: BtNode, ghost nodes: NodeMap)
    requires p in nodes && Mirror(order, nodes) && nodes[p].height > 0
    requires |nodes[p].keys| + 1 < order && j <= |nodes[p].keys| && |nodes[p].kids| == |nodes[p].keys| + 1
    modifies p
    ensures Mirror(order, nodes[p := WithKid(nodes[p], j, key, right)])
  {
    hide Shows, WithKid;
    InsertIntoNode(order, p, j, key, right, nodes[p]);
  }

  /** The splitting of an inner node that is full, its children's parent pointers included. */
  method ShareNode(order: nat, p: BtNode, j: nat, key: int, right: BtNode, ghost i: Held, ghost nodes: NodeMap)
    returns (newNode: BtNode, kPrime: int)
    requires order >= 3 && p in nodes && Mirror(order, nodes[p := i]) && i.height > 0 && i.recs == []
    requires |i.keys| + 1 == order == |i.kids| && j <= |i.keys| && nodes[p] == WithKid(i, j, key, right)
    requires forall c | c in nodes[p].kids :: c in nodes && c != p
    modifies nodes.Keys
    ensures fresh(newNode) && newNode !in nodes && Cuttable(nodes, p, MinKeys(order, i.height))
    ensures |nodes[p].keys| == order && kPrime == nodes[p].keys[MinKeys(order, i.height)]
    ensures Mirror(order, Halves(nodes, p, newNode, MinKeys(order, i.height)))
  {
    hide Shows, WithKid;
    ghost var at := MinKeys(order, i.height);
    KidSizes(i, j, key, right);
    newNode := new BtNode(order, false);
    kPrime := SplitNode(order, p, newNode, j, key, right, i);
    ghost var base := nodes[p := LeftPart(nodes[p], newNode, at)][newNode := RightPart(nodes[p], at)];
    assert Mirror(order, base);
    forall c | c in base[newNode].kids ensures c in nodes && c != p && c != newNode {
      assert c in nodes[p].kids;
    }
    AdoptKids(order, newNode, base);
    AdoptedHalves(nodes, p, newNode, at);
  }

  lemma AdoptedHalves(nodes: NodeMap, p: BtNode, newNode: BtNode, at: nat)
    requires Cuttable(nodes, p, at) && nodes[p].height > 0 && newNode !in nodes
    requires forall c | c in RightPart(nodes[p], at).kids :: c in nodes && c != p
    ensures var base := nodes[p := LeftPart(nodes[p], newNode, at)][newNode := RightPart(nodes[p], at)];
            Adopted(base, base[newNode].kids, newNode) == Halves(nodes, p, newNode, at)
  {
    hide LeftPart, RightPart;
    var base := nodes[p := LeftPart(nodes[p], newNode, at)][newNode := RightPart(nodes[p], at)];
    var a, b := Adopted(base, base[newNode].kids, newNode), Halves(nodes, p, newNode, at);
    assert a.Keys == b.Keys;
    forall x: BtNode | x in a ensures a[x] == b[x] {}
  }

  ghost function KeyPlace(keys: seq<int>, k: int): (x: nat)
    requires k in keys
    ensures x < |keys| && keys[x] == k
  {
    var x: nat :| x < |keys| && keys[x] == k;
    x
  }

  /** The tree without a key of a leaf, which may be too small now. */
  lemma RemoveBelow(order: nat, t: Tree, n: BtNode, x: nat)
    requires order >= 3 && Formed(t) && Sized(order, t, {}) && n in t.nodes && t.nodes[n].height == 0 &&
             x < |t.nodes[n].keys|
    ensures |t.nodes[n].recs| == |t.nodes[n].keys|
    ensures var i, t' := t.nodes[n], RemoveKey(t, n, x);
            && Formed(t') && Sized(order, t', {n}) && t'.root == t.root && t'.m == t.m - {i.keys[x]}
            && t'.nodes.Keys == t.nodes.Keys && t'.nodes[n := i] == t.nodes
            && HasEntry(i, x, i.keys[x], RecordPtr(i.recs[x])) && t'.nodes[n] == Rest(i, x) && t'.nodes[n].height == 0
            && (n == t.root || |t'.nodes[n].keys| >= MinKeys(order, 0) - 1)
  {
    hide Formed, HomesOk;
    FormedNode(t, n);
    var i := t.nodes[n];
    LocalOf(i);
    SizedAt(order, t, {}, n);
    RemoveKeyFormed(t, n, x);
    FormedHomes(t);
    forall y | 0 <= y < x ensures i.recs[y] != i.recs[x] {
      HomesHere(t, n, y);
      HomesHere(t, n, x);
      IncreasingAt(i.keys, y, x);
      RecordsDiffer(t, i.keys[y], i.keys[x]);
    }
  }

  /** n and its neighbour are the j-th and the next child of p, n the right one unless neighborIndex is -1. */
  ghost predicate Paired(t: Tree, p: BtNode, j: nat, n: BtNode, neighbor: BtNode, neighborIndex: int) {
    && JoinReady(t, p, j) && j == (if neighborIndex == -1 then 0 else neighborIndex)
    && var l, r := t.nodes[p].kids[j], t.nodes[p].kids[j + 1];
       if neighborIndex == -1 then n == l && neighbor == r else neighbor == l && n == r
  }

  /** Two neighbours that do not fit in one node, n having just become too small. */
  ghost predicate Unmergeable(order: nat, t: Tree, l: BtNode, r: BtNode, n: BtNode) {
    && order >= 3 && l in t.nodes && r in t.nodes && (n == l || n == r)
    && |t.nodes[l].keys| + |t.nodes[r].keys| >= (if t.nodes[n].height == 0 then order else order - 1)
    && |t.nodes[n].keys| == MinKeys(order, t.nodes[n].height) - 1
  }

  /** Two neighbours that fit in one node, n having just become too small. */
  ghost predicate Mergeable(order: nat, t: Tree, l: BtNode, r: BtNode, n: BtNode) {
    && order >= 3 && l in t.nodes && r in t.nodes && (n == l || n == r)
    && |t.nodes[l].keys| + |t.nodes[r].keys| < (if t.nodes[l].height == 0 then order else order - 1)
    && |t.nodes[n].keys| == MinKeys(order, t.nodes[n].height) - 1
  }

  /** The tree after the join of two neighbours: their parent, without the right one, may be too small now. */
  lemma MergeBelow(order: nat, t: Tree, p: BtNode, j: nat, n: BtNode)
    requires JoinReady(t, p, j) && Mergeable(order, t, t.nodes[p].kids[j], t.nodes[p].kids[j + 1], n) &&
             Sized(order, t, {n})
    ensures var l, r, i, t' := t.nodes[p].kids[j], t.nodes[p].kids[j + 1], t.nodes[p], Join(t, p, j);
            && Formed(t') && Sized(order, t', {p}) && t'.root == t.root && t'.m == t.m && t.root in t'.nodes
            && p in t'.nodes && t'.nodes.Keys <= t.nodes.Keys
            && HasEntry(i, j, i.keys[j], NodePtr(r)) && t'.nodes[p] == Rest(i, j)
            && (p == t.root || |t'.nodes[p].keys| >= MinKeys(order, t'.nodes[p].height) - 1)
            && t'.nodes[t.root].height == t.nodes[t.root].height &&
               t'.nodes[p].height == t.nodes[n].height + 1 <= t.nodes[t.root].height
            && |t.nodes[l].keys| + |t.nodes[r].keys| + (if t.nodes[l].height == 0 then 0 else 1) < order
  {
    hide Formed, Join;
    var l, r, i := t.nodes[p].kids[j], t.nodes[p].kids[j + 1], t.nodes[p];
    JoinPlaces(t, p, j);
    JoinNodes(t, p, j);
    JoinFormed(t, p, j);
    SizedAt(order, t, {n}, p);
    SizedAt(order, t, {n}, if n == l then r else l);
    Resized(order, t, {n}, {l, r});
    MergeSized(order, t, p, j);
    FormedNode(t, p);
    LocalOf(i);
    Heights(t, p);
    JoinOther(t, p, j, t.root);
    forall y | 0 <= y <= j ensures i.kids[y] != i.kids[j + 1] { KidsDistinct(t, p, y, j + 1); }
  }

  /** A node below the root has a neighbour. */
  lemma NeighboursFound(order: nat, t: Tree, n: BtNode, p: BtNode, k: nat)
    requires order >= 3 && Formed(t) && Sized(order, t, {n}) && n in t.nodes && t.nodes[n].parent == Some(p)
    requires p in t.nodes && k < |t.nodes[p].kids| && t.nodes[p].kids[k] == n
    ensures JoinReady(t, p, if k == 0 then 0 else k - 1)
    ensures t.nodes[p].height == t.nodes[n].height + 1 && forall y | 0 <= y < k :: t.nodes[p].kids[y] != n
    ensures p != n
  {
    hide Formed, LocalOk, ParentOk, NextOk, HomesOk;
    FormedNode(t, p);
    LocalOf(t.nodes[p]);
    KidsOwned(t, p, p, k);
    SizedAt(order, t, {n}, p);
    forall y | 0 <= y < k ensures t.nodes[p].kids[y] != n { KidsDistinct(t, p, y, k); }
    var j: nat := if k == 0 then 0 else k - 1;
    KidsOwned(t, p, p, j);
    KidsOwned(t, p, p, j + 1);
  }

  /**
   * The tree after moving one entry to a node that had become too small, from a neighbour too large to be joined
   * with it.
   */
  lemma ShiftBelow(order: nat, t: Tree, p: BtNode, j: nat, n: BtNode, fromLeft: bool)
    requires JoinReady(t, p, j) && Unmergeable(order, t, t.nodes[p].kids[j], t.nodes[p].kids[j + 1], n) &&
             Sized(order, t, {n})
    requires n == t.nodes[p].kids[if fromLeft then j + 1 else j]
    ensures CanShift(order, t, p, j, fromLeft) && ShiftReady(t, p, j, ShiftAt(t, p, j, fromLeft))
    ensures var t' := Shifted(t, p, j, ShiftAt(t, p, j, fromLeft));
            Formed(t') && Sized(order, t', {}) && t'.root == t.root && t'.m == t.m && t'.nodes.Keys == t.nodes.Keys
  {
    hide Formed, Join, Shifted;
    var l, r, at := t.nodes[p].kids[j], t.nodes[p].kids[j + 1], ShiftAt(t, p, j, fromLeft);
    JoinPlaces(t, p, j);
    SizedAt(order, t, {n}, if n == l then r else l);
    Resized(order, t, {n}, {l, r});
    ShiftFormed(t, p, j, at);
    ShiftNodes(t, p, j, at);
    ShiftSized(order, t, p, j, at);
  }

  /** btree_remove_entry_from_node, in a tree. */
  method TakeOut(order: nat, n: BtNode, key: int, pointer: Pointer, ghost x: nat, ghost i: Held, ghost nodes: NodeMap)
    requires n in nodes && Mirror(order, nodes[n := i]) && HasEntry(i, x, key, pointer) && nodes[n] == Rest(i, x)
    modifies n
    ensures Mirror(order, nodes) && |nodes[n].keys| + 1 < order
  {
    hide Shows, Rest;
    MirrorAt(order, nodes[n := i], n);
    Shown(order, n.All(), i);
    RestSizes(i, x);
    RemoveEntryFromNode(order, n, key, pointer, x, i);
  }

  /** The copying of btree_coalesce_nodes, in a tree: the parent p still has the old children. */
  method AbsorbIn(order: nat, l: BtNode, r: BtNode, kPrime: int, ghost p: BtNode, ghost j: nat, ghost t: Tree)
    requires JoinReady(t, p, j) && l == t.nodes[p].kids[j] && r == t.nodes[p].kids[j + 1] &&
             kPrime == t.nodes[p].keys[j]
    requires Mirror(order, t.nodes)
    requires |t.nodes[l].keys| + |t.nodes[r].keys| + (if t.nodes[l].height == 0 then 0 else 1) < order
    modifies t.nodes.Keys
    ensures Mirror(order, Join(t, p, j).nodes[p := t.nodes[p]])
  {
    hide Shows, Formed, Join, Joined;
    JoinPlaces(t, p, j);
    MirrorAt(order, t.nodes, l);
    MirrorAt(order, t.nodes, r);
    Shown(order, r.All(), t.nodes[r]);
    Absorb(order, l, r, kPrime, t.nodes[l], t.nodes[r]);
    ghost var base := Absorbed(t, p, j);
    assert Mirror(order, base);
    AbsorbedKids(t, p, j);
    if !r.isLeaf {
      AdoptKids(order, l, base);
    }
  }

  /**
   * The tree with the right neighbour's contents in the left one as well, the children still with their old parents.
   */
  ghost function Absorbed(t: Tree, p: BtNode, j: nat): NodeMap
    requires Neighbours(t.nodes, p, j)
  {
    var l, r := t.nodes[p].kids[j], t.nodes[p].kids[j + 1];
    t.nodes[l := Joined(t.nodes[l], t.nodes[r], t.nodes[p].keys[j])] - {r}
  }

  lemma AbsorbedKids(t: Tree, p: BtNode, j: nat)
    requires JoinReady(t, p, j)
    ensures var l, base := t.nodes[p].kids[j], Absorbed(t, p, j);
            && l in base && (forall c | c in base[l].kids :: c in base && c != l && c in t.nodes)
            && base[l].height == t.nodes[l].height
            && Join(t, p, j).nodes[p := t.nodes[p]] ==
               if base[l].height == 0 then base else Adopted(base, base[l].kids, l)
  {
    hide Formed;
    var l, r, base := t.nodes[p].kids[j], t.nodes[p].kids[j + 1], Absorbed(t, p, j);
    JoinPlaces(t, p, j);
    FormedNode(t, l);
    FormedNode(t, r);
    LocalOf(t.nodes[l]);
    LocalOf(t.nodes[r]);
    forall c | c in base[l].kids ensures c in t.nodes && c != l && c != r && c != p &&
           (c in t.nodes[l].kids ==> t.nodes[c].parent == Some(l)) {
      OwnedBy(t, l, c);
      OwnedBy(t, r, c);
    }
    var a := Join(t, p, j).nodes[p := t.nodes[p]];
    var b := if base[l].height == 0 then base else Adopted(base, base[l].kids, l);
    assert a.Keys == b.Keys;
    forall x: BtNode | x in a ensures a[x] == b[x] {}
  }

  lemma OwnedBy(t: Tree, n: BtNode, c: BtNode)
    requires Formed(t) && n in t.nodes
    ensures c in t.nodes[n].kids ==>
            c in t.nodes && t.nodes[c].parent == Some(n) && t.nodes[c].height + 1 == t.nodes[n].height
  {
    hide Formed;
    if c in t.nodes[n].kids {
      var y: nat :| y < |t.nodes[n].kids| && t.nodes[n].kids[y] == c;
      KidsOwned(t, n, n, y);
    }
  }

  /** The child that changes sides when an entry is moved between two inner nodes. */
  ghost function Moved(t: Tree, p: BtNode, j: nat, fromLeft: bool): BtNode
    requires Neighbours(t.nodes, p, j)
    requires var l, r := t.nodes[p].kids[j], t.nodes[p].kids[j + 1]; t.nodes[l].kids != [] && t.nodes[r].kids != []
  {
    var l, r := t.nodes[p].kids[j], t.nodes[p].kids[j + 1];
    if fromLeft then t.nodes[l].kids[|t.nodes[l].kids| - 1] else t.nodes[r].kids[0]
  }

  /** Where the joined contents of two neighbours are cut, if one entry is to move. */
  ghost function ShiftAt(t: Tree, p: BtNode, j: nat, fromLeft: bool): (at: nat)
    requires Neighbours(t.nodes, p, j)
  {
    var n := |t.nodes[t.nodes[p].kids[j]].keys|;
    if !fromLeft then n + 1 else if n > 0 then n - 1 else 0
  }

  /** The joined contents of the two neighbours can be cut there. */
  ghost predicate ShiftFits(t: Tree, p: BtNode, j: nat, fromLeft: bool) {
    && Neighbours(t.nodes, p, j)
    && var both := Joined(t.nodes[t.nodes[p].kids[j]], t.nodes[t.nodes[p].kids[j + 1]], t.nodes[p].keys[j]);
       && ShiftAt(t, p, j, fromLeft) < |both.keys| && |both.recs| == (if both.height == 0 then |both.keys| else 0)
       && |both.kids| == (if both.height == 0 then 0 else |both.keys| + 1)
  }

  /** The two neighbours and their parent after moving one entry. */
  ghost function ShiftedThree(t: Tree, p: BtNode, j: nat, fromLeft: bool): NodeMap
    requires ShiftFits(t, p, j, fromLeft)
  {
    var l, r, at := t.nodes[p].kids[j], t.nodes[p].kids[j + 1], ShiftAt(t, p, j, fromLeft);
    var both := Joined(t.nodes[l], t.nodes[r], t.nodes[p].keys[j]);
    t.nodes[l := LeftPart(both, r, at)][r := RightPart(both, at)]
           [p := t.nodes[p].(keys := t.nodes[p].keys[j := both.keys[at]])]
  }

  /** Some nodes with these three in place of what they are for them. */
  ghost function WithThree(t: Tree, p: BtNode, j: nat, fromLeft: bool, nodes: NodeMap): NodeMap
    requires ShiftFits(t, p, j, fromLeft)
  {
    var l, r, three := t.nodes[p].kids[j], t.nodes[p].kids[j + 1], ShiftedThree(t, p, j, fromLeft);
    nodes[l := three[l]][r := three[r]][p := three[p]]
  }

  lemma ThreeAre(t: Tree, p: BtNode, j: nat, fromLeft: bool, nodes: NodeMap)
    requires ShiftFits(t, p, j, fromLeft)
    requires var l, r := t.nodes[p].kids[j], t.nodes[p].kids[j + 1];
             l != r && l != p && r != p && (fromLeft ==> |t.nodes[l].keys| > 0)
    ensures p in t.nodes && j + 1 < |t.nodes[p].kids| && j < |t.nodes[p].keys|
    ensures var l, r, three := t.nodes[p].kids[j], t.nodes[p].kids[j + 1], WithThree(t, p, j, fromLeft, nodes);
            && l in t.nodes && r in t.nodes
            && var both := Joined(t.nodes[l], t.nodes[r], t.nodes[p].keys[j]);
               var at := if fromLeft then |t.nodes[l].keys| - 1 else |t.nodes[l].keys| + 1;
               && at < |both.keys| && |both.recs| == (if both.height == 0 then |both.keys| else 0)
               && |both.kids| == (if both.height == 0 then 0 else |both.keys| + 1)
               && three.Keys == nodes.Keys + {l, r, p} && three[l] == LeftPart(both, r, at) &&
                  three[r] == RightPart(both, at)
               && three[p] == t.nodes[p].(keys := t.nodes[p].keys[j := both.keys[at]])
    ensures var l, r, three := t.nodes[p].kids[j], t.nodes[p].kids[j + 1], WithThree(t, p, j, fromLeft, nodes);
            forall x | x in nodes && x != l && x != r && x != p :: x in three && three[x] == nodes[x]
  {
    hide LeftPart, RightPart, Joined;
  }

  /** The tree after moving one entry between neighbours, node by node. */
  ghost function ShiftedMap(t: Tree, p: BtNode, j: nat, fromLeft: bool): NodeMap
    requires ShiftFits(t, p, j, fromLeft)
  {
    var l, r, nodes := t.nodes[p].kids[j], t.nodes[p].kids[j + 1], ShiftedThree(t, p, j, fromLeft);
    if t.nodes[l].kids == [] || t.nodes[r].kids == [] then nodes
    else
      var c := Moved(t, p, j, fromLeft);
      if c in t.nodes then nodes[c := t.nodes[c].(parent := Some(if fromLeft then r else l))] else nodes
  }

  lemma ShiftFitsReady(t: Tree, p: BtNode, j: nat, fromLeft: bool)
    requires JoinReady(t, p, j) && ShiftReady(t, p, j, ShiftAt(t, p, j, fromLeft))
    ensures ShiftFits(t, p, j, fromLeft)
  {
    hide Formed, Join;
    ShiftNodes(t, p, j, ShiftAt(t, p, j, fromLeft));
  }

  lemma ShiftedMapIs(t: Tree, p: BtNode, j: nat, fromLeft: bool)
    requires JoinReady(t, p, j) && ShiftReady(t, p, j, ShiftAt(t, p, j, fromLeft))
    requires |t.nodes[t.nodes[p].kids[if fromLeft then j else j + 1]].keys| > 0
    ensures ShiftFits(t, p, j, fromLeft)
    ensures Shifted(t, p, j, ShiftAt(t, p, j, fromLeft)).nodes == ShiftedMap(t, p, j, fromLeft)
  {
    hide Formed, Shifted, LeftPart, Join;
    ShiftFitsReady(t, p, j, fromLeft);
    var at, l, r := ShiftAt(t, p, j, fromLeft), t.nodes[p].kids[j], t.nodes[p].kids[j + 1];
    var a, b := Shifted(t, p, j, at).nodes, ShiftedMap(t, p, j, fromLeft);
    JoinPlaces(t, p, j);
    ShiftNodes(t, p, j, at);
    FormedNode(t, l);
    FormedNode(t, r);
    LocalOf(t.nodes[l]);
    LocalOf(t.nodes[r]);
    if t.nodes[l].height > 0 { MovedPlace(t, p, j, fromLeft); }
    assert a.Keys == b.Keys;
    forall x: BtNode | x in a ensures a[x] == b[x] {
      if x != p && x != l && x != r {
        ShiftOther(t, p, j, at, x);
        OwnedBy(t, l, x);
        OwnedBy(t, r, x);
      }
    }
  }

  /** The child that changes sides, and those that do not. */
  lemma MovedPlace(t: Tree, p: BtNode, j: nat, fromLeft: bool)
    requires JoinReady(t, p, j) && ShiftReady(t, p, j, ShiftAt(t, p, j, fromLeft)) &&
             t.nodes[t.nodes[p].kids[j]].height > 0
    requires |t.nodes[t.nodes[p].kids[if fromLeft then j else j + 1]].keys| > 0
    ensures var l, r := t.nodes[p].kids[j], t.nodes[p].kids[j + 1];
            && t.nodes[l].kids != [] && t.nodes[r].kids != []
            && var both, at, c := Joined(t.nodes[l], t.nodes[r], t.nodes[p].keys[j]), ShiftAt(t, p, j, fromLeft),
               Moved(t, p, j, fromLeft);
               && at < |both.keys| && |both.recs| == 0 && |both.kids| == |both.keys| + 1 && both.height > 0
               && c in t.nodes && c != p && c != l && c != r
               && (forall x :: x in RightPart(both, at).kids <==>
                               if fromLeft then x == c || x in t.nodes[r].kids else x in t.nodes[r].kids && x != c)
  {
    hide Formed, Join;
    var l, r := t.nodes[p].kids[j], t.nodes[p].kids[j + 1];
    JoinPlaces(t, p, j);
    FormedNode(t, l);
    FormedNode(t, r);
    LocalOf(t.nodes[l]);
    LocalOf(t.nodes[r]);
    var c := Moved(t, p, j, fromLeft);
    OwnedBy(t, l, c);
    OwnedBy(t, r, c);
    var kids := RightPart(Joined(t.nodes[l], t.nodes[r], t.nodes[p].keys[j]), ShiftAt(t, p, j, fromLeft)).kids;
    if fromLeft {
      assert kids == [c] + t.nodes[r].kids;
    } else {
      assert kids == t.nodes[r].kids[1..];
      forall y: nat | y < |kids| ensures kids[y] != c { KidsDistinct(t, r, 0, y + 1); }
      assert t.nodes[r].kids == [c] + kids;
    }
  }

  /** What is known before an entry is moved between neighbours. */
  ghost predicate CanShift(order: nat, t: Tree, p: BtNode, j: nat, fromLeft: bool) {
    && JoinReady(t, p, j)
    && var l, r := t.nodes[t.nodes[p].kids[j]], t.nodes[t.nodes[p].kids[j + 1]];
       var giver, taker := if fromLeft then l else r, if fromLeft then r else l;
       |giver.keys| > 1 && |taker.keys| + 1 < order
  }

  lemma CanShiftReady(order: nat, t: Tree, p: BtNode, j: nat, fromLeft: bool)
    requires CanShift(order, t, p, j, fromLeft)
    ensures var l, r, at := t.nodes[p].kids[j], t.nodes[p].kids[j + 1], ShiftAt(t, p, j, fromLeft);
            && ShiftReady(t, p, j, at) && p != l && p != r && l != r && Beside(order, t.nodes[l], t.nodes[r], r)
            && t.nodes[p].height > 0 && t.nodes[l].height == t.nodes[r].height
            && ShiftFits(t, p, j, fromLeft)
  {
    hide Formed, Join, LocalOk;
    var l, r := t.nodes[p].kids[j], t.nodes[p].kids[j + 1];
    JoinPlaces(t, p, j);
    FormedNode(t, l);
    FormedNode(t, r);
    LocalOf(t.nodes[l]);
    LocalOf(t.nodes[r]);
    ShiftIsReady(t, p, j, ShiftAt(t, p, j, fromLeft));
    ShiftFitsReady(t, p, j, fromLeft);
    if t.nodes[l].height == 0 {
      LeafAfter(t, l, r);
    }
  }

  /** A leaf's next leaf is the one that begins where it ends. */
  lemma LeafAfter(t: Tree, l: BtNode, r: BtNode)
    requires Formed(t) && l in t.nodes && r in t.nodes && t.nodes[l].height == t.nodes[r].height == 0
    requires t.nodes[l].hi.Some? && t.nodes[l].hi == t.nodes[r].lo
    ensures t.nodes[l].next == Some(r)
  {
    hide Formed, LocalOk, KidsOk, ParentOk, HomesOk;
    FormedNode(t, l);
    FormedNode(t, r);
    var m := t.nodes[l].next.value;
    FormedNode(t, m);
    LocalOf(t.nodes[r]);
    LocalOf(t.nodes[m]);
    Heights(t, r);
    OneCover(t, m, r, t.nodes[r].lo.value);
  }

  /** The parent pointer of the child that changes sides. */
  method MoveChild(order: nat, n: BtNode, neighbor: BtNode, fromLeft: bool, ghost p: BtNode, ghost j: nat,
                   ghost t: Tree)
    requires CanShift(order, t, p, j, fromLeft) && ShiftReady(t, p, j, ShiftAt(t, p, j, fromLeft)) &&
             Mirror(order, t.nodes)
    requires n == t.nodes[p].kids[if fromLeft then j + 1 else j]
    requires neighbor == t.nodes[p].kids[if fromLeft then j else j + 1]
    requires t.nodes[t.nodes[p].kids[j]].height > 0
    modifies t.nodes.Keys - {n, neighbor, p}
    ensures var l, r := t.nodes[p].kids[j], t.nodes[p].kids[j + 1];
            && t.nodes[l].kids != [] && t.nodes[r].kids != []
            && var c := Moved(t, p, j, fromLeft);
               c in t.nodes && Mirror(order, t.nodes[c := t.nodes[c].(parent := Some(n))])
  {
    hide Shows, Formed, Join, ShiftReady;
    JoinPlaces(t, p, j);
    MovedPlace(t, p, j, fromLeft);
    MirrorAt(order, t.nodes, neighbor);
    Shown(order, neighbor.All(), t.nodes[neighbor]);
    var child := if fromLeft then neighbor.pointers[neighbor.numKeys].node else neighbor.pointers[0].node;
    SetParent(order, child, n, Some(n), t.nodes[child]);
  }

  /** The entry that changes sides. */
  method TakeEntry(order: nat, l: BtNode, r: BtNode, fromLeft: bool, kPrime: int, ghost li: Held, ghost ri: Held)
    returns (newSep: int)
    requires l != r && Shows(order, l.All(), li) && Shows(order, r.All(), ri) && Beside(order, li, ri, r)
    requires if fromLeft then |li.keys| > 1 && |ri.keys| + 1 < order else |ri.keys| > 1 && |li.keys| + 1 < order
    modifies l, r
    ensures var both, at := Joined(li, ri, kPrime), if fromLeft then |li.keys| - 1 else |li.keys| + 1;
            && Shows(order, l.All(), LeftPart(both, r, at)) && Shows(order, r.All(), RightPart(both, at))
            && newSep == both.keys[at]
  {
    hide Shows, LeftPart, RightPart;
    if fromLeft {
      newSep := TakeFromLeft(order, r, l, kPrime, li, ri);
    } else {
      newSep := TakeFromRight(order, l, r, kPrime, li, ri);
    }
  }

  /** n can take an entry from its neighbour, the right or the left one of the j-th pair of children of p. */
  ghost predicate CanMove(order: nat, t: Tree, p: BtNode, j: nat, fromLeft: bool, n: BtNode, neighbor: BtNode,
                  kPrime: int) {
    && p in t.nodes && ShiftFits(t, p, j, fromLeft) && t.nodes[p].height > 0 && kPrime == t.nodes[p].keys[j]
    && var l, r := t.nodes[p].kids[j], t.nodes[p].kids[j + 1];
       && l != r && l != p && r != p && Beside(order, t.nodes[l], t.nodes[r], r)
       && n == (if fromLeft then r else l) && neighbor == (if fromLeft then l else r)
       && |t.nodes[neighbor].keys| > 1 && |t.nodes[n].keys| + 1 < order
  }

  /** The entry that changes sides, and the new separator. */
  method MoveEntry(order: nat, n: BtNode, neighbor: BtNode, parent: BtNode, fromLeft: bool, j: nat, kPrime: int,
                   ghost t: Tree, ghost nodes: NodeMap)
    requires CanMove(order, t, parent, j, fromLeft, n, neighbor, kPrime) && Mirror(order, nodes) &&
             nodes.Keys == t.nodes.Keys
    requires nodes[n] == t.nodes[n] && nodes[neighbor] == t.nodes[neighbor] && nodes[parent] == t.nodes[parent]
    modifies n, neighbor, parent
    ensures Mirror(order, WithThree(t, parent, j, fromLeft, nodes))
  {
    hide Shows, LeftPart, RightPart, Joined, Beside, WithThree, ShiftFits, Neighbours;
    ThreeAre(t, parent, j, fromLeft, nodes);
    var l, r := n, neighbor;
    if fromLeft {
      l, r := neighbor, n;
    }
    var newSep := TakeEntry(order, l, r, fromLeft, kPrime, t.nodes[l], t.nodes[r]);
    Reseparate(order, parent, j, newSep, t.nodes[parent]);
  }

  /** btree_redistribute_nodes, in a tree. */
  method Redistribute(order: nat, n: BtNode, neighbor: BtNode, parent: BtNode, fromLeft: bool, j: nat, kPrime: int,
                      ghost t: Tree)
    requires CanShift(order, t, parent, j, fromLeft) && Mirror(order, t.nodes) && kPrime == t.nodes[parent].keys[j]
    requires n == t.nodes[parent].kids[if fromLeft then j + 1 else j]
    requires neighbor == t.nodes[parent].kids[if fromLeft then j else j + 1]
    modifies t.nodes.Keys
    ensures ShiftReady(t, parent, j, ShiftAt(t, parent, j, fromLeft))
    ensures Mirror(order, Shifted(t, parent, j, ShiftAt(t, parent, j, fromLeft)).nodes)
  {
    hide Shows, Mirror, Formed, Join, Shifted, ShiftedThree, Beside, ShiftReady, ShiftAt;
    CanShiftReady(order, t, parent, j, fromLeft);
    ShiftedMapIs(t, parent, j, fromLeft);
    ghost var l, r, three := t.nodes[parent].kids[j], t.nodes[parent].kids[j + 1], ShiftedThree(t, parent, j, fromLeft);
    MirrorAt(order, t.nodes, n);
    Shown(order, n.All(), t.nodes[n]);
    ghost var nodes := t.nodes;
    if !n.isLeaf {
      MovedPlace(t, parent, j, fromLeft);
      MoveChild(order, n, neighbor, fromLeft, parent, j, t);
      ghost var c := Moved(t, parent, j, fromLeft);
      nodes := t.nodes[c := t.nodes[c].(parent := Some(n))];
    }
    MoveEntry(order, n, neighbor, parent, fromLeft, j, kPrime, t, nodes);
    ThreeMap(t, parent, j, fromLeft, nodes);
  }

  lemma ThreeMap(t: Tree, p: BtNode, j: nat, fromLeft: bool, nodes: NodeMap)
    requires ShiftFits(t, p, j, fromLeft)
    requires var l, r := t.nodes[p].kids[j], t.nodes[p].kids[j + 1];
             && p != l && p != r && l != r
             && if t.nodes[l].kids == [] || t.nodes[r].kids == [] then nodes == t.nodes
                else var c := Moved(t, p, j, fromLeft);
                     && c in t.nodes && c != l && c != r && c != p
                     && nodes == t.nodes[c := t.nodes[c].(parent := Some(if fromLeft then r else l))]
    ensures WithThree(t, p, j, fromLeft, nodes) == ShiftedMap(t, p, j, fromLeft)
  {
    hide LeftPart, RightPart;
  }

  lemma EmptyMap(t: Tree)
    requires Formed(t) && t.root in t.nodes && t.nodes[t.root].height == 0 && t.nodes[t.root].keys == []
    ensures t.m == map[]
  {
    hide Formed, HomesOk;
    FormedHomes(t);
    forall k | k in t.m ensures false {
      HomeOf(t, k);
      Heights(t, t.home[k]);
    }
  }

  lemma ShrinkSized(order: nat, t: Tree)
    requires order >= 3 && Formed(t) && Sized(order, t, {t.root}) && t.root in t.nodes
    requires |t.nodes[t.root].kids| == 1 && t.nodes[t.root].height > 0
    ensures var t' := ShrinkRoot(t); Formed(t') && Sized(order, t', {}) && t'.m == t.m && t'.nodes.Keys <= t.nodes.Keys
    ensures t.nodes[t.root].kids[0] in t.nodes && t.nodes[t.root].kids[0] != t.root
  {
    hide Formed;
    ShrinkRootFormed(t);
    KidsOwned(t, t.root, t.root, 0);
    var t' := ShrinkRoot(t);
    forall n | n in t'.nodes ensures SizeOk(order, n == t'.root, t'.nodes[n].height, |t'.nodes[n].keys|) {
      SizedAt(order, t, {t.root}, n);
    }
  }

  /** The only child of the root becomes a root itself. */
  method Promote(order: nat, root: BtNode, newRoot: BtNode, ghost t: Tree)
    requires t.root == root && root in t.nodes && Mirror(order, t.nodes) && |t.nodes[root].kids| == 1
    requires newRoot == t.nodes[root].kids[0] && newRoot in t.nodes && newRoot != root
    modifies newRoot`parent
    ensures Mirror(order, ShrinkRoot(t).nodes)
  {
    hide Shows;
    SetParent(order, newRoot, null, None, t.nodes[newRoot]);
  }

  lemma FirstLeaf(order: nat, leaf: BtNode, key: int, pointer: Record)
    requires order >= 3
    ensures var i := Info(0, [key], [], [pointer], None, None, None, None);
            var t := Shape(leaf, map[leaf := i], map[key := pointer], map[key := leaf]);
            Formed(t) && Sized(order, t, {})
  {
  }

  /** btree_insert_into_leaf, in a tree. */
  method PutEntry(order: nat, leaf: BtNode, at: nat, key: int, pointer: Record, ghost nodes: NodeMap)
    requires leaf in nodes && Mirror(order, nodes) && nodes[leaf].height == 0
    requires |nodes[leaf].keys| + 1 < order && at <= |nodes[leaf].keys| == |nodes[leaf].recs|
    modifies leaf
    ensures Mirror(order, nodes[leaf := WithEntry(nodes[leaf], at, key, pointer)])
  {
    hide Shows, WithEntry;
    InsertIntoLeaf(order, leaf, at, key, pointer, nodes[leaf]);
  }

  /** The splitting of a full leaf, in a tree. */
  method CutLeaf(order: nat, leaf: BtNode, newLeaf: BtNode, at: nat, key: int, pointer: Record, ghost nodes: NodeMap)
    requires order >= 3 && leaf in nodes && newLeaf !in nodes && Mirror(order, nodes) && nodes[leaf].height == 0
    requires nodes[leaf].kids == [] && |nodes[leaf].keys| + 1 == order && at <= |nodes[leaf].keys| == |nodes[leaf].recs|
    requires |newLeaf.keys| + 1 == order == |newLeaf.pointers| && newLeaf.isLeaf
    modifies leaf, newLeaf
    ensures var full := WithEntry(nodes[leaf], at, key, pointer);
            var t' := nodes[leaf := full];
            && Cuttable(t', leaf, MinKeys(order, 0)) && Mirror(order, Halves(t', leaf, newLeaf, MinKeys(order, 0)))
            && |newLeaf.keys| > 0 && newLeaf.keys[0] == full.keys[MinKeys(order, 0)]
  {
    hide Shows, WithEntry;
    ghost var full := WithEntry(nodes[leaf], at, key, pointer);
    EntryCounts(nodes[leaf], at, key, pointer);
    SplitLeaf(order, leaf, newLeaf, at, key, pointer, nodes[leaf]);
    Shown(order, newLeaf.All(), RightPart(full, MinKeys(order, 0)));
  }

  lemma AddSized(order: nat, t: Tree, leaf: BtNode, at: nat, key: int, pointer: Record)
    requires order >= 3 && leaf in t.nodes && at <= |t.nodes[leaf].keys| == |t.nodes[leaf].recs| && Sized(order, t, {})
    ensures var t' := AddKey(t, leaf, at, key, pointer);
            && Sized(order, t', {leaf}) && |t'.nodes[leaf].keys| == |t.nodes[leaf].keys| + 1 <= order
            && (|t'.nodes[leaf].keys| < order ==> Sized(order, t', {}))
            && t'.nodes == t.nodes[leaf := WithEntry(t.nodes[leaf], at, key, pointer)]
  {
    SizedAt(order, t, {}, leaf);
  }

  /** The place of a node among its parent's children. */
  ghost function PlaceOf(t: Tree, n: BtNode): (j: nat)
    requires Formed(t) && n in t.nodes && t.nodes[n].parent.Some?
    ensures var p := t.nodes[n].parent.value; p in t.nodes && j < |t.nodes[p].kids| && t.nodes[p].kids[j] == n
  {
    FormedNode(t, n);
    var p := t.nodes[n].parent.value;
    var j: nat :| j < |t.nodes[p].kids| && t.nodes[p].kids[j] == n;
    j
  }

  lemma PlaceParent(t: Tree, n: BtNode, r: BtNode, at: nat, p: BtNode, j: nat)
    requires Formed(t) && n in t.nodes && t.nodes[n].parent == Some(p) && p in t.nodes
    requires j < |t.nodes[p].kids| && t.nodes[p].kids[j] == n && Cuttable(t.nodes, n, at) && r !in t.nodes
    ensures CutReady(t, n, r, at, p, j) && p != n && p != r && p in Halves(t.nodes, n, r, at)
    ensures Halves(t.nodes, n, r, at)[p] == t.nodes[p]
    ensures t.nodes[p].height > 0 && t.nodes[p].recs == [] && |t.nodes[p].kids| == |t.nodes[p].keys| + 1
    ensures t.nodes[p].height == t.nodes[n].height + 1
    ensures forall y | 0 <= y < j :: t.nodes[p].kids[y] != n
  {
    hide Formed, LocalOk, KidsOk, ParentOk, NextOk;
    FormedNode(t, p);
    LocalOf(t.nodes[p]);
    CutPlaces(t, n, r, at, p, j);
    RightKidsLower(t, n, r, at, p, j);
    forall y | 0 <= y < j ensures t.nodes[p].kids[y] != n { KidsDistinct(t, p, y, j); }
  }

  lemma RightKidsLower(t: Tree, n: BtNode, r: BtNode, at: nat, p: BtNode, j: nat)
    requires CutReady(t, n, r, at, p, j)
    ensures p !in RightPart(t.nodes[n], at).kids
  {
    hide Formed;
    CutPlaces(t, n, r, at, p, j);
    var kids := RightPart(t.nodes[n], at).kids;
    forall y: nat | y < |kids| ensures kids[y] != p {
      KidsOwned(t, n, n, at + 1 + y);
    }
  }

  /** A cut does not change how far a node is from the root. */
  lemma CutHeights(t: Tree, n: BtNode, r: BtNode, at: nat, p: BtNode, j: nat)
    requires CutReady(t, n, r, at, p, j)
    ensures var t' := Cut(t, n, r, at, p, j);
            && t'.root == t.root && t.root in t.nodes && t.root in t'.nodes && p in t'.nodes
            && t'.nodes[t.root].height == t.nodes[t.root].height && t'.nodes[p].height == t.nodes[p].height
  {
    hide Formed, Cut;
    CutPlaces(t, n, r, at, p, j);
    CutNodes(t, n, r, at, p, j);
    CutOther(t, n, r, at, p, j, t.root);
    CutOther(t, n, r, at, p, j, p);
  }

  lemma CutMap(t: Tree, n: BtNode, r: BtNode, at: nat, p: BtNode, j: nat)
    requires CutReady(t, n, r, at, p, j) && p in Halves(t.nodes, n, r, at) && Halves(t.nodes, n, r, at)[p] == t.nodes[p]
    ensures var halves, t' := Halves(t.nodes, n, r, at), Cut(t, n, r, at, p, j);
            t'.nodes == halves[p := WithKid(t.nodes[p], j, t.nodes[n].keys[at], r)] &&
              t'.nodes[p := t.nodes[p]] == halves
  {
    hide Halves, WithKid, Formed;
    var halves := Halves(t.nodes, n, r, at);
    assert halves[p := t.nodes[p]] == halves;
  }

  /** The tree after a split below p: p may be overfull now. */
  lemma SplitBelow(order: nat, t: Tree, n: BtNode, r: BtNode, p: BtNode, j: nat)
    requires order >= 3 && n in t.nodes && CutReady(t, n, r, MinKeys(order, t.nodes[n].height), p, j)
    requires Sized(order, t, {n}) && |t.nodes[n].keys| == order && n != p
    requires var halves := Halves(t.nodes, n, r, MinKeys(order, t.nodes[n].height));
             p in halves && halves[p] == t.nodes[p]
    ensures var at := MinKeys(order, t.nodes[n].height);
            var t' := Cut(t, n, r, at, p, j);
            && Formed(t') && Sized(order, t', {p}) && t'.root == t.root && t'.m == t.m
            && t'.nodes.Keys == t.nodes.Keys + {r} && t.root in t.nodes
            && t'.nodes[p] == WithKid(t.nodes[p], j, t.nodes[n].keys[at], r) &&
               |t'.nodes[p].keys| == |t.nodes[p].keys| + 1 <= order
            && t'.nodes[t.root].height == t.nodes[t.root].height && t'.nodes[p].height == t.nodes[p].height
            && (|t'.nodes[p].keys| < order ==> Sized(order, t', {}))
            && var halves := Halves(t.nodes, n, r, at);
               t'.nodes == halves[p := t'.nodes[p]] && t'.nodes[p := t.nodes[p]] == halves
  {
    hide Formed, Cut, Halves, WithKid;
    var at := MinKeys(order, t.nodes[n].height);
    CutFormed(t, n, r, at, p, j);
    CutNodes(t, n, r, at, p, j);
    CutHeights(t, n, r, at, p, j);
    SizedAt(order, t, {n}, p);
    Resized(order, t, {n}, {n, p});
    SplitSized(order, t, n, r, p, j);
    CutMap(t, n, r, at, p, j);
    if |t.nodes[p].keys| + 1 < order { Resized(order, Cut(t, n, r, at, p, j), {p}, {}); }
  }

  lemma OwnKids(t: Tree, n: BtNode)
    requires Formed(t) && n in t.nodes
    ensures forall c | c in t.nodes[n].kids :: c in t.nodes && c != n
  {
    hide Formed;
    forall c | c in t.nodes[n].kids ensures c in t.nodes && c != n {
      var y: nat :| y < |t.nodes[n].kids| && t.nodes[n].kids[y] == c;
      KidsOwned(t, n, n, y);
    }
  }

  lemma HalvesKeys(nodes: NodeMap, n: BtNode, r: BtNode, at: nat)
    requires Cuttable(nodes, n, at) && r !in nodes
    ensures Halves(nodes, n, r, at).Keys == nodes.Keys + {r} && n != r
    ensures Halves(nodes, n, r, at)[n] == LeftPart(nodes[n], r, at) &&
            Halves(nodes, n, r, at)[r] == RightPart(nodes[n], at)
  {
  }

  /** The root is overfull, and there are nodes to split it with. */
  ghost predicate RootSplit(order: nat, t: Tree, nr: BtNode, left: BtNode, right: BtNode) {
    && order >= 3 && Formed(t) && Sized(order, t, {left}) && left == t.root && left in t.nodes
    && |t.nodes[left].keys| == order && nr !in t.nodes && right !in t.nodes && nr != right
    && Cuttable(t.nodes, left, MinKeys(order, t.nodes[left].height))
  }

  lemma GrownReady(order: nat, t: Tree, nr: BtNode, left: BtNode, right: BtNode)
    requires RootSplit(order, t, nr, left, right)
    ensures CutReady(GrowRoot(t, nr), left, right, MinKeys(order, t.nodes[left].height), nr, 0)
  {
    hide Formed;
    GrowRootFormed(t, nr);
  }

  /** The tree with the old root split below a new one. */
  lemma NewRoot(order: nat, t: Tree, nr: BtNode, left: BtNode, right: BtNode)
    requires RootSplit(order, t, nr, left, right)
    ensures var at, g := MinKeys(order, t.nodes[left].height), GrowRoot(t, nr);
            && Cuttable(g.nodes, left, at) && KidAt(g.nodes, nr, 0, left)
            && var t' := Cut(g, left, right, at, nr, 0);
               Formed(t') && Sized(order, t', {}) && t'.root == nr && t'.m == t.m
  {
    hide Formed, Cut;
    var at, g := MinKeys(order, t.nodes[left].height), GrowRoot(t, nr);
    GrownReady(order, t, nr, left, right);
    CutFormed(g, left, right, at, nr, 0);
    CutNodes(g, left, right, at, nr, 0);
    forall n | n in g.nodes && n != left && n != nr
      ensures SizeOk(order, n == g.root, g.nodes[n].height, |g.nodes[n].keys|) {
      SizedAt(order, t, {left}, n);
    }
    SplitSized(order, g, left, right, nr, 0);
    Resized(order, Cut(g, left, right, at, nr, 0), {nr}, {});
  }

  lemma NewRootNodes(order: nat, t: Tree, nr: BtNode, left: BtNode, right: BtNode)
    requires RootSplit(order, t, nr, left, right)
    ensures var at, g, key := MinKeys(order, t.nodes[left].height), GrowRoot(t, nr),
            t.nodes[left].keys[MinKeys(order, t.nodes[left].height)];
            && Cuttable(g.nodes, left, at) && KidAt(g.nodes, nr, 0, left)
            && var halves := Halves(t.nodes, left, right, at);
               Cut(g, left, right, at, nr, 0).nodes ==
               halves[left := halves[left].(parent := Some(nr))][right := halves[right].(parent := Some(nr))]
                     [nr := Info(t.nodes[left].height + 1, [key], [left, right], [], None, None, None, None)]
  {
    hide Formed, LeftPart, RightPart;
    var at, g := MinKeys(order, t.nodes[left].height), GrowRoot(t, nr);
    PartsReparented(t.nodes[left], right, at, Some(nr));
    var a := Cut(g, left, right, at, nr, 0).nodes;
    var halves := Halves(t.nodes, left, right, at);
    var b := halves[left := halves[left].(parent := Some(nr))][right := halves[right].(parent := Some(nr))]
                   [nr := Info(t.nodes[left].height + 1, [t.nodes[left].keys[at]], [left, right], [],
                               None, None, None, None)];
    assert a.Keys == b.Keys;
    forall x: BtNode | x in a ensures a[x] == b[x] {}
  }

  lemma PartsReparented(i: Held, r: BtNode, at: nat, q: Option<BtNode>)
    requires at < |i.keys| && |i.recs| == (if i.height == 0 then |i.keys| else 0)
    requires |i.kids| == (if i.height == 0 then 0 else |i.keys| + 1)
    ensures LeftPart(i.(parent := q), r, at) == LeftPart(i, r, at).(parent := q)
    ensures RightPart(i.(parent := q), at) == RightPart(i, at).(parent := q)
    ensures RightPart(i.(parent := q), at).kids == RightPart(i, at).kids
  {
  }

  lemma RootCovers(t: Tree, k: int)
    requires Formed(t)
    ensures t.root in t.nodes && Covers(t.nodes[t.root], k)
  {
    RootIn(t);
    FormedNode(t, t.root);
  }
}
