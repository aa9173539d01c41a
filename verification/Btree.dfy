/** The B+ tree (src/btree/btree.c). */
module Btrees {
  import opened Orders
  import opened BtreeShape
  import opened BtreeCuts
  import opened BtreeJoins
  import opened BtreeEdits
  import opened BtreeSizes
  import opened BtreeNodes
  import opened BtreeEntries
  import opened BtreeSteps

  class BTree {
    const order: nat
    var root: BtNode?
    ghost var t: Tree

    /** The tree is well formed, its nodes outside slack are neither too full nor too empty. */
    ghost predicate Sound(slack: set<BtNode>)
      reads this
    {
      order >= 3 && root == t.root && Formed(t) && Sized(order, t, slack)
    }

    ghost predicate Valid()
      reads this, t.nodes.Keys
    {
      if root == null then order >= 3 && t.m == map[] else Sound({}) && Mirror(order, t.nodes)
    }

    constructor (order: nat)
      requires order >= 3
      ensures this.order == order && Valid() && t.m == map[] && t.nodes == map[]
    {
      this.order, root := order, null;
      var none: BtNode := new BtNode(order, true);
      t := Shape(none, map[], map[], map[]);
    }

    // ------------------------------------------------------------ searching

    /** btree_find_leaf: the leaf that covers the key. */
    method FindLeaf(key: int) returns (c: BtNode?)
      requires Valid()
      ensures c == null <==> root == null
      ensures c != null ==> c in t.nodes && t.nodes[c].height == 0 && Covers(t.nodes[c], key)
    {
      hide Shows, Mirror, Formed, Sized, LocalOk;
      c := root;
      if c == null {
        return;
      }
      RootCovers(t, key);
      MirrorAt(order, t.nodes, c);
      Shown(order, c.All(), t.nodes[c]);
      while !c.isLeaf
        invariant Valid() && root != null && c in t.nodes && Covers(t.nodes[c], key) &&
                  Shows(order, c.All(), t.nodes[c])
        invariant c.isLeaf == (t.nodes[c].height == 0)
        decreases t.nodes[c].height
      {
        var i := ChildIndex(c, key);
        Shown(order, c.All(), t.nodes[c]);
        KidCovers(t, c, i, key);
        c := c.pointers[i].node;
        MirrorAt(order, t.nodes, c);
        Shown(order, c.All(), t.nodes[c]);
      }
    }

    /** The inner loop of the search. */
    method ChildIndex(c: BtNode, key: int) returns (i: nat)
      requires c in t.nodes && Shows(order, c.All(), t.nodes[c])
      ensures i <= |t.nodes[c].keys|
      ensures i > 0 ==> t.nodes[c].keys[i - 1] <= key
      ensures i < |t.nodes[c].keys| ==> key < t.nodes[c].keys[i]
    {
      hide Shows;
      Shown(order, c.All(), t.nodes[c]);
      i := 0;
      while i < c.numKeys
        invariant i <= c.numKeys && (i > 0 ==> c.keys[i - 1] <= key)
      {
        if key >= c.keys[i] {
          i := i + 1;
        } else {
          break;
        }
      }
    }

    /** btree_find. */
    method Find(key: int) returns (r: Record?)
      requires Valid()
      ensures if key in t.m then r == t.m[key] else r == null
    {
      hide Shows, Mirror, Formed, Sized;
      var c := FindLeaf(key);
      if c == null {
        return null;
      }
      LeafDecides(t, c, key);
      MirrorAt(order, t.nodes, c);
      Shown(order, c.All(), t.nodes[c]);
      for i := 0 to c.numKeys
        invariant forall y | 0 <= y < i :: c.keys[y] != key
      {
        if c.keys[i] == key {
          return c.pointers[i].record;
        }
      }
      r := null;
    }

    // ------------------------------------------------------------ insertion

    /**
     * The node left is overfull in the tree; left and right hold its two parts, but their parent does not know it
     * yet.
     */
    ghost predicate Halved(left: BtNode, key: int, right: BtNode)
      reads this, t.nodes.Keys, right
    {
      && Sound({left}) && left in t.nodes && right !in t.nodes && |t.nodes[left].keys| == order
      && var at := MinKeys(order, t.nodes[left].height);
         && Cuttable(t.nodes, left, at) && key == t.nodes[left].keys[at]
         && Mirror(order, Halves(t.nodes, left, right, at))
    }

    /** btree_insert_into_new_root. */
    method InsertIntoNewRoot(left: BtNode, key: int, right: BtNode)
      requires Halved(left, key, right) && left == root
      modifies this, left`parent, right`parent
      ensures Sound({}) && Mirror(order, t.nodes) && t.m == old(t.m)
      ensures fresh(t.nodes.Keys - old(t.nodes.Keys) - {right})
    {
      hide Mirror, Formed, Sized, Cut, GrowRoot, Halves;
      ghost var at, was := MinKeys(order, t.nodes[left].height), t;
      HalvesKeys(t.nodes, left, right, at);
      var nr := LinkRoot(order, left, key, right, t.nodes[left].height, Halves(t.nodes, left, right, at));
      NewRoot(order, was, nr, left, right);
      NewRootNodes(order, was, nr, left, right);
      ghost var t' := Cut(GrowRoot(was, nr), left, right, at, nr, 0);
      assert forall n | n in t'.nodes :: n as object != this;
      t, root := t', nr;
    }

    /** btree_get_left_index. */
    method GetLeftIndex(parent: BtNode, left: BtNode, ghost i: Held, ghost j: nat) returns (leftIndex: nat)
      requires Shows(order, parent.All(), i) && i.height > 0 && j < |i.kids| && i.kids[j] == left
      requires forall y | 0 <= y < j :: i.kids[y] != left
      ensures leftIndex == j
    {
      hide Shows;
      Shown(order, parent.All(), i);
      leftIndex := 0;
      while leftIndex <= parent.numKeys && parent.pointers[leftIndex] != NodePtr(left)
        invariant leftIndex <= j
        decreases j - leftIndex
      {
        leftIndex := leftIndex + 1;
      }
    }

    /** btree_insert_into_parent. */
    method InsertIntoParent(left: BtNode, key: int, right: BtNode)
      requires Halved(left, key, right)
      modifies this, t.nodes.Keys, right
      ensures Sound({}) && Mirror(order, t.nodes) && t.m == old(t.m)
      ensures fresh(t.nodes.Keys - old(t.nodes.Keys) - {right})
      decreases t.nodes[t.root].height - t.nodes[left].height, 1
    {
      hide Mirror, Shows, Formed, Sized, Cut, Halves, LocalOk, KidsOk, NextOk;
      ghost var at := MinKeys(order, t.nodes[left].height);
      HalvesKeys(t.nodes, left, right, at);
      MirrorAt(order, Halves(t.nodes, left, right, at), left);
      Shown(order, left.All(), LeftPart(t.nodes[left], right, at));
      FormedNode(t, left);
      var parent := left.parent;
      if parent == null {
        InsertIntoNewRoot(left, key, right);
        return;
      }
      InsertBelow(parent, left, key, right);
    }

    /** The rest of btree_insert_into_parent, for a parent that exists. */
    method InsertBelow(parent: BtNode, left: BtNode, key: int, right: BtNode)
      requires Halved(left, key, right) && t.nodes[left].parent == Some(parent)
      modifies this, t.nodes.Keys, right
      ensures Sound({}) && Mirror(order, t.nodes) && t.m == old(t.m)
      ensures fresh(t.nodes.Keys - old(t.nodes.Keys) - {right})
      decreases t.nodes[t.root].height - t.nodes[left].height, 0
    {
      hide Mirror, Shows, Formed, Sized, Cut, Halves, LocalOk, KidsOk, NextOk, ParentOk, WithKid;
      ghost var at, was := MinKeys(order, t.nodes[left].height), t;
      ghost var j: nat := PlaceOf(t, left);
      PlaceParent(t, left, right, at, parent, j);
      MirrorAt(order, Halves(t.nodes, left, right, at), parent);
      var leftIndex := GetLeftIndex(parent, left, t.nodes[parent], j);
      Shown(order, parent.All(), t.nodes[parent]);
      SplitBelow(order, t, left, right, parent, j);
      Heights(t, parent);
      ghost var t' := Cut(t, left, right, at, parent, j);
      assert forall n | n in t'.nodes :: n as object != this;
      if parent.numKeys < order - 1 {
        PutKid(order, parent, leftIndex, key, right, Halves(t.nodes, left, right, at));
        t := t';
        return;
      }
      t := t';
      InsertIntoNodeAfterSplitting(parent, leftIndex, key, right, was.nodes[parent]);
    }

    /** btree_insert_into_node_after_splitting: the tree has the new child already, the full node n not yet. */
    method InsertIntoNodeAfterSplitting(n: BtNode, leftIndex: nat, key: int, right: BtNode, ghost i: Held)
      requires Sound({n}) && n in t.nodes && |t.nodes[n].keys| == order
      requires i.height > 0 && i.recs == [] && |i.keys| + 1 == order == |i.kids| && leftIndex <= |i.keys|
      requires t.nodes[n] == WithKid(i, leftIndex, key, right) && Mirror(order, t.nodes[n := i])
      modifies this, t.nodes.Keys
      ensures Sound({}) && Mirror(order, t.nodes) && t.m == old(t.m)
      ensures fresh(t.nodes.Keys - old(t.nodes.Keys))
      decreases t.nodes[t.root].height - t.nodes[n].height, 2
    {
      hide Mirror, Shows, Formed, Sized, Halves, LocalOk, KidsOk, NextOk, ParentOk;
      OwnKids(t, n);
      var newNode, kPrime := ShareNode(order, n, leftIndex, key, right, i, t.nodes);
      InsertIntoParent(n, kPrime, newNode);
    }

    /** The place of a key among a leaf's. */
    method InsertionPoint(leaf: BtNode, key: int, ghost i: Held) returns (at: nat)
      requires Shows(order, leaf.All(), i) && key !in i.keys && Increasing(i.keys)
      ensures at <= |i.keys|
      ensures forall y | 0 <= y < at :: i.keys[y] < key
      ensures forall y | at <= y < |i.keys| :: key < i.keys[y]
    {
      hide Shows;
      Shown(order, leaf.All(), i);
      at := 0;
      while at < leaf.numKeys && leaf.keys[at] < key
        invariant at <= leaf.numKeys && forall y | 0 <= y < at :: i.keys[y] < key
      {
        at := at + 1;
      }
      if at < leaf.numKeys {
        assert leaf.keys[at] == i.keys[at] && i.keys[at] in i.keys;
        forall y | at <= y < |i.keys| ensures key < i.keys[y] { IncreasingAt(i.keys, at, y); }
      }
    }

    /**
     * btree_insert_into_leaf_after_splitting: the leaf, too full with the key, is cut, and the tree closed above it.
     */
    method InsertIntoLeafAfterSplitting(leaf: BtNode, at: nat, key: int, pointer: Record, ghost t': Tree)
      requires order >= 3 && Mirror(order, t.nodes) && leaf in t.nodes && CanAdd(t, leaf, at, key, pointer)
      requires t' == AddKey(t, leaf, at, key, pointer) && Formed(t') && Sized(order, t', {leaf})
      requires root == t.root && |t.nodes[leaf].keys| == order - 1 && t.nodes[leaf].kids == []
      modifies this, t.nodes.Keys
      ensures Sound({}) && Mirror(order, t.nodes) && t.m == t'.m
      ensures fresh(t.nodes.Keys - old(t.nodes.Keys))
    {
      hide Mirror, Shows, Formed, Sized, Halves;
      assert forall n | n in t'.nodes :: n as object != this;
      var newLeaf := new BtNode(order, true);
      CutLeaf(order, leaf, newLeaf, at, key, pointer, t.nodes);
      t := t';
      InsertIntoParent(leaf, newLeaf.keys[0], newLeaf);
    }

    /** btree_insert, once the leaf is known that is to take the key. */
    method InsertIntoTree(leaf: BtNode, key: int, pointer: Record)
      requires Sound({}) && Mirror(order, t.nodes) && leaf in t.nodes && t.nodes[leaf].height == 0
      requires Covers(t.nodes[leaf], key) && key !in t.m && forall k | k in t.m :: t.m[k] != pointer
      modifies this, t.nodes.Keys
      ensures Sound({}) && Mirror(order, t.nodes) && t.m == old(t.m)[key := pointer]
      ensures fresh(t.nodes.Keys - old(t.nodes.Keys))
    {
      hide Mirror, Shows, Formed, Sized, Halves, LocalOk, KidsOk, NextOk, ParentOk, Increasing;
      FormedNode(t, leaf);
      LocalOf(t.nodes[leaf]);
      LeafDecides(t, leaf, key);
      MirrorAt(order, t.nodes, leaf);
      Shown(order, leaf.All(), t.nodes[leaf]);
      var at := InsertionPoint(leaf, key, t.nodes[leaf]);
      ghost var i, t' := t.nodes[leaf], AddKey(t, leaf, at, key, pointer);
      AddKeyFormed(t, leaf, at, key, pointer);
      AddSized(order, t, leaf, at, key, pointer);
      assert forall n | n in t'.nodes :: n as object != this;
      if leaf.numKeys < order - 1 {
        PutEntry(order, leaf, at, key, pointer, t.nodes);
        t := t';
        return;
      }
      InsertIntoLeafAfterSplitting(leaf, at, key, pointer, t');
    }

    /** btree_insert: a key that is there already is left alone. */
    method Insert(key: int, value: int)
      requires Valid()
      modifies this, t.nodes.Keys
      ensures Valid()
      ensures if key in old(t.m) then t.m == old(t.m)
              else key in t.m && fresh(t.m[key]) && t.m[key].value == value && t.m == old(t.m)[key := t.m[key]]
      ensures fresh(t.nodes.Keys - old(t.nodes.Keys))
    {
      hide Mirror, Shows, Formed, Sized;
      var found := Find(key);
      if found != null {
        return;
      }
      var pointer := new Record(value);
      if root == null {
        Plant(key, pointer);
        return;
      }
      var leaf := FindLeaf(key);
      InsertIntoTree(leaf, key, pointer);
    }

    /** btree_new: the first leaf. */
    method Plant(key: int, pointer: Record)
      requires root == null && order >= 3 && t.m == map[]
      modifies this
      ensures Sound({}) && Mirror(order, t.nodes) && t.m == map[key := pointer] && root != null
      ensures fresh(t.nodes.Keys)
    {
      hide Shows;
      var leaf := NewLeaf(order, key, pointer);
      ghost var i := Info(0, [key], [], [pointer], None, None, None, None);
      FirstLeaf(order, leaf, key, pointer);
      root, t := leaf, Shape(leaf, map[leaf := i], map[key := pointer], map[key := leaf]);
    }

    // ------------------------------------------------------------ deletion

    /** btree_adjust_root. */
    method AdjustRoot()
      requires root != null && Sound({root}) && Mirror(order, t.nodes) && root in t.nodes &&
               |t.nodes[root].keys| < order
      modifies this, t.nodes.Keys
      ensures Valid() && t.m == old(t.m) && t.nodes.Keys <= old(t.nodes.Keys)
    {
      hide Mirror, Shows, Formed, Sized, LocalOk, KidsOk, NextOk, ParentOk;
      MirrorAt(order, t.nodes, root);
      Shown(order, root.All(), t.nodes[root]);
      if root.numKeys > 0 {
        Resized(order, t, {root}, {});
        return;
      }
      FormedNode(t, root);
      LocalOf(t.nodes[root]);
      if !root.isLeaf {
        ghost var t' := ShrinkRoot(t);
        var newRoot := root.pointers[0].node;
        ShrinkSized(order, t);
        Promote(order, root, newRoot, t);
        assert forall n | n in t'.nodes :: n as object != this;
        root, t := newRoot, t';
      } else {
        EmptyMap(t);
        root, t := null, Shape(t.root, map[], map[], map[]);
      }
    }

    /** btree_get_neighbor_index: the place before n's among its parent's children, -1 for the first. */
    method GetNeighborIndex(n: BtNode, parent: BtNode, ghost i: Held, ghost j: nat) returns (index: int)
      requires n.parent == parent && Shows(order, parent.All(), i) && i.height > 0 && j < |i.kids| && i.kids[j] == n
      requires forall y | 0 <= y < j :: i.kids[y] != n
      ensures index == j - 1
    {
      hide Shows;
      Shown(order, parent.All(), i);
      var k := 0;
      while n.parent.pointers[k] != NodePtr(n)
        invariant 0 <= k <= j
        decreases j - k
      {
        k := k + 1;
      }
      index := k - 1;
    }

    /** btree_coalesce_nodes: the right one of two neighbours goes into the left one, and out of their parent. */
    method CoalesceNodes(n: BtNode, neighbor: BtNode, neighborIndex: int, kPrime: int, parent: BtNode, ghost j: nat)
      requires Sound({n}) && Mirror(order, t.nodes) && root != null
      requires Paired(t, parent, j, n, neighbor, neighborIndex) && kPrime == t.nodes[parent].keys[j]
      requires Mergeable(order, t, t.nodes[parent].kids[j], t.nodes[parent].kids[j + 1], n)
      modifies this, t.nodes.Keys
      ensures Valid() && t.m == old(t.m) && t.nodes.Keys <= old(t.nodes.Keys)
      decreases t.nodes[t.root].height - t.nodes[n].height, 0
    {
      hide Mirror, Shows, Formed, Sized, Join, LocalOk, KidsOk, NextOk, ParentOk, HasEntry;
      var l, r := neighbor, n;
      if neighborIndex == -1 {
        l, r := n, neighbor;
      }
      ghost var was, t' := t.nodes[parent], Join(t, parent, j);
      JoinPlaces(t, parent, j);
      MergeBelow(order, t, parent, j, n);
      AbsorbIn(order, l, r, kPrime, parent, j, t);
      assert forall x | x in t'.nodes :: x as object != this;
      t := t';
      DeleteEntry(parent, kPrime, NodePtr(r), j, was);
    }

    /** btree_redistribute_nodes: one entry moves to n from a neighbour. */
    method RedistributeNodes(n: BtNode, neighbor: BtNode, neighborIndex: int, kPrimeIndex: nat, kPrime: int,
                             parent: BtNode)
      requires Sound({n}) && Mirror(order, t.nodes) && root != null
      requires Paired(t, parent, kPrimeIndex, n, neighbor, neighborIndex) && kPrime == t.nodes[parent].keys[kPrimeIndex]
      requires Unmergeable(order, t, t.nodes[parent].kids[kPrimeIndex], t.nodes[parent].kids[kPrimeIndex + 1], n)
      modifies this, t.nodes.Keys
      ensures Valid() && t.m == old(t.m) && t.nodes.Keys <= old(t.nodes.Keys)
    {
      hide Mirror, Shows, Formed, Sized, ShiftReady, ShiftAt, Shifted;
      ShiftBelow(order, t, parent, kPrimeIndex, n, neighborIndex != -1);
      Redistribute(order, n, neighbor, parent, neighborIndex != -1, kPrimeIndex, kPrime, t);
      ghost var t' := Shifted(t, parent, kPrimeIndex, ShiftAt(t, parent, kPrimeIndex, neighborIndex != -1));
      assert forall x | x in t'.nodes :: x as object != this;
      t := t';
    }

    /** The rest of btree_delete_entry, for a node that has become too small. */
    method Rebalance(n: BtNode)
      requires Sound({n}) && Mirror(order, t.nodes) && root != null && n in t.nodes && n != t.root
      requires |t.nodes[n].keys| == MinKeys(order, t.nodes[n].height) - 1
      modifies this, t.nodes.Keys
      ensures Valid() && t.m == old(t.m) && t.nodes.Keys <= old(t.nodes.Keys)
      decreases t.nodes[t.root].height - t.nodes[n].height, 1
    {
      hide Mirror, Shows, Formed, Sized, Join, LocalOk, KidsOk, NextOk;
      FormedNode(t, n);
      MirrorAt(order, t.nodes, n);
      Shown(order, n.All(), t.nodes[n]);
      var parent := n.parent;
      ghost var k := PlaceOf(t, n);
      ghost var j: nat := if k == 0 then 0 else k - 1;
      NeighboursFound(order, t, n, parent, k);
      JoinPlaces(t, parent, j);
      MirrorAt(order, t.nodes, parent);
      Shown(order, parent.All(), t.nodes[parent]);
      var neighborIndex := GetNeighborIndex(n, parent, t.nodes[parent], k);
      var kPrimeIndex: nat := if neighborIndex == -1 then 0 else neighborIndex;
      var kPrime := parent.keys[kPrimeIndex];
      var neighbor := if neighborIndex == -1 then parent.pointers[1].node else parent.pointers[neighborIndex].node;
      MirrorAt(order, t.nodes, neighbor);
      Shown(order, neighbor.All(), t.nodes[neighbor]);
      var capacity := if n.isLeaf then order else order - 1;
      if neighbor.numKeys + n.numKeys < capacity {
        CoalesceNodes(n, neighbor, neighborIndex, kPrime, parent, j);
      } else {
        RedistributeNodes(n, neighbor, neighborIndex, kPrimeIndex, kPrime, parent);
      }
    }

    /** btree_delete_entry: the tree is without the entry already, the node n not yet. */
    method DeleteEntry(n: BtNode, key: int, pointer: Pointer, ghost x: nat, ghost i: Held)
      requires Sound({n}) && n in t.nodes && HasEntry(i, x, key, pointer) && t.nodes[n] == Rest(i, x)
      requires n == t.root || |t.nodes[n].keys| >= MinKeys(order, t.nodes[n].height) - 1
      requires Mirror(order, t.nodes[n := i]) && root != null
      modifies this, t.nodes.Keys
      ensures Valid() && t.m == old(t.m) && t.nodes.Keys <= old(t.nodes.Keys)
      decreases t.nodes[t.root].height - t.nodes[n].height, 2
    {
      hide Mirror, Shows, Formed, Sized, LocalOk, KidsOk, NextOk, ParentOk, HasEntry, Rest;
      TakeOut(order, n, key, pointer, x, i, t.nodes);
      MirrorAt(order, t.nodes, n);
      Shown(order, n.All(), t.nodes[n]);
      if n == root {
        AdjustRoot();
        return;
      }
      var minKeys := if n.isLeaf then CutAt(order - 1) else CutAt(order) - 1;
      if n.numKeys >= minKeys {
        Resized(order, t, {n}, {});
        return;
      }
      Rebalance(n);
    }

    /** btree_delete. */
    method Delete(key: int)
      requires Valid()
      modifies this, t.nodes.Keys
      ensures Valid() && t.m == old(t.m) - {key} && (t.nodes.Keys <= old(t.nodes.Keys) || t.nodes == old(t.nodes))
    {
      hide Mirror, Shows, Formed, Sized, LocalOk, KidsOk, NextOk, ParentOk, HasEntry, RemoveKey, Rest;
      var keyRecord := Find(key);
      var keyLeaf := FindLeaf(key);
      if keyRecord != null && keyLeaf != null {
        LeafDecides(t, keyLeaf, key);
        ghost var i, x := t.nodes[keyLeaf], KeyPlace(t.nodes[keyLeaf].keys, key);
        RemoveBelow(order, t, keyLeaf, x);
        assert forall y | y in t.nodes :: y as object != this;
        t := RemoveKey(t, keyLeaf, x);
        DeleteEntry(keyLeaf, key, RecordPtr(keyRecord), x, i);
      }
    }
  }
}
