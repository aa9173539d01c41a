/** Entries put into, taken out of, and passed between nodes of a B+ tree (src/btree/btree.c). */
module BtreeEntries {
  import opened Orders
  import opened BtreeShape
  import opened BtreeCuts
  import opened BtreeJoins
  import opened BtreeSizes
  import opened BtreeNodes

  /** A leaf's contents with one more key and record. */
  ghost function WithEntry(i: Held, x: nat, k: int, rec: Record): Held
    requires x <= |i.keys| && x <= |i.recs|
  {
    i.(keys := i.keys[..x] + [k] + i.keys[x..], recs := i.recs[..x] + [rec] + i.recs[x..])
  }

  ghost function WithoutEntry(i: Held, x: nat): Held
    requires x < |i.keys| && x < |i.recs|
  {
    i.(keys := i.keys[..x] + i.keys[x + 1..], recs := i.recs[..x] + i.recs[x + 1..])
  }

  /** A node without the entry at place x. */
  ghost function Rest(i: Held, x: nat): Held
    requires x < |i.keys| && (if i.height == 0 then x < |i.recs| else x + 1 < |i.kids|)
  {
    if i.height == 0 then WithoutEntry(i, x) else WithoutKid(i, x)
  }

  lemma EntrySizes(i: Held, x: nat, k: int, rec: Record)
    requires x <= |i.keys| == |i.recs|
    ensures var full := WithEntry(i, x, k, rec);
            && |full.keys| == |full.recs| == |i.keys| + 1 && full.height == i.height && full.kids == i.kids
            && full.parent == i.parent && full.next == i.next
            && full.keys[x] == k && full.recs[x] == rec
            && (forall y | 0 <= y < x :: full.keys[y] == i.keys[y] && full.recs[y] == i.recs[y])
            && (forall y | x < y < |full.keys| :: full.keys[y] == i.keys[y - 1] && full.recs[y] == i.recs[y - 1])
  {
  }

  lemma KidSizes(i: Held, j: nat, key: int, right: BtNode)
    requires j <= |i.keys| && |i.kids| == |i.keys| + 1
    ensures var full := WithKid(i, j, key, right);
            && |full.keys| == |i.keys| + 1 && |full.kids| == |full.keys| + 1 && full.height == i.height &&
               full.recs == i.recs
            && full.parent == i.parent && full.next == i.next
            && full.keys[j] == key && full.kids[j + 1] == right
            && (forall y | 0 <= y < j :: full.keys[y] == i.keys[y]) &&
               (forall y | j < y < |full.keys| :: full.keys[y] == i.keys[y - 1])
            && (forall y | 0 <= y <= j :: full.kids[y] == i.kids[y]) &&
               (forall y | j + 1 < y < |full.kids| :: full.kids[y] == i.kids[y - 1])
  {
  }

  lemma RestSizes(i: Held, x: nat)
    requires x < |i.keys|
    requires if i.height == 0 then |i.recs| == |i.keys| else |i.kids| == |i.keys| + 1
    ensures var rest, n := Rest(i, x), |i.keys| - 1;
            && |rest.keys| == n && rest.height == i.height && rest.parent == i.parent && rest.next == i.next
            && (forall y | 0 <= y < x :: rest.keys[y] == i.keys[y]) &&
               (forall y | x <= y < n :: rest.keys[y] == i.keys[y + 1])
            && (i.height == 0 ==> |rest.recs| == n && (forall y | 0 <= y < x :: rest.recs[y] == i.recs[y])
                                  && (forall y | x <= y < n :: rest.recs[y] == i.recs[y + 1]))
            && (i.height > 0 ==> |rest.kids| == n + 1 && (forall y | 0 <= y <= x :: rest.kids[y] == i.kids[y])
                                 && (forall y | x < y <= n :: rest.kids[y] == i.kids[y + 1]))
  {
  }

  // ---------------------------------------------------------------- insertion

  /** The end of btree_insert_into_leaf, the place having been found. */
  method InsertIntoLeaf(order: nat, leaf: BtNode, at: nat, key: int, pointer: Record, ghost i: Held)
    requires Shows(order, leaf.All(), i) && i.height == 0 && |i.keys| + 1 < order && at <= |i.keys| && at <= |i.recs|
    modifies leaf
    ensures Shows(order, leaf.All(), WithEntry(i, at, key, pointer))
  {
    hide Shows, WithEntry;
    Shown(order, leaf.All(), i);
    EntrySizes(i, at, key, pointer);
    leaf.OpenGap(at, 0);
    leaf.keys := leaf.keys[at := key];
    leaf.pointers := leaf.pointers[at := RecordPtr(pointer)];
    leaf.numKeys := leaf.numKeys + 1;
    Show(order, leaf.All(), WithEntry(i, at, key, pointer));
  }

  /** btree_insert_into_node. */
  method InsertIntoNode(order: nat, n: BtNode, leftIndex: nat, key: int, right: BtNode, ghost i: Held)
    requires Shows(order, n.All(), i) && i.height > 0 && |i.keys| + 1 < order && leftIndex <= |i.keys| &&
             leftIndex < |i.kids|
    modifies n
    ensures Shows(order, n.All(), WithKid(i, leftIndex, key, right))
  {
    hide Shows, WithKid;
    Shown(order, n.All(), i);
    KidSizes(i, leftIndex, key, right);
    n.OpenGap(leftIndex, 1);
    n.pointers := n.pointers[leftIndex + 1 := NodePtr(right)];
    n.keys := n.keys[leftIndex := key];
    n.numKeys := n.numKeys + 1;
    Show(order, n.All(), WithKid(i, leftIndex, key, right));
  }

  /** The temporary array of a split: the first n of src, with v at place skip. */
  method CopyAround<T>(src: seq<T>, n: nat, skip: nat, v: T, dst: array<T>)
    requires n <= |src| && skip <= n < dst.Length
    modifies dst
    ensures forall y | 0 <= y < skip :: dst[y] == src[y]
    ensures dst[skip] == v
    ensures forall y | skip < y <= n :: dst[y] == src[y - 1]
  {
    var i, j := 0, 0;
    while i < n
      invariant 0 <= i <= n && j == (if i <= skip then i else i + 1)
      invariant forall y | 0 <= y < i && y < skip :: dst[y] == src[y]
      invariant forall y | skip <= y < i :: dst[y + 1] == src[y]
    {
      if j == skip {
        j := j + 1;
      }
      dst[j] := src[i];
      i, j := i + 1, j + 1;
    }
    dst[skip] := v;
    assert forall y | skip < y <= n :: dst[y] == src[y - 1];
  }

  /** Filling a node from the temporary arrays: cnt keys, and cnt + d pointers, from a place on. */
  method Fill(n: BtNode, tempKeys: array<int>, tempPointers: array<Pointer>, from: nat, cnt: nat, d: nat)
    requires cnt <= |n.keys| && cnt + d <= |n.pointers| && d <= 1
    requires from + cnt <= tempKeys.Length && from + cnt + d <= tempPointers.Length
    modifies n
    ensures n.parent == old(n.parent) && n.isLeaf == old(n.isLeaf) && n.numKeys == cnt
    ensures |n.keys| == |old(n.keys)| && |n.pointers| == |old(n.pointers)|
    ensures forall y | 0 <= y < cnt :: n.keys[y] == tempKeys[from + y]
    ensures forall y | 0 <= y < cnt + d :: n.pointers[y] == tempPointers[from + y]
    ensures forall y | cnt + d <= y < |n.pointers| :: n.pointers[y] == old(n.pointers)[y]
  {
    n.numKeys := 0;
    ghost var ps := n.pointers;
    for i := 0 to cnt
      invariant n.parent == old(n.parent) && n.isLeaf == old(n.isLeaf) && n.numKeys == i
      invariant |n.keys| == |old(n.keys)| && |n.pointers| == |ps|
      invariant forall y | 0 <= y < i :: n.keys[y] == tempKeys[from + y]
      invariant forall y | 0 <= y < i :: n.pointers[y] == tempPointers[from + y]
      invariant forall y | i <= y < |n.pointers| :: n.pointers[y] == ps[y]
    {
      n.pointers := n.pointers[i := tempPointers[from + i]];
      n.keys := n.keys[i := tempKeys[from + i]];
      n.numKeys := n.numKeys + 1;
    }
    if d == 1 {
      n.pointers := n.pointers[cnt := tempPointers[from + cnt]];
    }
  }

  /** The temporary arrays of a leaf split hold the old entries and the new one, in order. */
  method LeafTemps(order: nat, leaf: BtNode, at: nat, key: int, pointer: Record, ghost i: Held)
    returns (tempKeys: array<int>, tempPointers: array<Pointer>)
    requires order >= 3 && Shows(order, leaf.All(), i) && i.height == 0 && |i.keys| + 1 == order &&
             at <= |i.keys| == |i.recs|
    ensures fresh(tempKeys) && fresh(tempPointers) && tempKeys.Length == tempPointers.Length == order
    ensures var full := WithEntry(i, at, key, pointer);
            forall y | 0 <= y < order :: tempKeys[y] == full.keys[y] && tempPointers[y] == RecordPtr(full.recs[y])
  {
    hide Shows, WithEntry;
    Shown(order, leaf.All(), i);
    EntrySizes(i, at, key, pointer);
    tempKeys, tempPointers := new int[order], new Pointer[order];
    CopyAround(leaf.keys, leaf.numKeys, at, key, tempKeys);
    CopyAround(leaf.pointers, leaf.numKeys, at, RecordPtr(pointer), tempPointers);
  }

  /** The middle of btree_insert_into_leaf_after_splitting: the two leaves share out the old entries and the new one. */
  method SplitLeaf(order: nat, leaf: BtNode, newLeaf: BtNode, at: nat, key: int, pointer: Record, ghost i: Held)
    requires order >= 3 && Shows(order, leaf.All(), i) && i.height == 0 && i.kids == []
    requires |i.keys| + 1 == order && at <= |i.keys| == |i.recs|
    requires leaf != newLeaf && |newLeaf.keys| + 1 == order == |newLeaf.pointers| && newLeaf.isLeaf
    modifies leaf, newLeaf
    ensures Shows(order, leaf.All(), LeftPart(WithEntry(i, at, key, pointer), newLeaf, MinKeys(order, 0)))
    ensures Shows(order, newLeaf.All(), RightPart(WithEntry(i, at, key, pointer), MinKeys(order, 0)))
  {
    hide Shows, WithEntry;
    ghost var full := WithEntry(i, at, key, pointer);
    Shown(order, leaf.All(), i);
    EntryCounts(i, at, key, pointer);
    var tempKeys, tempPointers := LeafTemps(order, leaf, at, key, pointer, i);
    ShareLeaf(order, leaf, newLeaf, tempKeys, tempPointers, full);
  }

  lemma EntryCounts(i: Held, x: nat, k: int, rec: Record)
    requires x <= |i.keys| == |i.recs|
    ensures var full := WithEntry(i, x, k, rec);
            && |full.keys| == |full.recs| == |i.keys| + 1 && full.height == i.height && full.kids == i.kids
            && full.parent == i.parent && full.next == i.next
  {
  }

  /** The contents of the temporary arrays go to the two leaves. */
  method ShareLeaf(order: nat, leaf: BtNode, newLeaf: BtNode, tempKeys: array<int>, tempPointers: array<Pointer>,
                   ghost full: Held)
    requires order >= 3 && full.height == 0 && |full.keys| == |full.recs| == order && full.kids == []
    requires |leaf.keys| + 1 == order == |leaf.pointers| && leaf.isLeaf && leaf.parent == Parent(full.parent)
    requires leaf.pointers[order - 1] == NextPtr(full.next)
    requires leaf != newLeaf && |newLeaf.keys| + 1 == order == |newLeaf.pointers| && newLeaf.isLeaf
    requires tempKeys.Length == tempPointers.Length == order
    requires forall y | 0 <= y < order :: tempKeys[y] == full.keys[y] && tempPointers[y] == RecordPtr(full.recs[y])
    modifies leaf, newLeaf
    ensures Shows(order, leaf.All(), LeftPart(full, newLeaf, MinKeys(order, 0)))
    ensures Shows(order, newLeaf.All(), RightPart(full, MinKeys(order, 0)))
  {
    hide Shows;
    var split := CutAt(order - 1);
    Fill(leaf, tempKeys, tempPointers, 0, split, 0);
    Fill(newLeaf, tempKeys, tempPointers, split, order - split, 0);
    ChainLeaf(order, leaf, newLeaf);
    Show(order, leaf.All(), LeftPart(full, newLeaf, split));
    Show(order, newLeaf.All(), RightPart(full, split));
  }

  /** The new leaf of a split comes after the old one in the chain, below the same parent. */
  method ChainLeaf(order: nat, leaf: BtNode, newLeaf: BtNode)
    requires leaf != newLeaf && |leaf.pointers| == |newLeaf.pointers| == order > 0
    requires leaf.numKeys < order && newLeaf.numKeys < order
    modifies leaf`pointers, newLeaf`pointers, newLeaf`parent
    ensures |leaf.pointers| == |newLeaf.pointers| == order && newLeaf.parent == leaf.parent
    ensures forall y | 0 <= y < leaf.numKeys :: leaf.pointers[y] == old(leaf.pointers)[y]
    ensures forall y | 0 <= y < newLeaf.numKeys :: newLeaf.pointers[y] == old(newLeaf.pointers)[y]
    ensures leaf.pointers[order - 1] == NodePtr(newLeaf) && newLeaf.pointers[order - 1] == old(leaf.pointers)[order - 1]
  {
    newLeaf.pointers := newLeaf.pointers[order - 1 := leaf.pointers[order - 1]];
    leaf.pointers := leaf.pointers[order - 1 := NodePtr(newLeaf)];
    leaf.ClearPointers(leaf.numKeys, order - 1);
    newLeaf.ClearPointers(newLeaf.numKeys, order - 1);
    newLeaf.parent := leaf.parent;
  }

  /** The temporary arrays of the split of an inner node. */
  method NodeTemps(order: nat, n: BtNode, leftIndex: nat, key: int, right: BtNode, ghost i: Held)
    returns (tempKeys: array<int>, tempPointers: array<Pointer>)
    requires order >= 3 && Shows(order, n.All(), i) && i.height > 0 && |i.keys| + 1 == order == |i.kids| &&
             leftIndex <= |i.keys|
    ensures fresh(tempKeys) && fresh(tempPointers) && tempKeys.Length + 1 == tempPointers.Length == order + 1
    ensures var full := WithKid(i, leftIndex, key, right);
            && (forall y | 0 <= y < order :: tempKeys[y] == full.keys[y])
            && (forall y | 0 <= y <= order :: tempPointers[y] == NodePtr(full.kids[y]))
  {
    hide Shows, WithKid;
    Shown(order, n.All(), i);
    KidSizes(i, leftIndex, key, right);
    tempKeys, tempPointers := new int[order], new Pointer[order + 1];
    CopyAround(n.pointers, n.numKeys + 1, leftIndex + 1, NodePtr(right), tempPointers);
    CopyAround(n.keys, n.numKeys, leftIndex, key, tempKeys);
  }

  /** The middle of btree_insert_into_node_after_splitting. The children handed over still have their old parent. */
  method SplitNode(order: nat, n: BtNode, newNode: BtNode, leftIndex: nat, key: int, right: BtNode, ghost i: Held)
    returns (kPrime: int)
    requires order >= 3 && Shows(order, n.All(), i) && i.height > 0 && i.recs == []
    requires |i.keys| + 1 == order == |i.kids| && leftIndex <= |i.keys|
    requires n != newNode && |newNode.keys| + 1 == order == |newNode.pointers| && !newNode.isLeaf
    modifies n, newNode
    ensures var full, at := WithKid(i, leftIndex, key, right), MinKeys(order, i.height);
            && Shows(order, n.All(), LeftPart(full, newNode, at)) && Shows(order, newNode.All(), RightPart(full, at))
            && kPrime == full.keys[at]
  {
    hide Shows, WithKid;
    ghost var full := WithKid(i, leftIndex, key, right);
    Shown(order, n.All(), i);
    KidSizes(i, leftIndex, key, right);
    var tempKeys, tempPointers := NodeTemps(order, n, leftIndex, key, right, i);
    kPrime := ShareKids(order, n, newNode, tempKeys, tempPointers, full);
  }

  /** The contents of the temporary arrays go to the two nodes, but for the middle key. */
  method ShareKids(order: nat, n: BtNode, newNode: BtNode, tempKeys: array<int>, tempPointers: array<Pointer>,
                   ghost full: Held)
    returns (kPrime: int)
    requires order >= 3 && full.height > 0 && |full.keys| == order && |full.kids| == order + 1 && full.recs == []
    requires |n.keys| + 1 == order == |n.pointers| && !n.isLeaf && n.parent == Parent(full.parent)
    requires n != newNode && |newNode.keys| + 1 == order == |newNode.pointers| && !newNode.isLeaf
    requires tempKeys.Length + 1 == tempPointers.Length == order + 1
    requires forall y | 0 <= y < order :: tempKeys[y] == full.keys[y]
    requires forall y | 0 <= y <= order :: tempPointers[y] == NodePtr(full.kids[y])
    modifies n, newNode
    ensures var at := MinKeys(order, full.height);
            && Shows(order, n.All(), LeftPart(full, newNode, at)) && Shows(order, newNode.All(), RightPart(full, at))
            && kPrime == full.keys[at]
  {
    hide Shows;
    var split := CutAt(order);
    Fill(n, tempKeys, tempPointers, 0, split - 1, 1);
    kPrime := tempKeys[split - 1];
    Fill(newNode, tempKeys, tempPointers, split, order - split, 1);
    newNode.parent := n.parent;
    Show(order, n.All(), LeftPart(full, newNode, split - 1));
    Show(order, newNode.All(), RightPart(full, split - 1));
  }

  // ---------------------------------------------------------------- removal

  /** The place of a key and of a pointer, which the source looks for separately. */
  method FindKey(n: BtNode, key: int, ghost x: nat) returns (i: nat)
    requires x < |n.keys| && n.keys[x] == key && forall y | 0 <= y < x :: n.keys[y] != key
    ensures i == x
  {
    i := 0;
    while n.keys[i] != key
      invariant i <= x
      decreases x - i
    {
      i := i + 1;
    }
  }

  method FindPointer(n: BtNode, pointer: Pointer, ghost x: nat) returns (i: nat)
    requires x < |n.pointers| && n.pointers[x] == pointer && forall y | 0 <= y < x :: n.pointers[y] != pointer
    ensures i == x
  {
    i := 0;
    while n.pointers[i] != pointer
      invariant i <= x
      decreases x - i
    {
      i := i + 1;
    }
  }

  /** An entry that btree_remove_entry_from_node finds at place x. */
  ghost predicate HasEntry(i: Held, x: nat, key: int, pointer: Pointer) {
    && x < |i.keys| && Increasing(i.keys) && i.keys[x] == key
    && if i.height == 0 then
         |i.recs| == |i.keys| && RecordPtr(i.recs[x]) == pointer && forall y | 0 <= y < x :: i.recs[y] != i.recs[x]
       else
         |i.kids| == |i.keys| + 1 && NodePtr(i.kids[x + 1]) == pointer &&
           forall y | 0 <= y <= x :: i.kids[y] != i.kids[x + 1]
  }

  /** The pointer half of btree_remove_entry_from_node. */
  method RemovePointer(order: nat, n: BtNode, pointer: Pointer, ghost x: nat)
    requires n.numKeys < order == |n.pointers| && x < n.numKeys + (if n.isLeaf then 0 else 1)
    requires n.pointers[x] == pointer && forall y | 0 <= y < x :: n.pointers[y] != pointer
    requires n.numKeys > 0
    modifies n`pointers, n`numKeys
    ensures n.numKeys == old(n.numKeys) - 1 && |n.pointers| == order
    ensures var m := n.numKeys + (if n.isLeaf then 0 else 1);
            && (forall y | 0 <= y < m && y < x :: n.pointers[y] == old(n.pointers)[y])
            && (forall y | x <= y < m :: n.pointers[y] == old(n.pointers)[y + 1])
    ensures n.isLeaf ==> n.pointers[order - 1] == old(n.pointers)[order - 1]
  {
    var numPointers := if n.isLeaf then n.numKeys else n.numKeys + 1;
    var p := FindPointer(n, pointer, x);
    n.ClosePointers(p, numPointers);
    n.numKeys := n.numKeys - 1;
    if n.isLeaf {
      n.ClearPointers(n.numKeys, order - 1);
    } else {
      n.ClearPointers(n.numKeys + 1, order);
    }
  }

  /** btree_remove_entry_from_node. */
  method RemoveEntryFromNode(order: nat, n: BtNode, key: int, pointer: Pointer, ghost x: nat, ghost i: Held)
    requires Shows(order, n.All(), i) && HasEntry(i, x, key, pointer)
    modifies n
    ensures Shows(order, n.All(), Rest(i, x))
  {
    hide Shows, Increasing, Rest;
    Shown(order, n.All(), i);
    RestSizes(i, x);
    forall y | 0 <= y < x ensures n.keys[y] != key { IncreasingAt(i.keys, y, x); }
    var k := FindKey(n, key, x);
    n.CloseKeys(k, n.numKeys);
    RemovePointer(order, n, pointer, if i.height == 0 then x else x + 1);
    Show(order, n.All(), Rest(i, x));
  }

  // ---------------------------------------------------------------- coalescing and redistributing

  /** The copying of btree_coalesce_nodes. The children taken over still have their old parent. */
  method Absorb(order: nat, neighbor: BtNode, n: BtNode, kPrime: int, ghost l: Held, ghost r: Held)
    requires neighbor != n && Shows(order, neighbor.All(), l) && Shows(order, n.All(), r) && l.height == r.height
    requires |l.keys| + |r.keys| + (if l.height == 0 then 0 else 1) < order
    modifies neighbor
    ensures Shows(order, neighbor.All(), Joined(l, r, kPrime))
  {
    hide Shows;
    Shown(order, neighbor.All(), l);
    Shown(order, n.All(), r);
    var at := neighbor.numKeys;
    if !n.isLeaf {
      neighbor.keys := neighbor.keys[at := kPrime];
      neighbor.numKeys := neighbor.numKeys + 1;
      CopyEntries(neighbor, n, at + 1);
      neighbor.pointers := neighbor.pointers[at + 1 + n.numKeys := n.pointers[n.numKeys]];
    } else {
      CopyEntries(neighbor, n, at);
      neighbor.pointers := neighbor.pointers[order - 1 := n.pointers[order - 1]];
    }
    Show(order, neighbor.All(), Joined(l, r, kPrime));
  }

  method CopyEntries(neighbor: BtNode, n: BtNode, at: nat)
    requires neighbor != n && at == neighbor.numKeys && at + n.numKeys <= |neighbor.keys| &&
             |neighbor.keys| < |neighbor.pointers|
    requires n.numKeys <= |n.keys| < |n.pointers|
    modifies neighbor
    ensures neighbor.numKeys == at + n.numKeys && neighbor.parent == old(neighbor.parent) &&
            neighbor.isLeaf == old(neighbor.isLeaf)
    ensures |neighbor.keys| == |old(neighbor.keys)| && |neighbor.pointers| == |old(neighbor.pointers)|
    ensures forall y | 0 <= y < at ::
            neighbor.keys[y] == old(neighbor.keys)[y] && neighbor.pointers[y] == old(neighbor.pointers)[y]
    ensures forall y | at <= y < at + n.numKeys ::
            neighbor.keys[y] == n.keys[y - at] && neighbor.pointers[y] == n.pointers[y - at]
    ensures forall y | at + n.numKeys <= y < |neighbor.pointers| :: neighbor.pointers[y] == old(neighbor.pointers)[y]
  {
    ghost var ks, ps := neighbor.keys, neighbor.pointers;
    for j := 0 to n.numKeys
      invariant neighbor.numKeys == at + j && neighbor.parent == old(neighbor.parent) &&
                neighbor.isLeaf == old(neighbor.isLeaf)
      invariant |neighbor.keys| == |ks| && |neighbor.pointers| == |ps|
      invariant forall y | 0 <= y < at :: neighbor.keys[y] == ks[y] && neighbor.pointers[y] == ps[y]
      invariant forall y | at <= y < at + j ::
                neighbor.keys[y] == n.keys[y - at] && neighbor.pointers[y] == n.pointers[y - at]
      invariant forall y | at + j <= y < |neighbor.pointers| :: neighbor.pointers[y] == ps[y]
    {
      neighbor.keys := neighbor.keys[at + j := n.keys[j]];
      neighbor.pointers := neighbor.pointers[at + j := n.pointers[j]];
      neighbor.numKeys := neighbor.numKeys + 1;
    }
  }

  /**
   * Neighbours of which the left one can give its last entry to the right one, or the right one its first to the
   * left.
   */
  ghost predicate Beside(order: nat, l: Held, r: Held, right: BtNode) {
    && LocalSizes(l) && LocalSizes(r) && l.height == r.height && l.parent == r.parent
    && (l.height == 0 ==> l.next == Some(right))
  }

  ghost predicate LocalSizes(i: Held) {
    |i.recs| == (if i.height == 0 then |i.keys| else 0) && |i.kids| == (if i.height == 0 then 0 else |i.keys| + 1)
  }

  /** What n is to hold with one more entry at its front. */
  ghost predicate Prepended(r: Held, rest: Held, key: int, pointer: Pointer) {
    && rest.height == r.height && rest.parent == r.parent && rest.keys == [key] + r.keys
    && if r.height == 0 then
         && |rest.recs| == |r.recs| + 1 && pointer == RecordPtr(rest.recs[0]) && rest.next == r.next
         && forall y | 0 < y < |rest.recs| :: rest.recs[y] == r.recs[y - 1]
       else
         && |rest.kids| == |r.kids| + 1 && pointer == NodePtr(rest.kids[0])
         && forall y | 0 < y < |rest.kids| :: rest.kids[y] == r.kids[y - 1]
  }

  /** One more entry at the front, the others one place on. */
  method PutFirst(n: BtNode, key: int, pointer: Pointer)
    requires n.numKeys + 1 < |n.pointers| == |n.keys| + 1
    modifies n`keys, n`pointers, n`numKeys
    ensures |n.pointers| == |n.keys| + 1 == |old(n.pointers)| && n.numKeys == old(n.numKeys) + 1
    ensures n.keys[0] == key && n.pointers[0] == pointer
    ensures forall y | 0 < y < n.numKeys :: n.keys[y] == old(n.keys)[y - 1]
    ensures forall y | 0 < y < n.numKeys :: n.pointers[y] == old(n.pointers)[y - 1]
    ensures !n.isLeaf ==> n.pointers[n.numKeys] == old(n.pointers)[n.numKeys - 1]
    ensures n.isLeaf ==> n.pointers[|n.keys|] == old(n.pointers)[|n.keys|]
  {
    if !n.isLeaf {
      n.pointers := n.pointers[n.numKeys + 1 := n.pointers[n.numKeys]];
    }
    n.OpenGap(0, 0);
    n.pointers := n.pointers[0 := pointer];
    n.keys := n.keys[0 := key];
    n.numKeys := n.numKeys + 1;
  }

  /** The same, in terms of what n is to hold. */
  method Prepend(order: nat, n: BtNode, key: int, pointer: Pointer, ghost r: Held, ghost rest: Held)
    requires Shows(order, n.All(), r) && |r.keys| + 1 < order && Prepended(r, rest, key, pointer)
    modifies n`keys, n`pointers, n`numKeys
    ensures Shows(order, n.All(), rest)
  {
    hide Shows;
    Shown(order, n.All(), r);
    PutFirst(n, key, pointer);
    Show(order, n.All(), rest);
  }

  /** The neighbour's last pointer, and the key that goes with it, at the front of n. */
  method PrependLast(order: nat, n: BtNode, neighbor: BtNode, kPrime: int, ghost l: Held, ghost r: Held)
    requires n != neighbor && Shows(order, neighbor.All(), l) && Shows(order, n.All(), r) && Beside(order, l, r, n)
    requires |l.keys| > (if l.height == 0 then 1 else 0) && |r.keys| + 1 < order
    modifies n`keys, n`pointers, n`numKeys
    ensures Shows(order, n.All(), RightPart(Joined(l, r, kPrime), |l.keys| - 1))
  {
    hide Shows, RightPart;
    Shown(order, neighbor.All(), l);
    Shown(order, n.All(), r);
    LastMoved(l, r, kPrime);
    var m := neighbor.numKeys;
    var pointer := neighbor.pointers[if n.isLeaf then m - 1 else m];
    var key := if n.isLeaf then neighbor.keys[m - 1] else kPrime;
    Prepend(order, n, key, pointer, r, RightPart(Joined(l, r, kPrime), |l.keys| - 1));
  }

  lemma LastMoved(l: Held, r: Held, kPrime: int)
    requires LocalSizes(l) && LocalSizes(r) && l.height == r.height && |l.keys| > (if r.height == 0 then 1 else 0)
    ensures var m, rest := |l.keys| - 1, RightPart(Joined(l, r, kPrime), |l.keys| - 1);
            && rest.height == r.height && rest.parent == l.parent
            && rest.keys == [if l.height == 0 then l.keys[m] else kPrime] + r.keys
            && (if r.height == 0 then rest.recs == [l.recs[m]] + r.recs && rest.next == r.next
                else rest.kids == [l.kids[m + 1]] + r.kids)
  {
  }

  /** The neighbour without its last entry. */
  method DropLast(order: nat, n: BtNode, neighbor: BtNode, kPrime: int, ghost l: Held, ghost r: Held)
    requires Shows(order, neighbor.All(), l) && Beside(order, l, r, n)
    requires |l.keys| > (if l.height == 0 then 1 else 0)
    modifies neighbor`pointers, neighbor`numKeys
    ensures Shows(order, neighbor.All(), LeftPart(Joined(l, r, kPrime), n, |l.keys| - 1))
  {
    hide Shows;
    Shown(order, neighbor.All(), l);
    var m := neighbor.numKeys;
    neighbor.pointers := neighbor.pointers[(if neighbor.isLeaf then m - 1 else m) := NullPtr];
    neighbor.numKeys := m - 1;
    Show(order, neighbor.All(), LeftPart(Joined(l, r, kPrime), n, |l.keys| - 1));
  }

  /** The first half of btree_redistribute_nodes: the last entry of the left neighbour goes to the front of n. */
  method TakeFromLeft(order: nat, n: BtNode, neighbor: BtNode, kPrime: int, ghost l: Held, ghost r: Held)
    returns (newSep: int)
    requires n != neighbor && Shows(order, neighbor.All(), l) && Shows(order, n.All(), r) && Beside(order, l, r, n)
    requires |l.keys| > (if l.height == 0 then 1 else 0) && |r.keys| + 1 < order
    modifies n`keys, n`pointers, n`numKeys, neighbor`pointers, neighbor`numKeys
    ensures var both, at := Joined(l, r, kPrime), |l.keys| - 1;
            && Shows(order, neighbor.All(), LeftPart(both, n, at)) && Shows(order, n.All(), RightPart(both, at))
            && newSep == both.keys[at]
  {
    hide Shows;
    Shown(order, neighbor.All(), l);
    newSep := neighbor.keys[neighbor.numKeys - 1];
    PrependLast(order, n, neighbor, kPrime, l, r);
    DropLast(order, n, neighbor, kPrime, l, r);
  }

  /** The neighbour's first pointer, and the key that goes with it, at the end of n. */
  method AppendFirst(order: nat, n: BtNode, neighbor: BtNode, kPrime: int, ghost l: Held, ghost r: Held)
    requires n != neighbor && Shows(order, n.All(), l) && Shows(order, neighbor.All(), r) &&
             Beside(order, l, r, neighbor)
    requires |r.keys| > (if r.height == 0 then 1 else 0) && |l.keys| + 1 < order
    modifies n`keys, n`pointers, n`numKeys
    ensures Shows(order, n.All(), LeftPart(Joined(l, r, kPrime), neighbor, |l.keys| + 1))
  {
    hide Shows;
    Shown(order, n.All(), l);
    Shown(order, neighbor.All(), r);
    if n.isLeaf {
      n.keys := n.keys[n.numKeys := neighbor.keys[0]];
      n.pointers := n.pointers[n.numKeys := neighbor.pointers[0]];
    } else {
      n.keys := n.keys[n.numKeys := kPrime];
      n.pointers := n.pointers[n.numKeys + 1 := neighbor.pointers[0]];
    }
    n.numKeys := n.numKeys + 1;
    Show(order, n.All(), LeftPart(Joined(l, r, kPrime), neighbor, |l.keys| + 1));
  }

  /** The neighbour without its first entry. */
  method DropFirst(order: nat, neighbor: BtNode, kPrime: int, ghost l: Held, ghost r: Held)
    requires Shows(order, neighbor.All(), r) && Beside(order, l, r, neighbor)
    requires |r.keys| > (if r.height == 0 then 1 else 0)
    modifies neighbor`keys, neighbor`pointers, neighbor`numKeys
    ensures Shows(order, neighbor.All(), RightPart(Joined(l, r, kPrime), |l.keys| + 1))
  {
    hide Shows;
    Shown(order, neighbor.All(), r);
    neighbor.CloseKeys(0, neighbor.numKeys);
    neighbor.ClosePointers(0, if neighbor.isLeaf then neighbor.numKeys else neighbor.numKeys + 1);
    neighbor.numKeys := neighbor.numKeys - 1;
    FirstGone(l, r, kPrime);
    Show(order, neighbor.All(), RightPart(Joined(l, r, kPrime), |l.keys| + 1));
  }

  lemma FirstGone(l: Held, r: Held, kPrime: int)
    requires LocalSizes(l) && LocalSizes(r) && l.height == r.height && |r.keys| > (if r.height == 0 then 1 else 0)
    ensures var rest := RightPart(Joined(l, r, kPrime), |l.keys| + 1);
            && rest.keys == r.keys[1..] && rest.height == r.height && rest.parent == l.parent
            && (if r.height == 0 then rest.recs == r.recs[1..] && rest.next == r.next else rest.kids == r.kids[1..])
  {
  }

  /** The second half: the first entry of the right neighbour goes to the end of n. */
  method TakeFromRight(order: nat, n: BtNode, neighbor: BtNode, kPrime: int, ghost l: Held, ghost r: Held)
    returns (newSep: int)
    requires n != neighbor && Shows(order, n.All(), l) && Shows(order, neighbor.All(), r) &&
             Beside(order, l, r, neighbor)
    requires |r.keys| > (if r.height == 0 then 1 else 0) && |l.keys| + 1 < order
    modifies n`keys, n`pointers, n`numKeys, neighbor`keys, neighbor`pointers, neighbor`numKeys
    ensures var both, at := Joined(l, r, kPrime), |l.keys| + 1;
            && Shows(order, n.All(), LeftPart(both, neighbor, at)) && Shows(order, neighbor.All(), RightPart(both, at))
            && newSep == both.keys[at]
  {
    hide Shows;
    Shown(order, neighbor.All(), r);
    newSep := neighbor.keys[if neighbor.isLeaf then 1 else 0];
    AppendFirst(order, n, neighbor, kPrime, l, r);
    DropFirst(order, neighbor, kPrime, l, r);
  }

  /** A new separator in place of an old one. */
  method Reseparate(order: nat, p: BtNode, j: nat, key: int, ghost i: Held)
    requires Shows(order, p.All(), i) && i.height > 0 && j < |i.keys|
    modifies p`keys
    ensures Shows(order, p.All(), i.(keys := i.keys[j := key]))
  {
    hide Shows;
    Shown(order, p.All(), i);
    p.keys := p.keys[j := key];
    Show(order, p.All(), i.(keys := i.keys[j := key]));
  }

  /** A new parent for a node. */
  method SetParent(order: nat, c: BtNode, p: BtNode?, ghost q: Option<BtNode>, ghost i: Held)
    requires Shows(order, c.All(), i) && p == Parent(q)
    modifies c`parent
    ensures Shows(order, c.All(), i.(parent := q))
  {
    hide Shows;
    Shown(order, c.All(), i);
    c.parent := p;
    Show(order, c.All(), i.(parent := q));
  }
}
