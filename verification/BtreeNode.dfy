/**
 * The nodes of a B+ tree as objects with key and pointer arrays, edited in place (src/btree/btree.h,
 * src/btree/btree.c).
 */
module BtreeNodes {
  import opened Orders
  import opened BtreeShape

  class Record {
    const value: int

    constructor (value: int)
      ensures this.value == value
    {
      this.value := value;
    }
  }

  /** An untyped pointer: a leaf's to records and to the next leaf, an inner node's to children. */
  datatype Pointer = NullPtr | NodePtr(node: BtNode) | RecordPtr(record: Record)

  type Held = Info<BtNode, Record>

  /** The fields of a node. */
  datatype Fields = Fields(keys: seq<int>, pointers: seq<Pointer>, parent: BtNode?, isLeaf: bool, numKeys: nat)

  class BtNode {
    var keys: seq<int>
    var pointers: seq<Pointer>
    var parent: BtNode?
    var isLeaf: bool
    var numKeys: nat

    /** btree_make_node, btree_make_leaf: the arrays hold anything at first. */
    constructor (order: nat, leaf: bool)
      requires order >= 3
      ensures |keys| == order - 1 && |pointers| == order && parent == null && isLeaf == leaf && numKeys == 0
    {
      var ks: int, ps: Pointer := *, *;
      keys, pointers := seq(order - 1, _ => ks), seq(order, _ => ps);
      parent, isLeaf, numKeys := null, leaf, 0;
    }

    ghost function All(): Fields
      reads this
    {
      Fields(keys, pointers, parent, isLeaf, numKeys)
    }

    // ------------------------------------------------------------ editing the arrays

    /** The shifting loop of an insertion: keys from at on move up by one, and so do pointers from at + d on. */
    method OpenGap(at: nat, d: nat)
      requires at <= numKeys < |keys| && d <= 1 && numKeys + d < |pointers|
      modifies `keys, `pointers
      ensures |keys| == |old(keys)| && |pointers| == |old(pointers)|
      ensures forall y | 0 <= y <= at || numKeys < y < |keys| :: keys[y] == old(keys)[y]
      ensures forall y | at < y <= numKeys :: keys[y] == old(keys)[y - 1]
      ensures forall y | 0 <= y <= at + d || numKeys + d < y < |pointers| :: pointers[y] == old(pointers)[y]
      ensures forall y | at + d < y <= numKeys + d :: pointers[y] == old(pointers)[y - 1]
    {
      var i := numKeys;
      ghost var ks, ps := keys, pointers;
      while i > at
        invariant at <= i <= numKeys && |keys| == |ks| && |pointers| == |ps|
        invariant forall y | 0 <= y <= i || numKeys < y < |keys| :: keys[y] == ks[y]
        invariant forall y | i < y <= numKeys :: keys[y] == ks[y - 1]
        invariant forall y | 0 <= y <= i + d || numKeys + d < y < |pointers| :: pointers[y] == ps[y]
        invariant forall y | i + d < y <= numKeys + d :: pointers[y] == ps[y - 1]
      {
        pointers := pointers[i + d := pointers[i + d - 1]];
        keys := keys[i := keys[i - 1]];
        i := i - 1;
      }
    }

    /** The shifting loops of a removal: places after at move down by one, up to but excluding n. */
    method CloseKeys(at: nat, n: nat)
      requires at < n <= |keys|
      modifies `keys
      ensures |keys| == |old(keys)|
      ensures forall y | 0 <= y < at || n - 1 <= y < |keys| :: keys[y] == old(keys)[y]
      ensures forall y | at <= y < n - 1 :: keys[y] == old(keys)[y + 1]
    {
      var i := at + 1;
      ghost var ks := keys;
      while i < n
        invariant at < i <= n && |keys| == |ks|
        invariant forall y | 0 <= y < at || i - 1 <= y < |keys| :: keys[y] == ks[y]
        invariant forall y | at <= y < i - 1 :: keys[y] == ks[y + 1]
      {
        keys := keys[i - 1 := keys[i]];
        i := i + 1;
      }
    }

    method ClosePointers(at: nat, n: nat)
      requires at < n <= |pointers|
      modifies `pointers
      ensures |pointers| == |old(pointers)|
      ensures forall y | 0 <= y < at || n - 1 <= y < |pointers| :: pointers[y] == old(pointers)[y]
      ensures forall y | at <= y < n - 1 :: pointers[y] == old(pointers)[y + 1]
    {
      var i := at + 1;
      ghost var ps := pointers;
      while i < n
        invariant at < i <= n && |pointers| == |ps|
        invariant forall y | 0 <= y < at || i - 1 <= y < |pointers| :: pointers[y] == ps[y]
        invariant forall y | at <= y < i - 1 :: pointers[y] == ps[y + 1]
      {
        pointers := pointers[i - 1 := pointers[i]];
        i := i + 1;
      }
    }

    /** Pointers from a place on are set to null, up to but excluding n. */
    method ClearPointers(from: nat, n: nat)
      requires from <= n <= |pointers|
      modifies `pointers
      ensures |pointers| == |old(pointers)|
      ensures forall y | 0 <= y < |pointers| :: pointers[y] == if from <= y < n then NullPtr else old(pointers)[y]
    {
      for i := from to n
        invariant |pointers| == |old(pointers)|
        invariant forall y | 0 <= y < |pointers| :: pointers[y] == if from <= y < i then NullPtr else old(pointers)[y]
      {
        pointers := pointers[i := NullPtr];
      }
    }
  }

  function Parent(p: Option<BtNode>): BtNode? {
    if p.Some? then p.value else null
  }

  function NextPtr(p: Option<BtNode>): Pointer {
    if p.Some? then NodePtr(p.value) else NullPtr
  }

  /** The fields of a node show what it is to hold. A leaf's last pointer leads to the next leaf. */
  ghost predicate Shows(order: nat, f: Fields, i: Held) {
    match f
    case Fields(keys, pointers, parent, isLeaf, numKeys) =>
      && |keys| + 1 == order == |pointers| && numKeys == |i.keys| < order
      && keys[..numKeys] == i.keys
      && isLeaf == (i.height == 0) && parent == Parent(i.parent)
      && if i.height == 0 then
           && |i.recs| == numKeys && pointers[order - 1] == NextPtr(i.next)
           && forall x | 0 <= x < numKeys :: pointers[x] == RecordPtr(i.recs[x])
         else
           && |i.kids| == numKeys + 1
           && forall x | 0 <= x <= numKeys :: pointers[x] == NodePtr(i.kids[x])
  }

  /** Every node of a tree shows what it is to hold. */
  ghost predicate Mirror(order: nat, nodes: Nodes<BtNode, Record>)
    reads nodes.Keys
  {
    forall n | n in nodes :: Shows(order, n.All(), nodes[n])
  }

  lemma Shown(order: nat, f: Fields, i: Held)
    requires Shows(order, f, i)
    ensures |f.keys| + 1 == order == |f.pointers| && f.numKeys == |i.keys| < order
    ensures forall x | 0 <= x < f.numKeys :: f.keys[x] == i.keys[x]
    ensures f.isLeaf == (i.height == 0) && f.parent == Parent(i.parent)
    ensures i.height == 0 ==> |i.recs| == f.numKeys && f.pointers[order - 1] == NextPtr(i.next)
    ensures i.height == 0 ==> forall x | 0 <= x < f.numKeys :: f.pointers[x] == RecordPtr(i.recs[x])
    ensures i.height > 0 ==>
              |i.kids| == f.numKeys + 1 && forall x | 0 <= x <= f.numKeys :: f.pointers[x] == NodePtr(i.kids[x])
  {
    forall x | 0 <= x < f.numKeys ensures f.keys[x] == i.keys[x] {
      assert f.keys[..f.numKeys][x] == f.keys[x];
    }
  }

  lemma Show(order: nat, f: Fields, i: Held)
    requires |f.keys| + 1 == order == |f.pointers| && f.numKeys == |i.keys| < order
    requires forall x | 0 <= x < f.numKeys :: f.keys[x] == i.keys[x]
    requires f.isLeaf == (i.height == 0) && f.parent == Parent(i.parent)
    requires i.height == 0 ==> |i.recs| == f.numKeys && f.pointers[order - 1] == NextPtr(i.next)
    requires i.height == 0 ==> forall x | 0 <= x < f.numKeys :: f.pointers[x] == RecordPtr(i.recs[x])
    requires i.height > 0 ==>
             |i.kids| == f.numKeys + 1 && forall x | 0 <= x <= f.numKeys :: f.pointers[x] == NodePtr(i.kids[x])
    ensures Shows(order, f, i)
  {
    assert f.keys[..f.numKeys] == i.keys;
  }
}
