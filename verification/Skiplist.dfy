/** The multi-value skiplist (src/skiplist/skiplist.c). */
module Skiplists {
  import opened Orders
  import opened SkiplistShape

  // ---------------------------------------------------------------- contents

  datatype Entry<K, V> = Entry(key: K, vals: seq<V>)

  ghost function Keys<K, V>(entries: seq<Entry<K, V>>): seq<K> {
    seq(|entries|, i requires 0 <= i < |entries| => entries[i].key)
  }

  /** skiplistNodeAppendValue: a value already present is not added again. */
  function Append<V(==)>(vals: seq<V>, v: V): seq<V> {
    if v in vals then vals else vals + [v]
  }

  function IndexOf<V(==)>(vals: seq<V>, v: V): (i: nat)
    ensures i <= |vals|
    ensures i < |vals| <==> v in vals
    ensures i < |vals| ==> vals[i] == v
  {
    if vals == [] || vals[0] == v then 0 else 1 + IndexOf(vals[1..], v)
  }

  /** Removing a value moves the last value into its place. */
  function Drop<V(==)>(vals: seq<V>, v: V): seq<V> {
    var i := IndexOf(vals, v);
    if i == |vals| then vals else vals[i := vals[|vals| - 1]][..|vals| - 1]
  }

  /** Adding one value under a key: to the entry of an equal key, or in a new entry at its place in the order. */
  ghost function Added<K, V>(cmp: Compare<K>, es: seq<Entry<K, V>>, k: K, v: V): seq<Entry<K, V>> {
    var p := Split(cmp, Keys(es), k, false);
    if p < |es| && cmp(es[p].key, k) == 0 then es[p := Entry(es[p].key, Append(es[p].vals, v))]
    else es[..p] + [Entry(k, [v])] + es[p..]
  }

  /** Removing one value under a key, or (with None) the key's whole entry; an emptied entry goes away. */
  ghost function Removed<K, V>(cmp: Compare<K>, es: seq<Entry<K, V>>, k: K, v: Option<V>): seq<Entry<K, V>> {
    var p := Split(cmp, Keys(es), k, false);
    if p == |es| || cmp(es[p].key, k) != 0 then es
    else
      var vals := if v.Some? then Drop(es[p].vals, v.value) else [];
      if vals == [] then es[..p] + es[p + 1..] else es[p := Entry(es[p].key, vals)]
  }

  lemma AddedSorted<K(!new), V>(o: Order<K>, es: seq<Entry<K, V>>, k: K, v: V)
    requires Lawful(o) && Sorted(o, Keys(es)) && o.stored(k)
    ensures Sorted(o, Keys(Added(o.cmp, es, k, v)))
  {
    hide Lawful, Sorted;
    var keys, p, es' := Keys(es), Split(o.cmp, Keys(es), k, false), Added(o.cmp, es, k, v);
    if p < |es| && o.cmp(es[p].key, k) == 0 {
      assert Keys(es') == keys;
    } else {
      forall i | 0 <= i < |keys| ensures if i < p then o.cmp(keys[i], k) < 0 else o.cmp(k, keys[i]) < 0 {
        NewKeyFits(o, keys, k, i);
      }
      SortedInsert(o, keys, p, k);
      assert Keys(es') == keys[..p] + [k] + keys[p..];
    }
  }

  /** A key that is absent lies strictly between the keys a search steps over and the others. */
  lemma NewKeyFits<K(!new)>(o: Order<K>, keys: seq<K>, k: K, i: nat)
    requires Lawful(o) && Sorted(o, keys) && o.stored(k) && i < |keys|
    requires var p := Split(o.cmp, keys, k, false); p == |keys| || o.cmp(keys[p], k) != 0
    ensures if i < Split(o.cmp, keys, k, false) then o.cmp(keys[i], k) < 0 else o.cmp(k, keys[i]) < 0
  {
    hide Lawful;
    var p := Split(o.cmp, keys, k, false);
    SplitExact(o, keys, k, false, i);
    assert keys[i] in keys;
    Antisymmetric(o, keys[i], k);
    Antisymmetric(o, k, keys[i]);
    if p < i {
      SortedAt(o, keys, p, i);
      StepMonotone(o, keys[p], keys[i], k);
    }
  }

  lemma RemovedSorted<K(!new), V>(o: Order<K>, es: seq<Entry<K, V>>, k: K, v: Option<V>)
    requires Sorted(o, Keys(es))
    ensures Sorted(o, Keys(Removed(o.cmp, es, k, v)))
  {
    hide Sorted;
    var keys, p, es' := Keys(es), Split(o.cmp, Keys(es), k, false), Removed(o.cmp, es, k, v);
    if |es'| == |es| {
      assert Keys(es') == keys;
    } else {
      SortedRemove(o, keys, p);
      assert Keys(es') == keys[..p] + keys[p + 1..];
    }
  }

  lemma InsertedNode<K, V>(row: Row<K, V>, p: nat, x: Node<K, V>, n: Node<K, V>)
    requires p <= |row| && n in Insert(row, p, x)
    ensures n in row || n == x
  {
    var i :| 0 <= i <= |row| && Insert(row, p, x)[i] == n;
    assert i < p ==> row[i] == n;
    assert i > p ==> row[i - 1] == n;
  }

  lemma RemovedNode<K, V>(row: Row<K, V>, p: nat, n: Node<K, V>)
    requires p < |row| && n in Remove(row, p)
    ensures n in row
  {
    var i :| 0 <= i < |row| - 1 && Remove(row, p)[i] == n;
    assert i < p ==> row[i] == n;
    assert i >= p ==> row[i + 1] == n;
  }

  lemma {:induction false} IndexIs<V>(vals: seq<V>, v: V, i: nat)
    requires i < |vals| && vals[i] == v && v !in vals[..i]
    ensures IndexOf(vals, v) == i
  {
    if i > 0 {
      assert vals[0] == vals[..i][0];
      assert vals[1..][..i - 1] == vals[..i][1..];
      IndexIs(vals[1..], v, i - 1);
    }
  }

  /** A search for a stored key stops at it. */
  lemma SplitAtKey<K(!new)>(o: Order<K>, keys: seq<K>, i: nat)
    requires Lawful(o) && Sorted(o, keys) && i < |keys|
    ensures Split(o.cmp, keys, keys[i], false) == i
    ensures o.cmp(keys[i], keys[i]) == 0
  {
    hide Lawful;
    assert keys[i] in keys;
    Antisymmetric(o, keys[i], keys[i]);
    SplitExact(o, keys, keys[i], false, i);
    if i > 0 {
      SortedAt(o, keys, i - 1, i);
      SplitExact(o, keys, keys[i], false, i - 1);
    }
  }

  lemma LengthIs<K, V>(c: Chain<K, V>)
    requires Chained(c)
    ensures c.length == |c.row| - 1
  {
  }

  // ---------------------------------------------------------------- the list

  class Skiplist<K(0, !new), V(==)> {
    const header: Node<K, V>
    const compare: Compare<K>
    ghost const stored: K -> bool
    var tail: Node?<K, V>
    var length: nat
    var level: nat

    ghost var entries: seq<Entry<K, V>>      // the contents: keys and their values, in order
    ghost var row: Row<K, V>                 // the header and the nodes, in level-0 order
    ghost var lv: seq<seq<Level<K, V>>>      // their level arrays
    ghost var back: seq<Node?<K, V>>         // their backward pointers

    ghost function Nodes(): set<Node<K, V>>
      reads `row
    {
      set n | n in row
    }

    ghost function Ord(): Order<K> { Order(compare, stored) }

    ghost predicate LinkedUp()
      reads `row, `lv, `level, Nodes()`level
    {
      && Shaped(Linkage(row, lv, level)) && Linked(Linkage(row, lv, level))
      && Mirrored()
    }

    ghost predicate Mirrored()
      reads `row, `lv, Nodes()`level
    {
      && |row| == |lv| > 0 && row[0] == header
      && forall i {:trigger row[i].level} | 0 <= i < |row| :: row[i].level == lv[i]
    }

    ghost predicate Chains()
      reads `row, `back, `tail, `length, Nodes()`backward
    {
      && Chained(Chain(row, back, tail, length))
      && BackMirrored(row, back)
    }

    ghost predicate Holds()
      reads `row, `entries, Nodes()`vals
    {
      && |row| == |entries| + 1 && row[0].vals == []
      && forall i {:trigger row[i].vals} {:trigger entries[i - 1]} | 1 <= i < |row| ::
           entries[i - 1] == Entry(row[i].obj, row[i].vals)
    }

    ghost predicate Ordered()
      reads `entries
    {
      && Lawful(Ord()) && Sorted(Ord(), Keys(entries))
    }

    ghost predicate Valid()
      reads this, Nodes()
    {
      && LinkedUp() && Chains() && Holds() && Ordered()
      && (level == 1 || Reached(row, level - 1))
    }

    constructor (compare: Compare<K>, ghost stored: K -> bool)
      requires Lawful(Order(compare, stored))
      ensures this.compare == compare && this.stored == stored
      ensures Valid() && entries == [] && length == 0
      ensures fresh(header) && row == [header]
    {
      var obj: K := *;
      header := new Node<K, V>(MAX_LEVEL, obj, []);
      this.compare, this.stored := compare, stored;
      tail, length, level := null, 0, 1;
      entries, row, lv, back := [], [header], [seq(MAX_LEVEL, _ => Level(null, 0))], [null];
    }

    /** Where a search for the probe ends: the rank of the first node it does not step over. */
    ghost function Stop(probe: K, exclusive: bool): (p: nat)
      requires |row| == |entries| + 1
      reads this
      ensures 1 <= p <= |row|
    {
      1 + Split(compare, Keys(entries), probe, exclusive)
    }

    /** A search that sees the node at rank j steps over it exactly when j is before the stop. */
    lemma StepsOver(probe: K, exclusive: bool, j: nat)
      requires Holds() && Ordered() && 1 <= j < |row|
      ensures Before(compare(row[j].obj, probe), exclusive) <==> j < Stop(probe, exclusive)
    {
      hide Lawful, Sorted;
      assert entries[j - 1].key == row[j].obj;
      SplitExact(Ord(), Keys(entries), probe, exclusive, j - 1);
    }

    lemma LinkAt(r: nat, i: nat)
      requires LinkedUp() && r < |row| && i < level && i < row[r].height
      ensures |row[r].level| > i && row[r].level[i] == Link(row, r, i)
    {
      hide Shaped, Linked;
      LinkedAt(Linkage(row, lv, level), r, i);
    }

    /** Level 0 leads from every rank to the next. */
    lemma NextNode(r: nat)
      requires LinkedUp() && r < |row|
      ensures |row[r].level| > 0 && row[r].level[0].forward == At(row, r + 1)
    {
      hide Shaped, Linked;
      ShapedNode(Linkage(row, lv, level), r);
      LinkAt(r, 0);
      if r + 1 < |row| { ShapedNode(Linkage(row, lv, level), r + 1); }
      NextIs(row, r, 0, r + 1);
    }

    /** The part of the search that stays on level i: it ends on the last node before rank p that reaches level i. */
    method Walk(probe: K, exclusive: bool, ghost p: nat, i: nat, from: Node<K, V>, start: nat)
      returns (x: Node<K, V>, r: nat)
      requires LinkedUp() && Holds() && Ordered() && p == Stop(probe, exclusive) && i < level && row[0].height > i
      requires start < p && from == row[start] && from.height > i
      ensures r == Prev(row, p, i) && x == row[r] && x.height > i
    {
      hide Shaped, Linked, Lawful, Sorted, Split;
      x, r := from, start;
      LinkAt(r, i);
      while x.level[i].forward != null && Before(compare(x.level[i].forward.obj, probe), exclusive)
        invariant LinkedUp() && Holds() && Ordered()
        invariant r < p && x == row[r] && x.height > i
        invariant |x.level| > i && x.level[i] == Link(row, r, i)
        decreases |row| - r
      {
        r := r + x.level[i].span;
        x := x.level[i].forward;
        StepsOver(probe, exclusive, r);
        LinkAt(r, i);
      }
      ghost var j := Next(row, r, i);
      if j < |row| { StepsOver(probe, exclusive, j); }
      PrevIs(row, p, i, r);
    }

    /** The search loop shared by insert, delete, find and find-at-least. */
    method Descend(probe: K, exclusive: bool, ghost p: nat)
      returns (x: Node<K, V>, update: seq<Node<K, V>>, rank: seq<nat>)
      requires LinkedUp() && Holds() && Ordered() && p == Stop(probe, exclusive)
      ensures row[0].height == MAX_LEVEL >= level >= 1
      ensures x == row[p - 1] && |x.level| > 0 && x.level[0].forward == At(row, p)
      ensures rank == Ranks(row, p, 0, level)
      ensures update == Preds(row, p, 0, level)
    {
      hide Shaped, Linked, Lawful, Sorted, Split;
      ShapedNode(Linkage(row, lv, level), 0);
      x, update, rank := header, [], [];
      var i: nat, r: nat := level, 0;
      while i > 0
        invariant LinkedUp() && Holds() && Ordered() && p == Stop(probe, exclusive)
        invariant i <= level
        invariant r < p && x == row[r] && x.height >= i
        invariant rank == Ranks(row, p, i, level)
        invariant update == Preds(row, p, i, level)
        invariant i == 0 ==> r == Prev(row, p, 0)
      {
        i := i - 1;
        x, r := Walk(probe, exclusive, p, i, x, r);
        update, rank := [x] + update, [r] + rank;
      }
      ShapedNode(Linkage(row, lv, level), p - 1);
      NextNode(p - 1);
    }

    /** The node of a key equal to the probe, or none. */
    method Find(probe: K) returns (x: Node?<K, V>)
      requires Valid()
      ensures var p := Stop(probe, false);
              if p < |row| && compare(row[p].obj, probe) == 0 then x == row[p] else x == null
    {
      hide Shaped, Linked, Lawful, Sorted, Split;
      var update, rank;
      x, update, rank := Descend(probe, false, Stop(probe, false));
      x := x.level[0].forward;
      if x != null && compare(x.obj, probe) != 0 {
        x := null;
      }
    }

    /** The first node at (or after, when exclusive) the probe. */
    method FindAtLeast(probe: K, exclusive: bool) returns (x: Node?<K, V>)
      requires Valid()
      ensures x == At(row, Stop(probe, exclusive))
    {
      hide Shaped, Linked, Lawful, Sorted, Split;
      var update, rank;
      x, update, rank := Descend(probe, exclusive, Stop(probe, exclusive));
      x := x.level[0].forward;
    }

    // ------------------------------------------------------------ insertion

    /** Linking x behind its predecessor on one level. */
    method LinkLevel(x: Node<K, V>, ghost p: nat, l: nat, up: Node<K, V>, steps: nat)
      requires 1 <= p <= |row| && x !in row && row[0].height > l
      requires up == row[Prev(row, p, l)] && steps == p - 1 - Prev(row, p, l)
      requires l < |x.level| == x.height && l < |up.level| && up.level[l] == Link(row, Prev(row, p, l), l)
      modifies x`level, up`level
      ensures x.level == old(x.level)[l := Link(Insert(row, p, x), p, l)]
      ensures up.level == old(up.level)[l := Link(Insert(row, p, x), Prev(row, p, l), l)]
    {
      InsertAt(row, p, x, l);
      InsertBefore(row, p, x, Prev(row, p, l), l);
      x.level := x.level[l := Level(up.level[l].forward, up.level[l].span - steps)];
      up.level := up.level[l := Level(x, steps + 1)];
    }

    /** On a level the new node does not reach, only the span over it grows. */
    method BumpLevel(ghost x: Node<K, V>, ghost p: nat, l: nat, up: Node<K, V>)
      requires 1 <= p <= |row| && x.height <= l < row[0].height
      requires up == row[Prev(row, p, l)]
      requires l < |up.level| && up.level[l] == Link(row, Prev(row, p, l), l)
      modifies up`level
      ensures up.level == old(up.level)[l := Link(Insert(row, p, x), Prev(row, p, l), l)]
    {
      InsertBefore(row, p, x, Prev(row, p, l), l);
      up.level := up.level[l := up.level[l].(span := up.level[l].span + 1)];
    }

    /** Levels below k of the predecessors are relinked for the row that is to come. */
    ghost predicate Halfway(after: Row<K, V>, p: nat, k: nat)
      reads this, Nodes()
    {
      && Shaped(Linkage(row, lv, level)) && Relinked(Linkage(row, lv, level), after, p, k)
      && Mirrored()
    }

    /** What Halfway says of the predecessor on level i. */
    lemma HalfwayAt(after: Row<K, V>, p: nat, i: nat)
      requires Halfway(after, p, i) && 1 <= p <= |row| && p <= |after| && i < level
      ensures row[0].height == MAX_LEVEL >= level
      ensures var u := Prev(row, p, i);
              |row[u].level| == row[u].height && row[u].level[i] == Link(row, u, i)
      ensures Ranks(row, p, 0, level)[i] == Prev(row, p, i) && Preds(row, p, 0, level)[i] == row[Prev(row, p, i)]
    {
      hide Shaped, Relinked;
      ShapedNode(Linkage(row, lv, level), 0);
      RelinkedAt(Linkage(row, lv, level), after, p, i, Prev(row, p, i), i);
      PredsAt(row, p, 0, level, i);
    }

    /** The ghost copy of the links follows one write to the predecessor on level i. */
    ghost method Follow(after: Row<K, V>, p: nat, i: nat)
      requires Shaped(Linkage(row, lv, level)) && Relinked(Linkage(row, lv, level), after, p, i)
      requires 1 <= p <= |row| == |lv| && p <= |after| && i < level && row[0].height > i && row[0] == header
      requires forall j | 0 <= j < p && j != Prev(row, p, i) && row[j].height > i ::
               Link(after, j, i) == Link(row, j, i)
      requires forall j | 0 <= j < |row| && j != Prev(row, p, i) :: row[j].level == lv[j]
      requires var u := Prev(row, p, i); i < |lv[u]| && row[u].level == lv[u][i := Link(after, u, i)]
      modifies this`lv
      ensures Halfway(after, p, i + 1)
    {
      hide Shaped, Relinked;
      var u := Prev(row, p, i);
      RelinkStep(Linkage(row, lv, level), after, p, i);
      ShapeStep(Linkage(row, lv, level), u, i, Link(after, u, i));
      lv := lv[u := lv[u][i := Link(after, u, i)]];
    }

    /** One level of linking in the new node. */
    method LinkOne(x: Node<K, V>, ghost p: nat, i: nat, update: seq<Node<K, V>>, rank: seq<nat>)
      requires 1 <= p <= |row| && x !in row && i < |x.level| == x.height <= level
      requires Halfway(Insert(row, p, x), p, i)
      requires row[0].height >= level && update == Preds(row, p, 0, level) && rank == Ranks(row, p, 0, level)
      modifies this`lv, x`level, Nodes()`level
      ensures Halfway(Insert(row, p, x), p, i + 1)
      ensures x.level == old(x.level)[i := Link(Insert(row, p, x), p, i)]
    {
      hide Shaped, Relinked, Preds, Ranks;
      PredsAt(row, p, 0, level, 0);
      ShapedNode(Linkage(row, lv, level), p - 1);
      HalfwayAt(Insert(row, p, x), p, i);
      DistinctFrom(Linkage(row, lv, level), rank[i]);
      InsertOthers(row, p, x, i);
      LinkLevel(x, p, i, update[i], rank[0] - rank[i]);
      Follow(Insert(row, p, x), p, i);
    }

    /** The levels the new node reaches. */
    method LinkLevels(x: Node<K, V>, ghost p: nat, update: seq<Node<K, V>>, rank: seq<nat>)
      requires 1 <= p <= |row| && x !in row && |x.level| == x.height <= level
      requires Halfway(Insert(row, p, x), p, 0)
      requires row[0].height >= level && update == Preds(row, p, 0, level) && rank == Ranks(row, p, 0, level)
      modifies this`lv, x`level, Nodes()`level
      ensures Halfway(Insert(row, p, x), p, x.height)
      ensures |x.level| == x.height
      ensures forall l | 0 <= l < x.height :: x.level[l] == Link(Insert(row, p, x), p, l)
    {
      hide Shaped, Relinked, Preds, Ranks;
      var h := |x.level|;
      for i := 0 to h
        invariant Halfway(Insert(row, p, x), p, i)
        invariant |x.level| == x.height
        invariant forall l | 0 <= l < i :: x.level[l] == Link(Insert(row, p, x), p, l)
      {
        LinkOne(x, p, i, update, rank);
      }
    }

    /** One level above it. */
    method BumpOne(ghost x: Node<K, V>, ghost p: nat, i: nat, update: seq<Node<K, V>>)
      requires 1 <= p <= |row| && x !in row && x.height <= i < level
      requires Halfway(Insert(row, p, x), p, i)
      requires row[0].height >= level && update == Preds(row, p, 0, level)
      modifies this`lv, Nodes()`level
      ensures Halfway(Insert(row, p, x), p, i + 1)
    {
      hide Shaped, Relinked, Preds, Ranks;
      HalfwayAt(Insert(row, p, x), p, i);
      DistinctFrom(Linkage(row, lv, level), Prev(row, p, i));
      InsertOthers(row, p, x, i);
      BumpLevel(x, p, i, update[i]);
      Follow(Insert(row, p, x), p, i);
    }

    /** The levels above it, down whose links the new node is jumped over. */
    method BumpLevels(ghost x: Node<K, V>, h: nat, ghost p: nat, update: seq<Node<K, V>>)
      requires 1 <= p <= |row| && x !in row && x.height == h <= level
      requires Halfway(Insert(row, p, x), p, h)
      requires row[0].height >= level && update == Preds(row, p, 0, level)
      modifies this`lv, Nodes()`level
      ensures Halfway(Insert(row, p, x), p, level)
    {
      hide Shaped, Relinked, Preds;
      for i := h to level
        invariant Halfway(Insert(row, p, x), p, i)
      {
        BumpOne(x, p, i, update);
      }
    }

    /** Linking the new node in on all levels. */
    method LinkIn(x: Node<K, V>, ghost p: nat, update: seq<Node<K, V>>, rank: seq<nat>)
      requires LinkedUp() && 1 <= p <= |row| && x !in row && 1 <= |x.level| == x.height <= level
      requires row[0].height >= level && update == Preds(row, p, 0, level) && rank == Ranks(row, p, 0, level)
      modifies this`lv, this`row, x`level, Nodes()`level
      ensures LinkedUp() && row == Insert(old(row), p, x)
      ensures 0 < |x.level| && x.level[0].forward == At(row, p + 1)
    {
      hide Shaped, Relinked, Linked, Preds, Ranks;
      RelinkStart(Linkage(row, lv, level), Insert(row, p, x), p);
      LinkLevels(x, p, update, rank);
      BumpLevels(x, |x.level|, p, update);
      InsertLinked(Linkage(row, lv, level), p, x, x.level);
      lv := lv[..p] + [x.level] + lv[p..];
      row := Insert(row, p, x);
      if p + 1 < |row| { ShapedNode(Linkage(row, lv, level), p + 1); }
      NextIs(row, p, 0, p + 1);
    }

    /** Every node of a row has the backward pointer listed for it. */
    static ghost predicate BackMirrored(row: Row<K, V>, back: seq<Node?<K, V>>)
      reads (set n | n in row)`backward
    {
      && |row| == |back|
      && forall i {:trigger row[i].backward} | 0 <= i < |row| :: row[i].backward == back[i]
    }

    /** The backward pointers around the new node, the tail and the length. */
    method ChainIn(x: Node<K, V>, ghost was: Row<K, V>, ghost p: nat, before: Node<K, V>)
      requires 1 <= p <= |was| && row == Insert(was, p, x) && before == was[p - 1] && was[0] == header && x !in was
      requires Distinct(was)
      requires 0 < |x.level| && x.level[0].forward == At(was, p)
      requires BackMirrored(was, back)
      requires Chained(Chain(was, back, tail, length))
      modifies this`back, this`tail, this`length, x`backward, was[..]`backward
      ensures Chains()
    {
      hide Chained;
      InsertChained(Chain(was, back, tail, length), p, x);
      x.backward := if before == header then null else before;
      if x.level[0].forward != null {
        x.level[0].forward.backward := x;
      } else {
        tail := x;
      }
      length := length + 1;
      assert BackMirrored(row, BackInserted(was, back, p, x)) by {
        forall i | 0 <= i < |row| ensures row[i].backward == BackInserted(was, back, p, x)[i] {
          if i > p { assert row[i] == was[i - 1]; }
        }
      }
      back := BackInserted(was, back, p, x);
    }

    /** Taking more header levels into use: their spans cover the whole list. */
    method Raise(top: nat)
      requires LinkedUp() && level <= top <= MAX_LEVEL && length == |row| - 1
      modifies this`level, this`lv, header`level
      ensures LinkedUp() && level == top
    {
      hide Shaped, Linked;
      for i := level to top
        invariant Shaped(Linkage(row, lv, i)) && Linked(Linkage(row, lv, i)) && Mirrored()
      {
        RaiseStep(Linkage(row, lv, i));
        DistinctFrom(Linkage(row, lv, i), 0);
        header.level := header.level[i := Level(null, length)];
        lv := lv[0 := lv[0][i := Level(null, |row| - 1)]];
      }
      level := top;
    }

    /** skiplistNodeAppendValue. */
    method AppendValue(x: Node<K, V>, val: V)
      modifies x`vals
      ensures x.vals == Append(old(x.vals), val)
    {
      for i := 0 to |x.vals|
        invariant val !in x.vals[..i]
      {
        if x.vals[i] == val {
          return;
        }
      }
      x.vals := x.vals + [val];
    }

    /** Insert a value under a key; top is the random level a new node would get. */
    method InsertValue(obj: K, val: V, top: nat)
      requires Valid() && stored(obj) && 1 <= top <= MAX_LEVEL
      modifies this, Nodes()
      ensures Valid() && fresh(Nodes() - old(Nodes()))
      ensures entries == Added(compare, old(entries), obj, val)
      ensures var p, was := old(Stop(obj, false)), old(row);
              if p < |was| && compare(was[p].obj, obj) == 0 then row == was
              else p < |row| && row == Insert(was, p, row[p]) && row[p].height == top
    {
      hide Shaped, Linked, Chained, Lawful, Sorted, Split, Insert, Preds, Ranks, Reached;
      AddedSorted(Ord(), entries, obj, val);
      ghost var p := Stop(obj, false);
      var x, update, rank := Descend(obj, false, p);
      var next := x.level[0].forward;
      if next != null && compare(next.obj, obj) == 0 {
        AddValue(next, val, p);
      } else {
        AddNode(obj, val, top, p, update, rank);
      }
    }

    /** The rest of an insertion, when the key is there. */
    method AddValue(next: Node<K, V>, val: V, ghost p: nat)
      requires Valid() && 1 <= p < |row| == |entries| + 1 && next == row[p]
      modifies this, Nodes()
      ensures Valid() && row == old(row)
      ensures entries == old(entries)[p - 1 := Entry(next.obj, Append(old(entries)[p - 1].vals, val))]
    {
      hide Shaped, Linked, Chained, Lawful, Sorted, Split, Reached;
      DistinctFrom(Linkage(row, lv, level), p);
      ghost var vals := entries[p - 1].vals;
      AppendValue(next, val);
      SortedSame(Ord(), entries, p - 1, Append(vals, val));
      entries := entries[p - 1 := Entry(next.obj, next.vals)];
    }

    /** New values under a key leave the keys alone. */
    static lemma SortedSame(o: Order<K>, es: seq<Entry<K, V>>, i: nat, vals: seq<V>)
      requires i < |es|
      ensures Keys(es[i := Entry(es[i].key, vals)]) == Keys(es)
    {
    }

    lemma HoldsInserted(was: Row<K, V>, sofar: seq<Entry<K, V>>, p: nat, x: Node<K, V>)
      requires 1 <= p <= |was| == |sofar| + 1 && row == Insert(was, p, x)
      requires was[0].vals == []
      requires forall i | 1 <= i < |was| :: sofar[i - 1] == Entry(was[i].obj, was[i].vals)
      requires entries == sofar[..p - 1] + [Entry(x.obj, x.vals)] + sofar[p - 1..]
      ensures Holds()
    {
      forall i | 1 <= i < |row| ensures entries[i - 1] == Entry(row[i].obj, row[i].vals) {
        if i > p { assert row[i] == was[i - 1]; }
      }
    }

    /** More levels for a node that is higher than the list: the header comes before it on them. */
    method Reach(top: nat, ghost p: nat, preds: seq<Node<K, V>>, ranks: seq<nat>)
      returns (update: seq<Node<K, V>>, rank: seq<nat>)
      requires Valid() && 1 <= top <= MAX_LEVEL && 1 <= p <= |row|
      requires row[0].height == MAX_LEVEL >= level >= 1
      requires preds == Preds(row, p, 0, level) && ranks == Ranks(row, p, 0, level)
      modifies this, Nodes()
      ensures LinkedUp() && Chains() && Holds() && row == old(row) && entries == old(entries)
      ensures level == if top > old(level) then top else old(level)
      ensures old(level) == 1 || Reached(row, old(level) - 1)
      ensures update == Preds(row, p, 0, level) && rank == Ranks(row, p, 0, level)
    {
      hide Shaped, Linked, Chained, Lawful, Sorted, Preds, Ranks, Reached;
      update, rank := preds, ranks;
      if top > level {
        ShapedRow(Linkage(row, lv, level));
        PredsAbove(row, p, 0, level, top);
        RanksAbove(row, p, 0, level, top);
        update, rank := update + seq(top - level, _ => header), rank + seq(top - level, _ => 0);
        LengthIs(Chain(row, back, tail, length));
        Raise(top);
      }
    }

    /** The rest of an insertion, when the key is new: link, chain and count the node. */
    method PlaceNode(x: Node<K, V>, ghost p: nat, update: seq<Node<K, V>>, rank: seq<nat>)
      requires LinkedUp() && Chains() && Holds()
      requires 1 <= p <= |row| && x !in row && 1 <= |x.level| == x.height <= level
      requires row[0].height == MAX_LEVEL >= level && update == Preds(row, p, 0, level) &&
               rank == Ranks(row, p, 0, level)
      modifies this, x`level, x`backward, Nodes()`level, Nodes()`backward
      ensures LinkedUp() && Chains() && Holds() && row == Insert(old(row), p, x) && level == old(level)
      ensures entries == old(entries)[..p - 1] + [Entry(x.obj, x.vals)] + old(entries)[p - 1..]
    {
      hide Shaped, Linked, Chained;
      ghost var was, sofar := row, entries;
      ShapedRow(Linkage(row, lv, level));
      ShapedNode(Linkage(row, lv, level), p - 1);
      PredsAt(row, p, 0, level, 0);
      LinkIn(x, p, update, rank);
      ChainIn(x, was, p, update[0]);
      entries := entries[..p - 1] + [Entry(x.obj, x.vals)] + entries[p - 1..];
      HoldsInserted(was, sofar, p, x);
    }

    /** Inserting a new key: raise the list if its level demands it, then place a new node. */
    method AddNode(obj: K, val: V, top: nat, ghost p: nat, preds: seq<Node<K, V>>, ranks: seq<nat>)
      requires Valid() && 1 <= top <= MAX_LEVEL && 1 <= p <= |row|
      requires row[0].height == MAX_LEVEL >= level >= 1
      requires preds == Preds(row, p, 0, level) && ranks == Ranks(row, p, 0, level)
      requires Sorted(Ord(), Keys(entries[..p - 1] + [Entry(obj, [val])] + entries[p - 1..]))
      modifies this, Nodes()
      ensures Valid() && fresh(Nodes() - old(Nodes()))
      ensures entries == old(entries)[..p - 1] + [Entry(obj, [val])] + old(entries)[p - 1..]
      ensures p < |row| && row == Insert(old(row), p, row[p]) && row[p].height == top
    {
      hide Shaped, Linked, Chained, Lawful, Sorted, Preds, Ranks, Reached;
      ghost var was := row;
      var update, rank := Reach(top, p, preds, ranks);
      var x := new Node(top, obj, [val]);
      PlaceNode(x, p, update, rank);
      if level > 1 { InsertReached(was, p, x, level - 1); }
      forall n | n in Nodes() ensures n in old(Nodes()) || n == x { InsertedNode(was, p, x, n); }
    }

    // ------------------------------------------------------------ deletion

    /** Unlinking x from its predecessor on one level, or shortening the link that jumps over x. */
    method UnlinkLevel(x: Node<K, V>, ghost p: nat, l: nat, up: Node<K, V>)
      requires 1 <= p < |row| && x == row[p] && row[0].height > l && Distinct(row)
      requires up == row[Prev(row, p, l)]
      requires l < |up.level| && up.level[l] == Link(row, Prev(row, p, l), l)
      requires x.height > l ==> l < |x.level| && x.level[l] == Link(row, p, l)
      modifies up`level
      ensures up.level == old(up.level)[l := Link(Remove(row, p), Prev(row, p, l), l)]
    {
      PrevPoints(row, p, l);
      RemoveBefore(row, p, l);
      if up.level[l].forward == x {
        up.level := up.level[l := Level(x.level[l].forward, up.level[l].span + x.level[l].span - 1)];
      } else {
        up.level := up.level[l := up.level[l].(span := up.level[l].span - 1)];
      }
    }

    /** One level of unlinking. */
    method UnlinkOne(x: Node<K, V>, ghost p: nat, i: nat, update: seq<Node<K, V>>)
      requires 1 <= p < |row| && x == row[p] && row[0].height >= level > i
      requires Halfway(Remove(row, p), p, i)
      requires update == Preds(row, p, 0, level)
      modifies this`lv, Nodes()`level
      ensures Halfway(Remove(row, p), p, i + 1)
    {
      hide Shaped, Relinked;
      HalfwayAt(Remove(row, p), p, i);
      ShapedRow(Linkage(row, lv, level));
      DistinctFrom(Linkage(row, lv, level), Prev(row, p, i));
      if x.height > i { RelinkedAt(Linkage(row, lv, level), Remove(row, p), p, i, p, i); }
      RemoveOthers(row, p, i);
      UnlinkLevel(x, p, i, update[i]);
      Follow(Remove(row, p), p, i);
    }

    /** Unlinking on every level. */
    method UnlinkLevels(x: Node<K, V>, ghost p: nat, update: seq<Node<K, V>>)
      requires 1 <= p < |row| && x == row[p] && row[0].height >= level
      requires Halfway(Remove(row, p), p, 0)
      requires update == Preds(row, p, 0, level)
      modifies this`lv, Nodes()`level
      ensures Halfway(Remove(row, p), p, level)
    {
      hide Shaped, Relinked, Preds;
      for i := 0 to level
        invariant Halfway(Remove(row, p), p, i)
      {
        UnlinkOne(x, p, i, update);
      }
    }

    /** Taking x out of the links. */
    method LinkOut(x: Node<K, V>, ghost p: nat, update: seq<Node<K, V>>)
      requires LinkedUp() && 1 <= p < |row| && x == row[p]
      requires row[0].height >= level && update == Preds(row, p, 0, level)
      modifies this`lv, this`row, Nodes()`level
      ensures LinkedUp() && row == Remove(old(row), p)
      ensures 0 < |x.level| && x.level[0].forward == At(row, p)
    {
      hide Shaped, Relinked, Linked, Preds;
      RelinkStart(Linkage(row, lv, level), Remove(row, p), p);
      UnlinkLevels(x, p, update);
      ShapedNode(Linkage(row, lv, level), p);
      RelinkedAt(Linkage(row, lv, level), Remove(row, p), p, level, p, 0);
      if p + 1 < |row| { ShapedNode(Linkage(row, lv, level), p + 1); }
      NextIs(row, p, 0, p + 1);
      RemoveLinked(Linkage(row, lv, level), p);
      lv := lv[..p] + lv[p + 1..];
      row := Remove(row, p);
    }

    /** The backward pointers around the removed node, the tail and the length. */
    method ChainOut(x: Node<K, V>, ghost was: Row<K, V>, ghost p: nat)
      requires 1 <= p < |was| && row == Remove(was, p) && x == was[p]
      requires Distinct(was)
      requires 0 < |x.level| && x.level[0].forward == At(row, p)
      requires BackMirrored(was, back)
      requires Chained(Chain(was, back, tail, length)) && length > 0
      modifies this`back, this`tail, this`length, was[..]`backward
      ensures Chains()
    {
      hide Chained;
      RemoveChained(Chain(was, back, tail, length), p);
      if x.level[0].forward != null {
        x.level[0].forward.backward := x.backward;
      } else {
        tail := x.backward;
      }
      length := length - 1;
      assert BackMirrored(row, BackRemoved(back, p)) by {
        forall i | 0 <= i < |row| ensures row[i].backward == BackRemoved(back, p)[i] {
          if i >= p { assert row[i] == was[i + 1]; }
        }
      }
      back := BackRemoved(back, p);
    }

    /** Giving up the levels no node reaches any more. */
    method Lower()
      requires LinkedUp()
      modifies this`level
      ensures LinkedUp() && (level == 1 || Reached(row, level - 1))
    {
      hide Shaped, Linked;
      ShapedNode(Linkage(row, lv, level), 0);
      while level > 1 && header.level[level - 1].forward == null
        invariant LinkedUp() && 1 <= level <= MAX_LEVEL && |header.level| == MAX_LEVEL
        decreases level
      {
        ShrinkStep(Linkage(row, lv, level));
        level := level - 1;
      }
      if level > 1 { ShrinkStep(Linkage(row, lv, level)); }
    }

    lemma HoldsRemoved(was: Row<K, V>, sofar: seq<Entry<K, V>>, p: nat)
      requires 1 <= p < |was| == |sofar| + 1 && row == Remove(was, p)
      requires was[0].vals == []
      requires forall i | 1 <= i < |was| && i != p :: sofar[i - 1] == Entry(was[i].obj, was[i].vals)
      requires entries == sofar[..p - 1] + sofar[p..]
      ensures Holds()
    {
      forall i | 1 <= i < |row| ensures entries[i - 1] == Entry(row[i].obj, row[i].vals) {
        if i >= p { assert row[i] == was[i + 1]; }
      }
    }

    lemma RowFacts()
      requires LinkedUp() && Chains()
      ensures Distinct(row) && length == |row| - 1
    {
      hide Shaped, Linked, Chained;
      ShapedRow(Linkage(row, lv, level));
      LengthIs(Chain(row, back, tail, length));
    }

    /** Taking a node out of the links and out of the backward chain. */
    method Unlink(x: Node<K, V>, ghost p: nat, update: seq<Node<K, V>>)
      requires LinkedUp() && Chains() && 1 <= p < |row| && x == row[p]
      requires row[0].height >= level && update == Preds(row, p, 0, level)
      modifies `row, `lv, `back, `tail, `length, Nodes()`level, Nodes()`backward
      ensures LinkedUp() && Chains() && row == Remove(old(row), p)
    {
      hide Shaped, Linked, Chained;
      ghost var was := row;
      RowFacts();
      LinkOut(x, p, update);
      ChainOut(x, was, p);
    }

    /** skiplistDeleteNode: take a node out of the list. Its own values may already be gone. */
    method DeleteNode(x: Node<K, V>, ghost p: nat, update: seq<Node<K, V>>)
      requires LinkedUp() && Chains() && Ordered()
      requires 1 <= p < |row| == |entries| + 1 && x == row[p] && row[0].vals == []
      requires forall i | 1 <= i < |row| && i != p :: entries[i - 1] == Entry(row[i].obj, row[i].vals)
      requires row[0].height == MAX_LEVEL >= level && update == Preds(row, p, 0, level)
      requires Sorted(Ord(), Keys(entries[..p - 1] + entries[p..]))
      modifies this, Nodes()`level, Nodes()`backward
      ensures Valid() && row == Remove(old(row), p)
      ensures entries == old(entries)[..p - 1] + old(entries)[p..]
    {
      hide LinkedUp, Chains, Lawful, Sorted, Reached;
      ghost var was, sofar := row, entries;
      Unlink(x, p, update);
      ghost var nodes := Nodes();
      Lower();
      assert Nodes() == nodes;
      assert Chains();
      entries := entries[..p - 1] + entries[p..];
      HoldsRemoved(was, sofar, p);
    }

    /** The value loop of skiplistDelete. */
    method DropValue(x: Node<K, V>, val: V)
      modifies x`vals
      ensures x.vals == Drop(old(x.vals), val)
    {
      for i := 0 to |x.vals|
        invariant x.vals == old(x.vals) && val !in x.vals[..i]
      {
        if x.vals[i] == val {
          IndexIs(x.vals, val, i);
          if i < |x.vals| - 1 {
            x.vals := x.vals[i := x.vals[|x.vals| - 1]];
          }
          x.vals := x.vals[..|x.vals| - 1];
          return;
        }
      }
    }

    /** The entry of the deleted key without the value, or without any. */
    method DeleteAt(x: Node<K, V>, obj: K, val: Option<V>, ghost p: nat, update: seq<Node<K, V>>)
      requires Valid() && p == Stop(obj, false) && p < |row| && x == row[p] && compare(x.obj, obj) == 0
      requires row[0].height == MAX_LEVEL >= level && update == Preds(row, p, 0, level)
      requires Sorted(Ord(), Keys(Removed(compare, entries, obj, val)))
      modifies this, Nodes()
      ensures Valid() && Nodes() <= old(Nodes())
      ensures entries == Removed(compare, old(entries), obj, val)
    {
      hide LinkedUp, Chains, Lawful, Sorted, Split, Reached;
      ghost var was := row;
      RowDistinct(p);
      if val.Some? {
        DropValue(x, val.value);
      }
      if val.None? || |x.vals| == 0 {
        DeleteNode(x, p, update);
        forall n | n in Nodes() ensures n in old(Nodes()) { RemovedNode(was, p, n); }
      } else {
        entries := entries[p - 1 := Entry(x.obj, x.vals)];
      }
    }

    lemma RowDistinct(p: nat)
      requires LinkedUp() && p < |row|
      ensures forall i | 0 <= i < |row| && i != p :: row[i] != row[p]
    {
      hide Shaped, Linked;
      DistinctFrom(Linkage(row, lv, level), p);
    }

    /** Delete one value under a key, or with None the whole key. It reports whether the key was there. */
    method Delete(obj: K, val: Option<V>) returns (found: bool)
      requires Valid()
      modifies this, Nodes()
      ensures Valid() && Nodes() <= old(Nodes())
      ensures entries == Removed(compare, old(entries), obj, val)
      ensures found <==> old(var p := Stop(obj, false); p < |row| && compare(row[p].obj, obj) == 0)
    {
      hide LinkedUp, Chains, Lawful, Sorted, Split, Reached;
      RemovedSorted(Ord(), entries, obj, val);
      ghost var p := Stop(obj, false);
      var pred, update, rank := Descend(obj, false, p);
      var x := pred.level[0].forward;
      found := x != null && compare(x.obj, obj) == 0;
      if found {
        DeleteAt(x, obj, val, p, update);
      }
    }

    /** A search for a stored key stops at that key. */
    lemma StopsAtKey(i: nat)
      requires Holds() && Ordered() && i < |entries|
      ensures Stop(entries[i].key, false) == i + 1
      ensures compare(entries[i].key, entries[i].key) == 0
    {
      hide Lawful, Sorted;
      SplitAtKey(Ord(), Keys(entries), i);
    }

    /** skiplistPopHead. */
    method PopHead() returns (k: Option<K>)
      requires Valid()
      modifies this, Nodes()
      ensures Valid() && Nodes() <= old(Nodes())
      ensures old(entries) == [] ==> k == None && entries == []
      ensures old(entries) != [] ==> k == Some(old(entries)[0].key) && entries == old(entries)[1..]
    {
      hide Shaped, Linked, Chained, Lawful, Sorted, Split, Reached;
      NextNode(0);
      var x := header.level[0].forward;
      if x == null {
        return None;
      }
      StopsAtKey(0);
      k := Some(x.obj);
      var found := Delete(x.obj, None);
    }

    /** skiplistPopTail. */
    method PopTail() returns (k: Option<K>)
      requires Valid()
      modifies this, Nodes()
      ensures Valid() && Nodes() <= old(Nodes())
      ensures old(entries) == [] ==> k == None && entries == []
      ensures old(entries) != [] ==>
                k == Some(old(entries)[|old(entries)| - 1].key) && entries == old(entries)[..|old(entries)| - 1]
    {
      hide Shaped, Linked, Lawful, Sorted, Split, Reached;
      var x := tail;
      if x == null {
        return None;
      }
      StopsAtKey(|entries| - 1);
      k := Some(x.obj);
      var found := Delete(x.obj, None);
    }
  }
}
