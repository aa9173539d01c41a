/** Range iteration over a skiplist (src/skiplist/skiplist.c). */
module SkiplistIterators {
  import opened Orders
  import opened SkiplistShape
  import opened Skiplists

  /** One key paired with each of its values. */
  ghost function Tagged<K, V>(k: K, vals: seq<V>): seq<(K, V)> {
    seq(|vals|, i requires 0 <= i < |vals| => (k, vals[i]))
  }

  /** All key-value pairs of some entries, in order. */
  ghost function Pairs<K, V>(es: seq<Entry<K, V>>): seq<(K, V)> {
    if es == [] then [] else Tagged(es[0].key, es[0].vals) + Pairs(es[1..])
  }

  class Iterator<K(0, !new), V(==)> {
    const sl: Skiplist<K, V>
    const rangeMax: Option<K>    // None means no upper bound
    const maxExclusive: bool
    var current: Node?<K, V>
    var offset: nat
    ghost var pos: nat           // the rank of current

    /** The first rank past the range. */
    ghost function End(): (e: nat)
      requires |sl.row| == |sl.entries| + 1
      reads this, sl
      ensures 1 <= e <= |sl.row|
    {
      if rangeMax.None? then |sl.row| else sl.Stop(rangeMax.value, !maxExclusive)
    }

    ghost predicate Valid()
      reads this, sl, sl.Nodes()
    {
      && sl.Valid() && pos <= |sl.row|
      && current == (if pos < End() then sl.row[pos] else null)
      && (if current == null then offset == 0 else offset < |current.vals| || offset == 0)
    }

    /** What Next has still to yield. */
    ghost function Remaining(): seq<(K, V)>
      requires Valid()
      reads this, sl, sl.Nodes()
    {
      if current == null then []
      else Tagged(current.obj, current.vals[offset..]) + Pairs(sl.entries[pos..End() - 1])
    }

    /** skiplistIterateRange. */
    constructor Range(sl: Skiplist<K, V>, min: K, max: Option<K>, minExclusive: bool, maxExclusive: bool)
      requires sl.Valid()
      ensures this.sl == sl && Valid() && pos == sl.Stop(min, minExclusive)
      ensures this.rangeMax == max && this.maxExclusive == maxExclusive
      ensures var lo, hi := sl.Stop(min, minExclusive) - 1, End() - 1;
              Remaining() == if lo < hi then Pairs(sl.entries[lo..hi]) else []
    {
      hide Shaped, Linked, Chained, Lawful, Sorted, Split, Reached;
      this.sl, this.rangeMax, this.maxExclusive := sl, max, maxExclusive;
      var n := sl.FindAtLeast(min, minExclusive);
      current, offset, pos := n, 0, sl.Stop(min, minExclusive);
      new;
      if current != null {
        CutOff();
      }
      StartsAt();
    }

    /** A node past the range maximum ends the iteration. */
    method CutOff()
      requires sl.Valid() && 1 <= pos < |sl.row| && current == sl.row[pos]
      modifies this`current
      ensures current == if pos < End() then sl.row[pos] else null
    {
      hide Shaped, Linked, Chained, Lawful, Sorted, Split, Reached;
      if rangeMax.Some? {
        var c := sl.compare(current.obj, rangeMax.value);
        sl.StepsOver(rangeMax.value, !maxExclusive, pos);
        if c > 0 || (c == 0 && maxExclusive) {
          current := null;
        }
      }
    }

    /** On the first value of a node, all of the node and of what follows it in the range remains. */
    lemma StartsAt()
      requires Valid() && 1 <= pos && offset == 0
      ensures Remaining() == if pos < End() then Pairs(sl.entries[pos - 1..End() - 1]) else []
    {
      hide Shaped, Linked, Chained, Lawful, Sorted, Split, Reached;
      if pos < End() {
        assert sl.entries[pos - 1..End() - 1] == [sl.entries[pos - 1]] + sl.entries[pos..End() - 1];
        assert current.vals[0..] == current.vals;
      }
    }

    /** skiplistIterateAll: it starts on the header, which has no values. */
    constructor All(sl: Skiplist<K, V>)
      requires sl.Valid()
      ensures this.sl == sl && Valid() && rangeMax == None
      ensures current == sl.header && pos == offset == 0 && Remaining() == Pairs(sl.entries)
    {
      hide Shaped, Linked, Chained, Lawful, Sorted, Split, Reached;
      this.sl, this.rangeMax, this.maxExclusive := sl, None, false;
      current, offset, pos := sl.header, 0, 0;
      new;
      assert sl.entries[0..|sl.entries|] == sl.entries;
    }

    /** The value that Next yields is the first that remains. */
    lemma FirstRemains()
      requires Valid() && current != null
      ensures pos < End() <= |sl.row| == |sl.entries| + 1 && current == sl.row[pos]
      ensures |current.vals| == 0 ==> Remaining() == Pairs(sl.entries[pos..End() - 1])
      ensures |current.vals| > 0 ==>
                && offset < |current.vals| && |Remaining()| > 0 && Remaining()[0] == (current.obj, current.vals[offset])
                && Remaining()[1..] == Tagged(current.obj, current.vals[offset + 1..]) +
                   Pairs(sl.entries[pos..End() - 1])
      ensures |current.vals| > 0 && offset + 1 == |current.vals| ==>
              Remaining()[1..] == Pairs(sl.entries[pos..End() - 1])
    {
      hide Shaped, Linked, Chained, Lawful, Sorted, Split, Reached, Pairs;
    }

    /**
     * skiplistIterator_Next: yield one value, or nothing on a node without values, and advance past the node after
     * its last value.
     */
    method Next() returns (ret: Option<V>)
      requires Valid()
      modifies this
      ensures Valid()
      ensures old(current) == null ==> ret == None && current == null
      ensures old(current) != null && |old(current).vals| == 0 ==>
                ret == None && pos == old(pos) + 1 && Remaining() == old(Remaining())
      ensures old(current) != null && |old(current).vals| > 0 ==>
                var rem := old(Remaining());
                && |rem| > 0 && rem[0].0 == old(current.obj)
                && ret == Some(rem[0].1) && Remaining() == rem[1..] && pos >= old(pos)
      ensures old(current) != null && old(offset) + 1 < |old(current).vals| ==>
                current == old(current) && pos == old(pos) && offset == old(offset) + 1
      ensures old(current) != null && old(offset) + 1 >= |old(current).vals| ==> pos == old(pos) + 1 && offset == 0
    {
      hide Skiplist.Valid, Tagged, Pairs;
      assert forall n | n in sl.Nodes() :: n as object != this;
      ret := None;
      if current == null {
        return;
      }
      FirstRemains();
      if offset < |current.vals| {
        ret := Some(current.vals[offset]);
        offset := offset + 1;
      }
      if offset == |current.vals| {
        Advance();
      }
    }

    /** The step to the next node, which ends the iteration past the range maximum. */
    method Advance()
      requires sl.Valid() && pos < End() && current == sl.row[pos] && offset == |current.vals|
      modifies this
      ensures Valid() && pos == old(pos) + 1 && offset == 0
      ensures Remaining() == Pairs(sl.entries[old(pos)..End() - 1])
    {
      hide Shaped, Linked, Chained, Lawful, Sorted, Split, Reached;
      sl.NextNode(pos);
      current := current.level[0].forward;
      offset := 0;
      pos := pos + 1;
      if current != null {
        CutOff();
      }
      StartsAt();
    }
  }
}
