/**
 * Visiting all records of an index, and what becomes of them when they are saved and loaded (src/index.c,
 * src/index_type.c).
 */
module Traversals {
  import opened Orders
  import opened Keys
  import opened SkiplistShape
  import opened Skiplists
  import opened SkiplistIterators
  import opened KHashes
  import opened ReverseIndexes
  import opened IndexStates
  import opened Indexes

  type Visit = (MultiKey, Id)

  ghost function Times(s: seq<Visit>, n: nat): seq<Visit> {
    if n == 0 then [] else Times(s, n - 1) + s
  }

  /** The callbacks of a traversal: every value of a node, once for each value of the node. */
  ghost function Visits(es: Entries): seq<Visit> {
    if es == [] then []
    else
      var k := |es| - 1;
      Visits(es[..k]) + Times(Tagged(es[k].key, es[k].vals), |es[k].vals|)
  }

  /** The callbacks made when the iterator has reached a node, and an offset in it. */
  ghost function Visited(es: Entries, pos: nat, offset: nat): seq<Visit>
    requires pos <= |es| + 1
  {
    if pos == 0 then []
    else Visits(es[..pos - 1]) + if pos <= |es| then Times(Tagged(es[pos - 1].key, es[pos - 1].vals), offset) else []
  }

  lemma VisitedSteps(es: Entries, pos: nat, offset: nat)
    requires 1 <= pos <= |es|
    ensures Visited(es, pos, offset) + Tagged(es[pos - 1].key, es[pos - 1].vals) == Visited(es, pos, offset + 1)
    ensures offset + 1 == |es[pos - 1].vals| ==> Visited(es, pos, offset + 1) == Visited(es, pos + 1, 0)
  {
    assert es[..pos][..pos - 1] == es[..pos - 1];
  }

  /** The node under a traversing iterator. */
  lemma AtNode(idx: CompoundIndex, it: Iterator<MultiKey, Id>)
    requires idx.Consistent() && it.sl == idx.sl && it.Valid() && it.current != null
    ensures it.pos < |idx.sl.row| == |idx.sl.entries| + 1
    ensures it.pos == 0 ==> it.current.vals == [] && it.offset == 0
    ensures it.pos > 0 ==>
              idx.sl.entries[it.pos - 1] == Entry(it.current.obj, it.current.vals) && it.offset < |it.current.vals|
  {
    hide Shaped, Linked, Chained, Lawful, Sorted, Split, Reached, KHash.Valid, Agree, Unique;
    var b, p := Both(idx.cmpFuncs, idx.sl.entries, idx.Records()), it.pos;
    if p > 0 {
      assert idx.sl.entries[p - 1] == Entry(idx.sl.row[p].obj, idx.sl.row[p].vals);
      AgreeVals(b, p - 1);
    }
  }

  /** The callback on every value of a node. */
  method VisitNode(idx: CompoundIndex, it: Iterator<MultiKey, Id>) returns (visits: seq<Visit>)
    requires idx.Consistent() && it.Valid() && it.current != null
    ensures idx.Consistent() && it.Valid() && visits == Tagged(it.current.obj, it.current.vals)
  {
    hide CompoundIndex.Consistent, Iterator.Valid;
    var n := it.current;
    visits := [];
    for i := 0 to |n.vals|
      invariant idx.Consistent() && it.Valid()
      invariant visits == Tagged(n.obj, n.vals[..i])
    {
      visits := visits + [(n.obj, n.vals[i])];
    }
    assert n.vals[..|n.vals|] == n.vals;
  }

  /** compoundIndex_Traverse, collecting the callbacks. */
  method Traverse(idx: CompoundIndex) returns (visits: seq<Visit>)
    requires idx.Consistent()
    ensures idx.Consistent() && visits == Visits(idx.sl.entries)
  {
    hide CompoundIndex.Consistent, Iterator.Valid, Visited, Visits;
    ghost var es := idx.sl.entries;
    var it := StartAll(idx);
    visits := [];
    VisitedStarts(es);
    while it.current != null
      invariant it.Valid() && fresh(it) && it.sl == idx.sl && idx.Consistent() && it.rangeMax == None &&
                |idx.sl.row| == |es| + 1
      invariant it.pos <= |idx.sl.row| && visits == Visited(es, it.pos, it.offset)
      invariant it.current == null ==> it.pos == |idx.sl.row| && it.offset == 0
      decreases |idx.sl.row| - it.pos, if it.current == null then 0 else |it.current.vals| - it.offset
    {
      AtNode(idx, it);
      var seen := VisitNode(idx, it);
      visits := visits + seen;
      if it.pos > 0 { VisitedSteps(es, it.pos, it.offset); }
      AllStep(idx, it);
    }
    VisitedEnds(es);
  }

  lemma VisitedStarts(es: Entries)
    ensures Visited(es, 0, 0) == Visited(es, 1, 0) == []
  {
    assert es[..0] == [];
  }

  lemma VisitedEnds(es: Entries)
    ensures Visited(es, |es| + 1, 0) == Visits(es)
  {
    assert es[..|es|] == es;
  }

  method StartAll(idx: CompoundIndex) returns (it: Iterator<MultiKey, Id>)
    requires idx.Consistent()
    ensures fresh(it) && it.sl == idx.sl && it.Valid() && it.rangeMax == None && it.pos == it.offset == 0 &&
            it.current != null
    ensures idx.Consistent() && |idx.sl.row| == |idx.sl.entries| + 1
  {
    hide Skiplist.Valid, KHash.Valid, Agree, Unique, Pairs;
    it := new Iterator<MultiKey, Id>.All(idx.sl);
    it.FirstRemains();
  }

  method AllStep(idx: CompoundIndex, it: Iterator<MultiKey, Id>)
    requires idx.Consistent() && it.Valid() && it.sl == idx.sl && it.rangeMax == None && it.current != null
    modifies it
    ensures idx.Consistent() && it.Valid() && it.pos <= |idx.sl.row|
    ensures it.current == null ==> it.pos == |idx.sl.row| && it.offset == 0
    ensures old(it.offset) + 1 < |old(it.current).vals| ==>
              it.current == old(it.current) && it.pos == old(it.pos) && it.offset == old(it.offset) + 1
    ensures old(it.offset) + 1 >= |old(it.current).vals| ==> it.pos == old(it.pos) + 1 && it.offset == 0
  {
    hide Skiplist.Valid, KHash.Valid, Agree, Unique, Pairs;
    it.FirstRemains();
    assert forall n | n in idx.sl.Nodes() :: n as object != it;
    var val := it.Next();
  }
}
