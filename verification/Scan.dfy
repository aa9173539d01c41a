/** Scanning an index along a query plan (src/index.c). */
module Scans {
  import opened Orders
  import opened Keys
  import opened SkiplistShape
  import opened Skiplists
  import opened SkiplistContents
  import opened SkiplistIterators
  import opened KHashes
  import opened ReverseIndexes
  import opened IndexStates
  import opened Indexes
  import opened Queries
  import opened QueryNodes
  import opened Ranges
  import opened QueryPlans
  import opened Answers

  /** The filter tree of a plan. */
  ghost function FilterOf(plan: QueryPlan): Option<Tree>
    reads plan.filterTree
  {
    if plan.filterTree == null then None else Some(plan.filterTree.tree)
  }

  class ScanCtx {
    const plan: QueryPlan
    const idx: CompoundIndex
    var currentScanRange: nat
    var it: Iterator?<MultiKey, Id>

    /** The filter tree of the plan. */
    ghost function Filter(): Option<Tree>
      reads plan.filterTree
    {
      FilterOf(plan)
    }

    ghost predicate FilterValid()
      reads plan.filterTree, if plan.filterTree == null then {} else plan.filterTree.Repr
    {
      plan.filterTree != null ==> plan.filterTree.Valid()
    }

    ghost predicate IdxValid()
      reads idx`length, idx.sl, idx.sl.Nodes(), idx.ri, idx.ri.flags, idx.ri.keys, idx.ri.vals
    {
      idx.Consistent()
    }

    ghost predicate ItValid()
      reads this, it, idx.sl, idx.sl.Nodes()
    {
      currentScanRange < |plan.ranges| ==>
        it != null && it.sl == idx.sl && it.pos >= 1 && it.Valid()
    }

    ghost predicate Valid()
      reads this, it, plan.filterTree, if plan.filterTree == null then {} else plan.filterTree.Repr
      reads idx`length, idx.sl, idx.sl.Nodes(), idx.ri, idx.ri.flags, idx.ri.keys, idx.ri.vals
    {
      FilterValid() && IdxValid() && ItValid()
    }

    /** What the ranges after the current one have to give. */
    ghost function Later(): seq<Id>
      requires currentScanRange < |plan.ranges|
      reads this, idx.sl, plan.filterTree
    {
      Answer(idx.cmpFuncs, idx.sl.entries, Filter(), plan.ranges[currentScanRange + 1..])
    }

    /** What the scan has still to return. */
    ghost function Left(): seq<Id>
      requires ItValid()
      reads this, it, idx.sl, idx.sl.Nodes(), plan.filterTree
    {
      if currentScanRange < |plan.ranges| then
        Sift(idx.cmpFuncs, Filter(), it.Remaining()) + Later()
      else []
    }

    /** What a whole scan returns. */
    ghost function All(): seq<Id>
      reads this, idx.sl, plan.filterTree
    {
      Answer(idx.cmpFuncs, idx.sl.entries, Filter(), plan.ranges)
    }

    /** The end of compoundIndex_Find: start on the first range, if there is one. */
    constructor (idx: CompoundIndex, plan: QueryPlan)
      requires idx.Consistent() && (plan.filterTree != null ==> plan.filterTree.Valid())
      ensures this.idx == idx && this.plan == plan
      ensures Valid() && (it != null ==> fresh(it)) && Left() == All()
    {
      hide CompoundIndex.Consistent, QueryNode.Valid, Iterator.Valid, Iterator.Remaining, Answer, Sift, Slice;
      var first: Iterator?<MultiKey, Id> := null;
      if 0 < |plan.ranges| {
        first := Start(idx, plan.ranges[0]);
        AnswerSteps(idx.cmpFuncs, idx.sl.entries, FilterOf(plan), plan.ranges, 0);
      }
      AnswerEnds(idx.cmpFuncs, idx.sl.entries, FilterOf(plan), plan.ranges);
      ghost var nodes := idx.sl.Nodes();
      this.idx, this.plan, currentScanRange, it := idx, plan, 0, first;
      new;
      assert idx.sl.Nodes() == nodes;
      assert forall n | n in nodes :: n as object != this;
      assert plan.filterTree != null ==> forall n | n in plan.filterTree.Repr :: n as object != this;
      assert it as object? != this && (it != null ==> it.sl == idx.sl);
      assert idx.ri as object != this && idx.sl as object != this && idx as object != this;
      assert idx.ri.flags as object != this && idx.ri.keys as object != this && idx.ri.vals as object != this;
      assert idx.Consistent();
      assert FilterValid();
      assert it != null ==> it.Valid();
    }

    /** The key and the value under the iterator. */
    lemma Current()
      requires Valid() && currentScanRange < |plan.ranges| && it.current != null
      ensures it.pos < |idx.sl.row| == |idx.sl.entries| + 1 && it.current == idx.sl.row[it.pos]
      ensures |it.current.vals| > 0 && FullKey(idx.cmpFuncs, it.current.obj)
      ensures |it.Remaining()| > 0 && it.Remaining()[0].0 == it.current.obj
    {
      hide Shaped, Linked, Chained, Lawful, Sorted, Split, Reached, KHash.Valid, Agree, Unique, FullKey;
      var b, p := Both(idx.cmpFuncs, idx.sl.entries, idx.Records()), it.pos;
      assert idx.sl.entries[p - 1] == Entry(idx.sl.row[p].obj, idx.sl.row[p].vals);
      AgreeVals(b, p - 1);
      AgreeKeys(b, p - 1);
    }

    /** One turn of the inner loop: filter the key under the iterator, and advance by one value. */
    method Step() returns (ok: bool, nextval: Option<Id>)
      requires Valid() && currentScanRange < |plan.ranges| && it.current != null
      modifies it
      ensures Valid() && |old(it.Remaining())| > 0
      ensures nextval == Some(old(it.Remaining())[0].1) && it.Remaining() == old(it.Remaining())[1..]
      ensures ok == Accepts(idx.cmpFuncs, Filter(), old(it.Remaining())[0].0)
    {
      hide CompoundIndex.Consistent, QueryNode.Valid, Iterator.Valid, Iterator.Remaining, Eval;
      Current();
      ok := true;
      if plan.filterTree != null {
        ok := plan.filterTree.EvalKey(idx.cmpFuncs, it.current.obj);
      }
      assert forall n | n in idx.sl.Nodes() :: n as object != it;
      assert plan.filterTree != null ==> forall n | n in plan.filterTree.Repr :: n as object != it;
      assert idx.ri as object != it && idx.sl as object != it && idx as object != it;
      nextval := it.Next();
    }

    /** The step to the next range. */
    method NextRange()
      requires Valid() && currentScanRange < |plan.ranges| && it.current == null
      modifies this
      ensures Valid() && currentScanRange == old(currentScanRange) + 1 && Left() == old(Left())
      ensures it == old(it) || fresh(it)
    {
      hide CompoundIndex.Consistent, QueryNode.Valid, Iterator.Valid, Iterator.Remaining, Answer, Sift, Slice, Pairs;
      assert forall n | n in idx.sl.Nodes() :: n as object != this;
      assert plan.filterTree != null ==> forall n | n in plan.filterTree.Repr :: n as object != this;
      assert idx.ri as object != this && idx.sl as object != this && idx as object != this;
      AnswerNone(idx.cmpFuncs, idx.sl.entries, Filter());
      NothingRemains(it);
      currentScanRange := currentScanRange + 1;
      assert plan.ranges[|plan.ranges|..] == [];
      if currentScanRange < |plan.ranges| {
        AnswerSteps(idx.cmpFuncs, idx.sl.entries, Filter(), plan.ranges, currentScanRange);
        it := Start(idx, plan.ranges[currentScanRange]);
      }
    }

    /** The inner loop of scan_next: the next id of the current range, if one is left in it. */
    method ScanRange() returns (ret: Option<Id>)
      requires Valid() && currentScanRange < |plan.ranges|
      modifies it
      ensures Valid()
      ensures if ret.Some? then |old(Left())| > 0 && ret.value == old(Left())[0] && Left() == old(Left())[1..]
              else Left() == old(Left()) && it.current == null
    {
      hide CompoundIndex.Consistent, QueryNode.Valid, Iterator.Valid, Iterator.Remaining, Answer, Sift, Slice;
      hide ScanCtx.FilterValid, ScanCtx.Later;
      ghost var left, later := Left(), Later();
      while it.current != null
        invariant Valid() && Later() == later
        invariant Left() == left
        decreases |it.Remaining()|
      {
        ghost var rem := it.Remaining();
        var ok, nextval := Step();
        SiftStep(idx.cmpFuncs, Filter(), rem, later);
        if ok {
          return nextval;
        }
      }
      ret := None;
    }

    /** scan_next. */
    method ScanNext() returns (ret: Option<Id>)
      requires Valid()
      modifies this, it
      ensures Valid() && (it == old(it) || fresh(it))
      ensures if old(Left()) == [] then ret == None && Left() == []
              else ret == Some(old(Left())[0]) && Left() == old(Left())[1..]
    {
      hide CompoundIndex.Consistent, QueryNode.Valid, Iterator.Valid, Iterator.Remaining, Answer, Sift, Slice;
      hide ScanCtx.FilterValid, ScanCtx.IdxValid, ScanCtx.Later;
      while currentScanRange < |plan.ranges|
        invariant Valid() && (it == old(it) || fresh(it))
        invariant Left() == old(Left())
        decreases |plan.ranges| - currentScanRange
      {
        ret := ScanRange();
        if ret.Some? {
          return;
        }
        NextRange();
      }
      ret := None;
    }
  }

  lemma NothingRemains(it: Iterator<MultiKey, Id>)
    requires it.Valid() && it.current == null
    ensures it.Remaining() == []
  {
    hide Skiplist.Valid;
  }

  /** Start iterating a range. */
  method Start(idx: CompoundIndex, cr: Range) returns (it: Iterator<MultiKey, Id>)
    requires idx.Consistent()
    ensures idx.Consistent() && fresh(it) && it.sl == idx.sl && it.pos >= 1 && it.Valid()
    ensures it.Remaining() == Pairs(Slice(idx.cmpFuncs, idx.sl.entries, cr))
  {
    hide CompoundIndex.Consistent, Skiplist.Valid, Split, Iterator.Valid, Iterator.Remaining, Slice, Skiplist.Stop;
    ListValid(idx);
    ghost var nodes := idx.sl.Nodes();
    it := new Iterator<MultiKey, Id>.Range(idx.sl, cr.min, Some(cr.max), cr.minExclusive, cr.maxExclusive);
    assert idx.sl.Nodes() == nodes;
    ListValid(idx);
    SliceStops(idx, cr);
  }

  /** A slice lies between the two stops of the list. */
  lemma SliceStops(idx: CompoundIndex, cr: Range)
    requires |idx.sl.row| == |idx.sl.entries| + 1 && idx.sl.compare == KeyOrder(idx.cmpFuncs).cmp
    ensures var lo, hi := idx.sl.Stop(cr.min, cr.minExclusive) - 1, idx.sl.Stop(cr.max, !cr.maxExclusive) - 1;
            Pairs(Slice(idx.cmpFuncs, idx.sl.entries, cr)) == if lo < hi then Pairs(idx.sl.entries[lo..hi]) else []
  {
    hide Split;
  }

  lemma ListValid(idx: CompoundIndex)
    requires idx.Consistent()
    ensures idx.sl.Valid() && |idx.sl.row| == |idx.sl.entries| + 1 && idx.sl.compare == KeyOrder(idx.cmpFuncs).cmp
  {
    hide Skiplist.LinkedUp, Skiplist.Chains, Skiplist.Ordered, KHash.Valid, Agree, Unique;
  }

  /** A query as the parser hands it over. */
  ghost predicate Parsed(q: Query)
    reads q, q.root, if q.root == null then {} else q.root.Repr
  {
    q.numPredicates > 0 ==>
      q.root != null && q.root.Valid() && Plain(q.root.tree) && Leaves(q.root.tree) <= q.numPredicates
  }

  /** The condition a query states. */
  ghost function Where(q: Query): Option<Tree>
    reads q, q.root
  {
    if q.numPredicates == 0 || q.root == null then None else Some(q.root.tree)
  }

  /** A query can be planned if an AND path holds a predicate on the first column. */
  ghost predicate Scannable(idx: CompoundIndex, t: Option<Tree>) {
    t.Some? && Searchable(idx.cmpFuncs, t.value)
  }

  /** Both structures of an index, as values. */
  ghost function State(idx: CompoundIndex): Both
    reads idx.sl, idx.ri
  {
    Both(idx.cmpFuncs, idx.sl.entries, idx.Records())
  }

  /** compoundIndex_Find: a cursor, or null for the error cursor. */
  method Find(idx: CompoundIndex, q: Query) returns (c: ScanCtx?)
    requires idx.Consistent() && Parsed(q)
    modifies q, if q.root == null then {} else q.root.Repr
    ensures idx.Consistent()
    ensures c != null <==> Scannable(idx, old(Where(q)))
    ensures c != null ==> fresh(c) && (c.it != null ==> fresh(c.it)) && c.idx == idx && c.Valid()
    ensures c != null ==> c.Left() == PlanAnswer(State(idx), old(Where(q)).value)
  {
    hide CompoundIndex.Consistent, QueryNode.Valid, Extracted, Answer, Plain, ScanRanges, Cleaned;
    if q.numPredicates == 0 {
      return null;
    }
    ghost var t := q.root.tree;
    assert forall n | n in idx.sl.Nodes() :: n as object !in q.root.Repr && n as object != q;
    assert forall n | n in q.root.Repr :: n as object != idx && n as object != idx.sl && n as object != idx.ri;
    assert forall n | n in q.root.Repr ::
           n as object != idx.ri.flags && n as object != idx.ri.keys && n as object != idx.ri.vals;
    var plan := BuildQueryPlan(q, |idx.cmpFuncs|);
    if plan.None? {
      return null;
    }
    c := new ScanCtx(idx, plan.value);
  }

  /** What a caller of Next in a loop gets. */
  method Drain(c: ScanCtx) returns (ids: seq<Id>)
    requires c.Valid()
    modifies c, c.it
    ensures c.Valid() && ids == old(c.Left()) && c.Left() == []
  {
    hide ScanCtx.FilterValid, ScanCtx.IdxValid, ScanCtx.ItValid, ScanCtx.Left;
    ids := [];
    var id := c.ScanNext();
    while id.Some?
      invariant c.Valid() && (c.it == old(c.it) || fresh(c.it))
      invariant if id.Some? then ids + [id.value] + c.Left() == old(c.Left())
                else ids == old(c.Left()) && c.Left() == []
      decreases |c.Left()|, id.Some?
    {
      ids := ids + [id.value];
      id := c.ScanNext();
    }
  }

  /**
   * A whole query: the ids returned are exactly those whose recorded keys satisfy the WHERE clause and pass the
   * residual filter, which changes nothing if its leaves work as filters. An id comes twice exactly if an extracted
   * IN list names its value twice.
   */
  method Select(idx: CompoundIndex, q: Query) returns (ids: Option<seq<Id>>)
    requires idx.Consistent() && Parsed(q)
    modifies q, if q.root == null then {} else q.root.Repr
    ensures ids.Some? <==> Scannable(idx, old(Where(q)))
    ensures ids.Some? ==> ids.value == PlanAnswer(State(idx), old(Where(q)).value)
    ensures ids.Some? ==> var b, t := State(idx), old(Where(q)).value;
                          forall id :: id in ids.value <==> Matches(b, t, id) && Survives(b, t, id)
    ensures ids.Some? ==> var b, t := State(idx), old(Where(q)).value;
                          NoRepeats(ids.value) <==> forall id | id in ids.value :: !NamedTwice(b, t, id)
    ensures ids.Some? && Plannable(idx.cmpFuncs, old(Where(q)).value) ==>
              forall id :: id in ids.value <==> Matches(State(idx), old(Where(q)).value, id)
    ensures ids.Some? && Unrepeated(idx.cmpFuncs, old(Where(q)).value) ==> NoRepeats(ids.value)
  {
    hide CompoundIndex.Consistent, QueryNode.Valid, Extracted, Answer, Plain, ScanRanges, ScanCtx.Valid,
         ScanCtx.ItValid, ScanCtx.Left;
    hide Plannable, Unrepeated, NoRepeats, Matches, Survives, NamedTwice;
    ghost var t, b := Where(q), State(idx);
    ConsistentAgrees(idx);
    var c := Find(idx, q);
    ids := None;
    if c != null {
      PlanAnswersQuery(b, t.value);
      var all := Drain(c);
      ids := Some(all);
    }
  }

  lemma ConsistentAgrees(idx: CompoundIndex)
    requires idx.Consistent()
    ensures Agree(State(idx))
  {
    hide Skiplist.Valid, KHash.Valid, Agree;
  }

  lemma AnswerSteps(fv: Schema, es: Entries, filter: Option<Tree>, rs: seq<Range>, i: nat)
    requires i < |rs|
    ensures Answer(fv, es, filter, rs[i..]) ==
            Sift(fv, filter, Pairs(Slice(fv, es, rs[i]))) + Answer(fv, es, filter, rs[i + 1..])
    ensures rs[0..] == rs
  {
    assert rs[i..][1..] == rs[i + 1..];
  }

  lemma AnswerNone(fv: Schema, es: Entries, filter: Option<Tree>)
    ensures Answer(fv, es, filter, []) == [] && Sift(fv, filter, []) == []
  {
  }

  lemma SiftStep(fv: Schema, filter: Option<Tree>, rem: seq<(MultiKey, Id)>, later: seq<Id>)
    requires |rem| > 0
    ensures Sift(fv, filter, rem) + later ==
            (if Accepts(fv, filter, rem[0].0) then [rem[0].1] else []) + (Sift(fv, filter, rem[1..]) + later)
  {
    hide Accepts;
  }

  lemma AnswerEnds(fv: Schema, es: Entries, filter: Option<Tree>, rs: seq<Range>)
    ensures rs == [] ==> Answer(fv, es, filter, rs) == []
  {
  }
}
