/** Building a query plan (src/query_plan.c). */
module QueryPlans {
  import opened Values
  import opened Orders
  import opened Queries
  import opened QueryNodes
  import opened Ranges

  /** A parsed query. */
  class Query {
    var root: QueryNode?
    var numPredicates: nat

    constructor ()
      ensures root == null && numPredicates == 0
    {
      root, numPredicates := null, 0;
    }
  }

  /** The vector of scan ranges under construction. */
  class RangeVector {
    var data: seq<Range>

    constructor ()
      ensures data == []
    {
      data := [];
    }

    method Push(r: Range)
      modifies this
      ensures data == old(data) + [r]
    {
      data := data + [r];
    }
  }

  /** The ranges to scan, and the tree, if any, that every key found has still to pass. */
  datatype QueryPlan = QueryPlan(ranges: seq<Range>, filterTree: QueryNode?)

  /** predicateToRanges: also tells whether no further column can be used. */
  method PredicateToRanges(p: Predicate) returns (rks: seq<RangeKey>, isLast: bool)
    ensures rks == Alternatives(p) && isLast == p.PredRange?
  {
    isLast := false;
    match p
    case PredEq(_, v) =>
      rks := [RangeKey(v, v, false, false)];
    case PredRange(_, min, minEx, max, maxEx) =>
      rks := [RangeKey(min, max, minEx, maxEx)];
      isLast := true;
    case PredIsNull(_) =>
      rks := [RangeKey(Null, Null, false, false)];
    case PredIn(_, vals) =>
      rks := [];
      for i := 0 to |vals|
        invariant rks == Alternatives(p)[..i]
      {
        rks := rks + [RangeKey(vals[i], vals[i], false, false)];
      }
  }

  /** What the stack has chosen for the first n columns. */
  ghost function Chosen(keys: Columns, stack: seq<nat>, n: nat): (c: Combo)
    requires n <= |keys| && n <= |stack| && forall i | 0 <= i < n :: stack[i] < |keys[i]|
    ensures |c| == n
  {
    seq(n, i requires 0 <= i < n => keys[i][stack[i]])
  }

  ghost predicate Nonempty(cs: seq<Combo>) {
    forall i | 0 <= i < |cs| :: cs[i] != []
  }

  lemma ProductNonempties(keys: Columns, prefix: Combo)
    requires keys != [] || prefix != []
    ensures Nonempty(Product(keys, prefix))
  {
    forall j | 0 <= j < |Product(keys, prefix)| ensures Product(keys, prefix)[j] != [] {
      ProductNonempty(keys, prefix, j);
    }
  }

  lemma FromNonempties(keys: Columns, prefix: Combo, i: nat)
    requires keys != [] && i <= |keys[0]|
    ensures Nonempty(ProductFrom(keys, prefix, i))
    decreases |keys[0]| - i
  {
    if i < |keys[0]| {
      ProductNonempties(keys[1..], prefix + [keys[0][i]]);
      FromNonempties(keys, prefix, i + 1);
    }
  }

  lemma RangesOfConcat(a: seq<Combo>, b: seq<Combo>)
    requires Nonempty(a) && Nonempty(b)
    ensures Nonempty(a + b) && RangesOf(a + b) == RangesOf(a) + RangesOf(b)
  {
  }

  /** The end of buildKey: one range from the choices on the stack. */
  method PushRange(keys: array<seq<RangeKey>>, stack: array<nat>, numKeys: nat, result: RangeVector)
    requires 0 < numKeys <= keys.Length && numKeys == stack.Length
    requires forall i | 0 <= i < numKeys :: stack[i] < |keys[i]|
    modifies result
    ensures result.data == old(result.data) + [RangeOf(Chosen(keys[..numKeys], stack[..], numKeys))]
  {
    var min, max, minEx, maxEx := [], [], false, false;
    ghost var c := Chosen(keys[..numKeys], stack[..], numKeys);
    for i := 0 to numKeys
      invariant min == Mins(c)[..i] && max == Maxs(c)[..i]
      invariant i > 0 ==> minEx == c[i - 1].minExclusive && maxEx == c[i - 1].maxExclusive
    {
      var rk := keys[i][stack[i]];
      min, max := min + [rk.min], max + [rk.max];
      minEx, maxEx := rk.minExclusive, rk.maxExclusive;
    }
    assert Mins(c)[..numKeys] == Mins(c) && Maxs(c)[..numKeys] == Maxs(c);
    result.Push(Range(min, max, minEx, maxEx));
  }

  /** buildKey: push the range of every combination that agrees with the stack on the first keyIdx columns. */
  method BuildKey(keys: array<seq<RangeKey>>, stack: array<nat>, numKeys: nat, keyIdx: nat, result: RangeVector)
    requires 0 < numKeys <= keys.Length && numKeys == stack.Length && keyIdx <= numKeys
    requires keys as object != stack
    requires forall i | 0 <= i < keyIdx :: stack[i] < |keys[i]|
    modifies stack, result
    ensures stack[..keyIdx] == old(stack[..keyIdx])
    ensures var cs := Product(keys[keyIdx..numKeys], old(Chosen(keys[..numKeys], stack[..], keyIdx)));
            Nonempty(cs) && result.data == old(result.data) + RangesOf(cs)
    decreases numKeys - keyIdx
  {
    hide Product, ProductFrom, RangeOf;
    ghost var was, prefix := result.data, Chosen(keys[..numKeys], stack[..], keyIdx);
    ghost var rest := keys[keyIdx..numKeys];
    ProductNonempties(rest, prefix);
    ProductSteps(rest, prefix);
    if keyIdx < numKeys {
      ghost var all := ProductFrom(rest, prefix, 0);
      for i := 0 to |keys[keyIdx]|
        invariant stack[..keyIdx] == old(stack[..keyIdx])
        invariant Nonempty(ProductFrom(rest, prefix, i))
        invariant was + RangesOf(all) == result.data + RangesOf(ProductFrom(rest, prefix, i))
      {
        stack[keyIdx] := i;
        assert Chosen(keys[..numKeys], stack[..], keyIdx + 1) == prefix + [rest[0][i]];
        assert rest[1..] == keys[keyIdx + 1..numKeys];
        BuildKey(keys, stack, numKeys, keyIdx + 1, result);
        ProductFromSteps(rest, prefix, i);
      }
      ProductFromEnds(rest, prefix);
      return;
    }
    PushRange(keys, stack, numKeys, result);
  }

  lemma ProductSteps(rest: Columns, prefix: Combo)
    requires rest != [] || prefix != []
    ensures if rest == [] then Product(rest, prefix) == [prefix]
            else Product(rest, prefix) == ProductFrom(rest, prefix, 0) && Nonempty(ProductFrom(rest, prefix, 0))
  {
    if rest != [] { FromNonempties(rest, prefix, 0); }
  }

  lemma ProductFromSteps(rest: Columns, prefix: Combo, i: nat)
    requires rest != [] && i < |rest[0]|
    ensures var a, b := Product(rest[1..], prefix + [rest[0][i]]), ProductFrom(rest, prefix, i + 1);
            && Nonempty(a) && Nonempty(b) && Nonempty(ProductFrom(rest, prefix, i))
            && RangesOf(ProductFrom(rest, prefix, i)) == RangesOf(a) + RangesOf(b)
  {
    ProductNonempties(rest[1..], prefix + [rest[0][i]]);
    FromNonempties(rest, prefix, i + 1);
    RangesOfConcat(Product(rest[1..], prefix + [rest[0][i]]), ProductFrom(rest, prefix, i + 1));
  }

  lemma ProductFromEnds(rest: Columns, prefix: Combo)
    requires rest != []
    ensures ProductFrom(rest, prefix, |rest[0]|) == []
  {
  }

  /** The plan for a tree: none if nothing could be extracted, otherwise its ranges and what is left as a filter. */
  ghost predicate Planned(plan: Option<QueryPlan>, t: Tree, n: nat)
    reads if plan.Some? && plan.value.filterTree != null
          then {plan.value.filterTree} + plan.value.filterTree.Repr else {}
  {
    var (t', ps) := Extracted(t, 0, n);
    if ps == [] then plan == None
    else
      && plan.Some? && plan.value.ranges == ScanRanges(ps)
      && var f := plan.value.filterTree;
         if t'.passthru then f == null else f != null && f.Valid() && f.tree == Cleaned(t')
  }

  lemma ExtractedUnfolds(t: Tree, propId: nat, n: nat, done: seq<Predicate>)
    requires propId < n
    ensures var (t', p) := Marked(t, propId);
            var (u, ps) := Extracted(t, propId, n);
            if p.None? then u == t && ps == []
            else if p.value.PredRange? then u == t' && ps == [p.value]
            else u == Extracted(t', propId + 1, n).0 && done + ps == done + [p.value] + Extracted(t', propId + 1, n).1
  {
    hide Marked;
    var (t', p) := Marked(t, propId);
    if p.Some? && !p.value.PredRange? {
      var rest := Extracted(t', propId + 1, n).1;
      assert done + ([p.value] + rest) == done + [p.value] + rest;
    }
  }

  /** The extraction loop: one array of alternatives for each leading column. It never overruns the array. */
  method ExtractColumns(q: Query, numProps: nat, keys: array<seq<RangeKey>>)
    returns (propId: nat, ghost ps: seq<Predicate>)
    requires q.root != null && q.root.Valid() && Prunable(q.root.tree) && OpenLeaves(q.root.tree) <= keys.Length
    modifies q.root.Repr, keys
    ensures q.root.Valid() && q.root.Repr == old(q.root.Repr)
    ensures (q.root.tree, ps) == Extracted(old(q.root.tree), 0, numProps)
    ensures propId == |ps| <= keys.Length && keys[..propId] == Columned(ps)
    ensures Exhausted(old(q.root.tree), 0, numProps, ps)
  {
    hide Marked, OpenLeaves, Exhausted, OnAndPath, QueryNode.Valid, Eval, Alternatives;
    propId, ps := 0, [];
    ghost var t := q.root.tree;
    ExtractedShape(t, 0, numProps);
    while propId < numProps
      invariant q.root.Valid() && q.root.Repr == old(q.root.Repr) && Prunable(q.root.tree)
      invariant propId == |ps| && |ps| + OpenLeaves(q.root.tree) <= keys.Length
      invariant Extracted(t, 0, numProps).0 == Extracted(q.root.tree, propId, numProps).0
      invariant Extracted(t, 0, numProps).1 == ps + Extracted(q.root.tree, propId, numProps).1
      invariant keys[..propId] == Columned(ps)
    {
      MarkedMeaning(q.root.tree, propId, _ => true);
      ExtractedUnfolds(q.root.tree, propId, numProps, ps);
      var pred := q.root.GetPredicate(propId);
      if pred.None? {
        break;
      }
      var ka, isLast := PredicateToRanges(pred.value);
      keys[propId] := ka;
      propId, ps := propId + 1, ps + [pred.value];
      if isLast {
        break;
      }
    }
    assert ps + [] == ps;
    ExtractedExhausts(t, 0, numProps);
  }

  /** SI_BuildQueryPlan. The columns' arrays have one place for each predicate of the query. */
  method BuildQueryPlan(q: Query, numProps: nat) returns (plan: Option<QueryPlan>)
    requires q.root != null && q.root.Valid() && Plain(q.root.tree) && Leaves(q.root.tree) <= q.numPredicates
    modifies q, q.root.Repr
    ensures plan.Some? <==> numProps > 0 && OnAndPath(old(q.root.tree), 0)
    ensures Planned(plan, old(q.root.tree), numProps)
    ensures plan.Some? && plan.value.filterTree != null ==> plan.value.filterTree.Repr <= old(q.root.Repr)
  {
    hide Extracted, Product, Cleaned, Eval, Exhausted, OnAndPath;
    SearchableExact(q.root.tree, numProps);
    var keys := new seq<RangeKey>[q.numPredicates];
    ghost var t, repr := q.root.tree, q.root.Repr;
    PlainLeaves(t);
    var propId, ps := ExtractColumns(q, numProps, keys);
    if propId == 0 {
      return None;
    }
    var scanKeys := new RangeVector();
    var stack := new nat[propId];
    BuildKey(keys, stack, propId, 0, scanKeys);
    var filterTree := null;
    if !q.root.passthru {
      q.root := q.root.Clean();
      filterTree := q.root;
    }
    plan := Some(QueryPlan(scanKeys.data, filterTree));
  }
}
