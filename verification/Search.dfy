/** The select command between its parser and its reply (src/module.c). */
module Searches {
  import opened Values
  import opened Orders
  import opened SkiplistContents
  import opened ReverseIndexes
  import opened IndexStates
  import opened Indexes
  import opened Queries
  import opened QueryParsing
  import opened QueryPlans
  import opened Answers
  import opened Scans

  /** The parse tree is well typed for every recorded key. */
  ghost predicate Sensible(b: Both, names: Option<seq<Option<seq<Byte>>>>, n: ParseNode) {
    forall id | id in b.m :: WellTyped(b.fv, names, n, b.m[id])
  }

  /** The id is recorded under a key of which the parse tree tells the truth. */
  ghost predicate Told(b: Both, names: Option<seq<Option<seq<Byte>>>>, n: ParseNode, id: Id) {
    id in b.m && |b.m[id]| <= |b.fv| && Tells(b.fv, names, n, b.m[id])
  }

  lemma ToldMatches(b: Both, names: Option<seq<Option<seq<Byte>>>>, n: ParseNode, id: Id)
    requires Supported(n) && Sensible(b, names, n)
    ensures Told(b, names, n, id) <==> Matches(b, Lowered(names, n), id)
  {
    if id in b.m { LoweredMeans(b.fv, names, n, b.m[id]); }
  }

  /** The tree has a predicate on the first column that only ANDs lie above. */
  predicate AsksFirst(names: Option<seq<Option<seq<Byte>>>>, n: ParseNode) {
    match n
    case PredNode(prop, _) =>
      if prop.name.Some? && names.Some? then |names.value| > 0 && FirstNamed(names.value, prop.name.value, 0)
      else prop.id == 1
    case CondNode(l, isOr, r) => !isOr && (AsksFirst(names, l) || AsksFirst(names, r))
  }

  lemma {:induction false} AsksFirstExact(names: Option<seq<Option<seq<Byte>>>>, n: ParseNode)
    requires Supported(n)
    ensures AsksFirst(names, n) <==> OnAndPath(Lowered(names, n), 0)
  {
    hide FirstNamed, Lower;
    match n
    case PredNode(prop, t) =>
      LowerColumn(t, ColumnOf(names, prop));
      if prop.name.Some? && names.Some? {
        var c := ByName(names.value, prop.name.value, 0);
        ByNameExact(names.value, prop.name.value);
        if |names.value| > 0 { OneFirst(names.value, prop.name.value, c, 0); }
      }
    case CondNode(l, _, r) =>
      AsksFirstExact(names, l);
      AsksFirstExact(names, r);
  }

  lemma AsksScans(idx: CompoundIndex, names: Option<seq<Option<seq<Byte>>>>, n: ParseNode)
    requires Supported(n)
    ensures Scannable(idx, Some(Lowered(names, n))) <==> |idx.cmpFuncs| > 0 && AsksFirst(names, n)
  {
    hide AsksFirst, Lowered, OnAndPath, Supported;
    AsksFirstExact(names, n);
  }

  /**
   * From the parse tree to the ids: those returned are recorded under keys of which the tree tells the truth, and they
   * are all of those if the leaves left as a filter work as one.
   */
  method Search(idx: CompoundIndex, root: ParseNode, names: Option<seq<Option<seq<Byte>>>>)
    returns (ids: Option<seq<Id>>)
    requires idx.Consistent() && Supported(root) && Sensible(State(idx), names, root)
    ensures ids.Some? <==> |idx.cmpFuncs| > 0 && AsksFirst(names, root)
    ensures ids.Some? ==> var b, t := State(idx), Lowered(names, root);
                          forall id :: id in ids.value <==> Told(b, names, root, id) && Survives(b, t, id)
    ensures ids.Some? && Plannable(idx.cmpFuncs, Lowered(names, root)) ==>
              forall id :: id in ids.value <==> Told(State(idx), names, root, id)
    ensures ids.Some? && Unrepeated(idx.cmpFuncs, Lowered(names, root)) ==> NoRepeats(ids.value)
  {
    hide CompoundIndex.Consistent, Lowered, Scannable, AsksFirst, Plannable, Unrepeated, NoRepeats, Matches, Survives,
         NamedTwice, Told;
    hide PlanAnswer, Sensible, Supported, Searchable, OnAndPath, ColumnOf;
    ghost var b, t := State(idx), Lowered(names, root);
    ghost var nodes := idx.sl.Nodes();
    var q := new Query();
    assert idx.sl.Nodes() == nodes && forall n | n in nodes :: n as object != q;
    ParseQuery(q, root, names);
    ids := Select(idx, q);
    forall id ensures Told(b, names, root, id) <==> Matches(b, t, id) { ToldMatches(b, names, root, id); }
    AsksScans(idx, names, root);
  }
}
