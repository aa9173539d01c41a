/** What a scan is to return, and why it is what the WHERE clause asks for (src/index.c). */
module Answers {
  import opened Values
  import opened Orders
  import opened Keys
  import opened Skiplists
  import opened SkiplistContents
  import opened SkiplistIterators
  import opened ReverseIndexes
  import opened IndexStates
  import opened Queries
  import opened Ranges

  /** A key passes the filter tree of a plan, if the plan has one. */
  ghost predicate Accepts(fv: Schema, filter: Option<Tree>, k: MultiKey) {
    |k| <= |fv| && (filter.Some? ==> Eval(filter.value, Filtering(fv, k)))
  }

  /** The ids, in order, whose keys pass the filter. */
  ghost function Sift(fv: Schema, filter: Option<Tree>, pairs: seq<(MultiKey, Id)>): seq<Id> {
    if pairs == [] then []
    else (if Accepts(fv, filter, pairs[0].0) then [pairs[0].1] else []) + Sift(fv, filter, pairs[1..])
  }

  /** The entries a range iteration visits. */
  ghost function Slice(fv: Schema, es: Entries, r: Range): Entries {
    var cmp := KeyOrder(fv).cmp;
    var lo, hi := Split(cmp, Skiplists.Keys(es), r.min, r.minExclusive),
        Split(cmp, Skiplists.Keys(es), r.max, !r.maxExclusive);
    if lo < hi then es[lo..hi] else []
  }

  /** What scanning some ranges returns: range by range, in key order within each. */
  ghost function Answer(fv: Schema, es: Entries, filter: Option<Tree>, rs: seq<Range>): seq<Id> {
    if rs == [] then []
    else Sift(fv, filter, Pairs(Slice(fv, es, rs[0]))) + Answer(fv, es, filter, rs[1..])
  }

  /** How many of the ranges hold a key. */
  ghost function Holding(fv: Schema, rs: seq<Range>, k: MultiKey): nat {
    if rs == [] then 0 else (if InRange(fv, rs[0], k) then 1 else 0) + Holding(fv, rs[1..], k)
  }

  // ---------------------------------------------------------------- counting answers

  lemma {:induction false} SiftConcat(fv: Schema, filter: Option<Tree>, a: seq<(MultiKey, Id)>, b: seq<(MultiKey, Id)>)
    ensures Sift(fv, filter, a + b) == Sift(fv, filter, a) + Sift(fv, filter, b)
  {
    hide Accepts;
    if a == [] {
      assert a + b == b;
    } else {
      assert (a + b)[1..] == a[1..] + b;
      SiftConcat(fv, filter, a[1..], b);
    }
  }

  lemma {:induction false} SiftTagged(fv: Schema, filter: Option<Tree>, k: MultiKey, vals: seq<Id>)
    ensures Sift(fv, filter, Tagged(k, vals)) == if Accepts(fv, filter, k) then vals else []
  {
    hide Accepts;
    if vals != [] {
      assert Tagged(k, vals)[1..] == Tagged(k, vals[1..]);
      SiftTagged(fv, filter, k, vals[1..]);
    }
  }

  lemma {:induction false} CountOnce(vals: seq<Id>, id: Id)
    requires NoRepeats(vals)
    ensures multiset(vals)[id] == if id in vals then 1 else 0
  {
    if vals != [] {
      assert vals == [vals[0]] + vals[1..];
      CountOnce(vals[1..], id);
    }
  }

  /** An id that only entry h lists is found among the entries lo to hi once, or not at all. */
  lemma {:induction false} SiftEntries(fv: Schema, filter: Option<Tree>, es: Entries, lo: nat, hi: nat, h: nat, id: Id)
    requires lo <= hi <= |es|
    requires forall i | 0 <= i < |es| :: NoRepeats(es[i].vals) && (id in es[i].vals <==> i == h)
    ensures multiset(Sift(fv, filter, Pairs(es[lo..hi])))[id] ==
            if lo <= h < hi && Accepts(fv, filter, es[h].key) then 1 else 0
    decreases hi - lo
  {
    hide Accepts;
    if lo < hi {
      assert es[lo..hi][1..] == es[lo + 1..hi];
      var e := es[lo];
      SiftConcat(fv, filter, Tagged(e.key, e.vals), Pairs(es[lo + 1..hi]));
      SiftTagged(fv, filter, e.key, e.vals);
      CountOnce(e.vals, id);
      SiftEntries(fv, filter, es, lo + 1, hi, h, id);
    }
  }

  /** A range iteration visits exactly the entries whose keys are in the range. */
  lemma SliceExact(fv: Schema, es: Entries, r: Range, i: nat)
    requires Sorted(KeyOrder(fv), Skiplists.Keys(es)) && i < |es|
    ensures var cmp := KeyOrder(fv).cmp;
            var lo, hi := Split(cmp, Skiplists.Keys(es), r.min, r.minExclusive),
                Split(cmp, Skiplists.Keys(es), r.max, !r.maxExclusive);
            InRange(fv, r, es[i].key) <==> lo <= i < hi
  {
    hide Sorted, Lawful, Split, CmpKey;
    KeyOrderLawful(fv);
    var o, keys := KeyOrder(fv), Skiplists.Keys(es);
    SplitExact(o, keys, r.min, r.minExclusive, i);
    SplitExact(o, keys, r.max, !r.maxExclusive, i);
  }

  /** The key of the entry that lists an id. */
  ghost function StoredKey(b: Both, id: Id): MultiKey
    requires Agree(b) && id in b.m
  {
    AgreeHome(b, id);
    b.es[Home(b.fv, b.es, b.m[id])].key
  }

  /** How often scanning one range returns an id. */
  lemma SliceCount(b: Both, filter: Option<Tree>, r: Range, id: Id)
    requires Agree(b)
    ensures multiset(Sift(b.fv, filter, Pairs(Slice(b.fv, b.es, r))))[id] ==
            if id in b.m && Accepts(b.fv, filter, StoredKey(b, id)) && InRange(b.fv, r, StoredKey(b, id)) then 1 else 0
  {
    hide Sorted, Split, FullKey, Agree, CmpKey, Accepts, InRange, Sift;
    AgreeSorted(b);
    var cmp, keys := KeyOrder(b.fv).cmp, Skiplists.Keys(b.es);
    var lo, hi := Split(cmp, keys, r.min, r.minExclusive), Split(cmp, keys, r.max, !r.maxExclusive);
    var h := if id in b.m then Home(b.fv, b.es, b.m[id]) else |b.es|;
    forall i | 0 <= i < |b.es| ensures NoRepeats(b.es[i].vals) && (id in b.es[i].vals <==> i == h) {
      AgreeVals(b, i);
      if id in b.m { AgreeHome(b, id); }
      if id in b.es[i].vals { AgreeEntry(b, i, id); }
    }
    if id in b.m {
      AgreeHome(b, id);
      SliceExact(b.fv, b.es, r, h);
    }
    SiftNothing(b.fv, filter);
    if lo < hi {
      SiftEntries(b.fv, filter, b.es, lo, hi, h, id);
    }
  }

  lemma SiftNothing(fv: Schema, filter: Option<Tree>)
    ensures Sift(fv, filter, Pairs([])) == []
  {
  }

  /** A scan returns an id once for each of the ranges that hold its key, if the key passes the filter. */
  lemma {:induction false} AnswerCount(b: Both, filter: Option<Tree>, rs: seq<Range>, id: Id)
    requires Agree(b)
    ensures multiset(Answer(b.fv, b.es, filter, rs))[id] ==
            if id in b.m && Accepts(b.fv, filter, StoredKey(b, id)) then Holding(b.fv, rs, StoredKey(b, id)) else 0
  {
    hide Agree, Accepts, InRange, Sift, Slice;
    if rs != [] {
      SliceCount(b, filter, rs[0], id);
      AnswerCount(b, filter, rs[1..], id);
    }
  }

  // ---------------------------------------------------------------- counting ranges

  lemma {:induction false} HoldingSome(fv: Schema, rs: seq<Range>, k: MultiKey)
    ensures Holding(fv, rs, k) > 0 <==> exists r | r in rs :: InRange(fv, r, k)
  {
    hide InRange;
    if rs != [] {
      HoldingSome(fv, rs[1..], k);
      assert forall r :: r in rs <==> r == rs[0] || r in rs[1..];
    }
  }

  lemma {:induction false} HoldingOne(fv: Schema, rs: seq<Range>, k: MultiKey)
    requires forall a, b | 0 <= a < b < |rs| :: !(InRange(fv, rs[a], k) && InRange(fv, rs[b], k))
    ensures Holding(fv, rs, k) <= 1
  {
    hide InRange;
    if rs != [] {
      HoldingOne(fv, rs[1..], k);
      HoldingSome(fv, rs[1..], k);
      if InRange(fv, rs[0], k) {
        forall r | r in rs[1..] ensures !InRange(fv, r, k) {
          var i :| 0 <= i < |rs| - 1 && rs[1..][i] == r;
          assert rs[i + 1] == r;
        }
      }
    }
  }

  // ---------------------------------------------------------------- the query theorem

  /** The filter a plan keeps: none when the whole tree was extracted, otherwise the cleaned rest. */
  ghost function PlanFilter(t: Tree): Option<Tree> {
    if t.passthru then None else Some(Cleaned(t))
  }

  /** What a plan answers for a query tree. */
  ghost function PlanAnswer(b: Both, t: Tree): seq<Id>
    requires Searchable(b.fv, t)
  {
    SearchableExact(t, |b.fv|);
    var (t', ps) := Extracted(t, 0, |b.fv|);
    Answer(b.fv, b.es, PlanFilter(t'), ScanRanges(ps))
  }

  /** The residual filter of a query tree works as a condition. */
  ghost predicate Plannable(fv: Schema, t: Tree) {
    Searchable(fv, t) && FilterableTree(fv, Cleaned(Extracted(t, 0, |fv|).0))
  }

  /**
   * For one key, being in a scan range and passing the filter: the extracted predicates hold, and the filter passes.
   */
  lemma PlanDecides(fv: Schema, t: Tree, k: MultiKey)
    requires Plain(t) && Searchable(fv, t) && FullKey(fv, k)
    ensures Extracted(t, 0, |fv|).1 != []
    ensures var (t', ps) := Extracted(t, 0, |fv|);
            Accepts(fv, PlanFilter(t'), k) && Holding(fv, ScanRanges(ps), k) > 0 <==>
            (forall p | p in ps :: Means(fv, p, k)) && Eval(Cleaned(t'), Filtering(fv, k))
  {
    hide InRange, Means, Passes, Holding;
    SearchableExact(t, |fv|);
    var (t', ps) := Extracted(t, 0, |fv|);
    PlainLeaves(t);
    ExtractedShape(t, 0, |fv|);
    HoldingSome(fv, ScanRanges(ps), k);
    ScanRangesExact(fv, ps, k);
  }

  /**
   * What is in a scan range and passes the filter satisfies the WHERE clause, and all that is missing fails the
   * filter.
   */
  lemma PlanDecidesCondition(fv: Schema, t: Tree, k: MultiKey)
    requires Plain(t) && Searchable(fv, t) && FullKey(fv, k)
    ensures |k| == |fv| && Extracted(t, 0, |fv|).1 != []
    ensures var (t', ps) := Extracted(t, 0, |fv|);
            && (Accepts(fv, PlanFilter(t'), k) && Holding(fv, ScanRanges(ps), k) > 0 <==>
                Eval(t, Condition(fv, k)) && Eval(Cleaned(t'), Filtering(fv, k)))
            && (Plannable(fv, t) && Eval(t, Condition(fv, k)) ==> Eval(Cleaned(t'), Filtering(fv, k)))
  {
    hide InRange, Means, Passes, Cleaned, FilterableTree, Holding, Accepts, Eval, Extracted;
    var (t', ps) := Extracted(t, 0, |fv|);
    var sat := Condition(fv, k);
    FullLength(fv, k);
    PlanDecides(fv, t, k);
    PruningPreservesMeaning(t, |fv|, sat);
    FilterSound(fv, Cleaned(t'), k);
    if FilterableTree(fv, Cleaned(t')) { FilterableTreeExact(fv, Cleaned(t'), k); }
    assert forall p :: sat(p) == Means(fv, p, k);
  }

  /** No extracted IN list has two equal values. */
  ghost predicate Unrepeated(fv: Schema, t: Tree) {
    var ps := Extracted(t, 0, |fv|).1;
    |ps| <= |fv| && DistinctLists(fv, ps)
  }

  /** The id is recorded under a key that satisfies the tree. */
  ghost predicate Matches(b: Both, t: Tree, id: Id) {
    id in b.m && |b.m[id]| <= |b.fv| && Eval(t, Condition(b.fv, b.m[id]))
  }

  /** The key of the id passes what is left of the tree as a filter. */
  ghost predicate Survives(b: Both, t: Tree, id: Id) {
    id in b.m && |b.m[id]| <= |b.fv| && Eval(Cleaned(Extracted(t, 0, |b.fv|).0), Filtering(b.fv, b.m[id]))
  }

  /** Two values of one extracted IN list equal the key's value in their column. */
  ghost predicate Doubled(fv: Schema, ps: seq<Predicate>, k: MultiKey)
    requires |ps| <= |fv| && |ps| <= |k|
  {
    exists i, x, y | 0 <= i < |ps| && ps[i].PredIn? && 0 <= x < y < |ps[i].vals| ::
      Cmp(fv[i], k[i], ps[i].vals[x]) == 0 && Cmp(fv[i], k[i], ps[i].vals[y]) == 0
  }

  /** The id's key is in two scan ranges, because an extracted IN list names its value twice. */
  ghost predicate NamedTwice(b: Both, t: Tree, id: Id) {
    var ps := Extracted(t, 0, |b.fv|).1;
    id in b.m && |ps| <= |b.fv| && |ps| <= |b.m[id]| && Doubled(b.fv, ps, b.m[id])
  }

  /** Whether, and how often, a scan returns an id. */
  lemma PlanAnswers(b: Both, t: Tree, id: Id)
    requires Agree(b) && Plain(t) && Searchable(b.fv, t)
    ensures id in PlanAnswer(b, t) <==> Matches(b, t, id) && Survives(b, t, id)
    ensures Plannable(b.fv, t) && Matches(b, t, id) ==> Survives(b, t, id)
    ensures id in PlanAnswer(b, t) ==> (multiset(PlanAnswer(b, t))[id] > 1 <==> NamedTwice(b, t, id))
  {
    hide Agree, InRange, FilterableTree, Holding, Answer, Accepts, FullKey, CmpKey, ScanRanges, Eval, Cleaned, Doubled;
    hide Plannable;
    SearchableExact(t, |b.fv|);
    var (t', ps) := Extracted(t, 0, |b.fv|);
    PlainLeaves(t);
    ExtractedShape(t, 0, |b.fv|);
    AnswerCount(b, PlanFilter(t'), ScanRanges(ps), id);
    assert id in PlanAnswer(b, t) <==> multiset(PlanAnswer(b, t))[id] > 0;
    if id in b.m {
      var k := StoredKey(b, id);
      AgreeHome(b, id);
      AgreeKeys(b, Home(b.fv, b.es, b.m[id]));
      FullLength(b.fv, b.m[id]);
      TreeSameForEqualKeys(b.fv, t, k, b.m[id]);
      TreeSameForEqualKeys(b.fv, Cleaned(t'), k, b.m[id]);
      PlanDecidesCondition(b.fv, t, k);
      if Holding(b.fv, ScanRanges(ps), k) > 0 {
        HoldingTwice(b.fv, ps, k);
        DoubledAlike(b.fv, ps, k, b.m[id]);
      }
    }
  }

  lemma DoubledAlike(fv: Schema, ps: seq<Predicate>, k: MultiKey, k': MultiKey)
    requires FullKey(fv, k) && FullKey(fv, k') && CmpKey(fv, k, k') == 0 && |ps| <= |fv|
    ensures |k| == |k'| == |fv|
    ensures Doubled(fv, ps, k) <==> Doubled(fv, ps, k')
  {
    hide CmpKey;
    FullLength(fv, k);
    FullLength(fv, k');
    forall i, v: Value | 0 <= i < |ps| ensures Cmp(fv[i], k[i], v) == 0 <==> Cmp(fv[i], k'[i], v) == 0 {
      EqualColumns(fv, k, k', i);
      CmpCongruent(fv[i], k[i], k'[i], v);
    }
  }

  /** A key in some scan range is in two of them exactly if an extracted IN list names its value twice. */
  lemma HoldingTwice(fv: Schema, ps: seq<Predicate>, k: MultiKey)
    requires ps != [] && Extraction(ps) && |ps| <= |fv| && FullKey(fv, k) && Holding(fv, ScanRanges(ps), k) > 0
    ensures |k| == |fv|
    ensures Holding(fv, ScanRanges(ps), k) > 1 <==> Doubled(fv, ps, k)
  {
    hide InRange, Holding, ScanRanges, InColumn;
    FullLength(fv, k);
    var rs := ScanRanges(ps);
    if Holding(fv, rs, k) > 1 {
      if forall x, y | 0 <= x < y < |rs| :: !(InRange(fv, rs[x], k) && InRange(fv, rs[y], k)) {
        HoldingOne(fv, rs, k);
      }
      var x, y :| 0 <= x < y < |rs| && InRange(fv, rs[x], k) && InRange(fv, rs[y], k);
      TwoRanges(fv, ps, k, x, y);
    }
    if Doubled(fv, ps, k) {
      HoldingSome(fv, rs, k);
      ScanRangesExact(fv, ps, k);
      var x, y := RangesOfTwo(fv, ps, k);
      HoldingTwo(fv, rs, k, x, y);
    }
  }

  lemma FullLength(fv: Schema, k: MultiKey)
    requires FullKey(fv, k)
    ensures |k| == |fv|
  {
  }

  /**
   * The query theorem. A scan returns exactly the ids whose recorded keys satisfy the WHERE clause and pass the
   * residual filter, which changes nothing if its leaves work as filters. It returns an id twice exactly if an
   * extracted IN list names its value twice.
   */
  lemma PlanAnswersQuery(b: Both, t: Tree)
    requires Agree(b) && Plain(t) && Searchable(b.fv, t)
    ensures forall id :: id in PlanAnswer(b, t) <==> Matches(b, t, id) && Survives(b, t, id)
    ensures Plannable(b.fv, t) ==> forall id :: id in PlanAnswer(b, t) <==> Matches(b, t, id)
    ensures NoRepeats(PlanAnswer(b, t)) <==> forall id | id in PlanAnswer(b, t) :: !NamedTwice(b, t, id)
    ensures Unrepeated(b.fv, t) ==> NoRepeats(PlanAnswer(b, t))
  {
    hide Agree, Extracted, Plain, Plannable, Unrepeated, Answer, Matches, Survives, NamedTwice, ScanRanges, NoRepeats,
         PlanAnswer;
    var s := PlanAnswer(b, t);
    forall id
      ensures id in s <==> Matches(b, t, id) && Survives(b, t, id)
      ensures Plannable(b.fv, t) ==> (id in s <==> Matches(b, t, id))
      ensures id in s ==> (multiset(s)[id] > 1 <==> NamedTwice(b, t, id))
    {
      PlanAnswers(b, t, id);
    }
    if NoRepeats(s) {
      forall id | id in s ensures !NamedTwice(b, t, id) { CountOnce(s, id); }
    }
    if forall id | id in s :: !NamedTwice(b, t, id) {
      forall id ensures multiset(s)[id] <= 1 {
        if id !in s { assert multiset(s)[id] == 0; }
      }
      CountedOnce(s);
    }
    if Unrepeated(b.fv, t) {
      forall id | id in s ensures !NamedTwice(b, t, id) { UnrepeatedOnce(b, t, id); }
    }
  }

  lemma UnrepeatedOnce(b: Both, t: Tree, id: Id)
    requires Agree(b) && Unrepeated(b.fv, t)
    ensures !NamedTwice(b, t, id)
  {
    hide Agree, Extracted, CmpKey, Cmp;
    var ps := Extracted(t, 0, |b.fv|).1;
    if NamedTwice(b, t, id) {
      AgreeHome(b, id);
      var k := b.m[id];
      FullLength(b.fv, k);
      var i, x, y :| 0 <= i < |ps| && ps[i].PredIn? && 0 <= x < y < |ps[i].vals| &&
        Cmp(b.fv[i], k[i], ps[i].vals[x]) == 0 && Cmp(b.fv[i], k[i], ps[i].vals[y]) == 0;
      assert Storable(k[i]);
      OneOfTwo(b.fv[i], k[i], ps[i].vals[x], ps[i].vals[y]);
    }
  }

  /**
   * A residual IN, or IS NULL, loses ids: a > 0 AND b IN (1, 2) holds of the key (1, 1), and a > 0 AND b IS NULL of
   * (1, NULL), and no scan returns an id recorded under them.
   */
  lemma ResidualFails(b: Both, id: Id)
    requires Agree(b) && b.fv == [CmpInt, CmpInt] && id in b.m
    ensures var t := Logic(OpAnd, Leaf(PredRange(0, Int32(0), true, Inf, false), false),
                           Leaf(PredIn(1, [Int32(1), Int32(2)]), false), false);
            && Plain(t) && Searchable(b.fv, t)
            && (b.m[id] == [Int32(1), Int32(1)] ==> Matches(b, t, id) && id !in PlanAnswer(b, t))
    ensures var t := Logic(OpAnd, Leaf(PredRange(0, Int32(0), true, Inf, false), false), Leaf(PredIsNull(1), false),
            false);
            && Plain(t) && Searchable(b.fv, t)
            && (b.m[id] == [Int32(1), Null] ==> Matches(b, t, id) && id !in PlanAnswer(b, t))
  {
    hide Agree, Answer;
    var vals := [Int32(1), Int32(2)];
    assert Cmp(CmpInt, Int32(1), vals[0]) == 0 && Cmp(CmpInt, Int32(1), vals[1]) != 0;
    ResidualLoses(b, PredIn(1, vals), id);
    ResidualLoses(b, PredIsNull(1), id);
  }

  lemma ResidualLoses(b: Both, p: Predicate, id: Id)
    requires Agree(b) && b.fv == [CmpInt, CmpInt] && id in b.m && p.propId == 1
    ensures var t := Logic(OpAnd, Leaf(PredRange(0, Int32(0), true, Inf, false), false), Leaf(p, false), false);
            && Plain(t) && Searchable(b.fv, t)
            && (|b.m[id]| == 2 && b.m[id][0] == Int32(1) && Means(b.fv, p, b.m[id]) && !Passes(b.fv, p, b.m[id]) ==>
                Matches(b, t, id) && id !in PlanAnswer(b, t))
  {
    hide Agree, PlanAnswer, Passes;
    var range := PredRange(0, Int32(0), true, Inf, false);
    var t := Logic(OpAnd, Leaf(range, false), Leaf(p, false), false);
    assert OnAndPath(t.left, 0) && OnAndPath(t, 0);
    var t' := Logic(OpAnd, Leaf(range, true), Leaf(p, false), false);
    assert Marked(t, 0) == (t', Some(range));
    assert Extracted(t, 0, 2) == (t', [range]) && Cleaned(t') == Leaf(p, false);
    var k := b.m[id];
    if |k| == 2 && k[0] == Int32(1) {
      assert Means(b.fv, range, k);
      assert Condition(b.fv, k)(range) && Condition(b.fv, k)(p) == Means(b.fv, p, k);
      assert Filtering(b.fv, k)(p) == Passes(b.fv, p, k);
      assert Eval(Leaf(p, false), Filtering(b.fv, k)) == Passes(b.fv, p, k);
      assert Eval(t.left, Condition(b.fv, k)) && Eval(t.right, Condition(b.fv, k)) == Means(b.fv, p, k);
    }
    PlanAnswers(b, t, id);
  }

  lemma CountedOnce(s: seq<Id>)
    requires forall x :: multiset(s)[x] <= 1
    ensures NoRepeats(s)
  {
    forall i, j | 0 <= i < j < |s| ensures s[i] != s[j] {
      assert s == s[..j] + [s[j]] + s[j + 1..];
      assert s[i] == s[..j][i];
      assert multiset(s)[s[j]] == multiset(s[..j])[s[j]] + 1 + multiset(s[j + 1..])[s[j]];
    }
  }

  /** Two ranges hold a key only if two values of an IN list equal its value. */
  lemma TwoRanges(fv: Schema, ps: seq<Predicate>, k: MultiKey, a: nat, b: nat)
    requires ps != [] && Extraction(ps) && |ps| <= |fv| == |k| && a < b < |ScanRanges(ps)|
    requires InRange(fv, ScanRanges(ps)[a], k) && InRange(fv, ScanRanges(ps)[b], k)
    ensures Doubled(fv, ps, k)
  {
    hide Product, Rank, InRange, CmpKey, Size, ScanRanges;
    var keys := Columned(ps);
    ProductSize(keys, []);
    assert |ScanRanges(ps)| == Size(keys) by { ScanRangesSize(ps); }
    var d := ChoiceAt(keys, a);
    var e := ChoiceAt(keys, b);
    ScanRangeAt(fv, ps, d, k);
    ScanRangeAt(fv, ps, e, k);
    assert d != e;
    var i: nat :| i < |ps| && d[i] != e[i];
    var x, y := if d[i] < e[i] then d[i] else e[i], if d[i] < e[i] then e[i] else d[i];
    assert y < |keys[i]| && ps[i].PredIn?;
    assert Cmp(fv[i], k[i], ps[i].vals[x]) == 0 && Cmp(fv[i], k[i], ps[i].vals[y]) == 0;
  }

  lemma ScanRangesSize(ps: seq<Predicate>)
    requires ps != []
    ensures |ScanRanges(ps)| == Size(Columned(ps))
  {
    ProductSize(Columned(ps), []);
  }

  /** A choice that leads to a key still does with another alternative that equals its value. */
  lemma ChoiceStill(fv: Schema, ps: seq<Predicate>, k: MultiKey, c: seq<nat>, i: nat, x: nat)
    requires |c| == |ps| <= |fv| == |k| && i < |ps| && ps[i].PredIn? && x < |ps[i].vals|
    requires forall j | 0 <= j < |ps| ::
             c[j] < |Alternatives(ps[j])| && InColumn(fv[j], Alternatives(ps[j])[c[j]], k[j])
    requires Cmp(fv[i], k[i], ps[i].vals[x]) == 0
    ensures Choice(Columned(ps), c[i := x])
    ensures forall j | 0 <= j < |ps| :: InColumn(fv[j], Alternatives(ps[j])[c[i := x][j]], k[j])
  {
    hide Cmp;
    assert InColumn(fv[i], Alternatives(ps[i])[x], k[i]);
  }

  /** The two ranges that a value named twice leads to. */
  lemma RangesOfTwo(fv: Schema, ps: seq<Predicate>, k: MultiKey) returns (a: nat, b: nat)
    requires ps != [] && Extraction(ps) && |ps| <= |fv| == |k| && Doubled(fv, ps, k)
    requires forall p | p in ps :: Means(fv, p, k)
    ensures a < b < |ScanRanges(ps)| && InRange(fv, ScanRanges(ps)[a], k) && InRange(fv, ScanRanges(ps)[b], k)
  {
    hide Product, Rank, InRange, CmpKey, Size, ScanRanges, Means, Alternatives, InColumn, Cmp, Extraction, Choice,
         Columned;
    var i, x, y :| 0 <= i < |ps| && ps[i].PredIn? && 0 <= x < y < |ps[i].vals| &&
      Cmp(fv[i], k[i], ps[i].vals[x]) == 0 && Cmp(fv[i], k[i], ps[i].vals[y]) == 0;
    var c := ChoiceFor(fv, ps, k, |ps|);
    ChoiceStill(fv, ps, k, c, i, x);
    ChoiceStill(fv, ps, k, c, i, y);
    var d, e := c[i := x], c[i := y];
    assert d[..i] == e[..i];
    RankLexicographic(Columned(ps), d, e, i);
    ScanRangeAt(fv, ps, d, k);
    ScanRangeAt(fv, ps, e, k);
    a, b := Rank(Columned(ps), d), Rank(Columned(ps), e);
  }

  lemma {:induction false} HoldingTwo(fv: Schema, rs: seq<Range>, k: MultiKey, a: nat, b: nat)
    requires a < b < |rs| && InRange(fv, rs[a], k) && InRange(fv, rs[b], k)
    ensures Holding(fv, rs, k) > 1
  {
    hide InRange;
    if a == 0 {
      assert rs[1..][b - 1] == rs[b];
      HoldingSome(fv, rs[1..], k);
    } else {
      HoldingTwo(fv, rs[1..], k, a - 1, b - 1);
    }
  }
}
