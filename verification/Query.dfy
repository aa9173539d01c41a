/** Query trees, their meaning as WHERE clauses, and their meaning as filters (src/query.h, src/index.c). */
module Queries {
  import opened Values
  import opened Orders
  import opened Keys

  datatype Predicate =
    | PredEq(propId: int, v: Value)
    | PredRange(propId: int, min: Value, minExclusive: bool, max: Value, maxExclusive: bool)
    | PredIn(propId: int, vals: seq<Value>)
    | PredIsNull(propId: int)

  datatype Operator = OpAnd | OpOr

  /** A query tree. A pass-through node counts as true. */
  datatype Tree =
    | Leaf(pred: Predicate, passthru: bool)
    | Logic(op: Operator, left: Tree, right: Tree, passthru: bool)

  // ---------------------------------------------------------------- predicates

  /** c, the comparison of a value with the bounds' values, is within the bounds. */
  predicate Within(minc: int, minExclusive: bool, maxc: int, maxExclusive: bool) {
    !Before(minc, minExclusive) && Before(maxc, !maxExclusive)
  }

  /** What a predicate of a WHERE clause asks of a key. */
  predicate Means(fv: Schema, p: Predicate, k: MultiKey)
    requires |k| <= |fv|
  {
    0 <= p.propId < |k| &&
    var f, x := fv[p.propId], k[p.propId];
    match p
    case PredEq(_, v) => Cmp(f, x, v) == 0
    case PredRange(_, min, minEx, max, maxEx) => Within(Cmp(f, x, min), minEx, Cmp(f, x, max), maxEx)
    case PredIn(_, vals) => exists i | 0 <= i < |vals| :: Cmp(f, x, vals[i]) == 0
    case PredIsNull(_) => x.Null?
  }

  /** What evalPredicate answers. An IN list is tested as "equal to all", and IS NULL is not supported. */
  predicate Passes(fv: Schema, p: Predicate, k: MultiKey)
    requires |k| <= |fv|
  {
    0 <= p.propId < |k| &&
    var f, x := fv[p.propId], k[p.propId];
    match p
    case PredEq(_, v) => Cmp(f, x, v) == 0
    case PredRange(_, min, minEx, max, maxEx) => Within(Cmp(f, x, min), minEx, Cmp(f, x, max), maxEx)
    case PredIn(_, vals) => vals != [] && forall i | 0 <= i < |vals| :: Cmp(f, x, vals[i]) == 0
    case PredIsNull(_) => false
  }

  /** evalPredicate. */
  method EvalPredicate(fv: Schema, p: Predicate, mk: MultiKey) returns (ok: bool)
    requires |mk| <= |fv|
    ensures ok == Passes(fv, p, mk)
  {
    if p.propId < 0 || p.propId >= |mk| {
      return false;
    }
    var f, x := fv[p.propId], mk[p.propId];
    match p
    case PredEq(_, v) =>
      return 0 == Cmp(f, x, v);
    case PredIn(_, vals) =>
      for i := 0 to |vals|
        invariant forall j | 0 <= j < i :: Cmp(f, x, vals[j]) == 0
      {
        if Cmp(f, x, vals[i]) != 0 {
          return false;
        }
      }
      return |vals| > 0;
    case PredRange(_, min, minEx, max, maxEx) =>
      var minc := Cmp(f, x, min);
      if minc < 0 || (minc == 0 && minEx) {
        return false;
      }
      var maxc := Cmp(f, x, max);
      if maxc > 0 || (maxc == 0 && maxEx) {
        return false;
      }
      return true;
    case PredIsNull(_) =>
      return false;
  }

  /** The predicates a filter answers as the WHERE clause means them. */
  predicate Filterable(fv: Schema, p: Predicate) {
    match p
    case PredEq(_, _) => true
    case PredRange(_, _, _, _, _) => true
    case PredIn(i, vals) =>
      0 <= i < |fv| ==> forall x, y | 0 <= x < |vals| && 0 <= y < |vals| :: Cmp(fv[i], vals[x], vals[y]) == 0
    case PredIsNull(i) => !(0 <= i < |fv|)
  }

  /** The key with one value of interest and NULL elsewhere. */
  function Probe(fv: Schema, i: nat, v: Value): MultiKey {
    seq(|fv|, j => if j == i then v else Null)
  }

  /**
   * A predicate works as a filter exactly when it is EQ, a range, an IN whose values are all equal,
   * or about a column the index does not have.
   */
  lemma FilterableExact(fv: Schema, p: Predicate)
    requires p.PredIn? ==> forall i | 0 <= i < |p.vals| :: Storable(p.vals[i])
    ensures Filterable(fv, p) <==> forall k | FullKey(fv, k) :: Passes(fv, p, k) == Means(fv, p, k)
  {
    if Filterable(fv, p) {
      forall k | FullKey(fv, k) ensures Passes(fv, p, k) == Means(fv, p, k) {
        FilterableMeans(fv, p, k);
      }
    } else if p.PredIn? {
      var f, vals := fv[p.propId], p.vals;
      var x, y :| 0 <= x < |vals| && 0 <= y < |vals| && Cmp(f, vals[x], vals[y]) != 0;
      var k := Probe(fv, p.propId, vals[x]);
      CmpTotalPreorder(f, vals[x], vals[x]);
      assert FullKey(fv, k) && k[p.propId] == vals[x];
      assert Means(fv, p, k) && !Passes(fv, p, k);
    } else {
      var k := Probe(fv, p.propId, Null);
      assert FullKey(fv, k) && Means(fv, p, k) && !Passes(fv, p, k);
    }
  }

  /** A member of an IN list fails the list as a filter, and NULL fails IS NULL. */
  lemma FiltersThatFail()
    ensures var p, k := PredIn(0, [Int32(1), Int32(2)]), [Int32(1)];
            Means([CmpInt], p, k) && !Passes([CmpInt], p, k)
    ensures Means([CmpInt], PredIsNull(0), [Null]) && !Passes([CmpInt], PredIsNull(0), [Null])
  {
    var vals := [Int32(1), Int32(2)];
    assert Cmp(CmpInt, Int32(1), vals[0]) == 0 && Cmp(CmpInt, Int32(1), vals[1]) != 0;
  }

  lemma FilterableMeans(fv: Schema, p: Predicate, k: MultiKey)
    requires Filterable(fv, p) && FullKey(fv, k)
    requires p.PredIn? ==> forall i | 0 <= i < |p.vals| :: Storable(p.vals[i])
    ensures Passes(fv, p, k) == Means(fv, p, k)
  {
    if p.PredIn? && Passes(fv, p, k) {
      assert Cmp(fv[p.propId], k[p.propId], p.vals[0]) == 0;
    } else if p.PredIn? && Means(fv, p, k) {
      var f, x, vals := fv[p.propId], k[p.propId], p.vals;
      var i :| 0 <= i < |vals| && Cmp(f, x, vals[i]) == 0;
      forall j | 0 <= j < |vals| ensures Cmp(f, x, vals[j]) == 0 {
        CmpCongruent(f, x, vals[i], vals[j]);
      }
    }
  }

  /** Equal stored values compare alike with any bound. */
  lemma CmpCongruent(f: CmpFunc, a: Value, b: Value, bound: Value)
    requires Storable(a) && Storable(b) && Cmp(f, a, b) == 0
    ensures Cmp(f, a, bound) < 0 <==> Cmp(f, b, bound) < 0
    ensures Cmp(f, a, bound) == 0 <==> Cmp(f, b, bound) == 0
    ensures a.Null? <==> b.Null?
  {
    CmpTotalPreorder(f, a, b);
    CmpMonotone(f, a, b, bound);
    CmpMonotone(f, b, a, bound);
  }

  /** Equal full keys are equal column by column. */
  lemma {:induction false} EqualColumns(fv: Schema, a: MultiKey, b: MultiKey, i: nat)
    requires FullKey(fv, a) && FullKey(fv, b) && CmpKey(fv, a, b) == 0 && i < |fv|
    ensures Storable(a[i]) && Storable(b[i]) && Cmp(fv[i], a[i], b[i]) == 0
  {
    if i > 0 {
      EqualColumns(fv[1..], a[1..], b[1..], i - 1);
    }
  }

  /** Keys that are equal under the index order satisfy the same predicates, as conditions and as filters. */
  lemma SameForEqualKeys(fv: Schema, p: Predicate, a: MultiKey, b: MultiKey)
    requires FullKey(fv, a) && FullKey(fv, b) && CmpKey(fv, a, b) == 0
    ensures Means(fv, p, a) == Means(fv, p, b) && Passes(fv, p, a) == Passes(fv, p, b)
  {
    if 0 <= p.propId < |fv| {
      var f, x, y := fv[p.propId], a[p.propId], b[p.propId];
      EqualColumns(fv, a, b, p.propId);
      match p
      case PredEq(_, v) => CmpCongruent(f, x, y, v);
      case PredRange(_, min, _, max, _) => CmpCongruent(f, x, y, min); CmpCongruent(f, x, y, max);
      case PredIn(_, vals) =>
        forall i | 0 <= i < |vals| ensures Cmp(f, x, vals[i]) == 0 <==> Cmp(f, y, vals[i]) == 0 {
          CmpCongruent(f, x, y, vals[i]);
        }
      case PredIsNull(_) => CmpCongruent(f, x, y, Null);
    }
  }

  // ---------------------------------------------------------------- trees

  /** Which predicates hold. */
  type Truth = Predicate -> bool

  ghost function Condition(fv: Schema, k: MultiKey): Truth
    requires |k| <= |fv|
  {
    p => Means(fv, p, k)
  }

  ghost function Filtering(fv: Schema, k: MultiKey): Truth
    requires |k| <= |fv|
  {
    p => Passes(fv, p, k)
  }

  /** The value of a tree, its pass-through nodes being true. */
  ghost predicate Eval(t: Tree, sat: Truth) {
    t.passthru ||
    match t
    case Leaf(p, _) => sat(p)
    case Logic(OpAnd, l, r, _) => Eval(l, sat) && Eval(r, sat)
    case Logic(OpOr, l, r, _) => Eval(l, sat) || Eval(r, sat)
  }

  function Leaves(t: Tree): (n: nat)
    ensures n > 0
  {
    match t
    case Leaf(_, _) => 1
    case Logic(_, l, r, _) => Leaves(l) + Leaves(r)
  }

  /** The leaves that are not pass-through. */
  ghost function OpenLeaves(t: Tree): nat {
    match t
    case Leaf(_, pass) => if pass then 0 else 1
    case Logic(_, l, r, _) => OpenLeaves(l) + OpenLeaves(r)
  }

  /** A freshly parsed tree: no node is pass-through. */
  ghost predicate Plain(t: Tree) {
    !t.passthru && (t.Logic? ==> Plain(t.left) && Plain(t.right))
  }

  /** Pass-through nodes lie on AND paths only. */
  ghost predicate Prunable(t: Tree) {
    t.Logic? ==> if t.op.OpOr? then Plain(t.left) && Plain(t.right) else Prunable(t.left) && Prunable(t.right)
  }

  lemma {:induction false} PlainLeaves(t: Tree)
    requires Plain(t)
    ensures OpenLeaves(t) == Leaves(t) && Prunable(t)
  {
    if t.Logic? {
      PlainLeaves(t.left);
      PlainLeaves(t.right);
    }
  }

  // ---------------------------------------------------------------- extraction

  /** What getPredicate does: the first predicate on the column along AND paths, and the tree with it passed through. */
  ghost function Marked(t: Tree, propId: int): (r: (Tree, Option<Predicate>)) {
    if t.passthru then (t, None)
    else
      match t
      case Leaf(p, _) => if p.propId == propId then (Leaf(p, true), Some(p)) else (t, None)
      case Logic(OpOr, _, _, _) => (t, None)
      case Logic(OpAnd, l, r, _) =>
        var (l', p) := Marked(l, propId);
        if p.Some? then (Logic(OpAnd, l', r, false), p)
        else
          var (r', p') := Marked(r, propId);
          (Logic(OpAnd, l', r', false), p')
  }

  /** Extraction takes one condition out of the tree: the tree was that condition and what is left of it. */
  lemma {:induction false} MarkedMeaning(t: Tree, propId: int, sat: Truth)
    requires Prunable(t)
    ensures var (t', p) := Marked(t, propId);
            && Prunable(t')
            && (Eval(t, sat) <==> (p.Some? ==> sat(p.value)) && Eval(t', sat))
            && (p.Some? ==> p.value.propId == propId && OpenLeaves(t') < OpenLeaves(t))
            && (p.None? ==> t' == t)
  {
    if !t.passthru && t.Logic? && t.op.OpAnd? {
      MarkedMeaning(t.left, propId, sat);
      MarkedMeaning(t.right, propId, sat);
    }
  }

  /**
   * The plan's extraction loop: one predicate for each leading column, up to the first column without one or a
   * range.
   */
  ghost function Extracted(t: Tree, propId: nat, n: nat): (r: (Tree, seq<Predicate>))
    decreases n - propId
  {
    if propId >= n then (t, [])
    else
      match Marked(t, propId)
      case (_, None) => (t, [])
      case (t', Some(p)) =>
        if p.PredRange? then (t', [p])
        else var (t'', ps) := Extracted(t', propId + 1, n); (t'', [p] + ps)
  }

  /**
   * The extracted predicates are about the leading columns in order, only the last may be a range,
   * and there are at most as many as the tree has leaves.
   */
  lemma {:induction false} ExtractedShape(t: Tree, propId: nat, n: nat)
    requires Prunable(t)
    ensures var (t', ps) := Extracted(t, propId, n);
            && |ps| <= OpenLeaves(t) && (|ps| > 0 ==> propId + |ps| <= n)
            && Prunable(t')
            && forall i | 0 <= i < |ps| :: ps[i].propId == propId + i && (i < |ps| - 1 ==> !ps[i].PredRange?)
    decreases n - propId
  {
    if propId < n {
      MarkedMeaning(t, propId, _ => true);
      var (t', p) := Marked(t, propId);
      if p.Some? && !p.value.PredRange? {
        ExtractedShape(t', propId + 1, n);
      }
    }
  }

  /** The tree is the conjunction of the extracted predicates and what is left of it. */
  lemma {:induction false} ExtractedMeaning(t: Tree, propId: nat, n: nat, sat: Truth)
    requires Prunable(t)
    ensures var (t', ps) := Extracted(t, propId, n);
            Eval(t, sat) <==> (forall p | p in ps :: sat(p)) && Eval(t', sat)
    decreases n - propId
  {
    if propId < n {
      MarkedMeaning(t, propId, sat);
      var (t', p) := Marked(t, propId);
      if p.Some? && !p.value.PredRange? {
        ExtractedMeaning(t', propId + 1, n, sat);
        var ps := Extracted(t', propId + 1, n).1;
        assert forall q :: q in [p.value] + ps <==> q == p.value || q in ps;
      }
    }
  }

  // ---------------------------------------------------------------- what extraction finds

  /** Some leaf on the column is reached through AND nodes only, nothing on the way being passed through. */
  ghost predicate OnAndPath(t: Tree, propId: int) {
    !t.passthru &&
    match t
    case Leaf(p, _) => p.propId == propId
    case Logic(op, l, r, _) => op == OpAnd && (OnAndPath(l, propId) || OnAndPath(r, propId))
  }

  /** The leaves that are reached that way, from left to right. */
  ghost function AndLeaves(t: Tree): seq<Predicate> {
    if t.passthru then []
    else
      match t
      case Leaf(p, _) => [p]
      case Logic(op, l, r, _) => if op == OpAnd then AndLeaves(l) + AndLeaves(r) else []
  }

  /** p is the first about the column. */
  ghost predicate FirstAbout(ps: seq<Predicate>, propId: int, p: Predicate) {
    p.propId == propId && exists i | 0 <= i < |ps| :: ps[i] == p && forall j | 0 <= j < i :: ps[j].propId != propId
  }

  /** A predicate is found exactly if there is such a leaf, and it is the first of them on the column. */
  lemma {:induction false} MarkedFinds(t: Tree, propId: int)
    ensures var (t', p) := Marked(t, propId);
            && (p.Some? <==> OnAndPath(t, propId))
            && (p.Some? ==> p.value.propId == propId && FirstAbout(AndLeaves(t), propId, p.value))
            && (p.None? ==> t' == t && forall q | q in AndLeaves(t) :: q.propId != propId)
  {
    if !t.passthru && t.Logic? && t.op.OpAnd? {
      MarkedFinds(t.left, propId);
      MarkedFinds(t.right, propId);
      var a, b := AndLeaves(t.left), AndLeaves(t.right);
      var p, q := Marked(t.left, propId).1, Marked(t.right, propId).1;
      if p.Some? {
        FirstOfBoth(a, b, propId, p.value);
      } else if q.Some? {
        FirstOfBoth(a, b, propId, q.value);
      }
    } else if !t.passthru && t.Leaf? {
      assert AndLeaves(t)[0] == t.pred;
    }
  }

  /** The first predicate of two lists is the first of the first one, if that has any. */
  lemma FirstOfBoth(a: seq<Predicate>, b: seq<Predicate>, propId: int, p: Predicate)
    requires FirstAbout(a, propId, p) || ((forall q | q in a :: q.propId != propId) && FirstAbout(b, propId, p))
    ensures FirstAbout(a + b, propId, p)
  {
    if FirstAbout(a, propId, p) {
      var i: nat :| i < |a| && a[i] == p && forall j | 0 <= j < i :: a[j].propId != propId;
      assert (a + b)[i] == p;
    } else {
      var i: nat :| i < |b| && b[i] == p && forall j | 0 <= j < i :: b[j].propId != propId;
      assert (a + b)[|a| + i] == p;
    }
  }

  /** Marking for one column changes nothing for the others. */
  lemma {:induction false} MarkedOthers(t: Tree, propId: int, other: int)
    requires other != propId
    ensures OnAndPath(Marked(t, propId).0, other) == OnAndPath(t, other)
  {
    if !t.passthru && t.Logic? && t.op.OpAnd? {
      MarkedOthers(t.left, propId, other);
      MarkedOthers(t.right, propId, other);
    }
  }

  /**
   * From a column on, one predicate was taken for each of the next columns that has one, up to the last column of the
   * index, a range, or a column without one.
   */
  ghost predicate Exhausted(t: Tree, propId: nat, n: nat, ps: seq<Predicate>) {
    && propId + |ps| <= n
    && (forall i | 0 <= i < |ps| :: ps[i].propId == propId + i && OnAndPath(t, propId + i))
    && (forall i | 0 <= i < |ps| - 1 :: !ps[i].PredRange?)
    && (propId + |ps| == n || (ps != [] && ps[|ps| - 1].PredRange?) || !OnAndPath(t, propId + |ps|))
  }

  lemma {:induction false} ExtractedExhausts(t: Tree, propId: nat, n: nat)
    requires Prunable(t) && propId <= n
    ensures Exhausted(t, propId, n, Extracted(t, propId, n).1)
    decreases n - propId
  {
    if propId < n {
      MarkedFinds(t, propId);
      MarkedMeaning(t, propId, _ => true);
      var (t', p) := Marked(t, propId);
      if p.Some? && !p.value.PredRange? {
        ExtractedExhausts(t', propId + 1, n);
        var ps := Extracted(t', propId + 1, n).1;
        forall c: nat | c > propId ensures OnAndPath(t', c) == OnAndPath(t, c) { MarkedOthers(t, propId, c); }
        ExhaustedOneMore(t, t', propId, n, p.value, ps);
      }
    }
  }

  lemma ExhaustedOneMore(t: Tree, t': Tree, propId: nat, n: nat, p: Predicate, ps: seq<Predicate>)
    requires Exhausted(t', propId + 1, n, ps) && p.propId == propId && OnAndPath(t, propId) && !p.PredRange?
    requires forall c: nat | c > propId :: OnAndPath(t', c) == OnAndPath(t, c)
    ensures Exhausted(t, propId, n, [p] + ps)
  {
    var all := [p] + ps;
    forall i | 0 <= i < |all| ensures all[i].propId == propId + i && OnAndPath(t, propId + i) {
      if i > 0 { assert all[i] == ps[i - 1] && OnAndPath(t', propId + 1 + (i - 1)); }
    }
    forall i | 0 <= i < |all| - 1 ensures !all[i].PredRange? {
      if i > 0 { assert all[i] == ps[i - 1]; }
    }
    if ps != [] { assert all[|all| - 1] == ps[|ps| - 1]; }
    assert OnAndPath(t', propId + 1 + |ps|) == OnAndPath(t, propId + |all|);
  }

  /** A WHERE tree gives ranges to scan: it has a predicate on the first column, on an AND path. */
  ghost predicate Searchable(fv: Schema, t: Tree) {
    |fv| > 0 && OnAndPath(t, 0)
  }

  lemma SearchableExact(t: Tree, n: nat)
    ensures Extracted(t, 0, n).1 != [] <==> n > 0 && OnAndPath(t, 0)
  {
    MarkedFinds(t, 0);
  }

  // ---------------------------------------------------------------- cleaning

  /** What cleanQueryNode leaves of a tree. */
  ghost function Cleaned(t: Tree): Tree {
    if t.passthru || t.Leaf? then t
    else
      var l, r := Cleaned(t.left), Cleaned(t.right);
      if l.passthru && r.passthru then Logic(t.op, l, r, true)
      else if l.passthru then r
      else if r.passthru then l
      else Logic(t.op, l, r, false)
  }

  lemma {:induction false} CleanedPlain(t: Tree)
    requires Plain(t)
    ensures Cleaned(t) == t
  {
    if t.Logic? {
      CleanedPlain(t.left);
      CleanedPlain(t.right);
    }
  }

  /** Cleaning preserves meaning, because no pass-through node lies below an OR. */
  lemma {:induction false} CleanedMeaning(t: Tree, sat: Truth)
    requires Prunable(t)
    ensures Eval(Cleaned(t), sat) == Eval(t, sat)
  {
    if !t.passthru && t.Logic? {
      if t.op.OpOr? {
        CleanedPlain(t);
      } else {
        CleanedMeaning(t.left, sat);
        CleanedMeaning(t.right, sat);
      }
    }
  }

  /** Without that, cleaning would not preserve meaning: the OR of a pass-through node and a false one is true. */
  lemma CleaningNeedsPrunable(p: Predicate)
    ensures var t := Logic(OpOr, Leaf(p, true), Leaf(p, false), false);
            !Prunable(t) && Eval(t, _ => false) && !Eval(Cleaned(t), _ => false)
  {
  }

  /** No pass-through node is left below a cleaned root. */
  lemma {:induction false} CleanedClean(t: Tree)
    ensures Cleaned(t).passthru || t.passthru || Plain(Cleaned(t))
    requires Prunable(t)
  {
    if !t.passthru && t.Logic? {
      if t.op.OpOr? {
        CleanedPlain(t);
      } else {
        CleanedClean(t.left);
        CleanedClean(t.right);
      }
    }
  }

  /** Pruning as a whole: the WHERE clause is the extracted predicates and the cleaned rest of the tree. */
  lemma PruningPreservesMeaning(t: Tree, n: nat, sat: Truth)
    requires Plain(t)
    ensures var (t', ps) := Extracted(t, 0, n);
            Eval(t, sat) <==> (forall p | p in ps :: sat(p)) && Eval(Cleaned(t'), sat)
  {
    PlainLeaves(t);
    ExtractedShape(t, 0, n);
    ExtractedMeaning(t, 0, n, sat);
    CleanedMeaning(Extracted(t, 0, n).0, sat);
  }

  // ---------------------------------------------------------------- trees as filters

  /** Every leaf that evalKey can reach works as a filter. */
  ghost predicate FilterableTree(fv: Schema, t: Tree) {
    t.passthru ||
    match t
    case Leaf(p, _) => Filterable(fv, p) && (p.PredIn? ==> forall i | 0 <= i < |p.vals| :: Storable(p.vals[i]))
    case Logic(_, l, r, _) => FilterableTree(fv, l) && FilterableTree(fv, r)
  }

  lemma {:induction false} FilterableTreeExact(fv: Schema, t: Tree, k: MultiKey)
    requires FilterableTree(fv, t) && FullKey(fv, k)
    ensures Eval(t, Filtering(fv, k)) == Eval(t, Condition(fv, k))
  {
    if !t.passthru {
      match t
      case Leaf(p, _) => FilterableMeans(fv, p, k);
      case Logic(_, l, r, _) =>
        FilterableTreeExact(fv, l, k);
        FilterableTreeExact(fv, r, k);
    }
  }

  /** A filter never lets through what the WHERE clause rules out, whatever its leaves are. */
  lemma {:induction false} FilterSound(fv: Schema, t: Tree, k: MultiKey)
    requires |k| <= |fv|
    ensures Eval(t, Filtering(fv, k)) ==> Eval(t, Condition(fv, k))
  {
    if !t.passthru {
      match t
      case Leaf(p, _) => PassesMeans(fv, p, k);
      case Logic(_, l, r, _) =>
        FilterSound(fv, l, k);
        FilterSound(fv, r, k);
    }
  }

  lemma PassesMeans(fv: Schema, p: Predicate, k: MultiKey)
    requires |k| <= |fv|
    ensures Passes(fv, p, k) ==> Means(fv, p, k)
  {
    if p.PredIn? && Passes(fv, p, k) {
      assert Cmp(fv[p.propId], k[p.propId], p.vals[0]) == 0;
    }
  }

  lemma {:induction false} EvalSame(t: Tree, sat: Truth, sat': Truth)
    requires forall p :: sat(p) == sat'(p)
    ensures Eval(t, sat) == Eval(t, sat')
  {
    if !t.passthru && t.Logic? {
      EvalSame(t.left, sat, sat');
      EvalSame(t.right, sat, sat');
    }
  }

  /** Equal keys satisfy the same trees. */
  lemma TreeSameForEqualKeys(fv: Schema, t: Tree, a: MultiKey, b: MultiKey)
    requires FullKey(fv, a) && FullKey(fv, b) && CmpKey(fv, a, b) == 0
    ensures Eval(t, Condition(fv, a)) == Eval(t, Condition(fv, b))
    ensures Eval(t, Filtering(fv, a)) == Eval(t, Filtering(fv, b))
  {
    forall p ensures Means(fv, p, a) == Means(fv, p, b) && Passes(fv, p, a) == Passes(fv, p, b) {
      SameForEqualKeys(fv, p, a, b);
    }
    EvalSame(t, Condition(fv, a), Condition(fv, b));
    EvalSame(t, Filtering(fv, a), Filtering(fv, b));
  }
}
