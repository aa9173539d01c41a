/** Scan ranges and the product of the leading columns' alternatives (src/query_plan.h, src/query_plan.c). */
module Ranges {
  import opened Values
  import opened Keys
  import opened Queries

  /** One alternative for one column. */
  datatype RangeKey = RangeKey(min: Value, max: Value, minExclusive: bool, maxExclusive: bool)

  /** A range of the index: keys between two keys that may be shorter than the full ones. */
  datatype Range = Range(min: MultiKey, max: MultiKey, minExclusive: bool, maxExclusive: bool)

  /** One alternative for each of the leading columns. */
  type Combo = seq<RangeKey>

  predicate InColumn(f: CmpFunc, rk: RangeKey, x: Value) {
    Within(Cmp(f, x, rk.min), rk.minExclusive, Cmp(f, x, rk.max), rk.maxExclusive)
  }

  predicate InRange(fv: Schema, r: Range, k: MultiKey) {
    Within(CmpKey(fv, k, r.min), r.minExclusive, CmpKey(fv, k, r.max), r.maxExclusive)
  }

  // ---------------------------------------------------------------- one predicate

  function Point(v: Value): RangeKey { RangeKey(v, v, false, false) }

  /** The alternatives a predicate gives for its column. */
  function Alternatives(p: Predicate): seq<RangeKey> {
    match p
    case PredEq(_, v) => [Point(v)]
    case PredRange(_, min, minEx, max, maxEx) => [RangeKey(min, max, minEx, maxEx)]
    case PredIn(_, vals) => seq(|vals|, i requires 0 <= i < |vals| => Point(vals[i]))
    case PredIsNull(_) => [Point(Null)]
  }

  /** The alternatives cover exactly the values the predicate means. */
  lemma AlternativesExact(fv: Schema, p: Predicate, k: MultiKey)
    requires |k| <= |fv| && 0 <= p.propId < |k|
    ensures Means(fv, p, k) <==> exists rk | rk in Alternatives(p) :: InColumn(fv[p.propId], rk, k[p.propId])
  {
    var f, x, rks := fv[p.propId], k[p.propId], Alternatives(p);
    if Means(fv, p, k) {
      var i: nat := 0;
      if p.PredIn? { i :| 0 <= i < |p.vals| && Cmp(f, x, p.vals[i]) == 0; }
      assert rks[i] in rks && InColumn(f, rks[i], x);
    }
    if rk :| rk in rks && InColumn(f, rk, x) {
      var i :| 0 <= i < |rks| && rks[i] == rk;
    }
  }

  // ---------------------------------------------------------------- one combination

  function Mins(c: Combo): (k: MultiKey)
    ensures |k| == |c|
  {
    seq(|c|, i requires 0 <= i < |c| => c[i].min)
  }

  function Maxs(c: Combo): (k: MultiKey)
    ensures |k| == |c|
  {
    seq(|c|, i requires 0 <= i < |c| => c[i].max)
  }

  /** The range of a combination: its exclusivity flags are those of the last column. */
  function RangeOf(c: Combo): Range
    requires c != []
  {
    var last := c[|c| - 1];
    Range(Mins(c), Maxs(c), last.minExclusive, last.maxExclusive)
  }

  /** Every column but the last is a single value. */
  ghost predicate Leading(c: Combo) {
    forall i | 0 <= i < |c| - 1 :: c[i] == Point(c[i].min)
  }

  /** Taking the last column's flags is sound: the range holds exactly the keys that fit column by column. */
  lemma {:induction false} RangeExact(fv: Schema, c: Combo, k: MultiKey)
    requires c != [] && Leading(c) && |c| <= |fv| == |k|
    ensures InRange(fv, RangeOf(c), k) <==> forall i | 0 <= i < |c| :: InColumn(fv[i], c[i], k[i])
  {
    if |c| == 1 {
      assert CmpKey(fv[1..], k[1..], Mins(c)[1..]) == 0 && CmpKey(fv[1..], k[1..], Maxs(c)[1..]) == 0;
    } else {
      RangeExact(fv[1..], c[1..], k[1..]);
      assert Mins(c)[1..] == Mins(c[1..]) && Maxs(c)[1..] == Maxs(c[1..]);
      assert forall i | 1 <= i < |c| ::
          InColumn(fv[i], c[i], k[i]) == InColumn(fv[1..][i - 1], c[1..][i - 1], k[1..][i - 1]);
      assert c[0] == Point(c[0].min);
    }
  }

  // ---------------------------------------------------------------- the product

  type Columns = seq<seq<RangeKey>>

  /** All combinations that extend prefix by one alternative of each column, the last column varying fastest. */
  ghost function Product(keys: Columns, prefix: Combo): seq<Combo>
    decreases |keys|, 0, 0
  {
    if keys == [] then [prefix] else ProductFrom(keys, prefix, 0)
  }

  ghost function ProductFrom(keys: Columns, prefix: Combo, i: nat): seq<Combo>
    requires keys != [] && i <= |keys[0]|
    decreases |keys| - 1, 1, |keys[0]| - i
  {
    if i == |keys[0]| then []
    else Product(keys[1..], prefix + [keys[0][i]]) + ProductFrom(keys, prefix, i + 1)
  }

  /** One choice of alternative for each column. */
  ghost predicate Choice(keys: Columns, d: seq<nat>) {
    |d| == |keys| && forall i | 0 <= i < |d| :: d[i] < |keys[i]|
  }

  ghost function Picks(keys: Columns, d: seq<nat>): (c: Combo)
    requires Choice(keys, d)
    ensures |c| == |keys|
  {
    seq(|d|, i requires 0 <= i < |d| => keys[i][d[i]])
  }

  ghost function Size(keys: Columns): (n: nat) {
    if keys == [] then 1 else |keys[0]| * Size(keys[1..])
  }

  /** The place of a choice in the product: its digits in mixed radix. */
  ghost function Rank(keys: Columns, d: seq<nat>): (r: nat)
    requires Choice(keys, d)
  {
    if keys == [] then 0 else d[0] * Size(keys[1..]) + Rank(keys[1..], d[1..])
  }

  lemma Times(a: nat, b: nat, s: nat)
    ensures a >= b ==> a * s >= b * s
    ensures (b + 1) * s == b * s + s && (b >= 1 ==> (b - 1) * s == b * s - s)
  {
  }

  lemma {:induction false} RankInSize(keys: Columns, d: seq<nat>)
    requires Choice(keys, d)
    ensures Rank(keys, d) < Size(keys)
  {
    if keys != [] {
      RankInSize(keys[1..], d[1..]);
      var s := Size(keys[1..]);
      Times(|keys[0]|, d[0] + 1, s);
    }
  }

  /** The product lists every choice at its rank. */
  lemma {:induction false} ProductAt(keys: Columns, prefix: Combo, d: seq<nat>)
    requires Choice(keys, d)
    ensures Rank(keys, d) < |Product(keys, prefix)| && Product(keys, prefix)[Rank(keys, d)] == prefix + Picks(keys, d)
    decreases |keys|, 0, 0
  {
    if keys == [] {
      assert prefix + Picks(keys, d) == prefix;
    } else {
      ProductFromAt(keys, prefix, 0, d);
    }
  }

  lemma {:induction false} ProductFromAt(keys: Columns, prefix: Combo, i: nat, d: seq<nat>)
    requires keys != [] && Choice(keys, d) && i <= d[0]
    ensures var r := Rank(keys, d) - i * Size(keys[1..]);
            && 0 <= r < |ProductFrom(keys, prefix, i)|
            && ProductFrom(keys, prefix, i)[r] == prefix + Picks(keys, d)
    decreases |keys| - 1, 1, |keys[0]| - i
  {
    var s := Size(keys[1..]);
    ProductSize(keys[1..], prefix + [keys[0][i]]);
    if i == d[0] {
      ProductAt(keys[1..], prefix + [keys[0][i]], d[1..]);
      assert prefix + [keys[0][i]] + Picks(keys[1..], d[1..]) == prefix + Picks(keys, d);
    } else {
      ProductFromAt(keys, prefix, i + 1, d);
      assert (i + 1) * s == i * s + s;
    }
  }

  lemma {:induction false} ProductSize(keys: Columns, prefix: Combo)
    ensures |Product(keys, prefix)| == Size(keys)
    decreases |keys|, 0, 0
  {
    if keys != [] {
      ProductFromSize(keys, prefix, 0);
    }
  }

  lemma {:induction false} ProductFromSize(keys: Columns, prefix: Combo, i: nat)
    requires keys != [] && i <= |keys[0]|
    ensures |ProductFrom(keys, prefix, i)| == (|keys[0]| - i) * Size(keys[1..])
    decreases |keys| - 1, 1, |keys[0]| - i
  {
    if i < |keys[0]| {
      ProductSize(keys[1..], prefix + [keys[0][i]]);
      ProductFromSize(keys, prefix, i + 1);
      var n, s := |keys[0]| - i - 1, Size(keys[1..]);
      assert (n + 1) * s == n * s + s;
    }
  }

  /** Every place of the product belongs to one choice. */
  lemma {:induction false} ChoiceAt(keys: Columns, r: nat) returns (d: seq<nat>)
    requires r < Size(keys)
    ensures Choice(keys, d) && Rank(keys, d) == r
  {
    if keys == [] {
      d := [];
    } else {
      var s := Size(keys[1..]);
      assert s > 0;
      var q: nat, m: nat := r / s, r % s;
      assert r == q * s + m;
      Times(q, |keys[0]|, s);
      var ds := ChoiceAt(keys[1..], m);
      d := [q] + ds;
      assert d[1..] == ds;
    }
  }

  /** Ranks follow the lexicographic order of the choices, so that each choice has a place of its own. */
  lemma {:induction false} RankLexicographic(keys: Columns, d: seq<nat>, e: seq<nat>, i: nat)
    requires Choice(keys, d) && Choice(keys, e)
    requires i < |keys| && d[..i] == e[..i] && d[i] < e[i]
    ensures Rank(keys, d) < Rank(keys, e)
  {
    RankInSize(keys[1..], d[1..]);
    var s := Size(keys[1..]);
    if i == 0 {
      Times(e[0], d[0] + 1, s);
    } else {
      assert d[0] == d[..i][0] == e[..i][0];
      assert d[1..][..i - 1] == d[..i][1..] && e[1..][..i - 1] == e[..i][1..];
      RankLexicographic(keys[1..], d[1..], e[1..], i - 1);
    }
  }

  // ---------------------------------------------------------------- the ranges of a plan

  /** The ranges of a list of combinations. */
  ghost function RangesOf(cs: seq<Combo>): (rs: seq<Range>)
    requires forall i | 0 <= i < |cs| :: cs[i] != []
    ensures |rs| == |cs|
  {
    seq(|cs|, i requires 0 <= i < |cs| => RangeOf(cs[i]))
  }

  /** The columns of the product for some predicates. */
  ghost function Columned(ps: seq<Predicate>): (keys: Columns)
    ensures |keys| == |ps|
  {
    seq(|ps|, i requires 0 <= i < |ps| => Alternatives(ps[i]))
  }

  lemma {:induction false} ProductNonempty(keys: Columns, prefix: Combo, j: nat)
    requires j < |Product(keys, prefix)| && (keys != [] || prefix != [])
    ensures Product(keys, prefix)[j] != []
  {
    ProductSize(keys, prefix);
    var d := ChoiceAt(keys, j);
    ProductAt(keys, prefix, d);
  }

  /** The scan ranges for the extracted predicates. */
  ghost function ScanRanges(ps: seq<Predicate>): (rs: seq<Range>)
    requires ps != []
  {
    var cs := Product(Columned(ps), []);
    assert forall i | 0 <= i < |cs| :: cs[i] != [] by {
      forall i | 0 <= i < |cs| ensures cs[i] != [] { ProductNonempty(Columned(ps), [], i); }
    }
    RangesOf(cs)
  }

  /** The predicates the plan extracts: one for each leading column, a range at most in the last. */
  ghost predicate Extraction(ps: seq<Predicate>) {
    forall i | 0 <= i < |ps| :: ps[i].propId == i && (i < |ps| - 1 ==> !ps[i].PredRange?)
  }

  lemma PicksLeading(ps: seq<Predicate>, d: seq<nat>)
    requires Extraction(ps) && Choice(Columned(ps), d)
    ensures Leading(Picks(Columned(ps), d))
  {
    var c := Picks(Columned(ps), d);
    forall i | 0 <= i < |c| - 1 ensures c[i] == Point(c[i].min) {
      assert c[i] == Alternatives(ps[i])[d[i]];
    }
  }

  /** The j-th scan range, by the choice it stands for. */
  lemma ScanRangeAt(fv: Schema, ps: seq<Predicate>, d: seq<nat>, k: MultiKey)
    requires ps != [] && Extraction(ps) && |ps| <= |fv| == |k| && Choice(Columned(ps), d)
    ensures var j := Rank(Columned(ps), d);
            && j < |ScanRanges(ps)|
            && (InRange(fv, ScanRanges(ps)[j], k) <==>
                forall i | 0 <= i < |ps| :: InColumn(fv[i], Alternatives(ps[i])[d[i]], k[i]))
  {
    hide Product, Rank, InColumn, InRange, CmpKey, Alternatives, Size, RangeOf, ScanRanges;
    var keys := Columned(ps);
    ProductAt(keys, [], d);
    var c := Picks(keys, d);
    assert [] + c == c;
    ScanRangesAt(ps, Rank(keys, d));
    assert Leading(c) by { PicksLeading(ps, d); }
    RangeExact(fv, c, k);
    PicksAre(ps, d);
  }

  lemma ScanRangesAt(ps: seq<Predicate>, j: nat)
    requires ps != [] && j < |Product(Columned(ps), [])|
    ensures j < |ScanRanges(ps)| && Product(Columned(ps), [])[j] != []
    ensures ScanRanges(ps)[j] == RangeOf(Product(Columned(ps), [])[j])
  {
    hide Product, RangeOf;
    ProductNonempty(Columned(ps), [], j);
  }

  lemma PicksAre(ps: seq<Predicate>, d: seq<nat>)
    requires Choice(Columned(ps), d)
    ensures forall i | 0 <= i < |ps| :: Picks(Columned(ps), d)[i] == Alternatives(ps[i])[d[i]]
  {
    hide Alternatives;
  }

  /** The union of the scan ranges is exactly the keys that satisfy all extracted predicates. */
  lemma ScanRangesExact(fv: Schema, ps: seq<Predicate>, k: MultiKey)
    requires ps != [] && Extraction(ps) && |ps| <= |fv| == |k|
    ensures (exists r | r in ScanRanges(ps) :: InRange(fv, r, k)) <==> forall p | p in ps :: Means(fv, p, k)
  {
    var keys, rs := Columned(ps), ScanRanges(ps);
    ProductSize(keys, []);
    if r :| r in rs && InRange(fv, r, k) {
      var j: nat :| j < |rs| && rs[j] == r;
      var d := ChoiceAt(keys, j);
      ScanRangeAt(fv, ps, d, k);
      forall p | p in ps ensures Means(fv, p, k) {
        var i: nat :| i < |ps| && ps[i] == p;
        AlternativesExact(fv, p, k);
        assert Alternatives(p)[d[i]] in Alternatives(p);
      }
    }
    if forall p | p in ps :: Means(fv, p, k) {
      var d := ChoiceFor(fv, ps, k, |ps|);
      ScanRangeAt(fv, ps, d, k);
      assert rs[Rank(keys, d)] in rs;
    }
  }

  /** The choice that leads to a key: an alternative for each of the first n columns that the key's value is in. */
  lemma {:induction false} ChoiceFor(fv: Schema, ps: seq<Predicate>, k: MultiKey, n: nat) returns (d: seq<nat>)
    requires Extraction(ps) && n <= |ps| <= |fv| == |k| && forall p | p in ps :: Means(fv, p, k)
    ensures |d| == n
    ensures forall i | 0 <= i < n :: d[i] < |Alternatives(ps[i])| && InColumn(fv[i], Alternatives(ps[i])[d[i]], k[i])
  {
    if n == 0 {
      d := [];
    } else {
      var e := ChoiceFor(fv, ps, k, n - 1);
      var p := ps[n - 1];
      AlternativesExact(fv, p, k);
      assert p in ps;
      var rk :| rk in Alternatives(p) && InColumn(fv[n - 1], rk, k[n - 1]);
      var x: nat :| x < |Alternatives(p)| && Alternatives(p)[x] == rk;
      d := e + [x];
    }
  }

  // ---------------------------------------------------------------- no key in two ranges

  /** The values of every IN list are pairwise unequal. */
  ghost predicate DistinctLists(fv: Schema, ps: seq<Predicate>)
    requires |ps| <= |fv|
  {
    forall i, x, y | 0 <= i < |ps| && ps[i].PredIn? && 0 <= x < y < |ps[i].vals| ::
      Cmp(fv[i], ps[i].vals[x], ps[i].vals[y]) != 0
  }

  /** A stored value equals at most one of two unequal values. */
  lemma OneOfTwo(f: CmpFunc, x: Value, v: Value, w: Value)
    requires Storable(x) && Cmp(f, x, v) == 0 && Cmp(f, x, w) == 0
    ensures Cmp(f, v, w) == 0
  {
    CmpCongruent(f, x, v, w);
  }

  /** Distinct scan ranges have no key in common. */
  lemma ScanRangesDisjoint(fv: Schema, ps: seq<Predicate>, k: MultiKey, a: nat, b: nat)
    requires ps != [] && Extraction(ps) && |ps| <= |fv| && FullKey(fv, k) && DistinctLists(fv, ps)
    requires a < b < |ScanRanges(ps)|
    ensures !(InRange(fv, ScanRanges(ps)[a], k) && InRange(fv, ScanRanges(ps)[b], k))
  {
    hide Product, Rank, InColumn, InRange, CmpKey, Alternatives, Size;
    var keys := Columned(ps);
    ProductSize(keys, []);
    var d := ChoiceAt(keys, a);
    var e := ChoiceAt(keys, b);
    ScanRangeAt(fv, ps, d, k);
    ScanRangeAt(fv, ps, e, k);
    assert d != e;
    var i: nat :| i < |ps| && d[i] != e[i];
    OneAlternative(fv, ps, k, i, d[i], e[i]);
  }

  /** A value fits at most one alternative of a column. */
  lemma OneAlternative(fv: Schema, ps: seq<Predicate>, k: MultiKey, i: nat, x: nat, y: nat)
    requires Extraction(ps) && i < |ps| <= |fv| && FullKey(fv, k) && DistinctLists(fv, ps)
    requires x < |Alternatives(ps[i])| && y < |Alternatives(ps[i])| && x != y
    ensures !(InColumn(fv[i], Alternatives(ps[i])[x], k[i]) && InColumn(fv[i], Alternatives(ps[i])[y], k[i]))
  {
    var f, vals := fv[i], ps[i].vals;
    if Cmp(f, k[i], vals[x]) == 0 && Cmp(f, k[i], vals[y]) == 0 {
      OneOfTwo(f, k[i], vals[x], vals[y]);
      OneOfTwo(f, k[i], vals[y], vals[x]);
    }
  }
}
