/**
 * The reference counts of a query's strings (src/value.c, src/query.c, src/query_parse.c, src/query_plan.c,
 * src/parser/ast.c). The values of Values are here together with which string each is, and what is built of them is,
 * without that, what the other modules build.
 */
module RefCounts {
  import opened Values
  import opened Orders
  import opened Queries
  import opened QueryParsing
  import opened QueryPlans
  import opened Ranges

  /** A string, told apart from others with the same bytes. */
  type StrId = nat

  /** A value and, for a string, which one it is. */
  datatype Held = Held(v: Value, id: StrId)

  datatype HeldPredicate =
    | HeldEq(propId: int, v: Held)
    | HeldRange(propId: int, min: Held, minExclusive: bool, max: Held, maxExclusive: bool)
    | HeldIn(propId: int, vals: seq<Held>)
    | HeldIsNull(propId: int)

  datatype HeldTree =
    | HeldLeaf(pred: HeldPredicate, passthru: bool)
    | HeldLogic(op: Operator, left: HeldTree, right: HeldTree, passthru: bool)

  /** One alternative for one column. */
  datatype HeldKey = HeldKey(min: Held, max: Held, minExclusive: bool, maxExclusive: bool)

  /** A scan range. */
  datatype HeldScan = HeldScan(min: seq<Held>, max: seq<Held>, minExclusive: bool, maxExclusive: bool)

  datatype TermOp = EqOp | NeOp | GtOp | GeOp | LtOp | LeOp | LikeOp | IsOp | InOp

  /** A parse tree: a predicate has a list for IN and a value otherwise. */
  datatype HeldParse =
    | HeldPred(prop: Property, op: TermOp, val: Held, lst: seq<Held>)
    | HeldCond(left: HeldParse, isOr: bool, right: HeldParse)

  // ---------------------------------------------------------------- without the identities

  function Bare(vs: seq<Held>): (r: seq<Value>)
    ensures |r| == |vs|
  {
    seq(|vs|, i requires 0 <= i < |vs| => vs[i].v)
  }

  function BarePred(p: HeldPredicate): Predicate {
    match p
    case HeldEq(c, v) => PredEq(c, v.v)
    case HeldRange(c, min, minEx, max, maxEx) => PredRange(c, min.v, minEx, max.v, maxEx)
    case HeldIn(c, vals) => PredIn(c, Bare(vals))
    case HeldIsNull(c) => PredIsNull(c)
  }

  function BareTree(t: HeldTree): (r: Tree)
    ensures r.passthru == t.passthru && r.Leaf? == t.HeldLeaf?
  {
    match t
    case HeldLeaf(p, pass) => Leaf(BarePred(p), pass)
    case HeldLogic(op, l, r, pass) => Logic(op, BareTree(l), BareTree(r), pass)
  }

  function BareKey(a: HeldKey): RangeKey { RangeKey(a.min.v, a.max.v, a.minExclusive, a.maxExclusive) }

  function BareCombo(c: seq<HeldKey>): (r: Combo)
    ensures |r| == |c|
  {
    seq(|c|, i requires 0 <= i < |c| => BareKey(c[i]))
  }

  function BareColumns(keys: seq<seq<HeldKey>>): (r: Columns)
    ensures |r| == |keys|
  {
    seq(|keys|, i requires 0 <= i < |keys| => BareCombo(keys[i]))
  }

  function BareScan(r: HeldScan): Range { Range(Bare(r.min), Bare(r.max), r.minExclusive, r.maxExclusive) }

  function BareScans(rs: seq<HeldScan>): (r: seq<Range>)
    ensures |r| == |rs|
  {
    seq(|rs|, i requires 0 <= i < |rs| => BareScan(rs[i]))
  }

  /** A LIKE has a string for its pattern. */
  predicate Lexed(n: HeldParse) {
    match n
    case HeldPred(_, op, val, _) => op.LikeOp? ==> val.v.Str?
    case HeldCond(l, _, r) => Lexed(l) && Lexed(r)
  }

  function BareTerm(op: TermOp, val: Held, lst: seq<Held>): Term
    requires op.LikeOp? ==> val.v.Str?
  {
    match op
    case EqOp => EqTerm(val.v)
    case NeOp => NeTerm(val.v)
    case GtOp => GtTerm(val.v)
    case GeOp => GeTerm(val.v)
    case LtOp => LtTerm(val.v)
    case LeOp => LeTerm(val.v)
    case LikeOp => LikeTerm(val.v.str)
    case IsOp => IsTerm(val.v)
    case InOp => InTerm(Bare(lst))
  }

  function BareParse(n: HeldParse): ParseNode
    requires Lexed(n)
  {
    match n
    case HeldPred(prop, op, val, lst) => PredNode(prop, BareTerm(op, val, lst))
    case HeldCond(l, isOr, r) => CondNode(BareParse(l), isOr, BareParse(r))
  }

  // ---------------------------------------------------------------- holders

  /** Every reference to a string, counted once for each holder. */
  function Refs(v: Held): multiset<StrId> {
    if v.v.Str? then multiset{v.id} else multiset{}
  }

  function AllRefs(vs: seq<Held>): multiset<StrId> {
    if vs == [] then multiset{} else Refs(vs[0]) + AllRefs(vs[1..])
  }

  function PredRefs(p: HeldPredicate): multiset<StrId> {
    match p
    case HeldEq(_, v) => Refs(v)
    case HeldRange(_, min, _, max, _) => Refs(min) + Refs(max)
    case HeldIn(_, vals) => AllRefs(vals)
    case HeldIsNull(_) => multiset{}
  }

  function TreeRefs(t: HeldTree): multiset<StrId> {
    match t
    case HeldLeaf(p, _) => PredRefs(p)
    case HeldLogic(_, l, r, _) => TreeRefs(l) + TreeRefs(r)
  }

  function ParseRefs(n: HeldParse): multiset<StrId> {
    match n
    case HeldPred(_, op, val, lst) => if op.InOp? then AllRefs(lst) else Refs(val)
    case HeldCond(l, _, r) => ParseRefs(l) + ParseRefs(r)
  }

  /** A scan range holds every value of its two keys. */
  function ScansRefs(rs: seq<HeldScan>): multiset<StrId> {
    if rs == [] then multiset{} else AllRefs(rs[0].min) + AllRefs(rs[0].max) + ScansRefs(rs[1..])
  }

  lemma {:induction false} RefOfAll(vs: seq<Held>, i: nat)
    requires i < |vs|
    ensures Refs(vs[i]) <= AllRefs(vs)
  {
    if i > 0 { RefOfAll(vs[1..], i - 1); }
  }

  lemma {:induction false} ScansConcat(a: seq<HeldScan>, b: seq<HeldScan>)
    ensures ScansRefs(a + b) == ScansRefs(a) + ScansRefs(b)
  {
    if a == [] {
      assert a + b == b;
    } else {
      assert (a + b)[1..] == a[1..] + b;
      ScansConcat(a[1..], b);
    }
  }

  /** Every value of some alternatives has a holder in live. */
  predicate Backed(ks: seq<HeldKey>, live: multiset<StrId>) {
    forall i | 0 <= i < |ks| :: Refs(ks[i].min) <= live && Refs(ks[i].max) <= live
  }

  predicate AllBacked(keys: seq<seq<HeldKey>>, live: multiset<StrId>) {
    forall i | 0 <= i < |keys| :: Backed(keys[i], live)
  }

  lemma BackedByMore(keys: seq<seq<HeldKey>>, live: multiset<StrId>, more: multiset<StrId>)
    requires AllBacked(keys, live) && live <= more
    ensures AllBacked(keys, more)
  {
  }

  // ---------------------------------------------------------------- planning

  /** getPredicate: it only marks nodes, and what it finds stays in the tree. */
  method GetPredicate(t: HeldTree, propId: int) returns (t': HeldTree, p: Option<HeldPredicate>)
    ensures TreeRefs(t') == TreeRefs(t) && (if p.Some? then PredRefs(p.value) <= TreeRefs(t) else t' == t)
    ensures p.Some? <==> OnAndPath(BareTree(t), propId)
    ensures Marked(BareTree(t), propId) == (BareTree(t'), if p.Some? then Some(BarePred(p.value)) else None)
    decreases t
  {
    MarkedFinds(BareTree(t), propId);
    t', p := t, None;
    if t.passthru {
      return;
    }
    if t.HeldLeaf? {
      if t.pred.propId == propId {
        t', p := HeldLeaf(t.pred, true), Some(t.pred);
      }
    } else if t.op.OpAnd? {
      var l, r := t.left, t.right;
      l, p := GetPredicate(l, propId);
      if p.None? {
        r, p := GetPredicate(r, propId);
      }
      t' := HeldLogic(OpAnd, l, r, false);
    }
  }

  /** predicateToRanges: it copies pointers, and the values stay with the predicate. */
  method PredicateToRanges(p: HeldPredicate) returns (ks: seq<HeldKey>, isLast: bool)
    ensures BareCombo(ks) == Alternatives(BarePred(p)) && isLast == p.HeldRange?
    ensures Backed(ks, PredRefs(p))
  {
    isLast := false;
    if p.HeldIn? {
      ks := InRanges(p.vals);
      InCombo(ks, p.propId, p.vals);
    } else if p.HeldRange? {
      ks := [HeldKey(p.min, p.max, p.minExclusive, p.maxExclusive)];
      isLast := true;
    } else {
      var v := if p.HeldEq? then p.v else Held(Null, 0);
      ks := [HeldKey(v, v, false, false)];
    }
  }

  method InRanges(vals: seq<Held>) returns (ks: seq<HeldKey>)
    ensures |ks| == |vals| && forall j | 0 <= j < |vals| :: BareKey(ks[j]) == Point(vals[j].v)
    ensures Backed(ks, AllRefs(vals))
  {
    hide AllRefs;
    ks := [];
    for i := 0 to |vals|
      invariant |ks| == i && Backed(ks, AllRefs(vals))
      invariant forall j | 0 <= j < i :: BareKey(ks[j]) == Point(vals[j].v)
    {
      RefOfAll(vals, i);
      ks := ks + [HeldKey(vals[i], vals[i], false, false)];
    }
  }

  lemma InCombo(ks: seq<HeldKey>, c: int, vals: seq<Held>)
    requires |ks| == |vals| && forall j | 0 <= j < |vals| :: BareKey(ks[j]) == Point(vals[j].v)
    ensures BareCombo(ks) == Alternatives(PredIn(c, Bare(vals)))
  {
  }

  lemma OneColumn(keys: seq<seq<HeldKey>>, ps: seq<Predicate>, ks: seq<HeldKey>, p: Predicate)
    requires BareColumns(keys) == Columned(ps) && BareCombo(ks) == Alternatives(p)
    ensures BareColumns(keys + [ks]) == Columned(ps + [p])
  {
    hide BareCombo, Alternatives;
    assert |keys| == |BareColumns(keys)| == |ps|;
    forall i | 0 <= i < |keys| ensures BareCombo(keys[i]) == Alternatives(ps[i]) {
      assert BareColumns(keys)[i] == Columned(ps)[i];
    }
  }

  /** The extraction loop. */
  method LeadingColumns(t: HeldTree, numProps: nat) returns (t': HeldTree, keys: seq<seq<HeldKey>>)
    ensures var (u, ps) := Extracted(BareTree(t), 0, numProps);
            BareTree(t') == u && BareColumns(keys) == Columned(ps)
    ensures TreeRefs(t') == TreeRefs(t) && AllBacked(keys, TreeRefs(t))
  {
    hide Marked, TreeRefs, Backed, PredRefs, Alternatives;
    t', keys := t, [];
    var propId := 0;
    ghost var ps := [];
    while propId < numProps
      invariant TreeRefs(t') == TreeRefs(t) && AllBacked(keys, TreeRefs(t))
      invariant propId == |keys| && BareColumns(keys) == Columned(ps)
      invariant Extracted(BareTree(t), 0, numProps).0 == Extracted(BareTree(t'), propId, numProps).0
      invariant Extracted(BareTree(t), 0, numProps).1 == ps + Extracted(BareTree(t'), propId, numProps).1
    {
      ExtractedUnfolds(BareTree(t'), propId, numProps, ps);
      var p;
      t', p := GetPredicate(t', propId);
      if p.None? {
        break;
      }
      var ks, isLast := PredicateToRanges(p.value);
      OneColumn(keys, ps, ks, BarePred(p.value));
      BackedByMore([ks], PredRefs(p.value), TreeRefs(t));
      keys, propId, ps := keys + [ks], propId + 1, ps + [BarePred(p.value)];
      if isLast {
        break;
      }
    }
    assert ps + [] == ps;
  }

  /** The keys of the range for a combination. */
  function ScanOf(c: seq<HeldKey>): (r: HeldScan)
    requires c != []
    ensures |r.min| == |r.max| == |c|
  {
    var n := |c|;
    HeldScan(seq(n, i requires 0 <= i < n => c[i].min), seq(n, i requires 0 <= i < n => c[i].max),
             c[n - 1].minExclusive, c[n - 1].maxExclusive)
  }

  lemma BareScanOf(c: seq<HeldKey>)
    requires c != []
    ensures BareScan(ScanOf(c)) == RangeOf(BareCombo(c))
  {
    assert Bare(ScanOf(c).min) == Mins(BareCombo(c));
    assert Bare(ScanOf(c).max) == Maxs(BareCombo(c));
  }

  lemma BareScansConcat(a: seq<HeldScan>, b: seq<HeldScan>)
    ensures BareScans(a + b) == BareScans(a) + BareScans(b)
  {
  }

  lemma BareCombined(prefix: seq<HeldKey>, k: HeldKey)
    ensures BareCombo(prefix + [k]) == BareCombo(prefix) + [BareKey(k)]
  {
  }

  lemma BareColumnsTail(keys: seq<seq<HeldKey>>)
    requires keys != []
    ensures BareColumns(keys[1..]) == BareColumns(keys)[1..]
    ensures |BareColumns(keys)[0]| == |keys[0]|
    ensures forall i | 0 <= i < |keys[0]| :: BareColumns(keys)[0][i] == BareKey(keys[0][i])
  {
  }

  // ---------------------------------------------------------------- the counters

  /** The strings that are allocated, each with its counter; live is the multiset of their holders. */
  class Store {
    var count: map<StrId, nat>
    ghost var live: multiset<StrId>

    /** Every count is the number of holders, and a string without holders has been freed. */
    ghost predicate Valid()
      reads this
    {
      forall id :: (id in count <==> live[id] > 0) && (id in count ==> count[id] == live[id])
    }

    /** SIValue_Copy, SIValue_IncRef: the string must not have been freed. */
    method IncRef(v: Held)
      requires Valid() && Refs(v) <= live
      modifies this
      ensures Valid() && live == old(live) + Refs(v)
    {
      if v.v.Str? {
        assert v.id in Refs(v);
        count := count[v.id := count[v.id] + 1];
        live := live + Refs(v);
      }
    }

    /** SIValue_Free: the string goes when its last holder does. */
    method Free(v: Held, ghost rest: multiset<StrId>)
      requires Valid() && live == Refs(v) + rest
      modifies this
      ensures Valid() && live == rest
    {
      if v.v.Str? {
        assert v.id in live;
        count := count[v.id := count[v.id] - 1];
        if count[v.id] == 0 {
          count := count - {v.id};
        }
      }
      live := rest;
    }

    /** SI_PredIn's loop. */
    method IncRefs(vs: seq<Held>)
      requires Valid() && forall i | 0 <= i < |vs| :: Refs(vs[i]) <= live
      modifies this
      ensures Valid() && live == old(live) + AllRefs(vs)
    {
      for i := 0 to |vs|
        invariant Valid() && old(live) <= live && live + AllRefs(vs[i..]) == old(live) + AllRefs(vs)
      {
        IncRef(vs[i]);
        assert vs[i..][1..] == vs[i + 1..];
      }
    }

    /** SIValueVector_Free, SIMultiKey_Free. */
    method FreeAll(vs: seq<Held>, ghost rest: multiset<StrId>)
      requires Valid() && live == AllRefs(vs) + rest
      modifies this
      ensures Valid() && live == rest
    {
      assert vs[0..] == vs;
      for i := 0 to |vs|
        invariant Valid() && live == AllRefs(vs[i..]) + rest
      {
        assert vs[i..][1..] == vs[i + 1..];
        Free(vs[i], AllRefs(vs[i + 1..]) + rest);
      }
    }

    // ------------------------------------------------------------ parsing

    /** SI_PredEquals. */
    method Equals(c: int, v: Held) returns (p: HeldPredicate)
      requires Valid() && Refs(v) <= live
      modifies this
      ensures Valid() && BarePred(p) == PredEq(c, v.v) && live == old(live) + PredRefs(p)
    {
      IncRef(v);
      p := HeldEq(c, v);
    }

    /** SI_PredBetween. */
    method Between(c: int, min: Held, minEx: bool, max: Held, maxEx: bool) returns (p: HeldPredicate)
      requires Valid() && Refs(min) <= live && Refs(max) <= live
      modifies this
      ensures Valid() && BarePred(p) == PredRange(c, min.v, minEx, max.v, maxEx) && live == old(live) + PredRefs(p)
    {
      IncRef(min);
      IncRef(max);
      p := HeldRange(c, min, minEx, max, maxEx);
    }

    /** SI_PredIn. */
    method In(c: int, lst: seq<Held>) returns (p: HeldPredicate)
      requires Valid() && AllRefs(lst) <= live
      modifies this
      ensures Valid() && BarePred(p) == PredIn(c, Bare(lst)) && live == old(live) + PredRefs(p)
    {
      forall i | 0 <= i < |lst| ensures Refs(lst[i]) <= live { RefOfAll(lst, i); }
      IncRefs(lst);
      p := HeldIn(c, lst);
    }

    /**
     * toQueryNode for LIKE: both bounds are the pattern's string, the one shorter, the other with its last byte
     * replaced.
     */
    method Like(c: int, val: Held) returns (p: HeldPredicate)
      requires Valid() && Refs(val) <= live && val.v.Str?
      modifies this
      ensures Valid() && BarePred(p) == Lower(LikeTerm(val.v.str), c) && live == old(live) + PredRefs(p)
    {
      var pattern := val.v.str;
      if |pattern| > 0 && pattern[|pattern| - 1] == PERCENT {
        var n := |pattern| - 1;
        p := Between(c, Held(Str(pattern[..n]), val.id), false, Held(Str(pattern[n := 255]), val.id), false);
      } else {
        p := Equals(c, val);
      }
    }

    /** The comparisons with a value in toQueryNode. */
    method Compare(op: TermOp, c: int, val: Held) returns (p: HeldPredicate)
      requires Valid() && (op.EqOp? || op.GtOp? || op.GeOp? || op.LtOp? || op.LeOp?) && Refs(val) <= live
      modifies this
      ensures Valid() && BarePred(p) == Lower(BareTerm(op, val, []), c) && live == old(live) + PredRefs(p)
    {
      hide PredRefs, BarePred, Store.Valid;
      if op.EqOp? {
        p := Equals(c, val);
      } else if op.GtOp? || op.GeOp? {
        p := Between(c, val, op.GtOp?, Held(Inf, 0), false);
      } else {
        p := Between(c, Held(NegInf, 0), false, val, op.LtOp?);
      }
    }

    /** toQueryNode. */
    method ToQueryNode(n: HeldParse, c: int) returns (p: HeldPredicate)
      requires Valid() && n.HeldPred? && Lexed(n) && Supported(BareParse(n)) && ParseRefs(n) <= live
      modifies this
      ensures Valid() && live == old(live) + PredRefs(p) && BarePred(p) == Lower(BareParse(n).term, c)
    {
      hide AllRefs, Refs, Store.Valid, Wild;
      if n.op.InOp? {
        p := In(c, n.lst);
      } else if n.op.LikeOp? {
        p := Like(c, n.val);
      } else if n.op.IsOp? {
        p := HeldIsNull(c);
      } else {
        assert Lower(BareTerm(n.op, n.val, []), c) == Lower(BareTerm(n.op, n.val, n.lst), c);
        p := Compare(n.op, c, n.val);
      }
    }

    /** traverseNode. */
    method TraverseNode(n: HeldParse, names: Option<seq<Option<seq<Byte>>>>) returns (t: HeldTree)
      requires Valid() && Lexed(n) && Supported(BareParse(n)) && ParseRefs(n) <= live
      modifies this
      ensures Valid() && live == old(live) + TreeRefs(t) && BareTree(t) == Lowered(names, BareParse(n))
      decreases n
    {
      hide AllRefs, Refs, PredRefs, BarePred, BareTerm, ColumnOf, Lower, Store.Valid;
      if n.HeldCond? {
        var l := TraverseNode(n.left, names);
        var r := TraverseNode(n.right, names);
        t := HeldLogic(if n.isOr then OpOr else OpAnd, l, r, false);
      } else {
        var p := ToQueryNode(n, ColumnOf(names, n.prop));
        t := HeldLeaf(p, false);
      }
    }

    /** ParseNode_Free. */
    method FreeParse(n: HeldParse, ghost rest: multiset<StrId>)
      requires Valid() && live == ParseRefs(n) + rest
      modifies this
      ensures Valid() && live == rest
      decreases n
    {
      match n
      case HeldPred(_, op, val, lst) =>
        if op.InOp? {
          FreeAll(lst, rest);
        } else {
          Free(val, rest);
        }
      case HeldCond(l, _, r) =>
        FreeParse(l, ParseRefs(r) + rest);
        FreeParse(r, rest);
    }

    // ------------------------------------------------------------ freeing and cleaning a query

    /** __freePredicate. */
    method FreePredicate(p: HeldPredicate, ghost rest: multiset<StrId>)
      requires Valid() && live == PredRefs(p) + rest
      modifies this
      ensures Valid() && live == rest
    {
      match p
      case HeldEq(_, v) => Free(v, rest);
      case HeldRange(_, min, _, max, _) => Free(min, Refs(max) + rest); Free(max, rest);
      case HeldIn(_, vals) => FreeAll(vals, rest);
      case HeldIsNull(_) =>
    }

    /** SIQueryNode_Free. */
    method FreeTree(t: HeldTree, ghost rest: multiset<StrId>)
      requires Valid() && live == TreeRefs(t) + rest
      modifies this
      ensures Valid() && live == rest
      decreases t
    {
      match t
      case HeldLeaf(p, _) => FreePredicate(p, rest);
      case HeldLogic(_, l, r, _) => FreeTree(l, TreeRefs(r) + rest); FreeTree(r, rest);
    }

    /** cleanQueryNode: the pass-through child of a node with one such child is freed with it. */
    method Clean(t: HeldTree, ghost rest: multiset<StrId>) returns (t': HeldTree)
      requires Valid() && live == TreeRefs(t) + rest
      modifies this
      ensures Valid() && live == TreeRefs(t') + rest && BareTree(t') == Cleaned(BareTree(t))
      decreases t
    {
      t' := t;
      if t.passthru || t.HeldLeaf? {
        return;
      }
      var l := Clean(t.left, TreeRefs(t.right) + rest);
      var r := Clean(t.right, TreeRefs(l) + rest);
      if l.passthru && r.passthru {
        t' := HeldLogic(t.op, l, r, true);
      } else if l.passthru {
        FreeTree(l, TreeRefs(r) + rest);
        t' := r;
      } else if r.passthru {
        FreeTree(r, TreeRefs(l) + rest);
        t' := l;
      } else {
        t' := HeldLogic(t.op, l, r, false);
      }
    }

    // ------------------------------------------------------------ the plan

    /** The end of buildKey: the range copies the two values of every column, which the tree still holds. */
    method PushRange(c: seq<HeldKey>) returns (r: HeldScan)
      requires Valid() && c != [] && Backed(c, live)
      modifies this
      ensures Valid() && live == old(live) + AllRefs(r.min) + AllRefs(r.max) && r == ScanOf(c)
    {
      r := ScanOf(c);
      assert r.min[0..] == r.min && r.max[0..] == r.max;
      for i := 0 to |c|
        invariant Valid() && old(live) <= live
        invariant live + AllRefs(r.min[i..]) + AllRefs(r.max[i..]) == old(live) + AllRefs(r.min) + AllRefs(r.max)
      {
        IncRef(c[i].min);
        IncRef(c[i].max);
        assert r.min[i..][1..] == r.min[i + 1..] && r.max[i..][1..] == r.max[i + 1..];
      }
    }

    /** buildKey, for all combinations that extend prefix. */
    method BuildKey(keys: seq<seq<HeldKey>>, prefix: seq<HeldKey>) returns (rs: seq<HeldScan>)
      requires Valid() && (keys != [] || prefix != []) && AllBacked(keys, live) && Backed(prefix, live)
      modifies this
      ensures Valid() && live == old(live) + ScansRefs(rs)
      ensures var cs := Product(BareColumns(keys), BareCombo(prefix)); Nonempty(cs) && BareScans(rs) == RangesOf(cs)
      decreases |keys|
    {
      hide Product, ProductFrom, RangesOf, ScanOf, BareScans, BareCombo, BareColumns, Backed, AllBacked, ScansRefs,
           AllRefs;
      hide Store.Valid, BareKey;
      ghost var columns, combo := BareColumns(keys), BareCombo(prefix);
      ProductNonempties(columns, combo);
      ProductSteps(columns, combo);
      if keys == [] {
        var r := PushRange(prefix);
        OneScan(prefix, r);
        return [r];
      }
      rs := [];
      NoScans(columns, combo);
      BareColumnsTail(keys);
      for i := 0 to |keys[0]|
        invariant Valid() && live == old(live) + ScansRefs(rs)
        invariant Nonempty(ProductFrom(columns, combo, i))
        invariant RangesOf(ProductFrom(columns, combo, 0)) == BareScans(rs) + RangesOf(ProductFrom(columns, combo, i))
      {
        BackedStill(keys, prefix, i, old(live), live);
        var more := BuildKey(keys[1..], prefix + [keys[0][i]]);
        NextScans(keys, prefix, i, rs, more);
        rs := rs + more;
      }
      LastScans(columns, combo, rs);
    }

    /** SI_BuildQueryPlan: the ranges are built before the tree is cleaned. */
    method BuildQueryPlan(t: HeldTree, numProps: nat, ghost rest: multiset<StrId>)
      returns (t': HeldTree, plan: Option<seq<HeldScan>>)
      requires Valid() && live == TreeRefs(t) + rest
      modifies this
      ensures Valid() && live == PlanRefs(plan) + TreeRefs(t') + rest
      ensures PlanMade(BareTree(t), numProps, BareTree(t'), if plan.Some? then Some(BareScans(plan.value)) else None)
    {
      hide TreeRefs, ScansRefs, Extracted, Cleaned, Product, BareColumns, BareScans;
      var keys;
      t', keys := LeadingColumns(t, numProps);
      if keys == [] {
        return t', None;
      }
      BackedByMore(keys, TreeRefs(t), live);
      var rs := BuildKey(keys, []);
      plan := Some(rs);
      if !t'.passthru {
        t' := Clean(t', ScansRefs(rs) + rest);
      }
    }

    /** SIQueryPlan_Free, when the cursor is released; the cursor of a failed query has no plan. */
    method FreePlan(plan: Option<seq<HeldScan>>, ghost rest: multiset<StrId>)
      requires Valid() && live == PlanRefs(plan) + rest
      modifies this
      ensures Valid() && live == rest
    {
      if plan.None? {
        return;
      }
      var rs := plan.value;
      assert rs[0..] == rs;
      for i := 0 to |rs|
        invariant Valid() && live == ScansRefs(rs[i..]) + rest
      {
        assert rs[i..][1..] == rs[i + 1..];
        FreeAll(rs[i].min, AllRefs(rs[i].max) + ScansRefs(rs[i + 1..]) + rest);
        FreeAll(rs[i].max, ScansRefs(rs[i + 1..]) + rest);
      }
    }

    /**
     * A query from its parse tree to the end, whichever of query and cursor is freed first: at every step the counts
     * are the numbers of holders, every string outlives its holders, and none is left when they are gone.
     */
    method Life(n: HeldParse, names: Option<seq<Option<seq<Byte>>>>, numProps: nat, queryFirst: bool,
                ghost rest: multiset<StrId>)
      requires Valid() && Lexed(n) && Supported(BareParse(n)) && live == ParseRefs(n) + rest
      modifies this
      ensures Valid() && live == rest && (rest == multiset{} ==> count == map[])
    {
      hide TreeRefs, ParseRefs, PlanRefs, Lowered, Supported, BareParse, PlanMade;
      var t := TraverseNode(n, names);
      FreeParse(n, TreeRefs(t) + rest);
      var plan;
      t, plan := BuildQueryPlan(t, numProps, rest);
      if queryFirst {
        FreeTree(t, PlanRefs(plan) + rest);
        FreePlan(plan, rest);
      } else {
        FreePlan(plan, TreeRefs(t) + rest);
        FreeTree(t, rest);
      }
    }
  }

  function PlanRefs(plan: Option<seq<HeldScan>>): multiset<StrId> {
    if plan.Some? then ScansRefs(plan.value) else multiset{}
  }

  /** What a plan makes of a tree: the ranges to scan, and the tree that is left. */
  ghost predicate PlanMade(t: Tree, numProps: nat, t': Tree, ranges: Option<seq<Range>>) {
    var (u, ps) := Extracted(t, 0, numProps);
    if ps == [] then ranges == None && t' == u
    else ranges == Some(ScanRanges(ps)) && t' == if u.passthru then u else Cleaned(u)
  }

  lemma OneScan(prefix: seq<HeldKey>, r: HeldScan)
    requires prefix != [] && r == ScanOf(prefix)
    ensures BareCombo(prefix) != [] && Nonempty([BareCombo(prefix)])
    ensures BareScans([r]) == RangesOf([BareCombo(prefix)]) && ScansRefs([r]) == AllRefs(r.min) + AllRefs(r.max)
  {
    hide ScanOf, RangeOf, BareScan, BareCombo;
    BareScanOf(prefix);
  }

  lemma NoScans(columns: Columns, combo: Combo)
    ensures BareScans([]) == [] && ScansRefs([]) == multiset{}
  {
  }

  /** One turn of buildKey's loop adds the ranges of all combinations with the i-th alternative. */
  lemma NextScans(keys: seq<seq<HeldKey>>, prefix: seq<HeldKey>, i: nat, rs: seq<HeldScan>, more: seq<HeldScan>)
    requires keys != [] && i < |keys[0]|
    requires var cs := Product(BareColumns(keys[1..]), BareCombo(prefix + [keys[0][i]]));
             Nonempty(cs) && BareScans(more) == RangesOf(cs)
    ensures var columns, combo := BareColumns(keys), BareCombo(prefix);
            && columns != [] && |columns[0]| == |keys[0]|
            && Nonempty(ProductFrom(columns, combo, i)) && Nonempty(ProductFrom(columns, combo, i + 1))
            && BareScans(rs) + RangesOf(ProductFrom(columns, combo, i)) ==
               BareScans(rs + more) + RangesOf(ProductFrom(columns, combo, i + 1))
    ensures ScansRefs(rs + more) == ScansRefs(rs) + ScansRefs(more)
  {
    hide Product, ProductFrom, RangesOf, BareScans, BareCombo, BareColumns, BareKey, ScansRefs, Nonempty;
    var columns, combo := BareColumns(keys), BareCombo(prefix);
    BareColumnsTail(keys);
    BareCombined(prefix, keys[0][i]);
    ProductFromSteps(columns, combo, i);
    ScansConcat(rs, more);
    BareScansConcat(rs, more);
  }

  lemma LastScans(columns: Columns, combo: Combo, rs: seq<HeldScan>)
    requires columns != []
    ensures ProductFrom(columns, combo, |columns[0]|) == [] && Nonempty([]) && RangesOf([]) == []
  {
    ProductFromEnds(columns, combo);
  }

  lemma BackedStill(keys: seq<seq<HeldKey>>, prefix: seq<HeldKey>, i: nat, live: multiset<StrId>, more: multiset<StrId>)
    requires keys != [] && i < |keys[0]| && AllBacked(keys, live) && Backed(prefix, live) && live <= more
    ensures AllBacked(keys[1..], more) && Backed(prefix + [keys[0][i]], more)
  {
    assert Backed(keys[0], live);
  }
}
