/** Lowering a parse tree to a query tree (src/query_parse.c, src/parser/ast.h, src/spec.c). */
module QueryParsing {
  import opened Values
  import opened Orders
  import opened Keys
  import opened Queries
  import opened QueryNodes
  import opened QueryPlans

  /** A column, by name or by its number, the first being 1. */
  datatype Property = Property(name: Option<seq<Byte>>, id: int)

  /** A predicate of the grammar: an operator with a value, IN with a list. */
  datatype Term =
    | EqTerm(v: Value)
    | NeTerm(v: Value)
    | GtTerm(v: Value)
    | GeTerm(v: Value)
    | LtTerm(v: Value)
    | LeTerm(v: Value)
    | LikeTerm(pattern: seq<Byte>)
    | IsTerm(v: Value)
    | InTerm(lst: seq<Value>)

  datatype ParseNode =
    | PredNode(prop: Property, term: Term)
    | CondNode(left: ParseNode, isOr: bool, right: ParseNode)

  const PERCENT: Byte := 37

  /** Every operator of the tree is one that can be lowered. For another the source dereferences a null node. */
  predicate Supported(n: ParseNode) {
    match n
    case PredNode(_, t) => !t.NeTerm? && (t.IsTerm? ==> t.v.Null?)
    case CondNode(l, _, r) => Supported(l) && Supported(r)
  }

  // ---------------------------------------------------------------- what a parse tree says

  /** s starts with p, case aside. */
  predicate PrefixFold(p: seq<Byte>, s: seq<Byte>) {
    |p| <= |s| && forall i | 0 <= i < |p| :: Fold(s[i]) == Fold(p[i])
  }

  /** A pattern that ends in the wildcard. */
  predicate Wild(pattern: seq<Byte>) {
    |pattern| > 0 && pattern[|pattern| - 1] == PERCENT
  }

  /** The strings that start with the pattern but lie past its range: a byte 0xFF and more follow the prefix. */
  predicate PastEnd(p: seq<Byte>, s: seq<Byte>) {
    |s| > |p| + 1 && s[|p|] == 255
  }

  /** What a predicate says of a column's value. NULL satisfies IS NULL, and it is not greater than anything. */
  predicate Says(f: CmpFunc, t: Term, x: Value) {
    match t
    case EqTerm(v) => Cmp(f, x, v) == 0
    case NeTerm(v) => Cmp(f, x, v) != 0
    case GtTerm(v) => Cmp(f, x, v) > 0 && !x.Null?
    case GeTerm(v) => Cmp(f, x, v) >= 0 && !x.Null?
    case LtTerm(v) => Cmp(f, x, v) < 0
    case LeTerm(v) => Cmp(f, x, v) <= 0
    case LikeTerm(pattern) =>
      x.Str? && if Wild(pattern) then PrefixFold(pattern[..|pattern| - 1], x.str) else Cmp(f, x, Str(pattern)) == 0
    case IsTerm(v) => x.Null? && v.Null?
    case InTerm(lst) => exists i | 0 <= i < |lst| :: Cmp(f, x, lst[i]) == 0
  }

  /** The column a property denotes, -1 for an unknown name. */
  function ColumnOf(names: Option<seq<Option<seq<Byte>>>>, prop: Property): int {
    if prop.name.Some? && names.Some? then ByName(names.value, prop.name.value, 0) else prop.id - 1
  }

  /** strcasecmp finds no difference. */
  predicate SameName(a: seq<Byte>, b: seq<Byte>) {
    |a| == |b| && PrefixFold(a, b)
  }

  /** The first column from i on that has the name, or -1. */
  function ByName(names: seq<Option<seq<Byte>>>, name: seq<Byte>, i: nat): (c: int)
    requires i <= |names|
    ensures c == -1 || (i <= c < |names| && names[c].Some? && SameName(name, names[c].value))
    ensures forall j | i <= j < |names| && (c == -1 || j < c) :: names[j].Some? ==> !SameName(name, names[j].value)
    decreases |names| - i
  {
    if i == |names| then -1
    else if names[i].Some? && SameName(name, names[i].value) then i
    else ByName(names, name, i + 1)
  }

  /** What a parse tree says of a key. */
  predicate Tells(fv: Schema, names: Option<seq<Option<seq<Byte>>>>, n: ParseNode, k: MultiKey)
    requires |k| <= |fv|
  {
    match n
    case PredNode(prop, t) =>
      var c := ColumnOf(names, prop);
      0 <= c < |k| && Says(fv[c], t, k[c])
    case CondNode(l, isOr, r) =>
      if isOr then Tells(fv, names, l, k) || Tells(fv, names, r, k)
      else Tells(fv, names, l, k) && Tells(fv, names, r, k)
  }

  // ---------------------------------------------------------------- what the saying comes to

  /** A prefix, letter by letter. */
  lemma PrefixLetters(p: seq<Byte>, s: seq<Byte>)
    ensures PrefixFold(p, s) <==> |p| <= |s| && forall i | 0 <= i < |p| :: SameLetter(p[i], s[i])
  {
    hide SameLetter;
    forall i | 0 <= i < |p| && i < |s| ensures SameLetter(p[i], s[i]) <==> Fold(s[i]) == Fold(p[i]) {
      SameFold(p[i], s[i]);
    }
  }

  /** The number of a column counts from 1, with names or without. */
  lemma NumberedColumn(fv: Schema, names: Option<seq<Option<seq<Byte>>>>, i: nat, t: Term, k: MultiKey)
    requires i < |fv| == |k|
    ensures Tells(fv, names, PredNode(Property(None, i + 1), t), k) <==> Says(fv[i], t, k[i])
  {
  }

  /** Numbers that are no column's are nothing a key can satisfy. */
  lemma NoSuchNumber(fv: Schema, names: Option<seq<Option<seq<Byte>>>>, id: int, t: Term, k: MultiKey)
    requires |k| == |fv| && (id <= 0 || id > |fv|)
    ensures !Tells(fv, names, PredNode(Property(None, id), t), k)
  {
  }

  /** Two names are equal, case aside. */
  predicate IsName(a: seq<Byte>, b: seq<Byte>) {
    |a| == |b| && forall i | 0 <= i < |a| :: SameLetter(a[i], b[i])
  }

  /** Column i has the name and no column before it does. */
  predicate FirstNamed(names: seq<Option<seq<Byte>>>, name: seq<Byte>, i: nat)
    requires i < |names|
  {
    && names[i].Some? && IsName(name, names[i].value)
    && forall j | 0 <= j < i :: names[j].Some? ==> !IsName(name, names[j].value)
  }

  /** c is the first column with the name, or -1 if there is none. */
  predicate ColumnNamed(names: seq<Option<seq<Byte>>>, name: seq<Byte>, c: int) {
    if 0 <= c < |names| then FirstNamed(names, name, c)
    else c == -1 && forall j | 0 <= j < |names| :: names[j].Some? ==> !IsName(name, names[j].value)
  }

  lemma ByNameExact(names: seq<Option<seq<Byte>>>, name: seq<Byte>)
    ensures ColumnNamed(names, name, ByName(names, name, 0))
  {
    forall j | 0 <= j < |names|
      ensures names[j].Some? ==> (SameName(name, names[j].value) <==> IsName(name, names[j].value)) {
      if names[j].Some? { PrefixLetters(name, names[j].value); }
    }
  }

  /**
   * A name is that of the first column so named, case aside, whatever the number, and a name of no column says
   * nothing.
   */
  lemma NamedColumn(fv: Schema, names: seq<Option<seq<Byte>>>, name: seq<Byte>, id: int, t: Term, k: MultiKey)
    requires |names| == |fv| == |k|
    ensures forall i | 0 <= i < |fv| && FirstNamed(names, name, i) ::
              Tells(fv, Some(names), PredNode(Property(Some(name), id), t), k) <==> Says(fv[i], t, k[i])
    ensures (forall i | 0 <= i < |fv| :: !FirstNamed(names, name, i)) ==>
              !Tells(fv, Some(names), PredNode(Property(Some(name), id), t), k)
  {
    hide *;
    var c := ByName(names, name, 0);
    NamedColumnIs(names, name, id);
    ByNameExact(names, name);
    NamedRange(names, name, c);
    TellsColumn(fv, Some(names), Property(Some(name), id), t, k);
    if 0 <= c < |fv| { OneFirst(names, name, c, c); }
    forall i | 0 <= i < |fv| && FirstNamed(names, name, i) ensures c == i { OneFirst(names, name, c, i); }
  }

  lemma NamedColumnIs(names: seq<Option<seq<Byte>>>, name: seq<Byte>, id: int)
    ensures ColumnOf(Some(names), Property(Some(name), id)) == ByName(names, name, 0)
  {
  }

  lemma NamedRange(names: seq<Option<seq<Byte>>>, name: seq<Byte>, c: int)
    requires ColumnNamed(names, name, c)
    ensures c == -1 || 0 <= c < |names|
  {
  }

  lemma TellsColumn(fv: Schema, names: Option<seq<Option<seq<Byte>>>>, prop: Property, t: Term, k: MultiKey)
    requires |k| == |fv|
    ensures Tells(fv, names, PredNode(prop, t), k) <==>
            var c := ColumnOf(names, prop); 0 <= c < |fv| && Says(fv[c], t, k[c])
  {
    hide Says, ColumnOf;
  }

  lemma OneFirst(names: seq<Option<seq<Byte>>>, name: seq<Byte>, c: int, i: nat)
    requires ColumnNamed(names, name, c) && i < |names|
    ensures FirstNamed(names, name, i) <==> c == i
  {
    hide IsName;
  }

  // ---------------------------------------------------------------- lowering

  /**
   * toQueryNode. A LIKE pattern ending in the wildcard becomes the range from the prefix to the prefix and a byte
   * 0xFF.
   */
  function Lower(t: Term, c: int): Predicate
    requires !t.NeTerm? && (t.IsTerm? ==> t.v.Null?)
  {
    match t
    case EqTerm(v) => PredEq(c, v)
    case GtTerm(v) => PredRange(c, v, true, Inf, false)
    case GeTerm(v) => PredRange(c, v, false, Inf, false)
    case LtTerm(v) => PredRange(c, NegInf, false, v, true)
    case LeTerm(v) => PredRange(c, NegInf, false, v, false)
    case InTerm(lst) => PredIn(c, lst)
    case LikeTerm(pattern) =>
      if Wild(pattern) then
        var n := |pattern| - 1;
        PredRange(c, Str(pattern[..n]), false, Str(pattern[n := 255]), false)
      else PredEq(c, Str(pattern))
    case IsTerm(_) => PredIsNull(c)
  }

  ghost function Lowered(names: Option<seq<Option<seq<Byte>>>>, n: ParseNode): Tree
    requires Supported(n)
  {
    match n
    case PredNode(prop, t) => Leaf(Lower(t, ColumnOf(names, prop)), false)
    case CondNode(l, isOr, r) => Logic(if isOr then OpOr else OpAnd, Lowered(names, l), Lowered(names, r), false)
  }

  lemma {:induction false} LoweredPlain(names: Option<seq<Option<seq<Byte>>>>, n: ParseNode)
    requires Supported(n)
    ensures Plain(Lowered(names, n))
  {
    if n.CondNode? {
      LoweredPlain(names, n.left);
      LoweredPlain(names, n.right);
    }
  }

  // ---------------------------------------------------------------- the meaning of the lowered tree

  /** Comparison with a NUL-free p: at least p, or a shared prefix decides. */
  lemma {:induction false} LikeLow(p: seq<Byte>, s: seq<Byte>)
    requires 0 !in p
    ensures PrefixFold(p, s) ==> CmpStrings(s, p) >= 0 && (CmpStrings(s, p + [255]) <= 0 <==> !PastEnd(p, s))
    ensures !PrefixFold(p, s) ==> CmpStrings(s, p) < 0 || CmpStrings(s, p + [255]) > 0
  {
    var q := p + [255];
    if p == [] {
      assert q == [255];
      if s != [] { assert StrNCaseCmp(s[1..], q[1..]) == 0; }
    } else if s == [] || Fold(s[0]) != Fold(p[0]) {
      assert q[0] == p[0];
    } else {
      assert p[0] in p;
      assert q[1..] == p[1..] + [255];
      LikeLow(p[1..], s[1..]);
      assert PrefixFold(p, s) <==> PrefixFold(p[1..], s[1..]) by {
        if PrefixFold(p[1..], s[1..]) {
          forall i | 0 <= i < |p| ensures Fold(s[i]) == Fold(p[i]) {
            if i > 0 { assert s[1..][i - 1] == s[i] && p[1..][i - 1] == p[i]; }
          }
        }
      }
    }
  }

  /**
   * The range for LIKE 'p%' accepts a string exactly when it starts with p, case aside, and is not past the
   * range's end. Hence strings without a byte 0xFF are accepted exactly on their prefix.
   */
  lemma LikeRangeExact(p: seq<Byte>, s: seq<Byte>)
    requires 0 !in p
    ensures Within(CmpStrings(s, p), false, CmpStrings(s, p + [255]), false) <==> PrefixFold(p, s) && !PastEnd(p, s)
    ensures 255 !in s ==> (Within(CmpStrings(s, p), false, CmpStrings(s, p + [255]), false) <==> PrefixFold(p, s))
  {
    LikeLow(p, s);
    if PastEnd(p, s) { assert s[|p|] in s; }
  }

  /** A NUL in the prefix ends the comparison, so that strings which differ behind it are equal. */
  lemma {:induction false} NulHides(p: seq<Byte>, a: seq<Byte>, b: seq<Byte>)
    requires 0 in p
    ensures StrNCaseCmp(p + a, p + b) == 0
  {
    assert (p + a)[1..] == p[1..] + a && (p + b)[1..] == p[1..] + b;
    if p[0] != 0 { NulHides(p[1..], a, b); }
  }

  /** The range for LIKE 'p%' accepts what it should, for all strings, exactly if p holds no NUL. */
  lemma LikeNulExact(p: seq<Byte>)
    ensures 0 !in p <==>
            forall s ::
              Within(CmpStrings(s, p), false, CmpStrings(s, p + [255]), false) <==> PrefixFold(p, s) && !PastEnd(p, s)
  {
    if 0 !in p {
      forall s
        ensures Within(CmpStrings(s, p), false, CmpStrings(s, p + [255]), false) <==> PrefixFold(p, s) && !PastEnd(p, s)
      {
        LikeRangeExact(p, s);
      }
    } else {
      var s := p + [1, 1];
      NulHides(p, [1, 1], [255]);
      assert PrefixFold(p, s) && !PastEnd(p, s);
      assert CmpStrings(s, p + [255]) > 0;
    }
  }

  /** The patterns and values for which the meaning below is stated: no NUL in a LIKE prefix, no infinities. */
  predicate Ordinary(f: CmpFunc, t: Term) {
    match t
    case LikeTerm(pattern) => f.CmpString? && 0 !in pattern
    case InTerm(_) => true
    case EqTerm(v) => Storable(v)
    case NeTerm(v) => Storable(v)
    case GtTerm(v) => Storable(v)
    case GeTerm(v) => Storable(v)
    case LtTerm(v) => Storable(v)
    case LeTerm(v) => Storable(v)
    case IsTerm(v) => Storable(v)
  }

  /** A stored value of a column's own type. */
  predicate Typed(f: CmpFunc, x: Value) {
    Storable(x) && (f.CmpString? ==> x.Str? || x.Null?)
  }

  /** A LIKE whose range ends before a string with its prefix: a byte 0xFF and more follow the prefix. */
  predicate Overruns(t: Term, x: Value) {
    t.LikeTerm? && Wild(t.pattern) && x.Str? &&
    var p := t.pattern[..|t.pattern| - 1];
    PrefixFold(p, x.str) && PastEnd(p, x.str)
  }

  /** The lowered predicate means what the parsed one says, exactly unless a LIKE overruns. */
  lemma LowerMeans(f: CmpFunc, t: Term, x: Value)
    requires !t.NeTerm? && (t.IsTerm? ==> t.v.Null?)
    requires Ordinary(f, t) && Typed(f, x)
    ensures (Means([f], Lower(t, 0), [x]) <==> Says(f, t, x)) <==> !Overruns(t, x)
  {
    if t.LikeTerm? && Wild(t.pattern) {
      var n := |t.pattern| - 1;
      assert t.pattern[n := 255] == t.pattern[..n] + [255];
      if x.Str? { LikeRangeExact(t.pattern[..n], x.str); }
    }
  }

  /** A LIKE overruns only strings that hold a byte 0xFF. */
  lemma OverrunByte(t: Term, x: Value)
    requires Overruns(t, x)
    ensures 255 in x.str
  {
    assert x.str[|t.pattern| - 1] in x.str;
  }

  /** The lowered comparisons of numbers are those of their operators, here for the 64-bit ones. */
  lemma LoweredNumbers(a: int, x: int)
    ensures Means([CmpLong], Lower(EqTerm(Int64(a)), 0), [Int64(x)]) <==> x == a
    ensures Means([CmpLong], Lower(GtTerm(Int64(a)), 0), [Int64(x)]) <==> x > a
    ensures Means([CmpLong], Lower(GeTerm(Int64(a)), 0), [Int64(x)]) <==> x >= a
    ensures Means([CmpLong], Lower(LtTerm(Int64(a)), 0), [Int64(x)]) <==> x < a
    ensures Means([CmpLong], Lower(LeTerm(Int64(a)), 0), [Int64(x)]) <==> x <= a
  {
    hide Cmp;
    IntegersInOrder(x, a);
    InfinitiesBound(CmpLong, Int64(x));
  }

  lemma LoweredList(lst: seq<int>, x: int)
    ensures var vals := seq(|lst|, i requires 0 <= i < |lst| => Int64(lst[i]));
            Means([CmpLong], Lower(InTerm(vals), 0), [Int64(x)]) <==> x in lst
  {
    hide Cmp;
    var vals := seq(|lst|, i requires 0 <= i < |lst| => Int64(lst[i]));
    forall i | 0 <= i < |lst| ensures Cmp(CmpLong, Int64(x), vals[i]) == 0 <==> x == lst[i] {
      IntegersInOrder(x, lst[i]);
    }
    if x in lst {
      var i :| 0 <= i < |lst| && lst[i] == x;
      assert Cmp(CmpLong, Int64(x), vals[i]) == 0;
    }
  }

  /** LIKE with a prefix asks for its letters, case aside. */
  lemma LoweredLike(p: seq<Byte>, s: seq<Byte>)
    requires 0 !in p && 255 !in s
    ensures Means([CmpString], Lower(LikeTerm(p + [PERCENT]), 0), [Str(s)]) <==>
            |p| <= |s| && forall i | 0 <= i < |p| :: SameLetter(p[i], s[i])
  {
    hide SameLetter;
    var t := LikeTerm(p + [PERCENT]);
    assert t.pattern[..|p|] == p;
    LowerMeans(CmpString, t, Str(s));
    if Overruns(t, Str(s)) { OverrunByte(t, Str(s)); }
    PrefixLetters(p, s);
  }

  /** For every column that exists: an ordinary term, and a value of the column's type that no LIKE overruns. */
  ghost predicate WellTyped(fv: Schema, names: Option<seq<Option<seq<Byte>>>>, n: ParseNode, k: MultiKey) {
    && |k| == |fv|
    && match n
       case PredNode(prop, t) =>
         var c := ColumnOf(names, prop);
         0 <= c < |fv| ==> Ordinary(fv[c], t) && Typed(fv[c], k[c]) && !Overruns(t, k[c])
       case CondNode(l, _, r) => WellTyped(fv, names, l, k) && WellTyped(fv, names, r, k)
  }

  /** The lowered tree means what the parse tree says, for every key. */
  lemma {:induction false} LoweredMeans(fv: Schema, names: Option<seq<Option<seq<Byte>>>>, n: ParseNode, k: MultiKey)
    requires Supported(n) && WellTyped(fv, names, n, k)
    ensures Eval(Lowered(names, n), Condition(fv, k)) <==> Tells(fv, names, n, k)
  {
    match n
    case PredNode(prop, t) =>
      var c := ColumnOf(names, prop);
      if 0 <= c < |k| { LowerMeans(fv[c], t, k[c]); }
    case CondNode(l, _, r) =>
      LoweredMeans(fv, names, l, k);
      LoweredMeans(fv, names, r, k);
  }

  // ---------------------------------------------------------------- the code

  /** SISpec_PropertyByName. */
  method PropertyByName(names: seq<Option<seq<Byte>>>, name: seq<Byte>) returns (c: int)
    ensures c == ByName(names, name, 0)
  {
    for i := 0 to |names|
      invariant ByName(names, name, 0) == ByName(names, name, i)
    {
      if names[i].Some? && SameName(name, names[i].value) {
        return i;
      }
    }
    c := -1;
  }

  lemma LowerColumn(t: Term, c: int)
    requires !t.NeTerm? && (t.IsTerm? ==> t.v.Null?)
    ensures Lower(t, c).propId == c
  {
  }

  /** The column of a predicate in traverseNode: the named one, or the number's, which counts from 1. */
  method FindColumn(prop: Property, names: Option<seq<Option<seq<Byte>>>>) returns (c: int)
    ensures c == ColumnOf(names, prop)
    ensures if prop.name.Some? && names.Some? then ColumnNamed(names.value, prop.name.value, c) else c == prop.id - 1
  {
    hide ColumnNamed, ByName;
    c := prop.id - 1;
    if prop.name.Some? && names.Some? {
      c := PropertyByName(names.value, prop.name.value);
      ByNameExact(names.value, prop.name.value);
    }
  }

  /** traverseNode: build the query nodes and count the predicates. */
  method TraverseNode(q: Query, n: ParseNode, names: Option<seq<Option<seq<Byte>>>>) returns (ret: QueryNode)
    requires Supported(n)
    modifies q
    ensures ret.Valid() && fresh(ret.Repr) && ret.tree == Lowered(names, n)
    ensures n.PredNode? ==>
              && ret.tree.Leaf? && var c := ret.tree.pred.propId;
              if n.prop.name.Some? && names.Some? then ColumnNamed(names.value, n.prop.name.value, c)
              else c == n.prop.id - 1
    ensures q.numPredicates == old(q.numPredicates) + Leaves(ret.tree) && q.root == old(q.root)
    decreases n
  {
    hide Lower, ByName, ColumnOf, ColumnNamed;
    if n.CondNode? {
      var left := TraverseNode(q, n.left, names);
      var right := TraverseNode(q, n.right, names);
      ret := new QueryNode.Logical(left, if n.isOr then OpOr else OpAnd, right);
    } else {
      var c := FindColumn(n.prop, names);
      LowerColumn(n.term, c);
      ret := new QueryNode.Predicate(Lower(n.term, c));
      q.numPredicates := q.numPredicates + 1;
    }
  }

  /** SI_ParseQuery, from the parse tree on: a query that can be planned. */
  method ParseQuery(q: Query, root: ParseNode, names: Option<seq<Option<seq<Byte>>>>)
    requires Supported(root)
    modifies q
    ensures q.root != null && q.root.Valid() && fresh(q.root.Repr) && q.root.tree == Lowered(names, root)
    ensures Plain(q.root.tree) && q.numPredicates == Leaves(q.root.tree) > 0
  {
    q.numPredicates := 0;
    q.root := TraverseNode(q, root, names);
    LoweredPlain(names, root);
  }
}
