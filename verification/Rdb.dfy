/** Saving an index to an RDB stream and loading it back (src/index_type.c). */
module Rdb {
  import opened Values
  import opened Orders
  import opened Keys
  import opened Skiplists
  import opened KHashes
  import opened ReverseIndexes
  import opened IndexStates
  import opened Indexes
  import opened Traversals
  import opened Reloads

  // ---------------------------------------------------------------- the stream

  /** What the module API writes. */
  datatype Token = Unsigned(u: nat) | Signed(i: int) | Double(d: real) | Buffer(s: seq<Byte>)

  const WORD: nat := 0x1_0000_0000_0000_0000
  const HALF: nat := 0x1_0000_0000

  function ToWord(i: int): (u: nat)
    ensures u < WORD
  {
    i % WORD
  }

  /** Truncation to a signed 32-bit integer. */
  function ToInt32(i: int): (r: int)
    ensures -0x8000_0000 <= r < 0x8000_0000
  {
    var u := i % HALF;
    if u < 0x8000_0000 then u else u - HALF
  }

  lemma Int32Word(i: int)
    requires -0x8000_0000 <= i < 0x8000_0000
    ensures ToInt32(ToWord(i)) == i && ToInt32(i) == i
  {
  }

  class RedisIO {
    var stream: seq<Token>
    var pos: nat

    ghost predicate Valid()
      reads this
    {
      pos <= |stream|
    }

    /** What is still to be read. */
    ghost function Rest(): seq<Token>
      requires Valid()
      reads this
    {
      stream[pos..]
    }

    method Save(t: Token)
      requires Valid()
      modifies this
      ensures Valid() && pos == old(pos) && stream == old(stream) + [t]
    {
      stream := stream + [t];
    }

    method Load() returns (t: Token)
      requires Valid() && Rest() != []
      modifies this
      ensures Valid() && stream == old(stream) && t == old(Rest())[0] && Rest() == old(Rest())[1..]
    {
      t := stream[pos];
      pos := pos + 1;
    }
  }

  // ---------------------------------------------------------------- values

  /** The tags of the value types. */
  function Tag(v: Value): nat {
    match v
    case Null => 0
    case Str(_) => 0x001
    case Int32(_) => 0x002
    case Int64(_) => 0x004
    case Uint(_) => 0x008
    case Bool(_) => 0x010
    case Float(_) => 0x020
    case Double(_) => 0x040
    case Time(_) => 0x080
    case Inf => 0x100
    case NegInf => 0x200
  }

  /** A value its C type can hold. */
  predicate Fits(v: Value) {
    match v
    case Int32(i) => -0x8000_0000 <= i < 0x8000_0000
    case Bool(i) => -0x8000_0000 <= i < 0x8000_0000
    case Int64(i) => -(WORD / 2) <= i < WORD / 2
    case Time(i) => -(WORD / 2) <= i < WORD / 2
    case Uint(i) => 0 <= i < WORD
    case _ => true
  }

  function ValueTokens(v: Value): seq<Token> {
    [Unsigned(Tag(v))] +
    match v
    case Str(s) => [Buffer(s)]
    case Int32(i) => [Signed(i)]
    case Int64(i) => [Signed(i)]
    case Uint(i) => [Unsigned(ToWord(i))]
    case Bool(i) => [Unsigned(ToWord(i))]
    case Float(r) => [Token.Double(r)]
    case Double(r) => [Token.Double(r)]
    case Time(i) => [Signed(i)]
    case _ => []
  }

  /** __writeValue. */
  method WriteValue(v: Value, rdb: RedisIO)
    requires rdb.Valid()
    modifies rdb
    ensures rdb.Valid() && rdb.pos == old(rdb.pos) && rdb.stream == old(rdb.stream) + ValueTokens(v)
  {
    rdb.Save(Unsigned(Tag(v)));
    match v
    case Str(s) => rdb.Save(Buffer(s));
    case Int32(i) => rdb.Save(Signed(i));
    case Int64(i) => rdb.Save(Signed(i));
    case Uint(i) => rdb.Save(Unsigned(ToWord(i)));
    case Bool(i) => rdb.Save(Unsigned(ToWord(i)));
    case Float(r) => rdb.Save(Token.Double(r));
    case Double(r) => rdb.Save(Token.Double(r));
    case Time(i) => rdb.Save(Signed(i));
    case _ =>
  }

  /**
   * __readValue, on a stream that goes on with a value's tokens: it reads just those, and gives back a storable
   * value.
   */
  method ReadValue(rdb: RedisIO, ghost x: Value, ghost rest: seq<Token>) returns (v: Value)
    requires rdb.Valid() && rdb.Rest() == ValueTokens(x) + rest && Fits(x)
    modifies rdb
    ensures rdb.Valid() && rdb.stream == old(rdb.stream) && rdb.Rest() == rest
    ensures v == if Storable(x) then x else Null
  {
    var t := rdb.Load();
    var tag := t.u;
    if tag == 0x001 {
      t := rdb.Load();
      v := Str(t.s);
    } else if tag == 0x002 {
      t := rdb.Load();
      v := Int32(ToInt32(t.i));
    } else if tag == 0x004 {
      t := rdb.Load();
      v := Int64(t.i);
    } else if tag == 0x008 {
      t := rdb.Load();
      v := Uint(t.u);
    } else if tag == 0x010 {
      t := rdb.Load();
      v := Bool(ToInt32(t.u));
      if x.Bool? { Int32Word(x.boolval); }
    } else if tag == 0x020 {
      t := rdb.Load();
      v := Float(t.d);
    } else if tag == 0x040 {
      t := rdb.Load();
      v := Value.Double(t.d);
    } else if tag == 0x080 {
      t := rdb.Load();
      v := Time(t.i);
    } else {
      v := Null;
    }
  }

  // ---------------------------------------------------------------- records

  ghost function KeyTokens(k: MultiKey): seq<Token> {
    if k == [] then [] else KeyTokens(k[..|k| - 1]) + ValueTokens(k[|k| - 1])
  }

  ghost function VisitTokens(v: Visit): seq<Token> {
    [Buffer(v.1)] + KeyTokens(v.0)
  }

  ghost function VisitsTokens(vs: seq<Visit>): seq<Token> {
    if vs == [] then [] else VisitsTokens(vs[..|vs| - 1]) + VisitTokens(vs[|vs| - 1])
  }

  ghost predicate FitKey(k: MultiKey) {
    forall i | 0 <= i < |k| :: Fits(k[i]) && Storable(k[i])
  }

  lemma {:induction false} VisitsConcat(a: seq<Visit>, b: seq<Visit>)
    ensures VisitsTokens(a + b) == VisitsTokens(a) + VisitsTokens(b)
    decreases |b|
  {
    hide VisitTokens;
    if b == [] {
      assert a + b == a;
    } else {
      assert (a + b)[..|a + b| - 1] == a + b[..|b| - 1];
      VisitsConcat(a, b[..|b| - 1]);
    }
  }

  lemma {:induction false} KeyConcat(a: MultiKey, b: MultiKey)
    ensures KeyTokens(a + b) == KeyTokens(a) + KeyTokens(b)
    decreases |b|
  {
    hide ValueTokens;
    if b == [] {
      assert a + b == a;
    } else {
      assert (a + b)[..|a + b| - 1] == a + b[..|b| - 1];
      KeyConcat(a, b[..|b| - 1]);
    }
  }

  lemma KeyHead(k: MultiKey)
    requires k != []
    ensures KeyTokens(k) == ValueTokens(k[0]) + KeyTokens(k[1..])
  {
    assert k == [k[0]] + k[1..];
    KeyConcat([k[0]], k[1..]);
    var one := [k[0]];
    assert one[..0] == [];
    assert KeyTokens([k[0]]) == KeyTokens([]) + ValueTokens(k[0]) == ValueTokens(k[0]);
  }

  lemma VisitsHead(vs: seq<Visit>)
    requires vs != []
    ensures VisitsTokens(vs) == VisitTokens(vs[0]) + VisitsTokens(vs[1..])
  {
    assert vs == [vs[0]] + vs[1..];
    VisitsConcat([vs[0]], vs[1..]);
    var one := [vs[0]];
    assert one[..0] == [];
    assert VisitsTokens([vs[0]]) == VisitsTokens([]) + VisitTokens(vs[0]) == VisitTokens(vs[0]);
  }

  /** __redisIndex_RdbVisitor: the id, and a value for each column. */
  method RdbVisitor(io: RedisIO, id: Id, mk: MultiKey, numProps: nat)
    requires io.Valid() && |mk| == numProps
    modifies io
    ensures io.Valid() && io.pos == old(io.pos) && io.stream == old(io.stream) + VisitTokens((mk, id))
  {
    io.Save(Buffer(id));
    for i := 0 to numProps
      invariant io.Valid() && io.pos == old(io.pos) && io.stream == old(io.stream) + [Buffer(id)] + KeyTokens(mk[..i])
    {
      WriteValue(mk[i], io);
      assert mk[..i + 1][..i] == mk[..i];
    }
    assert mk[..numProps] == mk;
  }

  /** __redisIndex_SaveIndex. */
  method SaveIndex(idx: CompoundIndex, io: RedisIO)
    requires idx.Valid() && io.Valid()
    modifies io
    ensures io.Valid() && io.pos == old(io.pos)
    ensures io.stream == old(io.stream) + [Unsigned(|idx.Records()|)] + VisitsTokens(Visits(idx.sl.entries))
  {
    hide CompoundIndex.Consistent, CompoundIndex.Owned, Visits, VisitsTokens;
    var len := idx.Len();
    var visits := Traverse(idx);
    AllFull(idx, visits);
    io.Save(Unsigned(len));
    SaveVisits(visits, |idx.cmpFuncs|, io);
  }

  /** The visitor on all callbacks. */
  method SaveVisits(visits: seq<Visit>, numProps: nat, io: RedisIO)
    requires io.Valid() && forall v | v in visits :: |v.0| == numProps
    modifies io
    ensures io.Valid() && io.pos == old(io.pos) && io.stream == old(io.stream) + VisitsTokens(visits)
  {
    for i := 0 to |visits|
      invariant io.Valid() && io.pos == old(io.pos) && io.stream == old(io.stream) + VisitsTokens(visits[..i])
    {
      assert visits[i] in visits;
      RdbVisitor(io, visits[i].1, visits[i].0, numProps);
      assert visits[..i + 1][..i] == visits[..i];
    }
    assert visits[..|visits|] == visits;
  }

  lemma AllFull(idx: CompoundIndex, visits: seq<Visit>)
    requires idx.Consistent() && visits == Visits(idx.sl.entries)
    ensures forall v | v in visits :: |v.0| == |idx.cmpFuncs|
  {
    hide Skiplist.Valid, KHash.Valid, Agree, Unique, Visits;
    VisitKeys(Both(idx.cmpFuncs, idx.sl.entries, idx.Records()), visits);
  }

  lemma NoKeyTokens(k: MultiKey)
    ensures KeyTokens(k[|k|..]) == [] && k[..|k|] == k
  {
  }

  /** The value vector of one record. */
  method ReadKey(io: RedisIO, numProps: nat, ghost k: MultiKey, ghost rest: seq<Token>) returns (v: MultiKey)
    requires io.Valid() && |k| == numProps && FitKey(k) && io.Rest() == KeyTokens(k) + rest
    modifies io
    ensures io.Valid() && io.stream == old(io.stream) && io.Rest() == rest && v == k
  {
    hide ValueTokens, KeyTokens, Fits, Storable;
    v := [];
    assert k[0..] == k;
    for i := 0 to numProps
      invariant io.Valid() && io.stream == old(io.stream) && v == k[..i] && io.Rest() == KeyTokens(k[i..]) + rest
    {
      KeyHead(k[i..]);
      assert k[i..][1..] == k[i + 1..];
      assert KeyTokens(k[i..]) + rest == ValueTokens(k[i]) + (KeyTokens(k[i + 1..]) + rest);
      var x := ReadValue(io, k[i], KeyTokens(k[i + 1..]) + rest);
      v := v + [x];
    }
    NoKeyTokens(k);
  }

  /** One turn of the loading loop. */
  method LoadRecord(idx: CompoundIndex, io: RedisIO, ghost v: Visit, ghost rest: seq<Token>)
    requires io.Valid() && io.Rest() == VisitTokens(v) + rest && |v.0| == |idx.cmpFuncs| && FitKey(v.0)
    requires idx.Valid() && |idx.Records()| <= MAX_ENTRIES && io !in idx.Repr
    modifies io, idx, idx.Repr
    ensures io.Valid() && io.stream == old(io.stream) && io.Rest() == rest
    ensures idx.Valid() && fresh(idx.Repr - old(idx.Repr))
    ensures idx.Records() == Step(idx.cmpFuncs, idx.unique, old(idx.Records()), AddChange(v.1, v.0)).1
  {
    hide CompoundIndex.Consistent, Step, Outcome;
    var t := io.Load();
    var id := t.s;
    assert io.Rest() == KeyTokens(v.0) + rest;
    IoApart(idx, io);
    var k := ReadKey(io, |idx.cmpFuncs|, v.0, rest);
    var rc := idx.Apply([AddChange(id, k)]);
  }

  lemma IoApart(idx: CompoundIndex, io: RedisIO)
    requires idx.Valid() && io !in idx.Repr
    ensures io as object !in {idx.sl as object, idx.ri, idx.ri.flags, idx.ri.keys, idx.ri.vals}
    ensures forall n | n in idx.sl.Nodes() :: n as object != io
  {
  }

  /** __redisIndex_LoadIndex, on a stream that goes on with at least the promised number of records. */
  method LoadIndex(unique: bool, cmpFuncs: Schema, hash: Id -> nat, io: RedisIO, ghost vs: seq<Visit>,
                   ghost rest: seq<Token>)
    returns (idx: CompoundIndex)
    requires io.Valid() && |cmpFuncs| <= 255 && |vs| <= MAX_ENTRIES
    requires io.Rest() == [Unsigned(|vs|)] + VisitsTokens(vs) + rest
    requires forall v | v in vs :: |v.0| == |cmpFuncs| && FitKey(v.0)
    modifies io
    ensures io.Valid() && io.stream == old(io.stream) && io.Rest() == rest
    ensures fresh(idx) && idx.Valid() && idx.unique == unique && idx.cmpFuncs == cmpFuncs
    ensures idx.Records() == Reload(cmpFuncs, unique, vs)
  {
    hide CompoundIndex.Consistent, CompoundIndex.Owned, VisitsTokens, Reload;
    var elements;
    idx, elements := StartLoad(unique, cmpFuncs, hash, io);
    ghost var done: nat := 0;
    LoadStarts(cmpFuncs, unique, vs);
    while elements > 0
      invariant io.Valid() && io.stream == old(io.stream) && done + elements == |vs|
      invariant io.Rest() == VisitsTokens(vs[done..]) + rest
      invariant fresh(idx) && fresh(idx.Repr) && idx.Valid()
      invariant idx.Records() == Reload(cmpFuncs, unique, vs[..done]) && idx.unique == unique &&
                idx.cmpFuncs == cmpFuncs
      decreases elements
    {
      LoadSteps(cmpFuncs, unique, vs, done, rest);
      LoadRecord(idx, io, vs[done], VisitsTokens(vs[done + 1..]) + rest);
      elements, done := elements - 1, done + 1;
    }
    LoadEnds(vs, done);
  }

  method StartLoad(unique: bool, cmpFuncs: Schema, hash: Id -> nat, io: RedisIO)
    returns (idx: CompoundIndex, elements: nat)
    requires io.Valid() && |cmpFuncs| <= 255 && io.Rest() != [] && io.Rest()[0].Unsigned?
    modifies io
    ensures io.Valid() && io.stream == old(io.stream) && elements == old(io.Rest())[0].u &&
            io.Rest() == old(io.Rest())[1..]
    ensures fresh(idx) && fresh(idx.Repr) && idx.Valid() && idx.Records() == map[]
    ensures idx.unique == unique && idx.cmpFuncs == cmpFuncs
  {
    hide CompoundIndex.Consistent;
    idx := new CompoundIndex(unique, cmpFuncs, hash);
    IoApart(idx, io);
    var t := io.Load();
    elements := t.u;
  }

  lemma LoadStarts(fv: Schema, unique: bool, vs: seq<Visit>)
    ensures vs[0..] == vs && Reload(fv, unique, vs[..0]) == map[]
  {
  }

  lemma LoadEnds(vs: seq<Visit>, done: nat)
    requires done == |vs|
    ensures vs[..done] == vs && VisitsTokens(vs[done..]) == []
  {
  }

  lemma LoadSteps(fv: Schema, unique: bool, vs: seq<Visit>, done: nat, rest: seq<Token>)
    requires done < |vs|
    ensures vs[done] in vs && |Reload(fv, unique, vs[..done])| <= done
    ensures VisitsTokens(vs[done..]) + rest == VisitTokens(vs[done]) + (VisitsTokens(vs[done + 1..]) + rest)
    ensures Reload(fv, unique, vs[..done + 1]) ==
            Step(fv, unique, Reload(fv, unique, vs[..done]), AddChange(vs[done].1, vs[done].0)).1
  {
    hide Step;
    VisitsHead(vs[done..]);
    assert vs[done..][1..] == vs[done + 1..];
    assert vs[..done + 1][..done] == vs[..done];
    LoadedSize(fv, unique, vs[..done]);
  }

  lemma {:induction false} LoadedSize(fv: Schema, unique: bool, vs: seq<Visit>)
    ensures |Reload(fv, unique, vs)| <= |vs|
  {
    if vs != [] {
      var k := |vs| - 1;
      LoadedSize(fv, unique, vs[..k]);
      StepGrowsByOne(fv, unique, Reload(fv, unique, vs[..k]), AddChange(vs[k].1, vs[k].0));
    }
  }

  // ---------------------------------------------------------------- the specification of an index

  datatype IndexProperty = IndexProperty(tag: nat, flags: nat, name: Option<seq<Byte>>)

  datatype Spec = Spec(properties: seq<IndexProperty>, flags: nat)

  predicate Named(flags: nat) { flags % 2 == 1 }

  predicate IsUnique(flags: nat) { flags / 2 % 2 == 1 }

  /** The comparator of a column type; there are no others. */
  function CmpOf(tag: nat): Option<CmpFunc> {
    match tag
    case 0x001 => Some(CmpString)
    case 0x002 => Some(CmpInt)
    case 0x004 => Some(CmpLong)
    case 0x008 => Some(CmpUint)
    case 0x010 => Some(CmpInt)
    case 0x020 => Some(CmpFloat)
    case 0x040 => Some(CmpDouble)
    case 0x080 => Some(CmpTime)
    case _ => None
  }

  /** A specification an index can be made from, its columns counted in a byte. */
  predicate Usable(sp: Spec) {
    && |sp.properties| <= 255 && sp.flags < HALF
    && forall i | 0 <= i < |sp.properties| :: CmpOf(sp.properties[i].tag).Some? && sp.properties[i].flags < HALF
  }

  function SchemaOf(sp: Spec): (fv: Schema)
    requires Usable(sp)
    ensures |fv| == |sp.properties|
  {
    seq(|sp.properties|, i requires 0 <= i < |sp.properties| => CmpOf(sp.properties[i].tag).value)
  }

  /** The comparator orders two values as told. */
  predicate Compares(f: CmpFunc, v: Value, w: Value, below: bool, same: bool) {
    (Cmp(f, v, w) < 0 <==> below) && (Cmp(f, v, w) == 0 <==> same)
  }

  /** A column is compared by what its values hold, whichever of the types it is given; there are no other types. */
  lemma ColumnInOrder(sp: Spec, i: nat, a: int, b: int, x: real, y: real, s: seq<Byte>, t: seq<Byte>)
    requires Usable(sp) && i < |sp.properties|
    ensures var tag, f := sp.properties[i].tag, SchemaOf(sp)[i];
            && (tag == 0x001 ==> Tag(Str(s)) == tag && Cmp(f, Str(s), Str(t)) == CmpStrings(s, t))
            && (tag == 0x002 ==> Tag(Int32(a)) == tag && Compares(f, Int32(a), Int32(b), a < b, a == b))
            && (tag == 0x004 ==> Tag(Int64(a)) == tag && Compares(f, Int64(a), Int64(b), a < b, a == b))
            && (tag == 0x008 ==> Tag(Uint(a)) == tag && Compares(f, Uint(a), Uint(b), a < b, a == b))
            && (tag == 0x010 ==> Tag(Bool(a)) == tag && Compares(f, Bool(a), Bool(b), a < b, a == b))
            && (tag == 0x020 ==> Tag(Float(x)) == tag && Compares(f, Float(x), Float(y), x < y, x == y))
            && (tag == 0x040 ==> Tag(Value.Double(x)) == tag
                                 && Compares(f, Value.Double(x), Value.Double(y), x < y, x == y))
            && (tag == 0x080 ==> Tag(Time(a)) == tag && Compares(f, Time(a), Time(b), a < b, a == b))
    ensures exists v | Storable(v) && !v.Null? :: sp.properties[i].tag == Tag(v)
  {
    hide Cmp;
    IntegersInOrder(a, b);
    RealsInOrder(x, y);
    StringsCompared(s, t);
    var tag := sp.properties[i].tag;
    var v := match CmpOf(tag).value
      case CmpString => Str([])
      case CmpInt => if tag == 0x002 then Int32(0) else Bool(0)
      case CmpLong => Int64(0)
      case CmpUint => Uint(0)
      case CmpFloat => Float(0.0)
      case CmpDouble => Value.Double(0.0)
      case CmpTime => Time(0);
    assert Storable(v) && tag == Tag(v);
  }

  const INDEX_NAMED := 0x1
  const INDEX_UNIQUE := 0x2

  /** Each flag is read from its own bit, whatever the other bits are. */
  lemma FlagsRead(named: bool, unique: bool, others: nat)
    ensures var flags := (if named then INDEX_NAMED else 0) + (if unique then INDEX_UNIQUE else 0) + 4 * others;
            Named(flags) == named && IsUnique(flags) == unique
  {
  }

  ghost function PropertyTokens(named: bool, p: IndexProperty): seq<Token> {
    (if named then [Buffer(if p.name.Some? then p.name.value else [])] else [])
    + [Signed(p.tag), Signed(ToInt32(p.flags))]
  }

  ghost function PropertiesTokens(named: bool, ps: seq<IndexProperty>): seq<Token> {
    if ps == [] then [] else PropertyTokens(named, ps[0]) + PropertiesTokens(named, ps[1..])
  }

  ghost function SpecTokens(sp: Spec): seq<Token> {
    [Unsigned(sp.flags), Unsigned(|sp.properties|)] + PropertiesTokens(Named(sp.flags), sp.properties)
  }

  /** The property that is loaded for a saved one: the columns of an index that is not named have no name. */
  function LoadedProperty(named: bool, p: IndexProperty): IndexProperty {
    p.(name := if !named then None else if p.name.Some? then p.name else Some([]))
  }

  function LoadedSpec(sp: Spec): Spec {
    sp.(properties := seq(|sp.properties|,
      i requires 0 <= i < |sp.properties| => LoadedProperty(Named(sp.flags), sp.properties[i])))
  }

  /** A specification survives exactly if the columns are named when, and only when, the index is. */
  lemma SpecRoundTrip(sp: Spec)
    ensures LoadedSpec(sp) == sp <==>
            forall i | 0 <= i < |sp.properties| :: sp.properties[i].name.Some? == Named(sp.flags)
    ensures Usable(sp) ==> Usable(LoadedSpec(sp)) && SchemaOf(LoadedSpec(sp)) == SchemaOf(sp)
  {
    var ps, qs := sp.properties, LoadedSpec(sp).properties;
    assert forall i | 0 <= i < |ps| :: qs[i] == ps[i] <==> ps[i].name.Some? == Named(sp.flags);
    if qs == ps {
      forall i | 0 <= i < |ps| ensures ps[i].name.Some? == Named(sp.flags) { assert qs[i] == ps[i]; }
    }
    if Usable(sp) {
      assert forall i | 0 <= i < |ps| :: qs[i].tag == ps[i].tag && qs[i].flags == ps[i].flags;
    }
  }

  /** One turn of the loop of __redisIndex_SaveSpec. */
  method SaveProperty(io: RedisIO, named: bool, p: IndexProperty)
    requires io.Valid()
    modifies io
    ensures io.Valid() && io.pos == old(io.pos) && io.stream == old(io.stream) + PropertyTokens(named, p)
  {
    if named {
      io.Save(Buffer(if p.name.Some? then p.name.value else []));
    }
    io.Save(Signed(p.tag));
    io.Save(Signed(ToInt32(p.flags)));
  }

  /** __redisIndex_SaveSpec. */
  method SaveSpec(sp: Spec, io: RedisIO)
    requires io.Valid()
    modifies io
    ensures io.Valid() && io.pos == old(io.pos) && io.stream == old(io.stream) + SpecTokens(sp)
  {
    hide PropertyTokens;
    io.Save(Unsigned(sp.flags));
    io.Save(Unsigned(|sp.properties|));
    ghost var was := io.stream;
    var named := Named(sp.flags);
    assert sp.properties[0..] == sp.properties;
    for i := 0 to |sp.properties|
      invariant io.Valid() && io.pos == old(io.pos)
      invariant io.stream + PropertiesTokens(named, sp.properties[i..]) == was + PropertiesTokens(named, sp.properties)
    {
      assert sp.properties[i..][1..] == sp.properties[i + 1..];
      ghost var before, p, later :=
                io.stream, PropertyTokens(named, sp.properties[i]), PropertiesTokens(named, sp.properties[i + 1..]);
      SaveProperty(io, named, sp.properties[i]);
      assert before + (p + later) == (before + p) + later;
    }
    assert io.stream + [] == io.stream;
    assert io.stream == was + PropertiesTokens(named, sp.properties);
  }

  /** One turn of the loop of __redisIndex_LoadSpec. */
  method LoadProperty(io: RedisIO, named: bool, ghost p: IndexProperty, ghost rest: seq<Token>)
    returns (q: IndexProperty)
    requires io.Valid() && io.Rest() == PropertyTokens(named, p) + rest && CmpOf(p.tag).Some? && p.flags < HALF
    modifies io
    ensures io.Valid() && io.stream == old(io.stream) && io.Rest() == rest && q == LoadedProperty(named, p)
  {
    var name: Option<seq<Byte>> := None;
    if named {
      var t := io.Load();
      name := Some(t.s);
    }
    var tag := io.Load();
    var flags := io.Load();
    q := IndexProperty(tag.i, flags.i % HALF, name);
  }

  /** Its loop. */
  method LoadProperties(io: RedisIO, numProps: nat, named: bool, ghost sp: Spec, ghost rest: seq<Token>)
    returns (properties: seq<IndexProperty>)
    requires io.Valid() && Usable(sp) && numProps == |sp.properties| && named == Named(sp.flags)
    requires io.Rest() == PropertiesTokens(named, sp.properties) + rest
    modifies io
    ensures io.Valid() && io.stream == old(io.stream) && io.Rest() == rest && properties == LoadedSpec(sp).properties
  {
    hide LoadedProperty, PropertyTokens;
    properties := [];
    for i := 0 to numProps
      invariant io.Valid() && io.stream == old(io.stream) && |properties| == i
      invariant io.Rest() == PropertiesTokens(named, sp.properties[i..]) + rest
      invariant forall j | 0 <= j < i :: properties[j] == LoadedProperty(named, sp.properties[j])
    {
      ghost var later := PropertiesTokens(named, sp.properties[i + 1..]) + rest;
      assert sp.properties[i..][1..] == sp.properties[i + 1..];
      assert io.Rest() == PropertyTokens(named, sp.properties[i]) + later;
      var p := LoadProperty(io, named, sp.properties[i], later);
      properties := properties + [p];
    }
  }

  /** __redisIndex_LoadSpec. */
  method LoadSpec(io: RedisIO, ghost sp: Spec, ghost rest: seq<Token>) returns (loaded: Spec)
    requires io.Valid() && Usable(sp) && io.Rest() == SpecTokens(sp) + rest
    modifies io
    ensures io.Valid() && io.stream == old(io.stream) && io.Rest() == rest && loaded == LoadedSpec(sp)
  {
    hide LoadedProperty, PropertyTokens, PropertiesTokens;
    var t := io.Load();
    var flags := t.u;
    t := io.Load();
    var numProps := t.u;
    var properties := LoadProperties(io, numProps, Named(flags), sp, rest);
    loaded := Spec(properties, flags);
  }

  // ---------------------------------------------------------------- the whole

  class RedisIndex {
    const kind: nat
    const flags: nat
    const spec: Spec
    const idx: CompoundIndex

    constructor (kind: nat, flags: nat, spec: Spec, idx: CompoundIndex)
      ensures this.kind == kind && this.flags == flags && this.spec == spec && this.idx == idx
    {
      this.kind, this.flags, this.spec, this.idx := kind, flags, spec, idx;
    }

    /** The index goes by its specification. */
    ghost predicate Fits()
    {
      kind < HALF && flags < HALF && Usable(spec) && idx.cmpFuncs == SchemaOf(spec) &&
        idx.unique == IsUnique(spec.flags)
    }
  }

  ghost function IndexTokens(kind: nat, flags: nat, sp: Spec, len: nat, vs: seq<Visit>): seq<Token> {
    [Unsigned(kind), Unsigned(flags)] + SpecTokens(sp) + ([Unsigned(len)] + VisitsTokens(vs))
  }

  /** RedisIndex_RdbSave. */
  method RdbSave(rdb: RedisIO, ri: RedisIndex)
    requires rdb.Valid() && ri.idx.Valid() && ri.Fits()
    modifies rdb
    ensures rdb.Valid() && rdb.pos == old(rdb.pos)
    ensures rdb.stream == old(rdb.stream) +
                          IndexTokens(ri.kind, ri.flags, ri.spec, |ri.idx.Records()|, Visits(ri.idx.sl.entries))
  {
    hide Skiplist.Valid, KHash.Valid, Agree, Unique, Visits, VisitsTokens, SpecTokens;
    assert forall n | n in ri.idx.sl.Nodes() :: n as object != rdb;
    rdb.Save(Unsigned(ri.kind));
    rdb.Save(Unsigned(ri.flags));
    SaveSpec(ri.spec, rdb);
    SaveIndex(ri.idx, rdb);
  }

  /** What was saved begins with what will be loaded; the rest is left in the stream. */
  lemma SavedAndLeft(kind: nat, flags: nat, sp: Spec, vs: seq<Visit>, len: nat)
    requires len <= |vs|
    ensures IndexTokens(kind, flags, sp, len, vs) == IndexTokens(kind, flags, sp, len, vs[..len]) +
            VisitsTokens(vs[len..])
    ensures VisitsTokens(vs[len..]) == [] <==> len == |vs|
  {
    hide SpecTokens;
    assert vs == vs[..len] + vs[len..];
    VisitsConcat(vs[..len], vs[len..]);
    if len < |vs| { VisitsHead(vs[len..]); }
  }

  /**
   * RedisIndex_RdbLoad, on a stream that was saved: the specification comes back, and the records that the promised
   * number of callbacks holds.
   */
  method RdbLoad(rdb: RedisIO, hash: Id -> nat, ghost kind: nat, ghost flags: nat, ghost sp: Spec,
                 ghost vs: seq<Visit>, ghost rest: seq<Token>)
    returns (ri: RedisIndex)
    requires rdb.Valid() && Usable(sp) && |vs| <= MAX_ENTRIES
    requires rdb.Rest() == IndexTokens(kind, flags, sp, |vs|, vs) + rest
    requires forall v | v in vs :: |v.0| == |sp.properties| && FitKey(v.0)
    modifies rdb
    ensures rdb.Valid() && rdb.stream == old(rdb.stream) && rdb.Rest() == rest
    ensures fresh(ri) && ri.kind == kind && ri.flags == flags && ri.spec == LoadedSpec(sp) && ri.idx.Valid()
    ensures ri.idx.unique == IsUnique(sp.flags) && ri.idx.cmpFuncs == SchemaOf(sp)
    ensures ri.idx.Records() == Reload(SchemaOf(sp), IsUnique(sp.flags), vs)
  {
    hide CompoundIndex.Consistent, CompoundIndex.Owned, VisitsTokens, SpecTokens, SchemaOf, LoadedSpec, Usable, Reload;
    var k := rdb.Load();
    var f := rdb.Load();
    ghost var records := [Unsigned(|vs|)] + VisitsTokens(vs) + rest;
    assert rdb.Rest() == SpecTokens(sp) + records;
    var loaded := LoadSpec(rdb, sp, records);
    SpecRoundTrip(sp);
    SchemaSize(sp);
    var idx := LoadIndex(IsUnique(loaded.flags), SchemaOf(loaded), hash, rdb, vs, rest);
    ri := Assemble(k.u, f.u, loaded, idx);
  }

  /** Both structures of a saved index, as values. */
  ghost function StateOf(ri: RedisIndex): Both
    reads ri.idx.sl, ri.idx.ri
  {
    Both(ri.idx.cmpFuncs, ri.idx.sl.entries, ri.idx.Records())
  }

  /** The records of b, each id under a key equal to its old one. */
  ghost predicate SameRecords(b: Both, m: Records) {
    m.Keys == b.m.Keys && forall id | id in b.m :: CmpKey(b.fv, m[id], b.m[id]) == 0
  }

  lemma ValidAgrees(idx: CompoundIndex)
    requires idx.Valid()
    ensures Agree(Both(idx.cmpFuncs, idx.sl.entries, idx.Records()))
    ensures idx.unique ==> Unique(idx.cmpFuncs, idx.Records())
  {
    hide Skiplist.Valid, KHash.Valid, Agree, Unique;
  }

  /** The keys of the visits are those of the nodes. */
  lemma VisitsFit(b: Both)
    requires Agree(b) && forall i | 0 <= i < |b.es| :: FitKey(b.es[i].key)
    ensures forall v | v in Visits(b.es) :: |v.0| == |b.fv| && FitKey(v.0)
  {
    hide Agree, Visits, FitKey;
    var vs := Visits(b.es);
    forall v | v in vs ensures |v.0| == |b.fv| && FitKey(v.0) {
      var x: nat :| x < |vs| && vs[x] == v;
      var i := VisitOf(b.es, x);
      AgreeKeys(b, i);
    }
  }

  /**
   * Saving an index and loading what was saved. The whole stream is read exactly if no two ids share an equal key, and
   * then, as in every unique index, all ids are back under equal keys. Otherwise records of the index stay unread.
   */
  method SaveAndLoad(rdb: RedisIO, ri: RedisIndex, hash: Id -> nat) returns (back: RedisIndex)
    requires rdb.Valid() && rdb.Rest() == [] && ri.idx.Valid() && ri.Fits() && |ri.idx.Records()| <= MAX_ENTRIES
    requires forall i | 0 <= i < |ri.idx.sl.entries| :: FitKey(ri.idx.sl.entries[i].key)
    modifies rdb
    ensures rdb.Valid() && fresh(back) && back.idx.Valid() && back.kind == ri.kind && back.flags == ri.flags
    ensures back.spec == LoadedSpec(ri.spec) && back.idx.cmpFuncs == ri.idx.cmpFuncs && back.idx.unique == ri.idx.unique
    ensures var b := old(StateOf(ri));
            && (rdb.Rest() == [] <==> Singles(b.es))
            && (Singles(b.es) ==> SameRecords(b, back.idx.Records()))
            && (b.es != [] && !ri.idx.unique && !Singles(b.es[..|b.es| - 1]) ==> back.idx.Records().Keys != b.m.Keys)
            && (ri.idx.unique ==> Singles(b.es))
  {
    hide CompoundIndex.Valid, IndexTokens, VisitsTokens, Usable, SchemaOf, LoadedSpec, Agree, Unique, Visits, FitKey,
         Reload, Singles;
    ghost var b := StateOf(ri);
    ValidAgrees(ri.idx);
    StreamConsumed(b);
    VisitsFit(b);
    SchemaSize(ri.spec);
    ghost var vs := Visits(b.es)[..|b.m|];
    ghost var left := VisitsTokens(Visits(b.es)[|b.m|..]);
    SavedAndLeft(ri.kind, ri.flags, ri.spec, Visits(b.es), |b.m|);
    RdbSave(rdb, ri);
    assert rdb.Rest() == IndexTokens(ri.kind, ri.flags, ri.spec, |vs|, vs) + left;
    back := RdbLoad(rdb, hash, ri.kind, ri.flags, ri.spec, vs, left);
    if ri.idx.unique { UniqueSingles(b); }
    if Singles(b.es) { RoundTrip(b, ri.idx.unique); }
    LoadedExact(b);
  }

  method Assemble(kind: nat, flags: nat, spec: Spec, idx: CompoundIndex) returns (ri: RedisIndex)
    requires idx.Valid()
    ensures fresh(ri) && ri.kind == kind && ri.flags == flags && ri.spec == spec && ri.idx == idx && idx.Valid()
  {
    hide Skiplist.Valid, KHash.Valid, Agree, Unique;
    ri := new RedisIndex(kind, flags, spec, idx);
  }

  lemma SchemaSize(sp: Spec)
    requires Usable(sp)
    ensures |SchemaOf(sp)| == |sp.properties| <= 255 && LoadedSpec(sp).flags == sp.flags
  {
  }
}
