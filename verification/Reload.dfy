/** What is left of an index's records after a save and a load (src/index_type.c). */
module Reloads {
  import opened Orders
  import opened Keys
  import opened SkiplistContents
  import opened SkiplistIterators
  import opened ReverseIndexes
  import opened IndexStates
  import opened Indexes
  import opened Answers
  import opened Traversals
  import opened Queries

  /** The number of ids. */
  ghost function Total(es: Entries): nat {
    if es == [] then 0 else Total(es[..|es| - 1]) + |es[|es| - 1].vals|
  }

  /** The number of callbacks of a traversal. */
  ghost function Squares(es: Entries): nat {
    if es == [] then 0 else Squares(es[..|es| - 1]) + |es[|es| - 1].vals| * |es[|es| - 1].vals|
  }

  /** Every entry has exactly one id. */
  ghost predicate Singles(es: Entries) {
    forall i | 0 <= i < |es| :: |es[i].vals| == 1
  }

  lemma {:induction false} TimesLength(s: seq<Visit>, n: nat)
    ensures |Times(s, n)| == n * |s|
  {
    if n > 0 { TimesLength(s, n - 1); }
  }

  lemma {:induction false} VisitsLength(es: Entries)
    ensures |Visits(es)| == Squares(es)
  {
    if es != [] {
      var k := |es| - 1;
      VisitsLength(es[..k]);
      TimesLength(Tagged(es[k].key, es[k].vals), |es[k].vals|);
    }
  }

  lemma Square(m: nat)
    requires m > 0
    ensures m * m >= m && (m * m == m <==> m == 1)
  {
  }

  /** A traversal makes at least one callback for each id, and exactly one only if no two ids share an entry. */
  lemma {:induction false} SquaresTotal(es: Entries)
    requires forall i | 0 <= i < |es| :: es[i].vals != []
    ensures Squares(es) >= Total(es) >= |es| && (Squares(es) == Total(es) <==> Singles(es))
  {
    if es != [] {
      var k := |es| - 1;
      SquaresTotal(es[..k]);
      Square(|es[k].vals|);
      assert Singles(es) <==> Singles(es[..k]) && |es[k].vals| == 1 by {
        if Singles(es[..k]) && |es[k].vals| == 1 {
          forall i | 0 <= i < |es| ensures |es[i].vals| == 1 {
            if i < k { assert es[..k][i] == es[i]; }
          }
        }
        if Singles(es) {
          forall i | 0 <= i < k ensures |es[..k][i].vals| == 1 { assert es[..k][i] == es[i]; }
        }
      }
    }
  }

  /** The ids of some entries. */
  ghost function IdsOf(es: Entries): set<Id> {
    if es == [] then {}
    else
      var vals := es[|es| - 1].vals;
      IdsOf(es[..|es| - 1]) + set x | x in vals
  }

  lemma {:induction false} InIds(es: Entries, id: Id)
    ensures id in IdsOf(es) <==> exists i | 0 <= i < |es| :: id in es[i].vals
  {
    if es != [] {
      var k := |es| - 1;
      InIds(es[..k], id);
      if id in IdsOf(es[..k]) {
        var i :| 0 <= i < k && id in es[..k][i].vals;
        assert id in es[i].vals;
      }
      if i :| 0 <= i < |es| && id in es[i].vals {
        if i < k { assert id in es[..k][i].vals; }
      }
    }
  }

  lemma {:induction false} SetSize(vals: seq<Id>)
    requires NoRepeats(vals)
    ensures |(set x | x in vals)| == |vals|
  {
    if vals != [] {
      SetSize(vals[1..]);
      assert (set x | x in vals) == {vals[0]} + (set x | x in vals[1..]);
      assert vals[0] !in vals[1..];
    }
  }

  /** Entries listing no id twice hold as many ids as their lists are long. */
  lemma {:induction false} TotalSize(es: Entries)
    requires forall i | 0 <= i < |es| :: NoRepeats(es[i].vals)
    requires forall i, j, id | 0 <= i < j < |es| && id in es[i].vals :: id !in es[j].vals
    ensures |IdsOf(es)| == Total(es)
  {
    if es != [] {
      var k := |es| - 1;
      TotalSize(es[..k]);
      SetSize(es[k].vals);
      forall x | x in es[k].vals ensures x !in IdsOf(es[..k]) {
        InIds(es[..k], x);
      }
    }
  }

  /** The length that is saved is the number of ids in the entries. */
  lemma TotalIsLength(b: Both)
    requires Agree(b)
    ensures Total(b.es) == |b.m|
  {
    hide Agree, Home;
    forall i | 0 <= i < |b.es| ensures NoRepeats(b.es[i].vals) { AgreeVals(b, i); }
    forall i, j, id | 0 <= i < j < |b.es| && id in b.es[i].vals ensures id !in b.es[j].vals {
      AgreeEntry(b, i, id);
      if id in b.es[j].vals { AgreeEntry(b, j, id); }
    }
    TotalSize(b.es);
    forall id ensures id in IdsOf(b.es) <==> id in b.m.Keys {
      InIds(b.es, id);
      if id in b.m { AgreeHome(b, id); }
      if i :| 0 <= i < |b.es| && id in b.es[i].vals { AgreeEntry(b, i, id); }
    }
    assert IdsOf(b.es) == b.m.Keys;
  }

  /** The whole of what a traversal writes is read back exactly when no two ids share an equal key. */
  lemma StreamConsumed(b: Both)
    requires Agree(b)
    ensures |Visits(b.es)| == |b.m| <==> Singles(b.es)
    ensures |Visits(b.es)| >= |b.m|
  {
    hide Agree;
    VisitsLength(b.es);
    TotalIsLength(b);
    forall i | 0 <= i < |b.es| ensures b.es[i].vals != [] { AgreeVals(b, i); }
    SquaresTotal(b.es);
  }

  // ---------------------------------------------------------------- loading

  /** The records after loading some visits: each is applied as an add, whatever comes of it. */
  ghost function Reload(fv: Schema, unique: bool, vs: seq<Visit>): Records {
    if vs == [] then map[]
    else
      var k := |vs| - 1;
      Step(fv, unique, Reload(fv, unique, vs[..k]), AddChange(vs[k].1, vs[k].0)).1
  }

  /** What is loaded of an index: as many visits as it has ids. */
  ghost function Loaded(b: Both, unique: bool): Records
    requires Agree(b)
  {
    StreamConsumed(b);
    Reload(b.fv, unique, Visits(b.es)[..|b.m|])
  }

  lemma {:induction false} TimesFirst(s: seq<Visit>, n: nat, x: nat)
    requires n > 0 && x < |s|
    ensures x < |Times(s, n)| && Times(s, n)[x] == s[x]
  {
    if n > 1 { TimesFirst(s, n - 1, x); }
  }

  lemma {:induction false} TimesMember(s: seq<Visit>, n: nat, v: Visit)
    requires v in Times(s, n)
    ensures v in s
  {
    if v in Times(s, n - 1) { TimesMember(s, n - 1, v); }
  }

  /** A visit is of an entry's key and one of its ids. */
  lemma {:induction false} VisitOf(es: Entries, x: nat) returns (i: nat)
    requires x < |Visits(es)|
    ensures i < |es| && Visits(es)[x].0 == es[i].key && Visits(es)[x].1 in es[i].vals
    ensures es != [] && x >= Squares(es[..|es| - 1]) ==> i == |es| - 1
    ensures es != [] && x < Squares(es[..|es| - 1]) ==> i < |es| - 1
  {
    var k := |es| - 1;
    VisitsLength(es[..k]);
    VisitsLength(es);
    var s := Tagged(es[k].key, es[k].vals);
    if x < Squares(es[..k]) {
      i := VisitOf(es[..k], x);
    } else {
      i := k;
      TimesLength(s, |es[k].vals|);
      assert Visits(es)[x] == Times(s, |es[k].vals|)[x - Squares(es[..k])];
      TimesMember(s, |es[k].vals|, Visits(es)[x]);
    }
  }

  /** Loading visits of stored records never fails a step of an index that need not be unique. */
  lemma {:induction false} ReloadPlain(fv: Schema, vs: seq<Visit>, id: Id)
    requires forall v | v in vs :: |v.0| == |fv|
    ensures id in Reload(fv, false, vs) <==> exists x | 0 <= x < |vs| :: vs[x].1 == id
    ensures id in Reload(fv, false, vs) ==> exists x | 0 <= x < |vs| :: vs[x] == (Reload(fv, false, vs)[id], id)
  {
    if vs != [] {
      var k := |vs| - 1;
      ReloadPlain(fv, vs[..k], id);
      assert vs[k] in vs;
      assert forall x | 0 <= x < k :: vs[..k][x] == vs[x];
      if vs[k].1 == id { assert vs[k] == (Reload(fv, false, vs)[id], id); }
      if x :| 0 <= x < |vs| && vs[x].1 == id {
        if x < k { assert vs[..k][x].1 == id; }
      }
    }
  }

  /** An id that is loaded comes back under the key of its entry, which equals its recorded one. */
  lemma LoadedKeys(b: Both, id: Id)
    requires Agree(b) && id in Loaded(b, false)
    ensures id in b.m && Loaded(b, false)[id] == StoredKey(b, id) && CmpKey(b.fv, StoredKey(b, id), b.m[id]) == 0
  {
    hide Agree, Home, CmpKey;
    StreamConsumed(b);
    var vs := Visits(b.es)[..|b.m|];
    VisitKeys(b, vs);
    ReloadPlain(b.fv, vs, id);
    var x: nat :| x < |vs| && vs[x] == (Loaded(b, false)[id], id);
    assert Visits(b.es)[x] == vs[x];
    var i := VisitOf(b.es, x);
    AgreeEntry(b, i, id);
  }

  lemma VisitKeys(b: Both, vs: seq<Visit>)
    requires Agree(b) && vs <= Visits(b.es)
    ensures forall v | v in vs :: FullKey(b.fv, v.0) && |v.0| == |b.fv|
  {
    hide Agree;
    forall v | v in vs ensures FullKey(b.fv, v.0) {
      var x: nat :| x < |vs| && vs[x] == v;
      assert Visits(b.es)[x] == v;
      var i := VisitOf(b.es, x);
      AgreeKeys(b, i);
    }
  }

  /** The traversal of entries with one id each. */
  lemma {:induction false} SingleVisits(es: Entries)
    requires Singles(es)
    ensures |Visits(es)| == |es| == Squares(es)
    ensures forall i | 0 <= i < |es| :: Visits(es)[i] == (es[i].key, es[i].vals[0])
  {
    if es != [] {
      var k := |es| - 1;
      SingleVisits(es[..k]);
      OneVisit(es[k].key, es[k].vals);
      assert Visits(es) == Visits(es[..k]) + [(es[k].key, es[k].vals[0])];
    }
  }

  lemma OneVisit(key: MultiKey, vals: seq<Id>)
    requires |vals| == 1
    ensures Times(Tagged(key, vals), 1) == [(key, vals[0])]
  {
    var s := Tagged(key, vals);
    assert Times(s, 1) == Times(s, 0) + s == s;
  }

  /** Whether an id is among the callbacks that are read back: all of them, but possibly some of the last entry. */
  lemma AllVisited(b: Both, id: Id)
    requires Agree(b) && id in b.m && Singles(b.es[..|b.es| - (if b.es == [] then 0 else 1)])
    ensures exists x :: 0 <= x < |b.m| <= |Visits(b.es)| && Visits(b.es)[x].1 == id
  {
    hide Agree, Home, Visits, Squares, Total, Times;
    AgreeHome(b, id);
    StreamConsumed(b);
    TotalIsLength(b);
    var h, k, es := Home(b.fv, b.es, b.m[id]), |b.es| - 1, b.es;
    SingleVisits(es[..k]);
    SquaresTotal(es[..k]);
    var vals := es[h].vals;
    var y :| 0 <= y < |vals| && vals[y] == id;
    VisitsUnfold(es);
    TotalUnfold(es);
    if h < k {
      assert es[..k][h] == es[h];
      assert Visits(es)[h] == Visits(es[..k])[h];
    } else {
      TimesFirst(Tagged(es[k].key, vals), |vals|, y);
      assert Visits(es)[|es[..k]| + y].1 == id;
    }
  }

  lemma VisitsUnfold(es: Entries)
    requires es != []
    ensures var k := |es| - 1; Visits(es) == Visits(es[..k]) + Times(Tagged(es[k].key, es[k].vals), |es[k].vals|)
  {
  }

  lemma TotalUnfold(es: Entries)
    requires es != []
    ensures var k := |es| - 1; Total(es) == Total(es[..k]) + |es[k].vals|
  {
  }

  /** If an entry before the last holds more than one id, the last id of all is not read back. */
  lemma LastMissed(b: Both) returns (id: Id)
    requires Agree(b) && b.es != [] && !Singles(b.es[..|b.es| - 1])
    ensures id in b.m && forall x | 0 <= x < |b.m| && x < |Visits(b.es)| :: Visits(b.es)[x].1 != id
  {
    hide Agree, Home, Visits;
    var es, k := b.es, |b.es| - 1;
    AgreeVals(b, k);
    var vals := es[k].vals;
    id := vals[|vals| - 1];
    AgreeEntry(b, k, id);
    TotalIsLength(b);
    TotalUnfold(es);
    forall i | 0 <= i < k ensures es[..k][i].vals != [] { AgreeVals(b, i); }
    SquaresTotal(es[..k]);
    VisitsLength(es[..k]);
    VisitsUnfold(es);
    forall x: nat | x < |b.m| && x < |Visits(es)| ensures Visits(es)[x].1 != id {
      var i := VisitOf(es, x);
      if i < k {
        if Visits(es)[x].1 == id { AgreeEntry(b, i, id); }
      } else {
        TimesFirst(Tagged(es[k].key, vals), |vals|, x - Squares(es[..k]));
      }
    }
  }

  /**
   * What is loaded has all the ids exactly when no two of them share an equal key, unless it be the greatest key
   * of all.
   */
  lemma LoadedExact(b: Both)
    requires Agree(b)
    ensures Loaded(b, false).Keys == b.m.Keys <==> b.es == [] || Singles(b.es[..|b.es| - 1])
  {
    hide Agree, Visits, Home;
    StreamConsumed(b);
    var vs := Visits(b.es)[..|b.m|];
    VisitKeys(b, vs);
    if b.es == [] || Singles(b.es[..|b.es| - 1]) {
      forall id ensures id in Loaded(b, false) <==> id in b.m {
        ReloadPlain(b.fv, vs, id);
        if id in Loaded(b, false) { LoadedKeys(b, id); }
        if id in b.m {
          NoEntries(b, id);
          AllVisited(b, id);
          var x :| 0 <= x < |b.m| <= |Visits(b.es)| && Visits(b.es)[x].1 == id;
          assert vs[x].1 == id;
        }
      }
    } else {
      var id := LastMissed(b);
      ReloadPlain(b.fv, vs, id);
      assert id in b.m.Keys && id !in Loaded(b, false).Keys;
    }
  }

  lemma NoEntries(b: Both, id: Id)
    requires Agree(b) && id in b.m
    ensures b.es != []
  {
    hide Agree;
    AgreeHome(b, id);
  }

  // ---------------------------------------------------------------- unique indexes

  lemma UniqueSingles(b: Both)
    requires Agree(b) && Unique(b.fv, b.m)
    ensures Singles(b.es)
  {
    hide Agree, Unique, CmpKey;
    forall i | 0 <= i < |b.es| ensures |b.es[i].vals| == 1 {
      AgreeVals(b, i);
      if |b.es[i].vals| > 1 {
        SameEntry(b, i, b.es[i].vals[0], b.es[i].vals[1]);
        assert b.es[i].vals[0] != b.es[i].vals[1];
        UniqueKeys(b, b.es[i].vals[0], b.es[i].vals[1]);
      }
    }
  }

  lemma UniqueKeys(b: Both, id: Id, id': Id)
    requires Unique(b.fv, b.m) && id in b.m && id' in b.m && id != id'
    ensures CmpKey(b.fv, b.m[id], b.m[id']) != 0
  {
  }

  lemma EntriesDiffer(b: Both, i: nat, j: nat)
    requires Agree(b) && i < j < |b.es|
    ensures CmpKey(b.fv, b.es[i].key, b.es[j].key) < 0
  {
    hide Agree, CmpKey, Sorted;
    AgreeSorted(b);
    SortedAt(KeyOrder(b.fv), Skiplists.Keys(b.es), i, j);
  }

  /** A unique index refuses none of its own records when they are loaded. */
  lemma {:induction false} UniqueReload(b: Both, n: nat)
    requires Agree(b) && Singles(b.es) && n <= |Visits(b.es)|
    ensures Reload(b.fv, true, Visits(b.es)[..n]) == Reload(b.fv, false, Visits(b.es)[..n])
  {
    hide Agree, CmpKey, Visits;
    if n > 0 {
      var vs := Visits(b.es)[..n];
      assert vs[..n - 1] == Visits(b.es)[..n - 1];
      UniqueReload(b, n - 1);
      SingleVisits(b.es);
      VisitKeys(b, vs);
      assert vs[n - 1] in vs;
      var m := Reload(b.fv, false, vs[..n - 1]);
      forall id | id in m ensures CmpKey(b.fv, m[id], vs[n - 1].0) != 0 {
        ReloadPlain(b.fv, vs[..n - 1], id);
        var x: nat :| x < n - 1 && vs[..n - 1][x] == (m[id], id);
        EntriesDiffer(b, x, n - 1);
      }
    }
  }

  /**
   * The round trip of the records: when no two ids share an equal key, as in every unique index, a load gives back
   * all ids under equal keys, which satisfy the same conditions, and reads all that was saved.
   */
  lemma RoundTrip(b: Both, unique: bool)
    requires Agree(b) && Singles(b.es) && (unique ==> Unique(b.fv, b.m))
    ensures |Visits(b.es)| == |b.m|
    ensures Loaded(b, unique).Keys == b.m.Keys
    ensures forall id | id in b.m :: CmpKey(b.fv, Loaded(b, unique)[id], b.m[id]) == 0
    ensures forall id, t | id in b.m :: Matches(Both(b.fv, [], Loaded(b, unique)), t, id) == Matches(b, t, id)
  {
    hide Agree, CmpKey, Visits, Unique, Home, Loaded, Eval;
    StreamConsumed(b);
    assert b.es == [] || Singles(b.es[..|b.es| - 1]);
    LoadedExact(b);
    LoadedAlike(b, unique);
    forall id | id in b.m
      ensures CmpKey(b.fv, Loaded(b, unique)[id], b.m[id]) == 0
      ensures forall t :: Matches(Both(b.fv, [], Loaded(b, unique)), t, id) == Matches(b, t, id)
    {
      assert id in Loaded(b, false).Keys;
      LoadedKeys(b, id);
      AgreeHome(b, id);
      AgreeKeys(b, Home(b.fv, b.es, b.m[id]));
      FullLength(b.fv, b.m[id]);
      FullLength(b.fv, StoredKey(b, id));
      forall t ensures Eval(t, Condition(b.fv, StoredKey(b, id))) == Eval(t, Condition(b.fv, b.m[id])) {
        TreeSameForEqualKeys(b.fv, t, StoredKey(b, id), b.m[id]);
      }
    }
  }

  lemma LoadedAlike(b: Both, unique: bool)
    requires Agree(b) && Singles(b.es)
    ensures Loaded(b, unique) == Loaded(b, false)
  {
    hide Agree, Visits, Reload;
    StreamConsumed(b);
    if unique { UniqueReload(b, |b.m|); }
  }
}
