/** What the skiplist and the reverse index of a compound index say about each other. */
module IndexStates {
  import opened Keys
  import opened Orders
  import opened Skiplists
  import opened SkiplistContents
  import opened ReverseIndexes

  type Entries = seq<Entry<MultiKey, Id>>

  /** The place of a key among the entries: the first entry not below it. */
  ghost function Home(fv: Schema, es: Entries, k: MultiKey): (p: nat)
    ensures p <= |es|
  {
    Split(KeyOrder(fv).cmp, Skiplists.Keys(es), k, false)
  }

  /** Both structures of an index, side by side. */
  datatype Both = Both(fv: Schema, es: Entries, m: map<Id, MultiKey>)

  /**
   * Every id sits in the entry whose key equals the key the reverse index gives it, and in no other;
   * no entry is empty and none lists an id twice.
   */
  ghost predicate Agree(b: Both) {
    match b
    case Both(fv, es, m) =>
      && Sorted(KeyOrder(fv), Skiplists.Keys(es))
      && (forall id | id in m :: FullKey(fv, m[id]))
      && (forall id | id in m :: var p := Home(fv, es, m[id]);
            p < |es| && CmpKey(fv, es[p].key, m[id]) == 0 && id in es[p].vals)
      && (forall i, id | 0 <= i < |es| && id in es[i].vals :: id in m && Home(fv, es, m[id]) == i)
      && (forall i | 0 <= i < |es| :: es[i].vals != [] && NoRepeats(es[i].vals))
  }

  /** An entry with a key equal to k is the home of k. */
  lemma HomeIs(fv: Schema, es: Entries, k: MultiKey, p: nat)
    requires Sorted(KeyOrder(fv), Skiplists.Keys(es)) && FullKey(fv, k)
    requires p < |es| && CmpKey(fv, es[p].key, k) == 0
    ensures Home(fv, es, k) == p
  {
    hide Sorted, Lawful, Split;
    KeyOrderLawful(fv);
    StopsAtEqual(KeyOrder(fv), Skiplists.Keys(es), k, p);
  }

  lemma AgreeHome(b: Both, id: Id)
    requires Agree(b) && id in b.m
    ensures FullKey(b.fv, b.m[id])
    ensures var p := Home(b.fv, b.es, b.m[id]);
            p < |b.es| && CmpKey(b.fv, b.es[p].key, b.m[id]) == 0 && id in b.es[p].vals
  {
    hide Sorted;
  }

  lemma AgreeEntry(b: Both, i: nat, id: Id)
    requires Agree(b) && i < |b.es| && id in b.es[i].vals
    ensures id in b.m && Home(b.fv, b.es, b.m[id]) == i
    ensures FullKey(b.fv, b.m[id]) && CmpKey(b.fv, b.es[i].key, b.m[id]) == 0
  {
    hide Sorted;
  }

  lemma AgreeVals(b: Both, i: nat)
    requires Agree(b) && i < |b.es|
    ensures b.es[i].vals != [] && NoRepeats(b.es[i].vals)
  {
    hide Sorted;
  }

  lemma AgreeSorted(b: Both)
    requires Agree(b)
    ensures Sorted(KeyOrder(b.fv), Skiplists.Keys(b.es))
  {
    hide Sorted;
  }

  lemma EmptyAgree(fv: Schema)
    ensures Agree(Both(fv, [], map[]))
  {
  }

  /** Equality of full keys is transitive. */
  lemma EqualKeys(fv: Schema, a: MultiKey, b: MultiKey, c: MultiKey)
    requires FullKey(fv, a) && FullKey(fv, b) && FullKey(fv, c)
    requires CmpKey(fv, a, b) == 0 && CmpKey(fv, b, c) == 0
    ensures CmpKey(fv, a, c) == 0 && CmpKey(fv, b, a) == 0
  {
    hide CmpKey, FullKey;
    CmpKeyAntisymmetric(fv, a, b);
    CmpKeyAntisymmetric(fv, b, a);
    CmpKeyMonotone(fv, a, b, c);
    CmpKeyMonotone(fv, b, a, c);
  }

  lemma AgreeKeys(b: Both, i: nat)
    requires Agree(b) && i < |b.es|
    ensures FullKey(b.fv, b.es[i].key)
  {
    assert Skiplists.Keys(b.es)[i] in Skiplists.Keys(b.es);
    assert KeyOrder(b.fv).stored(b.es[i].key);
  }

  /** Some id is recorded under a key equal to k. */
  ghost predicate Taken(fv: Schema, m: map<Id, MultiKey>, k: MultiKey) {
    exists id | id in m :: CmpKey(fv, m[id], k) == 0
  }

  /** No two ids are recorded under equal keys. */
  ghost predicate Unique(fv: Schema, m: map<Id, MultiKey>) {
    forall id, id' | id in m && id' in m && id != id' :: CmpKey(fv, m[id], m[id']) != 0
  }

  /** The home of k holds an equal key. */
  ghost predicate Hit(b: Both, k: MultiKey) {
    var p := Home(b.fv, b.es, k);
    p < |b.es| && CmpKey(b.fv, b.es[p].key, k) == 0
  }

  /** An id is recorded under a key equal to k exactly when it is listed in the entry where k is found. */
  lemma HitIs(b: Both, k: MultiKey, id: Id)
    requires Agree(b) && FullKey(b.fv, k)
    ensures id in b.m && CmpKey(b.fv, b.m[id], k) == 0 <==> Hit(b, k) && id in b.es[Home(b.fv, b.es, k)].vals
  {
    hide Sorted, Split, FullKey, Agree, Home, CmpKey;
    var p := Home(b.fv, b.es, k);
    if id in b.m && CmpKey(b.fv, b.m[id], k) == 0 {
      AgreeHome(b, id);
      var q := Home(b.fv, b.es, b.m[id]);
      AgreeKeys(b, q);
      AgreeSorted(b);
      EqualKeys(b.fv, b.es[q].key, b.m[id], k);
      HomeIs(b.fv, b.es, k, q);
    }
    if Hit(b, k) && id in b.es[p].vals {
      AgreeEntry(b, p, id);
      AgreeKeys(b, p);
      CmpKeyAntisymmetric(b.fv, b.es[p].key, b.m[id]);
      CmpKeyAntisymmetric(b.fv, b.m[id], b.es[p].key);
      EqualKeys(b.fv, b.m[id], b.es[p].key, k);
    }
  }

  /** Looking k up in the list decides whether it is taken. */
  lemma HitIsTaken(b: Both, k: MultiKey)
    requires Agree(b) && FullKey(b.fv, k)
    ensures Hit(b, k) <==> Taken(b.fv, b.m, k)
  {
    hide Sorted, Split, FullKey, Agree, Home, CmpKey;
    if Hit(b, k) {
      var p := Home(b.fv, b.es, k);
      AgreeVals(b, p);
      HitIs(b, k, b.es[p].vals[0]);
    }
    if Taken(b.fv, b.m, k) {
      var id :| id in b.m && CmpKey(b.fv, b.m[id], k) == 0;
      HitIs(b, k, id);
    }
  }

  /** In a unique index the first value of the entry decides whose key it is. */
  lemma OnlyValue(b: Both, k: MultiKey, id: Id)
    requires Agree(b) && Unique(b.fv, b.m) && FullKey(b.fv, k) && Hit(b, k)
    ensures var p := Home(b.fv, b.es, k);
            && |b.es[p].vals| == 1
            && (b.es[p].vals[0] == id <==> id in b.m && CmpKey(b.fv, b.m[id], k) == 0)
  {
    hide Sorted, Split, FullKey, Agree, Home, CmpKey;
    var p := Home(b.fv, b.es, k);
    var vals := b.es[p].vals;
    AgreeVals(b, p);
    HitIs(b, k, id);
    if |vals| > 1 {
      SameEntry(b, p, vals[0], vals[1]);
    }
  }

  lemma SameEntry(b: Both, p: nat, id: Id, id': Id)
    requires Agree(b) && p < |b.es| && id in b.es[p].vals && id' in b.es[p].vals
    ensures id in b.m && id' in b.m && CmpKey(b.fv, b.m[id], b.m[id']) == 0
  {
    hide Sorted, Split, FullKey, Agree, Home, CmpKey;
    AgreeEntry(b, p, id);
    AgreeEntry(b, p, id');
    AgreeKeys(b, p);
    CmpKeyAntisymmetric(b.fv, b.es[p].key, b.m[id]);
    CmpKeyAntisymmetric(b.fv, b.m[id], b.es[p].key);
    EqualKeys(b.fv, b.m[id], b.es[p].key, b.m[id']);
  }

  // ---------------------------------------------------------------- adding

  /** Adding an id that is not in the index yet. */
  lemma AddAgree(b: Both, id: Id, k: MultiKey)
    requires Agree(b) && id !in b.m && FullKey(b.fv, k)
    ensures Agree(Both(b.fv, Added(KeyOrder(b.fv).cmp, b.es, k, id), b.m[id := k]))
  {
    hide Sorted, Lawful, Split, Agree, FullKey;
    var p, es' := Home(b.fv, b.es, k), Added(KeyOrder(b.fv).cmp, b.es, k, id);
    KeyOrderLawful(b.fv);
    AgreeSorted(b);
    AddedSorted(KeyOrder(b.fv), b.es, k, id);
    if p < |b.es| && CmpKey(b.fv, b.es[p].key, k) == 0 {
      AddToEntry(b, id, k, p);
    } else {
      AddEntry(b, id, k, p);
    }
  }

  lemma AddToEntry(b: Both, id: Id, k: MultiKey, p: nat)
    requires Agree(b) && id !in b.m && FullKey(b.fv, k)
    requires p == Home(b.fv, b.es, k) < |b.es| && CmpKey(b.fv, b.es[p].key, k) == 0
    requires Sorted(KeyOrder(b.fv), Skiplists.Keys(b.es[p := Entry(b.es[p].key, Append(b.es[p].vals, id))]))
    ensures Agree(Both(b.fv, b.es[p := Entry(b.es[p].key, Append(b.es[p].vals, id))], b.m[id := k]))
  {
    hide Sorted, Split, FullKey, Agree;
    var es', m' := b.es[p := Entry(b.es[p].key, Append(b.es[p].vals, id))], b.m[id := k];
    SameHomes(b.fv, b.es, es');
    if id in b.es[p].vals { AgreeEntry(b, p, id); }
    assert es'[p].vals == b.es[p].vals + [id];
    forall x | x in m'
      ensures FullKey(b.fv, m'[x])
      ensures var q := Home(b.fv, es', m'[x]); q < |es'| && CmpKey(b.fv, es'[q].key, m'[x]) == 0 && x in es'[q].vals
    {
      if x != id { AgreeHome(b, x); }
    }
    forall i, x | 0 <= i < |es'| && x in es'[i].vals ensures x in m' && Home(b.fv, es', m'[x]) == i {
      if x != id { AgreeEntry(b, i, x); } else if i != p { AgreeEntry(b, i, x); }
    }
    forall i | 0 <= i < |es'| ensures es'[i].vals != [] && NoRepeats(es'[i].vals) {
      AgreeVals(b, i);
    }
    AgreeIntro(Both(b.fv, es', m'));
  }

  /** Homes depend only on the keys. */
  lemma SameHomes(fv: Schema, es: Entries, es': Entries)
    requires |es| == |es'| && forall i | 0 <= i < |es| :: es'[i].key == es[i].key
    ensures forall x :: Home(fv, es', x) == Home(fv, es, x)
    ensures Skiplists.Keys(es') == Skiplists.Keys(es)
  {
    assert Skiplists.Keys(es') == Skiplists.Keys(es);
  }

  lemma AddEntry(b: Both, id: Id, k: MultiKey, p: nat)
    requires Agree(b) && id !in b.m && FullKey(b.fv, k) && p <= |b.es|
    requires Sorted(KeyOrder(b.fv), Skiplists.Keys(b.es[..p] + [Entry(k, [id])] + b.es[p..]))
    ensures Agree(Both(b.fv, b.es[..p] + [Entry(k, [id])] + b.es[p..], b.m[id := k]))
  {
    hide Sorted, Split, FullKey, Agree, Home;
    var es', m' := b.es[..p] + [Entry(k, [id])] + b.es[p..], b.m[id := k];
    CmpKeyAntisymmetric(b.fv, k, k);
    HomeIs(b.fv, es', k, p);
    forall x | x in m'
      ensures FullKey(b.fv, m'[x])
      ensures var q := Home(b.fv, es', m'[x]); q < |es'| && CmpKey(b.fv, es'[q].key, m'[x]) == 0 && x in es'[q].vals
    {
      if x != id {
        AgreeHome(b, x);
        var q := Home(b.fv, b.es, b.m[x]);
        HomeIs(b.fv, es', b.m[x], if q < p then q else q + 1);
      }
    }
    forall i, x | 0 <= i < |es'| && x in es'[i].vals ensures x in m' && Home(b.fv, es', m'[x]) == i {
      if i != p {
        AgreeEntry(b, if i < p then i else i - 1, x);
        HomeIs(b.fv, es', b.m[x], i);
      }
    }
    forall i | 0 <= i < |es'| ensures es'[i].vals != [] && NoRepeats(es'[i].vals) {
      if i != p { AgreeVals(b, if i < p then i else i - 1); }
    }
    AgreeIntro(Both(b.fv, es', m'));
  }

  /** Agree from its clauses. */
  lemma AgreeIntro(b: Both)
    requires Sorted(KeyOrder(b.fv), Skiplists.Keys(b.es))
    requires forall id | id in b.m :: FullKey(b.fv, b.m[id])
    requires forall id | id in b.m :: var p := Home(b.fv, b.es, b.m[id]);
               p < |b.es| && CmpKey(b.fv, b.es[p].key, b.m[id]) == 0 && id in b.es[p].vals
    requires forall i, id | 0 <= i < |b.es| && id in b.es[i].vals :: id in b.m && Home(b.fv, b.es, b.m[id]) == i
    requires forall i | 0 <= i < |b.es| :: b.es[i].vals != [] && NoRepeats(b.es[i].vals)
    ensures Agree(b)
  {
    hide Sorted, Home, CmpKey;
  }

  // ---------------------------------------------------------------- removing

  /** Removing an id of the index. */
  lemma RemoveAgree(b: Both, id: Id)
    requires Agree(b) && id in b.m
    ensures Agree(Both(b.fv, Removed(KeyOrder(b.fv).cmp, b.es, b.m[id], Some(id)), b.m - {id}))
  {
    hide Sorted, Lawful, Split, Agree, FullKey, Drop;
    AgreeHome(b, id);
    var p := Home(b.fv, b.es, b.m[id]);
    AgreeSorted(b);
    RemovedSorted(KeyOrder(b.fv), b.es, b.m[id], Some(id));
    AgreeVals(b, p);
    DropExact(b.es[p].vals, id);
    if Drop(b.es[p].vals, id) == [] {
      RemoveEntry(b, id, p);
    } else {
      RemoveFromEntry(b, id, p);
    }
  }

  lemma RemoveFromEntry(b: Both, id: Id, p: nat)
    requires Agree(b) && id in b.m && p == Home(b.fv, b.es, b.m[id]) < |b.es|
    requires Drop(b.es[p].vals, id) != [] && NoRepeats(Drop(b.es[p].vals, id))
    requires forall x :: x in Drop(b.es[p].vals, id) <==> x in b.es[p].vals && x != id
    requires Sorted(KeyOrder(b.fv), Skiplists.Keys(b.es[p := Entry(b.es[p].key, Drop(b.es[p].vals, id))]))
    ensures Agree(Both(b.fv, b.es[p := Entry(b.es[p].key, Drop(b.es[p].vals, id))], b.m - {id}))
  {
    hide Sorted, Split, FullKey, Drop, Agree, Home;
    var es', m' := b.es[p := Entry(b.es[p].key, Drop(b.es[p].vals, id))], b.m - {id};
    SameHomes(b.fv, b.es, es');
    forall x | x in m'
      ensures FullKey(b.fv, m'[x])
      ensures var q := Home(b.fv, es', m'[x]); q < |es'| && CmpKey(b.fv, es'[q].key, m'[x]) == 0 && x in es'[q].vals
    {
      AgreeHome(b, x);
    }
    forall i, x | 0 <= i < |es'| && x in es'[i].vals ensures x in m' && Home(b.fv, es', m'[x]) == i {
      AgreeEntry(b, i, x);
    }
    forall i | 0 <= i < |es'| ensures es'[i].vals != [] && NoRepeats(es'[i].vals) {
      AgreeVals(b, i);
    }
    AgreeIntro(Both(b.fv, es', m'));
  }

  lemma RemoveEntry(b: Both, id: Id, p: nat)
    requires Agree(b) && id in b.m && p == Home(b.fv, b.es, b.m[id]) < |b.es|
    requires forall x | x in b.es[p].vals :: x == id
    requires Sorted(KeyOrder(b.fv), Skiplists.Keys(b.es[..p] + b.es[p + 1..]))
    ensures Agree(Both(b.fv, b.es[..p] + b.es[p + 1..], b.m - {id}))
  {
    hide Sorted, Split, FullKey, Agree, Home;
    var es', m' := b.es[..p] + b.es[p + 1..], b.m - {id};
    forall x | x in m'
      ensures FullKey(b.fv, m'[x])
      ensures var q := Home(b.fv, es', m'[x]); q < |es'| && CmpKey(b.fv, es'[q].key, m'[x]) == 0 && x in es'[q].vals
    {
      AgreeHome(b, x);
      var q := Home(b.fv, b.es, b.m[x]);
      HomeIs(b.fv, es', b.m[x], if q < p then q else q - 1);
    }
    forall i, x | 0 <= i < |es'| && x in es'[i].vals ensures x in m' && Home(b.fv, es', m'[x]) == i {
      AgreeEntry(b, if i < p then i else i + 1, x);
      HomeIs(b.fv, es', b.m[x], i);
    }
    forall i | 0 <= i < |es'| ensures es'[i].vals != [] && NoRepeats(es'[i].vals) {
      AgreeVals(b, if i < p then i else i + 1);
    }
    AgreeIntro(Both(b.fv, es', m'));
  }
}
