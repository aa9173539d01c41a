/** What the operations of the skiplist do to the pairs it holds (src/skiplist/skiplist.c). */
module SkiplistContents {
  import opened Orders
  import opened Skiplists

  /** The value is held under a key equal to k. */
  ghost predicate Under<K, V>(cmp: Compare<K>, es: seq<Entry<K, V>>, k: K, v: V) {
    exists i | 0 <= i < |es| :: cmp(es[i].key, k) == 0 && v in es[i].vals
  }

  predicate NoRepeats<V(==)>(vals: seq<V>) {
    forall i, j | 0 <= i < j < |vals| :: vals[i] != vals[j]
  }

  /** No key is without values, and none has a value twice. */
  predicate Proper<K, V(==)>(es: seq<Entry<K, V>>) {
    forall i | 0 <= i < |es| :: es[i].vals != [] && NoRepeats(es[i].vals)
  }

  lemma EqualTransitive<K(!new)>(o: Order<K>, a: K, b: K, c: K)
    requires Lawful(o) && o.stored(a) && o.stored(b) && o.stored(c)
    requires o.cmp(a, b) == 0 && o.cmp(b, c) == 0
    ensures o.cmp(a, c) == 0 && o.cmp(b, a) == 0
  {
    hide Lawful;
    Antisymmetric(o, a, b);
    Antisymmetric(o, b, a);
    Antisymmetric(o, b, c);
    Antisymmetric(o, c, b);
    Antisymmetric(o, a, c);
    Antisymmetric(o, c, a);
    StepMonotone(o, a, b, c);
    StepMonotone(o, c, b, a);
  }

  /** A search for a key stops at the one equal to it. */
  lemma StopsAtEqual<K(!new)>(o: Order<K>, keys: seq<K>, k: K, i: nat)
    requires Lawful(o) && Sorted(o, keys) && o.stored(k) && i < |keys| && o.cmp(keys[i], k) == 0
    ensures Split(o.cmp, keys, k, false) == i && o.stored(keys[i])
  {
    hide Lawful, Sorted, Split;
    StoredAt(o, keys, i);
    SplitExact(o, keys, k, false, i);
    var p := Split(o.cmp, keys, k, false);
    if p < i {
      SplitExact(o, keys, k, false, p);
      SortedAt(o, keys, p, i);
      Antisymmetric(o, keys[i], k);
      Antisymmetric(o, k, keys[i]);
      Antisymmetric(o, keys[p], k);
      Antisymmetric(o, k, keys[p]);
      Antisymmetric(o, keys[p], keys[i]);
      StepMonotone(o, keys[i], k, keys[p]);
    }
  }

  lemma StoredAt<K>(o: Order<K>, keys: seq<K>, i: nat)
    requires Sorted(o, keys) && i < |keys|
    ensures o.stored(keys[i])
  {
    assert keys[i] in keys;
  }

  /**
   * A value is held under a key exactly if the entry where a search for the key stops has an equal key and the
   * value.
   */
  lemma UnderExact<K(!new), V>(o: Order<K>, es: seq<Entry<K, V>>, k: K, v: V)
    requires Lawful(o) && Sorted(o, Keys(es)) && o.stored(k)
    ensures var p := Split(o.cmp, Keys(es), k, false);
            Under(o.cmp, es, k, v) <==> p < |es| && o.cmp(es[p].key, k) == 0 && v in es[p].vals
  {
    hide Lawful, Sorted, Split;
    if Under(o.cmp, es, k, v) {
      var i :| 0 <= i < |es| && o.cmp(es[i].key, k) == 0 && v in es[i].vals;
      StopsAtEqual(o, Keys(es), k, i);
    }
  }

  /** Two keys are equal exactly if searches for them find one entry. */
  lemma SameEntryFound<K(!new)>(o: Order<K>, keys: seq<K>, k: K, k': K, p: nat)
    requires Lawful(o) && Sorted(o, keys) && o.stored(k) && o.stored(k') && p < |keys| && o.cmp(keys[p], k) == 0
    ensures o.cmp(keys[p], k') == 0 <==> o.cmp(k, k') == 0
  {
    hide Lawful, Sorted;
    StoredAt(o, keys, p);
    Antisymmetric(o, keys[p], k);
    Antisymmetric(o, k, keys[p]);
    if o.cmp(k, k') == 0 { EqualTransitive(o, keys[p], k, k'); }
    if o.cmp(keys[p], k') == 0 { EqualTransitive(o, k, keys[p], k'); }
  }

  /** Adding a value adds that one under its key, and nothing under any other. */
  lemma AddedExact<K(!new), V>(o: Order<K>, es: seq<Entry<K, V>>, k: K, v: V, k': K, x: V)
    requires Lawful(o) && Sorted(o, Keys(es)) && o.stored(k) && o.stored(k')
    ensures Under(o.cmp, Added(o.cmp, es, k, v), k', x) <==>
            Under(o.cmp, es, k', x) || (o.cmp(k, k') == 0 && x == v)
  {
    hide Lawful, Sorted, Split;
    var p, es' := Split(o.cmp, Keys(es), k, false), Added(o.cmp, es, k, v);
    if p < |es| && o.cmp(es[p].key, k) == 0 {
      SameEntryFound(o, Keys(es), k, k', p);
      assert es'[p].key == es[p].key && forall y :: y in es'[p].vals <==> y in es[p].vals || y == v;
      if Under(o.cmp, es, k', x) {
        var i :| 0 <= i < |es| && o.cmp(es[i].key, k') == 0 && x in es[i].vals;
        assert es'[i].key == es[i].key && x in es'[i].vals;
      }
    } else {
      assert es'[p] == Entry(k, [v]);
      if Under(o.cmp, es, k', x) {
        var i :| 0 <= i < |es| && o.cmp(es[i].key, k') == 0 && x in es[i].vals;
        assert es'[if i < p then i else i + 1] == es[i];
      }
    }
  }

  lemma AddedProper<K, V>(cmp: Compare<K>, es: seq<Entry<K, V>>, k: K, v: V)
    requires Proper(es)
    ensures Proper(Added(cmp, es, k, v))
  {
    hide Split;
  }

  /** Dropping a value that comes once leaves the others. */
  lemma DropExact<V>(vals: seq<V>, v: V)
    requires NoRepeats(vals)
    ensures NoRepeats(Drop(vals, v)) && forall x :: x in Drop(vals, v) <==> x in vals && x != v
  {
    var i, n := IndexOf(vals, v), |vals| - 1;
    if i <= n {
      var d := Drop(vals, v);
      assert forall j | 0 <= j < n :: d[j] == if j == i then vals[n] else vals[j];
      forall x | x in vals && x != v ensures x in d {
        var j :| 0 <= j < |vals| && vals[j] == x;
        if j == n { assert d[i] == x; } else { assert d[j] == x; }
      }
    }
  }

  /** Beside the entry of one key, those of an equal key are that entry, and those of another key are others. */
  lemma OnlyThere<K(!new)>(o: Order<K>, keys: seq<K>, k: K, k': K, p: nat, i: nat)
    requires Lawful(o) && Sorted(o, keys) && o.stored(k) && o.stored(k') && p < |keys| && o.cmp(keys[p], k) == 0
    requires i < |keys| && o.cmp(keys[i], k') == 0
    ensures i == p <==> o.cmp(k, k') == 0
  {
    hide Lawful, Sorted, Split;
    SameEntryFound(o, keys, k, k', p);
    if o.cmp(k, k') == 0 {
      StopsAtEqual(o, keys, k', p);
      StopsAtEqual(o, keys, k', i);
    }
  }

  /** Removing a value, or a key, takes away that value, or all values, under that key and nothing else. */
  lemma RemovedExact<K(!new), V>(o: Order<K>, es: seq<Entry<K, V>>, k: K, v: Option<V>, k': K, x: V)
    requires Lawful(o) && Sorted(o, Keys(es)) && o.stored(k) && o.stored(k') && Proper(es)
    ensures Under(o.cmp, Removed(o.cmp, es, k, v), k', x) <==>
            Under(o.cmp, es, k', x) && !(o.cmp(k, k') == 0 && (v == None || v == Some(x)))
  {
    hide Lawful, Sorted, Split, Drop, NoRepeats, Proper;
    var p, es' := Split(o.cmp, Keys(es), k, false), Removed(o.cmp, es, k, v);
    if p < |es| && o.cmp(es[p].key, k) == 0 {
      ProperAt(es, p);
      if v.Some? { DropExact(es[p].vals, v.value); }
      forall i | 0 <= i < |es| && o.cmp(es[i].key, k') == 0 ensures i == p <==> o.cmp(k, k') == 0 {
        OnlyThere(o, Keys(es), k, k', p, i);
      }
      RemovedFound(o.cmp, es, k, v, k', x, p);
    } else if Under(o.cmp, es, k', x) && o.cmp(k, k') == 0 {
      var i :| 0 <= i < |es| && o.cmp(es[i].key, k') == 0 && x in es[i].vals;
      StoredAt(o, Keys(es), i);
      Antisymmetric(o, k, k');
      Antisymmetric(o, k', k);
      EqualTransitive(o, es[i].key, k', k);
      StopsAtEqual(o, Keys(es), k, i);
    }
  }

  lemma ProperAt<K, V>(es: seq<Entry<K, V>>, i: nat)
    requires Proper(es) && i < |es|
    ensures es[i].vals != [] && NoRepeats(es[i].vals)
  {
  }

  lemma RemovedFound<K, V>(cmp: Compare<K>, es: seq<Entry<K, V>>, k: K, v: Option<V>, k': K, x: V, p: nat)
    requires p == Split(cmp, Keys(es), k, false) < |es| && cmp(es[p].key, k) == 0
    requires forall i | 0 <= i < |es| && cmp(es[i].key, k') == 0 :: i == p <==> cmp(k, k') == 0
    requires v.Some? ==> forall y :: y in Drop(es[p].vals, v.value) <==> y in es[p].vals && y != v.value
    ensures Under(cmp, Removed(cmp, es, k, v), k', x) <==>
            Under(cmp, es, k', x) && !(cmp(k, k') == 0 && (v == None || v == Some(x)))
  {
    hide Split, Drop;
    var es' := Removed(cmp, es, k, v);
    if Under(cmp, es, k', x) && !(cmp(k, k') == 0 && (v == None || v == Some(x))) {
      var i :| 0 <= i < |es| && cmp(es[i].key, k') == 0 && x in es[i].vals;
      assert i == p ==> v.Some? && x in Drop(es[p].vals, v.value);
      assert es'[if i <= p || |es'| == |es| then i else i - 1].key == es[i].key;
    }
    if Under(cmp, es', k', x) {
      var j :| 0 <= j < |es'| && cmp(es'[j].key, k') == 0 && x in es'[j].vals;
      var i := if j < p || |es'| == |es| then j else j + 1;
      assert es[i].key == es'[j].key && x in es[i].vals;
    }
  }

  lemma RemovedProper<K, V>(cmp: Compare<K>, es: seq<Entry<K, V>>, k: K, v: Option<V>)
    requires Proper(es)
    ensures Proper(Removed(cmp, es, k, v))
  {
    hide Split, Drop, NoRepeats;
    var p := Split(cmp, Keys(es), k, false);
    if p < |es| && v.Some? {
      ProperAt(es, p);
      DropExact(es[p].vals, v.value);
    }
  }
}
