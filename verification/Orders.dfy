/** Small shared definitions: options, and the laws a skiplist comparator obeys. */
module Orders {

  datatype Option<+T> = None | Some(value: T)

  /** cmp(x, p) is the sign of "stored key x against probe p"; a probe need not be storable. */
  type Compare<!K> = (K, K) -> int

  /** A comparator together with the keys that may be stored under it. */
  datatype Order<!K> = Order(cmp: Compare<K>, stored: K -> bool)

  /**
   * On stored keys cmp is a total preorder, and comparing stored keys against any one probe,
   * such as a shorter key or one ending in an infinity, is monotone along that order.
   */
  ghost predicate Lawful<K(!new)>(o: Order<K>) {
    match o
    case Order(cmp, stored) =>
      && (forall x | stored(x) :: cmp(x, x) == 0)
      && (forall x, y | stored(x) && stored(y) :: cmp(x, y) < 0 <==> cmp(y, x) > 0)
      && (forall x, y, p {:trigger cmp(x, y), cmp(y, p)} | stored(x) && stored(y) && cmp(x, y) <= 0 ::
            && (cmp(y, p) <= 0 ==> cmp(x, p) <= 0)
            && (cmp(y, p) < 0 ==> cmp(x, p) < 0))
  }

  /** A comparison result c that a search for a first key at (or, when exclusive, after) a probe steps over. */
  predicate Before(c: int, exclusive: bool) {
    c < 0 || (c == 0 && exclusive)
  }

  /** Stored keys in strictly increasing order. */
  ghost predicate Sorted<K>(o: Order<K>, keys: seq<K>) {
    match o
    case Order(cmp, stored) =>
      && (forall k | k in keys :: stored(k))
      && forall i, j | 0 <= i < j < |keys| :: cmp(keys[i], keys[j]) < 0
  }

  /** The number of leading keys a search steps over. */
  ghost function Split<K>(cmp: Compare<K>, keys: seq<K>, probe: K, exclusive: bool): (p: nat)
    ensures p <= |keys|
    ensures forall i | 0 <= i < p :: Before(cmp(keys[i], probe), exclusive)
    ensures p < |keys| ==> !Before(cmp(keys[p], probe), exclusive)
  {
    if keys == [] || !Before(cmp(keys[0], probe), exclusive) then 0
    else
      var q := Split(cmp, keys[1..], probe, exclusive);
      assert forall i | 0 < i < |keys| :: keys[i] == keys[1..][i - 1];
      q + 1
  }

  lemma StepMonotone<K(!new)>(o: Order<K>, x: K, y: K, p: K)
    requires Lawful(o) && o.stored(x) && o.stored(y) && o.cmp(x, y) <= 0
    ensures o.cmp(y, p) <= 0 ==> o.cmp(x, p) <= 0
    ensures o.cmp(y, p) < 0 ==> o.cmp(x, p) < 0
  {
  }

  lemma SortedAt<K>(o: Order<K>, keys: seq<K>, i: nat, j: nat)
    requires Sorted(o, keys) && i < j < |keys|
    ensures o.stored(keys[i]) && o.stored(keys[j]) && o.cmp(keys[i], keys[j]) < 0
  {
    assert keys[i] in keys && keys[j] in keys;
  }

  /** On sorted keys, the keys a search steps over are exactly the leading ones. */
  lemma SplitExact<K(!new)>(o: Order<K>, keys: seq<K>, probe: K, exclusive: bool, i: nat)
    requires Lawful(o) && Sorted(o, keys) && i < |keys|
    ensures Before(o.cmp(keys[i], probe), exclusive) <==> i < Split(o.cmp, keys, probe, exclusive)
  {
    hide Lawful, Sorted;
    var p := Split(o.cmp, keys, probe, exclusive);
    if p < i {
      SortedAt(o, keys, p, i);
      StepMonotone(o, keys[p], keys[i], probe);
    }
  }

  lemma Antisymmetric<K(!new)>(o: Order<K>, x: K, y: K)
    requires Lawful(o) && o.stored(x) && o.stored(y)
    ensures o.cmp(x, y) < 0 <==> o.cmp(y, x) > 0
    ensures o.cmp(x, x) == 0
  {
  }

  lemma SortedInsert<K>(o: Order<K>, keys: seq<K>, p: nat, k: K)
    requires Sorted(o, keys) && p <= |keys| && o.stored(k)
    requires forall i | 0 <= i < |keys| :: if i < p then o.cmp(keys[i], k) < 0 else o.cmp(k, keys[i]) < 0
    ensures Sorted(o, keys[..p] + [k] + keys[p..])
  {
    var keys' := keys[..p] + [k] + keys[p..];
    forall i, j | 0 <= i < j < |keys'| ensures o.cmp(keys'[i], keys'[j]) < 0 {
      if i != p && j != p {
        SortedAt(o, keys, if i < p then i else i - 1, if j < p then j else j - 1);
      }
    }
  }

  lemma SortedRemove<K>(o: Order<K>, keys: seq<K>, p: nat)
    requires Sorted(o, keys) && p < |keys|
    ensures Sorted(o, keys[..p] + keys[p + 1..])
  {
    var keys' := keys[..p] + keys[p + 1..];
    forall i, j | 0 <= i < j < |keys'| ensures o.cmp(keys'[i], keys'[j]) < 0 {
      SortedAt(o, keys, if i < p then i else i + 1, if j < p then j else j + 1);
    }
  }
}
