/** Composite keys and their lexicographic, prefix-aware comparison (src/key.c). */
module Keys {
  import opened Values
  import opened Orders

  type MultiKey = seq<Value>
  type Schema = seq<CmpFunc>

  /** The first non-zero column comparison over the common length. */
  function CmpKey(fv: Schema, a: MultiKey, b: MultiKey): int {
    if a == [] || b == [] || fv == [] then 0
    else
      var rc := Cmp(fv[0], a[0], b[0]);
      if rc != 0 then rc else CmpKey(fv[1..], a[1..], b[1..])
  }

  /** CmpKey as the comparison function handed to the skiplist. */
  function KeyCompare(fv: Schema): Compare<MultiKey> {
    (a: MultiKey, b: MultiKey) => CmpKey(fv, a, b)
  }

  /** A full key: one storable value for each column. */
  predicate FullKey(fv: Schema, k: MultiKey) {
    |k| == |fv| && forall i | 0 <= i < |k| :: Storable(k[i])
  }

  /** CmpKey in terms of columns: the first unequal column decides, and there may be none. */
  lemma {:induction false} CmpKeyColumns(fv: Schema, a: MultiKey, b: MultiKey) returns (i: nat)
    requires |a| <= |fv|
    ensures i <= |a| && i <= |b|
    ensures forall j | 0 <= j < i :: Cmp(fv[j], a[j], b[j]) == 0
    ensures i < |a| && i < |b| ==> CmpKey(fv, a, b) == Cmp(fv[i], a[i], b[i]) != 0
    ensures i == |a| || i == |b| ==> CmpKey(fv, a, b) == 0
  {
    if a == [] || b == [] || Cmp(fv[0], a[0], b[0]) != 0 {
      i := 0;
    } else {
      var j := CmpKeyColumns(fv[1..], a[1..], b[1..]);
      i := j + 1;
      forall m | 0 < m < i ensures Cmp(fv[m], a[m], b[m]) == 0 {
        assert fv[m] == fv[1..][m - 1] && a[m] == a[1..][m - 1] && b[m] == b[1..][m - 1];
      }
    }
  }

  /** The loop of SICmpMultiKey computes CmpKey. */
  method SICmpMultiKey(fv: Schema, mk1: MultiKey, mk2: MultiKey) returns (rc: int)
    requires |mk1| <= |fv| || |mk2| <= |fv|
    ensures rc == CmpKey(fv, mk1, mk2)
  {
    var n := if |mk1| < |mk2| then |mk1| else |mk2|;
    for i := 0 to n
      invariant CmpKey(fv, mk1, mk2) == CmpKey(fv[i..], mk1[i..], mk2[i..])
    {
      rc := Cmp(fv[i], mk1[i], mk2[i]);
      if rc != 0 {
        return;
      }
      assert fv[i..][1..] == fv[i + 1..] && mk1[i..][1..] == mk1[i + 1..] && mk2[i..][1..] == mk2[i + 1..];
    }
    rc := 0;
  }

  lemma {:induction false} CmpKeyAntisymmetric(fv: Schema, a: MultiKey, b: MultiKey)
    requires FullKey(fv, a) && FullKey(fv, b)
    ensures CmpKey(fv, a, a) == 0
    ensures CmpKey(fv, a, b) < 0 <==> CmpKey(fv, b, a) > 0
  {
    if a != [] {
      CmpTotalPreorder(fv[0], a[0], b[0]);
      CmpKeyAntisymmetric(fv[1..], a[1..], b[1..]);
    }
  }

  /** Comparing full keys against one probe, full or shorter, infinite or not, is monotone. */
  lemma {:induction false} CmpKeyMonotone(fv: Schema, a: MultiKey, b: MultiKey, probe: MultiKey)
    requires FullKey(fv, a) && FullKey(fv, b)
    requires CmpKey(fv, a, b) <= 0
    ensures CmpKey(fv, b, probe) <= 0 ==> CmpKey(fv, a, probe) <= 0
    ensures CmpKey(fv, b, probe) < 0 ==> CmpKey(fv, a, probe) < 0
  {
    if a != [] && probe != [] {
      CmpMonotone(fv[0], a[0], b[0], probe[0]);
      if Cmp(fv[0], a[0], b[0]) == 0 {
        CmpTotalPreorder(fv[0], a[0], b[0]);
        CmpMonotone(fv[0], b[0], a[0], probe[0]);
        CmpKeyMonotone(fv[1..], a[1..], b[1..], probe[1..]);
      }
    }
  }

  /** The order of an index's skiplist. */
  function KeyOrder(fv: Schema): Order<MultiKey> {
    Order(KeyCompare(fv), (k: MultiKey) => FullKey(fv, k))
  }

  lemma KeyOrderLawful(fv: Schema)
    ensures Lawful(KeyOrder(fv))
  {
    var cmp, stored := KeyOrder(fv).cmp, KeyOrder(fv).stored;
    forall x | stored(x) ensures cmp(x, x) == 0 {
      CmpKeyAntisymmetric(fv, x, x);
    }
    forall x, y | stored(x) && stored(y) ensures cmp(x, y) < 0 <==> cmp(y, x) > 0 {
      CmpKeyAntisymmetric(fv, x, y);
    }
    forall x, y, p | stored(x) && stored(y) && cmp(x, y) <= 0
      ensures (cmp(y, p) <= 0 ==> cmp(x, p) <= 0) && (cmp(y, p) < 0 ==> cmp(x, p) < 0)
    {
      CmpKeyMonotone(fv, x, y, p);
    }
  }
}
