/** The arithmetic behind double hashing: with a prime number of buckets the probe sequence visits every bucket. */
module Probing {

  ghost predicate IsPrime(n: nat) {
    n >= 2 && forall d {:trigger n % d} | 1 < d < n :: n % d != 0
  }

  /** Euclid's lemma, in the form that a prime divides no product of two smaller positive numbers. */
  lemma {:induction false} NoProduct(p: nat, a: nat, b: nat, k: int)
    requires IsPrime(p) && 0 < a < p && 0 < b < p
    ensures a * b != p * k
    decreases a
  {
    if a == 1 {
      if k > 0 { MulMonotone(p, 1, k); } else { MulMonotone(p, k, 0); }
    } else if a * b == p * k {
      var q, r := p / a, p % a;
      assert p == a * q + r;
      calc {
        r * b;
        (p - a * q) * b;
        p * b - (a * q) * b;
        { Rearrange(a, q, b); }
        p * b - (a * b) * q;
        p * b - (p * k) * q;
        { Rearrange(p, k, q); Factor(p, b, k * q); }
        p * (b - k * q);
      }
      NoProduct(p, r, b, b - k * q);
    }
  }

  lemma Rearrange(a: int, q: int, b: int)
    ensures (a * q) * b == (a * b) * q == a * (q * b)
  {
  }

  lemma Factor(p: int, b: int, c: int)
    ensures p * b - p * c == p * (b - c)
  {
  }

  lemma MulMonotone(p: nat, a: int, b: int)
    requires a <= b
    ensures p * a <= p * b
  {
  }

  lemma Wrap(x: nat, n: nat)
    requires 0 < n && x < 2 * n
    ensures x % n == if x >= n then x - n else x
  {
    if x >= n { assert x == 1 * n + (x - n); }
  }

  /** One probe step as the table takes it. */
  function NextSlot(i: nat, inc: nat, n: nat): (j: nat)
    requires i < n && inc < n
    ensures j < n
    ensures j == (i + inc) % n
  {
    Wrap(i + inc, n);
    if i + inc >= n then i + inc - n else i + inc
  }

  function Increment(h: nat, n: nat): (inc: nat)
    requires n > 1
    ensures 1 <= inc < n
  {
    1 + h % (n - 1)
  }

  /** The bucket probed after t steps. */
  function Probe(h: nat, n: nat, t: nat): (i: nat)
    requires n > 1
    ensures i < n
  {
    if t == 0 then h % n else NextSlot(Probe(h, n, t - 1), Increment(h, n), n)
  }

  /** The probe sequence is arithmetic modulo n. */
  lemma {:induction false} ProbeDistance(h: nat, n: nat, s: nat, t: nat) returns (k: int)
    requires n > 1 && s <= t
    ensures Probe(h, n, t) == Probe(h, n, s) + (t - s) * Increment(h, n) - n * k
    decreases t
  {
    if s == t {
      k := 0;
    } else {
      var inc, i := Increment(h, n), Probe(h, n, t - 1);
      var k' := ProbeDistance(h, n, s, t - 1);
      k := if i + inc >= n then k' + 1 else k';
      assert (t - s) * inc == (t - 1 - s) * inc + inc by { Factor(inc, t - s, 1); }
      assert n * (k' + 1) == n * k' + n by { Factor(n, k' + 1, 1); }
    }
  }

  /** Within n steps no bucket is probed twice. */
  lemma ProbesDiffer(h: nat, n: nat, s: nat, t: nat)
    requires IsPrime(n) && s < t < s + n
    ensures Probe(h, n, s) != Probe(h, n, t)
  {
    var k := ProbeDistance(h, n, s, t);
    NoProduct(n, t - s, Increment(h, n), k);
  }

  /** After n steps the probe is back where it began. */
  lemma ProbeReturns(h: nat, n: nat)
    requires IsPrime(n)
    ensures Probe(h, n, n) == Probe(h, n, 0)
  {
    var inc := Increment(h, n);
    var k := ProbeDistance(h, n, 0, n);
    var d := Probe(h, n, n) - Probe(h, n, 0);
    assert d == n * (inc - k) by { Factor(n, inc, k); }
    if inc - k >= 1 { MulMonotone(n, 1, inc - k); }
    if inc - k <= -1 { MulMonotone(n, inc - k, -1); }
  }

  /** The buckets probed in the first t steps. */
  ghost function Probed(h: nat, n: nat, t: nat): (r: set<nat>)
    requires n > 1
    ensures forall i | i in r :: i < n
  {
    if t == 0 then {} else Probed(h, n, t - 1) + {Probe(h, n, t - 1)}
  }

  lemma {:induction false} InProbed(h: nat, n: nat, t: nat, i: nat) returns (s: nat)
    requires n > 1 && i in Probed(h, n, t)
    ensures s < t && Probe(h, n, s) == i
  {
    if i == Probe(h, n, t - 1) {
      s := t - 1;
    } else {
      s := InProbed(h, n, t - 1, i);
    }
  }

  lemma {:induction false} ProbedSize(h: nat, n: nat, t: nat)
    requires IsPrime(n) && t <= n
    ensures |Probed(h, n, t)| == t
  {
    if t > 0 {
      ProbedSize(h, n, t - 1);
      if Probe(h, n, t - 1) in Probed(h, n, t - 1) {
        var s := InProbed(h, n, t - 1, Probe(h, n, t - 1));
        ProbesDiffer(h, n, s, t - 1);
      }
    }
  }

  ghost function Below(n: nat): (r: set<nat>)
    ensures forall i: nat :: i in r <==> i < n
    ensures |r| == n
  {
    if n == 0 then {} else Below(n - 1) + {n - 1}
  }

  lemma SubsetOfSameSize<T>(a: set<T>, b: set<T>)
    requires a <= b && |a| == |b|
    ensures a == b
  {
    if x :| x in b && x !in a {
      SmallerSubset(a, b - {x});
    }
  }

  lemma {:induction false} SmallerSubset<T>(a: set<T>, b: set<T>)
    requires a <= b
    ensures |a| <= |b|
  {
    if a != {} {
      var x :| x in a;
      SmallerSubset(a - {x}, b - {x});
    }
  }

  /** Every bucket is probed within the first n steps, whatever the hash. */
  lemma FullCycle(h: nat, n: nat, i: nat) returns (t: nat)
    requires IsPrime(n) && i < n
    ensures t < n && Probe(h, n, t) == i
  {
    ProbedSize(h, n, n);
    SubsetOfSameSize(Probed(h, n, n), Below(n));
    t := InProbed(h, n, n, i);
  }

  /** A table's probe step in 32-bit arithmetic. */
  function NextSlot32(i: nat, inc: nat, n: nat): nat
    requires i < n && inc < n
  {
    var sum := (i + inc) % 0x1_0000_0000;
    if sum >= n then sum - n else sum
  }

  /** The 32-bit step is right for every slot and increment exactly when the table has at most 2^31 buckets. */
  lemma StepFitsWord(n: nat)
    requires 1 < n < 0x1_0000_0000
    ensures (forall i: nat, inc: nat | i < n && 1 <= inc < n :: NextSlot32(i, inc, n) == NextSlot(i, inc, n)) <==>
            n <= 0x8000_0000
  {
    if n > 0x8000_0000 {
      assert NextSlot32(n - 1, n - 1, n) != NextSlot(n - 1, n - 1, n);
    }
  }
}
