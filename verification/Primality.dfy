/** Certified primality: trial division for small numbers, Pocklington certificates for large ones. */
module Primality {
  import opened Probing

  // ---------------------------------------------------------------- modular arithmetic

  lemma DivisionUnique(n: nat, q: int, r: int, q': int, r': int)
    requires 0 <= r < n && 0 <= r' < n && n * q + r == n * q' + r'
    ensures q == q' && r == r'
  {
    Factor(n, q, q');
    if q > q' { MulMonotone(n, 1, q - q'); }
    if q < q' { MulMonotone(n, q - q', -1); }
  }

  lemma ModIs(x: int, n: nat, k: int, r: int)
    requires x == n * k + r && 0 <= r < n
    ensures x % n == r
  {
    DivisionUnique(n, k, r, x / n, x % n);
  }

  /** A factor may be reduced before multiplying. */
  lemma ModMul(x: int, y: int, n: nat)
    requires n > 0
    ensures (x % n) * y % n == x * y % n
  {
    var q, r := x / n, x % n;
    assert x == n * q + r;
    var s := r * y;
    calc {
      x * y;
      (n * q + r) * y;
      { Distribute(n * q, r, y); Rearrange(n, q, y); }
      n * (q * y) + s;
      n * (q * y) + (n * (s / n) + s % n);
      { Distribute(q * y, s / n, n); }
      n * (q * y + s / n) + s % n;
    }
    ModIs(x * y, n, q * y + s / n, s % n);
  }

  lemma Distribute(a: int, b: int, c: int)
    ensures (a + b) * c == a * c + b * c == c * a + c * b
  {
  }

  lemma ModMulRight(x: int, y: int, n: nat)
    requires n > 0
    ensures x * (y % n) % n == x * y % n
  {
    ModMul(y, x, n);
  }

  /** Multiplication modulo n. */
  function Times(x: nat, y: nat, n: nat): (r: nat)
    requires n > 1
    ensures r < n
  {
    x * y % n
  }

  lemma TimesAssociative(x: nat, y: nat, z: nat, n: nat)
    requires n > 1
    ensures Times(Times(x, y, n), z, n) == Times(x, Times(y, z, n), n)
  {
    ModMul(x * y, z, n);
    ModMulRight(x, y * z, n);
    Reassociate(x, y, z);
  }

  lemma Reassociate(x: int, y: int, z: int)
    ensures (x * y) * z == x * (y * z)
  {
  }

  lemma TimesUnit(x: nat, n: nat)
    requires n > 1
    ensures x < n ==> Times(1, x, n) == x == Times(x, 1, n)
    ensures Times(0, x, n) == 0
  {
  }

  // ---------------------------------------------------------------- powers

  function Power(a: nat, e: nat, n: nat): (r: nat)
    requires n > 1
    ensures r < n
  {
    if e == 0 then 1 else Times(a, Power(a, e - 1, n), n)
  }

  lemma {:induction false} PowerAdd(a: nat, i: nat, j: nat, n: nat)
    requires n > 1
    ensures Power(a, i + j, n) == Times(Power(a, i, n), Power(a, j, n), n)
  {
    hide Times;
    if i == 0 {
      TimesUnit(Power(a, j, n), n);
    } else {
      PowerAdd(a, i - 1, j, n);
      TimesAssociative(a, Power(a, i - 1, n), Power(a, j, n), n);
    }
  }

  lemma {:induction false} PowerOfOne(a: nat, k: nat, j: nat, n: nat)
    requires n > 1 && Power(a, k, n) == 1
    ensures Power(a, k * j, n) == 1
  {
    hide Times;
    if j > 0 {
      PowerOfOne(a, k, j - 1, n);
      assert k * j == k * (j - 1) + k by { Factor(k, j, 1); }
      PowerAdd(a, k * (j - 1), k, n);
      TimesUnit(1, n);
    }
  }

  /** Powers of powers. */
  lemma {:induction false} PowerPower(a: nat, i: nat, j: nat, n: nat)
    requires n > 1
    ensures Power(a, i * j, n) == Power(Power(a, i, n), j, n)
  {
    hide Times;
    if j > 0 {
      PowerPower(a, i, j - 1, n);
      assert i * j == i + i * (j - 1) by { Factor(i, j, 1); }
      PowerAdd(a, i, i * (j - 1), n);
    }
  }

  /** The least positive exponent giving 1, when there is one. */
  lemma Order(a: nat, m: nat, n: nat) returns (k: nat)
    requires n > 1 && m > 0 && Power(a, m, n) == 1
    ensures 0 < k <= m && Power(a, k, n) == 1
    ensures forall i | 0 < i < k :: Power(a, i, n) != 1
  {
    hide Power;
    k := 1;
    while Power(a, k, n) != 1
      invariant 0 < k <= m
      invariant forall i | 0 < i < k :: Power(a, i, n) != 1
      decreases m - k
    {
      k := k + 1;
    }
  }

  lemma OrderDivides(a: nat, k: nat, m: nat, n: nat)
    requires n > 1 && k > 0 && Power(a, k, n) == 1 && Power(a, m, n) == 1
    requires forall i | 0 < i < k :: Power(a, i, n) != 1
    ensures m % k == 0
  {
    hide Power, Times;
    var q, r := m / k, m % k;
    PowerOfOne(a, k, q, n);
    assert m == k * q + r;
    PowerAdd(a, k * q, r, n);
    TimesUnit(Power(a, r, n), n);
  }

  // ---------------------------------------------------------------- prime factors

  function Product(qs: seq<nat>): nat {
    if qs == [] then 1 else qs[0] * Product(qs[1..])
  }

  lemma {:induction false} ProductConcat(xs: seq<nat>, ys: seq<nat>)
    ensures Product(xs + ys) == Product(xs) * Product(ys)
  {
    if xs == [] {
      assert xs + ys == ys;
    } else {
      ProductConcat(xs[1..], ys);
      assert (xs + ys)[1..] == xs[1..] + ys;
      Reassociate(xs[0], Product(xs[1..]), Product(ys));
    }
  }

  /** A prime that divides a product but not its first factor divides the second. */
  lemma PrimeDividesFactor(p: nat, x: nat, y: nat, k: nat)
    requires IsPrime(p) && x * y == p * k && x % p != 0
    ensures y % p == 0
  {
    ModMul(x, y, p);
    ModMulRight(x % p, y, p);
    ModIs(p * k, p, k, 0);
    var z := (x % p) * (y % p);
    if y % p != 0 {
      NoProduct(p, x % p, y % p, z / p);
    }
  }

  lemma CancelFactor(q: nat, x: int, y: int)
    requires q > 0 && q * x == q * y
    ensures x == y
  {
    DivisionUnique(q, x, 0, y, 0);
  }

  /** A product of primes that divides k * m, none of which divides m, divides k. */
  lemma {:induction false} ProductDivides(qs: seq<nat>, r: nat, k: nat, m: nat) returns (s: nat)
    requires Product(qs) * r == k * m
    requires forall q | q in qs :: IsPrime(q) && m % q != 0
    ensures k == Product(qs) * s
  {
    if qs == [] {
      s := k;
    } else {
      var q, rest := qs[0], Product(qs[1..]);
      assert q in qs;
      Reassociate(q, rest, r);
      assert m * k == k * m;
      PrimeDividesFactor(q, m, k, rest * r);
      var k' := k / q;
      assert k == q * k';
      Reassociate(q, k', m);
      CancelFactor(q, rest * r, k' * m);
      s := ProductDivides(qs[1..], r, k', m);
      Reassociate(q, rest, s);
    }
  }

  // ---------------------------------------------------------------- powers modulo a divisor

  lemma {:induction false} PowerModDivisor(a: nat, e: nat, n: nat, d: nat)
    requires n > 1 && d > 1 && n % d == 0
    ensures Power(a, e, n) % d == Power(a, e, d)
  {
    hide Times;
    if e > 0 {
      PowerModDivisor(a, e - 1, n, d);
      TimesModDivisor(a, Power(a, e - 1, n), n, d);
    } else {
      ModIs(1, d, 0, 1);
    }
  }

  lemma TimesModDivisor(x: nat, y: nat, n: nat, d: nat)
    requires n > 1 && d > 1 && n % d == 0
    ensures Times(x, y, n) % d == Times(x, y % d, d)
  {
    var z, c := x * y, n / d;
    assert n == d * c;
    var q, r := z / n, z % n;
    assert z == n * q + r;
    Reassociate(d, c, q);
    assert r == d * (r / d) + r % d;
    Distribute(c * q, r / d, d);
    ModIs(z, d, c * q + r / d, r % d);
    ModMulRight(x, y, d);
  }

  // ---------------------------------------------------------------- the order bounds the modulus

  /** The first t powers. */
  ghost function Powers(a: nat, t: nat, n: nat): (r: set<nat>)
    requires n > 1
  {
    if t == 0 then {} else Powers(a, t - 1, n) + {Power(a, t - 1, n)}
  }

  lemma {:induction false} InPowers(a: nat, t: nat, n: nat, x: nat) returns (i: nat)
    requires n > 1 && x in Powers(a, t, n)
    ensures i < t && Power(a, i, n) == x
  {
    if x == Power(a, t - 1, n) { i := t - 1; } else { i := InPowers(a, t - 1, n, x); }
  }

  /** Below the order, powers are distinct and non-zero. */
  lemma PowersDiffer(a: nat, n: nat, k: nat, i: nat, j: nat)
    requires n > 1 && i < j < k && Power(a, k, n) == 1
    requires forall e | 0 < e < k :: Power(a, e, n) != 1
    ensures Power(a, i, n) != Power(a, j, n)
  {
    hide Times, Power;
    PowerAdd(a, i, k - j, n);
    PowerAdd(a, j, k - j, n);
  }

  lemma PowerNotZero(a: nat, n: nat, k: nat, i: nat)
    requires n > 1 && i <= k && Power(a, k, n) == 1
    ensures Power(a, i, n) != 0
  {
    hide Times, Power;
    PowerAdd(a, i, k - i, n);
    TimesUnit(Power(a, k - i, n), n);
  }

  lemma {:induction false} PowersSize(a: nat, t: nat, n: nat, k: nat)
    requires n > 1 && t <= k && Power(a, k, n) == 1
    requires forall e | 0 < e < k :: Power(a, e, n) != 1
    ensures |Powers(a, t, n)| == t
  {
    hide Power;
    if t > 0 {
      PowersSize(a, t - 1, n, k);
      if Power(a, t - 1, n) in Powers(a, t - 1, n) {
        var i := InPowers(a, t - 1, n, Power(a, t - 1, n));
        PowersDiffer(a, n, k, i, t - 1);
      }
    }
  }

  /** The order of a modulo n is below n. */
  lemma OrderBound(a: nat, n: nat, k: nat)
    requires n > 1 && Power(a, k, n) == 1
    requires forall e | 0 < e < k :: Power(a, e, n) != 1
    ensures k < n
  {
    hide Power, Powers;
    PowersSize(a, k, n, k);
    forall x | x in Powers(a, k, n) ensures x in Below(n) - {0} {
      var i := InPowers(a, k, n, x);
      PowerNotZero(a, n, k, i);
    }
    SmallerSubset(Powers(a, k, n), Below(n) - {0});
  }

  // ---------------------------------------------------------------- Pocklington's criterion

  /** b - 1 has an inverse u modulo n. */
  predicate Invertible(b: nat, u: nat, n: nat)
    requires n > 1 && b > 0
  {
    (b - 1) * u % n == 1
  }

  lemma InvertibleModDivisor(b: nat, u: nat, n: nat, d: nat)
    requires n > 1 && b > 0 && d > 1 && n % d == 0 && Invertible(b, u, n)
    ensures b % d != 1
  {
    if b % d == 1 {
      var c, t, w := n / d, (b - 1) * u / n, b / d;
      assert n == d * c && (b - 1) * u == n * t + 1 && b - 1 == d * w;
      Reassociate(d, w, u);
      Reassociate(d, c, t);
      DivisionUnique(d, w * u, 0, c * t, 1);
    }
  }

  /** Under the certificate every divisor above 1 exceeds Product(qs). */
  lemma LargeDivisor(n: nat, a: nat, qs: seq<nat>, r: nat, d: nat)
    requires n > 1 && d > 1 && n % d == 0
    requires Product(qs) * r == n - 1
    requires Power(a, n - 1, n) == 1
    requires forall q | q in qs :: IsPrime(q) && Power(a, (n - 1) / q, d) != 1
    ensures Product(qs) < d
  {
    hide Power, IsPrime, Product;
    PowerModDivisor(a, n - 1, n, d);
    ModIs(1, d, 0, 1);
    var k := Order(a, n - 1, d);
    OrderDivides(a, k, n - 1, d);
    OrderBound(a, d, k);
    var s := OrderMultiple(n - 1, a, qs, r, d, k);
    if s > 0 { MulMonotone(Product(qs), 1, s); }
  }

  lemma OrderMultiple(e: nat, a: nat, qs: seq<nat>, r: nat, d: nat, k: nat) returns (s: nat)
    requires d > 1 && k > 0 && Product(qs) * r == e && e % k == 0 && Power(a, k, d) == 1
    requires forall q | q in qs :: IsPrime(q) && Power(a, e / q, d) != 1
    ensures k == Product(qs) * s
  {
    hide Power, IsPrime, Product;
    var m := e / k;
    assert e == k * m;
    forall q | q in qs ensures q > 0 && m % q != 0 {
      assert q > 1 by { PrimeAboveOne(q); }
      if m % q == 0 {
        FactorOfExponent(a, k, m, q, d);
      }
    }
    s := ProductDivides(qs, r, k, m);
  }

  lemma PrimeAboveOne(q: nat)
    requires IsPrime(q)
    ensures q > 1
  {
  }

  lemma FactorOfExponent(a: nat, k: nat, m: nat, q: nat, d: nat)
    requires d > 1 && k > 0 && IsPrime(q) && m % q == 0 && Power(a, k, d) == 1
    ensures Power(a, k * m / q, d) == 1
  {
    hide Power;
    var j := m / q;
    assert m == q * j;
    assert k * m == q * (k * j) by { Reassociate(k, q, j); Reassociate(q, k, j); }
    DivisionUnique(q, k * m / q, k * m % q, k * j, 0);
    PowerOfOne(a, k, j, d);
  }

  /** What a certificate says of every divisor of n. */
  lemma CertifiedDivisor(n: nat, a: nat, qs: seq<nat>, r: nat, u: nat -> nat, d: nat)
    requires n > 1 && Product(qs) * r == n - 1
    requires Power(a, n - 1, n) == 1
    requires forall q | q in qs :: IsPrime(q) &&
               var b := Power(a, (n - 1) / q, n); b > 0 && Invertible(b, u(q), n)
    requires d > 1 && n % d == 0
    ensures Product(qs) < d
  {
    hide Power, Product, Invertible;
    forall q | q in qs ensures IsPrime(q) && Power(a, (n - 1) / q, d) != 1 {
      PowerModDivisor(a, (n - 1) / q, n, d);
      InvertibleModDivisor(Power(a, (n - 1) / q, n), u(q), n, d);
    }
    LargeDivisor(n, a, qs, r, d);
  }

  lemma ProductGrows(f: nat, d: nat, e: nat)
    requires f < d && f < e
    ensures f * f < d * e
  {
    MulMonotone(f, f, e);
    MulMonotone(e, f + 1, d);
    Distribute(f, 1, e);
  }

  /** n is prime when a has full order on a factor Product(qs) of n - 1 of at least its square root. */
  lemma Pocklington(n: nat, a: nat, qs: seq<nat>, r: nat, u: nat -> nat)
    requires n > 1 && Product(qs) * r == n - 1 && Product(qs) * Product(qs) >= n
    requires Power(a, n - 1, n) == 1
    requires forall q | q in qs :: IsPrime(q) &&
               var b := Power(a, (n - 1) / q, n); b > 0 && Invertible(b, u(q), n)
    ensures IsPrime(n)
  {
    hide Power, Product, Invertible;
    var f := Product(qs);
    forall d | 1 < d < n ensures n % d != 0 {
      if n % d == 0 {
        var e := n / d;
        assert n == d * e;
        ModIs(n, e, d, 0);
        if e <= 1 { MulMonotone(d, e, 1); }
        CertifiedDivisor(n, a, qs, r, u, d);
        CertifiedDivisor(n, a, qs, r, u, e);
        ProductGrows(f, d, e);
      }
    }
  }

  // ---------------------------------------------------------------- evaluating certificates

  /** One square-and-multiply step; k is the quotient of the division by n. */
  lemma ClimbOne(n: nat, a: nat, e: nat, v: nat, bit: nat, k: nat, w: nat)
    requires n > 1 && Power(a, e, n) == v && bit <= 1
    requires v * v * (if bit == 1 then a else 1) == n * k + w && w < n
    ensures Power(a, 2 * e + bit, n) == w
  {
    PowerAdd(a, e, e, n);
    if bit == 1 {
      assert Power(a, 2 * e + 1, n) == Times(a, Times(v, v, n), n);
      ModMulRight(a, v * v, n);
      assert a * (v * v) == v * v * a;
    }
    ModIs(v * v * (if bit == 1 then a else 1), n, k, w);
  }

  /** Four steps: multiplying the exponent by 16 and adding a hexadecimal digit. */
  lemma Climb(n: nat, a: nat, e: nat, v: nat, digit: nat,
              k1: nat, v1: nat, k2: nat, v2: nat, k3: nat, v3: nat, k4: nat, v4: nat)
    requires n > 1 && Power(a, e, n) == v && digit < 16
    requires v * v * (if digit / 8 == 1 then a else 1) == n * k1 + v1 && v1 < n
    requires v1 * v1 * (if digit / 4 % 2 == 1 then a else 1) == n * k2 + v2 && v2 < n
    requires v2 * v2 * (if digit / 2 % 2 == 1 then a else 1) == n * k3 + v3 && v3 < n
    requires v3 * v3 * (if digit % 2 == 1 then a else 1) == n * k4 + v4 && v4 < n
    ensures Power(a, 16 * e + digit, n) == v4
  {
    hide Power;
    ClimbOne(n, a, e, v, digit / 8, k1, v1);
    ClimbOne(n, a, 2 * e + digit / 8, v1, digit / 4 % 2, k2, v2);
    ClimbOne(n, a, 2 * (2 * e + digit / 8) + digit / 4 % 2, v2, digit / 2 % 2, k3, v3);
    ClimbOne(n, a, 2 * (2 * (2 * e + digit / 8) + digit / 4 % 2) + digit / 2 % 2, v3, digit % 2, k4, v4);
  }

  lemma Start(n: nat, a: nat)
    requires n > 1
    ensures Power(a, 0, n) == 1
  {
  }

  /** A certificate whose factor of n - 1 is a power of one prime q. */
  lemma OneFactor(n: nat, a: nat, qs: seq<nat>, q: nat, r: nat, b: nat, u: nat)
    requires n > 1 && IsPrime(q) && forall x | x in qs :: x == q
    requires Product(qs) * r == n - 1 && Product(qs) * Product(qs) >= n
    requires (n - 1) % q == 0 && Power(a, (n - 1) / q, n) == b && Power(b, q, n) == 1
    requires b > 0 && Invertible(b, u, n)
    ensures IsPrime(n)
  {
    hide Power, Product, Invertible, IsPrime;
    PrimeAboveOne(q);
    var e, us := (n - 1) / q, (x: nat) => u;
    assert n - 1 == e * q;
    PowerPower(a, e, q, n);
    forall x | x in qs ensures IsPrime(x) && Power(a, (n - 1) / x, n) == b && us(x) == u {
      assert x == q;
    }
    Pocklington(n, a, qs, r, us);
  }

  /** A certificate with two primes. */
  lemma TwoFactors(n: nat, a: nat, p: nat, q: nat, r: nat, b: nat, u: nat, c: nat, w: nat)
    requires n > 1 && IsPrime(p) && IsPrime(q) && p != q
    requires p * q * r == n - 1 && (p * q) * (p * q) >= n
    requires (n - 1) % p == 0 && Power(a, (n - 1) / p, n) == b && Power(b, p, n) == 1
    requires (n - 1) % q == 0 && Power(a, (n - 1) / q, n) == c
    requires b > 0 && Invertible(b, u, n) && c > 0 && Invertible(c, w, n)
    ensures IsPrime(n)
  {
    hide Power, Invertible, IsPrime, Product;
    PrimeAboveOne(p);
    PrimeAboveOne(q);
    var e, us := (n - 1) / p, (x: nat) => if x == p then u else w;
    assert n - 1 == e * p;
    PowerPower(a, e, p, n);
    ProductOfTwo(p, q);
    forall x | x in [p, q]
      ensures IsPrime(x) && var d := Power(a, (n - 1) / x, n); d > 0 && Invertible(d, us(x), n)
    {
      if x == p { assert us(x) == u; } else { assert x == q; }
    }
    Pocklington(n, a, [p, q], r, us);
  }

  lemma ProductOfTwo(p: nat, q: nat)
    ensures Product([p, q]) == p * q
  {
    assert [p, q][1..] == [q];
    assert Product([q]) == q;
  }

  // ---------------------------------------------------------------- trial division

  predicate NoDivisorFrom(n: nat, d: nat)
    requires d > 0
    decreases n - d
  {
    d * d > n || d >= n || (n % d != 0 && NoDivisorFrom(n, d + 1))
  }

  lemma {:induction false} TrialDivision(n: nat, d: nat, e: nat)
    requires 0 < d <= e && e * e <= n && e < n && NoDivisorFrom(n, d)
    ensures n % e != 0
    decreases e - d
  {
    if d * d > n {
      MulMonotone(d, d, e);
      MulMonotone(e, d, e);
    } else if d < e {
      TrialDivision(n, d + 1, e);
    }
  }

  lemma Trial(n: nat)
    requires n >= 2 && NoDivisorFrom(n, 2)
    ensures IsPrime(n)
  {
    forall d | 1 < d < n ensures n % d != 0 {
      NoDivisor(n, d);
    }
  }

  lemma NoDivisor(n: nat, d: nat)
    requires 1 < d < n && NoDivisorFrom(n, 2)
    ensures n % d != 0
  {
    hide NoDivisorFrom;
    if d * d <= n {
      TrialDivision(n, 2, d);
    } else if n % d == 0 {
      var e := n / d;
      assert n == d * e;
      if e <= 1 { MulMonotone(d, e, 1); }
      if e >= d { MulMonotone(d, d, e); }
      MulMonotone(e, e, d);
      ModIs(n, e, d, 0);
      TrialDivision(n, 2, e);
    }
  }
}
