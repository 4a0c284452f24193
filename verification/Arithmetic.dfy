/** Divisibility, powers and primes over the integers: what the proofs about the
    solver's number-theoretic loops stand on. */
module Arithmetic {

  predicate Divides(d: int, n: int)
    requires d > 0
  {
    n % d == 0
  }

  /** Primality by definition: no divisor strictly between 1 and n. */
  ghost predicate Prime(n: int) {
    n >= 2 && forall d :: 2 <= d < n ==> !Divides(d, n)
  }

  function Pow(b: int, e: nat): int {
    if e == 0 then 1 else b * Pow(b, e - 1)
  }

  lemma TimesMonotone(d: int, x: int, y: int)
    requires d >= 0 && x <= y
    ensures d * x <= d * y
  {
  }

  /** A multiple of d strictly between -d and d is zero. */
  lemma SmallMultiple(d: int, k: int)
    requires d > 0 && -d < d * k < d
    ensures k == 0
  {
    if k >= 1 {
      TimesMonotone(d, 1, k);
    } else if k <= -1 {
      TimesMonotone(d, k, -1);
    }
  }

  lemma DivisionIdentity(n: int, d: int) returns (q: int, r: int)
    requires d > 0
    ensures q == n / d && r == n % d && n == d * q + r && 0 <= r < d
  {
    q, r := n / d, n % d;
  }

  lemma QuotientUnique(n: int, d: int, q: int, r: int)
    requires d > 0 && 0 <= r < d && n == d * q + r
    ensures n / d == q && n % d == r
  {
    var q', r' := DivisionIdentity(n, d);
    var k := q' - q;
    assert d * k == d * q' - d * q;
    SmallMultiple(d, k);
  }

  lemma MultipleDivides(d: int, k: int)
    requires d > 0
    ensures Divides(d, d * k) && Divides(d, k * d) && (d * k) / d == k
  {
    QuotientUnique(d * k, d, k, 0);
  }

  lemma Quotient(d: int, n: int) returns (k: int)
    requires d > 0 && Divides(d, n)
    ensures n == d * k && k == n / d
  {
    k := n / d;
  }

  lemma DividesCombination(d: int, a: int, x: int, b: int, y: int)
    requires d > 0 && Divides(d, a) && Divides(d, b)
    ensures Divides(d, a * x + b * y)
  {
    var i := Quotient(d, a);
    var j := Quotient(d, b);
    assert (d * i) * x + (d * j) * y == d * (i * x + j * y);
    MultipleDivides(d, i * x + j * y);
  }

  lemma DividesTransitive(a: int, b: int, c: int)
    requires a > 0 && b > 0 && Divides(a, b) && Divides(b, c)
    ensures Divides(a, c)
  {
    var i := Quotient(a, b);
    var j := Quotient(b, c);
    assert (a * i) * j == a * (i * j);
    MultipleDivides(a, i * j);
  }

  lemma DivisorAtMost(d: int, n: int)
    requires d > 0 && n > 0 && Divides(d, n)
    ensures d <= n && n / d >= 1
  {
    var k := Quotient(d, n);
    assert k >= 1;
    TimesMonotone(d, 1, k);
  }

  /** Congruence modulo m, as divisibility of the difference. */
  predicate Congruent(x: int, y: int, m: int)
    requires m > 0
  {
    Divides(m, x - y)
  }

  lemma CongruentIffSameRemainder(x: int, y: int, m: int)
    requires m > 0
    ensures Congruent(x, y, m) <==> x % m == y % m
  {
    assert x - y == m * (x / m - y / m) + (x % m - y % m);
    if x % m == y % m {
      MultipleDivides(m, x / m - y / m);
    }
    if Congruent(x, y, m) {
      var k := Quotient(m, x - y);
      assert x == m * (k + y / m) + y % m;
      QuotientUnique(x, m, k + y / m, y % m);
    }
  }

  lemma CongruentTimes(a: int, b: int, x: int, y: int, m: int)
    requires m > 0 && Congruent(a, b, m) && Congruent(x, y, m)
    ensures Congruent(a * x, b * y, m)
  {
    assert a * x - b * y == (a - b) * x + (x - y) * b;
    DividesCombination(m, a - b, x, x - y, b);
  }

  lemma RemainderCongruent(x: int, m: int)
    requires m > 0
    ensures Congruent(x % m, x, m) && Congruent(x, x % m, m)
  {
    assert x % m - x == m * -(x / m);
    assert x - x % m == m * (x / m);
    MultipleDivides(m, -(x / m));
    MultipleDivides(m, x / m);
  }

  /** Euclid's lemma for a factor below the prime, by descent p = q*x + r. */
  lemma {:induction false} EuclidBelow(p: int, x: int, y: int)
    requires Prime(p) && 1 <= x < p && Divides(p, x * y)
    ensures Divides(p, y)
    decreases x
  {
    if x > 1 {
      var q, r := p / x, p % x;
      assert !Divides(x, p);
      assert p * y == (x * q + r) * y == q * (x * y) + r * y;
      assert r * y == p * y + (x * y) * -q;
      MultipleDivides(p, 1);
      DividesCombination(p, p, y, x * y, -q);
      EuclidBelow(p, r, y);
    }
  }

  /** Euclid's lemma: a prime that divides a product divides one of its factors. */
  lemma EuclidLemma(p: int, x: int, y: int)
    requires Prime(p) && Divides(p, x * y)
    ensures Divides(p, x) || Divides(p, y)
  {
    if !Divides(p, x) {
      var r := x % p;
      assert r * y == x * y + p * (-(x / p) * y) by {
        assert x == p * (x / p) + r;
        assert r * y == (x - p * (x / p)) * y;
      }
      MultipleDivides(p, 1);
      DividesCombination(p, x * y, 1, p, -(x / p) * y);
      EuclidBelow(p, r, y);
    }
  }

  /** Every number from 2 up has a least divisor, and it is prime. */
  lemma LeastFactor(n: int) returns (f: int)
    requires n >= 2
    ensures 2 <= f <= n && Divides(f, n) && Prime(f)
    ensures forall d :: 2 <= d < f ==> !Divides(d, n)
  {
    f := 2;
    MultipleDivides(n, 1);
    while !Divides(f, n)
      invariant 2 <= f <= n
      invariant forall d :: 2 <= d < f ==> !Divides(d, n)
      decreases n - f
    {
      f := f + 1;
    }
    LeastDivisorPrime(f, n);
  }

  lemma LeastDivisorPrime(f: int, n: int)
    requires 2 <= f && n > 0 && Divides(f, n)
    requires forall d :: 2 <= d < f ==> !Divides(d, n)
    ensures Prime(f)
  {
    forall d | 2 <= d < f ensures !Divides(d, f) {
      if Divides(d, f) {
        DividesTransitive(d, f, n);
      }
    }
  }

  lemma CofactorAtLeast(n: int, f: int, d: int)
    requires n >= 2 && f >= 2 && 2 <= d < n && Divides(d, n)
    requires forall d :: 2 <= d < f ==> !Divides(d, n)
    ensures f * f <= n
  {
    var k := Quotient(d, n);
    DivisorAtMost(d, n);
    MultipleDivides(k, d);
    assert Divides(k, n);
    assert k >= 2;
    assert d >= f && k >= f;
    TimesMonotone(f, f, k);
    TimesMonotone(k, f, d);
  }

  /** A number without a divisor below f is prime once f*f exceeds it. */
  lemma NoSmallFactorPrime(n: int, f: int)
    requires n >= 2 && f >= 2 && f * f > n
    requires forall d :: 2 <= d < f ==> !Divides(d, n)
    ensures Prime(n)
  {
    forall d | 2 <= d < n ensures !Divides(d, n) {
      if Divides(d, n) {
        CofactorAtLeast(n, f, d);
      }
    }
  }

  lemma PowStep(b: int, e: nat)
    ensures Pow(b, e + 1) == b * Pow(b, e)
  {
  }

  lemma {:induction false} PowSum(b: int, e: nat, f: nat)
    ensures Pow(b, e + f) == Pow(b, e) * Pow(b, f)
    decreases f
  {
    if f > 0 {
      PowSum(b, e, f - 1);
      assert e + f - 1 == e + (f - 1);
      calc {
        Pow(b, e + f);
        b * Pow(b, e + (f - 1));
        b * (Pow(b, e) * Pow(b, f - 1));
        Pow(b, e) * (b * Pow(b, f - 1));
        Pow(b, e) * Pow(b, f);
      }
    }
  }

  lemma {:induction false} PowPositive(b: int, e: nat)
    requires b > 0
    ensures Pow(b, e) > 0
  {
    if e > 0 {
      PowPositive(b, e - 1);
      assert b * Pow(b, e - 1) > 0;
    }
  }
}
