/** The solver's trial-division loops: number of divisors and largest prime factor. */
module Divisors {
  import opened Arithmetic
  import opened Sets

  ghost function DivisorSet(n: nat): set<int>
    requires n > 0
  {
    set d | 1 <= d <= n && Divides(d, n)
  }

  /** The number of positive divisors of n, by definition. */
  ghost function Tau(n: nat): nat
    requires n > 0
  {
    |DivisorSet(n)|
  }

  lemma DivisorMember(d: int, n: nat)
    requires n > 0 && d > 0
    ensures d in DivisorSet(n) <==> Divides(d, n)
  {
    if Divides(d, n) {
      DivisorAtMost(d, n);
    }
  }

  /** A divisor of p*k that p does not divide already divides k. */
  lemma PrimeFactorDropped(p: int, d: int, k: int)
    requires Prime(p) && d > 0 && !Divides(p, d) && Divides(d, p * k)
    ensures Divides(d, k)
  {
    var x := Quotient(d, p * k);
    MultipleDivides(p, k);
    EuclidLemma(p, d, x);
    var x' := Quotient(p, x);
    assert p * k == p * (d * x') by {
      assert d * (p * x') == p * (d * x');
    }
    MultipleDivides(p, k);
    MultipleDivides(p, d * x');
    assert k == d * x';
    MultipleDivides(d, x');
  }

  lemma {:induction false} PrimePowerDropped(p: int, d: int, m: int, e: nat)
    requires Prime(p) && d > 0 && !Divides(p, d) && Divides(d, m * Pow(p, e))
    ensures Divides(d, m)
  {
    if e > 0 {
      assert m * Pow(p, e) == p * (m * Pow(p, e - 1));
      PrimeFactorDropped(p, d, m * Pow(p, e - 1));
      PrimePowerDropped(p, d, m, e - 1);
    }
  }

  function ScaleBy(p: int): int -> int {
    x => p * x
  }

  lemma ScaledDivisor(p: int, d: int, k: int)
    requires p > 0 && d > 0
    ensures Divides(p * d, p * k) <==> Divides(d, k)
  {
    TimesMonotone(p, 1, d);
    if Divides(d, k) {
      var x := Quotient(d, k);
      assert p * k == (p * d) * x;
      MultipleDivides(p * d, x);
    }
    if Divides(p * d, p * k) {
      var x := Quotient(p * d, p * k);
      assert p * k == p * (d * x);
      MultipleDivides(p, k);
      MultipleDivides(p, d * x);
      MultipleDivides(d, x);
    }
  }

  lemma ScaleByInjective(p: int, s: set<int>)
    requires p > 0
    ensures InjectiveOn(ScaleBy(p), s)
  {
    forall x, y | x in s && y in s && ScaleBy(p)(x) == ScaleBy(p)(y) ensures x == y {
      MultipleDivides(p, x);
      MultipleDivides(p, y);
    }
  }

  lemma ScaledMember(p: int, k: nat, d: int)
    requires p > 0 && k > 0 && d > 0 && Divides(p, d)
    ensures d in Image(ScaleBy(p), DivisorSet(k)) <==> Divides(d, p * k)
  {
    var x := Quotient(p, d);
    DivisorAtMost(p, d);
    ScaledDivisor(p, x, k);
    DivisorMember(x, k);
    if d in Image(ScaleBy(p), DivisorSet(k)) {
      var y :| y in DivisorSet(k) && d == ScaleBy(p)(y);
      MultipleDivides(p, y);
    }
    if Divides(d, p * k) {
      assert ScaleBy(p)(x) == d;
    }
  }

  /** The divisors of m*p^(e+1): those of m, and p times those of m*p^e. */
  lemma DivisorSplit(m: nat, p: int, k: nat, e: nat, d: int)
    requires m > 0 && Prime(p) && !Divides(p, m) && k > 0 && k == m * Pow(p, e) && d > 0
    ensures Divides(d, p * k) <==> Divides(d, m) || d in Image(ScaleBy(p), DivisorSet(k))
    ensures !(Divides(d, m) && d in Image(ScaleBy(p), DivisorSet(k)))
  {
    if Divides(d, m) {
      DividesCombination(d, m, p * Pow(p, e), m, 0);
      assert m * (p * Pow(p, e)) == p * k;
    }
    if Divides(p, d) {
      ScaledMember(p, k, d);
      if Divides(d, m) {
        DividesTransitive(p, d, m);
      }
    } else {
      if d in Image(ScaleBy(p), DivisorSet(k)) {
        var y :| y in DivisorSet(k) && d == ScaleBy(p)(y);
        MultipleDivides(p, y);
      }
      if Divides(d, p * k) {
        assert m * Pow(p, e + 1) == p * k;
        PrimePowerDropped(p, d, m, e + 1);
      }
    }
  }

  lemma TauStep(m: nat, p: int, k: nat, e: nat)
    requires m > 0 && Prime(p) && !Divides(p, m) && k > 0 && k == m * Pow(p, e)
    ensures p * k > 0 && Tau(p * k) == Tau(m) + Tau(k)
  {
    hide Pow, Divides, Prime;
    TimesMonotone(p, 1, k) by { PrimeAtLeastTwo(p); }
    PrimeAtLeastTwo(p);
    var a, b, c := DivisorSet(m), Image(ScaleBy(p), DivisorSet(k)), DivisorSet(p * k);
    forall d ensures d in c <==> d in a || d in b
             ensures !(d in a && d in b)
    {
      if d > 0 {
        DivisorSplit(m, p, k, e, d);
        DivisorMember(d, m);
        DivisorMember(d, p * k);
      } else {
        NotScaled(p, k, d);
      }
    }
    assert c == a + b && a * b == {};
    ScaleByInjective(p, DivisorSet(k));
    ImageSize(ScaleBy(p), DivisorSet(k));
  }

  lemma PrimeAtLeastTwo(p: int)
    requires Prime(p)
    ensures p >= 2
  {
  }

  lemma NotScaled(p: int, k: nat, d: int)
    requires p > 0 && k > 0 && d <= 0
    ensures d !in Image(ScaleBy(p), DivisorSet(k))
  {
    forall x | x in DivisorSet(k) ensures ScaleBy(p)(x) != d {
      TimesMonotone(p, 1, x);
    }
  }

  /** Multiplicativity at a prime power: tau(m * p^e) = tau(m) * (e + 1). */
  lemma {:induction false} TauPrimePower(m: nat, p: int, e: nat)
    requires m > 0 && Prime(p) && !Divides(p, m)
    ensures m * Pow(p, e) > 0 && Tau(m * Pow(p, e)) == Tau(m) * (e + 1)
  {
    hide Tau, Divides, Prime;
    if e == 0 {
      assert m * Pow(p, 0) == m;
    } else {
      TauPrimePower(m, p, e - 1);
      var k := m * Pow(p, e - 1);
      TauStep(m, p, k, e - 1);
      assert m * Pow(p, e) == p * k;
      assert Tau(m) * (e + 1) == Tau(m) * e + Tau(m);
    }
  }

  lemma TauOfOne()
    ensures Tau(1) == 1
  {
    assert DivisorSet(1) == {1};
  }

  lemma TauOfPrime(p: int)
    requires Prime(p)
    ensures Tau(p) == 2
  {
    MultipleDivides(1, p);
    MultipleDivides(p, 1);
    assert DivisorSet(p) == {1, p};
  }

  ghost predicate NoDivisorBelow(f: int, n: int) {
    forall d :: 2 <= d < f ==> !Divides(d, n)
  }

  /** Without divisors below f and with f*f > n, only 1 or a prime is left. */
  lemma TauOfRest(n: nat, f: int)
    requires n > 0 && f >= 2 && f * f > n && NoDivisorBelow(f, n)
    ensures Tau(n) == if n > 1 then 2 else 1
  {
    if n > 1 {
      NoSmallFactorPrime(n, f);
      TauOfPrime(n);
    } else {
      TauOfOne();
    }
  }

  lemma ReducedHasNoDivisorBelow(n: nat, m: nat, g: int, f: int)
    requires f >= 2 && m > 0 && n == m * g && NoDivisorBelow(f, n) && !Divides(f, m)
    ensures NoDivisorBelow(f + 1, m)
  {
    forall d | 2 <= d < f + 1 ensures !Divides(d, m) {
      if d < f && Divides(d, m) {
        DividesCombination(d, m, g, m, 0);
      }
    }
  }

  /** One round of the divisor loop: the power of f taken out contributes e + 1. */
  lemma RoundContribution(n: nat, m: nat, f: int, e: nat)
    requires n > 0 && m > 0 && f >= 2 && n == m * Pow(f, e)
    requires NoDivisorBelow(f, n) && !Divides(f, m)
    ensures Tau(n) == Tau(m) * (e + 1)
    ensures NoDivisorBelow(f + 1, m)
  {
    hide Tau;
    ReducedHasNoDivisorBelow(n, m, Pow(f, e), f);
    if e > 0 {
      assert n == f * (m * Pow(f, e - 1));
      MultipleDivides(f, m * Pow(f, e - 1));
      LeastDivisorPrime(f, n);
      TauPrimePower(m, f, e);
    }
  }

  /** Dividing out another f: the divisor loop's inner step. */
  lemma TakeOutFactor(n: nat, m: nat, f: int, e: nat)
    requires m > 0 && f >= 2 && n == m * Pow(f, e) && Divides(f, m)
    ensures 0 < m / f < m && n == (m / f) * Pow(f, e + 1)
  {
    var k := Quotient(f, m);
    DivisorAtMost(f, m);
    TimesMonotone(k, 2, f);
    PowStep(f, e);
    hide *;
    Reassociate(f, k, Pow(f, e));
  }

  /** The divisor-count loop of `solve_math`; on 0 it answers 1. */
  method CountDivisors(n0: nat) returns (count: nat)
    ensures n0 > 0 ==> count == Tau(n0)
    ensures n0 == 0 ==> count == 1
  {
    hide *;
    var n, c, f := n0, 1, 2;
    NothingBelowTwo(n);
    while f * f <= n
      invariant f >= 2 && n <= n0
      invariant n0 == 0 ==> n == 0 && c == 1
      invariant n0 > 0 ==> n > 0 && c * Tau(n) == Tau(n0) && NoDivisorBelow(f, n)
      decreases n0 + n - f
    {
      ghost var m := n;
      var e := 0;
      PowZero(f, n);
      AtLeastFour(f, n);
      while Divides(f, n)
        invariant 0 < n <= m && m == n * Pow(f, e)
        decreases n
      {
        TakeOutFactor(m, n, f, e);
        n := n / f;
        e := e + 1;
      }
      RoundContribution(m, n, f, e);
      Regroup(c, Tau(n), e + 1);
      c := c * (e + 1);
      f := f + 1;
    }
    if n0 > 0 {
      TauOfRest(n, f);
    }
    return c * (if n > 1 then 2 else 1);
  }

  lemma NothingBelowTwo(n: nat)
    ensures NoDivisorBelow(2, n)
  {
  }

  lemma PowZero(f: int, n: int)
    ensures n == n * Pow(f, 0)
  {
  }

  lemma AtLeastFour(f: int, n: int)
    requires f >= 2 && f * f <= n
    ensures f < n
  {
    TimesMonotone(f, 2, f);
  }

  lemma Reassociate(f: int, k: int, w: int)
    ensures (f * k) * w == k * (f * w)
  {
  }

  lemma Regroup(c: int, t: int, k: int)
    ensures (c * k) * t == c * (t * k)
  {
  }

  /** f is a prime factor of n and no prime factor of n is larger. */
  ghost predicate LargestPrimeFactorOf(f: int, n: int) {
    Prime(f) && Divides(f, n) && forall q :: Prime(q) && Divides(q, n) ==> q <= f
  }

  /** Every prime factor of n0 is at most f or still divides n. */
  ghost predicate FactorsAccounted(n0: int, n: int, f: int) {
    forall q :: Prime(q) && Divides(q, n0) ==> q <= f || Divides(q, n)
  }

  lemma CofactorBounds(n: int, f: int)
    requires n > 0 && f >= 2 && Divides(f, n) && f * f <= n
    ensures f <= n / f < n && n == f * (n / f)
  {
    var k := Quotient(f, n);
    assert f * (f - 1) == f * f - f;
    if k < f {
      TimesMonotone(f, k, f - 1);
    }
    TimesMonotone(k, 2, f);
  }

  lemma AccountedAfterDivision(n0: int, n: int, f: int)
    requires n > 0 && f >= 2 && NoDivisorBelow(f, n) && Divides(f, n) && Divides(n, n0) && f * f <= n
    requires FactorsAccounted(n0, n, f)
    ensures f <= n / f < n && Divides(n / f, n0) && FactorsAccounted(n0, n / f, f)
    ensures NoDivisorBelow(f, n / f)
  {
    CofactorBounds(n, f);
    var k := n / f;
    MultipleDivides(k, f);
    hide Prime;
    DividesTransitive(k, n, n0);
    forall q | Prime(q) && Divides(q, n0) ensures q <= f || Divides(q, k) {
      if Divides(q, n) {
        FactorOfProduct(q, f, k);
      }
    }
    forall d | 2 <= d < f ensures !Divides(d, k) {
      if Divides(d, k) { DividesTransitive(d, k, n); }
    }
  }

  lemma FactorOfProduct(q: int, f: int, k: int)
    requires Prime(q) && f > 0 && Divides(q, f * k)
    ensures q <= f || Divides(q, k)
  {
    EuclidLemma(q, f, k);
    if Divides(q, f) { DivisorAtMost(q, f); }
  }

  lemma LastFactorLargest(n0: int, n: int, f: int)
    requires n >= 2 && 2 <= f <= n && f * f > n && NoDivisorBelow(f, n)
    requires Divides(n, n0) && FactorsAccounted(n0, n, f)
    ensures LargestPrimeFactorOf(n, n0)
  {
    NoSmallFactorPrime(n, f);
    forall q | Prime(q) && Divides(q, n0) ensures q <= n {
      if Divides(q, n) { DivisorAtMost(q, n); }
    }
  }

  lemma NextCandidate(n: int, f: int)
    requires n > 0 && f >= 2 && f * f <= n && NoDivisorBelow(f, n) && !Divides(f, n)
    ensures NoDivisorBelow(f + 1, n) && f + 1 <= n
  {
    TimesMonotone(f, 2, f);
  }

  /** The largest-prime-factor loop of `solve_math`; 0 and 1 are answered unchanged. */
  method LargestPrimeFactor(n0: nat) returns (answer: nat)
    ensures n0 >= 2 ==> LargestPrimeFactorOf(answer, n0)
    ensures n0 < 2 ==> answer == n0
  {
    hide *;
    var n, f := n0, 2;
    NothingBelowTwo(n);
    if n0 > 0 { Self(n0); }
    while f * f <= n
      invariant f >= 2 && n <= n0 && (n0 < 2 ==> n == n0 && f == 2)
      invariant n0 >= 2 ==> f <= n && NoDivisorBelow(f, n) && Divides(n, n0) && FactorsAccounted(n0, n, f)
      decreases n0 + n - f
    {
      AtLeastFour(f, n);
      if Divides(f, n) {
        AccountedAfterDivision(n0, n, f);
        n := n / f;
      } else {
        NextCandidate(n, f);
        MoreAccounted(n0, n, f);
        f := f + 1;
      }
    }
    if n0 >= 2 {
      LastFactorLargest(n0, n, f);
    }
    return n;
  }

  lemma Self(n: nat)
    requires n > 0
    ensures Divides(n, n) && FactorsAccounted(n, n, 2)
  {
    MultipleDivides(n, 1);
  }

  lemma MoreAccounted(n0: int, n: int, f: int)
    requires FactorsAccounted(n0, n, f)
    ensures FactorsAccounted(n0, n, f + 1)
  {
  }
}
