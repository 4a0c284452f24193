/** The solver's prime test and its next-prime search. */
module Primality {
  import opened Arithmetic
  import opened Fermat

  const BASES: seq<int> := [2, 3, 5, 7, 11, 13, 17, 19, 23, 29, 31, 37]

  /** m = OddPart(m) * 2^Twos(m). */
  function OddPart(m: nat): (d: nat)
    requires m > 0
    ensures 0 < d <= m
  {
    if m % 2 == 0 then OddPart(m / 2) else m
  }

  function Twos(m: nat): nat
    requires m > 0
  {
    if m % 2 == 0 then 1 + Twos(m / 2) else 0
  }

  /** d doubled r times. */
  function Doubled(d: nat, r: nat): nat {
    if r == 0 then d else 2 * Doubled(d, r - 1)
  }

  lemma {:induction false} OddPartTwos(m: nat)
    requires m > 0
    ensures Doubled(OddPart(m), Twos(m)) == m
  {
    if m % 2 == 0 {
      OddPartTwos(m / 2);
    }
  }

  /** a^d modulo n, squared r times modulo n. */
  function Squared(a: int, d: nat, r: nat, n: int): int
    requires n > 0
  {
    if r == 0 then Pow(a, d) % n
    else (Squared(a, d, r - 1, n) * Squared(a, d, r - 1, n)) % n
  }

  lemma {:induction false} SquaredIsPower(a: int, d: nat, r: nat, n: int)
    requires n > 0
    ensures Squared(a, d, r, n) == Pow(a, Doubled(d, r)) % n
  {
    if r > 0 {
      var e := Doubled(d, r - 1);
      SquaredIsPower(a, d, r - 1, n);
      PowSum(a, e, e);
      assert Doubled(d, r) == e + e;
      SquareOfRemainder(Pow(a, e), n);
    }
  }

  lemma SquareOfRemainder(x: int, n: int)
    requires n > 0
    ensures ((x % n) * (x % n)) % n == (x * x) % n
  {
    RemainderCongruent(x, n);
    CongruentTimes(x % n, x, x % n, x, n);
    CongruentIffSameRemainder((x % n) * (x % n), x * x, n);
  }

  /** Base a does not expose n as composite. */
  ghost predicate Passes(a: int, d: nat, s: nat, n: int)
    requires n > 0
  {
    Squared(a, d, 0, n) == 1 || exists r: nat :: r < s && Squared(a, d, r, n) == n - 1
  }

  /** What `_is_prime` decides: a listed prime, or a number no listed prime divides
      and no listed base exposes. */
  ghost predicate ProbablePrime(n: int) {
    n in BASES ||
    (n >= 2 && (forall p :: p in BASES ==> !Divides(p, n)) &&
     forall a :: a in BASES ==> Passes(a, OddPart(n - 1), Twos(n - 1), n))
  }

  lemma {:induction false} SquaredRange(a: int, d: nat, r: nat, n: int)
    requires n > 0
    ensures 0 <= Squared(a, d, r, n) < n
  {
  }

  /** Going back from a square that is 1, modulo a prime, meets -1 or reaches a^d = 1. */
  lemma {:induction false} RootsMeetMinusOne(a: int, d: nat, s: nat, n: int)
    requires Prime(n) && Squared(a, d, s, n) == 1
    ensures Passes(a, d, s, n)
    decreases s
  {
    if s > 0 {
      var x := Squared(a, d, s - 1, n);
      SquareRootsOfOne(x, n);
      SquaredRange(a, d, s - 1, n);
      QuotientUnique(x, n, 0, x);
      if x == 1 {
        RootsMeetMinusOne(a, d, s - 1, n);
      }
    }
  }

  lemma PrimePasses(a: int, n: int)
    requires Prime(n) && !Divides(n, a)
    ensures Passes(a, OddPart(n - 1), Twos(n - 1), n)
  {
    var d, s := OddPart(n - 1), Twos(n - 1);
    OddPartTwos(n - 1);
    SquaredIsPower(a, d, s, n);
    FermatLittle(a, n);
    RootsMeetMinusOne(a, d, s, n);
  }

  /** The test never rejects a prime, however large. */
  lemma PrimeAccepted(n: int)
    requires Prime(n)
    ensures ProbablePrime(n)
  {
    if n !in BASES {
      forall p | p in BASES ensures !Divides(p, n) {
        if Divides(p, n) {
          DivisorAtMost(p, n);
        }
      }
      forall a | a in BASES ensures Passes(a, OddPart(n - 1), Twos(n - 1), n) {
        if Divides(n, a) {
          DivisorAtMost(n, a);
          assert a in BASES && 2 <= n <= a <= 37;
          CompositeUpTo37(n);
        }
        PrimePasses(a, n);
      }
    }
  }

  lemma CompositeUpTo37(n: int)
    requires 2 <= n <= 37 && n !in BASES
    ensures Divides(2, n) || Divides(3, n) || Divides(5, n)
  {
  }

  lemma BasesPrime(p: int)
    requires p in BASES
    ensures Prime(p)
  {
    forall d | 2 <= d < p ensures !Divides(d, p) {
      if Divides(d, p) {
        var k := Quotient(d, p);
      }
    }
  }

  lemma TwoAndThreePrime()
    ensures Prime(2) && Prime(3) && !Prime(1)
  {
    BasesPrime(2);
    BasesPrime(3);
  }

  /** Below 41^2 the trial divisions alone decide, so there the test is exact. */
  lemma ExactBelow1681(n: int)
    requires n < 1681
    ensures ProbablePrime(n) <==> Prime(n)
  {
    if n in BASES {
      BasesPrime(n);
    } else if n >= 2 && !Prime(n) {
      var f := LeastFactor(n);
      var k := Quotient(f, n);
      assert f < n;
      CofactorAtLeast(n, f, f);
      if f >= 41 {
        TimesMonotone(f, 41, f);
        TimesMonotone(41, 41, f);
      }
      if f !in BASES {
        CompositeBelow41(f);
      }
      assert f in BASES;
    } else if n >= 2 {
      PrimeAccepted(n);
    }
  }

  lemma CompositeBelow41(f: int)
    requires 2 <= f < 41 && f !in BASES
    ensures !Prime(f)
  {
    assert Divides(2, f) || Divides(3, f) || Divides(5, f);
  }

  lemma Classified(n: int)
    ensures Prime(n) ==> ProbablePrime(n)
    ensures n < 1681 ==> (ProbablePrime(n) <==> Prime(n))
  {
    if Prime(n) { PrimeAccepted(n); }
    if n < 1681 { ExactBelow1681(n); }
  }

  lemma SmallFactorDecides(n: int, p: int)
    requires n >= 2 && p in BASES && Divides(p, n)
    ensures ProbablePrime(n) <==> n == p
  {
    if n in BASES {
      BasesPrime(n);
      DivisorAtMost(p, n);
    }
  }

  lemma BasesAtLeastTwo()
    ensures forall j :: 0 <= j < |BASES| ==> BASES[j] >= 2
    ensures forall p :: p in BASES ==> p >= 2
  {
  }

  lemma TooSmall(n: int)
    requires n < 2
    ensures !ProbablePrime(n)
  {
  }

  lemma Exposed(n: int, a: int)
    requires n >= 2 && n !in BASES && a in BASES
    requires !Passes(a, OddPart(n - 1), Twos(n - 1), n)
    ensures !ProbablePrime(n)
  {
  }

  lemma AllPassed(n: int)
    requires n >= 2 && forall p :: p in BASES ==> !Divides(p, n)
    requires forall a :: a in BASES ==> Passes(a, OddPart(n - 1), Twos(n - 1), n)
    ensures ProbablePrime(n)
  {
  }

  lemma Halve(d: nat)
    requires d > 0
    ensures d % 2 == 0 ==> d / 2 > 0 && OddPart(d) == OddPart(d / 2) && Twos(d) == Twos(d / 2) + 1
    ensures d % 2 != 0 ==> OddPart(d) == d && Twos(d) == 0
  {
  }

  lemma OddAboveBases(n: int)
    requires n >= 2 && forall p :: p in BASES ==> !Divides(p, n)
    ensures n !in BASES && n > 2 && n % 2 == 1
  {
    assert 2 in BASES;
    if n in BASES {
      MultipleDivides(n, 1);
    }
  }

  /** One round of the test: square a^d until -1 shows up or s - 1 squarings are spent. */
  method Round(a: int, d: nat, s: nat, n: int) returns (passed: bool)
    requires n > 2 && s >= 1
    ensures passed <==> Passes(a, d, s, n)
  {
    hide Pow;
    var x := Pow(a, d) % n;
    assert x == Squared(a, d, 0, n);
    if x == 1 || x == n - 1 {
      return true;
    }
    for r := 1 to s
      invariant x == Squared(a, d, r - 1, n)
      invariant forall q: nat :: q < r ==> Squared(a, d, q, n) != n - 1
    {
      assert Squared(a, d, r, n) == (x * x) % n;
      x := x * x % n;
      if x == n - 1 {
        return true;
      }
    }
    return false;
  }

  /** `_is_prime` (Miller-Rabin over the listed bases). */
  method IsPrime(n: int) returns (b: bool)
    ensures b <==> ProbablePrime(n)
    ensures Prime(n) ==> b
    ensures n < 1681 ==> (b <==> Prime(n))
  {
    hide *;
    BasesAtLeastTwo();
    Classified(n);
    if n < 2 {
      TooSmall(n);
      return false;
    }
    for i := 0 to |BASES|
      invariant forall j :: 0 <= j < i ==> !Divides(BASES[j], n)
    {
      if Divides(BASES[i], n) {
        SmallFactorDecides(n, BASES[i]);
        return n == BASES[i];
      }
    }
    OddAboveBases(n);
    Halve(n - 1);
    var d, s := n - 1, 0;
    while d % 2 == 0
      invariant d > 0 && s >= 0 && (d % 2 != 0 ==> s >= 1)
      invariant OddPart(d) == OddPart(n - 1) && Twos(d) + s == Twos(n - 1)
      decreases d
    {
      Halve(d);
      d := d / 2;
      s := s + 1;
    }
    Halve(d);
    for i := 0 to |BASES|
      invariant forall j :: 0 <= j < i ==> Passes(BASES[j], d, s, n)
    {
      var passed := Round(BASES[i], d, s, n);
      if !passed {
        Exposed(n, BASES[i]);
        return false;
      }
    }
    AllPassed(n);
    return true;
  }

  ghost function Factorial(n: nat): (f: int)
    ensures f >= 1
  {
    if n == 0 then 1 else n * Factorial(n - 1)
  }

  lemma {:induction false} FactorialDivisible(n: nat, k: int)
    requires 1 <= k <= n
    ensures Divides(k, Factorial(n))
  {
    if k == n {
      MultipleDivides(n, Factorial(n - 1));
    } else {
      FactorialDivisible(n - 1, k);
      DividesCombination(k, Factorial(n - 1), n, Factorial(n - 1), 0);
    }
  }

  /** Euclid: above every n there is a prime, a factor of n! + 1. */
  lemma PrimeAbove(n: nat) returns (p: int)
    ensures Prime(p) && p > n
  {
    var m := Factorial(n) + 1;
    p := LeastFactor(m);
    if p <= n {
      FactorialDivisible(n, p);
      DividesCombination(p, m, 1, m - 1, -1);
      assert Divides(p, 1);
      DivisorAtMost(p, 1);
    }
  }

  lemma PrimeOddOrTwo(p: int)
    requires Prime(p)
    ensures p == 2 || p % 2 == 1
  {
    assert p > 2 ==> !Divides(2, p);
  }

  /** `_next_prime`: from n >= 1 the result is accepted by the test, lies above n and
      skips no prime; from n = 0 it answers 3, the one argument on which it skips one. */
  method NextPrime(n: nat) returns (c: int)
    ensures c > n && ProbablePrime(c)
    ensures (exists q :: n < q < c && Prime(q)) <==> n == 0
    ensures n == 0 ==> c == 3
    ensures n < 1680 && c < 1681 ==> Prime(c)
  {
    hide *;
    TwoAndThreePrime();
    c := n + 1;
    if c % 2 == 0 && c != 2 {
      c := c + 1;
    }
    ghost var p := PrimeAbove(c + 1);
    PrimeOddOrTwo(p);
    forall q | n < q < c ensures !Prime(q) {
      if Prime(q) {
        PrimeOddOrTwo(q);
      }
    }
    var accepted := IsPrime(c);
    while !accepted
      invariant n < c <= p && (c % 2 == 1 || c == 2)
      invariant n == 0 ==> c == 1 || c == 3
      invariant forall q :: n < q < c && Prime(q) ==> n == 0 && q == 2
      invariant accepted <==> ProbablePrime(c)
      invariant c < 1681 ==> (accepted <==> Prime(c))
      invariant Prime(c) ==> accepted
      decreases p - c
    {
      forall q | n < q < c + 2 && Prime(q) ensures n == 0 && q == 2 {
        PrimeOddOrTwo(q);
      }
      c := c + 2;
      accepted := IsPrime(c);
    }
  }

  ghost function PrimesBelow(n: int): set<int> {
    set p | 2 <= p < n && Prime(p)
  }

  lemma OneMore(n: int)
    requires n >= 2
    ensures PrimesBelow(n + 1) == if Prime(n) then PrimesBelow(n) + {n} else PrimesBelow(n)
    ensures n !in PrimesBelow(n)
  {
    hide Prime;
  }

  /** The count of primes strictly below n: never too small, and exact where the test is. */
  method CountPrimes(n: int) returns (count: nat)
    ensures count >= |PrimesBelow(n)|
    ensures n <= 1681 ==> count == |PrimesBelow(n)|
  {
    hide Prime, ProbablePrime;
    count := 0;
    assert PrimesBelow(2) == {};
    assert n < 2 ==> PrimesBelow(n) == {};
    var i := 2;
    while i < n
      invariant 2 <= i <= if n >= 2 then n else 2
      invariant count >= |PrimesBelow(i)|
      invariant i <= 1681 ==> count == |PrimesBelow(i)|
    {
      OneMore(i);
      var prime := IsPrime(i);
      if prime {
        count := count + 1;
      }
      i := i + 1;
    }
  }
}
