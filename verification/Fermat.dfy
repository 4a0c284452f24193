/** Fermat's little theorem, by comparing the product of 1..p-1 with the product
    of its image under multiplication by a. */
module Fermat {
  import opened Arithmetic
  import opened Sets

  ghost function Product(s: set<int>): int {
    if s == {} then 1 else Pick(s) * Product(s - {Pick(s)})
  }

  lemma {:induction false} ProductSplit(s: set<int>, y: int)
    requires y in s
    ensures Product(s) == y * Product(s - {y})
    decreases s
  {
    var x := Pick(s);
    if x != y {
      ProductSplit(s - {x}, y);
      ProductSplit(s - {y}, x);
      assert s - {x} - {y} == s - {y} - {x};
      var rest := Product(s - {x} - {y});
      assert x * (y * rest) == y * (x * rest);
    }
  }

  lemma {:induction false} ProductNotDivisible(s: set<int>, p: int)
    requires Prime(p) && forall x :: x in s ==> !Divides(p, x)
    ensures !Divides(p, Product(s))
    decreases s
  {
    if s != {} {
      var x := Pick(s);
      ProductNotDivisible(s - {x}, p);
      if Divides(p, Product(s)) {
        EuclidLemma(p, x, Product(s - {x}));
      }
    }
  }

  /** The residues below p that the theorem multiplies together. */
  ghost function Units(p: nat): (s: set<int>)
    requires p >= 1
    ensures forall x :: x in s <==> 1 <= x < p
    ensures |s| == p - 1
  {
    if p == 1 then {} else Units(p - 1) + {p - 1}
  }

  /** Multiplication by a modulo p. */
  function Times(a: int, p: int): int -> int
    requires p > 0
  {
    x => (a * x) % p
  }

  lemma ScaledDistinct(a: int, p: int, x: int, y: int)
    requires Prime(p) && !Divides(p, a) && 1 <= x < p && 1 <= y < p
    requires (a * x) % p == (a * y) % p
    ensures x == y
  {
    CongruentIffSameRemainder(a * x, a * y, p);
    assert a * x - a * y == a * (x - y);
    EuclidLemma(p, a, x - y);
    var k := Quotient(p, x - y);
    SmallMultiple(p, k);
  }

  lemma TimesInjective(a: int, p: int, s: set<int>)
    requires Prime(p) && !Divides(p, a) && s <= Units(p)
    ensures InjectiveOn(Times(a, p), s)
  {
    forall x, y | x in s && y in s && Times(a, p)(x) == Times(a, p)(y) ensures x == y {
      ScaledDistinct(a, p, x, y);
    }
  }

  lemma ScaledFactors(a: int, x: int, y: int, image: int, pw: int, pr: int, p: int)
    requires p > 0 && y == (a * x) % p && Congruent(image, pw * pr, p)
    ensures Congruent(y * image, (a * pw) * (x * pr), p)
  {
    RemainderCongruent(a * x, p);
    CongruentTimes(y, a * x, image, pw * pr, p);
    assert (a * x) * (pw * pr) == (a * pw) * (x * pr);
  }

  /** The product of s with every element scaled by a, before reduction modulo p. */
  ghost function ScaledProduct(a: int, s: set<int>): int {
    Pow(a, |s|) * Product(s)
  }

  lemma ScaledProductSplit(a: int, s: set<int>, x: int)
    requires x in s
    ensures ScaledProduct(a, s) == (a * Pow(a, |s - {x}|)) * (x * Product(s - {x}))
  {
    ProductSplit(s, x);
    PowStep(a, |s - {x}|);
  }

  lemma ImageProductStep(a: int, p: int, s: set<int>, x: int)
    requires Prime(p) && !Divides(p, a) && s <= Units(p) && x in s
    requires Congruent(Product(Image(Times(a, p), s - {x})), ScaledProduct(a, s - {x}), p)
    ensures Congruent(Product(Image(Times(a, p), s)), ScaledProduct(a, s), p)
  {
    hide Divides, Congruent, Pow, Product, Prime, Units;
    var f, s' := Times(a, p), s - {x};
    TimesInjective(a, p, s);
    ImageSplit(f, s, x);
    ProductSplit(Image(f, s), f(x));
    ScaledProductSplit(a, s, x);
    ScaledFactors(a, x, f(x), Product(Image(f, s')), Pow(a, |s'|), Product(s'), p);
  }

  /** Multiplying the residues in s by a multiplies their product by a^|s|. */
  lemma {:induction false} ImageProduct(a: int, p: int, s: set<int>)
    requires Prime(p) && !Divides(p, a) && s <= Units(p)
    ensures Congruent(Product(Image(Times(a, p), s)), ScaledProduct(a, s), p)
    decreases s
  {
    if s == {} {
      assert Image(Times(a, p), s) == {} && ScaledProduct(a, s) == 1;
      MultipleDivides(p, 0);
    } else {
      hide *;
      var x := Pick(s);
      ImageProduct(a, p, s - {x});
      ImageProductStep(a, p, s, x);
    }
  }

  lemma UnitNotDivisible(p: int, x: int)
    requires 1 <= x < p
    ensures !Divides(p, x)
  {
    QuotientUnique(x, p, 0, x);
  }

  /** Multiplication by a permutes the residues 1..p-1. */
  lemma TimesPermutes(a: int, p: int)
    requires Prime(p) && !Divides(p, a)
    ensures Image(Times(a, p), Units(p)) == Units(p)
  {
    var u, f := Units(p), Times(a, p);
    forall x | x in u ensures f(x) in u {
      UnitNotDivisible(p, x);
      if Divides(p, a * x) {
        EuclidLemma(p, a, x);
      }
    }
    TimesInjective(a, p, u);
    ImageSize(f, u);
    SubsetSameSize(Image(f, u), u);
  }

  lemma CancelFactor(p: int, x: int, c: int)
    requires Prime(p) && !Divides(p, c) && Congruent(c, x * c, p)
    ensures x % p == 1
  {
    assert c - x * c == (1 - x) * c;
    EuclidLemma(p, 1 - x, c);
    CongruentIffSameRemainder(1, x, p);
  }

  lemma UnitsProduct(a: int, p: int)
    requires Prime(p) && !Divides(p, a)
    ensures Congruent(Product(Units(p)), ScaledProduct(a, Units(p)), p)
  {
    TimesPermutes(a, p);
    ImageProduct(a, p, Units(p));
  }

  lemma UnitsProductNotDivisible(p: int)
    requires Prime(p)
    ensures !Divides(p, Product(Units(p)))
  {
    forall x | x in Units(p) ensures !Divides(p, x) {
      UnitNotDivisible(p, x);
    }
    ProductNotDivisible(Units(p), p);
  }

  /** Fermat's little theorem: a^(p-1) leaves remainder 1 for a prime p not dividing a. */
  lemma FermatLittle(a: int, p: int)
    requires Prime(p) && !Divides(p, a)
    ensures Pow(a, p - 1) % p == 1
  {
    UnitsProduct(a, p);
    UnitsProductNotDivisible(p);
    CancelFactor(p, Pow(a, p - 1), Product(Units(p)));
  }

  /** Modulo a prime the only square roots of 1 are 1 and -1. */
  lemma SquareRootsOfOne(x: int, p: int)
    requires Prime(p) && (x * x) % p == 1
    ensures x % p == 1 || x % p == p - 1
  {
    CongruentIffSameRemainder(x * x, 1, p);
    assert x * x - 1 == (x - 1) * (x + 1);
    EuclidLemma(p, x - 1, x + 1);
    CongruentIffSameRemainder(x, 1, p);
    CongruentIffSameRemainder(x, -1, p);
    QuotientUnique(-1, p, -1, p - 1);
  }
}
