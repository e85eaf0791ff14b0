/** Exact fractions in lowest terms, and Shamir secret sharing of integers on top of them. */
module Fraction {
  import opened Numbers
  import opened Ranges
  import opened Interpolation
  import Poly
  import Shamir

  datatype Ratio = Ratio(num: int, den: int)

  /** The normal form every constructor establishes: positive denominator, lowest terms. */
  ghost predicate Lowest(f: Ratio) {
    f.den > 0 && Gcd(Abs(f.num), f.den) == 1
  }

  type Fraction = f: Ratio | Lowest(f) witness Ratio(0, 1)

  /** f is the rational number n / d. */
  ghost predicate Represents(f: Ratio, n: int, d: int) {
    d != 0 && f.num * d == f.den * n
  }

  /** The numerator and denominator `normalize` computes: sign moved up, then divided by the gcd. */
  function Normal(n: int, d: int): Ratio
    requires d != 0
  {
    var num, den: nat := if d < 0 then -n else n, if d < 0 then -d else d;
    GcdPositive(Abs(num), den);
    var g := Gcd(Abs(num), den);
    Ratio(Quotient(num, g), Quotient(den, g))
  }

  /** The constructor of a fraction, for a denominator other than zero. */
  function Make(n: int, d: int): Fraction
    requires d != 0
  {
    NormalCorrect(n, d);
    Normal(n, d)
  }

  /** Division of the source language, which truncates towards zero. */
  function Quotient(a: int, b: int): int
    requires b > 0
  {
    if a >= 0 then a / b else -((-a) / b)
  }

  lemma GcdPositive(a: nat, b: nat)
    requires b > 0
    ensures Gcd(a, b) > 0
  {
    var x, y := Bezout(a, b);
    DivisorSize(Gcd(a, b), b);
  }

  method Normalize(numerator: int, denominator: int) returns (num: int, den: int)
    requires denominator != 0
    ensures Normal(numerator, denominator) == Ratio(num, den)
    ensures Lowest(Ratio(num, den)) && Represents(Ratio(num, den), numerator, denominator)
  {
    NormalCorrect(numerator, denominator);
    num, den := numerator, denominator;
    if den < 0 {
      den := -den;
      num := -num;
    }
    GcdPositive(Abs(num), den);
    var g := Gcd(Abs(num), den);
    num := Quotient(num, g);
    den := Quotient(den, g);
  }

  lemma ExactQuotient(a: int, g: nat)
    requires g > 0 && Divides(g, a)
    ensures a == g * Quotient(a, g)
  {
    DividesRemainder(g, a);
    DividesLinear(g, a, a, -1, 0);
    DividesRemainder(g, -a);
    assert a >= 0 ==> a == g * (a / g) + a % g;
    assert a < 0 ==> -a == g * ((-a) / g) + (-a) % g;
    assert g * -((-a) / g) == -(g * ((-a) / g));
  }

  lemma DividesAbs(g: int, a: int)
    ensures Divides(g, Abs(a)) <==> Divides(g, a)
  {
    if Divides(g, a) {
      DividesLinear(g, a, a, -1, 0);
    }
    if Divides(g, Abs(a)) {
      DividesLinear(g, Abs(a), Abs(a), -1, 0);
    }
  }

  lemma NormalCorrect(n: int, d: int)
    requires d != 0
    ensures Lowest(Normal(n, d)) && Represents(Normal(n, d), n, d)
  {
    var num, den := if d < 0 then -n else n, if d < 0 then -d else d;
    GcdPositive(Abs(num), den);
    ReducedCorrect(num, den, Gcd(Abs(num), den));
    if d < 0 {
      FlipSigns(Normal(n, d).num, Normal(n, d).den, n, d);
    }
  }

  lemma FlipSigns(a: int, b: int, n: int, d: int)
    requires a * -d == b * -n
    ensures a * d == b * n
  {
  }

  lemma ReducedCorrect(num: int, den: nat, g: nat)
    requires den > 0 && g == Gcd(Abs(num), den) && g > 0
    ensures var f := Ratio(Quotient(num, g), Quotient(den, g)); Lowest(f) && f.num * den == f.den * num
  {
    var x, y := Bezout(Abs(num), den);
    DividesAbs(g, num);
    ExactQuotient(num, g);
    ExactQuotient(den, g);
    QuotientsLowest(g, num, den, Quotient(num, g), Quotient(den, g), if num < 0 then -x else x, y);
  }

  lemma QuotientsLowest(g: nat, num: int, den: nat, a: int, b: int, x: int, y: int)
    requires g > 0 && den > 0 && num == g * a && den == g * b && x * num + y * den == g
    ensures b > 0 && Gcd(Abs(a), b) == 1 && a * den == b * num
  {
    QuotientsCoprime(g, a, b, x, y);
    CrossProducts(g, a, b);
  }

  lemma CrossProducts(g: int, a: int, b: int)
    ensures a * (g * b) == b * (g * a)
  {
    MulAssociative(a, g, b);
    MulSwap(a, g, b);
    MulAssociative(b, g, a);
    MulSwap(b, g, a);
  }

  lemma QuotientsCoprime(g: nat, a: int, b: int, x: int, y: int)
    requires g > 0 && g * b > 0 && x * (g * a) + y * (g * b) == g
    ensures b > 0 && Gcd(Abs(a), b) == 1
  {
    Factor(g, a, b, x, y);
    CancelFactor(g, x * a + y * b, 1);
    var u, v := Bezout(Abs(a), b);
    var h := Gcd(Abs(a), b);
    DividesAbs(h, a);
    DividesLinear(h, a, b, x, y);
    DivisorSize(h, 1);
  }

  lemma Factor(g: int, a: int, b: int, x: int, y: int)
    ensures x * (g * a) + y * (g * b) == g * (x * a + y * b)
  {
    CrossProducts(g, x, a);
    CrossProducts(g, y, b);
    MulDistributes(g, x * a, y * b);
    MulAssociative(x, g, a);
    MulAssociative(y, g, b);
    MulSwap(x, g, a);
    MulSwap(y, g, b);
  }

  /** Field-wise equality of fractions in lowest terms is equality of rational numbers. */
  lemma EqualityIsRational(f: Fraction, g: Fraction)
    ensures f == g <==> f.num * g.den == g.num * f.den
  {
    if f.num * g.den == g.num * f.den {
      DenominatorDivides(f, g);
      DenominatorDivides(g, f);
      DivisorSize(f.den, g.den);
      DivisorSize(g.den, f.den);
      CancelFactor(f.den, f.num, g.num);
    }
  }

  lemma DenominatorDivides(f: Fraction, g: Fraction)
    requires f.num * g.den == g.num * f.den
    ensures Divides(f.den, g.den)
  {
    DividesIntro(f.den, g.num, f.den * g.num);
    DividesAbs(f.den, g.den * f.num);
    if f.num < 0 {
      DividesLinear(f.den, g.den * f.num, g.den * f.num, -1, 0);
      assert -1 * (g.den * f.num) == g.den * -f.num;
    }
    CoprimeCancel(f.den, Abs(f.num), g.den);
  }

  // ----------------------------------------------------------------- arithmetic

  function Plus(f: Fraction, g: Fraction): Fraction {
    NonZeroProduct(f.den, g.den);
    Make(f.num * g.den + g.num * f.den, f.den * g.den)
  }

  function Times(f: Fraction, g: Fraction): Fraction {
    NonZeroProduct(f.den, g.den);
    Make(f.num * g.num, f.den * g.den)
  }

  function Negated(f: Fraction): Fraction { Make(-f.num, f.den) }
  function Difference(f: Fraction, g: Fraction): Fraction { Plus(f, Negated(g)) }
  function Inverse(f: Fraction): Fraction requires f.num != 0 { Make(f.den, f.num) }
  function Over(f: Fraction, g: Fraction): Fraction requires g.num != 0 { Times(f, Inverse(g)) }

  /** Over a common denominator, numerators are added. */
  lemma PlusRepresents(f: Fraction, g: Fraction, m: int, n: int, d: int)
    requires Represents(f, m, d) && Represents(g, n, d)
    ensures Represents(Plus(f, g), m + n, d)
  {
    var e, s := f.den * g.den, Plus(f, g);
    NonZeroProduct(f.den, g.den);
    NormalCorrect(f.num * g.den + g.num * f.den, e);
    CrossSum(f.num, f.den, g.num, g.den, m, n, d);
    Rescale(s.num, s.den, e, f.num * g.den + g.num * f.den, m + n, d);
  }

  lemma CrossSum(a: int, b: int, c: int, e: int, m: int, n: int, d: int)
    requires a * d == b * m && c * d == e * n
    ensures (a * e + c * b) * d == (b * e) * (m + n)
  {
    MulSwap(a, e, d);
    MulSwap(c, b, d);
    MulSwap(b, m, e);
    MulSwap(e, n, b);
    MulDistributes(b * e, m, n);
  }

  // num/den == x/e and x/e == n/d give num/den == n/d.
  lemma Rescale(num: int, den: int, e: int, x: int, n: int, d: int)
    requires e != 0 && num * e == den * x && x * d == e * n
    ensures num * d == den * n
  {
    MulSwap(num, e, d);
    MulAssociative(den, x, d);
    CrossProducts(den, e, n);
    MulAssociative(den, e, n);
    MulSwap(den, e, n);
    CancelFactor(e, num * d, den * n);
  }

  lemma TimesRepresents(f: Fraction, g: Fraction, m: int, d: int, n: int, e: int)
    requires Represents(f, m, d) && Represents(g, n, e)
    ensures Represents(Times(f, g), m * n, d * e)
  {
    var b, t := f.den * g.den, Times(f, g);
    NonZeroProduct(f.den, g.den);
    NonZeroProduct(d, e);
    NormalCorrect(f.num * g.num, b);
    Shamir.PairFactors(f.num, d, g.num, e);
    Shamir.PairFactors(f.den, m, g.den, n);
    Shamir.PairFactors(f.num, g.num, d, e);
    Shamir.PairFactors(f.den, g.den, m, n);
    Rescale(t.num, t.den, b, f.num * g.num, m * n, d * e);
  }

  lemma InverseRepresents(f: Fraction, n: int, d: int)
    requires f.num != 0 && Represents(f, n, d)
    ensures n != 0 && Represents(Inverse(f), d, n)
  {
    NormalCorrect(f.den, f.num);
    NonZeroProduct(f.num, d);
    Rescale(Inverse(f).num, Inverse(f).den, f.num, f.den, d, n);
  }

  lemma NegatedRepresents(f: Fraction, n: int, d: int)
    requires Represents(f, n, d)
    ensures Represents(Negated(f), -n, d)
  {
    NormalCorrect(-f.num, f.den);
    assert -f.num * d == f.den * -n;
    Rescale(Negated(f).num, Negated(f).den, f.den, -f.num, -n, d);
  }

  // ------------------------------------------------------------ integral Shamir

  function Whole(n: int): Fraction { Make(n, 1) }

  lemma WholeRepresents(n: int)
    ensures Represents(Whole(n), n, 1) && Whole(n) == Ratio(n, 1)
  {
    NormalCorrect(n, 1);
    WholeDenominator(Whole(n), n);
  }

  /** A fraction that is an integer has denominator 1. */
  lemma WholeDenominator(f: Fraction, n: int)
    requires f.num == f.den * n
    ensures f == Ratio(n, 1)
  {
    DividesIntro(f.den, n, f.num);
    DividesIntro(f.den, 1, f.den);
    DividesAbs(f.den, f.num);
    GcdGreatest(Abs(f.num), f.den, f.den);
    DivisorSize(f.den, 1);
  }

  datatype Shard = Shard(id: int, value: Fraction)

  /** Shards of an integer polynomial carry its exact values. */
  function ShardAt(coeffs: seq<int>): int -> Shard {
    id => Shard(id, Whole(Poly.Value(coeffs, id)))
  }

  function TimesOp(): (Fraction, Fraction) -> Fraction { (f, g) => Times(f, g) }
  function PlusOp(): (Fraction, Fraction) -> Fraction { (f, g) => Plus(f, g) }

  /** The factors xj / (xj - xi) of a coefficient, for IDs other than xi. */
  function LagrangeTerms(xi: int, xs: seq<int>): (r: seq<Fraction>)
    requires xi !in xs
    ensures |r| == |xs|
  {
    seq(|xs|, j requires 0 <= j < |xs| =>
          DifferenceWhole(xs[j], xi);
          Over(Whole(xs[j]), Difference(Whole(xs[j]), Whole(xi))))
  }

  lemma DifferenceWhole(a: int, b: int)
    ensures Difference(Whole(a), Whole(b)) == Ratio(a - b, 1)
  {
    WholeRepresents(a);
    WholeRepresents(b);
    NegatedRepresents(Whole(b), b, 1);
    PlusRepresents(Whole(a), Negated(Whole(b)), a, -b, 1);
    WholeDenominator(Difference(Whole(a), Whole(b)), a - b);
  }

  function LagrangeCoeff(i: nat, ids: seq<int>): Fraction
    requires i < |ids| && Distinct(ids)
  {
    Accumulate(TimesOp(), Whole(1), LagrangeTerms(ids[i], Without(ids, i)))
  }

  lemma TermRepresents(a: int, b: int)
    requires a != b
    ensures Difference(Whole(a), Whole(b)).num != 0
    ensures Represents(Over(Whole(a), Difference(Whole(a), Whole(b))), a, a - b)
  {
    DifferenceWhole(a, b);
    WholeRepresents(a);
    InverseRepresents(Difference(Whole(a), Whole(b)), a - b, 1);
    TimesRepresents(Whole(a), Inverse(Difference(Whole(a), Whole(b))), a, 1, 1, a - b);
  }

  lemma {:induction false} TermsRepresent(xi: int, xs: seq<int>)
    requires xi !in xs
    ensures Represents(Accumulate(TimesOp(), Whole(1), LagrangeTerms(xi, xs)),
                       ProductBy(Identity, xs), ProductBy(Minus(xi), xs))
  {
    if |xs| == 0 {
      WholeRepresents(1);
    } else {
      var t, y := xs[..|xs| - 1], xs[|xs| - 1];
      TermsRepresent(xi, t);
      TermRepresents(y, xi);
      assert LagrangeTerms(xi, xs)[..|xs| - 1] == LagrangeTerms(xi, t);
      if |xs| == 1 {
        assert t == [];
      } else {
        TimesRepresents(Accumulate(TimesOp(), Whole(1), LagrangeTerms(xi, t)), LagrangeTerms(xi, xs)[|xs| - 1],
                        ProductBy(Identity, t), ProductBy(Minus(xi), t), y, y - xi);
      }
    }
  }

  // ------------------------------------------------- weights over one denominator

  /** The denominators of all coefficients. */
  function Denominators(xs: seq<int>): (r: seq<int>)
    ensures |r| == |xs| && forall i :: 0 <= i < |xs| ==> r[i] == Denominator(xs, i)
  {
    seq(|xs|, i requires 0 <= i < |xs| => Denominator(xs, i))
  }

  function CommonDenominator(xs: seq<int>): int { ProductBy(Identity, Denominators(xs)) }

  function CommonWeights(xs: seq<int>): (r: seq<int>)
    ensures |r| == |xs|
  {
    seq(|xs|, i requires 0 <= i < |xs| => Numerator(xs, i) * ProductBy(Identity, Without(Denominators(xs), i)))
  }

  lemma CommonWeight(xs: seq<int>, i: nat)
    requires i < |xs|
    ensures CommonWeights(xs)[i] * Denominator(xs, i) == CommonDenominator(xs) * Numerator(xs, i)
  {
    ProductExtract(Identity, Denominators(xs), i);
    Exchange(Numerator(xs, i), ProductBy(Identity, Without(Denominators(xs), i)), Denominator(xs, i),
             CommonWeights(xs)[i], CommonDenominator(xs));
  }

  lemma Exchange(n: int, p: int, v: int, w: int, d: int)
    requires w == n * p && d == p * v
    ensures w * v == d * n
  {
    MulAssociative(n, p, v);
  }

  lemma {:induction false} ProductNonZero(f: int -> int, s: seq<int>)
    requires forall x :: x in s ==> f(x) != 0
    ensures ProductBy(f, s) != 0
  {
    if |s| == 0 {
    } else {
      var t, x := s[..|s| - 1], s[|s| - 1];
      assert x in s && f(x) != 0;
      assert forall y :: y in t ==> y in s;
      ProductNonZero(f, t);
      NonZeroProduct(ProductBy(f, t), f(x));
    }
  }

  lemma OthersDiffer(xs: seq<int>, i: nat)
    requires Distinct(xs) && i < |xs|
    ensures xs[i] !in Without(xs, i) && Denominator(xs, i) != 0
  {
    ProductNonZero(Minus(xs[i]), Without(xs, i));
  }

  lemma CommonDenominatorNonZero(xs: seq<int>)
    requires Distinct(xs)
    ensures CommonDenominator(xs) != 0
  {
    forall i | 0 <= i < |xs| ensures Denominators(xs)[i] != 0 {
      OthersDiffer(xs, i);
    }
    ProductNonZero(Identity, Denominators(xs));
  }

  lemma CoeffRepresents(xs: seq<int>, i: nat)
    requires Distinct(xs) && i < |xs|
    ensures Represents(LagrangeCoeff(i, xs), CommonWeights(xs)[i], CommonDenominator(xs))
  {
    OthersDiffer(xs, i);
    TermsRepresent(xs[i], Without(xs, i));
    CommonWeight(xs, i);
    CommonDenominatorNonZero(xs);
    OverCommon(LagrangeCoeff(i, xs), Numerator(xs, i), Denominator(xs, i), CommonWeights(xs)[i], CommonDenominator(xs));
  }

  // f == n/v and n/v == w/d give f == w/d.
  lemma OverCommon(f: Fraction, n: int, v: int, w: int, d: int)
    requires Represents(f, n, v) && w * v == d * n && d != 0
    ensures Represents(f, w, d)
  {
    Rescale(f.num, f.den, v, n, w, d);
  }

  // ----------------------------------------------------------------- restoring

  function Terms(shards: seq<Shard>): (r: seq<Fraction>)
    requires Distinct(Ids(shards))
    ensures |r| == |shards|
    ensures forall i :: 0 <= i < |shards| ==> r[i] == Times(shards[i].value, LagrangeCoeff(i, Ids(shards)))
  {
    seq(|shards|, i requires 0 <= i < |shards| => Times(shards[i].value, LagrangeCoeff(i, Ids(shards))))
  }

  function Ids(shards: seq<Shard>): (r: seq<int>)
    ensures |r| == |shards| && forall i :: 0 <= i < |shards| ==> r[i] == shards[i].id
  {
    seq(|shards|, i requires 0 <= i < |shards| => shards[i].id)
  }

  /** Equal IDs make a coefficient divide by zero; a sum with a denominator above 1 is refused. */
  datatype Restored = Secret(value: int) | NotEnoughShards | ZeroDenominator | NotIntegral

  function RestoreSecret(shards: seq<Shard>, threshold: int): Restored {
    if threshold < 0 || |shards| <= threshold then NotEnoughShards
    else if !Distinct(Ids(shards)) then ZeroDenominator
    else
      var res := Accumulate(PlusOp(), Whole(0), Terms(shards));
      if res.den != 1 then NotIntegral else Secret(res.num)
  }

  lemma {:induction false} SumRepresents(coeffs: seq<int>, xs: seq<int>, ms: seq<int>, d: int, s: seq<Fraction>)
    requires |xs| == |ms| == |s| && d != 0
    requires forall i :: 0 <= i < |s| ==> Represents(s[i], Poly.Value(coeffs, xs[i]) * ms[i], d)
    ensures Represents(Accumulate(PlusOp(), Whole(0), s), WeightedSum(coeffs, xs, ms), d)
  {
    var n := |s| - 1;
    if n < 0 {
      WholeRepresents(0);
    } else {
      SumRepresents(coeffs, xs[..n], ms[..n], d, s[..n]);
      if n > 0 {
        PlusRepresents(Accumulate(PlusOp(), Whole(0), s[..n]), s[n],
                       WeightedSum(coeffs, xs[..n], ms[..n]), Poly.Value(coeffs, xs[n]) * ms[n], d);
      }
    }
  }

  /**
   * Integral secrets: with more shards than the degree and distinct IDs, the sum always comes out whole and
   * equal to the secret, so the refusal of a fractional result cannot happen.
   */
  lemma IntegralSecretRestored(coeffs: seq<int>, ids: seq<int>, threshold: nat)
    requires 0 < |coeffs| <= threshold + 1
    ensures RestoreSecret(Map(ShardAt(coeffs), ids), threshold)
         == if |ids| <= threshold then NotEnoughShards
            else if Distinct(ids) then Secret(coeffs[0]) else ZeroDenominator
  {
    var shards := Map(ShardAt(coeffs), ids);
    assert Ids(shards) == ids;
    if |ids| > threshold && Distinct(ids) {
      var ms, d, s := CommonWeights(ids), CommonDenominator(ids), Terms(shards);
      forall i | 0 <= i < |ids| ensures Represents(s[i], Poly.Value(coeffs, ids[i]) * ms[i], d) {
        CoeffRepresents(ids, i);
        WholeRepresents(Poly.Value(coeffs, ids[i]));
        TimesRepresents(shards[i].value, LagrangeCoeff(i, ids), Poly.Value(coeffs, ids[i]), 1, ms[i], d);
      }
      CommonDenominatorNonZero(ids);
      SumRepresents(coeffs, ids, ms, d, s);
      IntegralWeights(coeffs, ids);
      var f := Accumulate(PlusOp(), Whole(0), s);
      WholeSum(f, d, coeffs[0]);
    }
  }

  lemma WholeSum(f: Fraction, d: int, secret: int)
    requires d != 0 && f.num * d == f.den * (d * secret)
    ensures f == Ratio(secret, 1)
  {
    MulAssociative(f.den, d, secret);
    MulSwap(f.den, d, secret);
    CancelFactor(d, f.num, f.den * secret);
    WholeDenominator(f, secret);
  }

  lemma IntegralWeights(coeffs: seq<int>, ids: seq<int>)
    requires Distinct(ids) && 0 < |coeffs| <= |ids|
    ensures WeightedSum(coeffs, ids, CommonWeights(ids)) == CommonDenominator(ids) * coeffs[0]
  {
    var ms, d := CommonWeights(ids), CommonDenominator(ids);
    forall i | 0 <= i < |ids| ensures IsWeight(0, ids, i, ms[i], d) {
      CommonWeight(ids, i);
      CongruentReflexive(d * Numerator(ids, i), 0);
    }
    forall i, j | 0 <= i < j < |ids| ensures !Congruent(ids[i], ids[j], 0) {
    }
    Interpolates(0, coeffs, ids, ms, d);
  }
}
