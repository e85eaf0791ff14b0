/** Integers modulo a fixed modulus: powers, inverses and division. */
module ModInt {
  import opened Numbers
  import opened Ranges

  function Pow(b: int, e: nat): int {
    if e == 0 then 1 else b * Pow(b, e - 1)
  }

  lemma {:induction false} PowAdd(b: int, d: nat, e: nat)
    ensures Pow(b, d + e) == Pow(b, d) * Pow(b, e)
  {
    if d == 0 {
    } else {
      PowAdd(b, d - 1, e);
      assert (b * Pow(b, d - 1)) * Pow(b, e) == b * (Pow(b, d - 1) * Pow(b, e));
    }
  }

  lemma {:induction false} PowSquare(b: int, e: nat)
    ensures Pow(b * b, e) == Pow(b, 2 * e)
  {
    if e == 0 {
    } else {
      PowSquare(b, e - 1);
      assert Pow(b, 2 * e) == b * (b * Pow(b, 2 * e - 2));
      assert (b * b) * Pow(b, 2 * e - 2) == b * (b * Pow(b, 2 * e - 2));
    }
  }

  lemma {:induction false} PowCongruent(a: int, b: int, e: nat, m: int)
    requires Congruent(a, b, m)
    ensures Congruent(Pow(a, e), Pow(b, e), m)
  {
    if e == 0 {
      DividesIntro(m, 0, 0);
    } else {
      PowCongruent(a, b, e - 1, m);
      CongruentMul(a, b, Pow(a, e - 1), Pow(b, e - 1), m);
    }
  }

  /** One round of square-and-multiply keeps the value res * base^exp modulo m. */
  lemma SquareAndMultiplyRound(res: int, base: int, exp: nat, m: int)
    requires m >= 1 && exp > 0
    ensures var res' := if exp % 2 != 0 then (res * base) % m else res;
            Congruent(res' * Pow((base * base) % m, exp / 2), res * Pow(base, exp), m)
  {
    var res' := if exp % 2 != 0 then (res * base) % m else res;
    var full := if exp % 2 != 0 then res * base else res;
    var half := Pow(base * base, exp / 2);
    CongruentMod(base * base, m);
    PowCongruent((base * base) % m, base * base, exp / 2, m);
    CongruentMod(res * base, m);
    DividesIntro(m, 0, 0);
    CongruentMul(res', full, Pow((base * base) % m, exp / 2), half, m);
    PowSquare(base, exp / 2);
    if exp % 2 != 0 {
      assert (res * base) * half == res * (base * half);
    }
  }

  /** `mod_pow` computes the mathematical power modulo m; with a zero exponent it returns 1 unreduced. */
  method ModPow(value: int, exponent: int, modulus: nat) returns (res: nat)
    requires modulus >= 1
    ensures res == if exponent <= 0 then 1 else Pow(value, exponent) % modulus
  {
    res := 1;
    var base, exp := value % modulus, exponent;
    CongruentMod(value, modulus);
    if exponent > 0 {
      PowCongruent(base, value, exponent, modulus);
    }
    while 0 < exp
      invariant exponent > 0 ==> 0 <= exp && Congruent(res * Pow(base, exp), Pow(value, exponent), modulus)
      invariant exponent > 0 ==> exp > 0 || res < modulus
      invariant exponent <= 0 ==> exp <= 0 && res == 1
      decreases exp
    {
      SquareAndMultiplyRound(res, base, exp, modulus);
      CongruentTransitive((if exp % 2 != 0 then (res * base) % modulus else res)
                          * Pow((base * base) % modulus, exp / 2),
                          res * Pow(base, exp), Pow(value, exponent), modulus);
      if exp % 2 != 0 {
        res := (res * base) % modulus;
      }
      base := (base * base) % modulus;
      exp := exp / 2;
    }
    if exponent > 0 {
      assert Pow(base, 0) == 1;
      ResidueUnique(res, Pow(value, exponent), modulus);
    }
  }

  // ------------------------------------------------------- Fermat's little theorem

  lemma {:induction false} ProductNotDivisible(p: int, f: int -> int, s: seq<int>)
    requires Prime(p) && forall x :: x in s ==> !Divides(p, f(x))
    ensures !Divides(p, ProductBy(f, s))
  {
    if |s| == 0 {
      DividesRemainder(p, 1);
    } else {
      var t, x := s[..|s| - 1], s[|s| - 1];
      ProductNotDivisible(p, f, t);
      if Divides(p, ProductBy(f, s)) {
        DomainCancel(p, ProductBy(f, t), f(x));
      }
    }
  }

  function Multiples(a: int, p: int, n: nat): (s: seq<int>)
    requires p >= 2
    ensures |s| == n && forall i :: 0 <= i < n ==> s[i] == (a * (i + 1)) % p
  {
    seq(n, i => (a * (i + 1)) % p)
  }

  lemma MultiplesPermute(p: int, a: int)
    requires Prime(p) && !Divides(p, a)
    ensures multiset(Multiples(a, p, p - 1)) == multiset(UpTo(p - 1))
  {
    var s := Multiples(a, p, p - 1);
    forall i | 0 <= i < p - 1 ensures 1 <= s[i] <= p - 1 {
      MultipleNonZero(p, a, i + 1);
    }
    forall i, j | 0 <= i < j < p - 1 ensures s[i] != s[j] {
      MultiplesDiffer(p, a, i + 1, j + 1);
    }
    Pigeonhole(p - 1, s);
  }

  lemma MultiplesDiffer(p: int, a: int, i: int, j: int)
    requires Prime(p) && !Divides(p, a) && 1 <= i < j < p
    ensures (a * i) % p != (a * j) % p
  {
    ModsAgree(a * j, a * i, p);
    MultiplesNotCongruent(p, a, i, j);
  }

  lemma MultiplesNotCongruent(p: int, a: int, i: int, j: int)
    requires Prime(p) && !Divides(p, a) && 1 <= i < j < p
    ensures !Congruent(a * j, a * i, p)
  {
    if Congruent(a * j, a * i, p) {
      MulDistributes(a, j, i);
      DomainCancel(p, a, j - i);
      DivisorSize(p, j - i);
    }
  }

  lemma MultipleNonZero(p: int, a: int, i: int)
    requires Prime(p) && !Divides(p, a) && 1 <= i < p
    ensures 1 <= (a * i) % p <= p - 1
  {
    DividesRemainder(p, a * i);
    DividesRemainder(p, i);
    if Divides(p, a * i) {
      DomainCancel(p, a, i);
    }
  }

  lemma {:induction false} MultiplesProduct(p: int, a: int, n: nat)
    requires p >= 2
    ensures Congruent(ProductBy(Identity, Multiples(a, p, n)), Pow(a, n) * ProductBy(Identity, UpTo(n)), p)
  {
    if n == 0 {
      DividesIntro(p, 0, 0);
    } else {
      MultiplesProduct(p, a, n - 1);
      assert Multiples(a, p, n)[..n - 1] == Multiples(a, p, n - 1);
      assert UpTo(n)[..n - 1] == UpTo(n - 1);
      CongruentMod(a * n, p);
      var s, t, q := ProductBy(Identity, Multiples(a, p, n - 1)), ProductBy(Identity, UpTo(n - 1)), Pow(a, n - 1);
      CongruentMul(s, q * t, (a * n) % p, a * n, p);
      FourFactors(q, t, a, n);
    }
  }

  lemma FourFactors(q: int, t: int, a: int, n: int)
    ensures (q * t) * (a * n) == (a * q) * (t * n)
  {
    MulAssociative(q, t, a * n);
    MulAssociative(a, q, t * n);
    MulSwap(t, a, n);
    MulAssociative(t, a, n);
    MulAssociative(q, a, t * n);
  }

  lemma Fermat(p: int, a: int)
    requires Prime(p) && !Divides(p, a)
    ensures Congruent(Pow(a, p - 1), 1, p)
  {
    var all := UpTo(p - 1);
    var f := ProductBy(Identity, all);
    MultiplesPermute(p, a);
    ProductPermuted(Identity, Multiples(a, p, p - 1), all);
    MultiplesProduct(p, a, p - 1);
    forall x | x in all ensures !Divides(p, x) {
      if Divides(p, x) {
        DivisorSize(p, x);
      }
    }
    ProductNotDivisible(p, Identity, all);
    CancelOne(p, f, Pow(a, p - 1));
  }

  lemma CancelOne(p: int, f: int, q: int)
    requires Prime(p) && !Divides(p, f) && Congruent(f, q * f, p)
    ensures Congruent(q, 1, p)
  {
    MulDistributes(f, 1, q);
    DomainCancel(p, f, 1 - q);
    CongruentSymmetric(1, q, p);
  }

  // -------------------------------------------------------------- the field operators

  /** Sums, differences and products of stored values, which stay in [0, p). */
  function Add(p: nat, a: int, b: int): int requires p >= 1 { (a + b) % p }
  function Sub(p: nat, a: int, b: int): int requires p >= 1 { (p + a - b) % p }
  function Mul(p: nat, a: int, b: int): int requires p >= 1 { (a * b) % p }

  /** The result of `prime_modular_inverse`. */
  function PrimeInverse(p: nat, v: nat): int
    requires p >= 2
  {
    if p == 2 then 1 else Pow(v, p - 2) % p
  }

  function Div(p: nat, a: int, b: nat): int
    requires p >= 2
  {
    Mul(p, a, PrimeInverse(p, b))
  }

  method PrimeModularInverse(value: nat, modulus: nat) returns (res: nat)
    requires modulus >= 2
    ensures res == PrimeInverse(modulus, value)
    ensures Prime(modulus) && !Divides(modulus, value) ==> res < modulus && Congruent(value * res, 1, modulus)
  {
    res := ModPow(value, modulus - 2, modulus);
    if Prime(modulus) && !Divides(modulus, value) {
      InverseCorrect(modulus, value);
    }
  }

  lemma InverseCorrect(p: nat, v: nat)
    requires Prime(p) && !Divides(p, v)
    ensures 0 <= PrimeInverse(p, v) < p && Congruent(v * PrimeInverse(p, v), 1, p)
  {
    Fermat(p, v);
    if p > 2 {
      CongruentMod(Pow(v, p - 2), p);
      DividesIntro(p, 0, 0);
      CongruentMul(v, v, Pow(v, p - 2) % p, Pow(v, p - 2), p);
      CongruentTransitive(v * (Pow(v, p - 2) % p), Pow(v, p - 1), 1, p);
    } else {
      assert Pow(v, 1) == v * Pow(v, 0);
    }
  }

  /** Multiplying by b and by an inverse of b undo each other. */
  lemma InverseUndoes(p: nat, a: nat, b: nat, i: nat)
    requires p >= 1 && a < p && Congruent(b * i, 1, p)
    ensures Mul(p, Mul(p, a, i), b) == a
  {
    CongruentMod(a * i, p);
    CongruentReflexive(b, p);
    CongruentMul((a * i) % p, a * i, b, b, p);
    CongruentScale(a, b * i, 1, p);
    assert (a * i) * b == a * (b * i) by {
      MulAssociative(a, i, b);
    }
    CongruentTransitive(((a * i) % p) * b, (a * i) * b, a, p);
    CongruentSymmetric(((a * i) % p) * b, a, p);
    ResidueUnique(a, ((a * i) % p) * b, p);
  }

  /** Modular division is real division: it is the one value that multiplied by b gives a back. */
  lemma DivisionUndone(p: nat, a: nat, b: nat, r: nat)
    requires Prime(p) && a < p && r < p && !Divides(p, b)
    ensures Div(p, a, b) == r <==> Mul(p, r, b) == a
  {
    InverseCorrect(p, b);
    InverseUndoes(p, a, b, PrimeInverse(p, b));
    InverseUndoes(p, r, PrimeInverse(p, b), b);
  }

  // -------------------------------------------------------------- extended Euclid

  /** The remainder of the source language: it takes the sign of the dividend. */
  function TruncatedRemainder(a: int, b: int): int
    requires b > 0
  {
    if a >= 0 then a % b else -((-a) % b)
  }

  datatype Inverse = Found(value: int) | NoInverse

  /** `modular_inverse`: an inverse is found exactly for values coprime to the modulus. */
  method ModularInverse(value: nat, modulus: nat) returns (r: Inverse)
    requires modulus >= 1
    ensures r.NoInverse? <==> Gcd(value, modulus) != 1
    ensures r.Found? ==> 0 <= r.value < modulus && Congruent(value * r.value, 1, modulus)
  {
    var a: nat, b: nat := value, modulus;
    var x0, x1 := 1, 0;
    DividesIntro(modulus, 0, 0);
    DividesIntro(modulus, -1, 0 - modulus);
    while b != 0
      invariant Gcd(a, b) == Gcd(value, modulus)
      invariant Congruent(value * x0, a, modulus) && Congruent(value * x1, b, modulus)
      decreases b
    {
      var q := a / b;
      EuclidRound(value, a, b, x0, x1, modulus);
      a, b := b, a % b;
      x0, x1 := x1, x0 - q * x1;
    }
    if a != 1 {
      return NoInverse;
    }
    var inv := TruncatedRemainder(TruncatedRemainder(x0, modulus) + modulus, modulus);
    TruncatedNormalised(x0, modulus);
    CongruentScale(value, inv, x0, modulus);
    CongruentTransitive(value * inv, value * x0, 1, modulus);
    return Found(inv);
  }

  lemma EuclidRound(value: int, a: nat, b: nat, x0: int, x1: int, m: int)
    requires b != 0 && Congruent(value * x0, a, m) && Congruent(value * x1, b, m)
    ensures Congruent(value * (x0 - (a / b) * x1), a % b, m)
  {
    EuclidStep(value, a, b, x0, x1, a / b, m);
  }

  lemma EuclidStep(value: int, a: int, b: int, x0: int, x1: int, q: int, m: int)
    requires Congruent(value * x0, a, m) && Congruent(value * x1, b, m)
    ensures Congruent(value * (x0 - q * x1), a - b * q, m)
  {
    CongruentScale(-q, value * x1, b, m);
    CongruentAdd(value * x0, a, -q * (value * x1), -q * b, m);
    MulDistributes(value, x0, q * x1);
    MulAssociative(value, q, x1);
    MulSwap(value, q, x1);
  }

  lemma TruncatedNormalised(x: int, m: nat)
    requires m >= 1
    ensures var r := TruncatedRemainder(TruncatedRemainder(x, m) + m, m); 0 <= r < m && Congruent(r, x, m)
  {
    var t := TruncatedRemainder(x, m);
    CongruentMod(x, m);
    CongruentMod(-x, m);
    DividesLinear(m, (-x) % m + x, (-x) % m + x, -1, 0);
    assert Congruent(t, x, m);
    CongruentMod(t + m, m);
    DividesIntro(m, 1, m);
    DividesLinear(m, t - x, m, 1, 1);
    CongruentTransitive((t + m) % m, t + m, x, m);
  }
}
