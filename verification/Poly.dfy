/** Powers by square-and-multiply, polynomial evaluation and coefficient sampling. */
module Poly {
  import opened Numbers
  import opened ModInt

  /** The value at x of the polynomial with these coefficients, lowest degree first. */
  function Value(coeffs: seq<int>, x: int): int {
    if |coeffs| == 0 then 0
    else Value(coeffs[..|coeffs| - 1], x) + coeffs[|coeffs| - 1] * Pow(x, |coeffs| - 1)
  }

  function ConstantTerm(coeffs: seq<int>): int {
    if |coeffs| == 0 then 0 else coeffs[0]
  }

  /** The constant coefficient is the value at 0. */
  lemma {:induction false} ValueAtZero(coeffs: seq<int>)
    ensures Value(coeffs, 0) == ConstantTerm(coeffs)
  {
    if |coeffs| > 1 {
      ValueAtZero(coeffs[..|coeffs| - 1]);
      assert Pow(0, |coeffs| - 1) == 0 * Pow(0, |coeffs| - 2);
    } else if |coeffs| == 1 {
      assert Value(coeffs[..0], 0) == 0;
    }
  }

  /** `pow` on big integers: the exact power, and 1 for exponents that are not positive. */
  method IntPow(val: int, exp: int) returns (res: int)
    ensures res == if exp <= 0 then 1 else Pow(val, exp)
  {
    res := 1;
    var e, base := exp, val;
    while 0 < e
      invariant exp > 0 ==> 0 <= e && res * Pow(base, e) == Pow(val, exp)
      invariant exp <= 0 ==> e <= 0 && res == 1
      decreases e
    {
      PowSquare(base, e / 2);
      assert e % 2 == 1 ==> (res * base) * Pow(base * base, e / 2) == res * Pow(base, e) by {
        MulAssociative(res, base, Pow(base * base, e / 2));
      }
      if e % 2 == 1 {
        res := res * base;
      }
      base := base * base;
      e := e / 2;
    }
  }

  /** Evaluation over the integers modulo p, adding one reduced term after the other. */
  method Evaluate(p: nat, coeffs: seq<nat>, x: int) returns (res: nat)
    requires p >= 1 && |coeffs| > 0 && coeffs[0] < p
    ensures res == Value(coeffs, x) % p
  {
    res := coeffs[0];
    var i := 1;
    assert coeffs[..1] == [coeffs[0]];
    assert Value([coeffs[0]], x) == Value([], x) + coeffs[0] * Pow(x, 0);
    CongruentReflexive(coeffs[0], p);
    while i < |coeffs|
      invariant 1 <= i <= |coeffs|
      invariant res < p && Congruent(res, Value(coeffs[..i], x), p)
    {
      var power := IntPow(x, i);
      ReducedTerm(p, res, Value(coeffs[..i], x), coeffs[i] * power);
      assert coeffs[..i + 1][..i] == coeffs[..i];
      res := Add(p, res, Mul(p, coeffs[i], power));
      i := i + 1;
    }
    assert coeffs[..i] == coeffs;
    ResidueUnique(res, Value(coeffs, x), p);
  }

  lemma ReducedTerm(p: nat, r: int, v: int, t: int)
    requires p >= 1 && Congruent(r, v, p)
    ensures 0 <= Add(p, r, t % p) < p && Congruent(Add(p, r, t % p), v + t, p)
  {
    CongruentMod(t, p);
    CongruentAdd(r, v, t % p, t, p);
    CongruentMod(r + t % p, p);
    CongruentTransitive(Add(p, r, t % p), r + t % p, v + t, p);
  }

  /** `sample_missing_coeffs`: appends the sampler's values until there are degree + 1 coefficients. */
  method SampleMissingCoeffs(coeffs: seq<nat>, degree: nat, sampler: nat -> nat) returns (res: seq<nat>)
    ensures coeffs <= res
    ensures |res| == if |coeffs| <= degree then degree + 1 else |coeffs|
    ensures forall i :: |coeffs| <= i < |res| ==> res[i] == sampler(i - |coeffs|)
  {
    res := coeffs;
    while |res| <= degree
      invariant coeffs <= res
      invariant |res| <= degree + 1 || res == coeffs
      invariant forall i :: |coeffs| <= i < |res| ==> res[i] == sampler(i - |coeffs|)
    {
      res := res + [sampler(|res| - |coeffs|)];
    }
  }
}
