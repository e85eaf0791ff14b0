/** Shamir secret sharing over the integers modulo a prime. */
module Shamir {
  import opened Numbers
  import opened Ranges
  import opened ModInt
  import opened Interpolation
  import Poly

  datatype Shard = Shard(id: int, value: nat)

  datatype Error = ZeroId | DuplicateId | MissingId | NotEnoughShards | NotIntegral

  datatype Result<+T> = Ok(value: T) | Err(error: Error)

  // ------------------------------------------------------------------- sharing

  /** The shard a member with this ID should get: the ID and the polynomial's value there. */
  function ShardAt(p: nat, coeffs: seq<nat>): int -> Shard
    requires p >= 1
  {
    id => Shard(id, Poly.Value(coeffs, id) % p)
  }

  method MakeShard(p: nat, coeffs: seq<nat>, id: int) returns (r: Result<Shard>)
    requires p >= 1 && |coeffs| > 0 && coeffs[0] < p
    ensures r == if id == 0 then Err(ZeroId) else Ok(ShardAt(p, coeffs)(id))
  {
    if id == 0 {
      return Err(ZeroId);
    }
    var y := Poly.Evaluate(p, coeffs, id);
    return Ok(Shard(id, y));
  }

  predicate ValidIds(ids: seq<int>) {
    Distinct(ids) && 0 !in ids
  }

  /** Index k is the first at which the IDs stop being distinct and non-zero, for the reason e. */
  predicate FailsAt(ids: seq<int>, k: nat, e: Error) {
    && k < |ids| && ValidIds(ids[..k])
    && if ids[k] in ids[..k] then e == DuplicateId else ids[k] == 0 && e == ZeroId
  }

  lemma FailureInvalid(ids: seq<int>, k: nat, e: Error)
    requires FailsAt(ids, k, e)
    ensures !ValidIds(ids)
  {
    if ids[k] in ids[..k] {
      var j :| 0 <= j < k && ids[j] == ids[k];
    } else {
      assert ids[k] in ids;
    }
  }

  method MakeShards(p: nat, coeffs: seq<nat>, ids: seq<int>) returns (r: Result<seq<Shard>>)
    requires p >= 1 && |coeffs| > 0 && coeffs[0] < p
    ensures r.Ok? <==> ValidIds(ids)
    ensures r.Ok? ==> r.value == Map(ShardAt(p, coeffs), ids)
    ensures r.Err? ==> exists k: nat :: FailsAt(ids, k, r.error)
  {
    var used: set<int> := {};
    var res: seq<Shard> := [];
    for i := 0 to |ids|
      invariant used == Elements(ids[..i]) && ValidIds(ids[..i])
      invariant res == Map(ShardAt(p, coeffs), ids[..i])
    {
      if ids[i] in used {
        assert FailsAt(ids, i, DuplicateId);
        FailureInvalid(ids, i, DuplicateId);
        return Err(DuplicateId);
      }
      var shard := MakeShard(p, coeffs, ids[i]);
      if shard.Err? {
        assert FailsAt(ids, i, ZeroId);
        FailureInvalid(ids, i, ZeroId);
        return Err(shard.error);
      }
      assert ids[..i + 1] == ids[..i] + [ids[i]];
      ElementsPush(ids[..i], ids[i]);
      res := res + [shard.value];
      used := used + {ids[i]};
    }
    assert ids[..|ids|] == ids;
    return Ok(res);
  }

  /** `sample_poly`: threshold + 1 coefficients, the secret first and then sampled values. */
  method SamplePoly(secret: nat, threshold: nat, sampler: nat -> nat) returns (coeffs: seq<nat>)
    ensures |coeffs| == threshold + 1 && Poly.ConstantTerm(coeffs) == secret
    ensures forall i :: 0 < i <= threshold ==> coeffs[i] == sampler(i - 1)
  {
    coeffs := Poly.SampleMissingCoeffs([secret], threshold, sampler);
  }

  // ------------------------------------------------------- Lagrange coefficients

  function MulOp(p: nat): (int, int) -> int requires p >= 1 { (a, b) => Mul(p, a, b) }
  function AddOp(p: nat): (int, int) -> int requires p >= 1 { (a, b) => Add(p, a, b) }

  /** One factor xj / (xj - xi) of a coefficient. */
  function LagrangeTerm(p: nat, xi: int): int -> int
    requires p >= 2
  {
    xj => Div(p, xj % p, Sub(p, xj % p, xi % p))
  }

  function LagrangeCoeff(p: nat, i: nat, ids: seq<int>): int
    requires p >= 2 && i < |ids|
  {
    Accumulate(MulOp(p), 1, Map(LagrangeTerm(p, ids[i]), Without(ids, i)))
  }

  lemma MappedLast(f: int -> int, s: seq<int>)
    requires |s| > 0
    ensures Map(f, s)[..|s| - 1] == Map(f, s[..|s| - 1])
  {
  }

  lemma SmallRemainder(v: int, p: nat)
    requires 0 <= v < p
    ensures v % p == v
  {
  }

  /** Accumulated modular products are products reduced once at the end. */
  lemma {:induction false} AccumulatedProduct(p: nat, f: int -> int, s: seq<int>)
    requires p >= 2 && forall x :: x in s ==> 0 <= f(x) < p
    ensures Accumulate(MulOp(p), 1, Map(f, s)) == ProductBy(f, s) % p
  {
    if |s| == 1 {
      var x := s[0];
      assert s[..0] == [] && x in s;
      assert ProductBy(f, s) == 1 * f(x);
      SmallRemainder(f(x), p);
    } else if |s| > 1 {
      var t, x := s[..|s| - 1], s[|s| - 1];
      assert forall y :: y in t ==> y in s;
      AccumulatedProduct(p, f, t);
      MappedLast(f, s);
      ReduceFactor(p, ProductBy(f, t), f(x));
    } else {
      assert Map(f, s) == [] && 1 % p == 1;
    }
  }

  lemma ReduceFactor(p: nat, a: int, b: int)
    requires p >= 1
    ensures Mul(p, a % p, b) == (a * b) % p
  {
    CongruentMod(a, p);
    CongruentReflexive(b, p);
    CongruentMul(a % p, a, b, b, p);
    ModsAgree((a % p) * b, a * b, p);
  }

  /** The coefficient of an ID depends on the IDs taking part, not on their order. */
  lemma CoeffOrderIndependent(p: nat, i: nat, xs: seq<int>, j: nat, ys: seq<int>)
    requires p >= 2 && i < |xs| && j < |ys| && xs[i] == ys[j] && multiset(xs) == multiset(ys)
    ensures LagrangeCoeff(p, i, xs) == LagrangeCoeff(p, j, ys)
  {
    var f := LagrangeTerm(p, xs[i]);
    WithoutMultiset(xs, i);
    WithoutMultiset(ys, j);
    ProductPermuted(f, Without(xs, i), Without(ys, j));
    AccumulatedProduct(p, f, Without(xs, i));
    AccumulatedProduct(p, f, Without(ys, j));
  }

  lemma TermQuotient(p: nat, xi: int, xj: int)
    requires Prime(p) && !Congruent(xj, xi, p)
    ensures Congruent(LagrangeTerm(p, xi)(xj) * (xj - xi), xj, p)
  {
    var n, e := xj % p, Sub(p, xj % p, xi % p);
    SubCongruent(p, xj, xi);
    CongruentZero(p, e, xj - xi);
    DivisionUndone(p, n, e, Div(p, n, e));
    var t := Div(p, n, e);
    CongruentReflexive(t, p);
    CongruentScale(t, e, xj - xi, p);
    CongruentMod(t * e, p);
    CongruentMod(xj, p);
    CongruentSymmetric(t * e, t * (xj - xi), p);
    CongruentSymmetric((t * e) % p, t * e, p);
    CongruentTransitive(t * (xj - xi), t * e, n, p);
    CongruentTransitive(t * (xj - xi), n, xj, p);
  }

  lemma SubCongruent(p: nat, a: int, b: int)
    requires p >= 1
    ensures Congruent(Sub(p, a % p, b % p), a - b, p)
  {
    CongruentMod(a, p);
    CongruentMod(b, p);
    DividesLinear(p, a % p - a, b % p - b, 1, -1);
    DividesIntro(p, 1, p);
    DividesLinear(p, a % p - b % p - (a - b), p, 1, 1);
    CongruentMod(p + a % p - b % p, p);
    CongruentTransitive(Sub(p, a % p, b % p), p + a % p - b % p, a - b, p);
  }

  /** The product of the factors xj / (xj - xi) is a quotient of the two products. */
  lemma {:induction false} TermsQuotient(p: nat, xi: int, ys: seq<int>)
    requires Prime(p) && forall y :: y in ys ==> !Congruent(y, xi, p)
    ensures Congruent(ProductBy(LagrangeTerm(p, xi), ys) * ProductBy(Minus(xi), ys), ProductBy(Identity, ys), p)
  {
    if |ys| == 0 {
      CongruentReflexive(1, p);
    } else {
      var t, y := ys[..|ys| - 1], ys[|ys| - 1];
      TermsQuotient(p, xi, t);
      TermQuotient(p, xi, y);
      var a, b, c := ProductBy(LagrangeTerm(p, xi), t), ProductBy(Minus(xi), t), LagrangeTerm(p, xi)(y);
      CongruentMul(a * b, ProductBy(Identity, t), c * (y - xi), y, p);
      PairFactors(a, b, c, y - xi);
    }
  }

  lemma PairFactors(a: int, b: int, c: int, e: int)
    ensures (a * b) * (c * e) == (a * c) * (b * e)
  {
    MulAssociative(a, b, c * e);
    MulAssociative(b, c, e);
    MulSwap(b, c, e);
    MulAssociative(c, b, e);
    MulAssociative(a, c, b * e);
  }

  /** For IDs that are distinct modulo the prime, the coefficients are the interpolation weights at 0. */
  lemma CoeffIsWeight(p: nat, ids: seq<int>, i: nat)
    requires Prime(p) && DistinctMod(p, ids) && i < |ids|
    ensures IsWeight(p, ids, i, LagrangeCoeff(p, i, ids), 1) && 0 <= LagrangeCoeff(p, i, ids) < p
  {
    var others, f := Without(ids, i), LagrangeTerm(p, ids[i]);
    forall y | y in others ensures !Congruent(y, ids[i], p) {
      var k :| 0 <= k < |others| && others[k] == y;
      var j := if k < i then k else k + 1;
      if Congruent(ids[j], ids[i], p) {
        CongruentSymmetric(ids[j], ids[i], p);
      }
    }
    TermsQuotient(p, ids[i], others);
    AccumulatedProduct(p, f, others);
    var a, v := ProductBy(f, others), ProductBy(Minus(ids[i]), others);
    CongruentMod(a, p);
    CongruentReflexive(v, p);
    CongruentMul(a % p, a, v, v, p);
    CongruentTransitive((a % p) * v, a * v, ProductBy(Identity, others), p);
  }

  // ----------------------------------------------------------------- restoring

  function Coeffs(p: nat, ids: seq<int>): (r: seq<int>)
    requires p >= 2
    ensures |r| == |ids| && forall i :: 0 <= i < |ids| ==> r[i] == LagrangeCoeff(p, i, ids)
  {
    seq(|ids|, i requires 0 <= i < |ids| => LagrangeCoeff(p, i, ids))
  }

  function Ids(shards: seq<Shard>): (r: seq<int>)
    ensures |r| == |shards| && forall i :: 0 <= i < |shards| ==> r[i] == shards[i].id
  {
    seq(|shards|, i requires 0 <= i < |shards| => shards[i].id)
  }

  function Terms(p: nat, shards: seq<Shard>): (r: seq<int>)
    requires p >= 2
    ensures |r| == |shards|
    ensures forall i :: 0 <= i < |shards| ==> r[i] == Mul(p, shards[i].value, LagrangeCoeff(p, i, Ids(shards)))
  {
    seq(|shards|, i requires 0 <= i < |shards| => Mul(p, shards[i].value, LagrangeCoeff(p, i, Ids(shards))))
  }

  function RestoreSecret(p: nat, shards: seq<Shard>, threshold: int): Result<int>
    requires p >= 2
  {
    if threshold < 0 || |shards| <= threshold then Err(NotEnoughShards)
    else Ok(Accumulate(AddOp(p), 0, Terms(p, shards)))
  }

  /** Accumulated modular sums of products agree with the weighted sum of the polynomial's values. */
  lemma {:induction false} AccumulatedSum(p: nat, coeffs: seq<nat>, xs: seq<int>, ms: seq<int>, s: seq<int>)
    requires p >= 2 && |xs| == |ms| == |s|
    requires forall i :: 0 <= i < |s| ==> s[i] == Mul(p, Poly.Value(coeffs, xs[i]) % p, ms[i])
    ensures Accumulate(AddOp(p), 0, s) == WeightedSum(coeffs, xs, ms) % p
  {
    var n := |s| - 1;
    if n < 0 {
    } else {
      var v := Poly.Value(coeffs, xs[n]);
      ReduceFactor(p, v, ms[n]);
      AccumulatedSum(p, coeffs, xs[..n], ms[..n], s[..n]);
      AddReduced(p, WeightedSum(coeffs, xs[..n], ms[..n]), v * ms[n]);
    }
  }

  lemma AddReduced(p: nat, a: int, b: int)
    requires p >= 1
    ensures Add(p, a % p, b % p) == (a + b) % p
  {
    CongruentMod(a, p);
    CongruentMod(b, p);
    CongruentAdd(a % p, a, b % p, b, p);
    ModsAgree(a % p + b % p, a + b, p);
  }

  /** The weighted sum of a polynomial's values, with Lagrange coefficients as weights, is its constant term. */
  lemma WeightedValues(p: nat, coeffs: seq<nat>, ids: seq<int>)
    requires Prime(p) && DistinctMod(p, ids) && 0 < |coeffs| <= |ids| && coeffs[0] < p
    ensures WeightedSum(coeffs, ids, Coeffs(p, ids)) % p == coeffs[0]
  {
    forall i | 0 <= i < |ids| ensures IsWeight(p, ids, i, Coeffs(p, ids)[i], 1) {
      CoeffIsWeight(p, ids, i);
    }
    Interpolates(p, coeffs, ids, Coeffs(p, ids), 1);
    CongruentSymmetric(WeightedSum(coeffs, ids, Coeffs(p, ids)), coeffs[0], p);
    ResidueUnique(coeffs[0], WeightedSum(coeffs, ids, Coeffs(p, ids)), p);
  }

  /**
   * Any number of shards above the threshold restores the secret of a polynomial of at most that degree; with
   * fewer shards restoring fails. The IDs only need to be distinct modulo the prime.
   */
  lemma SecretRestored(p: nat, coeffs: seq<nat>, ids: seq<int>, threshold: nat)
    requires Prime(p) && DistinctMod(p, ids) && 0 < |coeffs| <= threshold + 1 && coeffs[0] < p
    ensures RestoreSecret(p, Map(ShardAt(p, coeffs), ids), threshold)
         == if |ids| > threshold then Ok(coeffs[0]) else Err(NotEnoughShards)
  {
    var shards := Map(ShardAt(p, coeffs), ids);
    assert Ids(shards) == ids;
    if |ids| > threshold {
      AccumulatedSum(p, coeffs, ids, Coeffs(p, ids), Terms(p, shards));
      WeightedValues(p, coeffs, ids);
    }
  }
}
