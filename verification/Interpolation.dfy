/**
 * Lagrange interpolation at 0 over an integral domain Z/mZ, stated without division: a family of weights is
 * given by integers ms and a common denominator d with ms[i] * prod(xj - xi) == d * prod(xj) modulo m, both
 * products ranging over j != i. For a prime m this is the field of the threshold scheme, and for m == 0 it is
 * the rational numbers.
 */
module Interpolation {
  import opened Numbers
  import opened Ranges
  import opened ModInt
  import opened Poly

  function Minus(x: int): int -> int { y => y - x }

  /** prod(xj - xi) and prod(xj) over j != i. */
  function Denominator(xs: seq<int>, i: nat): int requires i < |xs| { ProductBy(Minus(xs[i]), Without(xs, i)) }
  function Numerator(xs: seq<int>, i: nat): int requires i < |xs| { ProductBy(Identity, Without(xs, i)) }

  ghost predicate IsWeight(m: int, xs: seq<int>, i: nat, w: int, d: int)
    requires i < |xs|
  {
    Congruent(w * Denominator(xs, i), d * Numerator(xs, i), m)
  }

  ghost predicate AreWeights(m: int, xs: seq<int>, ms: seq<int>, d: int) {
    |xs| == |ms| && forall i {:trigger IsWeight(m, xs, i, ms[i], d)} :: 0 <= i < |xs| ==> IsWeight(m, xs, i, ms[i], d)
  }

  ghost predicate DistinctMod(m: int, xs: seq<int>) {
    forall i, j :: 0 <= i < j < |xs| ==> !Congruent(xs[i], xs[j], m)
  }

  /** The sum of xi^k * mi. */
  function PowerSum(xs: seq<int>, ms: seq<int>, k: nat): int
    requires |xs| == |ms|
  {
    if |xs| == 0 then 0
    else PowerSum(xs[..|xs| - 1], ms[..|ms| - 1], k) + Pow(xs[|xs| - 1], k) * ms[|ms| - 1]
  }

  /** The sum of f(xi) * mi. */
  function WeightedSum(f: seq<int>, xs: seq<int>, ms: seq<int>): int
    requires |xs| == |ms|
  {
    if |xs| == 0 then 0
    else WeightedSum(f, xs[..|xs| - 1], ms[..|ms| - 1]) + Value(f, xs[|xs| - 1]) * ms[|ms| - 1]
  }

  // ---------------------------------------------------------- removing one node

  predicate IsEnd(xs: seq<int>, r: nat) {
    r < |xs| && (r == 0 || r == |xs| - 1)
  }

  function Scaled(xs: seq<int>, ms: seq<int>, a: int): (r: seq<int>)
    requires |xs| == |ms|
    ensures |r| == |ms| && forall i :: 0 <= i < |ms| ==> r[i] == ms[i] * (a - xs[i])
  {
    seq(|ms|, i requires 0 <= i < |ms| => ms[i] * (a - xs[i]))
  }

  lemma {:induction false} ScaledPowerSum(xs: seq<int>, ms: seq<int>, a: int, k: nat)
    requires |xs| == |ms|
    ensures PowerSum(xs, Scaled(xs, ms, a), k) == a * PowerSum(xs, ms, k) - PowerSum(xs, ms, k + 1)
  {
    if |xs| == 0 {
    } else {
      var n := |xs| - 1;
      ScaledPowerSum(xs[..n], ms[..n], a, k);
      assert Scaled(xs, ms, a)[..n] == Scaled(xs[..n], ms[..n], a);
      ScaledTerm(Pow(xs[n], k), xs[n], ms[n], a, PowerSum(xs[..n], ms[..n], k));
    }
  }

  lemma ScaledTerm(q: int, x: int, m: int, a: int, s: int)
    ensures q * (m * (a - x)) == a * (q * m) - (x * q) * m
    ensures a * (s + q * m) == a * s + a * (q * m)
  {
  }

  lemma {:induction false} PowerSumWithout(xs: seq<int>, ms: seq<int>, k: nat, r: nat)
    requires |xs| == |ms| && r < |xs|
    ensures PowerSum(xs, ms, k) == PowerSum(Without(xs, r), Without(ms, r), k) + Pow(xs[r], k) * ms[r]
  {
    var n := |xs| - 1;
    if r == n {
      assert Without(xs, r) == xs[..n] && Without(ms, r) == ms[..n];
    } else {
      PowerSumWithout(xs[..n], ms[..n], k, r);
      WithoutPrefix(xs, r);
      WithoutPrefix(ms, r);
    }
  }

  /** Removing node r after scaling by (xr - xi) relates two consecutive power sums. */
  lemma RemovedSum(xs: seq<int>, ms: seq<int>, k: nat, r: nat)
    requires |xs| == |ms| && r < |xs|
    ensures PowerSum(Without(xs, r), Without(Scaled(xs, ms, xs[r]), r), k)
         == xs[r] * PowerSum(xs, ms, k) - PowerSum(xs, ms, k + 1)
  {
    PowerSumWithout(xs, Scaled(xs, ms, xs[r]), k, r);
    ScaledPowerSum(xs, ms, xs[r], k);
  }

  /** Dropping an end node r and scaling the other weights by (xr - xi) leaves weights, with denominator d * xr. */
  lemma DropNode(m: int, xs: seq<int>, ms: seq<int>, d: int, r: nat)
    requires AreWeights(m, xs, ms, d) && IsEnd(xs, r)
    ensures AreWeights(m, Without(xs, r), Without(Scaled(xs, ms, xs[r]), r), d * xs[r])
  {
    var ys, ns := Without(xs, r), Without(Scaled(xs, ms, xs[r]), r);
    forall i | 0 <= i < |ys| ensures IsWeight(m, ys, i, ns[i], d * xs[r]) {
      DropNodeAt(m, xs, ms, d, r, i);
    }
  }

  lemma DropNodeAt(m: int, xs: seq<int>, ms: seq<int>, d: int, r: nat, i: nat)
    requires AreWeights(m, xs, ms, d) && IsEnd(xs, r) && i < |xs| - 1
    ensures IsWeight(m, Without(xs, r), i, Without(Scaled(xs, ms, xs[r]), r)[i], d * xs[r])
  {
    var j := if i < r then i else i + 1;
    assert IsWeight(m, xs, j, ms[j], d);
    ScaledWeight(m, xs, r, i, j, ms[j], ms[j] * (xs[r] - xs[j]), d, d * xs[r]);
  }

  lemma ScaledWeight(m: int, xs: seq<int>, r: nat, i: nat, j: nat, w: int, w': int, d: int, d': int)
    requires IsEnd(xs, r) && i < |xs| - 1 && j == (if i < r then i else i + 1) && IsWeight(m, xs, j, w, d)
    requires w' == w * (xs[r] - xs[j]) && d' == d * xs[r]
    ensures IsWeight(m, Without(xs, r), i, w', d')
  {
    var ys := Without(xs, r);
    SplitProduct(Minus(xs[j]), xs, r, i, j);
    SplitProduct(Identity, xs, r, i, j);
    Regrouped(m, w, xs[r] - xs[j], Denominator(ys, i), Denominator(xs, j), d, xs[r], Numerator(ys, i),
              Numerator(xs, j));
  }

  lemma Regrouped(m: int, w: int, e: int, v: int, v': int, d: int, a: int, n: int, n': int)
    requires v' == v * e && n' == n * a && Congruent(w * v', d * n', m)
    ensures Congruent((w * e) * v, (d * a) * n, m)
  {
    Regroup(w, e, v);
    Regroup(d, a, n);
  }

  lemma Regroup(w: int, e: int, v: int)
    ensures (w * e) * v == w * (v * e)
  {
    MulAssociative(w, e, v);
  }

  lemma SplitProduct(f: int -> int, xs: seq<int>, r: nat, i: nat, j: nat)
    requires IsEnd(xs, r) && i < |xs| - 1 && j == if i < r then i else i + 1
    ensures ProductBy(f, Without(xs, j)) == ProductBy(f, Without(Without(xs, r), i)) * f(xs[r])
  {
    if r == 0 {
      assert xs == [xs[0]] + xs[1..];
      SplitFirst(f, xs[0], xs[1..], i);
    } else {
      assert xs == xs[..r] + [xs[r]];
      SplitLast(f, xs[..r], xs[r], i);
    }
  }

  lemma SplitFirst(f: int -> int, b: int, ys: seq<int>, i: nat)
    requires i < |ys|
    ensures Without([b] + ys, 0) == ys
    ensures ProductBy(f, Without([b] + ys, i + 1)) == ProductBy(f, Without(ys, i)) * f(b)
  {
    assert Without([b] + ys, i + 1) == [b] + Without(ys, i);
    assert Without([b] + Without(ys, i), 0) == Without(ys, i);
    ProductExtract(f, [b] + Without(ys, i), 0);
  }

  lemma SplitLast(f: int -> int, ys: seq<int>, a: int, i: nat)
    requires i < |ys|
    ensures Without(ys + [a], |ys|) == ys
    ensures ProductBy(f, Without(ys + [a], i)) == ProductBy(f, Without(ys, i)) * f(a)
  {
    assert Without(ys + [a], i) == Without(ys, i) + [a];
    assert (Without(ys, i) + [a])[..|ys| - 1] == Without(ys, i);
  }

  lemma DistinctWithout(m: int, xs: seq<int>, r: nat)
    requires DistinctMod(m, xs) && r < |xs|
    ensures DistinctMod(m, Without(xs, r))
  {
  }

  // ----------------------------------------------------------------- power sums

  /** The weighted power sums are d for exponent 0 and vanish for every other exponent below the node count. */
  lemma {:induction false} PowerSums(m: int, xs: seq<int>, ms: seq<int>, d: int, k: nat)
    requires Domain(m) && DistinctMod(m, xs) && AreWeights(m, xs, ms, d) && k < |xs|
    ensures Congruent(PowerSum(xs, ms, k), if k == 0 then d else 0, m)
    decreases |xs|, k
  {
    var n := |xs|;
    if n == 1 {
      SingleNode(m, xs, ms, d);
    } else if k < n - 1 {
      var u, a := Removal(m, xs, ms, d, k, n - 1);
      var v, b := Removal(m, xs, ms, d, k, 0);
      CancelDifference(m, a, b, PowerSum(xs, ms, k), PowerSum(xs, ms, k + 1), u, v, d, k);
    } else {
      PowerSums(m, xs, ms, d, k - 1);
      var u, a := Removal(m, xs, ms, d, k - 1, n - 1);
      TopPower(m, a, PowerSum(xs, ms, k - 1), PowerSum(xs, ms, k), u, d, k - 1);
    }
  }

  lemma SingleNode(m: int, xs: seq<int>, ms: seq<int>, d: int)
    requires AreWeights(m, xs, ms, d) && |xs| == 1
    ensures Congruent(PowerSum(xs, ms, 0), d, m)
  {
    assert Without(xs, 0) == [];
    assert IsWeight(m, xs, 0, ms[0], d);
    assert PowerSum(xs, ms, 0) == PowerSum(xs[..0], ms[..0], 0) + 1 * ms[0];
  }

  // Removing end node r: the remaining power sum u relates two consecutive power sums of all nodes.
  lemma Removal(m: int, xs: seq<int>, ms: seq<int>, d: int, k: nat, r: nat) returns (u: int, a: int)
    requires Domain(m) && DistinctMod(m, xs) && AreWeights(m, xs, ms, d) && k < |xs| - 1 && IsEnd(xs, r)
    ensures a == xs[r] && u == a * PowerSum(xs, ms, k) - PowerSum(xs, ms, k + 1)
    ensures Congruent(u, if k == 0 then d * a else 0, m)
    decreases |xs| - 1, |xs|
  {
    a := xs[r];
    var ys, ns := Without(xs, r), Without(Scaled(xs, ms, a), r);
    DropNode(m, xs, ms, d, r);
    DistinctWithout(m, xs, r);
    PowerSums(m, ys, ns, d * a, k);
    u := PowerSum(ys, ns, k);
    RemovedSum(xs, ms, k, r);
  }

  lemma CancelDifference(m: int, a: int, b: int, s: int, t: int, u: int, v: int, d: int, k: nat)
    requires Domain(m) && !Congruent(b, a, m) && u == a * s - t && v == b * s - t
    requires Congruent(u, if k == 0 then d * a else 0, m) && Congruent(v, if k == 0 then d * b else 0, m)
    ensures Congruent(s, if k == 0 then d else 0, m)
  {
    var e := if k == 0 then d else 0;
    DividesLinear(m, u - e * a, v - e * b, -1, 1);
    Factored(a, b, s, t, e);
    DomainCancel(m, b - a, s - e);
  }

  lemma Factored(a: int, b: int, s: int, t: int, e: int)
    ensures -1 * ((a * s - t) - e * a) + 1 * ((b * s - t) - e * b) == (b - a) * (s - e)
  {
  }

  lemma TopPower(m: int, a: int, s: int, t: int, u: int, d: int, k: nat)
    requires u == a * s - t
    requires Congruent(u, if k == 0 then d * a else 0, m) && Congruent(s, if k == 0 then d else 0, m)
    ensures Congruent(t, 0, m)
  {
    var e := if k == 0 then d else 0;
    DividesLinear(m, u - e * a, s - e, -1, a);
    assert -1 * ((a * s - t) - e * a) + a * (s - e) == t;
  }

  // -------------------------------------------------------------- interpolation

  lemma {:induction false} WeightedSumSplit(f: seq<int>, xs: seq<int>, ms: seq<int>)
    requires |xs| == |ms| && |f| > 0
    ensures WeightedSum(f, xs, ms) == WeightedSum(f[..|f| - 1], xs, ms) + f[|f| - 1] * PowerSum(xs, ms, |f| - 1)
  {
    if |xs| == 0 {
    } else {
      var n, g, c := |xs| - 1, f[..|f| - 1], f[|f| - 1];
      WeightedSumSplit(f, xs[..n], ms[..n]);
      SplitTerm(Value(g, xs[n]), c, Pow(xs[n], |f| - 1), ms[n], PowerSum(xs[..n], ms[..n], |f| - 1));
    }
  }

  lemma SplitTerm(v: int, c: int, q: int, w: int, s: int)
    ensures (v + c * q) * w == v * w + c * (q * w)
    ensures c * (s + q * w) == c * s + c * (q * w)
  {
  }

  lemma {:induction false} WeightedSumEmpty(xs: seq<int>, ms: seq<int>)
    requires |xs| == |ms|
    ensures WeightedSum([], xs, ms) == 0
  {
    if |xs| == 0 {
    } else {
      WeightedSumEmpty(xs[..|xs| - 1], ms[..|ms| - 1]);
    }
  }

  lemma AddTerm(m: int, w: int, d: int, t: int, c: int, s: int, n: nat)
    requires Congruent(w, d * t, m) && Congruent(s, if n == 0 then d else 0, m) && (n == 0 ==> t == 0)
    ensures Congruent(w + c * s, d * (if n == 0 then c else t), m)
  {
    CongruentScale(c, s, if n == 0 then d else 0, m);
    CongruentAdd(w, d * t, c * s, c * (if n == 0 then d else 0), m);
  }

  /** Every polynomial with at most as many coefficients as there are distinct nodes is recovered at 0. */
  lemma {:induction false} Interpolates(m: int, f: seq<int>, xs: seq<int>, ms: seq<int>, d: int)
    requires Domain(m) && DistinctMod(m, xs) && AreWeights(m, xs, ms, d) && |f| <= |xs|
    ensures Congruent(WeightedSum(f, xs, ms), d * ConstantTerm(f), m)
  {
    if |f| == 0 {
      WeightedSumEmpty(xs, ms);
      CongruentReflexive(0, m);
    } else {
      var n := |f| - 1;
      Interpolates(m, f[..n], xs, ms, d);
      WeightedSumSplit(f, xs, ms);
      PowerSums(m, xs, ms, d, n);
      AddTerm(m, WeightedSum(f[..n], xs, ms), d, ConstantTerm(f[..n]), f[n], PowerSum(xs, ms, n), n);
    }
  }
}
