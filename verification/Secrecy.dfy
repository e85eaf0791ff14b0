/**
 * What shards below the threshold tell: as many shards as the threshold fit every secret, and each secret with
 * exactly one choice of the sampled coefficients.
 */
module Secrecy {
  import opened Numbers
  import opened Ranges
  import opened ModInt
  import opened Interpolation
  import opened Poly
  import opened Shamir

  // ------------------------------------------------- polynomials by coefficients

  function Combine(f: seq<int>, c: int, g: seq<int>): (r: seq<int>)
    requires |f| == |g|
    ensures |r| == |f| && forall i :: 0 <= i < |f| ==> r[i] == f[i] + c * g[i]
  {
    seq(|f|, i requires 0 <= i < |f| => f[i] + c * g[i])
  }

  lemma {:induction false} CombineValue(f: seq<int>, c: int, g: seq<int>, x: int)
    requires |f| == |g|
    ensures Value(Combine(f, c, g), x) == Value(f, x) + c * Value(g, x)
  {
    if |f| == 0 {
    } else {
      var n := |f| - 1;
      CombineValue(f[..n], c, g[..n], x);
      assert Combine(f, c, g)[..n] == Combine(f[..n], c, g[..n]);
      CombinedTerm(f[n], c, g[n], Pow(x, n), Value(g[..n], x));
    }
  }

  lemma CombinedTerm(a: int, c: int, b: int, q: int, v: int)
    ensures (a + c * b) * q == a * q + c * (b * q)
    ensures c * (v + b * q) == c * v + c * (b * q)
  {
    MulAssociative(c, b, q);
  }

  lemma ExtendedValue(f: seq<int>, x: int)
    ensures Value(f + [0], x) == Value(f, x)
  {
    assert (f + [0])[..|f|] == f;
  }

  /** A leading zero multiplies by the variable. */
  lemma {:induction false} ShiftedValue(f: seq<int>, x: int)
    ensures Value([0] + f, x) == x * Value(f, x)
  {
    if |f| == 0 {
      assert ([0] + f)[..0] == [];
      assert Value([], x) == 0;
    } else {
      var n := |f| - 1;
      ShiftedValue(f[..n], x);
      assert ([0] + f)[..n + 1] == [0] + f[..n];
      ShiftedTerm(x, Value(f[..n], x), f[n], Pow(x, n));
    }
  }

  lemma ShiftedTerm(x: int, v: int, a: int, q: int)
    ensures x * (v + a * q) == x * v + a * (x * q)
  {
  }

  /** The product with x - a. */
  function TimesRoot(f: seq<int>, a: int): (r: seq<int>)
    ensures |r| == |f| + 1
  {
    Combine([0] + f, -a, f + [0])
  }

  lemma TimesRootValue(f: seq<int>, a: int, x: int)
    ensures Value(TimesRoot(f, a), x) == Value(f, x) * (x - a)
  {
    CombineValue([0] + f, -a, f + [0], x);
    ShiftedValue(f, x);
    ExtendedValue(f, x);
    RootTerm(x, a, Value(f, x));
  }

  lemma RootTerm(x: int, a: int, v: int)
    ensures x * v + -a * v == v * (x - a)
  {
    MulDistributes(v, x, a);
  }

  /** The polynomial with roots at 0 and at xs. */
  function Vanishing(xs: seq<int>): (r: seq<int>)
    ensures |r| == |xs| + 2
  {
    if |xs| == 0 then [0, 1] else TimesRoot(Vanishing(xs[..|xs| - 1]), xs[|xs| - 1])
  }

  function Distance(x: int): int -> int { y => x - y }

  lemma {:induction false} VanishingValue(xs: seq<int>, x: int)
    ensures Value(Vanishing(xs), x) == x * ProductBy(Distance(x), xs) && Vanishing(xs)[0] == 0
  {
    if |xs| == 0 {
      LinearValue(x);
    } else {
      var n := |xs| - 1;
      VanishingValue(xs[..n], x);
      TimesRootValue(Vanishing(xs[..n]), xs[n], x);
      MulAssociative(x, ProductBy(Distance(x), xs[..n]), x - xs[n]);
    }
  }

  lemma LinearValue(x: int)
    ensures Value([0, 1], x) == x
  {
    assert [0, 1][..1] == [0] && [0][..0] == [];
    assert Value([0], x) == Value([], x) + 0 * Pow(x, 0);
    assert Pow(x, 1) == x * Pow(x, 0);
  }

  lemma VanishesAt(xs: seq<int>, i: nat)
    requires i < |xs|
    ensures Value(Vanishing(xs), xs[i]) == 0
  {
    VanishingValue(xs, xs[i]);
    ProductExtract(Distance(xs[i]), xs, i);
    ZeroFactor(xs[i], ProductBy(Distance(xs[i]), Without(xs, i)), Distance(xs[i])(xs[i]));
  }

  lemma ZeroFactor(a: int, b: int, c: int)
    requires c == 0
    ensures a * (b * c) == 0
  {
  }

  lemma NotVanishing(p: nat, xs: seq<int>, x: int)
    requires Prime(p) && !Divides(p, x) && forall y :: y in xs ==> !Congruent(x, y, p)
    ensures !Divides(p, Value(Vanishing(xs), x))
  {
    VanishingValue(xs, x);
    ProductNotDivisible(p, Distance(x), xs);
    if Divides(p, x * ProductBy(Distance(x), xs)) {
      DomainCancel(p, x, ProductBy(Distance(x), xs));
    }
  }

  // ------------------------------------------------------------ a fitting polynomial

  /** IDs that are distinct and not zero modulo the prime. */
  ghost predicate Usable(p: nat, ids: seq<int>) {
    DistinctMod(p, ids) && forall id :: id in ids ==> !Divides(p, id)
  }

  ghost predicate Takes(p: nat, f: seq<int>, ids: seq<int>, values: seq<nat>) {
    |ids| == |values| && forall i :: 0 <= i < |ids| ==> Congruent(Value(f, ids[i]), values[i], p)
  }

  lemma {:induction false} Fitting(p: nat, ids: seq<int>, values: seq<nat>, secret: nat) returns (f: seq<int>)
    requires Prime(p) && Usable(p, ids) && |ids| == |values|
    ensures |f| == |ids| + 1 && f[0] == secret && Takes(p, f, ids, values)
  {
    var n := |ids| - 1;
    if n < 0 {
      f := [secret];
    } else {
      assert ids == ids[..n] + [ids[n]];
      UsablePrefix(p, ids[..n], ids[n]);
      var e := Fitting(p, ids[..n], values[..n], secret);
      f := FitOneMore(p, e, ids, values);
    }
  }

  lemma UsablePrefix(p: nat, xs: seq<int>, x: int)
    requires Usable(p, xs + [x])
    ensures Usable(p, xs) && !Divides(p, x) && forall y :: y in xs ==> !Congruent(x, y, p)
  {
    var ids := xs + [x];
    assert ids[|xs|] in ids;
    forall i, j | 0 <= i < j < |xs| ensures !Congruent(xs[i], xs[j], p) {
      assert ids[i] == xs[i] && ids[j] == xs[j];
    }
    forall y | y in xs ensures !Congruent(x, y, p) {
      var i :| 0 <= i < |xs| && xs[i] == y;
      assert ids[i] == y && ids[|xs|] == x;
      if Congruent(x, y, p) {
        CongruentSymmetric(x, y, p);
      }
    }
  }

  // Adds the multiple of the vanishing polynomial that corrects the value at the last ID.
  lemma FitOneMore(p: nat, e: seq<int>, ids: seq<int>, values: seq<nat>) returns (f: seq<int>)
    requires Prime(p) && Usable(p, ids) && |ids| == |values| > 0
    requires |e| == |ids| && Takes(p, e, ids[..|ids| - 1], values[..|ids| - 1])
    ensures |f| == |ids| + 1 && f[0] == e[0] && Takes(p, f, ids, values)
  {
    var n := |ids| - 1;
    var xs, x := ids[..n], ids[n];
    assert ids == xs + [x];
    UsablePrefix(p, xs, x);
    NotVanishing(p, xs, x);
    var v := Value(e, x);
    var c := Correction(p, v, Value(Vanishing(xs), x), values[n]);
    f := Combine(e + [0], c, Vanishing(xs));
    VanishingValue(xs, x);
    forall i | 0 <= i < |ids| ensures Congruent(Value(f, ids[i]), values[i], p) {
      CombineValue(e + [0], c, Vanishing(xs), ids[i]);
      ExtendedValue(e, ids[i]);
      if i < n {
        VanishesAt(xs, i);
        assert xs[i] == ids[i] && Congruent(Value(e, xs[i]), values[..n][i], p);
      }
    }
  }

  lemma Correction(p: nat, v: int, w: int, target: int) returns (c: int)
    requires Prime(p) && !Divides(p, w)
    ensures Congruent(v + c * w, target, p)
  {
    var r: nat := w % p;
    CongruentMod(w, p);
    CongruentZero(p, r, w);
    InverseCorrect(p, r);
    var i := PrimeInverse(p, r);
    c := (target - v) * i;
    CongruentScale(i, r, w, p);
    CongruentSymmetric(i * r, i * w, p);
    CongruentTransitive(i * w, i * r, 1, p);
    CongruentScale(target - v, i * w, 1, p);
    MulAssociative(target - v, i, w);
    CongruentReflexive(v, p);
    CongruentAdd(v, v, c * w, target - v, p);
  }

  function Reduced(p: nat, f: seq<int>): (r: seq<nat>)
    requires p >= 1
    ensures |r| == |f| && forall i :: 0 <= i < |f| ==> r[i] == f[i] % p < p
  {
    seq(|f|, i requires 0 <= i < |f| => f[i] % p)
  }

  lemma {:induction false} ReducedValue(p: nat, f: seq<int>, x: int)
    requires p >= 1
    ensures Congruent(Value(Reduced(p, f), x), Value(f, x), p)
  {
    if |f| == 0 {
      CongruentReflexive(0, p);
    } else {
      var n := |f| - 1;
      ReducedValue(p, f[..n], x);
      assert Reduced(p, f)[..n] == Reduced(p, f[..n]);
      CongruentMod(f[n], p);
      CongruentScale(Pow(x, n), f[n] % p, f[n], p);
      CongruentAdd(Value(Reduced(p, f[..n]), x), Value(f[..n], x), (f[n] % p) * Pow(x, n), f[n] * Pow(x, n), p);
    }
  }

  /** These coefficients, all reduced, share the secret with these shards. */
  ghost predicate Shares(p: nat, coeffs: seq<nat>, secret: nat, shards: seq<Shard>) {
    && p >= 1 && |coeffs| > 0 && coeffs[0] == secret && (forall c :: c in coeffs ==> c < p)
    && shards == Map(ShardAt(p, coeffs), Ids(shards))
  }

  ghost predicate UsableShards(p: nat, shards: seq<Shard>) {
    Usable(p, Ids(shards)) && forall s :: s in shards ==> s.value < p
  }

  /** Whatever the shards of as many members as the threshold are, every secret could have led to them. */
  lemma EverySecretFits(p: nat, shards: seq<Shard>, threshold: nat, secret: nat) returns (coeffs: seq<nat>)
    requires Prime(p) && UsableShards(p, shards) && |shards| == threshold && secret < p
    ensures |coeffs| == threshold + 1 && Shares(p, coeffs, secret, shards)
  {
    var ids, values := Ids(shards), seq(|shards|, i requires 0 <= i < |shards| => shards[i].value);
    var f := Fitting(p, ids, values, secret);
    coeffs := Reduced(p, f);
    forall i | 0 <= i < |shards| ensures shards[i] == ShardAt(p, coeffs)(ids[i]) {
      assert shards[i] in shards;
      ReducedTakes(p, f, ids[i], values[i]);
    }
  }

  lemma ReducedTakes(p: nat, f: seq<int>, x: int, v: nat)
    requires p >= 1 && Congruent(Value(f, x), v, p) && v < p
    ensures Value(Reduced(p, f), x) % p == v
  {
    ReducedValue(p, f, x);
    CongruentTransitive(Value(Reduced(p, f), x), Value(f, x), v, p);
    CongruentSymmetric(Value(Reduced(p, f), x), v, p);
    ResidueUnique(v, Value(Reduced(p, f), x), p);
  }

  // ---------------------------------------------------------------------- only one

  /** A polynomial with as many roots as coefficients is zero modulo the prime. */
  lemma {:induction false} ZeroPolynomial(p: nat, f: seq<int>, ids: seq<int>, k: nat)
    requires Prime(p) && Usable(p, ids) && |f| <= |ids| && k < |f|
    requires forall i :: 0 <= i < |ids| ==> Divides(p, Value(f, ids[i]))
    ensures Divides(p, f[k])
  {
    FirstCoefficientZero(p, f, ids);
    if k == 0 {
    } else {
      forall i | 0 <= i < |ids| ensures Divides(p, Value(f[1..], ids[i])) {
        assert ids[i] in ids;
        RestVanishes(p, f, ids[i]);
      }
      ZeroPolynomial(p, f[1..], ids, k - 1);
    }
  }

  lemma FirstCoefficientZero(p: nat, f: seq<int>, ids: seq<int>)
    requires Prime(p) && DistinctMod(p, ids) && 0 < |f| <= |ids|
    requires forall i :: 0 <= i < |ids| ==> Divides(p, Value(f, ids[i]))
    ensures Divides(p, f[0])
  {
    var ms := Coeffs(p, ids);
    forall i | 0 <= i < |ids| ensures IsWeight(p, ids, i, ms[i], 1) {
      CoeffIsWeight(p, ids, i);
    }
    Interpolates(p, f, ids, ms, 1);
    WeightedZeros(p, f, ids, ms);
    CongruentZero(p, WeightedSum(f, ids, ms), f[0]);
  }

  lemma {:induction false} WeightedZeros(p: nat, f: seq<int>, xs: seq<int>, ms: seq<int>)
    requires |xs| == |ms| && forall i :: 0 <= i < |xs| ==> Divides(p, Value(f, xs[i]))
    ensures Divides(p, WeightedSum(f, xs, ms))
  {
    if |xs| == 0 {
      DividesIntro(p, 0, 0);
    } else {
      var n := |xs| - 1;
      WeightedZeros(p, f, xs[..n], ms[..n]);
      DividesLinear(p, WeightedSum(f, xs[..n], ms[..n]), Value(f, xs[n]), 1, ms[n]);
    }
  }

  lemma RestVanishes(p: nat, f: seq<int>, x: int)
    requires Prime(p) && |f| > 0 && Divides(p, f[0]) && !Divides(p, x) && Divides(p, Value(f, x))
    ensures Divides(p, Value(f[1..], x))
  {
    FirstAndRest(f, x);
    DividesLinear(p, Value(f, x), f[0], 1, -1);
    DomainCancel(p, x, Value(f[1..], x));
  }

  lemma FirstAndRest(f: seq<int>, x: int)
    requires |f| > 0
    ensures Value(f, x) == f[0] + x * Value(f[1..], x)
  {
    ShiftedValue(f[1..], x);
    var g := [0] + f[1..];
    var one := seq(|f|, i => if i == 0 then 1 else 0);
    assert f == Combine(g, f[0], one);
    CombineValue(g, f[0], one, x);
    OneValue(|f|, x);
  }

  lemma {:induction false} OneValue(n: nat, x: int)
    requires n > 0
    ensures Value(seq(n, i => if i == 0 then 1 else 0), x) == 1
  {
    var one := seq(n, i => if i == 0 then 1 else 0);
    if n == 1 {
      assert one[..0] == [] && Value([], x) == 0;
    } else {
      OneValue(n - 1, x);
      assert one[..n - 1] == seq(n - 1, i => if i == 0 then 1 else 0);
    }
  }

  /** Only one choice of coefficients leads from a secret to the shards of as many members as the threshold. */
  lemma OnlyOneFits(p: nat, shards: seq<Shard>, threshold: nat, secret: nat, f: seq<nat>, g: seq<nat>)
    requires Prime(p) && UsableShards(p, shards) && |shards| == threshold
    requires |f| == |g| == threshold + 1 && Shares(p, f, secret, shards) && Shares(p, g, secret, shards)
    ensures f == g
  {
    var ids, d := Ids(shards), Combine(f, -1, g);
    forall i | 0 <= i < |ids| ensures Divides(p, Value(d[1..], ids[i])) {
      assert ids[i] in ids;
      SameShard(p, f, g, shards, i);
      DividesIntro(p, 0, 0);
      RestVanishes(p, d, ids[i]);
    }
    forall k | 0 <= k < |f| ensures f[k] == g[k] {
      if k > 0 {
        ZeroPolynomial(p, d[1..], ids, k - 1);
        assert f[k] in f && g[k] in g;
        var q := DividesElim(p, f[k] - g[k]);
        SmallMultiple(p, q, f[k] - g[k]);
      }
    }
  }

  lemma SameShard(p: nat, f: seq<nat>, g: seq<nat>, shards: seq<Shard>, i: nat)
    requires p >= 1 && |f| == |g| && i < |shards|
    requires shards == Map(ShardAt(p, f), Ids(shards)) && shards == Map(ShardAt(p, g), Ids(shards))
    ensures Divides(p, Value(Combine(f, -1, g), Ids(shards)[i]))
  {
    var x := Ids(shards)[i];
    assert ShardAt(p, f)(x) == ShardAt(p, g)(x);
    ModsAgree(Value(f, x), Value(g, x), p);
    CombineValue(f, -1, g, x);
  }

  // -------------------------------------------------------------- repeated IDs

  /** Shards of every polynomial of the threshold's degree over these IDs restore its secret. */
  ghost predicate AlwaysRestores(p: nat, ids: seq<int>, threshold: nat)
    requires p >= 2
  {
    forall coeffs: seq<nat> {:trigger Map(ShardAt(p, coeffs), ids)} ::
      |coeffs| == threshold + 1 && coeffs[0] < p ==>
        RestoreSecret(p, Map(ShardAt(p, coeffs), ids), threshold) == Ok(coeffs[0])
  }

  /** One of each residue among the IDs. */
  ghost predicate Represents(p: nat, reps: seq<int>, ids: seq<int>) {
    && DistinctMod(p, reps) && (forall x :: x in reps ==> x in ids)
    && forall i :: 0 <= i < |ids| ==> HasResidue(p, reps, ids[i])
  }

  ghost predicate HasResidue(p: nat, reps: seq<int>, x: int) {
    exists j :: 0 <= j < |reps| && Congruent(x, reps[j], p)
  }

  lemma HasResidueIntro(p: nat, reps: seq<int>, x: int, j: nat)
    requires j < |reps| && Congruent(x, reps[j], p)
    ensures HasResidue(p, reps, x)
  {
  }

  lemma {:induction false} PickRepresentatives(p: nat, ids: seq<int>) returns (reps: seq<int>)
    ensures Represents(p, reps, ids) && |reps| <= |ids|
    ensures |reps| == |ids| ==> reps == ids
  {
    if |ids| == 0 {
      reps := [];
    } else {
      var t, x := ids[..|ids| - 1], ids[|ids| - 1];
      var r := PickRepresentatives(p, t);
      assert ids == t + [x];
      if HasResidue(p, r, x) {
        reps := r;
        KeepRepresentatives(p, r, t, x);
      } else {
        reps := r + [x];
        AddRepresentative(p, r, t, x);
      }
    }
  }

  lemma KeepRepresentatives(p: nat, r: seq<int>, t: seq<int>, x: int)
    requires Represents(p, r, t) && HasResidue(p, r, x)
    ensures Represents(p, r, t + [x])
  {
    forall i | 0 <= i <= |t| ensures HasResidue(p, r, (t + [x])[i]) {
      if i < |t| {
        assert HasResidue(p, r, t[i]);
      }
    }
  }

  lemma AddRepresentative(p: nat, r: seq<int>, t: seq<int>, x: int)
    requires Represents(p, r, t) && !HasResidue(p, r, x)
    ensures Represents(p, r + [x], t + [x])
  {
    var all := r + [x];
    forall i, j | 0 <= i < j < |all| ensures !Congruent(all[i], all[j], p) {
      if j == |r| {
        NoResidue(p, r, x, i);
      } else {
        assert all[i] == r[i] && all[j] == r[j];
      }
    }
    forall i | 0 <= i <= |t| ensures HasResidue(p, all, (t + [x])[i]) {
      if i < |t| {
        assert HasResidue(p, r, t[i]);
        MoreResidues(p, r, x, t[i]);
      } else {
        CongruentReflexive(x, p);
        HasResidueIntro(p, all, x, |r|);
      }
    }
  }

  lemma NoResidue(p: nat, r: seq<int>, x: int, i: nat)
    requires !HasResidue(p, r, x) && i < |r|
    ensures !Congruent(r[i], x, p)
  {
    if Congruent(r[i], x, p) {
      CongruentSymmetric(r[i], x, p);
    }
  }

  lemma MoreResidues(p: nat, r: seq<int>, x: int, y: int)
    requires HasResidue(p, r, y)
    ensures HasResidue(p, r + [x], y)
  {
    var j :| 0 <= j < |r| && Congruent(y, r[j], p);
    HasResidueIntro(p, r + [x], y, j);
  }

  lemma {:induction false} ValueCongruent(p: nat, f: seq<int>, x: int, y: int)
    requires Congruent(x, y, p)
    ensures Congruent(Value(f, x), Value(f, y), p)
  {
    if |f| == 0 {
      CongruentReflexive(0, p);
    } else {
      var n := |f| - 1;
      ValueCongruent(p, f[..n], x, y);
      PowCongruent(x, y, n, p);
      CongruentScale(f[n], Pow(x, n), Pow(y, n), p);
      CongruentAdd(Value(f[..n], x), Value(f[..n], y), f[n] * Pow(x, n), f[n] * Pow(y, n), p);
    }
  }

  function Zeros(n: nat): (r: seq<nat>)
    ensures |r| == n && forall i :: 0 <= i < n ==> r[i] == 0
  {
    seq(n, _ => 0)
  }

  lemma {:induction false} PaddedValue(f: seq<int>, n: nat, x: int)
    ensures Value(f + Zeros(n), x) == Value(f, x)
  {
    if n == 0 {
      assert f + Zeros(0) == f;
    } else {
      PaddedValue(f, n - 1, x);
      assert (f + Zeros(n - 1)) + [0] == f + Zeros(n);
      ExtendedValue(f + Zeros(n - 1), x);
    }
  }

  /** With few residues, some polynomial has this secret and the value 0 at all of the IDs. */
  lemma ZeroAtAll(p: nat, ids: seq<int>, reps: seq<int>, threshold: nat, secret: nat) returns (coeffs: seq<nat>)
    requires Prime(p) && Represents(p, reps, ids) && |reps| <= threshold && secret < p
    requires forall id :: id in ids ==> !Divides(p, id)
    ensures |coeffs| == threshold + 1 && coeffs[0] == secret
    ensures forall i :: 0 <= i < |ids| ==> Value(coeffs, ids[i]) % p == 0
  {
    var f := Fitting(p, reps, Zeros(|reps|), secret);
    var c := Reduced(p, f);
    coeffs := c + Zeros(threshold - |reps|);
    SmallRemainder(secret, p);
    forall i | 0 <= i < |ids| ensures Value(coeffs, ids[i]) % p == 0 {
      assert HasResidue(p, reps, ids[i]);
      var j :| 0 <= j < |reps| && Congruent(ids[i], reps[j], p);
      PaddedValue(c, threshold - |reps|, ids[i]);
      ReducedTakes(p, f, reps[j], 0);
      ValueCongruent(p, c, ids[i], reps[j]);
      ModsAgree(Value(c, ids[i]), Value(c, reps[j]), p);
    }
  }

  /** Then two different secrets have the same shards. */
  lemma TooFewResidues(p: nat, ids: seq<int>, reps: seq<int>, threshold: nat)
    requires Prime(p) && Represents(p, reps, ids) && |reps| <= threshold
    requires forall id :: id in ids ==> !Divides(p, id)
    ensures !AlwaysRestores(p, ids, threshold)
  {
    var f := ZeroAtAll(p, ids, reps, threshold, 0);
    var g := ZeroAtAll(p, ids, reps, threshold, 1);
    var a, b := Map(ShardAt(p, f), ids), Map(ShardAt(p, g), ids);
    assert a == b by {
      forall i | 0 <= i < |ids| ensures a[i] == b[i] {
      }
    }
  }

  /**
   * With one shard more than the threshold and no ID divisible by the prime, every secret is restored if and only
   * if the IDs are distinct modulo the prime.
   */
  lemma RestoresExactly(p: nat, ids: seq<int>, threshold: nat)
    requires Prime(p) && |ids| == threshold + 1 && forall id :: id in ids ==> !Divides(p, id)
    ensures AlwaysRestores(p, ids, threshold) <==> DistinctMod(p, ids)
  {
    if DistinctMod(p, ids) {
      forall coeffs: seq<nat> | |coeffs| == threshold + 1 && coeffs[0] < p
        ensures RestoreSecret(p, Map(ShardAt(p, coeffs), ids), threshold) == Ok(coeffs[0])
      {
        SecretRestored(p, coeffs, ids, threshold);
      }
    } else {
      var reps := PickRepresentatives(p, ids);
      TooFewResidues(p, ids, reps, threshold);
    }
  }

  /** The power sums of the nodes with these weights are 1 for exponent 0 and 0 for the others up to the threshold. */
  ghost predicate RestoringSums(p: nat, xs: seq<int>, ms: seq<int>, threshold: nat)
    requires |xs| == |ms|
  {
    forall k: nat {:trigger RestoringSum(p, xs, ms, k)} :: k <= threshold ==> RestoringSum(p, xs, ms, k)
  }

  ghost predicate RestoringSum(p: nat, xs: seq<int>, ms: seq<int>, k: nat)
    requires |xs| == |ms|
  {
    Congruent(PowerSum(xs, ms, k), if k == 0 then 1 else 0, p)
  }

  /** With these weights the values of every polynomial of the threshold's degree sum up to its secret. */
  ghost predicate AlwaysSums(p: nat, xs: seq<int>, ms: seq<int>, threshold: nat)
    requires p >= 1 && |xs| == |ms|
  {
    forall coeffs: seq<nat> {:trigger WeightedSum(coeffs, xs, ms)} ::
      |coeffs| == threshold + 1 && coeffs[0] < p ==> WeightedSum(coeffs, xs, ms) % p == coeffs[0]
  }

  /** What restoring computes, for any IDs whatever. */
  lemma RestoredValue(p: nat, coeffs: seq<nat>, ids: seq<int>, threshold: nat)
    requires p >= 2 && |ids| > threshold
    ensures RestoreSecret(p, Map(ShardAt(p, coeffs), ids), threshold)
         == Ok(WeightedSum(coeffs, ids, Coeffs(p, ids)) % p)
  {
    var shards := Map(ShardAt(p, coeffs), ids);
    assert Ids(shards) == ids;
    AccumulatedSum(p, coeffs, ids, Coeffs(p, ids), Terms(p, shards));
  }

  lemma {:induction false} SumsRestore(p: nat, f: seq<int>, ids: seq<int>, ms: seq<int>)
    requires |ids| == |ms|
    requires forall k :: 0 <= k < |f| ==> Congruent(PowerSum(ids, ms, k), if k == 0 then 1 else 0, p)
    ensures Congruent(WeightedSum(f, ids, ms), ConstantTerm(f), p)
  {
    if |f| == 0 {
      WeightedSumEmpty(ids, ms);
      CongruentReflexive(0, p);
    } else {
      var n := |f| - 1;
      SumsRestore(p, f[..n], ids, ms);
      WeightedSumSplit(f, ids, ms);
      AddTerm(p, WeightedSum(f[..n], ids, ms), 1, ConstantTerm(f[..n]), f[n], PowerSum(ids, ms, n), n);
    }
  }

  /** Just the k-th coefficient. */
  function Unit(k: nat, threshold: nat): (r: seq<nat>)
    requires k <= threshold
    ensures |r| == threshold + 1
  {
    Zeros(k) + [1] + Zeros(threshold - k)
  }

  lemma UnitSum(k: nat, threshold: nat, xs: seq<int>, ms: seq<int>)
    requires k <= threshold && |xs| == |ms|
    ensures WeightedSum(Unit(k, threshold), xs, ms) == PowerSum(xs, ms, k)
  {
    ZerosSum(Zeros(k) + [1], threshold - k, xs, ms);
    LeadingOne(k, xs, ms);
  }

  lemma LeadingOne(k: nat, xs: seq<int>, ms: seq<int>)
    requires |xs| == |ms|
    ensures WeightedSum(Zeros(k) + [1], xs, ms) == PowerSum(xs, ms, k)
  {
    var f: seq<int> := Zeros(k) + [1];
    ZerosSum([], k, xs, ms);
    assert [] + Zeros(k) == Zeros(k) && f[..|f| - 1] == Zeros(k);
    WeightedSumEmpty(xs, ms);
    WeightedSumSplit(f, xs, ms);
    TimesOne(f[|f| - 1], PowerSum(xs, ms, k));
  }

  lemma TimesOne(a: int, b: int)
    requires a == 1
    ensures a * b == b
  {
  }

  lemma {:induction false} ZerosSum(f: seq<int>, n: nat, xs: seq<int>, ms: seq<int>)
    requires |xs| == |ms|
    ensures WeightedSum(f + Zeros(n), xs, ms) == WeightedSum(f, xs, ms)
  {
    if n == 0 {
      assert f + Zeros(0) == f;
    } else {
      ZerosSum(f, n - 1, xs, ms);
      assert (f + Zeros(n))[..|f| + n - 1] == f + Zeros(n - 1);
      WeightedSumSplit(f + Zeros(n), xs, ms);
      ZeroTimes((f + Zeros(n))[|f| + n - 1], PowerSum(xs, ms, |f| + n - 1));
    }
  }

  lemma ZeroTimes(a: int, b: int)
    requires a == 0
    ensures a * b == 0
  {
  }

  lemma SumOfUnit(p: nat, xs: seq<int>, ms: seq<int>, threshold: nat, k: nat)
    requires p >= 2 && |xs| == |ms| && k <= threshold && AlwaysSums(p, xs, ms, threshold)
    ensures RestoringSum(p, xs, ms, k)
  {
    var unit := Unit(k, threshold);
    assert WeightedSum(unit, xs, ms) % p == unit[0];
    UnitSum(k, threshold, xs, ms);
    CongruentMod(PowerSum(xs, ms, k), p);
    CongruentSymmetric(unit[0], PowerSum(xs, ms, k), p);
  }

  lemma SumOfSums(p: nat, xs: seq<int>, ms: seq<int>, threshold: nat, coeffs: seq<nat>)
    requires p >= 2 && |xs| == |ms| && RestoringSums(p, xs, ms, threshold)
    requires |coeffs| == threshold + 1 && coeffs[0] < p
    ensures WeightedSum(coeffs, xs, ms) % p == coeffs[0]
  {
    forall k | 0 <= k < |coeffs| ensures Congruent(PowerSum(xs, ms, k), if k == 0 then 1 else 0, p) {
      assert RestoringSum(p, xs, ms, k);
    }
    SumsRestore(p, coeffs, xs, ms);
    CongruentSymmetric(WeightedSum(coeffs, xs, ms), coeffs[0], p);
    ResidueUnique(coeffs[0], WeightedSum(coeffs, xs, ms), p);
  }

  lemma AlwaysSumsExactly(p: nat, xs: seq<int>, ms: seq<int>, threshold: nat)
    requires p >= 2 && |xs| == |ms|
    ensures AlwaysSums(p, xs, ms, threshold) <==> RestoringSums(p, xs, ms, threshold)
  {
    if AlwaysSums(p, xs, ms, threshold) {
      forall k: nat | k <= threshold ensures RestoringSum(p, xs, ms, k) {
        SumOfUnit(p, xs, ms, threshold, k);
      }
    }
    if RestoringSums(p, xs, ms, threshold) {
      forall coeffs: seq<nat> | |coeffs| == threshold + 1 && coeffs[0] < p
        ensures WeightedSum(coeffs, xs, ms) % p == coeffs[0]
      {
        SumOfSums(p, xs, ms, threshold, coeffs);
      }
    }
  }

  /**
   * With any number of shards above the threshold, repeated IDs or not: every secret is restored if and only if
   * these sums, which do not depend on any shard, are right.
   */
  lemma RestoresBySums(p: nat, ids: seq<int>, threshold: nat)
    requires p >= 2 && |ids| > threshold
    ensures AlwaysRestores(p, ids, threshold) <==> RestoringSums(p, ids, Coeffs(p, ids), threshold)
  {
    forall coeffs: seq<nat> | |coeffs| == threshold + 1 && coeffs[0] < p
      ensures RestoreSecret(p, Map(ShardAt(p, coeffs), ids), threshold)
           == Ok(WeightedSum(coeffs, ids, Coeffs(p, ids)) % p)
    {
      RestoredValue(p, coeffs, ids, threshold);
    }
    AlwaysSumsExactly(p, ids, Coeffs(p, ids), threshold);
  }

  // ------------------------------------------------------------------ instances

  lemma ZeroPow(n: nat)
    requires n > 0
    ensures Pow(0, n) == 0
  {
  }

  /** Modulo an odd prime the factor of an ID with itself is 0. */
  lemma RepeatedTerm(p: nat, x: int)
    requires p > 2
    ensures LagrangeTerm(p, x)(x) == 0
  {
    ZeroPow(p - 2);
    assert Sub(p, x % p, x % p) == 0;
    assert PrimeInverse(p, 0) == 0;
  }

  /** An ID that occurs twice contributes nothing to the secret. */
  lemma RepeatedCoeff(p: nat, ids: seq<int>, i: nat, j: nat)
    requires p > 2 && i < |ids| && j < |ids| && i != j && ids[i] == ids[j]
    ensures Coeffs(p, ids)[i] == 0
  {
    var others := Without(ids, i);
    var k := if j < i then j else j - 1;
    assert others[k] == ids[i];
    RepeatedTerm(p, ids[i]);
    ZeroProduct(LagrangeTerm(p, ids[i]), others, k);
    CoeffByProduct(p, ids, i);
  }

  lemma ZeroProduct(f: int -> int, s: seq<int>, k: nat)
    requires k < |s| && f(s[k]) == 0
    ensures ProductBy(f, s) == 0
  {
    ProductExtract(f, s, k);
    ZeroFactor(1, ProductBy(f, Without(s, k)), f(s[k]));
  }

  lemma CoeffByProduct(p: nat, ids: seq<int>, i: nat)
    requires p >= 2 && i < |ids|
    ensures Coeffs(p, ids)[i] == ProductBy(LagrangeTerm(p, ids[i]), Without(ids, i)) % p
  {
    AccumulatedProduct(p, LagrangeTerm(p, ids[i]), Without(ids, i));
  }

  lemma AccumulateTwo(op: (int, int) -> int, unit: int, a: int, b: int)
    ensures Accumulate(op, unit, [a, b]) == op(a, b)
  {
    assert [a, b][..1] == [a];
  }

  /** Two shards with one ID restore 0, whatever their values and without any error. */
  lemma SameIdTwice(p: nat, x: int, v: nat, w: nat)
    requires p > 2
    ensures RestoreSecret(p, [Shard(x, v), Shard(x, w)], 1) == Ok(0)
  {
    var shards := [Shard(x, v), Shard(x, w)];
    RepeatedCoeff(p, Ids(shards), 0, 1);
    RepeatedCoeff(p, Ids(shards), 1, 0);
    TermZero(p, shards, 0);
    TermZero(p, shards, 1);
    RestoredSum(p, shards, 1);
    TwoZeros(p, Terms(p, shards));
  }

  lemma TwoZeros(p: nat, ts: seq<int>)
    requires p >= 2 && |ts| == 2 && ts[0] == ts[1] == 0
    ensures Accumulate(AddOp(p), 0, ts) == 0
  {
    assert ts == [0, 0];
    AccumulateTwo(AddOp(p), 0, 0, 0);
  }

  lemma TermZero(p: nat, shards: seq<Shard>, i: nat)
    requires p >= 2 && i < |shards| && Coeffs(p, Ids(shards))[i] == 0
    ensures Terms(p, shards)[i] == 0
  {
    ZeroFactor(1, shards[i].value, Coeffs(p, Ids(shards))[i]);
  }

  lemma RestoredSum(p: nat, shards: seq<Shard>, threshold: nat)
    requires p >= 2 && |shards| > threshold
    ensures RestoreSecret(p, shards, threshold) == Ok(Accumulate(AddOp(p), 0, Terms(p, shards)))
  {
  }

  /** Above one shard more than the threshold, repeated IDs can restore all the same. */
  lemma RepeatedIdsCanRestore(p: nat, ids: seq<int>)
    requires Prime(p) && p > 2 && ids == [1, 1, 2]
    ensures !DistinctMod(p, ids) && AlwaysRestores(p, ids, 0)
  {
    RestoresBySums(p, ids, 0);
    RepeatedCoeff(p, ids, 0, 1);
    RepeatedCoeff(p, ids, 1, 0);
    LoneCoeff(p, ids);
    LoneSums(p, ids, Coeffs(p, ids));
  }

  lemma LoneSums(p: nat, ids: seq<int>, ms: seq<int>)
    requires |ids| == |ms| == 3 && ids[0] == ids[1] && ms[0] == ms[1] == 0 && ms[2] == 1
    ensures !DistinctMod(p, ids) && RestoringSums(p, ids, ms, 0)
  {
    CongruentReflexive(ids[0], p);
    assert Congruent(ids[0], ids[1], p);
    assert ms == [0, 0, 1];
    LoneSum(ids, ms);
    CongruentReflexive(1, p);
    assert RestoringSum(p, ids, ms, 0);
  }

  lemma LoneSum(ids: seq<int>, ms: seq<int>)
    requires |ids| == 3 && ms == [0, 0, 1]
    ensures PowerSum(ids, ms, 0) == 1
  {
    assert ms[..2] == [0, 0] && ms[..2][..1] == [0] && ids[..2][..1] == ids[..1];
    assert PowerSum(ids[..1], ms[..2][..1], 0) == 0;
    assert PowerSum(ids[..2], ms[..2], 0) == 0;
  }

  lemma TwoOverOne(p: nat)
    requires Prime(p) && p > 2
    ensures LagrangeTerm(p, 2)(1) == p - 1
  {
    assert Sub(p, 1 % p, 2 % p) == p - 1;
    MinusOneSquared(p);
    if Divides(p, p - 1) {
      DivisorSize(p, p - 1);
    }
    DivisionUndone(p, 1, p - 1, p - 1);
  }

  lemma MinusOneSquared(p: nat)
    requires p > 2
    ensures Mul(p, p - 1, p - 1) == 1
  {
    assert (p - 1) * (p - 1) - 1 == p * (p - 2);
    DividesIntro(p, p - 2, (p - 1) * (p - 1) - 1);
    CongruentSymmetric((p - 1) * (p - 1), 1, p);
    ResidueUnique(1, (p - 1) * (p - 1), p);
  }

  lemma LoneCoeff(p: nat, ids: seq<int>)
    requires Prime(p) && p > 2 && ids == [1, 1, 2]
    ensures Coeffs(p, ids)[2] == 1
  {
    var f, others := LagrangeTerm(p, ids[2]), Without(ids, 2);
    TwoOverOne(p);
    MinusOneSquared(p);
    CoeffByProduct(p, ids, 2);
    assert others == [1, 1] && others[..1] == [1] && others[..1][..0] == [];
    assert ProductBy(f, others[..1]) == ProductBy(f, []) * f(1);
  }
}
