/** Divisibility, congruence, greatest common divisors and primes over the unbounded integers. */
module Numbers {

  /** m divides d. Nothing but 0 is divisible by 0, so congruence modulo 0 is equality. */
  ghost predicate Divides(m: int, d: int) {
    exists k :: d == Multiple(m, k)
  }

  function Multiple(m: int, k: int): int { m * k }

  lemma DividesRemainder(m: int, d: int)
    requires m != 0
    ensures Divides(m, d) <==> d % m == 0
  {
    if d % m == 0 {
      assert d == Multiple(m, d / m);
    }
    if Divides(m, d) {
      var k := DividesElim(m, d);
      assert m * (k - d / m) == d % m;
      SmallMultiple(m, k - d / m, d % m);
    }
  }

  ghost predicate Congruent(a: int, b: int, m: int) {
    Divides(m, a - b)
  }

  /** The only multiple of m smaller than m in size is 0. */
  lemma SmallMultiple(m: int, k: int, r: int)
    requires r == m * k && -Abs(m) < r < Abs(m)
    ensures r == 0
  {
    var n: int, l: int := Abs(m), if m < 0 then -k else k;
    assert r == n * l;
    MulGrows(n, if l < 0 then -l else l);
  }

  lemma MulGrows(n: nat, l: nat)
    ensures l == 0 || n <= n * l
  {
    if l > 0 {
      assert n * l == n + n * (l - 1);
    }
  }

  lemma DividesIntro(m: int, k: int, d: int)
    requires d == m * k
    ensures Divides(m, d)
  {
    assert d == Multiple(m, k);
  }

  lemma DividesElim(m: int, d: int) returns (k: int)
    requires Divides(m, d)
    ensures d == m * k
  {
    k :| d == Multiple(m, k);
  }

  /** Divisibility is closed under integer linear combinations. */
  lemma DividesLinear(m: int, a: int, b: int, u: int, v: int)
    requires Divides(m, a) && Divides(m, b)
    ensures Divides(m, u * a + v * b)
  {
    var i := DividesElim(m, a);
    var j := DividesElim(m, b);
    assert u * (m * i) + v * (m * j) == m * (u * i + v * j);
    DividesIntro(m, u * i + v * j, u * a + v * b);
  }

  lemma CongruentTransitive(a: int, b: int, c: int, m: int)
    requires Congruent(a, b, m) && Congruent(b, c, m)
    ensures Congruent(a, c, m)
  {
    DividesLinear(m, a - b, b - c, 1, 1);
  }

  lemma CongruentSymmetric(a: int, b: int, m: int)
    requires Congruent(a, b, m)
    ensures Congruent(b, a, m)
  {
    DividesLinear(m, a - b, a - b, -1, 0);
  }

  lemma CongruentAdd(a: int, b: int, c: int, d: int, m: int)
    requires Congruent(a, b, m) && Congruent(c, d, m)
    ensures Congruent(a + c, b + d, m)
  {
    DividesLinear(m, a - b, c - d, 1, 1);
  }

  lemma CongruentMul(a: int, b: int, c: int, d: int, m: int)
    requires Congruent(a, b, m) && Congruent(c, d, m)
    ensures Congruent(a * c, b * d, m)
  {
    DividesLinear(m, a - b, c - d, c, b);
    assert c * (a - b) + b * (c - d) == a * c - b * d;
  }

  lemma CongruentMod(a: int, m: int)
    requires m > 0
    ensures Congruent(a % m, a, m)
  {
    assert a % m - a == m * -(a / m);
    DividesIntro(m, -(a / m), a % m - a);
  }

  /** A value in [0, m) is the remainder of everything congruent to it. */
  lemma ResidueUnique(r: int, a: int, m: int)
    requires 0 <= r < m && Congruent(r, a, m)
    ensures r == a % m
  {
    CongruentMod(a, m);
    DividesLinear(m, r - a, a % m - a, 1, -1);
    var k := DividesElim(m, r - a % m);
    SmallMultiple(m, k, r - a % m);
  }

  lemma ModsAgree(a: int, b: int, m: int)
    requires m > 0
    ensures Congruent(a, b, m) <==> a % m == b % m
  {
    CongruentMod(a, m);
    CongruentMod(b, m);
    if Congruent(a, b, m) {
      CongruentTransitive(a % m, a, b, m);
      ResidueUnique(a % m, b, m);
    } else if a % m == b % m {
      DividesLinear(m, b % m - b, a % m - a, 1, -1);
      assert false;
    }
  }

  lemma MulAssociative(a: int, b: int, c: int)
    ensures (a * b) * c == a * (b * c)
  {
  }

  lemma MulSwap(a: int, b: int, c: int)
    ensures (a * b) * c == (a * c) * b
  {
  }

  lemma MulDistributes(a: int, b: int, c: int)
    ensures a * (b + c) == a * b + a * c && a * (b - c) == a * b - a * c
  {
  }

  lemma CancelFactor(k: int, a: int, b: int)
    requires k != 0 && k * a == k * b
    ensures a == b
  {
    MulDistributes(k, a, b);
    if a != b {
      NonZeroProduct(k, a - b);
    }
  }

  lemma NonZeroProduct(a: int, b: int)
    requires a != 0 && b != 0
    ensures a * b != 0
  {
  }

  lemma CongruentReflexive(a: int, m: int)
    ensures Congruent(a, a, m)
  {
    DividesIntro(m, 0, 0);
  }

  /** Multiplying both sides of a congruence by the same factor. */
  lemma CongruentScale(c: int, a: int, b: int, m: int)
    requires Congruent(a, b, m)
    ensures Congruent(c * a, c * b, m)
  {
    DividesLinear(m, a - b, a - b, c, 0);
    MulDistributes(c, a, b);
  }

  // ---------------------------------------------------------------- gcd

  /** Euclid's greatest common divisor of two non-negative integers. */
  function Gcd(a: nat, b: nat): nat
    decreases b
  {
    if b == 0 then a else Gcd(b, a % b)
  }

  function Abs(x: int): int { if x < 0 then -x else x }

  /** Gcd is a common divisor, and an integer combination of its arguments. */
  lemma {:induction false} Bezout(a: nat, b: nat) returns (x: int, y: int)
    ensures x * a + y * b == Gcd(a, b)
    ensures Divides(Gcd(a, b), a) && Divides(Gcd(a, b), b)
    decreases b
  {
    if b == 0 {
      x, y := 1, 0;
      DividesIntro(a, 1, a);
      DividesIntro(a, 0, 0);
    } else {
      var x', y' := Bezout(b, a % b);
      x, y := y', x' - (a / b) * y';
      BezoutRound(a, b, a / b, a % b, x', y', Gcd(b, a % b));
    }
  }

  lemma BezoutRound(a: int, b: int, q: int, r: int, x: int, y: int, g: int)
    requires a == b * q + r && x * b + y * r == g && Divides(g, b) && Divides(g, r)
    ensures y * a + (x - q * y) * b == g && Divides(g, a)
  {
    MulDistributes(y, b * q, r);
    MulSwap(y, b, q);
    MulSwap(q, y, b);
    DividesLinear(g, b, r, q, 1);
  }

  /** Gcd is the greatest: every common divisor divides it. */
  lemma GcdGreatest(a: nat, b: nat, d: int)
    requires Divides(d, a) && Divides(d, b)
    ensures Divides(d, Gcd(a, b))
  {
    var x, y := Bezout(a, b);
    DividesLinear(d, a, b, x, y);
  }

  // ------------------------------------------------------------- primes

  ghost predicate Prime(p: int) {
    2 <= p && forall d :: 2 <= d < p ==> !Divides(d, p)
  }

  /** The moduli whose residues form an integral domain: the primes, and 0 (the integers themselves). */
  ghost predicate Domain(m: int) {
    m == 0 || Prime(m)
  }

  lemma PrimeCoprime(p: int, a: nat)
    requires Prime(p) && !Divides(p, a)
    ensures Gcd(a, p) == 1
  {
    var x, y := Bezout(a, p);
    DividesRemainder(p, 0);
    DivisorSize(Gcd(a, p), p);
  }

  lemma DivisorSize(d: nat, n: nat)
    requires Divides(d, n) && n > 0
    ensures 1 <= d <= n
  {
    var k := DividesElim(d, n);
    MulGrows(d, if k < 0 then 0 else k);
  }

  /** Cancellation in Z/mZ; for a prime m this is Euclid's lemma. */
  lemma DomainCancel(m: int, a: int, b: int)
    requires Domain(m) && Divides(m, a * b) && !Divides(m, a)
    ensures Divides(m, b)
  {
    if m != 0 {
      PrimeCancel(m, a, b);
    } else {
      DividesIntro(0, 0, 0);
      var k := DividesElim(0, a * b);
      assert a != 0 && a * b == 0;
      assert b == 0;
    }
  }

  lemma PrimeCancel(p: int, a: int, b: int)
    requires Prime(p) && Divides(p, a * b) && !Divides(p, a)
    ensures Divides(p, b)
  {
    CongruentMod(a, p);
    CongruentScale(b, a % p, a, p);
    CongruentZero(p, b * (a % p), b * a);
    CongruentZero(p, a % p, a);
    PrimeCoprime(p, a % p);
    CoprimeCancel(p, a % p, b);
  }

  lemma CongruentZero(m: int, a: int, b: int)
    requires Congruent(a, b, m)
    ensures Divides(m, a) <==> Divides(m, b)
  {
    if Divides(m, b) {
      DividesLinear(m, a - b, b, 1, 1);
    }
    if Divides(m, a) {
      DividesLinear(m, a - b, a, -1, 1);
    }
  }

  /** A divisor coprime to one factor divides the other. */
  lemma CoprimeCancel(p: nat, r: nat, b: int)
    requires Gcd(r, p) == 1 && Divides(p, b * r)
    ensures Divides(p, b)
  {
    var x, y := Bezout(r, p);
    DividesIntro(p, 1, p);
    DividesLinear(p, b * r, p, x, y * b);
    ScaledBezout(x, y, r, p, b);
  }

  lemma ScaledBezout(x: int, y: int, r: int, p: int, b: int)
    requires x * r + y * p == 1
    ensures x * (b * r) + (y * b) * p == b
  {
    assert x * (b * r) + (y * b) * p == (x * r + y * p) * b;
  }
}
