/** Folds over ranges (`sum` and `product`) and facts about sequences without repetition. */
module Ranges {
  import opened Numbers

  /** Accumulates a range from its first element on; the unit is returned for an empty range only. */
  function Accumulate<T>(op: (T, T) -> T, unit: T, s: seq<T>): T {
    if |s| == 0 then unit
    else if |s| == 1 then s[0]
    else op(Accumulate(op, unit, s[..|s| - 1]), s[|s| - 1])
  }

  function Map<T, U>(f: T -> U, s: seq<T>): (r: seq<U>)
    ensures |r| == |s| && forall i :: 0 <= i < |s| ==> r[i] == f(s[i])
  {
    seq(|s|, i requires 0 <= i < |s| => f(s[i]))
  }

  /** The sequence without its element at index i. */
  function Without<T>(s: seq<T>, i: nat): (r: seq<T>)
    requires i < |s|
    ensures |r| == |s| - 1
    ensures forall k :: 0 <= k < |r| ==> r[k] == s[if k < i then k else k + 1]
  {
    s[..i] + s[i + 1..]
  }

  lemma WithoutPrefix<T>(s: seq<T>, i: nat)
    requires i < |s| - 1
    ensures Without(s, i)[..|s| - 2] == Without(s[..|s| - 1], i)
    ensures Without(s, i)[|s| - 2] == s[|s| - 1]
  {
  }

  lemma WithoutMultiset<T>(s: seq<T>, i: nat)
    requires i < |s|
    ensures multiset(Without(s, i)) == multiset(s) - multiset{s[i]}
  {
    assert s == s[..i] + [s[i]] + s[i + 1..];
  }

  // ------------------------------------------------------ products of integers

  /** The product of f(x) for x in s. */
  function ProductBy(f: int -> int, s: seq<int>): int {
    if |s| == 0 then 1 else ProductBy(f, s[..|s| - 1]) * f(s[|s| - 1])
  }

  function Identity(x: int): int { x }

  lemma {:induction false} ProductExtract(f: int -> int, s: seq<int>, i: nat)
    requires i < |s|
    ensures ProductBy(f, s) == ProductBy(f, Without(s, i)) * f(s[i])
  {
    var n := |s| - 1;
    if i == n {
      assert Without(s, i) == s[..n];
    } else {
      ProductExtract(f, s[..n], i);
      WithoutPrefix(s, i);
      MulSwap(ProductBy(f, Without(s[..n], i)), f(s[i]), f(s[n]));
    }
  }

  /** A product does not depend on the order of its factors. */
  lemma {:induction false} ProductPermuted(f: int -> int, s: seq<int>, t: seq<int>)
    requires multiset(s) == multiset(t)
    ensures ProductBy(f, s) == ProductBy(f, t)
  {
    if |s| == 0 {
      assert |multiset(t)| == 0;
    } else {
      var x := s[|s| - 1];
      assert x in multiset(t);
      var i :| 0 <= i < |t| && t[i] == x;
      assert s == s[..|s| - 1] + [x];
      WithoutMultiset(t, i);
      ProductPermuted(f, s[..|s| - 1], Without(t, i));
      ProductExtract(f, t, i);
    }
  }

  // -------------------------------------------------------------- no repetition

  predicate Distinct<T(==)>(s: seq<T>) {
    forall i, j :: 0 <= i < j < |s| ==> s[i] != s[j]
  }

  function Elements<T>(s: seq<T>): set<T> {
    set x | x in s
  }

  lemma ElementsPush<T>(s: seq<T>, x: T)
    ensures Elements(s + [x]) == Elements(s) + {x}
  {
  }

  /** A sequence is free of repetition exactly when its set of elements is as large as the sequence. */
  lemma {:induction false} DistinctBySize<T>(s: seq<T>)
    ensures |Elements(s)| <= |s|
    ensures |Elements(s)| == |s| <==> Distinct(s)
  {
    if |s| == 0 {
    } else {
      var t, x := s[..|s| - 1], s[|s| - 1];
      assert s == t + [x];
      ElementsPush(t, x);
      DistinctBySize(t);
      if x in t {
        var i :| 0 <= i < |t| && t[i] == x;
        assert s[i] == s[|s| - 1];
        assert Elements(s) == Elements(t);
      } else {
        assert Distinct(s) <==> Distinct(t);
      }
    }
  }

  lemma {:induction false} DistinctMultiplicity<T>(s: seq<T>, x: T)
    requires Distinct(s)
    ensures multiset(s)[x] == if x in s then 1 else 0
  {
    if |s| == 0 {
    } else {
      var t := s[..|s| - 1];
      assert s == t + [s[|s| - 1]];
      DistinctMultiplicity(t, x);
    }
  }

  lemma SameElements<T>(s: seq<T>, t: seq<T>)
    requires Distinct(s) && Distinct(t) && Elements(s) == Elements(t)
    ensures multiset(s) == multiset(t)
  {
    forall x ensures multiset(s)[x] == multiset(t)[x] {
      DistinctMultiplicity(s, x);
      DistinctMultiplicity(t, x);
      assert x in s <==> x in Elements(s);
      assert x in t <==> x in Elements(t);
    }
  }

  lemma PermutationDistinct<T>(s: seq<T>, t: seq<T>)
    requires multiset(s) == multiset(t) && Distinct(s)
    ensures Distinct(t) && Elements(s) == Elements(t)
  {
    forall x ensures x in Elements(s) <==> x in Elements(t) {
      assert x in s <==> x in multiset(s);
      assert x in t <==> x in multiset(t);
    }
    assert Elements(s) == Elements(t);
    DistinctBySize(s);
    DistinctBySize(t);
    assert |multiset(s)| == |multiset(t)|;
  }

  function UpTo(n: nat): (s: seq<int>)
    ensures |s| == n && forall i :: 0 <= i < n ==> s[i] == i + 1
  {
    seq(n, i => i + 1)
  }

  /** n distinct values in 1..n are a permutation of 1..n. */
  lemma Pigeonhole(n: nat, s: seq<int>)
    requires |s| == n && Distinct(s) && forall x :: x in s ==> 1 <= x <= n
    ensures multiset(s) == multiset(UpTo(n))
  {
    var all := UpTo(n);
    DistinctBySize(s);
    DistinctBySize(all);
    forall x | x in Elements(s) ensures x in Elements(all) {
      assert all[x - 1] == x;
    }
    SubsetSameSize(Elements(s), Elements(all));
    SameElements(s, all);
  }

  lemma SubsetSize<T>(a: set<T>, b: set<T>)
    requires a <= b
    ensures |a| <= |b|
  {
    assert |b - a| == |b| - |a|;
  }

  lemma SubsetSameSize<T>(a: set<T>, b: set<T>)
    requires a <= b && |a| == |b|
    ensures a == b
  {
    assert |b - a| == |b| - |a|;
    assert b == a + (b - a);
  }
}
