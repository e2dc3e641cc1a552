/** Sizes of finite sets: what counting threads and table cells needs. */
module Finite {

  function Indicator(b: bool): nat {
    if b then 1 else 0
  }

  lemma SubsetSize<T>(a: set<T>, b: set<T>)
    requires a <= b
    ensures |a| <= |b|
  {
    assert b == a + (b - a);
  }

  lemma FullSubset<T>(a: set<T>, b: set<T>)
    requires a <= b && |a| == |b|
    ensures a == b
  {
    assert b == a + (b - a);
  }

  // The numbers below n.
  ghost function Range(n: nat): (r: set<nat>)
    ensures |r| == n && forall i: nat :: i in r <==> i < n
  {
    if n == 0 then {} else Range(n - 1) + {n - 1}
  }

  // Two sets that differ at most in x.
  lemma SizeWithout<T>(a: set<T>, b: set<T>, x: T)
    requires a - {x} == b - {x}
    ensures |b| == |a| - Indicator(x in a) + Indicator(x in b)
  {
    assert |a| == |a - {x}| + Indicator(x in a) by {
      if x in a { assert a == (a - {x}) + {x}; } else { assert a == a - {x}; }
    }
    assert |b| == |b - {x}| + Indicator(x in b) by {
      if x in b { assert b == (b - {x}) + {x}; } else { assert b == b - {x}; }
    }
  }

  // No element twice.
  ghost predicate NoDup<T>(s: seq<T>) {
    forall i, j | 0 <= i < j < |s| :: s[i] != s[j]
  }

  // Sums over a sequence, and what changing one element does to them.
  function Sum<T>(s: seq<T>, f: T -> nat): nat {
    if s == [] then 0 else f(s[0]) + Sum(s[1..], f)
  }

  lemma {:induction false} SumUpdate<T>(s: seq<T>, i: nat, x: T, f: T -> nat)
    requires i < |s|
    ensures Sum(s[i := x], f) == Sum(s, f) - f(s[i]) + f(x)
  {
    if i > 0 {
      SumUpdate(s[1..], i - 1, x, f);
      assert s[i := x][1..] == s[1..][i - 1 := x];
    } else {
      assert s[i := x][1..] == s[1..];
    }
  }

  lemma {:induction false} SumZero<T>(s: seq<T>, f: T -> nat)
    requires forall i | 0 <= i < |s| :: f(s[i]) == 0
    ensures Sum(s, f) == 0
  {
    if s != [] { SumZero(s[1..], f); }
  }
}
