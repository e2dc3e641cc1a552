/** Quadratic probing in a table whose size is a power of two: steps of +1, +2, +3, ... */
module Probing {
  import opened Bits
  import opened Finite

  function Triangle(n: nat): (r: nat)
    ensures 2 * r == n * (n + 1)
  {
    if n == 0 then 0 else Triangle(n - 1) + n
  }

  // The cell looked at after n steps.
  function Probe(home: nat, n: nat, capacity: nat): (r: nat)
    requires capacity > 0
    ensures r < capacity
  {
    (home + Triangle(n)) % capacity
  }

  // NextIndex: one more step, of length n + 1.
  lemma NextProbe(home: nat, n: nat, capacity: nat)
    requires capacity > 0
    ensures (Probe(home, n, capacity) + n + 1) % capacity == Probe(home, n + 1, capacity)
  {
    var x := home + Triangle(n);
    assert x == capacity * (x / capacity) + x % capacity;
    var y := x % capacity + n + 1;
    assert y == capacity * (y / capacity) + y % capacity;
    assert capacity * (x / capacity + y / capacity) == capacity * (x / capacity) + capacity * (y / capacity);
    ModUnique(x + n + 1, capacity, x / capacity + y / capacity, y % capacity);
  }

  // An odd factor has no part in a divisibility by a power of two.
  lemma {:induction false} OddFactor(a: nat, b: nat, k: nat)
    requires a % 2 == 1 && (a * b) % Pow2(k) == 0
    ensures b % Pow2(k) == 0
  {
    if k > 0 {
      var p, c := Pow2(k - 1), b / 2;
      HalfMod(a * b, p);
      OddTimes(a, b);
      assert b == 2 * c && a * b == 2 * (a * c);
      OddFactor(a, c, k - 1);
      HalfMod(b, p);
    }
  }

  lemma OddTimes(a: nat, b: nat)
    requires a % 2 == 1
    ensures (a * b) % 2 == b % 2
  {
    var i := a / 2;
    assert a * b == 2 * (i * b) + b;
  }

  // A product of two small numbers, one of them odd, is no multiple of a power of two.
  lemma NoMultiple(a: nat, b: nat, k: nat)
    requires 0 < a < Pow2(k) && 0 < b < Pow2(k) && a % 2 == 1
    ensures (a * b) % Pow2(k) != 0
  {
    if (a * b) % Pow2(k) == 0 {
      OddFactor(a, b, k);
    }
    SmallMod(b, Pow2(k));
  }

  lemma SameRemainder(x: nat, y: nat, c: nat) returns (d: int)
    requires c > 0 && x % c == y % c
    ensures y - x == c * d
  {
    d := y / c - x / c;
    assert c * d == c * (y / c) - c * (x / c);
  }

  function Gap(m: nat, n: nat): nat
    requires m < n
  {
    (n - m) * (n + m + 1)
  }

  lemma {:induction false} TriangleGap(m: nat, n: nat)
    requires m < n
    ensures 2 * (Triangle(n) - Triangle(m)) == Gap(m, n)
    decreases n
  {
    assert Triangle(n) == Triangle(n - 1) + n;
    if m < n - 1 {
      TriangleGap(m, n - 1);
      GapStep(m, n);
    }
  }

  lemma GapStep(m: nat, n: nat)
    requires m < n - 1
    ensures Gap(m, n) == Gap(m, n - 1) + 2 * n
  {
    var a, b := n - 1 - m, n + m;
    assert (a + 1) * (b + 1) == a * b + a + b + 1;
  }

  lemma SameProbe(home: nat, m: nat, n: nat, capacity: nat)
    requires capacity > 0 && Probe(home, m, capacity) == Probe(home, n, capacity) && m < n
    ensures Gap(m, n) % (2 * capacity) == 0
  {
    hide Gap, Triangle;
    var d := SameRemainder(home + Triangle(m), home + Triangle(n), capacity);
    TriangleGap(m, n);
    Doubled(capacity, d);
    ModUnique(Gap(m, n), 2 * capacity, d, 0);
  }

  lemma Doubled(c: int, d: int)
    ensures 2 * (c * d) == (2 * c) * d
  {
  }

  lemma EitherOdd(a: nat, b: nat, k: nat)
    requires 0 < a < Pow2(k) && 0 < b < Pow2(k) && (a % 2 == 1 || b % 2 == 1)
    ensures (a * b) % Pow2(k) != 0
  {
    if a % 2 == 1 {
      NoMultiple(a, b, k);
    } else {
      NoMultiple(b, a, k);
      assert a * b == b * a;
    }
  }

  lemma OneIsOdd(m: nat, n: nat)
    requires m < n
    ensures (n - m) % 2 == 1 || (n + m + 1) % 2 == 1
  {
    assert (n - m) + (n + m + 1) == 2 * n + 1;
  }

  lemma GapIsNoMultiple(m: nat, n: nat, k: nat)
    requires m < n < Pow2(k)
    ensures Gap(m, n) % Pow2(k + 1) != 0
  {
    assert Pow2(k + 1) == 2 * Pow2(k);
    OneIsOdd(m, n);
    EitherOdd(n - m, n + m + 1, k + 1);
  }

  // Within the first `capacity` steps no cell is looked at twice ...
  lemma ProbesDiffer(home: nat, m: nat, n: nat, k: nat)
    requires m < n < Pow2(k)
    ensures Probe(home, m, Pow2(k)) != Probe(home, n, Pow2(k))
  {
    hide Probe, Gap;
    if Probe(home, m, Pow2(k)) == Probe(home, n, Pow2(k)) {
      SameProbe(home, m, n, Pow2(k));
    }
    GapIsNoMultiple(m, n, k);
  }

  ghost function Visited(home: nat, n: nat, capacity: nat): (cells: set<nat>)
    requires capacity > 0
    ensures forall i <- cells :: i < capacity
  {
    if n == 0 then {} else Visited(home, n - 1, capacity) + {Probe(home, n - 1, capacity)}
  }

  lemma {:induction false} VisitedIs(home: nat, n: nat, capacity: nat, i: nat)
    requires capacity > 0
    ensures i in Visited(home, n, capacity) <==> exists m: nat :: m < n && Probe(home, m, capacity) == i
  {
    if n > 0 { VisitedIs(home, n - 1, capacity, i); }
  }

  lemma {:induction false} VisitedSize(home: nat, n: nat, k: nat)
    requires n <= Pow2(k)
    ensures |Visited(home, n, Pow2(k))| == n
  {
    if n > 0 {
      VisitedSize(home, n - 1, k);
      VisitedIs(home, n - 1, Pow2(k), Probe(home, n - 1, Pow2(k)));
      forall m: nat | m < n - 1 ensures Probe(home, m, Pow2(k)) != Probe(home, n - 1, Pow2(k)) {
        ProbesDiffer(home, m, n - 1, k);
      }
    }
  }

  // ... so every cell is looked at.
  lemma ProbesCover(home: nat, k: nat, i: nat)
    requires i < Pow2(k)
    ensures exists n: nat :: n < Pow2(k) && Probe(home, n, Pow2(k)) == i
  {
    var cells, all := Visited(home, Pow2(k), Pow2(k)), Range(Pow2(k));
    VisitedSize(home, Pow2(k), k);
    VisitedIs(home, Pow2(k), Pow2(k), i);
    FullSubset(cells, all);
  }
}
