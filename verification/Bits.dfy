/** Unsigned words as numbers: powers of two, bitwise AND, and the mask of a power of two. */
module Bits {

  function Pow2(k: nat): (r: nat)
    ensures r >= 1
  {
    if k == 0 then 1 else 2 * Pow2(k - 1)
  }

  ghost predicate IsPow2(n: nat) {
    exists k: nat :: n == Pow2(k)
  }

  // Bitwise AND of two unsigned words.
  function And(x: nat, y: nat): (r: nat)
    ensures r <= x && r <= y
  {
    if x == 0 || y == 0 then 0 else 2 * And(x / 2, y / 2) + (if x % 2 == 1 && y % 2 == 1 then 1 else 0)
  }

  lemma {:induction false} AndAllOnes(x: nat, k: nat)
    ensures And(x, Pow2(k) - 1) == x % Pow2(k)
  {
    hide And;
    AndZero(x);
    if k > 0 {
      var p := Pow2(k - 1);
      assert Pow2(k) == 2 * p;
      AndAllOnes(x / 2, k - 1);
      HalfMod(x, p);
      AndOnes(x, p);
    }
  }

  lemma AndZero(x: nat)
    ensures And(x, 0) == 0 && And(0, x) == 0 && x % 1 == 0
  {
  }

  lemma AndOnes(x: nat, p: nat)
    requires p > 0
    ensures And(x, 2 * p - 1) == 2 * And(x / 2, p - 1) + x % 2
  {
    assert (2 * p - 1) / 2 == p - 1 && (2 * p - 1) % 2 == 1;
  }

  lemma HalfMod(x: nat, m: nat)
    requires m > 0
    ensures x % (2 * m) == 2 * ((x / 2) % m) + x % 2
  {
    var q, r := (x / 2) / m, (x / 2) % m;
    assert x / 2 == m * q + r;
    assert (2 * m) * q == 2 * (m * q);
    ModUnique(x, 2 * m, q, 2 * r + x % 2);
  }

  lemma AtLeast(m: nat, d: int)
    requires d >= 1
    ensures m * d >= m
  {
    assert m * d == m + m * (d - 1);
  }

  // The quotient and the remainder are determined by their defining equation.
  lemma ModUnique(x: int, m: int, q: int, r: int)
    requires m > 0 && x == m * q + r && 0 <= r < m
    ensures x / m == q && x % m == r
  {
    var q' := x / m;
    assert x == m * q' + x % m;
    var d := q - q';
    assert m * d == m * q - m * q';
    if d >= 1 {
      AtLeast(m, d);
    }
  }

  // Bitwise OR of two unsigned words.
  function Or(x: nat, y: nat): nat {
    if x == 0 && y == 0 then 0 else 2 * Or(x / 2, y / 2) + (if x % 2 == 1 || y % 2 == 1 then 1 else 0)
  }

  lemma {:induction false} OrZero(x: nat)
    ensures Or(x, 0) == x
  {
    if x > 0 { OrZero(x / 2); }
  }

  // OR of two words without a common bit.
  lemma {:induction false} OrDisjoint(x: nat, k: nat, y: nat)
    requires y < Pow2(k)
    ensures Or(x * Pow2(k), y) == x * Pow2(k) + y
  {
    if k == 0 {
      OrZero(x);
    } else {
      var half := x * Pow2(k - 1);
      assert x * Pow2(k) == 2 * half;
      OrDisjoint(x, k - 1, y / 2);
      OrStep(2 * half, y);
    }
  }

  lemma OrStep(x: nat, y: nat)
    ensures Or(x, y) == 2 * Or(x / 2, y / 2) + (if x % 2 == 1 || y % 2 == 1 then 1 else 0)
  {
  }

  // Masking with size - 1 is the remainder by a size that is a power of two.
  lemma MaskIsMod(x: nat, size: nat)
    requires IsPow2(size)
    ensures size > 0 && And(x, size - 1) == x % size
  {
    var k: nat :| size == Pow2(k);
    AndAllOnes(x, k);
  }

  // The slot of a ticket in a ring: ticket & (size - 1).
  function Slot(ticket: nat, size: nat): (i: nat)
    requires size > 0
    ensures i < size
  {
    And(ticket, size - 1)
  }

  lemma SlotMod(ticket: nat, size: nat)
    requires IsPow2(size)
    ensures size > 0 && Slot(ticket, size) == ticket % size
  {
    MaskIsMod(ticket, size);
  }

  // Less than one lap apart, two indices fall into different slots.
  lemma SlotsDiffer(i: nat, j: nat, size: nat)
    requires 0 < size && i < j < i + size
    ensures i % size != j % size
  {
    if i % size == j % size {
      var d := j / size - i / size;
      assert size * d == size * (j / size) - size * (i / size);
      assert j - i == size * d;
      if d >= 1 { AtLeast(size, d); }
    }
  }

  lemma SmallMod(i: nat, n: nat)
    requires i < n
    ensures i % n == i
  {
    ModUnique(i, n, 0, i);
  }

  lemma NextLap(k: nat, size: nat)
    requires size > 0
    ensures (k + size) % size == k % size
  {
    assert k == size * (k / size) + k % size;
    assert size * (k / size + 1) == size * (k / size) + size;
    ModUnique(k + size, size, k / size + 1, k % size);
  }
}
