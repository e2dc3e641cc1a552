/** The high word of a 64-bit product, directly and by 32-bit limbs. */
module MultiplyHigh {
  import opened Bits

  const B32: nat := 0x1_0000_0000
  const B64: nat := 0x1_0000_0000_0000_0000

  // (x * y) >> 64 with a 128-bit product
  function MulHigh(x: nat, y: nat): nat {
    x * y / B64
  }

  // Operations on uint64_t.
  function Mul64(x: nat, y: nat): nat { (x * y) % B64 }
  function Add64(x: nat, y: nat): nat { (x + y) % B64 }

  // The portable version: four products of 32-bit halves and a carry.
  function MulHighLimbs(x: nat, y: nat): nat {
    var (xLo, xHi) := (x % B32, x / B32);
    var (yLo, yHi) := (y % B32, y / B32);
    var prodHi := Mul64(xHi, yHi);
    var prodLo := Mul64(xLo, yLo);
    var mid1 := Mul64(xHi, yLo);
    var mid2 := Mul64(xLo, yHi);
    var carry := Add64(Add64(mid1 % B32, mid2 % B32), prodLo / B32) / B32;
    Add64(Add64(Add64(prodHi, mid1 / B32), mid2 / B32), carry)
  }

  lemma MulMono(a: nat, b: nat, c: nat, d: nat)
    requires a <= c && b <= d
    ensures a * b <= c * d
  {
    assert a * b <= a * d by { assert a * (d - b) >= 0; }
    assert a * d <= c * d by { assert (c - a) * d >= 0; }
  }

  lemma HalfProduct(a: nat, b: nat)
    requires a < B32 && b < B32
    ensures a * b <= (B32 - 1) * (B32 - 1) && Mul64(a, b) == a * b
  {
    MulMono(a, b, B32 - 1, B32 - 1);
  }

  lemma Expand(xh: int, xl: int, yh: int, yl: int, b: int)
    ensures (xh * b + xl) * (yh * b + yl) == xh * yh * (b * b) + (xh * yl + xl * yh) * b + xl * yl
  {
    calc {
      (xh * b + xl) * (yh * b + yl);
      (xh * b) * (yh * b) + (xh * b) * yl + xl * (yh * b) + xl * yl;
      { assert (xh * b) * (yh * b) == xh * yh * (b * b); }
      { assert (xh * b) * yl == (xh * yl) * b; }
      { assert xl * (yh * b) == (xl * yh) * b; }
      xh * yh * (b * b) + (xh * yl) * b + (xl * yh) * b + xl * yl;
    }
  }

  // The two versions agree on all 64-bit words, and no intermediate sum wraps around.
  lemma LimbsAgree(x: nat, y: nat)
    requires x < B64 && y < B64
    ensures MulHighLimbs(x, y) == MulHigh(x, y)
  {
    var xl, xh, yl, yh := x % B32, x / B32, y % B32, y / B32;
    HalfProduct(xh, yh);
    HalfProduct(xl, yl);
    HalfProduct(xh, yl);
    HalfProduct(xl, yh);
    var hi, lo, m1, m2 := xh * yh, xl * yl, xh * yl, xl * yh;
    Expand(xh, xl, yh, yl, B32);
    assert x == xh * B32 + xl && y == yh * B32 + yl;
    assert x * y == hi * (B32 * B32) + (m1 + m2) * B32 + lo;
    LimbSum(x * y, hi, m1, m2, lo);
  }

  lemma LimbSum(p: nat, hi: nat, m1: nat, m2: nat, lo: nat)
    requires p == hi * (B32 * B32) + (m1 + m2) * B32 + lo
    requires hi <= (B32 - 1) * (B32 - 1) && m1 <= (B32 - 1) * (B32 - 1)
    requires m2 <= (B32 - 1) * (B32 - 1) && lo <= (B32 - 1) * (B32 - 1)
    ensures var carry := Add64(Add64(m1 % B32, m2 % B32), lo / B32) / B32;
      Add64(Add64(Add64(hi, m1 / B32), m2 / B32), carry) == p / B64
  {
    hide Add64;
    var h1, l1, h2, l2, h3, l3 := m1 / B32, m1 % B32, m2 / B32, m2 % B32, lo / B32, lo % B32;
    var mid := l1 + l2 + h3;
    var c, r := mid / B32, mid % B32;
    assert h1 < B32 && h2 < B32 && h3 < B32 && c < 3;
    NoWrap(l1, l2);
    NoWrap(l1 + l2, h3);
    NoWrap(hi, h1);
    NoWrap(hi + h1, h2);
    NoWrap(hi + h1 + h2, c);
    Columns(p, hi, h1, l1, h2, l2, h3, l3, c, r);
    ModUnique(p, B64, hi + h1 + h2 + c, r * B32 + l3);
  }

  lemma NoWrap(a: nat, b: nat)
    requires a + b < B64
    ensures Add64(a, b) == a + b
  {
  }

  lemma Columns(p: nat, hi: nat, h1: nat, l1: nat, h2: nat, l2: nat, h3: nat, l3: nat, carry: nat, rest: nat)
    requires p == hi * (B32 * B32) + (h1 * B32 + l1 + h2 * B32 + l2) * B32 + h3 * B32 + l3
    requires l1 + l2 + h3 == carry * B32 + rest
    ensures p == B64 * (hi + h1 + h2 + carry) + (rest * B32 + l3)
  {
  }

  // Lemire's reduction maps every word into the range below n.
  lemma InRange(x: nat, n: nat)
    requires x < B64 && n > 0
    ensures MulHigh(x, n) < n
  {
    MulMono(x, n, B64 - 1, n);
    assert (B64 - 1) * n == B64 * n - n;
  }
}
