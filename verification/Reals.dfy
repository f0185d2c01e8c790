/** Real arithmetic as Go's math package and int conversion define it, without rounding. */
module Reals {

  function Max(a: real, b: real): real { if a >= b then a else b }

  function Min(a: real, b: real): real { if a <= b then a else b }

  function Abs(a: real): real { if a < 0.0 then -a else a }

  /** int(x): toward zero. */
  function Trunc(x: real): int {
    if x >= 0.0 then x.Floor else -((-x).Floor)
  }

  /** math.Mod: the remainder takes the sign of x. */
  function Mod(x: real, y: real): real
    requires y > 0.0
  {
    x - Trunc(x / y) as real * y
  }

  /** math.Round: half away from zero. */
  function Round(x: real): int {
    if x >= 0.0 then (x + 0.5).Floor else -((0.5 - x).Floor)
  }

  function Square(x: real): real { x * x }

  function Pow(x: real, n: nat): real {
    if n == 0 then 1.0 else x * Pow(x, n - 1)
  }

  lemma {:induction false} PowMonotone(x: real, y: real, n: nat)
    requires 0.0 <= x <= y
    ensures 0.0 <= Pow(x, n) <= Pow(y, n)
  {
    if n > 0 {
      PowMonotone(x, y, n - 1);
      ProductMonotone(x, y, Pow(x, n - 1), Pow(y, n - 1));
    }
  }

  lemma {:induction false} PowIncreases(x: real, y: real, n: nat)
    requires 0.0 <= x < y && n >= 1
    ensures Pow(x, n) < Pow(y, n)
  {
    if n > 1 {
      PowIncreases(x, y, n - 1);
      PowMonotone(x, x, n - 1);
      ProductIncreases(x, y, Pow(x, n - 1), Pow(y, n - 1));
    } else {
      assert Pow(x, 1) == x * Pow(x, 0) && Pow(y, 1) == y * Pow(y, 0);
    }
  }

  lemma {:induction false} PowOrder(x: real, y: real, n: nat)
    requires 0.0 <= x && 0.0 <= y && n >= 1
    ensures Pow(x, n) <= Pow(y, n) ==> x <= y
    ensures Pow(x, n) < Pow(y, n) ==> x < y
  {
    if y < x { PowIncreases(y, x, n); }
  }

  lemma {:induction false} PowProduct(x: real, y: real, n: nat)
    ensures Pow(x * y, n) == Pow(x, n) * Pow(y, n)
  {
    if n > 0 {
      PowProduct(x, y, n - 1);
      Exchange(x, y, Pow(x, n - 1), Pow(y, n - 1));
    }
  }

  lemma Exchange(a: real, b: real, c: real, d: real)
    ensures (a * b) * (c * d) == (a * c) * (b * d)
  {}

  lemma ProductIncreases(a: real, b: real, c: real, d: real)
    requires 0.0 <= a < b && 0.0 <= c < d
    ensures a * c < b * d
  {
    assert a * (d - c) >= 0.0;
    Positive(b - a, d, b * d - a * d);
  }

  lemma ProductMonotone(a: real, b: real, c: real, d: real)
    requires 0.0 <= a <= b && 0.0 <= c <= d
    ensures 0.0 <= a * c <= b * d
  {
    assert a * (d - c) >= 0.0;
    assert (b - a) * d >= 0.0;
  }

  lemma Positive(a: real, b: real, product: real)
    requires a > 0.0 && b > 0.0 && product == a * b
    ensures product > 0.0
  {}

  lemma NonNegative(a: real, b: real, product: real)
    requires a >= 0.0 && b >= 0.0 && product == a * b
    ensures product >= 0.0
  {}

  lemma SquareSign(x: real)
    ensures Square(x) >= 0.0 && (x != 0.0 ==> Square(x) > 0.0)
  {
    if x > 0.0 {
      Positive(x, x, Square(x));
    } else if x < 0.0 {
      Positive(-x, -x, Square(x));
    }
  }

  lemma Scale(a: real, b: real, y: real)
    requires y > 0.0
    ensures a <= b <==> a * y <= b * y
  {
    if a <= b { assert (b - a) * y >= 0.0; }
    if a > b { assert (a - b) * y > 0.0; }
  }

  lemma QuotientOf(x: real, y: real, k: int)
    requires y > 0.0 && k as real * y <= x < (k as real + 1.0) * y
    ensures (x / y).Floor == k
  {
    var q := x / y;
    assert q * y == x;
    var lo, hi := k as real, k as real + 1.0;
    assert lo * y <= q * y;
    assert q * y < hi * y;
    Scale(lo, q, y);
    Scale(hi, q, y);
  }

  /** On nonnegative numbers Mod is the remainder of the floored quotient. */
  lemma ModOf(x: real, y: real, k: nat)
    requires y > 0.0 && k as real * y <= x < (k as real + 1.0) * y
    ensures Mod(x, y) == x - k as real * y
  {
    QuotientOf(x, y, k);
    Scale(0.0, x / y, y);
    assert Trunc(x / y) == k;
  }

  lemma QuotientOrder(x: real, y: real, k: real)
    requires y > 0.0
    ensures x / y <= k <==> x <= k * y
    ensures k <= x / y <==> k * y <= x
  {
    var q := x / y;
    assert q * y == x;
    Scale(q, k, y);
    Scale(k, q, y);
  }
}
