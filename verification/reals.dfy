/** Facts about real squares and products that the vector and force laws
    rest on.

    Squares and products are named (`Sq`, `Mul`) so that a fact proved about
    them stays attached to the product term at the caller, instead of being
    rewritten into a statement about the factors' signs. */
module Reals {

  function Sq(a: real): real {
    a * a
  }

  function Mul(x: real, y: real): real {
    x * y
  }

  lemma MulPos(x: real, y: real)
    requires 0.0 < x && 0.0 < y
    ensures 0.0 < Mul(x, y)
  {
  }

  lemma SqNonNeg(a: real)
    ensures 0.0 <= Sq(a)
  {
    if a < 0.0 {
      MulPos(-a, -a);
      assert Sq(a) == Mul(-a, -a);
    } else if a > 0.0 {
      MulPos(a, a);
    }
  }

  lemma SqPos(a: real)
    requires a != 0.0
    ensures 0.0 < Sq(a)
  {
    if a < 0.0 {
      MulPos(-a, -a);
      assert Sq(a) == Mul(-a, -a);
    } else {
      MulPos(a, a);
    }
  }

  lemma SqStrictMono(a: real, b: real)
    requires 0.0 <= a < b
    ensures Sq(a) < Sq(b)
  {
    MulPos(b - a, b + a);
    assert Mul(b - a, b + a) == Sq(b) - Sq(a);
  }

  /** Two non-negative reals compare as their squares do. */
  lemma SqOrder(s: real, t: real)
    requires 0.0 <= s && 0.0 <= t
    ensures s < t <==> Sq(s) < Sq(t)
    ensures s <= t <==> Sq(s) <= Sq(t)
  {
    if s < t {
      SqStrictMono(s, t);
    } else if t < s {
      SqStrictMono(t, s);
    }
  }

  /** A sum of two squares is non-negative, and zero only when both are. */
  lemma SumOfSquares(a: real, b: real)
    ensures 0.0 <= Sq(a) + Sq(b)
    ensures Sq(a) + Sq(b) == 0.0 <==> a == 0.0 && b == 0.0
  {
    SqNonNeg(a);
    SqNonNeg(b);
    if a != 0.0 {
      SqPos(a);
    }
    if b != 0.0 {
      SqPos(b);
    }
  }

  /** A non-negative square root is zero exactly when its square is. */
  lemma RootOfZero(s: real, x: real)
    requires 0.0 <= s && Sq(s) == x
    ensures s == 0.0 <==> x == 0.0
  {
    if s != 0.0 {
      SqPos(s);
    }
  }

  lemma MulMono(x: real, y: real, z: real)
    requires 0.0 <= z && x <= y
    ensures Mul(x, z) <= Mul(y, z)
  {
    if 0.0 < z && x < y {
      MulPos(y - x, z);
      assert Mul(y - x, z) == Mul(y, z) - Mul(x, z);
    }
  }

  /** A non-negative quotient shrinks as its divisor grows. */
  lemma DivMono(k: real, d1: real, d2: real)
    requires 0.0 <= k && 0.0 < d1 <= d2
    ensures 0.0 <= k / d2 <= k / d1
  {
    assert Mul(k / d1, d1) == k;
    assert Mul(k / d2, d2) == k;
  }

  /** A quotient of a non-negative number by a larger one is at most 1. */
  lemma DivAtMostOne(x: real, d: real)
    requires 0.0 <= x <= d && 0.0 < d
    ensures 0.0 <= x / d <= 1.0
  {
    assert Mul(x / d, d) == x;
  }

  lemma ProductNonNeg(k: real, a: real, b: real)
    requires 0.0 <= k && 0.0 <= a && 0.0 <= b
    ensures 0.0 <= Mul(Mul(k, a), b)
  {
    if 0.0 < k && 0.0 < a && 0.0 < b {
      MulPos(k, a);
      MulPos(Mul(k, a), b);
    }
  }

  /** A non-negative factor whose product with a positive `d` is at most `d`
      is at most 1. */
  lemma AtMostOne(x: real, d: real)
    requires 0.0 < d && Mul(x, d) <= d
    ensures x <= 1.0
  {
    assert Mul(x - 1.0, d) == Mul(x, d) - d;
    if 1.0 < x {
      MulPos(x - 1.0, d);
    }
  }
}
