/** Two-dimensional vectors over the reals: the algebra shared by the `Vec2`
    class and the older `Vector` class.

    A JavaScript method that mutates its receiver (`v.addSelf(w)`) becomes a
    function returning the receiver's new value (`AddSelf(v, w)`); a method
    that overwrites the receiver without reading it (`v.add(a, b)`) takes no
    receiver at all. `copy` and `clone` are plain value assignment here, and
    `clear` is the constant `Zero`.

    The square root comes from a math helper that is not part of this model,
    so every operation that needs it takes it as a parameter `sqrt`; lemmas
    that depend on its meaning require `IsSqrt(sqrt)`. */
module Vectors {
  import opened JsValues
  import opened Reals

  datatype Vec2 = Vec2(x: real, y: real)

  const Zero: Vec2 := Vec2(0.0, 0.0)

  /** The fixed tolerance of `equals` and `isZero`. */
  const Tolerance: real := 0.0001

  /** `sqrt` returns the non-negative square root of every non-negative real. */
  ghost predicate IsSqrt(sqrt: real -> real) {
    forall x: real :: 0.0 <= x ==> 0.0 <= sqrt(x) && Sq(sqrt(x)) == x
  }

  /** `set(x, y)`: an omitted coordinate becomes 0 (`Vec2` by default
      parameter, `Vector` by `x || 0`; the two differ only on NaN). */
  function Set(x: Option<real>, y: Option<real>): Vec2 {
    Vec2(x.GetOr(0.0), y.GetOr(0.0))
  }

  /** `add(v1, v2)`: the receiver becomes `v1 + v2`, whatever it held;
      taking `v2` away again leaves `v1`. */
  function Add(v1: Vec2, v2: Vec2): (r: Vec2)
    ensures SubSelf(r, v2) == v1
  {
    Vec2(v1.x + v2.x, v1.y + v2.y)
  }

  /** `addSelf(v)`. */
  function AddSelf(u: Vec2, v: Vec2): Vec2 {
    Vec2(u.x + v.x, u.y + v.y)
  }

  /** `sub(v1, v2)`: the receiver becomes `v1 - v2`, whatever it held. */
  function Sub(v1: Vec2, v2: Vec2): Vec2 {
    Vec2(v1.x - v2.x, v1.y - v2.y)
  }

  /** `subSelf(v)`. */
  function SubSelf(u: Vec2, v: Vec2): Vec2 {
    Vec2(u.x - v.x, u.y - v.y)
  }

  /** `multiplySelf(v)`: componentwise product. */
  function MultiplySelf(u: Vec2, v: Vec2): Vec2 {
    Vec2(u.x * v.x, u.y * v.y)
  }

  /** `multiplyScalar(s)`. */
  function MultiplyScalar(u: Vec2, s: real): Vec2 {
    Vec2(u.x * s, u.y * s)
  }

  /** `divideScalar(s)`: a zero divisor resets the vector instead of
      producing infinities; otherwise scaling back by `s` restores it. */
  function DivideScalar(u: Vec2, s: real): (r: Vec2)
    ensures s == 0.0 ==> r == Zero
    ensures s != 0.0 ==> MultiplyScalar(r, s) == u
  {
    if s != 0.0 then Vec2(u.x / s, u.y / s) else Zero
  }

  /** `negate()`: the additive inverse. */
  function Negate(u: Vec2): (r: Vec2)
    ensures AddSelf(u, r) == Zero
  {
    MultiplyScalar(u, -1.0)
  }

  /** `dot(v)`. */
  function Dot(u: Vec2, v: Vec2): real {
    u.x * v.x + u.y * v.y
  }

  /** `lengthSquared()`: the dot product of the vector with itself, never
      negative and zero only for the zero vector. */
  function LengthSquared(u: Vec2): (r: real)
    ensures r == Dot(u, u)
    ensures 0.0 <= r
    ensures r == 0.0 <==> u == Zero
  {
    SumOfSquares(u.x, u.y);
    u.x * u.x + u.y * u.y
  }

  /** `length()`. */
  function Length(u: Vec2, sqrt: real -> real): real {
    sqrt(LengthSquared(u))
  }

  /** `normalize()`: divide by the length, with `divideScalar`'s zero guard. */
  function Normalize(u: Vec2, sqrt: real -> real): Vec2 {
    DivideScalar(u, Length(u, sqrt))
  }

  /** `distanceToSquared(v)`: the squared length of the difference; zero
      exactly when the two vectors coincide. */
  function DistanceToSquared(u: Vec2, v: Vec2): (r: real)
    ensures 0.0 <= r
    ensures r == 0.0 <==> u == v
  {
    var d := Sub(u, v);
    assert d == Zero <==> u == v;
    LengthSquared(d)
  }

  /** `distanceTo(v)`. */
  function DistanceTo(u: Vec2, v: Vec2, sqrt: real -> real): real {
    sqrt(DistanceToSquared(u, v))
  }

  /** `setLength(l)`: normalize, then scale. */
  function SetLength(u: Vec2, l: real, sqrt: real -> real): Vec2 {
    MultiplyScalar(Normalize(u, sqrt), l)
  }

  /** `equals(v)`: closer than the tolerance. */
  predicate Equals(u: Vec2, v: Vec2, sqrt: real -> real) {
    DistanceTo(u, v, sqrt) < Tolerance
  }

  /** `lerp(v, t)`: move the fraction `t` of the way towards `v`; `t = 0`
      stays put and `t = 1` arrives. */
  function Lerp(u: Vec2, v: Vec2, t: real): (r: Vec2)
    ensures t == 0.0 ==> r == u
    ensures t == 1.0 ==> r == v
  {
    Vec2((v.x - u.x) * t + u.x, (v.y - u.y) * t + u.y)
  }

  /** The compiled `lerp(v, t)`, whose `t` defaults to 1: without `t` it
      arrives at `v`. */
  function LerpOr(u: Vec2, v: Vec2, t: Option<real>): (r: Vec2)
    ensures t.None? ==> r == v
    ensures t.Some? ==> r == Lerp(u, v, t.value)
  {
    Lerp(u, v, t.GetOr(1.0))
  }

  /** `isZero()`: shorter than the tolerance. */
  predicate IsZero(u: Vec2, sqrt: real -> real) {
    Length(u, sqrt) < Tolerance
  }

  // ---------------------------------------------------------------------
  // Algebraic laws

  /** `set` stores its arguments, and omitted ones as zero. */
  lemma SetStores(x: real, y: real)
    ensures Set(Some(x), Some(y)) == Vec2(x, y)
    ensures Set(None, None) == Zero
  {
  }

  /** `add` and `sub` are inverse: subtracting what was added restores the
      vector, and adding back what was subtracted restores the minuend. */
  lemma AddSubInverse(u: Vec2, v: Vec2)
    ensures SubSelf(AddSelf(u, v), v) == u
    ensures AddSelf(Sub(u, v), v) == u
    ensures Add(u, v) == AddSelf(u, v) && Sub(u, v) == SubSelf(u, v)
  {
  }

  /** `negate` is scaling by -1 and undoes itself. */
  lemma NegateInvolution(u: Vec2)
    ensures Negate(u) == MultiplyScalar(u, -1.0)
    ensures Negate(Negate(u)) == u
    ensures SubSelf(Zero, u) == Negate(u)
  {
  }

  /** Subtracting a vector is adding its negation. */
  lemma SubIsAddNegate(u: Vec2, v: Vec2)
    ensures SubSelf(u, v) == AddSelf(u, Negate(v))
  {
  }

  /** `dot` is symmetric. */
  lemma DotSymmetric(u: Vec2, v: Vec2)
    ensures Dot(u, v) == Dot(v, u)
  {
  }

  /** Worked examples: (2,4)·(1,3) = 14, |(2,4)|² = 20, the squared
      distance from the origin to (2,4) is 20 and from (5,5) to (1,1) is 32. */
  lemma DotExamples()
    ensures Dot(Vec2(2.0, 4.0), Vec2(1.0, 3.0)) == 14.0
    ensures LengthSquared(Vec2(2.0, 4.0)) == 20.0
    ensures DistanceToSquared(Zero, Vec2(2.0, 4.0)) == 20.0
    ensures DistanceToSquared(Vec2(5.0, 5.0), Vec2(1.0, 1.0)) == 32.0
  {
  }

  /** The squared distance is symmetric and zero against itself. */
  lemma DistanceSquaredSymmetric(u: Vec2, v: Vec2)
    ensures DistanceToSquared(u, v) == DistanceToSquared(v, u)
    ensures DistanceToSquared(u, u) == 0.0
  {
    ScaledLengthSquared(Sub(u, v), -1.0);
    assert MultiplyScalar(Sub(u, v), -1.0) == Sub(v, u);
  }

  // ---------------------------------------------------------------------
  // Laws that depend on the square root

  /** A square root is below a positive bound exactly when its radicand is
      below the bound's square. */
  lemma RootBelow(x: real, t: real, sqrt: real -> real)
    requires IsSqrt(sqrt)
    requires 0.0 <= x && 0.0 < t
    ensures sqrt(x) < t <==> x < Sq(t)
  {
    SqOrder(sqrt(x), t);
  }

  /** A square root is at most `l` exactly when `l` is non-negative and the
      radicand is at most `l²`. */
  lemma RootAtMost(x: real, l: real, sqrt: real -> real)
    requires IsSqrt(sqrt)
    requires 0.0 <= x
    ensures sqrt(x) <= l <==> 0.0 <= l && x <= Sq(l)
  {
    if 0.0 <= l {
      SqOrder(sqrt(x), l);
    }
  }

  /** The square root of a square of a non-negative number is that number. */
  lemma RootOfSquare(t: real, sqrt: real -> real)
    requires IsSqrt(sqrt)
    requires 0.0 <= t
    ensures sqrt(Sq(t)) == t
  {
    SqNonNeg(t);
    SqOrder(sqrt(Sq(t)), t);
  }

  /** The squared root of a non-negative number is that number. */
  lemma RootSquared(x: real, sqrt: real -> real)
    requires IsSqrt(sqrt)
    requires 0.0 <= x
    ensures 0.0 <= sqrt(x) && Sq(sqrt(x)) == x
  {
  }

  /** The square root of zero is zero, and only zero has it. */
  lemma RootZero(x: real, sqrt: real -> real)
    requires IsSqrt(sqrt)
    requires 0.0 <= x
    ensures sqrt(x) == 0.0 <==> x == 0.0
  {
    RootOfZero(sqrt(x), x);
  }

  /** `isZero` is the squared-length test against the squared tolerance. */
  lemma IsZeroIff(u: Vec2, sqrt: real -> real)
    requires IsSqrt(sqrt)
    ensures IsZero(u, sqrt) <==> LengthSquared(u) < Sq(Tolerance)
  {
    RootBelow(LengthSquared(u), Tolerance, sqrt);
  }

  /** The zero vector passes `isZero`. */
  lemma ZeroIsZero(sqrt: real -> real)
    requires IsSqrt(sqrt)
    ensures IsZero(Zero, sqrt)
  {
    RootZero(0.0, sqrt);
    assert LengthSquared(Zero) == 0.0;
  }

  /** `equals` is the squared-distance test against the squared tolerance. */
  lemma EqualsIff(u: Vec2, v: Vec2, sqrt: real -> real)
    requires IsSqrt(sqrt)
    ensures Equals(u, v, sqrt) <==> DistanceToSquared(u, v) < Sq(Tolerance)
  {
    RootBelow(DistanceToSquared(u, v), Tolerance, sqrt);
  }

  /** The distance is symmetric, whatever the square root. */
  lemma DistanceToSymmetric(u: Vec2, v: Vec2, sqrt: real -> real)
    ensures DistanceTo(u, v, sqrt) == DistanceTo(v, u, sqrt)
  {
    DistanceSquaredSymmetric(u, v);
  }

  /** `equals` is symmetric, whatever the square root. */
  lemma EqualsSymmetric(u: Vec2, v: Vec2, sqrt: real -> real)
    ensures Equals(u, v, sqrt) == Equals(v, u, sqrt)
  {
    DistanceToSymmetric(u, v, sqrt);
  }

  /** `equals` is reflexive. */
  lemma EqualsReflexive(u: Vec2, sqrt: real -> real)
    requires IsSqrt(sqrt)
    ensures Equals(u, u, sqrt)
  {
    DistanceSquaredSymmetric(u, u);
    RootZero(0.0, sqrt);
  }

  lemma ToleranceSquared()
    ensures Sq(Tolerance) == 0.00000001
  {
  }

  /** The worked example: (5,5) equals (5,5) but not (1,1). */
  lemma EqualsExample(sqrt: real -> real)
    requires IsSqrt(sqrt)
    ensures Equals(Vec2(5.0, 5.0), Vec2(5.0, 5.0), sqrt)
    ensures !Equals(Vec2(5.0, 5.0), Vec2(1.0, 1.0), sqrt)
  {
    EqualsReflexive(Vec2(5.0, 5.0), sqrt);
    EqualsIff(Vec2(5.0, 5.0), Vec2(1.0, 1.0), sqrt);
    DotExamples();
    ToleranceSquared();
  }

  /** Scaling the zero vector gives the zero vector. */
  lemma ScaleZero(s: real)
    ensures MultiplyScalar(Zero, s) == Zero
  {
  }

  /** Dividing the zero vector gives the zero vector, whatever the divisor. */
  lemma DivideZero(s: real)
    ensures DivideScalar(Zero, s) == Zero
  {
    if s != 0.0 {
      assert 0.0 / s == 0.0;
    }
  }

  /** Normalizing a non-zero vector gives squared length 1. */
  lemma NormalizeIsUnit(u: Vec2, sqrt: real -> real)
    requires IsSqrt(sqrt)
    ensures u == Zero ==> Normalize(u, sqrt) == Zero
    ensures u != Zero ==> LengthSquared(Normalize(u, sqrt)) == 1.0
  {
    if u == Zero {
      DivideZero(Length(u, sqrt));
    } else {
      var d := Length(u, sqrt);
      RootZero(LengthSquared(u), sqrt);
      assert d != 0.0 && Sq(d) == LengthSquared(u);
      ScaledLengthSquared(u, 1.0 / d);
      assert Normalize(u, sqrt) == MultiplyScalar(u, 1.0 / d);
      assert (1.0 / d) * (1.0 / d) * (d * d) == 1.0;
    }
  }

  /** `setLength(l)` of a non-zero vector has squared length `l²`. */
  lemma SetLengthHasLength(u: Vec2, l: real, sqrt: real -> real)
    requires IsSqrt(sqrt)
    ensures u != Zero ==> LengthSquared(SetLength(u, l, sqrt)) == l * l
  {
    if u != Zero {
      NormalizeIsUnit(u, sqrt);
      ScaledLengthSquared(Normalize(u, sqrt), l);
    }
  }

  /** Dividing by `s` divides the squared length by `s²`. */
  lemma DividedLengthSquared(u: Vec2, s: real)
    requires s != 0.0
    ensures Mul(LengthSquared(DivideScalar(u, s)), Sq(s)) == LengthSquared(u)
  {
    ScaledLengthSquared(DivideScalar(u, s), s);
  }

  /** `multiplySelf(v)` is the componentwise product: it commutes, the
      zero vector absorbs it, (1, 1) is its unit, and a vector with equal
      components acts as `multiplyScalar`. */
  lemma MultiplySelfLaws(u: Vec2, v: Vec2, s: real)
    ensures MultiplySelf(u, v) == MultiplySelf(v, u)
    ensures MultiplySelf(u, Zero) == Zero
    ensures MultiplySelf(u, Vec2(1.0, 1.0)) == u
    ensures MultiplySelf(u, Vec2(s, s)) == MultiplyScalar(u, s)
  {
  }

  /** Scaling multiplies the squared length by the square of the factor. */
  lemma ScaledLengthSquared(u: Vec2, s: real)
    ensures LengthSquared(MultiplyScalar(u, s)) == s * s * LengthSquared(u)
  {
  }
}
