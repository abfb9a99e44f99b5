/** A point mass of the simulation: the `Point` class, and the `Particle`
    class, which is the same class under another name.

    The JavaScript object is mutated in place; here every operation returns
    the point's new value. `dead` is stored but nothing in the engine reads
    it. */
module Points {
  import opened JsValues
  import opened Reals
  import opened Vectors

  datatype Point = Point(
    position: Vec2,
    velocity: Vec2,
    force: Vec2,
    mass: real,
    fixed: bool,
    age: real,
    dead: bool)

  /** The mass a point is created with, and restored to by `reset`. */
  const DefaultMass: real := 1.0

  /** `new Point(mass, x, y)`: every argument may be omitted. A new point sits
      at (x, y) (the origin by default), at rest and free. */
  function New(mass: Option<real>, x: Option<real>, y: Option<real>): (p: Point)
    ensures p.position == Vec2(x.GetOr(0.0), y.GetOr(0.0))
    ensures p.velocity == Zero && p.force == Zero
    ensures p.mass == (if mass.Some? then mass.value else DefaultMass)
    ensures !p.fixed && p.age == 0.0 && !p.dead
  {
    Point(Set(x, y), Zero, Zero, mass.GetOr(DefaultMass), false, 0.0, false)
  }

  /** `distanceTo(p)`: the distance between the two positions. */
  function DistanceTo(p: Point, q: Point, sqrt: real -> real): real {
    Vectors.DistanceTo(p.position, q.position, sqrt)
  }

  /** `fix()`: pin the point. Its velocity is cleared; its position, its
      force and everything else are kept. */
  function Fix(p: Point): (r: Point)
    ensures r.fixed && r.velocity == Zero
    ensures r.position == p.position && r.force == p.force
    ensures r.mass == p.mass && r.age == p.age && r.dead == p.dead
  {
    p.(fixed := true, velocity := Zero)
  }

  /** `reset()` as written: its first statement calls `this.clear()`, which
      a point does not have, so the call throws a TypeError before any field
      changes. */
  function ResetAsWritten(p: Point): (r: Completion<Point>)
    ensures r.Throw?
  {
    Throw("TypeError: this.clear is not a function")
  }

  /** `reset()` without the failing first statement: motion, force, mass,
      age and the dead flag go back to a new point's values; the position and
      the fixed flag are kept. */
  function Reset(p: Point): (r: Point)
    ensures r.velocity == Zero && r.force == Zero
    ensures r.mass == DefaultMass && r.age == 0.0 && !r.dead
    ensures r.position == p.position && r.fixed == p.fixed
  {
    p.(velocity := Zero, force := Zero, mass := DefaultMass, age := 0.0, dead := false)
  }

  /** `resting()`: pinned, or both velocity and force pass `isZero`. */
  predicate Resting(p: Point, sqrt: real -> real) {
    p.fixed || (IsZero(p.velocity, sqrt) && IsZero(p.force, sqrt))
  }

  // ---------------------------------------------------------------------
  // Laws

  /** A new point is at rest, and is exactly a reset point at its position
      with the default mass. */
  lemma NewIsResting(mass: Option<real>, x: Option<real>, y: Option<real>, sqrt: real -> real)
    requires IsSqrt(sqrt)
    ensures Resting(New(mass, x, y), sqrt)
    ensures Reset(New(mass, x, y)) == New(None, x, y)
  {
    ZeroIsZero(sqrt);
  }

  /** Fixing is idempotent, and a fixed point is resting whatever its
      velocity and force and whatever the square root. */
  lemma FixLaws(p: Point, sqrt: real -> real)
    ensures Fix(Fix(p)) == Fix(p)
    ensures Resting(Fix(p), sqrt)
    ensures p.fixed ==> Resting(p, sqrt)
  {
  }

  /** A free point is resting exactly when its velocity and its force are
      both shorter than the tolerance, measured by squared length. */
  lemma RestingIff(p: Point, sqrt: real -> real)
    requires IsSqrt(sqrt)
    ensures Resting(p, sqrt) <==>
      p.fixed || (LengthSquared(p.velocity) < Sq(Tolerance) && LengthSquared(p.force) < Sq(Tolerance))
  {
    IsZeroIff(p.velocity, sqrt);
    IsZeroIff(p.force, sqrt);
  }

  /** Resetting is idempotent and never unpins a point. */
  lemma ResetLaws(p: Point)
    ensures Reset(Reset(p)) == Reset(p)
    ensures Reset(Fix(p)).fixed
  {
  }

  /** A reset point is resting. */
  lemma ResetIsResting(p: Point, sqrt: real -> real)
    requires IsSqrt(sqrt)
    ensures Resting(Reset(p), sqrt)
  {
    ZeroIsZero(sqrt);
  }

  /** The distance between points is symmetric, whatever the square root. */
  lemma DistanceSymmetric(p: Point, q: Point, sqrt: real -> real)
    ensures DistanceTo(p, q, sqrt) == DistanceTo(q, p, sqrt)
  {
    DistanceToSymmetric(p.position, q.position, sqrt);
  }

  /** A point is at distance zero from itself. */
  lemma DistanceToSelf(p: Point, sqrt: real -> real)
    requires IsSqrt(sqrt)
    ensures DistanceTo(p, p, sqrt) == 0.0
  {
    DistanceSquaredSymmetric(p.position, p.position);
    RootZero(0.0, sqrt);
  }
}
