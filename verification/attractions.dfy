/** An inverse-square attraction between two points, the `Attraction`
    class, with a minimum distance below which the force stops growing.

    Like a spring, an attraction holds its endpoints as indices into the
    system's point list, and `update` returns the new list. */
module Attractions {
  import opened JsValues
  import opened Reals
  import opened Vectors
  import opened Points
  import opened Accumulation

  datatype Attraction = Attraction(
    a: nat,
    b: nat,
    constant: real,
    on: bool,
    distanceMin: real,
    distanceMinSquared: real)

  /** `new Attraction(a, b, k, d)`: created switched on, with the squared
      minimum distance computed once. */
  function New(a: nat, b: nat, k: real, d: real): (s: Attraction)
    ensures s.on
    ensures s.a == a && s.b == b && s.constant == k && s.distanceMin == d
    ensures s.distanceMinSquared == Sq(d) && 0.0 <= s.distanceMinSquared
  {
    SqNonNeg(d);
    Attraction(a, b, k, true, d, d * d)
  }

  predicate Valid(s: Attraction, n: nat) {
    s.a < n && s.b < n
  }

  /** The guard of `update`: on, and not both endpoints fixed. */
  predicate Acts(s: Attraction, ps: seq<Point>)
    requires Valid(s, |ps|)
  {
    s.on && !(ps[s.a].fixed && ps[s.b].fixed)
  }

  /** `m.max` of the math helper. */
  function Max(x: real, y: real): (r: real)
    ensures x <= r && y <= r
    ensures r == x || r == y
  {
    if x < y then y else x
  }

  /** The squared distance the force is computed with: the true squared
      distance, clamped from below by `distanceMinSquared`. */
  function ClampedDistanceSquared(s: Attraction, pa: Point, pb: Point): real {
    Max(LengthSquared(Sub(pa.position, pb.position)), s.distanceMinSquared)
  }

  /** The numerator `constant * ma * mb` of the strength. */
  function Numerator(s: Attraction, pa: Point, pb: Point): real {
    Mul(Mul(s.constant, pa.mass), pb.mass)
  }

  /** The magnitude `constant * ma * mb / d²` over the clamped squared
      distance; 0 when that distance is 0 (where the division is undefined
      and the direction is cleared anyway). */
  function Strength(s: Attraction, pa: Point, pb: Point): real {
    var d2 := ClampedDistanceSquared(s, pa, pb);
    if d2 == 0.0 then 0.0 else Numerator(s, pa, pb) / d2
  }

  /** The vector `update` subtracts from `a`'s force and adds to `b`'s:
      `a - b` divided by the clamped length and scaled by the strength, or
      zero when the strength or the clamped length is 0. */
  function Force(s: Attraction, pa: Point, pb: Point, sqrt: real -> real): Vec2 {
    var a2b := Sub(pa.position, pb.position);
    var d2 := ClampedDistanceSquared(s, pa, pb);
    var force := Strength(s, pa, pb);
    var length := sqrt(d2);
    if d2 == 0.0 || force == 0.0 || length == 0.0 then Zero
    else MultiplyScalar(DivideScalar(a2b, length), force)
  }

  /** `update()`: when the attraction acts, pull the force from `a` and push
      it onto `b`, each only if that endpoint is free. */
  function Update(s: Attraction, ps: seq<Point>, sqrt: real -> real): (r: seq<Point>)
    requires Valid(s, |ps|)
    ensures OnlyForces(ps, r) && FixedKept(ps, r)
    ensures forall i :: 0 <= i < |ps| && i != s.a && i != s.b ==> r[i] == ps[i]
    ensures !Acts(s, ps) ==> r == ps
    ensures !ps[s.a].fixed && !ps[s.b].fixed ==> TotalForce(r) == TotalForce(ps)
  {
    if !Acts(s, ps) then ps else PullThenPush(ps, s.a, s.b, Force(s, ps[s.a], ps[s.b], sqrt))
  }

  /** `resting()`: off, or both ends pinned, or one end pinned and the other
      resting within `distanceMin` of it. */
  predicate Resting(s: Attraction, ps: seq<Point>, sqrt: real -> real)
    requires Valid(s, |ps|)
  {
    var pa := ps[s.a];
    var pb := ps[s.b];
    var l := s.distanceMin;
    !s.on || (pa.fixed && pb.fixed)
    || (pa.fixed && Vectors.DistanceTo(pb.position, pa.position, sqrt) <= l && Points.Resting(pb, sqrt))
    || (pb.fixed && Vectors.DistanceTo(pa.position, pb.position, sqrt) <= l && Points.Resting(pa, sqrt))
  }

  // ---------------------------------------------------------------------
  // Laws

  /** The clamped squared distance is at least both the true squared
      distance and the squared minimum distance, and is one of them. */
  lemma ClampBounds(s: Attraction, pa: Point, pb: Point)
    ensures DistanceToSquared(pa.position, pb.position) <= ClampedDistanceSquared(s, pa, pb)
    ensures s.distanceMinSquared <= ClampedDistanceSquared(s, pa, pb)
    ensures ClampedDistanceSquared(s, pa, pb) == DistanceToSquared(pa.position, pb.position)
         || ClampedDistanceSquared(s, pa, pb) == s.distanceMinSquared
  {
  }

  /** For a non-negative constant, positive masses and a positive minimum
      distance, the strength lies between 0 and `constant * ma * mb / dmin²`. */
  lemma StrengthBound(s: Attraction, pa: Point, pb: Point)
    requires 0.0 <= s.constant && 0.0 < pa.mass && 0.0 < pb.mass
    requires 0.0 < s.distanceMinSquared
    ensures 0.0 <= Strength(s, pa, pb) <= Numerator(s, pa, pb) / s.distanceMinSquared
  {
    ClampBounds(s, pa, pb);
    ProductNonNeg(s.constant, pa.mass, pb.mass);
    DivMono(Numerator(s, pa, pb), s.distanceMinSquared, ClampedDistanceSquared(s, pa, pb));
  }

  /** The applied vector is never longer than the strength. */
  lemma ForceWithinStrength(s: Attraction, pa: Point, pb: Point, sqrt: real -> real)
    requires IsSqrt(sqrt)
    requires 0.0 <= s.distanceMinSquared
    ensures LengthSquared(Force(s, pa, pb, sqrt)) <= Sq(Strength(s, pa, pb))
  {
    var a2b := Sub(pa.position, pb.position);
    var d2 := ClampedDistanceSquared(s, pa, pb);
    var force := Strength(s, pa, pb);
    var length := sqrt(d2);
    SqNonNeg(force);
    if d2 != 0.0 && force != 0.0 && length != 0.0 {
      var dir := DivideScalar(a2b, length);
      ClampBounds(s, pa, pb);
      RootSquared(d2, sqrt);
      DividedLengthSquared(a2b, length);
      assert Mul(LengthSquared(dir), d2) <= d2;
      AtMostOne(LengthSquared(dir), d2);
      ScaledLengthSquared(dir, force);
      MulMono(LengthSquared(dir), 1.0, Sq(force));
    }
  }

  /** Endpoints at the same position get no force, whatever the constant
      and the square root. */
  lemma CoincidentNoForce(s: Attraction, pa: Point, pb: Point, sqrt: real -> real)
    requires pa.position == pb.position
    ensures Force(s, pa, pb, sqrt) == Zero
  {
    assert Sub(pa.position, pb.position) == Zero;
    var d2 := ClampedDistanceSquared(s, pa, pb);
    DivideZero(sqrt(d2));
    ScaleZero(Strength(s, pa, pb));
  }

  /** A zero constant or a massless endpoint gives no force. */
  lemma NoStrengthNoForce(s: Attraction, pa: Point, pb: Point, sqrt: real -> real)
    requires s.constant == 0.0 || pa.mass == 0.0 || pb.mass == 0.0
    ensures Strength(s, pa, pb) == 0.0
    ensures Force(s, pa, pb, sqrt) == Zero
  {
    assert Numerator(s, pa, pb) == 0.0;
  }

  /** Action and reaction: with both endpoints free and distinct, `a`
      receives exactly `-F` and `b` exactly `+F`. */
  lemma ActionReaction(s: Attraction, ps: seq<Point>, sqrt: real -> real)
    requires Valid(s, |ps|) && s.a != s.b
    requires s.on && !ps[s.a].fixed && !ps[s.b].fixed
    ensures Update(s, ps, sqrt)[s.a].force == AddSelf(ps[s.a].force, Negate(Force(s, ps[s.a], ps[s.b], sqrt)))
    ensures Update(s, ps, sqrt)[s.b].force == AddSelf(ps[s.b].force, Force(s, ps[s.a], ps[s.b], sqrt))
  {
    var f := Force(s, ps[s.a], ps[s.b], sqrt);
    TwoBodyForces(ps, s.a, s.b, f);
    SubIsAddNegate(ps[s.a].force, f);
  }

  /** The worked example: unit masses at (0,100) and (100,100), constant 100
      and minimum distance 100. `a` is pulled towards `b` with force 0.01 and
      `b` towards `a`; once `a` is fixed, only `b` moves. (Forces are stated
      by component.) */
  lemma Example(s: Attraction, ps: seq<Point>, sqrt: real -> real)
    requires IsSqrt(sqrt)
    requires s == New(0, 1, 100.0, 100.0)
    requires ps == [Points.New(Some(1.0), Some(0.0), Some(100.0)), Points.New(Some(1.0), Some(100.0), Some(100.0))]
    ensures Valid(s, |ps|) && s.distanceMinSquared == 10000.0
    ensures Update(s, ps, sqrt)[0].force.x == 0.01 && Update(s, ps, sqrt)[0].force.y == 0.0
    ensures Update(s, ps, sqrt)[1].force.x == -0.01 && Update(s, ps, sqrt)[1].force.y == 0.0
    ensures Update(s, ps[0 := Fix(ps[0])], sqrt)[0].force.x == 0.0
    ensures Update(s, ps[0 := Fix(ps[0])], sqrt)[0].force.y == 0.0
    ensures Update(s, ps[0 := Fix(ps[0])], sqrt)[1].force.x == -0.01
    ensures Update(s, ps[0 := Fix(ps[0])], sqrt)[1].force.y == 0.0
  {
    RootOfSquare(100.0, sqrt);
    ExampleFree(s, ps, sqrt);
    ExampleFixed(s, ps[0 := Fix(ps[0])], sqrt);
  }

  /** The example's attraction and points, field by field. */
  predicate ExampleSetup(s: Attraction, pa: Point, pb: Point) {
    && s.a == 0 && s.b == 1 && s.on
    && s.constant == 100.0 && s.distanceMinSquared == 10000.0
    && pa.position == Vec2(0.0, 100.0) && pb.position == Vec2(100.0, 100.0)
    && pa.mass == 1.0 && pb.mass == 1.0
    && pa.force == Zero && pb.force == Zero && !pb.fixed
  }

  lemma ExampleFree(s: Attraction, ps: seq<Point>, sqrt: real -> real)
    requires sqrt(10000.0) == 100.0
    requires |ps| == 2 && ExampleSetup(s, ps[0], ps[1]) && !ps[0].fixed
    ensures Update(s, ps, sqrt)[0].force.x == 0.01 && Update(s, ps, sqrt)[0].force.y == 0.0
    ensures Update(s, ps, sqrt)[1].force.x == -0.01 && Update(s, ps, sqrt)[1].force.y == 0.0
  {
    ExampleForce(s, ps[0], ps[1], sqrt);
    ActionReaction(s, ps, sqrt);
  }

  lemma ExampleFixed(s: Attraction, ps: seq<Point>, sqrt: real -> real)
    requires sqrt(10000.0) == 100.0
    requires |ps| == 2 && ExampleSetup(s, ps[0], ps[1]) && ps[0].fixed
    ensures Update(s, ps, sqrt)[0].force.x == 0.0 && Update(s, ps, sqrt)[0].force.y == 0.0
    ensures Update(s, ps, sqrt)[1].force.x == -0.01 && Update(s, ps, sqrt)[1].force.y == 0.0
  {
    var f := Vec2(-0.01, 0.0);
    ExampleForce(s, ps[0], ps[1], sqrt);
    assert PullThenPush(ps, 0, 1, f) == PushForce(ps, 1, f);
  }

  lemma ExampleForce(s: Attraction, pa: Point, pb: Point, sqrt: real -> real)
    requires ExampleSetup(s, pa, pb)
    requires sqrt(10000.0) == 100.0
    ensures Force(s, pa, pb, sqrt) == Vec2(-0.01, 0.0)
  {
    ExampleScaling();
    ExampleStrength(s, pa, pb);
  }

  lemma ExampleScaling()
    ensures MultiplyScalar(DivideScalar(Vec2(-100.0, 0.0), 100.0), 0.01) == Vec2(-0.01, 0.0)
  {
    assert DivideScalar(Vec2(-100.0, 0.0), 100.0) == Vec2(-1.0, 0.0);
  }

  lemma ExampleStrength(s: Attraction, pa: Point, pb: Point)
    requires ExampleSetup(s, pa, pb)
    ensures Sub(pa.position, pb.position) == Vec2(-100.0, 0.0)
    ensures ClampedDistanceSquared(s, pa, pb) == 10000.0
    ensures Strength(s, pa, pb) == 0.01
  {
    assert LengthSquared(Vec2(-100.0, 0.0)) == 10000.0;
    assert Numerator(s, pa, pb) == 100.0;
  }

  /** An attraction that is off, or whose endpoints are both fixed, is
      resting; an active one between two free points never is. */
  lemma RestingCases(s: Attraction, ps: seq<Point>, sqrt: real -> real)
    requires Valid(s, |ps|)
    ensures !s.on ==> Resting(s, ps, sqrt)
    ensures ps[s.a].fixed && ps[s.b].fixed ==> Resting(s, ps, sqrt)
    ensures s.on && !ps[s.a].fixed && !ps[s.b].fixed ==> !Resting(s, ps, sqrt)
    ensures !Acts(s, ps) ==> Resting(s, ps, sqrt)
  {
  }
}
