/** A damped Hookean spring between two points, the `Spring` class.

    The spring holds its endpoints as indices `a` and `b` into the system's
    point list; `update` returns the new list instead of mutating the two
    point objects. */
module Springs {
  import opened Reals
  import opened Vectors
  import opened Points
  import opened Accumulation

  datatype Spring = Spring(a: nat, b: nat, constant: real, damping: real, length: real, on: bool)

  /** `new Spring(a, b, k, d, l)`: a spring is created switched on. */
  function New(a: nat, b: nat, k: real, d: real, l: real): (s: Spring)
    ensures s.on
    ensures s.a == a && s.b == b
    ensures s.constant == k && s.damping == d && s.length == l
  {
    Spring(a, b, k, d, l, true)
  }

  /** Both endpoints are points of a list of `n` points. */
  predicate Valid(s: Spring, n: nat) {
    s.a < n && s.b < n
  }

  /** `currentLength()`: the distance between the endpoints. */
  function CurrentLength(s: Spring, ps: seq<Point>, sqrt: real -> real): real
    requires Valid(s, |ps|)
  {
    Vectors.DistanceTo(ps[s.a].position, ps[s.b].position, sqrt)
  }

  /** The guard of `update`: the spring acts only while it is on and at
      least one endpoint is free. */
  predicate Acts(s: Spring, ps: seq<Point>)
    requires Valid(s, |ps|)
  {
    s.on && (!ps[s.a].fixed || !ps[s.b].fixed)
  }

  /** The unit vector from `b` to `a` that `update` uses: cleared when the
      endpoints are at distance zero. */
  function Direction(pa: Point, pb: Point, sqrt: real -> real): Vec2 {
    var a2b := Sub(pa.position, pb.position);
    var d := Length(a2b, sqrt);
    if d == 0.0 then Zero else DivideScalar(a2b, d)
  }

  /** The signed strength `fspring + fdamping`: the Hooke term
      `-(d - length) * constant` plus the damping of the relative velocity
      along the spring. */
  function Strength(s: Spring, pa: Point, pb: Point, sqrt: real -> real): real {
    var d := Length(Sub(pa.position, pb.position), sqrt);
    var fspring := -1.0 * (d - s.length) * s.constant;
    var va2b := Sub(pa.velocity, pb.velocity);
    var fdamping := -1.0 * s.damping * Dot(va2b, Direction(pa, pb, sqrt));
    fspring + fdamping
  }

  /** The vector `update` adds to `a`'s force and subtracts from `b`'s. */
  function Force(s: Spring, pa: Point, pb: Point, sqrt: real -> real): Vec2 {
    MultiplyScalar(Direction(pa, pb, sqrt), Strength(s, pa, pb, sqrt))
  }

  /** `update()`: when the spring acts, push the force onto `a` and pull it
      from `b`, each only if that endpoint is free. Nothing but the force
      accumulators of free endpoints changes. */
  function Update(s: Spring, ps: seq<Point>, sqrt: real -> real): (r: seq<Point>)
    requires Valid(s, |ps|)
    ensures OnlyForces(ps, r) && FixedKept(ps, r)
    ensures forall i :: 0 <= i < |ps| && i != s.a && i != s.b ==> r[i] == ps[i]
    ensures !Acts(s, ps) ==> r == ps
    ensures !ps[s.a].fixed && !ps[s.b].fixed ==> TotalForce(r) == TotalForce(ps)
  {
    if !Acts(s, ps) then ps else PushThenPull(ps, s.a, s.b, Force(s, ps[s.a], ps[s.b], sqrt))
  }

  /** `resting()`: off, or both ends pinned, or one end pinned and the other
      resting within the rest length of it (for rest length 0: `equals` it). */
  predicate Resting(s: Spring, ps: seq<Point>, sqrt: real -> real)
    requires Valid(s, |ps|)
  {
    var pa := ps[s.a];
    var pb := ps[s.b];
    var l := s.length;
    !s.on || (pa.fixed && pb.fixed)
    || (pa.fixed && (if l == 0.0 then Equals(pb.position, pa.position, sqrt)
                     else Vectors.DistanceTo(pb.position, pa.position, sqrt) <= l)
        && Points.Resting(pb, sqrt))
    || (pb.fixed && (if l == 0.0 then Equals(pa.position, pb.position, sqrt)
                     else Vectors.DistanceTo(pa.position, pb.position, sqrt) <= l)
        && Points.Resting(pa, sqrt))
  }

  // ---------------------------------------------------------------------
  // Laws

  /** Endpoints at the same position get no force, whatever the stiffness,
      the damping and the square root: the direction is cleared. */
  lemma CoincidentNoForce(s: Spring, pa: Point, pb: Point, sqrt: real -> real)
    requires pa.position == pb.position
    ensures Force(s, pa, pb, sqrt) == Zero
  {
    CoincidentDirection(pa, pb, sqrt);
    ScaleZero(Strength(s, pa, pb, sqrt));
  }

  lemma CoincidentDirection(pa: Point, pb: Point, sqrt: real -> real)
    requires pa.position == pb.position
    ensures Direction(pa, pb, sqrt) == Zero
  {
    assert Sub(pa.position, pb.position) == Zero;
    DivideZero(Length(Zero, sqrt));
  }

  /** Hence `update` on coincident endpoints leaves every point as it was. */
  lemma CoincidentUpdate(s: Spring, ps: seq<Point>, sqrt: real -> real)
    requires Valid(s, |ps|)
    requires ps[s.a].position == ps[s.b].position
    ensures Update(s, ps, sqrt) == ps
  {
    CoincidentNoForce(s, ps[s.a], ps[s.b], sqrt);
  }

  /** At its rest length and with both endpoints moving alike, the spring
      pushes with zero force. */
  lemma RestLengthNoForce(s: Spring, pa: Point, pb: Point, sqrt: real -> real)
    requires Length(Sub(pa.position, pb.position), sqrt) == s.length
    requires pa.velocity == pb.velocity
    ensures Force(s, pa, pb, sqrt) == Zero
  {
    assert Sub(pa.velocity, pb.velocity) == Zero;
    assert Strength(s, pa, pb, sqrt) == 0.0;
  }

  /** The force is `a - b` set to the signed strength: its direction is
      `normalize(a - b)`, also for coincident endpoints. */
  lemma ForceAlongSpring(s: Spring, pa: Point, pb: Point, sqrt: real -> real)
    ensures Direction(pa, pb, sqrt) == Normalize(Sub(pa.position, pb.position), sqrt)
    ensures Force(s, pa, pb, sqrt) == SetLength(Sub(pa.position, pb.position), Strength(s, pa, pb, sqrt), sqrt)
  {
    var a2b := Sub(pa.position, pb.position);
    if Length(a2b, sqrt) == 0.0 {
      assert DivideScalar(a2b, 0.0) == Zero;
    }
  }

  /** For endpoints apart, the force's squared length is the square of the
      strength. */
  lemma ForceMagnitude(s: Spring, pa: Point, pb: Point, sqrt: real -> real)
    requires IsSqrt(sqrt)
    requires pa.position != pb.position
    ensures LengthSquared(Force(s, pa, pb, sqrt)) == Sq(Strength(s, pa, pb, sqrt))
  {
    ForceAlongSpring(s, pa, pb, sqrt);
    assert Sub(pa.position, pb.position) != Zero;
    SetLengthHasLength(Sub(pa.position, pb.position), Strength(s, pa, pb, sqrt), sqrt);
  }

  /** Action and reaction: with both endpoints free and distinct, `a`
      receives exactly `+F` and `b` exactly `-F`. */
  lemma ActionReaction(s: Spring, ps: seq<Point>, sqrt: real -> real)
    requires Valid(s, |ps|) && s.a != s.b
    requires s.on && !ps[s.a].fixed && !ps[s.b].fixed
    ensures Update(s, ps, sqrt)[s.a].force == AddSelf(ps[s.a].force, Force(s, ps[s.a], ps[s.b], sqrt))
    ensures Update(s, ps, sqrt)[s.b].force == AddSelf(ps[s.b].force, Negate(Force(s, ps[s.a], ps[s.b], sqrt)))
  {
  }

  /** A spring that is off, or whose endpoints are both fixed, is resting; an
      active spring between two free points never is, whatever the square
      root. */
  lemma RestingCases(s: Spring, ps: seq<Point>, sqrt: real -> real)
    requires Valid(s, |ps|)
    ensures !s.on ==> Resting(s, ps, sqrt)
    ensures ps[s.a].fixed && ps[s.b].fixed ==> Resting(s, ps, sqrt)
    ensures s.on && !ps[s.a].fixed && !ps[s.b].fixed ==> !Resting(s, ps, sqrt)
    ensures !Acts(s, ps) ==> Resting(s, ps, sqrt)
  {
  }

  /** With `a` pinned and a positive rest length, the spring rests exactly
      when `b` is resting within squared distance `length²` of `a`. */
  lemma RestingWithinLength(s: Spring, ps: seq<Point>, sqrt: real -> real)
    requires IsSqrt(sqrt)
    requires Valid(s, |ps|)
    requires s.on && ps[s.a].fixed && !ps[s.b].fixed && 0.0 < s.length
    ensures Resting(s, ps, sqrt) <==>
      DistanceToSquared(ps[s.b].position, ps[s.a].position) <= Sq(s.length) && Points.Resting(ps[s.b], sqrt)
  {
    RootAtMost(DistanceToSquared(ps[s.b].position, ps[s.a].position), s.length, sqrt);
  }
}
