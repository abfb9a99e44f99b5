/** The container of a simulation: the `PointSystem` class, and the
    `ParticleSystem` class, which is the same class with `points` renamed to
    `particles`.

    A system owns the points, the springs and the attractions between them,
    the global gravity and drag, the equilibrium criteria and the two flags
    `equilibrium` and `optimized`. Its `integrator` is paired with it in
    `Simulations.Simulation`; its list of custom `forces` is always empty
    here. */
module Systems {
  import opened JsValues
  import opened Vectors
  import opened Points
  import opened Accumulation
  import Springs
  import Attractions

  const DefaultGravity: real := 0.0
  const DefaultDrag: real := 0.001

  /** Which categories `needsUpdate` inspects. */
  datatype Criteria = Criteria(points: bool, springs: bool, attractions: bool)

  datatype System = System(
    points: seq<Point>,
    springs: seq<Springs.Spring>,
    attractions: seq<Attractions.Attraction>,
    gravity: Vec2,
    drag: real,
    criteria: Criteria,
    equilibrium: bool,
    optimized: bool)

  /** Every spring and attraction joins two points of the system. */
  predicate WellFormed(s: System) {
    && (forall i :: 0 <= i < |s.springs| ==> Springs.Valid(s.springs[i], |s.points|))
    && (forall i :: 0 <= i < |s.attractions| ==> Attractions.Valid(s.attractions[i], |s.points|))
  }

  /** `new PointSystem(gravityX, gravityY, drag)`: every argument may be
      omitted. A new system is empty, checks all three categories, and is
      neither optimized nor at equilibrium. */
  function New(gravityX: Option<real>, gravityY: Option<real>, drag: Option<real>): (s: System)
    ensures s.points == [] && s.springs == [] && s.attractions == []
    ensures s.gravity == Vec2(gravityX.GetOr(DefaultGravity), gravityY.GetOr(DefaultGravity))
    ensures s.drag == drag.GetOr(DefaultDrag)
    ensures s.criteria == Criteria(true, true, true)
    ensures !s.equilibrium && !s.optimized
    ensures WellFormed(s)
  {
    System([], [], [], Vec2(gravityX.GetOr(DefaultGravity), gravityY.GetOr(DefaultGravity)),
           drag.GetOr(DefaultDrag), Criteria(true, true, true), false, false)
  }

  /** `optimize(b)`: only the flag changes. */
  function Optimize(s: System, b: bool): (r: System)
    ensures r.optimized == b
    ensures r.(optimized := s.optimized) == s
  {
    s.(optimized := b)
  }

  /** `setGravity(x, y)`: `Vec2.set`, so an omitted component becomes 0. */
  function SetGravity(s: System, x: Option<real>, y: Option<real>): (r: System)
    ensures r.gravity == Vec2(x.GetOr(0.0), y.GetOr(0.0))
    ensures r.(gravity := s.gravity) == s
  {
    s.(gravity := Set(x, y))
  }

  /** `setEquilibriumCriteria(points, springs, attractions)`. */
  function SetEquilibriumCriteria(s: System, points: bool, springs: bool, attractions: bool): (r: System)
    ensures r.criteria == Criteria(points, springs, attractions)
    ensures r.(criteria := s.criteria) == s
  {
    s.(criteria := Criteria(points, springs, attractions))
  }

  // ---------------------------------------------------------------------
  // Equilibrium

  /** The system is at rest when every element of every enabled category
      is resting. */
  predicate AtRest(s: System, sqrt: real -> real)
    requires WellFormed(s)
  {
    && (s.criteria.points ==> forall i :: 0 <= i < |s.points| ==> Points.Resting(s.points[i], sqrt))
    && (s.criteria.springs ==>
          forall i :: 0 <= i < |s.springs| ==> Springs.Resting(s.springs[i], s.points, sqrt))
    && (s.criteria.attractions ==>
          forall i :: 0 <= i < |s.attractions| ==> Attractions.Resting(s.attractions[i], s.points, sqrt))
  }

  /** `needsUpdate()`: scan points, then springs, then attractions, each
      only if its criterion is set, and answer true at the first element
      that is not resting. */
  method NeedsUpdate(s: System, sqrt: real -> real) returns (r: bool)
    requires WellFormed(s)
    ensures r <==> !AtRest(s, sqrt)
  {
    if s.criteria.points {
      var i := 0;
      while i < |s.points|
        invariant 0 <= i <= |s.points|
        invariant forall j :: 0 <= j < i ==> Points.Resting(s.points[j], sqrt)
      {
        if !Points.Resting(s.points[i], sqrt) {
          return true;
        }
        i := i + 1;
      }
    }
    if s.criteria.springs {
      var i := 0;
      while i < |s.springs|
        invariant 0 <= i <= |s.springs|
        invariant forall j :: 0 <= j < i ==> Springs.Resting(s.springs[j], s.points, sqrt)
      {
        if !Springs.Resting(s.springs[i], s.points, sqrt) {
          return true;
        }
        i := i + 1;
      }
    }
    if s.criteria.attractions {
      var i := 0;
      while i < |s.attractions|
        invariant 0 <= i <= |s.attractions|
        invariant forall j :: 0 <= j < i ==> Attractions.Resting(s.attractions[j], s.points, sqrt)
      {
        if !Attractions.Resting(s.attractions[i], s.points, sqrt) {
          return true;
        }
        i := i + 1;
      }
    }
    return false;
  }

  // ---------------------------------------------------------------------
  // Building a system

  /** `addPoint(p)`: append one point; nothing else changes. */
  function AddPoint(s: System, p: Point): (r: System)
    ensures |r.points| == |s.points| + 1 && r.points[|s.points|] == p
    ensures r.points[..|s.points|] == s.points
    ensures r.(points := s.points) == s
    ensures WellFormed(s) ==> WellFormed(r)
  {
    s.(points := s.points + [p])
  }

  /** `addSpring(sp)`: append one spring; nothing else changes. */
  function AddSpring(s: System, sp: Springs.Spring): (r: System)
    ensures |r.springs| == |s.springs| + 1 && r.springs[|s.springs|] == sp
    ensures r.springs[..|s.springs|] == s.springs
    ensures r.(springs := s.springs) == s
    ensures WellFormed(s) && Springs.Valid(sp, |s.points|) ==> WellFormed(r)
  {
    s.(springs := s.springs + [sp])
  }

  /** `addAttraction(a)`: append one attraction; nothing else changes. */
  function AddAttraction(s: System, a: Attractions.Attraction): (r: System)
    ensures |r.attractions| == |s.attractions| + 1 && r.attractions[|s.attractions|] == a
    ensures r.attractions[..|s.attractions|] == s.attractions
    ensures r.(attractions := s.attractions) == s
    ensures WellFormed(s) && Attractions.Valid(a, |s.points|) ==> WellFormed(r)
  {
    s.(attractions := s.attractions + [a])
  }

  /** `createPoint(mass, x, y)`: construct a point, append it, and return it;
      the returned point is the last of the system's points. */
  function CreatePoint(s: System, mass: Option<real>, x: Option<real>, y: Option<real>): (r: (System, Point))
    ensures r.1 == Points.New(mass, x, y)
    ensures r.0 == AddPoint(s, r.1)
    ensures r.0.points[|r.0.points| - 1] == r.1
  {
    var p := Points.New(mass, x, y);
    (AddPoint(s, p), p)
  }

  /** `createSpring(a, b, k, d, l)`: construct a spring, append it, and
      return it; it is the last of the system's springs. */
  function CreateSpring(s: System, a: nat, b: nat, k: real, d: real, l: real): (r: (System, Springs.Spring))
    ensures r.1 == Springs.New(a, b, k, d, l)
    ensures r.0 == AddSpring(s, r.1)
    ensures r.0.springs[|r.0.springs| - 1] == r.1
    ensures WellFormed(s) && a < |s.points| && b < |s.points| ==> WellFormed(r.0)
  {
    var sp := Springs.New(a, b, k, d, l);
    (AddSpring(s, sp), sp)
  }

  /** `createAttraction(a, b, k, d)`: construct an attraction, append it, and
      return it; it is the last of the system's attractions. */
  function CreateAttraction(s: System, a: nat, b: nat, k: real, d: real): (r: (System, Attractions.Attraction))
    ensures r.1 == Attractions.New(a, b, k, d)
    ensures r.0 == AddAttraction(s, r.1)
    ensures r.0.attractions[|r.0.attractions| - 1] == r.1
    ensures WellFormed(s) && a < |s.points| && b < |s.points| ==> WellFormed(r.0)
  {
    var at := Attractions.New(a, b, k, d);
    (AddAttraction(s, at), at)
  }

  /** `clear()`: empty the three lists; gravity, drag, criteria and flags
      are kept. */
  function Clear(s: System): (r: System)
    ensures r.points == [] && r.springs == [] && r.attractions == []
    ensures r.gravity == s.gravity && r.drag == s.drag && r.criteria == s.criteria
    ensures r.equilibrium == s.equilibrium && r.optimized == s.optimized
    ensures WellFormed(r)
  {
    s.(points := [], springs := [], attractions := [])
  }

  // ---------------------------------------------------------------------
  // Forces

  /** Add `fs[i]` to the force of every point `i`, fixed points included. */
  function PushAll(ps: seq<Point>, fs: seq<Vec2>): (r: seq<Point>)
    requires |fs| == |ps|
    ensures OnlyForces(ps, r)
    ensures forall i :: 0 <= i < |ps| ==> r[i].force == AddSelf(ps[i].force, fs[i])
  {
    seq(|ps|, i requires 0 <= i < |ps| => ps[i].(force := AddSelf(ps[i].force, fs[i])))
  }

  /** The sum of a list of vectors. */
  function SumVec(fs: seq<Vec2>): Vec2 {
    if |fs| == 0 then Zero else AddSelf(fs[0], SumVec(fs[1..]))
  }

  /** The gravity step of `applyForces`: every point, fixed or not, gets the
      gravity vector, unless that vector passes `isZero`. */
  function ApplyGravity(ps: seq<Point>, g: Vec2, sqrt: real -> real): (r: seq<Point>)
    ensures OnlyForces(ps, r)
    ensures IsZero(g, sqrt) ==> r == ps
    ensures !IsZero(g, sqrt) ==> forall i :: 0 <= i < |ps| ==> r[i].force == AddSelf(ps[i].force, g)
  {
    if IsZero(g, sqrt) then ps else PushAll(ps, seq(|ps|, i => g))
  }

  /** The drag on one point: its velocity scaled by `-1 * drag`. */
  function DragForce(v: Vec2, drag: real): Vec2 {
    Vec2(v.x * -1.0 * drag, v.y * -1.0 * drag)
  }

  /** The drag step of `applyForces`: every point, fixed or not, gets its
      drag. */
  function ApplyDrag(ps: seq<Point>, drag: real): (r: seq<Point>)
    ensures OnlyForces(ps, r)
    ensures forall i :: 0 <= i < |ps| ==> r[i].force == AddSelf(ps[i].force, DragForce(ps[i].velocity, drag))
  {
    PushAll(ps, seq(|ps|, i requires 0 <= i < |ps| => DragForce(ps[i].velocity, drag)))
  }

  /** Run the springs' `update` in list order. */
  function ApplySprings(sps: seq<Springs.Spring>, ps: seq<Point>, sqrt: real -> real): (r: seq<Point>)
    requires forall i :: 0 <= i < |sps| ==> Springs.Valid(sps[i], |ps|)
    ensures OnlyForces(ps, r) && FixedKept(ps, r)
    ensures AllFree(ps) ==> TotalForce(r) == TotalForce(ps)
    ensures (forall i :: 0 <= i < |sps| ==> !sps[i].on) ==> r == ps
    decreases |sps|
  {
    if |sps| == 0 then ps
    else
      var qs := Springs.Update(sps[0], ps, sqrt);
      var r := ApplySprings(sps[1..], qs, sqrt);
      OnlyForcesTransitive(ps, qs, r);
      FixedKeptTransitive(ps, qs, r);
      assert AllFree(ps) ==> AllFree(qs) by {
        if AllFree(ps) {
          AllFreeKept(ps, qs);
        }
      }
      r
  }

  /** Run the attractions' `update` in list order. */
  function ApplyAttractions(ats: seq<Attractions.Attraction>, ps: seq<Point>, sqrt: real -> real): (r: seq<Point>)
    requires forall i :: 0 <= i < |ats| ==> Attractions.Valid(ats[i], |ps|)
    ensures OnlyForces(ps, r) && FixedKept(ps, r)
    ensures AllFree(ps) ==> TotalForce(r) == TotalForce(ps)
    ensures (forall i :: 0 <= i < |ats| ==> !ats[i].on) ==> r == ps
    decreases |ats|
  {
    if |ats| == 0 then ps
    else
      var qs := Attractions.Update(ats[0], ps, sqrt);
      var r := ApplyAttractions(ats[1..], qs, sqrt);
      OnlyForcesTransitive(ps, qs, r);
      FixedKeptTransitive(ps, qs, r);
      assert AllFree(ps) ==> AllFree(qs) by {
        if AllFree(ps) {
          AllFreeKept(ps, qs);
        }
      }
      r
  }

  /** The point-wise part of `applyForces`: gravity, then drag. */
  function ApplyFields(s: System, sqrt: real -> real): (r: seq<Point>)
    ensures OnlyForces(s.points, r)
  {
    var g := ApplyGravity(s.points, s.gravity, sqrt);
    var d := ApplyDrag(g, s.drag);
    OnlyForcesTransitive(s.points, g, d);
    d
  }

  /** `applyForces()`: gravity, then drag, then every spring, then every
      attraction. Only force accumulators change; a fixed point receives
      exactly its gravity and drag; and the springs and attractions add no
      net force to a system of free points. */
  function ApplyForces(s: System, sqrt: real -> real): (r: seq<Point>)
    requires WellFormed(s)
    ensures OnlyForces(s.points, r)
    ensures forall i :: 0 <= i < |s.points| && s.points[i].fixed ==> r[i] == ApplyFields(s, sqrt)[i]
    ensures AllFree(s.points) ==> TotalForce(r) == TotalForce(ApplyFields(s, sqrt))
    ensures s.springs == [] && s.attractions == [] ==> r == ApplyFields(s, sqrt)
  {
    var d := ApplyFields(s, sqrt);
    var sp := ApplySprings(s.springs, d, sqrt);
    var r := ApplyAttractions(s.attractions, sp, sqrt);
    OnlyForcesTransitive(s.points, d, sp);
    OnlyForcesTransitive(s.points, sp, r);
    OnlyForcesTransitive(d, sp, r);
    FixedKeptTransitive(d, sp, r);
    assert forall i :: 0 <= i < |s.points| && s.points[i].fixed ==> d[i].fixed;
    assert AllFree(s.points) ==> AllFree(d) && AllFree(sp) by {
      if AllFree(s.points) {
        AllFreeKept(s.points, d);
        AllFreeKept(d, sp);
      }
    }
    r
  }

  /** `clearForces()` as written: it calls `clear()` on each point, which a
      point does not have, so it throws on the first point and succeeds only
      on an empty system. */
  function ClearForcesAsWritten(s: System): (r: Completion<System>)
    ensures r.Throw? <==> |s.points| > 0
    ensures r.Normal? ==> r.value == s
  {
    if |s.points| == 0 then Normal(s) else Throw("TypeError: this.points[i].clear is not a function")
  }

  /** What `clearForces()` is for, and what the integrator does with
      `p.force.clear()`: every force accumulator becomes zero and nothing
      else changes. */
  function ClearForces(ps: seq<Point>): (r: seq<Point>)
    ensures OnlyForces(ps, r) && |r| == |ps|
    ensures forall i :: 0 <= i < |r| ==> r[i].force == Zero
  {
    seq(|ps|, i requires 0 <= i < |ps| => ps[i].(force := Zero))
  }

  // ---------------------------------------------------------------------
  // Laws

  /** A new system has nothing to check, so `needsUpdate` is false. */
  lemma NewAtRest(gx: Option<real>, gy: Option<real>, drag: Option<real>, s: System, sqrt: real -> real)
    ensures AtRest(New(gx, gy, drag), sqrt)
    ensures AtRest(Clear(s), sqrt)
  {
  }

  /** The contents of a category whose criterion is off do not matter. */
  lemma DisabledCategoryIrrelevant(s: System, sqrt: real -> real,
                                   ps: seq<Point>, sps: seq<Springs.Spring>, ats: seq<Attractions.Attraction>)
    requires WellFormed(s)
    requires |ps| == |s.points|
    requires forall i :: 0 <= i < |sps| ==> Springs.Valid(sps[i], |s.points|)
    requires forall i :: 0 <= i < |ats| ==> Attractions.Valid(ats[i], |s.points|)
    ensures !s.criteria.springs ==> AtRest(s.(springs := sps), sqrt) == AtRest(s, sqrt)
    ensures !s.criteria.attractions ==> AtRest(s.(attractions := ats), sqrt) == AtRest(s, sqrt)
    ensures !s.criteria.points && !s.criteria.springs && !s.criteria.attractions ==>
      AtRest(s.(points := ps), sqrt)
  {
  }

  /** With every point fixed, the system is at rest whatever its criteria. */
  lemma AllFixedAtRest(s: System, sqrt: real -> real)
    requires WellFormed(s)
    requires forall i :: 0 <= i < |s.points| ==> s.points[i].fixed
    ensures AtRest(s, sqrt)
  {
    forall i | 0 <= i < |s.springs|
      ensures Springs.Resting(s.springs[i], s.points, sqrt)
    {
      Springs.RestingCases(s.springs[i], s.points, sqrt);
    }
    forall i | 0 <= i < |s.attractions|
      ensures Attractions.Resting(s.attractions[i], s.points, sqrt)
    {
      Attractions.RestingCases(s.attractions[i], s.points, sqrt);
    }
  }

  /** An active spring between two free points keeps a system that checks
      springs out of equilibrium; likewise an active attraction. */
  lemma ActiveElementNotAtRest(s: System, sqrt: real -> real, k: nat)
    requires WellFormed(s)
    ensures s.criteria.springs && k < |s.springs| && s.springs[k].on
            && !s.points[s.springs[k].a].fixed && !s.points[s.springs[k].b].fixed
            ==> !AtRest(s, sqrt)
    ensures s.criteria.attractions && k < |s.attractions| && s.attractions[k].on
            && !s.points[s.attractions[k].a].fixed && !s.points[s.attractions[k].b].fixed
            ==> !AtRest(s, sqrt)
  {
    if k < |s.springs| {
      Springs.RestingCases(s.springs[k], s.points, sqrt);
    }
    if k < |s.attractions| {
      Attractions.RestingCases(s.attractions[k], s.points, sqrt);
    }
  }

  /** Zero gravity, as `setGravity()` without arguments leaves it, adds
      nothing. */
  lemma NoGravity(s: System, sqrt: real -> real)
    requires IsSqrt(sqrt)
    ensures ApplyGravity(s.points, SetGravity(s, None, None).gravity, sqrt) == s.points
  {
    ZeroIsZero(sqrt);
  }

  /** Drag is the velocity negated and scaled by `drag`; for non-negative
      drag it never points along the velocity. */
  lemma DragOpposesVelocity(v: Vec2, drag: real)
    requires 0.0 <= drag
    ensures DragForce(v, drag) == MultiplyScalar(Negate(v), drag)
    ensures Dot(DragForce(v, drag), v) <= 0.0
  {
    assert Dot(DragForce(v, drag), v) == -(drag * LengthSquared(v));
    Reals.MulMono(0.0, LengthSquared(v), drag);
  }

  /** Zero drag adds nothing. */
  lemma NoDrag(ps: seq<Point>)
    ensures ApplyDrag(ps, 0.0) == ps
  {
    assert forall i :: 0 <= i < |ps| ==> DragForce(ps[i].velocity, 0.0) == Zero;
  }

  /** Adding a force to every point adds their sum to the total force. */
  lemma {:induction false} TotalForcePushAll(ps: seq<Point>, fs: seq<Vec2>)
    requires |fs| == |ps|
    ensures TotalForce(PushAll(ps, fs)) == AddSelf(TotalForce(ps), SumVec(fs))
  {
    if |ps| != 0 {
      assert PushAll(ps, fs)[1..] == PushAll(ps[1..], fs[1..]);
      TotalForcePushAll(ps[1..], fs[1..]);
    }
  }

  /** For free points the springs and attractions cancel, so the total force
      after `applyForces` is what gravity and drag add. */
  lemma TotalForceOfApplyForces(s: System, sqrt: real -> real)
    requires WellFormed(s) && AllFree(s.points)
    ensures var g := if IsZero(s.gravity, sqrt) then [] else seq(|s.points|, i => s.gravity);
            var ds := seq(|s.points|, i requires 0 <= i < |s.points| => DragForce(s.points[i].velocity, s.drag));
            TotalForce(ApplyForces(s, sqrt)) == AddSelf(AddSelf(TotalForce(s.points), SumVec(g)), SumVec(ds))
  {
    var gs := ApplyGravity(s.points, s.gravity, sqrt);
    var ds := seq(|s.points|, i requires 0 <= i < |s.points| => DragForce(s.points[i].velocity, s.drag));
    if !IsZero(s.gravity, sqrt) {
      TotalForcePushAll(s.points, seq(|s.points|, i => s.gravity));
    }
    var ds' := seq(|gs|, i requires 0 <= i < |gs| => DragForce(gs[i].velocity, s.drag));
    assert ds' == ds;
    TotalForcePushAll(gs, ds');
  }

  /** Clearing forces leaves a total force of zero. */
  lemma {:induction false} ClearForcesTotal(ps: seq<Point>)
    ensures TotalForce(ClearForces(ps)) == Zero
  {
    if |ps| != 0 {
      assert ClearForces(ps)[1..] == ClearForces(ps[1..]);
      ClearForcesTotal(ps[1..]);
    }
  }

  /** `clearForces` as written fails on any system with a point, where the
      intended operation clears the accumulators. */
  lemma ClearForcesFinding(s: System)
    requires |s.points| == 1
    ensures ClearForcesAsWritten(s).Throw?
    ensures ClearForces(s.points)[0].force == Zero
  {
  }
}
