/** The fixed-step fourth-order Runge-Kutta integrator, the `Integrator`
    class.

    The integrator keeps ten scratch buffers, one vector per point: the
    original positions and velocities, and the forces and velocities of the
    four stages. A step evaluates the system's forces four times and moves
    every free point by the weighted combination of the stages; fixed points
    only age. */
module Integrators {
  import opened Reals
  import opened Vectors
  import opened Points
  import opened Accumulation
  import opened Systems

  datatype Integrator = Integrator(
    originalPositions: seq<Vec2>,
    originalVelocities: seq<Vec2>,
    k1Forces: seq<Vec2>,
    k1Velocities: seq<Vec2>,
    k2Forces: seq<Vec2>,
    k2Velocities: seq<Vec2>,
    k3Forces: seq<Vec2>,
    k3Velocities: seq<Vec2>,
    k4Forces: seq<Vec2>,
    k4Velocities: seq<Vec2>)

  /** All ten buffers have the same length. */
  predicate Consistent(it: Integrator) {
    var n := |it.originalPositions|;
    && |it.originalVelocities| == n
    && |it.k1Forces| == n && |it.k1Velocities| == n
    && |it.k2Forces| == n && |it.k2Velocities| == n
    && |it.k3Forces| == n && |it.k3Velocities| == n
    && |it.k4Forces| == n && |it.k4Velocities| == n
  }

  /** `new Integrator(system)`: all buffers empty. */
  function New(): (it: Integrator)
    ensures Consistent(it) && |it.originalPositions| == 0
  {
    Integrator([], [], [], [], [], [], [], [], [], [])
  }

  function Zeros(k: nat): (r: seq<Vec2>)
    ensures |r| == k
    ensures forall i :: 0 <= i < k ==> r[i] == Zero
  {
    seq(k, i => Zero)
  }

  /** The buffers after `allocatePoints` for `n` points: each buffer gets
      as many zero vectors as `originalPositions` lacks. */
  function Allocated(it: Integrator, n: nat): (r: Integrator)
    ensures Consistent(it) ==> Consistent(r)
    ensures |r.originalPositions| == if |it.originalPositions| < n then n else |it.originalPositions|
  {
    var k := if |it.originalPositions| < n then n - |it.originalPositions| else 0;
    Integrator(
      it.originalPositions + Zeros(k), it.originalVelocities + Zeros(k),
      it.k1Forces + Zeros(k), it.k1Velocities + Zeros(k),
      it.k2Forces + Zeros(k), it.k2Velocities + Zeros(k),
      it.k3Forces + Zeros(k), it.k3Velocities + Zeros(k),
      it.k4Forces + Zeros(k), it.k4Velocities + Zeros(k))
  }

  /** `buf` is `before` followed by zero vectors. */
  predicate Grown(before: seq<Vec2>, buf: seq<Vec2>) {
    |before| <= |buf| && buf[..|before|] == before && forall i :: |before| <= i < |buf| ==> buf[i] == Zero
  }

  /** `allocatePoints()`: push a zero vector onto every buffer while
      `originalPositions` is shorter than the point list. Buffers only ever
      grow, to the point count at least, keeping what they held. */
  method AllocatePoints(it: Integrator, n: nat) returns (r: Integrator)
    ensures |r.originalPositions| == if |it.originalPositions| < n then n else |it.originalPositions|
    ensures Grown(it.originalPositions, r.originalPositions) && Grown(it.originalVelocities, r.originalVelocities)
    ensures Grown(it.k1Forces, r.k1Forces) && Grown(it.k1Velocities, r.k1Velocities)
    ensures Grown(it.k2Forces, r.k2Forces) && Grown(it.k2Velocities, r.k2Velocities)
    ensures Grown(it.k3Forces, r.k3Forces) && Grown(it.k3Velocities, r.k3Velocities)
    ensures Grown(it.k4Forces, r.k4Forces) && Grown(it.k4Velocities, r.k4Velocities)
    ensures Consistent(it) ==> Consistent(r)
    ensures r == Allocated(it, n)
  {
    r := it;
    var k := 0;
    while |r.originalPositions| < n
      invariant |r.originalPositions| == |it.originalPositions| + k
      invariant |it.originalPositions| + k <= n || k == 0
      invariant r.originalPositions == it.originalPositions + Zeros(k)
      invariant r.originalVelocities == it.originalVelocities + Zeros(k)
      invariant r.k1Forces == it.k1Forces + Zeros(k) && r.k1Velocities == it.k1Velocities + Zeros(k)
      invariant r.k2Forces == it.k2Forces + Zeros(k) && r.k2Velocities == it.k2Velocities + Zeros(k)
      invariant r.k3Forces == it.k3Forces + Zeros(k) && r.k3Velocities == it.k3Velocities + Zeros(k)
      invariant r.k4Forces == it.k4Forces + Zeros(k) && r.k4Velocities == it.k4Velocities + Zeros(k)
      decreases n - |r.originalPositions|
    {
      assert Zeros(k + 1) == Zeros(k) + [Zero];
      r := Integrator(
        r.originalPositions + [Zero], r.originalVelocities + [Zero],
        r.k1Forces + [Zero], r.k1Velocities + [Zero],
        r.k2Forces + [Zero], r.k2Velocities + [Zero],
        r.k3Forces + [Zero], r.k3Velocities + [Zero],
        r.k4Forces + [Zero], r.k4Velocities + [Zero]);
      k := k + 1;
    }
  }

  // ---------------------------------------------------------------------
  // The stages of a step

  /** Every free point has a mass to divide by. */
  predicate Movable(ps: seq<Point>) {
    forall i :: 0 <= i < |ps| && !ps[i].fixed ==> ps[i].mass != 0.0
  }

  /** `qs` has the points of `ps` with their flags, masses and ages, and
      every fixed point where it was, moving as it was. */
  predicate Frame(ps: seq<Point>, qs: seq<Point>) {
    && |qs| == |ps|
    && forall i :: 0 <= i < |ps| ==>
         && qs[i].fixed == ps[i].fixed && qs[i].mass == ps[i].mass && qs[i].age == ps[i].age
         && (ps[i].fixed ==> qs[i].position == ps[i].position && qs[i].velocity == ps[i].velocity)
  }

  lemma FrameTransitive(ps: seq<Point>, qs: seq<Point>, rs: seq<Point>)
    requires Frame(ps, qs) && Frame(qs, rs)
    ensures Frame(ps, rs)
  {
  }

  lemma OnlyForcesFrame(ps: seq<Point>, qs: seq<Point>)
    requires OnlyForces(ps, qs)
    ensures Frame(ps, qs)
  {
    forall i | 0 <= i < |ps|
      ensures qs[i].fixed == ps[i].fixed && qs[i].mass == ps[i].mass && qs[i].age == ps[i].age
      ensures qs[i].position == ps[i].position && qs[i].velocity == ps[i].velocity
    {
      assert qs[i] == ps[i].(force := qs[i].force);
    }
  }

  /** The vector of a point that a buffer stores. */
  datatype Field = Position | Velocity | Force

  function Get(p: Point, f: Field): Vec2 {
    match f
    case Position => p.position
    case Velocity => p.velocity
    case Force => p.force
  }

  /** Copy field `f` of every free point into its slot of `buf`; slots of
      fixed points keep what they held. */
  function Store(buf: seq<Vec2>, ps: seq<Point>, f: Field): (r: seq<Vec2>)
    requires |ps| <= |buf|
    ensures |r| == |buf|
  {
    seq(|buf|, i requires 0 <= i < |buf| => if i < |ps| && !ps[i].fixed then Get(ps[i], f) else buf[i])
  }

  /** One force evaluation: clear every accumulator, then `applyForces`. */
  function Evaluate(s: System, ps: seq<Point>, sqrt: real -> real): (r: seq<Point>)
    requires WellFormed(s) && |ps| == |s.points|
    ensures OnlyForces(ps, r) && Frame(ps, r)
  {
    var cleared := ClearForces(ps);
    var t := s.(points := cleared);
    assert WellFormed(t);
    var r := ApplyForces(t, sqrt);
    OnlyForcesTransitive(ps, cleared, r);
    OnlyForcesFrame(ps, r);
    r
  }

  // The update formulas of `step` are written once per coordinate, so that
  // laws about them are proved once, on reals.

  function DriftComponent(o: real, k: real, c: real, time: real): real {
    o + k * c * time
  }

  function KickComponent(o: real, k: real, c: real, time: real, m: real): real
    requires m != 0.0
  {
    o + k * c * time / m
  }

  function BlendComponent(o: real, k1: real, k2: real, k3: real, k4: real, h: real): real {
    o + h * (k1 + 2.0 * k2 + 2.0 * k3 + k4)
  }

  /** A position moved along velocity `kv` for `c * time`. */
  function Drift(op: Vec2, kv: Vec2, c: real, time: real): Vec2 {
    Vec2(DriftComponent(op.x, kv.x, c, time), DriftComponent(op.y, kv.y, c, time))
  }

  /** A velocity changed by force `kf` acting on mass `m` for `c * time`. */
  function Kick(ov: Vec2, kf: Vec2, c: real, time: real, m: real): Vec2
    requires m != 0.0
  {
    Vec2(KickComponent(ov.x, kf.x, c, time, m), KickComponent(ov.y, kf.y, c, time, m))
  }

  /** Move every free point to the trial state of the next stage: position
      `op + kv * c * time`, velocity `ov + kf * c * time / mass`. */
  function Advance(ps: seq<Point>, op: seq<Vec2>, ov: seq<Vec2>, kv: seq<Vec2>, kf: seq<Vec2>,
                   c: real, time: real): (r: seq<Point>)
    requires Movable(ps)
    requires |ps| <= |op| && |ps| <= |ov| && |ps| <= |kv| && |ps| <= |kf|
    ensures Frame(ps, r) && Movable(r)
    ensures forall i :: 0 <= i < |ps| ==> r[i].force == ps[i].force
  {
    seq(|ps|, i requires 0 <= i < |ps| =>
      var p := ps[i];
      if p.fixed then p
      else p.(position := Drift(op[i], kv[i], c, time), velocity := Kick(ov[i], kf[i], c, time, p.mass)))
  }

  /** `o` moved by `h` times the RK4 weighting 1, 2, 2, 1 of the stages. */
  function Blend(o: Vec2, k1: Vec2, k2: Vec2, k3: Vec2, k4: Vec2, h: real): Vec2 {
    Vec2(BlendComponent(o.x, k1.x, k2.x, k3.x, k4.x, h), BlendComponent(o.y, k1.y, k2.y, k3.y, k4.y, h))
  }

  /** The weight of the forces in the velocity combine: a sixth of the step
      over the mass. */
  function ForceWeight(time: real, m: real): real
    requires m != 0.0
  {
    time / (6.0 * m)
  }

  /** The final loop of `step`: every point ages by `time`; every free point
      moves by the weighted sum of the four stages. */
  function Combine(ps: seq<Point>, b: Integrator, time: real): (r: seq<Point>)
    requires Movable(ps) && Consistent(b) && |ps| <= |b.originalPositions|
    ensures |r| == |ps|
    ensures forall i :: 0 <= i < |ps| ==>
      && r[i].fixed == ps[i].fixed && r[i].mass == ps[i].mass && r[i].force == ps[i].force
      && r[i].age == ps[i].age + time
      && (ps[i].fixed ==> r[i].position == ps[i].position && r[i].velocity == ps[i].velocity)
  {
    seq(|ps|, i requires 0 <= i < |ps| =>
      var p := ps[i].(age := ps[i].age + time);
      if p.fixed then p
      else
        var op := b.originalPositions[i];
        var ov := b.originalVelocities[i];
        var k1v := b.k1Velocities[i];
        var k2v := b.k2Velocities[i];
        var k3v := b.k3Velocities[i];
        var k4v := b.k4Velocities[i];
        var k1f := b.k1Forces[i];
        var k2f := b.k2Forces[i];
        var k3f := b.k3Forces[i];
        var k4f := b.k4Forces[i];
        p.(position := Blend(op, k1v, k2v, k3v, k4v, time / 6.0),
           velocity := Blend(ov, k1f, k2f, k3f, k4f, ForceWeight(time, p.mass))))
  }

  lemma FrameMovable(ps: seq<Point>, qs: seq<Point>)
    requires Frame(ps, qs) && Movable(ps)
    ensures Movable(qs)
  {
  }

  /** Stages 2 to 4: move the free points from the originals along the
      previous stage's velocities and forces scaled by `c`, then evaluate
      the forces there. */
  function NextStage(s: System, prev: seq<Point>, op: seq<Vec2>, ov: seq<Vec2>, kv: seq<Vec2>, kf: seq<Vec2>,
                     c: real, time: real, sqrt: real -> real): (r: seq<Point>)
    requires WellFormed(s) && |prev| == |s.points| && Movable(prev)
    requires |prev| <= |op| && |prev| <= |ov| && |prev| <= |kv| && |prev| <= |kf|
    ensures Frame(prev, r) && Movable(r)
  {
    var q := Advance(prev, op, ov, kv, kf, c, time);
    var e := Evaluate(s, q, sqrt);
    FrameTransitive(prev, q, e);
    FrameMovable(prev, e);
    e
  }

  /** The state of one step before the final combine: the buffers, and the
      points as each of the four evaluations leaves them. */
  datatype Stages = Stages(buffers: Integrator, e1: seq<Point>, e2: seq<Point>, e3: seq<Point>, e4: seq<Point>)

  /** The four stages of `step(time)`, each evaluated at the originals
      advanced along the previous stage. The buffers come out equally long
      and large enough for every point, and no stage moves a fixed point or
      changes a flag, a mass or an age; `StageStates`, `StagesEvaluated` and
      `StoredStages` say what the stages and the buffers hold. */
  function RunStages(s: System, it: Integrator, time: real, sqrt: real -> real): (r: Stages)
    requires WellFormed(s) && Consistent(it) && Movable(s.points)
    ensures Consistent(r.buffers) && |s.points| <= |r.buffers.originalPositions|
    ensures |r.buffers.originalPositions|
         == if |it.originalPositions| < |s.points| then |s.points| else |it.originalPositions|
    ensures Frame(s.points, r.e1) && Frame(s.points, r.e2) && Frame(s.points, r.e3) && Frame(s.points, r.e4)
    ensures Movable(r.e1) && Movable(r.e2) && Movable(r.e3) && Movable(r.e4)
  {
    var ps := s.points;
    var b := Allocated(it, |ps|);
    var op := Store(b.originalPositions, ps, Position);
    var ov := Store(b.originalVelocities, ps, Velocity);
    var e1 := Evaluate(s, ps, sqrt);
    var k1f := Store(b.k1Forces, e1, Force);
    var k1v := Store(b.k1Velocities, e1, Velocity);
    var e2 := NextStage(s, e1, op, ov, k1v, k1f, 0.5, time, sqrt);
    var k2f := Store(b.k2Forces, e2, Force);
    var k2v := Store(b.k2Velocities, e2, Velocity);
    var e3 := NextStage(s, e2, op, ov, k2v, k2f, 0.5, time, sqrt);
    var k3f := Store(b.k3Forces, e3, Force);
    var k3v := Store(b.k3Velocities, e3, Velocity);
    var e4 := NextStage(s, e3, op, ov, k3v, k3f, 1.0, time, sqrt);
    var k4f := Store(b.k4Forces, e4, Force);
    var k4v := Store(b.k4Velocities, e4, Velocity);
    FrameTransitive(ps, e1, e2);
    FrameTransitive(ps, e2, e3);
    FrameTransitive(ps, e3, e4);
    Stages(Integrator(op, ov, k1f, k1v, k2f, k2v, k3f, k3v, k4f, k4v), e1, e2, e3, e4)
  }

  /** A trial stage moves a free point to the originals advanced by `c`
      times the step along `kv` and `kf`, and keeps it there while the forces
      are evaluated. */
  lemma NextStageAt(s: System, prev: seq<Point>, op: seq<Vec2>, ov: seq<Vec2>, kv: seq<Vec2>, kf: seq<Vec2>,
                    c: real, time: real, sqrt: real -> real, i: nat)
    requires WellFormed(s) && |prev| == |s.points| && Movable(prev)
    requires |prev| <= |op| && |prev| <= |ov| && |prev| <= |kv| && |prev| <= |kf|
    requires i < |prev| && !prev[i].fixed
    ensures var e := NextStage(s, prev, op, ov, kv, kf, c, time, sqrt);
            && e[i].position == Drift(op[i], kv[i], c, time)
            && e[i].velocity == Kick(ov[i], kf[i], c, time, prev[i].mass)
  {
    var q := Advance(prev, op, ov, kv, kf, c, time);
    var e := Evaluate(s, q, sqrt);
    assert NextStage(s, prev, op, ov, kv, kf, c, time, sqrt) == e;
    assert e[i] == q[i].(force := e[i].force);
  }

  /** The states the four evaluations see, for a free point starting at
      position `p0` with velocity `v0`: the first at `p0`, `v0`; each later
      one at `p0`, `v0` advanced along the previous stage's velocity and
      force, by half the step for the second and third and by the whole step
      for the fourth. */
  lemma StageStates(s: System, it: Integrator, time: real, sqrt: real -> real, i: nat)
    requires WellFormed(s) && Consistent(it) && Movable(s.points)
    requires i < |s.points| && !s.points[i].fixed
    ensures var st := RunStages(s, it, time, sqrt);
            var p := s.points[i];
            && st.e1[i].position == p.position && st.e1[i].velocity == p.velocity
            && st.e2[i].position == Drift(p.position, st.e1[i].velocity, 0.5, time)
            && st.e2[i].velocity == Kick(p.velocity, st.e1[i].force, 0.5, time, p.mass)
            && st.e3[i].position == Drift(p.position, st.e2[i].velocity, 0.5, time)
            && st.e3[i].velocity == Kick(p.velocity, st.e2[i].force, 0.5, time, p.mass)
            && st.e4[i].position == Drift(p.position, st.e3[i].velocity, 1.0, time)
            && st.e4[i].velocity == Kick(p.velocity, st.e3[i].force, 1.0, time, p.mass)
  {
    var st := RunStages(s, it, time, sqrt);
    var b := st.buffers;
    var e1 := Evaluate(s, s.points, sqrt);
    assert st.e1 == e1;
    assert e1[i] == s.points[i].(force := e1[i].force);
    StoredOriginals(s, it, time, sqrt, i);
    StoredStages(s, it, time, sqrt, i);
    NextStageAt(s, st.e1, b.originalPositions, b.originalVelocities, b.k1Velocities, b.k1Forces, 0.5, time, sqrt, i);
    NextStageAt(s, st.e2, b.originalPositions, b.originalVelocities, b.k2Velocities, b.k2Forces, 0.5, time, sqrt, i);
    NextStageAt(s, st.e3, b.originalPositions, b.originalVelocities, b.k3Velocities, b.k3Forces, 1.0, time, sqrt, i);
  }

  /** Clearing the accumulators forgets everything a force-only change did. */
  lemma ClearForcesOnlyForces(ps: seq<Point>, qs: seq<Point>)
    requires OnlyForces(ps, qs)
    ensures ClearForces(qs) == ClearForces(ps)
  {
    forall i | 0 <= i < |ps|
      ensures ClearForces(qs)[i] == ClearForces(ps)[i]
    {
      assert qs[i] == ps[i].(force := qs[i].force);
    }
  }

  /** Evaluating an evaluated state again gives the same forces: an
      evaluation depends only on positions and velocities. */
  lemma EvaluateSettled(s: System, ps: seq<Point>, sqrt: real -> real)
    requires WellFormed(s) && |ps| == |s.points|
    ensures Evaluate(s, Evaluate(s, ps, sqrt), sqrt) == Evaluate(s, ps, sqrt)
  {
    ClearForcesOnlyForces(ps, Evaluate(s, ps, sqrt));
  }

  /** `applyForces` runs four times: every stage holds exactly the forces
      that a fresh evaluation (accumulators cleared, then `applyForces`)
      computes at that stage's positions and velocities. */
  lemma StagesEvaluated(s: System, it: Integrator, time: real, sqrt: real -> real)
    requires WellFormed(s) && Consistent(it) && Movable(s.points)
    ensures var st := RunStages(s, it, time, sqrt);
            && Evaluate(s, st.e1, sqrt) == st.e1 && Evaluate(s, st.e2, sqrt) == st.e2
            && Evaluate(s, st.e3, sqrt) == st.e3 && Evaluate(s, st.e4, sqrt) == st.e4
  {
    var st := RunStages(s, it, time, sqrt);
    var b := st.buffers;
    EvaluateSettled(s, s.points, sqrt);
    var q2 := Advance(st.e1, b.originalPositions, b.originalVelocities, b.k1Velocities, b.k1Forces, 0.5, time);
    assert st.e2 == Evaluate(s, q2, sqrt);
    EvaluateSettled(s, q2, sqrt);
    var q3 := Advance(st.e2, b.originalPositions, b.originalVelocities, b.k2Velocities, b.k2Forces, 0.5, time);
    assert st.e3 == Evaluate(s, q3, sqrt);
    EvaluateSettled(s, q3, sqrt);
    var q4 := Advance(st.e3, b.originalPositions, b.originalVelocities, b.k3Velocities, b.k3Forces, 1.0, time);
    assert st.e4 == Evaluate(s, q4, sqrt);
    EvaluateSettled(s, q4, sqrt);
  }

  /** Only the number of points matters to the endpoint indices. */
  lemma SamePointCount(s: System, ps: seq<Point>)
    requires WellFormed(s) && |ps| == |s.points|
    ensures WellFormed(s.(points := ps))
  {
  }

  /** A frame followed by the combine: flags and masses kept, ages moved on
      by `time`, fixed points still in place. */
  lemma AgedFrame(ps: seq<Point>, qs: seq<Point>, rs: seq<Point>, time: real)
    requires Frame(ps, qs) && |rs| == |qs|
    requires forall i :: 0 <= i < |qs| ==>
      && rs[i].fixed == qs[i].fixed && rs[i].mass == qs[i].mass && rs[i].age == qs[i].age + time
      && (qs[i].fixed ==> rs[i].position == qs[i].position && rs[i].velocity == qs[i].velocity)
    ensures Movable(ps) ==> Movable(rs)
    ensures forall i :: 0 <= i < |ps| ==>
      && rs[i].fixed == ps[i].fixed && rs[i].mass == ps[i].mass && rs[i].age == ps[i].age + time
      && (ps[i].fixed ==> rs[i].position == ps[i].position && rs[i].velocity == ps[i].velocity)
  {
  }

  /** The system after the combine of the stages `st`: the points ageing by
      `time` and the free ones moved, everything else as in `s`. */
  function Finish(s: System, st: Stages, time: real): (r: System)
    requires WellFormed(s) && Movable(s.points) && Frame(s.points, st.e4) && Movable(st.e4)
    requires Consistent(st.buffers) && |s.points| <= |st.buffers.originalPositions|
    ensures r == s.(points := r.points) && WellFormed(r) && Movable(r.points)
    ensures |r.points| == |s.points|
    ensures forall i :: 0 <= i < |s.points| ==>
      && r.points[i].fixed == s.points[i].fixed && r.points[i].mass == s.points[i].mass
      && r.points[i].age == s.points[i].age + time
      && r.points[i].force == st.e4[i].force
    ensures forall i :: 0 <= i < |s.points| && s.points[i].fixed ==>
      r.points[i].position == s.points[i].position && r.points[i].velocity == s.points[i].velocity
  {
    var ps := Combine(st.e4, st.buffers, time);
    SamePointCount(s, ps);
    AgedFrame(s.points, st.e4, ps, time);
    s.(points := ps)
  }

  /** `step(time)`: allocate, evaluate the four stages, combine. Nothing but
      the points changes in the system; every point ages by `time`; fixed
      points keep their position and velocity; the buffers have grown to the
      point count; and the force accumulators are left holding the fourth
      evaluation, not cleared. */
  function Step(s: System, it: Integrator, time: real, sqrt: real -> real): (r: (System, Integrator))
    requires WellFormed(s) && Consistent(it) && Movable(s.points)
    ensures r.0 == s.(points := r.0.points) && WellFormed(r.0) && Movable(r.0.points)
    ensures |r.0.points| == |s.points|
    ensures forall i :: 0 <= i < |s.points| ==>
      && r.0.points[i].fixed == s.points[i].fixed && r.0.points[i].mass == s.points[i].mass
      && r.0.points[i].age == s.points[i].age + time
    ensures forall i :: 0 <= i < |s.points| && s.points[i].fixed ==>
      r.0.points[i].position == s.points[i].position && r.0.points[i].velocity == s.points[i].velocity
    ensures Consistent(r.1)
    ensures |r.1.originalPositions| == if |it.originalPositions| < |s.points| then |s.points| else |it.originalPositions|
    ensures var st := RunStages(s, it, time, sqrt);
            && r.1 == st.buffers
            && forall i :: 0 <= i < |s.points| ==> r.0.points[i].force == st.e4[i].force
  {
    var st := RunStages(s, it, time, sqrt);
    (Finish(s, st, time), st.buffers)
  }

  /** Where one step leaves a free point, whatever the forces: at its
      position plus the 1, 2, 2, 1 weighting of the four stages' velocities
      times a sixth of the step, with its velocity plus the same weighting of
      the four stages' forces times a sixth of the step over its mass. */
  lemma StepFreePoint(s: System, it: Integrator, time: real, sqrt: real -> real, i: nat)
    requires WellFormed(s) && Consistent(it) && Movable(s.points)
    requires i < |s.points| && !s.points[i].fixed
    ensures var st := RunStages(s, it, time, sqrt);
            var q := Step(s, it, time, sqrt).0.points[i];
            var p := s.points[i];
            && q.position == Blend(p.position, st.e1[i].velocity, st.e2[i].velocity,
                                   st.e3[i].velocity, st.e4[i].velocity, time / 6.0)
            && q.velocity == Blend(p.velocity, st.e1[i].force, st.e2[i].force,
                                   st.e3[i].force, st.e4[i].force, ForceWeight(time, p.mass))
  {
    var st := RunStages(s, it, time, sqrt);
    var p := s.points[i];
    var c := Combine(st.e4, st.buffers, time)[i];
    assert Step(s, it, time, sqrt).0.points[i] == c by {
      StepIsCombine(s, it, time, sqrt);
    }
    assert c.position == Blend(p.position, st.e1[i].velocity, st.e2[i].velocity,
                               st.e3[i].velocity, st.e4[i].velocity, time / 6.0)
        && c.velocity == Blend(p.velocity, st.e1[i].force, st.e2[i].force,
                               st.e3[i].force, st.e4[i].force, ForceWeight(time, p.mass)) by {
      StoredOriginals(s, it, time, sqrt, i);
      StoredStages(s, it, time, sqrt, i);
      CombineStages(st, p, time, i);
    }
  }

  /** The combine in terms of the stages whose values the buffers hold. */
  lemma CombineStages(st: Stages, p: Point, time: real, i: nat)
    requires Movable(st.e4) && Consistent(st.buffers) && |st.e4| <= |st.buffers.originalPositions|
    requires i < |st.e1| && i < |st.e2| && i < |st.e3| && i < |st.e4|
    requires !st.e4[i].fixed && st.e4[i].mass == p.mass
    requires var b := st.buffers;
             && b.originalPositions[i] == p.position && b.originalVelocities[i] == p.velocity
             && b.k1Forces[i] == st.e1[i].force && b.k1Velocities[i] == st.e1[i].velocity
             && b.k2Forces[i] == st.e2[i].force && b.k2Velocities[i] == st.e2[i].velocity
             && b.k3Forces[i] == st.e3[i].force && b.k3Velocities[i] == st.e3[i].velocity
             && b.k4Forces[i] == st.e4[i].force && b.k4Velocities[i] == st.e4[i].velocity
    ensures Combine(st.e4, st.buffers, time)[i].position
         == Blend(p.position, st.e1[i].velocity, st.e2[i].velocity, st.e3[i].velocity, st.e4[i].velocity, time / 6.0)
    ensures Combine(st.e4, st.buffers, time)[i].velocity
         == Blend(p.velocity, st.e1[i].force, st.e2[i].force, st.e3[i].force, st.e4[i].force, ForceWeight(time, p.mass))
  {
    CombineAt(st.e4, st.buffers, time, i);
  }

  lemma StepIsCombine(s: System, it: Integrator, time: real, sqrt: real -> real)
    requires WellFormed(s) && Consistent(it) && Movable(s.points)
    ensures var st := RunStages(s, it, time, sqrt);
            Step(s, it, time, sqrt).0.points == Combine(st.e4, st.buffers, time)
  {
  }

  // ---------------------------------------------------------------------
  // Exactness under a constant force

  /** The constant force every point feels when the system has no springs,
      no attractions and no drag: the gravity, unless it passes `isZero`. */
  function ConstantForce(s: System, sqrt: real -> real): Vec2 {
    if IsZero(s.gravity, sqrt) then Zero else s.gravity
  }

  /** Without springs, attractions or drag, every evaluation leaves exactly
      the constant force on every point. */
  lemma EvaluateConstant(s: System, ps: seq<Point>, sqrt: real -> real)
    requires WellFormed(s) && |ps| == |s.points|
    requires s.springs == [] && s.attractions == [] && s.drag == 0.0
    ensures forall i :: 0 <= i < |ps| ==> Evaluate(s, ps, sqrt)[i].force == ConstantForce(s, sqrt)
  {
    var t := s.(points := ClearForces(ps));
    var g := ApplyGravity(t.points, t.gravity, sqrt);
    NoDrag(g);
    assert ApplyForces(t, sqrt) == g;
    forall i | 0 <= i < |ps|
      ensures g[i].force == ConstantForce(s, sqrt)
    {
      assert AddSelf(Zero, s.gravity) == s.gravity;
    }
  }

  /** Uniform acceleration `f / m` for time `t`, one coordinate: where a
      body starting at `p0` with speed `v0` ends up, ... */
  function UniformPositionComponent(p0: real, v0: real, f: real, m: real, t: real): real
    requires m != 0.0
  {
    p0 + v0 * t + f * t * t / (2.0 * m)
  }

  /** ... and how fast it then moves. */
  function UniformVelocityComponent(v0: real, f: real, m: real, t: real): real
    requires m != 0.0
  {
    v0 + f * t / m
  }

  /** The scalar identity behind exactness: with stage velocities `v0`,
      `v0 + a t/2`, `v0 + a t/2`, `v0 + a t` (`a = f / m`), the weighted
      combine of positions is the constant-acceleration position. */
  lemma ConstantAccelerationPosition(p0: real, v0: real, f: real, m: real, t: real)
    requires m != 0.0
    ensures var k2 := KickComponent(v0, f, 0.5, t, m);
            BlendComponent(p0, v0, k2, k2, KickComponent(v0, f, 1.0, t, m), t / 6.0)
            == UniformPositionComponent(p0, v0, f, m, t)
  {
    var a := f / m;
    assert KickComponent(v0, f, 0.5, t, m) == v0 + 0.5 * a * t;
    assert KickComponent(v0, f, 1.0, t, m) == v0 + a * t;
    assert UniformPositionComponent(p0, v0, f, m, t) == p0 + v0 * t + 0.5 * a * t * t;
  }

  /** With the same force `f` at every stage, the weighted combine of
      velocities is the constant-acceleration velocity. */
  lemma ConstantAccelerationVelocity(v0: real, f: real, m: real, t: real)
    requires m != 0.0
    ensures BlendComponent(v0, f, f, f, f, t / (6.0 * m)) == UniformVelocityComponent(v0, f, m, t)
  {
    assert t / (6.0 * m) * (6.0 * f) == f * t / m;
  }

  /** Uniform acceleration `f / m` for time `t`, from position `p0` and
      velocity `v0`: the position reached ... */
  function UniformPosition(p0: Vec2, v0: Vec2, f: Vec2, m: real, t: real): Vec2
    requires m != 0.0
  {
    Vec2(UniformPositionComponent(p0.x, v0.x, f.x, m, t), UniformPositionComponent(p0.y, v0.y, f.y, m, t))
  }

  /** ... and the velocity then. */
  function UniformVelocity(v0: Vec2, f: Vec2, m: real, t: real): Vec2
    requires m != 0.0
  {
    Vec2(UniformVelocityComponent(v0.x, f.x, m, t), UniformVelocityComponent(v0.y, f.y, m, t))
  }

  /** The combine of constant-force stages is uniform acceleration: in
      position, ... */
  lemma BlendConstantPosition(p0: Vec2, v0: Vec2, f: Vec2, m: real, t: real)
    requires m != 0.0
    ensures var k2 := Kick(v0, f, 0.5, t, m);
            Blend(p0, v0, k2, k2, Kick(v0, f, 1.0, t, m), t / 6.0) == UniformPosition(p0, v0, f, m, t)
  {
    ConstantAccelerationPosition(p0.x, v0.x, f.x, m, t);
    ConstantAccelerationPosition(p0.y, v0.y, f.y, m, t);
  }

  /** ... and in velocity. */
  lemma BlendConstantVelocity(v0: Vec2, f: Vec2, m: real, t: real)
    requires m != 0.0
    ensures Blend(v0, f, f, f, f, ForceWeight(t, m)) == UniformVelocity(v0, f, m, t)
  {
    ConstantAccelerationVelocity(v0.x, f.x, m, t);
    ConstantAccelerationVelocity(v0.y, f.y, m, t);
  }

  /** The combine of stages that all saw the same force `F` moves a free
      point as uniform acceleration does. */
  lemma CombineConstant(ps: seq<Point>, b: Integrator, time: real, i: nat, p: Point, F: Vec2)
    requires Movable(ps) && Consistent(b) && |ps| <= |b.originalPositions|
    requires i < |ps| && !ps[i].fixed && ps[i].mass == p.mass
    requires b.originalPositions[i] == p.position && b.originalVelocities[i] == p.velocity
    requires b.k1Forces[i] == F && b.k2Forces[i] == F && b.k3Forces[i] == F && b.k4Forces[i] == F
    requires b.k1Velocities[i] == p.velocity
    requires b.k2Velocities[i] == Kick(p.velocity, F, 0.5, time, p.mass)
    requires b.k3Velocities[i] == Kick(p.velocity, F, 0.5, time, p.mass)
    requires b.k4Velocities[i] == Kick(p.velocity, F, 1.0, time, p.mass)
    ensures Combine(ps, b, time)[i].position == UniformPosition(p.position, p.velocity, F, p.mass, time)
    ensures Combine(ps, b, time)[i].velocity == UniformVelocity(p.velocity, F, p.mass, time)
  {
    CombineAt(ps, b, time, i);
    BlendConstantPosition(p.position, p.velocity, F, p.mass, time);
    BlendConstantVelocity(p.velocity, F, p.mass, time);
  }

  /** What the combine leaves in slot `i` of a free point. */
  lemma CombineAt(ps: seq<Point>, b: Integrator, time: real, i: nat)
    requires Movable(ps) && Consistent(b) && |ps| <= |b.originalPositions|
    requires i < |ps| && !ps[i].fixed
    ensures Combine(ps, b, time)[i].position
         == Blend(b.originalPositions[i], b.k1Velocities[i], b.k2Velocities[i], b.k3Velocities[i], b.k4Velocities[i], time / 6.0)
    ensures Combine(ps, b, time)[i].velocity
         == Blend(b.originalVelocities[i], b.k1Forces[i], b.k2Forces[i], b.k3Forces[i], b.k4Forces[i], ForceWeight(time, ps[i].mass))
  {
  }

  lemma StoreAt(buf: seq<Vec2>, ps: seq<Point>, f: Field, i: nat)
    requires |ps| <= |buf| && i < |ps| && !ps[i].fixed
    ensures Store(buf, ps, f)[i] == Get(ps[i], f)
  {
  }

  /** Each buffer slot of a free point holds what its stage computed. */
  lemma StoredOriginals(s: System, it: Integrator, time: real, sqrt: real -> real, i: nat)
    requires WellFormed(s) && Consistent(it) && Movable(s.points)
    requires i < |s.points| && !s.points[i].fixed
    ensures var b := RunStages(s, it, time, sqrt).buffers;
            b.originalPositions[i] == s.points[i].position && b.originalVelocities[i] == s.points[i].velocity
  {
    var a := Allocated(it, |s.points|);
    StoreAt(a.originalPositions, s.points, Position, i);
    StoreAt(a.originalVelocities, s.points, Velocity, i);
  }

  lemma StoredStages(s: System, it: Integrator, time: real, sqrt: real -> real, i: nat)
    requires WellFormed(s) && Consistent(it) && Movable(s.points)
    requires i < |s.points| && !s.points[i].fixed
    ensures var st := RunStages(s, it, time, sqrt);
            var b := st.buffers;
            && b.k1Forces[i] == st.e1[i].force && b.k1Velocities[i] == st.e1[i].velocity
            && b.k2Forces[i] == st.e2[i].force && b.k2Velocities[i] == st.e2[i].velocity
            && b.k3Forces[i] == st.e3[i].force && b.k3Velocities[i] == st.e3[i].velocity
            && b.k4Forces[i] == st.e4[i].force && b.k4Velocities[i] == st.e4[i].velocity
  {
    var st := RunStages(s, it, time, sqrt);
    var a := Allocated(it, |s.points|);
    StoreAt(a.k1Forces, st.e1, Force, i);
    StoreAt(a.k1Velocities, st.e1, Velocity, i);
    StoreAt(a.k2Forces, st.e2, Force, i);
    StoreAt(a.k2Velocities, st.e2, Velocity, i);
    StoreAt(a.k3Forces, st.e3, Force, i);
    StoreAt(a.k3Velocities, st.e3, Velocity, i);
    StoreAt(a.k4Forces, st.e4, Force, i);
    StoreAt(a.k4Velocities, st.e4, Velocity, i);
  }

  /** The first evaluation under a constant force `F`: the point keeps its
      velocity and feels `F`. */
  lemma FirstStageConstant(s: System, it: Integrator, time: real, sqrt: real -> real, i: nat)
    requires WellFormed(s) && Consistent(it) && Movable(s.points)
    requires s.springs == [] && s.attractions == [] && s.drag == 0.0
    requires i < |s.points| && !s.points[i].fixed
    ensures var e1 := RunStages(s, it, time, sqrt).e1;
            e1[i].force == ConstantForce(s, sqrt) && e1[i].velocity == s.points[i].velocity
  {
    var e1 := RunStages(s, it, time, sqrt).e1;
    EvaluateConstant(s, s.points, sqrt);
    assert e1[i] == s.points[i].(force := e1[i].force);
  }

  /** The later evaluations under a constant force `F`: each feels `F`, and
      each velocity is the original one advanced by the previous stage's
      stored force. */
  lemma Stage2Constant(s: System, it: Integrator, time: real, sqrt: real -> real, i: nat)
    requires WellFormed(s) && Consistent(it) && Movable(s.points)
    requires s.springs == [] && s.attractions == [] && s.drag == 0.0
    requires i < |s.points| && !s.points[i].fixed
    ensures var st := RunStages(s, it, time, sqrt);
            var b := st.buffers;
            var m := s.points[i].mass;
            var ov := b.originalVelocities[i];
            && st.e2[i].force == ConstantForce(s, sqrt)
            && st.e2[i].velocity == Kick(ov, b.k1Forces[i], 0.5, time, m)
  {
    var st := RunStages(s, it, time, sqrt);
    var b := st.buffers;
    NextStageConstant(s, st.e1, b.originalPositions, b.originalVelocities, b.k1Velocities, b.k1Forces, 0.5, time, sqrt, i);
  }

  lemma Stage3Constant(s: System, it: Integrator, time: real, sqrt: real -> real, i: nat)
    requires WellFormed(s) && Consistent(it) && Movable(s.points)
    requires s.springs == [] && s.attractions == [] && s.drag == 0.0
    requires i < |s.points| && !s.points[i].fixed
    ensures var st := RunStages(s, it, time, sqrt);
            var b := st.buffers;
            var m := s.points[i].mass;
            var ov := b.originalVelocities[i];
            && st.e3[i].force == ConstantForce(s, sqrt)
            && st.e3[i].velocity == Kick(ov, b.k2Forces[i], 0.5, time, m)
  {
    var st := RunStages(s, it, time, sqrt);
    var b := st.buffers;
    NextStageConstant(s, st.e2, b.originalPositions, b.originalVelocities, b.k2Velocities, b.k2Forces, 0.5, time, sqrt, i);
  }

  lemma Stage4Constant(s: System, it: Integrator, time: real, sqrt: real -> real, i: nat)
    requires WellFormed(s) && Consistent(it) && Movable(s.points)
    requires s.springs == [] && s.attractions == [] && s.drag == 0.0
    requires i < |s.points| && !s.points[i].fixed
    ensures var st := RunStages(s, it, time, sqrt);
            var b := st.buffers;
            var m := s.points[i].mass;
            var ov := b.originalVelocities[i];
            && st.e4[i].force == ConstantForce(s, sqrt)
            && st.e4[i].velocity == Kick(ov, b.k3Forces[i], 1.0, time, m)
  {
    var st := RunStages(s, it, time, sqrt);
    var b := st.buffers;
    NextStageConstant(s, st.e3, b.originalPositions, b.originalVelocities, b.k3Velocities, b.k3Forces, 1.0, time, sqrt, i);
  }

  /** One later stage under a constant force: the point's velocity is the
      advanced one, and its force is the constant force. */
  lemma NextStageConstant(s: System, prev: seq<Point>, op: seq<Vec2>, ov: seq<Vec2>, kv: seq<Vec2>, kf: seq<Vec2>,
                          c: real, time: real, sqrt: real -> real, i: nat)
    requires WellFormed(s) && |prev| == |s.points| && Movable(prev)
    requires |prev| <= |op| && |prev| <= |ov| && |prev| <= |kv| && |prev| <= |kf|
    requires s.springs == [] && s.attractions == [] && s.drag == 0.0
    requires i < |prev| && !prev[i].fixed
    ensures var e := NextStage(s, prev, op, ov, kv, kf, c, time, sqrt);
            && e[i].force == ConstantForce(s, sqrt)
            && e[i].velocity == Kick(ov[i], kf[i], c, time, prev[i].mass)
  {
    var q := Advance(prev, op, ov, kv, kf, c, time);
    var e := Evaluate(s, q, sqrt);
    EvaluateConstant(s, q, sqrt);
    AdvanceAt(prev, op, ov, kv, kf, c, time, i);
    assert NextStage(s, prev, op, ov, kv, kf, c, time, sqrt) == e;
    assert e[i] == q[i].(force := e[i].force);
  }

  lemma AdvanceAt(ps: seq<Point>, op: seq<Vec2>, ov: seq<Vec2>, kv: seq<Vec2>, kf: seq<Vec2>,
                  c: real, time: real, i: nat)
    requires Movable(ps)
    requires |ps| <= |op| && |ps| <= |ov| && |ps| <= |kv| && |ps| <= |kf|
    requires i < |ps| && !ps[i].fixed
    ensures Advance(ps, op, ov, kv, kf, c, time)[i].velocity == Kick(ov[i], kf[i], c, time, ps[i].mass)
  {
  }

  /** RK4 is exact for a constant force: with no springs, no attractions and
      no drag, one step moves a free point exactly as uniform acceleration
      `F / mass` would, and leaves `F` as its force. */
  lemma ConstantForceStep(s: System, it: Integrator, time: real, sqrt: real -> real, i: nat)
    requires WellFormed(s) && Consistent(it) && Movable(s.points)
    requires s.springs == [] && s.attractions == [] && s.drag == 0.0
    requires i < |s.points| && !s.points[i].fixed
    ensures var q := Step(s, it, time, sqrt).0.points[i];
            var p := s.points[i];
            var F := ConstantForce(s, sqrt);
            && q.force == F
            && q.position == UniformPosition(p.position, p.velocity, F, p.mass, time)
            && q.velocity == UniformVelocity(p.velocity, F, p.mass, time)
  {
    var st := RunStages(s, it, time, sqrt);
    var p := s.points[i];
    var F := ConstantForce(s, sqrt);
    StoredOriginals(s, it, time, sqrt, i);
    StoredStages(s, it, time, sqrt, i);
    FirstStageConstant(s, it, time, sqrt, i);
    Stage2Constant(s, it, time, sqrt, i);
    Stage3Constant(s, it, time, sqrt, i);
    Stage4Constant(s, it, time, sqrt, i);
    var b := st.buffers;
    assert st.e4[i].mass == p.mass;
    CombineConstant(st.e4, b, time, i, p, F);
    assert Step(s, it, time, sqrt).0.points[i] == Combine(st.e4, b, time)[i];
  }
}
