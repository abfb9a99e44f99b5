/** A running simulation: a system together with the integrator its
    constructor creates, and the `tick()` that drives them. */
module Simulations {
  import opened JsValues
  import opened Points
  import opened Systems
  import Integrators

  datatype Simulation = Simulation(system: System, integrator: Integrators.Integrator)

  /** What every operation keeps: the springs and attractions join points of
      the system, the buffers agree in length, and free points have a mass. */
  predicate Ready(sim: Simulation) {
    && WellFormed(sim.system)
    && Integrators.Consistent(sim.integrator)
    && Integrators.Movable(sim.system.points)
  }

  /** `new PointSystem(gravityX, gravityY, drag)` with its fresh
      integrator. */
  function New(gravityX: Option<real>, gravityY: Option<real>, drag: Option<real>): (sim: Simulation)
    ensures Ready(sim)
    ensures sim.system == Systems.New(gravityX, gravityY, drag)
    ensures |sim.integrator.originalPositions| == 0
  {
    Simulation(Systems.New(gravityX, gravityY, drag), Integrators.New())
  }

  /** `tick(time)`: one integrator step of `time`, 1 when the argument is
      omitted; then, in an optimized system only, `equilibrium` records
      whether the system is now at rest. */
  method Tick(sim: Simulation, time: Option<real>, sqrt: real -> real) returns (r: Simulation)
    requires Ready(sim)
    ensures Ready(r)
    ensures var t := time.GetOr(1.0);
            var stepped := Integrators.Step(sim.system, sim.integrator, t, sqrt);
            && r.integrator == stepped.1
            && r.system == stepped.0.(equilibrium := r.system.equilibrium)
    ensures r.system.equilibrium == if sim.system.optimized then AtRest(r.system, sqrt) else sim.system.equilibrium
    ensures |r.system.points| == |sim.system.points|
    ensures forall i :: 0 <= i < |sim.system.points| ==>
      r.system.points[i].age == sim.system.points[i].age + time.GetOr(1.0)
    ensures forall i :: 0 <= i < |sim.system.points| && sim.system.points[i].fixed ==>
      r.system.points[i].position == sim.system.points[i].position
      && r.system.points[i].velocity == sim.system.points[i].velocity
  {
    var stepped := Integrators.Step(sim.system, sim.integrator, time.GetOr(1.0), sqrt);
    var s := stepped.0;
    if s.optimized {
      var busy := NeedsUpdate(s, sqrt);
      s := s.(equilibrium := !busy);
    }
    r := Simulation(s, stepped.1);
  }

  /** A system whose points are all fixed comes to equilibrium on the first
      tick once it is optimized. */
  method TickAllFixed(sim: Simulation, time: Option<real>, sqrt: real -> real) returns (r: Simulation)
    requires Ready(sim) && sim.system.optimized
    requires forall i :: 0 <= i < |sim.system.points| ==> sim.system.points[i].fixed
    ensures r.system.equilibrium
  {
    r := Tick(sim, time, sqrt);
    AllFixedAtRest(r.system, sqrt);
  }
}
