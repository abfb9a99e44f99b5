# Physics: a verified model of the particle engine

This project models the engine of the Physics 2-D particle simulator in Dafny and proves properties about it. The model covers five parts:

- vector arithmetic (`Vec2` and the older `Vector`);
- point masses (`Point`, and the identical `Particle`);
- the two-body force elements `Spring` and `Attraction`;
- the system container (`PointSystem`, and the same-shaped `ParticleSystem`) with its `applyForces`, `needsUpdate` and `tick`;
- the fixed-step fourth-order Runge-Kutta `Integrator`.

The compiled `dist/` files are the same model. The only difference is that `dist/Vec2.js` gives `lerp` a default `t` of 1.

## How the model maps to the code

- **Values instead of mutation.** Every mutating method (`addSelf`, `fix`, `update`, `step`, …) becomes a pure function that returns the new value. `copy`, `clone` and `clear` are folded into plain values.
- **Points live in a sequence.** A system's points are a `seq<Point>`. Springs and attractions name their endpoints by index into that sequence. `Systems.WellFormed` says every index is in range.
- **Numbers are reals.** Floating point is replaced by `real`.
- **The square root is a parameter.** Every operation that takes a length receives a `sqrt: real -> real` argument. Laws that need the square-root law require `Vectors.IsSqrt(sqrt)`. Guards, no-op cases, fixed-point rules and action/reaction hold for any `sqrt`.
- **Optional arguments** are `JsValues.Option` (`None` stands for an omitted argument).
- **Calls that throw** are `JsValues.Completion`.
- **The integrator's scratch buffers** are an `Integrators.Integrator` value. A `Simulations.Simulation` pairs it with the system it steps, in place of the integrator's back-reference to the system.

Modules:

| file | module | models |
|---|---|---|
| js_values.dfy | JsValues | optional arguments and thrown errors |
| reals.dfy | Reals | real-arithmetic helpers (squares, monotonicity) |
| vectors.dfy | Vectors | `Vec2`, `Vector` |
| points.dfy | Points | `Point`, `Particle` |
| accumulation.dfy | Accumulation | adding and subtracting a force on a point of a sequence |
| springs.dfy | Springs | `Spring` |
| attractions.dfy | Attractions | `Attraction` |
| systems.dfy | Systems | `PointSystem`, `ParticleSystem` without `tick` |
| integrators.dfy | Integrators | `Integrator` |
| simulations.dfy | Simulations | a system with its integrator, and `tick` |

## Model

| member | source | states |
|---|---|---|
| Vectors.SetStores | src/Vector.js:21-26 | `set(x, y)` stores exactly the given coordinates; omitted coordinates are 0 |
| Vectors.Set | src/Vec2.js:36-41 | defines `set`; `SetStores` states what it stores |
| Vectors.Add | src/Vec2.js:86-91 | `add(v1, v2)` writes a value from which taking `v2` away gives back `v1`, whatever the receiver held |
| Vectors.Sub | src/Vec2.js:115-120 | defines `sub`; `AddSubInverse` states that adding `v2` back gives `v1` |
| Vectors.MultiplySelf | src/Vec2.js:143-148 | defines the componentwise product; `MultiplySelfLaws` states its laws |
| Vectors.MultiplySelfLaws | src/Vec2.js:143-148 | the componentwise product commutes, is absorbed by the zero vector, has (1, 1) as unit, and with equal components is `multiplyScalar` |
| Vectors.MultiplyScalar | src/Vec2.js:157-162 | defines scaling; `ScaledLengthSquared`, `ScaleZero` and `NegateInvolution` state its laws |
| Vectors.DivideScalar | src/Vec2.js:171-180 | dividing by 0 gives the zero vector; for any other divisor, multiplying the result by it gives back the input |
| Vectors.DivideZero | dist/Vec2.js:226-236 | the zero vector divided by any scalar, 0 included, stays zero |
| Vectors.DividedLengthSquared | src/Vector.js:88-97 | dividing by `s` divides the squared length by `s²` |
| Vectors.ScaleZero | src/Vector.js:81-86 | scaling the zero vector gives the zero vector |
| Vectors.ScaledLengthSquared | src/Vec2.js:157-162 | scaling by `s` multiplies the squared length by `s²` |
| Vectors.Negate | src/Vector.js:99-101 | the negation is the additive inverse: adding it to the vector gives zero |
| Vectors.NegateInvolution | src/Vec2.js:187-189 | negation is multiplication by -1, is its own inverse, and equals subtracting from zero |
| Vectors.AddSubInverse | src/Vec2.js:86-134 | `subSelf(v)` undoes `addSelf(v)`; `addSelf(b)` undoes `sub(a, b)`; `add` and `sub` write the same sum and difference as `addSelf` and `subSelf`, independent of the receiver's old value |
| Vectors.SubIsAddNegate | src/Vector.js:67-72 | subtracting is adding the negation |
| Vectors.DotSymmetric | src/Vec2.js:198-200 | the dot product is symmetric |
| Vectors.Dot | src/Vec2.js:198-200 | defines the dot product; `DotSymmetric`, `DotExamples` and `LengthSquared` state its laws |
| Vectors.LengthSquared | src/Vec2.js:207-209 | the squared length is the vector dotted with itself; it is never negative, and it is zero exactly for the zero vector |
| Vectors.DotExamples | test/vec2.test.js:156-208 | (2,4)·(1,3) = 14; the squared length of (2,4) is 20; the squared distances (0,0)–(2,4) and (5,5)–(1,1) are 20 and 32 |
| Vectors.DistanceToSquared | src/Vec2.js:247-252 | the squared distance is never negative, and it is zero exactly when the two vectors are equal |
| Vectors.DistanceSquaredSymmetric | src/Vector.js:123-128 | the squared distance is symmetric, and zero from a vector to itself |
| Vectors.DistanceToSymmetric | src/Vec2.js:236-238 | the distance is symmetric for any square root |
| Vectors.Length | src/Vec2.js:216-218 | defines the length as the square root of `lengthSquared`; `IsZeroIff` and `NormalizeIsUnit` use it under a true square root |
| Vectors.DistanceTo | src/Vec2.js:236-238 | defines the distance as the square root of `distanceToSquared`; `DistanceToSymmetric` and `EqualsIff` state its laws |
| Vectors.Normalize | src/Vec2.js:225-227 | defines `normalize` through the guarded divide; `NormalizeIsUnit` states the result has length 1 or is zero |
| Vectors.SetLength | src/Vec2.js:261-263 | defines `setLength`; `SetLengthHasLength` states the resulting length |
| Vectors.NormalizeIsUnit | src/Vec2.js:225-227 | the zero vector normalizes to zero; every other vector normalizes to squared length 1 |
| Vectors.SetLengthHasLength | src/Vec2.js:261-263 | a non-zero vector set to length `l` has squared length `l²` |
| Vectors.EqualsIff | src/Vec2.js:272-274 | `equals` holds exactly when the squared distance is below the squared tolerance 0.0001² |
| Vectors.Equals | src/Vec2.js:272-274 | defines `equals` as distance below the tolerance; `EqualsIff`, `EqualsSymmetric`, `EqualsReflexive` and `EqualsExample` state its laws |
| Vectors.EqualsSymmetric | src/Vector.js:134-136 | `equals` is symmetric |
| Vectors.EqualsReflexive | dist/Vec2.js:354-357 | every vector `equals` itself |
| Vectors.EqualsExample | test/vec2.test.js:221-232 | (5,5) equals (5,5); (5,5) does not equal (1,1) |
| Vectors.Lerp | src/Vec2.js:284-289 | interpolating with t = 0 leaves the vector, and with t = 1 reaches the target |
| Vectors.LerpOr | dist/Vec2.js:369-377 | with `t` omitted the compiled `lerp` reaches the target; with `t` given it is `lerp` |
| Vectors.IsZeroIff | src/Vec2.js:296-298 | `isZero` holds exactly when the squared length is below the squared tolerance |
| Vectors.IsZero | src/Vec2.js:296-298 | defines `isZero` as length below the tolerance; `IsZeroIff` and `ZeroIsZero` state its laws |
| Vectors.ZeroIsZero | src/Vector.js:145-147 | the zero vector passes `isZero` |
| Points.New | src/Point.js:26-38 | a new point sits at (x, y), the origin by default, with zero velocity and force; it is free, aged 0 and alive; its mass is the given one, or 1 when omitted |
| Points.NewIsResting | dist/Point.js:40-59 | a new point is resting, and it equals a reset point with the default mass |
| Points.DistanceSymmetric | src/Particle.js:47-49 | the distance between points is symmetric |
| Points.DistanceTo | src/Point.js:47-49 | defines the distance between positions; `DistanceSymmetric` and `DistanceToSelf` state its laws |
| Points.DistanceToSelf | dist/Point.js:70-73 | a point is at distance 0 from itself |
| Points.Fix | src/Point.js:56-61 | `fix` pins the point and zeroes its velocity; position, force, mass, age and the dead flag are kept |
| Points.FixLaws | src/Particle.js:56-61 | fixing is idempotent; a fixed point is resting whatever its motion |
| Points.RestingIff | src/Point.js:86-88 | a point is resting exactly when it is fixed, or when its velocity and force both have squared length below the squared tolerance |
| Points.Resting | src/Point.js:86-88 | defines `resting`; `RestingIff`, `FixLaws`, `NewIsResting` and `ResetIsResting` state its laws |
| Points.ResetAsWritten | src/Point.js:68-79 | `reset` as written throws a TypeError on every point |
| Points.Reset | src/Particle.js:68-79 | without the failing call, reset zeroes velocity and force, restores mass 1, age 0 and alive, and keeps the position and the fixed flag |
| Points.ResetLaws | dist/Point.js:97-109 | resetting is idempotent and never unpins a point |
| Points.ResetIsResting | src/Point.js:68-88 | a reset point is resting |
| Accumulation.PushForce | src/Spring.js:78-80 | adding a force leaves every point other than the chosen one unchanged, and keeps the count |
| Accumulation.PullForce | src/Spring.js:81-83 | subtracting a force leaves every point other than the chosen one unchanged, and keeps the count |
| Accumulation.PushPullOnlyForces | src/Attraction.js:64-69 | adding or subtracting a force touches only force accumulators and never a fixed point |
| Accumulation.PushPullZero | src/Spring.js:76-83 | adding or subtracting the zero vector changes nothing |
| Accumulation.TotalForceReplace | src/Spring.js:78-83 | replacing one accumulator changes the total force by exactly the difference |
| Accumulation.TotalForcePushPull | src/Attraction.js:64-69 | adding `f` on a free point raises the total force by `f`; subtracting lowers it by `f` |
| Accumulation.EqualAndOpposite | dist/Spring.js:98-105 | adding `f` on one free point and subtracting it on another leaves the total force unchanged |
| Accumulation.PushThenPull | src/Spring.js:76-83 | the spring's application step changes only forces of the two endpoints, never a fixed point's; it keeps the total when both are free, and is the identity for a zero force |
| Accumulation.PullThenPush | src/Attraction.js:64-69 | the attraction's application step has the same guarantees, with the signs swapped |
| Accumulation.TwoBodyForces | dist/Attraction.js:82-93 | the two free endpoints receive exactly `+f` and `-f` |
| Accumulation.AllFreeKept | dist/Spring.js:74-108 | force-only changes keep every point free |
| Springs.New | src/Spring.js:28-37 | a new spring is on and stores its endpoints, stiffness, damping and rest length |
| Springs.CurrentLength | src/Spring.js:44-46 | defines `currentLength` as the distance between the endpoints' positions |
| Springs.Direction | src/Spring.js:59-66 | defines the unit direction from b to a, cleared at distance 0; `CoincidentDirection` and `ForceAlongSpring` state its laws |
| Springs.Strength | src/Spring.js:68-74 | defines the signed strength `fspring + fdamping`; `RestLengthNoForce` and `ForceMagnitude` state its laws |
| Springs.Force | src/Spring.js:59-76 | defines the vector added to a and taken from b; `ForceAlongSpring`, `CoincidentNoForce` and `ActionReaction` state its laws |
| Springs.Acts | src/Spring.js:57 | defines the guard of `update`: on, with at least one endpoint free; `Update` is the identity when it fails, and `RestingCases` states such a spring is resting |
| Springs.Update | src/Spring.js:53-86 | `update` changes only the forces of its endpoints and never those of fixed points; it is a no-op when off or when both endpoints are fixed; with both free it keeps the total force |
| Springs.CoincidentNoForce | src/Spring.js:59-66 | coincident endpoints give a zero force, whatever the stiffness or damping |
| Springs.CoincidentDirection | src/Spring.js:62-64 | coincident endpoints give a cleared direction |
| Springs.CoincidentUpdate | dist/Spring.js:84-98 | with coincident endpoints, `update` leaves every point unchanged |
| Springs.RestLengthNoForce | src/Spring.js:68-76 | at rest length with equal endpoint velocities, the force is zero |
| Springs.ForceAlongSpring | src/Spring.js:59-72 | the force lies along the unit vector from b to a, with the signed Hooke-plus-damping strength as its length |
| Springs.ForceMagnitude | src/Spring.js:68-76 | for distinct endpoints the squared length of the force is the square of that strength |
| Springs.ActionReaction | src/Spring.js:76-83 | endpoint a receives `+F` and endpoint b receives `-F` |
| Springs.RestingCases | src/Spring.js:93-101 | a spring is resting when off or when both endpoints are fixed, hence whenever its `update` is a no-op, and not resting when on with neither fixed |
| Springs.Resting | src/Spring.js:93-101 | defines `resting`; `RestingCases` and `RestingWithinLength` state its laws |
| Springs.RestingWithinLength | dist/Spring.js:117-124 | an active spring with `a` fixed, `b` free and a positive rest length is resting exactly when `b` lies within the rest length of `a` and `b` itself is resting |
| Attractions.New | src/Attraction.js:28-35 | a new attraction is on, stores its endpoints, constant and minimum distance, and its squared minimum distance is `d²` |
| Attractions.Max | src/Attraction.js:52 | `max` is an upper bound of both arguments and equals one of them |
| Attractions.ClampedDistanceSquared | src/Attraction.js:52 | defines the squared distance clamped below by the squared minimum; `ClampBounds` states its bounds |
| Attractions.Strength | src/Attraction.js:54 | defines the strength `k·ma·mb` over the clamped squared distance; `StrengthBound`, `NoStrengthNoForce` and `ExampleStrength` state its laws |
| Attractions.Force | src/Attraction.js:56-62 | defines the vector taken from a and added to b; `ForceWithinStrength`, `CoincidentNoForce` and `ActionReaction` state its laws |
| Attractions.ClampBounds | dist/Attraction.js:74-78 | the clamped squared distance is at least the true squared distance and at least the squared minimum, and it equals the true one when that is larger |
| Attractions.StrengthBound | src/Attraction.js:52-54 | for non-negative constant and masses and a positive minimum distance, the strength lies between 0 and `k·ma·mb / dmin²` |
| Attractions.ForceWithinStrength | src/Attraction.js:56-62 | the applied force is never longer than the strength |
| Attractions.CoincidentNoForce | dist/Attraction.js:65-96 | coincident endpoints receive a zero force |
| Attractions.NoStrengthNoForce | src/Attraction.js:54-60 | a zero constant gives zero strength and a zero force |
| Attractions.Acts | src/Attraction.js:46-48 | defines the guard of `update`: on, and not both endpoints fixed; `Update` is the identity when it fails, and `RestingCases` states such an attraction is resting |
| Attractions.Update | src/Attraction.js:42-72 | `update` changes only the forces of its endpoints and never those of fixed points; it is a no-op when off or when both endpoints are fixed; with both free it keeps the total force |
| Attractions.ActionReaction | dist/Attraction.js:82-93 | endpoint a receives `-F` and endpoint b receives `+F` |
| Attractions.Example | test/attraction.test.js:16-89 | points (0,100) and (100,100) with constant 100 and minimum distance 100 receive forces (0.01, 0) and (-0.01, 0); with a fixed, a keeps a zero force |
| Attractions.ExampleFree | test/attraction.test.js:81-89 | the free-endpoint case of that example |
| Attractions.ExampleFixed | test/attraction.test.js:69-79 | the fixed-endpoint case of that example |
| Attractions.ExampleForce | src/Attraction.js:50-62 | the force vector of that example is (-0.01, 0) |
| Attractions.ExampleStrength | src/Attraction.js:50-54 | in that example the clamped squared distance is 10000 and the strength is 0.01 |
| Attractions.ExampleScaling | src/Attraction.js:61 | (-100, 0) divided by 100 and scaled by 0.01 is (-0.01, 0) |
| Attractions.RestingCases | src/Attraction.js:79-87 | an attraction is resting when off or when both endpoints are fixed, hence whenever its `update` is a no-op, and not resting when on with neither fixed |
| Attractions.Resting | src/Attraction.js:79-87 | defines `resting`; `RestingCases` states its laws |
| Systems.New | src/PointSystem.js:35-57 | a new system has gravity (0,0) and drag 0.001 unless given, all three criteria on, is neither optimized nor in equilibrium, and has empty lists |
| Systems.Optimize | src/PointSystem.js:67-71 | `optimize` stores the flag and changes nothing else |
| Systems.SetGravity | src/ParticleSystem.js:81-85 | `setGravity` stores the coordinates, 0 when omitted, and changes nothing else |
| Systems.SetEquilibriumCriteria | src/PointSystem.js:96-100 | the three criteria are stored and nothing else changes |
| Systems.NeedsUpdate | src/PointSystem.js:123-149 | the three loops answer true exactly when the system is not at rest: some element of an enabled category is not resting |
| Systems.AtRest | src/PointSystem.js:123-149 | defines the rest condition as a quantified formula; `NeedsUpdate` is proved equivalent to its negation, and `NewAtRest`, `DisabledCategoryIrrelevant`, `AllFixedAtRest` and `ActiveElementNotAtRest` state its laws |
| Systems.NewAtRest | src/ParticleSystem.js:123-149 | a new system, and any system after `clear`, does not need an update |
| Systems.DisabledCategoryIrrelevant | src/PointSystem.js:125-146 | a category whose criterion is off can hold anything without changing the answer |
| Systems.AllFixedAtRest | src/ParticleSystem.js:125-146 | a system whose points are all fixed is at rest |
| Systems.ActiveElementNotAtRest | src/PointSystem.js:130-146 | an active spring or attraction between two free points, in a checked category, keeps the system out of rest |
| Systems.AddPoint | src/PointSystem.js:158-162 | adding a point appends it at the end and leaves the other lists unchanged |
| Systems.AddSpring | src/PointSystem.js:171-175 | adding a spring appends it at the end and leaves the other lists unchanged |
| Systems.AddAttraction | src/ParticleSystem.js:184-188 | adding an attraction appends it at the end and leaves the other lists unchanged |
| Systems.CreatePoint | src/ParticleSystem.js:199-205 | the created point is the new last entry, and it is a new point with the given arguments |
| Systems.CreateSpring | src/PointSystem.js:218-224 | the created spring is the new last entry, and it is a new spring with the given arguments |
| Systems.CreateAttraction | src/PointSystem.js:236-242 | the created attraction is the new last entry, and it is a new attraction with the given arguments |
| Systems.Clear | src/PointSystem.js:249-253 | `clear` empties the three lists and keeps gravity, drag and the flags |
| Systems.PushAll | src/PointSystem.js:261-275 | the loop shape of gravity and drag: each point's force grows by its own entry of the list and nothing else changes; `TotalForcePushAll` states the total grows by the list's sum |
| Systems.ApplyGravity | src/PointSystem.js:261-265 | gravity touches only forces; it is added to every point, fixed ones included, unless it passes `isZero` |
| Systems.NoGravity | src/ParticleSystem.js:261-265 | gravity reset to zero by `setGravity()` adds nothing |
| Systems.ApplyDrag | src/PointSystem.js:267-275 | drag touches only forces and adds `-drag·velocity` to every point |
| Systems.DragForce | src/PointSystem.js:272 | defines the drag vector `velocity·(-1)·drag`; `DragOpposesVelocity` and `NoDrag` state its laws |
| Systems.DragOpposesVelocity | src/ParticleSystem.js:267-275 | the drag force is the negated velocity scaled by drag, and it never points along the velocity |
| Systems.NoDrag | src/PointSystem.js:267-275 | zero drag adds nothing |
| Systems.ApplySprings | src/PointSystem.js:277-279 | the springs, run in order, touch only forces and never a fixed point |
| Systems.ApplyAttractions | src/PointSystem.js:281-283 | the attractions, run in order, touch only forces and never a fixed point |
| Systems.ApplyFields | src/ParticleSystem.js:261-275 | gravity then drag touch only forces |
| Systems.ApplyForces | src/PointSystem.js:260-290 | gravity, drag, springs, then attractions, in that order, touch only forces |
| Systems.TotalForcePushAll | src/PointSystem.js:261-275 | a per-point force added to every point adds the sum of those forces to the total |
| Systems.TotalForceOfApplyForces | src/PointSystem.js:260-290 | with every point free, springs and attractions cancel, so `applyForces` raises the total force by exactly the gravity and drag contributions |
| Systems.ClearForcesAsWritten | src/PointSystem.js:297-303 | `clearForces` as written throws exactly when the system has a point |
| Systems.ClearForces | src/ParticleSystem.js:297-303 | clearing forces zeroes every accumulator and changes nothing else |
| Systems.ClearForcesTotal | src/PointSystem.js:297-303 | after clearing, the total force is zero |
| Systems.ClearForcesFinding | src/ParticleSystem.js:297-303 | on a one-point system the code as written throws, where the intended operation zeroes the force |
| Integrators.New | lib/Integrator.js:27-44 | a new integrator has ten empty, equally long buffers |
| Integrators.Allocated | dist/Integrator.js:69-89 | allocation keeps the buffers equally long and makes them the larger of their old length and the point count |
| Integrators.AllocatePoints | lib/Integrator.js:51-70 | the loop grows all ten buffers to the larger of their old length and the point count, keeps every existing entry, and never shrinks them |
| Integrators.Evaluate | lib/Integrator.js:85-96 | one force evaluation (accumulators cleared, then `applyForces`) changes only force accumulators and keeps every fixed point in place |
| Integrators.Store | lib/Integrator.js:99-108 | copying a field of each free point into a buffer keeps the buffer's length; `StoredStages` and `StoredOriginals` state what the slots hold |
| Integrators.Drift | lib/Integrator.js:118-121 | defines the trial position `op + kv·c·time`; `NextStageAt` and `StageStates` use it |
| Integrators.Kick | lib/Integrator.js:126-129 | defines the trial velocity `ov + kf·c·time/mass`; `NextStageAt` and `StageStates` use it |
| Integrators.Blend | lib/Integrator.js:221-235 | defines the RK4 weighting 1, 2, 2, 1 of the combine; `BlendConstantPosition` and `BlendConstantVelocity` state its exactness under a constant force |
| Integrators.Advance | lib/Integrator.js:111-131 | moving to a trial state changes only free points' positions and velocities |
| Integrators.Combine | lib/Integrator.js:208-240 | the combine ages every point by `time`, keeps flags, masses and forces, and leaves fixed points in place |
| Integrators.Finish | lib/Integrator.js:208-240 | after the combine the system keeps everything but its points; every point ages by `time` and keeps its flag, mass and last-evaluated force, and fixed points stay in place |
| Integrators.NextStage | lib/Integrator.js:148-164 | a trial stage keeps flags, masses, ages and fixed points |
| Integrators.RunStages | lib/Integrator.js:82-205 | the stage buffers come out equally long and at least as long as the point list; none of the four stages moves a fixed point or changes a flag, a mass or an age, and every stage still has a mass for each free point |
| Integrators.NextStageAt | lib/Integrator.js:111-131 | a trial stage puts a free point at `op + kv·c·time` with velocity `ov + kf·c·time/mass`, and the force evaluation leaves it there |
| Integrators.StageStates | lib/Integrator.js:111-193 | the four evaluations see a free point at its original state, then at the original advanced along stage 1 for half the step, along stage 2 for half the step, and along stage 3 for the whole step |
| Integrators.ClearForcesOnlyForces | lib/Integrator.js:93 | clearing the accumulators forgets any force-only change |
| Integrators.EvaluateSettled | lib/Integrator.js:96 | evaluating an evaluated state again gives the same forces: the forces depend only on positions and velocities |
| Integrators.StagesEvaluated | lib/Integrator.js:96-195 | `applyForces` runs once per stage: each of the four stages holds exactly the forces a fresh evaluation computes at its own positions and velocities |
| Integrators.Step | lib/Integrator.js:79-243 | `step` changes only the points; every point ages by `time`; fixed points keep position and velocity; the buffers grow to the point count; forces are left holding the fourth evaluation |
| Integrators.EvaluateConstant | lib/Integrator.js:96-108 | without springs, attractions or drag, every evaluation gives each point the gravity, or zero when gravity passes `isZero` |
| Integrators.StoredOriginals | lib/Integrator.js:85-94 | the originals buffers hold each free point's position and velocity |
| Integrators.StoredStages | lib/Integrator.js:99-205 | each stage's buffers hold the force and velocity of each free point at that stage |
| Integrators.FirstStageConstant | lib/Integrator.js:96-108 | under a constant force the first stage records the force and the original velocity |
| Integrators.NextStageConstant | lib/Integrator.js:111-133 | under a constant force a trial stage has the kicked velocity and feels the same force |
| Integrators.Stage2Constant | lib/Integrator.js:111-145 | under a constant force the second stage records the force and the velocity after half a step |
| Integrators.Stage3Constant | lib/Integrator.js:148-176 | under a constant force the third stage records the force and the velocity after half a step |
| Integrators.Stage4Constant | lib/Integrator.js:179-205 | under a constant force the fourth stage records the force and the velocity after a full step |
| Integrators.ConstantAccelerationPosition | lib/Integrator.js:221-222 | the RK4 position weighting of constant-acceleration stages is exactly `p0 + v0·t + F·t²/(2m)` |
| Integrators.ConstantAccelerationVelocity | lib/Integrator.js:234-235 | the RK4 velocity weighting of a constant force is exactly `v0 + F·t/m` |
| Integrators.BlendConstantPosition | dist/Integrator.js:226-254 | the same identity for the position vector |
| Integrators.BlendConstantVelocity | dist/Integrator.js:226-254 | the same identity for the velocity vector |
| Integrators.CombineAt | lib/Integrator.js:208-240 | a free point leaves the combine at its original position plus the 1, 2, 2, 1 weighting of the stage velocities times `time/6`, with its original velocity plus the same weighting of the stage forces times `time/(6·mass)` |
| Integrators.CombineConstant | lib/Integrator.js:208-240 | when the buffers hold constant-force stages, the combine lands on the exact constant-acceleration state |
| Integrators.StepFreePoint | lib/Integrator.js:79-243 | for any forces, one step leaves a free point at its position plus the weighted stage velocities times `time/6`, with its velocity plus the weighted stage forces times `time/(6·mass)`, the stages being those `StageStates` describes |
| Integrators.ConstantForceStep | lib/Integrator.js:79-243 | with no springs, attractions or drag, one step moves a free point exactly to `p0 + v0·t + F·t²/(2m)` with velocity `v0 + F·t/m`, and leaves `F` in its accumulator |
| Simulations.New | src/PointSystem.js:35-57 | a new system with its new integrator satisfies the invariants every tick needs |
| Simulations.Tick | src/PointSystem.js:107-115 | `tick` steps by `time`, or by 1 when it is omitted; when optimized it records in `equilibrium` whether the stepped system is at rest, and otherwise it leaves the flag alone; fixed points stay put and every point ages by the step |
| Simulations.TickAllFixed | src/ParticleSystem.js:107-115 | an optimized system whose points are all fixed is in equilibrium after one tick |

## Left out

- The animation driver (`src/Physics.js`, `lib/Physics.js`, `dist/Physics.js`) is not part of this model. It is scheduling glue around the host's animation-frame callback.
- The build configuration and the re-export modules are not part of this model; they contain no behaviour.
- `lib/Vec2.js`, `lib/Point.js`, `lib/Spring.js`, `lib/Attraction.js` and `lib/PointSystem.js` are not part of this model. They are the sources of the `dist/` files, which are modelled.
- Floating point: rounding, NaN and Infinity are not modelled; all numbers are reals. As a result:
  - free points must have a non-zero mass (`Integrators.Movable`), where JavaScript would divide by zero;
  - when the clamped squared distance is 0 (coincident points with `distanceMin` 0), an attraction gives a zero force directly, where `src/Attraction.js:54` first divides by zero; with `distanceMin` non-zero the clamped distance is positive and nothing is divided by zero;
  - `Vectors.Lerp` requires a number, where the `src/` `lerp` without `t` computes NaN;
  - `Vector.set` uses `x || 0`, which differs from `x` only for NaN and omitted arguments; an omitted argument is `None`, which gives 0 as in the code.
- The square root is a parameter (`sqrt: real -> real`). The source calls a math helper whose file is not part of this model.
- The system's `forces` list of custom force objects (`src/PointSystem.js:285-287`) is not modelled: its entries are arbitrary objects with an `update()` method. `Systems.System` has no such list, so `applyForces` is modelled as if the list were empty, and `Systems.Clear` keeping it is not stated.
- Object identity and aliasing are not modelled. Copy, clone and clear become values, and a point shared by two systems cannot be expressed.
- Springs and attractions whose endpoints are not in the system's point list cannot be expressed. The code accepts them in `addSpring`, `createSpring`, `addAttraction` and `createAttraction`; such an endpoint would still receive forces in `applyForces` but would never be integrated or have its force cleared. The model's endpoints are indices, and `Systems.WellFormed`, which `applyForces`, `step` and `tick` require, keeps them in range. A point added twice to one system cannot be expressed either: the model's two entries are independent values.
- A point's `dead` flag is carried, and never read, as in the code. The system's `hasDeadPoints` flag is not modelled: nothing reads it.
- `optimize` and `setEquilibriumCriteria` coerce their arguments with `!!`; the model takes booleans.
- Drag is set only through the constructor: the code has no `setDrag`, so neither does the model.
- `test/attraction.test.js:33` reads `attraction.strength`, which the class does not define (it stores `constant`); that test line is not encoded.
- `lib/Integrator.js:52` reads `system.points`, which `ParticleSystem` does not have; the model pairs the integrator with a system of points only.
- The fourth stage's advance multiplies by `time` directly; the model writes it as the same formula with factor 1.0.

## Findings

| source | as written | input that shows it | evidently intended | confidence | as-written member | corrected member |
|---|---|---|---|---|---|---|
| src/Point.js:68-79 | `reset()` first calls `this.clear()`, which `Point` (and `Particle`, and `dist/Point.js:99`) does not define | any point, e.g. `new Point().reset()` | zero velocity and force, restore mass, age and the dead flag | high; not executed | Points.ResetAsWritten | Points.Reset |
| src/PointSystem.js:297-303 | `clearForces()` calls `points[i].clear()` on each point (`particles[i].clear()` in `src/ParticleSystem.js`), which a point does not define | a system holding one point | zero each point's force accumulator, as the integrator does with `force.clear()` | high; not executed | Systems.ClearForcesAsWritten, Systems.ClearForcesFinding | Systems.ClearForces |
