# gravisim — the physics step and editor state in Dafny

A model of the simulation core of a 2D n-body gravity sandbox built on Bevy.
Each body is a circle with a position, a velocity, an acceleration accumulator,
the previous tick's position and scaled acceleration, and a mass derived once
from its size (radius) and density. Every frame the engine runs these systems:

- `update_bodies` integrates every body;
- `compute_gravity_system` adds equal and opposite accelerations into each
  unordered pair i < j;
- `elastic_collision_system`, when the collision switch is on, resolves every
  overlapping pair with an impulse along the line of centres and pushes the
  two apart by half the overlap each;
- `editor_input_system` handles reset (R), the collision toggle (E),
  press-drag-release spawning, and the size/density keys (Z/X, C/V) with
  their clamp at 1.0.

How the model is built:

- `f32` values are exact `real`s.
- The square root behind `sqrt()`, `Vec2::length` and `Vec2::normalize` is a
  parameter `sqrt: real -> real`. Lemmas that need it to be exact ask for that
  at the one argument they use (`Collision.RootAt`, `Collision.ExactGap`).
- The ECS query is an `array<Body>`. Each system is a method with the
  source's nested `for` loops, specified against a left fold over the
  visiting order `Pairs.AllPairs(n)`. Properties are proved about that fold.
- The two resources `SelectedBodyState` and `ElasticCollisionsEnabled` are
  classes updated in place.
- Files: `body.dfy` (the record and `Body::new`), `integrator.dfy`,
  `pairs.dfy` (the loop order and passes over it), `totals.dfy` (sums over a
  store), `gravity.dfy`, `algebra.dfy` (the vector arithmetic of a
  collision), `collision.dfy`, `editor.dfy`, `wrappers.dfy` (`Option`).

## Model

| member | source | states |
|---|---|---|
| Bodies.MassOf | src/body.rs:36 | (4/3)·π·size³·density is positive for positive size and density, zero when either is zero, and at least 4π/3 when both are at least 1 |
| Bodies.NewBody | src/body.rs:23-41 | `Body::new` stores x, y, v_x, v_y, size and density as passed, zeroes a, past_a and past position, and derives mass as MassOf(size, density) |
| Integrator.Step | src/main.rs:78-92 | one body's update: the past position takes the old position, past_a = a·mult, a is reset to 0, and mass, size and density are kept |
| Integrator.AdvanceBody | src/main.rs:78-92 | the loop body, written field by field in the source's order, computes Step |
| Integrator.UpdateBodies | src/main.rs:74-94 | every body of the store is replaced by Step of its old value with mult = dt·400 |
| Integrator.ZeroStepKeepsMotion | src/main.rs:75-85 | with mult = 0 no position or velocity changes |
| Integrator.UnforcedBodyDrifts | src/main.rs:81-92 | a body with no current or stored acceleration moves in a straight line: after k steps it is k·mult·v from its start with the same velocity |
| Integrator.ScaledPastAcceleration | src/main.rs:84-89 | the second velocity increment is (a + mult·a0)·mult/2; it equals the velocity-Verlet increment (a + a0)·mult/2 exactly when mult is 0 or 1 or a0 is 0 |
| Pairs.Row | src/main.rs:101 | the inner loop from lo to hi visits (i, lo), …, (i, hi−1), in order |
| Pairs.PairsBefore | src/main.rs:100-101 | every pair visited by the first i rows has 0 ≤ i < j < n |
| Pairs.AllPairsExactlyOnce | src/main.rs:100-101 | the nested loop visits each unordered pair i < j of the store exactly once and never a body with itself |
| Pairs.AllPairsLength | src/main.rs:100-101 | a pass over n bodies makes n·(n−1)/2 visits |
| Pairs.NoPairsForLoneBody | src/main.rs:100-101 | a store of at most one body has nothing to visit |
| Pairs.RowPassVisitsRow | src/main.rs:101 | the inner loop run counter by counter is the fold over its row |
| Pairs.RowsPassVisitsPairs | src/main.rs:100-101 | the outer loop run row by row is the fold over the pairs of those rows, in visiting order |
| Gravity.Floored | src/main.rs:110-112 | the divisor is never below 0.0001 and is the distance itself above that |
| Gravity.PairDistance | src/main.rs:108-112 | the distance the solver divides by is at least 0.0001 |
| Gravity.PullAt | src/main.rs:113-124 | Newton's third law per pair: m1·Δa1 = −m2·Δa2 on both axes |
| Gravity.InverseSquare | src/main.rs:113-124 | body1 gains G·m2·(x2−x1)/d³ and body2 gains G·m1·(x1−x2)/d³, each independent of its own mass |
| Gravity.PullAttracts | src/main.rs:113-124 | for positive masses each contribution points towards the other body on each axis |
| Gravity.Accumulate | src/main.rs:117-124 | contributions are added to the accumulator, never written over it, and nothing else changes |
| Gravity.VisitPair | src/main.rs:102-125 | one iteration keeps the store's length and its nonzero masses |
| Gravity.GravityTouchesOnlyAccumulators | src/main.rs:96-127 | the solver changes nothing but a_x and a_y of any body; mass in particular is only read |
| Gravity.GravityKeepsMassive | src/main.rs:114-122 | a store whose masses are nonzero stays so after any number of visits |
| Gravity.LoneBodyUntouched | src/main.rs:100-105 | a lone body's accumulator is left untouched |
| Gravity.GravityAddsPulls | src/main.rs:113-124 | after a pass every accumulator holds its start value plus the sum of the pulls of the pairs that name its body, each computed from the start positions |
| Gravity.GravityConservesForce | src/main.rs:113-124 | the total Σ m·a is unchanged by the pass on both axes |
| Gravity.AttractPair | src/main.rs:102-125 | the loop body updates the two accumulators as VisitPair says |
| Gravity.AttractRow | src/main.rs:101-126 | the inner loop is the row pass of the gravity step |
| Gravity.ComputeGravity | src/main.rs:96-127 | the whole system is the fold of the gravity step over AllPairs |
| Algebra.DirectionIsUnit | src/main.rs:291 | the normalized gap vector has length 1, and d times it is the gap vector |
| Algebra.PushSeparates | src/main.rs:302-307 | the separation moves body1 by a vector of length overlap/2 and leaves the centres d + overlap apart |
| Algebra.PushMoves | src/main.rs:302-307 | a positive overlap along a unit normal always moves body1 |
| Algebra.ExchangeKeepsMomentum | src/main.rs:293-299 | the velocity updates keep m1·v1 + m2·v2 on both axes for any normal |
| Algebra.ExchangeReflects | src/main.rs:292-299 | along a unit normal the relative normal velocity changes sign |
| Algebra.ExchangeKeepsEnergy | src/main.rs:292-299 | along a unit normal m1·\|v1\|² + m2·\|v2\|² is kept |
| Collision.ElasticCollisionsEnabled.constructor | src/main.rs:264-265 | the derived Default switch is off |
| Collision.Collide | src/main.rs:289-307 | a resolved collision writes velocities and positions only: mass, size, density and accelerations are kept |
| Collision.CollidePair | src/main.rs:285-308 | the outcome is undefined exactly for an overlapping pair with coincident centres or zero mass sum (where the source computes NaN); otherwise matter is kept |
| Collision.ImpulseKeepsMomentum | src/main.rs:292-299 | the impulse keeps the pair's momentum on both axes |
| Collision.CollisionKeepsMomentum | src/main.rs:291-307 | a collision keeps m1·v1 + m2·v2 on both axes |
| Collision.CollisionKeepsPositionSum | src/main.rs:302-307 | the two bodies move by opposite vectors, so x1 + x2 and y1 + y2 are kept |
| Collision.NormalOf | src/main.rs:285-291 | for a colliding pair the distance is positive, the normal is a unit vector and d·n is the gap vector |
| Collision.SeparationIsHalfOverlap | src/main.rs:300-307 | each body moves by (min_distance − distance)/2, and afterwards the centres are exactly size1 + size2 apart |
| Collision.ImpulseReflects | src/main.rs:292-299 | along a unit normal the impulse reverses the relative normal velocity and keeps kinetic energy |
| Collision.CollisionReflects | src/main.rs:289-299 | a colliding pair is reflected elastically along the line of centres, approaching or not |
| Collision.CollisionGate | src/main.rs:289 | with an exact root a pair is left as it was if and only if the circles do not overlap |
| Collision.PairOutcomeKeeps | src/main.rs:285-308 | every defined outcome for a pair keeps matter, momentum sums and position sums |
| Collision.CollisionsConserve | src/main.rs:278-310 | a defined pass keeps the store's length, every body's mass, size and density, and total momentum and total position on both axes |
| Collision.ApartStoreUntouched | src/main.rs:285-289 | a store with no overlapping pair is left exactly as it was |
| Collision.CollideAt | src/main.rs:280-308 | the loop body for (i, j) is the resolver's step for that pair |
| Collision.CollideRow | src/main.rs:279-309 | the inner loop is the row pass of the resolver's step |
| Collision.CollideAll | src/main.rs:278-310 | the nested loop is the fold of the resolver's step over AllPairs |
| Collision.ElasticCollisions | src/main.rs:267-311 | with the switch off no body changes; with it on, the store becomes the resolved store |
| Editor.Clamped | src/main.rs:408-410 | the clamp gives the larger of v and 1.0 |
| Editor.Nudge | src/main.rs:406-411 | a held key leaves the setting at least 1.0; an unheld key leaves it unchanged |
| Editor.SizeKeys | src/main.rs:405-417 | after Z or X the size is at least 1.0; with neither it is unchanged |
| Editor.DensityKeys | src/main.rs:420-432 | after C or V the density is at least 1.0; with neither it is unchanged |
| Editor.Reset | src/main.rs:351-353 | reset sets size 50 and density 1, clears pos_selected and keeps the rest |
| Editor.Launched | src/main.rs:374-385 | a spawned body sits at the press position with velocity (end − start)/50, carries the selected size and density, starts at rest, and has mass ≥ 4π/3 from settings ≥ 1 |
| Editor.Edit | src/main.rs:343-432 | a frame keeps settings ≥ 1 (or makes them so on reset); a spawn needs a release inside the window, and no spawn happens without a press |
| Editor.Commands | src/main.rs:344-347 | R despawns every existing body; a spawn appends one |
| Editor.FrameKeepsPositive | src/main.rs:343-432 | from settings ≥ 1, a frame keeps them so and adds only bodies of positive mass |
| Editor.RunKeepsPositive | src/main.rs:343-432 | from settings ≥ 1 and positive masses, any run of frames leaves a store the gravity solver may divide by |
| Editor.InitialRunStaysMassive | src/main.rs:255-262 | starting from the reset settings, no run of frames spawns a zero mass |
| Editor.DefaultSpawnsMassless | src/main.rs:255-262 | starting from the derived Default, a press and a release spawn a body of mass 0 |
| Editor.SelectedBodyState.Default | src/main.rs:255-262 | the derived Default: nothing selected and every number 0 |
| Editor.SelectedBodyState.Initial | src/main.rs:351-353 | the corrected start, equal to the reset settings |
| Editor.SelectedBodyState.ResetSettings | src/main.rs:351-353 | the reset branch updates the resource as Reset says |
| Editor.SelectedBodyState.Press | src/main.rs:362-368 | a press inside the window records the start position |
| Editor.SelectedBodyState.Release | src/main.rs:371-402 | a release inside the window after a press spawns Launched and clears pos_selected |
| Editor.SelectedBodyState.Adjust | src/main.rs:405-432 | the four key branches update size and density as SizeKeys and DensityKeys say |
| Editor.EditorInput | src/main.rs:313-433 | one frame updates the settings as Edit says, negates the switch when E is pressed, and applies the despawn and spawn commands |

## Left out

- Bevy app wiring, system registration and scheduling: the engine fixes no order between the systems, so no composed tick is modelled.
- The initial scene, meshes, materials, colour, and the sprite and transform sync: presentation only.
- Camera pan and zoom, and the camera reset inside the R branch. They change only the view.
- HUD text and fonts.
- Cursor-to-world conversion and the `info!` logging. The cursor enters `Editor.Input` already in world coordinates, or as None outside the window.
- `Commands` are applied at the end of the frame as list operations on a `seq<Body>`: despawn every body that existed at the start, then append the spawned one. Entity identity is not modelled.
- The commented-out old editor: dead code.
- IEEE-754 `f32` rounding, `powi`, overflow and NaN propagation. Arithmetic is exact over the reals, and the square root is a parameter. The NaN cases of the collision resolver are modelled as an undefined outcome (`Collision.CollidePair` returns None). `Collision.ElasticCollisions` requires the pass to stay defined.
- Gravity.ComputeGravity: requires every mass to be nonzero, because the source divides by each mass and would produce infinities or NaN otherwise.
- Collision.CollisionReflects, Collision.SeparationIsHalfOverlap, Collision.NormalOf, Collision.CollisionGate: hold only where the supplied square root is exact at the pair's squared distance. Momentum and position sums hold for any square root.
- Integrator.UpdateBodies: `time.delta_seconds()` is a parameter `dt`.
- Editor.SelectedBodyState: `selected_vel` is kept as two fields that nothing reads, as in the source.

## Findings

| source | as written | input that shows it | evidently intended | confidence | as-written member | corrected member |
|---|---|---|---|---|---|---|
| src/main.rs:255-262 | `SelectedBodyState` derives `Default`, so the selected size and density start at 0.0. A spawn before any Z/X/C/V key or R builds a body of mass 0. The gravity solver then divides by that mass (src/main.rs:117, 122). | First frame: press at (0, 0). Second frame: release at (1, 0). No keys held. | Start from the settings R restores (size 50, density 1), so every spawned body has mass at least 4π/3. | not executed | Editor.DefaultSpawnsMassless | Editor.InitialRunStaysMassive |
