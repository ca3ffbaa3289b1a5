# n-body simulation core, modelled in Dafny

This project models the `n_body` module of the n-body simulator
(`src/lib.rs`) and proves the properties its code guarantees.

- **Body.** A point mass with a position, a velocity, a mass, a name and a
  trajectory. The trajectory is a bounded history of recent positions:
  each new position is pushed at the end, and the oldest entry is evicted
  once more than 500 are kept.
- **Bodies.** The simulation state: the bodies plus seven energy and time
  statistics. Its operations are:
  - load the initial conditions;
  - apply the pairwise Newtonian forces (an O(n²) direct summation that
    skips self-interaction);
  - advance the positions and update the instantaneous energies, their
    running totals, the elapsed time and the time averages.

The physics is done over the reals. Two library numerics are parameters
of every operation that uses them: vector length and `normalize`. They
travel together as the `Numerics` datatype. Lemmas that need the
numerics to behave assume two laws about them (`Numerics.Lawful`):
- the length of `a - b` equals the length of `b - a`;
- `normalize(a - b)` is the negation of `normalize(b - a)`.

Modules, one per file:

- `vectors.dfy` (`Vectors`): 3-vectors of reals and the `Numerics` parameter.
- `physics.dfy` (`Physics`): pairwise force and potential energy with the
  distance floor of 1.0, and kinetic energy.
- `trajectory.dfy` (`Trajectory`): the push-evict step and the "last 500
  positions" window it maintains.
- `system.dfy` (`System`): whole-system specifications on snapshots
  (`seq<PointMass>`):
  - net forces and the velocity update (`Kick`);
  - the position update (`Drift`);
  - momentum and the energy sums;
  - Newton's third law for the system, momentum conservation, and
    pair-counting for the potential energy.
- `loader.dfy` (`Loader`): the record-by-record skip policy of the
  initial-condition loader, on already-parsed records.
- `nbody.dfy` (`NBody`): the classes `Body` and `Bodies`, updated in place.
  Their methods are proved against the `System` and `Trajectory`
  specifications.

`Body.Valid` states the class invariant of a body: its trajectory is the
window of the last 500 entries of its ghost `history`, which holds every
position it ever recorded. `Bodies.Valid` states that no body appears
twice and that every body is valid.

## Model

| member | source | states |
|---|---|---|
| Physics.Separation | src/lib.rs:78 | `length().max(1.0)`: the clamped distance is exactly 1.0 when the length is below 1.0 and equal to the length otherwise. So it is never below 1.0, and every divisor built from it is non-zero |
| Physics.GravitationalForce | src/lib.rs:76-81 | The force of b on a: `normalize(b − a)` scaled by G·m_a·m_b/d² with d the clamped separation. It is the zero vector when either mass is zero |
| Physics.ForceByDistance | src/lib.rs:77-80 | At a length of 1.0 or more the force is `normalize(b − a)` scaled by G·m_a·m_b/length²; below 1.0 it is `normalize(b − a)` scaled by G·m_a·m_b, as for bodies a unit apart |
| Physics.KineticEnergy | src/lib.rs:83-85 | ½·m·\|v\|²: zero for a body at rest or without mass |
| Physics.PotentialEnergy | src/lib.rs:87-90 | −G·m_a·m_b/d with d the clamped separation: the length itself at 1.0 or beyond, 1.0 below it; zero when either mass is zero |
| Physics.SeparationSymmetric | src/lib.rs:88 | The clamped distance from a to b equals the one from b to a |
| Physics.ForceAntisymmetric | src/lib.rs:76-81 | Newton's third law: the force of b on a is the negation of the force of a on b |
| Physics.PotentialSymmetric | src/lib.rs:87-90 | The potential energy of a with b equals that of b with a |
| Physics.KineticEnergyNonnegative | src/lib.rs:83-85 | A body of non-negative mass has non-negative kinetic energy |
| Physics.PotentialEnergyNonpositive | src/lib.rs:87-90 | Two bodies of non-negative mass have non-positive potential energy |
| Physics.LawfulZeroDirection | src/lib.rs:80 | Under the two numerics laws, `normalize` of the zero vector is the zero vector |
| Physics.CoincidentBodiesNoForce | src/lib.rs:76-81 | Under the two numerics laws, two bodies at the same position exert zero force on each other (the code gives NaN there) |
| Physics.TwoBodyExample | src/lib.rs:76-81 | Two masses of 5.0e16 ten units apart on x: the first is pulled along +x with magnitude G·5.0e16·5.0e16/100 |
| Trajectory.Record | src/lib.rs:51-54 | Push, then drop the first entry when there are more than 500: the new position is the last entry, and the length grows by one below 500 and stays the same from 500 on |
| Trajectory.RecordShape | src/lib.rs:50-54 | After a push, the new position is the last entry. Below 500 entries nothing is dropped; at 500 exactly the oldest is dropped; a trajectory of at most 500 entries stays at most 500 |
| Trajectory.RecordKeepsWindow | src/lib.rs:51-54 | Pushing onto the last-500 window of a history gives the last-500 window of the extended history |
| Trajectory.RecordAllWindow | src/lib.rs:49-55 | Any number of pushes from the window of h gives the window of h followed by the pushed positions; from an empty trajectory, the last 500 positions pushed |
| Trajectory.FullWindow | src/lib.rs:52-53 | Once 500 or more positions were recorded, the trajectory holds exactly 500. Its newest entry is the last position and its oldest is the one recorded 499 steps before that |
| System.Kick | src/lib.rs:228-239 | The snapshot after the force pass has the same number of bodies, with positions and masses unchanged |
| System.Drift | src/lib.rs:213-215 | The snapshot after moving has the same number of bodies, with velocities and masses unchanged |
| System.ForcesIgnoreVelocities | src/lib.rs:229-237 | The force sum on a body depends only on positions and masses. So the velocities changed earlier in the force pass do not change the forces computed later |
| System.SamePlacesSameForce | src/lib.rs:76-81 | The pairwise force depends only on the two positions and masses |
| System.ColumnIsReaction | src/lib.rs:231-236 | What the first m bodies exert on body n is the negation of what body n receives from them |
| System.NetForcesCancel | src/lib.rs:228-239 | The net forces on all bodies, each summed over the other bodies, add up to the zero vector |
| System.KickMomentumPrefix | src/lib.rs:228-239 | After the force pass, the momentum of the first m bodies is their momentum before plus dt times the sum of their net forces |
| System.KickConservesMomentum | src/lib.rs:228-239 | The force pass leaves the total momentum unchanged |
| System.DriftKeepsMomentum | src/lib.rs:213-215 | Moving the bodies leaves the total momentum unchanged |
| System.TickConservesMomentum | src/lib.rs:211-239 | A whole tick (the force pass, then the move) conserves total momentum |
| System.TwoBodyKick | src/lib.rs:228-239 | Two equal masses m at rest, ten units apart: after one force pass with dt = 1, they approach each other at speed G·m/100 each |
| System.KineticSumNonnegative | src/lib.rs:247-249 | With non-negative masses the total kinetic energy is non-negative |
| System.KineticSumAppend | src/lib.rs:248 | The kinetic-energy sum of two groups of bodies is the sum of the groups' sums |
| System.DriftKeepsKinetic | src/lib.rs:213-217 | Moving the bodies does not change the kinetic energy computed right after |
| System.PairsCountedOnce | src/lib.rs:254-258 | Summing the potential energy over all ordered pairs i ≠ j gives exactly twice the i < j sum, so each unordered pair counts once |
| System.NoPairNoPotential | src/lib.rs:252-260 | With zero or one body the total potential energy is 0.0 |
| System.TotalPotentialNonpositive | src/lib.rs:252-260 | With non-negative masses the total potential energy is non-positive |
| Loader.DecodeRecord | src/lib.rs:164-204 | A record yields a body exactly when it has a name, all three position components, all three velocity components and a mass, and the body carries those values |
| Loader.AcceptedAppend | src/lib.rs:163-207 | Records are handled independently and in order: the bodies from a + b are the bodies from a followed by those from b |
| Loader.AcceptedMembers | src/lib.rs:163-207 | A body is added exactly when some record decodes to it: nothing is invented and no valid record is lost |
| Loader.AcceptedAllValid | src/lib.rs:163-207 | When every record is valid, there is one body per record, each built from its record |
| Loader.Accepted | src/lib.rs:163-207 | The bodies the record loop adds, in record order, one for each record that decodes; no more bodies than records |
| Loader.MissingMassSkipped | src/lib.rs:196-206 | Of three records where the second has no mass, exactly the first and the third become bodies, in that order |
| NBody.Body.constructor | src/lib.rs:37-46 | Stores the given position, velocity, mass and name, with an empty trajectory |
| NBody.Body.Update | src/lib.rs:49-55 | The position becomes old position + velocity·dt, and velocity, mass and name are kept. The new position is the last trajectory entry. Below 500 entries it is appended; at 500 the oldest entry is dropped; the length never exceeds 500 |
| NBody.Body.ApplyForce | src/lib.rs:58-61 | The velocity grows by (force / mass)·dt. Position, trajectory and mass are unchanged |
| NBody.Bodies.constructor | src/lib.rs:105-116 | No bodies, and all seven energy and time fields are 0.0 |
| NBody.Bodies.AddBody | src/lib.rs:118-120 | Appends the body at the end. Earlier bodies and all seven statistics are unchanged |
| NBody.Bodies.ParseJson | src/lib.rs:139-209 | When the source failed, adds nothing. Otherwise it appends fresh bodies built from exactly the valid records, in order, and keeps the earlier bodies and the statistics |
| NBody.Bodies.NetForceOn | src/lib.rs:230-236 | The inner loop's total force on body i is its net force from every other body |
| NBody.Bodies.KickBody | src/lib.rs:230-237 | Body i's velocity becomes the one the force pass specifies for the snapshot taken before the pass; nothing else of body i changes |
| NBody.Bodies.ApplyForce | src/lib.rs:228-239 | The new snapshot is `Kick` of the one before the call: every net force comes from the positions before the call. The body count, positions, masses and trajectories are unchanged |
| NBody.Bodies.TotalKineticEnergy | src/lib.rs:247-249 | The sum of the bodies' kinetic energies, never negative when no mass is |
| NBody.Bodies.TotalPotentialEnergy | src/lib.rs:252-260 | The nested loop computes the sum over pairs i < j of the pair's potential energy |
| NBody.Bodies.Advance | src/lib.rs:213-215 | Every body moves exactly once by its velocity·dt and records its new position. The body count is kept |
| NBody.Bodies.RecordEnergies | src/lib.rs:217-223 | The instantaneous energies are those of the current bodies. The running totals grow by exactly those values, the elapsed time by dt, and each average is total / elapsed time |
| NBody.Bodies.Update | src/lib.rs:211-224 | The contracts of `Advance` and `RecordEnergies` in sequence. The energies are those of the moved bodies |

## Left out

- The render loop, camera, input handling and text overlays in `src/main.rs`, and `Body::draw` and `Bodies::draw` (src/lib.rs:64-72, 240-244): they only call the graphics library.
- Opening and reading the file and parsing the JSON text (src/lib.rs:141-161). These are I/O and a library parser. The loader's input is a `Source`:
  - either the failure of one of those steps;
  - or the list of parsed records, each field present or absent (a missing key and a value of the wrong kind both read as absent).
  - A document whose top level is not an array has no members, so it arrives as an empty list.
- The error messages printed with `eprintln!`.
- `f32` arithmetic: rounding, overflow, infinities and NaN. Every quantity is a real, and the loader's `f64`-to-`f32` casts are the identity.
- The library's vector length (a square root) and `normalize`: they are parameters (`Numerics`) with only the two symmetry laws above.
  - Non-negativity of the length is not assumed, because the distance floor already keeps every divisor at least 1.0.
  - For two bodies at the same position the code calls `normalize` on the zero vector, which the vector library answers with NaN components. So the force between coincident bodies is NaN in the code; the distance floor at src/lib.rs:78 prevents only the division by zero.
- Physics.LawfulZeroDirection: `Numerics.Lawful` taken at a == b forces `normalize(0) == 0`, so every lemma that assumes it gives coincident bodies zero mutual force (Physics.CoincidentBodiesNoForce) where the code gives NaN. This concerns Physics.ForceAntisymmetric, System.ColumnIsReaction, System.NetForcesCancel, System.KickConservesMomentum, System.TickConservesMomentum and System.TwoBodyKick: for a configuration with two bodies at the same position they describe this zero-force variant, not the code's NaN.
- The display radius `mass^(1/15)` (src/lib.rs:33, 44): floating-point `powf`, with no effect on the physics.
- NBody.Body.ApplyForce: requires a non-zero mass. The code divides by the mass and, for zero, produces infinities or NaN in `f32`.
- NBody.Bodies.ApplyForce: requires every mass to be non-zero, for the same reason.
- NBody.Bodies.KickBody: requires every mass to be non-zero, for the same reason.
- System.Kick: requires every mass to be non-zero (`NonzeroMasses`), because it divides each net force by the mass.
- System.KickMomentumPrefix: requires every mass to be non-zero, because it is about `Kick`.
- System.KickConservesMomentum: requires every mass to be non-zero, because it is about `Kick`.
- System.TickConservesMomentum: requires every mass to be non-zero, because it is about `Kick`.
- System.TwoBodyKick: requires the common mass m to be non-zero, because it is about `Kick`.
- NBody.Bodies.Update and NBody.Bodies.RecordEnergies require `total_time + dt` to be non-zero. The code divides by it and gets NaN for `0.0 / 0.0`.
- NBody.Bodies.AddBody requires that the body is not already in the collection and satisfies its own invariant. In the code the body is moved into the collection by value, so both always hold.
- Energy conservation is not claimed. A tick (`apply_force`, then `update`) is a semi-implicit Euler step: velocities from the current positions, then positions from the new velocities. A fixed-step scheme like this only keeps the energy error bounded, and it does not conserve the energy exactly; the `f32` numerics are not modelled either. The model proves momentum conservation only (in real arithmetic).
- The unused constants `NUM_BODIES` and `PAN_SPEED` (src/lib.rs:24-25) are not modelled.
