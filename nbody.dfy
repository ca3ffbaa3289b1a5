/** The simulation state: `Body`, one point mass with its bounded trajectory,
    and `Bodies`, the collection that applies forces, advances positions,
    keeps the energy statistics and loads initial conditions. Both are
    updated in place; their methods are proved against the snapshot
    specifications of module System. */
module NBody {
  import opened Vectors
  import opened Physics
  import opened Trajectory
  import opened System
  import opened Loader

  class Body {
    var position: Vec3
    var velocity: Vec3
    const mass: real
    const name: string
    /** The most recent positions, oldest first, at most `Capacity` of them. */
    var trajectory: seq<Vec3>
    /** Every position recorded since construction, oldest first. */
    ghost var history: seq<Vec3>

    /** The trajectory is the last `Capacity` positions ever recorded. */
    ghost predicate Valid()
      reads this
    {
      trajectory == Window(history)
    }

    function Snapshot(): PointMass
      reads this
    {
      PointMass(position, velocity, mass)
    }

    /** Since the previous state, this body has moved by its velocity * dt
        and recorded its new position. */
    twostate predicate Advanced(dt: real)
      reads this
    {
      position == Add(old(position), Scale(old(velocity), dt)) &&
      velocity == old(velocity) &&
      history == old(history) + [position] &&
      trajectory == Record(old(trajectory), position)
    }

    /** Since the previous state, only the velocity changed, and it is now `v`. */
    twostate predicate Accelerated(v: Vec3)
      reads this
    {
      velocity == v && position == old(position) &&
      trajectory == old(trajectory) && history == old(history)
    }

    /** This body is as `Body::new` builds it from `d`. */
    ghost predicate BuiltFrom(d: BodyInit)
      reads this
    {
      name == d.name && position == d.position && velocity == d.velocity && mass == d.mass &&
      trajectory == [] && history == []
    }

    constructor (position: Vec3, velocity: Vec3, mass: real, name: string)
      ensures Valid()
      ensures BuiltFrom(BodyInit(name, position, velocity, mass))
    {
      this.position := position;
      this.velocity := velocity;
      this.mass := mass;
      this.name := name;
      this.trajectory := [];
      this.history := [];
    }

    /** Moves by velocity * dt and records the new position, dropping the
        oldest one when more than `Capacity` would be kept. */
    method Update(dt: real)
      requires Valid()
      modifies this
      ensures Valid()
      ensures Advanced(dt)
      ensures |old(trajectory)| < Capacity ==> trajectory == old(trajectory) + [position]
      ensures |old(trajectory)| == Capacity ==> trajectory == old(trajectory)[1..] + [position]
      ensures 0 < |trajectory| <= Capacity && trajectory[|trajectory| - 1] == position
    {
      position := Add(position, Scale(velocity, dt));
      trajectory := trajectory + [position];
      if |trajectory| > Capacity {
        trajectory := trajectory[1..];
      }
      RecordKeepsWindow(history, position);
      history := history + [position];
      RecordShape(old(trajectory), position);
    }

    /** Changes the velocity by (force / mass) * dt and nothing else. */
    method ApplyForce(force: Vec3, dt: real)
      requires mass != 0.0
      modifies this
      ensures velocity == Add(old(velocity), Scale(Div(force, mass), dt))
      ensures position == old(position)
      ensures trajectory == old(trajectory) && history == old(history)
    {
      var acceleration := Div(force, mass);
      velocity := Add(velocity, Scale(acceleration, dt));
    }
  }

  ghost predicate Distinct(bs: seq<Body>) {
    forall i, j :: 0 <= i < j < |bs| ==> bs[i] != bs[j]
  }

  class Bodies {
    var bodies: seq<Body>
    var totalPotentialEnergy: real
    var totalKineticEnergy: real
    var timeAveragedPotentialEnergy: real
    var timeAveragedKineticEnergy: real
    var totalTime: real
    var kineticEnergy: real
    var potentialEnergy: real

    /** The collection owns its bodies: no body appears twice, and each
        keeps its own invariant. */
    ghost predicate Valid()
      reads this`bodies, bodies
    {
      Distinct(bodies) && forall i :: 0 <= i < |bodies| ==> bodies[i].Valid()
    }

    /** What the force and energy specifications read of each body, in order. */
    function Snapshots(): seq<PointMass>
      reads this`bodies, bodies
    {
      var bs := bodies;
      seq(|bs|, i reads bs requires 0 <= i < |bs| => bs[i].Snapshot())
    }

    /** The seven energy and time statistics, in declaration order. */
    function Statistics(): seq<real>
      reads this
    {
      [totalPotentialEnergy, totalKineticEnergy, timeAveragedPotentialEnergy,
       timeAveragedKineticEnergy, totalTime, kineticEnergy, potentialEnergy]
    }

    constructor ()
      ensures Valid()
      ensures bodies == []
      ensures Statistics() == [0.0, 0.0, 0.0, 0.0, 0.0, 0.0, 0.0]
    {
      bodies := [];
      totalPotentialEnergy := 0.0;
      totalKineticEnergy := 0.0;
      timeAveragedPotentialEnergy := 0.0;
      timeAveragedKineticEnergy := 0.0;
      totalTime := 0.0;
      kineticEnergy := 0.0;
      potentialEnergy := 0.0;
    }

    /** Appends `body` after the existing ones. The collection takes
        ownership of it, so it is not one of them already. */
    method AddBody(body: Body)
      requires Valid() && body.Valid() && body !in bodies
      modifies this
      ensures Valid()
      ensures bodies == old(bodies) + [body]
      ensures Statistics() == old(Statistics())
    {
      bodies := bodies + [body];
    }

    /** Adds a body for every valid record of a parsed source, in order,
        skipping the invalid ones; adds nothing when the source failed. */
    method ParseJson(src: Source)
      requires Valid()
      modifies this
      ensures Valid()
      ensures |bodies| == old(|bodies|) + |Loaded(src)|
      ensures bodies[..old(|bodies|)] == old(bodies)
      ensures fresh(bodies[old(|bodies|)..])
      ensures forall k :: 0 <= k < |Loaded(src)| ==> bodies[old(|bodies|) + k].BuiltFrom(Loaded(src)[k])
      ensures Statistics() == old(Statistics())
    {
      var records: seq<RawRecord>;
      match src {
        case Unavailable(_) =>
          return;
        case Parsed(rs) =>
          records := rs;
      }
      ghost var n0 := |bodies|;
      ghost var accepted: seq<BodyInit> := [];
      var k := 0;
      while k < |records|
        invariant 0 <= k <= |records|
        invariant accepted == Accepted(records[..k])
        invariant Valid()
        invariant |bodies| == n0 + |accepted|
        invariant n0 == old(|bodies|) && bodies[..n0] == old(bodies)
        invariant fresh(bodies[n0..])
        invariant forall m :: 0 <= m < |accepted| ==> bodies[n0 + m].BuiltFrom(accepted[m])
        invariant Statistics() == old(Statistics())
      {
        var record := records[k];
        k := k + 1;
        assert records[..k][..k - 1] == records[..k - 1] && records[..k][k - 1] == record;
        if record.name.None? {
          continue;
        }
        var name := record.name.value;
        var p := record.position;
        if p.x.None? || p.y.None? || p.z.None? {
          continue;
        }
        var position := Vec3(p.x.value, p.y.value, p.z.value);
        var v := record.velocity;
        if v.x.None? || v.y.None? || v.z.None? {
          continue;
        }
        var velocity := Vec3(v.x.value, v.y.value, v.z.value);
        if record.mass.None? {
          continue;
        }
        var mass := record.mass.value;
        var body := new Body(position, velocity, mass, name);
        AddBody(body);
        accepted := accepted + [BodyInit(name, position, velocity, mass)];
      }
      assert records[..|records|] == records;
    }

    /** The inner loop of `apply_force`: the force on body `i` summed over
        every other body in index order. */
    method NetForceOn(num: Numerics, i: nat) returns (totalForce: Vec3)
      requires i < |bodies|
      ensures totalForce == NetForce(num, Snapshots(), i)
    {
      ghost var s := Snapshots();
      var n := |bodies|;
      totalForce := Zero;
      var j := 0;
      while j < n
        invariant 0 <= j <= n
        invariant totalForce == ForceSum(num, s, i, j)
      {
        if i != j {
          var force := GravitationalForce(num, bodies[i].Snapshot(), bodies[j].Snapshot());
          totalForce := Add(totalForce, force);
        }
        j := j + 1;
      }
    }

    /** One iteration of `apply_force`'s outer loop: body `i` receives the
        net force it feels now, which is the one it felt at snapshot `s0`
        because only velocities have changed since. */
    method KickBody(num: Numerics, dt: real, i: nat, ghost s0: seq<PointMass>)
      requires i < |bodies| == |s0| && NonzeroMasses(s0)
      requires forall k :: 0 <= k < |bodies| ==> bodies[k].position == s0[k].position && bodies[k].mass == s0[k].mass
      requires bodies[i].velocity == s0[i].velocity
      modifies bodies[i]
      ensures bodies[i].Accelerated(Kick(num, s0, dt)[i].velocity)
    {
      var totalForce := NetForceOn(num, i);
      assert SamePlaces(Snapshots(), s0);
      ForcesIgnoreVelocities(num, Snapshots(), s0, i, |bodies|);
      bodies[i].ApplyForce(totalForce, dt);
    }

    /** Changes every velocity by the net force on its body, in index order.
        Velocities changed earlier in the pass do not affect the later
        forces, so every net force is the one at the state before the call;
        positions, masses and trajectories are kept. */
    method ApplyForce(num: Numerics, dt: real)
      requires Valid()
      requires NonzeroMasses(Snapshots())
      modifies bodies
      ensures Valid()
      ensures Snapshots() == Kick(num, old(Snapshots()), dt)
      ensures forall k :: 0 <= k < |bodies| ==>
                bodies[k].trajectory == old(bodies[k].trajectory) && bodies[k].history == old(bodies[k].history)
    {
      ghost var s0 := Snapshots();
      ghost var kicked := Kick(num, s0, dt);
      var n := |bodies|;
      var i := 0;
      while i < n
        invariant 0 <= i <= n
        invariant Distinct(bodies)
        invariant forall k :: 0 <= k < i ==> bodies[k].Accelerated(kicked[k].velocity)
        invariant forall k :: i <= k < n ==> unchanged(bodies[k])
      {
        KickBody(num, dt, i, s0);
        i := i + 1;
      }
      assert Snapshots() == kicked;
    }

    /** The system's potential energy: every pair i < j once. */
    method TotalPotentialEnergy(num: Numerics) returns (totalEnergy: real)
      ensures totalEnergy == TotalPotential(num, Snapshots())
    {
      ghost var s := Snapshots();
      var n := |bodies|;
      totalEnergy := 0.0;
      var i := 0;
      while i < n
        invariant 0 <= i <= n
        invariant totalEnergy == UpperPairs(num, s, i, n)
      {
        var j := i + 1;
        while j < n
          invariant i + 1 <= j <= n
          invariant totalEnergy == UpperPairs(num, s, i, n) + RowPotential(num, s, i, j)
        {
          totalEnergy := totalEnergy + PotentialEnergy(num, bodies[i].Snapshot(), bodies[j].Snapshot());
          j := j + 1;
        }
        i := i + 1;
      }
    }

    /** The system's kinetic energy: the sum over the bodies of
        0.5 * mass * |velocity|^2, never negative when no mass is. */
    function TotalKineticEnergy(): (e: real)
      reads this`bodies, bodies
      ensures (forall k :: 0 <= k < |bodies| ==> bodies[k].mass >= 0.0) ==> e >= 0.0
    {
      var s := Snapshots();
      assert (forall k :: 0 <= k < |s| ==> s[k].mass >= 0.0) ==> KineticSum(s) >= 0.0 by {
        if forall k :: 0 <= k < |s| ==> s[k].mass >= 0.0 {
          KineticSumNonnegative(s);
        }
      }
      KineticSum(s)
    }

    /** The first half of `update`: moves every body by its own velocity
        times dt, in order, and records each new position. */
    method Advance(dt: real)
      requires Valid()
      modifies bodies
      ensures Valid()
      ensures Snapshots() == Drift(old(Snapshots()), dt)
      ensures forall k :: 0 <= k < |bodies| ==> bodies[k].Advanced(dt)
    {
      ghost var s0 := Snapshots();
      var n := |bodies|;
      var i := 0;
      while i < n
        invariant 0 <= i <= n
        invariant Distinct(bodies)
        invariant forall k :: 0 <= k < i ==> bodies[k].Valid() && bodies[k].Advanced(dt)
        invariant forall k :: i <= k < n ==> unchanged(bodies[k])
      {
        bodies[i].Update(dt);
        i := i + 1;
      }
      assert Snapshots() == Drift(s0, dt);
    }

    /** The second half of `update`: records the instantaneous energies,
        adds them to the running totals, adds dt to the elapsed time and
        recomputes the time averages. The bodies are not touched. */
    method RecordEnergies(num: Numerics, dt: real)
      requires totalTime + dt != 0.0
      modifies this`kineticEnergy, this`potentialEnergy, this`totalKineticEnergy,
               this`totalPotentialEnergy, this`totalTime,
               this`timeAveragedKineticEnergy, this`timeAveragedPotentialEnergy
      ensures kineticEnergy == KineticSum(Snapshots())
      ensures potentialEnergy == TotalPotential(num, Snapshots())
      ensures totalKineticEnergy == old(totalKineticEnergy) + kineticEnergy
      ensures totalPotentialEnergy == old(totalPotentialEnergy) + potentialEnergy
      ensures totalTime == old(totalTime) + dt
      ensures timeAveragedKineticEnergy == totalKineticEnergy / totalTime
      ensures timeAveragedPotentialEnergy == totalPotentialEnergy / totalTime
    {
      kineticEnergy := TotalKineticEnergy();
      potentialEnergy := TotalPotentialEnergy(num);
      totalKineticEnergy := totalKineticEnergy + kineticEnergy;
      totalPotentialEnergy := totalPotentialEnergy + potentialEnergy;
      totalTime := totalTime + dt;
      timeAveragedKineticEnergy := totalKineticEnergy / totalTime;
      timeAveragedPotentialEnergy := totalPotentialEnergy / totalTime;
    }

    /** One simulation step after the forces: every body moves, then the
        energy statistics are brought up to date. */
    method Update(num: Numerics, dt: real)
      requires Valid()
      requires totalTime + dt != 0.0
      modifies bodies, this`kineticEnergy, this`potentialEnergy, this`totalKineticEnergy,
               this`totalPotentialEnergy, this`totalTime,
               this`timeAveragedKineticEnergy, this`timeAveragedPotentialEnergy
      ensures Valid()
      ensures Snapshots() == Drift(old(Snapshots()), dt)
      ensures forall k :: 0 <= k < |bodies| ==> bodies[k].Advanced(dt)
      ensures kineticEnergy == KineticSum(Snapshots())
      ensures potentialEnergy == TotalPotential(num, Snapshots())
      ensures totalKineticEnergy == old(totalKineticEnergy) + kineticEnergy
      ensures totalPotentialEnergy == old(totalPotentialEnergy) + potentialEnergy
      ensures totalTime == old(totalTime) + dt
      ensures timeAveragedKineticEnergy == totalKineticEnergy / totalTime
      ensures timeAveragedPotentialEnergy == totalPotentialEnergy / totalTime
    {
      Advance(dt);
      RecordEnergies(num, dt);
    }
  }
}
