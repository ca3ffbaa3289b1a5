/** Whole-system specifications of one simulation tick, on snapshots of the
    bodies (`seq<PointMass>`): the net force on each body by direct
    summation, the velocity and position updates, and the energy totals.
    The imperative code in module NBody is proved against these. */
module System {
  import opened Vectors
  import opened Physics

  /** The force on body `i` from bodies `0 .. k-1` other than itself, summed
      in index order. */
  function ForceSum(num: Numerics, s: seq<PointMass>, i: nat, k: nat): Vec3
    requires i < |s| && k <= |s|
  {
    if k == 0 then Zero
    else if k - 1 != i then Add(ForceSum(num, s, i, k - 1), GravitationalForce(num, s[i], s[k - 1]))
    else ForceSum(num, s, i, k - 1)
  }

  /** The net force on body `i` from every other body. */
  function NetForce(num: Numerics, s: seq<PointMass>, i: nat): Vec3
    requires i < |s|
  {
    ForceSum(num, s, i, |s|)
  }

  /** Two snapshots of the same bodies that agree on every position and
      mass; they may differ in velocities. */
  ghost predicate SamePlaces(s: seq<PointMass>, t: seq<PointMass>) {
    |s| == |t| && forall i :: 0 <= i < |s| ==> s[i].position == t[i].position && s[i].mass == t[i].mass
  }

  /** Forces depend on positions and masses only: changing velocities, as
      `Bodies::apply_force` does while it still has forces to compute, does
      not change the forces computed afterwards. */
  lemma {:induction false} ForcesIgnoreVelocities(num: Numerics, s: seq<PointMass>, t: seq<PointMass>, i: nat, k: nat)
    requires SamePlaces(s, t)
    requires i < |s| && k <= |s|
    ensures ForceSum(num, s, i, k) == ForceSum(num, t, i, k)
  {
    if k > 0 {
      ForcesIgnoreVelocities(num, s, t, i, k - 1);
      SamePlacesSameForce(num, s[i], s[k - 1], t[i], t[k - 1]);
    }
  }

  lemma SamePlacesSameForce(num: Numerics, a: PointMass, b: PointMass, a': PointMass, b': PointMass)
    requires a.position == a'.position && a.mass == a'.mass
    requires b.position == b'.position && b.mass == b'.mass
    ensures GravitationalForce(num, a, b) == GravitationalForce(num, a', b')
  {
    assert Separation(num, a, b) == Separation(num, a', b');
  }

  /** Sum over bodies `0 .. m-1` of `ForceSum(num, s, i, k)`. */
  function ForceTotal(num: Numerics, s: seq<PointMass>, m: nat, k: nat): Vec3
    requires m <= |s| && k <= |s|
  {
    if m == 0 then Zero else Add(ForceTotal(num, s, m - 1, k), ForceSum(num, s, m - 1, k))
  }

  /** Sum over bodies `0 .. m-1` of the force body `c` exerts on each. */
  function ForceColumn(num: Numerics, s: seq<PointMass>, m: nat, c: nat): Vec3
    requires m <= |s| && c < |s|
  {
    if m == 0 then Zero else Add(ForceColumn(num, s, m - 1, c), GravitationalForce(num, s[m - 1], s[c]))
  }

  lemma {:induction false} ForceTotalStep(num: Numerics, s: seq<PointMass>, m: nat, n: nat)
    requires m <= n < |s|
    ensures ForceTotal(num, s, m, n + 1) == Add(ForceTotal(num, s, m, n), ForceColumn(num, s, m, n))
  {
    if m > 0 {
      ForceTotalStep(num, s, m - 1, n);
    }
  }

  /** What the first `m` bodies exert on body `n` is the reverse of what
      body `n` receives from them. */
  lemma {:induction false} ColumnIsReaction(num: Numerics, s: seq<PointMass>, m: nat, n: nat)
    requires num.Lawful()
    requires m <= n < |s|
    ensures ForceColumn(num, s, m, n) == Neg(ForceSum(num, s, n, m))
  {
    if m > 0 {
      var i := m - 1;
      var exerted, received := GravitationalForce(num, s[i], s[n]), GravitationalForce(num, s[n], s[i]);
      ColumnIsReaction(num, s, i, n);
      ForceAntisymmetric(num, s[i], s[n]);
      assert ForceColumn(num, s, m, n) == Add(ForceColumn(num, s, i, n), exerted);
      assert ForceSum(num, s, n, m) == Add(ForceSum(num, s, n, i), received);
      NegAddBoth(ForceColumn(num, s, i, n), ForceSum(num, s, n, i), exerted, received);
    }
  }

  /** Newton's third law for the whole system: the net forces on the first
      `n` bodies, each taken from the other `n - 1`, add up to zero. */
  lemma {:induction false} NetForcesCancel(num: Numerics, s: seq<PointMass>, n: nat)
    requires num.Lawful()
    requires n <= |s|
    ensures ForceTotal(num, s, n, n) == Zero
  {
    if n > 0 {
      var p := n - 1;
      NetForcesCancel(num, s, p);
      ForceTotalStep(num, s, p, p);
      ColumnIsReaction(num, s, p, p);
      assert ForceSum(num, s, p, n) == ForceSum(num, s, p, p);
    }
  }

  ghost predicate NonzeroMasses(s: seq<PointMass>) {
    forall i :: 0 <= i < |s| ==> s[i].mass != 0.0
  }

  /** The snapshot after `Bodies::apply_force`: every velocity changed by
      (net force / mass) * dt, the net forces all taken from the positions
      before the call; positions and masses kept. */
  function Kick(num: Numerics, s: seq<PointMass>, dt: real): (r: seq<PointMass>)
    requires NonzeroMasses(s)
    ensures |r| == |s|
    ensures forall i :: 0 <= i < |s| ==> r[i].position == s[i].position && r[i].mass == s[i].mass
  {
    seq(|s|, i requires 0 <= i < |s| =>
      PointMass(s[i].position, Add(s[i].velocity, Scale(Div(NetForce(num, s, i), s[i].mass), dt)), s[i].mass))
  }

  /** The snapshot after every body moved by velocity * dt. */
  function Drift(s: seq<PointMass>, dt: real): (r: seq<PointMass>)
    ensures |r| == |s|
    ensures forall i :: 0 <= i < |s| ==> r[i].velocity == s[i].velocity && r[i].mass == s[i].mass
  {
    seq(|s|, i requires 0 <= i < |s| =>
      PointMass(Add(s[i].position, Scale(s[i].velocity, dt)), s[i].velocity, s[i].mass))
  }

  /** Total momentum of the first `m` bodies. */
  function Momentum(s: seq<PointMass>, m: nat): Vec3
    requires m <= |s|
  {
    if m == 0 then Zero else Add(Momentum(s, m - 1), Scale(s[m - 1].velocity, s[m - 1].mass))
  }

  lemma Impulse(v: real, f: real, mass: real, dt: real)
    requires mass != 0.0
    ensures (v + f / mass * dt) * mass == v * mass + f * dt
  {
    assert f / mass * mass == f;
    calc {
      (v + f / mass * dt) * mass;
      v * mass + (f / mass) * dt * mass;
      v * mass + (f / mass) * mass * dt;
      v * mass + f * dt;
    }
  }

  /** Momentum gained from a velocity change of (f / mass) * dt is f * dt. */
  lemma VectorImpulse(v: Vec3, f: Vec3, mass: real, dt: real)
    requires mass != 0.0
    ensures Scale(Add(v, Scale(Div(f, mass), dt)), mass) == Add(Scale(v, mass), Scale(f, dt))
  {
    Impulse(v.x, f.x, mass, dt);
    Impulse(v.y, f.y, mass, dt);
    Impulse(v.z, f.z, mass, dt);
  }

  /** One body's contribution to the momentum after the force pass: the
      prefix momentum P with impulse T * dt, plus the body's new momentum,
      is the prefix momentum with the body's old momentum plus the combined
      impulse (T + f) * dt. */
  lemma MomentumStep(p: Vec3, t: Vec3, v: Vec3, f: Vec3, mass: real, dt: real)
    requires mass != 0.0
    ensures Add(Add(p, Scale(t, dt)), Scale(Add(v, Scale(Div(f, mass), dt)), mass))
            == Add(Add(p, Scale(v, mass)), Scale(Add(t, f), dt))
  {
    VectorImpulse(v, f, mass, dt);
    ScaleAdd(t, f, dt);
    AddRegroup(p, Scale(t, dt), Scale(v, mass), Scale(f, dt));
  }

  lemma {:induction false} KickMomentumPrefix(num: Numerics, s: seq<PointMass>, dt: real, m: nat)
    requires NonzeroMasses(s)
    requires m <= |s|
    ensures Momentum(Kick(num, s, dt), m) == Add(Momentum(s, m), Scale(ForceTotal(num, s, m, |s|), dt))
  {
    if m > 0 {
      var i := m - 1;
      var k := Kick(num, s, dt);
      KickMomentumPrefix(num, s, dt, i);
      var p, t := Momentum(s, i), ForceTotal(num, s, i, |s|);
      var v, f, w := s[i].velocity, NetForce(num, s, i), s[i].mass;
      assert k[i] == PointMass(s[i].position, Add(v, Scale(Div(f, w), dt)), w);
      calc {
        Momentum(k, m);
        Add(Momentum(k, i), Scale(k[i].velocity, k[i].mass));
        Add(Add(p, Scale(t, dt)), Scale(Add(v, Scale(Div(f, w), dt)), w));
        { MomentumStep(p, t, v, f, w, dt); }
        Add(Add(p, Scale(v, w)), Scale(Add(t, f), dt));
        Add(Momentum(s, m), Scale(ForceTotal(num, s, m, |s|), dt));
      }
    } else {
      assert Scale(Zero, dt) == Zero && Add(Zero, Zero) == Zero;
    }
  }

  /** `Bodies::apply_force` conserves total momentum: velocity changes are
      (force / mass) * dt and the forces cancel in pairs. */
  lemma KickConservesMomentum(num: Numerics, s: seq<PointMass>, dt: real)
    requires num.Lawful()
    requires NonzeroMasses(s)
    ensures Momentum(Kick(num, s, dt), |s|) == Momentum(s, |s|)
  {
    KickMomentumPrefix(num, s, dt, |s|);
    NetForcesCancel(num, s, |s|);
    var before := Momentum(s, |s|);
    assert Add(before, Scale(Zero, dt)) == before;
  }

  /** Two equal masses m at rest, ten units apart along x: after one force
      pass with dt = 1 the first moves along +x at speed G * m / 100 and the
      second at the same speed towards it, provided the library numerics
      give the vectors (10, 0, 0) and (-10, 0, 0) length 10 and directions
      +x and -x. */
  lemma TwoBodyKick(num: Numerics, m: real)
    requires m != 0.0
    requires num.length(Vec3(10.0, 0.0, 0.0)) == 10.0 && num.length(Vec3(-10.0, 0.0, 0.0)) == 10.0
    requires num.normalize(Vec3(10.0, 0.0, 0.0)) == Vec3(1.0, 0.0, 0.0)
    requires num.normalize(Vec3(-10.0, 0.0, 0.0)) == Vec3(-1.0, 0.0, 0.0)
    ensures var s := [PointMass(Zero, Zero, m), PointMass(Vec3(10.0, 0.0, 0.0), Zero, m)];
            Kick(num, s, 1.0)[0].velocity == Vec3(G * m / 100.0, 0.0, 0.0) &&
            Kick(num, s, 1.0)[1].velocity == Vec3(-(G * m / 100.0), 0.0, 0.0)
  {
    var a, b := PointMass(Zero, Zero, m), PointMass(Vec3(10.0, 0.0, 0.0), Zero, m);
    var pull := G * m * m / (10.0 * 10.0);
    assert Separation(num, a, b) == 10.0 && Separation(num, b, a) == 10.0;
    assert GravitationalForce(num, a, b) == Vec3(pull, 0.0, 0.0);
    assert GravitationalForce(num, b, a) == Vec3(-pull, 0.0, 0.0);
    TwoNetForces(num, a, b);
    CancelMass(G, m);
  }

  lemma CancelMass(g: real, m: real)
    requires m != 0.0
    ensures g * m * m / (10.0 * 10.0) / m == g * m / 100.0
    ensures -(g * m * m / (10.0 * 10.0)) / m == -(g * m / 100.0)
  {
    assert g * m * m / m == g * m;
  }

  /** With two bodies each feels only the other. */
  lemma TwoNetForces(num: Numerics, a: PointMass, b: PointMass)
    ensures NetForce(num, [a, b], 0) == GravitationalForce(num, a, b)
    ensures NetForce(num, [a, b], 1) == GravitationalForce(num, b, a)
  {
    var s := [a, b];
    assert ForceSum(num, s, 0, 1) == Zero;
    assert ForceSum(num, s, 1, 1) == Add(Zero, GravitationalForce(num, b, a));
    assert ForceSum(num, s, 1, 2) == ForceSum(num, s, 1, 1);
  }

  /** Moving the bodies leaves their momentum alone, so a whole tick (forces
      first, then positions) conserves it. */
  lemma {:induction false} DriftKeepsMomentum(s: seq<PointMass>, dt: real, m: nat)
    requires m <= |s|
    ensures Momentum(Drift(s, dt), m) == Momentum(s, m)
  {
    if m > 0 {
      DriftKeepsMomentum(s, dt, m - 1);
    }
  }

  lemma TickConservesMomentum(num: Numerics, s: seq<PointMass>, dt: real)
    requires num.Lawful()
    requires NonzeroMasses(s)
    ensures Momentum(Drift(Kick(num, s, dt), dt), |s|) == Momentum(s, |s|)
  {
    KickConservesMomentum(num, s, dt);
    DriftKeepsMomentum(Kick(num, s, dt), dt, |s|);
  }

  // ----- kinetic energy -----

  /** Sum of the kinetic energies of all bodies. */
  function KineticSum(s: seq<PointMass>): real {
    if s == [] then 0.0 else KineticEnergy(s[0]) + KineticSum(s[1..])
  }

  lemma {:induction false} KineticSumNonnegative(s: seq<PointMass>)
    requires forall i :: 0 <= i < |s| ==> s[i].mass >= 0.0
    ensures KineticSum(s) >= 0.0
  {
    if s != [] {
      KineticEnergyNonnegative(s[0]);
      KineticSumNonnegative(s[1..]);
    }
  }

  lemma {:induction false} KineticSumAppend(s: seq<PointMass>, t: seq<PointMass>)
    ensures KineticSum(s + t) == KineticSum(s) + KineticSum(t)
  {
    if s == [] {
      assert s + t == t;
    } else {
      assert (s + t)[1..] == s[1..] + t;
      KineticSumAppend(s[1..], t);
    }
  }

  /** Moving the bodies does not change the kinetic energy. */
  lemma {:induction false} DriftKeepsKinetic(s: seq<PointMass>, dt: real)
    ensures KineticSum(Drift(s, dt)) == KineticSum(s)
  {
    if s != [] {
      assert Drift(s, dt)[1..] == Drift(s[1..], dt);
      DriftKeepsKinetic(s[1..], dt);
    }
  }

  // ----- potential energy -----

  /** Sum of the potential energies of body `i` with bodies `i+1 .. hi-1`. */
  function RowPotential(num: Numerics, s: seq<PointMass>, i: nat, hi: nat): real
    requires i < |s| && hi <= |s|
  {
    if hi <= i + 1 then 0.0 else RowPotential(num, s, i, hi - 1) + PotentialEnergy(num, s[i], s[hi - 1])
  }

  /** Sum over `i < m` of `RowPotential(num, s, i, hi)`. */
  function UpperPairs(num: Numerics, s: seq<PointMass>, m: nat, hi: nat): real
    requires m <= |s| && hi <= |s|
  {
    if m == 0 then 0.0 else UpperPairs(num, s, m - 1, hi) + RowPotential(num, s, m - 1, hi)
  }

  /** The system's potential energy, over pairs i < j as the nested loop of
      `total_potential_energy` visits them. */
  function TotalPotential(num: Numerics, s: seq<PointMass>): real {
    UpperPairs(num, s, |s|, |s|)
  }

  /** Sum over `i < m` of the potential energy of body `i` with body `c`. */
  function PotentialColumn(num: Numerics, s: seq<PointMass>, m: nat, c: nat): real
    requires m <= |s| && c < |s|
  {
    if m == 0 then 0.0 else PotentialColumn(num, s, m - 1, c) + PotentialEnergy(num, s[m - 1], s[c])
  }

  /** Sum over `j < k`, `j != i`, of the potential energy of body `i` with body `j`. */
  function OtherPotential(num: Numerics, s: seq<PointMass>, i: nat, k: nat): real
    requires i < |s| && k <= |s|
  {
    if k == 0 then 0.0
    else if k - 1 != i then OtherPotential(num, s, i, k - 1) + PotentialEnergy(num, s[i], s[k - 1])
    else OtherPotential(num, s, i, k - 1)
  }

  /** Sum over ordered pairs (i, j), `i < m`, `j < k`, `i != j`. */
  function OrderedPotential(num: Numerics, s: seq<PointMass>, m: nat, k: nat): real
    requires m <= |s| && k <= |s|
  {
    if m == 0 then 0.0 else OrderedPotential(num, s, m - 1, k) + OtherPotential(num, s, m - 1, k)
  }

  lemma {:induction false} UpperPairsStep(num: Numerics, s: seq<PointMass>, m: nat, n: nat)
    requires m <= n < |s|
    ensures UpperPairs(num, s, m, n + 1) == UpperPairs(num, s, m, n) + PotentialColumn(num, s, m, n)
  {
    if m > 0 {
      UpperPairsStep(num, s, m - 1, n);
    }
  }

  lemma {:induction false} OrderedPotentialStep(num: Numerics, s: seq<PointMass>, m: nat, n: nat)
    requires m <= n < |s|
    ensures OrderedPotential(num, s, m, n + 1) == OrderedPotential(num, s, m, n) + PotentialColumn(num, s, m, n)
  {
    if m > 0 {
      OrderedPotentialStep(num, s, m - 1, n);
    }
  }

  lemma {:induction false} OtherIsColumn(num: Numerics, s: seq<PointMass>, m: nat, n: nat)
    requires num.Lawful()
    requires m <= n < |s|
    ensures OtherPotential(num, s, n, m) == PotentialColumn(num, s, m, n)
  {
    if m > 0 {
      OtherIsColumn(num, s, m - 1, n);
      PotentialSymmetric(num, s[m - 1], s[n]);
    }
  }

  lemma {:induction false} OrderedIsTwiceUpper(num: Numerics, s: seq<PointMass>, n: nat)
    requires num.Lawful()
    requires n <= |s|
    ensures OrderedPotential(num, s, n, n) == 2.0 * UpperPairs(num, s, n, n)
  {
    if n > 0 {
      var p := n - 1;
      OrderedIsTwiceUpper(num, s, p);
      OrderedPotentialStep(num, s, p, p);
      UpperPairsStep(num, s, p, p);
      OtherIsColumn(num, s, p, p);
      assert OtherPotential(num, s, p, n) == OtherPotential(num, s, p, p);
    }
  }

  /** Each unordered pair is counted exactly once: summing over all ordered
      pairs i != j gives twice the system's potential energy. */
  lemma PairsCountedOnce(num: Numerics, s: seq<PointMass>)
    requires num.Lawful()
    ensures OrderedPotential(num, s, |s|, |s|) == 2.0 * TotalPotential(num, s)
  {
    OrderedIsTwiceUpper(num, s, |s|);
  }

  /** With fewer than two bodies there is no pair, and no potential energy. */
  lemma NoPairNoPotential(num: Numerics, s: seq<PointMass>)
    requires |s| <= 1
    ensures TotalPotential(num, s) == 0.0
  {
    if |s| == 1 {
      assert UpperPairs(num, s, 0, 1) == 0.0;
      assert RowPotential(num, s, 0, 1) == 0.0;
    }
  }

  lemma {:induction false} RowPotentialNonpositive(num: Numerics, s: seq<PointMass>, i: nat, hi: nat)
    requires forall k :: 0 <= k < |s| ==> s[k].mass >= 0.0
    requires i < |s| && hi <= |s|
    ensures RowPotential(num, s, i, hi) <= 0.0
  {
    if hi > i + 1 {
      RowPotentialNonpositive(num, s, i, hi - 1);
      PotentialEnergyNonpositive(num, s[i], s[hi - 1]);
    }
  }

  lemma {:induction false} UpperPairsNonpositive(num: Numerics, s: seq<PointMass>, m: nat, hi: nat)
    requires forall k :: 0 <= k < |s| ==> s[k].mass >= 0.0
    requires m <= |s| && hi <= |s|
    ensures UpperPairs(num, s, m, hi) <= 0.0
  {
    if m > 0 {
      UpperPairsNonpositive(num, s, m - 1, hi);
      RowPotentialNonpositive(num, s, m - 1, hi);
    }
  }

  /** Bodies of non-negative mass have non-positive total potential energy. */
  lemma TotalPotentialNonpositive(num: Numerics, s: seq<PointMass>)
    requires forall k :: 0 <= k < |s| ==> s[k].mass >= 0.0
    ensures TotalPotential(num, s) <= 0.0
  {
    UpperPairsNonpositive(num, s, |s|, |s|);
  }
}
