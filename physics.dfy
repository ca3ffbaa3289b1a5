/** The pairwise force model of the n-body simulation: Newtonian attraction
    and potential energy between two point masses, with the separation
    clamped from below, and the kinetic energy of one mass. */
module Physics {
  import opened Vectors

  /** The gravitational constant, 6.67430e-11. */
  const G: real := 0.0000000000667430

  /** Separations below this are treated as this (softening at short range). */
  const DistanceFloor: real := 1.0

  /** What the force model reads of a body: where it is, how fast it moves
      and how heavy it is. */
  datatype PointMass = PointMass(position: Vec3, velocity: Vec3, mass: real)

  /** `length().max(1.0)` of the vector from `a` to `b`: never below the
      floor, so the divisors built from it are never zero. */
  function Separation(num: Numerics, a: PointMass, b: PointMass): (d: real)
    ensures d >= DistanceFloor
    ensures d >= num.length(Sub(b.position, a.position))
    ensures num.length(Sub(b.position, a.position)) >= DistanceFloor ==>
              d == num.length(Sub(b.position, a.position))
    ensures num.length(Sub(b.position, a.position)) < DistanceFloor ==> d == DistanceFloor
  {
    var len := num.length(Sub(b.position, a.position));
    if len >= DistanceFloor then len else DistanceFloor
  }

  /** The force `b` exerts on `a`: along the direction from `a` to `b`, with
      magnitude G * m_a * m_b / d^2 for the clamped separation d. */
  function GravitationalForce(num: Numerics, a: PointMass, b: PointMass): (f: Vec3)
    ensures a.mass == 0.0 || b.mass == 0.0 ==> f == Zero
  {
    var direction := Sub(b.position, a.position);
    var distance := Separation(num, a, b);
    var magnitude := G * a.mass * b.mass / (distance * distance);
    Scale(num.normalize(direction), magnitude)
  }

  /** Half the mass times the squared speed: zero for a body at rest or
      without mass. */
  function KineticEnergy(a: PointMass): (e: real)
    ensures a.velocity == Zero || a.mass == 0.0 ==> e == 0.0
  {
    0.5 * a.mass * LengthSquared(a.velocity)
  }

  /** Minus G * m_a * m_b over the clamped separation. */
  function PotentialEnergy(num: Numerics, a: PointMass, b: PointMass): (e: real)
    ensures a.mass == 0.0 || b.mass == 0.0 ==> e == 0.0
    ensures num.length(Sub(b.position, a.position)) >= DistanceFloor ==>
              e == -G * a.mass * b.mass / num.length(Sub(b.position, a.position))
    ensures num.length(Sub(b.position, a.position)) < DistanceFloor ==> e == -G * a.mass * b.mass
  {
    var distance := Separation(num, a, b);
    -G * a.mass * b.mass / distance
  }

  /** The force in the two regimes of the distance floor: beyond it, the
      inverse-square law of the true distance; within it, the force of two
      bodies a unit apart, along the same direction. */
  lemma ForceByDistance(num: Numerics, a: PointMass, b: PointMass)
    ensures var dir := Sub(b.position, a.position); var len := num.length(dir);
            len >= DistanceFloor ==>
              GravitationalForce(num, a, b) == Scale(num.normalize(dir), G * a.mass * b.mass / (len * len))
    ensures var dir := Sub(b.position, a.position);
            num.length(dir) < DistanceFloor ==>
              GravitationalForce(num, a, b) == Scale(num.normalize(dir), G * a.mass * b.mass)
  {
  }

  lemma SeparationSymmetric(num: Numerics, a: PointMass, b: PointMass)
    requires num.Lawful()
    ensures Separation(num, a, b) == Separation(num, b, a)
  {
    assert num.length(Sub(b.position, a.position)) == num.length(Sub(a.position, b.position));
  }

  /** Newton's third law: the force of `b` on `a` is the reverse of the
      force of `a` on `b`. */
  lemma ForceAntisymmetric(num: Numerics, a: PointMass, b: PointMass)
    requires num.Lawful()
    ensures GravitationalForce(num, a, b) == Neg(GravitationalForce(num, b, a))
  {
    var ab := Sub(b.position, a.position);
    var ba := Sub(a.position, b.position);
    assert ab == Neg(ba);
    assert num.normalize(ab) == Neg(num.normalize(ba));
    SeparationSymmetric(num, a, b);
    var d := Separation(num, a, b);
    assert G * a.mass * b.mass / (d * d) == G * b.mass * a.mass / (d * d);
  }

  lemma PotentialSymmetric(num: Numerics, a: PointMass, b: PointMass)
    requires num.Lawful()
    ensures PotentialEnergy(num, a, b) == PotentialEnergy(num, b, a)
  {
    SeparationSymmetric(num, a, b);
    var d := Separation(num, a, b);
    assert -G * a.mass * b.mass / d == -G * b.mass * a.mass / d;
  }

  /** The antisymmetry law taken at a == b pins the direction of the zero
      vector to the zero vector: lemmas that assume `Lawful` treat two bodies
      at the same position as exerting no force on each other. */
  lemma LawfulZeroDirection(num: Numerics)
    requires num.Lawful()
    ensures num.normalize(Zero) == Zero
  {
    assert Sub(Zero, Zero) == Zero;
    var n := num.normalize(Zero);
    assert n == Neg(n);
  }

  lemma CoincidentBodiesNoForce(num: Numerics, a: PointMass, b: PointMass)
    requires num.Lawful()
    requires a.position == b.position
    ensures GravitationalForce(num, a, b) == Zero
  {
    LawfulZeroDirection(num);
    assert Sub(b.position, a.position) == Zero;
  }

  /** A body of non-negative mass carries non-negative kinetic energy. */
  lemma KineticEnergyNonnegative(a: PointMass)
    requires a.mass >= 0.0
    ensures KineticEnergy(a) >= 0.0
  {
    var v2 := LengthSquared(a.velocity);
    assert v2 >= 0.0;
    assert 0.5 * a.mass >= 0.0;
    MulNonnegative(0.5 * a.mass, v2);
  }

  /** Two bodies of non-negative mass attract: their potential energy is
      never positive. */
  lemma PotentialEnergyNonpositive(num: Numerics, a: PointMass, b: PointMass)
    requires a.mass >= 0.0 && b.mass >= 0.0
    ensures PotentialEnergy(num, a, b) <= 0.0
  {
    var d := Separation(num, a, b);
    MulNonnegative(G, a.mass);
    MulNonnegative(G * a.mass, b.mass);
    var p := G * a.mass * b.mass;
    assert p / d >= 0.0;
    assert -G * a.mass * b.mass / d == -(p / d);
  }

  lemma MulNonnegative(x: real, y: real)
    requires x >= 0.0 && y >= 0.0
    ensures x * y >= 0.0
  {
  }

  /** Two masses of 5.0e16 ten units apart along x, at rest: the first is
      pulled along +x with magnitude G * 5.0e16 * 5.0e16 / 100, provided the
      library numerics give that vector length 10 and direction +x. */
  lemma TwoBodyExample(num: Numerics)
    requires num.length(Vec3(10.0, 0.0, 0.0)) == 10.0
    requires num.normalize(Vec3(10.0, 0.0, 0.0)) == Vec3(1.0, 0.0, 0.0)
    ensures GravitationalForce(num, PointMass(Zero, Zero, 50000000000000000.0),
                               PointMass(Vec3(10.0, 0.0, 0.0), Zero, 50000000000000000.0))
            == Vec3(G * 50000000000000000.0 * 50000000000000000.0 / 100.0, 0.0, 0.0)
  {
    var a := PointMass(Zero, Zero, 50000000000000000.0);
    var b := PointMass(Vec3(10.0, 0.0, 0.0), Zero, 50000000000000000.0);
    assert Sub(b.position, a.position) == Vec3(10.0, 0.0, 0.0);
    assert Separation(num, a, b) == 10.0;
  }
}
