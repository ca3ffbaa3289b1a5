/** Three-dimensional vectors over the reals.

    The simulation works on 32-bit float vectors of a graphics library; here
    every component is an unbounded real and rounding is not modelled. The two
    operations of that library which have no closed form over the reals (the
    Euclidean length, which needs a square root, and normalisation) are not
    defined here: they are supplied as a `Numerics` value, and the laws the
    physics relies on are collected in `Numerics.Lawful`. */
module Vectors {

  datatype Vec3 = Vec3(x: real, y: real, z: real)

  const Zero: Vec3 := Vec3(0.0, 0.0, 0.0)

  function Add(a: Vec3, b: Vec3): Vec3 {
    Vec3(a.x + b.x, a.y + b.y, a.z + b.z)
  }

  function Sub(a: Vec3, b: Vec3): Vec3 {
    Vec3(a.x - b.x, a.y - b.y, a.z - b.z)
  }

  function Neg(a: Vec3): Vec3 {
    Vec3(-a.x, -a.y, -a.z)
  }

  /** `v * k`: every component multiplied by the scalar. */
  function Scale(a: Vec3, k: real): Vec3 {
    Vec3(a.x * k, a.y * k, a.z * k)
  }

  /** `v / k`: every component divided by the scalar. */
  function Div(a: Vec3, k: real): Vec3
    requires k != 0.0
  {
    Vec3(a.x / k, a.y / k, a.z / k)
  }

  /** The squared Euclidean length, which needs no square root. */
  function LengthSquared(a: Vec3): (r: real)
    ensures r >= 0.0
  {
    a.x * a.x + a.y * a.y + a.z * a.z
  }

  lemma NegAddBoth(c: Vec3, a: Vec3, f: Vec3, g: Vec3)
    requires c == Neg(a) && f == Neg(g)
    ensures Add(c, f) == Neg(Add(a, g))
  {
  }

  lemma AddRegroup(a: Vec3, b: Vec3, c: Vec3, d: Vec3)
    ensures Add(Add(a, b), Add(c, d)) == Add(Add(a, c), Add(b, d))
  {
  }

  lemma ScaleAdd(a: Vec3, b: Vec3, k: real)
    ensures Scale(Add(a, b), k) == Add(Scale(a, k), Scale(b, k))
  {
    assert (a.x + b.x) * k == a.x * k + b.x * k;
    assert (a.y + b.y) * k == a.y * k + b.y * k;
    assert (a.z + b.z) * k == a.z * k + b.z * k;
  }

  /** The library numerics the model leaves open: `length` (the Euclidean
      norm) and `normalize` (the unit vector in the same direction). */
  datatype Numerics = Numerics(length: Vec3 -> real, normalize: Vec3 -> Vec3)
  {
    /** What the physics needs of them, stated for the differences of
        positions they are applied to: the distance from a to b is the
        distance from b to a, and the direction from a to b is the reverse
        of the direction from b to a (the law normalize(-v) == -normalize(v)).
        That a length is never negative is not needed: every distance the
        model divides by is first clamped to at least 1. Taken at a == b the
        second law forces normalize(0) == 0, where the vector library gives
        NaN components. */
    ghost predicate Lawful() {
      (forall a, b :: length(Sub(a, b)) == length(Sub(b, a))) &&
      (forall a, b :: normalize(Sub(a, b)) == Neg(normalize(Sub(b, a))))
    }
  }
}
