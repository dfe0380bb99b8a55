/** Vectors, twists and rotations in three dimensions. */
module Spatial {

  datatype Vec = Vec(x: real, y: real, z: real)

  const ORIGIN: Vec := Vec(0.0, 0.0, 0.0)

  function Add(a: Vec, b: Vec): Vec {
    Vec(a.x + b.x, a.y + b.y, a.z + b.z)
  }

  function Neg(a: Vec): Vec {
    Vec(-a.x, -a.y, -a.z)
  }

  function Scale(a: Vec, k: real): Vec {
    Vec(a.x * k, a.y * k, a.z * k)
  }

  function Dot(a: Vec, b: Vec): real {
    a.x * b.x + a.y * b.y + a.z * b.z
  }

  function Cross(a: Vec, b: Vec): Vec {
    Vec(a.y * b.z - a.z * b.y, a.z * b.x - a.x * b.z, a.x * b.y - a.y * b.x)
  }

  lemma CrossOfSums(a: Vec, b: Vec, c: Vec)
    ensures Cross(a, Add(b, c)) == Add(Cross(a, b), Cross(a, c))
    ensures Cross(Add(b, c), a) == Add(Cross(b, a), Cross(c, a))
  {
  }

  lemma CrossTurnsSign(a: Vec, b: Vec)
    ensures Cross(a, b) == Neg(Cross(b, a)) && Cross(Neg(a), b) == Neg(Cross(a, b))
    ensures Cross(a, Neg(b)) == Neg(Cross(a, b)) && Cross(a, a) == ORIGIN
    ensures Cross(a, ORIGIN) == ORIGIN && Cross(ORIGIN, a) == ORIGIN
  {
  }

  lemma CrossOfScaled(a: Vec, b: Vec, k: real)
    ensures Cross(a, Scale(b, k)) == Scale(Cross(a, b), k)
  {
    var bk := Scale(b, k);
    ScaledDifference(a.y, b.z, a.z, b.y, k, bk.z, bk.y);
    ScaledDifference(a.z, b.x, a.x, b.z, k, bk.x, bk.z);
    ScaledDifference(a.x, b.y, a.y, b.x, k, bk.y, bk.x);
  }

  lemma CrossOfScaledLeft(a: Vec, b: Vec, k: real)
    ensures Cross(Scale(a, k), b) == Scale(Cross(a, b), k)
  {
    hide Cross;
    CrossTurnsSign(Scale(a, k), b);
    CrossTurnsSign(a, b);
    CrossOfScaled(b, a, k);
  }

  /** One component of a cross product with a scaled vector. */
  lemma ScaledDifference(p: real, q: real, r: real, s: real, k: real, qk: real, sk: real)
    requires qk == q * k && sk == s * k
    ensures p * qk - r * sk == (p * q - r * s) * k
  {
  }

  /** The Jacobi identity. */
  lemma Jacobi(a: Vec, b: Vec, c: Vec)
    ensures Cross(a, Cross(b, c)) == Add(Cross(Cross(a, b), c), Cross(b, Cross(a, c)))
  {
    hide Cross;
    var ab, ac, bc := Cross(a, b), Cross(a, c), Cross(b, c);
    JacobiParts(a, b, c, ab, ac, bc);
    SumOfCrosses(a, b, c, ab, ac, bc);
  }

  predicate Minor(m: real, p: real, q: real, r: real, s: real) {
    m == p * q - r * s
  }

  lemma CrossMinors(a: Vec, b: Vec)
    ensures Minor(Cross(a, b).x, a.y, b.z, a.z, b.y)
    ensures Minor(Cross(a, b).y, a.z, b.x, a.x, b.z)
    ensures Minor(Cross(a, b).z, a.x, b.y, a.y, b.x)
  {
  }

  predicate Balanced(a2: real, a3: real, b2: real, b3: real, c2: real, c3: real,
      ab2: real, ab3: real, ac2: real, ac3: real, bc2: real, bc3: real)
  {
    a2 * bc3 - a3 * bc2 == (ab2 * c3 - ab3 * c2) + (b2 * ac3 - b3 * ac2)
  }

  predicate AllBalanced(a: Vec, b: Vec, c: Vec, ab: Vec, ac: Vec, bc: Vec) {
    && Balanced(a.y, a.z, b.y, b.z, c.y, c.z, ab.y, ab.z, ac.y, ac.z, bc.y, bc.z)
    && Balanced(a.z, a.x, b.z, b.x, c.z, c.x, ab.z, ab.x, ac.z, ac.x, bc.z, bc.x)
    && Balanced(a.x, a.y, b.x, b.y, c.x, c.y, ab.x, ab.y, ac.x, ac.y, bc.x, bc.y)
  }

  lemma SumOfCrosses(a: Vec, b: Vec, c: Vec, ab: Vec, ac: Vec, bc: Vec)
    requires AllBalanced(a, b, c, ab, ac, bc)
    ensures Cross(a, bc) == Add(Cross(ab, c), Cross(b, ac))
  {
  }

  lemma JacobiParts(a: Vec, b: Vec, c: Vec, ab: Vec, ac: Vec, bc: Vec)
    requires ab == Cross(a, b) && ac == Cross(a, c) && bc == Cross(b, c)
    ensures AllBalanced(a, b, c, ab, ac, bc)
  {
    hide Balanced, Minor, Cross;
    CrossMinors(a, b);
    CrossMinors(a, c);
    CrossMinors(b, c);
    JacobiComponent(a.x, a.y, a.z, b.x, b.y, b.z, c.x, c.y, c.z, ab.y, ab.z, ac.y, ac.z, bc.y, bc.z);
    JacobiComponent(a.y, a.z, a.x, b.y, b.z, b.x, c.y, c.z, c.x, ab.z, ab.x, ac.z, ac.x, bc.z, bc.x);
    JacobiComponent(a.z, a.x, a.y, b.z, b.x, b.y, c.z, c.x, c.y, ab.x, ab.y, ac.x, ac.y, bc.x, bc.y);
  }

  /** The Jacobi identity in one component; the double letters are components of the inner products. */
  lemma JacobiComponent(
      a1: real, a2: real, a3: real, b1: real, b2: real, b3: real, c1: real, c2: real, c3: real,
      ab2: real, ab3: real, ac2: real, ac3: real, bc2: real, bc3: real)
    requires Minor(ab2, a3, b1, a1, b3) && Minor(ab3, a1, b2, a2, b1)
    requires Minor(ac2, a3, c1, a1, c3) && Minor(ac3, a1, c2, a2, c1)
    requires Minor(bc2, b3, c1, b1, c3) && Minor(bc3, b1, c2, b2, c1)
    ensures Balanced(a2, a3, b2, b3, c2, c3, ab2, ab3, ac2, ac3, bc2, bc3)
  {
  }

  /** A velocity of a reference point and an angular velocity. */
  datatype Twist = Twist(vel: Vec, rot: Vec)

  const STILL: Twist := Twist(ORIGIN, ORIGIN)

  function Plus(s: Twist, t: Twist): Twist {
    Twist(Add(s.vel, t.vel), Add(s.rot, t.rot))
  }

  function Minus(t: Twist): Twist {
    Twist(Neg(t.vel), Neg(t.rot))
  }

  function Times(t: Twist, k: real): Twist {
    Twist(Scale(t.vel, k), Scale(t.rot, k))
  }

  /** The twist at a reference point moved by a vector. */
  function RefPoint(t: Twist, v: Vec): Twist {
    Twist(Add(t.vel, Cross(t.rot, v)), t.rot)
  }

  /** A rotation by its columns. */
  datatype Rotation = Rotation(x: Vec, y: Vec, z: Vec)

  /** Each column is the cross product of the next two, as for any right-handed orthonormal basis. */
  ghost predicate RightHanded(m: Rotation) {
    m.x == Cross(m.y, m.z) && m.y == Cross(m.z, m.x) && m.z == Cross(m.x, m.y)
  }

  /** The inverse of a rotation applied to a vector. */
  function Turn(m: Rotation, v: Vec): Vec {
    Vec(Dot(m.x, v), Dot(m.y, v), Dot(m.z, v))
  }

  function TurnTwist(m: Rotation, t: Twist): Twist {
    Twist(Turn(m, t.vel), Turn(m, t.rot))
  }

  lemma CrossProducts(u: Vec, v: Vec, a: Vec, b: Vec)
    ensures Dot(Cross(u, v), Cross(a, b)) == Dot(u, a) * Dot(v, b) - Dot(v, a) * Dot(u, b)
  {
  }

  lemma TurnOfCross(m: Rotation, a: Vec, b: Vec)
    requires RightHanded(m)
    ensures Turn(m, Cross(a, b)) == Cross(Turn(m, a), Turn(m, b))
  {
    CrossProducts(m.y, m.z, a, b);
    CrossProducts(m.z, m.x, a, b);
    CrossProducts(m.x, m.y, a, b);
  }

  lemma TurnOfSum(m: Rotation, a: Vec, b: Vec, k: real)
    ensures Turn(m, Add(a, b)) == Add(Turn(m, a), Turn(m, b))
    ensures Turn(m, Scale(a, k)) == Scale(Turn(m, a), k)
    ensures Turn(m, Neg(a)) == Neg(Turn(m, a))
    ensures Turn(m, ORIGIN) == ORIGIN
  {
    DotOfSum(m.x, a, b, k);
    DotOfSum(m.y, a, b, k);
    DotOfSum(m.z, a, b, k);
  }

  lemma DotOfSum(u: Vec, a: Vec, b: Vec, k: real)
    ensures Dot(u, Add(a, b)) == Dot(u, a) + Dot(u, b)
    ensures Dot(u, Scale(a, k)) == Dot(u, a) * k
    ensures Dot(u, Neg(a)) == -Dot(u, a)
  {
  }
}
