/** The smoothed signed distance of a point to an upright cylinder, against the true one. */
module CylinderClearance {
  import opened RealMath
  import opened Spatial

  /** The smoothing term under both square roots. */
  const SMOOTHING := 0.00000001

  function Hypotenuse(sqrt: real -> real, a: real, b: real): real {
    sqrt(a * a + b * b)
  }

  function SmoothHypotenuse(sqrt: real -> real, a: real, b: real): real {
    sqrt(a * a + b * b + SMOOTHING)
  }

  /** The clearance as the controller computes it. */
  function ComputeCylinderClearance(sqrt: real -> real, p: Vec, obstacle: Vec, radius: real, height: real,
      linkRadius: real): real {
    var halfHeight := 0.5 * height;
    var dx, dy := p.x - obstacle.x, p.y - obstacle.y;
    var radialOut := SmoothHypotenuse(sqrt, dx, dy) - radius;
    var dz := Abs(p.z - obstacle.z) - halfHeight;
    var outsideRadial, outsideVertical := Max(radialOut, 0.0), Max(dz, 0.0);
    var outsideDist := SmoothHypotenuse(sqrt, outsideRadial, outsideVertical);
    var insideDist := Min(Max(radialOut, dz), 0.0);
    outsideDist + insideDist - linkRadius
  }

  // -------------------------------------------------------------------------
  // The true signed distance
  // -------------------------------------------------------------------------

  /** The solid cylinder around the origin. */
  predicate InSolid(q: Vec, radius: real, halfHeight: real) {
    Radial(q) <= radius * radius && Abs(q.z) <= halfHeight
  }

  /** The points on the surface of the cylinder or outside. */
  predicate NotInside(q: Vec, radius: real, halfHeight: real) {
    Radial(q) >= radius * radius || Abs(q.z) >= halfHeight
  }

  function Radial(q: Vec): real {
    q.x * q.x + q.y * q.y
  }

  function Planar(p: Vec, q: Vec): real {
    (p.x - q.x) * (p.x - q.x) + (p.y - q.y) * (p.y - q.y)
  }

  function Vertical(p: Vec, q: Vec): real {
    (p.z - q.z) * (p.z - q.z)
  }

  function SquaredDistance(p: Vec, q: Vec): real {
    Planar(p, q) + Vertical(p, q)
  }

  ghost predicate Nearest(p: Vec, q: Vec, d: real) {
    SquaredDistance(p, q) == d * d
  }

  /** d is the signed distance of p to the cylinder around the origin: the distance to the nearest point of the solid,
      or, inside, minus the distance to the nearest point that is not inside. */
  ghost predicate IsSignedDistance(p: Vec, radius: real, halfHeight: real, d: real) {
    if d >= 0.0 then
      && NotInside(p, radius, halfHeight)
      && (forall q :: InSolid(q, radius, halfHeight) ==> SquaredDistance(p, q) >= d * d)
      && (exists q :: InSolid(q, radius, halfHeight) && Nearest(p, q, d))
    else
      && InSolid(p, radius, halfHeight)
      && (forall q :: NotInside(q, radius, halfHeight) ==> SquaredDistance(p, q) >= d * d)
      && (exists q :: NotInside(q, radius, halfHeight) && Nearest(p, q, d))
  }

  /** The formula without smoothing, from the distance r to the axis and the height z. */
  function ExactDistance(sqrt: real -> real, r: real, z: real, radius: real, halfHeight: real): real {
    var out, dz := r - radius, Abs(z) - halfHeight;
    Hypotenuse(sqrt, Max(out, 0.0), Max(dz, 0.0)) + Min(Max(out, dz), 0.0)
  }

  lemma RadialFacts(sqrt: real -> real, q: Vec)
    requires IsSqrt(sqrt)
    ensures Radial(q) >= 0.0 && sqrt(Radial(q)) >= 0.0 && sqrt(Radial(q)) * sqrt(Radial(q)) == Radial(q)
  {
    SquarePositive(q.x);
    SquarePositive(q.y);
  }

  /** In the plane, two points are at least as far apart as their distances from the axis differ. */
  lemma PlaneDistance(p: Vec, q: Vec, r: real, s: real)
    requires r >= 0.0 && s >= 0.0 && r * r == Radial(p) && s * s == Radial(q)
    ensures Planar(p, q) >= (r - s) * (r - s)
  {
    var dot, cross := p.x * q.x + p.y * q.y, p.x * q.y - p.y * q.x;
    Lagrange(p.x, p.y, q.x, q.y, r, s);
    SquarePositive(cross);
    ProductNonNeg(r, s);
    DotSquare(dot, cross, r, s);
    DotBound(dot, r * s);
    Expand(p.x, p.y, q.x, q.y, r, s, dot);
  }

  lemma DotSquare(dot: real, cross: real, r: real, s: real)
    requires dot * dot + cross * cross == (r * r) * (s * s) && cross * cross >= 0.0
    ensures dot * dot <= (r * s) * (r * s)
  {
    assert (r * r) * (s * s) == (r * s) * (r * s);
  }

  lemma FarApart(x: real, a: real)
    requires 0.0 <= a && (a <= x || a <= -x)
    ensures x * x >= a * a
  {
    SquareMono(a, Abs(x));
    assert Abs(x) * Abs(x) == x * x;
  }

  lemma Lagrange(px: real, py: real, qx: real, qy: real, r: real, s: real)
    requires r * r == px * px + py * py && s * s == qx * qx + qy * qy
    ensures (px * qx + py * qy) * (px * qx + py * qy) + (px * qy - py * qx) * (px * qy - py * qx) == (r * r) * (s * s)
  {
    assert (r * r) * (s * s) == (px * px + py * py) * (qx * qx + qy * qy);
  }

  lemma DotBound(x: real, y: real)
    requires y >= 0.0 && x * x <= y * y
    ensures x <= y
  {
    if x >= 0.0 {
      SquareOrder(x, y);
    }
  }

  lemma Expand(px: real, py: real, qx: real, qy: real, r: real, s: real, dot: real)
    requires r * r == px * px + py * py && s * s == qx * qx + qy * qy && dot == px * qx + py * qy && dot <= r * s
    ensures (px - qx) * (px - qx) + (py - qy) * (py - qy) >= (r - s) * (r - s)
  {
    assert (px - qx) * (px - qx) + (py - qy) * (py - qy) == r * r + s * s - 2.0 * dot;
    assert (r - s) * (r - s) == r * r + s * s - 2.0 * (r * s);
  }

  /** Every point of the solid is at least as far as the formula says. */
  lemma SolidIsFar(sqrt: real -> real, p: Vec, r: real, radius: real, halfHeight: real, q: Vec, a: real, b: real)
    requires IsSqrt(sqrt) && radius >= 0.0 && halfHeight >= 0.0 && r >= 0.0 && r * r == Radial(p)
    requires a == Max(r - radius, 0.0) && b == Max(Abs(p.z) - halfHeight, 0.0)
    requires InSolid(q, radius, halfHeight)
    ensures SquaredDistance(p, q) >= a * a + b * b
  {
    hide Radial, Planar;
    RadialFacts(sqrt, q);
    var s := sqrt(Radial(q));
    SquareOrder(s, radius);
    PlaneDistance(p, q, r, s);
    SquarePositive(r - s);
    if r > radius {
      FarApart(r - s, a);
    }
    FarApart(p.z - q.z, b);
  }

  /** Some point of the solid is exactly that far. */
  lemma SolidIsReached(p: Vec, r: real, radius: real, halfHeight: real, a: real, b: real) returns (q: Vec)
    requires radius >= 0.0 && halfHeight >= 0.0 && r >= 0.0 && r * r == Radial(p)
    requires a == Max(r - radius, 0.0) && b == Max(Abs(p.z) - halfHeight, 0.0)
    ensures InSolid(q, radius, halfHeight)
    ensures SquaredDistance(p, q) == a * a + b * b
  {
    hide Radial, Planar;
    var z := if p.z > halfHeight then halfHeight else if p.z < -halfHeight then -halfHeight else p.z;
    q := ScaleTo(p, r, if r > radius then radius else r, z);
    if r <= radius {
      SquareMono(r, radius);
    }
    EqualSquares(p.z - z, b);
  }

  lemma EqualSquares(x: real, y: real)
    requires x == y || x == -y
    ensures x * x == y * y
  {
  }

  /** The point at height z and at distance s from the axis, in the direction of p. */
  lemma ScaleTo(p: Vec, r: real, s: real, z: real) returns (q: Vec)
    requires r >= 0.0 && s >= 0.0 && r * r == Radial(p)
    ensures q.z == z && Radial(q) == s * s && Planar(p, q) == (r - s) * (r - s)
  {
    if r == 0.0 {
      q := Vec(s, 0.0, z);
      ZeroSquares(p.x, p.y);
    } else {
      var k := s / r;
      assert k * r == s;
      q := Vec(k * p.x, k * p.y, z);
      assert Radial(q) == k * k * Radial(p);
      assert k * k * (r * r) == (k * r) * (k * r);
      assert Planar(p, q) == (1.0 - k) * (1.0 - k) * Radial(p);
      assert (1.0 - k) * (1.0 - k) * (r * r) == (r - k * r) * (r - k * r);
    }
  }

  lemma ZeroSquares(x: real, y: real)
    requires x * x + y * y == 0.0
    ensures x == 0.0 && y == 0.0
  {
    SquarePositive(x);
    SquarePositive(y);
    RootOfZero(x);
    RootOfZero(y);
  }

  /** Seen from inside, every point that is not inside is at least as far as the nearer of mantle and lids. */
  lemma OutsideIsFar(sqrt: real -> real, p: Vec, r: real, radius: real, halfHeight: real, depth: real, q: Vec)
    requires IsSqrt(sqrt) && r >= 0.0 && r * r == Radial(p) && radius >= 0.0
    requires 0.0 <= depth <= radius - r && depth <= halfHeight - Abs(p.z)
    requires NotInside(q, radius, halfHeight)
    ensures SquaredDistance(p, q) >= depth * depth
  {
    hide Radial, Planar;
    RadialFacts(sqrt, q);
    var s := sqrt(Radial(q));
    PlaneDistance(p, q, r, s);
    SquarePositive(r - s);
    SquarePositive(p.z - q.z);
    if Abs(q.z) >= halfHeight {
      FarApart(p.z - q.z, depth);
    } else {
      SquareOrder(radius, s);
      FarApart(r - s, depth);
    }
  }

  lemma OutsideIsReached(p: Vec, r: real, radius: real, halfHeight: real, d: real) returns (q: Vec)
    requires r >= 0.0 && r * r == Radial(p) && r < radius && Abs(p.z) < halfHeight
    requires d == Max(r - radius, Abs(p.z) - halfHeight)
    ensures NotInside(q, radius, halfHeight) && SquaredDistance(p, q) == d * d
  {
    if r - radius >= Abs(p.z) - halfHeight {
      hide Radial, Planar;
      q := ScaleTo(p, r, radius, p.z);
      ItselfIsNear(p);
      assert Vertical(p, q) == 0.0;
    } else {
      q := Vec(p.x, p.y, if p.z >= 0.0 then halfHeight else -halfHeight);
      assert Planar(p, q) == 0.0;
      hide Radial, Planar;
      EqualSquares(p.z - q.z, d);
    }
  }

  /** Without smoothing the formula is the signed distance. */
  lemma ExactIsSignedDistance(sqrt: real -> real, p: Vec, radius: real, halfHeight: real)
    requires IsSqrt(sqrt) && radius >= 0.0 && halfHeight >= 0.0
    ensures IsSignedDistance(p, radius, halfHeight, ExactDistance(sqrt, sqrt(Radial(p)), p.z, radius, halfHeight))
  {
    RadialFacts(sqrt, p);
    hide Radial, IsSignedDistance;
    var r := sqrt(Radial(p));
    if r >= radius || Abs(p.z) >= halfHeight {
      OutsideCase(sqrt, p, r, radius, halfHeight);
    } else {
      InsideCase(sqrt, p, r, radius, halfHeight);
    }
  }

  lemma OutsideCase(sqrt: real -> real, p: Vec, r: real, radius: real, halfHeight: real)
    requires IsSqrt(sqrt) && radius >= 0.0 && halfHeight >= 0.0 && r >= 0.0 && r * r == Radial(p)
    requires r >= radius || Abs(p.z) >= halfHeight
    ensures IsSignedDistance(p, radius, halfHeight, ExactDistance(sqrt, r, p.z, radius, halfHeight))
  {
    hide Radial, SquaredDistance, Hypotenuse;
    var a, b := Max(r - radius, 0.0), Max(Abs(p.z) - halfHeight, 0.0);
    HypotenuseFacts(sqrt, a, b);
    var d := Hypotenuse(sqrt, a, b);
    assert ExactDistance(sqrt, r, p.z, radius, halfHeight) == d;
    if r >= radius {
      SquareMono(radius, r);
    }
    forall q | InSolid(q, radius, halfHeight) ensures SquaredDistance(p, q) >= d * d {
      SolidIsFar(sqrt, p, r, radius, halfHeight, q, a, b);
    }
    var q := SolidIsReached(p, r, radius, halfHeight, a, b);
    assert Nearest(p, q, d);
  }

  lemma InsideCase(sqrt: real -> real, p: Vec, r: real, radius: real, halfHeight: real)
    requires IsSqrt(sqrt) && 0.0 <= r < radius && Abs(p.z) < halfHeight && r * r == Radial(p)
    ensures IsSignedDistance(p, radius, halfHeight, ExactDistance(sqrt, r, p.z, radius, halfHeight))
  {
    hide Radial, SquaredDistance, Hypotenuse;
    var d := Max(r - radius, Abs(p.z) - halfHeight);
    HypotenuseOfLeg(sqrt, 0.0);
    assert ExactDistance(sqrt, r, p.z, radius, halfHeight) == d;
    SquareMono(r, radius);
    forall q | NotInside(q, radius, halfHeight) ensures SquaredDistance(p, q) >= d * d {
      OutsideIsFar(sqrt, p, r, radius, halfHeight, -d, q);
      EqualSquares(-d, d);
    }
    var q := OutsideIsReached(p, r, radius, halfHeight, d);
    assert Nearest(p, q, d);
  }

  lemma HypotenuseFacts(sqrt: real -> real, a: real, b: real)
    requires IsSqrt(sqrt)
    ensures var h := Hypotenuse(sqrt, a, b); h >= 0.0 && h * h == a * a + b * b
    ensures var h := SmoothHypotenuse(sqrt, a, b); h >= 0.0 && h * h == a * a + b * b + SMOOTHING
  {
    SquarePositive(a);
    SquarePositive(b);
  }

  lemma HypotenuseOfLeg(sqrt: real -> real, a: real)
    requires IsSqrt(sqrt) && a >= 0.0
    ensures Hypotenuse(sqrt, a, 0.0) == a
  {
    HypotenuseFacts(sqrt, a, 0.0);
    hide Hypotenuse;
    SameSquare(Hypotenuse(sqrt, a, 0.0), a);
  }

  /** There is only one signed distance. */
  lemma SignedDistanceIsUnique(p: Vec, radius: real, halfHeight: real, d: real, e: real)
    requires IsSignedDistance(p, radius, halfHeight, d) && IsSignedDistance(p, radius, halfHeight, e)
    ensures d == e
  {
    hide SquaredDistance;
    if d >= 0.0 && e >= 0.0 {
      var q :| InSolid(q, radius, halfHeight) && Nearest(p, q, d);
      var s :| InSolid(s, radius, halfHeight) && Nearest(p, s, e);
      SameSquare(d, e);
    } else if d < 0.0 && e < 0.0 {
      var q :| NotInside(q, radius, halfHeight) && Nearest(p, q, d);
      var s :| NotInside(s, radius, halfHeight) && Nearest(p, s, e);
      EqualSquares(-d, d);
      EqualSquares(-e, e);
      SameSquare(-d, -e);
    } else {
      ItselfIsNear(p);
      RootOfZero(if d < 0.0 then d else e);
    }
  }

  lemma SameSquare(d: real, e: real)
    requires d >= 0.0 && e >= 0.0 && d * d == e * e
    ensures d == e
  {
    SquareOrder(d, e);
    SquareOrder(e, d);
  }

  lemma ItselfIsNear(p: Vec)
    ensures SquaredDistance(p, p) == 0.0
  {
  }

  // -------------------------------------------------------------------------
  // The smoothing
  // -------------------------------------------------------------------------

  /** Smoothing a square root raises it by at most e. */
  lemma SmoothRoot(x: real, e: real, root: real, smooth: real)
    requires root >= 0.0 && smooth >= 0.0 && e >= 0.0 && root * root == x && smooth * smooth == x + e * e
    ensures root <= smooth <= root + e
  {
    SquarePositive(e);
    SquareOrder(root, smooth);
    ProductNonNeg(root, e);
    assert (root + e) * (root + e) == x + e * e + 2.0 * (root * e);
    SquareOrder(smooth, root + e);
  }

  /** Raising a leg by at most e raises the hypotenuse by at most e. */
  lemma LongerLeg(a: real, c: real, bb: real, e: real, root: real, longer: real)
    requires 0.0 <= a <= c <= a + e && e >= 0.0 && bb >= 0.0
    requires root >= 0.0 && longer >= 0.0 && root * root == a * a + bb && longer * longer == c * c + bb
    ensures root <= longer <= root + e
  {
    SquareMono(a, c);
    SquareOrder(root, longer);
    SquareOrder(a, root);
    SquareMono(c, a + e);
    ProductMono(a, root, e);
    assert (a + e) * (a + e) == a * a + 2.0 * (a * e) + e * e;
    assert (root + e) * (root + e) == root * root + 2.0 * (root * e) + e * e;
    SquareOrder(longer, root + e);
  }

  /** The smoothed clearance is never below the true signed distance less the link radius, and never more than
      twice the root of the smoothing term above it. */
  lemma ClearanceIsTight(sqrt: real -> real, p: Vec, obstacle: Vec, radius: real, height: real, linkRadius: real,
      d: real)
    requires IsSqrt(sqrt) && radius >= 0.0 && height >= 0.0
    requires IsSignedDistance(Vec(p.x - obstacle.x, p.y - obstacle.y, p.z - obstacle.z), radius, 0.5 * height, d)
    ensures d - linkRadius <= ComputeCylinderClearance(sqrt, p, obstacle, radius, height,
      linkRadius) <= d - linkRadius + 0.0002
  {
    hide IsSignedDistance, ExactDistance, SmoothHypotenuse;
    var rel := Vec(p.x - obstacle.x, p.y - obstacle.y, p.z - obstacle.z);
    ExactIsSignedDistance(sqrt, rel, radius, 0.5 * height);
    SignedDistanceIsUnique(rel, radius, 0.5 * height, d,
      ExactDistance(sqrt, sqrt(Radial(rel)), rel.z, radius, 0.5 * height));
    SmoothRadial(sqrt, rel);
    Smoothed(sqrt, sqrt(Radial(rel)), SmoothHypotenuse(sqrt, rel.x, rel.y), rel.z, radius, 0.5 * height);
  }

  lemma SmoothRadial(sqrt: real -> real, q: Vec)
    requires IsSqrt(sqrt)
    ensures sqrt(Radial(q)) <= SmoothHypotenuse(sqrt, q.x, q.y) <= sqrt(Radial(q)) + 0.0001
  {
    RadialFacts(sqrt, q);
    HypotenuseFacts(sqrt, q.x, q.y);
    hide SmoothHypotenuse, Hypotenuse;
    SmoothRoot(q.x * q.x + q.y * q.y, 0.0001, sqrt(Radial(q)), SmoothHypotenuse(sqrt, q.x, q.y));
  }

  /** The formula from the smoothed distance to the axis, with the smoothed hypotenuse. */
  function SmoothedDistance(sqrt: real -> real, smooth: real, z: real, radius: real, halfHeight: real): real {
    var out, dz := smooth - radius, Abs(z) - halfHeight;
    SmoothHypotenuse(sqrt, Max(out, 0.0), Max(dz, 0.0)) + Min(Max(out, dz), 0.0)
  }

  lemma Smoothed(sqrt: real -> real, r: real, smooth: real, z: real, radius: real, halfHeight: real)
    requires IsSqrt(sqrt) && r <= smooth <= r + 0.0001
    ensures ExactDistance(sqrt, r, z, radius, halfHeight) <= SmoothedDistance(sqrt, smooth, z, radius, halfHeight)
         <= ExactDistance(sqrt, r, z, radius, halfHeight) + 0.0002
  {
    var a, c, b := Max(r - radius, 0.0), Max(smooth - radius, 0.0), Max(Abs(z) - halfHeight, 0.0);
    SmoothedHypotenuse(sqrt, a, c, b);
    hide Hypotenuse, SmoothHypotenuse;
    if r < radius && Abs(z) < halfHeight {
      HypotenuseOfLeg(sqrt, a);
      HypotenuseOfLeg(sqrt, c);
    }
  }

  lemma SmoothedHypotenuse(sqrt: real -> real, a: real, c: real, b: real)
    requires IsSqrt(sqrt) && 0.0 <= a <= c <= a + 0.0001
    ensures Hypotenuse(sqrt, a, b) <= Hypotenuse(sqrt, c, b) <= Hypotenuse(sqrt, a, b) + 0.0001
    ensures Hypotenuse(sqrt, c, b) <= SmoothHypotenuse(sqrt, c, b) <= Hypotenuse(sqrt, c, b) + 0.0001
  {
    HypotenuseFacts(sqrt, a, b);
    HypotenuseFacts(sqrt, c, b);
    hide Hypotenuse, SmoothHypotenuse;
    SquarePositive(b);
    LongerLeg(a, c, b * b, 0.0001, Hypotenuse(sqrt, a, b), Hypotenuse(sqrt, c, b));
    SmoothRoot(c * c + b * b, 0.0001, Hypotenuse(sqrt, c, b), SmoothHypotenuse(sqrt, c, b));
  }
}
