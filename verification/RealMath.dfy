/** Exact real arithmetic shared by the models: absolute value, minimum, maximum, clamping, signs and square roots. */
module RealMath {

  function Abs(x: real): (r: real)
    ensures r >= 0.0 && -r <= x <= r && (r == x || r == -x)
  {
    if x < 0.0 then -x else x
  }

  function Min(x: real, y: real): (r: real)
    ensures r <= x && r <= y && (r == x || r == y)
  {
    if y < x then y else x
  }

  function Max(x: real, y: real): (r: real)
    ensures x <= r && y <= r && (r == x || r == y)
  {
    if x < y then y else x
  }

  /** The nearest value in a range; only for an empty range does it matter that the lower bound comes first. */
  function Clamp(v: real, lo: real, hi: real): (r: real)
    ensures lo <= hi ==> lo <= r <= hi && (lo <= v <= hi ==> r == v) && r == Max(lo, Min(v, hi))
  {
    Min(Max(v, lo), hi)
  }

  /** The sign of a number as a factor: -1, 0 or 1. */
  function Sign(x: real): (r: real)
    ensures r * x == Abs(x) && r * Abs(x) == x
  {
    if x < 0.0 then -1.0 else if x == 0.0 then 0.0 else 1.0
  }

  /** `sqrt` is the exact square root on the non-negative reals. */
  ghost predicate IsSqrt(sqrt: real -> real) {
    forall x {:trigger sqrt(x)} :: x >= 0.0 ==> sqrt(x) >= 0.0 && sqrt(x) * sqrt(x) == x
  }

  lemma FactorSign(x: real, y: real)
    requires y > 0.0
    ensures x * y >= 0.0 <==> x >= 0.0
    ensures x * y > 0.0 <==> x > 0.0
  {
  }

  lemma ProductPositive(x: real, y: real, z: real)
    requires x > 0.0 && y > 0.0 && z == x * y
    ensures z > 0.0
  {
  }

  lemma Cancel(x: real, y: real, z: real)
    requires z > 0.0 && x * z == y * z
    ensures x == y
  {
    assert (x - y) * z == 0.0;
  }

  lemma SquareOrder(x: real, y: real)
    requires x >= 0.0 && y >= 0.0 && x * x <= y * y
    ensures x <= y
  {
    if x + y > 0.0 {
      assert (y - x) * (y + x) == y * y - x * x;
      FactorSign(y - x, y + x);
    }
  }

  lemma SquarePositive(x: real)
    ensures x * x >= 0.0
    ensures x != 0.0 ==> x * x > 0.0
  {
  }

  lemma RootOfZero(x: real)
    requires x * x <= 0.0
    ensures x == 0.0
  {
    if x >= 0.0 {
      SquareOrder(x, 0.0);
    } else {
      SquareOrder(-x, 0.0);
    }
  }

  lemma SquareMono(x: real, y: real)
    requires 0.0 <= x <= y
    ensures x * x <= y * y
  {
    assert y * y - x * x == (y - x) * (y + x);
  }

  lemma ProductNonNeg(x: real, y: real)
    requires x >= 0.0 && y >= 0.0
    ensures x * y >= 0.0
  {
  }

  lemma ProductMono(x: real, y: real, z: real)
    requires x <= y && z >= 0.0
    ensures x * z <= y * z
  {
    assert (y - x) * z >= 0.0;
  }
}
