/** The three-phase law of motion of one joint: how far it has come, how fast it goes, and what that keeps. */
module MotionLaw {
  import opened RealMath
  import opened MotionProfile

  // -------------------------------------------------------------------------
  // The blend polynomial of a ramp
  // -------------------------------------------------------------------------

  /** Travel along a ramp of unit speed and duration, from rest to full speed. */
  function Blend(x: real): real {
    x * x * x - x * x * x * x / 2.0
  }

  /** The slope of Blend. */
  function BlendSlope(x: real): real {
    3.0 * (x * x) - 2.0 * (x * x * x)
  }

  /** The mean slope of Blend between x and y. */
  function MeanSlope(x: real, y: real): real {
    x * x + x * y + y * y - (x + y) * (x * x + y * y) / 2.0
  }

  lemma MeanSlopeIsSlope(x: real, y: real)
    ensures Blend(y) - Blend(x) == (y - x) * MeanSlope(x, y)
  {
    assert (y - x) * (x * x + x * y + y * y) == y * y * y - x * x * x;
    assert (y - x) * (x + y) * (x * x + y * y) == y * y * y * y - x * x * x * x;
  }

  lemma MeanSlopeNonNeg(x: real, y: real)
    requires 0.0 <= x <= 1.0 && 0.0 <= y <= 1.0
    ensures MeanSlope(x, y) >= 0.0
  {
    var p, q, r := x * x * (1.0 - x), y * y * (1.0 - y), x * y * (2.0 - x - y);
    ProductNonNeg(x * x, 1.0 - x);
    ProductNonNeg(y * y, 1.0 - y);
    ProductNonNeg(x, y);
    ProductNonNeg(x * y, 2.0 - x - y);
    MeanSlopeSplit(x, y);
    SquarePositive(x);
    SquarePositive(y);
  }

  lemma MeanSlopeSplit(x: real, y: real)
    ensures MeanSlope(x, y)
         == x * x * (1.0 - x) / 2.0 + y * y * (1.0 - y) / 2.0 + x * x / 2.0 + y * y / 2.0 + x * y * (2.0 - x - y) / 2.0
  {
  }

  lemma BlendRises(x: real, y: real)
    requires 0.0 <= x <= y <= 1.0
    ensures Blend(x) <= Blend(y)
  {
    MeanSlopeIsSlope(x, y);
    MeanSlopeNonNeg(x, y);
    ProductNonNeg(y - x, MeanSlope(x, y));
  }

  /** Ramping down mirrors ramping up. */
  lemma BlendMirror(x: real)
    ensures Blend(1.0 - x) == 0.5 - x + Blend(x)
    ensures BlendSlope(1.0 - x) == 1.0 - BlendSlope(x)
  {
    var u := 1.0 - x;
    assert u * u == 1.0 - 2.0 * x + x * x;
    assert u * u * u == 1.0 - 3.0 * x + 3.0 * (x * x) - x * x * x;
    assert u * u * u * u == 1.0 - 4.0 * x + 6.0 * (x * x) - 4.0 * (x * x * x) + x * x * x * x;
  }

  lemma BlendSlow(x: real, y: real)
    requires 0.0 <= x <= y <= 1.0
    ensures Blend(y) - Blend(x) <= y - x
  {
    BlendMirror(x);
    BlendMirror(y);
    BlendRises(1.0 - y, 1.0 - x);
  }

  lemma BlendSlopeRange(x: real)
    requires 0.0 <= x <= 1.0
    ensures 0.0 <= BlendSlope(x) <= 1.0
  {
    assert BlendSlope(x) == x * x * (3.0 - 2.0 * x);
    ProductNonNeg(x * x, 3.0 - 2.0 * x);
    var u := 1.0 - x;
    BlendMirror(x);
    assert BlendSlope(u) == u * u * (3.0 - 2.0 * u);
    ProductNonNeg(u * u, 3.0 - 2.0 * u);
  }

  /** The slope of a ramp changes by at most 3/2 per unit of time, in either direction. */
  lemma BlendSlopeSlow(x: real, y: real)
    requires 0.0 <= x <= y <= 1.0
    ensures 0.0 <= BlendSlope(y) - BlendSlope(x) <= 1.5 * (y - x)
  {
    hide BlendSlope;
    var c := 3.0 * (x + y) - 2.0 * (x * x + x * y + y * y);
    BendIdentity(x, y, c);
    BendRange(x, y, c);
    BendScale(c, y - x, BlendSlope(y) - BlendSlope(x));
  }

  lemma BendScale(c: real, h: real, rise: real)
    requires 0.0 <= c <= 1.5 && h >= 0.0 && rise == c * h
    ensures 0.0 <= rise <= 1.5 * h
  {
    ProductMono(c, 1.5, h);
    ProductNonNeg(c, h);
  }

  lemma BendIdentity(x: real, y: real, c: real)
    requires c == 3.0 * (x + y) - 2.0 * (x * x + x * y + y * y)
    ensures BlendSlope(y) - BlendSlope(x) == c * (y - x)
  {
    assert (y - x) * (x * x + x * y + y * y) == y * y * y - x * x * x;
    assert (y - x) * (x + y) == y * y - x * x;
  }

  lemma BendRange(x: real, y: real, c: real)
    requires 0.0 <= x <= 1.0 && 0.0 <= y <= 1.0
    requires c == 3.0 * (x + y) - 2.0 * (x * x + x * y + y * y)
    ensures 0.0 <= c <= 1.5
  {
    assert c == 2.0 * (x * (1.0 - x)) + 2.0 * (y * (1.0 - y)) + x * (1.0 - y) + y * (1.0 - x);
    ProductNonNeg(x, 1.0 - x);
    ProductNonNeg(y, 1.0 - y);
    ProductNonNeg(x, 1.0 - y);
    ProductNonNeg(y, 1.0 - x);
    var s := x + y - 1.0;
    assert 1.5 - c == 1.5 * (s * s) + 0.5 * ((x - y) * (x - y));
    SquarePositive(s);
    SquarePositive(x - y);
  }

  /** BlendSlope is the derivative of Blend: the first-order error is at most 3/4 of the squared step, and not
      negative. */
  lemma BlendTaylor(x: real, y: real)
    requires 0.0 <= x <= 1.0 && 0.0 <= y <= 1.0
    ensures 0.0 <= Blend(y) - Blend(x) - BlendSlope(x) * (y - x) <= 0.75 * ((y - x) * (y - x))
  {
    var h := y - x;
    var e := 3.0 * x - 3.0 * (x * x) + h * (1.0 - 2.0 * x) - h * h / 2.0;
    TaylorIdentity(x, y, h, e);
    TaylorRestRange(x, y, h, e);
    ScaledRange(Blend(y) - Blend(x) - BlendSlope(x) * (y - x), h, e);
  }

  lemma ScaledRange(z: real, h: real, e: real)
    requires z == h * h * e && 0.0 <= e <= 0.75
    ensures 0.0 <= z <= 0.75 * (h * h)
  {
    SquarePositive(h);
    ProductNonNeg(h * h, e);
    ProductNonNeg(h * h, 0.75 - e);
    assert h * h * (0.75 - e) == 0.75 * (h * h) - h * h * e;
  }

  lemma TaylorRestRange(x: real, y: real, h: real, e: real)
    requires 0.0 <= x <= 1.0 && 0.0 <= y <= 1.0 && h == y - x
    requires e == 3.0 * x - 3.0 * (x * x) + h * (1.0 - 2.0 * x) - h * h / 2.0
    ensures 0.0 <= e <= 0.75
  {
    assert e == 1.5 * (x * (1.0 - x)) + 0.5 * (x * (1.0 - y)) + 0.5 * (y * (1.0 - x)) + 0.5 * (y * (1.0 - y));
    ProductNonNeg(x, 1.0 - x);
    ProductNonNeg(x, 1.0 - y);
    ProductNonNeg(y, 1.0 - x);
    ProductNonNeg(y, 1.0 - y);
    var a := x - 0.5 + h / 3.0;
    assert 0.75 - e == 3.0 * (a * a) + h * h / 6.0;
    SquarePositive(a);
    SquarePositive(h);
  }

  lemma TaylorIdentity(x: real, y: real, h: real, e: real)
    requires y == x + h && e == 3.0 * x - 3.0 * (x * x) + h * (1.0 - 2.0 * x) - h * h / 2.0
    ensures Blend(y) - Blend(x) - BlendSlope(x) * (y - x) == h * h * e
  {
    hide Blend, BlendSlope, MeanSlope;
    MeanSlopeIsSlope(x, y);
    MeanSlopeError(x, y, h, e);
    TaylorCombine(Blend(y) - Blend(x), MeanSlope(x, y), BlendSlope(x), y - x, h, e);
  }

  lemma MeanSlopeError(x: real, y: real, h: real, e: real)
    requires y == x + h && e == 3.0 * x - 3.0 * (x * x) + h * (1.0 - 2.0 * x) - h * h / 2.0
    ensures MeanSlope(x, y) - BlendSlope(x) == h * e
  {
    assert y * y == x * x + 2.0 * (x * h) + h * h;
    assert (x + y) * (x * x + y * y) == (2.0 * x + h) * (2.0 * (x * x) + 2.0 * (x * h) + h * h);
  }

  lemma TaylorCombine(rise: real, mean: real, slope: real, w: real, h: real, e: real)
    requires w == h && rise == w * mean && mean - slope == h * e
    ensures rise - slope * w == h * h * e
  {
    assert w * mean - slope * w == h * (mean - slope);
  }

  // -------------------------------------------------------------------------
  // The law of motion
  // -------------------------------------------------------------------------

  /** Travel after time t on a ramp that reaches speed v after time d. */
  function RampTravel(v: real, d: real, t: real): real
    requires d > 0.0
  {
    v * d * Blend(t / d)
  }

  function RampSpeed(v: real, d: real, t: real): real
    requires d > 0.0
  {
    v * BlendSlope(t / d)
  }

  /** How far along its way a joint is at time t: ramp up, cruise, ramp down, rest. */
  function Progress(p: Plan, dist: real, t: real): real
    requires p.t1 > 0.0 && p.tF > p.t2
  {
    if t < p.t1 then RampTravel(p.speed, p.t1, t)
    else if t < p.t2 then p.speed * (t - p.t1 / 2.0)
    else if t < p.tF then dist - RampTravel(p.speed, p.tF - p.t2, p.tF - t)
    else dist
  }

  /** How fast the joint is at time t. */
  function Speed(p: Plan, t: real): real
    requires p.t1 > 0.0 && p.tF > p.t2
  {
    if t < p.t1 then RampSpeed(p.speed, p.t1, t)
    else if t < p.t2 then p.speed
    else if t < p.tF then RampSpeed(p.speed, p.tF - p.t2, p.tF - t)
    else 0.0
  }

  predicate Within(bound: real, x: real) {
    -bound <= x <= bound
  }

  /** From travel x0 and speed s0, a time h leads to x1 and s1: forward, at most at speed v, with the speed
      changing by at most acc per unit of time, and with s0 the derivative of the travel. */
  ghost predicate Smooth(v: real, acc: real, h: real, x0: real, s0: real, x1: real, s1: real) {
    && 0.0 <= x1 - x0 <= v * h
    && Within(acc * h, s1 - s0)
    && Within(acc / 2.0 * (h * h), x1 - x0 - s0 * h)
  }

  lemma SmoothJoin(v: real, acc: real, h: real, k: real, x0: real, s0: real, x1: real, s1: real, x2: real, s2: real)
    requires h >= 0.0 && k >= 0.0 && acc >= 0.0
    requires Smooth(v, acc, h, x0, s0, x1, s1) && Smooth(v, acc, k, x1, s1, x2, s2)
    ensures Smooth(v, acc, h + k, x0, s0, x2, s2)
  {
    hide Within;
    JoinLinear(v, h, k);
    JoinSpeed(acc, h, k, s0, s1, s2);
    JoinError(acc, h, k, x0, s0, x1, s1, x2);
  }

  lemma JoinLinear(a: real, h: real, k: real)
    ensures a * (h + k) == a * h + a * k
  {
  }

  lemma JoinSpeed(acc: real, h: real, k: real, s0: real, s1: real, s2: real)
    requires Within(acc * h, s1 - s0) && Within(acc * k, s2 - s1)
    ensures Within(acc * (h + k), s2 - s0)
  {
    JoinLinear(acc, h, k);
  }

  lemma JoinError(acc: real, h: real, k: real, x0: real, s0: real, x1: real, s1: real, x2: real)
    requires h >= 0.0 && k >= 0.0 && acc >= 0.0 && Within(acc * h, s1 - s0)
    requires Within(acc / 2.0 * (h * h), x1 - x0 - s0 * h) && Within(acc / 2.0 * (k * k), x2 - x1 - s1 * k)
    ensures Within(acc / 2.0 * ((h + k) * (h + k)), x2 - x0 - s0 * (h + k))
  {
    hide Within;
    JoinTravel(x0, s0, x1, s1, x2, h, k);
    JoinErrorTerms(acc, h, k, x1 - x0 - s0 * h, x2 - x1 - s1 * k, s1 - s0, (s1 - s0) * k);
  }

  lemma JoinTravel(x0: real, s0: real, x1: real, s1: real, x2: real, h: real, k: real)
    ensures x2 - x0 - s0 * (h + k) == (x1 - x0 - s0 * h) + (x2 - x1 - s1 * k) + (s1 - s0) * k
  {
  }

  lemma JoinErrorTerms(acc: real, h: real, k: real, e: real, f: real, c: real, ck: real)
    requires h >= 0.0 && k >= 0.0 && acc >= 0.0 && ck == c * k
    requires Within(acc / 2.0 * (h * h), e) && Within(acc / 2.0 * (k * k), f) && Within(acc * h, c)
    ensures Within(acc / 2.0 * ((h + k) * (h + k)), e + f + ck)
  {
    ProductMono(c, acc * h, k);
    ProductMono(-(acc * h), c, k);
    assert acc / 2.0 * ((h + k) * (h + k)) == acc / 2.0 * (h * h) + acc / 2.0 * (k * k) + acc * h * k;
  }

  /** The same for the unit ramp: speed 1, acceleration 3/2. */
  ghost predicate UnitStep(z: real, b0: real, c0: real, b1: real, c1: real) {
    && 0.0 <= b1 - b0 <= z
    && Within(1.5 * z, c1 - c0)
    && Within(0.75 * (z * z), b1 - b0 - c0 * z)
  }

  lemma BlendStepUp(x: real, y: real)
    requires 0.0 <= x <= y <= 1.0
    ensures UnitStep(y - x, Blend(x), BlendSlope(x), Blend(y), BlendSlope(y))
  {
    hide Blend, BlendSlope;
    BlendRises(x, y);
    BlendSlow(x, y);
    BlendSlopeSlow(x, y);
    BlendTaylor(x, y);
    SquarePositive(y - x);
  }

  /** Ramping down is ramping up with time reversed. */
  lemma BlendStepDown(x: real, y: real)
    requires 0.0 <= x <= y <= 1.0
    ensures UnitStep(y - x, -Blend(y), BlendSlope(y), -Blend(x), BlendSlope(x))
  {
    hide Blend, BlendSlope;
    BlendRises(x, y);
    BlendSlow(x, y);
    BlendSlopeSlow(x, y);
    BlendTaylor(y, x);
    ReverseStep(Blend(x) - Blend(y), BlendSlope(y), y - x, x - y);
  }

  lemma ReverseStep(e: real, s: real, z: real, w: real)
    requires w == -z && 0.0 <= e - s * w <= 0.75 * (w * w)
    ensures Within(0.75 * (z * z), -e - s * z)
  {
    assert s * w == -(s * z) && w * w == z * z;
    SquarePositive(z);
  }

  lemma RampUpSmooth(v: real, d: real, acc: real, t: real, u: real)
    requires v > 0.0 && d > 0.0 && d * acc == 1.5 * v && 0.0 <= t <= u <= d
    ensures Smooth(v, acc, u - t, RampTravel(v, d, t), RampSpeed(v, d, t), RampTravel(v, d, u), RampSpeed(v, d, u))
  {
    hide Blend, BlendSlope, Smooth, UnitStep;
    UnitInterval(t, u, d);
    BlendStepUp(t / d, u / d);
    ScaleRamp(v, d, acc, u - t, u / d - t / d, Blend(t / d), BlendSlope(t / d), Blend(u / d), BlendSlope(u / d),
              RampTravel(v, d, t), RampSpeed(v, d, t), RampTravel(v, d, u), RampSpeed(v, d, u));
  }

  lemma RampDownSmooth(v: real, d: real, acc: real, t: real, u: real)
    requires v > 0.0 && d > 0.0 && d * acc == 1.5 * v && 0.0 <= u <= t <= d
    ensures Smooth(v, acc, t - u, -RampTravel(v, d, t), RampSpeed(v, d, t), -RampTravel(v, d, u), RampSpeed(v, d, u))
  {
    hide Blend, BlendSlope, Smooth, UnitStep;
    UnitInterval(u, t, d);
    BlendStepDown(u / d, t / d);
    ScaleRamp(v, d, acc, t - u, t / d - u / d, -Blend(t / d), BlendSlope(t / d), -Blend(u / d), BlendSlope(u / d),
              -RampTravel(v, d, t), RampSpeed(v, d, t), -RampTravel(v, d, u), RampSpeed(v, d, u));
  }

  lemma UnitInterval(t: real, u: real, d: real)
    requires d > 0.0 && 0.0 <= t <= u <= d
    ensures 0.0 <= t / d <= u / d <= 1.0
    ensures (u / d - t / d) * d == u - t
  {
    var x, y := t / d, u / d;
    assert x * d == t && y * d == u;
    FactorSign(x, d);
    FactorSign(y - x, d);
    FactorSign(1.0 - y, d);
  }

  /** Scales a step of the unit ramp to speed v and duration d. */
  lemma ScaleRamp(v: real, d: real, acc: real, h: real, z: real, b0: real, c0: real, b1: real, c1: real,
                  x0: real, s0: real, x1: real, s1: real)
    requires v > 0.0 && d > 0.0 && d * acc == 1.5 * v && z * d == h && z >= 0.0
    requires UnitStep(z, b0, c0, b1, c1)
    requires x0 == v * d * b0 && s0 == v * c0 && x1 == v * d * b1 && s1 == v * c1
    ensures Smooth(v, acc, h, x0, s0, x1, s1)
  {
    hide Within, UnitStep;
    ScaleTravel(v, d, h, z, b0, c0, b1, c1, x0, x1);
    ScaleSpeed(v, d, acc, h, z, b0, c0, b1, c1, s0, s1);
    ScaleError(v, d, acc, h, z, b0, c0, b1, c1, x0, s0, x1);
  }

  lemma ScaleTravel(v: real, d: real, h: real, z: real, b0: real, c0: real, b1: real, c1: real, x0: real, x1: real)
    requires v > 0.0 && d > 0.0 && z * d == h && UnitStep(z, b0, c0, b1, c1)
    requires x0 == v * d * b0 && x1 == v * d * b1
    ensures 0.0 <= x1 - x0 <= v * h
  {
    var vd := v * d;
    assert x1 - x0 == (b1 - b0) * vd;
    ProductMono(0.0, b1 - b0, vd);
    ProductMono(b1 - b0, z, vd);
    assert v * h == z * vd;
  }

  lemma ScaleSpeed(v: real, d: real, acc: real, h: real, z: real, b0: real, c0: real, b1: real, c1: real, s0: real,
      s1: real)
    requires v > 0.0 && d > 0.0 && d * acc == 1.5 * v && z * d == h && UnitStep(z, b0, c0, b1, c1)
    requires s0 == v * c0 && s1 == v * c1
    ensures Within(acc * h, s1 - s0)
  {
    ProductMono(c1 - c0, 1.5 * z, v);
    ProductMono(-(1.5 * z), c1 - c0, v);
    assert s1 - s0 == (c1 - c0) * v;
    assert acc * (z * d) == (d * acc) * z;
  }

  lemma ScaleError(v: real, d: real, acc: real, h: real, z: real, b0: real, c0: real, b1: real, c1: real, x0: real,
      s0: real, x1: real)
    requires v > 0.0 && d > 0.0 && d * acc == 1.5 * v && z * d == h && UnitStep(z, b0, c0, b1, c1)
    requires x0 == v * d * b0 && s0 == v * c0 && x1 == v * d * b1
    ensures Within(acc / 2.0 * (h * h), x1 - x0 - s0 * h)
  {
    ScaleErrorTerm(v, d, acc, h, z, b1 - b0 - c0 * z);
    assert s0 * h == c0 * z * (v * d);
    assert x1 - x0 - s0 * h == (b1 - b0 - c0 * z) * (v * d);
  }

  lemma ScaleErrorTerm(v: real, d: real, acc: real, h: real, z: real, e: real)
    requires v > 0.0 && d > 0.0 && d * acc == 1.5 * v && z * d == h && Within(0.75 * (z * z), e)
    ensures Within(acc / 2.0 * (h * h), e * (v * d))
  {
    var vd, b := v * d, 0.75 * (z * z);
    ProductMono(e, b, vd);
    ProductMono(-b, e, vd);
    ErrorScale(v, d, acc, h, z);
  }

  lemma ErrorScale(v: real, d: real, acc: real, h: real, z: real)
    requires d * acc == 1.5 * v && z * d == h
    ensures acc / 2.0 * (h * h) == 0.75 * (z * z) * (v * d)
  {
    assert h * h == (z * z) * (d * d);
    assert acc / 2.0 * ((z * z) * (d * d)) == (d * acc) / 2.0 * ((z * z) * d);
  }

  lemma RampEnds(v: real, d: real)
    requires d > 0.0
    ensures RampTravel(v, d, 0.0) == 0.0 && RampSpeed(v, d, 0.0) == 0.0
    ensures RampTravel(v, d, d) == v * d / 2.0 && RampSpeed(v, d, d) == v
  {
    hide Blend, BlendSlope;
    BlendEnds();
    assert 0.0 / d == 0.0 && d / d == 1.0;
    assert RampTravel(v, d, 0.0) == v * d * Blend(0.0) && RampSpeed(v, d, 0.0) == v * BlendSlope(0.0);
    assert RampTravel(v, d, d) == v * d * Blend(1.0) && RampSpeed(v, d, d) == v * BlendSlope(1.0);
  }

  lemma BlendEnds()
    ensures Blend(0.0) == 0.0 && BlendSlope(0.0) == 0.0
    ensures Blend(1.0) == 0.5 && BlendSlope(1.0) == 1.0
  {
  }

  /** The phases meet: the travel and the speed of adjoining phases agree at their common boundary. */
  lemma PhasesMeet(p: Plan, delta: real, l: Limits, end: real)
    requires Sound(p, delta, l, end)
    ensures Progress(p, Abs(delta), 0.0) == 0.0 && Speed(p, 0.0) == 0.0
    ensures Progress(p, Abs(delta), p.t1) == RampTravel(p.speed, p.t1, p.t1) == p.speed * (p.t1 - p.t1 / 2.0)
    ensures Progress(p, Abs(delta), p.t2) == p.speed * (p.t2 - p.t1 / 2.0)
         == Abs(delta) - RampTravel(p.speed, p.tF - p.t2, p.tF - p.t2)
    ensures Speed(p, p.t1) == RampSpeed(p.speed, p.t1, p.t1) == p.speed
    ensures Speed(p, p.t2) == RampSpeed(p.speed, p.tF - p.t2, p.tF - p.t2) == p.speed
    ensures RampTravel(p.speed, p.tF - p.t2, p.tF - p.tF) == 0.0 && RampSpeed(p.speed, p.tF - p.t2, p.tF - p.tF) == 0.0
  {
    hide RampTravel, RampSpeed;
    RampEnds(p.speed, p.t1);
    RampEnds(p.speed, p.tF - p.t2);
    assert p.tF - p.tF == 0.0;
    HalfSplit(p.speed, p.t1, p.t2, p.tF);
  }

  lemma HalfSplit(v: real, t1: real, t2: real, tF: real)
    ensures v * (t1 - t1 / 2.0) == v * t1 / 2.0
    ensures v * (t2 - t1 / 2.0) == v * (tF - t1 / 2.0 - (tF - t2) / 2.0) - v * (tF - t2) / 2.0
  {
  }

  ghost predicate SmoothBetween(p: Plan, dist: real, acc: real, t: real, u: real)
    requires p.t1 > 0.0 && p.tF > p.t2
  {
    Smooth(p.speed, acc, u - t, Progress(p, dist, t), Speed(p, t), Progress(p, dist, u), Speed(p, u))
  }

  lemma Weaken(v: real, acc: real, bigger: real, h: real, x0: real, s0: real, x1: real, s1: real)
    requires h >= 0.0 && acc <= bigger && Smooth(v, acc, h, x0, s0, x1, s1)
    ensures Smooth(v, bigger, h, x0, s0, x1, s1)
  {
    ProductMono(acc, bigger, h);
    ProductMono(acc / 2.0, bigger / 2.0, h * h);
  }

  lemma RampUpPhase(p: Plan, delta: real, l: Limits, end: real, t: real, u: real)
    requires l.Valid() && Sound(p, delta, l, end) && 0.0 <= t <= u <= p.t1
    ensures SmoothBetween(p, Abs(delta), Max(l.start, l.goal), t, u)
  {
    hide RampTravel, RampSpeed, Smooth;
    PhasesMeet(p, delta, l, end);
    RampUpSmooth(p.speed, p.t1, l.start, t, u);
    Weaken(p.speed, l.start, Max(l.start, l.goal), u - t, RampTravel(p.speed, p.t1, t), RampSpeed(p.speed, p.t1, t),
           RampTravel(p.speed, p.t1, u), RampSpeed(p.speed, p.t1, u));
  }

  lemma CruisePhase(p: Plan, delta: real, l: Limits, end: real, t: real, u: real)
    requires l.Valid() && Sound(p, delta, l, end) && p.t1 <= t <= u <= p.t2
    ensures SmoothBetween(p, Abs(delta), Max(l.start, l.goal), t, u)
  {
    hide RampTravel, RampSpeed, Balanced, Smooth;
    PhasesMeet(p, delta, l, end);
    CruiseSmooth(p.speed, Max(l.start, l.goal), t, u, p.t1 / 2.0,
                 Progress(p, Abs(delta), t), Progress(p, Abs(delta), u));
  }

  lemma CruiseSmooth(v: real, acc: real, t: real, u: real, c: real, x0: real, x1: real)
    requires v > 0.0 && acc > 0.0 && t <= u && x0 == v * (t - c) && x1 == v * (u - c)
    ensures Smooth(v, acc, u - t, x0, v, x1, v)
  {
    var h := u - t;
    assert x1 - x0 == v * h;
    ProductNonNeg(v, h);
    ProductNonNeg(acc, h);
    SquarePositive(h);
    ProductNonNeg(acc / 2.0, h * h);
  }

  lemma RampDownPhase(p: Plan, delta: real, l: Limits, end: real, t: real, u: real)
    requires l.Valid() && Sound(p, delta, l, end) && p.t2 <= t <= u <= p.tF
    ensures SmoothBetween(p, Abs(delta), Max(l.start, l.goal), t, u)
  {
    hide RampTravel, RampSpeed, Smooth;
    PhasesMeet(p, delta, l, end);
    var d := p.tF - p.t2;
    RampDownSmooth(p.speed, d, l.goal, p.tF - t, p.tF - u);
    Shift(p.speed, l.goal, (p.tF - t) - (p.tF - u), Abs(delta),
          -RampTravel(p.speed, d, p.tF - t), RampSpeed(p.speed, d, p.tF - t),
          -RampTravel(p.speed, d, p.tF - u), RampSpeed(p.speed, d, p.tF - u));
    Weaken(p.speed, l.goal, Max(l.start, l.goal), u - t,
           Progress(p, Abs(delta), t), Speed(p, t), Progress(p, Abs(delta), u), Speed(p, u));
  }

  lemma Shift(v: real, acc: real, h: real, c: real, x0: real, s0: real, x1: real, s1: real)
    requires Smooth(v, acc, h, x0, s0, x1, s1)
    ensures Smooth(v, acc, h, c + x0, s0, c + x1, s1)
  {
    hide Within;
    assert (c + x1) - (c + x0) == x1 - x0;
  }

  lemma RestPhase(p: Plan, delta: real, l: Limits, end: real, t: real, u: real)
    requires l.Valid() && Sound(p, delta, l, end) && p.tF <= t <= u
    ensures SmoothBetween(p, Abs(delta), Max(l.start, l.goal), t, u)
  {
    Still(p.speed, Max(l.start, l.goal), u - t, Abs(delta));
  }

  lemma Still(v: real, acc: real, h: real, x: real)
    requires v > 0.0 && acc > 0.0 && h >= 0.0
    ensures Smooth(v, acc, h, x, 0.0, x, 0.0)
  {
    ProductNonNeg(v, h);
    ProductNonNeg(acc, h);
    SquarePositive(h);
    ProductNonNeg(acc / 2.0, h * h);
  }

  lemma JoinAt(p: Plan, dist: real, acc: real, t: real, b: real, u: real)
    requires p.t1 > 0.0 && p.tF > p.t2 && acc >= 0.0 && t <= b <= u
    requires SmoothBetween(p, dist, acc, t, b) && SmoothBetween(p, dist, acc, b, u)
    ensures SmoothBetween(p, dist, acc, t, u)
  {
    hide Progress, Speed, Smooth;
    SmoothJoin(p.speed, acc, b - t, u - b, Progress(p, dist, t), Speed(p, t), Progress(p, dist, b), Speed(p, b),
               Progress(p, dist, u), Speed(p, u));
    assert (b - t) + (u - b) == u - t;
  }

  /** Over all times the joint moves toward its goal, at most at its synchronised speed, with its speed the
      derivative of its travel and its acceleration within its limits, also across the phase boundaries. */
  lemma LawIsSmooth(p: Plan, delta: real, l: Limits, end: real, t: real, u: real)
    requires l.Valid() && Sound(p, delta, l, end) && 0.0 <= t <= u
    ensures SmoothBetween(p, Abs(delta), Max(l.start, l.goal), t, u)
    decreases (if t < p.t1 then 1 else 0) + (if t < p.t2 then 1 else 0) + (if t < p.tF then 1 else 0)
  {
    hide SmoothBetween;
    var b := if t < p.t1 then p.t1 else if t < p.t2 then p.t2 else p.tF;
    var c := if t < p.tF && b < u then b else u;
    if t < p.t1 {
      RampUpPhase(p, delta, l, end, t, c);
    } else if t < p.t2 {
      CruisePhase(p, delta, l, end, t, c);
    } else if t < p.tF {
      RampDownPhase(p, delta, l, end, t, c);
    } else {
      RestPhase(p, delta, l, end, t, c);
    }
    if c < u {
      LawIsSmooth(p, delta, l, end, c, u);
      JoinAt(p, Abs(delta), Max(l.start, l.goal), t, c, u);
    }
  }

  /** At no time is the joint faster than its synchronised speed, or does it turn back. */
  lemma SpeedIsLimited(p: Plan, delta: real, l: Limits, end: real, t: real)
    requires l.Valid() && Sound(p, delta, l, end) && 0.0 <= t
    ensures 0.0 <= Speed(p, t) <= p.speed
  {
    if t < p.t1 {
      RampSpeedIsLimited(p.speed, p.t1, t);
    } else if p.t2 <= t < p.tF {
      RampSpeedIsLimited(p.speed, p.tF - p.t2, p.tF - t);
    }
  }

  lemma RampSpeedIsLimited(v: real, d: real, t: real)
    requires v > 0.0 && d > 0.0 && 0.0 <= t <= d
    ensures 0.0 <= RampSpeed(v, d, t) <= v
  {
    UnitInterval(t, t, d);
    BlendSlopeRange(t / d);
    ScaledFraction(v, BlendSlope(t / d));
  }

  lemma ScaledFraction(v: real, c: real)
    requires v > 0.0 && 0.0 <= c <= 1.0
    ensures 0.0 <= v * c <= v
  {
  }

  /** The joint starts at its start, ends at its goal and stays between the two. */
  lemma NeverOvershoots(p: Plan, delta: real, l: Limits, end: real, t: real)
    requires l.Valid() && Sound(p, delta, l, end) && 0.0 <= t
    ensures Progress(p, Abs(delta), 0.0) == 0.0
    ensures 0.0 <= Progress(p, Abs(delta), t) <= Abs(delta)
    ensures t >= end ==> Progress(p, Abs(delta), t) == Abs(delta)
  {
    hide RampTravel, RampSpeed;
    PhasesMeet(p, delta, l, end);
    LawIsSmooth(p, delta, l, end, 0.0, t);
    var last := Max(t, p.tF);
    LawIsSmooth(p, delta, l, end, t, last);
    assert Progress(p, Abs(delta), last) == Abs(delta);
  }

  // -------------------------------------------------------------------------
  // The polynomials the evaluator computes
  // -------------------------------------------------------------------------

  function Cube(x: real): real {
    x * x * x
  }

  /** The displacement of a moving joint at time t, as the evaluator computes it. */
  function DesiredDelta(p: Plan, delta: real, t: real): real
    requires p.t1 > 0.0 && p.tF > p.t2
  {
    var s, d, tD := Sign(delta), p.tF - p.t2, p.t2 - p.t1;
    if t < p.t1 then
      -1.0 / Cube(p.t1) * p.speed * s * (0.5 * t - p.t1) * Cube(t)
    else if t < p.t2 then
      p.q1 + (t - p.t1) * p.speed * s
    else if t < p.tF then
      delta + 0.5 * (1.0 / Cube(d) * (t - p.t1 - 2.0 * d - tD) * Cube(t - p.t1 - tD)
                     + (2.0 * t - 2.0 * p.t1 - d - 2.0 * tD)) * p.speed * s
    else
      delta
  }

  lemma RampPolynomial(v: real, d: real, t: real)
    requires d > 0.0
    ensures Cube(d) > 0.0
    ensures -1.0 / Cube(d) * v * (0.5 * t - d) * Cube(t) == RampTravel(v, d, t)
  {
    var x := t / d;
    assert x * d == t;
    assert Cube(d) > 0.0;
    var c := -1.0 / Cube(d);
    assert c * Cube(d) == -1.0;
    assert Cube(t) == Cube(x) * Cube(d);
    assert (0.5 * t - d) == (0.5 * x - 1.0) * d;
    RampPolynomialScale(v, d, x, c, Cube(x), Cube(d), 0.5 * t - d, Cube(t));
    assert -(0.5 * x - 1.0) * Cube(x) == Blend(x);
  }

  lemma RampPolynomialScale(v: real, d: real, x: real, c: real, x3: real, d3: real, f: real, t3: real)
    requires c * d3 == -1.0 && f == (0.5 * x - 1.0) * d && t3 == x3 * d3
    ensures c * v * f * t3 == v * d * (-(0.5 * x - 1.0) * x3)
  {
    assert c * v * f * t3 == (c * d3) * (v * d * ((0.5 * x - 1.0) * x3));
  }

  /** The evaluator's polynomials are the law of motion, in the direction of the goal. */
  lemma DesiredIsProgress(p: Plan, delta: real, l: Limits, end: real, t: real)
    requires Sound(p, delta, l, end)
    ensures DesiredDelta(p, delta, t) == Sign(delta) * Progress(p, Abs(delta), t)
  {
    hide DesiredDelta, Progress;
    if t < p.t1 {
      DesiredRampUp(p, delta, t);
    } else if t < p.t2 {
      DesiredCruise(p, delta, t);
    } else if t < p.tF {
      DesiredRampDown(p, delta, t);
    } else {
      DesiredRest(p, delta, t);
    }
  }

  lemma DesiredRampUp(p: Plan, delta: real, t: real)
    requires p.t1 > 0.0 && p.tF > p.t2 && t < p.t1
    ensures DesiredDelta(p, delta, t) == Sign(delta) * Progress(p, Abs(delta), t)
  {
    hide Cube, RampTravel;
    RampPolynomial(p.speed, p.t1, t);
    MoveSign(-1.0 / Cube(p.t1), p.speed, Sign(delta), 0.5 * t - p.t1, Cube(t));
  }

  lemma DesiredCruise(p: Plan, delta: real, t: real)
    requires p.t1 > 0.0 && p.tF > p.t2 && p.t1 <= t < p.t2
    requires p.q1 == Sign(delta) * (p.speed * p.t1 / 2.0)
    ensures DesiredDelta(p, delta, t) == Sign(delta) * Progress(p, Abs(delta), t)
  {
    CruiseSign(p.speed, Sign(delta), t, p.t1);
  }

  lemma DesiredRest(p: Plan, delta: real, t: real)
    requires 0.0 < p.t1 <= p.t2 < p.tF <= t
    ensures DesiredDelta(p, delta, t) == Sign(delta) * Progress(p, Abs(delta), t)
  {
  }

  lemma DesiredRampDown(p: Plan, delta: real, t: real)
    requires 0.0 < p.t1 <= p.t2 <= t < p.tF
    ensures DesiredDelta(p, delta, t) == Sign(delta) * Progress(p, Abs(delta), t)
  {
    hide Cube, RampTravel;
    var d, r, tD := p.tF - p.t2, p.tF - t, p.t2 - p.t1;
    MirrorPolynomial(p.speed, d, r);
    var q := 1.0 / Cube(d) * ((d - r) - 2.0 * d) * Cube(d - r) + (d - 2.0 * r);
    assert t - p.t1 - tD == d - r;
    assert t - p.t1 - 2.0 * d - tD == (d - r) - 2.0 * d;
    assert 2.0 * t - 2.0 * p.t1 - d - 2.0 * tD == d - 2.0 * r;
    assert DesiredDelta(p, delta, t) == delta + 0.5 * q * p.speed * Sign(delta);
    DownSign(Sign(delta), Abs(delta), p.speed, RampTravel(p.speed, d, r), q);
  }

  lemma MoveSign(c: real, v: real, s: real, f: real, g: real)
    ensures c * v * s * f * g == s * (c * v * f * g)
  {
  }

  lemma CruiseSign(v: real, s: real, t: real, t1: real)
    ensures s * (v * t1 / 2.0) + (t - t1) * v * s == s * (v * (t - t1 / 2.0))
  {
  }

  lemma DownSign(s: real, dist: real, v: real, travel: real, q: real)
    requires 0.5 * q * v == -travel
    ensures s * dist + 0.5 * q * v * s == s * (dist - travel)
  {
  }

  /** The polynomial of the last phase, which counts time forward, is the ramp counted back from the end. */
  lemma MirrorPolynomial(v: real, d: real, r: real)
    requires d > 0.0
    ensures Cube(d) > 0.0
    ensures 0.5 * (1.0 / Cube(d) * ((d - r) - 2.0 * d) * Cube(d - r) + (d - 2.0 * r)) * v == -RampTravel(v, d, r)
  {
    var x := r / d;
    assert x * d == r;
    assert Cube(d) > 0.0;
    var c := 1.0 / Cube(d);
    assert c * Cube(d) == 1.0;
    var y := 1.0 - x;
    assert d - r == y * d;
    CubeOfProduct(y, d);
    MirrorScale(v, d, y, c, Cube(y), Cube(d));
    BlendMirror(x);
    BlendAsCube(y);
    MirrorEnd(v, d, x, y, Cube(y), Blend(x), Blend(y));
  }

  lemma CubeOfProduct(y: real, d: real)
    ensures Cube(y * d) == Cube(y) * Cube(d)
  {
  }

  lemma BlendAsCube(y: real)
    ensures (y - 2.0) * Cube(y) == -2.0 * Blend(y)
  {
  }

  lemma MirrorScale(v: real, d: real, y: real, c: real, y3: real, d3: real)
    requires c * d3 == 1.0
    ensures c * (y * d - 2.0 * d) * (y3 * d3) == d * ((y - 2.0) * y3)
  {
    assert c * (y * d - 2.0 * d) * (y3 * d3) == (c * d3) * ((y - 2.0) * d * y3);
  }

  lemma MirrorEnd(v: real, d: real, x: real, y: real, y3: real, b0: real, b1: real)
    requires y == 1.0 - x && (y - 2.0) * y3 == -2.0 * b1 && b1 == 0.5 - x + b0
    ensures 0.5 * (d * ((y - 2.0) * y3) + (d - 2.0 * (x * d))) * v == -(v * d * b0)
  {
    assert d * ((y - 2.0) * y3) + (d - 2.0 * (x * d)) == -2.0 * (d * b0);
  }

  /** Any two samples of a moving joint differ by at most its synchronised speed times the time between them,
      and the later one is never farther from the goal. */
  lemma SamplesKeepSpeedLimit(p: Plan, delta: real, l: Limits, end: real, t: real, u: real)
    requires l.Valid() && Sound(p, delta, l, end) && 0.0 <= t <= u
    ensures Abs(DesiredDelta(p, delta, u) - DesiredDelta(p, delta, t)) <= p.speed * (u - t)
    ensures Abs(delta - DesiredDelta(p, delta, u)) <= Abs(delta - DesiredDelta(p, delta, t)) <= Abs(delta)
  {
    hide DesiredDelta, Progress, Within, Balanced, Speed;
    LawIsSmooth(p, delta, l, end, t, u);
    NeverOvershoots(p, delta, l, end, t);
    NeverOvershoots(p, delta, l, end, u);
    DesiredIsProgress(p, delta, l, end, t);
    DesiredIsProgress(p, delta, l, end, u);
    AlongSign(delta, Progress(p, Abs(delta), t), Progress(p, Abs(delta), u));
  }

  lemma AlongSign(delta: real, x: real, y: real)
    requires 0.0 <= x <= y <= Abs(delta)
    ensures Abs(Sign(delta) * y - Sign(delta) * x) == y - x
    ensures Abs(delta - Sign(delta) * x) == Abs(delta) - x
    ensures Abs(delta - Sign(delta) * y) == Abs(delta) - y
  {
  }
}
