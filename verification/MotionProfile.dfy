/** One joint of the point-to-point planner: its fastest profile, the synchronised profile, and the law of motion. */
module MotionProfile {
  import opened RealMath

  /** A joint's speed limit and its acceleration limits at the start and at the goal. */
  datatype Limits = Limits(speed: real, start: real, goal: real) {
    predicate Valid() {
      speed > 0.0 && start > 0.0 && goal > 0.0
    }
  }

  /** The travel lost to the two ramps at unit speed: the ramps at speed v cover Ramp * v * v in all. */
  function Ramp(l: Limits): (k: real)
    requires l.Valid()
    ensures k > 0.0
  {
    0.75 / l.start + 0.75 / l.goal
  }

  /** The two ramps of a move with peak speed v fit into its length. */
  predicate Fits(v: real, dist: real, l: Limits)
    requires l.Valid()
  {
    Ramp(l) * (v * v) <= dist
  }

  // -------------------------------------------------------------------------
  // The fastest profile of a joint on its own
  // -------------------------------------------------------------------------

  /** The travel of the two ramps of a move at full speed. */
  function FullSpeedTravel(l: Limits): real
    requires l.Valid()
  {
    3.0 / 4.0 * (l.speed * l.speed / l.start) + 3.0 / 4.0 * (l.speed * l.speed / l.goal)
  }

  function PeakSquared(dist: real, l: Limits): real
    requires l.Valid()
  {
    4.0 / 3.0 * dist * (l.start * l.goal) / (l.start + l.goal)
  }

  /** The peak speed a joint reaches on a move of length dist when it need not wait for the others. */
  function ReachSpeed(sqrt: real -> real, dist: real, l: Limits): real
    requires l.Valid()
  {
    if dist < FullSpeedTravel(l) then sqrt(PeakSquared(dist, l)) else l.speed
  }

  /** When a move of length dist with peak speed v ends. */
  function EndTime(dist: real, v: real, l: Limits): real
    requires l.Valid() && v > 0.0
  {
    1.5 * v / l.start / 2.0 + 1.5 * v / l.goal / 2.0 + dist / v
  }

  lemma RampFacts(l: Limits, dist: real)
    requires l.Valid()
    ensures FullSpeedTravel(l) == Ramp(l) * (l.speed * l.speed)
    ensures Ramp(l) * (l.start * l.goal) == 0.75 * (l.start + l.goal)
    ensures Ramp(l) * PeakSquared(dist, l) == dist
  {
    var a, b, k := l.start, l.goal, Ramp(l);
    var p := 0.75 / a;
    var q := 0.75 / b;
    assert p * a == 0.75 && q * b == 0.75;
    assert k * (a * b) == 0.75 * (a + b) by {
      assert k * (a * b) == (p * a) * b + (q * b) * a;
    }
    var vv := l.speed * l.speed;
    DivAsProduct(vv, a, p);
    DivAsProduct(vv, b, q);
    var num := 4.0 / 3.0 * dist * (a * b);
    var s := num / (a + b);
    assert s * (a + b) == num;
    assert k * s == dist by {
      assert (k * s) * (a + b) == k * num;
      assert k * num == 4.0 / 3.0 * dist * (k * (a * b));
      assert k * num == dist * (a + b);
      Cancel(k * s, dist, a + b);
    }
  }

  lemma DivAsProduct(x: real, a: real, p: real)
    requires a > 0.0 && p * a == 0.75
    ensures 3.0 / 4.0 * (x / a) == p * x
  {
    var y := x / a;
    assert y * a == x;
    assert (0.75 * y) * a == 0.75 * x;
    assert (p * x) * a == 0.75 * x;
    Cancel(0.75 * y, p * x, a);
  }

  lemma EndTimeAsRamp(dist: real, v: real, l: Limits)
    requires l.Valid() && v > 0.0
    ensures EndTime(dist, v, l) == Ramp(l) * v + dist / v
  {
    var p, q := 0.75 / l.start, 0.75 / l.goal;
    assert p * l.start == 0.75 && q * l.goal == 0.75;
    HalfRamp(v, l.start, p);
    HalfRamp(v, l.goal, q);
  }

  lemma HalfRamp(v: real, a: real, p: real)
    requires a > 0.0 && p * a == 0.75
    ensures 1.5 * v / a / 2.0 == p * v && 1.5 * v / a == 2.0 * (p * v)
  {
    var y := 1.5 * v / a;
    assert y * a == 1.5 * v;
    assert (2.0 * (p * v)) * a == 1.5 * v;
    Cancel(y, 2.0 * (p * v), a);
  }

  /** The ramps of a move with peak speed v fill it exactly. */
  predicate IsBestSpeed(v: real, dist: real, l: Limits)
    requires l.Valid()
  {
    Ramp(l) * (v * v) == dist
  }

  /** The reachable speed is positive and legal, its ramps fit into the move, and it is limited by one or the other. */
  lemma ReachSpeedFacts(sqrt: real -> real, dist: real, l: Limits)
    requires IsSqrt(sqrt) && l.Valid() && dist > 0.0
    ensures 0.0 < ReachSpeed(sqrt, dist, l) <= l.speed
    ensures Fits(ReachSpeed(sqrt, dist, l), dist, l)
    ensures ReachSpeed(sqrt, dist, l) == l.speed || IsBestSpeed(ReachSpeed(sqrt, dist, l), dist, l)
  {
    hide FullSpeedTravel, PeakSquared, Ramp;
    RampFacts(l, dist);
    if dist < FullSpeedTravel(l) {
      PeakPositive(Ramp(l), PeakSquared(dist, l), dist);
      ReachCore(Ramp(l), dist, l.speed, PeakSquared(dist, l), sqrt(PeakSquared(dist, l)));
    }
  }

  lemma PeakPositive(k: real, x: real, d: real)
    requires k > 0.0 && d > 0.0 && k * x == d
    ensures x > 0.0
  {
    FactorSign(x, k);
  }

  lemma ReachCore(k: real, d: real, top: real, x: real, r: real)
    requires k > 0.0 && d > 0.0 && top > 0.0 && d < k * (top * top)
    requires k * x == d && r >= 0.0 && r * r == x
    ensures 0.0 < r <= top && k * (r * r) == d
  {
    FactorSign(x, k);
    FactorSign(top * top - x, k);
    SquareOrder(r, top);
  }

  /** No legal peak speed ends a move earlier than the reachable speed does. */
  lemma ReachSpeedIsFastest(sqrt: real -> real, dist: real, l: Limits, v: real)
    requires IsSqrt(sqrt) && l.Valid() && dist > 0.0
    requires 0.0 < v <= l.speed
    ensures ReachSpeed(sqrt, dist, l) > 0.0
    ensures EndTime(dist, ReachSpeed(sqrt, dist, l), l) <= EndTime(dist, v, l)
  {
    ReachSpeedFacts(sqrt, dist, l);
    var k, r := Ramp(l), ReachSpeed(sqrt, dist, l);
    EndTimeAsRamp(dist, v, l);
    EndTimeAsRamp(dist, r, l);
    FastestCore(k, dist, r, v);
  }

  lemma FastestCore(k: real, d: real, r: real, v: real)
    requires k > 0.0 && d > 0.0 && r > 0.0 && v > 0.0
    requires k * (r * r) == d || (v <= r && k * (r * r) <= d)
    ensures k * r + d / r <= k * v + d / v
  {
    var x, y := d / v, d / r;
    assert x * v == d && y * r == d;
    // (k v + x - k r - y) (v r) == (v - r) (k v r - d)
    var gap := k * v + x - k * r - y;
    assert gap * (v * r) == (v - r) * (k * (v * r) - d) by {
      assert gap * (v * r) == k * v * (v * r) + (x * v) * r - k * r * (v * r) - (y * r) * v;
    }
    if k * (r * r) == d {
      GapAtOptimum(k, r, v);
    } else {
      GapBelowOptimum(k, d, r, v);
    }
    FactorSign(v, r);
    FactorSign(gap, v * r);
  }

  lemma GapAtOptimum(k: real, r: real, v: real)
    requires k > 0.0 && r > 0.0
    ensures (v - r) * (k * (v * r) - k * (r * r)) >= 0.0
  {
    assert (v - r) * (k * (v * r) - k * (r * r)) == (k * r) * ((v - r) * (v - r));
    SquarePositive(v - r);
    ProductNonNeg(k * r, (v - r) * (v - r));
  }

  lemma GapBelowOptimum(k: real, d: real, r: real, v: real)
    requires k > 0.0 && r > 0.0 && 0.0 < v <= r && k * (r * r) <= d
    ensures (v - r) * (k * (v * r) - d) >= 0.0
  {
    assert k * (r * r) - k * (v * r) == (k * r) * (r - v);
    ProductNonNeg(k * r, r - v);
    ProductNonNeg(r - v, d - k * (v * r));
    assert (v - r) * (k * (v * r) - d) == (r - v) * (d - k * (v * r));
  }

  // -------------------------------------------------------------------------
  // The synchronised profile
  // -------------------------------------------------------------------------

  /** The synchronised values of one joint. */
  datatype Plan = Plan(speed: real, t1: real, t2: real, tF: real, q1: real)

  /** The discriminant of the quadratic whose smaller root is the synchronised speed. */
  function Discriminant(dist: real, l: Limits, end: real): real {
    var b := -1.0 * end * l.goal * l.start;
    b * b - 4.0 * (1.5 / 2.0 * (l.goal + l.start)) * (dist * l.goal * l.start)
  }

  function SyncSpeed(sqrt: real -> real, dist: real, l: Limits, end: real): real
    requires l.Valid()
  {
    var a := 1.5 / 2.0 * (l.goal + l.start);
    var b := -1.0 * end * l.goal * l.start;
    var delta := Discriminant(dist, l, end);
    (-1.0 * b - sqrt(if delta < 0.0 then 0.0 else delta)) / (2.0 * a)
  }

  /** The plan of a joint that moves by delta with peak speed v. */
  function PlanAt(v: real, delta: real, l: Limits): Plan
    requires l.Valid() && v != 0.0
  {
    var t1 := 1.5 * v / l.start;
    var d2 := 1.5 * v / l.goal;
    var tF := t1 / 2.0 + d2 / 2.0 + Abs(delta / v);
    Plan(v, t1, tF - d2, tF, v * Sign(delta) * (0.5 * t1))
  }

  /** What a plan promises: the phases are in order, the joint ends on time, and the plan is balanced. */
  ghost predicate Sound(p: Plan, delta: real, l: Limits, end: real) {
    p.speed > 0.0 && 0.0 < p.t1 <= p.t2 < p.tF == end && Balanced(p, delta, l)
  }

  /** Both ramps keep their acceleration limits (3/2 of the mean slope) and the phases add up to the way to go. */
  ghost predicate Balanced(p: Plan, delta: real, l: Limits) {
    && p.t1 * l.start == 1.5 * p.speed
    && (p.tF - p.t2) * l.goal == 1.5 * p.speed
    && Abs(delta) == p.speed * (p.tF - p.t1 / 2.0 - (p.tF - p.t2) / 2.0)
    && p.q1 == Sign(delta) * (p.speed * p.t1 / 2.0)
  }

  /** Whenever the joint could have ended by then at some speed r whose ramps fit, the quadratic has a real root,
      the guard never fires, and the smaller root is a positive speed, at most r, that ends exactly on time. */
  lemma SyncSpeedFacts(sqrt: real -> real, dist: real, l: Limits, end: real, r: real)
    requires IsSqrt(sqrt) && l.Valid() && dist > 0.0
    requires r > 0.0 && EndTime(dist, r, l) <= end
    ensures Discriminant(dist, l, end) >= 0.0
    ensures 0.0 < SyncSpeed(sqrt, dist, l, end) <= r
    ensures EndTime(dist, SyncSpeed(sqrt, dist, l, end), l) == end
  {
    hide Ramp, EndTime, SyncSpeed, Discriminant;
    RampFacts(l, dist);
    EndTimeAsRamp(dist, r, l);
    var k, ab := Ramp(l), l.start * l.goal;
    DiscriminantAsRamp(dist, l, end, k, ab);
    DiscriminantNonNeg(k, dist, r, end, dist / r);
    ProductNonNeg(ab * ab, end * end - 4.0 * k * dist);
    SyncSpeedEquation(sqrt, dist, l, end);
    var s := sqrt(Discriminant(dist, l, end));
    SyncCore(k, ab, l.start + l.goal, dist, end, r, s, SyncSpeed(sqrt, dist, l, end));
    EndTimeOfRoot(dist, l, end, SyncSpeed(sqrt, dist, l, end));
  }

  lemma SyncCore(k: real, ab: real, sum: real, dist: real, end: real, r: real, s: real, v: real)
    requires k > 0.0 && ab > 0.0 && dist > 0.0 && r > 0.0 && s >= 0.0
    requires k * ab == 0.75 * sum && k * r + dist / r <= end
    requires s * s == ab * ab * (end * end - 4.0 * k * dist)
    requires v * (2.0 * (0.75 * sum)) == end * ab - s
    ensures 0.0 < v <= r && k * (v * v) + dist == end * v
  {
    var disc, w, y := end * end - 4.0 * k * dist, s / ab, dist / r;
    assert w * ab == s && y * r == dist;
    FactorSign(w, ab);
    assert (w * w) * (ab * ab) == s * s;
    Cancel(w * w, disc, ab * ab);
    SpeedFromEquation(v, sum, end, ab, s, k, w);
    TimesR(k, r, y, end);
    RootFacts(k, dist, r, end, w, v);
  }

  lemma TimesR(k: real, r: real, y: real, end: real)
    requires r > 0.0 && k * r + y <= end
    ensures end * r >= k * (r * r) + y * r
  {
    ProductMono(k * r + y, end, r);
    assert (k * r + y) * r == k * (r * r) + y * r;
  }

  lemma EndTimeOfRoot(dist: real, l: Limits, end: real, v: real)
    requires l.Valid() && v > 0.0 && Ramp(l) * (v * v) + dist == end * v
    ensures EndTime(dist, v, l) == end
  {
    EndTimeAsRamp(dist, v, l);
    RootEnds(Ramp(l), dist, end, v, dist / v);
  }

  lemma RootEnds(k: real, dist: real, end: real, v: real, z: real)
    requires v > 0.0 && k * (v * v) + dist == end * v && z * v == dist
    ensures k * v + z == end
  {
    assert (k * v + z) * v == end * v;
    Cancel(k * v + z, end, v);
  }

  lemma SyncSpeedEquation(sqrt: real -> real, dist: real, l: Limits, end: real)
    requires l.Valid() && Discriminant(dist, l, end) >= 0.0
    ensures SyncSpeed(sqrt, dist, l, end) * (2.0 * (0.75 * (l.start + l.goal))) ==
      end * (l.start * l.goal) - sqrt(Discriminant(dist, l, end))
  {
    var a := 1.5 / 2.0 * (l.goal + l.start);
    var num := -1.0 * (-1.0 * end * l.goal * l.start) - sqrt(Discriminant(dist, l, end));
    assert SyncSpeed(sqrt, dist, l, end) == num / (2.0 * a);
    assert num == end * (l.start * l.goal) - sqrt(Discriminant(dist, l, end));
    assert (num / (2.0 * a)) * (2.0 * a) == num;
    assert a == 0.75 * (l.start + l.goal);
  }

  lemma SpeedFromEquation(v: real, sum: real, end: real, ab: real, s: real, k: real, w: real)
    requires v * (2.0 * (0.75 * sum)) == end * ab - s
    requires k * ab == 0.75 * sum && w * ab == s && ab > 0.0
    ensures 2.0 * k * v == end - w
  {
    assert (2.0 * k * v) * ab == v * (2.0 * (k * ab));
    assert (end - w) * ab == end * ab - s;
    Cancel(2.0 * k * v, end - w, ab);
  }

  lemma DiscriminantAsRamp(dist: real, l: Limits, end: real, k: real, ab: real)
    requires ab == l.start * l.goal && k * ab == 0.75 * (l.start + l.goal)
    ensures Discriminant(dist, l, end) == ab * ab * (end * end - 4.0 * k * dist)
  {
    var b := -1.0 * end * l.goal * l.start;
    assert b == -(end * ab);
    assert b * b == ab * ab * (end * end);
    assert dist * l.goal * l.start == dist * ab;
    assert 4.0 * (k * ab) * (dist * ab) == ab * ab * (4.0 * k * dist);
  }

  lemma DiscriminantNonNeg(k: real, d: real, r: real, end: real, y: real)
    requires k > 0.0 && d > 0.0 && r > 0.0 && y * r == d && k * r + y <= end
    ensures end * end - 4.0 * k * d >= 0.0
  {
    var t := k * r + y;
    assert y > 0.0;
    SquareMono(t, end);
    assert t * t - 4.0 * k * d == (k * r - y) * (k * r - y);
  }

  lemma TriplePositive(k: real, r: real)
    requires k > 0.0 && r > 0.0
    ensures k * (r * r) > 0.0
  {
    assert k * r > 0.0;
    assert k * (r * r) == (k * r) * r;
  }

  lemma RootFacts(k: real, d: real, r: real, end: real, w: real, v: real)
    requires k > 0.0 && d > 0.0 && r > 0.0 && w >= 0.0
    requires end * r >= k * (r * r) + d
    requires w * w == end * end - 4.0 * k * d
    requires 2.0 * k * v == end - w
    ensures 0.0 < v <= r
    ensures k * (v * v) + d == end * v
  {
    assert end > 0.0 by {
      TriplePositive(k, r);
      FactorSign(end, r);
    }
    assert w < end by {
      FactorSign(k, d);
      SquareOrder(w, end);
    }
    FactorSign(v, 2.0 * k);
    var u := 2.0 * k * v - end;
    assert u * u == w * w;
    assert u * u == 4.0 * k * (k * (v * v)) - 4.0 * k * (v * end) + end * end;
    assert (k * (v * v) + d) * k == (end * v) * k;
    Cancel(k * (v * v) + d, end * v, k);
    // the quadratic is not positive at r and falls to the left of its smaller root
    var slope := end - k * (r + v);
    assert (v - r) * slope == (k * (r * r) - end * r) - (k * (v * v) - end * v);
    assert (v - r) * slope <= 0.0;
    assert slope == w + k * (v - r);
    assert (v - r) * slope == (v - r) * w + k * ((v - r) * (v - r));
    NotPositive(v - r, w, k);
  }

  lemma NotPositive(x: real, w: real, k: real)
    requires w >= 0.0 && k > 0.0 && x * w + k * (x * x) <= 0.0
    ensures x <= 0.0
  {
    if x > 0.0 {
      FactorSign(x, x);
      FactorSign(k, x * x);
      ProductNonNeg(x, w);
      assert false;
    }
  }

  /** Synchronising a joint to any time it could have met alone yields a sound plan, no faster than its own. */
  lemma SyncPlanSound(sqrt: real -> real, delta: real, l: Limits, end: real)
    requires IsSqrt(sqrt) && l.Valid() && delta != 0.0
    requires ReachSpeed(sqrt, Abs(delta), l) > 0.0 && EndTime(Abs(delta), ReachSpeed(sqrt, Abs(delta), l), l) <= end
    ensures 0.0 < SyncSpeed(sqrt, Abs(delta), l, end) <= ReachSpeed(sqrt, Abs(delta), l) <= l.speed
    ensures Sound(PlanAt(SyncSpeed(sqrt, Abs(delta), l, end), delta, l), delta, l, end)
    ensures PlanAt(SyncSpeed(sqrt, Abs(delta), l, end), delta, l).speed == SyncSpeed(sqrt, Abs(delta), l, end)
  {
    var r := ReachSpeed(sqrt, Abs(delta), l);
    ReachSpeedFacts(sqrt, Abs(delta), l);
    SyncSpeedFacts(sqrt, Abs(delta), l, end, r);
    PlanCore(delta, l, end, SyncSpeed(sqrt, Abs(delta), l, end), r);
  }

  lemma PlanCore(delta: real, l: Limits, end: real, v: real, r: real)
    requires l.Valid() && delta != 0.0
    requires 0.0 < v <= r && Fits(r, Abs(delta), l) && EndTime(Abs(delta), v, l) == end
    ensures Sound(PlanAt(v, delta, l), delta, l, end)
  {
    var p := PlanAt(v, delta, l);
    var z := PlanRamps(v, delta, l, end);
    SlackFits(l, v, r, Abs(delta), z);
    PlanEquations(p, delta, v, z, Ramp(l) * v);
  }

  lemma PlanRamps(v: real, delta: real, l: Limits, end: real) returns (z: real)
    requires l.Valid() && v > 0.0 && EndTime(Abs(delta), v, l) == end
    ensures z * v == Abs(delta)
    ensures var p := PlanAt(v, delta, l);
      && p.t1 * l.start == 1.5 * v && (p.tF - p.t2) * l.goal == 1.5 * v
      && p.t1 > 0.0 && p.tF - p.t2 > 0.0
      && p.t1 / 2.0 + (p.tF - p.t2) / 2.0 == Ramp(l) * v
      && p.tF == Ramp(l) * v + z == end
  {
    z := Abs(delta) / v;
    AbsQuotient(delta, v);
    EndTimeAsRamp(Abs(delta), v, l);
    var t1, d2 := 1.5 * v / l.start, 1.5 * v / l.goal;
    assert t1 * l.start == 1.5 * v && d2 * l.goal == 1.5 * v;
    FactorSign(t1, l.start);
    FactorSign(d2, l.goal);
    var p, q := 0.75 / l.start, 0.75 / l.goal;
    assert p * l.start == 0.75 && q * l.goal == 0.75;
    HalfRamp(v, l.start, p);
    HalfRamp(v, l.goal, q);
    assert Ramp(l) * v == p * v + q * v;
  }

  lemma PlanEquations(p: Plan, delta: real, v: real, z: real, kv: real)
    requires z * v == Abs(delta) && kv <= z && p.speed == v
    requires p.t1 / 2.0 + (p.tF - p.t2) / 2.0 == kv && p.tF == kv + z
    requires p.q1 == v * Sign(delta) * (0.5 * p.t1)
    ensures p.t1 <= p.t2
    ensures Abs(delta) == p.speed * (p.tF - p.t1 / 2.0 - (p.tF - p.t2) / 2.0)
    ensures p.q1 == Sign(delta) * (p.speed * p.t1 / 2.0)
  {
    assert p.tF - p.t1 / 2.0 - (p.tF - p.t2) / 2.0 == z;
    assert v * Sign(delta) * (0.5 * p.t1) == Sign(delta) * (v * p.t1 / 2.0);
  }

  lemma SlackFits(l: Limits, v: real, r: real, dist: real, z: real)
    requires l.Valid() && 0.0 < v <= r && Fits(r, dist, l) && z * v == dist
    ensures Ramp(l) * v <= z
  {
    RampsFit(Ramp(l), v, r, z);
  }

  lemma RampsFit(k: real, v: real, r: real, z: real)
    requires k > 0.0 && 0.0 < v <= r && k * (r * r) <= z * v
    ensures k * v <= z
  {
    assert k * (r * r) - k * (v * v) == (k * (r - v)) * (r + v);
    ProductNonNeg(k, r - v);
    ProductNonNeg(k * (r - v), r + v);
    assert (z - k * v) * v == z * v - k * (v * v);
    FactorSign(z - k * v, v);
  }

  lemma AbsQuotient(x: real, v: real)
    requires v > 0.0
    ensures Abs(x / v) == Abs(x) / v
  {
    var y := x / v;
    assert y * v == x;
    FactorSign(y, v);
  }
}
