/** Wrapping of angles, the yaw limit and the position box of the action processor. */
module AngleWrap {
  import opened RealMath

  /** Two angles that differ by whole turns, with half a turn given. */
  ghost predicate SameAngle(pi: real, a: real, b: real) {
    exists k: int :: WholeTurns(pi, a, b, k)
  }

  ghost predicate WholeTurns(pi: real, a: real, b: real, k: int) {
    a - b == 2.0 * pi * k as real
  }

  /** The angle in (-pi, pi], or -pi when the loop comes up from below and lands there. */
  ghost predicate IsWrapped(pi: real, a: real, r: real) {
    && -pi <= r <= pi && SameAngle(pi, r, a)
    && (-pi <= a <= pi ==> r == a)
    && (r == pi ==> a >= pi) && (r == -pi ==> a <= -pi)
  }

  /** The loops that take off or add whole turns. */
  method WrapToPi(pi: real, angle: real) returns (a: real)
    requires pi > 0.0
    ensures IsWrapped(pi, angle, a)
  {
    a := angle;
    ghost var k := 0;
    TurnLimit(pi, angle);
    while a > pi
      invariant WholeTurns(pi, a, angle, k)
      invariant a == angle || (-pi < a && angle > pi)
      decreases a / (2.0 * pi)
    {
      TakeTurn(pi, a);
      a := a - 2.0 * pi;
      k := k - 1;
    }
    while a < -pi
      invariant WholeTurns(pi, a, angle, k)
      invariant a <= pi && (a == angle || (a < pi && angle < -pi) || (-pi < a && angle > pi))
      decreases -a / (2.0 * pi)
    {
      TakeTurn(pi, -a);
      a := a + 2.0 * pi;
      k := k + 1;
    }
  }

  lemma TurnLimit(pi: real, angle: real)
    requires pi > 0.0
    ensures WholeTurns(pi, angle, angle, 0)
  {
  }

  lemma TakeTurn(pi: real, a: real)
    requires pi > 0.0 && a > pi
    ensures (a - 2.0 * pi) / (2.0 * pi) == a / (2.0 * pi) - 1.0 && a / (2.0 * pi) > 0.0
  {
    var q := a / (2.0 * pi);
    assert q * (2.0 * pi) == a;
    FactorSign(q, 2.0 * pi);
    var r := (a - 2.0 * pi) / (2.0 * pi);
    assert r * (2.0 * pi) == a - 2.0 * pi;
    Cancel(r, q - 1.0, 2.0 * pi);
  }

  // -------------------------------------------------------------------------
  // The form with fmod
  // -------------------------------------------------------------------------

  /** The remainder of the quotient truncated toward zero, as C computes it. */
  function Fmod(x: real, y: real): real
    requires y > 0.0
  {
    x - y * Truncate(x / y) as real
  }

  function Truncate(q: real): int {
    if q >= 0.0 then q.Floor else -(-q).Floor
  }

  function WrapToPiFmod(pi: real, angle: real): real
    requires pi > 0.0
  {
    var x := Fmod(angle + pi, 2.0 * pi);
    (if x < 0.0 then x + 2.0 * pi else x) - pi
  }

  lemma FmodRange(x: real, y: real)
    requires y > 0.0
    ensures if x >= 0.0 then 0.0 <= Fmod(x, y) < y else -y < Fmod(x, y) <= 0.0
  {
    var q := x / y;
    assert q * y == x;
    FactorSign(q, y);
    assert x >= 0.0 <==> q >= 0.0;
    Remainder(q, y, Truncate(q) as real, x, Fmod(x, y));
  }

  lemma Remainder(q: real, y: real, k: real, x: real, f: real)
    requires y > 0.0 && q * y == x && f == x - y * k
    ensures 0.0 <= q - k < 1.0 ==> 0.0 <= f < y
    ensures -1.0 < q - k <= 0.0 ==> -y < f <= 0.0
  {
    var part := q - k;
    if 0.0 <= part < 1.0 {
      ProductPositive(1.0 - part, y, y - f);
    }
    if -1.0 < part <= 0.0 {
      ProductPositive(1.0 + part, y, y + f);
    }
    if part > 0.0 {
      ProductPositive(part, y, f);
    } else if part < 0.0 {
      ProductPositive(-part, y, -f);
    }
  }

  /** The form with fmod lands in [-pi, pi) and keeps the angle up to whole turns. */
  lemma FmodFormWraps(pi: real, angle: real)
    requires pi > 0.0
    ensures -pi <= WrapToPiFmod(pi, angle) < pi
    ensures SameAngle(pi, WrapToPiFmod(pi, angle), angle)
  {
    FmodRange(angle + pi, 2.0 * pi);
    var k := Truncate((angle + pi) / (2.0 * pi));
    var x := Fmod(angle + pi, 2.0 * pi);
    var j := if x < 0.0 then 1 - k else -k;
    assert WholeTurns(pi, WrapToPiFmod(pi, angle), angle, j);
  }

  /** Two equal angles less than a turn apart are the same number. */
  lemma CloseAnglesAreEqual(pi: real, a: real, b: real)
    requires pi > 0.0 && SameAngle(pi, a, b) && -2.0 * pi < a - b < 2.0 * pi
    ensures a == b
  {
    var k: int :| WholeTurns(pi, a, b, k);
    FactorSign(1.0 - k as real, 2.0 * pi);
    FactorSign(1.0 + k as real, 2.0 * pi);
  }

  /** An angle in [-pi, pi] is the smallest of those it equals up to whole turns. */
  lemma ShortestAngle(pi: real, s: real, n: real)
    requires pi > 0.0 && -pi <= s <= pi && SameAngle(pi, s, n)
    ensures Abs(s) <= Abs(n)
  {
    var k: int :| WholeTurns(pi, s, n, k);
    if k >= 1 {
      FactorSign(k as real - 1.0, 2.0 * pi);
    } else if k <= -1 {
      FactorSign(-1.0 - k as real, 2.0 * pi);
    }
  }

  lemma SameAngleSymmetric(pi: real, a: real, b: real)
    requires SameAngle(pi, a, b)
    ensures SameAngle(pi, b, a)
  {
    var k: int :| WholeTurns(pi, a, b, k);
    assert WholeTurns(pi, b, a, -k);
  }

  lemma SameAngleTransitive(pi: real, a: real, b: real, c: real)
    requires SameAngle(pi, a, b) && SameAngle(pi, b, c)
    ensures SameAngle(pi, a, c)
  {
    var j: int :| WholeTurns(pi, a, b, j);
    var k: int :| WholeTurns(pi, b, c, k);
    assert WholeTurns(pi, a, c, j + k);
  }

  /** The two forms agree exactly where the loops do not return pi; there the form with fmod returns -pi. */
  lemma FormsAgree(pi: real, angle: real, loops: real)
    requires pi > 0.0 && IsWrapped(pi, angle, loops)
    ensures WrapToPiFmod(pi, angle) == loops <==> loops != pi
    ensures loops == pi ==> WrapToPiFmod(pi, angle) == -pi
  {
    hide WrapToPiFmod;
    FmodFormWraps(pi, angle);
    var f := WrapToPiFmod(pi, angle);
    SameAngleSymmetric(pi, f, angle);
    SameAngleTransitive(pi, loops, angle, f);
    if loops == pi {
      var k: int :| WholeTurns(pi, loops, f, k);
      assert WholeTurns(pi, -pi, f, k - 1);
      CloseAnglesAreEqual(pi, -pi, f);
    } else {
      CloseAnglesAreEqual(pi, loops, f);
    }
  }

  // -------------------------------------------------------------------------
  // The action processor
  // -------------------------------------------------------------------------

  /** The commanded yaw stays within the limit of the reference, and is the raw yaw when that was within it. */
  ghost predicate IsLimitedYaw(pi: real, limit: real, reference: real, raw: real, yaw: real) {
    && (exists near :: SameAngle(pi, yaw, near) && Abs(near - reference) <= limit)
    && (forall near :: SameAngle(pi, raw, near) && Abs(near - reference) <= limit ==> SameAngle(pi, yaw, raw))
  }

  lemma YawIsLimited(pi: real, limit: real, reference: real, raw: real, delta: real, yaw: real)
    requires pi > 0.0 && 0.0 <= limit < pi
    requires IsWrapped(pi, raw - reference, delta)
    requires IsWrapped(pi, reference + Clamp(delta, -limit, limit), yaw)
    ensures IsLimitedYaw(pi, limit, reference, raw, yaw)
  {
    var near := reference + Clamp(delta, -limit, limit);
    assert SameAngle(pi, yaw, near) && Abs(near - reference) <= limit;
    forall n | SameAngle(pi, raw, n) && Abs(n - reference) <= limit ensures SameAngle(pi, yaw, raw) {
      var k: int :| WholeTurns(pi, raw, n, k);
      assert WholeTurns(pi, raw - reference, n - reference, k);
      SameAngleTransitive(pi, delta, raw - reference, n - reference);
      CloseAnglesAreEqual(pi, delta, n - reference);
      assert near == n;
      SameAngleSymmetric(pi, raw, n);
      SameAngleTransitive(pi, yaw, n, raw);
    }
  }

  ghost predicate AllowedYaw(limit: real, reference: real, yaw: real) {
    Abs(yaw - reference) <= limit
  }

  /** No allowed yaw is closer to the raw yaw, however many turns are added to either. */
  ghost predicate IsNearestYaw(pi: real, limit: real, reference: real, raw: real, yaw: real) {
    exists near, there ::
      && SameAngle(pi, yaw, near) && SameAngle(pi, raw, there)
      && AllowedYaw(limit, reference, near) && NoneNearer(pi, limit, reference, raw, Abs(near - there))
  }

  ghost predicate NoneNearer(pi: real, limit: real, reference: real, raw: real, distance: real) {
    forall n, r :: AllowedYaw(limit, reference, n) && SameAngle(pi, raw, r) ==> distance <= Abs(n - r)
  }

  lemma YawIsNearest(pi: real, limit: real, reference: real, raw: real, delta: real, yaw: real)
    requires pi > 0.0 && 0.0 <= limit < pi
    requires IsWrapped(pi, raw - reference, delta)
    requires IsWrapped(pi, reference + Clamp(delta, -limit, limit), yaw)
    ensures IsNearestYaw(pi, limit, reference, raw, yaw)
  {
    var near, there := reference + Clamp(delta, -limit, limit), reference + delta;
    hide Clamp, SameAngle, IsNearestYaw;
    AngleFromReference(pi, reference, raw, delta, reference + delta);
    forall n, r | AllowedYaw(limit, reference, n) && SameAngle(pi, raw, r) ensures Abs(near - there) <= Abs(n - r) {
      AngleFromReference(pi, reference, raw, delta, r);
      ShortestAngle(pi, delta, r - reference);
      ClampedIsNearest(limit, delta, n - reference, r - reference);
    }
    NearestBy(pi, limit, reference, raw, yaw, near, there);
  }

  lemma AngleFromReference(pi: real, reference: real, raw: real, delta: real, r: real)
    requires SameAngle(pi, delta, raw - reference)
    ensures SameAngle(pi, raw, reference + delta)
    ensures SameAngle(pi, raw, r) ==> SameAngle(pi, delta, r - reference)
  {
    var k: int :| WholeTurns(pi, delta, raw - reference, k);
    assert WholeTurns(pi, raw, reference + delta, -k);
    if j: int :| WholeTurns(pi, raw, r, j) {
      assert WholeTurns(pi, delta, r - reference, k + j);
    }
  }

  lemma NearestBy(pi: real, limit: real, reference: real, raw: real, yaw: real, near: real, there: real)
    requires SameAngle(pi, yaw, near) && SameAngle(pi, raw, there)
    requires AllowedYaw(limit, reference, near) && NoneNearer(pi, limit, reference, raw, Abs(near - there))
    ensures IsNearestYaw(pi, limit, reference, raw, yaw)
  {
    hide SameAngle, AllowedYaw, NoneNearer;
  }

  lemma ClampedIsNearest(limit: real, delta: real, a: real, b: real)
    requires limit >= 0.0 && Abs(a) <= limit && Abs(delta) <= Abs(b)
    ensures Abs(Clamp(delta, -limit, limit) - delta) <= Abs(a - b)
  {
  }

  ghost predicate WithinBox(lower: real, upper: real, frame: real, x: real) {
    lower <= x - frame <= upper
  }

  /** The commanded coordinate is within the bounds around the frame, and no coordinate there is nearer to the raw
      one. */
  ghost predicate InBox(lower: real, upper: real, frame: real, raw: real, target: real) {
    lower <= upper ==>
      && WithinBox(lower, upper, frame, target)
      && (WithinBox(lower, upper, frame, raw) ==> target == raw)
      && forall x :: WithinBox(lower, upper, frame, x) ==> Abs(target - raw) <= Abs(x - raw)
  }

  lemma ClampedIsInBox(lower: real, upper: real, frame: real, raw: real)
    ensures InBox(lower, upper, frame, raw, frame + Clamp(raw - frame, lower, upper))
  {
  }

  class RlActionProcessor {
    const pi: real
    const emaFactor: real
    const posThreshold: seq<real>
    const boundsLower: seq<real>
    const boundsUpper: seq<real>

    var fixedPosActionFrame: seq<real>
    var prevUsedAction: seq<real>
    var usedAction: seq<real>
    var referenceYaw: real
    var referenceYawInitialized: bool
    var targetPos: seq<real>
    var targetYaw: real

    ghost predicate Valid()
      reads this
    {
      && pi > 0.0
      && |posThreshold| == |boundsLower| == |boundsUpper| == |fixedPosActionFrame| == 3
      && |prevUsedAction| == |usedAction| == 6
    }

    constructor (pi: real, emaFactor: real, posThreshold: seq<real>, lower: seq<real>, upper: seq<real>,
        frame: seq<real>)
      requires pi > 0.0 && |posThreshold| == |lower| == |upper| == |frame| == 3
      ensures Valid() && !referenceYawInitialized
      ensures this.pi == pi && boundsLower == lower && boundsUpper == upper && fixedPosActionFrame == frame
    {
      this.pi, this.emaFactor, this.posThreshold := pi, emaFactor, posThreshold;
      boundsLower, boundsUpper, fixedPosActionFrame := lower, upper, frame;
      prevUsedAction, usedAction := seq(6, _ => 0.0), seq(6, _ => 0.0);
      referenceYaw, referenceYawInitialized := 0.0, false;
      targetPos, targetYaw := seq(3, _ => 0.0), 0.0;
    }

    /** 75 degrees. */
    function YawLimit(): (limit: real)
      ensures 12.0 * limit == 5.0 * pi
    {
      75.0 * pi / 180.0
    }

    /** Smooths the action and keeps the commanded position within the box around the fixed frame. */
    method LimitPosition(policyAction: seq<real>, fingertipPos: seq<real>)
      requires Valid() && |policyAction| == 6 && |fingertipPos| == 3
      modifies `usedAction, `targetPos
      ensures Valid() && |targetPos| == 3
      ensures forall i :: 0 <= i < 6 ==>
        usedAction[i] == emaFactor * policyAction[i] + (1.0 - emaFactor) * prevUsedAction[i]
      ensures forall i :: 0 <= i < 3 ==>
        InBox(boundsLower[i], boundsUpper[i], fixedPosActionFrame[i],
          fingertipPos[i] + usedAction[i] * posThreshold[i], targetPos[i])
    {
      var used := seq(6, _ => 0.0);
      for i := 0 to 6
        invariant |used| == 6
        invariant forall j :: 0 <= j < i ==>
          used[j] == emaFactor * policyAction[j] + (1.0 - emaFactor) * prevUsedAction[j]
      {
        used := used[i := emaFactor * policyAction[i] + (1.0 - emaFactor) * prevUsedAction[i]];
      }
      usedAction := used;
      var raws := seq(3, j requires 0 <= j < 3 => fingertipPos[j] + used[j] * posThreshold[j]);
      ClipPosition(raws);
    }

    /** Moves each raw coordinate into the box. */
    method ClipPosition(raws: seq<real>)
      requires Valid() && |raws| == 3
      modifies `targetPos
      ensures Valid() && |targetPos| == 3
      ensures forall i :: 0 <= i < 3 ==>
        InBox(boundsLower[i], boundsUpper[i], fixedPosActionFrame[i], raws[i], targetPos[i])
    {
      hide InBox, Clamp;
      targetPos := seq(3, _ => 0.0);
      for i := 0 to 3
        invariant Valid() && |targetPos| == 3
        invariant forall j :: 0 <= j < i ==>
          InBox(boundsLower[j], boundsUpper[j], fixedPosActionFrame[j], raws[j], targetPos[j])
      {
        ClampedIsInBox(boundsLower[i], boundsUpper[i], fixedPosActionFrame[i], raws[i]);
        var clipped := Clamp(raws[i] - fixedPosActionFrame[i], boundsLower[i], boundsUpper[i]);
        targetPos := targetPos[i := fixedPosActionFrame[i] + clipped];
      }
    }

    /** Limits the yaw relative to the reference. */
    method LimitYaw(rawTargetYaw: real)
      requires pi > 0.0
      modifies `targetYaw
      ensures IsLimitedYaw(pi, YawLimit(), referenceYaw, rawTargetYaw, targetYaw) && -pi <= targetYaw <= pi
      ensures IsNearestYaw(pi, YawLimit(), referenceYaw, rawTargetYaw, targetYaw)
    {
      var deltaYaw := WrapToPi(pi, rawTargetYaw - referenceYaw);
      var limited := Clamp(deltaYaw, -YawLimit(), YawLimit());
      targetYaw := WrapToPi(pi, referenceYaw + limited);
      YawIsLimited(pi, YawLimit(), referenceYaw, rawTargetYaw, deltaYaw, targetYaw);
      YawIsNearest(pi, YawLimit(), referenceYaw, rawTargetYaw, deltaYaw, targetYaw);
    }

    /** The yaw of the fingertip in the first call is the reference for good; in every call the commanded yaw stays
        within 75 degrees of it and the commanded position within the box around the fixed frame. */
    method Process(policyAction: seq<real>, fingertipPos: seq<real>, fingertipYaw: real, rawTargetYaw: real)
      requires Valid() && |policyAction| == 6 && |fingertipPos| == 3
      modifies this
      ensures Valid() && fixedPosActionFrame == old(fixedPosActionFrame) && prevUsedAction == old(prevUsedAction)
      ensures referenceYawInitialized
      ensures referenceYaw == if old(referenceYawInitialized) then old(referenceYaw) else fingertipYaw
      ensures IsLimitedYaw(pi, YawLimit(), referenceYaw, rawTargetYaw, targetYaw) && -pi <= targetYaw <= pi
      ensures IsNearestYaw(pi, YawLimit(), referenceYaw, rawTargetYaw, targetYaw)
      ensures forall i :: 0 <= i < 6 ==>
        usedAction[i] == emaFactor * policyAction[i] + (1.0 - emaFactor) * prevUsedAction[i]
      ensures |targetPos| == 3 && forall i :: 0 <= i < 3 ==>
        InBox(boundsLower[i], boundsUpper[i], fixedPosActionFrame[i],
          fingertipPos[i] + usedAction[i] * posThreshold[i], targetPos[i])
    {
      if !referenceYawInitialized {
        referenceYaw := fingertipYaw;
        referenceYawInitialized := true;
      }
      LimitYaw(rawTargetYaw);
      LimitPosition(policyAction, fingertipPos);
    }
  }
}
