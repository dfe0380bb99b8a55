/** The seven-joint planner: synchronises the joints and evaluates the motion. */
module MotionGeneration {
  import opened RealMath
  import opened MotionProfile
  import opened MotionLaw

  const JOINTS := 7
  const DELTA_Q_MOTION_FINISHED := 0.000001

  /** The joint is given a synchronised plan. */
  predicate Moves(delta: real) {
    Abs(delta) > DELTA_Q_MOTION_FINISHED
  }

  /** The joint counts as finished from the start. A displacement of exactly the threshold is neither. */
  predicate Idle(delta: real) {
    Abs(delta) < DELTA_Q_MOTION_FINISHED
  }

  predicate Unplanned(delta: real) {
    Abs(delta) == DELTA_Q_MOTION_FINISHED
  }

  /** When the joint would end if it need not wait for the others. */
  function OwnEnd(sqrt: real -> real, delta: real, l: Limits): real
    requires IsSqrt(sqrt) && l.Valid()
  {
    if Moves(delta) then
      ReachSpeedFacts(sqrt, Abs(delta), l);
      EndTime(Abs(delta), ReachSpeed(sqrt, Abs(delta), l), l)
    else 0.0
  }

  function OwnEnds(sqrt: real -> real, deltas: seq<real>, limits: seq<Limits>): (ends: seq<real>)
    requires IsSqrt(sqrt) && |deltas| == |limits| && forall i :: 0 <= i < |limits| ==> limits[i].Valid()
    ensures |ends| == |deltas|
  {
    seq(|deltas|, i requires 0 <= i < |deltas| => OwnEnd(sqrt, deltas[i], limits[i]))
  }

  function MaxCoeff(s: seq<real>): (m: real)
    requires |s| > 0
    ensures m in s && forall x :: x in s ==> x <= m
  {
    assert s == s[..|s| - 1] + [s[|s| - 1]];
    if |s| == 1 then s[0] else Max(MaxCoeff(s[..|s| - 1]), s[|s| - 1])
  }

  /** The time at which all moving joints end: the slowest joint's own end. */
  function CommonEnd(sqrt: real -> real, deltas: seq<real>, limits: seq<Limits>): real
    requires IsSqrt(sqrt) && |deltas| == |limits| > 0 && forall i :: 0 <= i < |limits| ==> limits[i].Valid()
  {
    MaxCoeff(OwnEnds(sqrt, deltas, limits))
  }

  /** No choice of legal peak speeds ends all moving joints earlier. */
  lemma CommonEndIsEarliest(sqrt: real -> real, deltas: seq<real>, limits: seq<Limits>, speeds: seq<real>, end: real)
    requires IsSqrt(sqrt) && |deltas| == |limits| == |speeds| > 0 && end >= 0.0
    requires forall i :: 0 <= i < |limits| ==> limits[i].Valid() && 0.0 < speeds[i] <= limits[i].speed
    requires forall i :: 0 <= i < |limits| && Moves(deltas[i]) ==> EndTime(Abs(deltas[i]), speeds[i], limits[i]) <= end
    ensures CommonEnd(sqrt, deltas, limits) <= end
  {
    hide EndTime, ReachSpeed;
    var ends := OwnEnds(sqrt, deltas, limits);
    forall i | 0 <= i < |ends| ensures ends[i] <= end {
      if Moves(deltas[i]) {
        ReachSpeedIsFastest(sqrt, Abs(deltas[i]), limits[i], speeds[i]);
      }
    }
  }

  class MotionGenerator {
    const sqrt: real -> real
    const qStart: seq<real>
    const deltaQ: seq<real>
    const limits: seq<Limits>

    const dqMaxSync: array<real>
    const t1Sync: array<real>
    const t2Sync: array<real>
    const tFSync: array<real>
    const q1: array<real>
    var time: real

    ghost predicate Shaped() {
      && IsSqrt(sqrt)
      && |qStart| == |deltaQ| == |limits| == JOINTS
      && (forall i :: 0 <= i < JOINTS ==> limits[i].Valid())
      && dqMaxSync.Length == t1Sync.Length == t2Sync.Length == tFSync.Length == q1.Length == JOINTS
      && dqMaxSync != t1Sync && dqMaxSync != t2Sync && dqMaxSync != tFSync && dqMaxSync != q1
      && t1Sync != t2Sync && t1Sync != tFSync && t1Sync != q1 && t2Sync != tFSync && t2Sync != q1 && tFSync != q1
    }

    /** The synchronised values stored for a joint. */
    function PlanOf(i: nat): Plan
      requires i < dqMaxSync.Length && i < t1Sync.Length && i < t2Sync.Length && i < tFSync.Length && i < q1.Length
      reads dqMaxSync, t1Sync, t2Sync, tFSync, q1
    {
      Plan(dqMaxSync[i], t1Sync[i], t2Sync[i], tFSync[i], q1[i])
    }

    ghost function End(): real
      requires Shaped()
    {
      CommonEnd(sqrt, deltaQ, limits)
    }

    /** Every moving joint has a sound plan that ends at the common time and is no faster than its own would be. */
    ghost predicate Synchronized()
      requires Shaped()
      reads dqMaxSync, t1Sync, t2Sync, tFSync, q1
    {
      forall i :: 0 <= i < JOINTS && Moves(deltaQ[i]) ==> Planned(i)
    }

    ghost predicate Planned(i: nat)
      requires Shaped() && i < JOINTS
      reads dqMaxSync, t1Sync, t2Sync, tFSync, q1
    {
      && Sound(PlanOf(i), deltaQ[i], limits[i], End())
      && PlanOf(i).speed <= ReachSpeed(sqrt, Abs(deltaQ[i]), limits[i]) <= limits[i].speed
    }

    constructor (sqrt: real -> real, speedFactor: real, qStart: seq<real>, qGoal: seq<real>)
      requires IsSqrt(sqrt) && 0.0 < speedFactor <= 1.0 && |qStart| == |qGoal| == JOINTS
      ensures Shaped() && Synchronized()
      ensures this.sqrt == sqrt && this.qStart == qStart
      ensures forall i :: 0 <= i < JOINTS ==>
        && deltaQ[i] == qGoal[i] - qStart[i]
        && limits[i] == Limits((if i < 4 then 2.0 else 2.5) * speedFactor, 5.0 * speedFactor, 5.0 * speedFactor)
      ensures fresh(dqMaxSync) && fresh(t1Sync) && fresh(t2Sync) && fresh(tFSync) && fresh(q1)
    {
      this.sqrt := sqrt;
      this.qStart := qStart;
      deltaQ := seq(JOINTS, i requires 0 <= i < JOINTS => qGoal[i] - qStart[i]);
      limits := seq(JOINTS, i =>
        Limits((if i < 4 then 2.0 else 2.5) * speedFactor, 5.0 * speedFactor, 5.0 * speedFactor));
      dqMaxSync := new real[JOINTS];
      t1Sync := new real[JOINTS];
      t2Sync := new real[JOINTS];
      tFSync := new real[JOINTS];
      q1 := new real[JOINTS];
      time := 0.0;
      new;
      CalculateSynchronizedValues();
    }

    method CalculateSynchronizedValues()
      requires Shaped()
      modifies dqMaxSync, t1Sync, t2Sync, tFSync, q1
      ensures Synchronized()
    {
      hide EndTime, ReachSpeed, SyncSpeed, PlanAt, Balanced;
      var tF := seq(JOINTS, _ => 0.0);
      for i := 0 to JOINTS
        invariant |tF| == JOINTS
        invariant forall j :: 0 <= j < JOINTS ==> tF[j] == if j < i then OwnEnd(sqrt, deltaQ[j], limits[j]) else 0.0
      {
        if Abs(deltaQ[i]) > DELTA_Q_MOTION_FINISHED {
          ReachSpeedFacts(sqrt, Abs(deltaQ[i]), limits[i]);
          var dqMaxReach := ReachSpeed(sqrt, Abs(deltaQ[i]), limits[i]);
          tF := tF[i := EndTime(Abs(deltaQ[i]), dqMaxReach, limits[i])];
        }
      }
      assert tF == OwnEnds(sqrt, deltaQ, limits);
      var maxTF := MaxCoeff(tF);
      assert maxTF == End();
      for i := 0 to JOINTS
        invariant forall j :: 0 <= j < i && Moves(deltaQ[j]) ==> Planned(j)
      {
        if Abs(deltaQ[i]) > DELTA_Q_MOTION_FINISHED {
          assert tF[i] in tF;
          ReachSpeedFacts(sqrt, Abs(deltaQ[i]), limits[i]);
          SyncPlanSound(sqrt, deltaQ[i], limits[i], maxTF);
          var plan := PlanAt(SyncSpeed(sqrt, Abs(deltaQ[i]), limits[i], maxTF), deltaQ[i], limits[i]);
          label before:
          Store(i, plan);
          assert Planned(i);
          assert forall j :: 0 <= j < i && Moves(deltaQ[j]) ==> old@before(Planned(j));
        }
      }
    }

    method Store(i: nat, plan: Plan)
      requires Shaped() && i < JOINTS
      modifies dqMaxSync, t1Sync, t2Sync, tFSync, q1
      ensures PlanOf(i) == plan
      ensures forall j :: 0 <= j < JOINTS && j != i ==> PlanOf(j) == old(PlanOf(j))
    {
      dqMaxSync[i] := plan.speed;
      t1Sync[i] := plan.t1;
      t2Sync[i] := plan.t2;
      tFSync[i] := plan.tF;
      q1[i] := plan.q1;
    }

    /** The joint's displacement is exactly the threshold: it has no plan, but is evaluated as if it had, from whatever
        its buffers hold; it counts as finished once the time is past the three times found there. */
    ghost predicate Expired(i: nat, time: real)
      requires Shaped() && i < JOINTS
      reads dqMaxSync, t1Sync, t2Sync, tFSync, q1
    {
      time >= PlanOf(i).t1 && time >= PlanOf(i).t2 && time >= PlanOf(i).tF
    }

    /** The displacement of a joint and whether it is finished. */
    ghost predicate Evaluated(i: nat, time: real, x: real, done: bool)
      requires Shaped() && Synchronized() && i < JOINTS
      reads dqMaxSync, t1Sync, t2Sync, tFSync, q1
    {
      && (Idle(deltaQ[i]) ==> x == 0.0 && done)
      && (Moves(deltaQ[i]) ==>
        x == Sign(deltaQ[i]) * Progress(PlanOf(i), Abs(deltaQ[i]), time) && done == (time >= End()))
      && (Unplanned(deltaQ[i]) ==> done == Expired(i, time))
    }

    /** One joint's turn of the evaluator's loop. */
    method EvaluateJoint(i: nat, time: real) returns (x: real, done: bool)
      requires Shaped() && Synchronized() && i < JOINTS
      ensures Evaluated(i, time, x, done)
    {
      hide DesiredDelta, Progress, Balanced, ReachSpeed;
      if Abs(deltaQ[i]) < DELTA_Q_MOTION_FINISHED {
        return 0.0, true;
      }
      done := time >= t1Sync[i] && time >= t2Sync[i] && time >= tFSync[i];
      if Unplanned(deltaQ[i]) {
        x := *;
      } else {
        assert Planned(i);
        DesiredIsProgress(PlanOf(i), deltaQ[i], limits[i], End(), time);
        x := DesiredDelta(PlanOf(i), deltaQ[i], time);
      }
    }

    /** Evaluates all joints at a time. Nothing is known of the displacement of a joint without a plan. */
    method CalculateDesiredValues(time: real) returns (deltaQD: seq<real>, finished: bool)
      requires Shaped() && Synchronized()
      ensures |deltaQD| == JOINTS
      ensures forall i :: 0 <= i < JOINTS && Idle(deltaQ[i]) ==> deltaQD[i] == 0.0
      ensures forall i :: 0 <= i < JOINTS && Moves(deltaQ[i]) ==>
        deltaQD[i] == Sign(deltaQ[i]) * Progress(PlanOf(i), Abs(deltaQ[i]), time)
      ensures finished <==>
        && (forall i :: 0 <= i < JOINTS && Moves(deltaQ[i]) ==> time >= End())
        && (forall i :: 0 <= i < JOINTS && Unplanned(deltaQ[i]) ==> Expired(i, time))
    {
      hide Progress, Balanced, ReachSpeed;
      deltaQD := seq(JOINTS, _ => 0.0);
      var jointMotionFinished := seq(JOINTS, _ => false);
      for i := 0 to JOINTS
        invariant |deltaQD| == |jointMotionFinished| == JOINTS
        invariant forall j :: 0 <= j < i ==> Evaluated(j, time, deltaQD[j], jointMotionFinished[j])
      {
        var x, done := EvaluateJoint(i, time);
        deltaQD := deltaQD[i := x];
        jointMotionFinished := jointMotionFinished[i := done];
      }
      finished := forall i :: 0 <= i < JOINTS ==> jointMotionFinished[i];
      forall i | 0 <= i < JOINTS
        ensures jointMotionFinished[i] <==>
          (Moves(deltaQ[i]) ==> time >= End()) && (Unplanned(deltaQ[i]) ==> Expired(i, time))
      {
        assert Evaluated(i, time, deltaQD[i], jointMotionFinished[i]);
      }
    }

    /** The joint positions at a time of the trajectory. Idle joints hold their start; each moving joint stays between
        its start and its goal, and rests at its goal exactly from the common end on, when the motion is finished. */
    method GetDesiredJointPositions(trajectoryTime: real) returns (q: seq<real>, finished: bool)
      requires Shaped() && Synchronized()
      modifies `time
      ensures time == trajectoryTime
      ensures |q| == JOINTS
      ensures forall i :: 0 <= i < JOINTS && Idle(deltaQ[i]) ==> q[i] == qStart[i]
      ensures forall i :: 0 <= i < JOINTS && Moves(deltaQ[i]) ==>
        q[i] == qStart[i] + Sign(deltaQ[i]) * Progress(PlanOf(i), Abs(deltaQ[i]), trajectoryTime)
      ensures trajectoryTime >= 0.0 ==> forall i :: 0 <= i < JOINTS && !Unplanned(deltaQ[i]) ==>
        Abs(q[i] - qStart[i]) + Abs(qStart[i] + deltaQ[i] - q[i]) == Abs(deltaQ[i])
      ensures finished <==>
        && (forall i :: 0 <= i < JOINTS && Moves(deltaQ[i]) ==> trajectoryTime >= End())
        && (forall i :: 0 <= i < JOINTS && Unplanned(deltaQ[i]) ==> Expired(i, trajectoryTime))
      ensures finished && trajectoryTime >= 0.0 ==> forall i :: 0 <= i < JOINTS && Abs(deltaQ[i]) != 0.000001 ==>
        Abs(q[i] - (qStart[i] + deltaQ[i])) < 0.000001
      ensures finished && trajectoryTime >= 0.0 ==> forall i :: 0 <= i < JOINTS && Moves(deltaQ[i]) ==>
        q[i] == qStart[i] + deltaQ[i]
    {
      hide Progress, Balanced, ReachSpeed;
      time := trajectoryTime;
      var deltaQD;
      deltaQD, finished := CalculateDesiredValues(time);
      q := seq(JOINTS, i requires 0 <= i < JOINTS => qStart[i] + deltaQD[i]);
      if trajectoryTime >= 0.0 {
        forall i | 0 <= i < JOINTS && Moves(deltaQ[i])
          ensures 0.0 <= Progress(PlanOf(i), Abs(deltaQ[i]), trajectoryTime) <= Abs(deltaQ[i])
          ensures trajectoryTime >= End() ==> Progress(PlanOf(i), Abs(deltaQ[i]), trajectoryTime) == Abs(deltaQ[i])
        {
          assert Planned(i);
          NeverOvershoots(PlanOf(i), deltaQ[i], limits[i], End(), trajectoryTime);
        }
        forall i | 0 <= i < JOINTS && !Unplanned(deltaQ[i])
          ensures Abs(q[i] - qStart[i]) + Abs(qStart[i] + deltaQ[i] - q[i]) == Abs(deltaQ[i])
        {
          if Moves(deltaQ[i]) {
            var x := Progress(PlanOf(i), Abs(deltaQ[i]), trajectoryTime);
            AlongSign(deltaQ[i], 0.0, x);
            assert q[i] - qStart[i] == Sign(deltaQ[i]) * x;
          }
        }
      }
    }
  }
}
