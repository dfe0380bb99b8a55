/** The torque rate limiter and the saturation behind it. */
module EffortLimiter {
  import opened RealMath

  /** Moves the effort toward the demand by at most delta. */
  function Rate(effort: real, tau: real, delta: real): real {
    effort + Min(Max(tau - effort, -delta), delta)
  }

  /** The effort clamped to the joint limit. */
  function Saturate(effort: real, limit: real): real
    requires limit >= 0.0
  {
    Clamp(effort, -limit, limit)
  }

  /** The effort sent after a cycle: the rate is limited first, then the value. */
  function CycleEffort(effort: real, tau: real, delta: real, limit: real): real
    requires limit >= 0.0
  {
    Saturate(Rate(effort, tau, delta), limit)
  }

  function Run(effort: real, taus: seq<real>, delta: real, limit: real): real
    requires limit >= 0.0
  {
    if taus == [] then effort
      else CycleEffort(Run(effort, taus[..|taus| - 1], delta, limit), taus[|taus| - 1], delta, limit)
  }

  /** Whatever was demanded, every sent effort is within the limit and differs from the previous one by at most
      delta. */
  lemma {:induction false} RunKeepsLimits(effort: real, taus: seq<real>, delta: real, limit: real)
    requires delta >= 0.0 && Abs(effort) <= limit
    ensures Abs(Run(effort, taus, delta, limit)) <= limit
    ensures taus != [] ==> Abs(Run(effort, taus, delta, limit) - Run(effort, taus[..|taus| - 1], delta, limit)) <= delta
  {
    if taus != [] {
      RunKeepsLimits(effort, taus[..|taus| - 1], delta, limit);
    }
  }

  /** One cycle brings the effort closer to the demand clamped to the limit by delta, or onto it. */
  lemma CycleApproaches(effort: real, tau: real, delta: real, limit: real)
    requires delta >= 0.0 && Abs(effort) <= limit
    ensures var goal := Saturate(tau, limit);
      Abs(CycleEffort(effort, tau, delta, limit) - goal) == Max(0.0, Abs(effort - goal) - delta)
  {
  }

  function Repeat(tau: real, n: nat): (s: seq<real>)
    ensures |s| == n && forall k :: 0 <= k < n ==> s[k] == tau
  {
    seq(n, _ => tau)
  }

  /** How far n cycles can move an effort. */
  function Reach(n: nat, delta: real): real {
    if n == 0 then 0.0 else Reach(n - 1, delta) + delta
  }

  lemma {:induction false} ReachIsProduct(n: nat, delta: real)
    ensures Reach(n, delta) == n as real * delta
  {
    if n > 0 {
      ReachIsProduct(n - 1, delta);
      OneMore((n - 1) as real, n as real, delta);
    }
  }

  lemma OneMore(m: real, n: real, delta: real)
    requires n == m + 1.0
    ensures n * delta == m * delta + delta
  {
  }

  /** Under a constant demand the distance to the clamped demand falls by exactly delta per cycle until it is zero. */
  lemma {:induction false} ConstantDemandApproaches(effort: real, tau: real, delta: real, limit: real, n: nat)
    requires delta >= 0.0 && Abs(effort) <= limit
    ensures var goal := Saturate(tau, limit);
      Abs(Run(effort, Repeat(tau, n), delta, limit) - goal) == Max(0.0, Abs(effort - goal) - Reach(n, delta))
  {
    hide CycleEffort, Saturate, Rate;
    if n > 0 {
      ConstantDemandApproaches(effort, tau, delta, limit, n - 1);
      RunKeepsLimits(effort, Repeat(tau, n - 1), delta, limit);
      assert Repeat(tau, n)[..n - 1] == Repeat(tau, n - 1);
      CycleApproaches(Run(effort, Repeat(tau, n - 1), delta, limit), tau, delta, limit);
      ApproachStep(Abs(effort - Saturate(tau, limit)), Reach(n - 1, delta), Reach(n, delta), delta,
                   Abs(Run(effort, Repeat(tau, n - 1), delta, limit) - Saturate(tau, limit)),
                   Abs(Run(effort, Repeat(tau, n), delta, limit) - Saturate(tau, limit)));
    }
  }

  lemma ApproachStep(distance: real, before: real, all: real, delta: real, x: real, y: real)
    requires delta >= 0.0 && all == before + delta && x == Max(0.0, distance - before) && y == Max(0.0, x - delta)
    ensures y == Max(0.0, distance - all)
  {
  }

  /** The clamped demand is reached after exactly the cycles the distance takes at delta per cycle, and kept. */
  lemma ConstantDemandIsReached(effort: real, tau: real, delta: real, limit: real, n: nat)
    requires delta > 0.0 && Abs(effort) <= limit
    ensures Run(effort, Repeat(tau, n), delta, limit) == Saturate(tau, limit)
       <==> n as real >= Abs(effort - Saturate(tau, limit)) / delta
  {
    hide Run, Saturate;
    ConstantDemandApproaches(effort, tau, delta, limit, n);
    ReachIsProduct(n, delta);
    Quotient(Abs(effort - Saturate(tau, limit)), delta, n as real);
  }

  lemma Quotient(distance: real, delta: real, n: real)
    requires delta > 0.0
    ensures n >= distance / delta <==> n * delta >= distance
  {
    var q := distance / delta;
    assert q * delta == distance;
    FactorSign(n - q, delta);
    assert (n - q) * delta == n * delta - distance;
  }

  class EffortController {
    const jointNumber: nat
    const deltaTauMax: real
    const jointEffortLimits: seq<real>
    const cmdInterfaceTypes: seq<string>
    const commandCurrentConfiguration: bool

    const efforts: array<real>
    const jointPositions: array<real>
    const cmdEffort: array<real>
    const cmdPosition: array<real>

    ghost predicate Valid() {
      && |jointEffortLimits| == efforts.Length == jointPositions.Length == cmdEffort.Length == cmdPosition.Length ==
        jointNumber
      && deltaTauMax >= 1.0
      && (forall i :: 0 <= i < jointNumber ==> jointEffortLimits[i] >= 0.0)
      && efforts != jointPositions && efforts != cmdEffort && efforts != cmdPosition
      && cmdEffort != cmdPosition && cmdEffort != jointPositions && cmdPosition != jointPositions
    }

    /** Configured with a rate of at least one; the efforts start at zero. */
    constructor (deltaTauMax: real, limits: seq<real>, types: seq<string>, current: bool)
      requires deltaTauMax >= 1.0 && forall i :: 0 <= i < |limits| ==> limits[i] >= 0.0
      ensures Valid() && jointNumber == |limits| && jointEffortLimits == limits && this.deltaTauMax == deltaTauMax
      ensures cmdInterfaceTypes == types && commandCurrentConfiguration == current
      ensures forall i :: 0 <= i < jointNumber ==> efforts[i] == 0.0
    {
      this.deltaTauMax := deltaTauMax;
      jointNumber := |limits|;
      jointEffortLimits := limits;
      cmdInterfaceTypes := types;
      commandCurrentConfiguration := current;
      efforts := new real[|limits|](_ => 0.0);
      jointPositions := new real[|limits|](_ => 0.0);
      cmdEffort := new real[|limits|](_ => 0.0);
      cmdPosition := new real[|limits|](_ => 0.0);
    }

    /** Limits the rate of every joint's effort. */
    method ComputeJointEffortCmds(tau: seq<real>)
      requires Valid() && |tau| == jointNumber
      modifies efforts
      ensures forall i :: 0 <= i < jointNumber ==> efforts[i] == Rate(old(efforts[i]), tau[i], deltaTauMax)
    {
      for i := 0 to jointNumber
        invariant forall j :: 0 <= j < jointNumber ==>
          efforts[j] == if j < i then Rate(old(efforts[j]), tau[j], deltaTauMax) else old(efforts[j])
      {
        var difference := tau[i] - efforts[i];
        efforts[i] := efforts[i] + Min(Max(difference, -deltaTauMax), deltaTauMax);
      }
    }

    /** Saturates and sends the efforts when an effort interface is commanded, and sends the positions if configured. */
    method WriteJointEffortCmds()
      requires Valid()
      modifies efforts, cmdEffort, cmdPosition
      ensures forall i :: 0 <= i < jointNumber ==>
        && efforts[i] == (if "effort" in cmdInterfaceTypes then Saturate(old(efforts[i]), jointEffortLimits[i])
          else old(efforts[i]))
        && cmdEffort[i] == (if "effort" in cmdInterfaceTypes then efforts[i] else old(cmdEffort[i]))
        && cmdPosition[i] == (if commandCurrentConfiguration then jointPositions[i] else old(cmdPosition[i]))
    {
      for t := 0 to |cmdInterfaceTypes|
        invariant forall i :: 0 <= i < jointNumber ==>
          && efforts[i] == (if "effort" in cmdInterfaceTypes[..t] then Saturate(old(efforts[i]), jointEffortLimits[i])
            else old(efforts[i]))
          && cmdEffort[i] == (if "effort" in cmdInterfaceTypes[..t] then efforts[i] else old(cmdEffort[i]))
        invariant cmdPosition[..] == old(cmdPosition[..])
      {
        if cmdInterfaceTypes[t] == "effort" {
          SaturateAndSend();
        }
        assert cmdInterfaceTypes[..t + 1] == cmdInterfaceTypes[..t] + [cmdInterfaceTypes[t]];
      }
      assert cmdInterfaceTypes[..|cmdInterfaceTypes|] == cmdInterfaceTypes;
      if commandCurrentConfiguration {
        for i := 0 to jointNumber
          invariant forall j :: 0 <= j < jointNumber ==>
            cmdPosition[j] == if j < i then jointPositions[j] else old(cmdPosition[j])
          invariant forall j :: 0 <= j < jointNumber ==>
            && efforts[j] == (if "effort" in cmdInterfaceTypes then Saturate(old(efforts[j]), jointEffortLimits[j])
              else old(efforts[j]))
            && cmdEffort[j] == (if "effort" in cmdInterfaceTypes then efforts[j] else old(cmdEffort[j]))
        {
          cmdPosition[i] := jointPositions[i];
        }
      }
    }

    /** The loop over the joints for one effort interface type. */
    method SaturateAndSend()
      requires Valid()
      modifies efforts, cmdEffort
      ensures forall i :: 0 <= i < jointNumber ==>
        efforts[i] == Saturate(old(efforts[i]), jointEffortLimits[i]) && cmdEffort[i] == efforts[i]
    {
      for i := 0 to jointNumber
        invariant forall j :: 0 <= j < jointNumber ==>
          efforts[j] == if j < i then Saturate(old(efforts[j]), jointEffortLimits[j]) else old(efforts[j])
        invariant forall j :: 0 <= j < i ==> cmdEffort[j] == efforts[j]
      {
        efforts[i] := Saturate(efforts[i], jointEffortLimits[i]);
        cmdEffort[i] := efforts[i];
      }
    }

    /** A control cycle of the controllers built on this one. */
    method Cycle(tau: seq<real>)
      requires Valid() && |tau| == jointNumber && "effort" in cmdInterfaceTypes
      requires forall i :: 0 <= i < jointNumber ==> Abs(efforts[i]) <= jointEffortLimits[i]
      modifies efforts, cmdEffort, cmdPosition
      ensures forall i :: 0 <= i < jointNumber ==>
        && cmdEffort[i] == efforts[i] == CycleEffort(old(efforts[i]), tau[i], deltaTauMax, jointEffortLimits[i])
        && Abs(cmdEffort[i]) <= jointEffortLimits[i] && Abs(cmdEffort[i] - old(efforts[i])) <= deltaTauMax
    {
      ComputeJointEffortCmds(tau);
      WriteJointEffortCmds();
    }
  }
}
