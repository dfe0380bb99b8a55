/** The controller object: the gated control cycle, and the handlers of the gripper thread run without interruption. */
module TaskSequencer {
  import opened TaskSequence

  /** The gripper thread executes all its pending stores. */
  function Drain(g: Grip): (r: Grip)
    ensures r.pending == []
    decreases |g.pending|
  {
    if g.pending == [] then g else Drain(Advance(g))
  }

  /** Executing them is a run of single stores, so what holds of every run holds of it. */
  lemma DrainIsRun(d: Durations, s: State)
    ensures Run(d, s, seq(|s.grip.pending|, _ => NextStore)) == s.(grip := Drain(s.grip))
    decreases |s.grip.pending|
  {
    var n := |s.grip.pending|;
    if n > 0 {
      var t := Next(d, s, NextStore);
      DrainIsRun(d, t);
      assert seq(n, _ => NextStore) == [NextStore] + seq(n - 1, _ => NextStore);
      RunAfterFirst(d, s, NextStore, seq(n - 1, _ => NextStore));
    }
  }

  lemma RunAfterFirst(d: Durations, s: State, e: Event, events: seq<Event>)
    ensures Run(d, s, [e] + events) == Run(d, Next(d, s, e), events)
    decreases |events|
  {
    var n := |events|;
    if n == 0 {
      assert [e] + events == [e];
      assert Run(d, s, [e][..0]) == s;
    } else {
      assert ([e] + events)[..n] == [e] + events[..n - 1];
      RunAfterFirst(d, s, e, events[..n - 1]);
    }
  }

  class MoveCartesianImpWithGripper {
    const durations: Durations

    var taskCmd: TaskCmd
    var lastCmd: TaskCmd
    var move1Finished: bool
    var graspFinished: bool
    var move2Finished: bool
    var rlFinished: bool
    var elapsedTime: real

    var requestSendGrasp: bool
    var graspGoalSent: bool
    var graspActionActive: bool
    var graspActionDone: bool
    var graspActionSuccess: bool
    var graspResultReported: bool
    var goal: Goal

    ghost function ModesOf(): Modes
      reads this
    {
      Modes(taskCmd, lastCmd, move1Finished, graspFinished, move2Finished, rlFinished, elapsedTime)
    }

    /** Between the handlers of the gripper thread no store is pending. */
    ghost function GripOf(): Grip
      reads this
    {
      Grip(requestSendGrasp, graspGoalSent, graspActionActive, graspActionDone, graspActionSuccess,
        graspResultReported, goal, [])
    }

    ghost function State(): TaskSequence.State
      reads this
    {
      TaskSequence.State(ModesOf(), GripOf())
    }

    /** As declared: all phases count as finished and nothing is requested. */
    constructor (durations: Durations)
      ensures this.durations == durations && Activated(State())
    {
      this.durations := durations;
      taskCmd, lastCmd, elapsedTime := NONE, NONE, 0.0;
      move1Finished, graspFinished, move2Finished, rlFinished := true, true, true, true;
      requestSendGrasp, graspGoalSent, graspActionActive := false, false, false;
      graspActionDone, graspActionSuccess, graspResultReported := false, false, false;
      goal := NotSent;
    }

    /** The command subscription; a request to save the log is served at once and not stored. */
    method OnTaskCmd(cmd: TaskCmd)
      modifies `taskCmd
      ensures State() == Next(durations, old(State()), Command(cmd))
      ensures taskCmd == if cmd == SAVE_LOG then old(taskCmd) else cmd
    {
      if cmd != SAVE_LOG {
        taskCmd := cmd;
      }
    }

    /** Chooses the mode of this cycle: locks first, then the entry gates. */
    method ChooseMode()
      modifies this
      ensures State() == Enter(old(State()))
    {
      var cmd, last := taskCmd, lastCmd;
      var effectiveCmd := last;
      if last == RUN_RL && !rlFinished {
        effectiveCmd := RUN_RL;
      } else if last == MOVE_POSE_2 && !move2Finished {
        effectiveCmd := MOVE_POSE_2;
      } else if last == GRASP && !graspFinished {
        effectiveCmd := GRASP;
      } else if last == MOVE_POSE_1 && !move1Finished {
        effectiveCmd := MOVE_POSE_1;
      } else if cmd != last {
        if cmd == MOVE_POSE_1 {
          if last == NONE {
            elapsedTime := 0.0;
            move1Finished := false;
            effectiveCmd := MOVE_POSE_1;
          }
        } else if cmd == GRASP {
          if last == MOVE_POSE_1 && move1Finished {
            elapsedTime := 0.0;
            graspFinished := false;
            RequestGrasp();
            effectiveCmd := GRASP;
          }
        } else if cmd == MOVE_POSE_2 {
          if last == GRASP && graspFinished {
            elapsedTime := 0.0;
            move2Finished := false;
            effectiveCmd := MOVE_POSE_2;
          }
        } else if cmd == RUN_RL {
          if last == MOVE_POSE_2 && move2Finished {
            elapsedTime := 0.0;
            rlFinished := false;
            effectiveCmd := RUN_RL;
          }
        }
      }
      lastCmd := effectiveCmd;
    }

    /** Asks the gripper thread to send the goal. */
    method RequestGrasp()
      modifies `requestSendGrasp, `graspGoalSent, `graspActionActive, `graspActionDone, `graspActionSuccess,
        `graspResultReported
      ensures GripOf() == old(GripOf()).(requestSendGrasp := true, goalSent := false, active := false, done := false,
                                         success := false, reported := false)
    {
      requestSendGrasp := true;
      graspGoalSent := false;
      graspActionActive := false;
      graspActionDone := false;
      graspActionSuccess := false;
      graspResultReported := false;
    }

    /** The body of the executed mode. */
    method ExecuteMode(dt: real, near: bool)
      modifies this
      ensures State() == Execute(durations, old(State()), dt, near)
    {
      match lastCmd {
        case MOVE_POSE_1 =>
          elapsedTime := elapsedTime + dt;
          if !move1Finished && (near || elapsedTime > durations.move1) {
            move1Finished := true;
          }
        case GRASP =>
          elapsedTime := elapsedTime + dt;
          if !graspFinished {
            if graspActionDone {
              if graspActionSuccess {
                graspFinished := true;
                graspResultReported := true;
              } else if !graspResultReported {
                graspResultReported := true;
              } else if elapsedTime > durations.grasp {
                graspFinished := true;
              }
            } else if elapsedTime > durations.grasp {
              graspFinished := true;
            }
          }
        case MOVE_POSE_2 =>
          elapsedTime := elapsedTime + dt;
          if !move2Finished && (near || elapsedTime > durations.move2) {
            move2Finished := true;
          }
        case _ =>
      }
    }

    /** One control cycle: the mode is chosen first, also when the cycle then ends early. */
    method Update(dt: real, stateRead: bool, warmingUp: bool, mapped: bool, near: bool) returns (exit: Exit)
      modifies this
      ensures State() == Next(durations, old(State()), Control(exit, dt, near))
      ensures exit == Executed <==> stateRead && !warmingUp && mapped
      ensures lastCmd == old(lastCmd) && Timed(lastCmd) && exit == Executed ==> elapsedTime == old(elapsedTime) + dt
      ensures exit == Executed && lastCmd == MOVE_POSE_1 && (old(lastCmd) != MOVE_POSE_1 || !old(move1Finished)) ==>
        (move1Finished <==> near || elapsedTime > durations.move1)
      ensures exit == Executed && lastCmd == MOVE_POSE_2 && (old(lastCmd) != MOVE_POSE_2 || !old(move2Finished)) ==>
        (move2Finished <==> near || elapsedTime > durations.move2)
    {
      hide Execute, Enter;
      MotionFinishesIff(durations, State(), Control(Executed, dt, near));
      ChooseMode();
      if !stateRead {
        return ReadFailed;
      }
      if warmingUp {
        return WarmUp;
      }
      if !mapped {
        return MappingFailed;
      }
      ExecuteMode(dt, near);
      return Executed;
    }

    /** One tick of the gripper timer; answers come only after it has returned. */
    method GripperTimerTick(moveRequested: bool, hasClient: bool, serverReady: bool)
      modifies this
      ensures State() == old(State()).(grip := Drain(Tick(old(GripOf()), moveRequested, hasClient, serverReady)))
      ensures moveRequested || !old(requestSendGrasp) || (hasClient && !serverReady) ==> State() == old(State())
      ensures !moveRequested && old(requestSendGrasp) && !hasClient ==>
        !requestSendGrasp && graspActionDone && !graspActionSuccess && !graspActionActive && goal == old(goal)
      ensures !moveRequested && old(requestSendGrasp) && hasClient && serverReady ==>
        && !requestSendGrasp && graspGoalSent && graspActionActive && goal == InFlight
        && !graspActionDone && !graspActionSuccess && !graspResultReported
    {
      hide Drain, Tick;
      TickOutcome(GripOf(), moveRequested, hasClient, serverReady);
      if moveRequested {
        return;
      }
      var requested := requestSendGrasp;
      requestSendGrasp := false;
      if !requested {
        return;
      }
      if !hasClient {
        graspActionDone := true;
        graspActionSuccess := false;
        graspActionActive := false;
        return;
      }
      if !serverReady {
        requestSendGrasp := true;
        return;
      }
      SendGoal();
    }

    method SendGoal()
      modifies `graspGoalSent, `graspActionActive, `graspActionDone, `graspActionSuccess, `graspResultReported, `goal
      ensures GripOf() == old(GripOf()).(goalSent := true, active := true, done := false, success := false,
                                         reported := false, goal := InFlight)
    {
      graspGoalSent := true;
      graspActionActive := true;
      graspActionDone := false;
      graspActionSuccess := false;
      graspResultReported := false;
      goal := InFlight;
    }

    /** The response to the sent goal; an acceptance changes nothing. */
    method OnGoalResponse(accepted: bool)
      requires goal == InFlight
      modifies this
      ensures State() == old(State()).(grip := if accepted then old(GripOf())
        else Drain(GripStep(old(GripOf()), GoalRejected)))
      ensures !accepted ==> goal == Answered && graspActionDone && !graspActionSuccess && !graspActionActive
    {
      DrainAnswer(GripOf().(goal := Answered), false);
      hide Drain;
      if !accepted {
        goal := Answered;
        graspActionActive := false;
        graspActionDone := true;
        graspActionSuccess := false;
      }
    }

    /** The result of the sent goal: it succeeded when both the action and the grasp did. */
    method OnResult(actionSucceeded: bool, graspSucceeded: bool)
      requires goal == InFlight
      modifies this
      ensures State() == old(State()).(grip := Drain(GripStep(old(GripOf()),
        Result(actionSucceeded && graspSucceeded))))
      ensures goal == Answered && graspActionDone && !graspActionActive
      ensures graspActionSuccess == (actionSucceeded && graspSucceeded)
    {
      DrainAnswer(GripOf().(goal := Answered), actionSucceeded && graspSucceeded);
      hide Drain;
      goal := Answered;
      graspActionActive := false;
      graspActionDone := true;
      if actionSucceeded {
        graspActionSuccess := graspSucceeded;
      } else {
        graspActionSuccess := false;
      }
    }
  }

  // The effect of all pending stores, for the handlers there are.

  /** What a tick with all its stores comes to. */
  lemma TickOutcome(g: Grip, moveRequested: bool, hasClient: bool, serverReady: bool)
    requires g.pending == []
    ensures Drain(Tick(g, moveRequested, hasClient, serverReady)) ==
      if moveRequested || !g.requestSendGrasp || (hasClient && !serverReady) then g
      else if !hasClient then g.(requestSendGrasp := false, done := true, success := false, active := false)
      else
        g.(requestSendGrasp := false, goalSent := true, active := true, done := false, success := false,
          reported := false,
           goal := InFlight)
  {
    hide Drain;
    DrainNothing(g);
    DrainNoClient(g.(requestSendGrasp := false));
    DrainRetry(g.(requestSendGrasp := false));
    DrainSend(g.(requestSendGrasp := false));
  }

  lemma DrainRetry(g: Grip)
    ensures Drain(g.(pending := RETRY)) == g.(requestSendGrasp := true, pending := [])
  {
    hide Drain;
    var h := Unstack(g.(pending := RETRY), Request(true), []);
    DrainNothing(h);
  }

  lemma DrainNoClient(g: Grip)
    ensures Drain(g.(pending := NO_CLIENT)) == g.(done := true, success := false, active := false, pending := [])
  {
    hide Drain;
    var h := UnstackThree(g.(pending := NO_CLIENT), Done(true), Success(false), Active(false), []);
    DrainNothing(h);
  }

  lemma DrainAnswer(g: Grip, ok: bool)
    ensures Drain(g.(pending := Finished(ok))) == g.(active := false, done := true, success := ok, pending := [])
    ensures REJECTED == Finished(false)
  {
    hide Drain;
    var h := UnstackThree(g.(pending := Finished(ok)), Active(false), Done(true), Success(ok), []);
    DrainNothing(h);
  }

  lemma DrainSend(g: Grip)
    ensures Drain(g.(pending := SEND))
         == g.(goalSent := true, active := true, done := false, success := false, reported := false, goal := InFlight,
           pending := [])
  {
    hide Drain;
    var rest := [Success(false), Reported(false), Send];
    var h := UnstackThree(g.(pending := SEND), GoalSent(true), Active(true), Done(false), rest);
    var r := UnstackThree(h, Success(false), Reported(false), Send, []);
    DrainNothing(r);
  }

  lemma UnstackThree(g: Grip, a: Store, b: Store, c: Store, rest: seq<Store>) returns (h: Grip)
    requires g.pending == [a, b, c] + rest
    ensures h == Apply(Apply(Apply(g, a).(pending := [b, c] + rest), b).(pending := [c] + rest), c).(pending := rest)
    ensures Drain(g) == Drain(h)
  {
    hide Drain, Apply;
    assert [a, b, c] + rest == [a] + ([b, c] + rest) && [b, c] + rest == [b] + ([c] + rest);
    h := Unstack(g, a, [b, c] + rest);
    h := Unstack(h, b, [c] + rest);
    h := Unstack(h, c, rest);
  }

  lemma Unstack(g: Grip, st: Store, rest: seq<Store>) returns (h: Grip)
    requires g.pending == [st] + rest
    ensures h == Apply(g, st).(pending := rest)
    ensures Drain(g) == Drain(h)
  {
    hide Apply;
    h := Apply(g, st).(pending := rest);
    assert g.pending[1..] == rest;
  }

  lemma DrainNothing(g: Grip)
    requires g.pending == []
    ensures Drain(g) == g
  {
  }
}
