/** The task sequencer as a state machine: control cycles, commands, and the gripper handshake store by store. */
module TaskSequence {

  datatype TaskCmd = NONE | MOVE_POSE_1 | MOVE_POSE_2 | GRASP | OPEN_GRIPPER | CLOSE_GRIPPER | RUN_RL | SAVE_LOG | STOP

  /** How long the motion and grasp phases may last. */
  datatype Durations = Durations(move1: real, grasp: real, move2: real)

  /** The goal of the grasp action: not sent, sent and unanswered, or answered. */
  datatype Goal = NotSent | InFlight | Answered

  /** One write of the gripper thread to a flag it shares with the control cycle, or the sending of the goal. */
  datatype Store = GoalSent(b: bool) | Active(b: bool) | Done(b: bool) | Success(b: bool) | Reported(b: bool)
      | Request(b: bool) | Send

  /** What the control cycle owns: the latest command, the executed mode, the finished flags and the phase's clock. */
  datatype Modes = Modes(taskCmd: TaskCmd, lastCmd: TaskCmd,
                         move1Finished: bool, graspFinished: bool, move2Finished: bool, rlFinished: bool, elapsed: real)

  /** The gripper handshake: the flags both threads share, the goal, and the stores the gripper thread has yet to do. */
  datatype Grip = Grip(requestSendGrasp: bool, goalSent: bool, active: bool, done: bool, success: bool, reported: bool,
                       goal: Goal, pending: seq<Store>)

  datatype State = State(modes: Modes, grip: Grip)

  // -------------------------------------------------------------------------
  // The control cycle
  // -------------------------------------------------------------------------

  /** The locks: a mode that is not finished is kept, whatever the command. */
  predicate Locked(m: Modes) {
    || (m.lastCmd == RUN_RL && !m.rlFinished)
    || (m.lastCmd == MOVE_POSE_2 && !m.move2Finished)
    || (m.lastCmd == GRASP && !m.graspFinished)
    || (m.lastCmd == MOVE_POSE_1 && !m.move1Finished)
  }

  /** The gates: which mode the cycle executes, with its clock and its finished flag reset on entry. */
  function Gate(m: Modes): Modes {
    if Locked(m) || m.taskCmd == m.lastCmd then m
    else if m.taskCmd == MOVE_POSE_1 then
      (if m.lastCmd == NONE then m.(lastCmd := MOVE_POSE_1, elapsed := 0.0, move1Finished := false) else m)
    else if m.taskCmd == GRASP then
      (if m.lastCmd == MOVE_POSE_1 && m.move1Finished then m.(lastCmd := GRASP, elapsed := 0.0, graspFinished := false)
        else m)
    else if m.taskCmd == MOVE_POSE_2 then
      (if m.lastCmd == GRASP && m.graspFinished then m.(lastCmd := MOVE_POSE_2, elapsed := 0.0, move2Finished := false)
        else m)
    else if m.taskCmd == RUN_RL then
      (if m.lastCmd == MOVE_POSE_2 && m.move2Finished then m.(lastCmd := RUN_RL, elapsed := 0.0, rlFinished := false)
        else m)
    else m
  }

  predicate EntersGrasp(m: Modes) {
    m.lastCmd != GRASP && Gate(m).lastCmd == GRASP
  }

  /** Entering the grasp phase requests the goal and resets the handshake. */
  function GripGate(m: Modes, g: Grip): Grip {
    if EntersGrasp(m) then
      g.(requestSendGrasp := true, goalSent := false, active := false, done := false, success := false,
        reported := false)
    else g
  }

  function Enter(s: State): State {
    State(Gate(s.modes), GripGate(s.modes, s.grip))
  }

  /** The grasp phase is over: success ends it at once, and its duration ends it unless a failure is yet to be
      reported. */
  predicate GraspEnds(d: Durations, elapsed: real, g: Grip) {
    if g.done then g.success || (g.reported && elapsed > d.grasp) else elapsed > d.grasp
  }

  /** The mode's body in a cycle of length dt; near tells that the fingertip is close to the target. */
  function Body(d: Durations, m: Modes, g: Grip, dt: real, near: bool): Modes {
    var t := m.elapsed + dt;
    match m.lastCmd
    case MOVE_POSE_1 => m.(elapsed := t, move1Finished := m.move1Finished || near || t > d.move1)
    case GRASP => m.(elapsed := t, graspFinished := m.graspFinished || GraspEnds(d, t, g))
    case MOVE_POSE_2 => m.(elapsed := t, move2Finished := m.move2Finished || near || t > d.move2)
    case _ => m
  }

  /** An unfinished grasp phase reports the answer to its goal once. */
  function GripBody(m: Modes, g: Grip): Grip {
    if m.lastCmd == GRASP && !m.graspFinished && g.done then g.(reported := true) else g
  }

  function Execute(d: Durations, s: State, dt: real, near: bool): State {
    State(Body(d, s.modes, s.grip, dt, near), GripBody(s.modes, s.grip))
  }

  /** How a cycle ends: early because the state could not be read, in the warm-up, early because the commands could not
      be mapped, or with the body executed. */
  datatype Exit = ReadFailed | WarmUp | MappingFailed | Executed

  function Cycle(d: Durations, s: State, exit: Exit, dt: real, near: bool): State {
    if exit == Executed then Execute(d, Enter(s), dt, near) else Enter(s)
  }

  // -------------------------------------------------------------------------
  // The gripper thread
  // -------------------------------------------------------------------------

  const NO_CLIENT: seq<Store> := [Done(true), Success(false), Active(false)]
  const RETRY: seq<Store> := [Request(true)]
  const SEND: seq<Store> := [GoalSent(true), Active(true), Done(false), Success(false), Reported(false), Send]
  const REJECTED: seq<Store> := [Active(false), Done(true), Success(false)]

  function Finished(success: bool): seq<Store> {
    [Active(false), Done(true), Success(success)]
  }

  /** A timer tick takes the request, unless it serves a request to move the gripper first. */
  function Tick(g: Grip, moveRequested: bool, hasClient: bool, serverReady: bool): Grip {
    if moveRequested || !g.requestSendGrasp then g
    else g.(requestSendGrasp := false, pending := if !hasClient then NO_CLIENT else if !serverReady then RETRY
      else SEND)
  }

  function Apply(g: Grip, st: Store): Grip {
    match st
    case GoalSent(b) => g.(goalSent := b)
    case Active(b) => g.(active := b)
    case Done(b) => g.(done := b)
    case Success(b) => g.(success := b)
    case Reported(b) => g.(reported := b)
    case Request(b) => g.(requestSendGrasp := b)
    case Send => g.(goal := InFlight)
  }

  /** The gripper thread executes its next store. */
  function Advance(g: Grip): Grip {
    if g.pending == [] then g else Apply(g, g.pending[0]).(pending := g.pending[1..])
  }

  // -------------------------------------------------------------------------
  // Runs
  // -------------------------------------------------------------------------

  /** The events of a run: commands arrive, cycles execute, the timer ticks, the goal is rejected or finishes,
      and the gripper thread moves on by one store. */
  datatype Event = Command(c: TaskCmd) | Control(exit: Exit, dt: real, near: bool)
                 | TimerTick(moveRequested: bool, hasClient: bool, serverReady: bool)
                 | GoalRejected | Result(ok: bool) | NextStore

  predicate Possible(e: Event) {
    e.Control? ==> e.dt >= 0.0
  }

  /** A handler of the gripper thread starts only when the previous one is through, an answer only for a sent goal. */
  predicate Enabled(g: Grip, e: Event) {
    match e
    case TimerTick(_, _, _) => g.pending == []
    case GoalRejected => g.pending == [] && g.goal == InFlight
    case Result(_) => g.pending == [] && g.goal == InFlight
    case _ => true
  }

  /** What an event of the gripper thread does. */
  function GripStep(g: Grip, e: Event): Grip {
    if !Enabled(g, e) then g
    else
      match e
      case TimerTick(m, c, r) => Tick(g, m, c, r)
      case GoalRejected => g.(goal := Answered, pending := REJECTED)
      case Result(ok) => g.(goal := Answered, pending := Finished(ok))
      case NextStore => Advance(g)
      case _ => g
  }

  function Next(d: Durations, s: State, e: Event): State {
    match e
    case Command(c) => if c == SAVE_LOG then s else s.(modes := s.modes.(taskCmd := c))
    case Control(exit, dt, near) => Cycle(d, s, exit, dt, near)
    case _ => s.(grip := GripStep(s.grip, e))
  }

  function Run(d: Durations, s: State, events: seq<Event>): State {
    if events == [] then s else Next(d, Run(d, s, events[..|events| - 1]), events[|events| - 1])
  }

  /** The state after activation: no mode, no request, nothing under way; the finished flags may be left over. */
  predicate Activated(s: State) {
    && s.modes.taskCmd == NONE && s.modes.lastCmd == NONE
    && !s.grip.requestSendGrasp && s.grip.goal == NotSent && s.grip.pending == []
  }

  // -------------------------------------------------------------------------
  // The walk of the modes
  // -------------------------------------------------------------------------

  /** The position of a mode on the walk NONE, MOVE_POSE_1, GRASP, MOVE_POSE_2, RUN_RL. */
  function Rank(c: TaskCmd): nat {
    match c
    case NONE => 0
    case MOVE_POSE_1 => 1
    case GRASP => 2
    case MOVE_POSE_2 => 3
    case RUN_RL => 4
    case _ => 9
  }

  predicate OnWalk(c: TaskCmd) {
    Rank(c) <= 4
  }

  /** The phase may be left: its finished flag is set, or it has none. */
  predicate MayLeave(m: Modes, phase: TaskCmd) {
    match phase
    case MOVE_POSE_1 => m.move1Finished
    case GRASP => m.graspFinished
    case MOVE_POSE_2 => m.move2Finished
    case RUN_RL => m.rlFinished
    case _ => true
  }

  /** A cycle changes the mode exactly when the next mode on the walk is commanded and the current one may be left. */
  lemma GateMovesIff(m: Modes)
    requires OnWalk(m.lastCmd)
    ensures Gate(m).lastCmd ==
      if OnWalk(m.taskCmd) && Rank(m.taskCmd) == Rank(m.lastCmd) + 1 && MayLeave(m, m.lastCmd) then m.taskCmd
        else m.lastCmd
    ensures Gate(m).lastCmd != m.lastCmd ==> !MayLeave(Gate(m), Gate(m).lastCmd)
    ensures Gate(m).lastCmd == m.lastCmd ==> Gate(m) == m
  {
  }

  lemma BodyKeepsMode(d: Durations, m: Modes, g: Grip, dt: real, near: bool)
    ensures Body(d, m, g, dt, near).lastCmd == m.lastCmd
    ensures forall p :: p != m.lastCmd ==> MayLeave(Body(d, m, g, dt, near), p) == MayLeave(m, p)
  {
  }

  /** One event leaves the mode or moves it one further along the walk, which takes the finished flag. */
  lemma StepOnWalk(d: Durations, s: State, e: Event)
    requires OnWalk(s.modes.lastCmd)
    ensures var t := Next(d, s, e);
      && OnWalk(t.modes.lastCmd)
      && (t.modes.lastCmd == s.modes.lastCmd
          || (e.Control? && Rank(t.modes.lastCmd) == Rank(s.modes.lastCmd) + 1 && MayLeave(s.modes, s.modes.lastCmd)))
      && (!e.Control? ==> forall p :: MayLeave(t.modes, p) == MayLeave(s.modes, p))
  {
    hide Gate, Body, GripGate, GripBody, GripStep;
    if e.Control? {
      GateMovesIff(s.modes);
      BodyKeepsMode(d, Gate(s.modes), GripGate(s.modes, s.grip), e.dt, e.near);
    }
  }

  lemma StaysOnWalk(d: Durations, s: State, events: seq<Event>)
    requires s.modes.lastCmd == NONE
    ensures OnWalk(Run(d, s, events).modes.lastCmd)
  {
    hide Next;
    if events != [] {
      StaysOnWalk(d, s, events[..|events| - 1]);
      StepOnWalk(d, Run(d, s, events[..|events| - 1]), events[|events| - 1]);
    }
  }

  /** The cycle executes the phase's body and this sets its finished flag. */
  ghost predicate Finishes(d: Durations, s: State, e: Event, phase: TaskCmd) {
    && e.Control? && e.exit == Executed
    && Gate(s.modes).lastCmd == phase && !MayLeave(Gate(s.modes), phase) && MayLeave(Next(d, s, e).modes, phase)
  }

  ghost predicate WasFinished(d: Durations, s: State, events: seq<Event>, phase: TaskCmd) {
    exists i :: 0 <= i < |events| && Finishes(d, Run(d, s, events[..i]), events[i], phase)
  }

  lemma WasFinishedExtends(d: Durations, s: State, events: seq<Event>, phase: TaskCmd)
    requires events != [] && WasFinished(d, s, events[..|events| - 1], phase)
    ensures WasFinished(d, s, events, phase)
  {
    var before := events[..|events| - 1];
    var i :| 0 <= i < |before| && Finishes(d, Run(d, s, before[..i]), before[i], phase);
    assert before[..i] == events[..i] && before[i] == events[i];
  }

  /** In every run, a motion or grasp phase whose flag is set, or that was left, was executed in this activation
      and its own body set the flag. */
  lemma PhasesAreFinishedInTurn(d: Durations, s: State, events: seq<Event>, phase: TaskCmd)
    requires s.modes.lastCmd == NONE && 1 <= Rank(phase) <= 3
    ensures Rank(Run(d, s, events).modes.lastCmd) > Rank(phase) ==> WasFinished(d, s, events, phase)
    ensures Run(d, s, events).modes.lastCmd == phase && MayLeave(Run(d, s, events).modes, phase) ==>
      WasFinished(d, s, events, phase)
  {
    if events != [] {
      var n := |events| - 1;
      PhasesAreFinishedInTurn(d, s, events[..n], phase);
      StaysOnWalk(d, s, events[..n]);
      hide Next, MayLeave;
      if WasFinished(d, s, events[..n], phase) {
        WasFinishedExtends(d, s, events, phase);
      } else {
        FinishedNow(d, Run(d, s, events[..n]), events[n], phase);
        assert events[..n] == events[..n];
      }
    }
  }

  /** A phase that was neither left nor finished before an event is finished by it, if it is finished after. */
  lemma FinishedNow(d: Durations, s: State, e: Event, phase: TaskCmd)
    requires OnWalk(s.modes.lastCmd) && 1 <= Rank(phase) <= 3 && Rank(s.modes.lastCmd) <= Rank(phase)
    requires s.modes.lastCmd == phase ==> !MayLeave(s.modes, phase)
    ensures Rank(Next(d, s, e).modes.lastCmd) <= Rank(phase)
    ensures Next(d, s, e).modes.lastCmd == phase && MayLeave(Next(d, s, e).modes, phase) ==> Finishes(d, s, e, phase)
  {
    hide Gate, Body, MayLeave, GripGate, GripBody, GripStep;
    StepOnWalk(d, s, e);
    GateMovesIff(s.modes);
    if e.Control? {
      BodyKeepsMode(d, Gate(s.modes), GripGate(s.modes, s.grip), e.dt, e.near);
    }
  }

  /** The modes never go back, and never leave RUN_RL. */
  lemma {:induction false} WalkNeverGoesBack(d: Durations, s: State, events: seq<Event>, more: seq<Event>)
    requires s.modes.lastCmd == NONE
    ensures Rank(Run(d, s, events).modes.lastCmd) <= Rank(Run(d, s, events + more).modes.lastCmd) <= 4
    decreases |more|
  {
    hide Next;
    StaysOnWalk(d, s, events);
    if more == [] {
      assert events + more == events;
    } else {
      var n := |more| - 1;
      WalkNeverGoesBack(d, s, events, more[..n]);
      assert (events + more)[..|events| + n] == events + more[..n];
      StepOnWalk(d, Run(d, s, events + more[..n]), more[n]);
    }
  }

  // -------------------------------------------------------------------------
  // When a phase ends
  // -------------------------------------------------------------------------

  predicate Timed(c: TaskCmd) {
    c == MOVE_POSE_1 || c == GRASP || c == MOVE_POSE_2
  }

  predicate Executes(e: Event) {
    e.Control? && e.exit == Executed
  }

  /** An executed cycle adds its length to the clock of a timed phase, and finishes an unfinished motion phase exactly
      when its target is near or its duration is over; any other event changes neither clock nor flag of the phase. */
  lemma MotionFinishesIff(d: Durations, s: State, e: Event)
    ensures var m, t := if e.Control? then Gate(s.modes) else s.modes, Next(d, s, e).modes;
      && t.lastCmd == m.lastCmd
      && (Executes(e) && Timed(m.lastCmd) ==> t.elapsed == m.elapsed + e.dt)
      && (Executes(e) && m.lastCmd == MOVE_POSE_1 && !m.move1Finished ==>
            (t.move1Finished <==> e.near || t.elapsed > d.move1))
      && (Executes(e) && m.lastCmd == MOVE_POSE_2 && !m.move2Finished ==>
            (t.move2Finished <==> e.near || t.elapsed > d.move2))
      && (!Executes(e) || !Timed(m.lastCmd) ==> t.elapsed == m.elapsed)
      && (!Executes(e) || m.lastCmd != MOVE_POSE_1 || m.move1Finished ==> t.move1Finished == m.move1Finished)
      && (!Executes(e) || m.lastCmd != MOVE_POSE_2 || m.move2Finished ==> t.move2Finished == m.move2Finished)
  {
    hide Gate, GripGate, GripStep, GraspEnds;
  }

  /** The time of the executed cycles. */
  function ExecutedTime(events: seq<Event>): real {
    if events == [] then 0.0
    else
      var n := |events| - 1;
      ExecutedTime(events[..n]) + if Executes(events[n]) then events[n].dt else 0.0
  }

  /** The k-th event enters the phase, which is executed ever since. */
  ghost predicate EnteredAt(d: Durations, s: State, events: seq<Event>, phase: TaskCmd, k: nat) {
    && k < |events| && events[k].Control? && Run(d, s, events[..k]).modes.lastCmd != phase
    && forall j :: k < j <= |events| ==> Run(d, s, events[..j]).modes.lastCmd == phase
  }

  lemma EnteredBefore(d: Durations, s: State, events: seq<Event>, phase: TaskCmd, k: nat)
    requires EnteredAt(d, s, events, phase, k) && k < |events| - 1
    ensures EnteredAt(d, s, events[..|events| - 1], phase, k)
    ensures Run(d, s, events[..|events| - 1]).modes.lastCmd == phase == Run(d, s, events).modes.lastCmd
  {
    hide Run;
    var before := events[..|events| - 1];
    assert events[..|events|] == events && before[..k] == events[..k];
    forall j | k < j <= |before| ensures Run(d, s, before[..j]).modes.lastCmd == phase {
      assert before[..j] == events[..j];
    }
  }

  /** Over every run the clock of a timed phase shows the time of the cycles executed since it was entered. */
  lemma {:induction false} ClockShowsPhaseTime(d: Durations, s: State, events: seq<Event>, phase: TaskCmd, k: nat)
    requires s.modes.lastCmd == NONE && Timed(phase) && EnteredAt(d, s, events, phase, k)
    ensures Run(d, s, events).modes.elapsed == ExecutedTime(events[k..])
  {
    hide Next, Gate;
    var n := |events| - 1;
    var x := Run(d, s, events[..n]);
    assert events[..|events|] == events;
    MotionFinishesIff(d, x, events[n]);
    StaysOnWalk(d, s, events[..n]);
    GateMovesIff(x.modes);
    assert events[k..][..|events[k..]| - 1] == events[k..n];
    if k < n {
      EnteredBefore(d, s, events, phase, k);
      ClockShowsPhaseTime(d, s, events[..n], phase, k);
      assert events[..n][k..] == events[k..n];
    } else {
      EntryResets(x.modes, phase);
    }
  }

  lemma EntryResets(m: Modes, phase: TaskCmd)
    requires OnWalk(m.lastCmd) && m.lastCmd != phase && Gate(m).lastCmd == phase && Timed(phase)
    ensures Gate(m).elapsed == 0.0 && !MayLeave(Gate(m), phase)
  {
  }

  function MotionDuration(d: Durations, phase: TaskCmd): real {
    if phase == MOVE_POSE_1 then d.move1 else d.move2
  }

  /** The cycle comes near the target, or ends past the duration of the phase entered by the k-th event. */
  ghost predicate Arrives(d: Durations, events: seq<Event>, phase: TaskCmd, k: nat, j: nat)
    requires k <= j < |events|
  {
    Executes(events[j]) && (events[j].near || ExecutedTime(events[k..j + 1]) > MotionDuration(d, phase))
  }

  ghost predicate HasArrived(d: Durations, events: seq<Event>, phase: TaskCmd, k: nat) {
    exists j :: k <= j < |events| && Arrives(d, events, phase, k, j)
  }

  /** Over every run a motion phase is finished exactly when one of its executed cycles came near its target or ended
      past its duration. */
  lemma {:induction false} MotionIsFinishedIff(d: Durations, s: State, events: seq<Event>, phase: TaskCmd, k: nat)
    requires s.modes.lastCmd == NONE && (phase == MOVE_POSE_1 || phase == MOVE_POSE_2) &&
      EnteredAt(d, s, events, phase, k)
    ensures MayLeave(Run(d, s, events).modes, phase) <==> HasArrived(d, events, phase, k)
  {
    hide Next, Gate, ExecutedTime;
    var n := |events| - 1;
    var x := Run(d, s, events[..n]);
    assert events[..|events|] == events && events[k..n + 1] == events[k..];
    MotionFinishesIff(d, x, events[n]);
    StaysOnWalk(d, s, events[..n]);
    GateMovesIff(x.modes);
    ClockShowsPhaseTime(d, s, events, phase, k);
    if k < n {
      EnteredBefore(d, s, events, phase, k);
      MotionIsFinishedIff(d, s, events[..n], phase, k);
      ArrivalExtends(d, events, phase, k);
    } else {
      EntryResets(x.modes, phase);
      ArrivalNow(d, events, phase, k);
    }
  }

  lemma ArrivalExtends(d: Durations, events: seq<Event>, phase: TaskCmd, k: nat)
    requires k < |events| - 1
    ensures HasArrived(d, events, phase, k) <==>
      HasArrived(d, events[..|events| - 1], phase, k) || Arrives(d, events, phase, k, |events| - 1)
  {
    hide ExecutedTime;
    var before := events[..|events| - 1];
    forall j | k <= j < |before| ensures Arrives(d, before, phase, k, j) <==> Arrives(d, events, phase, k, j) {
      assert before[k..j + 1] == events[k..j + 1];
    }
  }

  lemma ArrivalNow(d: Durations, events: seq<Event>, phase: TaskCmd, k: nat)
    requires k == |events| - 1
    ensures HasArrived(d, events, phase, k) <==> Arrives(d, events, phase, k, k)
  {
  }

  // -------------------------------------------------------------------------
  // The grasp handshake
  // -------------------------------------------------------------------------

  /** The stores of an answer, or of finding no client: none of them takes the answer back. */
  predicate Answers(st: Store) {
    st.Active? || st.Success? || st == Done(true)
  }

  /** No goal was requested in this activation. */
  predicate Unused(g: Grip) {
    !g.requestSendGrasp && g.goal == NotSent && g.pending == []
  }

  /** A goal is requested, and the request waits for a tick, or for its retry. */
  predicate Wanted(g: Grip) {
    g.goal == NotSent && if g.requestSendGrasp then g.pending == [] else g.pending == RETRY
  }

  predicate Requested(g: Grip) {
    Wanted(g) && !g.done && !g.success
  }

  /** The stores that prepare the sending of the goal. */
  predicate Prepares(st: Store) {
    st.GoalSent? || st.Active? || st == Done(false) || st == Success(false) || st == Reported(false)
  }

  /** The stores end with the sending, and those before prepare it. */
  ghost predicate LeadsToSend(stores: seq<Store>) {
    && stores != [] && stores[|stores| - 1] == Send
    && forall k :: 0 <= k < |stores| - 1 ==> Prepares(stores[k])
  }

  lemma FirstLeadsToSend(stores: seq<Store>)
    requires LeadsToSend(stores)
    ensures if |stores| == 1 then stores[0] == Send else Prepares(stores[0]) && LeadsToSend(stores[1..])
    ensures Success(true) !in stores && Success(true) !in stores[1..] && stores[|stores| - 1] in stores
  {
    assert forall k :: 0 <= k < |stores| ==> stores[k] != Success(true);
    assert forall k :: 0 <= k < |stores| - 1 ==> stores[1..][k] == stores[k + 1];
  }

  /** The tick is in the middle of sending the goal. */
  ghost predicate Underway(g: Grip) {
    !g.requestSendGrasp && g.goal == NotSent && LeadsToSend(g.pending)
  }

  ghost predicate Sending(g: Grip) {
    Underway(g) && !g.done && !g.success
  }

  /** The goal is sent and not answered. */
  predicate Sent(g: Grip) {
    !g.requestSendGrasp && g.goal == InFlight && g.pending == []
  }

  predicate Flying(g: Grip) {
    Sent(g) && !g.done && !g.success
  }

  /** The goal was answered, or there is no client: nothing takes the answer back. */
  ghost predicate Over(g: Grip) {
    && !g.requestSendGrasp && g.goal != InFlight
    && (forall st :: st in g.pending ==> Answers(st))
    && (g.goal == NotSent ==> Success(true) !in g.pending)
  }

  ghost predicate Closed(g: Grip) {
    Over(g) && (g.goal == NotSent ==> !g.success)
  }

  ghost predicate Handshake(g: Grip) {
    Requested(g) || Sending(g) || Flying(g) || Closed(g)
  }

  lemma RequestedStep(g: Grip, e: Event)
    requires Requested(g)
    ensures Requested(GripStep(g, e)) || Sending(GripStep(g, e)) || Closed(GripStep(g, e))
    ensures !SignalsSuccess(g) && !SignalsSuccess(GripStep(g, e)) && GripStep(g, e).goal == NotSent
  {
    assert Success(true) !in SEND && Success(true) !in NO_CLIENT && Success(true) !in RETRY;
  }

  lemma SendingStep(g: Grip, e: Event)
    requires Sending(g)
    ensures Sending(GripStep(g, e)) || Flying(GripStep(g, e))
    ensures !SignalsSuccess(g) && !SignalsSuccess(GripStep(g, e)) && g.goal == NotSent &&
      GripStep(g, e).goal != Answered
  {
    FirstLeadsToSend(g.pending);
    hide LeadsToSend;
  }

  lemma FlyingStep(g: Grip, e: Event)
    requires Flying(g)
    ensures Flying(GripStep(g, e)) || (Closed(GripStep(g, e)) && Enabled(g, e) && (e == GoalRejected || e.Result?))
    ensures !SignalsSuccess(g) && (SignalsSuccess(GripStep(g, e)) ==> e == Result(true) && Enabled(g, e))
  {
    assert Success(true) !in REJECTED && Success(true) !in Finished(false);
  }

  lemma ClosedStep(g: Grip, e: Event)
    requires Closed(g)
    ensures Closed(GripStep(g, e)) && GripStep(g, e).goal == g.goal
    ensures (g.done ==> GripStep(g, e).done) && (g.reported ==> GripStep(g, e).reported)
    ensures SignalsSuccess(GripStep(g, e)) ==> SignalsSuccess(g)
  {
    if g.pending != [] {
      assert g.pending[0] in g.pending;
      assert forall st :: st in g.pending[1..] ==> st in g.pending;
    }
  }

  /** A step of the gripper thread keeps the handshake in order, never takes an answer back, and signals success only
      when the sent goal succeeds. */
  lemma GripStepKeepsHandshake(g: Grip, e: Event)
    requires Handshake(g)
    ensures Handshake(GripStep(g, e))
    ensures Closed(g) ==>
      Closed(GripStep(g, e)) && (g.done ==> GripStep(g, e).done) && (g.reported ==> GripStep(g, e).reported)
    ensures !SignalsSuccess(g) && SignalsSuccess(GripStep(g, e)) ==> e == Result(true) && Enabled(g, e)
  {
    hide GripStep, Sending, Closed, Requested, Flying, SignalsSuccess;
    if Closed(g) {
      ClosedStep(g, e);
    } else if Requested(g) {
      RequestedStep(g, e);
    } else if Sending(g) {
      SendingStep(g, e);
    } else {
      FlyingStep(g, e);
    }
  }

  /** A tick that finds the server unready puts the request back by its next store: the handshake is as before. */
  lemma UnreadyTickRetries(g: Grip)
    requires g.requestSendGrasp && g.pending == []
    ensures GripStep(GripStep(g, TimerTick(false, true, false)), NextStore) == g
  {
    var t := GripStep(g, TimerTick(false, true, false));
    assert t == g.(requestSendGrasp := false, pending := RETRY);
  }

  function GripSteps(g: Grip, e: Event, n: nat): Grip {
    if n == 0 then g else GripStep(GripSteps(g, e, n - 1), e)
  }

  /** A request is served by a tick that finds the server ready: six stores later the goal is sent. */
  lemma ReadyTickSends(g: Grip)
    requires g.requestSendGrasp && g.pending == []
    ensures GripSteps(GripStep(g, TimerTick(false, true, true)), NextStore, 6) ==
      g.(requestSendGrasp := false, goalSent := true, active := true, done := false, success := false,
        reported := false,
         goal := InFlight)
  {
    hide GripStep;
    TakesRequest(g);
    var t := GripStep(g, TimerTick(false, true, true));
    var rest := [Success(false), Reported(false), Send];
    PreparesSending(t, rest);
    ThreeSteps(t, NextStore, 0);
    ThreeSteps(t, NextStore, 3);
    SendsGoal(GripSteps(t, NextStore, 3));
  }

  lemma ThreeSteps(g: Grip, e: Event, n: nat)
    ensures GripSteps(g, e, n + 3) == GripStep(GripStep(GripStep(GripSteps(g, e, n), e), e), e)
    ensures GripSteps(g, e, 0) == g
  {
    hide GripStep;
    assert GripSteps(g, e, n + 1) == GripStep(GripSteps(g, e, n), e);
    assert GripSteps(g, e, n + 2) == GripStep(GripSteps(g, e, n + 1), e);
  }

  lemma TakesRequest(g: Grip)
    requires g.requestSendGrasp && g.pending == []
    ensures GripStep(g, TimerTick(false, true, true)) == g.(requestSendGrasp := false, pending := SEND)
  {
  }

  lemma PreparesSending(g: Grip, rest: seq<Store>)
    requires g.pending == [GoalSent(true), Active(true), Done(false)] + rest
    ensures GripStep(GripStep(GripStep(g, NextStore), NextStore), NextStore) ==
      g.(goalSent := true, active := true, done := false, pending := rest)
  {
    var a := GripStep(g, NextStore);
    assert a == g.(goalSent := true, pending := [Active(true), Done(false)] + rest);
    var b := GripStep(a, NextStore);
    assert b == a.(active := true, pending := [Done(false)] + rest);
    var c := GripStep(b, NextStore);
    assert c == b.(done := false, pending := rest);
  }

  lemma SendsGoal(g: Grip)
    requires g.pending == [Success(false), Reported(false), Send]
    ensures GripStep(GripStep(GripStep(g, NextStore), NextStore), NextStore) ==
      g.(success := false, reported := false, goal := InFlight, pending := [])
  {
    var a := GripStep(g, NextStore);
    assert a == g.(success := false, pending := [Reported(false), Send]);
    var b := GripStep(a, NextStore);
    assert b == a.(reported := false, pending := [Send]);
    var c := GripStep(b, NextStore);
    assert c == b.(goal := InFlight, pending := []);
  }

  /** A successful answer to the sent goal has come in. */
  ghost predicate Succeeded(d: Durations, s: State, events: seq<Event>) {
    exists i :: 0 <= i < |events| && events[i] == Result(true) && Enabled(Run(d, s, events[..i]).grip, events[i])
  }

  lemma SucceededExtends(d: Durations, s: State, events: seq<Event>)
    requires events != [] && Succeeded(d, s, events[..|events| - 1])
    ensures Succeeded(d, s, events)
  {
    var before := events[..|events| - 1];
    var i :| 0 <= i < |before| && before[i] == Result(true) && Enabled(Run(d, s, before[..i]).grip, before[i]);
    assert before[..i] == events[..i] && before[i] == events[i];
  }

  /** Success is or will be signalled. */
  predicate SignalsSuccess(g: Grip) {
    g.success || Success(true) in g.pending
  }

  /** In every run the handshake is unused before the grasp phase and in order from then on, and success is signalled
      only if the goal succeeded. */
  lemma RunKeepsHandshake(d: Durations, s: State, events: seq<Event>)
    requires Activated(s)
    ensures var t := Run(d, s, events);
      && (Rank(t.modes.lastCmd) < 2 ==> Unused(t.grip))
      && (Rank(t.modes.lastCmd) >= 2 ==> Handshake(t.grip) && (SignalsSuccess(t.grip) ==> Succeeded(d, s, events)))
  {
    if events != [] {
      var n := |events| - 1;
      var x, e := Run(d, s, events[..n]), events[n];
      RunKeepsHandshake(d, s, events[..n]);
      StaysOnWalk(d, s, events[..n]);
      StepOnWalk(d, x, e);
      if Succeeded(d, s, events[..n]) {
        SucceededExtends(d, s, events);
      }
      hide Gate, Body, MayLeave, Handshake, Succeeded, GripStep, Enabled;
      if e.Control? {
        GateMovesIff(x.modes);
        BodyKeepsMode(d, Gate(x.modes), GripGate(x.modes, x.grip), e.dt, e.near);
        CycleKeepsHandshake(d, x, e);
      } else if !e.Command? {
        if Rank(x.modes.lastCmd) >= 2 {
          GripStepKeepsHandshake(x.grip, e);
          if !SignalsSuccess(x.grip) && SignalsSuccess(GripStep(x.grip, e)) {
            SucceedsNow(d, s, events);
          }
        } else {
          UnusedStays(x.grip, e);
        }
      }
    }
  }

  lemma SucceedsNow(d: Durations, s: State, events: seq<Event>)
    requires events != [] && events[|events| - 1] == Result(true)
    requires Enabled(Run(d, s, events[..|events| - 1]).grip, events[|events| - 1])
    ensures Succeeded(d, s, events)
  {
  }

  lemma UnusedStays(g: Grip, e: Event)
    requires Unused(g)
    ensures Unused(GripStep(g, e))
  {
  }

  lemma CycleKeepsHandshake(d: Durations, s: State, e: Event)
    requires e.Control? && OnWalk(s.modes.lastCmd)
    requires Rank(s.modes.lastCmd) < 2 ==> Unused(s.grip)
    requires Rank(s.modes.lastCmd) >= 2 ==> Handshake(s.grip)
    ensures var t := Next(d, s, e);
      && (Rank(t.modes.lastCmd) < 2 ==> Unused(t.grip))
      && (Rank(t.modes.lastCmd) >= 2 ==> Handshake(t.grip))
      && (Rank(t.modes.lastCmd) >= 2 && SignalsSuccess(t.grip) ==> Rank(s.modes.lastCmd) >= 2 && SignalsSuccess(s.grip))
      && (Closed(s.grip) && Rank(s.modes.lastCmd) >= 2 ==>
        Closed(t.grip) && t.grip.done == s.grip.done && (s.grip.reported ==> t.grip.reported))
  {
    hide Body, Gate;
    GateMovesIff(s.modes);
    BodyKeepsMode(d, Gate(s.modes), GripGate(s.modes, s.grip), e.dt, e.near);
    var g := GripGate(s.modes, s.grip);
    var r := g.(reported := true);
    assert Handshake(g) ==> Handshake(r);
  }

  /** The grasp phase is finished only on the success of its goal or after its duration. */
  lemma GraspFinishIsJustified(d: Durations, s: State, events: seq<Event>, e: Event)
    requires Activated(s) && Finishes(d, Run(d, s, events), e, GRASP)
    ensures Next(d, Run(d, s, events), e).modes.elapsed > d.grasp || Succeeded(d, s, events)
  {
    var x := Run(d, s, events);
    RunKeepsHandshake(d, s, events);
    StaysOnWalk(d, s, events);
    hide Succeeded, Handshake;
    GateMovesIff(x.modes);
  }

  /** From here on the next executed cycle of the grasp phase finishes it. */
  ghost predicate Overdue(d: Durations, s: State) {
    && OnWalk(s.modes.lastCmd) && Rank(s.modes.lastCmd) >= 2 && Handshake(s.grip)
    && (s.modes.lastCmd == GRASP && !s.modes.graspFinished ==>
          s.modes.elapsed > d.grasp && s.grip.done && s.grip.reported && Closed(s.grip))
  }

  lemma StepKeepsOverdue(d: Durations, s: State, e: Event)
    requires Overdue(d, s) && Possible(e)
    ensures Overdue(d, Next(d, s, e))
    ensures e.Control? && e.exit == Executed && Next(d, s, e).modes.lastCmd == GRASP ==>
      Next(d, s, e).modes.graspFinished
  {
    hide Handshake, Closed;
    StepOnWalk(d, s, e);
    if e.Control? {
      CycleKeepsHandshake(d, s, e);
      GateMovesIff(s.modes);
    } else if !e.Command? {
      GripStepKeepsHandshake(s.grip, e);
    }
  }

  lemma RunKeepsOverdue(d: Durations, s: State, events: seq<Event>)
    requires Overdue(d, s) && forall e :: e in events ==> Possible(e)
    ensures Overdue(d, Run(d, s, events))
  {
    if events != [] {
      var n := |events| - 1;
      assert events[n] in events;
      RunKeepsOverdue(d, s, events[..n]);
      StepKeepsOverdue(d, Run(d, s, events[..n]), events[n]);
    }
  }

  /** However the two threads interleave, the grasp phase is finished at the latest by the second executed cycle whose
      elapsed time exceeds its duration. */
  lemma GraspDeadline(d: Durations, s: State, events: seq<Event>, first: Event, between: seq<Event>, second: Event)
    requires Activated(s) && Possible(first) && Possible(second) && forall e :: e in between ==> Possible(e)
    requires first.Control? && first.exit == Executed && second.Control? && second.exit == Executed
    requires var t := Next(d, Run(d, s, events), first); t.modes.lastCmd == GRASP && t.modes.elapsed > d.grasp
    requires Next(d, Run(d, Next(d, Run(d, s, events), first), between), second).modes.lastCmd == GRASP
    ensures Next(d, Run(d, Next(d, Run(d, s, events), first), between), second).modes.graspFinished
  {
    var x := Run(d, s, events);
    RunKeepsHandshake(d, s, events);
    StaysOnWalk(d, s, events);
    FirstLateCycle(d, x, first);
    var t := Next(d, x, first);
    RunKeepsOverdue(d, t, between);
    StepKeepsOverdue(d, Run(d, t, between), second);
  }

  lemma FirstLateCycle(d: Durations, s: State, e: Event)
    requires OnWalk(s.modes.lastCmd) && e.Control? && e.exit == Executed
    requires Rank(s.modes.lastCmd) < 2 ==> Unused(s.grip)
    requires Rank(s.modes.lastCmd) >= 2 ==> Handshake(s.grip)
    requires Next(d, s, e).modes.lastCmd == GRASP && Next(d, s, e).modes.elapsed > d.grasp
    ensures Overdue(d, Next(d, s, e))
  {
    CycleKeepsHandshake(d, s, e);
    GateMovesIff(s.modes);
    StepOnWalk(d, s, e);
    hide Sending, Closed;
  }
}
