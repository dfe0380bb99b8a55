/** The task sequencer with both threads interleaved access by access: every load and store of a shared flag is a
    step. */
module TaskThreads {
  import opened TaskSequence

  /** How the current control cycle will go on once the mode is chosen. */
  datatype Call = Call(exit: Exit, dt: real, near: bool)

  /** Where the control thread is: between cycles, with the next entry store to do, or in the body of the grasp phase
      before a load of the answer, or before reporting it. */
  datatype Point = Between | Entering(call: Call, next: nat) | LoadsDone | LoadsSuccess | Reports(success: bool)

  /** What happened since activation: the executed cycles of the grasp phase that ended past its duration, and whether
      the goal succeeded. */
  datatype History = History(late: nat, succeeded: bool)

  datatype Threads = Threads(modes: Modes, grip: Grip, point: Point, history: History)

  /** The stores on entering the grasp phase, in their order. */
  const ENTRY: seq<Store> :=
    [Request(true), GoalSent(false), Active(false), Done(false), Success(false), Reported(false)]

  /** A step: a cycle starts, the control thread goes on by one access, or something else happens. */
  datatype Step = Starts(call: Call) | Goes | Other(e: Event)

  predicate PossibleStep(st: Step) {
    (st.Starts? ==> st.call.dt >= 0.0) && (st.Other? ==> !st.e.Control?)
  }

  /** A cycle of the grasp phase ends. */
  function Ends(d: Durations, s: Threads, finished: bool): Threads {
    var late := if s.modes.elapsed > d.grasp then s.history.late + 1 else s.history.late;
    s.(modes := s.modes.(graspFinished := s.modes.graspFinished || finished), point := Between,
      history := s.history.(late := late))
  }

  /** The mode is chosen and entered: the body starts, if the cycle gets that far. */
  function StartsBody(d: Durations, s: Threads, call: Call): Threads {
    if call.exit != Executed then s.(point := Between)
    else if s.modes.lastCmd == GRASP && !s.modes.graspFinished then
      s.(modes := s.modes.(elapsed := s.modes.elapsed + call.dt), point := LoadsDone)
    else s.(modes := Body(d, s.modes, s.grip, call.dt, call.near), point := Between)
  }

  function StartsCycle(d: Durations, s: Threads, call: Call): Threads {
    var t := s.(modes := Gate(s.modes));
    if EntersGrasp(s.modes) then t.(point := Entering(call, 0), history := s.history.(late := 0))
    else StartsBody(d, t, call)
  }

  /** The control thread's next access. */
  function GoesOn(d: Durations, s: Threads): Threads {
    match s.point
    case Between => s
    case Entering(call, next) =>
      if next >= |ENTRY| then StartsBody(d, s, call)
      else s.(grip := Apply(s.grip, ENTRY[next]), point := Entering(call, next + 1))
    case LoadsDone => if s.grip.done then s.(point := LoadsSuccess) else Ends(d, s, s.modes.elapsed > d.grasp)
    case LoadsSuccess => s.(point := Reports(s.grip.success))
    case Reports(success) =>
      Ends(d, s.(grip := s.grip.(reported := true)), success || (s.grip.reported && s.modes.elapsed > d.grasp))
  }

  function Act(d: Durations, s: Threads, st: Step): Threads {
    match st
    case Starts(call) => if s.point == Between then StartsCycle(d, s, call) else s
    case Goes => GoesOn(d, s)
    case Other(e) =>
      if e.Command? then (if e.c == SAVE_LOG then s else s.(modes := s.modes.(taskCmd := e.c)))
      else if e.Control? then s
      else
        var delivered := e == Result(true) && Enabled(s.grip, e);
        s.(grip := GripStep(s.grip, e), history := s.history.(succeeded := s.history.succeeded || delivered))
  }

  function Runs(d: Durations, s: Threads, steps: seq<Step>): Threads {
    if steps == [] then s else Act(d, Runs(d, s, steps[..|steps| - 1]), steps[|steps| - 1])
  }

  /** After activation, between two cycles. */
  predicate JustActivated(s: Threads) {
    Activated(State(s.modes, s.grip)) && s.point == Between && s.history == History(0, false)
  }

  // -------------------------------------------------------------------------
  // A cycle without interruption
  // -------------------------------------------------------------------------

  function GoesOnFor(d: Durations, s: Threads, n: nat): Threads
    decreases n
  {
    if n == 0 then s else GoesOnFor(d, GoesOn(d, s), n - 1)
  }

  /** From this state the control thread, left alone, gets to the end of its cycle with these modes and this
      handshake. */
  ghost predicate Completes(d: Durations, s: Threads, n: nat, t: State) {
    var u := GoesOnFor(d, s, n);
    u.point == Between && State(u.modes, u.grip) == t
  }

  lemma BodyCompletes(d: Durations, s: Threads, call: Call) returns (n: nat)
    ensures Completes(d, StartsBody(d, s, call), n,
      if call.exit == Executed then Execute(d, State(s.modes, s.grip), call.dt, call.near) else State(s.modes, s.grip))
  {
    var t := StartsBody(d, s, call);
    n := if t.point == Between then 0 else if t.grip.done then 3 else 1;
    if n == 1 {
      GoesOnOnce(d, t);
    } else if n == 3 {
      GoesOnAfter(d, t, 2, 1);
      GoesOnAfter(d, t, 1, 1);
      GoesOnOnce(d, t);
      GoesOnOnce(d, GoesOn(d, t));
      GoesOnOnce(d, GoesOn(d, GoesOn(d, t)));
    }
  }

  /** The entry stores, done one after the other. */
  lemma EntryCompletes(d: Durations, s: Threads, call: Call)
    requires s.point == Entering(call, 0)
    ensures GoesOnFor(d, s, 6) == s.(point := Entering(call, 6), grip :=
      s.grip.(requestSendGrasp := true, goalSent := false, active := false, done := false, success := false,
        reported := false))
  {
    hide StartsBody, Ends;
    var s1 := GoesOn(d, s);
    var s2 := GoesOn(d, s1);
    var s3 := GoesOn(d, s2);
    var s4 := GoesOn(d, s3);
    var s5 := GoesOn(d, s4);
    assert GoesOnFor(d, s, 6) == GoesOnFor(d, s1, 5) == GoesOnFor(d, s2, 4) == GoesOnFor(d, s3, 3);
    assert GoesOnFor(d, s3, 3) == GoesOnFor(d, s4, 2) == GoesOnFor(d, s5, 1) == GoesOnFor(d, GoesOn(d, s5), 0);
  }

  /** A cycle whose accesses no other thread interrupts is the cycle as one event, so the runs of whole cycles are among
      the runs here. */
  lemma CycleIsRun(d: Durations, s: Threads, call: Call) returns (n: nat)
    ensures Completes(d, StartsCycle(d, s, call), n,
      Next(d, State(s.modes, s.grip), Control(call.exit, call.dt, call.near)))
  {
    var t := StartsCycle(d, s, call);
    if EntersGrasp(s.modes) {
      EntryCompletes(d, t, call);
      var u := GoesOnFor(d, t, 6);
      var m := BodyCompletes(d, u, call);
      GoesOnAfter(d, t, 6, m + 1);
      n := 6 + (m + 1);
    } else {
      n := BodyCompletes(d, s.(modes := Gate(s.modes)), call);
    }
  }

  lemma GoesOnOnce(d: Durations, s: Threads)
    ensures GoesOnFor(d, s, 1) == GoesOn(d, s)
  {
  }

  lemma GoesOnAfter(d: Durations, s: Threads, m: nat, n: nat)
    ensures GoesOnFor(d, s, m + n) == GoesOnFor(d, GoesOnFor(d, s, m), n)
    decreases m
  {
    if m > 0 {
      GoesOnAfter(d, GoesOn(d, s), m - 1, n);
    }
  }

  // -------------------------------------------------------------------------
  // The walk of the modes
  // -------------------------------------------------------------------------

  /** A step leaves the mode or moves it one further along the walk, and then only out of a phase that may be left. */
  lemma StepStaysOnWalk(d: Durations, s: Threads, st: Step)
    requires OnWalk(s.modes.lastCmd)
    ensures var m := Act(d, s, st).modes.lastCmd;
      m == s.modes.lastCmd ||
        (st.Starts? && OnWalk(m) && Rank(m) == Rank(s.modes.lastCmd) + 1 && MayLeave(s.modes, s.modes.lastCmd))
  {
    hide Gate, Body, GripStep;
    GateMovesIff(s.modes);
    if st.Starts? {
      BodyKeepsMode(d, Gate(s.modes), s.grip, st.call.dt, st.call.near);
    } else if st.Goes? && s.point.Entering? {
      BodyKeepsMode(d, s.modes, s.grip, s.point.call.dt, s.point.call.near);
    }
  }

  lemma RunStaysOnWalk(d: Durations, s: Threads, steps: seq<Step>)
    requires s.modes.lastCmd == NONE
    ensures OnWalk(Runs(d, s, steps).modes.lastCmd)
  {
    hide Act;
    if steps != [] {
      var n := |steps| - 1;
      RunStaysOnWalk(d, s, steps[..n]);
      StepStaysOnWalk(d, Runs(d, s, steps[..n]), steps[n]);
    }
  }

  /** The modes never go back, and never leave RUN_RL, whatever is left over in the handshake. */
  lemma RunNeverGoesBack(d: Durations, s: Threads, steps: seq<Step>, more: seq<Step>)
    requires s.modes.lastCmd == NONE
    ensures Rank(Runs(d, s, steps).modes.lastCmd) <= Rank(Runs(d, s, steps + more).modes.lastCmd) <= 4
    decreases |more|
  {
    hide Act;
    RunStaysOnWalk(d, s, steps);
    if more == [] {
      assert steps + more == steps;
    } else {
      var n := |more| - 1;
      RunNeverGoesBack(d, s, steps, more[..n]);
      assert (steps + more)[..|steps| + n] == steps + more[..n];
      StepStaysOnWalk(d, Runs(d, s, steps + more[..n]), more[n]);
    }
  }

  /** A step of the control thread sets the finished flag of the phase it executes; a cycle that starts has first taken
      the flag of a phase it enters. */
  ghost predicate StepFinishes(d: Durations, s: Threads, st: Step, phase: TaskCmd) {
    var m := if st.Starts? then Gate(s.modes) else s.modes;
    !st.Other? && m.lastCmd == phase && !MayLeave(m, phase) && MayLeave(Act(d, s, st).modes, phase)
  }

  ghost predicate RunFinished(d: Durations, s: Threads, steps: seq<Step>, phase: TaskCmd) {
    exists i :: 0 <= i < |steps| && StepFinishes(d, Runs(d, s, steps[..i]), steps[i], phase)
  }

  lemma RunFinishedExtends(d: Durations, s: Threads, steps: seq<Step>, phase: TaskCmd)
    requires steps != [] && RunFinished(d, s, steps[..|steps| - 1], phase)
    ensures RunFinished(d, s, steps, phase)
  {
    var before := steps[..|steps| - 1];
    var i :| 0 <= i < |before| && StepFinishes(d, Runs(d, s, before[..i]), before[i], phase);
    assert before[..i] == steps[..i] && before[i] == steps[i];
  }

  lemma StepFinishesNow(d: Durations, s: Threads, st: Step, phase: TaskCmd)
    requires OnWalk(s.modes.lastCmd) && 1 <= Rank(phase) <= 3 && Rank(s.modes.lastCmd) <= Rank(phase)
    requires s.modes.lastCmd == phase ==> !MayLeave(s.modes, phase)
    ensures Rank(Act(d, s, st).modes.lastCmd) <= Rank(phase)
    ensures Act(d, s, st).modes.lastCmd == phase && MayLeave(Act(d, s, st).modes, phase) ==>
      StepFinishes(d, s, st, phase)
  {
    hide Gate, Body, GripStep;
    StepStaysOnWalk(d, s, st);
    GateMovesIff(s.modes);
    if st.Starts? {
      BodyKeepsMode(d, Gate(s.modes), s.grip, st.call.dt, st.call.near);
    }
  }

  /** With single accesses as steps, a motion or grasp phase whose flag is set while it is executed, or that was left,
      was finished by a step of its own in this activation. */
  lemma RunFinishesInTurn(d: Durations, s: Threads, steps: seq<Step>, phase: TaskCmd)
    requires s.modes.lastCmd == NONE && 1 <= Rank(phase) <= 3
    ensures Rank(Runs(d, s, steps).modes.lastCmd) > Rank(phase) ==> RunFinished(d, s, steps, phase)
    ensures Runs(d, s, steps).modes.lastCmd == phase && MayLeave(Runs(d, s, steps).modes, phase) ==>
      RunFinished(d, s, steps, phase)
  {
    hide Act, MayLeave;
    if steps != [] {
      var n := |steps| - 1;
      RunFinishesInTurn(d, s, steps[..n], phase);
      RunStaysOnWalk(d, s, steps[..n]);
      if RunFinished(d, s, steps[..n], phase) {
        RunFinishedExtends(d, s, steps, phase);
      } else {
        StepFinishesNow(d, Runs(d, s, steps[..n]), steps[n], phase);
        assert steps[..n] == steps[..n];
      }
    }
  }

  // -------------------------------------------------------------------------
  // What every run keeps
  // -------------------------------------------------------------------------

  /** A goal is wanted, on its way, sent or over; the flags are left open. */
  ghost predicate Going(g: Grip) {
    Wanted(g) || Underway(g) || Sent(g) || Over(g)
  }

  /** What a step of the gripper thread does to the goal's progress: a goal that is over stays over, and done and
      reported are not taken back then; done is set only for a goal that is over, and success only by the success of
      the goal. */
  ghost predicate Progresses(g: Grip, h: Grip, e: Event) {
    && Going(h)
    && (Over(g) ==> Over(h) && (g.done ==> h.done) && (g.reported ==> h.reported))
    && (!g.done && h.done ==> Over(h))
    && (!g.success && h.success ==> Success(true) in g.pending)
    && (Success(true) in h.pending && Success(true) !in g.pending ==> e == Result(true) && Enabled(g, e))
  }

  lemma GripStepKeepsGoing(g: Grip, e: Event)
    requires Going(g)
    ensures Progresses(g, GripStep(g, e), e)
  {
    hide GripStep, Progresses, Over, Underway, Wanted;
    if Over(g) {
      OverStep(g, e);
    } else if Wanted(g) {
      WantedStep(g, e);
    } else if Sent(g) {
      SentStep(g, e);
    } else if e == NextStore {
      UnderwayStep(g);
    } else {
      UnderwayWaits(g, e);
    }
  }

  lemma WantedStep(g: Grip, e: Event)
    requires Wanted(g)
    ensures Progresses(g, GripStep(g, e), e)
  {
    assert Success(true) !in SEND && Success(true) !in NO_CLIENT && Success(true) !in RETRY;
    assert !Over(g) by {
      assert Request(true) in RETRY;
    }
  }

  lemma SentStep(g: Grip, e: Event)
    requires Sent(g)
    ensures Progresses(g, GripStep(g, e), e)
  {
    assert Success(true) !in REJECTED && Success(true) !in Finished(false);
  }

  lemma OverStep(g: Grip, e: Event)
    requires Over(g)
    ensures Progresses(g, GripStep(g, e), e)
  {
    hide GripStep, Over;
    OverWaits(g, e);
    if g.pending != [] && e == NextStore {
      OverAdvances(g);
    }
  }

  lemma OverWaits(g: Grip, e: Event)
    requires Over(g)
    ensures g.pending == [] || e != NextStore ==> GripStep(g, e) == g
  {
  }

  lemma OverAdvances(g: Grip)
    requires Over(g) && g.pending != []
    ensures var h := GripStep(g, NextStore);
      && Over(h) && (g.done ==> h.done) && (g.reported ==> h.reported)
      && (!g.success && h.success ==> Success(true) in g.pending)
      && (Success(true) in h.pending ==> Success(true) in g.pending)
  {
    assert g.pending[0] in g.pending;
    assert forall st :: st in g.pending[1..] ==> st in g.pending;
  }

  lemma UnderwayWaits(g: Grip, e: Event)
    requires Underway(g) && e != NextStore
    ensures Progresses(g, GripStep(g, e), e)
  {
    hide Over;
  }

  lemma UnderwayStep(g: Grip)
    requires Underway(g)
    ensures Progresses(g, GripStep(g, NextStore), NextStore)
  {
    var h := GripStep(g, NextStore);
    UnderwayAdvances(g);
    UnderwayIsNotOver(g);
    hide GripStep, Over, Underway;
    assert Going(h);
  }

  lemma UnderwayAdvances(g: Grip)
    requires Underway(g)
    ensures var h := GripStep(g, NextStore);
      && (Underway(h) || Sent(h))
      && (h.done ==> g.done) && (h.success ==> g.success) && Success(true) !in h.pending
  {
    FirstLeadsToSend(g.pending);
    hide LeadsToSend;
  }

  lemma UnderwayIsNotOver(g: Grip)
    requires Underway(g)
    ensures !Over(g)
  {
    FirstLeadsToSend(g.pending);
  }

  /** The number of entry stores that are done. */
  function Stored(p: Point): nat {
    if p.Entering? then p.next else |ENTRY|
  }

  /** The answer has come in and was reported as a failure. */
  ghost predicate Failed(g: Grip) {
    g.done && g.reported && Over(g)
  }

  /** Flags that are left over from an earlier activation until the entry stores reset them: once done is reset it means
      that the goal is over, and once success is reset it means that the goal succeeded. */
  ghost predicate FlagsMean(g: Grip, stored: nat, succeeded: bool) {
    && (if stored == 0 then Unused(g) else Going(g))
    && (stored > 3 && g.done ==> Over(g))
    && (stored > 4 && g.success ==> succeeded)
    && (Success(true) in g.pending ==> succeeded)
  }

  ghost predicate PointFits(d: Durations, s: Threads) {
    match s.point
    case Between => true
    case Entering(call, next) =>
      s.modes.lastCmd == GRASP && !s.modes.graspFinished && s.history.late == 0 && call.dt >= 0.0 && next <= |ENTRY|
    case LoadsDone => s.modes.lastCmd == GRASP && !s.modes.graspFinished
    case LoadsSuccess => s.modes.lastCmd == GRASP && !s.modes.graspFinished && s.grip.done
    case Reports(success) =>
      && s.modes.lastCmd == GRASP && !s.modes.graspFinished && s.grip.done
      && (success ==> s.history.succeeded)
  }

  /** In the grasp phase: an unfinished phase that is late has reported a failure, and a finished one is late or has
      succeeded. */
  ghost predicate PhaseFits(d: Durations, m: Modes, g: Grip, h: History) {
    && (h.late > 0 ==> m.elapsed > d.grasp)
    && (h.late > 0 && !m.graspFinished ==> h.late == 1 && Failed(g))
    && (m.graspFinished ==> m.elapsed > d.grasp || h.succeeded)
  }

  ghost predicate InOrder(d: Durations, s: Threads) {
    && OnWalk(s.modes.lastCmd) && PointFits(d, s)
    && (Rank(s.modes.lastCmd) < 2 ==> Unused(s.grip))
    && (Rank(s.modes.lastCmd) >= 2 ==> FlagsMean(s.grip, Stored(s.point), s.history.succeeded))
    && (s.modes.lastCmd == GRASP ==> PhaseFits(d, s.modes, s.grip, s.history))
  }

  lemma EntryStore(g: Grip, k: nat, succeeded: bool)
    requires k < |ENTRY| && FlagsMean(g, k, succeeded)
    ensures FlagsMean(Apply(g, ENTRY[k]), k + 1, succeeded)
  {
    hide Underway, Over, Going;
    if k == 0 {
      RequestIsFirst(g);
    } else {
      EntryStoreKeepsGoal(g, ENTRY[k]);
    }
  }

  lemma RequestIsFirst(g: Grip)
    requires Unused(g)
    ensures Going(Apply(g, Request(true)))
  {
  }

  lemma EntryStoreKeepsGoal(g: Grip, st: Store)
    requires st == Done(false) || st == Success(false) || st.GoalSent? || st.Active? || st.Reported?
    ensures Going(Apply(g, st)) == Going(g) && Over(Apply(g, st)) == Over(g)
  {
  }

  lemma OtherKeepsOrder(d: Durations, s: Threads, e: Event)
    requires InOrder(d, s) && !e.Control?
    ensures InOrder(d, Act(d, s, Other(e)))
  {
    hide GripStep, Enabled, Going, Over;
    if !e.Command? {
      if Unused(s.grip) {
        UnusedIsNoOp(s.grip, e);
      } else {
        GripStepKeepsGoing(s.grip, e);
      }
    }
  }

  lemma UnusedIsNoOp(g: Grip, e: Event)
    requires Unused(g)
    ensures GripStep(g, e) == g && !(e == Result(true) && Enabled(g, e))
  {
  }

  lemma EndKeepsOrder(d: Durations, s: Threads, finished: bool)
    requires OnWalk(s.modes.lastCmd) && s.modes.lastCmd == GRASP && !s.modes.graspFinished
    requires FlagsMean(s.grip, |ENTRY|, s.history.succeeded) && PhaseFits(d, s.modes, s.grip, s.history)
    requires finished ==> s.modes.elapsed > d.grasp || s.history.succeeded
    requires !finished && s.modes.elapsed > d.grasp ==> s.history.late == 0 && Failed(s.grip)
    ensures InOrder(d, Ends(d, s, finished))
  {
    hide FlagsMean, Failed;
  }

  lemma BodyKeepsOrder(d: Durations, s: Threads, call: Call)
    requires InOrder(d, s) && Stored(s.point) == |ENTRY| && call.dt >= 0.0
    ensures InOrder(d, StartsBody(d, s, call))
  {
    hide FlagsMean, Failed;
    BodyKeepsMode(d, s.modes, s.grip, call.dt, call.near);
  }

  lemma StartKeepsOrder(d: Durations, s: Threads, call: Call)
    requires InOrder(d, s) && s.point == Between && call.dt >= 0.0
    ensures InOrder(d, StartsCycle(d, s, call))
  {
    hide Failed, Gate;
    GateMovesIff(s.modes);
    var t := s.(modes := Gate(s.modes));
    if !EntersGrasp(s.modes) {
      BodyKeepsOrder(d, t, call);
    }
  }

  lemma EntryKeepsOrder(d: Durations, s: Threads)
    requires InOrder(d, s) && s.point.Entering? && s.point.next < |ENTRY|
    ensures InOrder(d, GoesOn(d, s))
  {
    hide FlagsMean, Failed, Unused, Apply;
    EntryStore(s.grip, s.point.next, s.history.succeeded);
  }

  lemma LoadKeepsOrder(d: Durations, s: Threads)
    requires InOrder(d, s) && (s.point.LoadsDone? || s.point.LoadsSuccess?)
    ensures InOrder(d, GoesOn(d, s))
  {
    hide Going, Over, Unused;
    if s.point.LoadsDone? && !s.grip.done {
      EndKeepsOrder(d, s, s.modes.elapsed > d.grasp);
    }
  }

  lemma ReportKeepsOrder(d: Durations, s: Threads)
    requires InOrder(d, s) && s.point.Reports?
    ensures InOrder(d, GoesOn(d, s))
  {
    hide Over, Unused, Underway;
    var g := s.grip.(reported := true);
    assert Going(g) && Over(g) by {
      ReportedIsLeftOpen(s.grip);
    }
    EndKeepsOrder(d, s.(grip := g), s.point.success || (s.grip.reported && s.modes.elapsed > d.grasp));
  }

  lemma ReportedIsLeftOpen(g: Grip)
    ensures Going(g.(reported := true)) == Going(g) && Over(g.(reported := true)) == Over(g)
  {
  }

  lemma GoingKeepsOrder(d: Durations, s: Threads)
    requires InOrder(d, s)
    ensures InOrder(d, GoesOn(d, s))
  {
    match s.point
    case Between =>
    case Entering(call, next) =>
      if next == |ENTRY| {
        BodyKeepsOrder(d, s, call);
      } else {
        EntryKeepsOrder(d, s);
      }
    case LoadsDone => LoadKeepsOrder(d, s);
    case LoadsSuccess => LoadKeepsOrder(d, s);
    case Reports(_) => ReportKeepsOrder(d, s);
  }

  lemma RunKeepsOrder(d: Durations, s: Threads, steps: seq<Step>)
    requires JustActivated(s) && forall st :: st in steps ==> PossibleStep(st)
    ensures InOrder(d, Runs(d, s, steps))
  {
    hide InOrder;
    if steps == [] {
      StartInOrder(d, s);
    } else {
      var n := |steps| - 1;
      RunKeepsOrder(d, s, steps[..n]);
      assert steps[n] in steps;
      match steps[n]
      case Starts(call) => 
        if Runs(d, s, steps[..n]).point == Between {
          StartKeepsOrder(d, Runs(d, s, steps[..n]), call);
        }
      case Goes => GoingKeepsOrder(d, Runs(d, s, steps[..n]));
      case Other(e) => OtherKeepsOrder(d, Runs(d, s, steps[..n]), e);
    }
  }

  lemma StartInOrder(d: Durations, s: Threads)
    requires JustActivated(s)
    ensures InOrder(d, s)
  {
  }

  /** However single loads and stores of the two threads interleave, the grasp phase is finished once two of its
      executed cycles have ended past its duration, and it is finished only past its duration or after the goal
      succeeded. */
  lemma GraspIsFinishedInTime(d: Durations, s: Threads, steps: seq<Step>)
    requires JustActivated(s) && forall st :: st in steps ==> PossibleStep(st)
    ensures var t := Runs(d, s, steps);
      t.modes.lastCmd == GRASP ==>
        && (t.history.late >= 2 ==> t.modes.graspFinished)
        && (t.modes.graspFinished ==> t.modes.elapsed > d.grasp || t.history.succeeded)
  {
    RunKeepsOrder(d, s, steps);
  }

  // -------------------------------------------------------------------------
  // A success that is kept, and one that is lost
  // -------------------------------------------------------------------------

  /** The stores of a success are under way or done, and nothing will take them back. */
  predicate Winning(g: Grip) {
    && g.goal == Answered && !g.requestSendGrasp
    && (|| g.pending == [Active(false), Done(true), Success(true)]
        || g.pending == [Done(true), Success(true)]
        || (g.pending == [Success(true)] && g.done)
        || (g.pending == [] && g.done && g.success))
  }

  /** The grasp phase was entered, its entry stores are done, and the goal's success is stored or being stored. */
  predicate Won(s: Threads) {
    OnWalk(s.modes.lastCmd) && Rank(s.modes.lastCmd) >= 2 && !s.point.Entering? && Winning(s.grip)
  }

  lemma WinningStep(g: Grip, e: Event)
    requires Winning(g)
    ensures Winning(GripStep(g, e)) && (g.pending == [] ==> GripStep(g, e) == g)
  {
  }

  lemma StepKeepsWon(d: Durations, s: Threads, st: Step)
    requires Won(s)
    ensures Won(Act(d, s, st)) && (s.grip.pending == [] ==> Act(d, s, st).grip.pending == [])
  {
    hide Gate, Body, GripStep;
    StepStaysOnWalk(d, s, st);
    GateMovesIff(s.modes);
    if st.Other? {
      WinningStep(s.grip, st.e);
    }
  }

  /** A success that comes in after the entry stores is kept, however the threads interleave from then on. */
  lemma SuccessAfterEntryIsKept(d: Durations, s: Threads, steps: seq<Step>)
    requires s.modes.lastCmd == GRASP && !s.point.Entering? && Sent(s.grip)
    ensures var t := Runs(d, Act(d, s, Other(Result(true))), steps);
      Won(t) && (t.grip.pending == [] ==> t.grip.done && t.grip.success)
  {
    var start := Act(d, s, Other(Result(true)));
    assert start.grip.pending == [Active(false), Done(true), Success(true)];
    RunKeepsWon(d, start, steps);
  }

  lemma RunKeepsWon(d: Durations, s: Threads, steps: seq<Step>)
    requires Won(s)
    ensures Won(Runs(d, s, steps)) && (s.grip.pending == [] ==> Runs(d, s, steps).grip.pending == [])
  {
    hide Act, Won;
    if steps != [] {
      var n := |steps| - 1;
      RunKeepsWon(d, s, steps[..n]);
      StepKeepsWon(d, Runs(d, s, steps[..n]), steps[n]);
    }
  }

  /** A cycle of the unfinished grasp phase is on its way to find the success. */
  ghost predicate FindsSuccess(s: Threads) {
    && Won(s) && s.grip.pending == []
    && (s.modes.lastCmd == GRASP && !s.modes.graspFinished ==>
          s.point == LoadsDone || s.point == LoadsSuccess || s.point == Reports(true))
  }

  lemma StepFindsSuccess(d: Durations, s: Threads, st: Step)
    requires FindsSuccess(s)
    ensures FindsSuccess(Act(d, s, st))
  {
    hide GripStep, Winning, Gate;
    StepKeepsWon(d, s, st);
    GateMovesIff(s.modes);
    if st.Starts? {
      BodyKeepsMode(d, Gate(s.modes), s.grip, st.call.dt, st.call.near);
    } else if st.Other? {
      WinningStep(s.grip, st.e);
    } else {
      WinningAnswer(s.grip);
    }
  }

  lemma WinningAnswer(g: Grip)
    requires Winning(g) && g.pending == []
    ensures g.done && g.success
  {
  }

  /** Once the success is stored, the next executed cycle of the grasp phase finishes it, within its duration or not and
      however the threads interleave. */
  lemma SuccessFinishesNextCycle(d: Durations, s: Threads, call: Call, steps: seq<Step>)
    requires Won(s) && s.grip.pending == [] && s.point == Between && call.exit == Executed
    ensures var t := Runs(d, Act(d, s, Starts(call)), steps);
      t.modes.lastCmd == GRASP && t.point == Between ==> t.modes.graspFinished
  {
    StepKeepsWon(d, s, Starts(call));
    GateMovesIff(s.modes);
    hide Gate, Body, Winning;
    BodyKeepsMode(d, Gate(s.modes), s.grip, call.dt, call.near);
    assert FindsSuccess(Act(d, s, Starts(call)));
    RunFindsSuccess(d, Act(d, s, Starts(call)), steps);
  }

  lemma RunFindsSuccess(d: Durations, s: Threads, steps: seq<Step>)
    requires FindsSuccess(s)
    ensures FindsSuccess(Runs(d, s, steps))
  {
    hide Act, FindsSuccess;
    if steps != [] {
      var n := |steps| - 1;
      RunFindsSuccess(d, s, steps[..n]);
      StepFindsSuccess(d, Runs(d, s, steps[..n]), steps[n]);
    }
  }

  /** The answer came in and was wiped out by the entry stores. */
  predicate Lost(g: Grip) {
    g.goal == Answered && !g.requestSendGrasp && g.pending == [] && !g.done
  }

  ghost predicate Waits(d: Durations, s: Threads) {
    && OnWalk(s.modes.lastCmd) && Rank(s.modes.lastCmd) >= 2 && Lost(s.grip)
    && (s.modes.lastCmd == GRASP ==>
          && (s.point == Between || s.point == LoadsDone)
          && (s.modes.graspFinished ==> s.modes.elapsed > d.grasp))
    && (s.modes.lastCmd != GRASP ==> s.point == Between)
  }

  lemma StepWaits(d: Durations, s: Threads, st: Step)
    requires Waits(d, s) && PossibleStep(st)
    ensures Waits(d, Act(d, s, st))
  {
    StepStaysOnWalk(d, s, st);
    GateMovesIff(s.modes);
    hide Gate;
    if st.Starts? {
      BodyKeepsMode(d, Gate(s.modes), s.grip, st.call.dt, st.call.near);
    }
  }

  /** From then on only the duration ends the grasp phase. */
  lemma LostAnswerWaits(d: Durations, s: Threads, steps: seq<Step>)
    requires Waits(d, s) && forall st :: st in steps ==> PossibleStep(st)
    ensures Waits(d, Runs(d, s, steps))
    ensures var t := Runs(d, s, steps); t.modes.lastCmd == GRASP && t.modes.graspFinished ==> t.modes.elapsed > d.grasp
  {
    if steps != [] {
      var n := |steps| - 1;
      assert steps[n] in steps;
      LostAnswerWaits(d, s, steps[..n]);
      hide Act, Waits;
      StepWaits(d, Runs(d, s, steps[..n]), steps[n]);
    }
  }

  lemma RunsOne(d: Durations, s: Threads, steps: seq<Step>, st: Step)
    ensures Runs(d, s, steps + [st]) == Act(d, Runs(d, s, steps), st)
  {
    assert (steps + [st])[..|steps|] == steps;
  }

  lemma RunsMore(d: Durations, s: Threads, steps: seq<Step>, more: seq<Step>)
    ensures Runs(d, s, steps + more) == Runs(d, Runs(d, s, steps), more)
    decreases |more|
  {
    hide Act;
    if more == [] {
      assert steps + more == steps;
    } else {
      var n := |more| - 1;
      assert (steps + more)[..|steps| + n] == steps + more[..n];
      RunsMore(d, s, steps, more[..n]);
    }
  }

  lemma RunsTwo(d: Durations, s: Threads, a: Step, b: Step)
    ensures Runs(d, s, [a, b]) == Act(d, Act(d, s, a), b)
  {
    hide Act;
    RunsOne(d, s, [], a);
    RunsOne(d, s, [a], b);
    assert [] + [a] == [a] && [a] + [b] == [a, b];
  }

  lemma RunsThree(d: Durations, s: Threads, a: Step, b: Step, c: Step)
    ensures Runs(d, s, [a, b, c]) == Act(d, Act(d, Act(d, s, a), b), c)
  {
    hide Act;
    RunsTwo(d, s, a, b);
    RunsOne(d, s, [a, b], c);
    assert [a, b] + [c] == [a, b, c];
  }

  /** Commands and a first cycle that reaches its target: the grasp phase may be entered next. */
  lemma ReachesGrasp(d: Durations, s: Threads)
    requires JustActivated(s)
    ensures var t := Runs(d, s,
        [Other(Command(MOVE_POSE_1)), Starts(Call(Executed, 0.0, true)), Other(Command(GRASP))]);
      && t.modes.taskCmd == GRASP && t.modes.lastCmd == MOVE_POSE_1 && t.modes.move1Finished
      && t.point == Between && t.grip == s.grip && t.history == s.history
  {
    RunsThree(d, s, Other(Command(MOVE_POSE_1)), Starts(Call(Executed, 0.0, true)), Other(Command(GRASP)));
  }

  /** The phase is entered, the request is stored, and a tick takes it. */
  lemma PublishesRequest(d: Durations, s: Threads)
    requires s.modes.taskCmd == GRASP && s.modes.lastCmd == MOVE_POSE_1 && s.modes.move1Finished
    requires s.point == Between && Unused(s.grip)
    ensures var call := Call(Executed, 0.0, false);
      Runs(d, s, [Starts(call), Goes, Other(TimerTick(false, true, true))]) ==
        Threads(s.modes.(lastCmd := GRASP, elapsed := 0.0, graspFinished := false), s.grip.(pending := SEND),
          Entering(call, 1), s.history.(late := 0))
  {
    var call := Call(Executed, 0.0, false);
    RunsThree(d, s, Starts(call), Goes, Other(TimerTick(false, true, true)));
    var t := Act(d, s, Starts(call));
    assert Act(d, t, Goes) == t.(grip := s.grip.(requestSendGrasp := true), point := Entering(call, 1));
  }

  function Popped(g: Grip, st: Store, rest: seq<Store>): Grip {
    Apply(g, st).(pending := rest)
  }

  lemma OneStore(d: Durations, s: Threads, st: Store, rest: seq<Store>)
    requires s.grip.pending == [st] + rest
    ensures Act(d, s, Other(NextStore)) == s.(grip := Popped(s.grip, st, rest))
  {
    assert ([st] + rest)[1..] == rest;
  }

  lemma ThreeStores(d: Durations, s: Threads, a: Store, b: Store, c: Store, rest: seq<Store>)
    requires s.grip.pending == [a] + ([b] + ([c] + rest))
    ensures Runs(d, s, [Other(NextStore), Other(NextStore), Other(NextStore)]) ==
      s.(grip := Popped(Popped(Popped(s.grip, a, [b] + ([c] + rest)), b, [c] + rest), c, rest))
  {
    hide Act, Apply;
    RunsThree(d, s, Other(NextStore), Other(NextStore), Other(NextStore));
    OneStore(d, s, a, [b] + ([c] + rest));
    var t := Act(d, s, Other(NextStore));
    OneStore(d, t, b, [c] + rest);
    OneStore(d, Act(d, t, Other(NextStore)), c, rest);
  }

  lemma PreparesSending(g: Grip, p: seq<Store>, q: seq<Store>, r: seq<Store>)
    ensures Popped(Popped(Popped(g, GoalSent(true), p), Active(true), q), Done(false), r) ==
      g.(goalSent := true, active := true, done := false, pending := r)
  {
  }

  lemma SendsGoal(g: Grip, p: seq<Store>, q: seq<Store>, r: seq<Store>)
    ensures Popped(Popped(Popped(g, Success(false), p), Reported(false), q), Send, r) ==
      g.(success := false, reported := false, goal := InFlight, pending := r)
  {
  }

  lemma StoresSuccess(g: Grip, p: seq<Store>, q: seq<Store>, r: seq<Store>)
    ensures Popped(Popped(Popped(g, Active(false), p), Done(true), q), Success(true), r) ==
      g.(active := false, done := true, success := true, pending := r)
  {
  }

  /** The goal is sent, answered with success, and the answer stored. */
  lemma AnswersAtOnce(d: Durations, s: Threads) returns (steps: seq<Step>)
    requires s.grip.pending == SEND && s.grip.goal == NotSent && !s.grip.requestSendGrasp
    ensures forall st :: st in steps ==> PossibleStep(st)
    ensures var t := Runs(d, s, steps);
      && t == s.(grip := t.grip, history := s.history.(succeeded := true))
      && t.grip.goal == Answered && t.grip.pending == [] && t.grip.done && t.grip.success && !t.grip.requestSendGrasp
  {
    hide Act, Runs, Popped;
    var three := [Other(NextStore), Other(NextStore), Other(NextStore)];
    var rest := [Success(false)] + ([Reported(false)] + ([Send] + []));
    assert SEND == [GoalSent(true)] + ([Active(true)] + ([Done(false)] + rest));
    ThreeStores(d, s, GoalSent(true), Active(true), Done(false), rest);
    PreparesSending(s.grip, [Active(true)] + ([Done(false)] + rest), [Done(false)] + rest, rest);
    var a := Runs(d, s, three);
    ThreeStores(d, a, Success(false), Reported(false), Send, []);
    SendsGoal(a.grip, [Reported(false)] + ([Send] + []), [Send] + [], []);
    RunsMore(d, s, three, three);
    var b := Runs(d, a, three);
    SuccessComesIn(d, b);
    RunsOne(d, s, three + three, Other(Result(true)));
    var c := Act(d, b, Other(Result(true)));
    assert Finished(true) == [Active(false)] + ([Done(true)] + ([Success(true)] + []));
    ThreeStores(d, c, Active(false), Done(true), Success(true), []);
    StoresSuccess(c.grip, [Done(true)] + ([Success(true)] + []), [Success(true)] + [], []);
    RunsMore(d, s, three + three + [Other(Result(true))], three);
    steps := three + three + [Other(Result(true))] + three;
  }

  lemma SuccessComesIn(d: Durations, s: Threads)
    requires s.grip.goal == InFlight && s.grip.pending == []
    ensures Act(d, s, Other(Result(true))) ==
      s.(grip := s.grip.(goal := Answered, pending := Finished(true)), history := s.history.(succeeded := true))
  {
  }

  /** The entry stores go on, wipe the answer out, and the cycle ends. */
  lemma WipesAnswerOut(d: Durations, s: Threads)
    requires s.point == Entering(Call(Executed, 0.0, false), 1) && s.modes.lastCmd == GRASP && !s.modes.graspFinished
    requires s.modes.elapsed == 0.0 <= d.grasp && s.grip.goal == Answered && s.grip.pending == []
    ensures Runs(d, s, [Goes, Goes, Goes] + [Goes, Goes, Goes] + [Goes]) ==
      s.(grip := s.grip.(goalSent := false, active := false, done := false, success := false, reported := false),
        point := Between)
  {
    hide Act, Runs;
    var call := Call(Executed, 0.0, false);
    RunsThree(d, s, Goes, Goes, Goes);
    var a := Runs(d, s, [Goes, Goes, Goes]);
    FirstResets(d, s, call);
    RunsThree(d, a, Goes, Goes, Goes);
    LastResets(d, a, call);
    var b := Runs(d, a, [Goes, Goes, Goes]);
    RunsMore(d, s, [Goes, Goes, Goes], [Goes, Goes, Goes]);
    RunsOne(d, s, [Goes, Goes, Goes] + [Goes, Goes, Goes], Goes);
    CycleGivesUp(d, b);
  }

  lemma FirstResets(d: Durations, s: Threads, call: Call)
    requires s.point == Entering(call, 1)
    ensures Act(d, Act(d, Act(d, s, Goes), Goes), Goes) ==
      s.(grip := s.grip.(goalSent := false, active := false, done := false), point := Entering(call, 4))
  {
  }

  lemma LastResets(d: Durations, s: Threads, call: Call)
    requires s.point == Entering(call, 4) && call == Call(Executed, 0.0, false)
    requires s.modes.lastCmd == GRASP && !s.modes.graspFinished && s.modes.elapsed == 0.0
    ensures Act(d, Act(d, Act(d, s, Goes), Goes), Goes) ==
      s.(grip := s.grip.(success := false, reported := false), point := LoadsDone)
  {
  }

  lemma CycleGivesUp(d: Durations, s: Threads)
    requires s.point == LoadsDone && !s.grip.done && s.modes.elapsed == 0.0 <= d.grasp && !s.modes.graspFinished
    ensures Act(d, s, Goes) == s.(point := Between)
  {
  }

  /** A run after any activation in which the goal succeeds and its success is wiped out: the answer arrives after the
      request was stored and before the entry stores have reset done. The grasp phase then ends only by its duration. */
  lemma LosesSuccess(d: Durations, s: Threads) returns (steps: seq<Step>)
    requires JustActivated(s) && d.grasp >= 0.0
    ensures forall st :: st in steps ==> PossibleStep(st)
    ensures var t := Runs(d, s, steps);
      && t.modes.lastCmd == GRASP && t.point == Between && !t.modes.graspFinished
      && t.history.succeeded && Lost(t.grip) && !t.grip.success && Waits(d, t)
  {
    var first := [Other(Command(MOVE_POSE_1)), Starts(Call(Executed, 0.0, true)), Other(Command(GRASP))];
    var second := [Starts(Call(Executed, 0.0, false)), Goes, Other(TimerTick(false, true, true))];
    var last := [Goes, Goes, Goes] + [Goes, Goes, Goes] + [Goes];
    ReachesGrasp(d, s);
    hide Runs, Act;
    var a := Runs(d, s, first);
    PublishesRequest(d, a);
    RunsMore(d, s, first, second);
    var b := Runs(d, a, second);
    var third := AnswersAtOnce(d, b);
    RunsMore(d, s, first + second, third);
    WipesAnswerOut(d, Runs(d, b, third));
    RunsMore(d, s, first + second + third, last);
    steps := first + second + third + last;
  }
}
