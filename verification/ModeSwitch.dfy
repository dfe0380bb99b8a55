/** The state of the hardware interface as a value, its steps, and what every run of them keeps. */
module ModeSwitch {
  import opened Wrappers
  import opened Driver

  type Buffers = map<Interface, seq<Double>>

  /** The interfaces whose buffer is seeded from the measured state before it is forwarded. */
  const SEEDED: set<Interface> := {JointPosition, Elbow, CartesianPose}

  /** claimed and running are the flags of each interface; unseeded holds the interfaces still awaiting their first
      update; control and flags are the driver's. */
  datatype State = State(claimed: set<Interface>, running: set<Interface>, unseeded: set<Interface>,
                         buffers: Buffers, control: Option<Interface>, flags: set<Interface>)

  ghost predicate Sized(b: Buffers) {
    b.Keys == ALL && forall i :: i in ALL ==> |b[i]| == i.Size()
  }

  function Zeros(n: nat): (z: seq<Double>)
    ensures |z| == n && forall k :: 0 <= k < n ==> z[k] == Finite(0.0)
  {
    seq(n, _ => Finite(0.0))
  }

  /** The modes in the order in which perform_command_mode_switch handles them. */
  const ORDER: seq<Interface> := [Effort, JointVelocity, JointPosition, CartesianVelocity, CartesianPose]

  function Rank(mode: Interface): (k: nat)
    requires mode != Elbow
    ensures k < |ORDER| && ORDER[k] == mode
  {
    match mode
    case Effort => 0
    case JointVelocity => 1
    case JointPosition => 2
    case CartesianVelocity => 3
    case CartesianPose => 4
  }

  lemma RankOfOrder(k: nat)
    requires k < |ORDER|
    ensures ORDER[k] != Elbow && Rank(ORDER[k]) == k
  {
  }

  // -------------------------------------------------------------------------
  // The steps
  // -------------------------------------------------------------------------

  function Stopped(s: State): State {
    if s.control == None then s else s.(control := None, flags := {})
  }

  function Started(s: State, mode: Interface): State {
    s.(control := Some(mode), flags := s.flags + {mode})
  }

  /** The block of one mode: start it when it is claimed and not running, stop it when it runs unclaimed. */
  function Block(s: State, mode: Interface): State {
    if mode in s.claimed && mode !in s.running then
      var withElbow := mode.Cartesian() && Elbow in s.claimed && Elbow !in s.running;
      var begun := {mode} + (if withElbow then {Elbow} else {});
      var clean := if mode in SEEDED then s.buffers else s.buffers[mode := Zeros(mode.Size())];
      Started(Stopped(s), mode).(running := s.running + begun, unseeded := s.unseeded + begun * SEEDED,
        buffers := clean)
    else if mode in s.running && mode !in s.claimed then
      var dropped := if mode.Cartesian() && Elbow in s.running then {Elbow} else {};
      Stopped(s).(running := s.running - {mode} - dropped, claimed := s.claimed - dropped)
    else s
  }

  /** The blocks from the k-th on. */
  function BlocksFrom(s: State, k: nat): State
    requires k <= |ORDER|
    decreases |ORDER| - k
  {
    if k == |ORDER| then s else BlocksFrom(Block(s, ORDER[k]), k + 1)
  }

  function Perform(s: State): State {
    BlocksFrom(s, 0)
  }

  /** The blocks written out. */
  lemma FiveBlocks(s: State)
    ensures Perform(s) ==
      Block(Block(Block(Block(Block(s, Effort), JointVelocity), JointPosition), CartesianVelocity), CartesianPose)
  {
    hide Block;
    var s1 := Block(s, Effort);
    var s2 := Block(s1, JointVelocity);
    var s3 := Block(s2, JointPosition);
    var s4 := Block(s3, CartesianVelocity);
    assert BlocksFrom(s4, 4) == BlocksFrom(Block(s4, CartesianPose), 5);
    assert BlocksFrom(s2, 2) == BlocksFrom(s3, 3);
    assert BlocksFrom(s, 0) == BlocksFrom(s1, 1);
  }

  /** Whether the switch reports success: the elbow must not be left claimed without a Cartesian mode. */
  predicate Accepted(s: State) {
    Elbow in s.claimed ==> CartesianVelocity in s.claimed || CartesianPose in s.claimed
  }

  function Measured(m: RobotState, i: Interface): seq<Double> {
    match i
    case JointPosition => m.q
    case Elbow => m.elbow
    case _ => m.pose
  }

  /** Reading seeds the buffers of the running interfaces that still await their first update. */
  function Read(s: State, m: RobotState): State {
    var now := s.unseeded * s.running * SEEDED;
    s.(unseeded := s.unseeded - now,
       buffers := map i | i in s.buffers :: if i in now then Measured(m, i) else s.buffers[i])
  }

  datatype WriteOutcome = NonFinite | Robot(result: WriteResult)

  predicate AllFinite(b: Buffers) {
    forall i | i in b :: forall k | 0 <= k < |b[i]| :: b[i][k].Finite?
  }

  /** The buffers write forwards: none, one, or a Cartesian one along with the elbow's. */
  datatype Source = NoBuffer | Single(mode: Interface) | AlongWithElbow(mode: Interface)

  /** Which buffers are due, in the order in which write tries the interfaces. */
  function Choose(s: State): Source {
    var forward := s.running - s.unseeded;
    if JointVelocity in s.running then Single(JointVelocity)
    else if Effort in s.running then Single(Effort)
    else if JointPosition in forward then Single(JointPosition)
    else if CartesianVelocity in s.running && Elbow in forward then AlongWithElbow(CartesianVelocity)
    else if CartesianPose in forward && Elbow in forward then AlongWithElbow(CartesianPose)
    else if CartesianPose in forward then Single(CartesianPose)
    else if CartesianVelocity in s.running && Elbow !in s.running then Single(CartesianVelocity)
    else NoBuffer
  }

  function Write(s: State): WriteOutcome
    requires ALL <= s.buffers.Keys
  {
    if !AllFinite(s.buffers) then NonFinite
    else
      match Choose(s)
      case NoBuffer => Robot(Nothing)
      case Single(mode) => Robot(Dispatch(s.control, s.flags, s.buffers[mode]))
      case AlongWithElbow(mode) => Robot(DispatchElbow(s.control, s.flags, s.buffers[mode], s.buffers[Elbow]))
  }

  // -------------------------------------------------------------------------
  // One switch
  // -------------------------------------------------------------------------

  /** The block of the mode acts: exactly one of claimed and running holds. */
  predicate Changed(s: State, mode: Interface) {
    mode in s.claimed <==> mode !in s.running
  }

  /** A block makes its own mode run exactly when claimed, and touches no other mode. */
  lemma BlockFacts(s: State, mode: Interface)
    requires mode != Elbow
    ensures var b := Block(s, mode);
      && (mode in b.running <==> mode in s.claimed)
      && (forall n :: n != mode && n != Elbow ==> (n in b.running <==> n in s.running))
      && (forall n :: n != Elbow ==> (n in b.claimed <==> n in s.claimed))
      && b.claimed <= s.claimed
      && b.control == (if !Changed(s, mode) then s.control else if mode in s.claimed then Some(mode) else None)
  {
  }

  lemma BlocksFacts(s: State, k: nat)
    requires k <= |ORDER|
    ensures var b := BlocksFrom(s, k);
      && (forall n :: n != Elbow ==> (n in b.running <==> n in (if Rank(n) >= k then s.claimed else s.running)))
      && (forall n :: n != Elbow ==> (n in b.claimed <==> n in s.claimed))
      && b.claimed <= s.claimed
    decreases |ORDER| - k
  {
    hide Block, Changed;
    if k < |ORDER| {
      RankOfOrder(k);
      BlockFacts(s, ORDER[k]);
      BlocksFacts(Block(s, ORDER[k]), k + 1);
    }
  }

  /** A switch ends with exactly the claimed modes running, and gives up no claim but that of the elbow. */
  lemma PerformRunsTheClaims(s: State)
    ensures forall n :: n != Elbow ==> (n in Perform(s).running <==> n in s.claimed)
    ensures forall n :: n != Elbow ==> (n in Perform(s).claimed <==> n in s.claimed)
    ensures Perform(s).claimed <= s.claimed
  {
    BlocksFacts(s, 0);
  }

  /** The last block that acts decides the driver: its mode if that is claimed, none otherwise. */
  ghost predicate LastChange(s: State, k: nat, mode: Interface) {
    && mode != Elbow && Rank(mode) >= k && Changed(s, mode)
    && forall n :: n != Elbow && Rank(n) > Rank(mode) ==> !Changed(s, n)
  }

  lemma ControlFollowsLastChange(s: State, k: nat, mode: Interface)
    requires k <= |ORDER| && LastChange(s, k, mode)
    ensures BlocksFrom(s, k).control == if mode in s.claimed then Some(mode) else None
    decreases |ORDER| - k
  {
    hide Block;
    RankOfOrder(k);
    BlockFacts(s, ORDER[k]);
    if Rank(mode) == k {
      NoChangeKeepsControl(Block(s, ORDER[k]), k + 1);
    } else {
      ControlFollowsLastChange(Block(s, ORDER[k]), k + 1, mode);
    }
  }

  lemma NoChangeKeepsControl(s: State, k: nat)
    requires k <= |ORDER| && forall n :: n != Elbow && Rank(n) >= k ==> !Changed(s, n)
    ensures BlocksFrom(s, k).control == s.control
    decreases |ORDER| - k
  {
    hide Block;
    if k < |ORDER| {
      RankOfOrder(k);
      BlockFacts(s, ORDER[k]);
      NoChangeKeepsControl(Block(s, ORDER[k]), k + 1);
    }
  }

  // -------------------------------------------------------------------------
  // The driver's flags
  // -------------------------------------------------------------------------

  function ControlFlags(control: Option<Interface>): set<Interface> {
    if control == None then {} else {control.value}
  }

  /** At most one driver flag is set, one is set exactly when a control is active, and it is that control's;
      the elbow runs only along with a Cartesian mode. */
  ghost predicate DriverConsistent(s: State) {
    && s.flags == ControlFlags(s.control)
    && (Elbow in s.running ==> CartesianVelocity in s.running || CartesianPose in s.running)
  }

  lemma BlockKeepsConsistency(s: State, mode: Interface)
    requires mode != Elbow && DriverConsistent(s)
    ensures DriverConsistent(Block(s, mode))
  {
  }

  lemma PerformKeepsConsistency(s: State, k: nat)
    requires k <= |ORDER| && DriverConsistent(s)
    ensures DriverConsistent(BlocksFrom(s, k))
    decreases |ORDER| - k
  {
    hide Block, DriverConsistent;
    if k < |ORDER| {
      RankOfOrder(k);
      BlockKeepsConsistency(s, ORDER[k]);
      PerformKeepsConsistency(Block(s, ORDER[k]), k + 1);
    }
  }

  // -------------------------------------------------------------------------
  // Agreement of driver and running flags
  // -------------------------------------------------------------------------

  /** Nothing runs and the driver is idle, or one mode runs and the driver controls it. */
  ghost predicate Agree(s: State) {
    DriverConsistent(s) && s.running - {Elbow} == ControlFlags(s.control)
  }

  ghost predicate AtMostOneModeClaimed(s: State) {
    forall m, n :: m in s.claimed && n in s.claimed && m != Elbow && n != Elbow ==> m == n
  }

  /** A running mode gives way to a mode that an earlier block handles. */
  ghost predicate MovesBack(s: State) {
    exists m, n :: m in s.running && n in s.claimed && m != Elbow && n != Elbow && m !in s.claimed && Rank(n) < Rank(m)
  }

  /** A switch keeps the agreement exactly when at most one mode is claimed and no running mode gives way to a mode of
      an earlier block, whose start the later block's stop would undo. */
  lemma AgreementIsKeptIff(s: State)
    requires Agree(s)
    ensures Agree(Perform(s)) <==> AtMostOneModeClaimed(s) && !MovesBack(s)
  {
    PerformRunsTheClaims(s);
    PerformKeepsConsistency(s, 0);
    hide Block, BlocksFrom;
    var t := Perform(s);
    if !AtMostOneModeClaimed(s) {
      var m, n :| m in s.claimed && n in s.claimed && m != Elbow && n != Elbow && m != n;
      assert m in t.running - {Elbow} && n in t.running - {Elbow};
    } else if c :| c in s.claimed && c != Elbow {
      assert t.running - {Elbow} == {c};
      if s.control.Some? && s.control.value != c {
        AgreementOnHandover(s, s.control.value, c);
      } else {
        AgreementOnStart(s, c);
      }
    } else {
      assert t.running - {Elbow} == {};
      AgreementOnStop(s);
    }
  }

  /** Handing over from mode r to mode c: the later of the two blocks decides. */
  lemma AgreementOnHandover(s: State, r: Interface, c: Interface)
    requires Agree(s) && s.control == Some(r) && c != r && c != Elbow
    requires s.claimed - {Elbow} == {c}
    ensures Perform(s).control == if Rank(r) > Rank(c) then None else Some(c)
    ensures MovesBack(s) <==> Rank(r) > Rank(c)
  {
    hide Block, BlocksFrom;
    var running, claimed := s.running - {Elbow}, s.claimed - {Elbow};
    assert r in running && c !in running && c in claimed && r !in claimed;
    assert forall n :: n != Elbow ==> (n in s.running <==> n in running) && (n in s.claimed <==> n in claimed);
    assert Changed(s, r) && Changed(s, c);
    assert forall n :: n != Elbow && n != r && n != c ==> !Changed(s, n);
    if Rank(r) > Rank(c) {
      ControlFollowsLastChange(s, 0, r);
    } else {
      assert ORDER[Rank(r)] == r && ORDER[Rank(c)] == c;
      ControlFollowsLastChange(s, 0, c);
    }
  }

  /** Starting from no mode, or keeping the mode. */
  lemma AgreementOnStart(s: State, c: Interface)
    requires Agree(s) && (s.control == None || s.control == Some(c)) && c != Elbow
    requires s.claimed - {Elbow} == {c}
    ensures Perform(s).control == Some(c) && !MovesBack(s)
  {
    hide Block, BlocksFrom;
    var running, claimed := s.running - {Elbow}, s.claimed - {Elbow};
    assert c in claimed;
    assert forall n :: n != Elbow ==> (n in s.running <==> n in running) && (n in s.claimed <==> n in claimed);
    assert forall n :: n != Elbow && n != c ==> !Changed(s, n);
    if s.control == None {
      ControlFollowsLastChange(s, 0, c);
    } else {
      NoChangeKeepsControl(s, 0);
    }
  }

  /** Ending in no mode. */
  lemma AgreementOnStop(s: State)
    requires Agree(s) && s.claimed - {Elbow} == {}
    ensures Perform(s).control == None && !MovesBack(s)
  {
    hide Block, BlocksFrom;
    var running, claimed := s.running - {Elbow}, s.claimed - {Elbow};
    assert forall n :: n != Elbow ==> (n in s.running <==> n in running) && (n in s.claimed <==> n in claimed);
    if s.control == None {
      NoChangeKeepsControl(s, 0);
    } else {
      var r := s.control.value;
      assert r in running;
      assert forall n :: n != Elbow && n != r ==> !Changed(s, n);
      ControlFollowsLastChange(s, 0, r);
    }
  }

  lemma ElbowStaysGone(s: State, k: nat)
    requires k <= |ORDER| && Elbow !in s.running && Elbow !in s.claimed
    ensures Elbow !in BlocksFrom(s, k).running && Elbow !in BlocksFrom(s, k).claimed
    decreases |ORDER| - k
  {
    if k < |ORDER| {
      RankOfOrder(k);
      ElbowStaysGone(Block(s, ORDER[k]), k + 1);
    }
  }

  /** When the Cartesian mode that carries the elbow gives way, the elbow is lost, claim and all, even to a switch
      that hands over to the other Cartesian mode and claims the elbow with it. */
  lemma HandoverDropsElbow(s: State, k: nat, r: Interface)
    requires k <= |ORDER| && Elbow in s.running
    requires r.Cartesian() && r in s.running && r !in s.claimed && Rank(r) >= k
    ensures Elbow !in BlocksFrom(s, k).running && Elbow !in BlocksFrom(s, k).claimed
    decreases |ORDER| - k
  {
    var b := Block(s, ORDER[k]);
    RankOfOrder(k);
    BlockFacts(s, ORDER[k]);
    if Elbow in b.running {
      HandoverDropsElbow(b, k + 1, r);
    } else {
      ElbowStaysGone(b, k + 1);
    }
  }

  predicate Starts(s: State, mode: Interface) {
    mode in s.claimed && mode !in s.running
  }

  predicate Stops(s: State, mode: Interface) {
    mode in s.running && mode !in s.claimed
  }

  /** The velocity mode stops and takes a running elbow along, claim and all. */
  predicate ElbowIsLost(s: State) {
    Stops(s, CartesianVelocity) && Elbow in s.running
  }

  /** The elbow runs after a switch: it is kept, or started with a Cartesian mode, and the pose mode does not take it
      along. */
  predicate ElbowRunsAfter(s: State) {
    && !Stops(s, CartesianPose)
    && (|| (Elbow in s.running && !ElbowIsLost(s))
        || (Elbow in s.claimed && (Starts(s, CartesianVelocity) || (Starts(s, CartesianPose) && !ElbowIsLost(s)))))
  }

  /** When the elbow runs and is claimed after a switch, for any claims and whatever ran before. */
  lemma ElbowAfterSwitch(s: State)
    ensures Elbow in Perform(s).running <==> ElbowRunsAfter(s)
    ensures Elbow in Perform(s).claimed <==>
      && Elbow in s.claimed && !ElbowIsLost(s)
      && !(Stops(s, CartesianPose) && (Elbow in s.running || Starts(s, CartesianVelocity)))
  {
    FiveBlocks(s);
    hide Block, BlocksFrom;
    var s1 := Block(s, Effort);
    var s2 := Block(s1, JointVelocity);
    var s3 := Block(s2, JointPosition);
    JointBlock(s, Effort);
    JointBlock(s1, JointVelocity);
    JointBlock(s2, JointPosition);
    CartesianBlock(s3, CartesianVelocity);
    CartesianBlock(Block(s3, CartesianVelocity), CartesianPose);
  }

  /** The block of a joint mode leaves the Cartesian modes and the elbow alone. */
  lemma JointBlock(s: State, mode: Interface)
    requires mode in JOINT_MODES
    ensures forall i :: i == Elbow || i.Cartesian() ==>
      (i in Block(s, mode).running <==> i in s.running) && (i in Block(s, mode).claimed <==> i in s.claimed)
  {
  }

  /** The block of a Cartesian mode takes a claimed elbow along when it starts, and any elbow when it stops. */
  lemma CartesianBlock(s: State, mode: Interface)
    requires mode.Cartesian()
    ensures var b := Block(s, mode);
      var starts, stops := mode in s.claimed && mode !in s.running, mode in s.running && mode !in s.claimed;
      && (Elbow in b.running <==> !stops && (Elbow in s.running || (starts && Elbow in s.claimed)))
      && (Elbow in b.claimed <==> Elbow in s.claimed && !(stops && Elbow in s.running))
      && (forall i: Interface :: i.Cartesian() && i != mode ==>
        (i in b.running <==> i in s.running) && (i in b.claimed <==> i in s.claimed))
  {
  }

  /** A running elbow keeps running exactly when the mode that carries it is kept. */
  lemma ElbowIsKeptIff(s: State)
    requires Agree(s) && Elbow in s.running
    ensures s.control.Some? && (Elbow in Perform(s).running <==> s.control.value in s.claimed)
  {
    ElbowAfterSwitch(s);
    hide BlocksFrom, Block;
    assert forall n :: n != Elbow ==> (n in s.running <==> n in s.running - {Elbow});
  }

  /** An elbow that does not run is started exactly when it is claimed along with a Cartesian mode that starts, unless
      that is the velocity mode and takes over from the pose mode, whose stop then takes the elbow back. */
  lemma ElbowIsStartedIff(s: State)
    requires Agree(s) && AtMostOneModeClaimed(s) && Elbow !in s.running
    ensures Elbow in Perform(s).running <==>
      && Elbow in s.claimed && CartesianPose !in s.running
      && exists c: Interface :: c.Cartesian() && c in s.claimed && c !in s.running
  {
    ElbowAfterSwitch(s);
    hide BlocksFrom, Block;
    assert forall n :: n != Elbow ==> (n in s.running <==> n in s.running - {Elbow});
    assert CartesianPose.Cartesian() && CartesianVelocity.Cartesian();
  }

  /** Taking over from the pose mode with the velocity mode and the elbow ends without either the elbow or a control,
      and reports success. */
  lemma ElbowIsTakenBack(s: State)
    requires Agree(s) && s.control == Some(CartesianPose) && s.claimed == {CartesianVelocity, Elbow}
    ensures var t := Perform(s);
      Elbow !in t.running && Elbow !in t.claimed && CartesianVelocity in t.running && t.control == None && Accepted(t)
  {
    assert s.claimed - {Elbow} == {CartesianVelocity};
    assert CartesianPose in s.running - {Elbow};
    AgreementOnHandover(s, CartesianPose, CartesianVelocity);
    PerformRunsTheClaims(s);
    ElbowAfterSwitch(s);
    hide Block, BlocksFrom;
  }

  /** A switch that claims the modes that run already does nothing at all. */
  lemma KeptModesDoNothing(s: State, k: nat)
    requires k <= |ORDER| && forall n :: n != Elbow ==> (n in s.claimed <==> n in s.running)
    ensures BlocksFrom(s, k) == s
    decreases |ORDER| - k
  {
    if k < |ORDER| {
      KeptModesDoNothing(s, k + 1);
    }
  }

  /** So an elbow claimed for a Cartesian mode that runs already is never started, although the switch reports
      success. */
  lemma ElbowIsNotAdded(s: State, c: Interface)
    requires Agree(s) && s.control == Some(c) && c.Cartesian() && s.claimed == {c, Elbow} && Elbow !in s.running
    ensures Perform(s) == s && Accepted(Perform(s)) && Elbow !in Perform(s).running
  {
    assert forall n :: n != Elbow ==> (n in s.running <==> n in s.running - {Elbow});
    KeptModesDoNothing(s, 0);
  }

  /** A switch zeroes the buffers of the velocity and effort modes it starts, and touches no other buffer. */
  lemma BuffersAfterSwitch(s: State, i: Interface)
    requires ALL <= s.buffers.Keys
    ensures ALL <= Perform(s).buffers.Keys
    ensures Perform(s).buffers[i] ==
      if (i == Effort || i == JointVelocity || i == CartesianVelocity) && Starts(s, i) then
        seq(if i == CartesianVelocity then 6 else 7, k => Finite(0.0))
      else s.buffers[i]
  {
    FiveBlocks(s);
    hide Block, BlocksFrom, Perform;
    EveryInterface(i);
    var s1 := Block(s, Effort);
    var s2 := Block(s1, JointVelocity);
    var s3 := Block(s2, JointPosition);
    var s4 := Block(s3, CartesianVelocity);
    BlockBuffers(s, Effort, i);
    BlockBuffers(s1, JointVelocity, i);
    BlockBuffers(s2, JointPosition, i);
    BlockBuffers(s3, CartesianVelocity, i);
    BlockBuffers(s4, CartesianPose, i);
    BlockFacts(s, Effort);
    BlockFacts(s1, JointVelocity);
    BlockFacts(s2, JointPosition);
    BlockFacts(s3, CartesianVelocity);
    BlockFacts(s4, CartesianPose);
  }

  lemma BlockBuffers(s: State, mode: Interface, i: Interface)
    requires mode != Elbow && i in s.buffers
    ensures i in Block(s, mode).buffers && s.buffers.Keys <= Block(s, mode).buffers.Keys
    ensures Block(s, mode).buffers[i] ==
      if i == mode && i !in SEEDED && Starts(s, i) then seq(i.Size(), k => Finite(0.0)) else s.buffers[i]
  {
  }

  /** A switch is refused exactly when the elbow is claimed, no Cartesian mode is, and no Cartesian mode stops that a
      running elbow goes with. */
  lemma RefusedIff(s: State)
    ensures !Accepted(Perform(s)) <==>
      && Elbow in s.claimed && CartesianVelocity !in s.claimed && CartesianPose !in s.claimed
      && !(Elbow in s.running && (CartesianVelocity in s.running || CartesianPose in s.running))
  {
    PerformRunsTheClaims(s);
    ElbowAfterSwitch(s);
    hide Perform;
  }

  /** The value is the part of the reading that belongs to the interface. */
  ghost predicate Shows(m: RobotState, i: Interface, value: seq<Double>) {
    && (i == JointPosition ==> value == m.q)
    && (i == Elbow ==> value == m.elbow)
    && (i == CartesianPose ==> value == m.pose)
  }

  /** A reading gives a running interface that awaits its first update its measured value, once, and changes no
      other. */
  lemma ReadSeeds(s: State, m: RobotState, i: Interface)
    requires i in s.buffers
    ensures i in Read(s, m).buffers
    ensures i in SEEDED && i in s.running && i in s.unseeded ==>
      Shows(m, i, Read(s, m).buffers[i]) && i !in Read(s, m).unseeded
    ensures !(i in SEEDED && i in s.running && i in s.unseeded) ==>
      Read(s, m).buffers[i] == s.buffers[i] && (i in Read(s, m).unseeded <==> i in s.unseeded)
  {
  }

  // -------------------------------------------------------------------------
  // Writing
  // -------------------------------------------------------------------------

  /** What write can forward, the most urgent first. */
  const PRIORITY: seq<Source> :=
    [Single(JointVelocity), Single(Effort), Single(JointPosition), AlongWithElbow(CartesianVelocity),
     AlongWithElbow(CartesianPose), Single(CartesianPose), Single(CartesianVelocity)]

  /** The interfaces of the buffers run and await no first update; a Cartesian velocity goes alone only without an
      elbow. */
  predicate Due(s: State, c: Source) {
    match c
    case NoBuffer => false
    case Single(mode) =>
      && mode in s.running && !(mode in SEEDED && mode in s.unseeded)
      && !(mode == CartesianVelocity && Elbow in s.running)
    case AlongWithElbow(mode) =>
      && mode in s.running && Elbow in s.running && Elbow !in s.unseeded && !(mode in SEEDED && mode in s.unseeded)
  }

  /** Write forwards the first of them that is due, if any is. */
  lemma ChoosesFirstDue(s: State, k: nat)
    requires k < |PRIORITY|
    ensures Choose(s) == PRIORITY[k] <==> Due(s, PRIORITY[k]) && forall j :: 0 <= j < k ==> !Due(s, PRIORITY[j])
    ensures Choose(s) == NoBuffer <==> forall j :: 0 <= j < |PRIORITY| ==> !Due(s, PRIORITY[j])
  {
    FirstDue(s);
  }

  lemma FirstDue(s: State)
    ensures Choose(s) == NoBuffer || exists k :: 0 <= k < |PRIORITY| && Choose(s) == PRIORITY[k]
    ensures forall k, j :: 0 <= j < k < |PRIORITY| ==> PRIORITY[j] != PRIORITY[k]
    ensures forall k :: 0 <= k < |PRIORITY| && Choose(s) == PRIORITY[k] ==>
      Due(s, PRIORITY[k]) && forall j :: 0 <= j < k ==> !Due(s, PRIORITY[j])
    ensures Choose(s) == NoBuffer ==> forall j :: 0 <= j < |PRIORITY| ==> !Due(s, PRIORITY[j])
  {
    var c := Choose(s);
    assert c == NoBuffer || c == PRIORITY[0] || c == PRIORITY[1] || c == PRIORITY[2] || c == PRIORITY[3]
        || c == PRIORITY[4] || c == PRIORITY[5] || c == PRIORITY[6];
  }

  /** What write does in agreement: it sends the running mode's buffer, and the elbow's where one is due, unchanged to
      the control of that mode, or it waits for the first update. */
  ghost predicate SendsRunningMode(s: State, w: WriteOutcome)
    requires s.buffers.Keys == ALL
  {
    if s.control == None then w == Robot(Nothing)
    else
      var mode := s.control.value;
      var elbow := if Elbow in s.running - s.unseeded then Some(s.buffers[Elbow]) else None;
      w == Robot(if Waits(s, mode) then Nothing
        else Sent(DriverCommand(mode, s.buffers[mode], if mode.Cartesian() then elbow else None)))
  }

  /** The mode awaits its first update, or it is the Cartesian velocity mode and its elbow does. */
  predicate Waits(s: State, mode: Interface) {
    || (mode in SEEDED && mode in s.unseeded)
    || (mode == CartesianVelocity && Elbow in s.running && Elbow in s.unseeded)
  }

  /** In agreement and with finite buffers, write never reaches one of the exceptions. */
  lemma WriteInAgreement(s: State)
    requires Agree(s) && Sized(s.buffers) && AllFinite(s.buffers)
    ensures SendsRunningMode(s, Write(s))
  {
    var running := s.running - {Elbow};
    assert forall n :: n != Elbow ==> (n in s.running <==> n in running);
    if s.control.Some? {
      var mode := s.control.value;
      assert s.flags == {mode} && mode in running;
      assert |s.buffers[mode]| == mode.Size() && |s.buffers[Elbow]| == 2;
      DispatchMatchesControl(mode, s.buffers[mode]);
    }
  }

  /** After a switch back the new mode runs without a control, and once it is due its write throws. */
  lemma WriteAfterMovingBack(s: State, m: RobotState)
    requires Agree(s) && Sized(s.buffers) && m.Sized() && AtMostOneModeClaimed(s) && MovesBack(s)
    ensures Perform(s).buffers.Keys == ALL
    ensures AllFinite(Read(Perform(s), m).buffers) ==> Write(Read(Perform(s), m)) == Robot(NotStarted)
  {
    PerformRunsTheClaims(s);
    PerformKeepsConsistency(s, 0);
    BlocksKeepSizes(s, 0);
    hide Block, BlocksFrom, Write, AllFinite;
    var r, c := HandoverOf(s);
    AgreementOnHandover(s, r, c);
    hide MovesBack, AtMostOneModeClaimed, Agree;
    var t := Read(Perform(s), m);
    assert forall n :: n != Elbow ==> (n in Perform(s).running <==> n == c);
    if AllFinite(t.buffers) {
      WriteWithoutControl(t, c);
    }
  }

  lemma HandoverOf(s: State) returns (r: Interface, c: Interface)
    requires Agree(s) && AtMostOneModeClaimed(s) && MovesBack(s)
    ensures s.control == Some(r) && c != r && c != Elbow && s.claimed - {Elbow} == {c} && Rank(r) > Rank(c)
  {
    r, c :| r in s.running && c in s.claimed && r != Elbow && c != Elbow && r !in s.claimed && Rank(c) < Rank(r);
    assert r in s.running - {Elbow};
  }

  lemma WriteWithoutControl(t: State, c: Interface)
    requires t.buffers.Keys == ALL && AllFinite(t.buffers) && t.control == None && c != Elbow
    requires forall n :: n != Elbow ==> (n in t.running <==> n == c)
    requires t.unseeded * t.running * SEEDED == {}
    ensures Write(t) == Robot(NotStarted)
  {
    assert forall n :: n in t.running && n in SEEDED ==> n !in t.unseeded by {
      forall n | n in t.running && n in SEEDED ensures n !in t.unseeded {
        assert n !in t.unseeded * t.running * SEEDED;
      }
    }
  }

  lemma BlocksKeepSizes(s: State, k: nat)
    requires k <= |ORDER| && Sized(s.buffers)
    ensures Sized(BlocksFrom(s, k).buffers)
    decreases |ORDER| - k
  {
    if k < |ORDER| {
      RankOfOrder(k);
      assert Sized(Block(s, ORDER[k]).buffers);
      BlocksKeepSizes(Block(s, ORDER[k]), k + 1);
    }
  }

  // -------------------------------------------------------------------------
  // Runs
  // -------------------------------------------------------------------------

  /** What can happen between two states: the controller manager changes the claims, performs a switch, reads, or
      writes; controllers fill the buffers; the hardware is deactivated. */
  datatype Event = Claims(claimed: set<Interface>) | Switch | Reading(measured: RobotState) | Writing
                 | Commands(buffers: Buffers) | Deactivate

  ghost predicate Possible(e: Event) {
    (e.Reading? ==> e.measured.Sized()) && (e.Commands? ==> Sized(e.buffers))
  }

  function Next(s: State, e: Event): State {
    match e
    case Claims(claimed) => s.(claimed := claimed)
    case Switch => Perform(s)
    case Reading(m) => Read(s, m)
    case Writing => s
    case Commands(buffers) => s.(buffers := buffers)
    case Deactivate => Stopped(s)
  }

  function Run(s: State, events: seq<Event>): State {
    if events == [] then s else Next(Run(s, events[..|events| - 1]), events[|events| - 1])
  }

  ghost predicate Initial(s: State) {
    && s.claimed == {} && s.running == {} && s.unseeded == SEEDED
    && s.control == None && s.flags == {} && Sized(s.buffers)
  }

  /** In every reachable state the driver's flags are consistent and the buffers have their sizes. */
  lemma RunKeepsDriverConsistent(s: State, events: seq<Event>)
    requires Initial(s) && forall e :: e in events ==> Possible(e)
    ensures DriverConsistent(Run(s, events)) && Sized(Run(s, events).buffers)
  {
    if events != [] {
      var before, e := events[..|events| - 1], events[|events| - 1];
      RunKeepsDriverConsistent(s, before);
      assert e in events;
      if e.Switch? {
        PerformKeepsConsistency(Run(s, before), 0);
        BlocksKeepSizes(Run(s, before), 0);
      }
    }
  }

  lemma RunStep(s: State, events: seq<Event>, e: Event)
    ensures Run(s, events + [e]) == Next(Run(s, events), e)
  {
    assert (events + [e])[..|events|] == events;
  }

  /** Claiming modes when nothing runs, and switching. */
  lemma RunOfStart(s: State, claimed: set<Interface>)
    ensures Run(s, [Claims(claimed), Switch]) == Perform(s.(claimed := claimed))
  {
    RunStep(s, [], Claims(claimed));
    RunStep(s, [Claims(claimed)], Switch);
    assert [] + [Claims(claimed)] == [Claims(claimed)];
    assert [Claims(claimed)] + [Switch] == [Claims(claimed), Switch];
  }

  /** From one mode to another, and a reading. */
  lemma RunOfHandover(s: State, from: set<Interface>, to: set<Interface>, m: RobotState)
    ensures Run(s, [Claims(from), Switch, Claims(to), Switch, Reading(m)]) ==
      Read(Perform(Perform(s.(claimed := from)).(claimed := to)), m)
  {
    hide Perform, Read;
    var first := [Claims(from), Switch];
    RunOfStart(s, from);
    RunStep(s, first, Claims(to));
    assert first + [Claims(to)] == [Claims(from), Switch, Claims(to)];
    RunStep(s, [Claims(from), Switch, Claims(to)], Switch);
    assert [Claims(from), Switch, Claims(to)] + [Switch] == [Claims(from), Switch, Claims(to), Switch];
    RunStep(s, [Claims(from), Switch, Claims(to), Switch], Reading(m));
    assert [Claims(from), Switch, Claims(to), Switch] + [Reading(m)] ==
      [Claims(from), Switch, Claims(to), Switch, Reading(m)];
  }

  /** A run that moves back: from the pose mode to the effort mode, which then runs without a control, so that the write
      after the next reading throws. */
  lemma MoveBackRun(s: State, m: RobotState)
    requires Initial(s) && AllFinite(s.buffers) && m.Sized() && FiniteState(m)
    ensures var t := Run(s, [Claims({CartesianPose}), Switch, Claims({Effort}), Switch, Reading(m)]);
      t.running == {Effort} && t.control == None && t.buffers.Keys == ALL && Write(t) == Robot(NotStarted)
  {
    var a := s.(claimed := {CartesianPose});
    var c := Perform(a).(claimed := {Effort});
    RunOfHandover(s, {CartesianPose}, {Effort}, m);
    assert a.claimed - {Elbow} == {CartesianPose} && c.claimed - {Elbow} == {Effort};
    assert a.running - {Elbow} == {};
    BlocksKeepFinite(a, 0);
    BlocksKeepSizes(a, 0);
    BlocksKeepFinite(c, 0);
    hide Block, BlocksFrom, Write, AllFinite;
    AgreementOnStart(a, CartesianPose);
    AgreementIsKeptIff(a);
    AgreementOnHandover(c, CartesianPose, Effort);
    WriteAfterMovingBack(c, m);
    ReadKeepsFinite(Perform(c), m);
    PerformRunsTheClaims(c);
    ElbowAfterSwitch(a);
    ElbowAfterSwitch(c);
  }

  predicate FiniteState(m: RobotState) {
    forall i | i in SEEDED :: forall k | 0 <= k < |Measured(m, i)| :: Measured(m, i)[k].Finite?
  }

  lemma BlocksKeepFinite(s: State, k: nat)
    requires k <= |ORDER| && AllFinite(s.buffers)
    ensures AllFinite(BlocksFrom(s, k).buffers)
    decreases |ORDER| - k
  {
    if k < |ORDER| {
      RankOfOrder(k);
      assert AllFinite(Block(s, ORDER[k]).buffers);
      BlocksKeepFinite(Block(s, ORDER[k]), k + 1);
    }
  }

  lemma ReadKeepsFinite(s: State, m: RobotState)
    requires AllFinite(s.buffers) && FiniteState(m)
    ensures AllFinite(Read(s, m).buffers)
  {
  }

  /** Every switch of the run is made with at most one mode claimed and does not move back, and the hardware stays
      active. */
  ghost predicate Orderly(s: State, events: seq<Event>) {
    forall i :: 0 <= i < |events| ==>
      && events[i] != Deactivate
      && (events[i].Switch? ==> AtMostOneModeClaimed(Run(s, events[..i])) && !MovesBack(Run(s, events[..i])))
  }

  /** Throughout an orderly run driver and running flags agree, so no write with finite buffers throws. */
  lemma {:induction false} OrderlyRunNeverThrows(s: State, events: seq<Event>)
    requires Initial(s) && Orderly(s, events) && forall e :: e in events ==> Possible(e)
    ensures Agree(Run(s, events)) && Sized(Run(s, events).buffers)
    ensures AllFinite(Run(s, events).buffers) ==> SendsRunningMode(Run(s, events), Write(Run(s, events)))
  {
    hide SendsRunningMode, Write;
    OrderlyRunKeepsAgreement(s, events);
    RunKeepsDriverConsistent(s, events);
    if AllFinite(Run(s, events).buffers) {
      WriteInAgreement(Run(s, events));
    }
  }

  lemma {:induction false} OrderlyRunKeepsAgreement(s: State, events: seq<Event>)
    requires Initial(s) && Orderly(s, events)
    ensures Agree(Run(s, events))
  {
    hide Block, BlocksFrom, Perform, Orderly;
    if events != [] {
      var n := |events| - 1;
      OrderlyPrefix(s, events);
      OrderlyRunKeepsAgreement(s, events[..n]);
      if events[n].Switch? {
        AgreementIsKeptIff(Run(s, events[..n]));
      }
    }
  }

  lemma OrderlyPrefix(s: State, events: seq<Event>)
    requires Orderly(s, events) && events != []
    ensures var before, e := events[..|events| - 1], events[|events| - 1];
      && Orderly(s, before) && e != Deactivate
      && (e.Switch? ==> AtMostOneModeClaimed(Run(s, before)) && !MovesBack(Run(s, before)))
  {
    var before := events[..|events| - 1];
    forall i | 0 <= i < |before| ensures before[i] == events[i] && before[..i] == events[..i] {
    }
  }

  // -------------------------------------------------------------------------
  // Bumpless start
  // -------------------------------------------------------------------------

  /** The interface was started by the last event of the run. */
  ghost predicate JustStarted(s: State, events: seq<Event>, i: Interface)
    requires events != []
  {
    i !in Run(s, events[..|events| - 1]).running && i in Run(s, events).running
  }

  /** What the first reading since the last start of the interface measured for it, if there was one. */
  ghost function Seed(s: State, events: seq<Event>, i: Interface): Option<seq<Double>> {
    if events == [] then None
    else
      var before, e := events[..|events| - 1], events[|events| - 1];
      if JustStarted(s, events, i) then None
      else if e.Reading? && i in Run(s, before).running && Seed(s, before, i) == None then Some(Measured(e.measured, i))
      else Seed(s, before, i)
  }

  /** No controller wrote the buffers since the interface was seeded. */
  ghost predicate Untouched(s: State, events: seq<Event>, i: Interface) {
    events != [] && Seed(s, events, i).Some? &&
    var before, e := events[..|events| - 1], events[|events| - 1];
    !e.Commands? && (Seed(s, before, i) == Seed(s, events, i) ==> Untouched(s, before, i))
  }

  /** The value was measured by the first reading since the last start of the interface: it has run ever since. */
  ghost predicate MeasuredSinceStart(s: State, events: seq<Event>, i: Interface, value: seq<Double>) {
    exists k :: 0 <= k < |events| && MeasuredAt(s, events, i, value, k)
  }

  ghost predicate MeasuredAt(s: State, events: seq<Event>, i: Interface, value: seq<Double>, k: nat)
    requires k < |events|
  {
    && events[k].Reading? && Shows(events[k].measured, i, value) && i in Run(s, events[..k]).unseeded
    && forall j :: k <= j <= |events| ==> i in Run(s, events[..j]).running
  }

  lemma SeedWasMeasured(s: State, events: seq<Event>, i: Interface)
    requires Initial(s) && (forall e :: e in events ==> Possible(e)) && i in SEEDED
    requires i in Run(s, events).running && Seed(s, events, i).Some?
    ensures MeasuredSinceStart(s, events, i, Seed(s, events, i).value)
  {
    hide Next, MeasuredAt;
    var n := |events| - 1;
    if events[n].Reading? && Seed(s, events[..n], i) == None {
      UnseededUntilRead(s, events[..n], i);
      MeasuredNow(s, events, i);
    } else {
      var v := Seed(s, events, i).value;
      SeedWasMeasured(s, events[..n], i);
      var k :| 0 <= k < n && MeasuredAt(s, events[..n], i, v, k);
      MeasuredStill(s, events, i, v, k);
    }
  }

  lemma MeasuredNow(s: State, events: seq<Event>, i: Interface)
    requires events != [] && i in SEEDED
    requires var n := |events| - 1;
      && events[n].Reading? && i in Run(s, events[..n]).unseeded
      && i in Run(s, events[..n]).running && i in Run(s, events).running
    ensures MeasuredAt(s, events, i, Measured(events[|events| - 1].measured, i), |events| - 1)
  {
    hide Run;
    assert events[..|events|] == events;
  }

  lemma MeasuredStill(s: State, events: seq<Event>, i: Interface, v: seq<Double>, k: nat)
    requires k < |events| - 1 && MeasuredAt(s, events[..|events| - 1], i, v, k) && i in Run(s, events).running
    ensures MeasuredAt(s, events, i, v, k)
  {
    hide Run;
    var before := events[..|events| - 1];
    assert before[..k] == events[..k] && events[..|events|] == events;
    forall j | k <= j <= |events| ensures i in Run(s, events[..j]).running {
      if j < |events| {
        assert before[..j] == events[..j];
      }
    }
  }

  lemma BlockStarts(s: State, mode: Interface, i: Interface)
    requires mode != Elbow && i in SEEDED
    ensures var b := Block(s, mode);
      && (i !in s.running && i in b.running ==> i in b.unseeded)
      && (i in s.running && i in b.running ==> (i in b.unseeded <==> i in s.unseeded))
      && (i in s.buffers ==> i in b.buffers && b.buffers[i] == s.buffers[i])
  {
  }

  lemma BlocksStart(s: State, k: nat, i: Interface)
    requires k <= |ORDER| && i in SEEDED
    ensures var b := BlocksFrom(s, k);
      && (i !in s.running && i in b.running ==> i in b.unseeded)
      && (i in s.running && i in b.running ==> (i in b.unseeded <==> i in s.unseeded))
      && (i in s.buffers ==> i in b.buffers && b.buffers[i] == s.buffers[i])
    decreases |ORDER| - k
  {
    if k < |ORDER| {
      RankOfOrder(k);
      var b := Block(s, ORDER[k]);
      BlockStarts(s, ORDER[k], i);
      BlocksStart(b, k + 1, i);
      if i in s.running && i !in b.running {
        if i == Elbow {
          ElbowStaysGone(b, k + 1);
        } else {
          BlocksFacts(b, k + 1);
        }
      }
    }
  }

  /** A running interface awaits its first update exactly while nothing was read since its last start, and its buffer
      holds what that reading measured until a controller writes it. */
  lemma UnseededUntilRead(s: State, events: seq<Event>, i: Interface)
    requires Initial(s) && (forall e :: e in events ==> Possible(e)) && i in SEEDED
    ensures i in Run(s, events).running ==> (i in Run(s, events).unseeded <==> Seed(s, events, i) == None)
    ensures Run(s, events).buffers.Keys == ALL
    ensures i in Run(s, events).running && Untouched(s, events, i) ==>
      Run(s, events).buffers[i] == Seed(s, events, i).value
  {
    RunKeepsDriverConsistent(s, events);
    if events != [] {
      var before, e := events[..|events| - 1], events[|events| - 1];
      RunKeepsDriverConsistent(s, before);
      UnseededUntilRead(s, before, i);
      hide Block, BlocksFrom, DriverConsistent;
      if e.Switch? {
        BlocksStart(Run(s, before), 0, i);
      }
    }
  }

  /** The parts of an outcome that carry a seeded interface's values. */
  ghost predicate Forwards(w: WriteOutcome, i: Interface) {
    w.Robot? && w.result.Sent? && (if i == Elbow then w.result.command.elbow.Some? else w.result.command.kind == i)
  }

  ghost function Forwarded(w: WriteOutcome, i: Interface): seq<Double>
    requires Forwards(w, i)
  {
    if i == Elbow then w.result.command.elbow.value else w.result.command.values
  }

  /** Write forwards the buffer of the interface. */
  predicate Chosen(c: Source, i: Interface) {
    c == Single(i) || c == AlongWithElbow(i) || (c.AlongWithElbow? && i == Elbow)
  }

  /** Over every run, restarts included, write forwards no position, pose or elbow buffer before a reading after the
      start of its interface, and until a controller writes the buffer is exactly what that reading measured. */
  lemma BumplessStart(s: State, events: seq<Event>, i: Interface)
    requires Initial(s) && (forall e :: e in events ==> Possible(e)) && i in SEEDED
    requires Chosen(Choose(Run(s, events)), i)
    ensures i in Run(s, events).running && Seed(s, events, i).Some?
    ensures Run(s, events).buffers.Keys == ALL
    ensures Untouched(s, events, i) ==> Run(s, events).buffers[i] == Seed(s, events, i).value
    ensures Untouched(s, events, i) ==> MeasuredSinceStart(s, events, i, Run(s, events).buffers[i])
  {
    UnseededUntilRead(s, events, i);
    SeedWasMeasured(s, events, i);
  }

  /** An active control is that of a running mode. */
  ghost predicate Controlled(s: State) {
    s.control.Some? ==> s.control.value != Elbow && s.control.value in s.running
  }

  lemma BlocksKeepControlled(s: State, k: nat)
    requires k <= |ORDER| && Controlled(s)
    ensures Controlled(BlocksFrom(s, k))
    decreases |ORDER| - k
  {
    if k < |ORDER| {
      RankOfOrder(k);
      assert Controlled(Block(s, ORDER[k]));
      BlocksKeepControlled(Block(s, ORDER[k]), k + 1);
    }
  }

  lemma RunKeepsControlled(s: State, events: seq<Event>)
    requires Initial(s)
    ensures Controlled(Run(s, events))
  {
    if events != [] {
      var before := Run(s, events[..|events| - 1]);
      RunKeepsControlled(s, events[..|events| - 1]);
      BlocksKeepControlled(before, 0);
      hide BlocksFrom;
    }
  }

  /** Every switch of the run is made with at most one mode claimed. */
  ghost predicate Exclusive(s: State, events: seq<Event>) {
    forall i :: 0 <= i < |events| && events[i].Switch? ==> AtMostOneModeClaimed(Run(s, events[..i]))
  }

  ghost predicate AtMostOneModeRuns(s: State) {
    forall m, n :: m in s.running && n in s.running && m != Elbow && n != Elbow ==> m == n
  }

  lemma ExclusivePrefix(s: State, events: seq<Event>)
    requires Exclusive(s, events) && events != []
    ensures Exclusive(s, events[..|events| - 1])
    ensures events[|events| - 1].Switch? ==> AtMostOneModeClaimed(Run(s, events[..|events| - 1]))
  {
    var before := events[..|events| - 1];
    forall i | 0 <= i < |before| ensures before[i] == events[i] && before[..i] == events[..i] {
    }
  }

  lemma {:induction false} ExclusiveRunKeepsOneMode(s: State, events: seq<Event>)
    requires Initial(s) && Exclusive(s, events)
    ensures AtMostOneModeRuns(Run(s, events))
  {
    hide Block, BlocksFrom, Perform, Exclusive;
    if events != [] {
      var n := |events| - 1;
      ExclusivePrefix(s, events);
      ExclusiveRunKeepsOneMode(s, events[..n]);
      PerformRunsTheClaims(Run(s, events[..n]));
    }
  }

  /** Over every run whose switches claim at most one mode, also with switches back and after a deactivation, the same
      holds of the command that reaches the driver. */
  lemma BumplessCommands(s: State, events: seq<Event>, i: Interface)
    requires Initial(s) && Exclusive(s, events) && (forall e :: e in events ==> Possible(e)) && i in SEEDED
    ensures Run(s, events).buffers.Keys == ALL
    ensures Forwards(Write(Run(s, events)), i) ==> i in Run(s, events).running && Seed(s, events, i).Some?
    ensures Forwards(Write(Run(s, events)), i) && Untouched(s, events, i) ==>
      Forwarded(Write(Run(s, events)), i) == Seed(s, events, i).value
    ensures Forwards(Write(Run(s, events)), i) && Untouched(s, events, i) ==>
      MeasuredSinceStart(s, events, i, Forwarded(Write(Run(s, events)), i))
  {
    RunKeepsDriverConsistent(s, events);
    RunKeepsControlled(s, events);
    ExclusiveRunKeepsOneMode(s, events);
    UnseededUntilRead(s, events, i);
    var t := Run(s, events);
    if i in Run(s, events).running && Seed(s, events, i).Some? {
      SeedWasMeasured(s, events, i);
    }
    hide Write, Run, Seed, Untouched, Exclusive, MeasuredSinceStart;
    if !AllFinite(t.buffers) {
      NonFiniteSendsNothing(t);
    } else if t.control == None {
      IdleSendsNothing(t);
    } else {
      assert t.running - {Elbow} == {t.control.value};
      WriteInAgreement(t);
    }
  }

  lemma IdleSendsNothing(s: State)
    requires s.buffers.Keys == ALL && AllFinite(s.buffers) && s.control == None
    ensures Write(s) == Robot(Nothing) || Write(s) == Robot(NotStarted)
  {
  }

  lemma NonFiniteSendsNothing(s: State)
    requires s.buffers.Keys == ALL && !AllFinite(s.buffers)
    ensures Write(s) == NonFinite
  {
  }

  // -------------------------------------------------------------------------
  // Several modes at once
  // -------------------------------------------------------------------------

  /** Write sends a command to an interface that still awaits its first update. */
  ghost predicate SendsUnseeded(s: State)
    requires s.buffers.Keys == ALL
  {
    exists i :: i in SEEDED && i in s.unseeded && Forwards(Write(s), i)
  }

  /** In every reachable state write sends an unseeded command exactly when the driver controls positions or poses that
      still await their first update, and another mode's buffer is due that is not too long for it. */
  lemma SendsUnseededIff(s: State)
    requires DriverConsistent(s) && Controlled(s) && Sized(s.buffers) && AllFinite(s.buffers)
    ensures SendsUnseeded(s) <==>
      && (s.control == Some(JointPosition) || s.control == Some(CartesianPose)) && s.control.value in s.unseeded
      && Choose(s).Single? && Choose(s).mode.Size() <= s.control.value.Size()
  {
    var c := Choose(s);
    assert c.AlongWithElbow? ==> Elbow in s.running - s.unseeded;
    if c.Single? {
      assert |s.buffers[c.mode]| == c.mode.Size();
      if s.control == Some(JointPosition) || s.control == Some(CartesianPose) {
        assert s.flags == {s.control.value};
        DispatchOfAnyBuffer(s.control.value, s.buffers[c.mode]);
        assert c.mode.Size() <= s.control.value.Size() ==> Forwards(Write(s), s.control.value);
      }
    }
  }

  /** So over every run, whatever is claimed. */
  lemma RunSendsUnseededIff(s: State, events: seq<Event>)
    requires Initial(s) && (forall e :: e in events ==> Possible(e)) && AllFinite(Run(s, events).buffers)
    ensures var t := Run(s, events);
      && t.buffers.Keys == ALL
      && (SendsUnseeded(t) <==>
            && (t.control == Some(JointPosition) || t.control == Some(CartesianPose)) && t.control.value in t.unseeded
            && Choose(t).Single? && Choose(t).mode.Size() <= t.control.value.Size())
  {
    hide Run, Choose, SendsUnseeded, AllFinite;
    RunKeepsDriverConsistent(s, events);
    RunKeepsControlled(s, events);
    SendsUnseededIff(Run(s, events));
  }

  /** The control after a switch: the last block that acts decides. */
  function ControlAfter(s: State): Option<Interface> {
    if Changed(s, CartesianPose) then StartedControl(s, CartesianPose)
    else if Changed(s, CartesianVelocity) then StartedControl(s, CartesianVelocity)
    else if Changed(s, JointPosition) then StartedControl(s, JointPosition)
    else if Changed(s, JointVelocity) then StartedControl(s, JointVelocity)
    else if Changed(s, Effort) then StartedControl(s, Effort)
    else s.control
  }

  function StartedControl(s: State, mode: Interface): Option<Interface> {
    if mode in s.claimed then Some(mode) else None
  }

  lemma ControlAfterSwitch(s: State)
    ensures Perform(s).control == ControlAfter(s)
  {
    hide Block, BlocksFrom, Changed;
    if mode :| mode != Elbow && Changed(s, mode) && forall n :: n != Elbow && Rank(n) > Rank(mode) ==> !Changed(s, n) {
      ControlFollowsLastChange(s, 0, mode);
    } else {
      assert forall n :: n != Elbow ==> !Changed(s, n) by {
        NoLastChange(s);
      }
      NoChangeKeepsControl(s, 0);
    }
  }

  lemma NoLastChange(s: State)
    requires !exists mode :: mode != Elbow && Changed(s, mode) && forall n :: n != Elbow && Rank(n) > Rank(mode) ==>
      !Changed(s, n)
    ensures forall n :: n != Elbow ==> !Changed(s, n)
  {
    hide Changed;
    assert !Changed(s, CartesianPose);
    assert !Changed(s, CartesianVelocity);
    assert !Changed(s, JointPosition);
    assert !Changed(s, JointVelocity);
  }

  /** The interface, claimed, still awaits its first update after a switch. */
  predicate Awaits(s: State, i: Interface) {
    i !in s.running || i in s.unseeded
  }

  predicate EffortsClaimed(s: State) {
    Effort in s.claimed || JointVelocity in s.claimed
  }

  /** After the switch the driver controls positions or poses that await their first update, and write finds the
      buffer of another claimed mode due. */
  predicate Bumps(s: State) {
    match ControlAfter(s)
    case Some(CartesianPose) =>
      && Awaits(s, CartesianPose)
      && (|| EffortsClaimed(s)
          || (JointPosition in s.claimed && !Awaits(s, JointPosition))
          || (CartesianVelocity in s.claimed && !ElbowRunsAfter(s)))
    case Some(JointPosition) =>
      && Awaits(s, JointPosition)
      && (|| EffortsClaimed(s)
          || (CartesianVelocity in s.claimed && !ElbowRunsAfter(s) &&
            (CartesianPose in s.claimed ==> Awaits(s, CartesianPose))))
    case _ => false
  }

  /** From any reachable state and for any claims: the first write after a switch sends an unseeded command exactly
      then. */
  lemma SwitchBumpsIff(s: State)
    requires DriverConsistent(s) && Controlled(s) && Sized(s.buffers) && AllFinite(s.buffers)
    ensures Perform(s).buffers.Keys == ALL && (SendsUnseeded(Perform(s)) <==> Bumps(s))
  {
    var t := Perform(s);
    BlocksKeepFinite(s, 0);
    BlocksKeepSizes(s, 0);
    PerformKeepsConsistency(s, 0);
    BlocksKeepControlled(s, 0);
    PerformRunsTheClaims(s);
    ElbowAfterSwitch(s);
    ControlAfterSwitch(s);
    AwaitsAfterSwitch(s, JointPosition);
    AwaitsAfterSwitch(s, CartesianPose);
    hide Block, BlocksFrom, Write, ControlAfter, ElbowRunsAfter, Awaits, SendsUnseeded;
    SendsUnseededIff(t);
    DueAfterSwitch(t);
  }

  lemma AwaitsAfterSwitch(s: State, i: Interface)
    requires i == JointPosition || i == CartesianPose
    ensures i in s.claimed ==> (i in Perform(s).unseeded <==> Awaits(s, i))
  {
    BlocksStart(s, 0, i);
    PerformRunsTheClaims(s);
  }

  /** When write finds a single buffer due that fits positions or poses awaiting their first update. */
  lemma DueAfterSwitch(t: State)
    ensures CartesianPose in t.unseeded ==>
      (Choose(t).Single? <==>
        || Effort in t.running || JointVelocity in t.running
        || (JointPosition in t.running && JointPosition !in t.unseeded)
        || (CartesianVelocity in t.running && Elbow !in t.running))
    ensures JointPosition in t.unseeded ==>
      (Choose(t).Single? && Choose(t).mode.Size() <= 7 <==>
        || Effort in t.running || JointVelocity in t.running
        || (CartesianVelocity in t.running && Elbow !in t.running &&
          !(CartesianPose in t.running && CartesianPose !in t.unseeded)))
  {
    assert Elbow in t.running - t.unseeded ==> Elbow in t.running;
  }

  /** With driver and running flags in agreement, spelt out on the claims. */
  lemma AgreeingSwitchBumpsIff(s: State)
    requires Agree(s) && Sized(s.buffers) && AllFinite(s.buffers)
    ensures Perform(s).buffers.Keys == ALL
    ensures SendsUnseeded(Perform(s)) <==>
      if Starts(s, CartesianPose) then
        || EffortsClaimed(s)
        || (JointPosition in s.claimed && JointPosition in s.running && JointPosition !in s.unseeded)
        || (CartesianVelocity in s.claimed && Elbow !in s.running && Elbow !in s.claimed)
      else
        && Starts(s, JointPosition) && !Changed(s, CartesianVelocity) && !Changed(s, CartesianPose)
        && (EffortsClaimed(s) || (CartesianVelocity in s.claimed && Elbow !in s.running))
  {
    hide Write, Perform, SendsUnseeded, AllFinite;
    assert forall n :: n != Elbow ==> (n in s.running <==> n in s.running - {Elbow});
    assert forall m, n :: m != Elbow && n != Elbow && m in s.running && n in s.running ==> m == n;
    SwitchBumpsIff(s);
  }

  ghost predicate Idle(s: State) {
    s.running == {} && s.control == None && s.flags == {}
  }

  /** When nothing runs: the mode that is started last takes positions or poses, and the buffer due is that of another
      claimed mode. */
  lemma FirstWriteBumpsIff(s: State)
    requires Idle(s) && Sized(s.buffers) && AllFinite(s.buffers)
    ensures Perform(s).buffers.Keys == ALL
    ensures SendsUnseeded(Perform(s)) <==>
      if CartesianPose in s.claimed then EffortsClaimed(s) || (CartesianVelocity in s.claimed && Elbow !in s.claimed)
      else JointPosition in s.claimed && CartesianVelocity !in s.claimed && EffortsClaimed(s)
  {
    hide Write, Perform, SendsUnseeded, AllFinite;
    SwitchBumpsIff(s);
  }

  /** The control after starting from nothing is that of the last claimed mode. */
  lemma StartsLast(s: State)
    requires Idle(s)
    ensures Perform(s).control ==
      if CartesianPose in s.claimed then Some(CartesianPose)
      else if CartesianVelocity in s.claimed then Some(CartesianVelocity)
      else if JointPosition in s.claimed then Some(JointPosition)
      else if JointVelocity in s.claimed then Some(JointVelocity)
      else if Effort in s.claimed then Some(Effort)
      else None
  {
    hide Perform;
    ControlAfterSwitch(s);
  }

  /** From the running position mode to positions and poses at once: the joint positions, padded with zeros, are sent as
      the pose before any pose was read. */
  lemma PoseAddedRun(s: State, m: RobotState)
    requires Initial(s) && AllFinite(s.buffers) && m.Sized() && FiniteState(m)
    ensures var t := Run(s,
      [Claims({JointPosition}), Switch, Reading(m), Claims({JointPosition, CartesianPose}), Switch]);
      && t.buffers.Keys == ALL && SendsUnseeded(t)
      && Write(t) == Robot(Sent(DriverCommand(CartesianPose, Padded(m.q, 16), None)))
  {
    hide Write, AllFinite, Perform, Read;
    RunOfAddition(s, {JointPosition}, {JointPosition, CartesianPose}, m);
    var a := s.(claimed := {JointPosition});
    PositionsStart(a, m);
    var d := Read(Perform(a), m).(claimed := {JointPosition, CartesianPose});
    PoseIsAdded(d);
  }

  lemma RunOfAddition(s: State, from: set<Interface>, to: set<Interface>, m: RobotState)
    ensures Run(s, [Claims(from), Switch, Reading(m), Claims(to), Switch]) ==
      Perform(Read(Perform(s.(claimed := from)), m).(claimed := to))
  {
    hide Perform, Read;
    RunOfStart(s, from);
    RunStep(s, [Claims(from), Switch], Reading(m));
    assert [Claims(from), Switch] + [Reading(m)] == [Claims(from), Switch, Reading(m)];
    RunStep(s, [Claims(from), Switch, Reading(m)], Claims(to));
    assert [Claims(from), Switch, Reading(m)] + [Claims(to)] == [Claims(from), Switch, Reading(m), Claims(to)];
    RunStep(s, [Claims(from), Switch, Reading(m), Claims(to)], Switch);
    assert [Claims(from), Switch, Reading(m), Claims(to)] + [Switch] ==
      [Claims(from), Switch, Reading(m), Claims(to), Switch];
  }

  lemma PositionsStart(s: State, m: RobotState)
    requires Idle(s) && s.unseeded == SEEDED && s.claimed == {JointPosition} && Sized(s.buffers) && AllFinite(s.buffers)
    requires m.Sized() && FiniteState(m)
    ensures var t := Read(Perform(s), m);
      && t.running == {JointPosition} && t.control == Some(JointPosition) && t.flags == {JointPosition}
      && t.unseeded == {Elbow, CartesianPose} && Sized(t.buffers) && AllFinite(t.buffers) &&
        t.buffers[JointPosition] == m.q
  {
    FiveBlocks(s);
    assert Perform(s) == Block(s, JointPosition);
    hide BlocksFrom;
    ReadKeepsFinite(Perform(s), m);
  }

  lemma PoseIsAdded(s: State)
    requires s.running == {JointPosition} && s.control == Some(JointPosition) && s.flags == {JointPosition}
    requires s.unseeded == {Elbow, CartesianPose} && Sized(s.buffers) && AllFinite(s.buffers)
    requires s.claimed == {JointPosition, CartesianPose}
    ensures var t := Perform(s);
      && t.buffers.Keys == ALL && SendsUnseeded(t)
      && Write(t) == Robot(Sent(DriverCommand(CartesianPose, Padded(s.buffers[JointPosition], 16), None)))
  {
    FiveBlocks(s);
    var t := Block(s, CartesianPose);
    assert Perform(s) == t;
    hide Block, BlocksFrom, Perform, AllFinite;
    assert t.running == {JointPosition, CartesianPose} && t.flags == {CartesianPose} && t.buffers == s.buffers;
    DispatchOfAnyBuffer(CartesianPose, s.buffers[JointPosition]);
    assert Forwards(Write(t), CartesianPose);
  }

  /** Claimed together, the effort and the position mode both run, and the first write sends the effort buffer to the
      joints as positions. */
  lemma TwoModesRun(s: State)
    requires Initial(s) && AllFinite(s.buffers)
    ensures var events := [Claims({Effort, JointPosition}), Switch];
      var t := Run(s, events);
      && t.buffers.Keys == ALL && JointPosition in t.unseeded && Seed(s, events, JointPosition) == None
      && Write(t) == Robot(Sent(DriverCommand(JointPosition, Zeros(7), None)))
  {
    hide Perform, Write, AllFinite, Run, Seed;
    RunOfStart(s, {Effort, JointPosition});
    TwoModesWrite(s.(claimed := {Effort, JointPosition}));
    UnseededUntilRead(s, [Claims({Effort, JointPosition}), Switch], JointPosition);
  }

  lemma TwoModesWrite(s: State)
    requires Idle(s) && Sized(s.buffers) && AllFinite(s.buffers) && s.claimed == {Effort, JointPosition}
    ensures var t := Perform(s);
      && JointPosition in t.running && JointPosition in t.unseeded && t.buffers.Keys == ALL
      && Write(t) == Robot(Sent(DriverCommand(JointPosition, Zeros(7), None)))
  {
    hide Block, BlocksFrom, Perform, Write, AllFinite;
    TwoModesStart(s);
    BlocksKeepFinite(s, 0);
    PerformIs(s);
    WriteOfTwoModes(Perform(s));
  }

  lemma PerformIs(s: State)
    ensures Perform(s) == BlocksFrom(s, 0)
  {
  }

  lemma TwoModesStart(s: State)
    requires Idle(s) && Sized(s.buffers) && s.claimed == {Effort, JointPosition}
    ensures var t := Perform(s);
      && t.running == {Effort, JointPosition} && JointPosition in t.unseeded
      && t.control == Some(JointPosition) && t.flags == {JointPosition}
      && t.buffers == s.buffers[Effort := Zeros(7)]
  {
    FiveBlocks(s);
    var b := Block(s, Effort);
    assert Perform(s) == Block(b, JointPosition);
  }

  lemma WriteOfTwoModes(t: State)
    requires t.running == {Effort, JointPosition} && t.control == Some(JointPosition) && t.flags == {JointPosition}
    requires t.buffers.Keys == ALL && AllFinite(t.buffers) && t.buffers[Effort] == Zeros(7)
    ensures Write(t) == Robot(Sent(DriverCommand(JointPosition, Zeros(7), None)))
  {
    assert t.flags * JOINT_MODES == {JointPosition};
  }
}
