# Verified models of the Franka ROS 2 control code

Dafny models of the parts of the repository where a property spans several functions, loops or threads, each with
the properties its users rely on. Arithmetic is exact: `double` is `real`, a square root is any function `r` with
`r >= 0` and `r * r == x`, pi is any positive number, a linear solve is exact on invertible matrices.

| files | what they model |
|---|---|
| `MotionProfile`, `MotionLaw`, `MotionGenerator` | the point-to-point planner: fastest profiles, synchronisation by a quadratic, three-phase polynomials |
| `Robot`, `ModeSwitch`, `HardwareInterface` | the command-mode switch: claimed, running, first-update and driver flags, and every run of prepare, switch, read and write |
| `TaskSequence`, `TaskThreads`, `TaskSequencer` | the task sequencer: gates, locks, and the handshake with the gripper thread, interleaved load by load and store by store |
| `WrenchBias`, `CylinderClearance` | the same controller's window mean and its clearance to a cylinder |
| `InverseKinematics` | the damped iteration with its backtracking line search and clamping |
| `Spatial`, `JacobianDot` | the Jacobian's time derivative in three representations |
| `Matrices`, `OperationalSpace` | the operational-space torque and its null-space projector |
| `EffortLimiter`, `AngleWrap`, `TipLink` | torque rate limit and saturation, angle wrapping and yaw limit, breadth-first tip-link search |
| `RealMath`, `Wrappers` | facts about real arithmetic and the option type used throughout |

Where the code keeps state, a class carries it and its methods are proved against functions of the abstract state;
the lemmas are about those functions. Main results, hardest first:

- the planner's discriminant is never negative, every moving joint ends at the same earliest time within its speed and
  acceleration limits, and the evaluator never overshoots, jumps or exceeds a joint's speed;
- a mode switch keeps driver and running flags in agreement, and the elbow running, exactly under conditions stated on the
  claims, and the first write is bumpless exactly for the claims stated;
- over every interleaving, down to single loads and stores of both threads, the phases are finished in turn and the grasp
  phase meets its deadline;
- the smoothed clearance is within 2e-4 of the true signed distance;
- inverse kinematics descends strictly, and its reported error bounds the answer's exactly when clamping leaves the start alone;
- the hybrid Jacobian derivative is the derivative of the columns, and the three representations are related by the
  motion of the reference frame and point;
- the null-space torque has no effect in task space.

## What the models showed

- **A switch to a mode of an earlier block loses its control.** The blocks run in the order effort, joint velocity,
  joint position, Cartesian velocity, Cartesian pose, and the block of the mode given up stops the driver after the
  new mode was started. The new mode then runs without a control and its first due write throws
  (`ModeSwitch.AgreementIsKeptIff`, `ModeSwitch.WriteAfterMovingBack`, and the run `ModeSwitch.MoveBackRun`).
- **The elbow does not survive a switch between the Cartesian modes**: the mode given up takes the elbow's claim with
  it, even when the new one was claimed together with it (`ModeSwitch.ElbowIsKeptIff`, `ModeSwitch.HandoverDropsElbow`).
- **An elbow cannot be added to a running Cartesian mode**, nor started together with the velocity mode when that takes
  over from the pose mode: in both cases the switch reports success and the elbow does not run
  (`ModeSwitch.ElbowIsNotAdded`, `ModeSwitch.ElbowIsTakenBack`, `ModeSwitch.ElbowIsStartedIff`).
- **With several modes claimed at once the first write can send unmeasured positions or poses.** Preparing accepts effort
  and joint position together; the driver then controls positions, while write takes the effort buffer first, and its
  zeros reach the joints as positions before any reading (`ModeSwitch.TwoModesRun`). When a mode runs already the claims
  for which this happens are others: adding the pose mode to the running position mode sends the joint positions as a
  pose (`ModeSwitch.PoseAddedRun`). `ModeSwitch.SwitchBumpsIff` is the exact condition from every reachable state.
- **A displacement of exactly the planner's threshold has no plan** but is evaluated as if it had: planning tests for
  more than the threshold, the evaluator for less. The evaluator's contract says nothing of that joint's displacement,
  and the motion is finished only past the times its unset buffers hold.
- **The reported error of `ik` need not bound the answer's** when clamping moves a start outside the limits and no step
  is accepted (`InverseKinematics.ReportCanFail`). With clamping, a start outside the limits that is accepted at once,
  or whose error or direction is not finite, is returned as it is; those are the only answers outside the limits
  (`InverseKinematics.AnswerInLimits`).
- **Locked joints leave no room for all columns**: the derivative has a column for each unlocked joint, but the loop
  sets one for each moving segment. The error codes let such a call through, and over the whole chain it sets a column
  that is not there exactly when a joint is locked (`JacobianDot.RoomIffUnlocked`, `JacobianDot.LockedCall`).
- **A second configuration zeroes the wrench samples but neither the index nor the full flag**, so zeros keep counting
  as samples: `WrenchBias.ZerosCountUnless` says exactly when that shows, `WrenchBias.OneZeroHalves` gives an input.
- **A grasp that succeeds at once can be lost**: entering GRASP publishes the request before it resets the answer's flags, so
  an answer that arrives in between is wiped out and only the duration ends the phase (`TaskThreads.LosesSuccess`,
  `TaskThreads.LostAnswerWaits`); one that arrives after the entry stores is kept (`TaskThreads.SuccessAfterEntryIsKept`).
- `wrapToPi` with loops can return pi or -pi, the form with `fmod` only -pi.

## Model

| member | source | states |
|---|---|---|
| MotionProfile.ReachSpeedFacts | franka_ros2/franka_example_controllers/src/motion_generator.cpp:84-93 | the unsynchronised peak speed is positive and at most the joint's limit, its two ramps fit into the move, and either the limit is reached or the ramps fill the move exactly |
| MotionProfile.ReachSpeedIsFastest | franka_ros2/franka_example_controllers/src/motion_generator.cpp:84-93 | no legal peak speed ends the joint's move earlier than the one chosen |
| MotionProfile.SyncSpeedFacts | franka_ros2/franka_example_controllers/src/motion_generator.cpp:99-106 | for every end time the joint could meet alone the discriminant is not negative (so the guard never acts), and the smaller root is a positive speed, no faster than the joint's own, that ends exactly then |
| MotionProfile.SyncPlanSound | franka_ros2/franka_example_controllers/src/motion_generator.cpp:98-112 | the five stored values form a plan with 0 < t_1 <= t_2 < t_f, ending at the common time, whose ramps keep the start and goal accelerations and whose phases add up to the displacement; its speed is at most the reachable one, hence the limit |
| MotionGeneration.CommonEndIsEarliest | franka_ros2/franka_example_controllers/src/motion_generator.cpp:83-96 | the slowest joint's own end is a lower bound on the time of any choice of legal peak speeds that ends all moving joints together |
| MotionGeneration.MotionGenerator.constructor | franka_ros2/franka_example_controllers/src/motion_generator.cpp:25-36 | after construction every moving joint has a sound synchronised plan under the scaled limits |
| MotionGeneration.MotionGenerator.CalculateSynchronizedValues | franka_ros2/franka_example_controllers/src/motion_generator.cpp:74-115 | the two loops give every moving joint a plan that ends at the maximum of the unsynchronised end times |
| MotionGeneration.MotionGenerator.CalculateDesiredValues | franka_ros2/franka_example_controllers/src/motion_generator.cpp:38-72 | an idle joint's displacement is zero, a moving joint's is the three-phase law toward its goal, and the result is finished exactly when no moving joint is short of the common end time and every joint at exactly the threshold is past the times in its unset buffers; nothing is said of such a joint's displacement |
| MotionGeneration.MotionGenerator.GetDesiredJointPositions | franka_ros2/franka_example_controllers/src/motion_generator.cpp:117-127 | each joint that is not at exactly the threshold is between its start and goal at all times, on its law, and at its goal when finished; a finished motion is within 1e-6 of the goal in those joints |
| MotionLaw.PhasesMeet | franka_ros2/franka_example_controllers/src/motion_generator.cpp:50-66 | position and speed of adjoining phases agree at t_1, t_2 and t_f |
| MotionLaw.LawIsSmooth | franka_ros2/franka_example_controllers/src/motion_generator.cpp:50-66 | between any two times >= 0 the joint moves forward at no more than its synchronised speed, its speed changes by at most the larger acceleration limit times the time between, and that speed is the derivative of the travel (the first-order error is bounded by half the acceleration times the squared time) |
| MotionLaw.SpeedIsLimited | franka_ros2/franka_example_controllers/src/motion_generator.cpp:50-66 | at every time >= 0 the speed itself is between zero and the synchronised speed |
| MotionLaw.NeverOvershoots | franka_ros2/franka_example_controllers/src/motion_generator.cpp:45-68 | the travel starts at zero, never leaves the interval to the goal, and is complete from the end time on |
| MotionLaw.DesiredIsProgress | franka_ros2/franka_example_controllers/src/motion_generator.cpp:50-66 | the evaluator's three polynomials are, branch by branch, that law in the direction of the goal |
| MotionLaw.SamplesKeepSpeedLimit | franka_ros2/franka_example_controllers/src/motion_generator.cpp:50-66 | two samples differ by at most the synchronised speed times the time between them, and the later one is no farther from the goal |
| Driver.Robot.StopRobot | franka_ros2/franka_hardware/src/robot.cpp:66-75 | stopping clears the control and, only if there was one, the flags |
| Driver.Robot.InitializeTorqueInterface | franka_ros2/franka_hardware/src/robot.cpp:298-306 | starts torque control and adds its flag, clearing none of the others |
| Driver.Robot.InitializeJointVelocityInterface | franka_ros2/franka_hardware/src/robot.cpp:308-319 | starts joint velocity control and adds its flag, clearing none of the others |
| Driver.Robot.InitializeJointPositionInterface | franka_ros2/franka_hardware/src/robot.cpp:321-332 | starts joint position control and adds its flag, clearing none of the others |
| Driver.Robot.InitializeCartesianVelocityInterface | franka_ros2/franka_hardware/src/robot.cpp:334-344 | starts Cartesian velocity control and adds its flag, clearing none of the others |
| Driver.Robot.InitializeCartesianPoseInterface | franka_ros2/franka_hardware/src/robot.cpp:346-356 | starts Cartesian pose control and adds its flag, clearing none of the others |
| Driver.Robot.ReadOnce | franka_ros2/franka_hardware/src/robot.cpp:56-64 | the measured state is stored and returned with or without a control |
| Driver.Robot.WriteOnce | franka_ros2/franka_hardware/src/robot.cpp:77-119 | the flag and size tests, in their order, choose the command or the exception the dispatch function names |
| Driver.Robot.WriteOnceWithElbow | franka_ros2/franka_hardware/src/robot.cpp:121-157 | the same for a Cartesian buffer with an elbow buffer |
| Driver.DispatchMatchesControl | franka_ros2/franka_hardware/src/robot.cpp:77-119 | with exactly the running control's flag set, a full buffer reaches that control unchanged |
| Driver.DispatchOfAnyBuffer | franka_ros2/franka_hardware/src/robot.cpp:77-119 | with exactly the running control's flag set, a buffer that is not too long reaches that control with zeros for the missing values, and a longer one is refused |
| Driver.DispatchOfElbow | franka_ros2/franka_hardware/src/robot.cpp:121-157 | along with an elbow only full buffers are sent, and only to a Cartesian control |
| ModeSwitch.PerformRunsTheClaims | franka_ros2/franka_hardware/src/franka_hardware_interface.cpp:351-432 | after a switch exactly the claimed base modes run, and no claim but the elbow's is given up |
| ModeSwitch.BuffersAfterSwitch | franka_ros2/franka_hardware/src/franka_hardware_interface.cpp:354-421 | a switch zeroes the buffers of the effort, joint velocity and Cartesian velocity modes it starts, with their sizes, and no other buffer |
| ModeSwitch.RefusedIff | franka_ros2/franka_hardware/src/franka_hardware_interface.cpp:393-429 | a switch is refused if and only if the elbow is claimed, no Cartesian mode is, and no Cartesian mode stops that a running elbow goes with |
| ModeSwitch.ControlFollowsLastChange | franka_ros2/franka_hardware/src/franka_hardware_interface.cpp:351-421 | the driver's control after a switch is decided by the last block that starts or stops something |
| ModeSwitch.PerformKeepsConsistency | franka_ros2/franka_hardware/src/franka_hardware_interface.cpp:351-421 | every block keeps the driver's flags equal to its control's, and the elbow only beside a Cartesian mode |
| ModeSwitch.RunKeepsDriverConsistent | franka_ros2/franka_hardware/src/robot.cpp:66-75 | in every reachable state at most one driver flag is set, one is set exactly when a control is active, the elbow runs only with a Cartesian mode, and buffers keep their sizes |
| ModeSwitch.AgreementIsKeptIff | franka_ros2/franka_hardware/src/franka_hardware_interface.cpp:351-432 | from driver and running flags in agreement, a switch keeps the agreement if and only if at most one base mode is claimed and the running mode does not give way to one of an earlier block |
| ModeSwitch.AgreementOnHandover | franka_ros2/franka_hardware/src/franka_hardware_interface.cpp:351-421 | when mode r gives way to mode c, the driver controls c if c's block is the later one and nothing otherwise |
| ModeSwitch.AgreementOnStart | franka_ros2/franka_hardware/src/franka_hardware_interface.cpp:351-421 | a switch from no mode, or keeping the mode, ends with the driver controlling the claimed mode |
| ModeSwitch.AgreementOnStop | franka_ros2/franka_hardware/src/franka_hardware_interface.cpp:351-421 | a switch to no mode ends with an idle driver |
| ModeSwitch.HandoverDropsElbow | franka_ros2/franka_hardware/src/franka_hardware_interface.cpp:393-421 | when the Cartesian mode carrying the elbow gives way, the elbow stops and loses its claim, also when the other Cartesian mode takes over |
| ModeSwitch.ElbowAfterSwitch | franka_ros2/franka_hardware/src/franka_hardware_interface.cpp:384-421 | for any claims and whatever ran before: exactly when the elbow runs after a switch, and exactly when it is still claimed |
| ModeSwitch.ElbowIsKeptIff | franka_ros2/franka_hardware/src/franka_hardware_interface.cpp:384-421 | in agreement a running elbow keeps running if and only if the mode that carries it is kept |
| ModeSwitch.ElbowIsStartedIff | franka_ros2/franka_hardware/src/franka_hardware_interface.cpp:384-421 | with at most one mode claimed, an elbow that does not run is started if and only if it is claimed along with a Cartesian mode that starts and does not take over from the pose mode |
| ModeSwitch.ElbowIsTakenBack | franka_ros2/franka_hardware/src/franka_hardware_interface.cpp:384-431 | a switch from the pose mode to the velocity mode with the elbow ends without the elbow and without a control, and reports success |
| ModeSwitch.KeptModesDoNothing | franka_ros2/franka_hardware/src/franka_hardware_interface.cpp:354-421 | a switch that claims exactly the running modes changes nothing |
| ModeSwitch.ElbowIsNotAdded | franka_ros2/franka_hardware/src/franka_hardware_interface.cpp:384-431 | an elbow claimed for a Cartesian mode that runs already is not started, and the switch reports success |
| ModeSwitch.ChoosesFirstDue | franka_ros2/franka_hardware/src/franka_hardware_interface.cpp:237-259 | write forwards the first of seven buffers, or pairs of buffers, that is due, and nothing if none is |
| ModeSwitch.WriteInAgreement | franka_ros2/franka_hardware/src/franka_hardware_interface.cpp:229-262 | in agreement with finite buffers, write reaches neither exception and sends the running mode's buffer (with the elbow's where due), or nothing while a first update is awaited |
| ModeSwitch.WriteAfterMovingBack | franka_ros2/franka_hardware/src/franka_hardware_interface.cpp:229-262 | after a switch to an earlier block the new mode runs without a control, and the first write after a reading throws |
| ModeSwitch.MoveBackRun | franka_ros2/franka_hardware/src/franka_hardware_interface.cpp:351-432 | such a run: from the pose mode to the effort mode, a reading, and the write throws |
| ModeSwitch.OrderlyRunNeverThrows | franka_ros2/franka_hardware/src/franka_hardware_interface.cpp:229-262 | over every run whose switches meet that condition the agreement holds throughout, so no write of finite buffers throws |
| ModeSwitch.ReadSeeds | franka_ros2/franka_hardware/src/franka_hardware_interface.cpp:181-203 | a reading gives a running position, elbow or pose interface that awaits its first update the measured q, elbow or O_T_EE, once, and changes no other buffer |
| ModeSwitch.UnseededUntilRead | franka_ros2/franka_hardware/src/franka_hardware_interface.cpp:181-203 | over every run, restarts included, a running position, pose or elbow interface awaits its first update exactly until the first reading after its last start, and holds what that reading measured until a controller writes it |
| ModeSwitch.SeedWasMeasured | franka_ros2/franka_hardware/src/franka_hardware_interface.cpp:181-203 | over every run that value is the q, elbow or pose of the first reading since the interface's last start, since when it has run without a break |
| ModeSwitch.BumplessStart | franka_ros2/franka_hardware/src/franka_hardware_interface.cpp:237-259 | over every run a position, pose or elbow buffer is forwarded only after a reading that followed its interface's last start, and is that reading's q, pose or elbow until a controller writes it |
| ModeSwitch.BumplessCommands | franka_ros2/franka_hardware/src/franka_hardware_interface.cpp:237-259 | over every run whose switches claim at most one base mode, switches back and deactivations included, a position, pose or elbow command that reaches the driver follows a reading after the interface's last start, and is the q, pose or elbow of the first such reading unless a controller wrote it |
| ModeSwitch.SendsUnseededIff | franka_ros2/franka_hardware/src/franka_hardware_interface.cpp:229-262 | in every state with consistent flags, finite buffers and a control that runs, write sends a command to an interface awaiting its first update if and only if the driver controls positions or poses that await it and another mode's buffer is due that is not too long |
| ModeSwitch.RunSendsUnseededIff | franka_ros2/franka_hardware/src/franka_hardware_interface.cpp:229-262 | so after every run of claims, switches, readings, controller writes and deactivations |
| ModeSwitch.ControlAfterSwitch | franka_ros2/franka_hardware/src/franka_hardware_interface.cpp:351-421 | which control a switch leaves, from any state: that of the last block that acts, or none if that one stops |
| ModeSwitch.SwitchBumpsIff | franka_ros2/franka_hardware/src/franka_hardware_interface.cpp:229-432 | from every reachable state and for all claims: exactly when the first write after a switch sends an unseeded command, in terms of the claims and of what ran before |
| ModeSwitch.AgreeingSwitchBumpsIff | franka_ros2/franka_hardware/src/franka_hardware_interface.cpp:229-432 | the same condition spelt out when driver and running flags agree |
| ModeSwitch.PoseAddedRun | franka_ros2/franka_hardware/src/franka_hardware_interface.cpp:229-432 | a run: the pose mode claimed in addition to the running position mode, and the joint positions are sent as a pose |
| ModeSwitch.FirstWriteBumpsIff | franka_ros2/franka_hardware/src/franka_hardware_interface.cpp:229-432 | the same condition on the claims alone, when nothing runs |
| ModeSwitch.TwoModesRun | franka_ros2/franka_hardware/src/franka_hardware_interface.cpp:229-432 | such a run: with effort and joint position claimed the first write sends the effort buffer to the joints as positions |
| ModeSwitch.StartsLast | franka_ros2/franka_hardware/src/franka_hardware_interface.cpp:351-421 | the control after starting from nothing is that of the last claimed mode |
| HardwareInterface.PrepareClaims | franka_ros2/franka_hardware/src/franka_hardware_interface.cpp:471-494 | preparing succeeds if and only if every interface type is named completely or not at all in both lists, and then claims exactly the types named in the start list and those claimed before and not named in the stop list |
| HardwareInterface.PrepareFailsAt | franka_ros2/franka_hardware/src/franka_hardware_interface.cpp:471-494 | a failing preparation has changed the claims of the types before the first incomplete one, may have released that one, and has left those after it |
| HardwareInterface.TypesByName | franka_ros2/franka_hardware/src/franka_hardware_interface.cpp:436-449 | an exported name of a part without a slash is of the type its suffix spells, for all six suffixes, and of no other |
| HardwareInterface.NoType | franka_ros2/franka_hardware/src/franka_hardware_interface.cpp:436-449 | a name that is not exported, or has no slash, is of no type |
| HardwareInterface.NamesClaimTheirKind | franka_ros2/franka_hardware/src/franka_hardware_interface.cpp:434-497 | naming all exported interfaces of one kind (7 effort, 7 velocity, 7 position, 2 elbow, 6 Cartesian velocity, 16 pose) and nothing else claims exactly that kind |
| HardwareInterface.TwoModesAreAccepted | franka_ros2/franka_hardware/src/franka_hardware_interface.cpp:471-494 | naming the seven effort and the seven joint position interfaces is accepted and claims both modes |
| HardwareInterface.FrankaHardwareInterface.PrepareCommandModeSwitch | franka_ros2/franka_hardware/src/franka_hardware_interface.cpp:434-497 | the loop over the interface types changes the claims as above, keeping the changes made before an exception, and refuses the excluded number of interfaces without a change |
| HardwareInterface.FrankaHardwareInterface.SwitchEffort | franka_ros2/franka_hardware/src/franka_hardware_interface.cpp:354-362 | the effort block, on its flags, buffer and driver, is the abstract block of its mode |
| HardwareInterface.FrankaHardwareInterface.SwitchJointVelocity | franka_ros2/franka_hardware/src/franka_hardware_interface.cpp:364-372 | the joint velocity block is the abstract block of its mode |
| HardwareInterface.FrankaHardwareInterface.SwitchJointPosition | franka_ros2/franka_hardware/src/franka_hardware_interface.cpp:374-382 | the joint position block is the abstract block of its mode, awaiting a first update when it starts |
| HardwareInterface.FrankaHardwareInterface.SwitchCartesianVelocity | franka_ros2/franka_hardware/src/franka_hardware_interface.cpp:384-401 | the Cartesian velocity block is the abstract block of its mode, starting and stopping the elbow with it |
| HardwareInterface.FrankaHardwareInterface.SwitchCartesianPose | franka_ros2/franka_hardware/src/franka_hardware_interface.cpp:403-421 | the Cartesian pose block is the abstract block of its mode, starting and stopping the elbow with it |
| HardwareInterface.FrankaHardwareInterface.PerformCommandModeSwitch | franka_ros2/franka_hardware/src/franka_hardware_interface.cpp:351-432 | the five blocks refine the abstract switch, and it reports an error exactly when the elbow is left claimed without a Cartesian mode |
| HardwareInterface.FrankaHardwareInterface.InitializeCommand | franka_ros2/franka_hardware/src/franka_hardware_interface.cpp:181-190 | a running interface awaiting its first update gets the measured value and no longer waits; nothing else changes |
| HardwareInterface.FrankaHardwareInterface.Read | franka_ros2/franka_hardware/src/franka_hardware_interface.cpp:205-221 | stores the measured state, seeds exactly the running interfaces that await their first update, with q, elbow and pose of the reading, and refines the abstract reading |
| HardwareInterface.FrankaHardwareInterface.Write | franka_ros2/franka_hardware/src/franka_hardware_interface.cpp:229-262 | refines the abstract write: finiteness of all buffers, then the branches in their order |
| HardwareInterface.FrankaHardwareInterface.OnDeactivate | franka_ros2/franka_hardware/src/franka_hardware_interface.cpp:173-179 | stops the driver and leaves the running flags |
| TaskSequence.GateMovesIff | franka_ros2/franka_example_controllers/src/move_catersian_impedance_with_gripper.cpp:1191-1413 | a cycle changes the mode if and only if the next mode of the walk is commanded and the current one may be left; entering takes the finished flag of the phase entered |
| TaskSequence.StepOnWalk | franka_ros2/franka_example_controllers/src/move_catersian_impedance_with_gripper.cpp:1183-1416 | each event leaves the mode or moves it exactly one further along the walk, and only a cycle moves it |
| TaskSequence.PhasesAreFinishedInTurn | franka_ros2/franka_example_controllers/src/move_catersian_impedance_with_gripper.cpp:1191-1413 | in every run, whatever is left over from an earlier activation, a phase that was left, or whose flag is set while it is executed, was finished by a cycle of its own in this activation |
| TaskSequence.WalkNeverGoesBack | franka_ros2/franka_example_controllers/src/move_catersian_impedance_with_gripper.cpp:1183-1416 | no continuation of any run goes back on the walk, nor leaves RUN_RL, whatever is left over |
| TaskSequence.MotionFinishesIff | franka_ros2/franka_example_controllers/src/move_catersian_impedance_with_gripper.cpp:2010-2024 | an executed cycle adds its length to the phase's clock and finishes an unfinished motion phase if and only if its target is near or the clock exceeds its duration; nothing else changes clock or flag |
| TaskSequence.ClockShowsPhaseTime | franka_ros2/franka_example_controllers/src/move_catersian_impedance_with_gripper.cpp:1191-1416 | over every run the clock of a motion or grasp phase is the sum of the lengths of the cycles executed since it was entered |
| TaskSequence.MotionIsFinishedIff | franka_ros2/franka_example_controllers/src/move_catersian_impedance_with_gripper.cpp:2325-2338 | over every run a motion phase is finished if and only if one of its executed cycles came near its target or ended past its duration |
| TaskSequence.GripStepKeepsHandshake | franka_ros2/franka_example_controllers/src/move_catersian_impedance_with_gripper.cpp:924-993 | every store of the gripper thread keeps the handshake's order, never takes an answer back, and signals success only on a successful result of the sent goal |
| TaskSequence.UnreadyTickRetries | franka_ros2/franka_example_controllers/src/move_catersian_impedance_with_gripper.cpp:935-941 | a tick that finds the server unready leaves the handshake as it was after its store: the request is there for the next tick |
| TaskSequence.ReadyTickSends | franka_ros2/franka_example_controllers/src/move_catersian_impedance_with_gripper.cpp:924-991 | a tick that finds it ready has cleared the answer and sent the goal six stores later |
| TaskSequence.RunKeepsHandshake | franka_ros2/franka_example_controllers/src/move_catersian_impedance_with_gripper.cpp:861-993 | over every interleaving the handshake is unused before GRASP and in order from then on |
| TaskSequence.GraspFinishIsJustified | franka_ros2/franka_example_controllers/src/move_catersian_impedance_with_gripper.cpp:2063-2102 | with a cycle as one step: a cycle that finishes GRASP does so past the duration or after a successful answer to the goal |
| TaskSequence.GraspDeadline | franka_ros2/franka_example_controllers/src/move_catersian_impedance_with_gripper.cpp:2063-2102 | with a cycle as one step: over every interleaving GRASP is finished at the latest by the second executed cycle past the duration |
| TaskThreads.CycleIsRun | franka_ros2/franka_example_controllers/src/move_catersian_impedance_with_gripper.cpp:1183-1416 | a cycle whose loads and stores nothing interrupts is the cycle as one step, so the finer runs contain the runs of whole cycles |
| TaskThreads.GripStepKeepsGoing | franka_ros2/franka_example_controllers/src/move_catersian_impedance_with_gripper.cpp:924-993 | every store of the gripper thread keeps the goal's progress; what is over stays over, done is set only then, and success only by the goal's success |
| TaskThreads.EntryStore | franka_ros2/franka_example_controllers/src/move_catersian_impedance_with_gripper.cpp:1318-1323 | the entry stores, with stores of the gripper thread between any two of them, leave flags that mean what they say |
| TaskThreads.StepStaysOnWalk | franka_ros2/franka_example_controllers/src/move_catersian_impedance_with_gripper.cpp:1183-1416 | with single accesses as steps too the mode moves at most one further along the walk, out of a phase that may be left |
| TaskThreads.RunNeverGoesBack | franka_ros2/franka_example_controllers/src/move_catersian_impedance_with_gripper.cpp:1183-1416 | over every interleaving of single accesses the walk never goes back nor leaves RUN_RL, whatever is left over |
| TaskThreads.RunFinishesInTurn | franka_ros2/franka_example_controllers/src/move_catersian_impedance_with_gripper.cpp:1183-2102 | over every interleaving of single accesses a phase that was left, or whose flag is set while it is executed, was finished by a step of its own in this activation |
| TaskThreads.GraspIsFinishedInTime | franka_ros2/franka_example_controllers/src/move_catersian_impedance_with_gripper.cpp:1313-2102 | over every interleaving of the single loads and stores of both threads: GRASP is finished once two of its executed cycles ended past its duration, and only past its duration or after its goal succeeded |
| TaskThreads.SuccessAfterEntryIsKept | franka_ros2/franka_example_controllers/src/move_catersian_impedance_with_gripper.cpp:970-989 | a success that comes in after the entry stores is stored for good, however the threads interleave |
| TaskThreads.SuccessFinishesNextCycle | franka_ros2/franka_example_controllers/src/move_catersian_impedance_with_gripper.cpp:2063-2073 | once a success is stored after the entry stores, the next executed cycle of GRASP finishes it, within its duration or not |
| TaskThreads.LosesSuccess | franka_ros2/franka_example_controllers/src/move_catersian_impedance_with_gripper.cpp:1318-1323 | a run after any activation in which the goal succeeds between the first entry store and the reset of done, and its success is wiped out |
| TaskThreads.LostAnswerWaits | franka_ros2/franka_example_controllers/src/move_catersian_impedance_with_gripper.cpp:2063-2102 | from then on, over every interleaving, only the duration ends GRASP |
| TaskSequencer.DrainIsRun | franka_ros2/franka_example_controllers/src/move_catersian_impedance_with_gripper.cpp:861-993 | a gripper handler run to its end is a run of single stores, so what holds of every interleaving holds of it |
| TaskSequencer.MoveCartesianImpWithGripper.OnTaskCmd | franka_ros2/franka_example_controllers/src/move_catersian_impedance_with_gripper.cpp:610-641 | a command is stored, except the request to save the log |
| TaskSequencer.MoveCartesianImpWithGripper.ChooseMode | franka_ros2/franka_example_controllers/src/move_catersian_impedance_with_gripper.cpp:1183-1416 | the locks and gates refine the abstract choice of the mode, requests and resets included |
| TaskSequencer.MoveCartesianImpWithGripper.ExecuteMode | franka_ros2/franka_example_controllers/src/move_catersian_impedance_with_gripper.cpp:2044-2109 | the mode's body refines the abstract one |
| TaskSequencer.MoveCartesianImpWithGripper.Update | franka_ros2/franka_example_controllers/src/move_catersian_impedance_with_gripper.cpp:1181-1441 | one cycle is one event of the state machine; the mode is chosen also when the cycle then returns early; an executed cycle finishes an unfinished motion phase exactly when near or past its duration |
| TaskSequencer.MoveCartesianImpWithGripper.GripperTimerTick | franka_ros2/franka_example_controllers/src/move_catersian_impedance_with_gripper.cpp:861-993 | a tick is its stores in their order, with its three early returns, and leaves a failure, the request, or a sent goal with a cleared answer |
| TaskSequencer.MoveCartesianImpWithGripper.OnGoalResponse | franka_ros2/franka_example_controllers/src/move_catersian_impedance_with_gripper.cpp:958-968 | a rejection answers the goal, an acceptance changes nothing |
| TaskSequencer.MoveCartesianImpWithGripper.OnResult | franka_ros2/franka_example_controllers/src/move_catersian_impedance_with_gripper.cpp:970-989 | the result answers the goal, successfully if action and grasp both succeeded |
| WrenchBias.MeanOfRotation | franka_ros2/franka_example_controllers/src/move_catersian_impedance_with_gripper.cpp:3460-3468 | the mean does not depend on where the ring is cut |
| WrenchBias.WindowIsRotation | franka_ros2/franka_example_controllers/src/move_catersian_impedance_with_gripper.cpp:3450-3471 | the mean over the ring is the mean of the last samples in their order |
| WrenchBias.WrenchBuffer.Push | franka_ros2/franka_example_controllers/src/move_catersian_impedance_with_gripper.cpp:1469-1475 | one sample is appended to the history, through the index's wraparound |
| WrenchBias.WrenchBuffer.Configure | franka_ros2/franka_example_controllers/src/move_catersian_impedance_with_gripper.cpp:701-705 | a later configuration counts as if all samples so far had been zero, because it resets neither the index nor the full flag |
| WrenchBias.WrenchBuffer.ComputeBias | franka_ros2/franka_example_controllers/src/move_catersian_impedance_with_gripper.cpp:3450-3471 | after any number of samples the bias is the componentwise mean of the last ones that fit the window |
| WrenchBias.ZerosCountUnless | franka_ros2/franka_example_controllers/src/move_catersian_impedance_with_gripper.cpp:701-705 | after n samples, a later configuration and the samples s, a component of the bias is that of the mean of s, as far as it fits the window, if and only if n is zero, s fills the window, or s sums to zero in that component |
| WrenchBias.OneZeroHalves | franka_ros2/franka_example_controllers/src/move_catersian_impedance_with_gripper.cpp:701-705 | an input: one sample, a configuration and one more sample give half of the only sample since |
| WrenchBias.BiasAfterReconfiguration | franka_ros2/franka_example_controllers/src/move_catersian_impedance_with_gripper.cpp:1469-1475 | the run of samples, configuration, samples and bias on the buffer itself |
| CylinderClearance.ExactIsSignedDistance | franka_ros2/franka_example_controllers/src/move_catersian_impedance_with_gripper.cpp:3806-3832 | without the smoothing terms the formula is the Euclidean signed distance: to the nearest point of the solid from outside, minus that to the nearest point not inside from within |
| CylinderClearance.SignedDistanceIsUnique | franka_ros2/franka_example_controllers/src/move_catersian_impedance_with_gripper.cpp:3806-3832 | the signed distance is determined by that definition |
| CylinderClearance.ClearanceIsTight | franka_ros2/franka_example_controllers/src/move_catersian_impedance_with_gripper.cpp:3799-3837 | the smoothed clearance is at least the signed distance less the link radius and exceeds it by at most 2e-4, for all points, radii and heights |
| InverseKinematics.ReadBackIff | franka_ros2/franka_example_controllers/src/pinocchio_kinematics.cpp:116-135 | every arm position can be read back from the full configuration if and only if the arm's indices are distinct and no extra joint shares one |
| InverseKinematics.FullPlace | franka_ros2/franka_example_controllers/src/pinocchio_kinematics.cpp:116-127 | each place of the full configuration holds the last extra position written there, or else the last arm joint there, or else the neutral position |
| InverseKinematics.ClampedFacts | franka_ros2/franka_example_controllers/src/pinocchio_kinematics.cpp:137-144 | clamping moves into the limits, and leaves a position alone exactly when it is there already |
| InverseKinematics.KnownExtrasAre | franka_ros2/franka_example_controllers/src/pinocchio_kinematics.cpp:95-114 | the cached entries are exactly the given positions of joints the model knows at an index in range |
| InverseKinematics.LineSearchTakesFirst | franka_ros2/franka_example_controllers/src/pinocchio_kinematics.cpp:420-449 | the accepted candidate is the first of at most ten halvings of the step with a finite, smaller error, and none is accepted only if none of the ten improves |
| InverseKinematics.HalvedIs | franka_ros2/franka_example_controllers/src/pinocchio_kinematics.cpp:421-448 | the step after k halvings times two to the k is the step size |
| InverseKinematics.ErrorFalls | franka_ros2/franka_example_controllers/src/pinocchio_kinematics.cpp:364-457 | the error falls strictly over all accepted iterates, pairwise |
| InverseKinematics.IteratesAreSteps | franka_ros2/franka_example_controllers/src/pinocchio_kinematics.cpp:364-457 | every accepted iterate is q + c * dq from the one before, joint by joint, with dq the direction there and c the step size halved fewer than ten times, clamped if clamping is on |
| InverseKinematics.EndsOnlyWhenStuck | franka_ros2/franka_example_controllers/src/pinocchio_kinematics.cpp:364-457 | a run uses up its iterations or ends where no step is accepted: error below eps or not finite, direction not finite, or none of the ten candidates better |
| InverseKinematics.ReachesTarget | franka_ros2/franka_example_controllers/src/pinocchio_kinematics.cpp:348-467 | with the distance to a target as error, the way to it as direction and full steps, the run succeeds at the target in its first step, from every start |
| InverseKinematics.SucceedsIff | franka_ros2/franka_example_controllers/src/pinocchio_kinematics.cpp:364-393 | true is returned if and only if an iterate that is judged has an error below eps; that iterate and its error are the answer |
| InverseKinematics.ReportedError | franka_ros2/franka_example_controllers/src/pinocchio_kinematics.cpp:371-466 | the reported error is that of the last iterate judged |
| InverseKinematics.EvaluationsAreBounded | franka_ros2/franka_example_controllers/src/pinocchio_kinematics.cpp:364-449 | at most eleven error evaluations per iteration |
| InverseKinematics.AnswerIsLastIterate | franka_ros2/franka_example_controllers/src/pinocchio_kinematics.cpp:371-467 | the answer is the last accepted iterate, unless none was accepted from a start that clamping moves |
| InverseKinematics.SolveIsSound | franka_ros2/franka_example_controllers/src/pinocchio_kinematics.cpp:348-467 | success means a reported error below eps; the error falls along the path; at most 11 * max_iters evaluations; with no iteration, or an error that is not finite at the start, -1 is reported |
| InverseKinematics.AnswerInLimits | franka_ros2/franka_example_controllers/src/pinocchio_kinematics.cpp:364-467 | with clamping the answer is within the limits if and only if the start is, or no iteration is allowed, or a step is taken up (the start's error finite and not below eps, the direction finite); otherwise the start itself is the answer |
| InverseKinematics.ReportHoldsWhenClampKeeps | franka_ros2/franka_example_controllers/src/pinocchio_kinematics.cpp:371-467 | error(answer) <= reported error <= error(start) when clamping is off, leaves the start alone, or a step was accepted |
| InverseKinematics.ReportCanFail | franka_ros2/franka_example_controllers/src/pinocchio_kinematics.cpp:458-467 | for every start that clamping moves, and whatever finite direction is taken there, a continuous error function, least at the start, has the answer's error exceed the reported one |
| InverseKinematics.ReportHoldsIff | franka_ros2/franka_example_controllers/src/pinocchio_kinematics.cpp:348-467 | for every arm, options, direction function and start: the report holds for all finite error functions that change no faster than the configuration if and only if clamping is off, leaves the start alone, or the direction there is not finite |
| InverseKinematics.PinocchioKinematics.SetExtraJointPositions | franka_ros2/franka_example_controllers/src/pinocchio_kinematics.cpp:95-114 | stores the positions and refreshes the cache |
| InverseKinematics.PinocchioKinematics.RefreshExtraJointIndexCache | franka_ros2/franka_example_controllers/src/pinocchio_kinematics.cpp:95-114 | the loop rebuilds the cache of known joints |
| InverseKinematics.PinocchioKinematics.FillQFullFromArmInPlace | franka_ros2/franka_example_controllers/src/pinocchio_kinematics.cpp:116-127 | the work buffer becomes the neutral configuration with the arm's and then the extra entries written |
| InverseKinematics.PinocchioKinematics.ExtractArmFromQFullInPlace | franka_ros2/franka_example_controllers/src/pinocchio_kinematics.cpp:129-135 | reads the arm's entries |
| InverseKinematics.PinocchioKinematics.ClampArmToLimitsInPlace | franka_ros2/franka_example_controllers/src/pinocchio_kinematics.cpp:137-144 | clamps in place |
| InverseKinematics.PinocchioKinematics.Backtrack | franka_ros2/franka_example_controllers/src/pinocchio_kinematics.cpp:420-449 | the loop refines the line search and leaves the accepted candidate in the buffer |
| InverseKinematics.PinocchioKinematics.Ik | franka_ros2/franka_example_controllers/src/pinocchio_kinematics.cpp:348-467 | the loops refine the run the lemmas above are about: result, answer, reported error, evaluations and iterates |
| JacobianDot.HybridIsSymmetric | ros2_effort_controller/effort_controller_base/src/chainjnttojacdotsolver.cpp:134-159 | the linear hybrid partials are symmetric in the two joint indices |
| JacobianDot.HybridFromInertial | ros2_effort_controller/effort_controller_base/src/chainjnttojacdotsolver.cpp:134-199 | each hybrid partial is the inertial one moved to the end-effector plus its angular part crossed with the joint's velocity there |
| JacobianDot.BodyFixedFromHybrid | ros2_effort_controller/effort_controller_base/src/chainjnttojacdotsolver.cpp:134-180 | each body-fixed partial is the hybrid one less the frame's turn, seen from the end-effector |
| JacobianDot.RateIsDerivative | ros2_effort_controller/effort_controller_base/src/chainjnttojacdotsolver.cpp:134-159 | the product-rule rate of a revolute or prismatic joint's column is its derivative: the moved joint's column differs from first order by a square term alone |
| JacobianDot.HybridIsRate | ros2_effort_controller/effort_controller_base/src/chainjnttojacdotsolver.cpp:134-159 | for every pair of revolute or prismatic joints of a chain the hybrid partial is that derivative |
| JacobianDot.HybridColumnFromInertial | ros2_effort_controller/effort_controller_base/src/chainjnttojacdotsolver.cpp:98-113 | for every chain length, joint velocity and set of locked joints, the summed hybrid column is the summed inertial one moved to the end-effector plus its angular part crossed with the end-effector's velocity |
| JacobianDot.BodyFixedColumnFromHybrid | ros2_effort_controller/effort_controller_base/src/chainjnttojacdotsolver.cpp:98-113 | the summed body-fixed column is the hybrid one less the turn of the end-effector frame, in that frame |
| JacobianDot.InertialCallsAgree | ros2_effort_controller/effort_controller_base/src/chainjnttojacdotsolver.cpp:58-113 | the same law on the columns two calls leave, one hybrid and one inertial |
| JacobianDot.BodyFixedCallsAgree | ros2_effort_controller/effort_controller_base/src/chainjnttojacdotsolver.cpp:58-113 | the same law on the columns two calls leave, one hybrid and one body-fixed |
| JacobianDot.CallsLetThrough | ros2_effort_controller/effort_controller_base/src/chainjnttojacdotsolver.cpp:58-96 | which calls end without an error code, and what each code tells |
| JacobianDot.AccelerationOfTip | ros2_effort_controller/effort_controller_base/src/chainjnttojacdotsolver.cpp:48-113 | with no joint locked the two derivatives' products with the joint velocities differ by the reference point and the end-effector's angular velocity crossed with its velocity |
| JacobianDot.AllUnlocked | ros2_effort_controller/effort_controller_base/src/chainjnttojacdotsolver.cpp:206-218 | as many joints are unlocked as there are exactly when none is locked, which is when a derivative over all segments has room |
| JacobianDot.RoomIffUnlocked | ros2_effort_controller/effort_controller_base/src/chainjnttojacdotsolver.cpp:58-113 | a call over the whole chain that the error codes let through has room for all columns if and only if no joint is locked |
| JacobianDot.LockedCall | ros2_effort_controller/effort_controller_base/src/chainjnttojacdotsolver.cpp:98-113 | an input: two moving segments, one locked joint, one column, and the loop sets a second column |
| JacobianDot.ChainJntToJacDotSolver.GetPartialDerivativeHybrid | ros2_effort_controller/effort_controller_base/src/chainjnttojacdotsolver.cpp:134-159 | the in-place assembly gives the hybrid partial |
| JacobianDot.ChainJntToJacDotSolver.GetPartialDerivativeBodyFixed | ros2_effort_controller/effort_controller_base/src/chainjnttojacdotsolver.cpp:161-180 | the in-place assembly, negated at the end, gives the body-fixed partial |
| JacobianDot.ChainJntToJacDotSolver.GetPartialDerivativeInertial | ros2_effort_controller/effort_controller_base/src/chainjnttojacdotsolver.cpp:181-199 | the in-place assembly gives the inertial partial |
| JacobianDot.ChainJntToJacDotSolver.GetPartialDerivative | ros2_effort_controller/effort_controller_base/src/chainjnttojacdotsolver.cpp:118-132 | dispatches on the representation, with zero for an unknown one |
| JacobianDot.ChainJntToJacDotSolver.SetLockedJoints | ros2_effort_controller/effort_controller_base/src/chainjnttojacdotsolver.cpp:206-218 | takes a list of the right length and recounts, refuses any other without a change |
| JacobianDot.ChainJntToJacDotSolver.SetRepresentation | ros2_effort_controller/effort_controller_base/src/chainjnttojacdotsolver.cpp:200-204 | takes one of the three representations and ignores any other value |
| JacobianDot.ChainJntToJacDotSolver.SetColumns | ros2_effort_controller/effort_controller_base/src/chainjnttojacdotsolver.cpp:98-113 | the nested loops give each moving segment in reach the sum over the unlocked joints and leave the accumulator clear, or run past the last column exactly when there are fewer columns than those segments |
| JacobianDot.ChainJntToJacDotSolver.JntToJacDot | ros2_effort_controller/effort_controller_base/src/chainjnttojacdotsolver.cpp:58-116 | the error codes in their order of precedence; untouched, zeroed or filled columns accordingly; and exactly when the call instead sets a column past the last one |
| JacobianDot.ChainJntToJacDotSolver.JntToJacDotTimesQDot | ros2_effort_controller/effort_controller_base/src/chainjnttojacdotsolver.cpp:48-56 | the product with the joint velocities, or the same error code |
| OperationalSpace.MassMatrixIsSymmetric | franka_ros2/franka_example_controllers/src/cartesian_impedance_osc_rt.cpp:258-260 | whatever the lower triangle held, the joint-space corner of the mirrored matrix is symmetric |
| OperationalSpace.DynamicsAreRead | franka_ros2/franka_example_controllers/src/cartesian_impedance_osc_rt.cpp:234-261 | the Jacobian is that of the arm's joints, and the mass matrix is what the upper triangle says, on both sides of the diagonal |
| OperationalSpace.WrenchIsSpringAndDamper | franka_ros2/franka_example_controllers/src/cartesian_impedance_osc_rt.cpp:246-252 | the wrench at rest is the spring on the pose error; moving, the damping takes kd times the squared task velocity of power |
| OperationalSpace.NullCommandIsSpringAndDamper | franka_ros2/franka_example_controllers/src/cartesian_impedance_osc_rt.cpp:274-278 | the null-space command at rest is a spring along the shortest way to the default posture; moving, the damping takes kd_null times the squared joint velocity of power |
| OperationalSpace.TaskInertiaIsSymmetric | franka_ros2/franka_example_controllers/src/cartesian_impedance_osc_rt.cpp:264-267 | J X is symmetric when M is and M X = J^T |
| OperationalSpace.ProjectorIsUnseen | franka_ros2/franka_example_controllers/src/cartesian_impedance_osc_rt.cpp:264-286 | X^T N = 0, for any dimensions |
| OperationalSpace.NoTaskAcceleration | franka_ros2/franka_example_controllers/src/cartesian_impedance_osc_rt.cpp:257-286 | every joint acceleration that a projected torque N u causes has no task component, for any dimensions and every u |
| OperationalSpace.NoTaskEffect | franka_ros2/franka_example_controllers/src/cartesian_impedance_osc_rt.cpp:264-286 | J M^-1 N u = 0 with the inverse written out |
| OperationalSpace.TaskAcceleration | franka_ros2/franka_example_controllers/src/cartesian_impedance_osc_rt.cpp:254-293 | task and null-space torque together give the task-space acceleration (J X) wrench, whatever the null-space command is |
| OperationalSpace.ProjectorIsIdempotent | franka_ros2/franka_example_controllers/src/cartesian_impedance_osc_rt.cpp:264-286 | N N = N and N J^T = 0 when the task inertia is invertible |
| OperationalSpace.ControllerProjects | franka_ros2/franka_example_controllers/src/cartesian_impedance_osc_rt.cpp:257-286 | the controller's own projector has these properties whenever mass matrix and task inertia are invertible |
| OperationalSpace.CartesianImpedanceOsc.Configure | franka_ros2/franka_example_controllers/src/cartesian_impedance_osc_rt.cpp:86-110 | which configurations are taken, and that a refused one leaves the controller unconfigured |
| OperationalSpace.CartesianImpedanceOsc.DistanceToDefault | franka_ros2/franka_example_controllers/src/cartesian_impedance_osc_rt.cpp:275-276 | the loop wraps each joint's way to the default posture |
| OperationalSpace.CartesianImpedanceOsc.Saturate | franka_ros2/franka_example_controllers/src/cartesian_impedance_osc_rt.cpp:312-317 | each torque is clamped to the absolute limit |
| OperationalSpace.CartesianImpedanceOsc.ComputeTorque | franka_ros2/franka_example_controllers/src/cartesian_impedance_osc_rt.cpp:181-319 | wrench, task torque, projector, null-space torque, and the clamped total with the Coriolis torque; zeros when not configured |
| EffortLimiter.RunKeepsLimits | ros2_effort_controller/effort_controller_base/src/effort_controller_base.cpp:411-442 | for arbitrary demands every sent effort is within the limit and consecutive ones differ by at most delta_tau_max |
| EffortLimiter.CycleApproaches | ros2_effort_controller/effort_controller_base/src/effort_controller_base.cpp:430-435 | one cycle brings the effort closer to the clamped demand by delta_tau_max, or onto it |
| EffortLimiter.ConstantDemandApproaches | ros2_effort_controller/effort_controller_base/src/effort_controller_base.cpp:411-442 | under a constant demand the distance to the clamped demand after n cycles is exactly what n steps leave of it |
| EffortLimiter.ConstantDemandIsReached | ros2_effort_controller/effort_controller_base/src/effort_controller_base.cpp:411-442 | the clamped demand is held after n cycles if and only if n is at least the distance divided by delta_tau_max |
| EffortLimiter.EffortController.ComputeJointEffortCmds | ros2_effort_controller/effort_controller_base/src/effort_controller_base.cpp:430-442 | the loop limits every joint's rate in place |
| EffortLimiter.EffortController.WriteJointEffortCmds | ros2_effort_controller/effort_controller_base/src/effort_controller_base.cpp:411-428 | saturates and sends once an effort interface is commanded, and sends positions when configured |
| EffortLimiter.EffortController.Cycle | ros2_effort_controller/cartesian_impedance_controller/src/cartesian_impedance_controller.cpp:195-198 | both in turn: what a joint is sent, within its limit and its rate |
| AngleWrap.WrapToPi | franka_ros2/franka_example_controllers/src/rl_action_processor.cpp:64-68 | the loops end, land in [-pi, pi] and keep the angle up to whole turns |
| AngleWrap.FmodFormWraps | franka_ros2/franka_example_controllers/include/franka_example_controllers/cartesian_impedance_osc_rt.hpp:107-113 | the fmod form lands in [-pi, pi) and keeps the angle up to whole turns |
| AngleWrap.FormsAgree | franka_ros2/franka_example_controllers/include/franka_example_controllers/cartesian_impedance_osc_rt.hpp:107-113 | the two forms agree if and only if the loops do not return exactly pi; there the fmod form returns -pi |
| AngleWrap.YawIsLimited | franka_ros2/franka_example_controllers/src/rl_action_processor.cpp:178-185 | the commanded yaw is within the limit of the reference up to whole turns, and is the raw yaw up to whole turns when that was |
| AngleWrap.YawIsNearest | franka_ros2/franka_example_controllers/src/rl_action_processor.cpp:178-185 | no yaw within the limit is closer to the raw yaw, whatever turns are added to either |
| AngleWrap.RlActionProcessor.LimitPosition | franka_ros2/franka_example_controllers/src/rl_action_processor.cpp:88-122 | the commanded position is, coordinate by coordinate, the point of the box around the fixed frame nearest to the raw one |
| AngleWrap.RlActionProcessor.LimitYaw | franka_ros2/franka_example_controllers/src/rl_action_processor.cpp:178-185 | the method's two wraps and clamp keep the yaw limited, in [-pi, pi], and nearest to the raw one |
| AngleWrap.RlActionProcessor.Process | franka_ros2/franka_example_controllers/src/rl_action_processor.cpp:72-185 | the first call's yaw is the reference for good, and every call keeps position and yaw limited |
| TipLink.DeepestLeafIsDeepest | franka_ros2/franka_gazebo/franka_ign_ros2_control/src/ign_ros2_control_plugin.cpp:238-277 | the named leaf is at the depth of the whole tree and no leaf is deeper |
| TipLink.GetRootLink | franka_ros2/franka_gazebo/franka_ign_ros2_control/src/ign_ros2_control_plugin.cpp:238-246 | the first link without a parent joint, or none exactly when all have one |
| TipLink.SearchFrom | franka_ros2/franka_gazebo/franka_ign_ros2_control/src/ign_ros2_control_plugin.cpp:257-276 | on every finite tree the breadth-first search ends and its last leaf is the last of the deepest leaves; the queue always holds links of one depth followed by links of the next |
| TipLink.FindTipLink | franka_ros2/franka_gazebo/franka_ign_ros2_control/src/ign_ros2_control_plugin.cpp:249-277 | the same from the root link, and the empty name when there is none |

## Left out

- Floating point: rounding, overflow, and NaN other than the finiteness tests `write` and `ik` branch on.
- ROS nodes, parameters, services, launch files, logging and message translation: input and output only.
- libfranka, Pinocchio, KDL, Eigen decompositions and ONNX are parameters: measured states, error and direction of a
  configuration, a chain's Jacobian and frame, dynamics, and an exact solver.
- Control starts that fail: every `initialize...Interface` is taken to succeed, with or without automatic recovery.
- libfranka's rate limiting and filtering of a command after `writeOnce` chose it.
- Deactivation of the hardware: it stops the driver and keeps the running flags, so a run in which agreement is claimed ends there.
- TaskSequence.GraspDeadline: there a control cycle is one step; `TaskThreads.GraspIsFinishedInTime` interleaves its loads and stores too.
- TaskThreads.GraspIsFinishedInTime: a request, goal or callback of the grasp action left over from an earlier activation,
  which activating resets no more than the answer's flags, is not part of the runs; left-over flags are.
- TaskThreads.SuccessFinishesNextCycle: the steps of the two threads are sequentially consistent; the code loads the answer's
  flags with relaxed ordering, under which success may be seen later than done.
- The motion of the phases (trajectories, pick policy, the disabled body of RUN_RL): a phase tells only that its target is near.
- MotionGeneration.MotionGenerator.CalculateDesiredValues: the value of a joint at exactly the threshold, which the code
  computes from buffers it never set.
- InverseKinematics.ReportHoldsIff: error functions are arbitrary functions of the configuration; that one is the pose error of
  an arm and a target is not modelled.
- InverseKinematics.PinocchioKinematics.Ik: the call before initialisation, which throws, and `ik_position_only`, which
  has the same loops; the error and the damped step are one function each of the full configuration.
- InverseKinematics.SolveIsSound: the bound on evaluations counts forward kinematics with the pose error, not the Jacobian.
- JacobianDot.ChainJntToJacDotSolver.JntToJacDot: `updateInternalDataStructures` and a chain that grows after construction.
- OperationalSpace.CartesianImpedanceOsc.ComputeTorque: forward kinematics, the quaternion error and the clamped total's
  effect in the task; the pose error is a parameter.
- OperationalSpace.ProjectorIsIdempotent: nothing is claimed at a singular task inertia, where the code does not test for one.
- AngleWrap.RlActionProcessor.Process: conversions between quaternions and Euler angles; the measured and raw yaw are parameters.
- EffortLimiter.EffortController.Cycle: negative or NaN effort limits; the limits come from the robot description.
- CylinderClearance.ClearanceIsTight: the capsules and the minimum over links that use the clearance.
- The alternative kinematics without real-time buffers, example sinusoid controllers and trajectory scripts.
