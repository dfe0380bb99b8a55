/** The driver: at most one active control, a flag per started interface, and the dispatch of commands to the
    control. */
module Driver {
  import opened Wrappers

  /** The command interfaces. All but Elbow are modes of the driver; the elbow rides on a Cartesian mode. */
  datatype Interface = Effort | JointVelocity | JointPosition | Elbow | CartesianVelocity | CartesianPose {
    predicate Cartesian() {
      CartesianVelocity? || CartesianPose?
    }

    /** The number of values in a command. */
    function Size(): nat {
      match this
      case Elbow => 2
      case CartesianVelocity => 6
      case CartesianPose => 16
      case _ => 7
    }
  }

  const ALL: set<Interface> := {Effort, JointVelocity, JointPosition, Elbow, CartesianVelocity, CartesianPose}

  lemma EveryInterface(i: Interface)
    ensures i in ALL
  {
  }

  const JOINT_MODES: set<Interface> := {Effort, JointVelocity, JointPosition}

  /** The measured robot state: joint positions, elbow and end-effector pose. */
  datatype RobotState = RobotState(q: seq<Double>, elbow: seq<Double>, pose: seq<Double>) {
    predicate Sized() {
      |q| == JointPosition.Size() && |elbow| == Elbow.Size() && |pose| == CartesianPose.Size()
    }
  }

  datatype DriverCommand = DriverCommand(kind: Interface, values: seq<Double>, elbow: Option<seq<Double>>)

  /** What a call of writeOnce comes to: a command for the active control, nothing, or one of the two exceptions. */
  datatype WriteResult = Sent(command: DriverCommand) | Nothing | NotStarted | UnknownSize

  /** The command in an array of the given size, the missing values being zero. */
  function Padded(command: seq<Double>, size: nat): (a: seq<Double>)
    requires |command| <= size
    ensures |a| == size && command <= a && forall k :: |command| <= k < size ==> a[k] == Finite(0.0)
    ensures |command| == size ==> a == command
  {
    command + seq(size - |command|, _ => Finite(0.0))
  }

  /** Which command a single buffer becomes, given the control and the interface flags. */
  function Dispatch(control: Option<Interface>, flags: set<Interface>, command: seq<Double>): WriteResult {
    if control == None then NotStarted
    else if flags * JOINT_MODES != {} && |command| <= 7 then
      var kind := if Effort in flags then Effort else if JointVelocity in flags then JointVelocity else JointPosition;
      Sent(DriverCommand(kind, Padded(command, 7), None))
    else if CartesianVelocity in flags && |command| <= 6 then
      Sent(DriverCommand(CartesianVelocity, Padded(command, 6), None))
    else if CartesianPose in flags && |command| <= 16 then
      Sent(DriverCommand(CartesianPose, Padded(command, 16), None))
    else UnknownSize
  }

  /** Which command a Cartesian buffer and an elbow buffer become. */
  function DispatchElbow(control: Option<Interface>, flags: set<Interface>, command: seq<Double>,
      elbow: seq<Double>): WriteResult {
    if control == None then NotStarted
    else if CartesianVelocity in flags && |command| == 6 && |elbow| == 2 then
      Sent(DriverCommand(CartesianVelocity, command, Some(elbow)))
    else if CartesianPose in flags && |command| == 16 && |elbow| == 2 then
      Sent(DriverCommand(CartesianPose, command, Some(elbow)))
    else UnknownSize
  }

  class Robot {
    var activeControl: Option<Interface>
    var effortInterfaceActive: bool
    var jointVelocityInterfaceActive: bool
    var jointPositionInterfaceActive: bool
    var cartesianVelocityInterfaceActive: bool
    var cartesianPoseInterfaceActive: bool
    var currentState: RobotState

    function ActiveFlag(i: Interface): bool
      reads this
    {
      match i
      case Effort => effortInterfaceActive
      case JointVelocity => jointVelocityInterfaceActive
      case JointPosition => jointPositionInterfaceActive
      case CartesianVelocity => cartesianVelocityInterfaceActive
      case CartesianPose => cartesianPoseInterfaceActive
      case Elbow => false
    }

    /** The interfaces whose active flag is set. */
    ghost function Flags(): set<Interface>
      reads this
    {
      set i | i in ALL && ActiveFlag(i)
    }

    constructor (state: RobotState)
      ensures activeControl == None && Flags() == {} && currentState == state
    {
      activeControl := None;
      effortInterfaceActive, jointVelocityInterfaceActive, jointPositionInterfaceActive := false, false, false;
      cartesianVelocityInterfaceActive, cartesianPoseInterfaceActive := false, false;
      currentState := state;
    }

    /** Clears the flags only when there is a control to stop. */
    method StopRobot()
      modifies this
      ensures activeControl == None && currentState == old(currentState)
      ensures Flags() == if old(activeControl) == None then old(Flags()) else {}
    {
      if activeControl != None {
        effortInterfaceActive := false;
        jointVelocityInterfaceActive := false;
        jointPositionInterfaceActive := false;
        cartesianVelocityInterfaceActive := false;
        cartesianPoseInterfaceActive := false;
        activeControl := None;
      }
    }

    method InitializeTorqueInterface()
      modifies this
      ensures activeControl == Some(Effort) && currentState == old(currentState)
      ensures Flags() == old(Flags()) + {Effort}
    {
      activeControl := Some(Effort);
      effortInterfaceActive := true;
    }

    method InitializeJointVelocityInterface()
      modifies this
      ensures activeControl == Some(JointVelocity) && currentState == old(currentState)
      ensures Flags() == old(Flags()) + {JointVelocity}
    {
      activeControl := Some(JointVelocity);
      jointVelocityInterfaceActive := true;
    }

    method InitializeJointPositionInterface()
      modifies this
      ensures activeControl == Some(JointPosition) && currentState == old(currentState)
      ensures Flags() == old(Flags()) + {JointPosition}
    {
      activeControl := Some(JointPosition);
      jointPositionInterfaceActive := true;
    }

    method InitializeCartesianVelocityInterface()
      modifies this
      ensures activeControl == Some(CartesianVelocity) && currentState == old(currentState)
      ensures Flags() == old(Flags()) + {CartesianVelocity}
    {
      activeControl := Some(CartesianVelocity);
      cartesianVelocityInterfaceActive := true;
    }

    method InitializeCartesianPoseInterface()
      modifies this
      ensures activeControl == Some(CartesianPose) && currentState == old(currentState)
      ensures Flags() == old(Flags()) + {CartesianPose}
    {
      activeControl := Some(CartesianPose);
      cartesianPoseInterfaceActive := true;
    }

    /** Stores and returns what is measured, through the active control when there is one. */
    method ReadOnce(measured: RobotState) returns (state: RobotState)
      modifies `currentState
      ensures state == currentState == measured && Flags() == old(Flags())
    {
      currentState := measured;
      state := currentState;
    }

    method WriteOnce(command: seq<Double>) returns (r: WriteResult)
      ensures r == Dispatch(activeControl, Flags(), command)
    {
      if activeControl == None {
        return NotStarted;
      }
      if (jointPositionInterfaceActive || jointVelocityInterfaceActive || effortInterfaceActive) && |command| <= 7 {
        assert exists m :: m in Flags() * JOINT_MODES by {
          var m := if effortInterfaceActive then Effort else if jointVelocityInterfaceActive then JointVelocity
            else JointPosition;
          assert m in Flags() * JOINT_MODES;
        }
        var jointCommand := Padded(command, 7);
        if effortInterfaceActive {
          return Sent(DriverCommand(Effort, jointCommand, None));
        } else if jointVelocityInterfaceActive {
          return Sent(DriverCommand(JointVelocity, jointCommand, None));
        } else {
          return Sent(DriverCommand(JointPosition, jointCommand, None));
        }
      }
      if cartesianVelocityInterfaceActive && |command| <= 6 {
        return Sent(DriverCommand(CartesianVelocity, Padded(command, 6), None));
      }
      if cartesianPoseInterfaceActive && |command| <= 16 {
        return Sent(DriverCommand(CartesianPose, Padded(command, 16), None));
      }
      return UnknownSize;
    }

    method WriteOnceWithElbow(command: seq<Double>, elbow: seq<Double>) returns (r: WriteResult)
      ensures r == DispatchElbow(activeControl, Flags(), command, elbow)
    {
      if activeControl == None {
        return NotStarted;
      }
      if cartesianVelocityInterfaceActive && |command| == 6 && |elbow| == 2 {
        return Sent(DriverCommand(CartesianVelocity, command, Some(elbow)));
      }
      if cartesianPoseInterfaceActive && |command| == 16 && |elbow| == 2 {
        return Sent(DriverCommand(CartesianPose, command, Some(elbow)));
      }
      return UnknownSize;
    }
  }

  /** With one flag set, that of the active control, any buffer that is not too long is sent to that control, the
      missing values being zero. */
  lemma DispatchOfAnyBuffer(mode: Interface, command: seq<Double>)
    requires mode != Elbow
    ensures Dispatch(Some(mode), {mode}, command) ==
      if |command| <= mode.Size() then Sent(DriverCommand(mode, Padded(command, mode.Size()), None)) else UnknownSize
  {
    assert {mode} * JOINT_MODES == if mode in JOINT_MODES then {mode} else {};
  }

  /** Along with an elbow only full buffers are sent, and only to a Cartesian control. */
  lemma DispatchOfElbow(mode: Interface, command: seq<Double>, elbow: seq<Double>)
    requires mode != Elbow
    ensures DispatchElbow(Some(mode), {mode}, command, elbow) ==
      if mode.Cartesian() && |command| == mode.Size() && |elbow| == 2 then
        Sent(DriverCommand(mode, command, Some(elbow)))
      else UnknownSize
  {
  }

  /** With one flag set, that of the active control, a full buffer of its kind is sent to it unchanged. */
  lemma DispatchMatchesControl(mode: Interface, command: seq<Double>)
    requires mode != Elbow && |command| == mode.Size()
    ensures Dispatch(Some(mode), {mode}, command) == Sent(DriverCommand(mode, command, None))
  {
    if mode in JOINT_MODES {
      assert mode in {mode} * JOINT_MODES;
    } else {
      assert {mode} * JOINT_MODES == {};
    }
  }
}
