/** The hardware interface object: claimed, running and first-update flags, command buffers, and the methods on them. */
module HardwareInterface {
  import opened Wrappers
  import opened Driver
  import opened ModeSwitch

  // -------------------------------------------------------------------------
  // Names of command interfaces
  // -------------------------------------------------------------------------

  /** The position of the first slash, or the length of the name when it has none. */
  function FirstSlash(name: string): (k: nat)
    ensures k <= |name| && (k < |name| ==> name[k] == '/') && '/' !in name[..k]
  {
    if name == [] || name[0] == '/' then 0
    else
      var k := FirstSlash(name[1..]);
      assert name[..k + 1] == [name[0]] + name[1..][..k];
      k + 1
  }

  /** The part of a name after its first slash, when there is one and something follows it. */
  function TypeOf(name: string): Option<string> {
    var k := FirstSlash(name);
    if k + 1 < |name| then Some(name[k + 1..]) else None
  }

  function TypeName(i: Interface): string {
    match i
    case Effort => "effort"
    case JointVelocity => "velocity"
    case JointPosition => "position"
    case Elbow => "elbow_command"
    case CartesianVelocity => "cartesian_velocity"
    case CartesianPose => "cartesian_pose_command"
  }

  /** The interface types in the order in which prepare_command_mode_switch checks them. */
  const INFOS: seq<Interface> := [Effort, JointVelocity, JointPosition, Elbow, CartesianVelocity, CartesianPose]

  const MAX_NUMBER_START_INTERFACES := 45

  predicate IsOfType(exported: set<string>, name: string, i: Interface) {
    name in exported && TypeOf(name) == Some(TypeName(i))
  }

  /** How many of the names are exported interfaces of the type. */
  function Count(exported: set<string>, names: seq<string>, i: Interface): (n: nat)
    ensures n <= |names|
  {
    if names == [] then 0
    else Count(exported, names[..|names| - 1], i) + (if IsOfType(exported, names[|names| - 1], i) then 1 else 0)
  }

  // -------------------------------------------------------------------------
  // Preparing a switch
  // -------------------------------------------------------------------------

  datatype PrepareResult = Ok | Error | InvalidArgument

  /** All or none of an interface type's interfaces are named. */
  predicate Complete(exported: set<string>, names: seq<string>, i: Interface) {
    Count(exported, names, i) == 0 || Count(exported, names, i) == i.Size()
  }

  /** The claims after the types from the k-th on were handled, up to the first type that is named incompletely. */
  function ClaimsFrom(exported: set<string>, start: seq<string>, stop: seq<string>, claimed: set<Interface>, k: nat)
    : (set<Interface>, PrepareResult)
    requires k <= |INFOS|
    decreases |INFOS| - k
  {
    if k == |INFOS| then (claimed, Ok)
    else
      var i := INFOS[k];
      if !Complete(exported, stop, i) then (claimed, InvalidArgument)
      else
        var stopped := if Count(exported, stop, i) == i.Size() then claimed - {i} else claimed;
        if !Complete(exported, start, i) then (stopped, InvalidArgument)
        else ClaimsFrom(exported, start, stop, if Count(exported, start, i) == i.Size() then stopped + {i}
          else stopped, k + 1)
  }

  /** Preparing succeeds exactly when every interface type is named completely or not at all, in both lists; then the
      started types are claimed, the stopped ones are not, and a type in both lists is. */
  lemma PrepareClaims(exported: set<string>, start: seq<string>, stop: seq<string>, claimed: set<Interface>, k: nat)
    requires k <= |INFOS|
    ensures var r := ClaimsFrom(exported, start, stop, claimed, k);
      && r.1 != Error
      && (r.1 == Ok <==> forall j :: k <= j < |INFOS| ==>
        Complete(exported, stop, INFOS[j]) && Complete(exported, start, INFOS[j]))
      && (r.1 == Ok ==> forall j :: k <= j < |INFOS| ==>
            (INFOS[j] in r.0 <==>
              Count(exported, start, INFOS[j]) > 0 || (INFOS[j] in claimed && Count(exported, stop, INFOS[j]) == 0)))
      && (forall j :: 0 <= j < k ==> (INFOS[j] in r.0 <==> INFOS[j] in claimed))
    decreases |INFOS| - k
  {
    hide Count;
    if k < |INFOS| {
      var i := INFOS[k];
      assert forall j :: 0 <= j < |INFOS| && j != k ==> INFOS[j] != i;
      if Complete(exported, stop, i) && Complete(exported, start, i) {
        var stopped := if Count(exported, stop, i) == i.Size() then claimed - {i} else claimed;
        PrepareClaims(exported, start, stop, if Count(exported, start, i) == i.Size() then stopped + {i}
          else stopped, k + 1);
      }
    }
  }

  /** When preparing fails it is at the first type that is named incompletely: the claims of the types before are
      changed already, that type may have been released but is not claimed anew, and those after it are as before. */
  lemma PrepareFailsAt(exported: set<string>, start: seq<string>, stop: seq<string>, claimed: set<Interface>, k: nat)
    returns (m: nat)
    requires k <= |INFOS| && ClaimsFrom(exported, start, stop, claimed, k).1 == InvalidArgument
    ensures k <= m < |INFOS|
    ensures !(Complete(exported, stop, INFOS[m]) && Complete(exported, start, INFOS[m]))
    ensures forall j :: k <= j < m ==> Complete(exported, stop, INFOS[j]) && Complete(exported, start, INFOS[j])
    ensures var r := ClaimsFrom(exported, start, stop, claimed, k).0;
      && (forall j :: k <= j < m ==>
            (INFOS[j] in r <==>
              || Count(exported, start, INFOS[j]) > 0
              || (INFOS[j] in claimed && Count(exported, stop, INFOS[j]) == 0)))
      && (INFOS[m] in r <==>
            INFOS[m] in claimed && !(Complete(exported, stop, INFOS[m]) && Count(exported, stop, INFOS[m]) > 0))
      && (forall j :: 0 <= j < |INFOS| && (j < k || j > m) ==> (INFOS[j] in r <==> INFOS[j] in claimed))
    decreases |INFOS| - k
  {
    hide Count;
    var i := INFOS[k];
    assert forall j :: 0 <= j < |INFOS| && j != k ==> INFOS[j] != i;
    if Complete(exported, stop, i) && Complete(exported, start, i) {
      var stopped := if Count(exported, stop, i) == i.Size() then claimed - {i} else claimed;
      m := PrepareFailsAt(exported, start, stop,
        if Count(exported, start, i) == i.Size() then stopped + {i} else stopped, k + 1);
    } else {
      m := k;
    }
  }

  /** The type of an interface of a joint is what follows the slash. */
  lemma TypeOfPart(part: string, suffix: string)
    requires '/' !in part && suffix != []
    ensures TypeOf(part + "/" + suffix) == Some(suffix)
  {
    var name := part + "/" + suffix;
    SlashAfterPart(part, suffix);
    assert name[|part| + 1..] == suffix;
  }

  lemma {:induction false} SlashAfterPart(part: string, rest: string)
    requires '/' !in part
    ensures FirstSlash(part + "/" + rest) == |part|
  {
    if part != [] {
      assert part[0] in part;
      assert (part + "/" + rest)[1..] == part[1..] + "/" + rest;
      SlashAfterPart(part[1..], rest);
    }
  }

  /** Which type an exported interface of a joint or another part is of. */
  lemma TypesByName(exported: set<string>, part: string, i: Interface)
    requires '/' !in part
    ensures part + "/effort" in exported ==> (IsOfType(exported, part + "/effort", i) <==> i == Effort)
    ensures part + "/velocity" in exported ==> (IsOfType(exported, part + "/velocity", i) <==> i == JointVelocity)
    ensures part + "/position" in exported ==> (IsOfType(exported, part + "/position", i) <==> i == JointPosition)
    ensures part + "/elbow_command" in exported ==> (IsOfType(exported, part + "/elbow_command", i) <==> i == Elbow)
    ensures part + "/cartesian_velocity" in exported ==>
      (IsOfType(exported, part + "/cartesian_velocity", i) <==> i == CartesianVelocity)
    ensures part + "/cartesian_pose_command" in exported ==>
      (IsOfType(exported, part + "/cartesian_pose_command", i) <==> i == CartesianPose)
  {
    hide TypeOf;
    assert part + "/effort" == part + "/" + "effort";
    assert part + "/velocity" == part + "/" + "velocity";
    assert part + "/position" == part + "/" + "position";
    assert part + "/elbow_command" == part + "/" + "elbow_command";
    assert part + "/cartesian_velocity" == part + "/" + "cartesian_velocity";
    assert part + "/cartesian_pose_command" == part + "/" + "cartesian_pose_command";
    TypeOfPart(part, "effort");
    TypeOfPart(part, "velocity");
    TypeOfPart(part, "position");
    TypeOfPart(part, "elbow_command");
    TypeOfPart(part, "cartesian_velocity");
    TypeOfPart(part, "cartesian_pose_command");
    NamesDiffer();
  }

  /** A name that is not exported, or has no slash, is of no type. */
  lemma NoType(exported: set<string>, name: string, i: Interface)
    requires name !in exported || '/' !in name
    ensures !IsOfType(exported, name, i)
  {
    if '/' !in name {
      var k := FirstSlash(name);
      assert k == |name|;
    }
  }

  lemma NamesDiffer()
    ensures forall i: Interface, j: Interface :: i != j ==> TypeName(i) != TypeName(j)
  {
    assert |TypeName(Effort)| == 6 && |TypeName(JointVelocity)| == 8 && |TypeName(JointPosition)| == 8;
    assert |TypeName(Elbow)| == 13 && |TypeName(CartesianVelocity)| == 18 && |TypeName(CartesianPose)| == 22;
    assert TypeName(JointVelocity)[0] != TypeName(JointPosition)[0];
  }

  /** The interfaces of a kind of all the parts. */
  function Names(parts: seq<string>, suffix: string): (names: seq<string>)
    ensures |names| == |parts|
  {
    seq(|parts|, k requires 0 <= k < |parts| => parts[k] + "/" + suffix)
  }

  predicate Exported(exported: set<string>, parts: seq<string>, suffix: string) {
    forall k :: 0 <= k < |parts| ==> '/' !in parts[k] && parts[k] + "/" + suffix in exported
  }

  /** The kinds of interfaces: how they are called, and how many there are. */
  ghost predicate Kind(suffix: string, i: Interface, n: nat) {
    || (suffix == "effort" && i == Effort && n == 7)
    || (suffix == "velocity" && i == JointVelocity && n == 7)
    || (suffix == "position" && i == JointPosition && n == 7)
    || (suffix == "elbow_command" && i == Elbow && n == 2)
    || (suffix == "cartesian_velocity" && i == CartesianVelocity && n == 6)
    || (suffix == "cartesian_pose_command" && i == CartesianPose && n == 16)
  }

  lemma TypeOfKind(exported: set<string>, part: string, suffix: string, i: Interface, j: Interface)
    requires Kind(suffix, i, i.Size()) && '/' !in part && part + "/" + suffix in exported
    ensures IsOfType(exported, part + "/" + suffix, j) <==> j == i
  {
    hide TypeOf;
    TypeOfPart(part, suffix);
    NamesDiffer();
    assert suffix == TypeName(i);
  }

  lemma {:induction false} CountOfNames(exported: set<string>, parts: seq<string>, suffix: string, i: Interface,
      j: Interface)
    requires Kind(suffix, i, i.Size()) && Exported(exported, parts, suffix)
    ensures Count(exported, Names(parts, suffix), j) == if j == i then |parts| else 0
    decreases |parts|
  {
    hide IsOfType, TypeOf;
    if parts != [] {
      var n := |parts| - 1;
      assert Names(parts, suffix)[..n] == Names(parts[..n], suffix);
      CountOfNames(exported, parts[..n], suffix, i, j);
      TypeOfKind(exported, parts[n], suffix, i, j);
    }
  }

  lemma {:induction false} CountOfConcat(exported: set<string>, a: seq<string>, b: seq<string>, i: Interface)
    ensures Count(exported, a + b, i) == Count(exported, a, i) + Count(exported, b, i)
    decreases |b|
  {
    if b == [] {
      assert a + b == a;
    } else {
      assert (a + b)[..|a + b| - 1] == a + b[..|b| - 1];
      CountOfConcat(exported, a, b[..|b| - 1], i);
    }
  }

  lemma ClaimsByCount(exported: set<string>, start: seq<string>, claims: set<Interface>)
    requires forall i: Interface :: Count(exported, start, i) == if i in claims then i.Size() else 0
    ensures ClaimsFrom(exported, start, [], {}, 0) == (claims, Ok)
  {
    PrepareClaims(exported, start, [], {}, 0);
    var (claimed, r) := ClaimsFrom(exported, start, [], {}, 0);
    hide ClaimsFrom;
    assert forall j :: 0 <= j < |INFOS| ==> Count(exported, [], INFOS[j]) == 0;
    assert r == Ok;
    forall i: Interface ensures i in claimed <==> i in claims {
      var j :| 0 <= j < |INFOS| && INFOS[j] == i;
    }
    assert claimed == claims;
  }

  /** Naming all the exported interfaces of one kind, and nothing else, is accepted and claims exactly that kind. */
  lemma NamesClaimTheirKind(exported: set<string>, parts: seq<string>, suffix: string, i: Interface)
    requires Kind(suffix, i, |parts|) && Exported(exported, parts, suffix)
    ensures ClaimsFrom(exported, Names(parts, suffix), [], {}, 0) == ({i}, Ok)
  {
    hide Count, ClaimsFrom;
    assert i.Size() == |parts|;
    forall j: Interface ensures Count(exported, Names(parts, suffix), j) == if j in {i} then j.Size() else 0 {
      CountOfNames(exported, parts, suffix, i, j);
    }
    ClaimsByCount(exported, Names(parts, suffix), {i});
  }

  /** Naming the seven effort and the seven joint position interfaces is accepted and claims both modes. */
  lemma TwoModesAreAccepted(exported: set<string>, joints: seq<string>)
    requires |joints| == 7 && Exported(exported, joints, "effort") && Exported(exported, joints, "position")
    ensures ClaimsFrom(exported, Names(joints, "effort") + Names(joints, "position"), [], {}, 0)
      == ({Effort, JointPosition}, Ok)
  {
    hide Count, ClaimsFrom;
    var a, b := Names(joints, "effort"), Names(joints, "position");
    forall j: Interface ensures Count(exported, a + b, j) == if j in {Effort, JointPosition} then j.Size() else 0 {
      CountOfConcat(exported, a, b, j);
      CountOfNames(exported, joints, "effort", Effort, j);
      CountOfNames(exported, joints, "position", JointPosition, j);
    }
    ClaimsByCount(exported, a + b, {Effort, JointPosition});
  }

  // -------------------------------------------------------------------------
  // The object
  // -------------------------------------------------------------------------

  /** One flag per command interface. */
  datatype Flags = Flags(effort: bool, velocityJoint: bool, positionJoint: bool, elbow: bool, velocityCartesian: bool,
      poseCartesian: bool) {
    predicate Has(i: Interface) {
      match i
      case Effort => effort
      case JointVelocity => velocityJoint
      case JointPosition => positionJoint
      case Elbow => elbow
      case CartesianVelocity => velocityCartesian
      case CartesianPose => poseCartesian
    }

    function With(i: Interface, flag: bool): (f: Flags)
      ensures f.Set() == if flag then Set() + {i} else Set() - {i}
    {
      match i
      case Effort => this.(effort := flag)
      case JointVelocity => this.(velocityJoint := flag)
      case JointPosition => this.(positionJoint := flag)
      case Elbow => this.(elbow := flag)
      case CartesianVelocity => this.(velocityCartesian := flag)
      case CartesianPose => this.(poseCartesian := flag)
    }

    ghost function Set(): set<Interface> {
      set i | i in ALL && Has(i)
    }
  }

  const NO_FLAGS := Flags(false, false, false, false, false, false)

  lemma HasMeansIn(f: Flags)
    ensures forall i :: i in f.Set() <==> f.Has(i)
  {
    forall i: Interface ensures i in ALL {
      EveryInterface(i);
    }
  }

  lemma FiniteBuffers(b: Buffers)
    requires b.Keys == ALL
    ensures AllFinite(b) <==>
      && !HasInfinite(b[JointPosition]) && !HasInfinite(b[Effort]) && !HasInfinite(b[JointVelocity])
      && !HasInfinite(b[CartesianVelocity]) && !HasInfinite(b[Elbow]) && !HasInfinite(b[CartesianPose])
  {
    if AllFinite(b) {
      forall i | i in b ensures !HasInfinite(b[i]) {
      }
    } else {
      var i :| i in b && HasInfinite(b[i]);
    }
  }

  class FrankaHardwareInterface {
    const robot: Robot
    const exportedCommandInterfaces: set<string>

    /** The claimed, the running and the first-update flag of every interface. */
    var claimed: Flags
    var running: Flags
    var firstUpdate: Flags

    /** The command buffers by interface. */
    var commands: Buffers

    /** The abstract state. */
    ghost function State(): State
      reads this, robot
    {
      ModeSwitch.State(claimed.Set(), running.Set(), firstUpdate.Set(), commands, robot.activeControl, robot.Flags())
    }

    constructor (robot: Robot, exported: set<string>)
      requires robot.activeControl == None && robot.Flags() == {}
      ensures this.robot == robot && exportedCommandInterfaces == exported
      ensures Initial(State())
    {
      this.robot := robot;
      exportedCommandInterfaces := exported;
      claimed, running := NO_FLAGS, NO_FLAGS;
      firstUpdate := NO_FLAGS.With(Elbow, true).With(JointPosition, true).With(CartesianPose, true);
      commands := map[Effort := Zeros(7), JointVelocity := Zeros(7), JointPosition := Zeros(7), Elbow := Zeros(2),
                      CartesianVelocity := Zeros(6),
                        CartesianPose := seq(16, k => Finite(if k % 5 == 0 then 1.0 else 0.0))];
    }

    method PrepareCommandModeSwitch(startInterfaces: seq<string>, stopInterfaces: seq<string>)
        returns (r: PrepareResult)
      modifies this
      ensures |startInterfaces| == MAX_NUMBER_START_INTERFACES ==> r == Error && State() == old(State())
      ensures |startInterfaces| != MAX_NUMBER_START_INTERFACES ==>
        var after := ClaimsFrom(exportedCommandInterfaces, startInterfaces, stopInterfaces, old(State()).claimed, 0);
        r == after.1 && State() == old(State()).(claimed := after.0)
    {
      hide Count;
      if |startInterfaces| == MAX_NUMBER_START_INTERFACES {
        return Error;
      }
      var k := 0;
      while k < |INFOS|
        invariant k <= |INFOS|
        invariant State() == old(State()).(claimed := State().claimed)
        invariant ClaimsFrom(exportedCommandInterfaces, startInterfaces, stopInterfaces, State().claimed, k)
               == ClaimsFrom(exportedCommandInterfaces, startInterfaces, stopInterfaces, old(State()).claimed, 0)
      {
        var info := INFOS[k];
        var numStop := Count(exportedCommandInterfaces, stopInterfaces, info);
        var numStart := Count(exportedCommandInterfaces, startInterfaces, info);
        if numStop == info.Size() {
          claimed := claimed.With(info, false);
        } else if numStop != 0 {
          return InvalidArgument;
        }
        if numStart == info.Size() {
          claimed := claimed.With(info, true);
        } else if numStart != 0 {
          return InvalidArgument;
        }
        k := k + 1;
      }
      return Ok;
    }

    /** The elbow starts along with a Cartesian mode when it is claimed and not running. */
    method StartElbow()
      modifies `running, `firstUpdate
      ensures running.Set() == old(running).Set() + (if claimed.Has(Elbow) then {Elbow} else {})
      ensures firstUpdate.Set() ==
        old(firstUpdate).Set() + (if claimed.Has(Elbow) && !old(running).Has(Elbow) then {Elbow} else {})
    {
      if !running.Has(Elbow) && claimed.Has(Elbow) {
        running := running.With(Elbow, true);
        firstUpdate := firstUpdate.With(Elbow, true);
      }
    }

    /** The elbow stops along with the Cartesian mode, and a running elbow loses its claim. */
    method StopElbow()
      modifies `running, `claimed
      ensures running.Set() == old(running).Set() - {Elbow}
      ensures claimed.Set() == old(claimed).Set() - (if old(running).Has(Elbow) then {Elbow} else {})
    {
      if running.Has(Elbow) {
        running := running.With(Elbow, false);
        claimed := claimed.With(Elbow, false);
      }
    }

    method SwitchEffort()
      modifies this, robot
      ensures State() == Block(old(State()), Effort)
    {
      hide Robot.Flags, Flags.Set, Flags.Has, Zeros;
      HasMeansIn(claimed);
      HasMeansIn(running);
      if !running.Has(Effort) && claimed.Has(Effort) {
        commands := commands[Effort := Zeros(7)];
        robot.StopRobot();
        robot.InitializeTorqueInterface();
        running := running.With(Effort, true);
      } else if running.Has(Effort) && !claimed.Has(Effort) {
        robot.StopRobot();
        running := running.With(Effort, false);
      }
    }

    method SwitchJointVelocity()
      modifies this, robot
      ensures State() == Block(old(State()), JointVelocity)
    {
      hide Robot.Flags, Flags.Set, Flags.Has, Zeros;
      HasMeansIn(claimed);
      HasMeansIn(running);
      if !running.Has(JointVelocity) && claimed.Has(JointVelocity) {
        commands := commands[JointVelocity := Zeros(7)];
        robot.StopRobot();
        robot.InitializeJointVelocityInterface();
        running := running.With(JointVelocity, true);
      } else if running.Has(JointVelocity) && !claimed.Has(JointVelocity) {
        robot.StopRobot();
        running := running.With(JointVelocity, false);
      }
    }

    method SwitchJointPosition()
      modifies this, robot
      ensures State() == Block(old(State()), JointPosition)
    {
      hide Robot.Flags, Flags.Set, Flags.Has, Zeros;
      HasMeansIn(claimed);
      HasMeansIn(running);
      if !running.Has(JointPosition) && claimed.Has(JointPosition) {
        robot.StopRobot();
        robot.InitializeJointPositionInterface();
        running := running.With(JointPosition, true);
        firstUpdate := firstUpdate.With(JointPosition, true);
      } else if running.Has(JointPosition) && !claimed.Has(JointPosition) {
        robot.StopRobot();
        running := running.With(JointPosition, false);
      }
    }

    method SwitchCartesianVelocity()
      modifies this, robot
      ensures State() == Block(old(State()), CartesianVelocity)
    {
      hide Robot.Flags, Flags.Set, Flags.Has, Zeros;
      HasMeansIn(claimed);
      HasMeansIn(running);
      if !running.Has(CartesianVelocity) && claimed.Has(CartesianVelocity) {
        commands := commands[CartesianVelocity := Zeros(6)];
        robot.StopRobot();
        robot.InitializeCartesianVelocityInterface();
        StartElbow();
        running := running.With(CartesianVelocity, true);
      } else if running.Has(CartesianVelocity) && !claimed.Has(CartesianVelocity) {
        robot.StopRobot();
        StopElbow();
        running := running.With(CartesianVelocity, false);
      }
    }

    method SwitchCartesianPose()
      modifies this, robot
      ensures State() == Block(old(State()), CartesianPose)
    {
      hide Robot.Flags, Flags.Set, Flags.Has, Zeros;
      HasMeansIn(claimed);
      HasMeansIn(running);
      if !running.Has(CartesianPose) && claimed.Has(CartesianPose) {
        robot.StopRobot();
        robot.InitializeCartesianPoseInterface();
        StartElbow();
        running := running.With(CartesianPose, true);
        firstUpdate := firstUpdate.With(CartesianPose, true);
      } else if running.Has(CartesianPose) && !claimed.Has(CartesianPose) {
        robot.StopRobot();
        StopElbow();
        running := running.With(CartesianPose, false);
      }
    }

    /** Runs the blocks of the five modes in turn and reports an elbow claimed without a Cartesian mode. */
    method PerformCommandModeSwitch() returns (ok: bool)
      modifies this, robot
      ensures State() == Perform(old(State()))
      ensures ok == Accepted(State())
      ensures forall m :: m != Elbow ==> (m in State().running <==> m in old(State()).claimed)
    {
      ghost var s := State();
      SwitchEffort();
      SwitchJointVelocity();
      SwitchJointPosition();
      SwitchCartesianVelocity();
      SwitchCartesianPose();
      assert State() == Perform(s) by {
        hide Block;
        FiveBlocks(s);
      }
      PerformRunsTheClaims(s);
      HasMeansIn(claimed);
      ok := !(claimed.Has(Elbow) && !(claimed.Has(CartesianVelocity) || claimed.Has(CartesianPose)));
    }

    /** Seeds each position-like buffer on the first reading after its interface was started. */
    method Read(measured: RobotState)
      requires commands.Keys == ALL
      modifies this, robot
      ensures State() == ModeSwitch.Read(old(State()), measured)
      ensures robot.currentState == measured
      ensures commands.Keys == ALL
      ensures old(running.Has(JointPosition) && firstUpdate.Has(JointPosition)) ==>
        commands[JointPosition] == measured.q && !firstUpdate.Has(JointPosition)
      ensures old(running.Has(Elbow) && firstUpdate.Has(Elbow)) ==>
        commands[Elbow] == measured.elbow && !firstUpdate.Has(Elbow)
      ensures old(running.Has(CartesianPose) && firstUpdate.Has(CartesianPose)) ==>
        commands[CartesianPose] == measured.pose && !firstUpdate.Has(CartesianPose)
    {
      hide Robot.Flags, Flags.Set, Flags.Has;
      HasMeansIn(running);
      HasMeansIn(firstUpdate);
      ghost var t := ModeSwitch.Read(State(), measured);
      var state := robot.ReadOnce(measured);
      InitializeCommand(Elbow, state.elbow);
      InitializeCommand(JointPosition, state.q);
      InitializeCommand(CartesianPose, state.pose);
      assert firstUpdate.Set() == t.unseeded;
      assert commands == t.buffers;
      HasMeansIn(firstUpdate);
    }

    /** Seeds a command on the first update of a running interface. */
    method InitializeCommand(i: Interface, newCommand: seq<Double>)
      modifies `commands, `firstUpdate
      ensures firstUpdate.Set() == old(firstUpdate).Set() - (if running.Has(i) then {i} else {})
      ensures commands == if i in old(firstUpdate).Set() && running.Has(i) then old(commands)[i := newCommand]
        else old(commands)
    {
      HasMeansIn(firstUpdate);
      if firstUpdate.Has(i) && running.Has(i) {
        commands := commands[i := newCommand];
        firstUpdate := firstUpdate.With(i, false);
      }
    }

    method Write() returns (w: WriteOutcome)
      requires commands.Keys == ALL
      ensures w == ModeSwitch.Write(State())
    {
      hide Robot.Flags, Flags.Set, Flags.Has;
      HasMeansIn(running);
      HasMeansIn(firstUpdate);
      FiniteBuffers(commands);
      if HasInfinite(commands[JointPosition]) || HasInfinite(commands[Effort]) || HasInfinite(commands[JointVelocity])
         || HasInfinite(commands[CartesianVelocity]) || HasInfinite(commands[Elbow]) ||
           HasInfinite(commands[CartesianPose]) {
        return NonFinite;
      }
      hide AllFinite, HasInfinite;
      var r := Nothing;
      if running.Has(JointVelocity) {
        r := robot.WriteOnce(commands[JointVelocity]);
      } else if running.Has(Effort) {
        r := robot.WriteOnce(commands[Effort]);
      } else if running.Has(JointPosition) && !firstUpdate.Has(JointPosition) {
        r := robot.WriteOnce(commands[JointPosition]);
      } else if running.Has(CartesianVelocity) && running.Has(Elbow) && !firstUpdate.Has(Elbow) {
        r := robot.WriteOnceWithElbow(commands[CartesianVelocity], commands[Elbow]);
      } else if running.Has(CartesianPose) && running.Has(Elbow) && !firstUpdate.Has(CartesianPose) &&
        !firstUpdate.Has(Elbow) {
        r := robot.WriteOnceWithElbow(commands[CartesianPose], commands[Elbow]);
      } else if running.Has(CartesianPose) && !firstUpdate.Has(CartesianPose) {
        r := robot.WriteOnce(commands[CartesianPose]);
      } else if running.Has(CartesianVelocity) && !running.Has(Elbow) {
        r := robot.WriteOnce(commands[CartesianVelocity]);
      }
      return WriteOutcome.Robot(r);
    }

    method OnDeactivate()
      modifies robot
      ensures State() == Stopped(old(State()))
      ensures robot.activeControl == None
    {
      robot.StopRobot();
    }
  }

  predicate HasInfinite(commands: seq<Double>) {
    exists k | 0 <= k < |commands| :: !commands[k].Finite?
  }
}
