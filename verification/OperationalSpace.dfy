/** The operational-space torque: task inertia, null-space projector and saturation. */
module OperationalSpace {
  import opened RealMath
  import opened Matrices
  import AngleWrap

  // -------------------------------------------------------------------------
  // The projector, for any number of joints and task directions
  // -------------------------------------------------------------------------

  /** x solves m x = j' and y solves (j x) y = x', where m is symmetric. */
  ghost predicate Solved(j: Matrix, m: Matrix, x: Matrix, y: Matrix) {
    && Shape(m, j.cols, j.cols) && Shape(x, j.cols, j.rows) && Shape(y, j.rows, j.cols)
    && Symmetric(m)
    && Product(m, x) == Transpose(j)
    && Product(Product(j, x), y) == Transpose(x)
  }

  function Projector(j: Matrix, y: Matrix): (n: Matrix)
    requires Shape(y, j.rows, j.cols)
    ensures Shape(n, j.cols, j.cols)
  {
    Difference(Identity(j.cols), Product(Transpose(j), y))
  }

  lemma JacobianFromSolution(j: Matrix, m: Matrix, x: Matrix)
    requires Shape(m, j.cols, j.cols) && Shape(x, j.cols, j.rows) && Symmetric(m) && Product(m, x) == Transpose(j)
    ensures j == Product(Transpose(x), m)
  {
    TransposeTwice(j);
    TransposeOfProduct(m, x);
  }

  lemma TaskInertiaIsSymmetric(j: Matrix, m: Matrix, x: Matrix)
    requires Shape(m, j.cols, j.cols) && Shape(x, j.cols, j.rows) && Symmetric(m) && Product(m, x) == Transpose(j)
    ensures Symmetric(Product(j, x))
  {
    hide Product, Transpose;
    JacobianFromSolution(j, m, x);
    TransposeOfProduct(j, x);
    Associative(Transpose(x), m, x);
  }

  lemma DifferenceOfSame(a: Matrix)
    ensures Difference(a, a) == Zero(a.rows, a.cols)
    ensures Difference(a, Zero(a.rows, a.cols)) == a
    ensures Sum(a, Zero(a.rows, a.cols)) == a
  {
    SameEntries(Difference(a, a), Zero(a.rows, a.cols));
    SameEntries(Difference(a, Zero(a.rows, a.cols)), a);
    SameEntries(Sum(a, Zero(a.rows, a.cols)), a);
  }

  /** The projector wipes out everything that shows in task space. */
  lemma ProjectorIsUnseen(j: Matrix, m: Matrix, x: Matrix, y: Matrix)
    requires Solved(j, m, x, y)
    ensures Product(Transpose(x), Projector(j, y)) == Zero(j.rows, j.cols)
  {
    hide Product, Transpose, Difference, Identity, Zero;
    var xt, jt := Transpose(x), Transpose(j);
    TimesSum(xt, Identity(j.cols), Product(jt, y));
    TimesIdentity(xt);
    Associative(xt, jt, y);
    TransposeOfProduct(j, x);
    TaskInertiaIsSymmetric(j, m, x);
    DifferenceOfSame(xt);
  }

  /** A projected torque accelerates the joints without a task-space acceleration, whatever it projects. */
  lemma NoTaskAcceleration(j: Matrix, m: Matrix, x: Matrix, y: Matrix, u: Matrix, a: Matrix)
    requires Solved(j, m, x, y) && u.rows == j.cols && Shape(a, j.cols, u.cols)
    requires Product(m, a) == Product(Projector(j, y), u)
    ensures Product(j, a) == Zero(j.rows, u.cols)
  {
    hide Product, Transpose, Projector, Zero;
    JacobianFromSolution(j, m, x);
    Associative(Transpose(x), m, a);
    Associative(Transpose(x), Projector(j, y), u);
    ProjectorIsUnseen(j, m, x, y);
    ZeroTimes(j.rows, u);
  }

  /** With the mass matrix's inverse written out. */
  lemma NoTaskEffect(j: Matrix, m: Matrix, inverse: Matrix, x: Matrix, y: Matrix, u: Matrix)
    requires Solved(j, m, x, y) && u.rows == j.cols
    requires Shape(inverse, j.cols, j.cols) && Product(m, inverse) == Identity(j.cols)
    ensures Product(j, Product(inverse, Product(Projector(j, y), u))) == Zero(j.rows, u.cols)
  {
    hide Product, Projector, Zero, Identity;
    var t := Product(Projector(j, y), u);
    Associative(m, inverse, t);
    IdentityTimes(t);
    NoTaskAcceleration(j, m, x, y, u, Product(inverse, t));
  }

  /** Task and null-space torque together give the task-space acceleration of the wrench alone. */
  lemma TaskAcceleration(j: Matrix, m: Matrix, x: Matrix, y: Matrix, wrench: Matrix, u: Matrix, a: Matrix)
    requires Solved(j, m, x, y) && wrench.rows == j.rows && Shape(u, j.cols, wrench.cols) &&
      Shape(a, j.cols, wrench.cols)
    requires Product(m, a) == Sum(Product(Transpose(j), wrench), Product(Projector(j, y), u))
    ensures Product(j, a) == Product(Product(j, x), wrench)
  {
    hide Product, Transpose, Projector, Zero, Sum;
    var xt, jt, n := Transpose(x), Transpose(j), Projector(j, y);
    JacobianFromSolution(j, m, x);
    Associative(xt, m, a);
    TimesSum(xt, Product(jt, wrench), Product(n, u));
    Associative(xt, jt, wrench);
    TransposeOfProduct(j, x);
    TaskInertiaIsSymmetric(j, m, x);
    Associative(xt, n, u);
    ProjectorIsUnseen(j, m, x, y);
    ZeroTimes(j.rows, u);
    DifferenceOfSame(Product(Product(j, x), wrench));
  }

  lemma Undo(inverse: Matrix, a: Matrix, b: Matrix)
    requires Shape(inverse, a.cols, a.rows) && Product(inverse, a) == Identity(a.cols) && a.cols == b.rows
    ensures Product(inverse, Product(a, b)) == b
  {
    hide Product, Identity;
    Associative(inverse, a, b);
    IdentityTimes(b);
  }

  /** With an invertible task inertia, projecting twice is projecting once, and task torques project to nothing. */
  lemma ProjectorIsIdempotent(j: Matrix, m: Matrix, x: Matrix, y: Matrix, inverse: Matrix)
    requires Solved(j, m, x, y)
    requires Shape(inverse, j.rows, j.rows) && Product(inverse, Product(j, x)) == Identity(j.rows)
    ensures Product(Projector(j, y), Projector(j, y)) == Projector(j, y)
    ensures Product(Projector(j, y), Transpose(j)) == Zero(j.cols, j.rows)
  {
    ProjectedTwice(j, m, x, y, inverse);
    TaskTorquesVanish(j, m, x, y, inverse);
  }

  lemma ProjectedTwice(j: Matrix, m: Matrix, x: Matrix, y: Matrix, inverse: Matrix)
    requires Solved(j, m, x, y)
    requires Shape(inverse, j.rows, j.rows) && Product(inverse, Product(j, x)) == Identity(j.rows)
    ensures Product(Projector(j, y), Projector(j, y)) == Projector(j, y)
  {
    hide Product, Transpose, Zero, Identity, Difference;
    var a, jt, n := Product(j, x), Transpose(j), Projector(j, y);
    Associative(a, y, n);
    ProjectorIsUnseen(j, m, x, y);
    Undo(inverse, a, Product(y, n));
    TimesZero(inverse, j.cols);
    DifferenceTimes(Identity(j.cols), Product(jt, y), n);
    IdentityTimes(n);
    Associative(jt, y, n);
    TimesZero(jt, j.cols);
    DifferenceOfSame(n);
  }

  lemma TaskTorquesVanish(j: Matrix, m: Matrix, x: Matrix, y: Matrix, inverse: Matrix)
    requires Solved(j, m, x, y)
    requires Shape(inverse, j.rows, j.rows) && Product(inverse, Product(j, x)) == Identity(j.rows)
    ensures Product(Projector(j, y), Transpose(j)) == Zero(j.cols, j.rows)
  {
    hide Product, Transpose, Zero, Identity, Difference;
    var a, jt := Product(j, x), Transpose(j);
    Associative(a, y, jt);
    TransposeOfProduct(j, x);
    TaskInertiaIsSymmetric(j, m, x);
    Undo(inverse, a, Product(y, jt));
    DifferenceTimes(Identity(j.cols), Product(jt, y), jt);
    IdentityTimes(jt);
    Associative(jt, y, jt);
    TimesIdentity(jt);
    DifferenceOfSame(jt);
  }

  // -------------------------------------------------------------------------
  // The mass matrix
  // -------------------------------------------------------------------------

  /** The strictly lower triangle is copied from the upper one. */
  function Mirrored(m: Matrix): (r: Matrix)
    requires m.rows == m.cols
    ensures Shape(r, m.rows, m.cols)
  {
    Build(m.rows, m.cols, (i: nat, j: nat) => if i > j then At(m, j, i) else At(m, i, j))
  }

  function Corner(m: Matrix, rows: nat, cols: nat): (r: Matrix)
    requires rows <= m.rows && cols <= m.cols
    ensures Shape(r, rows, cols)
  {
    Build(rows, cols, (i: nat, j: nat) => At(m, i, j))
  }

  /** Whatever the lower triangle held, the corner of the mirrored matrix is symmetric. */
  lemma MassMatrixIsSymmetric(m: Matrix, n: nat)
    requires n <= m.rows == m.cols
    ensures Symmetric(Corner(Mirrored(m), n, n))
  {
    SameEntries(Transpose(Corner(Mirrored(m), n, n)), Corner(Mirrored(m), n, n));
  }

  // -------------------------------------------------------------------------
  // The controller
  // -------------------------------------------------------------------------

  const JOINTS: nat := 7
  const TASK: nat := 6

  datatype Config = Config(kp: seq<real>, kd: seq<real>, kpNull: real, kdNull: real, qDefault: seq<real>,
      tauLimit: real)

  ghost predicate ValidConfig(c: Config) {
    |c.kp| == TASK && |c.kd| == TASK && |c.qDefault| == JOINTS
  }

  /** What the model's dynamics give for the current state: the frame's Jacobian, the mass matrix with its upper
      triangle filled, and the bias torques. */
  datatype Dynamics = Dynamics(jacobian: Matrix, mass: Matrix, bias: seq<real>, gravity: seq<real>)

  ghost predicate ValidDynamics(d: Dynamics) {
    && d.jacobian.rows == TASK && JOINTS <= d.jacobian.cols
    && d.mass.rows == d.mass.cols && JOINTS <= d.mass.rows
    && JOINTS <= |d.bias| && JOINTS <= |d.gravity|
  }

  function Column(v: seq<real>): (m: Matrix)
    ensures Shape(m, |v|, 1)
    ensures forall i: nat :: i < |v| ==> At(m, i, 0) == v[i]
  {
    Build(|v|, 1, (i: nat, j: nat) => if i < |v| then v[i] else 0.0)
  }

  function Jacobian(d: Dynamics): (j: Matrix)
    requires ValidDynamics(d)
    ensures Shape(j, TASK, JOINTS)
  {
    Corner(d.jacobian, TASK, JOINTS)
  }

  function Mass(d: Dynamics): (m: Matrix)
    requires ValidDynamics(d)
    ensures Shape(m, JOINTS, JOINTS)
  {
    Corner(Mirrored(d.mass), JOINTS, JOINTS)
  }

  function TaskWrench(c: Config, j: Matrix, dq: seq<real>, deltaPose: seq<real>): (w: seq<real>)
    requires ValidConfig(c) && Shape(j, TASK, JOINTS) && |dq| == JOINTS && |deltaPose| == TASK
    ensures |w| == TASK
  {
    var v := Product(j, Column(dq));
    seq(TASK, i requires 0 <= i < TASK => c.kp[i] * deltaPose[i] + c.kd[i] * -At(v, i, 0))
  }

  /** Damping and a spring along the shorter way to the default posture. */
  function NullCommand(c: Config, pi: real, q: seq<real>, dq: seq<real>): (u: seq<real>)
    requires ValidConfig(c) && pi > 0.0 && |q| == |dq| == JOINTS
    ensures |u| == JOINTS
  {
    seq(JOINTS, i requires 0 <= i < JOINTS =>
      c.kdNull * -dq[i] + c.kpNull * AngleWrap.WrapToPiFmod(pi, c.qDefault[i] - q[i]))
  }

  /** The Jacobian is that of the arm's joints; the mass matrix is what the upper triangle says. */
  lemma DynamicsAreRead(d: Dynamics, i: nat, k: nat)
    requires ValidDynamics(d)
    ensures i < TASK && k < JOINTS ==> At(Jacobian(d), i, k) == At(d.jacobian, i, k)
    ensures i <= k < JOINTS ==> At(Mass(d), i, k) == At(Mass(d), k, i) == At(d.mass, i, k)
  {
  }

  /** The velocity of the frame in a task direction. */
  function TaskVelocity(j: Matrix, dq: seq<real>, i: nat): real
    requires Shape(j, TASK, JOINTS) && |dq| == JOINTS
  {
    At(Product(j, Column(dq)), i, 0)
  }

  /** It sums the joint velocities as the Jacobian's row weighs them. */
  function Weighed(j: Matrix, i: nat, dq: seq<real>, n: nat): real
    requires n <= |dq|
  {
    if n == 0 then 0.0 else Weighed(j, i, dq, n - 1) + At(j, i, n - 1) * dq[n - 1]
  }

  lemma {:induction false} RowWeighs(j: Matrix, i: nat, dq: seq<real>, n: nat)
    requires n <= |dq|
    ensures RowTimesColumn(j, i, Column(dq), 0, n) == Weighed(j, i, dq, n)
  {
    if n > 0 {
      RowWeighs(j, i, dq, n - 1);
    }
  }

  lemma TaskVelocityIs(j: Matrix, dq: seq<real>, i: nat)
    requires Shape(j, TASK, JOINTS) && |dq| == JOINTS && i < TASK
    ensures TaskVelocity(j, dq, i) == Weighed(j, i, dq, JOINTS)
  {
    RowWeighs(j, i, dq, JOINTS);
  }

  /** The wrench is a spring on the pose error and a damper: in a direction at rest it is the spring's force, and the
      damping takes power from every motion, as much as the gain times the squared velocity. */
  lemma WrenchIsSpringAndDamper(
      c: Config, j: Matrix, dq: seq<real>, deltaPose: seq<real>, i: nat, v: real, spring: real)
    requires ValidConfig(c) && Shape(j, TASK, JOINTS) && |dq| == JOINTS && |deltaPose| == TASK && i < TASK
    requires v == Weighed(j, i, dq, JOINTS) && spring == c.kp[i] * deltaPose[i]
    ensures var w := TaskWrench(c, j, dq, deltaPose)[i];
      && (v == 0.0 ==> w == spring)
      && v * (w - spring) == -(c.kd[i] * (v * v))
      && (c.kd[i] >= 0.0 ==> v * (w - spring) <= 0.0)
  {
    hide TaskWrench, Weighed, TaskVelocity;
    TaskVelocityIs(j, dq, i);
    TaskWrenchAt(c, j, dq, deltaPose, i);
    DampingPower(v, c.kd[i], spring, TaskWrench(c, j, dq, deltaPose)[i]);
  }

  lemma TaskWrenchAt(c: Config, j: Matrix, dq: seq<real>, deltaPose: seq<real>, i: nat)
    requires ValidConfig(c) && Shape(j, TASK, JOINTS) && |dq| == JOINTS && |deltaPose| == TASK && i < TASK
    ensures TaskWrench(c, j, dq, deltaPose)[i] == c.kp[i] * deltaPose[i] + c.kd[i] * -TaskVelocity(j, dq, i)
  {
  }

  lemma DampingPower(v: real, kd: real, spring: real, w: real)
    requires w == spring + kd * -v
    ensures v == 0.0 ==> w == spring
    ensures v * (w - spring) == -(kd * (v * v))
    ensures kd >= 0.0 ==> v * (w - spring) <= 0.0
  {
    SquarePositive(v);
    if kd >= 0.0 {
      ProductNonNeg(kd, v * v);
    }
  }

  /** The null-space command is a spring along the shortest way to the default posture, and a damper. */
  lemma NullCommandIsSpringAndDamper(c: Config, pi: real, q: seq<real>, dq: seq<real>, i: nat) returns (way: real)
    requires ValidConfig(c) && pi > 0.0 && |q| == |dq| == JOINTS && i < JOINTS
    ensures IsShortestWay(pi, c.qDefault[i] - q[i], way)
    ensures var u := NullCommand(c, pi, q, dq)[i];
      && (dq[i] == 0.0 ==> u == c.kpNull * way)
      && dq[i] * (u - c.kpNull * way) == -(c.kdNull * (dq[i] * dq[i]))
      && (c.kdNull >= 0.0 ==> dq[i] * (u - c.kpNull * way) <= 0.0)
  {
    way := AngleWrap.WrapToPiFmod(pi, c.qDefault[i] - q[i]);
    WrappedIsShortest(pi, c.qDefault[i] - q[i], way);
    hide AngleWrap.WrapToPiFmod, IsShortestWay;
    DampingPower(dq[i], c.kdNull, c.kpNull * way, NullCommand(c, pi, q, dq)[i]);
  }

  /** The way leads to the same angle, and no way that does is shorter. */
  ghost predicate IsShortestWay(pi: real, distance: real, way: real) {
    && AngleWrap.SameAngle(pi, way, distance)
    && forall n :: AngleWrap.SameAngle(pi, way, n) ==> Abs(way) <= Abs(n)
  }

  lemma WrappedIsShortest(pi: real, distance: real, way: real)
    requires pi > 0.0 && way == AngleWrap.WrapToPiFmod(pi, distance)
    ensures IsShortestWay(pi, distance, way)
  {
    AngleWrap.FmodFormWraps(pi, distance);
    forall n | AngleWrap.SameAngle(pi, way, n) ensures Abs(way) <= Abs(n) {
      AngleWrap.ShortestAngle(pi, way, n);
    }
  }

  ghost predicate Invertible(a: Matrix)
    requires a.rows == a.cols
  {
    exists b: Matrix :: Shape(b, a.rows, a.rows) && Product(b, a) == Identity(a.rows)
  }

  /** Solves systems of an invertible matrix exactly. */
  ghost predicate ExactSolver(solve: (Matrix, Matrix) -> Matrix) {
    forall a: Matrix, b: Matrix :: a.rows == a.cols == b.rows ==>
      && Shape(solve(a, b), b.rows, b.cols)
      && (Invertible(a) ==> Product(a, solve(a, b)) == b)
  }

  /** The controller's solutions: the mass matrix against the Jacobian, and the task inertia against those. */
  function MassSolution(d: Dynamics, solve: (Matrix, Matrix) -> Matrix): (x: Matrix)
    requires ValidDynamics(d) && ExactSolver(solve)
    ensures Shape(x, JOINTS, TASK)
  {
    solve(Mass(d), Transpose(Jacobian(d)))
  }

  function TaskInertia(d: Dynamics, solve: (Matrix, Matrix) -> Matrix): (a: Matrix)
    requires ValidDynamics(d) && ExactSolver(solve)
    ensures Shape(a, TASK, TASK)
  {
    Product(Jacobian(d), MassSolution(d, solve))
  }

  function TaskSolution(d: Dynamics, solve: (Matrix, Matrix) -> Matrix): (y: Matrix)
    requires ValidDynamics(d) && ExactSolver(solve)
    ensures Shape(y, TASK, JOINTS)
  {
    solve(TaskInertia(d, solve), Transpose(MassSolution(d, solve)))
  }

  lemma ExactSolution(solve: (Matrix, Matrix) -> Matrix, a: Matrix, b: Matrix)
    requires ExactSolver(solve) && a.rows == a.cols == b.rows && Invertible(a)
    ensures Shape(solve(a, b), b.rows, b.cols) && Product(a, solve(a, b)) == b
  {
  }

  /**
    * A projected torque has no effect in the task, projecting twice is projecting once,
    * and task torques project to nothing.
    */
  ghost predicate Projects(j: Matrix, m: Matrix, n: Matrix)
    requires Shape(m, j.cols, j.cols) && Shape(n, j.cols, j.cols)
  {
    && Product(n, n) == n
    && Product(n, Transpose(j)) == Zero(j.cols, j.rows)
    && forall u: Matrix, a: Matrix :: u.rows == j.cols && Shape(a, j.cols, u.cols) && Product(m, a) == Product(n, u) ==>
      Product(j, a) == Zero(j.rows, u.cols)
  }

  /** The controller's projector does that whenever the mass matrix and the task inertia are invertible. */
  lemma ControllerProjects(d: Dynamics, solve: (Matrix, Matrix) -> Matrix)
    requires ValidDynamics(d) && ExactSolver(solve)
    requires Invertible(Mass(d)) && Invertible(TaskInertia(d, solve))
    ensures Projects(Jacobian(d), Mass(d), Projector(Jacobian(d), TaskSolution(d, solve)))
  {
    hide Product, Difference, Transpose, Identity, Build, ExactSolver, Zero, Projector;
    var j, m, x, y := Jacobian(d), Mass(d), MassSolution(d, solve), TaskSolution(d, solve);
    var inverse: Matrix :| Shape(inverse, TASK, TASK) && Product(inverse, TaskInertia(d, solve)) == Identity(TASK);
    MassMatrixIsSymmetric(d.mass, JOINTS);
    ExactSolution(solve, m, Transpose(j));
    ExactSolution(solve, TaskInertia(d, solve), Transpose(x));
    ProjectorIsIdempotent(j, m, x, y, inverse);
    var n := Projector(j, y);
    forall u: Matrix, a: Matrix | u.rows == j.cols && Shape(a, j.cols, u.cols) && Product(m, a) == Product(n, u)
      ensures Product(j, a) == Zero(j.rows, u.cols)
    {
      NoTaskAcceleration(j, m, x, y, u, a);
    }
  }

  class CartesianImpedanceOsc {
    const armDofs: int
    var configured: bool
    var config: Config
    var projector: Matrix
    var tauTask: Matrix
    var tauNull: Matrix
    const tauTotal: array<real>

    ghost predicate Valid()
      reads this
    {
      tauTotal.Length == JOINTS && (configured ==> ValidConfig(config))
    }

    constructor (armDofs: int, config: Config)
      ensures Valid() && fresh(tauTotal) && !configured && this.armDofs == armDofs
    {
      this.armDofs := armDofs;
      configured, this.config := false, config;
      projector, tauTask, tauNull := Zero(0, 0), Zero(0, 0), Zero(0, 0);
      tauTotal := new real[JOINTS](_ => 0.0);
    }

    method Configure(config: Config, frameFound: bool) returns (ok: bool)
      requires Valid() && ValidConfig(config)
      modifies this`configured, this`config
      ensures Valid()
      ensures ok == configured == (armDofs == JOINTS && frameFound)
      ensures this.config == if armDofs == JOINTS then config else old(this.config)
    {
      if armDofs != JOINTS {
        configured := false;
        return false;
      }
      this.config := config;
      configured := frameFound;
      ok := frameFound;
    }

    /** The wrapped way from the current to the default posture. */
    method DistanceToDefault(pi: real, q: seq<real>) returns (dist: array<real>)
      requires pi > 0.0 && |q| == JOINTS && |config.qDefault| == JOINTS
      ensures fresh(dist) && dist.Length == JOINTS
      ensures forall i :: 0 <= i < JOINTS ==> dist[i] == AngleWrap.WrapToPiFmod(pi, config.qDefault[i] - q[i])
    {
      var posture := config.qDefault;
      dist := new real[JOINTS](i requires 0 <= i < JOINTS => posture[i] - q[i]);
      for i := 0 to JOINTS
        invariant forall k :: 0 <= k < i ==> dist[k] == AngleWrap.WrapToPiFmod(pi, config.qDefault[k] - q[k])
        invariant forall k :: i <= k < JOINTS ==> dist[k] == config.qDefault[k] - q[k]
      {
        dist[i] := AngleWrap.WrapToPiFmod(pi, dist[i]);
      }
    }

    /** The null-space command before it is projected. */
    method CommandNull(pi: real, q: seq<real>, dq: seq<real>) returns (u: seq<real>)
      requires pi > 0.0 && |q| == |dq| == JOINTS && ValidConfig(config)
      ensures u == NullCommand(config, pi, q, dq)
    {
      hide AngleWrap.WrapToPiFmod;
      var dist := DistanceToDefault(pi, q);
      var c, wrapped := config, dist[..];
      u := seq(JOINTS, i requires 0 <= i < JOINTS => c.kdNull * -dq[i] + c.kpNull * wrapped[i]);
      forall i | 0 <= i < JOINTS ensures u[i] == NullCommand(config, pi, q, dq)[i] {
        assert wrapped[i] == dist[i];
      }
    }

    /** Adds the task's, the null space's and the Coriolis torques. */
    method SumTorques(d: Dynamics)
      requires Valid() && ValidDynamics(d) && Shape(tauTask, JOINTS, 1) && Shape(tauNull, JOINTS, 1)
      modifies tauTotal
      ensures forall i :: 0 <= i < JOINTS ==>
        tauTotal[i] == At(tauTask, i, 0) + At(tauNull, i, 0) + (d.bias[i] - d.gravity[i])
    {
      for i := 0 to JOINTS
        invariant forall k :: 0 <= k < i ==>
          tauTotal[k] == At(tauTask, k, 0) + At(tauNull, k, 0) + (d.bias[k] - d.gravity[k])
      {
        tauTotal[i] := At(tauTask, i, 0) + At(tauNull, i, 0);
        tauTotal[i] := tauTotal[i] + (d.bias[i] - d.gravity[i]);
      }
    }

    /** Holds each joint's torque within the limit. */
    method Saturate(limit: real)
      requires Valid()
      modifies tauTotal
      ensures forall i :: 0 <= i < JOINTS ==> tauTotal[i] == Clamp(old(tauTotal[i]), -Abs(limit), Abs(limit))
    {
      var lim := Abs(limit);
      for i := 0 to JOINTS
        invariant forall k :: 0 <= k < i ==> tauTotal[k] == Clamp(old(tauTotal[k]), -lim, lim)
        invariant forall k :: i <= k < JOINTS ==> tauTotal[k] == old(tauTotal[k])
      {
        if tauTotal[i] > lim {
          tauTotal[i] := lim;
        } else if tauTotal[i] < -lim {
          tauTotal[i] := -lim;
        }
      }
    }

    /** One control step; the pose error, the dynamics and the linear solver are parameters. */
    method ComputeTorque(
        pi: real, q: seq<real>, dq: seq<real>, deltaPose: seq<real>, d: Dynamics, solve: (Matrix, Matrix) -> Matrix)
      returns (tau: seq<real>, wrench: seq<real>)
      requires Valid() && pi > 0.0 && |q| == |dq| == JOINTS && |deltaPose| == TASK && ValidDynamics(d) &&
        ExactSolver(solve)
      modifies this`projector, this`tauTask, this`tauNull, tauTotal
      ensures Valid() && |tau| == JOINTS && |wrench| == TASK
      ensures !configured ==> tau == seq(JOINTS, _ => 0.0) && wrench == seq(TASK, _ => 0.0)
      ensures configured ==> wrench == TaskWrench(config, Jacobian(d), dq, deltaPose)
      ensures configured ==>
        && Shape(projector, JOINTS, JOINTS)
        && tauTask == Product(Transpose(Jacobian(d)), Column(wrench))
        && tauNull == Product(projector, Product(Mass(d), Column(NullCommand(config, pi, q, dq))))
      ensures configured ==> forall i :: 0 <= i < JOINTS ==>
        tau[i] == Clamp(At(tauTask, i, 0) + At(tauNull, i, 0) + (d.bias[i] - d.gravity[i]), -Abs(config.tauLimit),
          Abs(config.tauLimit))
      ensures configured ==> projector == Projector(Jacobian(d), TaskSolution(d, solve))
    {
      hide Product, Difference, Transpose, Identity, Build, TaskWrench, ExactSolver, Clamp, AngleWrap.WrapToPiFmod;
      if !configured {
        return seq(JOINTS, _ => 0.0), seq(TASK, _ => 0.0);
      }
      var j := Jacobian(d);
      wrench := TaskWrench(config, j, dq, deltaPose);
      tauTask := Product(Transpose(j), Column(wrench));

      var m := Mass(d);
      var jEefInv := TaskSolution(d, solve);

      var uNull := CommandNull(pi, q, dq);
      projector := Identity(JOINTS);
      projector := Difference(projector, Product(Transpose(j), jEefInv));
      tauNull := Product(projector, Product(m, Column(uNull)));

      SumTorques(d);
      Saturate(config.tauLimit);
      tau := tauTotal[..];
    }
  }
}
