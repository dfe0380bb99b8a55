/** The time derivative of a chain's Jacobian in three representations. */
module JacobianDot {
  import opened Wrappers
  import opened Spatial

  /** Base frame and end-effector point, end-effector frame and point, base frame and point. */
  const HYBRID: int := 0
  const BODYFIXED: int := 1
  const INERTIAL: int := 2

  // -------------------------------------------------------------------------
  // Partial derivatives
  // -------------------------------------------------------------------------

  /** The derivative of column i, which is t, by joint j, whose column is s. */
  function PartialHybrid(s: Twist, t: Twist, j: nat, i: nat): Twist {
    if j < i then Twist(Cross(s.rot, t.vel), Cross(s.rot, t.rot))
    else if j > i then Twist(Cross(Neg(s.vel), t.rot), ORIGIN)
    else Twist(Cross(t.rot, t.vel), ORIGIN)
  }

  function PartialBodyFixed(s: Twist, t: Twist, j: nat, i: nat): Twist {
    if j > i then Minus(Twist(Add(Cross(s.rot, t.vel), Cross(s.vel, t.rot)), Cross(s.rot, t.rot))) else STILL
  }

  function PartialInertial(s: Twist, t: Twist, j: nat, i: nat): Twist {
    if j < i then Twist(Add(Cross(s.rot, t.vel), Cross(s.vel, t.rot)), Cross(s.rot, t.rot)) else STILL
  }

  function Partial(s: Twist, t: Twist, j: nat, i: nat, representation: int): Twist {
    if representation == HYBRID then PartialHybrid(s, t, j, i)
    else if representation == BODYFIXED then PartialBodyFixed(s, t, j, i)
    else if representation == INERTIAL then PartialInertial(s, t, j, i)
    else STILL
  }

  /** The velocity parts of the hybrid partial derivatives are symmetric in the two joints. */
  lemma HybridIsSymmetric(s: Twist, t: Twist, j: nat, i: nat)
    requires j == i ==> s == t
    ensures PartialHybrid(s, t, j, i).vel == PartialHybrid(t, s, i, j).vel
  {
    hide Cross;
    CrossTurnsSign(s.vel, t.rot);
    CrossTurnsSign(t.vel, s.rot);
  }

  /** The velocity of a point that a twist about the end-effector adds when the reference point moves with it. */
  function Carried(t: Twist, v: Vec): Twist {
    Twist(Cross(t.rot, v), ORIGIN)
  }

  /** An inertial derivative moved to the end-effector, with the point's own motion, is the hybrid one. */
  lemma HybridFromInertial(s: Twist, t: Twist, j: nat, i: nat, p: Vec)
    requires j == i ==> s == t
    ensures PartialHybrid(s, t, j, i) ==
      Plus(RefPoint(PartialInertial(RefPoint(s, Neg(p)), RefPoint(t, Neg(p)), j, i), p), Carried(t, s.vel))
  {
    hide Cross;
    var n := Neg(p);
    CrossTurnsSign(s.vel, t.rot);
    CrossTurnsSign(ORIGIN, p);
    if j < i {
      var sn, tn := Cross(s.rot, n), Cross(t.rot, n);
      CrossOfSums(s.rot, t.vel, tn);
      CrossOfSums(t.rot, s.vel, sn);
      Jacobi(s.rot, t.rot, n);
      CrossTurnsSign(sn, t.rot);
      CrossTurnsSign(Cross(s.rot, t.rot), p);
      CrossOfSums(t.rot, s.vel, sn);
    }
  }

  /** The hybrid derivative less the turn of the frame, seen from the end-effector, is the body-fixed one. */
  lemma BodyFixedFromHybrid(s: Twist, t: Twist, j: nat, i: nat, m: Rotation)
    requires RightHanded(m) && (j == i ==> s == t)
    ensures PartialBodyFixed(TurnTwist(m, s), TurnTwist(m, t), j, i) ==
      TurnTwist(m, Plus(PartialHybrid(s, t, j, i), Minus(Turned(s.rot, t))))
  {
    hide Cross, Turn, RightHanded;
    if j > i {
      CrossTurnsSign(s.vel, t.rot);
      TurnOfTurned(m, s, t);
    } else {
      HybridIsTurned(s, t, j, i);
      TurnOfStill(m);
    }
  }

  lemma HybridIsTurned(s: Twist, t: Twist, j: nat, i: nat)
    requires j <= i && (j == i ==> s == t)
    ensures Plus(PartialHybrid(s, t, j, i), Minus(Turned(s.rot, t))) == STILL
  {
    hide Cross;
    CrossTurnsSign(t.rot, t.rot);
  }

  lemma TurnOfStill(m: Rotation)
    ensures TurnTwist(m, STILL) == STILL
  {
  }

  /** How a column changes because the frame turns. */
  function Turned(w: Vec, t: Twist): Twist {
    Twist(Cross(w, t.vel), Cross(w, t.rot))
  }

  lemma TurnOfTurned(m: Rotation, s: Twist, t: Twist)
    requires RightHanded(m)
    ensures var u, v := TurnTwist(m, s), TurnTwist(m, t);
      Minus(Twist(Add(Cross(u.rot, v.vel), Cross(u.vel, v.rot)), Cross(u.rot, v.rot))) ==
        TurnTwist(m, Plus(Twist(Neg(Cross(s.vel, t.rot)), ORIGIN), Minus(Turned(s.rot, t))))
  {
    hide Cross, Turn, RightHanded;
    TurnOfCross(m, s.rot, t.vel);
    TurnOfCross(m, s.vel, t.rot);
    TurnOfCross(m, s.rot, t.rot);
    TurnOfLoss(m, Cross(s.vel, t.rot), Cross(s.rot, t.vel));
    NegatedOnce(m, Cross(s.rot, t.rot));
  }

  lemma NegatedOnce(m: Rotation, a: Vec)
    ensures Turn(m, Add(ORIGIN, Neg(a))) == Neg(Turn(m, a))
  {
    hide Turn;
    assert Add(ORIGIN, Neg(a)) == Neg(a);
    TurnOfSum(m, a, a, 0.0);
  }

  lemma TurnOfLoss(m: Rotation, a: Vec, b: Vec)
    ensures Turn(m, Add(Neg(a), Neg(b))) == Neg(Add(Turn(m, b), Turn(m, a)))
    ensures Turn(m, ORIGIN) == ORIGIN
  {
    hide Turn;
    TurnOfSum(m, Neg(a), Neg(b), 0.0);
    TurnOfSum(m, a, b, 0.0);
    TurnOfSum(m, b, a, 0.0);
  }

  // -------------------------------------------------------------------------
  // What the hybrid derivative is the derivative of
  // -------------------------------------------------------------------------

  /** A joint where it is now: turning about an axis through a point, or sliding along an axis. */
  datatype Joint = Revolute(axis: Vec, anchor: Vec) | Prismatic(axis: Vec)

  function Sub(a: Vec, b: Vec): Vec {
    Add(a, Neg(b))
  }

  /** How a unit rate of a joint moves what hangs on it, at a point: the joint's column of the Jacobian. */
  function ColumnAt(g: Joint, p: Vec): Twist {
    match g
    case Revolute(axis, anchor) => Twist(Cross(axis, Sub(p, anchor)), axis)
    case Prismatic(axis) => Twist(axis, ORIGIN)
  }

  /** How fast joint i's axis turns and its anchor moves when joint j alone moves at unit rate. */
  function AxisRate(mover: Joint, g: Joint, j: nat, i: nat): Vec {
    if j < i then Cross(ColumnAt(mover, ORIGIN).rot, g.axis) else ORIGIN
  }

  function AnchorRate(mover: Joint, anchor: Vec, j: nat, i: nat): Vec {
    if j < i then ColumnAt(mover, anchor).vel else ORIGIN
  }

  /** The derivative of joint i's column at the end-effector by joint j, by the product rule. */
  function Rate(mover: Joint, g: Joint, j: nat, i: nat, p: Vec): Twist {
    var axisRate := AxisRate(mover, g, j, i);
    match g
    case Prismatic(_) => Twist(axisRate, ORIGIN)
    case Revolute(axis, anchor) =>
      Twist(Add(Cross(axisRate, Sub(p, anchor)),
        Cross(axis, Sub(ColumnAt(mover, p).vel, AnchorRate(mover, anchor, j, i)))), axisRate)
  }

  /** The joint after moving with its rates for a while. */
  function Moved(mover: Joint, g: Joint, j: nat, i: nat, h: real): Joint {
    var axis := Add(g.axis, Scale(AxisRate(mover, g, j, i), h));
    match g
    case Prismatic(_) => Prismatic(axis)
    case Revolute(_, anchor) => Revolute(axis, Add(anchor, Scale(AnchorRate(mover, anchor, j, i), h)))
  }

  /** What is left of a column's motion beyond the first order. */
  function Curvature(mover: Joint, g: Joint, j: nat, i: nat, p: Vec): Vec {
    match g
    case Prismatic(_) => ORIGIN
    case Revolute(_, anchor) =>
      Cross(AxisRate(mover, g, j, i), Sub(ColumnAt(mover, p).vel, AnchorRate(mover, anchor, j, i)))
  }

  lemma CrossExpands(a: Vec, da: Vec, b: Vec, db: Vec, h: real)
    ensures Cross(Add(a, Scale(da, h)), Add(b, Scale(db, h))) ==
      Add(Add(Cross(a, b), Scale(Add(Cross(da, b), Cross(a, db)), h)), Scale(Scale(Cross(da, db), h), h))
  {
    hide Cross, Scale;
    var x, y := Scale(da, h), Scale(db, h);
    CrossOfSums(Add(b, y), a, x);
    CrossOfSums(a, b, y);
    CrossOfSums(x, b, y);
    CrossOfScaled(a, db, h);
    CrossOfScaledLeft(da, b, h);
    CrossOfScaledLeft(da, y, h);
    CrossOfScaled(da, db, h);
    ScaleOfSum(Cross(da, b), Cross(a, db), h);
  }

  lemma MovedDifference(p: Vec, dp: Vec, c: Vec, dc: Vec, h: real)
    ensures Sub(Add(p, Scale(dp, h)), Add(c, Scale(dc, h))) == Add(Sub(p, c), Scale(Sub(dp, dc), h))
  {
    Distribute(dp.x, dc.x, h);
    Distribute(dp.y, dc.y, h);
    Distribute(dp.z, dc.z, h);
  }

  lemma Distribute(a: real, b: real, h: real)
    ensures (a + -b) * h == a * h - b * h
  {
  }

  /** That rate is the derivative: the moved joint's column differs from its first-order value by a square term
      alone. */
  lemma RateIsDerivative(mover: Joint, g: Joint, j: nat, i: nat, p: Vec, h: real)
    ensures ColumnAt(Moved(mover, g, j, i, h), Add(p, Scale(ColumnAt(mover, p).vel, h))) ==
      Plus(Plus(ColumnAt(g, p), Times(Rate(mover, g, j, i, p), h)),
        Twist(Scale(Scale(Curvature(mover, g, j, i, p), h), h), ORIGIN))
  {
    hide Cross;
    if g.Revolute? {
      var dp, dc := ColumnAt(mover, p).vel, AnchorRate(mover, g.anchor, j, i);
      CrossExpands(g.axis, AxisRate(mover, g, j, i), Sub(p, g.anchor), Sub(dp, dc), h);
      MovedDifference(p, dp, g.anchor, dc, h);
    }
  }

  /** For a chain of joints that turn or slide, the hybrid partial derivative is that derivative. */
  lemma HybridIsRate(mover: Joint, g: Joint, j: nat, i: nat, p: Vec)
    requires j == i ==> mover == g
    ensures PartialHybrid(ColumnAt(mover, p), ColumnAt(g, p), j, i) == Rate(mover, g, j, i, p)
  {
    hide Cross;
    var s, t := ColumnAt(mover, p), ColumnAt(g, p);
    CrossTurnsSign(s.vel, t.rot);
    CrossTurnsSign(s.rot, t.rot);
    CrossTurnsSign(t.rot, t.vel);
    CrossTurnsSign(s.rot, t.vel);
    if g.Revolute? {
      var d := Sub(p, g.anchor);
      CrossTurnsSign(ORIGIN, d);
      CrossTurnsSign(g.axis, d);
      if j < i {
        RevoluteRate(mover, g.axis, g.anchor, p);
      } else {
        assert Sub(s.vel, ORIGIN) == s.vel;
      }
    } else {
      CrossTurnsSign(s.rot, g.axis);
      CrossTurnsSign(ORIGIN, g.axis);
    }
  }

  /** An axis and its anchor carried by a joint before them. */
  lemma RevoluteRate(mover: Joint, axis: Vec, anchor: Vec, p: Vec)
    ensures var s, d := ColumnAt(mover, p), Sub(p, anchor);
      Add(Cross(Cross(s.rot, axis), d), Cross(axis, Sub(s.vel, ColumnAt(mover, anchor).vel))) ==
        Cross(s.rot, Cross(axis, d))
  {
    hide Cross;
    var d := Sub(p, anchor);
    match mover
    case Revolute(w, c) =>
      var a := Sub(anchor, c);
      assert Sub(p, c) == Add(d, a);
      CrossOfSums(w, d, a);
      assert Sub(Cross(w, Sub(p, c)), Cross(w, a)) == Cross(w, d);
      Jacobi(w, axis, d);
    case Prismatic(w) =>
      assert Sub(w, w) == ORIGIN;
      CrossTurnsSign(axis, axis);
      CrossTurnsSign(d, d);
      CrossTurnsSign(Cross(axis, d), axis);
  }

  // -------------------------------------------------------------------------
  // Columns: sums over the joints
  // -------------------------------------------------------------------------

  /** Column i of the derivative, from the first n joints: every unlocked joint's partial times its velocity. */
  function ColumnSum(jac: seq<Twist>, qdot: seq<real>, locked: seq<bool>, i: nat, n: nat, representation: int): Twist
    requires |jac| == |qdot| == |locked| && i < |jac| && n <= |jac|
  {
    if n == 0 then STILL
    else
      var rest := ColumnSum(jac, qdot, locked, i, n - 1, representation);
      if locked[n - 1] then rest
      else Plus(rest, Times(Partial(jac[n - 1], jac[i], n - 1, i, representation), qdot[n - 1]))
  }

  /** The end-effector's twist, from the first n joints. */
  function TipTwist(jac: seq<Twist>, qdot: seq<real>, locked: seq<bool>, n: nat): Twist
    requires |jac| == |qdot| == |locked| && n <= |jac|
  {
    if n == 0 then STILL
    else
      var rest := TipTwist(jac, qdot, locked, n - 1);
      if locked[n - 1] then rest else Plus(rest, Times(jac[n - 1], qdot[n - 1]))
  }

  function Relocated(jac: seq<Twist>, v: Vec): seq<Twist> {
    seq(|jac|, k requires 0 <= k < |jac| => RefPoint(jac[k], v))
  }

  function Rebased(jac: seq<Twist>, m: Rotation): seq<Twist> {
    seq(|jac|, k requires 0 <= k < |jac| => TurnTwist(m, jac[k]))
  }

  lemma RefPointOfStep(a: Twist, b: Twist, k: real, p: Vec)
    ensures RefPoint(Plus(a, Times(b, k)), p) == Plus(RefPoint(a, p), Times(RefPoint(b, p), k))
  {
    hide Cross;
    CrossOfSums(p, a.rot, Scale(b.rot, k));
    CrossOfScaledLeft(b.rot, p, k);
    ScaleOfSum(b.vel, Cross(b.rot, p), k);
  }

  lemma ScaleOfSum(a: Vec, b: Vec, k: real)
    ensures Scale(Add(a, b), k) == Add(Scale(a, k), Scale(b, k))
    ensures Scale(Neg(a), k) == Neg(Scale(a, k)) && Scale(ORIGIN, k) == ORIGIN
  {
  }

  lemma TimesOfSum(s: Twist, t: Twist, k: real)
    ensures Times(Plus(s, t), k) == Plus(Times(s, k), Times(t, k))
    ensures Times(Minus(s), k) == Minus(Times(s, k))
  {
    hide Scale;
    ScaleOfSum(s.vel, t.vel, k);
    ScaleOfSum(s.rot, t.rot, k);
  }

  lemma CarriedOfStep(t: Twist, u: Vec, v: Vec, k: real)
    ensures Carried(t, Add(u, Scale(v, k))) == Plus(Carried(t, u), Times(Carried(t, v), k))
  {
    hide Cross;
    CrossOfSums(t.rot, u, Scale(v, k));
    CrossOfScaled(t.rot, v, k);
  }

  lemma CarriedByStep(s: Twist, t: Twist, v: Vec, k: real)
    ensures Carried(Plus(s, Times(t, k)), v) == Plus(Carried(s, v), Times(Carried(t, v), k))
  {
    hide Cross;
    CrossOfSums(v, s.rot, Scale(t.rot, k));
    CrossOfScaledLeft(t.rot, v, k);
  }

  lemma Rearranged(a: Twist, b: Twist, c: Twist, d: Twist)
    ensures Plus(Plus(a, b), Plus(c, d)) == Plus(Plus(a, c), Plus(b, d))
  {
  }

  lemma NothingMoves(t: Twist, p: Vec, m: Rotation)
    ensures RefPoint(STILL, p) == STILL && Carried(t, ORIGIN) == STILL && Plus(STILL, STILL) == STILL
    ensures TurnTwist(m, STILL) == STILL && Turned(ORIGIN, t) == STILL && Minus(STILL) == STILL &&
      Carried(STILL, p) == STILL
  {
  }

  /**
    * Every hybrid column is the inertial one moved to the end-effector, plus its angular part crossed with the
    * end-effector's velocity.
    */
  lemma {:induction false} HybridColumnFromInertial(jac: seq<Twist>, qdot: seq<real>, locked: seq<bool>, i: nat,
      n: nat, p: Vec)
    requires |jac| == |qdot| == |locked| && i < |jac| && n <= |jac|
    ensures ColumnSum(jac, qdot, locked, i, n, HYBRID) ==
      Plus(RefPoint(ColumnSum(Relocated(jac, Neg(p)), qdot, locked, i, n, INERTIAL), p),
        Carried(jac[i], TipTwist(jac, qdot, locked, n).vel))
  {
    hide Carried, RefPoint, Plus, Times, PartialHybrid, PartialInertial;
    if n == 0 {
      NothingMoves(jac[i], p, Rotation(p, p, p));
    } else {
      HybridColumnFromInertial(jac, qdot, locked, i, n - 1, p);
      if !locked[n - 1] {
        var there := Relocated(jac, Neg(p));
        var k, s, t := qdot[n - 1], jac[n - 1], jac[i];
        var rest := ColumnSum(there, qdot, locked, i, n - 1, INERTIAL);
        var part := PartialInertial(there[n - 1], there[i], n - 1, i);
        var tip := TipTwist(jac, qdot, locked, n - 1);
        HybridFromInertial(s, t, n - 1, i, p);
        RefPointOfStep(rest, part, k, p);
        CarriedOfStep(t, tip.vel, s.vel, k);
        TimesOfSum(RefPoint(part, p), Carried(t, s.vel), k);
        Rearranged(RefPoint(rest, p), Carried(t, tip.vel), Times(RefPoint(part, p), k), Times(Carried(t, s.vel), k));
        VelocityOfStep(tip, s, k);
      }
    }
  }

  lemma VelocityOfStep(a: Twist, b: Twist, k: real)
    ensures Plus(a, Times(b, k)).vel == Add(a.vel, Scale(b.vel, k))
    ensures Plus(a, Times(b, k)).rot == Add(a.rot, Scale(b.rot, k))
  {
  }

  lemma TurnOfStep(m: Rotation, a: Twist, b: Twist, k: real)
    ensures TurnTwist(m, Plus(a, Times(b, k))) == Plus(TurnTwist(m, a), Times(TurnTwist(m, b), k))
  {
    hide Turn;
    TurnOfSum(m, a.vel, Scale(b.vel, k), k);
    TurnOfSum(m, a.rot, Scale(b.rot, k), k);
    TurnOfSum(m, b.vel, b.vel, k);
    TurnOfSum(m, b.rot, b.rot, k);
  }

  lemma TurnedStep(u: Vec, v: Vec, k: real, t: Twist)
    ensures Turned(Add(u, Scale(v, k)), t) == Plus(Turned(u, t), Times(Turned(v, t), k))
  {
    hide Cross;
    CrossOfSums(t.vel, u, Scale(v, k));
    CrossOfSums(t.rot, u, Scale(v, k));
    CrossOfScaledLeft(v, t.vel, k);
    CrossOfScaledLeft(v, t.rot, k);
  }

  lemma MinusOfStep(a: Twist, b: Twist)
    ensures Minus(Plus(a, b)) == Plus(Minus(a), Minus(b))
  {
  }

  /** Every body-fixed column is the hybrid one less what the end-effector's turn does to the column, seen from the
      end-effector. */
  lemma {:induction false} BodyFixedColumnFromHybrid(jac: seq<Twist>, qdot: seq<real>, locked: seq<bool>, i: nat,
      n: nat, m: Rotation)
    requires |jac| == |qdot| == |locked| && i < |jac| && n <= |jac| && RightHanded(m)
    ensures ColumnSum(Rebased(jac, m), qdot, locked, i, n, BODYFIXED) ==
      TurnTwist(m, Plus(ColumnSum(jac, qdot, locked, i, n, HYBRID),
        Minus(Turned(TipTwist(jac, qdot, locked, n).rot, jac[i]))))
  {
    hide Turned, TurnTwist, Plus, Times, Minus, PartialHybrid, PartialBodyFixed, RightHanded;
    if n == 0 {
      NothingMoves(jac[i], ORIGIN, m);
    } else {
      BodyFixedColumnFromHybrid(jac, qdot, locked, i, n - 1, m);
      if !locked[n - 1] {
        var k, s, t := qdot[n - 1], jac[n - 1], jac[i];
        var rest, part := ColumnSum(jac, qdot, locked, i, n - 1, HYBRID), PartialHybrid(s, t, n - 1, i);
        var tip := TipTwist(jac, qdot, locked, n - 1);
        BodyFixedFromHybrid(s, t, n - 1, i, m);
        TurnOfStep(m, Plus(rest, Minus(Turned(tip.rot, t))), Plus(part, Minus(Turned(s.rot, t))), k);
        TimesOfSum(part, Minus(Turned(s.rot, t)), k);
        TimesOfSum(Turned(s.rot, t), part, k);
        Rearranged(rest, Minus(Turned(tip.rot, t)), Times(part, k), Minus(Times(Turned(s.rot, t), k)));
        MinusOfStep(Turned(tip.rot, t), Times(Turned(s.rot, t), k));
        TurnedStep(tip.rot, s.rot, k, t);
        VelocityOfStep(tip, s, k);
      }
    }
  }

  /** A Jacobian, or its derivative, times the joint velocities. */
  function Multiply(columns: seq<Twist>, qdot: seq<real>): Twist
    requires |columns| == |qdot|
  {
    if columns == [] then STILL
    else
      var n := |columns| - 1;
      Plus(Multiply(columns[..n], qdot[..n]), Times(columns[n], qdot[n]))
  }

  /** A whole derivative whose columns are related as above relates the accelerations: the end-effector's own adds the
      turn of its velocity. */
  lemma {:induction false} AccelerationFromInertial(hybrid: seq<Twist>, inertial: seq<Twist>, jac: seq<Twist>,
      qdot: seq<real>, p: Vec, v: Vec)
    requires |hybrid| == |inertial| == |jac| == |qdot|
    requires forall i :: 0 <= i < |jac| ==> hybrid[i] == Plus(RefPoint(inertial[i], p), Carried(jac[i], v))
    ensures Multiply(hybrid, qdot) == Plus(RefPoint(Multiply(inertial, qdot), p), Carried(Multiply(jac, qdot), v))
    decreases |jac|
  {
    hide Carried, RefPoint, Plus, Times;
    if jac == [] {
      NothingMoves(STILL, p, Rotation(p, p, p));
      NothingMoves(STILL, v, Rotation(p, p, p));
    } else {
      var n := |jac| - 1;
      var k := qdot[n];
      var a, b := Multiply(inertial[..n], qdot[..n]), Multiply(jac[..n], qdot[..n]);
      AccelerationFromInertial(hybrid[..n], inertial[..n], jac[..n], qdot[..n], p, v);
      RefPointOfStep(a, inertial[n], k, p);
      CarriedByStep(b, jac[n], v, k);
      TimesOfSum(RefPoint(inertial[n], p), Carried(jac[n], v), k);
      Rearranged(RefPoint(a, p), Carried(b, v), Times(RefPoint(inertial[n], p), k), Times(Carried(jac[n], v), k));
    }
  }

  lemma {:induction false} TipIsProduct(jac: seq<Twist>, qdot: seq<real>, locked: seq<bool>, n: nat)
    requires |jac| == |qdot| == |locked| && n <= |jac| && forall j :: 0 <= j < |locked| ==> !locked[j]
    ensures TipTwist(jac, qdot, locked, n) == Multiply(jac[..n], qdot[..n])
  {
    if n > 0 {
      TipIsProduct(jac, qdot, locked, n - 1);
      assert jac[..n][..n - 1] == jac[..n - 1] && qdot[..n][..n - 1] == qdot[..n - 1];
    }
  }

  /**
    * With no joint locked, the two derivatives give accelerations that differ by the reference point and the
    * end-effector's angular velocity crossed with its velocity.
    */
  lemma AccelerationOfTip(jac: seq<Twist>, qdot: seq<real>, locked: seq<bool>, hybrid: seq<Twist>,
      inertial: seq<Twist>, p: Vec)
    requires |hybrid| == |inertial| == |jac| == |qdot| == |locked| && forall j :: 0 <= j < |locked| ==> !locked[j]
    requires forall i :: 0 <= i < |jac| ==>
      && hybrid[i] == ColumnSum(jac, qdot, locked, i, |jac|, HYBRID)
      && inertial[i] == ColumnSum(Relocated(jac, Neg(p)), qdot, locked, i, |jac|, INERTIAL)
    ensures var tip := Multiply(jac, qdot);
      Multiply(hybrid, qdot) == Plus(RefPoint(Multiply(inertial, qdot), p), Twist(Cross(tip.rot, tip.vel), ORIGIN))
  {
    hide ColumnSum, RefPoint, Plus;
    var n := |jac|;
    TipIsProduct(jac, qdot, locked, n);
    assert jac[..n] == jac && qdot[..n] == qdot;
    forall i | 0 <= i < n
      ensures hybrid[i] == Plus(RefPoint(inertial[i], p), Carried(jac[i], TipTwist(jac, qdot, locked, n).vel))
    {
      HybridColumnFromInertial(jac, qdot, locked, i, n, p);
    }
    AccelerationFromInertial(hybrid, inertial, jac, qdot, p, TipTwist(jac, qdot, locked, n).vel);
  }

  // -------------------------------------------------------------------------
  // The solver
  // -------------------------------------------------------------------------

  datatype Code = NoError | NotUpToDate | SizeMismatch | OutOfRange | JacSolverFailed | FkSolverFailed | JacDotFailed

  /** The end-effector's frame in the base: its axes and its point. */
  datatype Frame = Frame(m: Rotation, p: Vec)

  /** How many of the segments move; a chain has that many joints. */
  function Moving(segments: seq<bool>): (n: nat)
    ensures n <= |segments|
  {
    if segments == [] then 0 else Moving(segments[..|segments| - 1]) + if segments[|segments| - 1] then 1 else 0
  }

  lemma {:induction false} MovingOfPrefix(segments: seq<bool>, n: nat)
    requires n <= |segments|
    ensures Moving(segments[..n]) <= Moving(segments)
  {
    var k := |segments| - 1;
    if n <= k {
      assert segments[..k][..n] == segments[..n];
      MovingOfPrefix(segments[..k], n);
    } else {
      assert segments[..n] == segments;
    }
  }

  function Unlocked(locked: seq<bool>): nat {
    if locked == [] then 0 else Unlocked(locked[..|locked| - 1]) + if locked[|locked| - 1] then 0 else 1
  }

  function Reach(segNr: int, segments: nat): nat {
    if segNr < 0 then segments else segNr
  }

  /** The Jacobian in the representation's frame and reference point. */
  function Based(jac: seq<Twist>, frame: Option<Frame>, representation: int): (based: seq<Twist>)
    requires representation == HYBRID || frame.Some?
    ensures |based| == |jac|
  {
    if representation == BODYFIXED then Rebased(jac, frame.value.m)
    else if representation == INERTIAL then Relocated(jac, Neg(frame.value.p))
    else jac
  }

  class ChainJntToJacDotSolver {
    const segments: seq<bool>
    var locked: seq<bool>
    var unlocked: nat
    var representation: int
    var error: Code
    var jacDotK: Twist
    var partial: Twist
    const jacDot: array<Twist>

    /** The accumulator is clear between calls. */
    ghost predicate Valid()
      reads this
    {
      jacDotK == STILL && unlocked == Unlocked(locked) && jacDot.Length == Moving(segments)
    }

    constructor (segments: seq<bool>)
      ensures Valid() && fresh(jacDot)
      ensures this.segments == segments && representation == HYBRID
      ensures locked == seq(Moving(segments), _ => false)
    {
      this.segments := segments;
      var n := Moving(segments);
      locked, unlocked, representation := seq(n, _ => false), n, HYBRID;
      error, jacDotK, partial := NoError, STILL, STILL;
      jacDot := new Twist[n](_ => STILL);
      NoneLocked(n);
    }

    method SetRepresentation(representation: int)
      requires Valid()
      modifies this`representation
      ensures Valid()
      ensures old(this.representation) in {HYBRID, BODYFIXED, INERTIAL} ==>
        this.representation in {HYBRID, BODYFIXED, INERTIAL}
      ensures this.representation == if representation in {HYBRID, BODYFIXED, INERTIAL} then representation
        else old(this.representation)
    {
      if representation == HYBRID || representation == BODYFIXED || representation == INERTIAL {
        this.representation := representation;
      }
    }

    method SetLockedJoints(joints: seq<bool>) returns (code: Code)
      requires Valid()
      modifies this`locked, this`unlocked, this`error
      ensures Valid()
      ensures code == if |joints| == |old(locked)| then NoError else SizeMismatch
      ensures locked == if code == NoError then joints else old(locked)
      ensures error == if code == NoError then NoError else old(error)
    {
      if |joints| != |locked| {
        return SizeMismatch;
      }
      locked := joints;
      unlocked := 0;
      for i := 0 to |locked|
        invariant locked == joints && unlocked == Unlocked(locked[..i])
      {
        assert locked[..i + 1][..i] == locked[..i];
        if !locked[i] {
          unlocked := unlocked + 1;
        }
      }
      assert locked[..|locked|] == locked;
      error := NoError;
      code := NoError;
    }

    method GetPartialDerivativeHybrid(jac: seq<Twist>, joint: nat, column: nat) returns (t: Twist)
      requires joint < |jac| && column < |jac|
      modifies this`partial
      ensures t == partial == PartialHybrid(jac[joint], jac[column], joint, column)
    {
      var j, i := jac[joint], jac[column];
      partial := STILL;
      if joint < column {
        partial := partial.(vel := Cross(j.rot, i.vel));
        partial := partial.(rot := Cross(j.rot, i.rot));
      } else if joint > column {
        partial := partial.(vel := Cross(Neg(j.vel), i.rot));
      } else {
        partial := partial.(vel := Cross(i.rot, i.vel));
      }
      t := partial;
    }

    method GetPartialDerivativeBodyFixed(jac: seq<Twist>, joint: nat, column: nat) returns (t: Twist)
      requires joint < |jac| && column < |jac|
      modifies this`partial
      ensures t == partial == PartialBodyFixed(jac[joint], jac[column], joint, column)
    {
      partial := STILL;
      if joint > column {
        var j, i := jac[joint], jac[column];
        partial := partial.(vel := Add(Cross(j.rot, i.vel), Cross(j.vel, i.rot)));
        partial := partial.(rot := Cross(j.rot, i.rot));
        partial := Minus(partial);
      }
      t := partial;
    }

    method GetPartialDerivativeInertial(jac: seq<Twist>, joint: nat, column: nat) returns (t: Twist)
      requires joint < |jac| && column < |jac|
      modifies this`partial
      ensures t == partial == PartialInertial(jac[joint], jac[column], joint, column)
    {
      partial := STILL;
      if joint < column {
        var j, i := jac[joint], jac[column];
        partial := partial.(vel := Add(Cross(j.rot, i.vel), Cross(j.vel, i.rot)));
        partial := partial.(rot := Cross(j.rot, i.rot));
      }
      t := partial;
    }

    method GetPartialDerivative(jac: seq<Twist>, joint: nat, column: nat, representation: int) returns (t: Twist)
      requires joint < |jac| && column < |jac|
      modifies this`partial
      ensures t == partial == Partial(jac[joint], jac[column], joint, column, representation)
    {
      if representation == HYBRID {
        t := GetPartialDerivativeHybrid(jac, joint, column);
      } else if representation == BODYFIXED {
        t := GetPartialDerivativeBodyFixed(jac, joint, column);
      } else if representation == INERTIAL {
        t := GetPartialDerivativeInertial(jac, joint, column);
      } else {
        partial := STILL;
        t := partial;
      }
    }

    /** The code a call ends with; the Jacobian and the frame are what the chain's solvers return, or nothing when
        they fail. */
    ghost function Outcome(rows: nat, columns: nat, segNr: int, jacobian: Option<seq<Twist>>,
        frame: Option<Frame>): Code
      reads this
    {
      if |locked| != Moving(segments) then NotUpToDate
      else if rows != Moving(segments) || unlocked != columns then SizeMismatch
      else if Reach(segNr, |segments|) > |segments| then OutOfRange
      else if jacobian.None? then JacSolverFailed
      else if representation != HYBRID && frame.None? then FkSolverFailed
      else if representation !in {HYBRID, BODYFIXED, INERTIAL} then JacDotFailed
      else NoError
    }

    /** The columns a successful call leaves: one for each moving segment in reach, then zeros. */
    ghost predicate Derives(jdot: seq<Twist>, qdot: seq<real>, segNr: int, jacobian: seq<Twist>, frame: Option<Frame>)
      requires representation == HYBRID || frame.Some?
      requires Reach(segNr, |segments|) <= |segments| && |jacobian| == |qdot| == |locked| == Moving(segments)
      reads this
    {
      var n := Moving(segments[..Reach(segNr, |segments|)]);
      && n <= |jdot|
      && (forall i :: n <= i < |jdot| ==> jdot[i] == STILL)
      && forall i :: 0 <= i < n && i < |jacobian| ==>
        jdot[i] == ColumnSum(Based(jacobian, frame, representation), qdot, locked, i, |jacobian|, representation)
    }

    static method SetToZero(jdot: array<Twist>)
      modifies jdot
      ensures forall i :: 0 <= i < jdot.Length ==> jdot[i] == STILL
    {
      for i := 0 to jdot.Length
        invariant forall k :: 0 <= k < i ==> jdot[k] == STILL
      {
        jdot[i] := STILL;
      }
    }

    /** Accumulates one column over the unlocked joints, and clears the accumulator. */
    method Column(jac: seq<Twist>, qdot: seq<real>, k: nat) returns (column: Twist)
      requires Valid() && |jac| == |qdot| == |locked| == Moving(segments) && k < |jac|
      modifies this`jacDotK, this`partial
      ensures Valid()
      ensures column == ColumnSum(jac, qdot, locked, k, |jac|, representation)
    {
      for j := 0 to |jac|
        invariant jacDotK == ColumnSum(jac, qdot, locked, k, j, representation)
      {
        if !locked[j] {
          var t := GetPartialDerivative(jac, j, k, representation);
          jacDotK := Plus(jacDotK, Times(t, qdot[j]));
        }
      }
      column := jacDotK;
      jacDotK := STILL;
    }

    /** Sets a column for every moving segment in reach, until one is past the last column there is. */
    method SetColumns(jac: seq<Twist>, qdot: seq<real>, jdot: array<Twist>, segmentNr: nat) returns (overrun: bool)
      requires Valid() && |jac| == |qdot| == |locked| == Moving(segments)
      requires segmentNr <= |segments|
      requires forall i :: 0 <= i < jdot.Length ==> jdot[i] == STILL
      modifies this`jacDotK, this`partial, jdot
      ensures Valid()
      ensures overrun <==> Moving(segments[..segmentNr]) > jdot.Length
      ensures forall i :: Moving(segments[..segmentNr]) <= i < jdot.Length ==> jdot[i] == STILL
      ensures forall i :: 0 <= i < Moving(segments[..segmentNr]) && i < |jac| && i < jdot.Length ==>
        jdot[i] == ColumnSum(jac, qdot, locked, i, |jac|, representation)
    {
      hide ColumnSum, Moving;
      MovingOfPrefix(segments, segmentNr);
      assert segments[..0] == [] && segments[..segmentNr][..segmentNr] == segments[..segmentNr];
      NothingMoving();
      var k := 0;
      for i := 0 to segmentNr
        invariant Valid()
        invariant k == Moving(segments[..i]) <= Moving(segments[..segmentNr]) <= |jac| && k <= jdot.Length
        invariant forall c :: k <= c < jdot.Length ==> jdot[c] == STILL
        invariant forall c :: 0 <= c < k ==> jdot[c] == ColumnSum(jac, qdot, locked, c, |jac|, representation)
      {
        MovingStep(segments, i);
        assert segments[..segmentNr][..i + 1] == segments[..i + 1];
        MovingOfPrefix(segments[..segmentNr], i + 1);
        if segments[i] {
          var column := Column(jac, qdot, k);
          if k == jdot.Length {
            return true;
          }
          jdot[k] := column;
          k := k + 1;
        }
      }
      overrun := false;
    }

    /** Fills the columns, unless the solvers fail or a column is set that is not there: the call then ends without a
        code, as it does exactly when the moving segments in reach are more than the columns. */
    method JntToJacDot(
        rows: nat, qdot: seq<real>, jdot: array<Twist>, segNr: int, jacobian: Option<seq<Twist>>, frame: Option<Frame>)
      returns (code: Code, overrun: bool)
      requires Valid() && |qdot| == rows
      requires jacobian.Some? ==> |jacobian.value| == Moving(segments)
      modifies this`jacDotK, this`partial, this`error, jdot
      ensures !overrun ==> Valid()
      ensures overrun <==>
        && old(Outcome(rows, jdot.Length, segNr, jacobian, frame)) == NoError
        && Moving(segments[..Reach(segNr, |segments|)]) > jdot.Length
      ensures !overrun ==> code == error == old(Outcome(rows, jdot.Length, segNr, jacobian, frame))
      ensures !overrun && code == NotUpToDate ==> jdot[..] == old(jdot[..])
      ensures !overrun && code != NotUpToDate && code != NoError ==> forall i :: 0 <= i < jdot.Length ==>
        jdot[i] == STILL
      ensures !overrun && code == NoError ==> Derives(jdot[..], qdot, segNr, jacobian.value, frame)
    {
      hide ColumnSum, Plus, Times, Partial;
      if |locked| != Moving(segments) {
        error := NotUpToDate;
        return error, false;
      }
      var segmentNr := if segNr < 0 then |segments| else segNr;
      SetToZero(jdot);
      if rows != Moving(segments) || unlocked != jdot.Length {
        error := SizeMismatch;
        return error, false;
      } else if segmentNr > |segments| {
        error := OutOfRange;
        return error, false;
      }
      if jacobian == None {
        error := JacSolverFailed;
        return error, false;
      }
      var jac := jacobian.value;
      if representation != HYBRID {
        if frame == None {
          error := FkSolverFailed;
          return error, false;
        }
        if representation == BODYFIXED {
          jac := Rebased(jac, frame.value.m);
        } else if representation == INERTIAL {
          jac := Relocated(jac, Neg(frame.value.p));
        } else {
          error := JacDotFailed;
          return error, false;
        }
      }
      overrun := SetColumns(jac, qdot, jdot, segmentNr);
      error := NoError;
      code := NoError;
    }

    /** The derivative times the joint velocities; the chain's own buffer holds the derivative, so no joint may be
        locked. */
    method JntToJacDotTimesQDot(rows: nat, qdot: seq<real>, segNr: int, jacobian: Option<seq<Twist>>,
        frame: Option<Frame>)
      returns (code: Code, product: Option<Twist>)
      requires Valid() && |qdot| == rows
      requires jacobian.Some? ==> |jacobian.value| == Moving(segments)
      modifies this`jacDotK, this`partial, this`error, jacDot
      ensures Valid()
      ensures code == error == old(Outcome(rows, jacDot.Length, segNr, jacobian, frame))
      ensures code == NoError ==>
        && Derives(jacDot[..], qdot, segNr, jacobian.value, frame)
        && product == Some(Multiply(jacDot[..], qdot))
      ensures code != NoError ==> product == None
    {
      if 0 <= Reach(segNr, |segments|) <= |segments| {
        MovingOfPrefix(segments, Reach(segNr, |segments|));
      }
      var overrun;
      code, overrun := JntToJacDot(rows, qdot, jacDot, segNr, jacobian, frame);
      product := if code == NoError then Some(Multiply(jacDot[..], qdot)) else None;
    }
  }

  /** What two calls leave, one for the inertial and one for the hybrid representation: every hybrid column is the
      inertial one moved to the end-effector, plus its angular part crossed with the end-effector's velocity. */
  lemma InertialCallsAgree(
      hybrid: ChainJntToJacDotSolver, inertial: ChainJntToJacDotSolver, jdotH: seq<Twist>, jdotI: seq<Twist>,
      qdot: seq<real>, segNr: int, jac: seq<Twist>, frame: Frame, k: nat)
    requires hybrid.segments == inertial.segments && hybrid.locked == inertial.locked
    requires hybrid.representation == HYBRID && inertial.representation == INERTIAL
    requires Reach(segNr, |hybrid.segments|) <= |hybrid.segments|
    requires |jac| == |qdot| == |hybrid.locked| == Moving(hybrid.segments)
    requires hybrid.Derives(jdotH, qdot, segNr, jac, None) && inertial.Derives(jdotI, qdot, segNr, jac, Some(frame))
    requires k < Moving(hybrid.segments[..Reach(segNr, |hybrid.segments|)])
    ensures k < |jac| && k < |jdotH| && k < |jdotI|
    ensures var tip := TipTwist(jac, qdot, hybrid.locked, |jac|);
      jdotH[k] == Plus(RefPoint(jdotI[k], frame.p), Twist(Cross(jac[k].rot, tip.vel), ORIGIN))
  {
    hide ColumnSum, Plus, RefPoint, Moving;
    MovingOfPrefix(hybrid.segments, Reach(segNr, |hybrid.segments|));
    HybridColumnFromInertial(jac, qdot, hybrid.locked, k, |jac|, frame.p);
  }

  /** The same for the body-fixed representation: its columns are the hybrid ones less what the end-effector's turn
      does to the column, seen from the end-effector. */
  lemma BodyFixedCallsAgree(
      hybrid: ChainJntToJacDotSolver, fixed: ChainJntToJacDotSolver, jdotH: seq<Twist>, jdotB: seq<Twist>,
      qdot: seq<real>, segNr: int, jac: seq<Twist>, frame: Frame, k: nat)
    requires hybrid.segments == fixed.segments && hybrid.locked == fixed.locked && RightHanded(frame.m)
    requires hybrid.representation == HYBRID && fixed.representation == BODYFIXED
    requires Reach(segNr, |hybrid.segments|) <= |hybrid.segments|
    requires |jac| == |qdot| == |hybrid.locked| == Moving(hybrid.segments)
    requires hybrid.Derives(jdotH, qdot, segNr, jac, None) && fixed.Derives(jdotB, qdot, segNr, jac, Some(frame))
    requires k < Moving(hybrid.segments[..Reach(segNr, |hybrid.segments|)])
    ensures k < |jac| && k < |jdotH| && k < |jdotB|
    ensures var tip := TipTwist(jac, qdot, hybrid.locked, |jac|);
      jdotB[k] == TurnTwist(frame.m, Plus(jdotH[k], Minus(Turned(tip.rot, jac[k]))))
  {
    hide ColumnSum, Plus, TurnTwist, Minus, Turned, Moving, RightHanded;
    MovingOfPrefix(hybrid.segments, Reach(segNr, |hybrid.segments|));
    BodyFixedColumnFromHybrid(jac, qdot, hybrid.locked, k, |jac|, frame.m);
  }

  /** Which calls the error codes let through; the columns are cleared by every call but one whose locks are out of
      date. */
  lemma CallsLetThrough(
      solver: ChainJntToJacDotSolver, rows: nat, columns: nat, segNr: int,
      jacobian: Option<seq<Twist>>, frame: Option<Frame>)
    requires solver.Valid()
    ensures var code := solver.Outcome(rows, columns, segNr, jacobian, frame);
      var joints := Moving(solver.segments);
      && (code == NotUpToDate <==> |solver.locked| != joints)
      && (code == NoError <==>
            && |solver.locked| == rows == joints && columns == Unlocked(solver.locked) && segNr <= |solver.segments|
            && jacobian.Some? && solver.representation in {0, 1, 2} && (solver.representation == 0 || frame.Some?))
      && (code == SizeMismatch ==> rows != joints || columns != Unlocked(solver.locked))
      && (code == OutOfRange ==> segNr > |solver.segments|)
      && (code == JacSolverFailed ==> jacobian.None?)
      && (code == FkSolverFailed ==> frame.None? && solver.representation != 0)
  {
  }

  /** A call over the whole chain that the codes let through has room for all columns exactly when no joint is
      locked. */
  lemma RoomIffUnlocked(
      solver: ChainJntToJacDotSolver, rows: nat, columns: nat, jacobian: Option<seq<Twist>>, frame: Option<Frame>)
    requires solver.Valid() && solver.Outcome(rows, columns, -1, jacobian, frame) == NoError
    ensures Moving(solver.segments) <= columns <==> forall j :: 0 <= j < |solver.locked| ==> !solver.locked[j]
  {
    AllUnlocked(solver.locked);
  }

  /** The input: two moving segments, the second joint locked, and one column; the codes let the call through, and it
      sets a second column. */
  method LockedCall(qdot: seq<real>, jacobian: seq<Twist>) returns (overrun: bool)
    requires |qdot| == |jacobian| == 2
    ensures overrun
  {
    var segments := [true, true];
    assert segments[..1] == [true] && segments[..2] == segments && [true][..0] == [];
    assert Moving(segments) == 2;
    var solver := new ChainJntToJacDotSolver(segments);
    var code := solver.SetLockedJoints([false, true]);
    assert [false, true][..1] == [false] && [false][..0] == [];
    assert Unlocked([false, true]) == 1;
    var jdot := new Twist[1](_ => STILL);
    code, overrun := solver.JntToJacDot(2, qdot, jdot, -1, Some(jacobian), None);
  }

  lemma NothingMoving()
    ensures Moving([]) == 0
  {
  }

  lemma MovingStep(segments: seq<bool>, i: nat)
    requires i < |segments|
    ensures Moving(segments[..i + 1]) == Moving(segments[..i]) + if segments[i] then 1 else 0
  {
    assert segments[..i + 1][..i] == segments[..i];
  }

  lemma {:induction false} AllUnlocked(locked: seq<bool>)
    ensures Unlocked(locked) <= |locked|
    ensures Unlocked(locked) == |locked| <==> forall j :: 0 <= j < |locked| ==> !locked[j]
  {
    if locked != [] {
      var n := |locked| - 1;
      AllUnlocked(locked[..n]);
      assert forall j :: 0 <= j < n ==> locked[..n][j] == locked[j];
    }
  }

  lemma {:induction false} NoneLocked(n: nat)
    ensures Unlocked(seq(n, _ => false)) == n
  {
    if n > 0 {
      assert seq(n, _ => false)[..n - 1] == seq(n - 1, _ => false);
      NoneLocked(n - 1);
    }
  }
}
