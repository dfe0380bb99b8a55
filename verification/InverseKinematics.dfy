/** The arm's iterative inverse kinematics: damped steps, a backtracking line search and clamping to the joint
    limits. */
module InverseKinematics {
  import opened Wrappers
  import opened RealMath

  const JOINTS: nat := 7

  /** Positions of the arm's joints. */
  type ArmVector = q: seq<real> | |q| == JOINTS witness seq(JOINTS, _ => 0.0)

  /** One entry written into a configuration of the whole model. */
  datatype Entry = Entry(index: int, value: real)

  /**
    * The model's neutral configuration and limits, where the arm's joints are in it,
    * and the fixed positions of further joints.
    */
  datatype Arm = Arm(neutral: seq<real>, index: seq<int>, lower: seq<real>, upper: seq<real>, extras: seq<Entry>)

  ghost predicate ValidArm(a: Arm) {
    && |a.index| == JOINTS && |a.lower| == |a.neutral| && |a.upper| == |a.neutral|
    && (forall i :: 0 <= i < JOINTS ==> 0 <= a.index[i] < |a.neutral|)
    && InRange(a.extras, |a.neutral|)
  }

  ghost predicate InRange(entries: seq<Entry>, size: nat) {
    forall k :: 0 <= k < |entries| ==> 0 <= entries[k].index < size
  }

  // -------------------------------------------------------------------------
  // Configurations of the whole model
  // -------------------------------------------------------------------------

  /** The configuration after the entries are written in order. */
  function Overwritten(full: seq<real>, entries: seq<Entry>): (r: seq<real>)
    requires InRange(entries, |full|)
    ensures |r| == |full|
  {
    if entries == [] then full
    else
      var n := |entries| - 1;
      Overwritten(full, entries[..n])[entries[n].index := entries[n].value]
  }

  function ArmEntries(a: Arm, q: ArmVector): (es: seq<Entry>)
    requires ValidArm(a)
    ensures |es| == JOINTS && InRange(es, |a.neutral|)
  {
    seq(JOINTS, i requires 0 <= i < JOINTS => Entry(a.index[i], q[i]))
  }

  /** The arm's positions over the neutral configuration, then the fixed positions. */
  function Full(a: Arm, q: ArmVector): (r: seq<real>)
    requires ValidArm(a)
    ensures |r| == |a.neutral|
  {
    Overwritten(Overwritten(a.neutral, ArmEntries(a, q)), a.extras)
  }

  function ArmOf(a: Arm, full: seq<real>): ArmVector
    requires ValidArm(a) && |full| == |a.neutral|
  {
    seq(JOINTS, i requires 0 <= i < JOINTS => full[a.index[i]])
  }

  /** The arm's joints have places of their own. */
  ghost predicate Separate(a: Arm)
    requires ValidArm(a)
  {
    && (forall i, j :: 0 <= i < j < JOINTS ==> a.index[i] != a.index[j])
    && (forall i, k :: 0 <= i < JOINTS && 0 <= k < |a.extras| ==> a.extras[k].index != a.index[i])
  }

  lemma UntouchedEntry(full: seq<real>, entries: seq<Entry>, j: nat)
    requires InRange(entries, |full|) && j < |full|
    requires forall k :: 0 <= k < |entries| ==> entries[k].index != j
    ensures Overwritten(full, entries)[j] == full[j]
  {
  }

  lemma WrittenEntry(full: seq<real>, entries: seq<Entry>, k: nat)
    requires InRange(entries, |full|) && k < |entries|
    requires forall m :: k < m < |entries| ==> entries[m].index != entries[k].index
    ensures Overwritten(full, entries)[entries[k].index] == entries[k].value
    decreases |entries|
  {
    var n := |entries| - 1;
    if k < n {
      WrittenEntry(full, entries[..n], k);
    }
  }

  /** What was there before a written place does not matter. */
  lemma ForgottenEntry(f: seq<real>, g: seq<real>, entries: seq<Entry>, j: nat)
    requires |f| == |g| && InRange(entries, |f|) && j < |f|
    requires exists k :: 0 <= k < |entries| && entries[k].index == j
    ensures Overwritten(f, entries)[j] == Overwritten(g, entries)[j]
    decreases |entries|
  {
    var n := |entries| - 1;
    var k :| 0 <= k < |entries| && entries[k].index == j;
    if entries[n].index != j {
      assert entries[..n][k].index == j;
      ForgottenEntry(f, g, entries[..n], j);
    }
  }

  lemma ArmPosition(a: Arm, q: ArmVector, i: nat)
    requires ValidArm(a) && Separate(a) && i < JOINTS
    ensures Full(a, q)[a.index[i]] == q[i]
  {
    var es := ArmEntries(a, q);
    assert es[i] == Entry(a.index[i], q[i]);
    WrittenEntry(a.neutral, es, i);
    UntouchedEntry(Overwritten(a.neutral, es), a.extras, a.index[i]);
  }

  /** The k-th extra position is the last one written to a place. */
  predicate LastExtra(a: Arm, j: nat, k: int) {
    0 <= k < |a.extras| && a.extras[k].index == j && forall m :: k < m < |a.extras| ==> a.extras[m].index != j
  }

  /** The i-th joint of the arm is the last one written to a place. */
  predicate LastJoint(a: Arm, j: nat, i: int) {
    0 <= i < |a.index| && a.index[i] == j && forall m :: i < m < |a.index| ==> a.index[m] != j
  }

  /** What each place of the whole configuration holds: the last extra position written there, or else the last of the
      arm's joints there, or else the neutral position. */
  lemma FullPlace(a: Arm, q: ArmVector, j: nat)
    requires ValidArm(a) && j < |a.neutral|
    ensures forall k :: LastExtra(a, j, k) ==> Full(a, q)[j] == a.extras[k].value
    ensures (forall k :: 0 <= k < |a.extras| ==> a.extras[k].index != j) ==>
      && (forall i :: LastJoint(a, j, i) ==> Full(a, q)[j] == q[i])
      && ((forall i :: 0 <= i < JOINTS ==> a.index[i] != j) ==> Full(a, q)[j] == a.neutral[j])
  {
    var es := ArmEntries(a, q);
    var armed := Overwritten(a.neutral, es);
    assert forall i :: 0 <= i < JOINTS ==> es[i] == Entry(a.index[i], q[i]);
    forall k | LastExtra(a, j, k) ensures Full(a, q)[j] == a.extras[k].value {
      WrittenEntry(armed, a.extras, k);
    }
    if forall k :: 0 <= k < |a.extras| ==> a.extras[k].index != j {
      UntouchedEntry(armed, a.extras, j);
      forall i | LastJoint(a, j, i) ensures armed[j] == q[i] {
        WrittenEntry(a.neutral, es, i);
      }
      if forall i :: 0 <= i < JOINTS ==> a.index[i] != j {
        UntouchedEntry(a.neutral, es, j);
      }
    }
  }

  function Unit(i: nat): ArmVector {
    seq(JOINTS, k => if k == i then 1.0 else 0.0)
  }

  function Zeros(): ArmVector {
    seq(JOINTS, _ => 0.0)
  }

  /** The arm's positions can be read back from the configuration exactly when its joints have places of their own. */
  lemma ReadBackIff(a: Arm)
    requires ValidArm(a)
    ensures (forall q: ArmVector :: ArmOf(a, Full(a, q)) == q) <==> Separate(a)
  {
    if Separate(a) {
      forall q: ArmVector ensures ArmOf(a, Full(a, q)) == q {
        forall i | 0 <= i < JOINTS ensures ArmOf(a, Full(a, q))[i] == q[i] {
          ArmPosition(a, q, i);
        }
      }
    } else if i, j :| 0 <= i < j < JOINTS && a.index[i] == a.index[j] {
      var q := Unit(i);
      assert q[i] != q[j];
      assert ArmOf(a, Full(a, q))[i] == ArmOf(a, Full(a, q))[j];
    } else {
      var i, k :| 0 <= i < JOINTS && 0 <= k < |a.extras| && a.extras[k].index == a.index[i];
      var q, z := Unit(i), Zeros();
      ForgottenEntry(Overwritten(a.neutral, ArmEntries(a, q)), Overwritten(a.neutral, ArmEntries(a, z)), a.extras,
        a.index[i]);
      assert ArmOf(a, Full(a, q))[i] == ArmOf(a, Full(a, z))[i];
      assert q[i] != z[i];
    }
  }

  // -------------------------------------------------------------------------
  // Limits and steps
  // -------------------------------------------------------------------------

  function Clamped(a: Arm, q: ArmVector): ArmVector
    requires ValidArm(a)
  {
    seq(JOINTS, i requires 0 <= i < JOINTS => Clamp(q[i], a.lower[a.index[i]], a.upper[a.index[i]]))
  }

  ghost predicate InLimits(a: Arm, q: ArmVector)
    requires ValidArm(a)
  {
    forall i :: 0 <= i < JOINTS ==> a.lower[a.index[i]] <= q[i] <= a.upper[a.index[i]]
  }

  ghost predicate LimitsOrdered(a: Arm)
    requires ValidArm(a)
  {
    forall i :: 0 <= i < JOINTS ==> a.lower[a.index[i]] <= a.upper[a.index[i]]
  }

  /** Clamping moves into the limits, and moves nothing that is there already. */
  lemma ClampedFacts(a: Arm, q: ArmVector)
    requires ValidArm(a) && LimitsOrdered(a)
    ensures InLimits(a, Clamped(a, q))
    ensures InLimits(a, q) <==> Clamped(a, q) == q
  {
    var c := Clamped(a, q);
    assert forall i :: 0 <= i < JOINTS ==> c[i] == Clamp(q[i], a.lower[a.index[i]], a.upper[a.index[i]]);
    if InLimits(a, q) {
      assert forall i :: 0 <= i < JOINTS ==> c[i] == q[i];
    }
  }

  function Integrated(q: ArmVector, dq: ArmVector, alpha: real): ArmVector {
    seq(JOINTS, i requires 0 <= i < JOINTS => q[i] + alpha * dq[i])
  }

  // -------------------------------------------------------------------------
  // One run
  // -------------------------------------------------------------------------

  datatype Options = Options(maxIters: int, eps: real, stepSize: real, clampToLimits: bool)

  /**
    * What one run works on. The weighted pose error of a whole configuration and the damped
    * least-squares direction there are parameters; no direction stands for one that is not finite.
    */
  datatype Problem = Problem(arm: Arm, error: seq<real> -> Double, direction: seq<real> -> Option<ArmVector>,
      options: Options)

  ghost predicate Valid(p: Problem) {
    ValidArm(p.arm)
  }

  function ErrorAt(p: Problem, q: ArmVector): Double
    requires Valid(p)
  {
    p.error(Full(p.arm, q))
  }

  function Candidate(p: Problem, q: ArmVector, dq: ArmVector, alpha: real): ArmVector
    requires Valid(p)
  {
    var next := Integrated(q, dq, alpha);
    if p.options.clampToLimits then Clamped(p.arm, next) else next
  }

  predicate Improves(p: Problem, q: ArmVector, err: real)
    requires Valid(p)
  {
    var e := ErrorAt(p, q);
    e.Finite? && e.value < err
  }

  /** What the line search ends with, and how many errors it evaluated. */
  datatype Found = Found(q: Option<ArmVector>, tries: nat)

  function LineSearch(p: Problem, q: ArmVector, dq: ArmVector, alpha: real, tries: nat, err: real): Found
    requires Valid(p)
    decreases tries
  {
    if tries == 0 then Found(None, 0)
    else if Improves(p, Candidate(p, q, dq, alpha), err) then Found(Some(Candidate(p, q, dq, alpha)), 1)
    else
      var f := LineSearch(p, q, dq, alpha * 0.5, tries - 1, err);
      Found(f.q, f.tries + 1)
  }

  function Halved(alpha: real, k: nat): real
    decreases k
  {
    if k == 0 then alpha else Halved(alpha * 0.5, k - 1)
  }

  /** The step is halved until the first candidate with a smaller error, for as many times as are allowed. */
  lemma {:induction false} LineSearchTakesFirst(p: Problem, q: ArmVector, dq: ArmVector, alpha: real, tries: nat,
      err: real)
    requires Valid(p)
    ensures var f := LineSearch(p, q, dq, alpha, tries, err);
      && f.tries <= tries
      && (f.q.Some? ==>
            && 0 < f.tries
            && f.q.value == Candidate(p, q, dq, Halved(alpha, f.tries - 1))
            && Improves(p, f.q.value, err)
            && forall k: nat :: k < f.tries - 1 ==> !Improves(p, Candidate(p, q, dq, Halved(alpha, k)), err))
      && (f.q.None? ==>
            && f.tries == tries
            && forall k: nat :: k < tries ==> !Improves(p, Candidate(p, q, dq, Halved(alpha, k)), err))
    decreases tries
  {
    if tries > 0 && !Improves(p, Candidate(p, q, dq, alpha), err) {
      LineSearchTakesFirst(p, q, dq, alpha * 0.5, tries - 1, err);
      assert forall k: nat :: k > 0 ==> Halved(alpha, k) == Halved(alpha * 0.5, k - 1);
    }
  }

  const LINE_SEARCH_TRIES: nat := 10

  /** The answer, the reported error, the number of errors evaluated and the accepted iterates, the start first. */
  datatype Outcome = Outcome(ok: bool, q: ArmVector, err: real, evals: nat, path: seq<ArmVector>)

  /** The iterations left are used up, or no candidate improved. */
  function Stopped(p: Problem, q: ArmVector, last: real, evals: nat): Outcome
    requires Valid(p)
  {
    Outcome(false, if p.options.clampToLimits then Clamped(p.arm, q) else q, last, evals, [q])
  }

  function Iterate(p: Problem, q: ArmVector, left: nat, last: real): Outcome
    requires Valid(p)
    decreases left
  {
    if left == 0 then Stopped(p, q, last, 0)
    else match ErrorAt(p, q)
      case NotFinite => Outcome(false, q, last, 1, [q])
      case Finite(err) =>
        if err < p.options.eps then Outcome(true, q, err, 1, [q])
        else match p.direction(Full(p.arm, q))
          case None => Outcome(false, q, err, 1, [q])
          case Some(dq) =>
            var f := LineSearch(p, q, dq, p.options.stepSize, LINE_SEARCH_TRIES, err);
            match f.q
              case None => Stopped(p, q, err, 1 + f.tries)
              case Some(next) =>
                var r := Iterate(p, next, left - 1, err);
                r.(evals := 1 + f.tries + r.evals, path := [q] + r.path)
  }

  function Iterations(p: Problem): nat {
    if p.options.maxIters < 0 then 0 else p.options.maxIters
  }

  const NO_ERROR: real := -1.0

  function Solve(p: Problem, q: ArmVector): Outcome
    requires Valid(p)
  {
    Iterate(p, q, Iterations(p), NO_ERROR)
  }

  // -------------------------------------------------------------------------
  // What a run keeps
  // -------------------------------------------------------------------------

  ghost predicate Smaller(p: Problem, next: ArmVector, q: ArmVector)
    requires Valid(p)
  {
    var e := ErrorAt(p, q);
    e.Finite? && Improves(p, next, e.value)
  }

  /** The error falls strictly along the path. */
  ghost predicate Falls(p: Problem, path: seq<ArmVector>)
    requires Valid(p)
  {
    forall i, j :: 0 <= i < j < |path| ==> Smaller(p, path[j], path[i])
  }

  lemma FallsFrom(p: Problem, q: ArmVector, path: seq<ArmVector>)
    requires Valid(p) && path != [] && Falls(p, path) && Smaller(p, path[0], q)
    ensures Falls(p, [q] + path)
  {
    forall i, j | 0 <= i < j < |[q] + path| ensures Smaller(p, ([q] + path)[j], ([q] + path)[i]) {
      if i > 0 {
        assert Smaller(p, path[j - 1], path[i - 1]);
      } else if j > 1 {
        assert Smaller(p, path[j - 1], path[0]);
      }
    }
  }

  /** What the line search finds from here, when the run gets that far. */
  function Searched(p: Problem, q: ArmVector): (f: Found)
    requires Valid(p)
  {
    match ErrorAt(p, q)
    case NotFinite => Found(None, 0)
    case Finite(err) =>
      match p.direction(Full(p.arm, q))
      case None => Found(None, 0)
      case Some(dq) =>
        if err < p.options.eps then Found(None, 0)
        else LineSearch(p, q, dq, p.options.stepSize, LINE_SEARCH_TRIES, err)
  }

  /** A candidate found is an improvement, and clamping leaves it alone. */
  lemma SearchedFacts(p: Problem, q: ArmVector)
    requires Valid(p)
    ensures var f := Searched(p, q);
      f.tries <= LINE_SEARCH_TRIES && (f.q.Some? ==> Smaller(p, f.q.value, q) && ClampKeeps(p, f.q.value))
  {
    hide LineSearch, Halved, Clamped, Full, Integrated;
    if ErrorAt(p, q).Finite? && p.direction(Full(p.arm, q)).Some? && ErrorAt(p, q).value >= p.options.eps {
      var err, dq := ErrorAt(p, q).value, p.direction(Full(p.arm, q)).value;
      LineSearchTakesFirst(p, q, dq, p.options.stepSize, LINE_SEARCH_TRIES, err);
      var f := LineSearch(p, q, dq, p.options.stepSize, LINE_SEARCH_TRIES, err);
      if f.q.Some? {
        ClampedTwice(p.arm, Integrated(q, dq, Halved(p.options.stepSize, f.tries - 1)));
      }
    }
  }

  /** An iteration goes on from the candidate found, or ends the run where it is. */
  lemma IterateUnfolds(p: Problem, q: ArmVector, left: nat, last: real)
    requires Valid(p) && left > 0
    ensures var r, f, e := Iterate(p, q, left, last), Searched(p, q), ErrorAt(p, q);
      && (f.q.Some? ==>
            && e.Finite? && e.value >= p.options.eps
            && var t := Iterate(p, f.q.value, left - 1, e.value);
              r == Outcome(t.ok, t.q, t.err, 1 + f.tries + t.evals, [q] + t.path))
      && (f.q.None? ==>
            && r.path == [q] && r.evals <= 1 + LINE_SEARCH_TRIES
            && r.err == (if e.Finite? then e.value else last)
            && (r.ok <==> e.Finite? && e.value < p.options.eps)
            && (r.q == q || (!r.ok && p.options.clampToLimits && r.q == Clamped(p.arm, q))))
  {
    SearchedFacts(p, q);
  }

  lemma NothingLeft(p: Problem, q: ArmVector, last: real)
    requires Valid(p)
    ensures Iterate(p, q, 0, last) == Stopped(p, q, last, 0)
  {
  }

  lemma SingletonFalls(p: Problem, q: ArmVector)
    requires Valid(p)
    ensures Falls(p, [q])
  {
  }

  lemma SmallerIsFinite(p: Problem, next: ArmVector, q: ArmVector)
    requires Valid(p) && Smaller(p, next, q)
    ensures ErrorAt(p, next).Finite? && ErrorAt(p, q).Finite? && ErrorAt(p, next).value < ErrorAt(p, q).value
  {
  }

  /** Every accepted iterate has a smaller error than all before it. */
  lemma {:induction false} ErrorFalls(p: Problem, q: ArmVector, left: nat, last: real)
    requires Valid(p)
    ensures var path := Iterate(p, q, left, last).path;
      0 < |path| <= left + 1 && path[0] == q && Falls(p, path)
    decreases left
  {
    hide Iterate, Searched, Improves, ErrorAt, Falls;
    SingletonFalls(p, q);
    if left == 0 {
      NothingLeft(p, q, last);
    } else {
      IterateUnfolds(p, q, left, last);
      SearchedFacts(p, q);
      var next := Searched(p, q).q;
      if next.Some? {
        var err := ErrorAt(p, q).value;
        ErrorFalls(p, next.value, left - 1, err);
        FallsFrom(p, q, Iterate(p, next.value, left - 1, err).path);
      }
    }
  }

  /** The iterates whose error a run looks at: all accepted ones, except one accepted in the last iteration. */
  function Judged(path: seq<ArmVector>, left: nat): seq<ArmVector> {
    if |path| <= left then path else path[..left]
  }

  lemma JudgedStep(q: ArmVector, path: seq<ArmVector>, left: nat)
    requires left > 0
    ensures Judged([q] + path, left) == [q] + Judged(path, left - 1)
    ensures Judged(path, 0) == [] && Judged([q], left) == [q]
  {
  }

  ghost predicate AnyBelow(p: Problem, qs: seq<ArmVector>)
    requires Valid(p)
  {
    exists x :: x in qs && Improves(p, x, p.options.eps)
  }

  lemma AnyBelowStep(p: Problem, q: ArmVector, qs: seq<ArmVector>)
    requires Valid(p)
    ensures AnyBelow(p, [q] + qs) <==> Improves(p, q, p.options.eps) || AnyBelow(p, qs)
    ensures AnyBelow(p, [q]) <==> Improves(p, q, p.options.eps)
  {
    assert forall x :: x in qs ==> x in [q] + qs;
    assert q in [q] && q in [q] + qs;
  }

  lemma BelowMeans(p: Problem, q: ArmVector, err: real)
    requires Valid(p)
    ensures Improves(p, q, err) <==> ErrorAt(p, q).Finite? && ErrorAt(p, q).value < err
  {
  }

  /** The run succeeds exactly when an iterate it judges has an error below the bound; that is then the answer. */
  lemma {:induction false} SucceedsIff(p: Problem, q: ArmVector, left: nat, last: real)
    requires Valid(p)
    ensures var r := Iterate(p, q, left, last);
      && (r.ok <==> AnyBelow(p, Judged(r.path, left)))
      && (r.ok ==>
            && r.path != [] && r.q == r.path[|r.path| - 1]
            && ErrorAt(p, r.q) == Finite(r.err) && r.err < p.options.eps)
    decreases left
  {
    hide Iterate, Searched, Improves, ErrorAt, Judged, AnyBelow;
    if left == 0 {
      NothingLeft(p, q, last);
      JudgedStep(q, [q], 1);
      NoneBelow(p);
    } else {
      IterateUnfolds(p, q, left, last);
      BelowMeans(p, q, p.options.eps);
      var next := Searched(p, q).q;
      var path := if next.Some? then Iterate(p, next.value, left - 1, ErrorAt(p, q).value).path else [];
      JudgedStep(q, path, left);
      AnyBelowStep(p, q, Judged(path, left - 1));
      if next.Some? {
        SucceedsIff(p, next.value, left - 1, ErrorAt(p, q).value);
      }
    }
  }

  lemma NoneBelow(p: Problem)
    requires Valid(p)
    ensures !AnyBelow(p, [])
  {
  }

  /** Each iteration evaluates the error once, and at most ten times more in its line search. */
  lemma {:induction false} EvaluationsAreBounded(p: Problem, q: ArmVector, left: nat, last: real)
    requires Valid(p)
    ensures Iterate(p, q, left, last).evals <= (1 + LINE_SEARCH_TRIES) * left
    decreases left
  {
    hide Iterate, Searched, ErrorAt, Improves;
    if left == 0 {
      NothingLeft(p, q, last);
    } else {
      IterateUnfolds(p, q, left, last);
      SearchedFacts(p, q);
      var next := Searched(p, q).q;
      if next.Some? {
        EvaluationsAreBounded(p, next.value, left - 1, ErrorAt(p, q).value);
      }
    }
  }

  /** The reported error is that of the last iterate judged. */
  lemma {:induction false} ReportedError(p: Problem, q: ArmVector, left: nat, last: real)
    requires Valid(p) && left > 0 && ErrorAt(p, q).Finite?
    ensures var r := Iterate(p, q, left, last);
      var judged := Judged(r.path, left);
      judged != [] && ErrorAt(p, judged[|judged| - 1]) == Finite(r.err)
    decreases left
  {
    hide Iterate, Searched, Improves, ErrorAt, Judged;
    IterateUnfolds(p, q, left, last);
    SearchedFacts(p, q);
    var next := Searched(p, q).q;
    if next.None? {
      JudgedStep(q, [], left);
    } else {
      var err := ErrorAt(p, q).value;
      JudgedStep(q, Iterate(p, next.value, left - 1, err).path, left);
      if left > 1 {
        SmallerIsFinite(p, next.value, q);
        ReportedError(p, next.value, left - 1, err);
      } else {
        NothingLeft(p, next.value, err);
      }
    }
  }

  /** Clamping twice is clamping once. */
  lemma ClampedTwice(a: Arm, q: ArmVector)
    requires ValidArm(a)
    ensures Clamped(a, Clamped(a, q)) == Clamped(a, q)
  {
    var c := Clamped(a, q);
    assert forall i :: 0 <= i < JOINTS ==> c[i] == Clamp(q[i], a.lower[a.index[i]], a.upper[a.index[i]]);
    assert forall i :: 0 <= i < JOINTS ==> Clamped(a, c)[i] == Clamp(c[i], a.lower[a.index[i]], a.upper[a.index[i]]);
  }

  /** Clamping is off or leaves the position alone. */
  predicate ClampKeeps(p: Problem, q: ArmVector)
    requires Valid(p)
  {
    p.options.clampToLimits ==> Clamped(p.arm, q) == q
  }

  /** The answer is the last accepted iterate, unless nothing was accepted from a start that clamping moves. */
  lemma {:induction false} AnswerIsLastIterate(p: Problem, q: ArmVector, left: nat, last: real)
    requires Valid(p)
    ensures var r := Iterate(p, q, left, last);
      && r.path != []
      && (|r.path| > 1 ==> ClampKeeps(p, r.q))
      && (ClampKeeps(p, q) || |r.path| > 1 ==> r.q == r.path[|r.path| - 1])
      && (|r.path| == 1 ==> r.q == q || (p.options.clampToLimits && r.q == Clamped(p.arm, q)))
    decreases left
  {
    hide Iterate, Searched, Clamped, ErrorAt, Improves;
    if left == 0 {
      NothingLeft(p, q, last);
    } else {
      IterateUnfolds(p, q, left, last);
      SearchedFacts(p, q);
      var next := Searched(p, q).q;
      if next.Some? {
        AnswerIsLastIterate(p, next.value, left - 1, ErrorAt(p, q).value);
      }
    }
  }

  // -------------------------------------------------------------------------
  // Where the steps lead
  // -------------------------------------------------------------------------

  function Doubled(k: nat): real {
    if k == 0 then 1.0 else 2.0 * Doubled(k - 1)
  }

  /** A step halved k times, doubled k times, is the step. */
  lemma {:induction false} HalvedIs(alpha: real, k: nat)
    ensures Halved(alpha, k) * Doubled(k) == alpha && Doubled(k) >= 1.0
    decreases k
  {
    if k > 0 {
      HalvedIs(alpha * 0.5, k - 1);
      Regroup(Halved(alpha, k), Doubled(k - 1));
    }
  }

  lemma Regroup(x: real, y: real)
    ensures x * (2.0 * y) == 2.0 * (x * y)
  {
  }

  /** The next iterate is reached along the direction at the one before by a multiple of the step size, halved fewer
      than ten times; every joint is then clamped to its limits, if clamping is on. */
  ghost predicate StepsAlong(p: Problem, q: ArmVector, next: ArmVector, c: real)
    requires Valid(p)
  {
    var d := p.direction(Full(p.arm, q));
    && d.Some?
    && (exists k: nat :: k < 10 && c * Doubled(k) == p.options.stepSize)
    && forall i :: 0 <= i < JOINTS ==>
      next[i] ==
        if p.options.clampToLimits then
          Clamp(q[i] + c * d.value[i], p.arm.lower[p.arm.index[i]], p.arm.upper[p.arm.index[i]])
        else q[i] + c * d.value[i]
  }

  ghost predicate IsStep(p: Problem, q: ArmVector, next: ArmVector)
    requires Valid(p)
  {
    exists c :: StepsAlong(p, q, next, c)
  }

  lemma SearchedStep(p: Problem, q: ArmVector)
    requires Valid(p) && Searched(p, q).q.Some?
    ensures IsStep(p, q, Searched(p, q).q.value)
  {
    hide LineSearch, Halved, Full, Candidate, IsStep;
    var err, dq := ErrorAt(p, q).value, p.direction(Full(p.arm, q)).value;
    LineSearchTakesFirst(p, q, dq, p.options.stepSize, LINE_SEARCH_TRIES, err);
    var f := LineSearch(p, q, dq, p.options.stepSize, LINE_SEARCH_TRIES, err);
    CandidateIsStep(p, q, dq, f.tries - 1);
  }

  lemma CandidateIsStep(p: Problem, q: ArmVector, dq: ArmVector, k: nat)
    requires Valid(p) && p.direction(Full(p.arm, q)) == Some(dq) && k < 10
    ensures IsStep(p, q, Candidate(p, q, dq, Halved(p.options.stepSize, k)))
  {
    hide Halved, Full, Candidate;
    var c := Halved(p.options.stepSize, k);
    HalvedIs(p.options.stepSize, k);
    CandidateSteps(p, q, dq, c);
    assert StepsAlong(p, q, Candidate(p, q, dq, c), c);
  }

  lemma CandidateSteps(p: Problem, q: ArmVector, dq: ArmVector, c: real)
    requires Valid(p)
    ensures forall i :: 0 <= i < JOINTS ==>
      Candidate(p, q, dq, c)[i] ==
        if p.options.clampToLimits then
          Clamp(q[i] + c * dq[i], p.arm.lower[p.arm.index[i]], p.arm.upper[p.arm.index[i]])
        else q[i] + c * dq[i]
  {
  }

  /** Every accepted iterate is such a step from the one before. */
  lemma {:induction false} IteratesAreSteps(p: Problem, q: ArmVector, left: nat, last: real)
    requires Valid(p)
    ensures var path := Iterate(p, q, left, last).path;
      forall j :: 0 <= j < |path| - 1 ==> IsStep(p, path[j], path[j + 1])
    decreases left
  {
    hide Iterate, Searched, Improves, ErrorAt, IsStep;
    if left == 0 {
      NothingLeft(p, q, last);
    } else {
      IterateUnfolds(p, q, left, last);
      var next := Searched(p, q).q;
      if next.Some? {
        var t := Iterate(p, next.value, left - 1, ErrorAt(p, q).value);
        SearchedStep(p, q);
        ErrorFalls(p, next.value, left - 1, ErrorAt(p, q).value);
        IteratesAreSteps(p, next.value, left - 1, ErrorAt(p, q).value);
        var path := Iterate(p, q, left, last).path;
        assert path == [q] + t.path;
        forall j | 0 <= j < |path| - 1 ensures IsStep(p, path[j], path[j + 1]) {
          if j > 0 {
            assert path[j] == t.path[j - 1] && path[j + 1] == t.path[j];
          }
        }
      }
    }
  }

  /** No step is accepted from here: the error is small enough or not finite, the direction is not finite, or none of
      the ten candidates improves. */
  ghost predicate Stuck(p: Problem, q: ArmVector)
    requires Valid(p)
  {
    var e, d := ErrorAt(p, q), p.direction(Full(p.arm, q));
    || e.NotFinite? || e.value < p.options.eps || d.None?
    || forall k: nat :: k < 10 ==> !Improves(p, Candidate(p, q, d.value, Halved(p.options.stepSize, k)), e.value)
  }

  /** A run uses up its iterations, or ends where it is stuck. */
  lemma {:induction false} EndsOnlyWhenStuck(p: Problem, q: ArmVector, left: nat, last: real)
    requires Valid(p)
    ensures var path := Iterate(p, q, left, last).path;
      path != [] && (|path| == left + 1 || Stuck(p, path[|path| - 1]))
    decreases left
  {
    hide Iterate, Searched, Stuck, Improves, ErrorAt;
    if left == 0 {
      NothingLeft(p, q, last);
    } else {
      IterateUnfolds(p, q, left, last);
      var next := Searched(p, q).q;
      if next.Some? {
        EndsOnlyWhenStuck(p, next.value, left - 1, ErrorAt(p, q).value);
      } else {
        NotSearched(p, q);
      }
    }
  }

  lemma NotSearched(p: Problem, q: ArmVector)
    requires Valid(p) && Searched(p, q).q.None?
    ensures Stuck(p, q)
  {
    hide LineSearch, Halved, Full, Candidate;
    var e, d := ErrorAt(p, q), p.direction(Full(p.arm, q));
    if e.Finite? && e.value >= p.options.eps && d.Some? {
      LineSearchTakesFirst(p, q, d.value, p.options.stepSize, LINE_SEARCH_TRIES, e.value);
    }
  }

  /**
    * A run succeeds only with an answer whose error is reported and below the bound, its error falls strictly
    * over the accepted iterates, and it evaluates at most eleven errors per iteration. Without an iteration, or
    * with a start whose error is not finite, it reports no error and leaves the start alone, but for clamping.
    */
  lemma SolveIsSound(p: Problem, q: ArmVector)
    requires Valid(p)
    ensures var r := Solve(p, q);
      && (r.ok ==> ErrorAt(p, r.q) == Finite(r.err) && r.err < p.options.eps)
      && r.path != [] && r.path[0] == q && Falls(p, r.path) && |r.path| <= 1 + Iterations(p)
      && r.evals <= 11 * Iterations(p)
      && (p.options.maxIters <= 0 || ErrorAt(p, q).NotFinite? ==>
            !r.ok && r.err == NO_ERROR && (r.q == q || (p.options.clampToLimits && r.q == Clamped(p.arm, q))))
  {
    hide Iterate, Falls, ErrorAt, LineSearch;
    SucceedsIff(p, q, Iterations(p), NO_ERROR);
    ErrorFalls(p, q, Iterations(p), NO_ERROR);
    EvaluationsAreBounded(p, q, Iterations(p), NO_ERROR);
    if Iterations(p) == 0 {
      NothingLeft(p, q, NO_ERROR);
    } else {
      IterateUnfolds(p, q, Iterations(p), NO_ERROR);
    }
  }

  /** The run takes up a step: an iteration is left, and the start's error is finite and not small enough, with a
      finite direction. */
  predicate StepsFrom(p: Problem, q: ArmVector)
    requires Valid(p)
  {
    var e := ErrorAt(p, q);
    Iterations(p) > 0 && e.Finite? && e.value >= p.options.eps && p.direction(Full(p.arm, q)).Some?
  }

  /** A run that does not get as far as a step answers its start. */
  lemma AnswerWithoutStep(p: Problem, q: ArmVector)
    requires Valid(p) && Iterations(p) > 0 && !StepsFrom(p, q)
    ensures var r := Solve(p, q);
      r.q == q && (ErrorAt(p, q).Finite? ==> ErrorAt(p, q) == Finite(r.err))
  {
    hide LineSearch, Full, Clamped;
    IterateBody(p, q, Iterations(p), NO_ERROR);
  }

  /** A run that does ends with a clamped answer, if it clamps. */
  lemma AnswerAfterStep(p: Problem, q: ArmVector)
    requires Valid(p) && p.options.clampToLimits && StepsFrom(p, q)
    ensures ClampKeeps(p, Solve(p, q).q)
  {
    hide LineSearch, Full, Clamped, Iterate;
    IterateBody(p, q, Iterations(p), NO_ERROR);
    AnswerIsLastIterate(p, q, Iterations(p), NO_ERROR);
    ClampedTwice(p.arm, q);
    var e, d := ErrorAt(p, q).value, p.direction(Full(p.arm, q)).value;
    var f := LineSearch(p, q, d, p.options.stepSize, LINE_SEARCH_TRIES, e);
    if f.q.Some? {
      ErrorFalls(p, f.q.value, Iterations(p) - 1, e);
    }
  }

  /**
    * With clamping, the answer is within the limits exactly when the start is, or no iteration is allowed, or the run
    * takes up a step: a start outside the limits that is accepted at once, or whose error or direction is not finite,
    * is answered as it is.
    */
  lemma AnswerInLimits(p: Problem, q: ArmVector)
    requires Valid(p) && LimitsOrdered(p.arm) && p.options.clampToLimits
    ensures InLimits(p.arm, Solve(p, q).q) <==> InLimits(p.arm, q) || Iterations(p) == 0 || StepsFrom(p, q)
    ensures Iterations(p) > 0 && !StepsFrom(p, q) ==> Solve(p, q).q == q
  {
    hide Iterate, Full, Clamped;
    ClampedFacts(p.arm, q);
    ClampedFacts(p.arm, Solve(p, q).q);
    if Iterations(p) == 0 {
      NothingLeft(p, q, NO_ERROR);
    } else if StepsFrom(p, q) {
      AnswerAfterStep(p, q);
    } else {
      AnswerWithoutStep(p, q);
    }
  }

  /** The answer's error is at most the reported one, which is at most the error at the start. */
  ghost predicate ReportHolds(p: Problem, q: ArmVector)
    requires Valid(p)
  {
    var r := Solve(p, q);
    var first, final := ErrorAt(p, q), ErrorAt(p, r.q);
    first.Finite? && final.Finite? && final.value <= r.err <= first.value
  }

  lemma ReportHoldsWhenClampKeeps(p: Problem, q: ArmVector)
    requires Valid(p) && p.options.maxIters > 0 && ErrorAt(p, q).Finite?
    requires ClampKeeps(p, q) || |Solve(p, q).path| > 1
    ensures ReportHolds(p, q)
  {
    var left := Iterations(p);
    var r := Solve(p, q);
    ErrorFalls(p, q, left, NO_ERROR);
    ReportedError(p, q, left, NO_ERROR);
    AnswerIsLastIterate(p, q, left, NO_ERROR);
    var judged := Judged(r.path, left);
    var m := |judged| - 1;
    assert r.path[m] == judged[m];
    assert m == 0 || Smaller(p, r.path[m], r.path[0]);
    assert m == |r.path| - 1 || Smaller(p, r.path[|r.path| - 1], r.path[m]);
  }

  /** How far two configurations are apart, summed over the joints. */
  function Distance(f: seq<real>, g: seq<real>): (d: real)
    requires |f| == |g|
    ensures d >= 0.0 && (d == 0.0 <==> f == g)
  {
    if f == [] then 0.0
    else
      var n := |f| - 1;
      assert f == f[..n] + [f[n]] && g == g[..n] + [g[n]];
      Distance(f[..n], g[..n]) + Abs(f[n] - g[n])
  }

  lemma {:induction false} DistanceTriangle(f: seq<real>, g: seq<real>, h: seq<real>)
    requires |f| == |g| == |h|
    ensures Abs(Distance(f, h) - Distance(g, h)) <= Distance(f, g)
    decreases |f|
  {
    if f != [] {
      var n := |f| - 1;
      DistanceTriangle(f[..n], g[..n], h[..n]);
    }
  }

  /** The error is finite, not negative, and changes by no more than the configuration does. */
  ghost predicate Steady(arm: Arm, error: seq<real> -> Double) {
    && (forall f: seq<real> :: |f| == |arm.neutral| ==> error(f).Finite? && error(f).value >= 0.0)
    && (forall f: seq<real>, g: seq<real> :: |f| == |g| == |arm.neutral| ==>
          Abs(error(f).value - error(g).value) <= Distance(f, g))
  }

  /**
    * For every start that clamping moves, and whatever finite directions are taken, there is a continuous error,
    * least at the start but not small enough there, for which the answer's error is above the reported one.
    */
  lemma ReportCanFail(arm: Arm, options: Options, direction: seq<real> -> Option<ArmVector>, q: ArmVector)
      returns (p: Problem)
    requires ValidArm(arm) && Separate(arm) && options.maxIters > 0 && direction(Full(arm, q)).Some?
    requires options.clampToLimits && Clamped(arm, q) != q
    ensures p == Problem(arm, p.error, direction, options) && Steady(arm, p.error) && !ReportHolds(p, q)
  {
    hide Full, Clamped, Separate, LineSearch, Iterate, Distance;
    var here, low := Full(arm, q), Max(options.eps, 0.0);
    var error := ErrorAround(here, low);
    p := Problem(arm, error, direction, options);
    ErrorAroundIsSteady(arm, here, low);
    DifferentConfigurations(arm, q, Clamped(arm, q));
    NoStepFromLowest(p, q, low);
  }

  /** The error that is low at a configuration and grows with the distance from it. */
  function ErrorAround(here: seq<real>, low: real): seq<real> -> Double {
    (full: seq<real>) => if |full| == |here| then Finite(low + Distance(full, here)) else NotFinite
  }

  lemma ErrorAroundIsSteady(arm: Arm, here: seq<real>, low: real)
    requires |here| == |arm.neutral| && low >= 0.0
    ensures Steady(arm, ErrorAround(here, low))
  {
    var error := ErrorAround(here, low);
    forall f: seq<real>, g: seq<real> | |f| == |g| == |here|
      ensures Abs(error(f).value - error(g).value) <= Distance(f, g)
    {
      DistanceTriangle(f, g, here);
    }
  }

  lemma DifferentConfigurations(arm: Arm, q: ArmVector, r: ArmVector)
    requires ValidArm(arm) && Separate(arm) && q != r
    ensures Full(arm, q) != Full(arm, r)
  {
    ReadBackIff(arm);
    assert ArmOf(arm, Full(arm, q)) == q && ArmOf(arm, Full(arm, r)) == r;
  }

  /** From a start of least error no step is accepted, and the answer is the start, clamped. */
  lemma NoStepFromLowest(p: Problem, q: ArmVector, low: real)
    requires Valid(p) && StepsFrom(p, q) && ErrorAt(p, q) == Finite(low)
    requires forall x: ArmVector :: !Improves(p, x, low)
    ensures Solve(p, q) == Stopped(p, q, low, Solve(p, q).evals)
  {
    hide LineSearch, Full, Clamped, Improves;
    IterateBody(p, q, Iterations(p), NO_ERROR);
    LineSearchTakesFirst(p, q, p.direction(Full(p.arm, q)).value, p.options.stepSize, LINE_SEARCH_TRIES, low);
  }

  /**
    * For every arm, options, direction and start, the report holds for all steady errors exactly when clamping is off,
    * leaves the start alone, or there is no direction to step in.
    */
  lemma ReportHoldsIff(arm: Arm, options: Options, direction: seq<real> -> Option<ArmVector>, q: ArmVector)
    requires ValidArm(arm) && Separate(arm) && options.maxIters > 0
    ensures (forall error :: Steady(arm, error) ==> ReportHolds(Problem(arm, error, direction, options), q))
      <==> (options.clampToLimits ==> Clamped(arm, q) == q || direction(Full(arm, q)).None?)
  {
    if options.clampToLimits && Clamped(arm, q) != q && direction(Full(arm, q)).Some? {
      var p := ReportCanFail(arm, options, direction, q);
      assert Steady(arm, p.error) && !ReportHolds(Problem(arm, p.error, direction, options), q);
    } else {
      forall error | Steady(arm, error) ensures ReportHolds(Problem(arm, error, direction, options), q) {
        var p := Problem(arm, error, direction, options);
        if ClampKeeps(p, q) {
          ReportHoldsWhenClampKeeps(p, q);
        } else {
          AnswerWithoutStep(p, q);
        }
      }
    }
  }

  /** Going straight for a target: the error is the distance of the configurations, and the direction the way to it. */
  function Towards(arm: Arm, options: Options, target: ArmVector): Problem
    requires ValidArm(arm)
  {
    var there := Full(arm, target);
    Problem(arm,
      (full: seq<real>) => if |full| == |there| then Finite(Distance(full, there)) else NotFinite,
      (full: seq<real>) => if |full| == |there| then Some(Way(arm, full, target)) else None,
      options)
  }

  function Way(arm: Arm, full: seq<real>, target: ArmVector): ArmVector
    requires ValidArm(arm) && |full| == |arm.neutral|
  {
    seq(JOINTS, i requires 0 <= i < JOINTS => target[i] - ArmOf(arm, full)[i])
  }

  /** Such a run reaches the target in its first full step, and succeeds there. */
  lemma ReachesTarget(arm: Arm, options: Options, target: ArmVector, q: ArmVector)
    requires ValidArm(arm) && Separate(arm) && options.maxIters >= 2 && options.eps > 0.0
    requires options.stepSize == 1.0 && !options.clampToLimits
    requires Distance(Full(arm, q), Full(arm, target)) >= options.eps
    ensures var r := Solve(Towards(arm, options, target), q);
      r.ok && r.q == target && r.err == 0.0 && r.path == [q, target]
  {
    hide LineSearch, Full, Iterate, Distance;
    var p := Towards(arm, options, target);
    var here, there := Full(arm, q), Full(arm, target);
    ReadBackIff(arm);
    assert ArmOf(arm, here) == q;
    var dq := p.direction(here).value;
    assert Candidate(p, q, dq, 1.0) == target;
    NoDistance(there);
    LineSearchUnfolds(p, q, dq, 1.0, LINE_SEARCH_TRIES, Distance(here, there));
    IterateBody(p, q, Iterations(p), NO_ERROR);
    IterateBody(p, target, Iterations(p) - 1, Distance(here, there));
  }

  lemma NoDistance(f: seq<real>)
    ensures Distance(f, f) == 0.0
  {
  }

  // -------------------------------------------------------------------------
  // The program
  // -------------------------------------------------------------------------

  /** The named joints the model knows and whose place it has, in the order given. */
  function KnownExtras(positions: seq<(string, real)>, place: string -> Option<int>, size: nat): (es: seq<Entry>)
    ensures InRange(es, size)
  {
    if positions == [] then []
    else
      var n := |positions| - 1;
      var known, j := KnownExtras(positions[..n], place, size), place(positions[n].0);
      if j.Some? && 0 <= j.value < size then known + [Entry(j.value, positions[n].1)] else known
  }

  /** Every cached entry is a given joint's position at its place, and no known joint is missed. */
  lemma {:induction false} KnownExtrasAre(positions: seq<(string, real)>, place: string -> Option<int>, size: nat,
      e: Entry)
    ensures e in KnownExtras(positions, place, size) <==>
      0 <= e.index < size && exists x :: x in positions && place(x.0) == Some(e.index) && x.1 == e.value
  {
    if positions != [] {
      var n := |positions| - 1;
      KnownExtrasAre(positions[..n], place, size, e);
      assert positions == positions[..n] + [positions[n]];
    }
  }

  lemma LineSearchUnfolds(p: Problem, q: ArmVector, dq: ArmVector, alpha: real, tries: nat, err: real)
    requires Valid(p) && tries > 0
    ensures var f, c := LineSearch(p, q, dq, alpha, tries, err), Candidate(p, q, dq, alpha);
      if Improves(p, c, err) then f == Found(Some(c), 1)
      else
        var rest := LineSearch(p, q, dq, alpha * 0.5, tries - 1, err);
        f == Found(rest.q, 1 + rest.tries)
  {
  }

  lemma LineSearchEnds(p: Problem, q: ArmVector, dq: ArmVector, alpha: real, err: real)
    requires Valid(p)
    ensures LineSearch(p, q, dq, alpha, 0, err) == Found(None, 0)
  {
  }

  lemma ContinuedTwice(all: Outcome, rest: Outcome, end: Outcome, m: nat, a: seq<ArmVector>, n: nat, b: seq<ArmVector>)
    requires Continued(all, rest, m, a) && Continued(rest, end, n, b)
    ensures Continued(all, end, m + n, a + b)
  {
    assert a + (b + end.path) == (a + b) + end.path;
  }

  lemma IterateBody(p: Problem, q: ArmVector, left: nat, last: real)
    requires Valid(p) && left > 0
    ensures var r, e, d := Iterate(p, q, left, last), ErrorAt(p, q), p.direction(Full(p.arm, q));
      if e.NotFinite? then r == Outcome(false, q, last, 1, [q])
      else if e.value < p.options.eps then r == Outcome(true, q, e.value, 1, [q])
      else if d.None? then r == Outcome(false, q, e.value, 1, [q])
      else
        var f := LineSearch(p, q, d.value, p.options.stepSize, LINE_SEARCH_TRIES, e.value);
        if f.q.None? then r == Stopped(p, q, e.value, 1 + f.tries)
        else
          var t := Iterate(p, f.q.value, left - 1, e.value);
          Continued(r, t, 1 + f.tries, [q])
  {
    hide LineSearch, Full, Clamped;
  }

  class PinocchioKinematics {
    var arm: Arm
    var extraPositions: seq<(string, real)>
    const work: array<real>

    ghost predicate Valid()
      reads this
    {
      ValidArm(arm) && work.Length == |arm.neutral|
    }

    /** The model's data; no further joints have positions yet. */
    constructor (neutral: seq<real>, index: seq<int>, lower: seq<real>, upper: seq<real>)
      requires ValidArm(Arm(neutral, index, lower, upper, []))
      ensures Valid() && fresh(work)
      ensures arm == Arm(neutral, index, lower, upper, []) && extraPositions == []
    {
      arm := Arm(neutral, index, lower, upper, []);
      extraPositions := [];
      work := new real[|neutral|];
    }

    method SetExtraJointPositions(positions: seq<(string, real)>, place: string -> Option<int>)
      requires Valid()
      modifies this
      ensures Valid()
      ensures extraPositions == positions
      ensures arm == old(arm).(extras := KnownExtras(positions, place, |old(arm).neutral|))
    {
      extraPositions := positions;
      RefreshExtraJointIndexCache(place);
    }

    method RefreshExtraJointIndexCache(place: string -> Option<int>)
      requires Valid()
      modifies this`arm
      ensures Valid()
      ensures arm == old(arm).(extras := KnownExtras(extraPositions, place, |old(arm).neutral|))
    {
      arm := arm.(extras := []);
      for i := 0 to |extraPositions|
        invariant Valid()
        invariant arm == old(arm).(extras := KnownExtras(extraPositions[..i], place, |old(arm).neutral|))
      {
        assert extraPositions[..i + 1][..i] == extraPositions[..i];
        var (name, position) := extraPositions[i];
        var j := place(name);
        if j.Some? && 0 <= j.value < |arm.neutral| {
          arm := arm.(extras := arm.extras + [Entry(j.value, position)]);
        }
      }
      assert extraPositions[..|extraPositions|] == extraPositions;
    }

    method FillQFullFromArmInPlace(q: array<real>)
      requires Valid() && q.Length == JOINTS && q != work
      modifies work
      ensures work[..] == Full(arm, q[..])
    {
      ghost var armEntries := ArmEntries(arm, q[..]);
      for k := 0 to |arm.neutral|
        invariant work[..k] == arm.neutral[..k]
      {
        work[k] := arm.neutral[k];
      }
      assert work[..] == arm.neutral;
      for i := 0 to JOINTS
        invariant work[..] == Overwritten(arm.neutral, armEntries[..i])
      {
        assert armEntries[..i + 1][..i] == armEntries[..i];
        assert armEntries[i] == Entry(arm.index[i], q[i]);
        work[arm.index[i]] := q[i];
      }
      assert armEntries[..JOINTS] == armEntries;
      for k := 0 to |arm.extras|
        invariant work[..] == Overwritten(Overwritten(arm.neutral, armEntries), arm.extras[..k])
      {
        assert arm.extras[..k + 1][..k] == arm.extras[..k];
        work[arm.extras[k].index] := arm.extras[k].value;
      }
      assert arm.extras[..|arm.extras|] == arm.extras;
    }

    method ExtractArmFromQFullInPlace(full: seq<real>, q: array<real>)
      requires Valid() && q.Length == JOINTS && |full| == |arm.neutral|
      modifies q
      ensures q[..] == ArmOf(arm, full)
    {
      for i := 0 to JOINTS
        invariant forall k :: 0 <= k < i ==> q[k] == full[arm.index[k]]
      {
        q[i] := full[arm.index[i]];
      }
    }

    method ClampArmToLimitsInPlace(q: array<real>)
      requires Valid() && q.Length == JOINTS
      modifies q
      ensures q[..] == Clamped(arm, old(q[..]))
    {
      ghost var c := Clamped(arm, q[..]);
      for i := 0 to JOINTS
        invariant forall k :: 0 <= k < i ==> q[k] == c[k]
        invariant forall k :: i <= k < JOINTS ==> q[k] == old(q[k])
      {
        q[i] := Clamp(q[i], arm.lower[arm.index[i]], arm.upper[arm.index[i]]);
      }
    }

    method IntegrateArmInPlace(q: array<real>, dq: ArmVector, alpha: real, next: array<real>)
      requires q.Length == next.Length == JOINTS && q != next
      modifies next
      ensures next[..] == Integrated(q[..], dq, alpha)
    {
      for i := 0 to JOINTS
        invariant forall k :: 0 <= k < i ==> next[k] == q[k] + alpha * dq[k]
      {
        next[i] := q[i] + alpha * dq[i];
      }
      assert forall k :: 0 <= k < JOINTS ==> next[..][k] == Integrated(q[..], dq, alpha)[k];
    }

    /** Evaluates the error at an arm position. */
    method Evaluate(q: array<real>, ghost p: Problem, error: seq<real> -> Double) returns (e: Double)
      requires Valid() && q.Length == JOINTS && q != work
      requires p.arm == arm && p.error == error
      modifies work
      ensures work[..] == Full(arm, q[..])
      ensures e == ErrorAt(p, q[..])
    {
      FillQFullFromArmInPlace(q);
      e := error(work[..]);
    }

    /** Tries the step, then ever smaller ones, and leaves the first improvement in the candidate. */
    method Backtrack(q: array<real>, dq: ArmVector, candidate: array<real>, p: Problem, err: real)
        returns (accepted: bool, ghost evals: nat)
      requires Valid() && q.Length == candidate.Length == JOINTS
      requires q != candidate && q != work && candidate != work
      requires p.arm == arm
      modifies candidate, work
      ensures var f := LineSearch(p, q[..], dq, p.options.stepSize, LINE_SEARCH_TRIES, err);
        && evals == f.tries && (accepted <==> f.q.Some?)
        && (accepted ==> f.q.value == candidate[..])
    {
      hide LineSearch, Full, Clamped, Integrated;
      ghost var all := LineSearch(p, q[..], dq, p.options.stepSize, LINE_SEARCH_TRIES, err);
      var alpha := p.options.stepSize;
      evals := 0;
      for k := 0 to LINE_SEARCH_TRIES
        invariant evals == k
        invariant var f := LineSearch(p, q[..], dq, alpha, LINE_SEARCH_TRIES - k, err);
          all == Found(f.q, k + f.tries)
      {
        LineSearchUnfolds(p, q[..], dq, alpha, LINE_SEARCH_TRIES - k, err);
        IntegrateArmInPlace(q, dq, alpha, candidate);
        if p.options.clampToLimits {
          ClampArmToLimitsInPlace(candidate);
        }
        var e := Evaluate(candidate, p, p.error);
        evals := evals + 1;
        if e.Finite? && e.value < err {
          return true, evals;
        }
        alpha := alpha * 0.5;
      }
      LineSearchEnds(p, q[..], dq, alpha, err);
      accepted := false;
    }

    /** Solves for a position of the arm; the error function carries the target and the rotation weight. */
    method Ik(qInit: ArmVector, p: Problem)
        returns (ok: bool, qSol: ArmVector, finalErr: real, ghost evals: nat, ghost path: seq<ArmVector>)
      requires Valid() && p.arm == arm
      modifies work
      ensures Outcome(ok, qSol, finalErr, evals, path) == Solve(p, qInit)
    {
      hide Iterate, LineSearch, Full, Clamped;
      var q := new real[JOINTS](k requires 0 <= k < JOINTS => qInit[k]);
      var candidate := new real[JOINTS](k requires 0 <= k < JOINTS => qInit[k]);
      assert q[..] == qInit;
      finalErr := NO_ERROR;
      evals := 0;
      ghost var before: seq<ArmVector> := [];
      ghost var all := Solve(p, qInit);
      var it := 0;
      while it < p.options.maxIters
        invariant q[..] != [] && q.Length == JOINTS
        invariant it <= Iterations(p)
        invariant Continued(all, Iterate(p, q[..], Iterations(p) - it, finalErr), evals, before)
        decreases p.options.maxIters - it
      {
        ghost var last := finalErr;
        ghost var rest := Iterate(p, q[..], Iterations(p) - it, last);
        IterateBody(p, q[..], Iterations(p) - it, last);
        var e := Evaluate(q, p, p.error);
        if e == NotFinite {
          return false, q[..], finalErr, evals + 1, before + [q[..]];
        }
        var err := e.value;
        finalErr := err;
        if err < p.options.eps {
          return true, q[..], err, evals + 1, before + [q[..]];
        }
        var dq := p.direction(work[..]);
        if dq == None {
          return false, q[..], finalErr, evals + 1, before + [q[..]];
        }
        var accepted, tries := Backtrack(q, dq.value, candidate, p, err);
        if !accepted {
          evals := evals + 1 + tries;
          break;
        }
        ghost var c: ArmVector := candidate[..];
        ghost var t := Iterate(p, c, Iterations(p) - it - 1, err);
        ContinuedTwice(all, rest, t, evals, before, 1 + tries, [q[..]]);
        evals := evals + (1 + tries);
        before := before + [q[..]];
        forall k | 0 <= k < JOINTS {
          q[k] := candidate[k];
        }
        assert q[..] == candidate[..] == c;
        it := it + 1;
        assert Continued(all, t, evals, before);
        assert t == Iterate(p, q[..], Iterations(p) - it, finalErr);
      }
      if it == Iterations(p) {
        NothingLeft(p, q[..], finalErr);
      }
      path := before + [q[..]];
      if p.options.clampToLimits {
        ClampArmToLimitsInPlace(q);
      }
      ok, qSol := false, q[..];
    }
  }

  /** The whole run is what is left of it after the iterates and evaluations so far. */
  ghost predicate Continued(all: Outcome, rest: Outcome, evals: nat, before: seq<ArmVector>) {
    all == Outcome(rest.ok, rest.q, rest.err, evals + rest.evals, before + rest.path)
  }
}
