/**
 No motion that keeps the limits is faster than the planned one. Competing motions are sampled on
 a time grid and cover their distance by the trapezium rule.
 */
module TimeOptimality {
  import opened Joint
  import opened Trajectory

  /** Velocities at consecutive grid points `h` seconds apart: from rest to rest within the limits. */
  predicate Admissible(v: seq<real>, h: real, limits: JointLimits) {
    && h > 0.0 && |v| > 0 && v[0] == 0.0 && v[|v| - 1] == 0.0
    && (forall i :: 0 <= i < |v| ==> -limits.maxVelocity <= v[i] <= limits.maxVelocity)
    && (forall i :: 0 <= i < |v| - 1 ==> Ramps(v[i], v[i + 1], limits.maxAcceleration, h))
  }

  /** The acceleration limit allows going from speed `x` to `y` in `h` seconds. */
  predicate Ramps(x: real, y: real, a: real, h: real) {
    -(a * h) <= y - x <= a * h
  }

  /** Displacement by the trapezium rule. */
  function Covered(v: seq<real>, h: real): real {
    if |v| < 2 then 0.0 else StepCovered(v[0], v[1], h) + Covered(v[1..], h)
  }

  function StepCovered(x: real, y: real, h: real): real {
    (x + y) / 2.0 * h
  }

  function Elapsed(v: seq<real>, h: real): real
    requires |v| > 0
  {
    Intervals(|v| - 1, h)
  }

  function Intervals(n: nat, h: real): real {
    n as real * h
  }

  predicate Steps(v: seq<real>, a: real, h: real) {
    forall i :: 0 <= i < |v| - 1 ==> Ramps(v[i], v[i + 1], a, h)
  }

  predicate AtMost(v: seq<real>, m: real) {
    forall i :: 0 <= i < |v| ==> v[i] <= m
  }

  /** What accelerating from rest to `x` costs against moving at speed `m` all along, times the acceleration. */
  function Cost(m: real, x: real): real {
    m * x - 0.5 * x * x
  }

  /** Distance lost against moving at speed `m` all along, times the acceleration. */
  predicate LosesAtLeast(a: real, m: real, elapsed: real, covered: real, cost: real) {
    a * (m * elapsed - covered) >= cost
  }

  lemma StepLoss(a: real, m: real, h: real, x: real, y: real)
    requires a > 0.0 && h > 0.0 && x <= m && y <= m && Ramps(x, y, a, h)
    ensures ChangeLoses(a, m, h, StepCovered(x, y, h), x, y)
  {
    var gap := m - (x + y) / 2.0;
    ProductNonNegative(gap, a * h - (y - x));
    ProductNonNegative(gap, a * h + (y - x));
    assert Cost(m, y) - Cost(m, x) == gap * (y - x);
    assert a * (m * h - (x + y) / 2.0 * h) == gap * (a * h);
  }

  lemma LossAdds(a: real, m: real, t1: real, s1: real, c1: real, t2: real, s2: real, c2: real, t: real, s: real, c: real)
    requires LosesAtLeast(a, m, t1, s1, c1) && LosesAtLeast(a, m, t2, s2, c2)
    requires t == t1 + t2 && s == s1 + s2 && c == c1 + c2
    ensures LosesAtLeast(a, m, t, s, c)
  {
    assert a * (m * (t1 + t2) - (s1 + s2)) == a * (m * t1 - s1) + a * (m * t2 - s2);
  }

  /** Speeding up from `x` to `y`, or slowing down from `y` to `x`, costs distance. */
  predicate ChangeLoses(a: real, m: real, elapsed: real, covered: real, x: real, y: real) {
    && LosesAtLeast(a, m, elapsed, covered, Cost(m, y) - Cost(m, x))
    && LosesAtLeast(a, m, elapsed, covered, Cost(m, x) - Cost(m, y))
  }

  lemma ChangesAdd(a: real, m: real, t1: real, s1: real, x: real, y: real, t2: real, s2: real, z: real, t: real, s: real)
    requires ChangeLoses(a, m, t1, s1, x, y) && ChangeLoses(a, m, t2, s2, y, z)
    requires t == t1 + t2 && s == s1 + s2
    ensures ChangeLoses(a, m, t, s, x, z)
  {
    var cx, cy, cz := Cost(m, x), Cost(m, y), Cost(m, z);
    LossAdds(a, m, t1, s1, cy - cx, t2, s2, cz - cy, t, s, cz - cx);
    LossAdds(a, m, t1, s1, cx - cy, t2, s2, cy - cz, t, s, cx - cz);
  }

  /** Any change of speed, up or down, costs distance. */
  lemma {:induction false} SegmentLoss(v: seq<real>, h: real, a: real, m: real)
    requires a > 0.0 && h > 0.0 && |v| > 0 && Steps(v, a, h) && AtMost(v, m)
    ensures ChangeLoses(a, m, Elapsed(v, h), Covered(v, h), v[0], v[|v| - 1])
  {
    if |v| == 1 {
      assert Elapsed(v, h) == 0.0;
    } else {
      StepLoss(a, m, h, v[0], v[1]);
      SegmentLoss(v[1..], h, a, m);
      ElapsedStep(v, h);
      ChangesAdd(a, m, h, StepCovered(v[0], v[1], h), v[0], v[1], Elapsed(v[1..], h), Covered(v[1..], h), v[|v| - 1],
                 Elapsed(v, h), Covered(v, h));
    }
  }

  lemma ElapsedStep(v: seq<real>, h: real)
    requires |v| >= 2
    ensures Elapsed(v, h) == h + Elapsed(v[1..], h)
  {
    var n := |v| - 2;
    assert (n + 1) as real == n as real + 1.0;
  }

  lemma {:induction false} CoveredSplit(v: seq<real>, h: real, k: nat)
    requires k < |v|
    ensures Covered(v, h) == Covered(v[..k + 1], h) + Covered(v[k..], h)
    ensures Elapsed(v, h) == Elapsed(v[..k + 1], h) + Elapsed(v[k..], h)
  {
    if k == 0 {
      assert v[0..] == v;
    } else {
      CoveredSplit(v[1..], h, k - 1);
      assert v[..k + 1][1..] == v[1..][..k] && v[1..][k - 1..] == v[k..];
      ElapsedStep(v, h);
      ElapsedStep(v[..k + 1], h);
    }
  }

  /** A largest velocity of the grid. */
  lemma {:induction false} Peak(v: seq<real>) returns (k: nat)
    requires |v| > 0
    ensures k < |v| && AtMost(v, v[k])
  {
    if |v| == 1 {
      k := 0;
    } else {
      k := Peak(v[1..]);
      assert forall i :: 1 <= i < |v| ==> v[i] == v[1..][i - 1];
      k := if v[1..][k] < v[0] then 0 else k + 1;
    }
  }

  /** A motion from rest to rest that peaks at speed m loses m^2 / a. */
  lemma RestToRestLoss(v: seq<real>, h: real, a: real, k: nat)
    requires a > 0.0 && h > 0.0 && |v| > 0 && Steps(v, a, h) && v[0] == 0.0 && v[|v| - 1] == 0.0
    requires k < |v| && AtMost(v, v[k])
    ensures LosesAtLeast(a, v[k], Elapsed(v, h), Covered(v, h), Square(v[k]))
  {
    var m, up, down := v[k], v[..k + 1], v[k..];
    SegmentLoss(up, h, a, m);
    SegmentLoss(down, h, a, m);
    CoveredSplit(v, h, k);
    LossAdds(a, m, Elapsed(up, h), Covered(up, h), Cost(m, m) - Cost(m, 0.0),
             Elapsed(down, h), Covered(down, h), Cost(m, m) - Cost(m, 0.0),
             Elapsed(v, h), Covered(v, h), Square(m));
  }

  function Square(x: real): (y: real)
    ensures y >= 0.0
  {
    SquareNonNegative(x);
    x * x
  }

  lemma SquareNonNegative(x: real)
    ensures x * x >= 0.0
  {}

  /** The arithmetic core: a plan with these phases takes no longer than a motion with this loss. */
  lemma NoFaster(a: real, t: real, tc: real, v: real, d: real, m: real, elapsed: real)
    requires Phases(a, t, tc, v, HalfSquare(a, t), d) && m > 0.0 && (tc > 0.0 ==> m <= v)
    requires LosesAtLeast(a, m, elapsed, d, Square(m))
    ensures elapsed >= 2.0 * t + tc
  {
    var slack := Square(m - v) + (a * tc) * (v - m);
    ProductNonNegative(a, tc);
    if tc > 0.0 {
      ProductNonNegative(a * tc, v - m);
    }
    ProductPositive(a, m);
    TimeSlack(a, t, tc, v, d, m, elapsed, a * m, elapsed - (2.0 * t + tc), slack);
    FactorNonNegative(a * m, elapsed - (2.0 * t + tc), slack);
  }

  lemma TimeSlack(a: real, t: real, tc: real, v: real, d: real, m: real, elapsed: real, am: real, x: real, slack: real)
    requires v == a * t && d == 2.0 * HalfSquare(a, t) + v * tc && a * (m * elapsed - d) >= m * m
    requires am == a * m && x == elapsed - (2.0 * t + tc) && slack == Square(m - v) + (a * tc) * (v - m)
    ensures am * x >= slack
  {
    var p, q, r := a * (m * elapsed), m * v, (a * tc) * m;
    assert am * x == p - 2.0 * q - r;
    assert slack == m * m - 2.0 * q + v * v + (a * tc) * v - r;
    assert a * (m * elapsed - d) == p - a * d;
    PlanDistance(a, t, tc, v, d);
  }

  lemma PlanDistance(a: real, t: real, tc: real, v: real, d: real)
    requires v == a * t && d == 2.0 * HalfSquare(a, t) + v * tc
    ensures a * d == v * v + (a * tc) * v
  {}

  lemma FactorNonNegative(p: real, x: real, slack: real)
    requires p > 0.0 && p * x >= slack >= 0.0
    ensures x >= 0.0
  {
    if x < 0.0 {
      ProductPositive(p, -x);
    }
  }

  function Negated(v: seq<real>): (w: seq<real>)
    ensures |w| == |v| && forall i :: 0 <= i < |v| ==> w[i] == -v[i]
  {
    if v == [] then [] else [-v[0]] + Negated(v[1..])
  }

  lemma {:induction false} CoveredNegated(v: seq<real>, h: real)
    ensures Covered(Negated(v), h) == -Covered(v, h)
  {
    if |v| < 2 {
    } else {
      CoveredNegated(v[1..], h);
      assert Negated(v)[1..] == Negated(v[1..]);
    }
  }

  lemma NegatedAdmissible(v: seq<real>, h: real, limits: JointLimits)
    requires Admissible(v, h, limits)
    ensures Admissible(Negated(v), h, limits)
  {
    forall i | 0 <= i < |v| - 1 ensures Ramps(Negated(v)[i], Negated(v)[i + 1], limits.maxAcceleration, h) {
      RampsDown(v[i], v[i + 1], Negated(v)[i], Negated(v)[i + 1], limits.maxAcceleration, h);
    }
  }

  lemma RampsDown(x: real, y: real, x': real, y': real, a: real, h: real)
    requires Ramps(x, y, a, h) && x' == -x && y' == -y
    ensures Ramps(x', y', a, h)
  {}

  lemma {:induction false} StandsStill(v: seq<real>, h: real)
    requires h > 0.0 && AtMost(v, 0.0)
    ensures Covered(v, h) <= 0.0
  {
    if |v| < 2 {
    } else {
      StandsStill(v[1..], h);
      ProductNonNegative(-(v[0] + v[1]) / 2.0, h);
    }
  }

  /**
   The planned move is time-optimal: every admissible motion with the same displacement takes at
   least as long, whichever shape the plan has.
   */
  lemma PlanIsTimeOptimal(tr: Trajectory, limits: JointLimits, v: seq<real>, h: real)
    requires Planned(tr, limits) && Admissible(v, h, limits) && Covered(v, h) == tr.target - tr.start
    ensures Elapsed(v, h) >= tr.Total()
  {
    if tr.start == tr.target {
      ElapsedNonNegative(v, h);
    } else if tr.start < tr.target {
      ForwardOptimal(tr, limits, v, h);
    } else {
      CoveredNegated(v, h);
      NegatedAdmissible(v, h, limits);
      ForwardOptimal(tr, limits, Negated(v), h);
    }
  }

  /** So no admissible motion between the same positions is faster than what `create` plans. */
  lemma CreateIsTimeOptimal(
    start: real, target: real, limits: JointLimits, root: real, v: seq<real>, h: real)
    requires limits.Valid() ==> IsSqrt(root, Abs(target - start) * limits.maxAcceleration)
    requires Create(start, target, limits, root).Ok?
    requires Admissible(v, h, limits) && Covered(v, h) == target - start
    ensures Elapsed(v, h) >= Create(start, target, limits, root).value.Total()
  {
    hide Admissible, Covered, Elapsed;
    CreatedIsPlanned(start, target, limits, root);
    CreatedFor(start, target, limits, root);
    PlanIsTimeOptimal(Create(start, target, limits, root).value, limits, v, h);
  }

  lemma ElapsedNonNegative(v: seq<real>, h: real)
    requires |v| > 0 && h > 0.0
    ensures Elapsed(v, h) >= 0.0
  {
    ProductNonNegative((|v| - 1) as real, h);
  }

  lemma ForwardOptimal(tr: Trajectory, limits: JointLimits, v: seq<real>, h: real)
    requires Planned(tr, limits) && tr.start != tr.target && Admissible(v, h, limits) && Covered(v, h) == Distance(tr)
    ensures Elapsed(v, h) >= tr.Total()
  {
    var k := Peak(v);
    if v[k] <= 0.0 {
      StandsStill(v, h);
    }
    RestToRestLoss(v, h, limits.maxAcceleration, k);
    NoFaster(tr.maxAcceleration, tr.accelDuration, tr.cruiseDuration, tr.cruiseVelocity, Distance(tr), v[k], Elapsed(v, h));
  }
}
