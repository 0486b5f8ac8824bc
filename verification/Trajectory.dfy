/**
 The trapezoidal or triangular motion profile between two positions: how it is planned, and what
 sampling it at any time gives. Quantities are exact reals.
 */
module Trajectory {
  import opened Wrappers
  import opened Joint

  datatype TrajectorySample = TrajectorySample(position: real, velocity: real, acceleration: real)

  datatype Trajectory = Trajectory(
    start: real, target: real, sign: real, maxAcceleration: real,
    accelDuration: real, cruiseDuration: real, cruiseVelocity: real, accelDistance: real)
  {
    function Total(): real {
      2.0 * accelDuration + cruiseDuration
    }

    /** The position `distance` along the move. */
    function Along(distance: real): real {
      start + sign * distance
    }

    function Directed(magnitude: real): real {
      sign * magnitude
    }
  }

  const ENDPOINT_EPSILON: real := 0.0000001

  predicate IsSqrt(root: real, x: real) {
    root >= 0.0 && root * root == x
  }

  function Direction(distance: real): real {
    if Abs(distance) > 0.0 then (if distance > 0.0 then 1.0 else -1.0) else 0.0
  }

  function HalfSquare(a: real, x: real): real {
    0.5 * a * x * x
  }

  /** Distance covered while accelerating from rest to `v`. */
  function AccelDistanceTo(v: real, a: real): real
    requires a > 0.0
  {
    (v * v) / (2.0 * a)
  }

  /** The profile that reaches the maximum velocity and cruises. */
  function Trapezoidal(start: real, target: real, v: real, a: real): Trajectory
    requires v > 0.0 && a > 0.0
  {
    Trajectory(start, target, Direction(target - start), a, v / a,
               (Abs(target - start) - 2.0 * AccelDistanceTo(v, a)) / v, v, AccelDistanceTo(v, a))
  }

  /** The profile that turns around at the peak velocity `root` before reaching the maximum. */
  function Triangular(start: real, target: real, a: real, root: real): Trajectory
    requires a > 0.0
  {
    Trajectory(start, target, Direction(target - start), a, root / a, 0.0, root, HalfSquare(a, root / a))
  }

  /** `create`; `root` is the square root of distance times acceleration that the triangular branch takes. */
  function Create(start: real, target: real, limits: JointLimits, root: real): Result<Trajectory, JointError>
    requires limits.Valid() ==> IsSqrt(root, Abs(target - start) * limits.maxAcceleration)
  {
    if !limits.Valid() then Err(InvalidConfiguration)
    else if start < limits.minPosition || start > limits.maxPosition
            || target < limits.minPosition || target > limits.maxPosition then Err(PositionOutOfRange)
    else
      var v, a := limits.maxVelocity, limits.maxAcceleration;
      if Abs(target - start) == 0.0 then
        Ok(Trajectory(start, target, Direction(target - start), a, 0.0, 0.0, 0.0, 0.0))
      else if 2.0 * AccelDistanceTo(v, a) <= Abs(target - start) then Ok(Trapezoidal(start, target, v, a))
      else Ok(Triangular(start, target, a, root))
  }

  function Nanoseconds(x: real): int {
    (x * 1_000_000_000.0).Floor
  }

  /** `std::chrono::round` to nanoseconds: the nearest, halves to even. */
  function RoundToNs(seconds: real): int {
    var ns := Nanoseconds(seconds);
    var rest := seconds * 1_000_000_000.0 - ns as real;
    if rest < 0.5 || (rest == 0.5 && ns % 2 == 0) then ns else ns + 1
  }

  function Duration(tr: Trajectory): int {
    RoundToNs(tr.Total())
  }

  /** The sample of a moving trajectory inside one of its three phases. */
  function PhaseSample(tr: Trajectory, tau: real): TrajectorySample {
    var a := tr.maxAcceleration;
    if tau <= tr.accelDuration then
      TrajectorySample(tr.Along(HalfSquare(a, tau)), tr.Directed(a * tau), tr.Directed(a))
    else if tau <= tr.accelDuration + tr.cruiseDuration then
      var pos := tr.accelDistance + tr.cruiseVelocity * (tau - tr.accelDuration);
      TrajectorySample(tr.Along(pos), tr.Directed(tr.cruiseVelocity), 0.0)
    else
      var tIntoDec := tau - tr.accelDuration - tr.cruiseDuration;
      var pos := tr.accelDistance + tr.cruiseVelocity * tr.cruiseDuration + tr.cruiseVelocity * tIntoDec - HalfSquare(a, tIntoDec);
      TrajectorySample(tr.Along(pos), tr.Directed(tr.cruiseVelocity - a * tIntoDec), -tr.Directed(a))
  }

  /** `sample` at `time` seconds. */
  function SampleAt(tr: Trajectory, time: real): TrajectorySample
    requires tr.Total() >= 0.0
  {
    if tr.sign == 0.0 then TrajectorySample(tr.start, 0.0, 0.0)
    else
      var tau := Clamp(time, 0.0, tr.Total());
      if tau >= tr.Total() - ENDPOINT_EPSILON then TrajectorySample(tr.target, 0.0, 0.0) else PhaseSample(tr, tau)
  }

  function Sample(tr: Trajectory, ns: int): TrajectorySample
    requires tr.Total() >= 0.0
  {
    SampleAt(tr, Seconds(ns))
  }

  // The profile ------------------------------------------------------------------------------

  function Distance(tr: Trajectory): real {
    Abs(tr.target - tr.start)
  }

  /** The equations that tie acceleration, phase durations, speed and distances together. */
  predicate Phases(a: real, accelDuration: real, cruiseDuration: real, v: real, accelDistance: real, d: real) {
    && a > 0.0 && accelDuration > 0.0 && cruiseDuration >= 0.0 && v > 0.0
    && v == a * accelDuration
    && accelDistance == HalfSquare(a, accelDuration)
    && d == 2.0 * accelDistance + v * cruiseDuration
  }

  predicate Profile(tr: Trajectory) {
    && tr.sign == Direction(tr.target - tr.start) && tr.sign != 0.0
    && Phases(tr.maxAcceleration, tr.accelDuration, tr.cruiseDuration, tr.cruiseVelocity, tr.accelDistance, Distance(tr))
  }

  lemma TrapezoidalProfile(start: real, target: real, v: real, a: real)
    requires v > 0.0 && a > 0.0 && start != target && 2.0 * AccelDistanceTo(v, a) <= Abs(target - start)
    ensures Profile(Trapezoidal(start, target, v, a))
  {
    var d, da, t := Abs(target - start), AccelDistanceTo(v, a), v / a;
    assert t * a == v;
    assert v * v == (a * t) * (a * t);
    assert da * (2.0 * a) == v * v;
    assert HalfSquare(a, t) * (2.0 * a) == (a * t) * (a * t);
    assert Phases(a, t, (d - 2.0 * da) / v, v, da, d);
  }

  lemma TriangularProfile(start: real, target: real, v: real, a: real, p: real)
    requires v > 0.0 && a > 0.0 && start != target && IsSqrt(p, Abs(target - start) * a)
    requires 2.0 * AccelDistanceTo(v, a) > Abs(target - start)
    ensures p < v && Profile(Triangular(start, target, a, p))
  {
    var d, t := Abs(target - start), p / a;
    assert t * a == p;
    ProductPositive(d, a);
    assert p * p == (a * t) * (a * t);
    assert a * (2.0 * HalfSquare(a, t)) == (a * t) * (a * t);
    assert Phases(a, t, 0.0, p, HalfSquare(a, t), d);
    assert v * v > d * a by {
      var q := AccelDistanceTo(v, a);
      assert q * (2.0 * a) == v * v;
      ProductMonotone(d, 2.0 * q, a);
    }
    if p >= v {
      SquareMonotone(v, p);
    }
  }

  lemma ProductPositive(x: real, y: real)
    requires x > 0.0 && y > 0.0
    ensures x * y > 0.0
  {}

  lemma SquareMonotone(x: real, y: real)
    requires 0.0 <= x <= y
    ensures x * x <= y * y
  {
    ProductNonNegative(y - x, x + y);
  }

  /** Planning succeeds exactly for legal limits and positions; an empty move takes no time. */
  lemma CreatedFor(start: real, target: real, limits: JointLimits, root: real)
    requires limits.Valid() ==> IsSqrt(root, Abs(target - start) * limits.maxAcceleration)
    ensures var r := Create(start, target, limits, root);
            && (r.Ok? <==> limits.minPosition < limits.maxPosition && limits.maxVelocity > 0.0 && limits.maxAcceleration > 0.0
                           && limits.Contains(start) && limits.Contains(target))
            && (r.Err? ==> r.error == if !limits.Valid() then InvalidConfiguration else PositionOutOfRange)
            && (r.Ok? ==> r.value.start == start && r.value.target == target)
            && (r.Ok? && start == target ==> r.value.sign == 0.0 && r.value.Total() == 0.0)
  {}

  /** A planned move obeys the phase equations and keeps the velocity limit, strictly if it never cruises at it. */
  lemma CreatedProfile(start: real, target: real, limits: JointLimits, root: real)
    requires limits.Valid() && IsSqrt(root, Abs(target - start) * limits.maxAcceleration)
    requires limits.Contains(start) && limits.Contains(target) && start != target
    ensures var tr := Create(start, target, limits, root).value;
            && Profile(tr) && tr.maxAcceleration == limits.maxAcceleration
            && tr.cruiseVelocity <= limits.maxVelocity
            && (tr.cruiseVelocity == limits.maxVelocity
                <==> 2.0 * AccelDistanceTo(limits.maxVelocity, limits.maxAcceleration) <= Distance(tr))
  {
    var v, a := limits.maxVelocity, limits.maxAcceleration;
    if 2.0 * AccelDistanceTo(v, a) <= Abs(target - start) {
      TrapezoidalProfile(start, target, v, a);
    } else {
      TriangularProfile(start, target, v, a, root);
    }
  }

  // Distance travelled and speed, without direction and without the endpoint snap --------------

  function CruiseEnd(tr: Trajectory): real {
    tr.accelDuration + tr.cruiseDuration
  }

  function Travel(tr: Trajectory, tau: real): real {
    if tau <= tr.accelDuration then HalfSquare(tr.maxAcceleration, tau)
    else if tau <= CruiseEnd(tr) then tr.accelDistance + tr.cruiseVelocity * (tau - tr.accelDuration)
    else tr.accelDistance + tr.cruiseVelocity * tr.cruiseDuration + tr.cruiseVelocity * (tau - CruiseEnd(tr))
         - HalfSquare(tr.maxAcceleration, tau - CruiseEnd(tr))
  }

  function Speed(tr: Trajectory, tau: real): real {
    if tau <= tr.accelDuration then tr.maxAcceleration * tau
    else if tau <= CruiseEnd(tr) then tr.cruiseVelocity
    else tr.cruiseVelocity - tr.maxAcceleration * (tau - CruiseEnd(tr))
  }

  /** The time whose state is returned for `time`: clamped, and moved to the end within the last 100 ns. */
  function EffectiveTime(tr: Trajectory, time: real): real
    requires tr.Total() >= 0.0
  {
    var tau := Clamp(time, 0.0, tr.Total());
    if tau >= tr.Total() - ENDPOINT_EPSILON then tr.Total() else tau
  }

  /** `ds` is what moving for `dt` covers while the speed changes evenly from v1 to v2. */
  predicate Trapezium(ds: real, v1: real, v2: real, dt: real) {
    ds == (v1 + v2) / 2.0 * dt
  }

  predicate Reach(ds: real, v: real, dt: real) {
    0.0 <= ds <= v * dt
  }

  /** One piece of the motion with constant acceleration of at most `a`. */
  predicate Piece(ds: real, v1: real, v2: real, dt: real, v: real, a: real) {
    Trapezium(ds, v1, v2, dt) && 0.0 <= v1 <= v && 0.0 <= v2 <= v && -(a * dt) <= v2 - v1 <= a * dt
  }

  lemma PieceReach(ds: real, v1: real, v2: real, dt: real, v: real, a: real)
    requires Piece(ds, v1, v2, dt, v, a) && dt >= 0.0
    ensures Reach(ds, v, dt)
  {
    ProductNonNegative((v1 + v2) / 2.0, dt);
    ProductNonNegative(v - (v1 + v2) / 2.0, dt);
  }

  lemma ReachAdds(d1: real, d2: real, v: real, t1: real, t2: real)
    requires Reach(d1, v, t1) && Reach(d2, v, t2)
    ensures Reach(d1 + d2, v, t1 + t2)
  {
    assert v * (t1 + t2) == v * t1 + v * t2;
  }

  lemma EvenIncrease(a: real, x: real, y: real, v: real, ds: real, v1: real, v2: real)
    requires a >= 0.0 && 0.0 <= x <= y && v2 <= v
    requires v1 == a * x && v2 == a * y && ds == HalfSquare(a, y) - HalfSquare(a, x)
    ensures Piece(ds, v1, v2, y - x, v, a)
  {
    ProductNonNegative(a, x);
    ProductNonNegative(a, y - x);
    assert v2 - v1 == a * (y - x);
    assert Trapezium(ds, v1, v2, y - x);
  }

  lemma EvenDecrease(a: real, x: real, y: real, v: real, ds: real, v1: real, v2: real)
    requires a >= 0.0 && 0.0 <= x <= y && 0.0 <= v2
    requires v1 == v - a * x && v2 == v - a * y && ds == v * (y - x) - (HalfSquare(a, y) - HalfSquare(a, x))
    ensures Piece(ds, v1, v2, y - x, v, a)
  {
    ProductNonNegative(a, x);
    ProductNonNegative(a, y - x);
    assert v2 - v1 == -(a * (y - x));
    assert Trapezium(ds, v1, v2, y - x);
  }

  /** Distance and speed in the acceleration phase. */
  lemma Accelerating(tr: Trajectory, x: real)
    requires Profile(tr) && 0.0 <= x <= tr.accelDuration
    ensures Travel(tr, x) == HalfSquare(tr.maxAcceleration, x)
    ensures Speed(tr, x) == tr.maxAcceleration * x <= tr.cruiseVelocity && tr.maxAcceleration > 0.0
  {
    ProductNonNegative(tr.maxAcceleration, tr.accelDuration - x);
  }

  lemma AccelPiece(tr: Trajectory, x: real, y: real)
    requires Profile(tr) && 0.0 <= x <= y <= tr.accelDuration
    ensures Piece(Travel(tr, y) - Travel(tr, x), Speed(tr, x), Speed(tr, y), y - x, tr.cruiseVelocity, tr.maxAcceleration)
  {
    hide Travel, Speed, HalfSquare, Piece, Profile;
    Accelerating(tr, x);
    Accelerating(tr, y);
    EvenIncrease(tr.maxAcceleration, x, y, tr.cruiseVelocity, Travel(tr, y) - Travel(tr, x), Speed(tr, x), Speed(tr, y));
  }

  /** The phases agree where they meet. */
  lemma PhasesMeet(tr: Trajectory)
    requires Profile(tr)
    ensures Travel(tr, tr.accelDuration) == tr.accelDistance && Speed(tr, tr.accelDuration) == tr.cruiseVelocity
    ensures Travel(tr, CruiseEnd(tr)) == tr.accelDistance + tr.cruiseVelocity * tr.cruiseDuration
    ensures Speed(tr, CruiseEnd(tr)) == tr.cruiseVelocity
    ensures Travel(tr, 0.0) == 0.0 && Speed(tr, 0.0) == 0.0
    ensures Travel(tr, tr.Total()) == Distance(tr) && Speed(tr, tr.Total()) == 0.0
  {
    assert tr.Total() - CruiseEnd(tr) == tr.accelDuration;
    var a, t := tr.maxAcceleration, tr.accelDuration;
    assert HalfSquare(a, t) == 0.5 * ((a * t) * t);
  }

  lemma CruisePiece(tr: Trajectory, x: real, y: real)
    requires Profile(tr) && tr.accelDuration <= x <= y <= CruiseEnd(tr)
    ensures Piece(Travel(tr, y) - Travel(tr, x), Speed(tr, x), Speed(tr, y), y - x, tr.cruiseVelocity, tr.maxAcceleration)
  {
    hide Travel, Speed, Piece, HalfSquare;
    Cruising(tr, x);
    Cruising(tr, y);
    EvenCruise(tr.maxAcceleration, tr.cruiseVelocity, tr.accelDistance, x - tr.accelDuration, y - tr.accelDuration,
               Travel(tr, x), Travel(tr, y));
  }

  /** Distance and speed in the cruise phase. */
  lemma Cruising(tr: Trajectory, x: real)
    requires Profile(tr) && tr.accelDuration <= x <= CruiseEnd(tr)
    ensures Travel(tr, x) == tr.accelDistance + tr.cruiseVelocity * (x - tr.accelDuration)
    ensures Speed(tr, x) == tr.cruiseVelocity
  {
    PhasesMeet(tr);
  }

  lemma EvenCruise(a: real, v: real, s0: real, p: real, q: real, s1: real, s2: real)
    requires a >= 0.0 && v >= 0.0 && p <= q && s1 == s0 + v * p && s2 == s0 + v * q
    ensures Piece(s2 - s1, v, v, q - p, v, a)
  {
    ProductNonNegative(a, q - p);
  }

  /** Distance and speed after the cruise phase, at its end too. */
  lemma Slowing(tr: Trajectory, x: real, p: real)
    requires Profile(tr) && p >= 0.0 && x == CruiseEnd(tr) + p
    ensures Speed(tr, x) == tr.cruiseVelocity - tr.maxAcceleration * p
    ensures Travel(tr, x) ==
            tr.accelDistance + tr.cruiseVelocity * tr.cruiseDuration + tr.cruiseVelocity * p - HalfSquare(tr.maxAcceleration, p)
  {
    PhasesMeet(tr);
  }

  lemma DecelPiece(tr: Trajectory, x: real, y: real)
    requires Profile(tr) && CruiseEnd(tr) <= x <= y <= tr.Total()
    ensures Piece(Travel(tr, y) - Travel(tr, x), Speed(tr, x), Speed(tr, y), y - x, tr.cruiseVelocity, tr.maxAcceleration)
  {
    hide Travel, Speed, Piece, HalfSquare;
    var p, q := x - CruiseEnd(tr), y - CruiseEnd(tr);
    assert q - p == y - x;
    Slowing(tr, x, p);
    Slowing(tr, y, q);
    SlowingPiece(tr.maxAcceleration, tr.cruiseVelocity, tr.accelDistance + tr.cruiseVelocity * tr.cruiseDuration,
                 p, q, Travel(tr, x), Travel(tr, y), Speed(tr, x), Speed(tr, y), tr.accelDuration);
  }

  lemma SlowingPiece(a: real, v: real, s0: real, p: real, q: real, s1: real, s2: real, v1: real, v2: real, t: real)
    requires a >= 0.0 && 0.0 <= p <= q <= t && v == a * t
    requires v1 == v - a * p && v2 == v - a * q
    requires s1 == s0 + v * p - HalfSquare(a, p) && s2 == s0 + v * q - HalfSquare(a, q)
    ensures Piece(s2 - s1, v1, v2, q - p, v, a)
  {
    ProductNonNegative(a, t - q);
    EvenDecrease(a, p, q, v, s2 - s1, v1, v2);
  }

  predicate Swing(dv: real, a: real, dt: real) {
    -(a * dt) <= dv <= a * dt
  }

  /** What holds between two times: forward travel within the speed reached, speed change within the acceleration. */
  predicate Motion(tr: Trajectory, x: real, y: real) {
    && Reach(Travel(tr, y) - Travel(tr, x), tr.cruiseVelocity, y - x)
    && Swing(Speed(tr, y) - Speed(tr, x), tr.maxAcceleration, y - x)
    && 0.0 <= Speed(tr, x) <= tr.cruiseVelocity && 0.0 <= Speed(tr, y) <= tr.cruiseVelocity
  }

  lemma PieceMotion(tr: Trajectory, x: real, y: real)
    requires x <= y
    requires Piece(Travel(tr, y) - Travel(tr, x), Speed(tr, x), Speed(tr, y), y - x, tr.cruiseVelocity, tr.maxAcceleration)
    ensures Motion(tr, x, y)
  {
    PieceReach(Travel(tr, y) - Travel(tr, x), Speed(tr, x), Speed(tr, y), y - x, tr.cruiseVelocity, tr.maxAcceleration);
  }

  lemma MotionChains(tr: Trajectory, x: real, y: real, z: real)
    requires Motion(tr, x, y) && Motion(tr, y, z)
    ensures Motion(tr, x, z)
  {
    ReachAdds(Travel(tr, y) - Travel(tr, x), Travel(tr, z) - Travel(tr, y), tr.cruiseVelocity, y - x, z - y);
    SwingAdds(Speed(tr, y) - Speed(tr, x), Speed(tr, z) - Speed(tr, y), tr.maxAcceleration, y - x, z - y);
  }

  lemma SwingAdds(d1: real, d2: real, a: real, t1: real, t2: real)
    requires Swing(d1, a, t1) && Swing(d2, a, t2)
    ensures Swing(d1 + d2, a, t1 + t2)
  {
    assert a * (t1 + t2) == a * t1 + a * t2;
  }

  /** Motion between any two times, whatever phases they fall in. */
  lemma MotionBetween(tr: Trajectory, x: real, y: real)
    requires Profile(tr) && 0.0 <= x <= y <= tr.Total()
    ensures Motion(tr, x, y)
    decreases (if x < tr.accelDuration < y then 1 else 0) + (if x < CruiseEnd(tr) < y then 1 else 0)
  {
    if x < tr.accelDuration < y {
      MotionBetween(tr, x, tr.accelDuration);
      MotionBetween(tr, tr.accelDuration, y);
      MotionChains(tr, x, tr.accelDuration, y);
    } else if x < CruiseEnd(tr) < y {
      MotionBetween(tr, x, CruiseEnd(tr));
      MotionBetween(tr, CruiseEnd(tr), y);
      MotionChains(tr, x, CruiseEnd(tr), y);
    } else {
      if y <= tr.accelDuration {
        AccelPiece(tr, x, y);
      } else if CruiseEnd(tr) <= x {
        DecelPiece(tr, x, y);
      } else {
        CruisePiece(tr, x, y);
      }
      PieceMotion(tr, x, y);
    }
  }

  // What sampling returns --------------------------------------------------------------------

  /** `tr` is the plan of some move within `limits`. */
  ghost predicate Planned(tr: Trajectory, limits: JointLimits) {
    && limits.Valid() && limits.Contains(tr.start) && limits.Contains(tr.target) && tr.Total() >= 0.0
    && (if tr.start == tr.target then tr.sign == 0.0 && tr.Total() == 0.0
        else Profile(tr) && tr.maxAcceleration == limits.maxAcceleration && tr.cruiseVelocity <= limits.maxVelocity
             && (tr.cruiseDuration > 0.0 ==> tr.cruiseVelocity == limits.maxVelocity))
  }

  lemma CreatedIsPlanned(start: real, target: real, limits: JointLimits, root: real)
    requires limits.Valid() ==> IsSqrt(root, Abs(target - start) * limits.maxAcceleration)
    requires Create(start, target, limits, root).Ok?
    ensures Planned(Create(start, target, limits, root).value, limits)
  {
    CreatedFor(start, target, limits, root);
    if start != target {
      CreatedProfile(start, target, limits, root);
    }
  }

  lemma PhaseSampleIsProfile(tr: Trajectory, tau: real)
    requires Profile(tr)
    ensures PhaseSample(tr, tau).position == tr.Along(Travel(tr, tau))
    ensures PhaseSample(tr, tau).velocity == tr.Directed(Speed(tr, tau))
    ensures Abs(PhaseSample(tr, tau).acceleration) <= tr.maxAcceleration
  {
    if tau > CruiseEnd(tr) {
      assert tau - tr.accelDuration - tr.cruiseDuration == tau - CruiseEnd(tr);
    }
    assert tr.sign == 1.0 || tr.sign == -1.0;
  }

  /** The sample is the state of the profile at the effective time; only its acceleration differs, at the end. */
  lemma SampleIsProfile(tr: Trajectory, time: real)
    requires Profile(tr)
    ensures var q := EffectiveTime(tr, time);
            && 0.0 <= q <= tr.Total()
            && SampleAt(tr, time).position == tr.Along(Travel(tr, q))
            && SampleAt(tr, time).velocity == tr.Directed(Speed(tr, q))
            && Abs(SampleAt(tr, time).acceleration) <= tr.maxAcceleration
  {
    var q := EffectiveTime(tr, time);
    if q == tr.Total() {
      PhasesMeet(tr);
      assert tr.Along(Distance(tr)) == tr.target;
    } else {
      PhaseSampleIsProfile(tr, q);
    }
  }

  /**
   Sampled positions lie between start and target and move towards the target only, for any two
   times, before the start and after the end too.
   */
  lemma MonotoneTowardsTarget(tr: Trajectory, limits: JointLimits, t1: real, t2: real)
    requires Planned(tr, limits) && t1 <= t2
    ensures var p1, p2 := SampleAt(tr, t1).position, SampleAt(tr, t2).position;
            if tr.start <= tr.target then tr.start <= p1 <= p2 <= tr.target else tr.start >= p1 >= p2 >= tr.target
  {
    if tr.start != tr.target {
      var q1, q2 := EffectiveTime(tr, t1), EffectiveTime(tr, t2);
      SampleIsProfile(tr, t1);
      SampleIsProfile(tr, t2);
      TravelOrder(tr, q1, q2);
    }
  }

  lemma TravelOrder(tr: Trajectory, q1: real, q2: real)
    requires Profile(tr) && 0.0 <= q1 <= q2 <= tr.Total()
    ensures 0.0 <= Travel(tr, q1) <= Travel(tr, q2) <= Distance(tr)
  {
    PhasesMeet(tr);
    MotionBetween(tr, 0.0, q1);
    MotionBetween(tr, q1, q2);
    MotionBetween(tr, q2, tr.Total());
  }

  /** Every sample keeps the position, velocity and acceleration limits. */
  lemma SampleWithinLimits(tr: Trajectory, limits: JointLimits, time: real)
    requires Planned(tr, limits)
    ensures var s := SampleAt(tr, time);
            limits.Contains(s.position) && Abs(s.velocity) <= limits.maxVelocity && Abs(s.acceleration) <= limits.maxAcceleration
  {
    MonotoneTowardsTarget(tr, limits, time, time);
    if tr.start != tr.target {
      SampleIsProfile(tr, time);
      MotionBetween(tr, 0.0, EffectiveTime(tr, time));
    }
  }

  /** Time passes no faster for the profile than for the caller, but for the snap. */
  lemma EffectiveTimes(tr: Trajectory, t1: real, t2: real)
    requires tr.Total() >= 0.0 && t1 <= t2
    ensures 0.0 <= EffectiveTime(tr, t1) <= EffectiveTime(tr, t2) <= tr.Total()
    ensures EffectiveTime(tr, t2) - EffectiveTime(tr, t1) <= t2 - t1 + ENDPOINT_EPSILON
  {}

  lemma Differences(tr: Trajectory, x: real, y: real)
    requires tr.sign == 1.0 || tr.sign == -1.0
    ensures Abs(tr.Along(y) - tr.Along(x)) == Abs(y - x) == Abs(tr.Directed(y) - tr.Directed(x))
  {
    if tr.sign == 1.0 {
    } else {
      assert tr.sign == -1.0;
    }
  }

  lemma TravelWithin(tr: Trajectory, q1: real, q2: real, v: real, dt: real, reach: real)
    requires Profile(tr) && 0.0 <= q1 <= q2 <= tr.Total()
    requires tr.cruiseVelocity <= v && q2 - q1 <= dt && reach == v * dt
    ensures 0.0 <= Travel(tr, q2) - Travel(tr, q1) <= reach
  {
    hide Speed, Travel, Swing, Reach;
    MotionBetween(tr, q1, q2);
    ReachWithin(Travel(tr, q2) - Travel(tr, q1), tr.cruiseVelocity, q2 - q1, v, dt, reach);
  }

  lemma ReachWithin(ds: real, v: real, dt: real, v': real, dt': real, reach: real)
    requires Reach(ds, v, dt) && 0.0 <= v <= v' && 0.0 <= dt <= dt' && reach == v' * dt'
    ensures 0.0 <= ds <= reach
  {
    ProductNonNegative(v' - v, dt);
    ProductNonNegative(v', dt' - dt);
  }

  lemma SpeedWithin(tr: Trajectory, q1: real, q2: real, dt: real, swing: real)
    requires Profile(tr) && 0.0 <= q1 <= q2 <= tr.Total()
    requires q2 - q1 <= dt && swing == tr.maxAcceleration * dt
    ensures -swing <= Speed(tr, q2) - Speed(tr, q1) <= swing
  {
    hide Speed, Travel, Swing, Reach;
    MotionBetween(tr, q1, q2);
    SwingWithin(Speed(tr, q2) - Speed(tr, q1), tr.maxAcceleration, q2 - q1, dt, swing);
  }

  lemma SwingWithin(dv: real, a: real, dt: real, dt': real, swing: real)
    requires Swing(dv, a, dt) && a >= 0.0 && dt <= dt' && swing == a * dt'
    ensures -swing <= dv <= swing
  {
    ProductNonNegative(a, dt' - dt);
  }

  /** How far the position can change between two times: what the velocity limit allows, in 100 ns more because of the snap. */
  lemma PositionChange(tr: Trajectory, limits: JointLimits, t1: real, t2: real, dt: real, reach: real)
    requires Planned(tr, limits) && t1 <= t2 && dt == t2 - t1 + ENDPOINT_EPSILON && reach == limits.maxVelocity * dt
    ensures Abs(SampleAt(tr, t2).position - SampleAt(tr, t1).position) <= reach
  {
    if tr.start == tr.target {
      ProductNonNegative(limits.maxVelocity, dt);
    } else {
      var q1, q2 := EffectiveTime(tr, t1), EffectiveTime(tr, t2);
      EffectiveTimes(tr, t1, t2);
      TravelWithin(tr, q1, q2, limits.maxVelocity, dt, reach);
      SampleIsProfile(tr, t1);
      SampleIsProfile(tr, t2);
      Differences(tr, Travel(tr, q1), Travel(tr, q2));
    }
  }

  /** How far the velocity can change between two times: what the acceleration limit allows, in 100 ns more. */
  lemma VelocityChange(tr: Trajectory, limits: JointLimits, t1: real, t2: real, dt: real, swing: real)
    requires Planned(tr, limits) && t1 <= t2 && dt == t2 - t1 + ENDPOINT_EPSILON && swing == limits.maxAcceleration * dt
    ensures Abs(SampleAt(tr, t2).velocity - SampleAt(tr, t1).velocity) <= swing
  {
    if tr.start == tr.target {
      ProductNonNegative(limits.maxAcceleration, dt);
    } else {
      var q1, q2 := EffectiveTime(tr, t1), EffectiveTime(tr, t2);
      EffectiveTimes(tr, t1, t2);
      SpeedWithin(tr, q1, q2, dt, swing);
      SampleIsProfile(tr, t1);
      SampleIsProfile(tr, t2);
      Differences(tr, Speed(tr, q1), Speed(tr, q2));
    }
  }

  /** The phase a time falls into: accelerating, cruising or slowing down. */
  function PhaseAt(tr: Trajectory, tau: real): nat {
    if tau <= tr.accelDuration then 0 else if tau <= CruiseEnd(tr) then 1 else 2
  }

  /** The speed changes from v1 to v2 in `dt` seconds at the constant rate `r`. */
  predicate ChangesAt(v1: real, v2: real, r: real, dt: real) {
    v2 - v1 == r * dt
  }

  /** `s2` is reached from `s1` in `dt` seconds under the constant acceleration of both. */
  predicate Evenly(s1: TrajectorySample, s2: TrajectorySample, dt: real) {
    && s2.acceleration == s1.acceleration
    && ChangesAt(s1.velocity, s2.velocity, s1.acceleration, dt)
    && Trapezium(s2.position - s1.position, s1.velocity, s2.velocity, dt)
  }

  /** The rate at which the speed changes in a phase. */
  function Rate(tr: Trajectory, phase: nat): real {
    if phase == 0 then tr.maxAcceleration else if phase == 1 then 0.0 else -tr.maxAcceleration
  }

  /**
   The three quantities of a sample belong together: within a phase, velocity changes at the rate
   the acceleration says, and position as the velocities say, with their signs.
   */
  lemma SamplesAreKinematic(tr: Trajectory, limits: JointLimits, t1: real, t2: real, dt: real)
    requires Planned(tr, limits) && tr.start != tr.target && dt == t2 - t1
    requires 0.0 <= t1 <= t2 < tr.Total() - ENDPOINT_EPSILON && PhaseAt(tr, t1) == PhaseAt(tr, t2)
    ensures Evenly(SampleAt(tr, t1), SampleAt(tr, t2), dt)
  {
    hide Travel, Speed, Rate, PhaseSample, Trapezium, ChangesAt;
    var r := Rate(tr, PhaseAt(tr, t1));
    PhaseSampleIsProfile(tr, t1);
    PhaseSampleIsProfile(tr, t2);
    PhaseSampleRate(tr, t1);
    PhaseSampleRate(tr, t2);
    SpeedRate(tr, t1, t2, dt);
    TravelRate(tr, t1, t2, dt);
    Signed(tr, Travel(tr, t1), Travel(tr, t2), Speed(tr, t1), Speed(tr, t2), r, dt);
  }

  lemma PhaseSampleRate(tr: Trajectory, tau: real)
    ensures PhaseSample(tr, tau).acceleration == tr.Directed(Rate(tr, PhaseAt(tr, tau)))
  {}

  lemma SpeedRate(tr: Trajectory, t1: real, t2: real, dt: real)
    requires PhaseAt(tr, t1) == PhaseAt(tr, t2) && dt == t2 - t1
    ensures ChangesAt(Speed(tr, t1), Speed(tr, t2), Rate(tr, PhaseAt(tr, t1)), dt)
  {}

  lemma TravelRate(tr: Trajectory, t1: real, t2: real, dt: real)
    requires Profile(tr) && 0.0 <= t1 <= t2 <= tr.Total() && PhaseAt(tr, t1) == PhaseAt(tr, t2) && dt == t2 - t1
    ensures Trapezium(Travel(tr, t2) - Travel(tr, t1), Speed(tr, t1), Speed(tr, t2), dt)
  {
    match PhaseAt(tr, t1)
    case 0 => AccelPiece(tr, t1, t2);
    case 1 => CruisePiece(tr, t1, t2);
    case _ => DecelPiece(tr, t1, t2);
  }

  lemma Signed(tr: Trajectory, d1: real, d2: real, v1: real, v2: real, r: real, dt: real)
    requires tr.sign == 1.0 || tr.sign == -1.0
    requires Trapezium(d2 - d1, v1, v2, dt) && ChangesAt(v1, v2, r, dt)
    ensures Trapezium(tr.Along(d2) - tr.Along(d1), tr.Directed(v1), tr.Directed(v2), dt)
    ensures ChangesAt(tr.Directed(v1), tr.Directed(v2), tr.Directed(r), dt)
  {}

  /** The duration is the nearest whole number of nanoseconds, the even one of two. */
  lemma DurationNearest(tr: Trajectory)
    ensures var x := tr.Total() * 1_000_000_000.0;
            && -0.5 <= Duration(tr) as real - x <= 0.5
            && (Abs(Duration(tr) as real - x) == 0.5 ==> Duration(tr) % 2 == 0)
  {
    var x := tr.Total() * 1_000_000_000.0;
    assert x.Floor as real <= x < x.Floor as real + 1.0;
  }

  /** From the duration on, the end is reached exactly, whichever way the duration was rounded to nanoseconds. */
  lemma EndsExactly(tr: Trajectory, limits: JointLimits, ns: int)
    requires Planned(tr, limits) && ns >= Duration(tr)
    ensures Sample(tr, ns) == TrajectorySample(tr.target, 0.0, 0.0)
  {
    var x := tr.Total() * 1_000_000_000.0;
    assert x.Floor as real <= x < x.Floor as real + 1.0;
    assert Seconds(ns) >= Seconds(Duration(tr)) >= tr.Total() - ENDPOINT_EPSILON;
  }

  lemma TravelStarted(tr: Trajectory, x: real)
    requires Profile(tr) && 0.0 < x <= tr.Total()
    ensures Travel(tr, x) > 0.0
  {
    var y := if x <= tr.accelDuration then x else tr.accelDuration;
    HalfSquarePositive(tr.maxAcceleration, y);
    hide HalfSquare;
    Accelerating(tr, y);
    MotionBetween(tr, y, x);
  }

  lemma HalfSquarePositive(a: real, x: real)
    requires a > 0.0 && x > 0.0
    ensures HalfSquare(a, x) > 0.0
  {
    ProductPositive(0.5 * a, x);
    ProductPositive(0.5 * a * x, x);
  }

  /** The sampled position is the target in the last 100 ns, in moves no longer than that, and at no other time. */
  lemma AtTargetIff(tr: Trajectory, limits: JointLimits, ns: int)
    requires Planned(tr, limits) && tr.start != tr.target
    ensures Sample(tr, ns).position == tr.target
            <==> ns as real + 100.0 >= tr.Total() * 1_000_000_000.0 || tr.Total() * 1_000_000_000.0 <= 100.0
  {
    hide Travel;
    SampleIsProfile(tr, Seconds(ns));
    var tau := EffectiveTime(tr, Seconds(ns));
    if tau < tr.Total() {
      TravelSymmetric(tr, tau);
      TravelStarted(tr, tr.Total() - tau);
    } else {
      PhasesMeet(tr);
    }
  }

  /** The state a move begins with: at the start, at rest, with the initial acceleration. */
  function InitialState(tr: Trajectory): TrajectorySample {
    TrajectorySample(tr.start, 0.0, tr.Directed(tr.maxAcceleration))
  }

  /** Sampling at time 0 or before gives the initial state, unless the whole move is within the endpoint snap. */
  lemma StartsAtStart(tr: Trajectory, limits: JointLimits, ns: int)
    requires Planned(tr, limits) && ns <= 0
    ensures Sample(tr, ns) == InitialState(tr) <==> tr.start == tr.target || tr.Total() > ENDPOINT_EPSILON
    ensures Sample(tr, ns).position == tr.start <==> tr.start == tr.target || tr.Total() > ENDPOINT_EPSILON
  {
    if tr.start != tr.target {
      SampleIsProfile(tr, Seconds(ns));
      PhasesMeet(tr);
    }
  }

  /** A move of 10^-16 within a speed and an acceleration of 1 takes 20 ns and is sampled at its end from the outset. */
  lemma ShortMoveStartsAtEnd()
    ensures var limits, root := JointLimits(-1.0, 1.0, 1.0, 1.0), 0.000_000_01;
            var r := Create(0.0, 0.000_000_000_000_000_1, limits, root);
            && IsSqrt(root, Abs(0.000_000_000_000_000_1) * limits.maxAcceleration)
            && r.Ok? && Planned(r.value, limits) && r.value.Total() == 0.000_000_02
            && Sample(r.value, 0) == TrajectorySample(r.value.target, 0.0, 0.0) != InitialState(r.value)
  {
    CreatedIsPlanned(0.0, 0.000_000_000_000_000_1, JointLimits(-1.0, 1.0, 1.0, 1.0), 0.000_000_01);
  }

  // Reversal ---------------------------------------------------------------------------------

  /** The profile is symmetric in time. */
  lemma TravelSymmetric(tr: Trajectory, x: real)
    requires Profile(tr) && 0.0 <= x <= tr.Total()
    ensures Travel(tr, tr.Total() - x) == Distance(tr) - Travel(tr, x)
  {
    var y := tr.Total() - x;
    PhasesMeet(tr);
    if x < tr.accelDuration {
      Mirror(tr, x, y);
    } else if x > CruiseEnd(tr) {
      Mirror(tr, y, x);
    } else {
      MirrorCruise(tr, x, y);
    }
  }

  lemma Mirror(tr: Trajectory, x: real, y: real)
    requires Profile(tr) && 0.0 <= x <= tr.accelDuration && x + y == tr.Total()
    ensures Travel(tr, y) == Distance(tr) - Travel(tr, x)
  {
    Slowing(tr, y, tr.accelDuration - x);
    MirrorSquares(tr.maxAcceleration, tr.accelDuration, tr.cruiseVelocity, x);
  }

  lemma MirrorSquares(a: real, t: real, v: real, x: real)
    requires v == a * t
    ensures v * (t - x) - HalfSquare(a, t - x) == HalfSquare(a, t) - HalfSquare(a, x)
  {}

  lemma MirrorCruise(tr: Trajectory, x: real, y: real)
    requires Profile(tr) && tr.accelDuration <= x <= CruiseEnd(tr) && x + y == tr.Total()
    ensures Travel(tr, y) == Distance(tr) - Travel(tr, x)
  {
    PhasesMeet(tr);
    Cruising(tr, x);
    Cruising(tr, y);
    var v := tr.cruiseVelocity;
    assert v * (x - tr.accelDuration) + v * (y - tr.accelDuration) == v * tr.cruiseDuration by {
      assert (x - tr.accelDuration) + (y - tr.accelDuration) == tr.cruiseDuration;
    }
  }

  /** Away from the two ends' snaps, the way back passes the same positions at mirrored times. */
  lemma ReversedSample(start: real, target: real, limits: JointLimits, root: real, time: real)
    requires limits.Valid() && limits.Contains(start) && limits.Contains(target)
    requires IsSqrt(root, Abs(target - start) * limits.maxAcceleration)
    requires ENDPOINT_EPSILON < time < Create(start, target, limits, root).value.Total() - ENDPOINT_EPSILON
    ensures var there, back := Create(start, target, limits, root).value, Create(target, start, limits, root).value;
            && back.Total() == there.Total()
            && SampleAt(back, there.Total() - time).position == SampleAt(there, time).position
  {
    hide SampleAt, Profile;
    var there, back := Create(start, target, limits, root).value, Create(target, start, limits, root).value;
    ReversedPlan(start, target, limits, root);
    MovesIfLong(start, target, limits, root);
    CreatedProfile(start, target, limits, root);
    CreatedProfile(target, start, limits, root);
    MirroredSample(there, back, time);
  }

  /** The plan of the way back is the plan of the way there with the ends exchanged. */
  lemma ReversedPlan(start: real, target: real, limits: JointLimits, root: real)
    requires limits.Valid() && limits.Contains(start) && limits.Contains(target)
    requires IsSqrt(root, Abs(target - start) * limits.maxAcceleration)
    ensures Abs(start - target) == Abs(target - start)
    ensures var there, back := Create(start, target, limits, root).value, Create(target, start, limits, root).value;
            back == there.(start := target, target := start, sign := -there.sign)
  {
    hide AccelDistanceTo, HalfSquare;
    assert Abs(start - target) == Abs(target - start);
  }

  lemma MovesIfLong(start: real, target: real, limits: JointLimits, root: real)
    requires limits.Valid() && limits.Contains(start) && limits.Contains(target)
    requires IsSqrt(root, Abs(target - start) * limits.maxAcceleration)
    requires Create(start, target, limits, root).value.Total() > 0.0
    ensures start != target
  {
    hide AccelDistanceTo, HalfSquare;
  }

  lemma MirroredSample(there: Trajectory, back: Trajectory, time: real)
    requires Profile(there) && Profile(back)
    requires back == there.(start := there.target, target := there.start, sign := -there.sign)
    requires ENDPOINT_EPSILON < time < there.Total() - ENDPOINT_EPSILON
    ensures SampleAt(back, there.Total() - time).position == SampleAt(there, time).position
  {
    SampleIsProfile(there, time);
    SampleIsProfile(back, there.Total() - time);
    TravelSymmetric(there, time);
    SameTravel(there, back, there.Total() - time);
    Opposite(there, back, Travel(there, time));
  }

  lemma SameTravel(tr: Trajectory, other: Trajectory, x: real)
    requires other == tr.(start := other.start, target := other.target, sign := other.sign)
    ensures Travel(other, x) == Travel(tr, x)
  {}

  lemma Opposite(there: Trajectory, back: Trajectory, s: real)
    requires there.sign == Direction(there.target - there.start) && back.start == there.target && back.sign == -there.sign
    ensures back.Along(Distance(there) - s) == there.Along(s)
  {
    if there.sign == 1.0 {
    } else if there.sign == -1.0 {
    }
  }
}
