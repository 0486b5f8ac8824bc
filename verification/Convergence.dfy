/**
 The control law from any state within the limits: it always brings the joint to its target, and
 when it does so without overshooting.
 */
module Convergence {
  import opened Joint

  // One step on error and velocity ---------------------------------------------------------------

  /** Before any position clamp: velocity `v` becomes `v'`, error `e` becomes `e'`; `limit` is the largest velocity change. */
  predicate Ramps(e: real, v: real, maxV: real, limit: real, dt: real, e': real, v': real) {
    && v' == v + Clamp(Clamp(POSITION_GAIN * e, -maxV, maxV) - v, -limit, limit)
    && e' == e - v' * dt
  }

  /** The same on the other side of the target. */
  lemma RampsMirrored(e: real, v: real, maxV: real, limit: real, dt: real, e': real, v': real)
    requires Ramps(e, v, maxV, limit, dt, e', v') && maxV > 0.0 && limit > 0.0
    ensures Ramps(-e, -v, maxV, limit, dt, -e', -v')
  {
    assert (-v') * dt == -(v' * dt);
  }

  /** The largest velocity change of a step of `dt` seconds. */
  function MaxDelta(limits: JointLimits, dt: real): real {
    limits.maxAcceleration * dt
  }

  lemma MaxDeltaPositive(limits: JointLimits, dt: real)
    requires limits.Valid() && dt > 0.0
    ensures MaxDelta(limits, dt) == limits.maxAcceleration * dt > 0.0
  {}

  lemma RampedVelocity(j: JointValue, dt: real)
    requires dt > 0.0 && j.limits.Valid() && -j.limits.maxVelocity <= j.velocity <= j.limits.maxVelocity
    ensures var limit := MaxDelta(j.limits, dt);
            Ramped(j, dt).velocity
            == j.velocity + Clamp(Clamp(POSITION_GAIN * Error(j), -j.limits.maxVelocity, j.limits.maxVelocity) - j.velocity, -limit, limit)
    ensures -j.limits.maxVelocity <= Ramped(j, dt).velocity <= j.limits.maxVelocity
  {
    MaxDeltaPositive(j.limits, dt);
    RampTowardsSetpoint(j, dt);
  }

  lemma JointRamps(j: JointValue, dt: real)
    requires dt > 0.0 && j.limits.Valid() && -j.limits.maxVelocity <= j.velocity <= j.limits.maxVelocity
    ensures var m := Moved(Ramped(j, dt), dt);
            && m == j.(position := m.position, velocity := m.velocity, acceleration := m.acceleration)
            && Ramps(Error(j), j.velocity, j.limits.maxVelocity, MaxDelta(j.limits, dt), dt, Error(m), m.velocity)
            && -j.limits.maxVelocity <= m.velocity <= j.limits.maxVelocity
  {
    hide DeltaV, MaxDelta;
    RampedVelocity(j, dt);
  }

  /** Within its limits, enabled and not faulted. */
  predicate UnderControl(j: JointValue) {
    WithinLimits(j) && j.enabled && !j.faulted
  }

  // Energy -----------------------------------------------------------------------------------------

  /** Half the squared speed, and the speed the remaining distance is worth at full deceleration. */
  function Energy(a: real, e: real, v: real): real {
    0.5 * (v * v) + a * Abs(e)
  }

  function EnergyOf(j: JointValue): real {
    Energy(j.limits.maxAcceleration, Error(j), j.velocity)
  }

  /** What every step takes off the energy outside the linear region, if the velocity changes by at most `limit`. */
  function DropBy(limit: real, maxV: real): real {
    0.5 * (limit * Min(limit, maxV))
  }

  function Drop(limits: JointLimits, dt: real): real {
    DropBy(MaxDelta(limits, dt), limits.maxVelocity)
  }

  lemma Squares(x: real, y: real)
    requires 0.0 <= x <= y
    ensures x * x <= y * y
  {
    ProductNonNegative(y - x, y + x);
  }

  /** The product of acceleration and distance covered. */
  lemma Covered(a: real, dt: real, limit: real, v: real)
    requires limit == a * dt
    ensures a * (v * dt) == limit * v
  {}

  /** Speeding up towards the target: e and e' are ahead. */
  lemma SpeedingUp(v: real, limit: real, w: real)
    requires w == v + limit
    ensures 0.5 * (w * w) - limit * w == 0.5 * (v * v) - 0.5 * (limit * limit)
  {}

  /** Slowing down, whether or not the target is passed: `worth` is what the new distance is worth more. */
  lemma SlowingDown(v: real, limit: real, w: real, worth: real)
    requires w == v - limit && w >= 0.0 && limit > 0.0 && worth <= limit * w
    ensures 0.5 * (w * w) + worth <= 0.5 * (v * v) - 0.5 * (limit * limit)
  {}

  /** Reaching the setpoint `p`: from at most `limit` away, or when `p` itself is small. */
  lemma AtSetpoint(v: real, limit: real, p: real)
    requires p >= limit > 0.0 && p - limit <= v
    ensures 0.5 * (p * p) - limit * p <= 0.5 * (v * v) - 0.5 * (limit * limit)
  {
    Squares(p - limit, v);
    assert (p - limit) * (p - limit) == p * p - 2.0 * (limit * p) + limit * limit;
  }

  lemma AtSmallSetpoint(v: real, limit: real, p: real)
    requires 0.0 < p <= limit
    ensures 0.5 * (p * p) - limit * p <= 0.5 * (v * v) - 0.5 * (limit * p)
  {
    ProductNonNegative(p, limit - p);
    assert v * v >= 0.0 by { if v >= 0.0 { ProductNonNegative(v, v); } else { ProductNonNegative(-v, -v); } }
  }

  /** The linear region in terms of error and velocity. */
  predicate Near(e: real, v: real, maxV: real, a: real, limit: real) {
    && Abs(e) <= Min(maxV / POSITION_GAIN, a / (POSITION_GAIN * POSITION_GAIN))
    && Abs(POSITION_GAIN * e - v) <= limit
  }

  lemma DropsEnough(before: real, after: real, limit: real, maxV: real)
    requires limit > 0.0 && maxV > 0.0
    requires after <= before - 0.5 * (limit * limit) || (maxV <= limit && after <= before - 0.5 * (limit * maxV))
    ensures after <= before - DropBy(limit, maxV)
  {
    ProductNonNegative(limit, limit - Min(limit, maxV));
  }

  /** How the error changes in a step that starts ahead of the target. */
  lemma ErrorWorth(a: real, dt: real, limit: real, e: real, e': real, v': real)
    requires a > 0.0 && dt > 0.0 && limit == a * dt && e >= 0.0 && e' == e - v' * dt
    ensures e' >= 0.0 ==> a * Abs(e') == a * Abs(e) - limit * v'
    ensures e' < 0.0 ==> a * Abs(e') <= limit * v' - a * Abs(e)
    ensures a * Abs(e) >= 0.0
  {
    Covered(a, dt, limit, v');
    ProductNonNegative(a, e);
    assert a * (e - v' * dt) == a * e - a * (v' * dt);
    assert a * (v' * dt - e) == a * (v' * dt) - a * e;
  }

  /** Outside the linear region the energy drops, wherever the step leads. */
  lemma EnergyDropsAhead(e: real, v: real, maxV: real, a: real, dt: real, limit: real, e': real, v': real)
    requires e >= 0.0 && -maxV <= v <= maxV && maxV > 0.0 && a > 0.0 && limit == a * dt && limit > 0.0
    requires 0.0 < POSITION_GAIN * dt <= 1.0 && Ramps(e, v, maxV, limit, dt, e', v') && !Near(e, v, maxV, a, limit)
    ensures Energy(a, e', v') <= Energy(a, e, v) - DropBy(limit, maxV)
  {
    hide DropBy, Near, Energy;
    var p := Clamp(POSITION_GAIN * e, -maxV, maxV);
    StaysAhead(e, dt, p, v', e');
    ErrorWorth(a, dt, limit, e, e', v');
    if v < p - limit {
      SpeedingUp(v, limit, v');
      EnergyIs(a, e, v);
      EnergyIs(a, e', v');
    } else if v > p + limit {
      SlowingDown(v, limit, v', a * Abs(e') - a * Abs(e));
      EnergyIs(a, e, v);
      EnergyIs(a, e', v');
    } else {
      AtPeak(e, v, maxV, a, dt, limit, p);
      if p >= limit {
        AtSetpoint(v, limit, p);
      } else {
        AtSmallSetpoint(v, limit, p);
      }
      EnergyIs(a, e, v);
      EnergyIs(a, e', v');
    }
    DropsEnough(Energy(a, e, v), Energy(a, e', v'), limit, maxV);
  }

  lemma EnergyIs(a: real, e: real, v: real)
    ensures Energy(a, e, v) == 0.5 * (v * v) + a * Abs(e)
  {}

  /** A velocity of at most the setpoint does not pass the target in one step. */
  lemma StaysAhead(e: real, dt: real, p: real, v': real, e': real)
    requires e >= 0.0 && 0.0 < POSITION_GAIN * dt <= 1.0 && p <= POSITION_GAIN * e && e' == e - v' * dt
    ensures v' <= p ==> e' >= 0.0
  {
    if v' <= p {
      ProductNonNegative(POSITION_GAIN * e - v', dt);
      ProductNonNegative(e, 1.0 - POSITION_GAIN * dt);
      assert (POSITION_GAIN * e - v') * dt == POSITION_GAIN * e * dt - v' * dt;
    }
  }

  /** Outside the linear region a setpoint within reach is at its maximum, or not small. */
  lemma AtPeak(e: real, v: real, maxV: real, a: real, dt: real, limit: real, p: real)
    requires e >= 0.0 && maxV > 0.0 && a > 0.0 && limit == a * dt && limit > 0.0 && POSITION_GAIN * dt <= 1.0
    requires p == Clamp(POSITION_GAIN * e, -maxV, maxV) && p - limit <= v <= p + limit && !Near(e, v, maxV, a, limit)
    ensures p >= limit || p == maxV
  {
    ProductNonNegative(a, 1.0 - POSITION_GAIN * dt);
    assert a * (1.0 - POSITION_GAIN * dt) == a - POSITION_GAIN * limit;
  }

  lemma EnergyDrops(e: real, v: real, maxV: real, a: real, dt: real, limit: real, e': real, v': real)
    requires -maxV <= v <= maxV && maxV > 0.0 && a > 0.0 && limit == a * dt && limit > 0.0
    requires 0.0 < POSITION_GAIN * dt <= 1.0 && Ramps(e, v, maxV, limit, dt, e', v') && !Near(e, v, maxV, a, limit)
    ensures Energy(a, e', v') <= Energy(a, e, v) - DropBy(limit, maxV)
  {
    if e >= 0.0 {
      EnergyDropsAhead(e, v, maxV, a, dt, limit, e', v');
    } else {
      RampsMirrored(e, v, maxV, limit, dt, e', v');
      EnergyDropsAhead(-e, -v, maxV, a, dt, limit, -e', -v');
      EnergyMirrored(a, e, v);
      EnergyMirrored(a, e', v');
    }
  }

  lemma EnergyMirrored(a: real, e: real, v: real)
    ensures Energy(a, -e, -v) == Energy(a, e, v)
  {
    assert (-v) * (-v) == v * v;
  }

  /** The position clamp brings the joint closer to its target and takes speed away. */
  lemma ClampLowersEnergy(j: JointValue)
    requires j.limits.Valid() && j.limits.Contains(j.targetPosition)
    ensures EnergyOf(ClampedToLimits(j)) <= EnergyOf(j)
  {
    var k := ClampedToLimits(j);
    Squares(Abs(k.velocity), Abs(j.velocity));
    assert Abs(k.velocity) * Abs(k.velocity) == k.velocity * k.velocity;
    assert Abs(j.velocity) * Abs(j.velocity) == j.velocity * j.velocity;
    ProductNonNegative(j.limits.maxAcceleration, Abs(Error(j)) - Abs(Error(k)));
  }

  lemma UpdateDrops(j: JointValue, ns: int)
    requires UnderControl(j) && ns > 0 && POSITION_GAIN * Seconds(ns) <= 1.0 && !LinearRegion(j, Seconds(ns))
    ensures EnergyOf(Updated(j, ns)) <= EnergyOf(j) - Drop(j.limits, Seconds(ns))
  {
    hide Energy, DropBy, Ramps, MaxDelta, Moved, Ramped, ClampedToLimits, Near;
    var dt, limit := Seconds(ns), MaxDelta(j.limits, Seconds(ns));
    var m := Moved(Ramped(j, dt), dt);
    MaxDeltaPositive(j.limits, dt);
    JointRamps(j, dt);
    NotNear(j, dt);
    EnergyDrops(Error(j), j.velocity, j.limits.maxVelocity, j.limits.maxAcceleration, dt, limit, Error(m), m.velocity);
    ClampLowersEnergy(m);
  }

  lemma NotNear(j: JointValue, dt: real)
    requires UnderControl(j) && !LinearRegion(j, dt)
    ensures !Near(Error(j), j.velocity, j.limits.maxVelocity, j.limits.maxAcceleration, MaxDelta(j.limits, dt))
  {}

  lemma LimitPositive(a: real, dt: real)
    requires a > 0.0 && dt > 0.0
    ensures a * dt > 0.0
  {}

  lemma UpdateKeepsControl(j: JointValue, ns: int)
    requires UnderControl(j)
    ensures var k := Updated(j, ns);
            UnderControl(k) && k.limits == j.limits && k.targetPosition == j.targetPosition
  {
    UpdatedWithinLimits(j, ns);
  }

  // Arrival ----------------------------------------------------------------------------------------

  /** `n` times `drop`. */
  function Times(n: nat, drop: real): real {
    n as real * drop
  }

  lemma TimesOneMore(n: nat, drop: real)
    ensures Times(n + 1, drop) == Times(n, drop) + drop
  {}

  lemma {:induction false} EnergyAfter(j: JointValue, ns: int, n: nat)
    requires UnderControl(j) && ns > 0 && POSITION_GAIN * Seconds(ns) <= 1.0
    ensures var k := UpdatedTimes(j, ns, n);
            && UnderControl(k) && k.limits == j.limits && k.targetPosition == j.targetPosition
            && (LinearRegion(k, Seconds(ns)) || EnergyOf(k) <= EnergyOf(j) - Times(n, Drop(j.limits, Seconds(ns))))
  {
    hide EnergyOf, Drop, LinearRegion, UnderControl;
    if n == 0 {
      assert Times(0, Drop(j.limits, Seconds(ns))) == 0.0;
    } else {
      var k := UpdatedTimes(j, ns, n - 1);
      EnergyAfter(j, ns, n - 1);
      UpdateKeepsControl(k, ns);
      TimesOneMore(n - 1, Drop(j.limits, Seconds(ns)));
      if LinearRegion(k, Seconds(ns)) {
        LinearUpdateStays(k, ns);
      } else {
        UpdateDrops(k, ns);
      }
    }
  }

  lemma LinearUpdateStays(j: JointValue, ns: int)
    requires ns > 0 && POSITION_GAIN * Seconds(ns) <= 1.0 && LinearRegion(j, Seconds(ns))
    ensures LinearRegion(Updated(j, ns), Seconds(ns))
  {
    LinearStep(j, Seconds(ns), 1.0 - POSITION_GAIN * Seconds(ns));
  }

  lemma EnergyNonNegative(j: JointValue)
    requires j.limits.Valid()
    ensures EnergyOf(j) >= 0.0
  {
    ProductNonNegative(Abs(j.velocity), Abs(j.velocity));
    ProductNonNegative(j.limits.maxAcceleration, Abs(Error(j)));
  }

  lemma DropPositive(limits: JointLimits, dt: real)
    requires limits.Valid() && dt > 0.0
    ensures Drop(limits, dt) > 0.0
  {
    hide MaxDelta, DropBy;
    MaxDeltaPositive(limits, dt);
    DropByPositive(MaxDelta(limits, dt), limits.maxVelocity);
  }

  lemma DropByPositive(limit: real, maxV: real)
    requires limit > 0.0 && maxV > 0.0
    ensures DropBy(limit, maxV) > 0.0
  {
    LimitPositive(limit, Min(limit, maxV));
  }

  /** The least whole number of times `drop` exceeds `x`. */
  function Exceeding(x: real, drop: real): nat {
    if x < 0.0 || drop <= 0.0 then 0
    else
      assert x / drop >= 0.0;
      (x / drop).Floor + 1
  }

  lemma ExceedingExceeds(x: real, drop: real, n: nat)
    requires x >= 0.0 && drop > 0.0 && n >= Exceeding(x, drop)
    ensures Times(n, drop) > x
  {
    assert n as real > x / drop;
    ProductMonotone(x / drop, n as real, drop);
    assert x / drop * drop == x;
  }

  /**
   From any state within the limits, after a number of updates that position error and velocity
   determine, the joint is in the linear region, and stays there.
   */
  lemma EntersLinearRegion(j: JointValue, ns: int, n: nat)
    requires UnderControl(j) && ns > 0 && POSITION_GAIN * Seconds(ns) <= 1.0
    requires n >= Exceeding(EnergyOf(j), Drop(j.limits, Seconds(ns)))
    ensures LinearRegion(UpdatedTimes(j, ns, n), Seconds(ns))
  {
    hide EnergyOf, Drop, LinearRegion, Exceeding, Times;
    EnergyAfter(j, ns, n);
    EnergyNonNegative(j);
    DropPositive(j.limits, Seconds(ns));
    EnergyNonNegative(UpdatedTimes(j, ns, n));
    ExceedingExceeds(EnergyOf(j), Drop(j.limits, Seconds(ns)), n);
  }

  lemma {:induction false} UpdatedPlus(j: JointValue, ns: int, m: nat, n: nat)
    ensures UpdatedTimes(UpdatedTimes(j, ns, m), ns, n) == UpdatedTimes(j, ns, m + n)
  {
    if n == 0 {
    } else {
      UpdatedPlus(j, ns, m, n - 1);
    }
  }

  lemma {:induction false} PowersVanish(c: real, d: real, k: nat)
    requires c == 1.0 - d && c >= 0.0 && d >= 0.0
    ensures 0.0 <= Power(c, k) && Power(c, k) * (1.0 + Times(k, d)) <= 1.0
  {
    if k == 0 {
      assert Times(0, d) == 0.0;
    } else {
      var p, t := Power(c, k - 1), Times(k - 1, d);
      PowersVanish(c, d, k - 1);
      TimesOneMore(k - 1, d);
      ProductNonNegative(c, p);
      ProductNonNegative((k - 1) as real, d);
      ShrinkFactor(c, d, t);
      ProductNonNegative(p, 1.0 + t - c * (1.0 + t + d));
      assert c * p * (1.0 + t + d) == p * (c * (1.0 + t + d));
    }
  }

  lemma ShrinkFactor(c: real, d: real, t: real)
    requires c == 1.0 - d && d >= 0.0 && t >= 0.0
    ensures c * (1.0 + t + d) <= 1.0 + t
  {
    ProductNonNegative(d, t + d);
    assert c * (1.0 + t + d) == 1.0 + t - d * (t + d);
  }

  /** If p (1 + q) is at most 1 and q times eps at least x, then p x is at most eps. */
  lemma SmallProduct(p: real, q: real, x: real, eps: real)
    requires p >= 0.0 && q >= 0.0 && eps > 0.0 && p * (1.0 + q) <= 1.0 && q * eps >= x
    ensures p * x <= eps
  {
    ProductNonNegative(p, q * eps - x);
    assert p * q <= 1.0;
    ProductNonNegative(1.0 - p * q, eps);
    assert p * (q * eps) == p * q * eps;
  }

  lemma ScaledAbs(x: real, c: real, y: real)
    requires Scaled(x, c, y) && c >= 0.0
    ensures Abs(y) == c * Abs(x)
  {
    if x >= 0.0 {
      ProductNonNegative(c, x);
    } else {
      ProductNonNegative(c, -x);
    }
  }

  /** In the linear region, `q` more updates leave at most `eps` of the error. */
  lemma VanishingError(j: JointValue, ns: int, eps: real, step: real, q: nat)
    requires ns > 0 && POSITION_GAIN * Seconds(ns) <= 1.0 && LinearRegion(j, Seconds(ns)) && eps > 0.0
    requires step == POSITION_GAIN * Seconds(ns) * eps && Times(q, step) > Abs(Error(j))
    ensures Abs(Error(UpdatedTimes(j, ns, q))) <= eps
  {
    hide LinearRegion, UpdatedTimes, Power, Scaled, Times;
    var d, e := POSITION_GAIN * Seconds(ns), Error(j);
    GeometricConvergence(j, ns, 1.0 - d, e, q);
    PowersVanish(1.0 - d, d, q);
    ScaledAbs(e, Power(1.0 - d, q), Error(UpdatedTimes(j, ns, q)));
    TimesProduct(q, d, eps, step);
    SmallProduct(Power(1.0 - d, q), Times(q, d), Abs(e), eps);
  }

  lemma TimesProduct(q: nat, d: real, eps: real, step: real)
    requires step == d * eps && d >= 0.0
    ensures Times(q, step) == Times(q, d) * eps && Times(q, d) >= 0.0
  {
    ProductNonNegative(q as real, d);
    assert q as real * (d * eps) == q as real * d * eps;
  }

  /**
   The joint always arrives: from any state within the limits, whatever the velocity and the
   distance, and for every tolerance, all updates from some number on leave the position within
   the tolerance of the target.
   */
  lemma Arrives(j: JointValue, ns: int, eps: real) returns (n: nat)
    requires UnderControl(j) && ns > 0 && POSITION_GAIN * Seconds(ns) <= 1.0 && eps > 0.0
    ensures forall m: nat :: m >= n ==> Abs(Error(UpdatedTimes(j, ns, m))) <= eps
  {
    hide EnergyOf, Drop, LinearRegion, Exceeding, Times, UpdatedTimes;
    var d := POSITION_GAIN * Seconds(ns);
    LimitPositive(d, eps);
    var enter := Exceeding(EnergyOf(j), Drop(j.limits, Seconds(ns)));
    var k := UpdatedTimes(j, ns, enter);
    EntersLinearRegion(j, ns, enter);
    var more := Exceeding(Abs(Error(k)), d * eps);
    n := enter + more;
    forall m: nat | m >= n ensures Abs(Error(UpdatedTimes(j, ns, m))) <= eps {
      ExceedingExceeds(Abs(Error(k)), d * eps, m - enter);
      VanishingError(k, ns, eps, d * eps, m - enter);
      UpdatedPlus(j, ns, enter, m - enter);
    }
  }

  // Overshoot --------------------------------------------------------------------------------------

  /** Moving towards a target ahead, no faster than one step above the setpoint. */
  predicate Approaching(e: real, v: real, maxV: real, limit: real) {
    0.0 <= e && 0.0 <= v <= maxV && v <= Min(POSITION_GAIN * e, maxV) + limit
  }

  lemma ApproachStep(e: real, v: real, maxV: real, a: real, dt: real, limit: real, e': real, v': real)
    requires Approaching(e, v, maxV, limit) && Ramps(e, v, maxV, limit, dt, e', v')
    requires 0.0 < POSITION_GAIN * dt <= 1.0 && maxV > 0.0 && limit == a * dt && limit > 0.0 && POSITION_GAIN * maxV <= a
    ensures Approaching(e', v', maxV, limit) && e' <= e
  {
    var p := Min(POSITION_GAIN * e, maxV);
    assert 0.0 <= v' <= p;
    StaysAhead(e, dt, p, v', e');
    ProductNonNegative(v', dt);
    ProductNonNegative(a - POSITION_GAIN * maxV, dt);
    ProductNonNegative(maxV - v', dt);
    assert (a - POSITION_GAIN * maxV) * dt == limit - POSITION_GAIN * (maxV * dt);
    assert (maxV - v') * dt == maxV * dt - v' * dt;
    var covered := v' * dt;
    assert POSITION_GAIN * covered <= limit && POSITION_GAIN * e' == POSITION_GAIN * e - POSITION_GAIN * covered;
  }

  /** On either side of its target; in particular every joint at rest. */
  predicate Approaches(j: JointValue, dt: real) {
    || Approaching(Error(j), j.velocity, j.limits.maxVelocity, MaxDelta(j.limits, dt))
    || Approaching(-Error(j), -j.velocity, j.limits.maxVelocity, MaxDelta(j.limits, dt))
  }

  lemma RestApproaches(j: JointValue, dt: real)
    requires UnderControl(j) && dt > 0.0 && j.velocity == 0.0
    ensures Approaches(j, dt)
  {
    MaxDeltaPositive(j.limits, dt);
  }

  lemma UpdateApproaches(j: JointValue, ns: int)
    requires UnderControl(j) && ns > 0 && POSITION_GAIN * Seconds(ns) <= 1.0 && Approaches(j, Seconds(ns))
    requires POSITION_GAIN * j.limits.maxVelocity <= j.limits.maxAcceleration
    ensures Approaches(Updated(j, ns), Seconds(ns)) && Towards(Error(Updated(j, ns)), Error(j))
  {
    hide Ramps, MaxDelta, Moved, Ramped, Approaching;
    var dt, maxV, a, limit := Seconds(ns), j.limits.maxVelocity, j.limits.maxAcceleration, MaxDelta(j.limits, Seconds(ns));
    var m := Moved(Ramped(j, dt), dt);
    MaxDeltaPositive(j.limits, dt);
    JointRamps(j, dt);
    if Approaching(Error(j), j.velocity, maxV, limit) {
      ApproachStep(Error(j), j.velocity, maxV, a, dt, limit, Error(m), m.velocity);
      ApproachAhead(Error(m), m.velocity, maxV, limit);
      ApproachAhead(Error(j), j.velocity, maxV, limit);
    } else {
      RampsMirrored(Error(j), j.velocity, maxV, limit, dt, Error(m), m.velocity);
      ApproachStep(-Error(j), -j.velocity, maxV, a, dt, limit, -Error(m), -m.velocity);
      ApproachAhead(-Error(m), -m.velocity, maxV, limit);
      ApproachAhead(-Error(j), -j.velocity, maxV, limit);
    }
    assert ClampedToLimits(m) == m;
  }

  lemma ApproachAhead(e: real, v: real, maxV: real, limit: real)
    requires Approaching(e, v, maxV, limit)
    ensures e >= 0.0
  {}

  /**
   With an acceleration of at least eight times the velocity limit, a move of any length from rest
   goes straight to its target: the error never grows and never changes sign.
   */
  lemma {:induction false} NoOvershoot(j: JointValue, ns: int, n: nat)
    requires UnderControl(j) && ns > 0 && POSITION_GAIN * Seconds(ns) <= 1.0 && Approaches(j, Seconds(ns))
    requires POSITION_GAIN * j.limits.maxVelocity <= j.limits.maxAcceleration
    ensures var k := UpdatedTimes(j, ns, n);
            UnderControl(k) && k.limits == j.limits && Approaches(k, Seconds(ns)) && Towards(Error(k), Error(j))
  {
    if n == 0 {
    } else {
      var k := UpdatedTimes(j, ns, n - 1);
      NoOvershoot(j, ns, n - 1);
      UpdateKeepsControl(k, ns);
      UpdateApproaches(k, ns);
      TowardsTransitive(Error(Updated(k, ns)), Error(k), Error(j));
    }
  }

  // A move that overshoots -------------------------------------------------------------------------

  /** A joint of the emulator (limits of -pi and pi, 2 and 5), at rest, sent 0.651 ahead. */
  function ShortMove(pi: real): JointValue {
    Fresh(JointLimits(-pi, pi, 2.0, 5.0)).(enabled := true, targetPosition := 0.651)
  }

  const MILLISECOND: int := 1_000_000

  predicate OnShortMove(k: JointValue, pi: real) {
    && UnderControl(k) && k.limits == JointLimits(-pi, pi, 2.0, 5.0) && k.targetPosition == 0.651
  }

  lemma OneMillisecond(k: JointValue, pi: real)
    requires pi >= 3.0 && OnShortMove(k, pi)
    ensures var m := Moved(Ramped(k, 0.001), 0.001);
            && Updated(k, MILLISECOND) == ClampedToLimits(m) && OnShortMove(Updated(k, MILLISECOND), pi)
            && m.limits == JointLimits(-pi, pi, 2.0, 5.0) && m.targetPosition == 0.651
            && Ramps(Error(k), k.velocity, 2.0, 0.005, 0.001, Error(m), m.velocity)
  {
    hide Ramps, Moved, Ramped, ClampedToLimits;
    assert Seconds(MILLISECOND) == 0.001 && MaxDelta(k.limits, 0.001) == 0.005;
    JointRamps(k, 0.001);
    UpdateKeepsControl(k, MILLISECOND);
  }

  /** What is covered in the first x milliseconds at full acceleration. */
  function Start(x: real): real {
    0.0000025 * (x * (x + 1.0))
  }

  lemma StartOneMore(x: real)
    ensures Start(x + 1.0) == Start(x) + 0.000005 * (x + 1.0)
  {}

  lemma StartWithin(x: real, y: real)
    requires 0.0 <= x <= y
    ensures Start(x) <= Start(y)
  {
    Squares(x, y);
  }

  /** For 400 ms the joint accelerates at the limit. */
  lemma {:induction false} Accelerates(pi: real, n: nat)
    requires pi >= 3.0 && n <= 400
    ensures var k, x := UpdatedTimes(ShortMove(pi), MILLISECOND, n), n as real;
            OnShortMove(k, pi) && k.velocity == 0.005 * x && Error(k) == 0.651 - Start(x)
  {
    hide OnShortMove, Moved, Ramped, Start;
    if n == 0 {
      StartAtRest(pi);
    } else {
      var k, x := UpdatedTimes(ShortMove(pi), MILLISECOND, n - 1), (n - 1) as real;
      Accelerates(pi, n - 1);
      OneMillisecond(k, pi);
      StartWithin(x, 399.0);
      StartValues();
      StartOneMore(x);
      StartWithin(x + 1.0, 400.0);
      StartAtRest(pi);
      StartWithin(0.0, x + 1.0);
      InsideLimits(Moved(Ramped(k, 0.001), 0.001), pi);
    }
  }

  lemma StartAtRest(pi: real)
    requires pi >= 3.0
    ensures OnShortMove(ShortMove(pi), pi) && Start(0.0) == 0.0
  {}

  lemma StartValues()
    ensures Start(399.0) == 0.399 && Start(400.0) == 0.401
  {}

  lemma InsideLimits(m: JointValue, pi: real)
    requires pi >= 3.0 && m.limits == JointLimits(-pi, pi, 2.0, 5.0) && m.targetPosition == 0.651 && 0.0 <= Error(m) <= 3.0
    ensures ClampedToLimits(m) == m
  {}

  /** At 2 rad/s and 0.25 from the target it slows down too late: unless it passes the target before. */
  lemma {:induction false} Overruns(k: JointValue, pi: real, i: nat)
    requires pi >= 3.0 && OnShortMove(k, pi) && k.velocity == 2.0 && Error(k) == 0.25 && i <= 400
    requires forall h: nat :: h <= i ==> Error(UpdatedTimes(k, MILLISECOND, h)) >= 0.0
    ensures var l, x := UpdatedTimes(k, MILLISECOND, i), i as real;
            OnShortMove(l, pi) && l.velocity >= 2.0 - 0.005 * x && Error(l) <= 0.25 - (0.002 * x - Start(x))
  {
    hide OnShortMove, Moved, Ramped, Start;
    if i == 0 {
      StartAtRest(pi);
    } else {
      var l, x := UpdatedTimes(k, MILLISECOND, i - 1), (i - 1) as real;
      Overruns(k, pi, i - 1);
      OneMillisecond(l, pi);
      StartOneMore(x);
      StartWithin(x, 400.0);
      StartValues();
      var m := Moved(Ramped(l, 0.001), 0.001);
      assert Error(l) >= 0.0 && Error(UpdatedTimes(k, MILLISECOND, i)) >= 0.0;
      assert m.velocity >= l.velocity - 0.005;
      NotClampedAhead(m, pi);
    }
  }

  lemma NotClampedAhead(m: JointValue, pi: real)
    requires pi >= 3.0 && m.limits == JointLimits(-pi, pi, 2.0, 5.0) && m.targetPosition == 0.651
    requires Error(ClampedToLimits(m)) >= 0.0 && Error(m) <= 3.0
    ensures ClampedToLimits(m) == m
  {}

  /**
   At the emulator's own limits and 1 kHz the joint does overshoot: a move of 0.651 rad from rest
   passes its target within 800 control cycles.
   */
  lemma EmulatorOvershoots(pi: real) returns (n: nat)
    requires pi >= 3.0
    ensures UnderControl(ShortMove(pi)) && ShortMove(pi).velocity == 0.0 && Error(ShortMove(pi)) == 0.651
    ensures n <= 800 && Error(UpdatedTimes(ShortMove(pi), MILLISECOND, n)) < 0.0
  {
    var k := UpdatedTimes(ShortMove(pi), MILLISECOND, 400);
    Accelerates(pi, 400);
    StartValues();
    if h: nat :| h <= 400 && Error(UpdatedTimes(k, MILLISECOND, h)) < 0.0 {
      UpdatedPlus(ShortMove(pi), MILLISECOND, 400, h);
      n := 400 + h;
    } else {
      Overruns(k, pi, 400);
      assert false;
    }
  }
}
