/**
 One joint: its limits, the saturated proportional control law that advances it, and what that
 law guarantees. Quantities are exact reals; time steps are nanoseconds as in the source.
 */
module Joint {
  import opened Wrappers

  datatype JointError =
    | PositionOutOfRange | VelocityOutOfRange | AccelerationOutOfRange | JointDisabled | InvalidConfiguration

  datatype JointLimits = JointLimits(minPosition: real, maxPosition: real, maxVelocity: real, maxAcceleration: real) {
    predicate Valid() {
      minPosition < maxPosition && maxVelocity > 0.0 && maxAcceleration > 0.0
    }

    predicate Contains(position: real) {
      minPosition <= position <= maxPosition
    }
  }

  const POSITION_GAIN: real := 8.0

  function Min(x: real, y: real): real {
    if y < x then y else x
  }

  function Max(x: real, y: real): real {
    if x < y then y else x
  }

  function Abs(x: real): real {
    if x < 0.0 then -x else x
  }

  function Clamp(x: real, low: real, high: real): real {
    if x < low then low else if high < x then high else x
  }

  function Seconds(ns: int): real {
    ns as real / 1_000_000_000.0
  }

  /** The values of all fields of a joint. */
  datatype JointValue = JointValue(
    limits: JointLimits, position: real, velocity: real, acceleration: real,
    targetPosition: real, targetVelocity: real, enabled: bool, homed: bool, faulted: bool)

  function Fresh(limits: JointLimits): JointValue {
    JointValue(limits, 0.0, 0.0, 0.0, 0.0, 0.0, false, false, false)
  }

  function Homed(j: JointValue): JointValue {
    j.(position := 0.0, velocity := 0.0, acceleration := 0.0, targetPosition := 0.0, targetVelocity := 0.0, homed := true)
  }

  /** The velocity setpoint of the proportional law. */
  function Setpoint(j: JointValue): real {
    Clamp(POSITION_GAIN * (j.targetPosition - j.position), -j.limits.maxVelocity, j.limits.maxVelocity)
  }

  /** The velocity change of one step of `dt` seconds. */
  function DeltaV(j: JointValue, dt: real): real {
    Clamp(Setpoint(j) - j.velocity, -(j.limits.maxAcceleration * dt), j.limits.maxAcceleration * dt)
  }

  function ClampedToLimits(j: JointValue): JointValue {
    if j.position > j.limits.maxPosition then
      j.(position := j.limits.maxPosition, velocity := Min(j.velocity, 0.0))
    else if j.position < j.limits.minPosition then
      j.(position := j.limits.minPosition, velocity := Max(j.velocity, 0.0))
    else j
  }

  /** The acceleration ramp towards the setpoint, then the velocity clamp. */
  function Ramped(j: JointValue, dt: real): JointValue
    requires dt > 0.0
  {
    j.(acceleration := DeltaV(j, dt) / dt,
       velocity := Clamp(j.velocity + DeltaV(j, dt), -j.limits.maxVelocity, j.limits.maxVelocity))
  }

  function Moved(j: JointValue, dt: real): JointValue {
    j.(position := j.position + j.velocity * dt)
  }

  function Advanced(j: JointValue, dt: real): JointValue
    requires dt > 0.0
  {
    ClampedToLimits(Moved(Ramped(j, dt), dt))
  }

  function Updated(j: JointValue, ns: int): JointValue {
    if !j.enabled || j.faulted || Seconds(ns) <= 0.0 then j else Advanced(j, Seconds(ns))
  }

  function SetTarget(j: JointValue, position: real): (r: (JointValue, Result<(), JointError>)) {
    if !j.enabled then (j, Err(JointDisabled))
    else if position < j.limits.minPosition || position > j.limits.maxPosition then (j, Err(PositionOutOfRange))
    else (j.(targetPosition := position), Ok(()))
  }

  /** The limits of a joint hold of everything it reports. */
  predicate WithinLimits(j: JointValue) {
    && j.limits.Valid()
    && j.limits.Contains(j.position)
    && j.limits.Contains(j.targetPosition)
    && -j.limits.maxVelocity <= j.velocity <= j.limits.maxVelocity
    && -j.limits.maxAcceleration <= j.acceleration <= j.limits.maxAcceleration
  }

  class Joint {
    const limits: JointLimits
    var position: real
    var velocity: real
    var acceleration: real
    var targetPosition: real
    var targetVelocity: real
    var enabled: bool
    var homed: bool
    var faulted: bool

    ghost function Value(): JointValue
      reads this
    {
      JointValue(limits, position, velocity, acceleration, targetPosition, targetVelocity, enabled, homed, faulted)
    }

    constructor (limits: JointLimits)
      ensures Value() == Fresh(limits)
    {
      this.limits := limits;
      position, velocity, acceleration, targetPosition, targetVelocity := 0.0, 0.0, 0.0, 0.0, 0.0;
      enabled, homed, faulted := false, false, false;
    }

    method Enable()
      modifies this
      ensures Value() == old(Value()).(enabled := true)
    {
      enabled := true;
    }

    method Disable()
      modifies this
      ensures Value() == old(Value()).(enabled := false)
    {
      enabled := false;
    }

    method Home()
      modifies this
      ensures Value() == Homed(old(Value()))
    {
      position := 0.0;
      velocity := 0.0;
      acceleration := 0.0;
      targetPosition := 0.0;
      targetVelocity := 0.0;
      homed := true;
    }

    method SetTargetPosition(p: real) returns (r: Result<(), JointError>)
      modifies this
      ensures Value() == SetTarget(old(Value()), p).0 && r == SetTarget(old(Value()), p).1
      ensures r.Ok? <==> old(enabled) && limits.Contains(p)
    {
      if !enabled {
        return Err(JointDisabled);
      }
      if p < limits.minPosition || p > limits.maxPosition {
        return Err(PositionOutOfRange);
      }
      targetPosition := p;
      return Ok(());
    }

    /** One control step: acceleration and velocity ramp, integration, position clamp. */
    method Update(ns: int)
      modifies this
      ensures Value() == Updated(old(Value()), ns)
    {
      if !enabled || faulted {
        return;
      }
      var dt := Seconds(ns);
      if dt <= 0.0 {
        return;
      }
      Ramp(dt);
      Integrate(dt);
      ClampToLimits();
    }

    /** Setpoint from the position error, clamped; then velocity, moved towards it and clamped. */
    method Ramp(dt: real)
      requires dt > 0.0
      modifies this
      ensures Value() == Ramped(old(Value()), dt)
    {
      ghost var j := Value();
      var positionError := targetPosition - position;
      var desiredVelocity := POSITION_GAIN * positionError;
      desiredVelocity := Clamp(desiredVelocity, -limits.maxVelocity, limits.maxVelocity);
      assert desiredVelocity == Setpoint(j);
      var maxDeltaV := limits.maxAcceleration * dt;
      var velocityError := desiredVelocity - velocity;
      var deltaV := Clamp(velocityError, -maxDeltaV, maxDeltaV);
      assert deltaV == DeltaV(j, dt);
      acceleration := deltaV / dt;
      velocity := velocity + deltaV;
      velocity := Clamp(velocity, -limits.maxVelocity, limits.maxVelocity);
    }

    method Integrate(dt: real)
      modifies this
      ensures Value() == Moved(old(Value()), dt)
    {
      position := position + velocity * dt;
    }

    method ClampToLimits()
      modifies this
      ensures Value() == ClampedToLimits(old(Value()))
      ensures old(position) > limits.maxPosition ==> position == limits.maxPosition && velocity <= 0.0
      ensures old(position) < limits.minPosition && limits.Valid() ==> position == limits.minPosition && velocity >= 0.0
      ensures velocity == old(velocity) || velocity == 0.0
    {
      if position > limits.maxPosition {
        position := limits.maxPosition;
        velocity := Min(velocity, 0.0);
      } else if position < limits.minPosition {
        position := limits.minPosition;
        velocity := Max(velocity, 0.0);
      }
    }
  }

  lemma ProductNonNegative(x: real, y: real)
    requires x >= 0.0 && y >= 0.0
    ensures x * y >= 0.0
  {}

  lemma ProductMonotone(x: real, y: real, d: real)
    requires x < y && d > 0.0
    ensures x * d < y * d
  {
    assert (y - x) * d > 0.0;
  }

  lemma ProductBound(x: real, bound: real, d: real)
    requires d >= 0.0 && -bound <= x <= bound
    ensures -(bound * d) <= x * d <= bound * d
  {
    ProductNonNegative(bound - x, d);
    ProductNonNegative(x + bound, d);
  }

  lemma QuotientBound(x: real, d: real, bound: real)
    requires d > 0.0 && -(bound * d) <= x <= bound * d
    ensures -bound <= x / d <= bound
  {
    var q := x / d;
    assert q * d == x;
    if q > bound {
      ProductMonotone(bound, q, d);
    } else if q < -bound {
      ProductMonotone(q, -bound, d);
    }
  }

  /** `y` lies between `x` and `z`. */
  predicate Between(x: real, y: real, z: real) {
    x <= y <= z || z <= y <= x
  }

  /**
   The ramp brings the velocity towards the setpoint and never past it, and the acceleration
   reported is the rate of that change.
   */
  lemma RampTowardsSetpoint(j: JointValue, dt: real)
    requires dt > 0.0 && j.limits.Valid() && -j.limits.maxVelocity <= j.velocity <= j.limits.maxVelocity
    ensures var k := Ramped(j, dt);
            && Between(j.velocity, k.velocity, Setpoint(j))
            && k.velocity - j.velocity == k.acceleration * dt
            && (k.velocity == Setpoint(j) <==> Abs(Setpoint(j) - j.velocity) <= j.limits.maxAcceleration * dt)
  {
    ProductNonNegative(j.limits.maxAcceleration, dt);
    assert DeltaV(j, dt) / dt * dt == DeltaV(j, dt);
  }

  lemma RampedWithinLimits(j: JointValue, dt: real)
    requires dt > 0.0 && j.limits.Valid()
    ensures var k := Ramped(j, dt);
            && -j.limits.maxVelocity <= k.velocity <= j.limits.maxVelocity
            && -j.limits.maxAcceleration <= k.acceleration <= j.limits.maxAcceleration
  {
    ProductNonNegative(j.limits.maxAcceleration, dt);
    QuotientBound(DeltaV(j, dt), dt, j.limits.maxAcceleration);
  }

  /**
   A control step brings position, velocity and acceleration within the limits whatever they
   were before.
   */
  lemma AdvancedWithinLimits(j: JointValue, dt: real)
    requires dt > 0.0 && j.limits.Valid()
    ensures var k := Advanced(j, dt);
            && k.limits.Contains(k.position)
            && -k.limits.maxVelocity <= k.velocity <= k.limits.maxVelocity
            && -k.limits.maxAcceleration <= k.acceleration <= k.limits.maxAcceleration
  {
    RampedWithinLimits(j, dt);
  }

  /** Past a limit the position goes to the limit; velocity out of the limits is taken away, velocity back is kept. */
  lemma ClampStopsOutward(m: JointValue)
    requires m.limits.Valid()
    ensures var k := ClampedToLimits(m);
            && k == m.(position := k.position, velocity := k.velocity)
            && (m.limits.Contains(m.position) ==> k == m)
            && (m.position > m.limits.maxPosition ==> k.position == m.limits.maxPosition)
            && (m.position > m.limits.maxPosition && m.velocity > 0.0 ==> k.velocity == 0.0)
            && (m.position > m.limits.maxPosition && m.velocity <= 0.0 ==> k.velocity == m.velocity)
            && (m.position < m.limits.minPosition ==> k.position == m.limits.minPosition)
            && (m.position < m.limits.minPosition && m.velocity < 0.0 ==> k.velocity == 0.0)
            && (m.position < m.limits.minPosition && m.velocity >= 0.0 ==> k.velocity == m.velocity)
  {}

  /**
   A step that would lead past a limit ends at the limit at rest, any other keeps the velocity
   it moved with. So a joint at a limit has a velocity out of it exactly if the step led there
   without the clamp.
   */
  lemma StopsAtLimit(j: JointValue, dt: real)
    requires dt > 0.0 && j.limits.Valid() && j.limits.Contains(j.position)
    ensures var m, k := Moved(Ramped(j, dt), dt), Advanced(j, dt);
            && m.position == j.position + m.velocity * dt && k == m.(position := k.position, velocity := k.velocity)
            && (m.limits.Contains(m.position) ==> k.position == m.position && k.velocity == m.velocity)
            && (m.position > m.limits.maxPosition ==> k.position == m.limits.maxPosition && k.velocity == 0.0)
            && (m.position < m.limits.minPosition ==> k.position == m.limits.minPosition && k.velocity == 0.0)
            && (k.position == m.limits.maxPosition && k.velocity > 0.0
                <==> m.position == m.limits.maxPosition && m.velocity > 0.0)
            && (k.position == m.limits.minPosition && k.velocity < 0.0
                <==> m.position == m.limits.minPosition && m.velocity < 0.0)
  {
    var m := Moved(Ramped(j, dt), dt);
    ClampStopsOutward(m);
    if m.velocity <= 0.0 {
      ProductNonNegative(-m.velocity, dt);
    }
    if m.velocity >= 0.0 {
      ProductNonNegative(m.velocity, dt);
    }
  }

  /** Only an enabled joint without a fault moves, and only in positive time. */
  lemma UpdatedOnlyIf(j: JointValue, ns: int)
    ensures Updated(j, ns) != j ==> j.enabled && !j.faulted && ns > 0
  {}

  /** One step moves the position by at most `reach`, what maxVelocity covers in `dt` seconds. */
  lemma AdvancedReach(j: JointValue, dt: real, reach: real)
    requires dt > 0.0 && j.limits.Valid() && j.limits.Contains(j.position) && reach == j.limits.maxVelocity * dt
    ensures -reach <= Advanced(j, dt).position - j.position <= reach
  {
    RampedWithinLimits(j, dt);
    MovedReach(Ramped(j, dt), dt, reach);
  }

  lemma MovedReach(k: JointValue, dt: real, reach: real)
    requires dt > 0.0 && reach == k.limits.maxVelocity * dt && -k.limits.maxVelocity <= k.velocity <= k.limits.maxVelocity
    ensures -reach <= Moved(k, dt).position - k.position <= reach
  {
    ProductBound(k.velocity, k.limits.maxVelocity, dt);
  }

  lemma UpdatedWithinLimits(j: JointValue, ns: int)
    requires WithinLimits(j)
    ensures WithinLimits(Updated(j, ns))
  {
    if j.enabled && !j.faulted && Seconds(ns) > 0.0 {
      AdvancedWithinLimits(j, Seconds(ns));
    }
  }

  // Convergence ------------------------------------------------------------------------------

  /** The remaining distance to the target. */
  function Error(j: JointValue): real {
    j.targetPosition - j.position
  }

  /**
   The linear region around the target: neither the velocity nor the acceleration limit is
   reached there when the step is `dt` seconds.
   */
  predicate LinearRegion(j: JointValue, dt: real) {
    && j.enabled && !j.faulted
    && j.limits.Valid() && j.limits.Contains(j.position) && j.limits.Contains(j.targetPosition)
    && Abs(Error(j)) <= Min(j.limits.maxVelocity / POSITION_GAIN, j.limits.maxAcceleration / (POSITION_GAIN * POSITION_GAIN))
    && Abs(POSITION_GAIN * Error(j) - j.velocity) <= j.limits.maxAcceleration * dt
  }

  /** `y` is `c` times `x`. */
  predicate Scaled(x: real, c: real, y: real) {
    y == c * x
  }

  /** `x` lies between 0 and `e`. */
  predicate Towards(x: real, e: real) {
    if e >= 0.0 then 0.0 <= x <= e else e <= x <= 0.0
  }

  lemma Shrink(c: real, e: real, e': real)
    requires 0.0 <= c <= 1.0 && e' == c * e
    ensures Towards(e', e)
  {
    if e >= 0.0 {
      ProductNonNegative(c, e);
      ProductNonNegative(1.0 - c, e);
    } else {
      ProductNonNegative(c, -e);
      ProductNonNegative(1.0 - c, -e);
    }
  }

  /**
   Inside the linear region no clamp fires: the velocity becomes the setpoint, the error shrinks
   by exactly the factor 1 - 8 dt, without changing sign, and the region is not left.
   */
  lemma LinearStep(j: JointValue, dt: real, c: real)
    requires 0.0 < POSITION_GAIN * dt <= 1.0 && LinearRegion(j, dt) && c == 1.0 - POSITION_GAIN * dt
    ensures var k := Advanced(j, dt);
            && Scaled(Error(j), c, Error(k))
            && k.velocity == POSITION_GAIN * Error(j)
            && k.targetPosition == j.targetPosition
            && Towards(Error(k), Error(j))
            && LinearRegion(k, dt)
  {
    var e := Error(j);
    var e', limit := c * e, j.limits.maxAcceleration * dt;
    Shrink(c, e, e');
    SetpointLag(e, e', dt, c, j.limits, limit);
    LinearStepTo(j, dt, c, e', limit);
  }

  lemma LinearStepTo(j: JointValue, dt: real, c: real, e': real, limit: real)
    requires dt > 0.0 && LinearRegion(j, dt) && c == 1.0 - POSITION_GAIN * dt
    requires Scaled(Error(j), c, e') && Towards(e', Error(j)) && StepLimit(j.limits, dt, limit)
    requires -limit <= POSITION_GAIN * e' - POSITION_GAIN * Error(j) <= limit
    ensures var k := Advanced(j, dt);
            && Error(k) == e' && k.velocity == POSITION_GAIN * Error(j) && k.targetPosition == j.targetPosition
            && LinearRegion(k, dt)
  {
    hide Setpoint, DeltaV, Clamp, Scaled, Towards, StepLimit;
    var m := Moved(Ramped(j, dt), dt);
    LinearRamp(j, dt);
    LinearMove(Ramped(j, dt), dt, c, Error(j), e');
    assert m.limits == j.limits && m.targetPosition == j.targetPosition;
    StaysLinear(m, dt, Error(j), e', limit);
    assert Advanced(j, dt) == m;
  }

  lemma LinearRamp(j: JointValue, dt: real)
    requires dt > 0.0 && LinearRegion(j, dt)
    ensures Ramped(j, dt).velocity == POSITION_GAIN * Error(j)
  {
    assert Setpoint(j) == POSITION_GAIN * Error(j);
    assert DeltaV(j, dt) == POSITION_GAIN * Error(j) - j.velocity;
  }

  lemma LinearMove(k: JointValue, dt: real, c: real, e: real, e': real)
    requires Error(k) == e && k.velocity == POSITION_GAIN * e
    requires c == 1.0 - POSITION_GAIN * dt && Scaled(e, c, e')
    ensures Error(Moved(k, dt)) == e'
  {}

  /** `limit` is the largest velocity change of a step of `dt` seconds. */
  predicate StepLimit(limits: JointLimits, dt: real, limit: real) {
    limit == limits.maxAcceleration * dt
  }

  /** The setpoint changes by no more than the acceleration limit allows in one step. */
  lemma SetpointLag(e: real, e': real, dt: real, c: real, limits: JointLimits, limit: real)
    requires dt >= 0.0 && Abs(e) <= limits.maxAcceleration / (POSITION_GAIN * POSITION_GAIN)
    requires c == 1.0 - POSITION_GAIN * dt && Scaled(e, c, e') && StepLimit(limits, dt, limit)
    ensures -limit <= POSITION_GAIN * e' - POSITION_GAIN * e <= limit
  {
    ProductBound(e, limits.maxAcceleration / 64.0, dt);
    assert POSITION_GAIN * e' - POSITION_GAIN * e == -(64.0 * (e * dt));
    assert 64.0 * ((limits.maxAcceleration / 64.0) * dt) == limits.maxAcceleration * dt;
  }

  /** `j` has just moved with velocity 8 e; its error was e and is e'. */
  lemma StaysLinear(j: JointValue, dt: real, e: real, e': real, limit: real)
    requires j.enabled && !j.faulted && j.limits.Valid() && j.limits.Contains(j.targetPosition)
    requires j.limits.Contains(j.targetPosition - e) && Error(j) == e' && Towards(e', e)
    requires j.velocity == POSITION_GAIN * e && StepLimit(j.limits, dt, limit)
    requires -limit <= POSITION_GAIN * e' - POSITION_GAIN * e <= limit
    requires Abs(e) <= Min(j.limits.maxVelocity / POSITION_GAIN, j.limits.maxAcceleration / (POSITION_GAIN * POSITION_GAIN))
    ensures ClampedToLimits(j) == j && LinearRegion(j, dt)
  {}

  function Power(x: real, n: nat): real {
    if n == 0 then 1.0 else x * Power(x, n - 1)
  }

  function UpdatedTimes(j: JointValue, ns: int, n: nat): JointValue {
    if n == 0 then j else Updated(UpdatedTimes(j, ns, n - 1), ns)
  }

  lemma {:induction false} LinearRun(j: JointValue, ns: int, n: nat)
    requires ns > 0 && POSITION_GAIN * Seconds(ns) <= 1.0 && LinearRegion(j, Seconds(ns))
    ensures LinearRegion(UpdatedTimes(j, ns, n), Seconds(ns))
    ensures Towards(Error(UpdatedTimes(j, ns, n)), Error(j))
  {
    if n == 0 {
    } else {
      var k := UpdatedTimes(j, ns, n - 1);
      LinearRun(j, ns, n - 1);
      LinearStep(k, Seconds(ns), 1.0 - POSITION_GAIN * Seconds(ns));
      TowardsTransitive(Error(Updated(k, ns)), Error(k), Error(j));
    }
  }

  lemma TowardsTransitive(x: real, y: real, e: real)
    requires Towards(x, y) && Towards(y, e)
    ensures Towards(x, e)
  {}

  lemma LinearUpdate(j: JointValue, ns: int, c: real)
    requires ns > 0 && POSITION_GAIN * Seconds(ns) <= 1.0 && LinearRegion(j, Seconds(ns))
    requires c == 1.0 - POSITION_GAIN * Seconds(ns)
    ensures Scaled(Error(j), c, Error(Updated(j, ns)))
  {
    LinearStep(j, Seconds(ns), c);
  }

  /** `f` starts at `e` and is multiplied by `c` at each of its first n steps. */
  ghost predicate Geometric(f: nat -> real, c: real, e: real, n: nat) {
    f(0) == e && forall i: nat :: i < n ==> Scaled(f(i), c, f(i + 1))
  }

  lemma {:induction false} GeometricSequence(f: nat -> real, c: real, e: real, n: nat)
    requires Geometric(f, c, e, n)
    ensures f(n) == Power(c, n) * e
  {
    if n == 0 {
    } else {
      GeometricSequence(f, c, e, n - 1);
      var p := Power(c, n - 1);
      assert c * (p * e) == (c * p) * e;
    }
  }

  lemma ErrorsGeometric(j: JointValue, ns: int, c: real, n: nat)
    requires ns > 0 && POSITION_GAIN * Seconds(ns) <= 1.0 && LinearRegion(j, Seconds(ns))
    requires c == 1.0 - POSITION_GAIN * Seconds(ns)
    ensures Geometric((i: nat) => Error(UpdatedTimes(j, ns, i)), c, Error(j), n)
  {
    var f := (i: nat) => Error(UpdatedTimes(j, ns, i));
    forall i: nat | i < n ensures Scaled(f(i), c, f(i + 1)) {
      LinearRun(j, ns, i);
      LinearUpdate(UpdatedTimes(j, ns, i), ns, c);
    }
  }

  /**
   Geometric convergence without overshoot: from an error e inside the linear region, n control
   steps leave exactly (1 - 8 dt)^n e, so the position approaches the target from one side.
   */
  lemma GeometricConvergence(j: JointValue, ns: int, c: real, e: real, n: nat)
    requires ns > 0 && POSITION_GAIN * Seconds(ns) <= 1.0 && LinearRegion(j, Seconds(ns))
    requires c == 1.0 - POSITION_GAIN * Seconds(ns) && e == Error(j)
    ensures var k := UpdatedTimes(j, ns, n);
            && LinearRegion(k, Seconds(ns))
            && Scaled(e, Power(c, n), Error(k))
            && Towards(Error(k), e)
  {
    ErrorsGeometric(j, ns, c, n);
    GeometricSequence((i: nat) => Error(UpdatedTimes(j, ns, i)), c, e, n);
    LinearRun(j, ns, n);
  }
}
