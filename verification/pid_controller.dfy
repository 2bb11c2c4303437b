/**
 * A proportional-integral-derivative controller (src/PIDController.cpp).
 *
 * The controller is a value: every operation returns the new controller.
 * Real-valued quantities are exact reals, and the millisecond clock is a
 * natural number supplied by the caller.
 */
module PidControllers {

  datatype PidController = PidController(
    kp: real,
    ki: real,
    kd: real,
    setPoint: real,
    min: real,
    max: real,
    integral: real,
    lastError: real,
    lastTime: nat,
    firstTime: bool)

  /** The constructor: the gains and bounds as given, everything else at rest. */
  function New(kp: real, ki: real, kd: real, min: real, max: real): (c: PidController)
    ensures c.kp == kp && c.ki == ki && c.kd == kd && c.min == min && c.max == max
    ensures c.setPoint == 0.0 && c.integral == 0.0 && c.lastError == 0.0
    ensures c.lastTime == 0 && c.firstTime
  {
    PidController(kp, ki, kd, 0.0, min, max, 0.0, 0.0, 0, true)
  }

  /** `setSetPoint`: the set point becomes the given value and nothing else changes. */
  function SetSetPoint(c: PidController, setPoint: real): (r: PidController)
    ensures r.setPoint == setPoint
    ensures r.(setPoint := c.setPoint) == c
  {
    c.(setPoint := setPoint)
  }

  /** `getCumulativeError`: the accumulated integral term. */
  function CumulativeError(c: PidController): (e: real)
    ensures e == c.integral
  {
    c.integral
  }

  /**
   * The clamping at the end of `update`: a value above `max` becomes `max`,
   * otherwise a value below `min` becomes `min`.
   */
  function Clamp(v: real, min: real, max: real): (r: real)
    ensures min <= v <= max ==> r == v
    ensures v > max ==> r == max
    ensures v <= max ==> min <= r
    ensures v <= max && v < min ==> r == min
    ensures r == v || r == min || r == max
  {
    if v > max then max else if v < min then min else v
  }

  /** Seconds elapsed between two millisecond timestamps. */
  function Seconds(from: nat, to: nat): (dt: real)
    requires from < to
    ensures dt > 0.0
    ensures dt * 1000.0 == (to - from) as real
  {
    (to - from) as real / 1000.0
  }

  /** The signal before clamping, given the error, the new integral and the time step. */
  function RawSignal(c: PidController, error: real, integral: real, dt: real): real
    requires dt > 0.0
  {
    c.kp * error + c.ki * integral + c.kd * ((error - c.lastError) / dt)
  }

  /**
   * `update`. The first sample after construction or `reset` only records
   * its timestamp and yields 0. Every later sample must be strictly later
   * than the one before: an equal timestamp would divide by zero and an
   * earlier one would wrap the unsigned subtraction.
   */
  function Update(c: PidController, measurement: real, t: nat): (r: (real, PidController))
    requires !c.firstTime ==> t > c.lastTime
    ensures c.firstTime ==> r.0 == 0.0 && r.1 == c.(lastTime := t, firstTime := false)
    ensures !r.1.firstTime && r.1.lastTime == t
    ensures r.1.(integral := c.integral, lastError := c.lastError, lastTime := c.lastTime, firstTime := c.firstTime) == c
    ensures !c.firstTime ==> r.1.lastError == c.setPoint - measurement
    ensures !c.firstTime ==>
              r.1.integral - c.integral == (c.setPoint - measurement) * Seconds(c.lastTime, t)
    ensures !c.firstTime && c.min <= c.max ==> c.min <= r.0 <= c.max
    ensures !c.firstTime ==>
              r.0 == Clamp(RawSignal(c, c.setPoint - measurement, r.1.integral, Seconds(c.lastTime, t)), c.min, c.max)
  {
    if c.firstTime then
      (0.0, c.(lastTime := t, firstTime := false))
    else
      var error := c.setPoint - measurement;
      var dt := Seconds(c.lastTime, t);
      var integral := c.integral + error * dt;
      var signal := RawSignal(c, error, integral, dt);
      (Clamp(signal, c.min, c.max), c.(lastTime := t, integral := integral, lastError := error))
  }

  /** `reset`: the integral, last error and timestamp are cleared; gains, bounds and set point stay. */
  function Reset(c: PidController): (r: PidController)
    ensures r.integral == 0.0 && r.lastError == 0.0 && r.lastTime == 0 && r.firstTime
    ensures r.kp == c.kp && r.ki == c.ki && r.kd == c.kd
    ensures r.min == c.min && r.max == c.max && r.setPoint == c.setPoint
  {
    c.(integral := 0.0, lastError := 0.0, lastTime := 0, firstTime := true)
  }

  /** A reset controller behaves exactly like a new one with the same gains, bounds and set point. */
  lemma ResetIsNew(c: PidController)
    ensures Reset(c) == SetSetPoint(New(c.kp, c.ki, c.kd, c.min, c.max), c.setPoint)
  {
  }

  /** After a reset the first update yields 0 whatever the measurement and the time. */
  lemma FirstUpdateAfterReset(c: PidController, measurement: real, t: nat)
    ensures Update(Reset(c), measurement, t).0 == 0.0
    ensures Update(Reset(c), measurement, t).1.integral == 0.0
    ensures Update(Reset(c), measurement, t).1.lastTime == t
  {
  }

  /** With a purely proportional controller the signal inside the bounds is the gain times the error. */
  lemma ProportionalInRange(c: PidController, measurement: real, t: nat)
    requires !c.firstTime && t > c.lastTime
    requires c.ki == 0.0 && c.kd == 0.0
    requires c.min <= c.kp * (c.setPoint - measurement) <= c.max
    ensures Update(c, measurement, t).0 == c.kp * (c.setPoint - measurement)
  {
    var error := c.setPoint - measurement;
    var dt := Seconds(c.lastTime, t);
    var integral := c.integral + error * dt;
    assert RawSignal(c, error, integral, dt) == c.kp * error;
  }

  /** The worked example: kp = 1, no integral or derivative gain, bounds [-10, 10], set point 5. */
  lemma ProportionalExample()
    ensures var c0 := SetSetPoint(New(1.0, 0.0, 0.0, -10.0, 10.0), 5.0);
            var (out1, c1) := Update(c0, 0.0, 0);
            var (out2, c2) := Update(c1, 0.0, 1000);
            out1 == 0.0 && out2 == 5.0 && c2.integral == 5.0 && c2.lastError == 5.0
  {
    var c0 := SetSetPoint(New(1.0, 0.0, 0.0, -10.0, 10.0), 5.0);
    var c1 := Update(c0, 0.0, 0).1;
    assert c1.lastTime == 0 && !c1.firstTime;
    ProportionalInRange(c1, 0.0, 1000);
  }

  // ---------------------------------------------------------------------------
  // A run of samples
  // ---------------------------------------------------------------------------

  datatype Sample = Sample(measurement: real, millis: nat)

  /** Each sample strictly later than the previous one, starting after `after`. */
  predicate Increasing(after: nat, samples: seq<Sample>)
    decreases |samples|
  {
    |samples| == 0 || (samples[0].millis > after && Increasing(samples[0].millis, samples[1..]))
  }

  /** Feed the samples one by one to a controller that already has a baseline. */
  function Run(c: PidController, samples: seq<Sample>): (r: (seq<real>, PidController))
    requires !c.firstTime && Increasing(c.lastTime, samples)
    ensures |r.0| == |samples|
    ensures !r.1.firstTime
    decreases |samples|
  {
    if |samples| == 0 then ([], c)
    else
      var (out, next) := Update(c, samples[0].measurement, samples[0].millis);
      var (rest, last) := Run(next, samples[1..]);
      ([out] + rest, last)
  }

  /** The sum of error times elapsed seconds over the samples, for a fixed set point. */
  function Accumulated(setPoint: real, after: nat, samples: seq<Sample>): real
    requires Increasing(after, samples)
    decreases |samples|
  {
    if |samples| == 0 then 0.0
    else
      (setPoint - samples[0].measurement) * Seconds(after, samples[0].millis)
      + Accumulated(setPoint, samples[0].millis, samples[1..])
  }

  /** Over a run the integral grows by the accumulated error, and every output is within the bounds. */
  lemma {:induction false} RunIntegratesError(c: PidController, samples: seq<Sample>)
    requires !c.firstTime && Increasing(c.lastTime, samples)
    ensures CumulativeError(Run(c, samples).1) == CumulativeError(c) + Accumulated(c.setPoint, c.lastTime, samples)
    ensures c.min <= c.max ==> forall i :: 0 <= i < |samples| ==> c.min <= Run(c, samples).0[i] <= c.max
    ensures Run(c, samples).1.(integral := c.integral, lastError := c.lastError, lastTime := c.lastTime) == c
    decreases |samples|
  {
    if |samples| > 0 {
      var next := Update(c, samples[0].measurement, samples[0].millis).1;
      RunIntegratesError(next, samples[1..]);
    }
  }
}
