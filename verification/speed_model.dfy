/**
 * The two-motor speed model (src/SpeedModel.cpp): a calibrated left/right
 * power ratio for a requested average speed, and the trims that keep the
 * robot on a straight path.
 *
 * Calibration ratios and the average speed are exact reals; the motor
 * speeds are integers, and every assignment of a real to a speed
 * truncates toward zero as the source's float-to-int conversion does.
 */
module SpeedModels {

  /** The power levels at which the left/right ratio was calibrated. */
  const PowerLevels: seq<int> := [60, 75, 90, 105, 125, 175, 200, 225, 255]

  /** The calibrated left/right ratio at each power level. */
  const RatioValues: seq<real> := [
    0.7962962963, 0.8511530398, 0.8844765343, 0.8977272727, 0.9349112426,
    0.94921875, 0.9498746867, 0.9377990431, 0.9471871412]

  const RatioCount: nat := 9

  lemma TableShape()
    ensures |PowerLevels| == RatioCount && |RatioValues| == RatioCount
    ensures forall i, j :: 0 <= i < j < RatioCount ==> PowerLevels[i] < PowerLevels[j]
    ensures forall i :: 0 <= i < RatioCount ==> 0.0 < RatioValues[i] < 1.0
  {
  }

  // ---------------------------------------------------------------------------
  // Truncation toward zero
  // ---------------------------------------------------------------------------

  /** The float-to-int conversion: the integer part, rounding toward zero. */
  function Trunc(x: real): (n: int)
    ensures x >= 0.0 ==> 0 <= n && n as real <= x < n as real + 1.0
    ensures x < 0.0 ==> n <= 0 && n as real - 1.0 < x <= n as real
  {
    if x >= 0.0 then x.Floor else -((-x).Floor)
  }

  lemma TruncOfInt(n: int)
    ensures Trunc(n as real) == n
  {
  }

  lemma TruncMonotone(x: real, y: real)
    requires x <= y
    ensures Trunc(x) <= Trunc(y)
  {
  }

  // ---------------------------------------------------------------------------
  // The calibration lookup
  // ---------------------------------------------------------------------------

  /** The interpolation `setAverageSpeed` applies inside the segment ending at level `i`. */
  function Lerp(speed: int, i: nat): real
    requires 1 <= i < RatioCount
  {
    RatioValues[i]
      + (speed - PowerLevels[i]) as real * (RatioValues[i] - RatioValues[i - 1])
        / (PowerLevels[i] - PowerLevels[i - 1]) as real
  }

  /**
   * The search loop of `setAverageSpeed` from index `i` on: the first level
   * above the speed ends the search, interpolating unless it is the last
   * level; running off the end pins the speed to the last level.
   */
  function ScanFrom(speed: int, i: nat): (int, real)
    requires PowerLevels[0] < speed && i < RatioCount
    decreases RatioCount - i
  {
    if PowerLevels[i] > speed then
      if i < RatioCount - 1 then (speed, Lerp(speed, i)) else (speed, RatioValues[i])
    else if i == RatioCount - 1 then
      (PowerLevels[RatioCount - 1], RatioValues[RatioCount - 1])
    else
      ScanFrom(speed, i + 1)
  }

  /** The speed `setAverageSpeed` keeps and the ratio it uses, for a requested 8-bit speed. */
  function Lookup(speed: nat): (r: (int, real))
    requires speed < 256
  {
    if speed <= PowerLevels[0] then (PowerLevels[0], RatioValues[0]) else ScanFrom(speed, 0)
  }

  /** The scan finds the segment bracketing the speed, or the last level's ratio from 225 on. */
  lemma {:induction false} ScanFromFinds(speed: int, i: nat)
    requires PowerLevels[0] < speed <= 255 && i < RatioCount
    requires forall j :: 0 <= j < i ==> PowerLevels[j] <= speed
    ensures speed >= PowerLevels[RatioCount - 2] ==> ScanFrom(speed, i) == (speed, RatioValues[RatioCount - 1])
    ensures speed < PowerLevels[RatioCount - 2] ==>
              exists k :: 1 <= k < RatioCount - 1 && PowerLevels[k - 1] <= speed < PowerLevels[k]
                          && ScanFrom(speed, i) == (speed, Lerp(speed, k))
    decreases RatioCount - i
  {
    if PowerLevels[i] > speed {
      if i < RatioCount - 1 {
        assert 1 <= i && PowerLevels[i - 1] <= speed;
        assert ScanFrom(speed, i) == (speed, Lerp(speed, i));
      } else {
        assert PowerLevels[RatioCount - 2] <= speed;
      }
    } else if i < RatioCount - 1 {
      ScanFromFinds(speed, i + 1);
    }
  }

  /**
   * The lookup, stated without the loop: requests up to 60 use the first
   * level and ratio; requests from 225 on keep their speed and take the
   * last ratio, uninterpolated; the rest interpolate inside their segment.
   */
  lemma LookupCases(speed: nat)
    requires speed < 256
    ensures speed <= 60 ==> Lookup(speed) == (60, 0.7962962963)
    ensures 225 <= speed ==> Lookup(speed) == (speed, 0.9471871412)
    ensures 60 < speed < 225 ==>
              Lookup(speed).0 == speed
              && exists k :: 1 <= k < RatioCount - 1 && PowerLevels[k - 1] <= speed < PowerLevels[k]
                             && Lookup(speed).1 == Lerp(speed, k)
  {
    if speed > 60 {
      ScanFromFinds(speed, 0);
    }
  }

  /** Inside a segment the interpolated ratio lies between the segment's two calibrated values. */
  lemma LerpBetween(speed: int, k: nat)
    requires 1 <= k < RatioCount && PowerLevels[k - 1] <= speed <= PowerLevels[k]
    ensures RatioValues[k - 1] <= RatioValues[k] ==> RatioValues[k - 1] <= Lerp(speed, k) <= RatioValues[k]
    ensures RatioValues[k] <= RatioValues[k - 1] ==> RatioValues[k] <= Lerp(speed, k) <= RatioValues[k - 1]
    ensures speed == PowerLevels[k - 1] ==> Lerp(speed, k) == RatioValues[k - 1]
    ensures speed == PowerLevels[k] ==> Lerp(speed, k) == RatioValues[k]
  {
    var width := (PowerLevels[k] - PowerLevels[k - 1]) as real;
    var d := RatioValues[k] - RatioValues[k - 1];
    var t := (PowerLevels[k] - speed) as real / width;
    assert 0.0 <= t <= 1.0;
    assert Lerp(speed, k) == RatioValues[k] - t * d;
    if d >= 0.0 {
      assert 0.0 <= t * d <= d;
    } else {
      assert d <= t * d <= 0.0;
    }
  }

  /** Every ratio the lookup produces is strictly between 0 and 1. */
  lemma LookupRatioBelowOne(speed: nat)
    requires speed < 256
    ensures 0.0 < Lookup(speed).1 < 1.0
    ensures 60 <= Lookup(speed).0 <= 255
  {
    LookupCases(speed);
    TableShape();
    if 60 < speed < 225 {
      var k :| 1 <= k < RatioCount - 1 && PowerLevels[k - 1] <= speed < PowerLevels[k]
               && Lookup(speed).1 == Lerp(speed, k);
      LerpBetween(speed, k);
    }
  }

  /** At every calibrated level below 225 the lookup returns exactly that level's ratio. */
  lemma LookupAtLevels(k: nat)
    requires k < RatioCount - 2
    ensures Lookup(PowerLevels[k]) == (PowerLevels[k], RatioValues[k])
  {
    var speed := PowerLevels[k];
    LookupCases(speed);
    if k > 0 {
      var j :| 1 <= j < RatioCount - 1 && PowerLevels[j - 1] <= speed < PowerLevels[j]
               && Lookup(speed).1 == Lerp(speed, j);
      assert j == k + 1 by { TableShape(); }
      LerpBetween(speed, j);
    }
  }

  /** The speed the lookup keeps: the request, raised to 60 when below. */
  lemma LookupSpeed(speed: nat)
    requires speed < 256
    ensures Lookup(speed).0 == (if speed <= 60 then 60 else speed)
  {
    LookupCases(speed);
  }

  /** The quirk at 225: that level uses the last ratio, not its own calibrated one. */
  lemma LookupAt225()
    ensures Lookup(225) == (225, RatioValues[8])
    ensures Lookup(225).1 != RatioValues[7]
  {
    LookupCases(225);
  }

  // ---------------------------------------------------------------------------
  // The model
  // ---------------------------------------------------------------------------

  datatype SpeedModel = SpeedModel(wheelDiscHoles: nat, averageSpeed: real, speedA: int, speedB: int)

  const DefaultWheelDiscHoles: nat := 20

  /** The constructor: the given wheel disc, and every speed at zero. */
  function New(wheelDiscHoles: nat): (m: SpeedModel)
    ensures m.wheelDiscHoles == wheelDiscHoles
    ensures m.averageSpeed == 0.0 && m.speedA == 0 && m.speedB == 0
  {
    Reset(SpeedModel(wheelDiscHoles, 0.0, 0, 0))
  }

  /** `reset`: every speed back to zero; the wheel disc is kept. */
  function Reset(m: SpeedModel): (r: SpeedModel)
    ensures r.wheelDiscHoles == m.wheelDiscHoles
    ensures r.averageSpeed == 0.0 && r.speedA == 0 && r.speedB == 0
  {
    m.(averageSpeed := 0.0, speedA := 0, speedB := 0)
  }

  /**
   * `setAverageSpeed`: motor A runs at the (clamped) requested speed, motor
   * B at that speed scaled by the calibrated ratio, and the average speed
   * is the mean of the two.
   */
  function SetAverageSpeed(m: SpeedModel, speed: nat): (r: SpeedModel)
    requires speed < 256
    ensures r.wheelDiscHoles == m.wheelDiscHoles
    ensures r.speedA == Lookup(speed).0
    ensures r.speedB == Scale(r.speedA, Lookup(speed).1)
    ensures r.averageSpeed * 2.0 == (r.speedA + r.speedB) as real
    ensures r.speedA == (if speed <= 60 then 60 else speed)
    ensures 0 <= r.speedB < r.speedA
  {
    var a := Lookup(speed).0;
    var ratio := Lookup(speed).1;
    LookupRatioBelowOne(speed);
    LookupSpeed(speed);
    var b := Scale(a, ratio);
    m.(speedA := a, speedB := b, averageSpeed := (a as real + b as real) / 2.0)
  }

  /** A speed scaled by a ratio and truncated, as assigning the product to an integer speed does. */
  function Scale(a: int, ratio: real): (b: int)
    ensures a > 0 && 0.0 < ratio < 1.0 ==> 0 <= b < a
  {
    Trunc(a as real * ratio)
  }

  /** `getSpeedA`: the speed narrowed to an unsigned 8-bit value. */
  function GetSpeedA(m: SpeedModel): (r: nat)
    ensures r < 256 && (m.speedA - r) % 256 == 0
    ensures 0 <= m.speedA < 256 ==> r == m.speedA
  {
    m.speedA % 256
  }

  /** `getSpeedB`: the speed narrowed to an unsigned 8-bit value. */
  function GetSpeedB(m: SpeedModel): (r: nat)
    ensures r < 256 && (m.speedB - r) % 256 == 0
    ensures 0 <= m.speedB < 256 ==> r == m.speedB
  {
    m.speedB % 256
  }

  /** The requests of the worked examples. */
  lemma SetAverageSpeedExamples()
    ensures var m := SetAverageSpeed(New(DefaultWheelDiscHoles), 0);
            m.speedA == 60 && m.speedB == 47 && m.averageSpeed == 53.5
    ensures var m := SetAverageSpeed(New(DefaultWheelDiscHoles), 100);
            m.speedA == 100 && m.speedB == 89 && m.averageSpeed == 94.5
    ensures var m := SetAverageSpeed(New(DefaultWheelDiscHoles), 255);
            m.speedA == 255 && m.speedB == 241 && m.averageSpeed == 248.0
  {
    LookupCases(0);
    LookupCases(255);
    assert Lookup(100) == (100, Lerp(100, 3));
  }

  // ---------------------------------------------------------------------------
  // Keeping a straight path
  // ---------------------------------------------------------------------------

  /** The trim for a difference in counter deltas: a share of the average speed. */
  function Adjustment(m: SpeedModel, deltaA: nat, deltaB: nat): (adj: real)
    requires m.wheelDiscHoles > 0
    ensures m.averageSpeed >= 0.0 ==> adj >= 0.0
  {
    var diff := if deltaA > deltaB then deltaA - deltaB else deltaB - deltaA;
    (diff as real / m.wheelDiscHoles as real) * m.averageSpeed
  }

  /**
   * The first half of `updateSpeedsForStraightPath`: the faster wheel's
   * motor A is trimmed by the adjustment, and motor B is set so that the
   * two still average the average speed.
   */
  function Balance(m: SpeedModel, deltaA: nat, deltaB: nat): (r: SpeedModel)
    requires deltaA != deltaB && m.wheelDiscHoles > 0
    ensures r.wheelDiscHoles == m.wheelDiscHoles && r.averageSpeed == m.averageSpeed
  {
    var adj := Adjustment(m, deltaA, deltaB);
    var a := if deltaA > deltaB then Trunc(m.speedA as real - adj) else Trunc(m.speedA as real + adj);
    m.(speedA := a, speedB := Trunc(2.0 * m.averageSpeed - a as real))
  }

  /** The second half: the wheel that has counted more slows by the whole count difference. */
  function Drift(m: SpeedModel, counterA: nat, counterB: nat): (r: SpeedModel)
    ensures r.wheelDiscHoles == m.wheelDiscHoles && r.averageSpeed == m.averageSpeed
  {
    if counterA > counterB then m.(speedA := m.speedA - (counterA - counterB))
    else if counterB > counterA then m.(speedB := m.speedB - (counterB - counterA))
    else m
  }

  /**
   * `updateSpeedsForStraightPath`. Equal counter deltas leave the model
   * untouched, drift correction included; otherwise the balance trim and
   * then the drift correction apply.
   */
  function UpdateSpeedsForStraightPath(m: SpeedModel, deltaA: nat, deltaB: nat, counterA: nat, counterB: nat)
    : (r: SpeedModel)
    requires deltaA != deltaB ==> m.wheelDiscHoles > 0
    ensures deltaA == deltaB ==> r == m
    ensures deltaA != deltaB ==> r == Drift(Balance(m, deltaA, deltaB), counterA, counterB)
    ensures r.wheelDiscHoles == m.wheelDiscHoles && r.averageSpeed == m.averageSpeed
  {
    if deltaA == deltaB then m else Drift(Balance(m, deltaA, deltaB), counterA, counterB)
  }

  /**
   * The balance trim moves motor A down when A's wheel turned more and up
   * when B's did, by the adjustment up to truncation, and leaves the two
   * speeds summing to twice the average speed, up to truncation.
   */
  lemma BalanceTrims(m: SpeedModel, deltaA: nat, deltaB: nat)
    requires deltaA != deltaB && m.wheelDiscHoles > 0 && m.averageSpeed >= 0.0
    ensures var r := Balance(m, deltaA, deltaB);
            var adj := Adjustment(m, deltaA, deltaB);
            && (deltaA > deltaB ==>
                  r.speedA <= m.speedA && adj - 1.0 < (m.speedA - r.speedA) as real < adj + 1.0)
            && (deltaA < deltaB ==>
                  r.speedA >= m.speedA && adj - 1.0 < (r.speedA - m.speedA) as real < adj + 1.0)
            && -1.0 < (r.speedA + r.speedB) as real - 2.0 * m.averageSpeed < 1.0
  {
    var adj := Adjustment(m, deltaA, deltaB);
    TruncOfInt(m.speedA);
    if deltaA > deltaB {
      TruncMonotone(m.speedA as real - adj, m.speedA as real);
    } else {
      TruncMonotone(m.speedA as real, m.speedA as real + adj);
    }
  }

  /**
   * The drift correction never raises a speed, and it narrows the gap
   * between the speeds by exactly the counters' difference.
   */
  lemma DriftCorrects(m: SpeedModel, counterA: nat, counterB: nat)
    ensures var r := Drift(m, counterA, counterB);
            && r.speedA <= m.speedA && r.speedB <= m.speedB
            && (r.speedA - r.speedB) - (m.speedA - m.speedB) == counterB - counterA
            && (counterA > counterB ==> r.speedB == m.speedB)
            && (counterB > counterA ==> r.speedA == m.speedA)
            && (counterA == counterB ==> r == m)
  {
  }
}
