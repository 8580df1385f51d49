/**
 * The caffeine curve shared by src/components/CaffeineChart.tsx and
 * src/components/CaffeineCurveDialog.tsx (the two files carry the same
 * helpers): decimal hours back to "HH:mm", the drink conversion for the
 * calculator, the 15-minute sampler that runs until four readings in a row
 * are under 30 mg, the search for the first fall below 30 mg, and the time
 * axis label.
 */
module Curve {
  import opened Wrappers
  import opened Format
  import opened Concentration
  import opened Drinks

  const CaffeineSleepThresholdMg: real := 30.0
  const TimeStepHrs: real := 0.25
  const TimeBufferHrs: real := 0.5
  const PointsToShowUnderThreshold: nat := 4

  /** `Math.round`: halves go up. */
  function RoundHalfUp(x: real): int {
    (x + 0.5).Floor
  }

  lemma FloorShift(n: int, x: real)
    ensures (n as real + x).Floor == n + x.Floor
  {
  }

  lemma WrapMinutes(whole: int, minutes: int)
    requires whole >= 0 && 0 <= minutes <= 60
    ensures minutes < 60 ==> (whole % 24) * 60 + minutes == (whole * 60 + minutes) % 1440
    ensures minutes == 60 ==> ((whole % 24 + 1) % 24) * 60 == (whole * 60 + minutes) % 1440
  {
    var q, r := whole / 24, whole % 24;
    assert whole * 60 + minutes == 1440 * q + (r * 60 + minutes);
    if minutes == 60 && r == 23 {
      assert whole * 60 + minutes == 1440 * (q + 1);
    } else if minutes == 60 {
      assert (r + 1) % 24 == r + 1;
    }
  }

  /**
   * The clock reading `decimalToTimeString` prints: the time rounded to the
   * nearest minute, with the hour taken modulo 24 when `wrapHours` is set.
   */
  function DecimalToClock(decimal: real, wrapHours: bool): (hm: HourMinute)
    requires decimal >= 0.0
    ensures 0 <= hm.hours && 0 <= hm.minutes < 60
    ensures wrapHours ==> hm.hours < 24
    ensures !wrapHours ==> hm.hours * 60 + hm.minutes == RoundHalfUp(decimal * 60.0)
    ensures wrapHours ==> hm.hours * 60 + hm.minutes == RoundHalfUp(decimal * 60.0) % 1440
  {
    var whole := decimal.Floor;
    var hours := if wrapHours then whole % 24 else whole;
    var minutes := RoundHalfUp((decimal - whole as real) * 60.0);
    assert decimal * 60.0 + 0.5 == (whole * 60) as real + ((decimal - whole as real) * 60.0 + 0.5);
    FloorShift(whole * 60, (decimal - whole as real) * 60.0 + 0.5);
    WrapMinutes(whole, minutes);
    if minutes == 60 then HourMinute(if wrapHours then (hours + 1) % 24 else hours + 1, 0)
    else HourMinute(hours, minutes)
  }

  /** `decimalToTimeString(decimal, wrapHours)`. */
  function DecimalToTimeString(decimal: real, wrapHours: bool): (text: string)
    requires decimal >= 0.0
    ensures text == ClockText(DecimalToClock(decimal, wrapHours))
    ensures ParseClock(text) == Some(DecimalToClock(decimal, wrapHours))
  {
    ClockTextRoundTrip(DecimalToClock(decimal, wrapHours));
    ClockText(DecimalToClock(decimal, wrapHours))
  }

  /** Reading the unwrapped string back gives the time rounded to the nearest minute. */
  lemma AggregatorSeesNearestMinute(t: real)
    requires t >= 0.0
    ensures TimeToDecimal(DecimalToTimeString(t, false)) == Success(RoundHalfUp(t * 60.0) as real / 60.0)
  {
    var hm := DecimalToClock(t, false);
    TimeToDecimalOfClockText(hm);
    assert hm.hours as real + hm.minutes as real / 60.0 == (hm.hours * 60 + hm.minutes) as real / 60.0;
  }

  /** On whole minutes the string round trip is exact. */
  lemma WholeMinutesRoundTrip(t: real, n: nat)
    requires t * 60.0 == n as real
    ensures t >= 0.0
    ensures TimeToDecimal(DecimalToTimeString(t, false)) == Success(t)
  {
    WholeMinutes(t, n);
    AggregatorSeesNearestMinute(t);
    assert RoundHalfUp(t * 60.0) as real / 60.0 == t;
  }

  lemma WholeMinutes(t: real, n: nat)
    requires t * 60.0 == n as real
    ensures t >= 0.0 && RoundHalfUp(t * 60.0) == n && n as real / 60.0 == t
  {
    FloorShift(n, 0.5);
  }

  /** `convertDrinkToCalculatorFormat`: minutes become hours. */
  function ConvertDrink(d: Drink): (c: CalcDrink)
    ensures c.startTime == d.time && c.doseMg == d.caffeineMg as real
    ensures c.drinkDurationHrs * 60.0 == d.durationMin as real
  {
    CalcDrink(d.time, d.caffeineMg as real, d.durationMin as real / 60.0)
  }

  /** A converted drink passes the calculator's checks exactly when its dose and minutes are positive and its time parses. */
  lemma ConvertedDrinkValid(d: Drink)
    ensures DrinkValid(ConvertDrink(d)) <==> d.caffeineMg > 0 && d.durationMin > 0 && TimeToDecimal(d.time).Success?
  {
  }

  function ConvertAll(drinks: seq<Drink>): (cs: seq<CalcDrink>)
    ensures |cs| == |drinks| && forall i :: 0 <= i < |drinks| ==> cs[i] == ConvertDrink(drinks[i])
  {
    seq(|drinks|, i requires 0 <= i < |drinks| => ConvertDrink(drinks[i]))
  }

  /**
   * The least of a list of parsed times, or the first failure in it: what
   * `Math.min` over the parsed start times yields, since every parse runs first.
   */
  function Least(times: seq<Result<real, TimeError>>): (r: Result<real, TimeError>)
    requires times != []
    ensures r.Success? <==> forall i :: 0 <= i < |times| ==> times[i].Success?
    ensures r.Success? ==> forall i :: 0 <= i < |times| ==> r.value <= times[i].value
    ensures r.Success? ==> exists i :: 0 <= i < |times| && times[i] == r
    ensures r.Failure? ==> exists i :: 0 <= i < |times| && times[i] == r
                                     && forall j :: 0 <= j < i ==> times[j].Success?
  {
    if times[0].Failure? then times[0]
    else if |times| == 1 then times[0]
    else
      var rest := Least(times[1..]);
      LeastShift(times, rest);
      match rest
      case Failure(e) => rest
      case Success(v) => if times[0].value <= v then times[0] else rest
  }

  lemma LeastShift(times: seq<Result<real, TimeError>>, rest: Result<real, TimeError>)
    requires |times| > 1 && times[0].Success?
    ensures (exists i :: 0 <= i < |times[1..]| && times[1..][i] == rest && forall j :: 0 <= j < i ==> times[1..][j].Success?)
        ==> exists i :: 0 <= i < |times| && times[i] == rest && forall j :: 0 <= j < i ==> times[j].Success?
  {
    if exists i :: 0 <= i < |times[1..]| && times[1..][i] == rest && forall j :: 0 <= j < i ==> times[1..][j].Success? {
      var i :| 0 <= i < |times[1..]| && times[1..][i] == rest && forall j :: 0 <= j < i ==> times[1..][j].Success?;
      assert times[i + 1] == times[1..][i];
      assert forall j :: 0 <= j < i + 1 ==> times[j].Success?;
    }
  }

  /** `Math.min(...drinks.map(d => timeToDecimal(d.time)))`: the first bad start time is the error; otherwise the earliest. */
  function EarliestDrinkTime(drinks: seq<Drink>): (r: Result<real, TimeError>)
    requires drinks != []
    ensures r.Success? <==> forall i :: 0 <= i < |drinks| ==> TimeToDecimal(drinks[i].time).Success?
    ensures r.Success? ==> forall i :: 0 <= i < |drinks| ==> r.value <= TimeToDecimal(drinks[i].time).value
    ensures r.Success? ==> exists i :: 0 <= i < |drinks| && TimeToDecimal(drinks[i].time) == r
    ensures r.Failure? ==> exists i :: 0 <= i < |drinks| && TimeToDecimal(drinks[i].time) == r
                                     && forall j :: 0 <= j < i ==> TimeToDecimal(drinks[j].time).Success?
  {
    var times := seq(|drinks|, i requires 0 <= i < |drinks| => TimeToDecimal(drinks[i].time));
    StartTimesOf(drinks, times, Least(times));
    Least(times)
  }

  lemma StartTimesOf(drinks: seq<Drink>, times: seq<Result<real, TimeError>>, r: Result<real, TimeError>)
    requires |times| == |drinks| && forall i :: 0 <= i < |drinks| ==> times[i] == TimeToDecimal(drinks[i].time)
    ensures (exists i :: 0 <= i < |times| && times[i] == r && forall j :: 0 <= j < i ==> times[j].Success?)
                        ==> exists i :: 0 <= i < |drinks| && TimeToDecimal(drinks[i].time) == r
                                        && forall j :: 0 <= j < i ==> TimeToDecimal(drinks[j].time).Success?
  {
  }

  /** The x axis starts half an hour before the earliest drink, but not before midnight. */
  function StartTime(earliest: real): (s: real)
    ensures s >= 0.0 && s >= earliest - TimeBufferHrs
    ensures s == 0.0 || s == earliest - TimeBufferHrs
  {
    if earliest - TimeBufferHrs > 0.0 then earliest - TimeBufferHrs else 0.0
  }

  /** One sample of the curve: hours since midnight and caffeine in the body (mg). */
  datatype DataPoint = DataPoint(time: real, concentration: real)

  /** Why the chart could not be drawn: a bad drink time, or a calculator error. */
  datatype ChartError = DrinkTimeError(timeCause: TimeError) | CalculatorError(concCause: ConcError)

  /** What the sampler ends with; `OutOfFuel` stands for a run that had not stopped yet. */
  datatype SampleOutcome = Sampled(points: seq<DataPoint>) | SampleFailed(error: ChartError) | OutOfFuel(points: seq<DataPoint>)

  /** A calculator verdict in mg/L turned into mg in the body of a person of `weightLbs`. */
  function ScaleToMg(c: Result<real, ConcError>, weightLbs: real): (r: Result<real, ConcError>)
    ensures r.Success? == c.Success? && (r.Failure? ==> r.error == c.error)
    ensures c.Success? && c.value >= 0.0 && weightLbs > 0.0 ==> r.value >= 0.0
    ensures r.Success? ==> r.value == c.value * VolumeOfDistribution(weightLbs)
  {
    if c.Success? then Success(MgInBody(c.value, weightLbs)) else Failure(c.error)
  }

  /** `concentrationMgL * (weightLbs * 0.453592 * 0.6)`: a concentration in mg/L times the litres it spreads over. */
  function MgInBody(concentrationMgL: real, weightLbs: real): (mg: real)
    ensures concentrationMgL >= 0.0 && weightLbs > 0.0 ==> mg >= 0.0
    ensures mg == concentrationMgL * VolumeOfDistribution(weightLbs)
  {
    var litres := BodyLitres(weightLbs);
    NonNegativeProduct(concentrationMgL, litres);
    concentrationMgL * litres
  }

  /** The calculator's verdict at the clock text `now`, scaled to mg. */
  function ScaledTotal(m: Transcendental, now: string, drinks: seq<Drink>, weightLbs: real, sensitivity: real): (r: Result<real, ConcError>)
    requires Lawful(m) && TimeToDecimal(now).Success?
    ensures r.Success? ==> r.value >= 0.0
  {
    assert Some(weightLbs).GetOr(DefaultWeightLbs) == weightLbs;
    ScaleToMg(GetTotalCaffeineConcentration(m, now, ConvertAll(drinks), sensitivity, Some(weightLbs)), weightLbs)
  }

  /** At a well-formed clock text the scaled total fails exactly on bad input, with the calculator's error, and is never negative. */
  lemma ScaledTotalVerdict(m: Transcendental, now: string, drinks: seq<Drink>, weightLbs: real, sensitivity: real)
    requires Lawful(m) && TimeToDecimal(now).Success?
    ensures var r := ScaledTotal(m, now, drinks, weightLbs, sensitivity);
            var e := InputError(ConvertAll(drinks), sensitivity, Some(weightLbs));
            (r.Failure? <==> e.Some?) && (r.Failure? ==> r.error == e.value)
  {
    assert Some(weightLbs).GetOr(DefaultWeightLbs) == weightLbs;
  }

  /** The scaled calculator verdict at decimal time t, passed to it as "HH:mm". */
  function TotalMgAt(m: Transcendental, drinks: seq<Drink>, weightLbs: real, sensitivity: real, t: real): (r: Result<real, ConcError>)
    requires Lawful(m) && t >= 0.0
    ensures r.Success? ==> r.value >= 0.0
  {
    AggregatorSeesNearestMinute(t);
    ScaledTotal(m, DecimalToTimeString(t, false), drinks, weightLbs, sensitivity)
  }

  /**
   * The calculator's checks do not look at the clock: at any two sample
   * times it either succeeds at both or fails at both with the same error.
   */
  lemma VerdictIgnoresTime(m: Transcendental, drinks: seq<Drink>, weightLbs: real, sensitivity: real, t1: real, t2: real)
    requires Lawful(m) && t1 >= 0.0 && t2 >= 0.0
    ensures TotalMgAt(m, drinks, weightLbs, sensitivity, t1).Success? == TotalMgAt(m, drinks, weightLbs, sensitivity, t2).Success?
    ensures TotalMgAt(m, drinks, weightLbs, sensitivity, t1).Failure? ==>
              TotalMgAt(m, drinks, weightLbs, sensitivity, t1).error == TotalMgAt(m, drinks, weightLbs, sensitivity, t2).error
  {
    AggregatorSeesNearestMinute(t1);
    AggregatorSeesNearestMinute(t2);
    ScaledTotalVerdict(m, DecimalToTimeString(t1, false), drinks, weightLbs, sensitivity);
    ScaledTotalVerdict(m, DecimalToTimeString(t2, false), drinks, weightLbs, sensitivity);
  }

  /** `weightLbs * 0.453592 * 0.6`: the volume of distribution, multiplied in the chart's order. */
  function BodyLitres(weightLbs: real): (v: real)
    ensures weightLbs > 0.0 ==> v > 0.0
    ensures v == VolumeOfDistribution(weightLbs)
  {
    PositiveScale(weightLbs);
    weightLbs * LbsToKg * VolumeDistributionFactor
  }

  lemma PositiveScale(weightLbs: real)
    ensures weightLbs > 0.0 ==> weightLbs * LbsToKg * VolumeDistributionFactor > 0.0
  {
    if weightLbs > 0.0 {
      PositiveProduct(weightLbs, LbsToKg);
      PositiveProduct(weightLbs * LbsToKg, VolumeDistributionFactor);
    }
  }

  lemma NonNegativeProduct(a: real, b: real)
    ensures a >= 0.0 && b > 0.0 ==> a * b >= 0.0
  {
  }

  /** Length of the run of readings under 30 mg at the end of `points`. */
  function TrailingLow(points: seq<DataPoint>): (n: nat)
    ensures n <= |points|
  {
    if points == [] then 0
    else if points[|points| - 1].concentration < CaffeineSleepThresholdMg then TrailingLow(points[..|points| - 1]) + 1
    else 0
  }

  /** A trailing run of n: the last n readings are under 30 mg and the one before, if any, is not. */
  lemma {:induction false} TrailingLowRun(points: seq<DataPoint>, n: nat)
    requires TrailingLow(points) == n
    ensures forall j :: |points| - n <= j < |points| ==> points[j].concentration < CaffeineSleepThresholdMg
    ensures n < |points| ==> points[|points| - n - 1].concentration >= CaffeineSleepThresholdMg
  {
    if points != [] && n > 0 {
      var init := points[..|points| - 1];
      TrailingLowRun(init, n - 1);
      assert forall j :: 0 <= j < |init| ==> init[j] == points[j];
    }
  }

  /** Sample number j of a curve from `start`: a quarter hour per step, with the scaled calculator value there. */
  ghost predicate SampleOk(m: Transcendental, drinks: seq<Drink>, weightLbs: real, sensitivity: real,
                           start: real, j: int, p: DataPoint)
  {
    && Lawful(m) && p.time >= 0.0
    && p.time == start + TimeStepHrs * j as real
    && TotalMgAt(m, drinks, weightLbs, sensitivity, p.time).Success?
    && TotalMgAt(m, drinks, weightLbs, sensitivity, p.time).value == p.concentration
  }

  /** The points are the samples start, start + 0.25, ... with the scaled calculator value at each. */
  ghost predicate SampledFrom(m: Transcendental, drinks: seq<Drink>, weightLbs: real, sensitivity: real,
                              start: real, points: seq<DataPoint>)
  {
    forall j :: 0 <= j < |points| ==> SampleOk(m, drinks, weightLbs, sensitivity, start, j, points[j])
  }

  /** A property of every (index, element) pair survives appending an element that has it. */
  lemma ExtendAll<T>(xs: seq<T>, x: T, ok: (int, T) -> bool)
    requires forall j :: 0 <= j < |xs| ==> ok(j, xs[j])
    requires ok(|xs|, x)
    ensures forall j :: 0 <= j < |xs + [x]| ==> ok(j, (xs + [x])[j])
  {
    forall j | 0 <= j < |xs + [x]|
      ensures ok(j, (xs + [x])[j])
    {
      if j < |xs| {
        assert (xs + [x])[j] == xs[j];
      }
    }
  }

  /** No proper prefix of `points` already ended in four low readings: the loop stopped at the first chance. */
  predicate NoEarlierStop(points: seq<DataPoint>) {
    forall j :: 0 <= j < |points| ==> TrailingLow(points[..j]) < PointsToShowUnderThreshold
  }

  /**
   * `generateDataPoints`. The source loop has no bound; `fuel` caps the
   * number of samples and `OutOfFuel` reports a run that had not finished.
   */
  method GenerateDataPoints(m: Transcendental, drinks: seq<Drink>, weightLbs: real, sensitivity: real, fuel: nat)
    returns (out: SampleOutcome)
    requires Lawful(m)
    ensures drinks == [] ==> out == Sampled([])
    ensures drinks != [] && EarliestDrinkTime(drinks).Failure? ==>
              out == SampleFailed(DrinkTimeError(EarliestDrinkTime(drinks).error))
    ensures drinks != [] && EarliestDrinkTime(drinks).Success? ==>
              var start := StartTime(EarliestDrinkTime(drinks).value);
              && (out.SampleFailed? <==> fuel > 0 && InputError(ConvertAll(drinks), sensitivity, Some(weightLbs)).Some?)
              && (out.SampleFailed? ==> out.error == CalculatorError(InputError(ConvertAll(drinks), sensitivity, Some(weightLbs)).value))
              && (!out.SampleFailed? ==> SampledFrom(m, drinks, weightLbs, sensitivity, start, out.points)
                                         && NoEarlierStop(out.points))
              && (out.Sampled? ==> TrailingLow(out.points) == PointsToShowUnderThreshold)
              && (out.OutOfFuel? ==> |out.points| == fuel && TrailingLow(out.points) < PointsToShowUnderThreshold)
  {
    if drinks == [] {
      return Sampled([]);
    }
    var earliest := EarliestDrinkTime(drinks);
    if earliest.Failure? {
      return SampleFailed(DrinkTimeError(earliest.error));
    }
    var start := StartTime(earliest.value);
    out := SampleFrom(m, drinks, weightLbs, sensitivity, start, fuel);
  }

  /**
   * The sampling loop of `generateDataPoints`: from `start`, every quarter
   * hour, until four readings in a row are under 30 mg.
   */
  method SampleFrom(m: Transcendental, drinks: seq<Drink>, weightLbs: real, sensitivity: real, start: real, fuel: nat)
    returns (out: SampleOutcome)
    requires Lawful(m) && start >= 0.0
    ensures out.SampleFailed? <==> fuel > 0 && InputError(ConvertAll(drinks), sensitivity, Some(weightLbs)).Some?
    ensures out.SampleFailed? ==> out.error == CalculatorError(InputError(ConvertAll(drinks), sensitivity, Some(weightLbs)).value)
    ensures !out.SampleFailed? ==> SampledFrom(m, drinks, weightLbs, sensitivity, start, out.points) && NoEarlierStop(out.points)
    ensures out.Sampled? ==> TrailingLow(out.points) == PointsToShowUnderThreshold
    ensures out.OutOfFuel? ==> |out.points| == fuel && TrailingLow(out.points) < PointsToShowUnderThreshold
  {
    var calcDrinks := ConvertAll(drinks);
    var points: seq<DataPoint> := [];
    var currentTime := start;
    var consecutiveLowReadings := 0;
    while consecutiveLowReadings < PointsToShowUnderThreshold
      invariant |points| <= fuel
      invariant currentTime == start + TimeStepHrs * |points| as real
      invariant consecutiveLowReadings == TrailingLow(points)
      invariant SampledFrom(m, drinks, weightLbs, sensitivity, start, points)
      invariant NoEarlierStop(points)
      invariant points != [] ==> InputError(calcDrinks, sensitivity, Some(weightLbs)).None?
      decreases fuel - |points|
    {
      if |points| == fuel {
        return OutOfFuel(points);
      }
      var now := DecimalToTimeString(currentTime, false);
      var concentrationMgL := GetTotalCaffeineConcentration(m, now, calcDrinks, sensitivity, Some(weightLbs));
      SampleStep(m, drinks, weightLbs, sensitivity, start, |points|, currentTime);
      if concentrationMgL.Failure? {
        return SampleFailed(CalculatorError(concentrationMgL.error));
      }
      var totalMg := MgInBody(concentrationMgL.value, weightLbs);
      ExtendSamples(m, drinks, weightLbs, sensitivity, start, points, DataPoint(currentTime, totalMg));
      ExtendRun(points, DataPoint(currentTime, totalMg));
      points := points + [DataPoint(currentTime, totalMg)];
      if totalMg < CaffeineSleepThresholdMg {
        consecutiveLowReadings := consecutiveLowReadings + 1;
      } else {
        consecutiveLowReadings := 0;
      }
      currentTime := currentTime + TimeStepHrs;
    }
    return Sampled(points);
  }

  /** One loop step yields sample number j, and fails exactly on bad input. */
  lemma SampleStep(m: Transcendental, drinks: seq<Drink>, weightLbs: real, sensitivity: real, start: real, j: int, t: real)
    requires Lawful(m) && t >= 0.0 && t == start + TimeStepHrs * j as real
    ensures var c := GetTotalCaffeineConcentration(m, DecimalToTimeString(t, false), ConvertAll(drinks), sensitivity, Some(weightLbs));
            var e := InputError(ConvertAll(drinks), sensitivity, Some(weightLbs));
            && (c.Failure? <==> e.Some?) && (c.Failure? ==> c.error == e.value)
            && (c.Success? ==> SampleOk(m, drinks, weightLbs, sensitivity, start, j, DataPoint(t, MgInBody(c.value, weightLbs))))
  {
    AggregatorSeesNearestMinute(t);
  }

  lemma ExtendSamples(m: Transcendental, drinks: seq<Drink>, weightLbs: real, sensitivity: real,
                      start: real, points: seq<DataPoint>, p: DataPoint)
    requires SampledFrom(m, drinks, weightLbs, sensitivity, start, points)
    requires SampleOk(m, drinks, weightLbs, sensitivity, start, |points|, p)
    ensures SampledFrom(m, drinks, weightLbs, sensitivity, start, points + [p])
  {
    ExtendAll(points, p, (j, q) => SampleOk(m, drinks, weightLbs, sensitivity, start, j, q));
  }

  lemma ExtendRun(points: seq<DataPoint>, p: DataPoint)
    requires NoEarlierStop(points) && TrailingLow(points) < PointsToShowUnderThreshold
    ensures NoEarlierStop(points + [p])
    ensures TrailingLow(points + [p]) == if p.concentration < CaffeineSleepThresholdMg then TrailingLow(points) + 1 else 0
  {
    var ps := points + [p];
    assert ps[..|ps| - 1] == points;
    forall j | 0 <= j < |ps| ensures TrailingLow(ps[..j]) < PointsToShowUnderThreshold {
      if j < |points| {
        assert ps[..j] == points[..j];
      }
    }
  }

  /** A falling edge under 30 mg at index i. */
  predicate FallsBelowAt(data: seq<DataPoint>, i: int)
    requires 1 <= i < |data|
  {
    data[i].concentration < CaffeineSleepThresholdMg && data[i].concentration < data[i - 1].concentration
  }

  /** `findThirtyMgTime`: the time of the first falling edge under 30 mg from index 1 on. */
  method FindThirtyMgTime(data: seq<DataPoint>) returns (r: Option<real>)
    ensures r.None? <==> forall i :: 1 <= i < |data| ==> !FallsBelowAt(data, i)
    ensures r.Some? ==> exists i :: 1 <= i < |data| && FallsBelowAt(data, i) && r.value == data[i].time
                                 && forall j :: 1 <= j < i ==> !FallsBelowAt(data, j)
  {
    var i := 1;
    while i < |data|
      invariant 1 <= i
      invariant forall j :: 1 <= j < i && j < |data| ==> !FallsBelowAt(data, j)
    {
      var prevPoint := data[i - 1];
      var currentPoint := data[i];
      if currentPoint.concentration < CaffeineSleepThresholdMg && currentPoint.concentration < prevPoint.concentration {
        assert FallsBelowAt(data, i);
        return Some(currentPoint.time);
      }
      i := i + 1;
    }
    return None;
  }

  /**
   * A finished curve longer than its final low run has a falling edge where
   * that run begins, so the chart always has a 30 mg time to show for it.
   */
  lemma FinishedCurveFallsBelow(points: seq<DataPoint>)
    requires TrailingLow(points) == PointsToShowUnderThreshold && |points| > PointsToShowUnderThreshold
    ensures FallsBelowAt(points, |points| - PointsToShowUnderThreshold)
  {
    TrailingLowRun(points, PointsToShowUnderThreshold);
  }

  /** Sample times go up by exactly a quarter hour. */
  lemma SamplesQuarterHourApart(m: Transcendental, drinks: seq<Drink>, weightLbs: real, sensitivity: real,
                                start: real, points: seq<DataPoint>, j: nat)
    requires SampledFrom(m, drinks, weightLbs, sensitivity, start, points)
    requires j + 1 < |points|
    ensures points[j + 1].time == points[j].time + TimeStepHrs
    ensures points[j].time < points[j + 1].time
  {
    assert SampleOk(m, drinks, weightLbs, sensitivity, start, j, points[j]);
    assert SampleOk(m, drinks, weightLbs, sensitivity, start, j + 1, points[j + 1]);
  }

  /**
   * `formatTimeLabel`: the wrapped "HH:mm" is read back, shown on a 12-hour
   * dial, and marked " (next day)" when the unrounded hour is 24 or later.
   */
  function FormatTimeLabel(time: real): (text: string)
    requires time >= 0.0
    ensures var dial := TwelveHourText(DecimalToClock(time, true));
            && |text| == |dial| + (if time.Floor >= 24 then 11 else 0)
            && text[..|dial|] == dial
    ensures text == TwelveHourText(DecimalToClock(time, true)) + (if time.Floor >= 24 then " (next day)" else "")
    ensures text[|text| - 1] == ')' <==> time.Floor >= 24
  {
    var parsed := ParseClock(DecimalToTimeString(time, true)).value;
    assert parsed == DecimalToClock(time, true);
    var dial := TwelveHourText(parsed);
    DialEndsInM(parsed);
    var suffix := if time.Floor >= 24 then " (next day)" else "";
    assert (dial + suffix)[..|dial|] == dial;
    dial + suffix
  }

  lemma DialEndsInM(hm: HourMinute)
    ensures |TwelveHourText(hm)| >= 2 && TwelveHourText(hm)[|TwelveHourText(hm)| - 1] == 'M'
  {
  }
}
