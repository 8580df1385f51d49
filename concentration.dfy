/**
 * The pharmacokinetic model of src/utils/getCaffeineConcentration.ts: per-drink
 * contribution in three phases (nothing before a 0.1 h absorption lag, linear
 * infusion over the drink's duration, exponential elimination afterwards) and
 * the validated sum over all drinks at one instant.
 *
 * `Math.exp` and `Math.log` are not computed: they are a `Transcendental`
 * value passed in, about which only the facts in `Lawful` are known.
 */
module Concentration {
  import opened Wrappers
  import opened Format

  const AbsorptionDelayHrs: real := 0.1
  const VolumeDistributionFactor: real := 0.6
  const LbsToKg: real := 0.453592
  const DefaultWeightLbs: real := 155.0

  /** The drink record the calculator takes: start "HH:mm", dose in mg, duration in hours. */
  datatype CalcDrink = CalcDrink(startTime: string, doseMg: real, drinkDurationHrs: real)

  /** Stand-ins for `Math.exp` and `Math.log`. */
  datatype Transcendental = Transcendental(exp: real -> real, log: real -> real)

  /** What the model assumes of them: exp is positive, strictly increasing, exp(0) = 1; ln 2 is about 0.693. */
  ghost predicate Lawful(m: Transcendental) {
    && (forall x :: m.exp(x) > 0.0)
    && m.exp(0.0) == 1.0
    && (forall x, y :: x < y ==> m.exp(x) < m.exp(y))
    && 0.69 < m.log(2.0) < 0.7
  }

  /** The errors the calculator throws, one per validation check. */
  datatype ConcError =
    | HalfLifeNotPositive
    | WeightNotPositive
    | InvalidTime(cause: TimeError)
    | DoseNotPositive
    | DurationNotPositive

  /** Where a drink stands `t` hours after its start, with the elapsed time of its phase. */
  datatype Phase = BeforeAbsorption | Infusion(elapsed: real) | Elimination(elapsed: real)

  function PhaseAt(t: real, durationHrs: real): (p: Phase)
    requires durationHrs > 0.0
    ensures p.BeforeAbsorption? <==> t < AbsorptionDelayHrs
    ensures p.Infusion? <==> AbsorptionDelayHrs <= t < AbsorptionDelayHrs + durationHrs
    ensures p.Elimination? <==> AbsorptionDelayHrs + durationHrs <= t
    ensures p.Infusion? ==> 0.0 <= p.elapsed < durationHrs && t == AbsorptionDelayHrs + p.elapsed
    ensures p.Elimination? ==> 0.0 <= p.elapsed && t == AbsorptionDelayHrs + durationHrs + p.elapsed
  {
    if t < AbsorptionDelayHrs then BeforeAbsorption
    else if t < AbsorptionDelayHrs + durationHrs then Infusion(t - AbsorptionDelayHrs)
    else Elimination(t - AbsorptionDelayHrs - durationHrs)
  }

  /** Volume of distribution in litres for a weight in pounds. */
  function VolumeOfDistribution(weightLbs: real): real {
    VolumeDistributionFactor * (weightLbs * LbsToKg)
  }

  /** Elimination rate constant ln 2 / half-life. */
  function EliminationRate(m: Transcendental, halfLifeHrs: real): real
    requires halfLifeHrs > 0.0
  {
    m.log(2.0) / halfLifeHrs
  }

  lemma PositiveQuotient(a: real, b: real)
    requires a > 0.0 && b > 0.0
    ensures a / b > 0.0
  {
  }

  lemma PositiveProduct(a: real, b: real)
    requires a > 0.0 && b > 0.0
    ensures a * b > 0.0
  {
  }

  lemma ScaleStrict(c: real, x: real, y: real)
    requires c > 0.0 && x < y
    ensures c * x < c * y
  {
  }

  /** exp(-k*e) lies in (0, 1] for e >= 0, and below 1 once e > 0. */
  lemma DecayFactor(m: Transcendental, k: real, e: real)
    requires Lawful(m) && k > 0.0 && e >= 0.0
    ensures 0.0 < m.exp(-k * e) <= 1.0
    ensures e > 0.0 ==> m.exp(-k * e) < 1.0
  {
    if e > 0.0 {
      PositiveProduct(k, e);
      assert -k * e < 0.0;
    } else {
      assert -k * e == 0.0;
    }
  }

  /**
   * The steady-state factor D / (T * Vd * k) of the infusion formula; when
   * k * T >= 1 it does not exceed D / Vd, the level elimination starts from.
   */
  function InfusionScale(doseMg: real, durationHrs: real, vd: real, k: real): (r: real)
    requires durationHrs > 0.0 && vd > 0.0 && k > 0.0
    ensures doseMg > 0.0 ==> r > 0.0
    ensures doseMg > 0.0 && k * durationHrs >= 1.0 ==> r <= doseMg / vd
  {
    PositiveProduct(durationHrs, vd);
    PositiveProduct(durationHrs * vd, k);
    if doseMg > 0.0 then
      PositiveQuotient(doseMg, durationHrs * vd * k);
      assert durationHrs * vd * k == (k * durationHrs) * vd;
      QuotientShrinksWhen(doseMg, vd, k * durationHrs);
      doseMg / (durationHrs * vd * k)
    else
      doseMg / (durationHrs * vd * k)
  }

  lemma QuotientShrinksWhen(a: real, b: real, c: real)
    requires a > 0.0 && b > 0.0 && c > 0.0
    ensures c >= 1.0 ==> a / (c * b) <= a / b
  {
    if c >= 1.0 {
      assert c * b >= b;
      assert a / (c * b) * (c * b) == a;
      assert a / b * b == a;
    }
  }

  /** Zero-order infusion: level `e` hours into absorbing dose D over T hours. */
  function InfusionLevel(m: Transcendental, e: real, doseMg: real, durationHrs: real, vd: real, k: real): real
    requires durationHrs > 0.0 && vd > 0.0 && k > 0.0
  {
    InfusionScale(doseMg, durationHrs, vd, k) * (1.0 - m.exp(-k * e))
  }

  /** First-order elimination: level `e` hours after the infusion ends. */
  function EliminationLevel(m: Transcendental, e: real, doseMg: real, vd: real, k: real): real
    requires vd > 0.0
  {
    (doseMg / vd) * m.exp(-k * e)
  }

  /** The infusion-phase value (D / (T * Vd * k)) * (1 - exp(-k * e)) is positive exactly when e > 0. */
  lemma InfusionSign(m: Transcendental, e: real, doseMg: real, durationHrs: real, vd: real, k: real)
    requires Lawful(m) && durationHrs > 0.0 && vd > 0.0 && k > 0.0 && e >= 0.0
    ensures doseMg > 0.0 ==>
      var c := InfusionLevel(m, e, doseMg, durationHrs, vd, k);
      c >= 0.0 && (c > 0.0 <==> e > 0.0)
  {
    DecayFactor(m, k, e);
    if doseMg > 0.0 {
      var scale := InfusionScale(doseMg, durationHrs, vd, k);
      if e > 0.0 {
        PositiveProduct(scale, 1.0 - m.exp(-k * e));
      } else {
        assert -k * e == 0.0;
      }
    }
  }

  /** The elimination-phase value (D / Vd) * exp(-k * e) is positive. */
  lemma EliminationSign(m: Transcendental, e: real, doseMg: real, vd: real, k: real)
    requires Lawful(m) && vd > 0.0 && k > 0.0
    ensures doseMg > 0.0 ==> EliminationLevel(m, e, doseMg, vd, k) > 0.0
  {
    if doseMg > 0.0 {
      PositiveQuotient(doseMg, vd);
      PositiveProduct(doseMg / vd, m.exp(-k * e));
    }
  }

  /** exp(-k*e) strictly decreases in e. */
  lemma DecayDecreasing(m: Transcendental, k: real, e1: real, e2: real)
    requires Lawful(m) && k > 0.0 && e1 < e2
    ensures m.exp(-k * e2) < m.exp(-k * e1)
  {
    ScaleStrict(k, e1, e2);
    assert -k * e2 == -(k * e2) && -k * e1 == -(k * e1);
    assert -k * e2 < -k * e1;
  }

  /** Concentration (mg/L) contributed by one drink `t` hours after its start. */
  function Contribution(m: Transcendental, t: real, doseMg: real, durationHrs: real, vd: real, k: real): (c: real)
    requires Lawful(m) && durationHrs > 0.0 && vd > 0.0 && k > 0.0
    ensures t < AbsorptionDelayHrs ==> c == 0.0
    ensures doseMg > 0.0 ==> (c > 0.0 <==> t > AbsorptionDelayHrs) && c >= 0.0
  {
    PositiveProduct(durationHrs, vd);
    PositiveProduct(durationHrs * vd, k);
    match PhaseAt(t, durationHrs)
    case BeforeAbsorption => 0.0
    case Infusion(e) =>
      InfusionSign(m, e, doseMg, durationHrs, vd, k);
      InfusionLevel(m, e, doseMg, durationHrs, vd, k)
    case Elimination(e) =>
      EliminationSign(m, e, doseMg, vd, k);
      EliminationLevel(m, e, doseMg, vd, k)
  }

  /** While a drink is being absorbed its contribution strictly rises. */
  lemma InfusionRises(m: Transcendental, t1: real, t2: real, doseMg: real, durationHrs: real, vd: real, k: real)
    requires Lawful(m) && durationHrs > 0.0 && vd > 0.0 && k > 0.0 && doseMg > 0.0
    requires AbsorptionDelayHrs <= t1 < t2 < AbsorptionDelayHrs + durationHrs
    ensures Contribution(m, t1, doseMg, durationHrs, vd, k) < Contribution(m, t2, doseMg, durationHrs, vd, k)
  {
    var e1, e2 := t1 - AbsorptionDelayHrs, t2 - AbsorptionDelayHrs;
    assert Contribution(m, t1, doseMg, durationHrs, vd, k) == InfusionLevel(m, e1, doseMg, durationHrs, vd, k);
    assert Contribution(m, t2, doseMg, durationHrs, vd, k) == InfusionLevel(m, e2, doseMg, durationHrs, vd, k);
    InfusionLevelRises(m, e1, e2, doseMg, durationHrs, vd, k);
  }

  lemma InfusionLevelRises(m: Transcendental, e1: real, e2: real, doseMg: real, durationHrs: real, vd: real, k: real)
    requires Lawful(m) && durationHrs > 0.0 && vd > 0.0 && k > 0.0 && doseMg > 0.0 && e1 < e2
    ensures InfusionLevel(m, e1, doseMg, durationHrs, vd, k) < InfusionLevel(m, e2, doseMg, durationHrs, vd, k)
  {
    DecayDecreasing(m, k, e1, e2);
    ScaleStrict(InfusionScale(doseMg, durationHrs, vd, k), 1.0 - m.exp(-k * e1), 1.0 - m.exp(-k * e2));
  }

  /** Once a drink is finished and absorbed its contribution strictly decays. */
  lemma EliminationDecays(m: Transcendental, t1: real, t2: real, doseMg: real, durationHrs: real, vd: real, k: real)
    requires Lawful(m) && durationHrs > 0.0 && vd > 0.0 && k > 0.0 && doseMg > 0.0
    requires AbsorptionDelayHrs + durationHrs <= t1 < t2
    ensures Contribution(m, t2, doseMg, durationHrs, vd, k) < Contribution(m, t1, doseMg, durationHrs, vd, k)
  {
    var e1, e2 := t1 - AbsorptionDelayHrs - durationHrs, t2 - AbsorptionDelayHrs - durationHrs;
    assert Contribution(m, t1, doseMg, durationHrs, vd, k) == EliminationLevel(m, e1, doseMg, vd, k);
    assert Contribution(m, t2, doseMg, durationHrs, vd, k) == EliminationLevel(m, e2, doseMg, vd, k);
    DecayDecreasing(m, k, e1, e2);
    PositiveQuotient(doseMg, vd);
    ScaleStrict(doseMg / vd, m.exp(-k * e2), m.exp(-k * e1));
  }

  /**
   * The elimination formula does not continue the infusion formula: when
   * k * T >= 1, every infusion-phase value lies strictly below the value the
   * elimination phase starts from, so the curve jumps up when a drink ends.
   */
  lemma JumpAtEndOfInfusion(m: Transcendental, t: real, doseMg: real, durationHrs: real, vd: real, k: real)
    requires Lawful(m) && durationHrs > 0.0 && vd > 0.0 && k > 0.0 && doseMg > 0.0
    requires k * durationHrs >= 1.0
    requires AbsorptionDelayHrs <= t < AbsorptionDelayHrs + durationHrs
    ensures Contribution(m, t, doseMg, durationHrs, vd, k)
          < Contribution(m, AbsorptionDelayHrs + durationHrs, doseMg, durationHrs, vd, k)
  {
    var e := t - AbsorptionDelayHrs;
    assert Contribution(m, t, doseMg, durationHrs, vd, k) == InfusionLevel(m, e, doseMg, durationHrs, vd, k);
    assert PhaseAt(AbsorptionDelayHrs + durationHrs, durationHrs) == Elimination(0.0);
    assert Contribution(m, AbsorptionDelayHrs + durationHrs, doseMg, durationHrs, vd, k)
        == EliminationLevel(m, 0.0, doseMg, vd, k);
    InfusionBelowPeak(m, e, doseMg, durationHrs, vd, k);
  }

  lemma InfusionBelowPeak(m: Transcendental, e: real, doseMg: real, durationHrs: real, vd: real, k: real)
    requires Lawful(m) && durationHrs > 0.0 && vd > 0.0 && k > 0.0 && doseMg > 0.0
    requires k * durationHrs >= 1.0 && e >= 0.0
    ensures InfusionLevel(m, e, doseMg, durationHrs, vd, k) < EliminationLevel(m, 0.0, doseMg, vd, k)
  {
    var scale := InfusionScale(doseMg, durationHrs, vd, k);
    DecayFactor(m, k, e);
    ScaleStrict(scale, 1.0 - m.exp(-k * e), 1.0);
    assert -k * 0.0 == 0.0;
    assert EliminationLevel(m, 0.0, doseMg, vd, k) == doseMg / vd;
  }

  predicate DrinkValid(d: CalcDrink) {
    d.doseMg > 0.0 && d.drinkDurationHrs > 0.0 && TimeToDecimal(d.startTime).Success?
  }

  /** The error `forEach` throws for an invalid drink, checks taken in source order. */
  function DrinkError(d: CalcDrink): ConcError
    requires !DrinkValid(d)
  {
    if d.doseMg <= 0.0 then DoseNotPositive
    else if d.drinkDurationHrs <= 0.0 then DurationNotPositive
    else InvalidTime(TimeToDecimal(d.startTime).error)
  }

  /** The validation pass: the error of the first invalid drink, if any. */
  function FirstInvalid(drinks: seq<CalcDrink>): (r: Option<ConcError>)
    ensures r.None? <==> forall i :: 0 <= i < |drinks| ==> DrinkValid(drinks[i])
    ensures r.Some? ==> exists i :: 0 <= i < |drinks| && !DrinkValid(drinks[i]) && r.value == DrinkError(drinks[i])
                                 && forall j :: 0 <= j < i ==> DrinkValid(drinks[j])
  {
    if drinks == [] then None
    else if !DrinkValid(drinks[0]) then Some(DrinkError(drinks[0]))
    else
      var r := FirstInvalid(drinks[1..]);
      FirstInvalidShift(drinks, r);
      r
  }

  /** A first invalid drink of the tail, behind a valid head, is the first invalid drink of the whole list. */
  lemma FirstInvalidShift(drinks: seq<CalcDrink>, r: Option<ConcError>)
    requires drinks != [] && DrinkValid(drinks[0])
    ensures (r.Some? && exists i :: 0 <= i < |drinks[1..]| && !DrinkValid(drinks[1..][i]) && r.value == DrinkError(drinks[1..][i])
                                 && forall j :: 0 <= j < i ==> DrinkValid(drinks[1..][j]))
        ==> exists i :: 0 <= i < |drinks| && !DrinkValid(drinks[i]) && r.value == DrinkError(drinks[i])
                     && forall j :: 0 <= j < i ==> DrinkValid(drinks[j])
  {
    if r.Some? && exists i :: 0 <= i < |drinks[1..]| && !DrinkValid(drinks[1..][i]) && r.value == DrinkError(drinks[1..][i])
                            && forall j :: 0 <= j < i ==> DrinkValid(drinks[1..][j]) {
      var i :| 0 <= i < |drinks[1..]| && !DrinkValid(drinks[1..][i]) && r.value == DrinkError(drinks[1..][i])
               && forall j :: 0 <= j < i ==> DrinkValid(drinks[1..][j]);
      assert forall j :: 0 <= j < i + 1 ==> DrinkValid(drinks[j]);
      assert drinks[i + 1] == drinks[1..][i];
    }
  }

  predicate AllValid(drinks: seq<CalcDrink>) {
    forall i :: 0 <= i < |drinks| ==> DrinkValid(drinks[i])
  }

  /** One drink's contribution at decimal time `now`. */
  function DrinkContribution(m: Transcendental, now: real, d: CalcDrink, vd: real, k: real): (c: real)
    requires Lawful(m) && DrinkValid(d) && vd > 0.0 && k > 0.0
    ensures c >= 0.0
  {
    Contribution(m, now - TimeToDecimal(d.startTime).value, d.doseMg, d.drinkDurationHrs, vd, k)
  }

  /** Reference definition: the plain sum of all drinks' contributions. */
  function SumOf(m: Transcendental, now: real, drinks: seq<CalcDrink>, vd: real, k: real): (s: real)
    requires Lawful(m) && AllValid(drinks) && vd > 0.0 && k > 0.0
    ensures s >= 0.0
  {
    if drinks == [] then 0.0
    else DrinkContribution(m, now, drinks[0], vd, k) + SumOf(m, now, drinks[1..], vd, k)
  }

  /** `drinks.reduce((total, drink) => total + contribution, total)`, left to right. */
  function Reduce(m: Transcendental, now: real, drinks: seq<CalcDrink>, vd: real, k: real, total: real): (r: real)
    requires Lawful(m) && AllValid(drinks) && vd > 0.0 && k > 0.0
    ensures r >= total
  {
    if drinks == [] then total
    else Reduce(m, now, drinks[1..], vd, k, total + DrinkContribution(m, now, drinks[0], vd, k))
  }

  /** The left-to-right reduce computes the plain sum. */
  lemma {:induction false} ReduceIsSum(m: Transcendental, now: real, drinks: seq<CalcDrink>, vd: real, k: real, total: real)
    requires Lawful(m) && AllValid(drinks) && vd > 0.0 && k > 0.0
    ensures Reduce(m, now, drinks, vd, k, total) == total + SumOf(m, now, drinks, vd, k)
  {
    if drinks != [] {
      ReduceIsSum(m, now, drinks[1..], vd, k, total + DrinkContribution(m, now, drinks[0], vd, k));
    }
  }

  /** The verdict of the checks other than the current time's; it does not depend on that time. */
  function InputError(drinks: seq<CalcDrink>, halfLifeHrs: real, weightLbs: Option<real>): (e: Option<ConcError>)
    ensures e.None? <==> halfLifeHrs > 0.0 && weightLbs.GetOr(DefaultWeightLbs) > 0.0 && AllValid(drinks)
    ensures halfLifeHrs <= 0.0 ==> e == Some(HalfLifeNotPositive)
  {
    if halfLifeHrs <= 0.0 then Some(HalfLifeNotPositive)
    else if weightLbs.GetOr(DefaultWeightLbs) <= 0.0 then Some(WeightNotPositive)
    else FirstInvalid(drinks)
  }

  /** `getTotalCaffeineConcentration`: validate, then reduce over the drinks from 0. */
  function GetTotalCaffeineConcentration(m: Transcendental, currentTime: string, drinks: seq<CalcDrink>,
                                         halfLifeHrs: real, weightLbs: Option<real>): (r: Result<real, ConcError>)
    requires Lawful(m)
    ensures halfLifeHrs <= 0.0 ==> r == Failure(HalfLifeNotPositive)
    ensures halfLifeHrs > 0.0 && weightLbs.GetOr(DefaultWeightLbs) <= 0.0 ==> r == Failure(WeightNotPositive)
    ensures halfLifeHrs > 0.0 && weightLbs.GetOr(DefaultWeightLbs) > 0.0 && TimeToDecimal(currentTime).Failure? ==>
              r == Failure(InvalidTime(TimeToDecimal(currentTime).error))
    ensures TimeToDecimal(currentTime).Success? ==>
              (r.Failure? <==> InputError(drinks, halfLifeHrs, weightLbs).Some?) &&
              (r.Failure? ==> r.error == InputError(drinks, halfLifeHrs, weightLbs).value)
    ensures r.Success? ==>
              && halfLifeHrs > 0.0 && weightLbs.GetOr(DefaultWeightLbs) > 0.0
              && TimeToDecimal(currentTime).Success? && AllValid(drinks)
              && r.value == SumOf(m, TimeToDecimal(currentTime).value, drinks,
                                  VolumeOfDistribution(weightLbs.GetOr(DefaultWeightLbs)), EliminationRate(m, halfLifeHrs))
              && r.value >= 0.0
    ensures r.Success? && drinks == [] ==> r.value == 0.0
  {
    var w := weightLbs.GetOr(DefaultWeightLbs);
    if halfLifeHrs <= 0.0 then Failure(HalfLifeNotPositive)
    else if w <= 0.0 then Failure(WeightNotPositive)
    else match TimeToDecimal(currentTime)
      case Failure(e) => Failure(InvalidTime(e))
      case Success(now) =>
        match FirstInvalid(drinks)
        case Some(e) => Failure(e)
        case None =>
          var vd := VolumeOfDistribution(w);
          var k := EliminationRate(m, halfLifeHrs);
          PositiveProduct(w, LbsToKg);
          PositiveQuotient(m.log(2.0), halfLifeHrs);
          ReduceIsSum(m, now, drinks, vd, k, 0.0);
          Success(Reduce(m, now, drinks, vd, k, 0.0))
  }

  /** An omitted weight is the default 155 lbs. */
  lemma WeightDefaultsTo155(m: Transcendental, currentTime: string, drinks: seq<CalcDrink>, halfLifeHrs: real)
    requires Lawful(m)
    ensures GetTotalCaffeineConcentration(m, currentTime, drinks, halfLifeHrs, None)
         == GetTotalCaffeineConcentration(m, currentTime, drinks, halfLifeHrs, Some(155.0))
  {
  }

  /**
   * Once half-life, weight and clock pass, the call fails exactly when some
   * drink is invalid, and then with the error of the first invalid drink.
   */
  lemma FailsOnFirstInvalidDrink(m: Transcendental, currentTime: string, drinks: seq<CalcDrink>,
                                 halfLifeHrs: real, weightLbs: Option<real>)
    requires Lawful(m)
    requires halfLifeHrs > 0.0 && weightLbs.GetOr(DefaultWeightLbs) > 0.0 && TimeToDecimal(currentTime).Success?
    ensures var r := GetTotalCaffeineConcentration(m, currentTime, drinks, halfLifeHrs, weightLbs);
            && (r.Success? <==> AllValid(drinks))
            && (r.Failure? ==> exists i :: 0 <= i < |drinks| && !DrinkValid(drinks[i]) && r.error == DrinkError(drinks[i])
                                        && forall j :: 0 <= j < i ==> DrinkValid(drinks[j]))
  {
  }

  lemma {:induction false} SumOfAppend(m: Transcendental, now: real, a: seq<CalcDrink>, b: seq<CalcDrink>, vd: real, k: real)
    requires Lawful(m) && AllValid(a) && AllValid(b) && vd > 0.0 && k > 0.0
    ensures AllValid(a + b)
    ensures SumOf(m, now, a + b, vd, k) == SumOf(m, now, a, vd, k) + SumOf(m, now, b, vd, k)
  {
    if a != [] {
      assert (a + b)[1..] == a[1..] + b;
      SumOfAppend(m, now, a[1..], b, vd, k);
    } else {
      assert a + b == b;
    }
  }

  /** Taking one drink out of the list takes exactly its contribution out of the sum. */
  lemma SumOfRemove(m: Transcendental, now: real, b: seq<CalcDrink>, i: nat, vd: real, k: real)
    requires Lawful(m) && AllValid(b) && vd > 0.0 && k > 0.0 && i < |b|
    ensures AllValid(b[..i] + b[i + 1..])
    ensures SumOf(m, now, b, vd, k) == DrinkContribution(m, now, b[i], vd, k) + SumOf(m, now, b[..i] + b[i + 1..], vd, k)
  {
    assert AllValid(b[..i]) && AllValid(b[i + 1..]) && AllValid(b[i..]);
    SumOfAppend(m, now, b[..i], b[i + 1..], vd, k);
    assert b[..i] + b[i..] == b;
    SumOfAppend(m, now, b[..i], b[i..], vd, k);
    assert b[i..][1..] == b[i + 1..];
  }

  lemma PermutationKeepsValid(a: seq<CalcDrink>, b: seq<CalcDrink>)
    requires AllValid(a) && multiset(a) == multiset(b)
    ensures AllValid(b)
  {
    forall i | 0 <= i < |b| ensures DrinkValid(b[i]) {
      assert b[i] in multiset(a);
    }
  }

  lemma RemoveMatching<T>(a: seq<T>, b: seq<T>, i: nat)
    requires a != [] && i < |b| && b[i] == a[0] && multiset(a) == multiset(b)
    ensures multiset(a[1..]) == multiset(b[..i] + b[i + 1..])
  {
    assert b == b[..i] + [b[i]] + b[i + 1..];
    assert multiset(b) == multiset(b[..i]) + multiset{b[i]} + multiset(b[i + 1..]);
    assert a == [a[0]] + a[1..];
    assert multiset(a) == multiset{a[0]} + multiset(a[1..]);
    assert multiset(b[..i] + b[i + 1..]) == multiset(b[..i]) + multiset(b[i + 1..]);
    assert multiset(a[1..]) == multiset(a) - multiset{a[0]};
    assert multiset(b[..i] + b[i + 1..]) == multiset(b) - multiset{b[i]};
  }

  /** Summing the drinks in any order gives the same total. */
  lemma {:induction false} SumOfPermutation(m: Transcendental, now: real, a: seq<CalcDrink>, b: seq<CalcDrink>, vd: real, k: real)
    requires Lawful(m) && AllValid(a) && vd > 0.0 && k > 0.0
    requires multiset(a) == multiset(b)
    ensures AllValid(b)
    ensures SumOf(m, now, a, vd, k) == SumOf(m, now, b, vd, k)
    decreases |a|
  {
    PermutationKeepsValid(a, b);
    if a == [] {
      assert |b| == |multiset(b)| == 0;
    } else {
      assert a[0] in multiset(b);
      var i :| 0 <= i < |b| && b[i] == a[0];
      RemoveMatching(a, b, i);
      SumOfPermutation(m, now, a[1..], b[..i] + b[i + 1..], vd, k);
      SumOfRemove(m, now, b, i, vd, k);
    }
  }

  /**
   * Whether the calculator succeeds does not depend on the order of the drink
   * list, and a successful total does not either. (On failure the reported
   * error may differ: it is that of the first invalid drink in the list.)
   */
  lemma TotalIgnoresDrinkOrder(m: Transcendental, currentTime: string, a: seq<CalcDrink>, b: seq<CalcDrink>,
                               halfLifeHrs: real, weightLbs: Option<real>)
    requires Lawful(m) && multiset(a) == multiset(b)
    ensures GetTotalCaffeineConcentration(m, currentTime, b, halfLifeHrs, weightLbs).Success?
        == GetTotalCaffeineConcentration(m, currentTime, a, halfLifeHrs, weightLbs).Success?
    ensures GetTotalCaffeineConcentration(m, currentTime, a, halfLifeHrs, weightLbs).Success? ==>
              (GetTotalCaffeineConcentration(m, currentTime, b, halfLifeHrs, weightLbs)
               == GetTotalCaffeineConcentration(m, currentTime, a, halfLifeHrs, weightLbs))
  {
    if GetTotalCaffeineConcentration(m, currentTime, a, halfLifeHrs, weightLbs).Success? {
      SuccessfulTotalIgnoresOrder(m, currentTime, a, b, halfLifeHrs, weightLbs);
    } else if GetTotalCaffeineConcentration(m, currentTime, b, halfLifeHrs, weightLbs).Success? {
      SuccessfulTotalIgnoresOrder(m, currentTime, b, a, halfLifeHrs, weightLbs);
    }
  }

  lemma SuccessfulTotalIgnoresOrder(m: Transcendental, currentTime: string, a: seq<CalcDrink>, b: seq<CalcDrink>,
                                    halfLifeHrs: real, weightLbs: Option<real>)
    requires Lawful(m) && multiset(a) == multiset(b)
    requires GetTotalCaffeineConcentration(m, currentTime, a, halfLifeHrs, weightLbs).Success?
    ensures GetTotalCaffeineConcentration(m, currentTime, b, halfLifeHrs, weightLbs)
         == GetTotalCaffeineConcentration(m, currentTime, a, halfLifeHrs, weightLbs)
  {
    var vd := VolumeOfDistribution(weightLbs.GetOr(DefaultWeightLbs));
    PositiveProduct(weightLbs.GetOr(DefaultWeightLbs), LbsToKg);
    PositiveQuotient(m.log(2.0), halfLifeHrs);
    SumOfPermutation(m, TimeToDecimal(currentTime).value, a, b, vd, EliminationRate(m, halfLifeHrs));
  }

  /** Drink lists add up: the total for a ++ b is the total for a plus the total for b. */
  lemma TotalIsAdditive(m: Transcendental, currentTime: string, a: seq<CalcDrink>, b: seq<CalcDrink>,
                        halfLifeHrs: real, weightLbs: Option<real>)
    requires Lawful(m)
    requires GetTotalCaffeineConcentration(m, currentTime, a, halfLifeHrs, weightLbs).Success?
    requires GetTotalCaffeineConcentration(m, currentTime, b, halfLifeHrs, weightLbs).Success?
    ensures GetTotalCaffeineConcentration(m, currentTime, a + b, halfLifeHrs, weightLbs).Success?
    ensures GetTotalCaffeineConcentration(m, currentTime, a + b, halfLifeHrs, weightLbs).value
         == GetTotalCaffeineConcentration(m, currentTime, a, halfLifeHrs, weightLbs).value
          + GetTotalCaffeineConcentration(m, currentTime, b, halfLifeHrs, weightLbs).value
  {
    var vd := VolumeOfDistribution(weightLbs.GetOr(DefaultWeightLbs));
    PositiveProduct(weightLbs.GetOr(DefaultWeightLbs), LbsToKg);
    PositiveQuotient(m.log(2.0), halfLifeHrs);
    SumOfAppend(m, TimeToDecimal(currentTime).value, a, b, vd, EliminationRate(m, halfLifeHrs));
  }

  /** The combined level is at least any single drink's own contribution. */
  lemma {:induction false} SumDominatesEachDrink(m: Transcendental, now: real, drinks: seq<CalcDrink>, vd: real, k: real, i: nat)
    requires Lawful(m) && AllValid(drinks) && vd > 0.0 && k > 0.0 && i < |drinks|
    ensures SumOf(m, now, drinks, vd, k) >= DrinkContribution(m, now, drinks[i], vd, k)
  {
    if i > 0 {
      SumDominatesEachDrink(m, now, drinks[1..], vd, k, i - 1);
    }
  }

  predicate AllEliminating(now: real, drinks: seq<CalcDrink>)
    requires AllValid(drinks)
  {
    forall i :: 0 <= i < |drinks| ==>
      now - TimeToDecimal(drinks[i].startTime).value >= AbsorptionDelayHrs + drinks[i].drinkDurationHrs
  }

  /** Once every drink is past its infusion, the total strictly falls over time. */
  lemma {:induction false} TotalDecaysAfterAllInfusions(m: Transcendental, t1: real, t2: real, drinks: seq<CalcDrink>, vd: real, k: real)
    requires Lawful(m) && AllValid(drinks) && vd > 0.0 && k > 0.0
    requires drinks != [] && t1 < t2 && AllEliminating(t1, drinks)
    ensures SumOf(m, t2, drinks, vd, k) < SumOf(m, t1, drinks, vd, k)
  {
    var d := drinks[0];
    var start := TimeToDecimal(d.startTime).value;
    EliminationDecays(m, t1 - start, t2 - start, d.doseMg, d.drinkDurationHrs, vd, k);
    if |drinks| > 1 {
      assert AllEliminating(t1, drinks[1..]) by {
        forall i | 0 <= i < |drinks[1..]|
          ensures t1 - TimeToDecimal(drinks[1..][i].startTime).value >= AbsorptionDelayHrs + drinks[1..][i].drinkDurationHrs
        {
          assert drinks[1..][i] == drinks[i + 1];
        }
      }
      TotalDecaysAfterAllInfusions(m, t1, t2, drinks[1..], vd, k);
    } else {
      assert drinks[1..] == [];
    }
  }
}
