/**
 * The weight stepper of src/components/WeightSelector.tsx: minus and plus move
 * the weight by 5 lb, and a change that would leave 100..300 lb is ignored.
 */
module WeightSelector {
  import opened Wrappers

  const MinWeight: int := 100
  const MaxWeight: int := 300
  const WeightStep: int := 5

  /** What `handleWeightChange` hands to `onChange`, if anything. */
  function WeightChange(value: int, change: int): (emitted: Option<int>)
    ensures emitted.Some? ==> MinWeight <= emitted.value <= MaxWeight && emitted.value == value + change
    ensures emitted.None? <==> value + change < MinWeight || value + change > MaxWeight
  {
    var newWeight := value + change;
    if newWeight >= MinWeight && newWeight <= MaxWeight then Some(newWeight) else None
  }

  /** On the 5 lb grid, a button emits exactly when it is not disabled, and emits a weight on the grid. */
  lemma ButtonsMatchGuard(value: int)
    requires MinWeight <= value <= MaxWeight && value % WeightStep == 0
    ensures WeightChange(value, -WeightStep).Some? <==> !(value <= MinWeight)
    ensures WeightChange(value, WeightStep).Some? <==> !(value >= MaxWeight)
    ensures WeightChange(value, -WeightStep).Some? ==> WeightChange(value, -WeightStep).value % WeightStep == 0
    ensures WeightChange(value, WeightStep).Some? ==> WeightChange(value, WeightStep).value % WeightStep == 0
  {
    var k := value / WeightStep;
    assert value == WeightStep * k;
    assert value > MinWeight ==> k >= 21;
    assert value < MaxWeight ==> k <= 59;
    assert value - WeightStep == WeightStep * (k - 1);
    assert value + WeightStep == WeightStep * (k + 1);
  }

  /** The selector with the weight it shows (the parent's state, written back through `onChange`). */
  class Selector {
    var value: int

    constructor(weight: int)
      ensures value == weight
    {
      value := weight;
    }

    predicate Valid()
      reads this
    {
      MinWeight <= value <= MaxWeight
    }

    /** `handleWeightChange`: `onChange` receives the new weight only when it stays in range. */
    method HandleWeightChange(change: int) returns (emitted: Option<int>)
      modifies this
      ensures emitted == WeightChange(old(value), change)
      ensures value == emitted.GetOr(old(value))
      ensures emitted.Some? ==> MinWeight <= value <= MaxWeight
      ensures old(Valid()) ==> Valid()
    {
      var newWeight := value + change;
      if newWeight >= MinWeight && newWeight <= MaxWeight {
        emitted := Some(newWeight);
        value := newWeight;
      } else {
        emitted := None;
      }
    }

    /** The minus button: 5 lb less. */
    method Minus() returns (emitted: Option<int>)
      modifies this
      ensures emitted == WeightChange(old(value), -WeightStep)
      ensures emitted.Some? ==> emitted.value == old(value) - WeightStep && value == emitted.value
      ensures emitted.None? ==> value == old(value)
      ensures old(Valid()) ==> Valid()
    {
      emitted := HandleWeightChange(-WeightStep);
    }

    /** The plus button: 5 lb more. */
    method Plus() returns (emitted: Option<int>)
      modifies this
      ensures emitted == WeightChange(old(value), WeightStep)
      ensures emitted.Some? ==> emitted.value == old(value) + WeightStep && value == emitted.value
      ensures emitted.None? ==> value == old(value)
      ensures old(Valid()) ==> Valid()
    {
      emitted := HandleWeightChange(WeightStep);
    }

    /** The minus button's `disabled`: on the 5 lb grid, set exactly when minus would emit nothing. */
    function MinusDisabled(): (disabled: bool)
      reads this
      ensures Valid() && value % WeightStep == 0 ==> (disabled <==> WeightChange(value, -WeightStep).None?)
    {
      if Valid() && value % WeightStep == 0 then
        ButtonsMatchGuard(value);
        value <= MinWeight
      else
        value <= MinWeight
    }

    /** The plus button's `disabled`: on the 5 lb grid, set exactly when plus would emit nothing. */
    function PlusDisabled(): (disabled: bool)
      reads this
      ensures Valid() && value % WeightStep == 0 ==> (disabled <==> WeightChange(value, WeightStep).None?)
    {
      if Valid() && value % WeightStep == 0 then
        ButtonsMatchGuard(value);
        value >= MaxWeight
      else
        value >= MaxWeight
    }
  }
}
