/**
 * The top-level state of src/App.tsx: the logged drinks, the half-life the
 * sensitivity slider sets and the body weight. Drinks are appended by the
 * form and removed by id from the list.
 */
module App {
  import opened Wrappers
  import opened Drinks
  import C = Concentration
  import Curve

  const InitialSensitivity: int := 5
  const InitialWeightLbs: int := 155

  /** `prev.filter(drink => drink.id !== drinkId)`. */
  function WithoutId(drinks: seq<Drink>, id: string): (r: seq<Drink>)
    ensures |r| <= |drinks|
    ensures forall d :: d in r <==> d in drinks && d.id != id
  {
    if drinks == [] then []
    else if drinks[0].id == id then WithoutId(drinks[1..], id)
    else
      var rest := WithoutId(drinks[1..], id);
      assert forall d :: d in drinks <==> d == drinks[0] || d in drinks[1..];
      [drinks[0]] + rest
  }

  /** Filtering distributes over concatenation: the kept drinks keep their order. */
  lemma {:induction false} WithoutIdAppend(a: seq<Drink>, b: seq<Drink>, id: string)
    ensures WithoutId(a + b, id) == WithoutId(a, id) + WithoutId(b, id)
  {
    if a == [] {
      assert a + b == b;
    } else {
      assert (a + b)[0] == a[0];
      assert (a + b)[1..] == a[1..] + b;
      WithoutIdAppend(a[1..], b, id);
      if a[0].id != id {
        assert [a[0]] + (WithoutId(a[1..], id) + WithoutId(b, id)) == ([a[0]] + WithoutId(a[1..], id)) + WithoutId(b, id);
      }
    }
  }

  /** Deleting an id that no drink has leaves the list as it is. */
  lemma {:induction false} WithoutAbsentId(drinks: seq<Drink>, id: string)
    requires forall i :: 0 <= i < |drinks| ==> drinks[i].id != id
    ensures WithoutId(drinks, id) == drinks
  {
    if drinks != [] {
      WithoutAbsentId(drinks[1..], id);
    }
  }

  /** Deleting twice is deleting once. */
  lemma WithoutIdIdempotent(drinks: seq<Drink>, id: string)
    ensures WithoutId(WithoutId(drinks, id), id) == WithoutId(drinks, id)
  {
    var r := WithoutId(drinks, id);
    assert forall i :: 0 <= i < |r| ==> r[i] in r;
    WithoutAbsentId(r, id);
  }

  /** Adding a drink whose id is new and then deleting that id restores the list. */
  lemma AddThenDelete(drinks: seq<Drink>, d: Drink)
    requires forall i :: 0 <= i < |drinks| ==> drinks[i].id != d.id
    ensures WithoutId(drinks + [d], d.id) == drinks
  {
    WithoutIdAppend(drinks, [d], d.id);
    WithoutAbsentId(drinks, d.id);
    assert WithoutId([d], d.id) == [];
  }

  /** Drinks the calculator accepts, under a half-life and a weight it accepts, leave it nothing to reject. */
  lemma ChartInputsAccepted(drinks: seq<Drink>, sensitivity: int, weightLbs: int)
    requires forall i :: 0 <= i < |drinks| ==> C.DrinkValid(Curve.ConvertDrink(drinks[i]))
    requires sensitivity > 0 && weightLbs > 0
    ensures C.InputError(Curve.ConvertAll(drinks), sensitivity as real, Some(weightLbs as real)).None?
  {
    var cs := Curve.ConvertAll(drinks);
    assert forall i :: 0 <= i < |cs| ==> C.DrinkValid(cs[i]);
  }

  /** The application's state. */
  class AppState {
    var drinks: seq<Drink>
    var sensitivity: int
    var weightLbs: int

    /** Every logged drink passes the calculator's checks, and the settings are on their controls' ranges. */
    predicate Valid()
      reads this
    {
      && (forall i :: 0 <= i < |drinks| ==> C.DrinkValid(Curve.ConvertDrink(drinks[i])))
      && 3 <= sensitivity <= 7
      && 100 <= weightLbs <= 300
    }

    /** No drinks, a 5-hour half-life and 155 lb, the calculator's own default weight. */
    constructor()
      ensures drinks == [] && sensitivity == InitialSensitivity && weightLbs == InitialWeightLbs
      ensures weightLbs as real == C.DefaultWeightLbs
      ensures Valid()
    {
      drinks := [];
      sensitivity := InitialSensitivity;
      weightLbs := InitialWeightLbs;
    }

    /** `handleAddDrink`: the drink goes at the end; the earlier entries stay as they were. */
    method HandleAddDrink(drink: Drink)
      modifies this
      ensures drinks == old(drinks) + [drink]
      ensures sensitivity == old(sensitivity) && weightLbs == old(weightLbs)
      ensures old(Valid()) && C.DrinkValid(Curve.ConvertDrink(drink)) ==> Valid()
    {
      drinks := drinks + [drink];
    }

    /** `handleDeleteDrink`: every drink with that id goes, the others stay in order. */
    method HandleDeleteDrink(drinkId: string)
      modifies this
      ensures drinks == WithoutId(old(drinks), drinkId)
      ensures sensitivity == old(sensitivity) && weightLbs == old(weightLbs)
      ensures old(Valid()) ==> Valid()
    {
      drinks := WithoutId(drinks, drinkId);
    }

    /** The slider's `onChange` (`setSensitivity`). */
    method SetSensitivity(hours: int)
      modifies this
      ensures sensitivity == hours
      ensures drinks == old(drinks) && weightLbs == old(weightLbs)
      ensures old(Valid()) && 3 <= hours <= 7 ==> Valid()
    {
      sensitivity := hours;
    }

    /** The weight selector's `onChange` (`setWeightLbs`). */
    method SetWeightLbs(weight: int)
      modifies this
      ensures weightLbs == weight
      ensures drinks == old(drinks) && sensitivity == old(sensitivity)
      ensures old(Valid()) && 100 <= weight <= 300 ==> Valid()
    {
      weightLbs := weight;
    }

    /** In a valid state the drinks and settings handed to the chart leave its calculator nothing to reject. */
    lemma ChartAcceptsState()
      requires Valid()
      ensures C.InputError(Curve.ConvertAll(drinks), sensitivity as real, Some(weightLbs as real)).None?
    {
      ChartInputsAccepted(drinks, sensitivity, weightLbs);
    }
  }
}
