/** The drink record of src/types/Drink.ts and the preset catalog the form looks drinks up in. */
module Drinks {
  import opened Wrappers

  /** A logged drink (the source field `label` is `name` here): start time "HH:mm" (24 h), caffeine in mg, consumption time in minutes. */
  datatype Drink = Drink(id: string, name: string, caffeineMg: int, time: string, durationMin: int)

  /** A catalog entry. */
  datatype Preset = Preset(id: string, name: string, caffeineMg: int)

  const PredefinedDrinks: seq<Preset> := [
    Preset("espresso-1oz", "Espresso Shot - 1oz", 64),
    Preset("drip-8oz", "Drip Coffee - 8oz", 95),
    Preset("drip-12oz", "Drip Coffee - 12oz", 140),
    Preset("drip-16oz", "Drip Coffee - 16oz", 190),
    Preset("drip-20oz", "Drip Coffee - 20oz", 240),
    Preset("latte-8oz", "Latte - 8oz", 64),
    Preset("latte-12oz", "Latte - 12oz", 64),
    Preset("latte-16oz", "Latte - 16oz", 128),
    Preset("latte-20oz", "Latte - 20oz", 128),
    Preset("black-tea-1bag", "Black Tea - 1 bag", 47),
    Preset("black-tea-2bag", "Black Tea - 2 bags", 94),
    Preset("black-tea-3bag", "Black Tea - 3 bags", 141),
    Preset("green-tea-1bag", "Green Tea - 1 bag", 28),
    Preset("green-tea-2bag", "Green Tea - 2 bags", 56),
    Preset("green-tea-3bag", "Green Tea - 3 bags", 84),
    Preset("redbull-8.4oz", "Red Bull - 8.4oz", 80),
    Preset("redbull-12oz", "Red Bull - 12oz", 114),
    Preset("redbull-16oz", "Red Bull - 16oz", 151),
    Preset("redbull-20oz", "Red Bull - 20oz", 198)
  ]

  /** `presets.find(d => d.id === id)`: the first entry with that id, if any. */
  function FindPreset(presets: seq<Preset>, id: string): (r: Option<Preset>)
    ensures r.None? <==> forall i :: 0 <= i < |presets| ==> presets[i].id != id
    ensures r.Some? ==> exists i :: 0 <= i < |presets| && presets[i] == r.value && r.value.id == id
                                 && forall j :: 0 <= j < i ==> presets[j].id != id
  {
    if presets == [] then None
    else if presets[0].id == id then Some(presets[0])
    else
      var r := FindPreset(presets[1..], id);
      FindShift(presets, id, r);
      r
  }

  lemma FindShift(presets: seq<Preset>, id: string, r: Option<Preset>)
    requires presets != [] && presets[0].id != id
    ensures (r.Some? && exists i :: 0 <= i < |presets[1..]| && presets[1..][i] == r.value && r.value.id == id
                                  && forall j :: 0 <= j < i ==> presets[1..][j].id != id)
        ==> exists i :: 0 <= i < |presets| && presets[i] == r.value && r.value.id == id
                      && forall j :: 0 <= j < i ==> presets[j].id != id
  {
    if r.Some? && exists i :: 0 <= i < |presets[1..]| && presets[1..][i] == r.value && r.value.id == id
                             && forall j :: 0 <= j < i ==> presets[1..][j].id != id {
      var i :| 0 <= i < |presets[1..]| && presets[1..][i] == r.value && r.value.id == id
               && forall j :: 0 <= j < i ==> presets[1..][j].id != id;
      assert presets[i + 1] == presets[1..][i];
      assert forall j :: 0 <= j < i + 1 ==> presets[j].id != id;
    }
  }

  predicate DistinctIds(presets: seq<Preset>) {
    forall i, j :: 0 <= i < j < |presets| ==> presets[i].id != presets[j].id
  }

  /** With distinct ids, looking up an entry's id finds that entry. */
  lemma FindPresetOfMember(presets: seq<Preset>, i: nat)
    requires DistinctIds(presets) && i < |presets|
    ensures FindPreset(presets, presets[i].id) == Some(presets[i])
  {
    var r := FindPreset(presets, presets[i].id);
    var k :| 0 <= k < |presets| && presets[k] == r.value && r.value.id == presets[i].id
             && forall j :: 0 <= j < k ==> presets[j].id != presets[i].id;
    assert k == i;
  }

  /** No two catalog entries share an id. */
  lemma CatalogIdsDistinct()
    ensures DistinctIds(PredefinedDrinks)
  {
    forall i, j | 0 <= i < j < |PredefinedDrinks|
      ensures PredefinedDrinks[i].id != PredefinedDrinks[j].id
    {
      CatalogKeysLocate(i);
      CatalogKeysLocate(j);
    }
  }

  /** Three characters that already tell the catalog ids apart. */
  function IdKey(id: string): (char, char, char)
    requires |id| >= 4
  {
    (id[0], id[|id| - 3], id[|id| - 4])
  }

  /** The position in the catalog of the entry with a given key, or -1. */
  function KeyPosition(k: (char, char, char)): int {
    if k == ('e', '1', '-') then 0
    else if k == ('d', '8', '-') then 1
    else if k == ('d', '2', '1') then 2
    else if k == ('d', '6', '1') then 3
    else if k == ('d', '0', '2') then 4
    else if k == ('l', '8', '-') then 5
    else if k == ('l', '2', '1') then 6
    else if k == ('l', '6', '1') then 7
    else if k == ('l', '0', '2') then 8
    else if k == ('b', 'b', '1') then 9
    else if k == ('b', 'b', '2') then 10
    else if k == ('b', 'b', '3') then 11
    else if k == ('g', 'b', '1') then 12
    else if k == ('g', 'b', '2') then 13
    else if k == ('g', 'b', '3') then 14
    else if k == ('r', '4', '.') then 15
    else if k == ('r', '2', '1') then 16
    else if k == ('r', '6', '1') then 17
    else if k == ('r', '0', '2') then 18
    else -1
  }

  lemma CatalogKeysLocate(i: nat)
    requires i < |PredefinedDrinks|
    ensures |PredefinedDrinks[i].id| >= 4 && KeyPosition(IdKey(PredefinedDrinks[i].id)) == i
  {
    if i < 5 {
    } else if i < 10 {
    } else if i < 15 {
    } else {
    }
  }

  /** Looking up a catalog entry's id finds that entry. */
  lemma FindCatalogEntry(i: nat)
    requires i < |PredefinedDrinks|
    ensures FindPreset(PredefinedDrinks, PredefinedDrinks[i].id) == Some(PredefinedDrinks[i])
  {
    CatalogIdsDistinct();
    FindPresetOfMember(PredefinedDrinks, i);
  }

  /** Every catalog entry has a non-empty id. */
  lemma CatalogIdsNonEmpty()
    ensures forall i :: 0 <= i < |PredefinedDrinks| ==> PredefinedDrinks[i].id != ""
  {
  }

  /** Every catalog entry has a positive caffeine amount. */
  lemma CatalogCaffeinePositive()
    ensures forall i :: 0 <= i < |PredefinedDrinks| ==> PredefinedDrinks[i].caffeineMg > 0
  {
  }
}
