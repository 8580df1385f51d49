/**
 * The sensitivity slider of src/components/SensitivitySlider.tsx: slider
 * levels 1..5 stand for caffeine half-lives of 3..7 hours, each with a label.
 */
module Sensitivity {
  import opened Wrappers

  const MinLevel: int := 1
  const MaxLevel: int := 5

  const SensitivityLabels: seq<string> := [
    "Very Tolerant",
    "Somewhat Tolerant",
    "Average",
    "Somewhat Sensitive",
    "Very Sensitive"
  ]

  /** `sensitivityToHours`: a slider level to a half-life in hours. */
  function SensitivityToHours(level: int): (hours: int)
    ensures MinLevel <= level <= MaxLevel <==> 3 <= hours <= 7
    ensures level == MinLevel ==> hours == 3
    ensures level == MaxLevel ==> hours == 7
  {
    level + 2
  }

  /** `hoursToSensitivity`: a half-life in hours to the slider level. */
  function HoursToSensitivity(hours: int): (level: int)
    ensures 3 <= hours <= 7 <==> MinLevel <= level <= MaxLevel
    ensures hours == 3 ==> level == MinLevel
    ensures hours == 7 ==> level == MaxLevel
  {
    hours - 2
  }

  /** The two maps undo each other, both ways round. */
  lemma MapsInverse(level: int, hours: int)
    ensures HoursToSensitivity(SensitivityToHours(level)) == level
    ensures SensitivityToHours(HoursToSensitivity(hours)) == hours
  {
  }

  /** A higher slider level means a longer half-life: each step adds exactly one hour. */
  lemma LevelsAddHours(a: int, b: int)
    requires a <= b
    ensures SensitivityToHours(b) - SensitivityToHours(a) == b - a
    ensures a < b ==> SensitivityToHours(a) < SensitivityToHours(b)
  {
  }

  /** `sensitivityLabels[sensitivityLevel - 1]` for a half-life; None where the index falls outside the list (undefined in the source). */
  function SensitivityLabel(hours: int): (shown: Option<string>)
    ensures shown.Some? <==> 3 <= hours <= 7
    ensures shown.Some? ==> shown.value in SensitivityLabels
    ensures 3 <= hours <= 7 ==> shown == Some(SensitivityLabels[hours - 3])
    ensures hours == 3 ==> shown == Some("Very Tolerant")
    ensures hours == 7 ==> shown == Some("Very Sensitive")
  {
    var index := HoursToSensitivity(hours) - 1;
    if 0 <= index < |SensitivityLabels| then Some(SensitivityLabels[index]) else None
  }

  /** Different half-lives on the slider show different labels; 5 hours shows "Average". */
  lemma LabelsTellHalfLivesApart(a: int, b: int)
    requires 3 <= a <= 7 && 3 <= b <= 7 && a != b
    ensures SensitivityLabel(a) != SensitivityLabel(b)
    ensures SensitivityLabel(5) == Some("Average")
  {
    assert forall i, j :: 0 <= i < j < |SensitivityLabels| ==> SensitivityLabels[i] != SensitivityLabels[j];
  }

  /**
   * `handleChange`: the level reaches the parent as a half-life, which the
   * slider shows back at that level; a level of the slider's 1..5 gives 3..7
   * hours, which has a label.
   */
  function HandleChange(newLevel: int): (emitted: int)
    ensures HoursToSensitivity(emitted) == newLevel
    ensures MinLevel <= newLevel <= MaxLevel <==> 3 <= emitted <= 7
    ensures MinLevel <= newLevel <= MaxLevel ==> SensitivityLabel(emitted).Some? && emitted > 0
  {
    SensitivityToHours(newLevel)
  }
}
