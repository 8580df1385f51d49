/**
 * The add-drink form of src/components/DrinkForm.tsx: it converts between the
 * 24-hour "HH:mm" text a drink stores and the picker's 12-hour components,
 * keeps a consumption time in 15-minute steps between 15 minutes and 8 hours,
 * and builds a drink from the chosen catalog entry.
 */
module DrinkForm {
  import opened Wrappers
  import opened Text
  import F = Format
  import opened TimePicker
  import opened Drinks
  import C = Concentration
  import Curve

  const DefaultTime: string := "08:00"
  const MinDuration: int := 15
  const MaxDuration: int := 480
  const DurationStep: int := 15

  /** The text `new Date("2000-01-01T" + time24)` reads as a time of day: "HH:mm", each part padded, in range. */
  predicate Is24HourText(s: string) {
    && F.ParseClock(s).Some?
    && 0 <= F.ParseClock(s).value.hours < 24
    && 0 <= F.ParseClock(s).value.minutes < 60
    && s == F.ClockText(F.ParseClock(s).value)
  }

  /** A minute as `getMinutes().toString().padStart(2, '0')` writes it. */
  predicate PaddedMinute(s: string) {
    ParseNumeral(s).Some? && 0 <= ParseNumeral(s).value < 60 && s == PadStart2(IntToString(ParseNumeral(s).value))
  }

  /** Components the form can turn into a stored time: a dial hour and a padded minute. */
  predicate Readable(c: TimeComponents) {
    HourOnDial(c.hours) && PaddedMinute(c.minutes)
  }

  /**
   * `parseTime`: the hour on the 12-hour dial, the padded minute and the period.
   * Any other text is an invalid date, whose NaN hour shows as "12" (NaN is
   * falsy), whose minute shows as "NaN" and whose period is AM.
   */
  function ParseTime(time24: string): (r: TimeComponents)
    ensures Is24HourText(time24) ==>
      var hm := F.ParseClock(time24).value;
      && Readable(r)
      && ParseNumeral(r.hours) == Some(F.DisplayHour(hm.hours))
      && ParseNumeral(r.minutes) == Some(hm.minutes)
      && (r.period == F.PM <==> hm.hours >= 12)
    ensures !Is24HourText(time24) ==> !Readable(r)
  {
    if Is24HourText(time24) then
      var hm := F.ParseClock(time24).value;
      var r := TimeComponents(IntToString(F.DisplayHour(hm.hours)), PadStart2(IntToString(hm.minutes)), F.PeriodOf(hm.hours));
      PaddedNumeral(hm.minutes);
      r
    else
      TimeComponents("12", "NaN", F.AM)
  }

  /**
   * The 24-hour value `formatTime` computes: "12" is 0 in the morning and 12 in
   * the afternoon; any other hour is read by `parseInt`, plus 12 after noon.
   * None stands for NaN.
   */
  function Hours24(c: TimeComponents): (h: Option<int>)
    ensures HourOnDial(c.hours) ==>
      && h.Some? && 0 <= h.value < 24
      && F.DisplayHour(h.value) == ParseNumeral(c.hours).value
      && F.PeriodOf(h.value) == c.period
  {
    DialTwelve(c.hours);
    match c.period
    case AM => if c.hours == "12" then Some(0) else ParseNumeral(c.hours)
    case PM => if c.hours == "12" then Some(12) else
      match ParseNumeral(c.hours)
      case None => None
      case Some(h) => Some(h + 12)
  }

  /** A dial hour is the text "12" exactly when it is twelve. */
  lemma DialTwelve(s: string)
    ensures HourOnDial(s) ==> (s == "12" <==> ParseNumeral(s).value == 12)
  {
    HourNumerals();
    if HourOnDial(s) && s == "12" {
      assert ParseNumeral("12") == Some(12) by {
        assert ParseNumeral(IntToString(12)) == Some(12);
      }
    }
  }

  /** `formatTime`: the 24-hour hour padded to two characters, a colon, and the minute text as it stands. */
  function FormatTime(c: TimeComponents): (r: string)
    ensures Hours24(c).Some? && ParseNumeral(c.minutes).Some? ==>
      F.ParseClock(r) == Some(F.HourMinute(Hours24(c).value, ParseNumeral(c.minutes).value))
  {
    var hours := match Hours24(c)
      case None => "NaN"
      case Some(h) => PadStart2(IntToString(h));
    if Hours24(c).Some? && ParseNumeral(c.minutes).Some? then
      ReadsBack(Hours24(c).value, c.minutes);
      hours + ":" + c.minutes
    else
      hours + ":" + c.minutes
  }

  /** The padded hour, a colon and a numeral minute split and read back as the two numbers. */
  lemma ReadsBack(h: int, minutes: string)
    requires ParseNumeral(minutes).Some?
    ensures F.ParseClock(PadStart2(IntToString(h)) + ":" + minutes) == Some(F.HourMinute(h, ParseNumeral(minutes).value))
  {
    var hs := PadStart2(IntToString(h));
    F.NoColonInPaddedInt(h);
    NumeralExcludes(minutes, ':');
    SplitAtFirst(hs, ':', minutes);
    assert hs + ":" + minutes == hs + [':'] + minutes;
    PaddedNumeral(h);
  }

  /** What `formatTime` writes for readable components is the clock text of a time of day. */
  lemma FormatTimeIsClockText(c: TimeComponents)
    requires Readable(c)
    ensures FormatTime(c) == F.ClockText(F.HourMinute(Hours24(c).value, ParseNumeral(c.minutes).value))
    ensures Is24HourText(FormatTime(c))
  {
    F.ClockTextRoundTrip(F.HourMinute(Hours24(c).value, ParseNumeral(c.minutes).value));
  }

  /** Turning stored text into components and back gives the text again. */
  lemma FormatAfterParse(time24: string)
    requires Is24HourText(time24)
    ensures FormatTime(ParseTime(time24)) == time24
  {
    var hm := F.ParseClock(time24).value;
    var c := ParseTime(time24);
    var h := Hours24(c).value;
    assert F.DisplayHour(h) == F.DisplayHour(hm.hours) && F.PeriodOf(h) == F.PeriodOf(hm.hours);
    F.DialDeterminesHour(h, hm.hours);
    FormatTimeIsClockText(c);
  }

  /** Turning readable components into stored text and back gives the components again. */
  lemma ParseAfterFormat(c: TimeComponents)
    requires Readable(c)
    ensures ParseTime(FormatTime(c)) == c
  {
    var hm := F.HourMinute(Hours24(c).value, ParseNumeral(c.minutes).value);
    FormatTimeIsClockText(c);
    F.ClockTextRoundTrip(hm);
    var r := ParseTime(FormatTime(c));
    assert F.ParseClock(FormatTime(c)) == Some(hm);
    assert r.hours == IntToString(F.DisplayHour(hm.hours));
    assert r.minutes == PadStart2(IntToString(hm.minutes));
  }

  /** "08:00" is the clock text of eight o'clock. */
  lemma DefaultTimeIsClock()
    ensures F.ParseClock(DefaultTime) == Some(F.HourMinute(8, 0))
    ensures Is24HourText(DefaultTime)
  {
    var hm := F.HourMinute(8, 0);
    assert F.ClockText(hm) == DefaultTime by {
      TwoDigits(8);
      TwoDigits(0);
    }
    F.ClockTextRoundTrip(hm);
  }

  /** The picker opens on 8:00 AM when the drink has no time yet. */
  lemma DefaultTimeComponents()
    ensures DefaultComponents == TimeComponents("8", "00", F.AM)
  {
    DefaultTimeIsClock();
    assert PadStart2(IntToString(0)) == "00" by {
      TwoDigits(0);
    }
  }

  /** The stored text of readable components is a clock time the calculator accepts, at the dial's hour. */
  lemma SubmittedTimeIsAccepted(c: TimeComponents)
    requires Readable(c)
    ensures F.TimeToDecimal(FormatTime(c)).Success?
    ensures var h := Hours24(c).value;
      F.TimeToDecimal(FormatTime(c)).value == h as real + ParseNumeral(c.minutes).value as real / 60.0
  {
    FormatTimeIsClockText(c);
    F.TimeToDecimalOfClockText(F.HourMinute(Hours24(c).value, ParseNumeral(c.minutes).value));
  }

  /** A quarter-hour minute of the picker is a padded minute. */
  lemma QuarterHourIsPadded(s: string)
    ensures QuarterHour(s) ==> PaddedMinute(s)
  {
  }

  /** `handleDurationChange`: the sum is taken only when it stays within 15..480 minutes. */
  function NextDuration(durationMin: int, change: int): (r: int)
    ensures r == durationMin || r == durationMin + change
    ensures MinDuration <= durationMin <= MaxDuration ==> MinDuration <= r <= MaxDuration
    ensures r != durationMin + change ==> durationMin + change < MinDuration || durationMin + change > MaxDuration
    ensures !(MinDuration <= durationMin + change <= MaxDuration) ==> r == durationMin
  {
    var newDuration := durationMin + change;
    if newDuration >= MinDuration && newDuration <= MaxDuration then newDuration else durationMin
  }

  /** On the 15-minute grid, a step button does something exactly when it is not disabled. */
  lemma StepButtonsMatchGuard(durationMin: int)
    requires MinDuration <= durationMin <= MaxDuration && durationMin % DurationStep == 0
    ensures NextDuration(durationMin, -DurationStep) != durationMin <==> !(durationMin <= MinDuration)
    ensures NextDuration(durationMin, DurationStep) != durationMin <==> !(durationMin >= MaxDuration)
    ensures NextDuration(durationMin, -DurationStep) % DurationStep == 0
    ensures NextDuration(durationMin, DurationStep) % DurationStep == 0
  {
    var k := durationMin / DurationStep;
    assert durationMin == DurationStep * k;
    assert durationMin > MinDuration ==> k >= 2;
    assert durationMin < MaxDuration ==> k <= 31;
    assert durationMin - DurationStep == DurationStep * (k - 1);
    assert durationMin + DurationStep == DurationStep * (k + 1);
  }

  /** `findPreset` on the catalog with an empty id finds nothing: every catalog id is non-empty. */
  lemma NoEmptyPresetId()
    ensures FindPreset(PredefinedDrinks, "").None?
  {
    CatalogIdsNonEmpty();
  }

  /** The drink `handleSubmit` builds from a catalog entry. */
  function SubmittedDrink(id: string, preset: Preset, c: TimeComponents, durationMin: int): Drink {
    Drink(id, preset.name, preset.caffeineMg, FormatTime(c), durationMin)
  }

  /** A drink built from the catalog entry of an id, readable components and a positive duration passes the calculator's checks, and its time reads back as the components. */
  lemma SubmittedDrinkIsAccepted(id: string, presetId: string, c: TimeComponents, durationMin: int)
    requires FindPreset(PredefinedDrinks, presetId).Some? && Readable(c) && durationMin > 0
    ensures var d := SubmittedDrink(id, FindPreset(PredefinedDrinks, presetId).value, c, durationMin);
      C.DrinkValid(Curve.ConvertDrink(d)) && ParseTime(d.time) == c
  {
    var d := SubmittedDrink(id, FindPreset(PredefinedDrinks, presetId).value, c, durationMin);
    ParseAfterFormat(c);
    CatalogCaffeinePositive();
    SubmittedTimeIsAccepted(c);
    Curve.ConvertedDrinkValid(d);
  }

  lemma ParsedReadable(time24: string)
    ensures Is24HourText(time24) ==> Readable(ParseTime(time24))
  {
  }

  /** `DEFAULT_TIME_COMPONENTS`: the parsed default time. */
  const DefaultComponents: TimeComponents := ParseTime(DefaultTime)

  /** The default components are readable. */
  lemma DefaultComponentsReadable()
    ensures Readable(DefaultComponents)
  {
    DefaultTimeIsClock();
    ParsedReadable(DefaultTime);
  }

  /** The form's state: the chosen catalog id, the picked time and the consumption minutes. */
  class DrinkFormState {
    var selectedPresetId: string
    var timeComponents: TimeComponents
    var durationMin: int

    /** A form whose time can be stored and whose duration is within the steppers' range. */
    predicate Valid()
      reads this
    {
      Readable(timeComponents) && MinDuration <= durationMin <= MaxDuration
    }

    /**
     * The initial state for a partial drink: no preset chosen; its time parsed
     * when it has one (an empty text is falsy), else 8:00 AM; its minutes
     * unless missing or 0, else 15.
     */
    constructor(initialTime: Option<string>, initialDuration: Option<int>)
      ensures selectedPresetId == ""
      ensures timeComponents == if initialTime.Some? && initialTime.value != "" then ParseTime(initialTime.value) else DefaultComponents
      ensures durationMin == if initialDuration.Some? && initialDuration.value != 0 then initialDuration.value else MinDuration
      ensures (initialTime.None? || initialTime.value == "" || Is24HourText(initialTime.value))
              && (initialDuration.None? || initialDuration.value == 0 || MinDuration <= initialDuration.value <= MaxDuration)
              ==> Valid()
    {
      selectedPresetId := "";
      if initialTime.Some? && initialTime.value != "" {
        ParsedReadable(initialTime.value);
        timeComponents := ParseTime(initialTime.value);
      } else {
        DefaultComponentsReadable();
        timeComponents := DefaultComponents;
      }
      durationMin := if initialDuration.Some? && initialDuration.value != 0 then initialDuration.value else MinDuration;
    }

    /** The catalog select's `onValueChange`. */
    method SelectPreset(id: string)
      modifies this
      ensures selectedPresetId == id
      ensures timeComponents == old(timeComponents) && durationMin == old(durationMin)
      ensures old(Valid()) ==> Valid()
    {
      selectedPresetId := id;
    }

    /** The time picker's `onChange`: a time the picker keeps on its dial stays readable. */
    method SetTimeComponents(t: TimeComponents)
      modifies this
      ensures timeComponents == t
      ensures selectedPresetId == old(selectedPresetId) && durationMin == old(durationMin)
      ensures old(Valid()) && OnDial(t) ==> Valid()
    {
      QuarterHourIsPadded(t.minutes);
      timeComponents := t;
    }

    /** `handleDurationChange`. */
    method HandleDurationChange(change: int)
      modifies this
      ensures durationMin == NextDuration(old(durationMin), change)
      ensures selectedPresetId == old(selectedPresetId) && timeComponents == old(timeComponents)
      ensures old(Valid()) ==> Valid()
    {
      var newDuration := durationMin + change;
      if newDuration >= MinDuration && newDuration <= MaxDuration {
        durationMin := newDuration;
      }
    }

    /** The minus button's `disabled`: on the 15-minute grid, set exactly when minus would change nothing. */
    function MinusDisabled(): (disabled: bool)
      reads this
      ensures Valid() && durationMin % DurationStep == 0 ==>
        (disabled <==> NextDuration(durationMin, -DurationStep) == durationMin)
    {
      if Valid() && durationMin % DurationStep == 0 then
        StepButtonsMatchGuard(durationMin);
        durationMin <= MinDuration
      else
        durationMin <= MinDuration
    }

    /** The plus button's `disabled`: on the 15-minute grid, set exactly when plus would change nothing. */
    function PlusDisabled(): (disabled: bool)
      reads this
      ensures Valid() && durationMin % DurationStep == 0 ==>
        (disabled <==> NextDuration(durationMin, DurationStep) == durationMin)
    {
      if Valid() && durationMin % DurationStep == 0 then
        StepButtonsMatchGuard(durationMin);
        durationMin >= MaxDuration
      else
        durationMin >= MaxDuration
    }

    /** The Add button's `disabled`: set only when the selection finds no catalog entry. */
    function SubmitDisabled(): (disabled: bool)
      reads this
      ensures disabled <==> selectedPresetId == ""
      ensures disabled ==> FindPreset(PredefinedDrinks, selectedPresetId).None?
    {
      NoEmptyPresetId();
      selectedPresetId == ""
    }

    /**
     * `handleSubmit`: nothing when the chosen id is not in the catalog;
     * otherwise the drink with the entry's name and caffeine, the picked time as
     * "HH:mm" and the form's minutes. `id` stands for `Date.now().toString()`.
     */
    method HandleSubmit(id: string) returns (submitted: Option<Drink>)
      ensures submitted.None? <==> FindPreset(PredefinedDrinks, selectedPresetId).None?
      ensures SubmitDisabled() ==> submitted.None?
      ensures submitted.Some? ==>
        var preset := FindPreset(PredefinedDrinks, selectedPresetId).value;
        && preset.id == selectedPresetId
        && submitted.value == SubmittedDrink(id, preset, timeComponents, durationMin)
      ensures submitted.Some? && Valid() ==> C.DrinkValid(Curve.ConvertDrink(submitted.value))
    {
      NoEmptyPresetId();
      var preset := FindPreset(PredefinedDrinks, selectedPresetId);
      if preset.None? {
        return None;
      }
      var time24 := FormatTime(timeComponents);
      submitted := Some(Drink(id, preset.value.name, preset.value.caffeineMg, time24, durationMin));
      if Valid() {
        SubmittedDrinkIsAccepted(id, selectedPresetId, timeComponents, durationMin);
      }
    }
  }
}
