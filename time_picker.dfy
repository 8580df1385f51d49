/**
 * The time picker dialog of src/components/TimePickerDialog.tsx: a 12-hour
 * dial (hours "1".."12"), quarter-hour minutes ("00", "15", "30", "45") and an
 * AM/PM switch. Each button replaces one field of the picked time; Save hands
 * the picked time to the form.
 */
module TimePicker {
  import opened Wrappers
  import opened Text
  import opened Format

  /** The picker's state: the hour and minute texts as shown, and the period. */
  datatype TimeComponents = TimeComponents(hours: string, minutes: string, period: Period)

  /** An hour as the dial shows it: the plain numeral of 1..12. */
  predicate HourOnDial(s: string) {
    ParseNumeral(s).Some? && 1 <= ParseNumeral(s).value <= 12 && s == IntToString(ParseNumeral(s).value)
  }

  /** A minute as the picker shows it: a quarter hour, padded to two digits. */
  predicate QuarterHour(s: string) {
    ParseNumeral(s).Some? && 0 <= ParseNumeral(s).value < 60 && ParseNumeral(s).value % 15 == 0
    && s == PadStart2(IntToString(ParseNumeral(s).value))
  }

  /** A time the picker can show: dial hour and quarter-hour minutes. */
  predicate OnDial(t: TimeComponents) {
    HourOnDial(t.hours) && QuarterHour(t.minutes)
  }

  /** The literal hours the steppers write are the numerals of their values. */
  lemma HourNumerals()
    ensures IntToString(1) == "1" && IntToString(11) == "11" && IntToString(12) == "12"
  {
    assert NatToString(11) == NatToString(1) + [DigitChar(1)];
    assert NatToString(12) == NatToString(1) + [DigitChar(2)];
  }

  /** The literal minutes the steppers write are the padded numerals of their values. */
  lemma MinuteNumerals()
    ensures PadStart2(IntToString(0)) == "00" && PadStart2(IntToString(45)) == "45"
  {
    assert NatToString(45) == NatToString(4) + [DigitChar(5)];
  }

  /** The updater of `incrementHour`: 11 goes to 12, 12 to 1, any other h to h + 1; NaN stays NaN. */
  function HourUp(t: TimeComponents): (r: TimeComponents)
    ensures r.minutes == t.minutes && r.period == t.period
  {
    var hours := match ParseNumeral(t.hours)
      case None => "NaN"
      case Some(h) => if h == 11 then "12" else if h == 12 then "1" else IntToString(h + 1);
    t.(hours := hours)
  }

  /** The updater of `decrementHour`: 1 goes to 12, 12 to 11, any other h to h - 1; NaN stays NaN. */
  function HourDown(t: TimeComponents): (r: TimeComponents)
    ensures r.minutes == t.minutes && r.period == t.period
  {
    var hours := match ParseNumeral(t.hours)
      case None => "NaN"
      case Some(h) => if h == 1 then "12" else if h == 12 then "11" else IntToString(h - 1);
    t.(hours := hours)
  }

  /** The updater of `incrementMinute`: 45 goes to "00", any other m to m + 15, padded. */
  function MinuteUp(t: TimeComponents): (r: TimeComponents)
    ensures r.hours == t.hours && r.period == t.period
  {
    var minutes := match ParseNumeral(t.minutes)
      case None => "NaN"
      case Some(m) => if m == 45 then "00" else PadStart2(IntToString(m + 15));
    t.(minutes := minutes)
  }

  /** The updater of `decrementMinute`: 0 goes to "45", any other m to m - 15, padded. */
  function MinuteDown(t: TimeComponents): (r: TimeComponents)
    ensures r.hours == t.hours && r.period == t.period
  {
    var minutes := match ParseNumeral(t.minutes)
      case None => "NaN"
      case Some(m) => if m == 0 then "45" else PadStart2(IntToString(m - 15));
    t.(minutes := minutes)
  }

  /** The updater of `togglePeriod`. */
  function Toggled(t: TimeComponents): (r: TimeComponents)
    ensures r.hours == t.hours && r.minutes == t.minutes && r.period != t.period
  {
    t.(period := if t.period == AM then PM else AM)
  }

  /** What `incrementHour` writes for a dial hour read as h. */
  lemma HourUpText(t: TimeComponents, h: int)
    requires ParseNumeral(t.hours) == Some(h) && 1 <= h <= 12
    ensures HourUp(t).hours == IntToString(if h == 12 then 1 else h + 1)
  {
    HourNumerals();
  }

  /** What `decrementHour` writes for a dial hour read as h. */
  lemma HourDownText(t: TimeComponents, h: int)
    requires ParseNumeral(t.hours) == Some(h) && 1 <= h <= 12
    ensures HourDown(t).hours == IntToString(if h == 1 then 12 else h - 1)
  {
    HourNumerals();
  }

  /** On the dial, the next hour is h mod 12 + 1, and it is on the dial again. */
  lemma HourUpTurnsDial(t: TimeComponents)
    requires HourOnDial(t.hours)
    ensures HourOnDial(HourUp(t).hours)
    ensures ParseNumeral(HourUp(t).hours).value == ParseNumeral(t.hours).value % 12 + 1
  {
    var h := ParseNumeral(t.hours).value;
    var n := if h == 12 then 1 else h + 1;
    HourUpText(t, h);
    assert ParseNumeral(IntToString(n)) == Some(n);
    assert n == h % 12 + 1;
  }

  /** On the dial, the previous hour is (h + 10) mod 12 + 1, and it is on the dial again. */
  lemma HourDownTurnsDial(t: TimeComponents)
    requires HourOnDial(t.hours)
    ensures HourOnDial(HourDown(t).hours)
    ensures ParseNumeral(HourDown(t).hours).value == (ParseNumeral(t.hours).value + 10) % 12 + 1
  {
    var h := ParseNumeral(t.hours).value;
    var n := if h == 1 then 12 else h - 1;
    HourDownText(t, h);
    assert ParseNumeral(IntToString(n)) == Some(n);
    assert n == (h + 10) % 12 + 1;
  }

  /** `decrementHour` undoes `incrementHour`, and the other way round, on the dial. */
  lemma HourStepsInverse(t: TimeComponents)
    requires HourOnDial(t.hours)
    ensures HourDown(HourUp(t)) == t
    ensures HourUp(HourDown(t)) == t
  {
    var h := ParseNumeral(t.hours).value;
    var next := if h == 12 then 1 else h + 1;
    HourUpText(t, h);
    HourDownText(HourUp(t), next);
    var previous := if h == 1 then 12 else h - 1;
    HourDownText(t, h);
    HourUpText(HourDown(t), previous);
  }

  /** The quarter hours of an hour are 0, 15, 30 and 45. */
  lemma QuarterCases(m: int)
    requires 0 <= m < 60 && m % 15 == 0
    ensures m == 0 || m == 15 || m == 30 || m == 45
  {
    var q := m / 15;
    assert m == 15 * q;
    assert 0 <= q < 4;
  }

  /** One quarter hour forwards and back, on minute values. */
  lemma QuarterSteps(m: int)
    requires 0 <= m < 60 && m % 15 == 0
    ensures var next := if m == 45 then 0 else m + 15;
      next == (m + 15) % 60 && 0 <= next < 60 && next % 15 == 0
    ensures var previous := if m == 0 then 45 else m - 15;
      previous == (m + 45) % 60 && 0 <= previous < 60 && previous % 15 == 0
  {
    QuarterCases(m);
    if m == 0 {
    } else if m == 15 {
    } else if m == 30 {
    } else {
    }
  }

  /** A padded quarter hour is read back as itself. */
  lemma QuarterText(m: int)
    requires 0 <= m < 60 && m % 15 == 0
    ensures ParseNumeral(PadStart2(IntToString(m))) == Some(m)
    ensures QuarterHour(PadStart2(IntToString(m)))
  {
    PaddedNumeral(m);
  }

  /** What `incrementMinute` writes for a minute read as m. */
  lemma MinuteUpText(t: TimeComponents, m: int)
    requires ParseNumeral(t.minutes) == Some(m) && 0 <= m < 60 && m % 15 == 0
    ensures MinuteUp(t).minutes == PadStart2(IntToString(if m == 45 then 0 else m + 15))
  {
    MinuteNumerals();
  }

  /** What `decrementMinute` writes for a minute read as m. */
  lemma MinuteDownText(t: TimeComponents, m: int)
    requires ParseNumeral(t.minutes) == Some(m) && 0 <= m < 60 && m % 15 == 0
    ensures MinuteDown(t).minutes == PadStart2(IntToString(if m == 0 then 45 else m - 15))
  {
    MinuteNumerals();
  }

  /** On quarter hours, the next minute is m + 15 mod 60, again a padded quarter hour. */
  lemma MinuteUpTurnsDial(t: TimeComponents)
    requires QuarterHour(t.minutes)
    ensures QuarterHour(MinuteUp(t).minutes)
    ensures ParseNumeral(MinuteUp(t).minutes).value == (ParseNumeral(t.minutes).value + 15) % 60
  {
    var m := ParseNumeral(t.minutes).value;
    QuarterSteps(m);
    MinuteUpText(t, m);
    QuarterText(if m == 45 then 0 else m + 15);
  }

  /** On quarter hours, the previous minute is m + 45 mod 60, again a padded quarter hour. */
  lemma MinuteDownTurnsDial(t: TimeComponents)
    requires QuarterHour(t.minutes)
    ensures QuarterHour(MinuteDown(t).minutes)
    ensures ParseNumeral(MinuteDown(t).minutes).value == (ParseNumeral(t.minutes).value + 45) % 60
  {
    var m := ParseNumeral(t.minutes).value;
    QuarterSteps(m);
    MinuteDownText(t, m);
    QuarterText(if m == 0 then 45 else m - 15);
  }

  /** `decrementMinute` undoes `incrementMinute` on quarter hours. */
  lemma MinuteDownUndoesUp(t: TimeComponents)
    requires QuarterHour(t.minutes)
    ensures MinuteDown(MinuteUp(t)) == t
  {
    var m := ParseNumeral(t.minutes).value;
    QuarterSteps(m);
    var next := if m == 45 then 0 else m + 15;
    MinuteUpText(t, m);
    QuarterText(next);
    MinuteDownText(MinuteUp(t), next);
    assert (if next == 0 then 45 else next - 15) == m;
  }

  /** `incrementMinute` undoes `decrementMinute` on quarter hours. */
  lemma MinuteUpUndoesDown(t: TimeComponents)
    requires QuarterHour(t.minutes)
    ensures MinuteUp(MinuteDown(t)) == t
  {
    var m := ParseNumeral(t.minutes).value;
    QuarterSteps(m);
    var previous := if m == 0 then 45 else m - 15;
    MinuteDownText(t, m);
    QuarterText(previous);
    MinuteUpText(MinuteDown(t), previous);
    assert (if previous == 45 then 0 else previous + 15) == m;
  }

  /** Four presses of the minute-up button come back to the start. */
  lemma {:induction false} FourQuartersMakeAnHour(t: TimeComponents)
    requires QuarterHour(t.minutes)
    ensures MinuteUp(MinuteUp(MinuteUp(MinuteUp(t)))) == t
  {
    ThreeUpIsOneDown(t);
    MinuteUpUndoesDown(t);
  }

  /** One press of minute-up from a minute read as m: the padded next quarter, read back as such. */
  lemma MinuteUpFrom(t: TimeComponents, m: int) returns (next: int)
    requires ParseNumeral(t.minutes) == Some(m) && 0 <= m < 60 && m % 15 == 0
    ensures next == (if m == 45 then 0 else m + 15)
    ensures ParseNumeral(MinuteUp(t).minutes) == Some(next) && 0 <= next < 60 && next % 15 == 0
  {
    next := if m == 45 then 0 else m + 15;
    QuarterSteps(m);
    MinuteUpText(t, m);
    QuarterText(next);
  }

  /** Three quarter hours forwards equal one quarter hour back. */
  lemma ThreeUpIsOneDown(t: TimeComponents)
    requires QuarterHour(t.minutes)
    ensures MinuteUp(MinuteUp(MinuteUp(t))) == MinuteDown(t)
  {
    var m := ParseNumeral(t.minutes).value;
    var m1 := MinuteUpFrom(t, m);
    var m2 := MinuteUpFrom(MinuteUp(t), m1);
    MinuteUpText(MinuteUp(MinuteUp(t)), m2);
    MinuteDownText(t, m);
    QuarterCases(m);
    assert (if m2 == 45 then 0 else m2 + 15) == (if m == 0 then 45 else m - 15);
  }

  /** Toggling the period twice changes nothing. */
  lemma ToggleTwice(t: TimeComponents)
    ensures Toggled(Toggled(t)) == t
  {
  }

  /** The dialog with its `time` state. */
  class TimePickerDialog {
    var time: TimeComponents

    /** `useState(value)`: the dialog starts from the time it is given. */
    constructor(value: TimeComponents)
      ensures time == value
    {
      time := value;
    }

    predicate Valid()
      reads this
    {
      OnDial(time)
    }

    method IncrementHour()
      modifies this
      ensures time == HourUp(old(time))
      ensures old(Valid()) ==> Valid()
    {
      if Valid() {
        HourUpTurnsDial(time);
      }
      time := HourUp(time);
    }

    method DecrementHour()
      modifies this
      ensures time == HourDown(old(time))
      ensures old(Valid()) ==> Valid()
    {
      if Valid() {
        HourDownTurnsDial(time);
      }
      time := HourDown(time);
    }

    method IncrementMinute()
      modifies this
      ensures time == MinuteUp(old(time))
      ensures old(Valid()) ==> Valid()
    {
      if Valid() {
        MinuteUpTurnsDial(time);
      }
      time := MinuteUp(time);
    }

    method DecrementMinute()
      modifies this
      ensures time == MinuteDown(old(time))
      ensures old(Valid()) ==> Valid()
    {
      if Valid() {
        MinuteDownTurnsDial(time);
      }
      time := MinuteDown(time);
    }

    method TogglePeriod()
      modifies this
      ensures time == Toggled(old(time))
      ensures old(Valid()) ==> Valid()
    {
      time := Toggled(time);
    }

    /** `handleSave`: what `onChange` receives is exactly the picked time. */
    method HandleSave() returns (saved: TimeComponents)
      ensures saved == time
    {
      saved := time;
    }
  }
}
