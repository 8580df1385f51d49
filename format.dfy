/**
 * Clock and duration text (src/utils/format.ts): "HH:mm" to decimal hours with
 * validation, 24-hour text to a 12-hour "h:mm AM/PM" label, and minutes to
 * "45 min" / "1h 30m" / "2h".
 */
module Format {
  import opened Wrappers
  import opened Text

  /** The two numbers of an "HH:mm" text, as `Number` reads them. */
  datatype HourMinute = HourMinute(hours: int, minutes: int)

  /** Why "HH:mm" text is rejected: a part that is not a number (NaN in the source), or a number out of range. */
  datatype TimeError = NotNumeric | OutOfRange

  datatype Period = AM | PM

  function PeriodText(p: Period): string {
    match p
    case AM => "AM"
    case PM => "PM"
  }

  /** `time.split(':').map(Number)` destructured as `[hours, minutes]`; None when a part is missing or NaN. */
  function ParseClock(time: string): Option<HourMinute> {
    var parts := Split(time, ':');
    if |parts| < 2 then None
    else
      match (ParseNumeral(parts[0]), ParseNumeral(parts[1]))
      case (Some(h), Some(m)) => Some(HourMinute(h, m))
      case _ => None
  }

  /** The "HH:mm" text of a clock: each number's `toString()` padded to two characters. */
  function ClockText(hm: HourMinute): string {
    PadStart2(IntToString(hm.hours)) + ":" + PadStart2(IntToString(hm.minutes))
  }

  lemma NoColonInPaddedInt(i: int)
    ensures ':' !in PadStart2(IntToString(i))
  {
    var s := IntToString(i);
    if i < 0 {
      assert s == "-" + NatToString(-i);
      DigitsExclude(NatToString(-i), ':');
    } else {
      DigitsExclude(s, ':');
    }
  }

  /** Reading the text of a clock gives the clock back, for every pair of integers. */
  lemma ClockTextRoundTrip(hm: HourMinute)
    ensures ParseClock(ClockText(hm)) == Some(hm)
  {
    var a, b := PadStart2(IntToString(hm.hours)), PadStart2(IntToString(hm.minutes));
    NoColonInPaddedInt(hm.hours);
    NoColonInPaddedInt(hm.minutes);
    SplitAtFirst(a, ':', b);
    assert ClockText(hm) == a + [':'] + b;
    PaddedNumeral(hm.hours);
    PaddedNumeral(hm.minutes);
  }

  /** `timeToDecimal`: hours plus minutes/60, rejecting negative parts and minutes of 60 or more. */
  function TimeToDecimal(time: string): (r: Result<real, TimeError>)
    ensures r == Failure(NotNumeric) <==> ParseClock(time).None?
    ensures ParseClock(time).Some? ==>
      var hm := ParseClock(time).value;
      r.Success? <==> hm.hours >= 0 && 0 <= hm.minutes < 60
    ensures r.Success? ==>
      var hm := ParseClock(time).value;
      && hm.hours as real <= r.value < hm.hours as real + 1.0
      && r.value * 60.0 == (hm.hours * 60 + hm.minutes) as real
  {
    match ParseClock(time)
    case None => Failure(NotNumeric)
    case Some(hm) =>
      if hm.hours < 0 || hm.minutes < 0 || hm.minutes >= 60 then Failure(OutOfRange)
      else Success(hm.hours as real + hm.minutes as real / 60.0)
  }

  /** The decimal hours of a valid clock's own text are hours + minutes/60. */
  lemma TimeToDecimalOfClockText(hm: HourMinute)
    requires hm.hours >= 0 && 0 <= hm.minutes < 60
    ensures TimeToDecimal(ClockText(hm)) == Success(hm.hours as real + hm.minutes as real / 60.0)
  {
    ClockTextRoundTrip(hm);
  }

  lemma NineThirty()
    ensures TimeToDecimal("09:30") == Success(9.5)
  {
    NineThirtyText();
    TimeToDecimalOfClockText(HourMinute(9, 30));
  }

  lemma NineThirtyText()
    ensures ClockText(HourMinute(9, 30)) == "09:30"
  {
    ClockTextDigits(9, 30);
  }

  /** A clock of two-digit numbers prints as its four digits around the ':'. */
  lemma ClockTextDigits(h: nat, m: nat)
    requires h < 100 && m < 100
    ensures ClockText(HourMinute(h, m)) == [DigitChar(h / 10), DigitChar(h % 10), ':', DigitChar(m / 10), DigitChar(m % 10)]
  {
    PaddedTwoDigits(h);
    PaddedTwoDigits(m);
    JoinPairs([DigitChar(h / 10), DigitChar(h % 10)], [DigitChar(m / 10), DigitChar(m % 10)]);
  }

  lemma JoinPairs(a: string, b: string)
    requires |a| == 2 && |b| == 2
    ensures a + ":" + b == [a[0], a[1], ':', b[0], b[1]]
  {
  }

  lemma PaddedTwoDigits(n: nat)
    requires n < 100
    ensures PadStart2(IntToString(n)) == [DigitChar(n / 10), DigitChar(n % 10)]
  {
    assert IntToString(n) == NatToString(n);
    TwoDigits(n);
  }

  /** JavaScript's `%`, which truncates toward zero. */
  function JsRemainder(a: int, b: int): (r: int)
    requires b > 0
    ensures a >= 0 ==> r == a % b
    ensures a < 0 ==> -b < r <= 0
  {
    if a >= 0 then a % b else -((-a) % b)
  }

  /**
   * The remainder differs from its dividend by a multiple of the divisor; with
   * the bounds above this pins it: for a < 0 it is the one value in (-b, 0].
   */
  lemma JsRemainderTruncates(a: int, b: int)
    requires b > 0
    ensures (a - JsRemainder(a, b)) % b == 0
  {
    var q := if a >= 0 then a / b else -((-a) / b);
    assert a - JsRemainder(a, b) == b * q;
    MultipleHasNoRemainder(b, q);
  }

  lemma MultipleHasNoRemainder(b: int, q: int)
    requires b > 0
    ensures (b * q) % b == 0
  {
    var x := b * q;
    var d := q - x / b;
    assert x == b * (x / b) + x % b;
    assert b * d == x % b;
  }

  /** `hours % 12 || 12`: the hour on a 12-hour dial. */
  function DisplayHour(hours: int): (d: int)
    ensures 0 <= hours ==> 1 <= d <= 12 && d % 12 == hours % 12
  {
    var r := JsRemainder(hours, 12);
    if r == 0 then 12 else r
  }

  /** `hours >= 12 ? 'PM' : 'AM'`. */
  function PeriodOf(hours: int): (p: Period)
    ensures p == PM <==> hours >= 12
  {
    if hours >= 12 then PM else AM
  }

  /** On a day's hours, the 12-hour dial and the period together determine the hour. */
  lemma DialDeterminesHour(h: int, h': int)
    requires 0 <= h < 24 && 0 <= h' < 24
    requires DisplayHour(h) == DisplayHour(h') && PeriodOf(h) == PeriodOf(h')
    ensures h == h'
  {
  }

  /** The "h:mm AM" text of a clock, as `formatTime` builds it. */
  function TwelveHourText(hm: HourMinute): string {
    IntToString(DisplayHour(hm.hours)) + ":" + PadStart2(IntToString(hm.minutes)) + " " + PeriodText(PeriodOf(hm.hours))
  }

  /** `formatTime`: 24-hour text to a 12-hour label; None where the source would print NaN. */
  function FormatTime(time: string): (r: Option<string>)
    ensures r.Some? <==> ParseClock(time).Some?
    ensures r.Some? ==> r.value == TwelveHourText(ParseClock(time).value)
  {
    match ParseClock(time)
    case None => None
    case Some(hm) => Some(TwelveHourText(hm))
  }

  /**
   * The label of a time of day has the shape "<d>:<mm> <AM|PM>" with d in 1..12,
   * mm two characters that read back as the minutes, and PM exactly from noon on.
   */
  lemma TwelveHourTextShape(hm: HourMinute)
    requires 0 <= hm.hours && 0 <= hm.minutes < 60
    ensures exists d: int, mm: string ::
      && 1 <= d <= 12 && d == DisplayHour(hm.hours)
      && |mm| == 2 && ParseNumeral(mm) == Some(hm.minutes)
      && TwelveHourText(hm) == IntToString(d) + ":" + mm + " " + PeriodText(PeriodOf(hm.hours))
    ensures (TwelveHourText(hm)[|TwelveHourText(hm)| - 2..] == "PM") <==> hm.hours >= 12
  {
    var d, mm := DisplayHour(hm.hours), PadStart2(IntToString(hm.minutes));
    PaddedNumeral(hm.minutes);
    assert |IntToString(hm.minutes)| <= 2 by {
      assert IntToString(hm.minutes) == NatToString(hm.minutes);
      if hm.minutes >= 10 {
        assert NatToString(hm.minutes / 10) == [DigitChar(hm.minutes / 10)];
      }
    }
    var t := TwelveHourText(hm);
    assert t[|t| - 2..] == PeriodText(PeriodOf(hm.hours));
  }

  lemma NoSpaceInPaddedInt(i: int)
    ensures ' ' !in PadStart2(IntToString(i))
  {
    var s := IntToString(i);
    if i < 0 {
      assert s == "-" + NatToString(-i);
      DigitsExclude(NatToString(-i), ' ');
    } else {
      DigitsExclude(s, ' ');
    }
  }

  lemma NoColonInInt(i: int)
    ensures ':' !in IntToString(i)
  {
    var s := IntToString(i);
    if i < 0 {
      assert s == "-" + NatToString(-i);
      DigitsExclude(NatToString(-i), ':');
    } else {
      DigitsExclude(s, ':');
    }
  }

  /** The label split at its first ':' and its first ' ' after that. */
  lemma TwelveHourTextParts(hm: HourMinute)
    ensures var d, mm := IntToString(DisplayHour(hm.hours)), PadStart2(IntToString(hm.minutes));
      && ':' !in d && ' ' !in mm
      && TwelveHourText(hm) == d + [':'] + (mm + [' '] + PeriodText(PeriodOf(hm.hours)))
  {
    var d, mm, p := IntToString(DisplayHour(hm.hours)), PadStart2(IntToString(hm.minutes)), PeriodText(PeriodOf(hm.hours));
    NoColonInInt(DisplayHour(hm.hours));
    NoSpaceInPaddedInt(hm.minutes);
    Regroup(d, mm, p);
  }

  lemma Regroup(d: string, mm: string, p: string)
    ensures d + ":" + mm + " " + p == d + [':'] + (mm + [' '] + p)
  {
  }

  /** Two different times of day never get the same 12-hour label. */
  lemma TwelveHourTextInjective(a: HourMinute, b: HourMinute)
    requires 0 <= a.hours < 24 && 0 <= a.minutes < 60
    requires 0 <= b.hours < 24 && 0 <= b.minutes < 60
    requires TwelveHourText(a) == TwelveHourText(b)
    ensures a == b
  {
    var da, db := IntToString(DisplayHour(a.hours)), IntToString(DisplayHour(b.hours));
    var ma, mb := PadStart2(IntToString(a.minutes)), PadStart2(IntToString(b.minutes));
    var pa, pb := PeriodText(PeriodOf(a.hours)), PeriodText(PeriodOf(b.hours));
    TwelveHourTextParts(a);
    TwelveHourTextParts(b);
    SeparatorFixesSplit(da, ma + [' '] + pa, db, mb + [' '] + pb, ':');
    SeparatorFixesSplit(ma, pa, mb, pb, ' ');
    assert DisplayHour(a.hours) == DisplayHour(b.hours) by {
      IntToStringInjective(DisplayHour(a.hours), DisplayHour(b.hours));
    }
    assert a.minutes == b.minutes by {
      PaddedNumeral(a.minutes);
      PaddedNumeral(b.minutes);
    }
    assert PeriodOf(a.hours) == PeriodOf(b.hours);
    DialDeterminesHour(a.hours, b.hours);
  }

  /** Different valid "HH:mm" texts of different times get different labels. */
  lemma FormatTimeInjective(s: string, t: string)
    requires TimeToDecimal(s).Success? && TimeToDecimal(t).Success?
    requires ParseClock(s).value.hours < 24 && ParseClock(t).value.hours < 24
    requires FormatTime(s) == FormatTime(t)
    ensures TimeToDecimal(s) == TimeToDecimal(t)
  {
    var a, b := ParseClock(s).value, ParseClock(t).value;
    assert TwelveHourText(a) == TwelveHourText(b);
    TwelveHourTextInjective(a, b);
    SameClockSameDecimal(s, t);
  }

  lemma SameClockSameDecimal(s: string, t: string)
    requires ParseClock(s) == ParseClock(t)
    ensures TimeToDecimal(s) == TimeToDecimal(t)
  {
  }

  /** `formatDuration`: "<m> min" under an hour, else "<h>h <r>m", or "<h>h" on whole hours. */
  function FormatDuration(minutes: int): (r: string)
    ensures |r| >= 2
    ensures minutes < 60 ==> |r| >= 5 && r[|r| - 4..] == " min" && r[|r| - 1] == 'n'
    ensures minutes >= 60 && minutes % 60 == 0 ==> r[|r| - 1] == 'h'
    ensures minutes >= 60 && minutes % 60 > 0 ==> r[|r| - 1] == 'm'
  {
    if minutes < 60 then IntToString(minutes) + " min"
    else
      var hours := minutes / 60;
      var mins := minutes % 60;
      if mins > 0 then NatToString(hours) + "h " + NatToString(mins) + "m"
      else NatToString(hours) + "h"
  }

  /**
   * The text of a duration spells out its numbers: "<m> min" under an hour,
   * "<h>h" on whole hours and "<h>h <r>m" otherwise, with h = m div 60 and r = m mod 60.
   */
  lemma FormatDurationShape(minutes: int)
    ensures minutes < 60 ==>
      exists s :: ParseNumeral(s) == Some(minutes) && NoLeadingZero(s) && FormatDuration(minutes) == s + " min"
    ensures minutes >= 60 && minutes % 60 == 0 ==>
      exists h :: ParseNumeral(h) == Some(minutes / 60) && NoLeadingZero(h) && FormatDuration(minutes) == h + "h"
    ensures minutes >= 60 && minutes % 60 > 0 ==>
      exists h, rr :: ParseNumeral(h) == Some(minutes / 60) && ParseNumeral(rr) == Some(minutes % 60)
                      && NoLeadingZero(h) && NoLeadingZero(rr)
                      && FormatDuration(minutes) == h + "h " + rr + "m"
  {
    if minutes < 60 {
      assert ParseNumeral(IntToString(minutes)) == Some(minutes);
    } else {
      NumeralOfNat(minutes / 60);
      NumeralOfNat(minutes % 60);
    }
  }

  /** The examples "30 min", "1h 30m" and "2h" of the doc comment. */
  lemma FormatDurationExamples()
    ensures FormatDuration(30) == "30 min"
    ensures FormatDuration(90) == "1h 30m"
    ensures FormatDuration(120) == "2h"
  {
    TwoDigitNumeral(30);
    assert IntToString(30) == NatToString(30);
    assert FormatDuration(90) == NatToString(1) + "h " + NatToString(30) + "m";
    assert FormatDuration(120) == NatToString(2) + "h";
  }

  lemma UnderAnHourInjective(a: int, b: int)
    requires a < 60 && b < 60 && FormatDuration(a) == FormatDuration(b)
    ensures a == b
  {
    var s := FormatDuration(a);
    assert IntToString(a) == s[..|s| - 4] == IntToString(b);
    IntToStringInjective(a, b);
  }

  lemma WholeHoursInjective(a: int, b: int)
    requires a >= 60 && b >= 60 && a % 60 == 0 && b % 60 == 0
    requires FormatDuration(a) == FormatDuration(b)
    ensures a == b
  {
    var s := FormatDuration(a);
    assert NatToString(a / 60) == s[..|s| - 1] == NatToString(b / 60);
    NatToStringInjective(a / 60, b / 60);
  }

  lemma HoursAndMinutesInjective(a: int, b: int)
    requires a >= 60 && b >= 60 && a % 60 > 0 && b % 60 > 0
    requires FormatDuration(a) == FormatDuration(b)
    ensures a == b
  {
    var ha, hb := NatToString(a / 60), NatToString(b / 60);
    var ra, rb := NatToString(a % 60), NatToString(b % 60);
    DigitsExclude(ha, 'h');
    DigitsExclude(hb, 'h');
    assert FormatDuration(a) == ha + "h " + ra + "m";
    assert FormatDuration(b) == hb + "h " + rb + "m";
    RegroupHours(ha, ra);
    RegroupHours(hb, rb);
    SeparatorFixesSplit(ha, " " + ra + "m", hb, " " + rb + "m", 'h');
    NatToStringInjective(a / 60, b / 60);
    NatToStringInjective(a % 60, b % 60);
  }

  lemma RegroupHours(h: string, r: string)
    ensures h + "h " + r + "m" == h + ['h'] + (" " + r + "m")
    ensures r == (" " + r + "m")[1..|r| + 1]
  {
  }

  /** Different durations are never displayed the same way. */
  lemma FormatDurationInjective(a: int, b: int)
    requires FormatDuration(a) == FormatDuration(b)
    ensures a == b
  {
    if a < 60 && b < 60 {
      UnderAnHourInjective(a, b);
    } else if a >= 60 && b >= 60 && a % 60 == 0 && b % 60 == 0 {
      WholeHoursInjective(a, b);
    } else if a >= 60 && b >= 60 && a % 60 > 0 && b % 60 > 0 {
      HoursAndMinutesInjective(a, b);
    } else {
      // the texts end differently: 'n' for " min", 'h' for whole hours, 'm' otherwise
      assert false;
    }
  }
}
