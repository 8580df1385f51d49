# Caffeine tracker — a Dafny model

This project models the logic of a React caffeine tracker. The user logs drinks.
Each drink is a preset from a catalogue, with a start time and a drinking time.
The app estimates the caffeine left in the body over the day: a one-compartment
model with zero-order absorption while the drink is drunk (after a short lag),
followed by first-order elimination with a personal half-life. It then draws a
curve, sampled every quarter hour, until caffeine has stayed under 30 mg for four
readings. It also marks the first time the curve falls below 30 mg.

Modules, one per source file:

- `Concentration` (`src/utils/getCaffeineConcentration.ts`): the calculator. It
  checks its inputs, then sums each drink's contribution. `exp` and `ln` come in
  as a `Transcendental` value whose `Lawful` predicate states the facts the proofs
  use: `exp` is positive, `exp(0) = 1`, `exp` is strictly increasing, and
  0.69 < ln 2 < 0.7.
- `Format` (`src/utils/format.ts`): `timeToDecimal`, `formatTime` and
  `formatDuration`. `Text` holds the numeral printing and parsing that both rely on
  (`toString`, `Number`/`parseInt` on plain numerals, `padStart(2, '0')`, `split`).
- `Curve` (`src/components/CaffeineChart.tsx`): `decimalToTimeString`, the drink
  conversion, the sampling loop of `generateDataPoints`, `findThirtyMgTime` and
  `formatTimeLabel`. `src/components/CaffeineCurveDialog.tsx` repeats the same
  functions with the same logic, so one model covers both; its line numbers appear
  next to the chart's in the table.
- `Drinks` (`src/types/Drink.ts`, `src/data/predefinedDrinks.ts`): the drink record
  and the preset catalogue. The record's `label` field is called `name` here.
- `TimePicker` (`src/components/TimePickerDialog.tsx`): the hour, minute and AM/PM
  steppers, as a class whose `time` field the buttons update.
- `DrinkForm` (`src/components/DrinkForm.tsx`): `parseTime`/`formatTime` between
  "HH:mm" and the picker's components, the duration stepper, and the submit that
  builds a drink.
- `App` (`src/App.tsx`): the drink list with add and delete, the half-life and the
  weight.
- `WeightSelector` and `Sensitivity` (`src/components/WeightSelector.tsx`,
  `src/components/SensitivitySlider.tsx`): the two settings controls.

Where the documentation and the code disagree, the model follows the code:

- The header comment of `getCaffeineConcentration.ts` (line 6) speaks of a
  0.75-hour absorption lag. The constant on line 11 is 0.1 hours, and
  `AbsorptionDelayHrs` is 0.1.
- The elimination formula on line 79 restarts from the full dose, D/Vd. It does not
  start from the level reached at the end of the infusion. When k·T ≥ 1 the curve
  therefore jumps up at the end of a drink; `JumpAtEndOfInfusion` proves this about
  the code as written.

`timeToDecimal` appears in both `format.ts` and `getCaffeineConcentration.ts`, with
the same logic. It is modelled once, as `Format.TimeToDecimal`.

Thrown errors become `Failure` values. The TypeScript loop in `generateDataPoints`
has no bound, so `Curve.GenerateDataPoints` takes a `fuel` bound and reports
`OutOfFuel` when a run has not yet stopped. Its loop lives in `Curve.SampleFrom`.

## Model

| member | source | states |
|---|---|---|
| Format.TimeToDecimal | src/utils/format.ts:30-36 | Text that does not read as two numbers is rejected as not numeric. Negative parts and minutes ≥ 60 are rejected. Otherwise the value lies in [h, h+1) and equals (60h + m)/60. |
| Format.ClockTextRoundTrip | src/utils/format.ts:31 | Splitting a padded "HH:mm" text on ':' and reading both numbers gives back the hour and minute. |
| Format.TimeToDecimalOfClockText | src/utils/format.ts:30-36 | The decimal hours of a valid clock's text are hours + minutes/60. |
| Format.NineThirty | src/utils/format.ts:28 | "09:30" reads as 9.5, as the doc comment's example says. |
| Format.JsRemainder | src/utils/format.ts:21 | JavaScript's truncating `%`: it agrees with the mathematical remainder on non-negative numbers and lies in (-b, 0] on negative ones. |
| Format.JsRemainderTruncates | src/utils/format.ts:21 | The remainder differs from the dividend by a multiple of the divisor; with the bounds of `JsRemainder` this makes it the remainder of truncating division. |
| Format.DisplayHour | src/utils/format.ts:21 | `hours % 12 \|\| 12` is in 1..12 and agrees with the hour mod 12. |
| Format.PeriodOf | src/utils/format.ts:20 | PM exactly from hour 12 on. |
| Format.DialDeterminesHour | src/utils/format.ts:20-21 | Within a day, the dial hour and the period together determine the hour. |
| Format.FormatTime | src/utils/format.ts:18-23 | The result is present exactly when the text reads as two numbers, and is then the "h:mm AM/PM" text of that clock. |
| Format.TwelveHourTextShape | src/utils/format.ts:18-23 | The label has the form "<d>:<two characters that read as the minutes> <period>", where d is the dial hour `hours % 12 \|\| 12` in 1..12. It ends in "PM" exactly from noon on. |
| Format.TwelveHourTextInjective | src/utils/format.ts:18-23 | Different times of day give different 12-hour labels. |
| Format.FormatTimeInjective | src/utils/format.ts:18-23 | Two valid times of day with the same label have the same decimal value. |
| Format.FormatDuration | src/utils/format.ts:6-11 | Under an hour the text ends in " min". Whole hours end in 'h'. Hours with minutes end in 'm'. |
| Format.FormatDurationShape | src/utils/format.ts:6-11 | Under an hour the text is a numeral reading as the minutes, then " min". On whole hours it is a numeral reading as minutes div 60, then "h". Otherwise it is the hours numeral, "h ", a numeral reading as minutes mod 60, then "m". No numeral has a superfluous leading zero. |
| Format.FormatDurationExamples | src/utils/format.ts:4 | 30 minutes print as "30 min", 90 as "1h 30m" and 120 as "2h". |
| Format.FormatDurationInjective | src/utils/format.ts:6-11 | Different durations give different texts. |
| Text.IntToString | src/utils/format.ts:22 | `toString` of an integer reads back as that integer, has no superfluous leading zero, and is a plain numeral when it is non-negative. |
| Text.NatToString | src/utils/format.ts:7-10 | `toString` of a natural number is a numeral with that value and no superfluous leading zero; it has one digit exactly below 10. |
| Text.PadStart2 | src/utils/format.ts:22 | `padStart(2, '0')` has length max(2, n), keeps the text as its suffix and fills the front with '0'. |
| Text.PaddedNumeral | src/utils/format.ts:22 | A padded numeral still reads as its number. |
| Text.SplitAtFirst | src/utils/format.ts:31 | `split` cuts at the first separator when the first part contains none. |
| Text.IntToStringInjective | src/utils/format.ts:22 | Different integers print differently. |
| Concentration.PhaseAt | src/utils/getCaffeineConcentration.ts:70-80 | Classifies the time since the start into exactly one phase: before the lag, infusion, or elimination. Also gives the elapsed time within that phase. |
| Concentration.Contribution | src/utils/getCaffeineConcentration.ts:66-82 | A drink adds nothing before the lag. With a positive dose it adds a positive amount exactly after the lag. |
| Concentration.InfusionRises | src/utils/getCaffeineConcentration.ts:74-76 | While a drink is being absorbed, its contribution strictly rises. |
| Concentration.EliminationDecays | src/utils/getCaffeineConcentration.ts:77-79 | After absorption, a drink's contribution strictly decays. |
| Concentration.JumpAtEndOfInfusion | src/utils/getCaffeineConcentration.ts:74-79 | When k·T ≥ 1, every infusion-phase value lies below the value at the start of elimination: the curve jumps up when a drink is finished. |
| Concentration.InfusionBelowPeak | src/utils/getCaffeineConcentration.ts:76-79 | When k·T ≥ 1, the infusion formula stays below the elimination formula's starting value D/Vd. |
| Concentration.InputError | src/utils/getCaffeineConcentration.ts:37-59 | The input checks pass exactly when the half-life and the weight (155 when omitted) are positive and every drink is valid. A half-life ≤ 0 is reported first. |
| Concentration.FirstInvalid | src/utils/getCaffeineConcentration.ts:55-59 | Absent exactly when every drink passes the dose, duration and start-time checks. Otherwise it is the error of a failing drink. |
| Concentration.SumOf | src/utils/getCaffeineConcentration.ts:65-83 | The sum of the contributions of valid drinks is non-negative. |
| Concentration.Reduce | src/utils/getCaffeineConcentration.ts:65-83 | The `reduce` never lowers its running total. |
| Concentration.ReduceIsSum | src/utils/getCaffeineConcentration.ts:65-83 | The `reduce` from any starting total adds exactly the sum of the contributions. |
| Concentration.GetTotalCaffeineConcentration | src/utils/getCaffeineConcentration.ts:37-84 | Half-life ≤ 0, weight ≤ 0 (155 when omitted) and a bad current time fail in that order, then the first bad drink fails. A success is the non-negative sum of the contributions, with Vd = 0.6·0.453592·weight and k = ln 2 / half-life. No drinks gives 0. |
| Concentration.WeightDefaultsTo155 | src/utils/getCaffeineConcentration.ts:41 | Omitting the weight is the same as passing 155 lb. |
| Concentration.FailsOnFirstInvalidDrink | src/utils/getCaffeineConcentration.ts:55-59 | With good settings, the result fails exactly when some drink fails its checks. The error is that of the first failing drink. |
| Concentration.SumOfPermutation | src/utils/getCaffeineConcentration.ts:65-83 | Summing the contributions in any order gives the same total. |
| Concentration.TotalIgnoresDrinkOrder | src/utils/getCaffeineConcentration.ts:37-84 | Reordering the drink list does not change whether the call succeeds, nor a successful total. On failure the error may differ, since the first bad drink may change. |
| Concentration.TotalIsAdditive | src/utils/getCaffeineConcentration.ts:65-83 | The total for a ++ b is the total for a plus the total for b. |
| Concentration.SumDominatesEachDrink | src/utils/getCaffeineConcentration.ts:65-83 | The total is at least any single drink's contribution. |
| Concentration.TotalDecaysAfterAllInfusions | src/utils/getCaffeineConcentration.ts:77-83 | Once every drink is past its infusion, the total strictly falls over time. |
| Curve.DecimalToClock | src/components/CaffeineChart.tsx:19-26 | Hours and minutes with minutes < 60, carrying a rounded 60 into the hour. Unwrapped, they give the time rounded to the nearest minute. Wrapped, they give that time modulo one day. |
| Curve.AggregatorSeesNearestMinute | src/components/CaffeineCurveDialog.tsx:19-27 | Reading the unwrapped "HH:mm" text back gives the time rounded to the nearest minute. |
| Curve.DecimalToTimeString | src/components/CaffeineChart.tsx:19-26 | The text is the padded "HH:mm" text of the time's clock, wrapped or not, and reads back as exactly that clock. |
| Curve.WholeMinutesRoundTrip | src/components/CaffeineChart.tsx:19-26 | On whole minutes the text round trip is exact. |
| Curve.ConvertDrink | src/components/CaffeineChart.tsx:28-34 | Same start time and dose. The duration in hours times 60 is the duration in minutes. |
| Curve.ConvertedDrinkValid | src/components/CaffeineCurveDialog.tsx:30-36 | A converted drink passes the calculator's checks exactly when its caffeine and minutes are positive and its time parses. |
| Curve.ConvertAll | src/components/CaffeineChart.tsx:49-52 | Converts every drink, in order. |
| Curve.Least | src/components/CaffeineChart.tsx:39 | `Math.min` over the parsed times. Succeeds exactly when every parse succeeds, and is then a member of the list and at most every member. Otherwise it is the first failure. |
| Curve.EarliestDrinkTime | src/components/CaffeineChart.tsx:39 | The earliest start time of the drinks, or the first drink's time error. |
| Curve.StartTime | src/components/CaffeineChart.tsx:40 | Half an hour before the earliest drink, but not before 0. |
| Curve.ScaleToMg | src/components/CaffeineChart.tsx:57 | Keeps the calculator's error. A success is the concentration times the volume of distribution 0.6·0.453592·weight, and is non-negative for a non-negative concentration. |
| Curve.MgInBody | src/components/CaffeineChart.tsx:57 | mg/L times the body's litres: the concentration times the volume of distribution, non-negative for a non-negative concentration and a positive weight. |
| Curve.BodyLitres | src/components/CaffeineCurveDialog.tsx:66 | The chart's `weightLbs * 0.453592 * 0.6` is the calculator's volume of distribution, and is positive for a positive weight. |
| Curve.ScaledTotalVerdict | src/components/CaffeineChart.tsx:47-57 | The scaled total fails exactly on bad calculator input, with the calculator's error. |
| Curve.VerdictIgnoresTime | src/components/CaffeineChart.tsx:47-55 | At any two sample times the calculator succeeds at both, or fails at both with the same error. |
| Curve.TrailingLow | src/components/CaffeineChart.tsx:64-68 | The low-reading counter never exceeds the number of readings; `TrailingLowRun` states what it counts. |
| Curve.TrailingLowRun | src/components/CaffeineChart.tsx:64-68 | The low-reading counter counts exactly the trailing readings under 30 mg. |
| Curve.GenerateDataPoints | src/components/CaffeineChart.tsx:36-74 | No drinks gives no points, and a bad drink time fails with its error. Otherwise: the run fails exactly on bad calculator input. A finished run holds samples j = 0.. at start + j/4 hours with the scaled total there, ends on exactly four readings under 30 mg, and did not stop earlier. |
| Curve.SampleFrom | src/components/CaffeineCurveDialog.tsx:51-81 | The `while` loop: the same outcome as above, from a given start time. |
| Curve.FindThirtyMgTime | src/components/CaffeineChart.tsx:76-87 | Absent exactly when no reading from index 1 on is under 30 mg and below its predecessor. Otherwise it is the time of such a reading. |
| Curve.FinishedCurveFallsBelow | src/components/CaffeineCurveDialog.tsx:87-98 | A finished curve with more than four points has a falling edge under 30 mg where its final low run starts. |
| Curve.SamplesQuarterHourApart | src/components/CaffeineChart.tsx:70 | Consecutive samples are exactly a quarter hour apart. |
| Curve.FormatTimeLabel | src/components/CaffeineChart.tsx:89-97 | The label is the 12-hour text of the wrapped clock, followed by " (next day)" exactly when the time is 24 hours or later. |
| Drinks.FindPreset | src/components/DrinkForm.tsx:64 | `find` by id: absent exactly when no preset has the id. Otherwise it is a preset with that id. |
| Drinks.FindPresetOfMember | src/components/DrinkForm.tsx:64 | With distinct ids, looking up a member's id finds that member. |
| Drinks.CatalogIdsDistinct | src/data/predefinedDrinks.ts:9-40 | No two presets in the catalogue share an id. |
| Drinks.FindCatalogEntry | src/components/DrinkForm.tsx:64 | Looking up a catalogue preset's id finds that preset. |
| Drinks.CatalogIdsNonEmpty | src/data/predefinedDrinks.ts:9-40 | No preset in the catalogue has an empty id. |
| Drinks.CatalogCaffeinePositive | src/data/predefinedDrinks.ts:9-40 | Every preset has positive caffeine. |
| TimePicker.HourUp | src/components/TimePickerDialog.tsx:28-39 | Changes only the hour. |
| TimePicker.HourDown | src/components/TimePickerDialog.tsx:41-52 | Changes only the hour. |
| TimePicker.MinuteUp | src/components/TimePickerDialog.tsx:54-64 | Changes only the minute. |
| TimePicker.MinuteDown | src/components/TimePickerDialog.tsx:66-76 | Changes only the minute. |
| TimePicker.HourUpTurnsDial | src/components/TimePickerDialog.tsx:28-39 | On the dial, the next hour is h mod 12 + 1 and stays on the dial. |
| TimePicker.HourDownTurnsDial | src/components/TimePickerDialog.tsx:41-52 | On the dial, the previous hour is (h + 10) mod 12 + 1 and stays on the dial. |
| TimePicker.HourStepsInverse | src/components/TimePickerDialog.tsx:28-52 | Decrement undoes increment, and increment undoes decrement. |
| TimePicker.MinuteUpTurnsDial | src/components/TimePickerDialog.tsx:54-64 | On a quarter hour, the next minute is (m + 15) mod 60 and is a quarter hour again. |
| TimePicker.MinuteDownTurnsDial | src/components/TimePickerDialog.tsx:66-76 | On a quarter hour, the previous minute is (m + 45) mod 60 and is a quarter hour again. |
| TimePicker.MinuteDownUndoesUp | src/components/TimePickerDialog.tsx:54-76 | On a quarter hour, the minute decrement undoes the increment. |
| TimePicker.MinuteUpUndoesDown | src/components/TimePickerDialog.tsx:54-76 | On a quarter hour, the minute increment undoes the decrement. |
| TimePicker.FourQuartersMakeAnHour | src/components/TimePickerDialog.tsx:54-64 | Four minute increments return to the same time. |
| TimePicker.Toggled | src/components/TimePickerDialog.tsx:78-83 | Flips the period and keeps hour and minute. |
| TimePicker.ToggleTwice | src/components/TimePickerDialog.tsx:78-83 | Toggling twice changes nothing. |
| TimePicker.TimePickerDialog.constructor | src/components/TimePickerDialog.tsx:19 | The picker starts at the value passed in. |
| TimePicker.TimePickerDialog.IncrementHour | src/components/TimePickerDialog.tsx:28-39 | The new time is `HourUp` of the old one. A time on the dial stays on it. |
| TimePicker.TimePickerDialog.DecrementHour | src/components/TimePickerDialog.tsx:41-52 | The new time is `HourDown` of the old one. A time on the dial stays on it. |
| TimePicker.TimePickerDialog.IncrementMinute | src/components/TimePickerDialog.tsx:54-64 | The new time is `MinuteUp` of the old one. A time on the dial stays on it. |
| TimePicker.TimePickerDialog.DecrementMinute | src/components/TimePickerDialog.tsx:66-76 | The new time is `MinuteDown` of the old one. A time on the dial stays on it. |
| TimePicker.TimePickerDialog.TogglePeriod | src/components/TimePickerDialog.tsx:78-83 | The new time is the old one with the other period. A time on the dial stays on it. |
| TimePicker.TimePickerDialog.HandleSave | src/components/TimePickerDialog.tsx:85-88 | Hands the current time to the parent. |
| DrinkForm.ParseTime | src/components/DrinkForm.tsx:20-28 | A valid "HH:mm" gives the dial hour, the padded minute, and PM exactly from noon on. Any other text gives components that cannot be read back. |
| DrinkForm.Hours24 | src/components/DrinkForm.tsx:31-33 | A dial hour becomes an hour in 0..23 with that dial hour and that period ("12 AM" is 0, "12 PM" is 12). |
| DrinkForm.FormatTime | src/components/DrinkForm.tsx:30-35 | When the dial hour and the minute read as numbers, the text reads back as the 24-hour hour and that minute. |
| DrinkForm.FormatTimeIsClockText | src/components/DrinkForm.tsx:30-35 | For readable components the result is the padded "HH:mm" text of a time of day. |
| DrinkForm.FormatAfterParse | src/components/DrinkForm.tsx:20-35 | Formatting the parse of a valid "HH:mm" gives the text back. |
| DrinkForm.ParseAfterFormat | src/components/DrinkForm.tsx:20-35 | Parsing the format of readable components gives them back. |
| DrinkForm.DefaultTimeComponents | src/components/DrinkForm.tsx:37 | The default components, parsed from "08:00", are 8:00 AM. |
| DrinkForm.SubmittedTimeIsAccepted | src/components/DrinkForm.tsx:67 | The submitted time parses in the calculator, to the 24-hour hour plus minutes/60. |
| DrinkForm.QuarterHourIsPadded | src/components/DrinkForm.tsx:114 | Every minute the picker can produce is a padded minute. |
| DrinkForm.NextDuration | src/components/DrinkForm.tsx:56-61 | The duration moves by the change when that stays in 15..480, and stays put otherwise. The range is kept. |
| DrinkForm.StepButtonsMatchGuard | src/components/DrinkForm.tsx:123-137 | On the 15-minute grid, a step button changes the duration exactly when it is not disabled, and the result stays on the grid. |
| DrinkForm.NoEmptyPresetId | src/components/DrinkForm.tsx:64-65 | With nothing selected, the lookup finds no preset. |
| DrinkForm.SubmittedDrinkIsAccepted | src/components/DrinkForm.tsx:63-78 | A drink built from a found preset, readable components and a positive duration passes the calculator's checks. Its time parses back to the same components. |
| DrinkForm.DrinkFormState.constructor | src/components/DrinkForm.tsx:46-54 | No preset selected. The initial time is parsed unless it is missing or empty, else "08:00". The initial duration is used unless it is missing or 0, else 15. |
| DrinkForm.DrinkFormState.SelectPreset | src/components/DrinkForm.tsx:86 | Sets only the selection. |
| DrinkForm.DrinkFormState.SetTimeComponents | src/components/DrinkForm.tsx:114 | Sets only the time components. |
| DrinkForm.DrinkFormState.HandleDurationChange | src/components/DrinkForm.tsx:56-61 | The duration becomes `NextDuration` of the old one. Nothing else changes. |
| DrinkForm.DrinkFormState.MinusDisabled | src/components/DrinkForm.tsx:124 | On the 15-minute grid in range, the minus button is disabled exactly when pressing it would leave the duration unchanged. |
| DrinkForm.DrinkFormState.PlusDisabled | src/components/DrinkForm.tsx:137 | On the 15-minute grid in range, the plus button is disabled exactly when pressing it would leave the duration unchanged. |
| DrinkForm.DrinkFormState.SubmitDisabled | src/components/DrinkForm.tsx:158 | The Add button is disabled exactly when no drink is selected, and then the lookup finds no preset, so a submit would build nothing. |
| DrinkForm.DrinkFormState.HandleSubmit | src/components/DrinkForm.tsx:63-78 | Submits nothing exactly when no preset has the selected id, in particular when submit is disabled. Otherwise it submits that preset's name and caffeine with the formatted time and the duration, and in a valid form the drink passes the calculator's checks. |
| App.WithoutId | src/App.tsx:22-24 | The filter keeps exactly the drinks with another id, and never lengthens the list. |
| App.WithoutIdAppend | src/App.tsx:23 | The filter distributes over concatenation. |
| App.WithoutAbsentId | src/App.tsx:22-24 | Deleting an id that no drink has leaves the list unchanged. |
| App.WithoutIdIdempotent | src/App.tsx:22-24 | Deleting twice is the same as deleting once. |
| App.AddThenDelete | src/App.tsx:18-24 | Adding a drink with a new id and then deleting that id restores the list. |
| App.ChartInputsAccepted | src/App.tsx:60-64 | Accepted drinks with a positive half-life and weight leave the calculator nothing to reject. |
| App.AppState.constructor | src/App.tsx:13-15 | No drinks, half-life 5 and weight 155: the calculator's own default weight. |
| App.AppState.HandleAddDrink | src/App.tsx:18-20 | Appends the drink and keeps the settings. |
| App.AppState.HandleDeleteDrink | src/App.tsx:22-24 | The list becomes its filter by id. The settings stay. A valid state stays valid. |
| App.AppState.SetSensitivity | src/App.tsx:48 | Sets only the half-life. |
| App.AppState.SetWeightLbs | src/App.tsx:55 | Sets only the weight. |
| App.AppState.ChartAcceptsState | src/App.tsx:60-64 | In a valid state, the drinks, half-life and weight handed to the chart pass the calculator's input checks. |
| WeightSelector.WeightChange | src/components/WeightSelector.tsx:14-19 | Emits value + change exactly when that stays in 100..300. |
| WeightSelector.ButtonsMatchGuard | src/components/WeightSelector.tsx:28-42 | On the 5 lb grid, a button emits exactly when it is not disabled, and emits a weight on the grid. |
| WeightSelector.Selector.constructor | src/components/WeightSelector.tsx:13 | The shown weight is the value passed in. |
| WeightSelector.Selector.HandleWeightChange | src/components/WeightSelector.tsx:14-19 | Emits `WeightChange` of the old weight. The shown weight becomes what was emitted, if anything. |
| WeightSelector.Selector.Minus | src/components/WeightSelector.tsx:28 | Emits `WeightChange` of the old weight by -5: 5 lb less when that stays in 100..300, nothing otherwise. |
| WeightSelector.Selector.MinusDisabled | src/components/WeightSelector.tsx:29 | On the 5 lb grid in range, the minus button is disabled exactly when pressing it would emit nothing. |
| WeightSelector.Selector.Plus | src/components/WeightSelector.tsx:41 | Emits `WeightChange` of the old weight by +5: 5 lb more when that stays in 100..300, nothing otherwise. |
| WeightSelector.Selector.PlusDisabled | src/components/WeightSelector.tsx:42 | On the 5 lb grid in range, the plus button is disabled exactly when pressing it would emit nothing. |
| Sensitivity.SensitivityToHours | src/components/SensitivitySlider.tsx:9-11 | Levels 1..5 are exactly the half-lives 3..7. Level 1 is 3 hours and level 5 is 7 hours. |
| Sensitivity.LevelsAddHours | src/components/SensitivitySlider.tsx:9-11 | Each level up adds one hour: the map is strictly increasing and keeps differences. |
| Sensitivity.HoursToSensitivity | src/components/SensitivitySlider.tsx:14-16 | Half-lives 3..7 are exactly the levels 1..5. 3 hours is level 1 and 7 hours is level 5. |
| Sensitivity.MapsInverse | src/components/SensitivitySlider.tsx:9-16 | The two maps undo each other, both ways round. |
| Sensitivity.SensitivityLabel | src/components/SensitivitySlider.tsx:48 | A label exists exactly for half-lives 3..7. Half-life h shows the label at index h - 3, from "Very Tolerant" at 3 hours to "Very Sensitive" at 7. |
| Sensitivity.LabelsTellHalfLivesApart | src/components/SensitivitySlider.tsx:18-24 | Different half-lives show different labels. 5 hours shows "Average". |
| Sensitivity.HandleChange | src/components/SensitivitySlider.tsx:30-33 | The emitted half-life reads back as the level. Levels 1..5 give 3..7 hours, which have a label. |

## Left out

- Malformed times. The model reads numerals strictly (an optional '-' and digits) and rejects any other part as `NotNumeric`: `Format.TimeToDecimal` fails and `Format.FormatTime` returns None. The source does not reject them, and its validation lets NaN times through:
  - `Number` turns a non-numeric part into NaN. NaN fails every comparison of the range check (format.ts:32, getCaffeineConcentration.ts:31), so `timeToDecimal` returns NaN instead of throwing, even in the "Validate time format" call at getCaffeineConcentration.ts:58.
  - In the calculator, a NaN elapsed time fails all three comparisons at getCaffeineConcentration.ts:70, :74 and :77, so that drink adds 0 (:82) and is dropped silently. A malformed current time makes the whole total 0.
  - `formatTime` prints NaN hours as "12 AM", because `NaN % 12 || 12` is 12 (format.ts:20-21). Only NaN minutes print as "NaN".
  - A text without ':', such as "9", has no minutes: `formatTime` throws a TypeError at format.ts:22, and `timeToDecimal` returns NaN.
  - `Number("")` is 0, so the source reads "08:" as 8:00 and ":30" as 0:30. The model rejects both.
  - `Number`'s whitespace, sign and exponent forms, and `parseInt`'s acceptance of trailing garbage, are not reproduced.
- Floating point. Times, doses and concentrations are exact reals, with no rounding error. `Math.round` is floor(x + 0.5).
- `Math.exp` and `Math.log` are not computed. The model is proved for every `exp`/`ln` pair satisfying `Lawful`.
- Concentration.GetTotalCaffeineConcentration: the `Array.isArray` check (getCaffeineConcentration.ts:51) is left out, because a sequence is always an array.
- Curve.GenerateDataPoints: the loop has no bound in the source. The model stops after `fuel` samples and reports `OutOfFuel`.
- Curve.DecimalToClock: only non-negative times are modelled. The sampler never passes a negative one.
- `new Date` in `parseTime`. The model accepts the padded "HH:mm" texts of a day, the only ones the form writes. Any other text is treated as an invalid date ("12", "NaN", AM). Other texts a browser would accept are not modelled.
- Drink fields: caffeine and minutes are integers, as the form produces them. The record's `label` is called `name`.
- Drink ids come from `Date.now()` in the source; `HandleSubmit` takes the id as a parameter.
- React rendering, effects and dialogs are not modelled: JSX, `useEffect`, the picker's reset when it opens (TimePickerDialog.tsx:22-26), `onOpenChange(false)` after save, and the open/close state of the dialogs.
- The presentational components are not part of this model: `DrinkFormDialog.tsx`, `DrinkList.tsx`, `Footer.tsx`, `GeometricOverlay.tsx`, the chart's SVG and tooltip rendering, and `formatDuration`'s use in the list.
