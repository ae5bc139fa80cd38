# Russian relative-time formatting: a Dafny model of `Date.kt`

This project models the date extensions of the dev-intensive-2019 Android app
(`ru.skillbranch.devintensive.extensions`, file `Date.kt`). The file does four things.

- It has the `TimeUnits` enum (`SECOND`, `MINUTE`, `HOUR`, `DAY`) with millisecond
  magnitudes. Its `plural` renders a count with the Russian noun form that agrees with
  it: the "few" form (минуты), the singular (минуту) or the "many" form (минут). The
  choice depends on the last digit and a reduced tens digit.
- `Date.humanizeDiff` describes how far one time is from another. It tries nine
  tiers in order on the absolute millisecond difference: "только что",
  "несколько секунд", "минуту", N minutes, "час", N hours, "день", N days and
  "более года". Each tier is written in a past ("… назад") or future ("через …") form.
- `Date.add` moves a time by a number of units.
- `isSameDay` compares day numbers, and `shortFormat` uses it to choose between a
  clock pattern and a date pattern.

Times are unbounded integers (milliseconds since the epoch). All operations are
pure functions. The current time, which the source reads from `Date()`, is an
explicit parameter.

Modules:

- `KotlinInt` (`kotlin_int.dfy`): Kotlin's truncating `/` and `%`. Dafny's own
  operators are Euclidean.
- `Decimal` (`decimal.dfy`): the text `"$value"` Kotlin produces for an `Int`, and a
  parser that reads it back.
- `TimeUnits` (`time_units.dfy`): the units, their magnitudes, the table of noun
  forms, the normalising loop, the digit rules and `Plural`.
- `DateExt` (`date_ext.dfy`): `Add`, `IsSameDay` and the pattern `shortFormat` chooses.
- `Humanize` (`humanize.dfy`): the tier cascade (`Classify`), its wording (`Render`)
  and `HumanizeDiff`.

Behaviour reproduced from the code as written:

- Day numbers use Kotlin's truncating division, not floor division. The two differ
  before the epoch. All times in `(-DAY, DAY)` get day number 0
  (`DateExt.EpochDayIsDoubleWidth`).
- `plural` of a negative count is handled: Kotlin's remainder is then at most 0,
  so the "many" form is always chosen (`TimeUnits.PluralNegative`).
- The normalising loop (`while (quotient > 100) quotient /= 10`) is kept. From 0
  to 1009 it does not run, and the guard is the true tens digit. From 1010 on it
  looks at the last digit of a shorter quotient (`TimeUnits.TensGuardAboveLoop`).
  For example, 1011 takes the singular form although it ends in 11
  (`TimeUnits.ReducedGuardAt1011`), and 1101 takes the "many" form although it
  ends in 01 (`TimeUnits.ReducedGuardAt1101`). `humanizeDiff`
  never passes a count above 360, so its output is unaffected.

## Model

| member | source | states |
|---|---|---|
| `KotlinInt.Abs` | app/src/main/java/ru/skillbranch/devintensive/extensions/Date.kt:36 | `abs(diff)` is a non-negative number equal to the difference or to its negation. |
| `KotlinInt.TruncDiv` | app/src/main/java/ru/skillbranch/devintensive/extensions/Date.kt:22 | Kotlin's quotient rounds toward zero. It agrees with Euclidean division for a non-negative dividend. Its multiple of the divisor lies between 0 and the dividend. |
| `KotlinInt.TruncRem` | app/src/main/java/ru/skillbranch/devintensive/extensions/Date.kt:66 | Kotlin's remainder completes the truncated quotient to the dividend. It has the dividend's sign and is smaller than the divisor. |
| `Decimal.Digits` | app/src/main/java/ru/skillbranch/devintensive/extensions/Date.kt:72-74 | The digits of a count are non-empty and all decimal. There is a single digit exactly below 10, and a leading zero only for 0. |
| `Decimal.FromInt` | app/src/main/java/ru/skillbranch/devintensive/extensions/Date.kt:72-74 | The rendered count is a numeral without spaces. It starts with '-' exactly for negative values. |
| `Decimal.DigitsRoundTrip` | app/src/main/java/ru/skillbranch/devintensive/extensions/Date.kt:72-74 | Reading the digits of n back gives n. |
| `Decimal.FromIntRoundTrip` | app/src/main/java/ru/skillbranch/devintensive/extensions/Date.kt:72-74 | Parsing the rendered text of any Int gives that Int back. |
| `Decimal.FromIntInjective` | app/src/main/java/ru/skillbranch/devintensive/extensions/Date.kt:72-74 | Different counts are rendered as different text. |
| `TimeUnits.Magnitude` | app/src/main/java/ru/skillbranch/devintensive/extensions/Date.kt:7-10 | Every unit is a positive whole number of seconds. |
| `TimeUnits.Forms` | app/src/main/java/ru/skillbranch/devintensive/extensions/Date.kt:59-64 | Every unit has three forms in the table, so the lookup never yields null. The forms are distinct, non-empty words without spaces. |
| `TimeUnits.ReduceQuotient` | app/src/main/java/ru/skillbranch/devintensive/extensions/Date.kt:67-68 | The loop terminates with a quotient of at most 100. It leaves a quotient of at most 100 unchanged and brings a larger one into [10, 100]. |
| `TimeUnits.ReduceQuotientIsFirstSmallQuotient` | app/src/main/java/ru/skillbranch/devintensive/extensions/Date.kt:67-68 | For a quotient above 100, the loop yields q / 10^k with k ≥ 1, and q / 10^(k-1) still exceeds 100. So it stops at the first power of ten that brings q down to 100. |
| `TimeUnits.TensGuard` | app/src/main/java/ru/skillbranch/devintensive/extensions/Date.kt:67-69 | For counts 0..1009 the teen guard is the true tens digit. It is a digit in 0..9 for non-negative counts and in -9..0 for negative ones. |
| `TimeUnits.CategoryOf` | app/src/main/java/ru/skillbranch/devintensive/extensions/Date.kt:66-75 | For counts 0..1009: "few" exactly when the last digit is 2..4 and the tens digit is not 1. Singular exactly when the last digit is 1 and the tens digit is not 1. Negative counts take "many". |
| `TimeUnits.CategoryByGuard` | app/src/main/java/ru/skillbranch/devintensive/extensions/Date.kt:66-75 | For every non-negative count: "few" exactly when the last digit is 2..4 and the reduced guard is not 1, singular exactly when the last digit is 1 and the guard is not 1, "many" otherwise. With `TensGuardAboveLoop` this gives the rule from 1010 on. |
| `TimeUnits.Plural` | app/src/main/java/ru/skillbranch/devintensive/extensions/Date.kt:58-75 | The result is the count's decimal text, a space, and one of the unit's three forms. |
| `TimeUnits.PluralReadsBack` | app/src/main/java/ru/skillbranch/devintensive/extensions/Date.kt:71-75 | Splitting the phrase at its first space gives text that parses back to the count. The word after the space is the form the digit rules chose. |
| `TimeUnits.PluralDigitRules` | app/src/main/java/ru/skillbranch/devintensive/extensions/Date.kt:66-75 | For counts 0..1009, the word in the output follows the digit rules: singular iff last digit 1 and not a teen, "few" iff last digit 2..4 and not a teen, "many" otherwise. |
| `TimeUnits.PluralNegative` | app/src/main/java/ru/skillbranch/devintensive/extensions/Date.kt:66-75 | A negative count always gets the "many" form. |
| `TimeUnits.TensGuardAboveLoop` | app/src/main/java/ru/skillbranch/devintensive/extensions/Date.kt:67-69 | For counts from 1010 on, the guard is the last digit of value / 10^j, for the first j ≥ 2 that brings the quotient to at most 100, not the tens digit. |
| `TimeUnits.CategoryExamplesOneFew` | app/src/main/java/ru/skillbranch/devintensive/extensions/Date.kt:72-73 | 1 and 21 take the singular form and 2 takes the "few" form. |
| `TimeUnits.CategoryExamplesMany` | app/src/main/java/ru/skillbranch/devintensive/extensions/Date.kt:71-75 | 0, 5 and the teen 11 take the "many" form. |
| `TimeUnits.PluralMinuteExample` | app/src/main/java/ru/skillbranch/devintensive/extensions/Date.kt:73 | `MINUTE.plural(21)` is "21 минуту". |
| `TimeUnits.ReducedGuardAt1011` | app/src/main/java/ru/skillbranch/devintensive/extensions/Date.kt:67-69 | At 1011 the reduced guard is 0, not the true tens digit 1. So 1011 takes the singular form although it ends in 11. |
| `TimeUnits.ReducedGuardAt1101` | app/src/main/java/ru/skillbranch/devintensive/extensions/Date.kt:65-75 | At 1101 the reduced guard is 1, not the true tens digit 0. So 1101 takes the "many" form although it ends in 01. |
| `DateExt.Add` | app/src/main/java/ru/skillbranch/devintensive/extensions/Date.kt:24-32 | The time moves by exactly value × magnitude(unit): forward for a positive value, backward for a negative one. |
| `DateExt.AddThenSubtract` | app/src/main/java/ru/skillbranch/devintensive/extensions/Date.kt:24-32 | Adding v units and then -v units of the same unit restores the original time. |
| `DateExt.AddZero` | app/src/main/java/ru/skillbranch/devintensive/extensions/Date.kt:24-32 | Adding 0 units changes nothing. |
| `DateExt.AddComposes` | app/src/main/java/ru/skillbranch/devintensive/extensions/Date.kt:24-32 | Two shifts in the same unit equal one shift by their sum. |
| `DateExt.AddUnitsNest` | app/src/main/java/ru/skillbranch/devintensive/extensions/Date.kt:7-10 | Shifting by a minute, an hour or a day equals shifting by 60 seconds, 60 minutes or 24 hours. |
| `DateExt.SameDayFloor` | app/src/main/java/ru/skillbranch/devintensive/extensions/Date.kt:22 | For times not before the epoch, same day means equal floor day numbers. |
| `DateExt.SameDayIsClose` | app/src/main/java/ru/skillbranch/devintensive/extensions/Date.kt:22 | Same-day times on one side of the epoch are less than a day apart. Across the epoch they are less than two days apart. |
| `DateExt.SameDayEquivalence` | app/src/main/java/ru/skillbranch/devintensive/extensions/Date.kt:22 | The same-day test is reflexive, symmetric and transitive. |
| `DateExt.EpochDayIsDoubleWidth` | app/src/main/java/ru/skillbranch/devintensive/extensions/Date.kt:22 | -(DAY-1) and DAY-1 count as the same day, although their floor day numbers differ. |
| `DateExt.DayBeforeEpoch` | app/src/main/java/ru/skillbranch/devintensive/extensions/Date.kt:22 | For every k < 0, the times with day number k are exactly those in ((k-1)·DAY, k·DAY]. |
| `DateExt.BeforeEpochDayBoundary` | app/src/main/java/ru/skillbranch/devintensive/extensions/Date.kt:22 | Before the epoch a truncated day ends at its upper bound: -1 and -DAY are different days although their floor day numbers agree, and -DAY and -2·DAY+1 are the same day although their floor day numbers differ. |
| `DateExt.ShortPattern` | app/src/main/java/ru/skillbranch/devintensive/extensions/Date.kt:17-18 | "HH:mm" is chosen exactly when the time is on the current day, and "dd.MM.yy" exactly when it is not. For times from the epoch on, that means equal floor day numbers. |
| `DateExt.ShortPatternDays` | app/src/main/java/ru/skillbranch/devintensive/extensions/Date.kt:17-18 | A time gets the clock pattern when it is also the reference. It gets the date pattern seen one day later (from the epoch on). |
| `Humanize.Classify` | app/src/main/java/ru/skillbranch/devintensive/extensions/Date.kt:39-51 | Each tier is exactly one half-open millisecond band: [0,2 s), [2 s,46 s), [46 s,76 s), [76 s,46 min), [46 min,76 min), [76 min,23 h), [23 h,27 h), [27 h,361 d), [361 d,∞). The counts are the truncated quotients, in [1,45] minutes, [1,22] hours and [1,360] days. |
| `Humanize.Thresholds` | app/src/main/java/ru/skillbranch/devintensive/extensions/Date.kt:40-50 | Each quotient test of the cascade equals a millisecond bound. For example, `absDiff / MINUTE <= 75` holds exactly when absDiff < 76 min. Three further facts, `absDiff / UNIT <= 0` exactly when absDiff < 1 UNIT for minutes, hours and days, give the counts their lower bound of 1. |
| `Humanize.CountedFutureIsNotPast` | app/src/main/java/ru/skillbranch/devintensive/extensions/Date.kt:43-50 | A future counted phrase in minutes, hours or days never ends in " назад". |
| `Humanize.FixedFutureIsNotPast` | app/src/main/java/ru/skillbranch/devintensive/extensions/Date.kt:41-51 | None of the future fixed phrases ends in " назад". |
| `Humanize.RenderPastOrFuture` | app/src/main/java/ru/skillbranch/devintensive/extensions/Date.kt:40-51 | Only the first tier's wording is "только что". Every other tier's wording ends in " назад" exactly in its past form. |
| `Humanize.HumanizeDiff` | app/src/main/java/ru/skillbranch/devintensive/extensions/Date.kt:34-52 | The result is "только что" exactly when the two times are less than 2 s apart, in either order. Otherwise it ends in " назад" exactly when the receiver is earlier than the reference. |
| `Humanize.FromBothSides` | app/src/main/java/ru/skillbranch/devintensive/extensions/Date.kt:35-37 | A time d > 0 ms before the reference gets the past wording of the tier of d. A time d ms after it gets the future wording of the same tier. |
| `Humanize.CountedTiersMirror` | app/src/main/java/ru/skillbranch/devintensive/extensions/Date.kt:43-50 | In the minute, hour and day tiers, the past and future phrases for the same distance embed the same `plural(d / UNIT)`. The past one is that text plus " назад", the future one is "через " plus that text. |
| `Humanize.FixedPhraseTiers` | app/src/main/java/ru/skillbranch/devintensive/extensions/Date.kt:41-51 | Gives the past and future fixed phrase of every uncounted tier for each distance in its band. |
| `Humanize.FewSecondsSpelling` | app/src/main/java/ru/skillbranch/devintensive/extensions/Date.kt:41 | The past and future templates around "несколько секунд" spell out exactly the source's two phrases. |
| `Humanize.FixedPhraseSpelling` | app/src/main/java/ru/skillbranch/devintensive/extensions/Date.kt:42-51 | The templates around "минуту", "час", "день" and "более года" spell out exactly the source's phrases. |

## Left out

- `format` and the rendering in `shortFormat` call `SimpleDateFormat` with `Locale("ru")`, an external formatting library. Only the choice of pattern string is modelled (`DateExt.ShortPattern`).
- `Date()` reads the wall clock. `humanizeDiff` uses it as the default of its `date` argument, and `shortFormat` calls it inside its body. `DateExt.ShortPattern` therefore takes a `now` parameter that `shortFormat` does not have, and `HumanizeDiff` always takes its reference time explicitly.
- `Date.add` mutates its receiver and returns it. Only the resulting time is modelled, as the result of a pure function. Aliasing through the shared `Date` object is a JVM object-identity concern.
- Times are unbounded integers. 64-bit `Long` overflow is not modelled: `abs(Long.MIN_VALUE)` staying negative, or an `add` that overflows.
- The 32-bit width of the `Int` parameters of `add` and `plural` is not enforced.
- `.toInt()` of the counts is the identity here. The counts `humanizeDiff` passes are at most 360, so the conversion cannot truncate them.
- The Cyrillic phrases are string constants copied from the source. Nothing about their wording is verified beyond which one is chosen and how the templates wrap the counted phrases.
