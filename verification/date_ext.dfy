/**
 The arithmetic extensions on `Date` from Date.kt: shifting a time by a number
 of units, the same-day test, and the pattern `shortFormat` picks with it.
 Times are milliseconds since the epoch.
 */
module DateExt {
  import opened TimeUnits
  import KotlinInt

  /**
   `Date.add(value, units)`: the time moved by `value` units (seconds when no
   unit is given). The source mutates its receiver and returns it; here the
   moved time is the result.
   */
  function Add(time: int, value: int, u: TimeUnit := Second): (r: int)
    ensures r - time == value * Magnitude(u)
    ensures value > 0 ==> r > time
    ensures value < 0 ==> r < time
  {
    time + match u
      case Second => value * SECOND
      case Minute => value * MINUTE
      case Hour => value * HOUR
      case Day => value * DAY
  }

  /** Adding `value` units and then `-value` of the same unit restores the time. */
  lemma AddThenSubtract(time: int, value: int, u: TimeUnit)
    ensures Add(Add(time, value, u), -value, u) == time
  {
  }

  /** Adding zero units changes nothing. */
  lemma AddZero(time: int, u: TimeUnit)
    ensures Add(time, 0, u) == time
  {
  }

  /** Two shifts by the same unit compose into one shift by the sum. */
  lemma AddComposes(time: int, a: int, b: int, u: TimeUnit)
    ensures Add(Add(time, a, u), b, u) == Add(time, a + b, u)
  {
  }

  /** A shift by a coarse unit is the same shift counted in the next finer unit. */
  lemma AddUnitsNest(time: int, value: int)
    ensures Add(time, value, Minute) == Add(time, 60 * value, Second)
    ensures Add(time, value, Hour) == Add(time, 60 * value, Minute)
    ensures Add(time, value, Day) == Add(time, 24 * value, Hour)
  {
  }

  /**
   `isSameDay`: equal day numbers, where a day number is Kotlin's truncating
   `time / DAY`. For times not before the epoch this is floor division
   (`SameDayFloor`). Before the epoch, day k < 0 is ((k-1)·DAY, k·DAY]
   rather than the floor day (`DayBeforeEpoch`), and all of (-DAY, DAY) is
   day 0.
   */
  predicate IsSameDay(a: int, b: int)
  {
    KotlinInt.TruncDiv(a, DAY) == KotlinInt.TruncDiv(b, DAY)
  }

  /** For times not before the epoch, same day means equal floor day numbers. */
  lemma SameDayFloor(a: int, b: int)
    requires a >= 0 && b >= 0
    ensures IsSameDay(a, b) <==> a / DAY == b / DAY
  {
  }

  /** Same-day times on one side of the epoch are less than a day apart; across it, less than two. */
  lemma SameDayIsClose(a: int, b: int)
    requires IsSameDay(a, b)
    ensures -2 * DAY < a - b < 2 * DAY
    ensures (a >= 0) == (b >= 0) ==> -DAY < a - b < DAY
  {
  }

  /** Same-day is an equivalence relation. */
  lemma SameDayEquivalence(a: int, b: int, c: int)
    ensures IsSameDay(a, a)
    ensures IsSameDay(a, b) <==> IsSameDay(b, a)
    ensures IsSameDay(a, b) && IsSameDay(b, c) ==> IsSameDay(a, c)
  {
  }

  /** Truncation makes the day around the epoch twice as wide as a floor-based day. */
  lemma EpochDayIsDoubleWidth()
    ensures IsSameDay(-(DAY - 1), DAY - 1)
    ensures (-(DAY - 1)) / DAY != (DAY - 1) / DAY
  {
  }

  /** Day k < 0 holds the times in ((k-1)·DAY, k·DAY]: it includes its upper end and not its lower one. */
  lemma DayBeforeEpoch(a: int, k: int)
    requires k < 0
    ensures KotlinInt.TruncDiv(a, DAY) == k <==> (k - 1) * DAY < a <= k * DAY
  {
    if (k - 1) * DAY < a <= k * DAY {
      var q := KotlinInt.TruncDiv(a, DAY);
      assert q * DAY - k * DAY == DAY * (q - k);
      ProductInOpenBand(DAY, q - k);
    }
  }

  /** Before the epoch the truncated day is shifted by one millisecond against the floor day. */
  lemma BeforeEpochDayBoundary()
    ensures !IsSameDay(-1, -DAY) && (-1) / DAY == (-DAY) / DAY
    ensures IsSameDay(-DAY, -(2 * DAY) + 1) && (-DAY) / DAY != (-(2 * DAY) + 1) / DAY
  {
  }

  const TIME_PATTERN: string := "HH:mm"
  const DATE_PATTERN: string := "dd.MM.yy"

  /** The pattern `shortFormat` renders `time` with, given the current time `now`. */
  function ShortPattern(time: int, now: int): (p: string)
    ensures p == TIME_PATTERN <==> IsSameDay(time, now)
    ensures p == DATE_PATTERN <==> !IsSameDay(time, now)
    ensures time >= 0 && now >= 0 ==> (p == TIME_PATTERN <==> time / DAY == now / DAY)
  {
    if IsSameDay(time, now) then TIME_PATTERN else DATE_PATTERN
  }

  /** A time is shown as a clock time on its own day and as a date a day later. */
  lemma ShortPatternDays(time: int)
    ensures ShortPattern(time, time) == TIME_PATTERN
    ensures time >= 0 ==> ShortPattern(time, Add(time, 1, Day)) == DATE_PATTERN
  {
  }
}
