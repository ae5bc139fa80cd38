/**
 `Date.humanizeDiff` from Date.kt: the signed difference between two times,
 classified into nine tiers tried in order (first match wins), rendered as a
 fixed Russian phrase or as a pluralised count in a past ("… назад") or
 future ("через …") template.
 */
module Humanize {
  import opened TimeUnits
  import KotlinInt
  import Decimal

  /** The tiers of the `when` cascade; the counted ones carry the count passed to `plural`. */
  datatype Tier =
    | JustNow
    | FewSeconds
    | OneMinute
    | Minutes(count: int)
    | OneHour
    | Hours(count: int)
    | OneDay
    | Days(count: int)
    | OverAYear

  /**
   The cascade on the absolute difference in milliseconds. Every test compares
   a truncated quotient with a threshold, so each tier is a half-open band of
   milliseconds, and each count lies in the range the earlier tests leave.
   */
  function Classify(absDiff: nat): (t: Tier)
    ensures t == JustNow <==> absDiff < 2 * SECOND
    ensures t == FewSeconds <==> 2 * SECOND <= absDiff < 46 * SECOND
    ensures t == OneMinute <==> 46 * SECOND <= absDiff < 76 * SECOND
    ensures t.Minutes? <==> 76 * SECOND <= absDiff < 46 * MINUTE
    ensures t == OneHour <==> 46 * MINUTE <= absDiff < 76 * MINUTE
    ensures t.Hours? <==> 76 * MINUTE <= absDiff < 23 * HOUR
    ensures t == OneDay <==> 23 * HOUR <= absDiff < 27 * HOUR
    ensures t.Days? <==> 27 * HOUR <= absDiff < 361 * DAY
    ensures t == OverAYear <==> 361 * DAY <= absDiff
    ensures t.Minutes? ==> t.count == absDiff / MINUTE
    ensures t.Hours? ==> t.count == absDiff / HOUR
    ensures t.Days? ==> t.count == absDiff / DAY
    ensures t.Minutes? ==> 1 <= t.count <= 45
    ensures t.Hours? ==> 1 <= t.count <= 22
    ensures t.Days? ==> 1 <= t.count <= 360
  {
    Thresholds(absDiff);
    if absDiff / SECOND <= 1 then JustNow
    else if absDiff / SECOND <= 45 then FewSeconds
    else if absDiff / SECOND <= 75 then OneMinute
    else if absDiff / MINUTE <= 45 then Minutes(absDiff / MINUTE)
    else if absDiff / MINUTE <= 75 then OneHour
    else if absDiff / HOUR <= 22 then Hours(absDiff / HOUR)
    else if absDiff / HOUR <= 26 then OneDay
    else if absDiff / DAY <= 360 then Days(absDiff / DAY)
    else OverAYear
  }

  /** Each test of the cascade as a millisecond bound. */
  lemma Thresholds(x: nat)
    ensures x / SECOND <= 1 <==> x < 2 * SECOND
    ensures x / SECOND <= 45 <==> x < 46 * SECOND
    ensures x / SECOND <= 75 <==> x < 76 * SECOND
    ensures x / MINUTE <= 0 <==> x < MINUTE
    ensures x / MINUTE <= 45 <==> x < 46 * MINUTE
    ensures x / MINUTE <= 75 <==> x < 76 * MINUTE
    ensures x / HOUR <= 0 <==> x < HOUR
    ensures x / HOUR <= 22 <==> x < 23 * HOUR
    ensures x / HOUR <= 26 <==> x < 27 * HOUR
    ensures x / DAY <= 0 <==> x < DAY
    ensures x / DAY <= 360 <==> x < 361 * DAY
  {
    AtMostIff(x, SECOND, 1);
    AtMostIff(x, SECOND, 45);
    AtMostIff(x, SECOND, 75);
    AtMostIff(x, MINUTE, 0);
    AtMostIff(x, MINUTE, 45);
    AtMostIff(x, MINUTE, 75);
    AtMostIff(x, HOUR, 0);
    AtMostIff(x, HOUR, 22);
    AtMostIff(x, HOUR, 26);
    AtMostIff(x, DAY, 0);
    AtMostIff(x, DAY, 360);
  }

  /** A truncated quotient is at most `k` exactly when the dividend is below `k + 1` units. */
  lemma AtMostIff(x: nat, m: int, k: nat)
    requires m > 0
    ensures x / m <= k <==> x < (k + 1) * m
  {
    KotlinInt.DivBounds(x, m);
    var q := x / m;
    if q <= k {
      assert (q + 1) * m <= (k + 1) * m;
    } else {
      assert (k + 1) * m <= q * m;
    }
  }

  const JUST_NOW: string := "только что"
  const AGO: string := " назад"
  const IN: string := "через "

  predicate EndsWith(s: string, suffix: string) {
    |suffix| <= |s| && s[|s| - |suffix|..] == suffix
  }

  /**
   A string whose last character, or whose character at the position of the
   space of " назад", differs from it does not end in " назад".
   */
  lemma NotEndsWithAgo(s: string)
    requires |s| >= |AGO|
    requires s[|s| - 1] != AGO[|AGO| - 1] || s[|s| - |AGO|] != AGO[0]
    ensures !EndsWith(s, AGO)
  {
    var tail := s[|s| - |AGO|..];
    assert tail[|AGO| - 1] == s[|s| - 1] && tail[0] == s[|s| - |AGO|];
  }

  /** The past template: the phrase followed by " назад". */
  function Past(phrase: string): string {
    phrase + AGO
  }

  /** The future template: "через " followed by the phrase. */
  function Future(phrase: string): string {
    IN + phrase
  }

  /** A past phrase ends in " назад" and is not "только что". */
  lemma PastShape(phrase: string)
    ensures EndsWith(Past(phrase), AGO)
    ensures Past(phrase) != JUST_NOW
  {
    var r := Past(phrase);
    assert r[|r| - |AGO|..] == AGO;
    assert r[|r| - 1] == AGO[|AGO| - 1] != JUST_NOW[|JUST_NOW| - 1];
  }

  /** A future phrase starts with "через ", keeps the phrase's ending, and is not "только что". */
  lemma FutureShape(phrase: string)
    ensures |Future(phrase)| == |IN| + |phrase|
    ensures forall i :: 0 <= i < |phrase| ==> Future(phrase)[|IN| + i] == phrase[i]
    ensures Future(phrase) != JUST_NOW
  {
    var r := Future(phrase);
    assert r[0] == IN[0] != JUST_NOW[0];
  }

  /** The phrase for a tier, in the past or the future form. */
  function Render(t: Tier, isPast: bool): string
  {
    match t
    case JustNow => JUST_NOW
    case FewSeconds => if isPast then Past("несколько секунд") else Future("несколько секунд")
    case OneMinute => if isPast then Past("минуту") else Future("минуту")
    case Minutes(n) => if isPast then Past(Plural(Minute, n)) else Future(Plural(Minute, n))
    case OneHour => if isPast then Past("час") else Future("час")
    case Hours(n) => if isPast then Past(Plural(Hour, n)) else Future(Plural(Hour, n))
    case OneDay => if isPast then Past("день") else Future("день")
    case Days(n) => if isPast then Past(Plural(Day, n)) else Future(Plural(Day, n))
    case OverAYear => if isPast then Past("более года") else "более чем через год"
  }

  /** No noun form of a minute, an hour or a day ends in the last letter of "назад". */
  lemma FormEndings(u: TimeUnit, c: Category)
    requires u != Second
    ensures var w := Forms(u).Pick(c); w[|w| - 1] != AGO[|AGO| - 1]
  {
  }

  /** A plural phrase ends with the last letter of its noun form. */
  lemma PluralEnding(u: TimeUnit, n: int)
    ensures var p := Plural(u, n); var w := Forms(u).Pick(CategoryOf(n));
      |p| > 0 && |w| > 0 && p[|p| - 1] == w[|w| - 1]
  {
    var w := Forms(u).Pick(CategoryOf(n));
    var p := Plural(u, n);
    assert p == Decimal.FromInt(n) + " " + w;
  }

  /** A future phrase whose last letter is not that of "назад" is not in the past form. */
  lemma FutureNotPast(p: string)
    requires |p| > 0 && p[|p| - 1] != AGO[|AGO| - 1]
    ensures !EndsWith(Future(p), AGO)
  {
    FutureShape(p);
    var r := Future(p);
    assert r[|r| - 1] == p[|p| - 1];
    NotEndsWithAgo(r);
  }

  /** So a counted future phrase of those units is never in the past form. */
  lemma CountedFutureIsNotPast(u: TimeUnit, n: int)
    requires u != Second
    ensures !EndsWith(Future(Plural(u, n)), AGO)
  {
    PluralEnding(u, n);
    FormEndings(u, CategoryOf(n));
    FutureNotPast(Plural(u, n));
  }

  /** The future forms of the fixed phrases are not in the past form. */
  lemma FixedFutureIsNotPast()
    ensures !EndsWith(Future("несколько секунд"), AGO)
    ensures !EndsWith(Future("минуту"), AGO)
    ensures !EndsWith(Future("час"), AGO)
    ensures !EndsWith(Future("день"), AGO)
    ensures !EndsWith("более чем через год", AGO)
  {
    var x := "несколько секунд";
    FutureShape(x);
    assert Future(x)[|Future(x)| - |AGO|] == x[|x| - |AGO|];
    NotEndsWithAgo(Future(x));
    x := "минуту";
    FutureShape(x);
    assert Future(x)[|Future(x)| - 1] == x[|x| - 1];
    NotEndsWithAgo(Future(x));
    x := "час";
    FutureShape(x);
    assert Future(x)[|Future(x)| - 1] == x[|x| - 1];
    NotEndsWithAgo(Future(x));
    x := "день";
    FutureShape(x);
    assert Future(x)[|Future(x)| - 1] == x[|x| - 1];
    NotEndsWithAgo(Future(x));
    NotEndsWithAgo("более чем через год");
  }

  /** Only the first tier says "только что", and the others are past exactly when asked to be. */
  lemma RenderPastOrFuture(t: Tier, isPast: bool)
    ensures Render(t, isPast) == JUST_NOW <==> t == JustNow
    ensures t != JustNow ==> (EndsWith(Render(t, isPast), AGO) <==> isPast)
  {
    FixedFutureIsNotPast();
    match t
    case JustNow =>
    case FewSeconds => PastShape("несколько секунд"); FutureShape("несколько секунд");
    case OneMinute => PastShape("минуту"); FutureShape("минуту");
    case Minutes(n) =>
      PastShape(Plural(Minute, n)); FutureShape(Plural(Minute, n));
      CountedFutureIsNotPast(Minute, n);
    case OneHour => PastShape("час"); FutureShape("час");
    case Hours(n) =>
      PastShape(Plural(Hour, n)); FutureShape(Plural(Hour, n));
      CountedFutureIsNotPast(Hour, n);
    case OneDay => PastShape("день"); FutureShape("день");
    case Days(n) =>
      PastShape(Plural(Day, n)); FutureShape(Plural(Day, n));
      CountedFutureIsNotPast(Day, n);
    case OverAYear =>
      PastShape("более года");
      assert "более чем через год"[0] != JUST_NOW[0];
  }

  /**
   `time.humanizeDiff(date)`: how `time` looks from `date` (the current time
   when the caller gives none). "только что" exactly when the two are less
   than two seconds apart, whichever comes first; otherwise a past phrase
   exactly when `time` is before `date`.
   */
  function HumanizeDiff(time: int, date: int): (s: string)
    ensures s == JUST_NOW <==> -2 * SECOND < date - time < 2 * SECOND
    ensures s != JUST_NOW ==> (EndsWith(s, AGO) <==> date > time)
  {
    var diff := date - time;
    var absDiff := KotlinInt.Abs(diff);
    var isPast := diff > 0;
    RenderPastOrFuture(Classify(absDiff), isPast);
    Render(Classify(absDiff), isPast)
  }

  /** A time `d > 0` milliseconds before the reference is described in the past form of the tier of `d`, one after it in the future form. */
  lemma FromBothSides(time: int, d: int)
    requires d > 0
    ensures HumanizeDiff(time, time + d) == Render(Classify(d), true)
    ensures HumanizeDiff(time + d, time) == Render(Classify(d), false)
  {
    assert KotlinInt.Abs(time + d - time) == d;
    assert KotlinInt.Abs(time - (time + d)) == d;
  }

  /**
   In the counted tiers, the phrase for a time `d` milliseconds before the
   reference and the phrase for one `d` after it embed the same pluralised
   count `d / UNIT`: one as "… назад", the other as "через …".
   */
  lemma CountedTiersMirror(time: int, d: int)
    ensures 76 * SECOND <= d < 46 * MINUTE ==>
      && HumanizeDiff(time, time + d) == Plural(Minute, d / MINUTE) + AGO
      && HumanizeDiff(time + d, time) == IN + Plural(Minute, d / MINUTE)
    ensures 76 * MINUTE <= d < 23 * HOUR ==>
      && HumanizeDiff(time, time + d) == Plural(Hour, d / HOUR) + AGO
      && HumanizeDiff(time + d, time) == IN + Plural(Hour, d / HOUR)
    ensures 27 * HOUR <= d < 361 * DAY ==>
      && HumanizeDiff(time, time + d) == Plural(Day, d / DAY) + AGO
      && HumanizeDiff(time + d, time) == IN + Plural(Day, d / DAY)
  {
    if 76 * SECOND <= d < 46 * MINUTE {
      FromBothSides(time, d);
      assert Classify(d) == Minutes(d / MINUTE);
    } else if 76 * MINUTE <= d < 23 * HOUR {
      FromBothSides(time, d);
      assert Classify(d) == Hours(d / HOUR);
    } else if 27 * HOUR <= d < 361 * DAY {
      FromBothSides(time, d);
      assert Classify(d) == Days(d / DAY);
    }
  }

  /**
   The fixed-phrase tiers for a time `d` milliseconds before the reference
   (past) and after it (future).
   */
  lemma FixedPhraseTiers(time: int, d: int)
    ensures 2 * SECOND <= d < 46 * SECOND ==>
      && HumanizeDiff(time, time + d) == Past("несколько секунд")
      && HumanizeDiff(time + d, time) == Future("несколько секунд")
    ensures 46 * SECOND <= d < 76 * SECOND ==>
      && HumanizeDiff(time, time + d) == Past("минуту")
      && HumanizeDiff(time + d, time) == Future("минуту")
    ensures 46 * MINUTE <= d < 76 * MINUTE ==>
      && HumanizeDiff(time, time + d) == Past("час")
      && HumanizeDiff(time + d, time) == Future("час")
    ensures 23 * HOUR <= d < 27 * HOUR ==>
      && HumanizeDiff(time, time + d) == Past("день")
      && HumanizeDiff(time + d, time) == Future("день")
    ensures 361 * DAY <= d ==>
      && HumanizeDiff(time, time + d) == Past("более года")
      && HumanizeDiff(time + d, time) == "более чем через год"
  {
    if d > 0 {
      FromBothSides(time, d);
    }
  }

  /** The templates spell out the source's phrases for a few seconds letter for letter. */
  lemma FewSecondsSpelling()
    ensures Past("несколько секунд") == "несколько секунд назад"
    ensures Future("несколько секунд") == "через несколько секунд"
  {
  }

  /** The templates spell out the source's other fixed phrases letter for letter. */
  lemma FixedPhraseSpelling()
    ensures Past("минуту") == "минуту назад" && Future("минуту") == "через минуту"
    ensures Past("час") == "час назад" && Future("час") == "через час"
    ensures Past("день") == "день назад" && Future("день") == "через день"
    ensures Past("более года") == "более года назад"
  {
  }
}
