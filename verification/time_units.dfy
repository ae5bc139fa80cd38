/**
 The `TimeUnits` enum of Date.kt: the four units with their millisecond
 magnitudes, the table of Russian noun forms, and `plural`, which renders a
 count followed by the grammatically agreeing noun form.
 */
module TimeUnits {
  import KotlinInt
  import Decimal

  const SECOND: int := 1000
  const MINUTE: int := 60 * SECOND
  const HOUR: int := 60 * MINUTE
  const DAY: int := 24 * HOUR

  datatype TimeUnit = Second | Minute | Hour | Day

  /**
   Milliseconds in one unit, a whole number of seconds. That each unit is a
   whole multiple of the one before it is `DateExt.AddUnitsNest`.
   */
  function Magnitude(u: TimeUnit): (m: int)
    ensures m > 0 && m % SECOND == 0
  {
    match u
    case Second => SECOND
    case Minute => MINUTE
    case Hour => HOUR
    case Day => DAY
  }

  /** Which of the three noun forms a count takes. */
  datatype Category = Few | One | Many

  /** The three noun forms of a unit, in the order of the source's `Triple`. */
  datatype PluralForms = PluralForms(few: string, one: string, many: string)
  {
    function Pick(c: Category): (w: string)
      ensures w in {few, one, many}
    {
      match c
      case Few => few
      case One => one
      case Many => many
    }
  }

  /** A noun form: a non-empty word without spaces. */
  predicate IsWord(w: string) {
    |w| > 0 && ' ' !in w
  }

  /**
   The `plurals` table. It is total: every unit has a triple, so the
   lookup never yields null.
   */
  function Forms(u: TimeUnit): (f: PluralForms)
    ensures IsWord(f.few) && IsWord(f.one) && IsWord(f.many)
    ensures f.few != f.one && f.one != f.many && f.few != f.many
  {
    match u
    case Second => PluralForms("секунды", "секунду", "секунд")
    case Minute => PluralForms("минуты", "минуту", "минут")
    case Hour => PluralForms("часа", "час", "часов")
    case Day => PluralForms("дня", "день", "дней")
  }

  function Pow10(k: nat): (p: nat)
    ensures p >= 1
  {
    if k == 0 then 1 else 10 * Pow10(k - 1)
  }

  /**
   The normalising loop `while (quotient > 100) quotient /= 10`: it divides by
   ten until the quotient is at most 100, and terminates because a quotient
   above 100 strictly decreases when divided.
   */
  function ReduceQuotient(q: int): (r: int)
    decreases q
    ensures r <= 100
    ensures q <= 100 ==> r == q
    ensures q > 100 ==> 10 <= r <= 100
  {
    if q > 100 then ReduceQuotient(q / 10) else q
  }

  /** Dividing by ten and then by `p` is dividing by `10 * p`. */
  lemma DivTenThenBy(q: nat, p: nat)
    requires p >= 1
    ensures (q / 10) / p == q / (10 * p)
  {
    var a := q / 10;
    var b := a / p;
    assert q == 10 * a + q % 10;
    assert a == p * b + a % p;
    assert q == (10 * p) * b + (10 * (a % p) + q % 10);
    assert 0 <= 10 * (a % p) + q % 10 < 10 * p;
    DivUnique(q, 10 * p, b, 10 * (a % p) + q % 10);
  }

  /** Euclidean division is determined by quotient and in-range remainder. */
  lemma DivUnique(n: int, d: int, q: int, r: int)
    requires d > 0 && n == d * q + r && 0 <= r < d
    ensures n / d == q
  {
    var q' := n / d;
    assert n == d * q' + n % d;
    assert d * (q - q') == n % d - r by {
      assert d * q - d * q' == d * (q - q');
    }
    ProductInOpenBand(d, q - q');
  }

  /** A multiple of `d` strictly between `-d` and `d` is the zero multiple. */
  lemma ProductInOpenBand(d: int, t: int)
    requires d > 0 && -d < d * t < d
    ensures t == 0
  {
    if t > 0 {
      ProductAtLeast(d, t);
      assert false;
    } else if t < 0 {
      ProductAtLeast(d, -t);
      assert false;
    }
  }

  lemma ProductAtLeast(d: int, t: int)
    requires d > 0 && t >= 1
    ensures d * t >= d
  {
    assert d * t == d * (t - 1) + d;
  }

  /**
   The loop's result is the first of `q / 10`, `q / 100`, ... that is at most
   100: one division fewer would still exceed 100.
   */
  lemma {:induction false} ReduceQuotientIsFirstSmallQuotient(q: int)
    requires q > 100
    ensures exists k: nat :: 1 <= k && ReduceQuotient(q) == q / Pow10(k) && q / Pow10(k - 1) > 100
  {
    if q / 10 <= 100 {
      assert ReduceQuotient(q) == q / Pow10(1);
    } else {
      ReduceQuotientIsFirstSmallQuotient(q / 10);
      var k: nat :| 1 <= k && ReduceQuotient(q / 10) == (q / 10) / Pow10(k) && (q / 10) / Pow10(k - 1) > 100;
      DivTenThenBy(q, Pow10(k));
      DivTenThenBy(q, Pow10(k - 1));
      assert ReduceQuotient(q) == q / Pow10(k + 1);
      assert q / Pow10(k) > 100;
    }
  }

  /**
   The tens guard of `plural`: `value / 10`, normalised by the loop, then
   `% 10`. From 0 to 1009 the loop does not run and the guard is the true tens
   digit.
   */
  function TensGuard(value: int): (g: int)
    ensures 0 <= value < 1010 ==> g == (value / 10) % 10
    ensures value >= 0 ==> 0 <= g <= 9
    ensures value < 0 ==> -9 <= g <= 0
  {
    KotlinInt.TruncRem(ReduceQuotient(KotlinInt.TruncDiv(value, 10)), 10)
  }

  /**
   The form a count takes, rules tried in the source's order: last digit 2..4
   outside the teens, then last digit 1 outside the teens, then the rest.
   */
  function CategoryOf(value: int): (c: Category)
    ensures value < 0 ==> c == Many
    ensures 0 <= value < 1010 ==>
      (c == Few <==> 2 <= value % 10 <= 4 && (value / 10) % 10 != 1)
    ensures 0 <= value < 1010 ==>
      (c == One <==> value % 10 == 1 && (value / 10) % 10 != 1)
  {
    var remainder := KotlinInt.TruncRem(value, 10);
    var guard := TensGuard(value);
    if 2 <= remainder <= 4 && guard != 1 then Few
    else if remainder == 1 && guard != 1 then One
    else Many
  }

  /**
   For every non-negative count, including those from 1010 on, the form is
   chosen by the last digit and the reduced guard of the normalising loop.
   */
  lemma CategoryByGuard(value: int)
    requires value >= 0
    ensures CategoryOf(value) == Few <==> 2 <= value % 10 <= 4 && TensGuard(value) != 1
    ensures CategoryOf(value) == One <==> value % 10 == 1 && TensGuard(value) != 1
    ensures CategoryOf(value) == Many <==> !(1 <= value % 10 <= 4) || TensGuard(value) == 1
  {
  }

  /** `u.plural(value)`: the count, a space, and the agreeing noun form. */
  function Plural(u: TimeUnit, value: int): (r: string)
    ensures var n := Decimal.FromInt(value);
      && |r| > |n| + 1
      && r[..|n|] == n
      && r[|n|] == ' '
      && r[|n| + 1..] in {Forms(u).few, Forms(u).one, Forms(u).many}
  {
    Decimal.FromInt(value) + " " + Forms(u).Pick(CategoryOf(value))
  }

  /** Position of the first space in `s`, or `|s|` when there is none. */
  function IndexOfSpace(s: string): (i: nat)
    ensures i <= |s|
    ensures ' ' !in s[..i]
    ensures i < |s| ==> s[i] == ' '
  {
    if |s| == 0 || s[0] == ' ' then 0
    else
      var j := IndexOfSpace(s[1..]);
      assert s[..1 + j] == [s[0]] + s[1..][..j];
      1 + j
  }

  /** The word after the first space of a phrase. */
  function WordOf(s: string): string {
    var i := IndexOfSpace(s);
    if i < |s| then s[i + 1..] else ""
  }

  /** The text before the first space of a phrase. */
  function CountTextOf(s: string): string {
    s[..IndexOfSpace(s)]
  }

  lemma {:induction false} IndexOfSpaceAfterPrefix(n: string, rest: string)
    requires ' ' !in n && |rest| > 0 && rest[0] == ' '
    ensures IndexOfSpace(n + rest) == |n|
  {
    if |n| > 0 {
      assert n[0] in n;
      assert (n + rest)[1..] == n[1..] + rest;
      assert forall c :: c in n[1..] ==> c in n;
      IndexOfSpaceAfterPrefix(n[1..], rest);
    }
  }

  /**
   A plural phrase splits at its first space into the count, which reads
   back as `value`, and the word chosen by the digit rules.
   */
  lemma PluralReadsBack(u: TimeUnit, value: int)
    ensures Decimal.IsNumeral(CountTextOf(Plural(u, value)))
    ensures Decimal.ParseInt(CountTextOf(Plural(u, value))) == value
    ensures WordOf(Plural(u, value)) == Forms(u).Pick(CategoryOf(value))
  {
    var n := Decimal.FromInt(value);
    var r := Plural(u, value);
    IndexOfSpaceAfterPrefix(n, r[|n|..]);
    assert r == n + r[|n|..];
    Decimal.FromIntRoundTrip(value);
  }

  /**
   The digit rules seen on the output, for counts from 0 to 1009: the singular
   form exactly for last digit 1 outside the teens, the "few" form exactly for
   last digit 2..4 outside the teens, the "many" form otherwise.
   */
  lemma PluralDigitRules(u: TimeUnit, value: int)
    requires 0 <= value < 1010
    ensures var w := WordOf(Plural(u, value)); var last := value % 10; var tens := (value / 10) % 10;
      && (w == Forms(u).one <==> last == 1 && tens != 1)
      && (w == Forms(u).few <==> 2 <= last <= 4 && tens != 1)
      && (w == Forms(u).many <==> !(1 <= last <= 4) || tens == 1)
  {
    PluralReadsBack(u, value);
  }

  /** A negative count always takes the "many" form (Kotlin's `%` is then at most 0). */
  lemma PluralNegative(u: TimeUnit, value: int)
    requires value < 0
    ensures WordOf(Plural(u, value)) == Forms(u).many
  {
    PluralReadsBack(u, value);
  }

  /**
   From 1010 on, the guard is the last digit of `value / 10^j`, where that
   quotient is the first of `value / 100`, `value / 1000`, ... that is at most
   100. So the teen rule looks at a digit further left than the tens digit.
   */
  lemma TensGuardAboveLoop(value: int)
    requires value >= 1010
    ensures exists j: nat ::
              && 2 <= j && value / Pow10(j - 1) > 100 && value / Pow10(j) <= 100
              && TensGuard(value) == (value / Pow10(j)) % 10
  {
    var q := value / 10;
    assert q == KotlinInt.TruncDiv(value, 10);
    ReduceQuotientIsFirstSmallQuotient(q);
    var k: nat :| 1 <= k && ReduceQuotient(q) == q / Pow10(k) && q / Pow10(k - 1) > 100;
    DivTenThenBy(value, Pow10(k));
    DivTenThenBy(value, Pow10(k - 1));
    assert Pow10(k + 1) == 10 * Pow10(k);
    assert Pow10(k) == 10 * Pow10(k - 1);
    assert value / Pow10(k + 1) == ReduceQuotient(q);
    assert value / Pow10(k) > 100;
  }

  /** Worked examples of the digit rules: 1 and 21 take the singular, 2 the "few" form. */
  lemma CategoryExamplesOneFew()
    ensures CategoryOf(1) == One && CategoryOf(21) == One
    ensures CategoryOf(2) == Few
  {
  }

  /** Worked examples of the digit rules: 0, 5 and the teen 11 take the "many" form. */
  lemma CategoryExamplesMany()
    ensures CategoryOf(0) == Many && CategoryOf(5) == Many && CategoryOf(11) == Many
  {
  }

  /** A worked example of the whole phrase. */
  lemma PluralMinuteExample()
    ensures Plural(Minute, 21) == "21 минуту"
  {
    assert Decimal.Digits(2) == "2";
  }

  /**
   From 1010 on, the normalising loop replaces the tens digit by a digit of
   a shorter quotient, so the teen rule no longer looks at the last two
   digits: 1011 ends in 11 but takes the singular form.
   */
  lemma ReducedGuardAt1011()
    ensures 1011 % 100 == 11
    ensures TensGuard(1011) == 0 != (1011 / 10) % 10
    ensures CategoryOf(1011) == One
  {
  }

  /**
   The other direction: 1101 ends in 01, but the loop turns 110 into 11, so
   the guard is 1 and 1101 takes the "many" form instead of the singular.
   */
  lemma ReducedGuardAt1101()
    ensures 1101 % 100 == 1
    ensures TensGuard(1101) == 1 != (1101 / 10) % 10
    ensures CategoryOf(1101) == Many
  {
  }
}
