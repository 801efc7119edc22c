/**
 * Civil dates on the proleptic Gregorian calendar, and the day ordinals the
 * model uses in place of JavaScript `Date` values: ordinal 0 is 1970-01-01,
 * and months are numbered 0..11 as `Date.prototype.getMonth` numbers them.
 * Also the "YYYY-MM-DD" date keys the screens build and parse.
 */
module Dates {
  import opened Wrappers
  import opened Strings

  /** A calendar date; `month` is 0-based (January is 0), `day` is 1-based. */
  datatype CivilDate = CivilDate(year: int, month: int, day: int)

  /** A month of a year, as the first-of-month `Date` values the calendars step through. */
  datatype YearMonth = YearMonth(year: int, month: int)

  predicate IsLeapYear(y: int) {
    (y % 4 == 0 && y % 100 != 0) || y % 400 == 0
  }

  /** `new Date(y, m + 1, 0).getDate()`. */
  function DaysInMonth(y: int, m: int): (n: int)
    requires 0 <= m < 12
    ensures 28 <= n <= 31
  {
    if m == 1 then (if IsLeapYear(y) then 29 else 28)
    else if m == 3 || m == 5 || m == 8 || m == 10 then 30
    else 31
  }

  predicate ValidDate(c: CivilDate) {
    0 <= c.month < 12 && 1 <= c.day <= DaysInMonth(c.year, c.month)
  }

  predicate ValidMonth(ym: YearMonth) {
    0 <= ym.month < 12
  }

  function LeapsBefore(y: int): int {
    (y - 1) / 4 - (y - 1) / 100 + (y - 1) / 400
  }

  /** The ordinal of January 1st of year `y`. */
  function YearStart(y: int): int {
    365 * (y - 1970) + LeapsBefore(y) - LeapsBefore(1970)
  }

  /** The days before month `m` in a common (non-leap) year. */
  function CommonDaysBefore(m: int): int
    requires 0 <= m <= 12
  {
    if m < 6 then
      (if m == 0 then 0 else if m == 1 then 31 else if m == 2 then 59
       else if m == 3 then 90 else if m == 4 then 120 else 151)
    else
      (if m == 6 then 181 else if m == 7 then 212 else if m == 8 then 243
       else if m == 9 then 273 else if m == 10 then 304 else if m == 11 then 334 else 365)
  }

  /** The number of days of year `y` before month `m` (m = 12 gives the year's length). */
  function DaysBeforeMonth(y: int, m: int): int
    requires 0 <= m <= 12
  {
    CommonDaysBefore(m) + (if m >= 2 && IsLeapYear(y) then 1 else 0)
  }

  /** The ordinal of the first day of month `m` of year `y`. */
  function MonthStart(y: int, m: int): int
    requires 0 <= m < 12
  {
    YearStart(y) + DaysBeforeMonth(y, m)
  }

  /** The ordinal of a date, as `new Date(y, m, d)` counts: days past the month's end run on. */
  function Ordinal(c: CivilDate): int
    requires 0 <= c.month < 12
  {
    MonthStart(c.year, c.month) + c.day - 1
  }

  /** `getDay()`: 0 is Sunday, 6 is Saturday (1970-01-01 was a Thursday). */
  function Weekday(o: int): (w: int)
    ensures 0 <= w < 7
  {
    (o + 4) % 7
  }

  /** The normalisation `new Date(y, m, 1)` applies to an out-of-range month. */
  function NormalizeMonth(y: int, m: int): (ym: YearMonth)
    ensures ValidMonth(ym)
    ensures 12 * ym.year + ym.month == 12 * y + m
  {
    YearMonth(y + m / 12, m % 12)
  }

  // ------------------------------------------------------------ arithmetic

  lemma DivUnique(y: int, k: int, q: int, r: int)
    requires k > 0 && 0 <= r < k && y == k * q + r
    ensures y / k == q && y % k == r
  {
    var q', r' := y / k, y % k;
    assert k * (q - q') == r' - r;
    if q > q' {
      MulAtLeast(k, q - q');
    } else if q < q' {
      MulAtLeast(k, q' - q);
    }
  }

  lemma MulAtLeast(k: int, a: int)
    requires k > 0 && a >= 1
    ensures k * a >= k
  {
  }

  lemma DivStep(y: int, k: int)
    requires k > 0
    ensures y / k - (y - 1) / k == if y % k == 0 then 1 else 0
  {
    var q, r := (y - 1) / k, (y - 1) % k;
    if r == k - 1 {
      DivUnique(y, k, q + 1, 0);
    } else {
      DivUnique(y, k, q, r + 1);
    }
  }

  lemma Divisibility(y: int)
    ensures y % 400 == 0 ==> y % 100 == 0
    ensures y % 100 == 0 ==> y % 4 == 0
  {
    if y % 400 == 0 {
      DivUnique(y, 100, 4 * (y / 400), 0);
    }
    if y % 100 == 0 {
      DivUnique(y, 4, 25 * (y / 100), 0);
    }
  }

  /** Consecutive years start a year's length apart. */
  lemma YearLength(y: int)
    ensures YearStart(y + 1) == YearStart(y) + DaysBeforeMonth(y, 12)
  {
    DivStep(y, 4);
    DivStep(y, 100);
    DivStep(y, 400);
    Divisibility(y);
  }

  lemma DaysBeforeNextMonth(y: int, m: int)
    requires 0 <= m < 12
    ensures DaysBeforeMonth(y, m + 1) == DaysBeforeMonth(y, m) + DaysInMonth(y, m)
  {
  }

  lemma {:induction false} DaysBeforeMonotone(y: int, a: int, b: int)
    requires 0 <= a <= b <= 12
    ensures DaysBeforeMonth(y, a) <= DaysBeforeMonth(y, b)
    ensures a < b ==> DaysBeforeMonth(y, a) + DaysInMonth(y, a) <= DaysBeforeMonth(y, b)
    decreases b - a
  {
    if a < b {
      DaysBeforeNextMonth(y, a);
      DaysBeforeMonotone(y, a + 1, b);
    }
  }

  lemma {:induction false} YearStartMonotone(a: int, b: int)
    requires a <= b
    ensures YearStart(a) <= YearStart(b)
    ensures a < b ==> YearStart(a + 1) <= YearStart(b)
    decreases b - a
  {
    if a < b {
      YearLength(a);
      YearStartMonotone(a + 1, b);
    }
  }

  lemma {:induction false} YearStartBounds(y: int)
    ensures y >= 1970 ==> YearStart(y) <= 366 * (y - 1970)
    ensures y <= 1970 ==> YearStart(y) <= 365 * (y - 1970)
    decreases if y >= 1970 then y - 1970 else 1970 - y
  {
    if y > 1970 {
      YearStartBounds(y - 1);
      YearLength(y - 1);
    } else if y < 1970 {
      YearStartBounds(y + 1);
      YearLength(y);
    }
  }

  // ------------------------------------------------ from ordinal to date

  /** A year that starts on or before day `o`. */
  function FirstGuess(o: int): (y: int)
    ensures YearStart(y) <= o
  {
    var y := 1970 + (if o >= 0 then o / 366 else o / 365);
    YearStartBounds(y);
    y
  }

  /** The year containing day `o`, searching forward from a year that starts no later. */
  function FindYear(o: int, y: int): (r: int)
    requires YearStart(y) <= o
    ensures YearStart(r) <= o < YearStart(r + 1)
    decreases o - YearStart(y)
  {
    YearLength(y);
    if o < YearStart(y + 1) then y else FindYear(o, y + 1)
  }

  /** The month of year `y` containing day `o`, searching forward from month `m`. */
  function FindMonth(o: int, y: int, m: int): (r: int)
    requires 0 <= m < 12
    requires MonthStart(y, m) <= o < YearStart(y + 1)
    ensures 0 <= r < 12
    ensures MonthStart(y, r) <= o < MonthStart(y, r) + DaysInMonth(y, r)
    decreases 12 - m
  {
    YearLength(y);
    DaysBeforeNextMonth(y, m);
    if m == 11 || o < MonthStart(y, m + 1) then m else FindMonth(o, y, m + 1)
  }

  /** The calendar date of day ordinal `o`. */
  function Civil(o: int): (c: CivilDate)
    ensures ValidDate(c) && Ordinal(c) == o
  {
    var y := FindYear(o, FirstGuess(o));
    var m := FindMonth(o, y, 0);
    CivilDate(y, m, o - MonthStart(y, m) + 1)
  }

  /** Ordinals and valid dates are in one-to-one correspondence. */
  lemma CivilOfOrdinal(c: CivilDate)
    requires ValidDate(c)
    ensures Civil(Ordinal(c)) == c
  {
    OrdinalInjective(c, Civil(Ordinal(c)));
  }

  /** Distinct valid dates have distinct ordinals. */
  lemma OrdinalInjective(c: CivilDate, d: CivilDate)
    requires ValidDate(c) && ValidDate(d) && Ordinal(c) == Ordinal(d)
    ensures c == d
  {
    SameYear(c, d);
    if c.month < d.month {
      DaysBeforeMonotone(c.year, c.month, d.month);
    } else if d.month < c.month {
      DaysBeforeMonotone(c.year, d.month, c.month);
    }
  }

  lemma SameYear(c: CivilDate, d: CivilDate)
    requires ValidDate(c) && ValidDate(d) && Ordinal(c) == Ordinal(d)
    ensures c.year == d.year
  {
    InYear(c);
    InYear(d);
    OneYear(Ordinal(c), c.year, d.year);
  }

  /** A day lies in one year only. */
  lemma OneYear(o: int, y1: int, y2: int)
    requires YearStart(y1) <= o < YearStart(y1 + 1)
    requires YearStart(y2) <= o < YearStart(y2 + 1)
    ensures y1 == y2
  {
    if y1 < y2 {
      YearStartMonotone(y1 + 1, y2);
    } else if y2 < y1 {
      YearStartMonotone(y2 + 1, y1);
    }
  }

  /** A valid date lies within its year. */
  lemma InYear(c: CivilDate)
    requires ValidDate(c)
    ensures YearStart(c.year) <= Ordinal(c) < YearStart(c.year + 1)
  {
    DaysBeforeMonotone(c.year, c.month, 12);
    YearLength(c.year);
  }

  /** A day lies in a month exactly when its date has that year and month. */
  lemma InMonthIff(o: int, ym: YearMonth)
    requires ValidMonth(ym)
    ensures (Civil(o).year == ym.year && Civil(o).month == ym.month)
        <==> MonthStart(ym.year, ym.month) <= o < MonthStart(ym.year, ym.month) + DaysInMonth(ym.year, ym.month)
  {
    var start := MonthStart(ym.year, ym.month);
    var c := Civil(o);
    if start <= o < start + DaysInMonth(ym.year, ym.month) {
      var d := CivilDate(ym.year, ym.month, o - start + 1);
      assert ValidDate(d) && Ordinal(d) == o;
      CivilOfOrdinal(d);
      assert c == d;
    }
    if c.year == ym.year && c.month == ym.month {
      assert Ordinal(c) == start + c.day - 1;
    }
  }

  // ------------------------------------------------------------ date keys

  /** The key `${year}-${String(month).padStart(2,'0')}-${String(day).padStart(2,'0')}`; `month` is 1-based here. */
  function DateKey(year: int, month: nat, day: nat): string {
    IntToString(year) + "-" + Pad2(month) + "-" + Pad2(day)
  }

  /** The "YYYY-MM-DD" key of day `o`, as `toISOString().split('T')[0]` gives it for four-digit years. */
  function Key(o: int): string {
    CivilKey(Civil(o))
  }

  /** The key of a date. */
  function CivilKey(c: CivilDate): string
    requires ValidDate(c)
  {
    DateKey(c.year, c.month + 1, c.day)
  }

  /**
   * `new Date(s)` for the date-only form "YYYY-MM-DD" with a valid month and
   * day; any other string gives an invalid date, here `None`.
   */
  function ParseDateKey(s: string): Option<CivilDate> {
    if |s| == 10 && s[4] == '-' && s[7] == '-'
       && AllDigits(s[..4]) && AllDigits(s[5..7]) && AllDigits(s[8..]) then
      var c := CivilDate(DigitsValue(s[..4]), DigitsValue(s[5..7]) - 1, DigitsValue(s[8..]));
      if ValidDate(c) then Some(c) else None
    else
      None
  }

  /** Any date with a four-digit year reads back from its key. */
  lemma ParseDateKeyOfDateKey(c: CivilDate)
    requires ValidDate(c) && 1000 <= c.year <= 9999
    ensures ParseDateKey(DateKey(c.year, c.month + 1, c.day)) == Some(c)
  {
    var ys := IntToString(c.year);
    NatToStringLength4(c.year);
    DigitsValueOfNatToString(c.year);
    var s := DateKey(c.year, c.month + 1, c.day);
    var ms, ds := Pad2(c.month + 1), Pad2(c.day);
    assert s == ys + "-" + ms + "-" + ds;
    assert s[..4] == ys;
    assert s[5..7] == ms;
    assert s[8..] == ds;
  }

  /** Days whose years have four digits have distinct keys. */
  lemma KeyInjective(o1: int, o2: int)
    requires 1000 <= Civil(o1).year <= 9999 && 1000 <= Civil(o2).year <= 9999
    requires Key(o1) == Key(o2)
    ensures o1 == o2
  {
    var c1, c2 := Civil(o1), Civil(o2);
    assert CivilKey(c1) == CivilKey(c2);
    CivilKeyInjective(c1, c2);
    assert o1 == Ordinal(c1) == Ordinal(c2) == o2;
  }

  lemma CivilKeyInjective(c1: CivilDate, c2: CivilDate)
    requires ValidDate(c1) && 1000 <= c1.year <= 9999
    requires ValidDate(c2) && 1000 <= c2.year <= 9999
    requires CivilKey(c1) == CivilKey(c2)
    ensures c1 == c2
  {
    ParseDateKeyOfDateKey(c1);
    ParseDateKeyOfDateKey(c2);
    CivilKeyOf(c1);
    CivilKeyOf(c2);
  }

  /** The key a calendar builds from year, month and day is the key of that day's ordinal. */
  lemma DateKeyOfOrdinal(c: CivilDate)
    requires ValidDate(c)
    ensures Key(Ordinal(c)) == DateKey(c.year, c.month + 1, c.day)
  {
    CivilOfOrdinal(c);
    KeyOfCivil(Ordinal(c), c);
  }

  lemma KeyOfCivil(o: int, c: CivilDate)
    requires Civil(o) == c
    ensures Key(o) == DateKey(c.year, c.month + 1, c.day)
  {
    assert Key(o) == CivilKey(c);
    CivilKeyOf(c);
  }

  lemma CivilKeyOf(c: CivilDate)
    requires ValidDate(c)
    ensures CivilKey(c) == DateKey(c.year, c.month + 1, c.day)
  {
  }
}
