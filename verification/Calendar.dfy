/** Days since 1970-01-01 as Gregorian dates. */
module Calendar {

  datatype Date = Date(year: int, month: int, day: int)

  // ----- The conversion ----------------------------------------------------

  /** The year within its 400-year era that a day of the era falls in, years beginning in March. */
  function YearOfEra(doe: int): int { (doe - doe / 1460 + doe / 36524 - doe / 146096) / 365 }

  /** A date from its March-based year and the day of that year. */
  function FromYearDay(year: int, doy: int): Date {
    var mp := (5 * doy + 2) / 153;
    var day := doy - (153 * mp + 2) / 5 + 1;
    var month := if mp < 10 then mp + 3 else mp - 9;
    Date(if month <= 2 then year + 1 else year, month, day)
  }

  /** `civil_from_days`. */
  function CivilFromDays(days: int): Date {
    var z := days + 719468;
    var era := (if z >= 0 then z else z - 146096) / 146097;
    var doe := z - era * 146097;
    var yoe := YearOfEra(doe);
    FromYearDay(yoe + era * 400, doe - (365 * yoe + yoe / 4 - yoe / 100))
  }

  // ----- The Gregorian calendar --------------------------------------------

  predicate Leap(year: int) { year % 4 == 0 && (year % 100 != 0 || year % 400 == 0) }

  function MonthLength(year: int, month: int): int {
    if month == 2 then (if Leap(year) then 29 else 28)
    else if month == 4 || month == 6 || month == 9 || month == 11 then 30 else 31
  }

  predicate Valid(d: Date) { 1 <= d.month <= 12 && 1 <= d.day <= MonthLength(d.year, d.month) }

  function Tomorrow(d: Date): Date {
    if d.day < MonthLength(d.year, d.month) then d.(day := d.day + 1)
    else if d.month < 12 then Date(d.year, d.month + 1, 1)
    else Date(d.year + 1, 1, 1)
  }

  predicate Earlier(a: Date, b: Date) {
    a.year < b.year || (a.year == b.year && (a.month < b.month || (a.month == b.month && a.day < b.day)))
  }

  // ----- March-based years -------------------------------------------------

  /** Days from the first of March of year 0 to the first of March of a year. */
  function DaysBefore(year: int): int { 365 * year + year / 4 - year / 100 + year / 400 }

  function YearLength(year: int): int { DaysBefore(year + 1) - DaysBefore(year) }

  lemma StepOfQuotient(y: int, n: int)
    requires n > 1
    ensures (y + 1) / n == y / n + (if (y + 1) % n == 0 then 1 else 0)
  {
    var q, r := (y + 1) / n, (y + 1) % n;
    assert y + 1 == q * n + r;
    if r == 0 {
      assert y == (q - 1) * n + (n - 1);
      QuotientUnique(y, n, q - 1, n - 1);
    } else {
      assert y == q * n + (r - 1);
      QuotientUnique(y, n, q, r - 1);
    }
  }

  lemma Multiple(d: int, n: int)
    requires n > 0
    ensures d >= 1 ==> d * n >= n
    ensures d <= -1 ==> d * n <= -n
  {
  }

  lemma QuotientUnique(y: int, n: int, q: int, r: int)
    requires n > 0 && 0 <= r < n && y == q * n + r
    ensures y / n == q
  {
    assert y == (y / n) * n + y % n;
    Multiple(y / n - q, n);
    assert (y / n - q) * n == r - y % n;
  }

  /** A March-based year has a leap day exactly when the civil year it ends in is a leap year. */
  lemma YearLengthIs(year: int)
    ensures YearLength(year) == if Leap(year + 1) then 366 else 365
  {
    StepOfQuotient(year, 4);
    StepOfQuotient(year, 100);
    StepOfQuotient(year, 400);
    var n := year + 1;
    assert n % 100 == 0 ==> n % 4 == 0;
    assert n % 400 == 0 ==> n % 100 == 0;
  }

  /** A day number split into its March-based year and the day of that year. */
  ghost predicate Splits(z: int, year: int, doy: int) {
    z == DaysBefore(year) + doy && 0 <= doy < YearLength(year)
  }

  /** A day of an era as centuries, four-year cycles, years and days. */
  lemma SplitEra(doe: int) returns (c: int, q: int, y: int, d: int)
    requires 0 <= doe < 146097
    ensures 0 <= c <= 3 && 0 <= q <= 24 && 0 <= y <= 3 && 0 <= d <= 365
    ensures doe == 36524 * c + 1461 * q + 365 * y + d
    ensures d == 365 ==> y == 3 && (q == 24 ==> c == 3)
  {
    c := if doe / 36524 == 4 then 3 else doe / 36524;
    var r := doe - 36524 * c;
    q := r / 1461;
    var s := r - 1461 * q;
    y := if s / 365 == 4 then 3 else s / 365;
    d := s - 365 * y;
  }

  lemma YearOfEraIs(c: int, q: int, y: int, d: int)
    requires 0 <= c <= 3 && 0 <= q <= 24 && 0 <= y <= 3 && 0 <= d <= 365
    requires d == 365 ==> y == 3 && (q == 24 ==> c == 3)
    ensures YearOfEra(36524 * c + 1461 * q + 365 * y + d) == 100 * c + 4 * q + y
  {
    var doe := 36524 * c + 1461 * q + 365 * y + d;
    var last := if doe == 146096 then 1 else 0;
    var over := if 24 * c + q + 365 * y + d >= 1460 then 1 else 0;
    assert doe / 1460 == 25 * c + q + over;
    assert doe / 36524 == c + last;
    assert doe / 146096 == last;
  }

  lemma EraQuotients(era: int, c: int, q: int, y: int)
    requires 0 <= c <= 3 && 0 <= q <= 24 && 0 <= y <= 3
    ensures var yoe := 100 * c + 4 * q + y;
            var year := yoe + 400 * era;
            && yoe / 4 == 25 * c + q && yoe / 100 == c
            && year / 4 == 25 * c + q + 100 * era && year / 100 == c + 4 * era && year / 400 == era
  {
  }

  lemma NoRemainder(n: int, m: int, k: int)
    requires m > 0 && n == k * m
    ensures n % m == 0
  {
    QuotientUnique(n, m, k, 0);
    assert n == (n / m) * m + n % m;
  }

  lemma LastDayOfCycle(era: int, c: int, q: int)
    requires 0 <= c <= 3 && 0 <= q <= 24 && (q == 24 ==> c == 3)
    ensures Leap(100 * c + 4 * q + 3 + 400 * era + 1)
  {
    var n := 100 * c + 4 * q + 3 + 400 * era + 1;
    NoRemainder(n, 4, 25 * c + q + 1 + 100 * era);
    if q == 24 {
      NoRemainder(n, 400, era + 1);
    } else {
      QuotientUnique(n, 100, c + 4 * era, 4 * (q + 1));
      assert n == (n / 100) * 100 + n % 100;
    }
  }

  lemma EraSplits(era: int, doe: int)
    requires 0 <= doe < 146097
    ensures var yoe := YearOfEra(doe);
            Splits(146097 * era + doe, yoe + 400 * era, doe - (365 * yoe + yoe / 4 - yoe / 100))
  {
    hide YearOfEra;
    var c, q, y, d := SplitEra(doe);
    YearOfEraIs(c, q, y, d);
    EraQuotients(era, c, q, y);
    YearLengthIs(100 * c + 4 * q + y + 400 * era);
    if d == 365 { LastDayOfCycle(era, c, q); }
  }

  /** From 0000-03-01 on, the conversion is the date of the day's March-based year and day of year. */
  lemma CivilSplits(days: int) returns (year: int, doy: int)
    requires days >= -719468
    ensures Splits(days + 719468, year, doy) && CivilFromDays(days) == FromYearDay(year, doy)
  {
    hide YearOfEra, FromYearDay;
    var z := days + 719468;
    var era, doe := z / 146097, z % 146097;
    EraSplits(era, doe);
    year, doy := YearOfEra(doe) + 400 * era, doe - (365 * YearOfEra(doe) + YearOfEra(doe) / 4 - YearOfEra(doe) / 100);
  }

  // ----- Days of a year ----------------------------------------------------

  /** The day of the March-based year on which a month starts, March being 0. */
  function MonthStart(mp: int): int { (153 * mp + 2) / 5 }

  lemma MonthOfDay(doy: int)
    requires 0 <= doy <= 365
    ensures var mp := (5 * doy + 2) / 153;
            0 <= mp <= 11 && MonthStart(mp) <= doy && (mp < 11 ==> doy < MonthStart(mp + 1))
  {
    var mp := (5 * doy + 2) / 153;
    assert 153 * mp <= 5 * doy + 2 < 153 * (mp + 1);
  }

  lemma MonthLengths(year: int, mp: int)
    requires 0 <= mp <= 10
    ensures var d := FromYearDay(year, MonthStart(mp));
            MonthLength(d.year, d.month) == MonthStart(mp + 1) - MonthStart(mp)
  {
  }

  /** The date of a day within its year is valid. */
  lemma YearDayValid(year: int, doy: int)
    requires 0 <= doy < YearLength(year)
    ensures Valid(FromYearDay(year, doy))
  {
    YearLengthIs(year);
    MonthOfDay(doy);
    var mp := (5 * doy + 2) / 153;
    if mp <= 10 { MonthLengths(year, mp); }
  }

  lemma SameYearNext(year: int, doy: int)
    requires 0 <= doy && doy + 1 < YearLength(year)
    ensures FromYearDay(year, doy + 1) == Tomorrow(FromYearDay(year, doy))
  {
    YearLengthIs(year);
    MonthOfDay(doy);
    MonthStep(doy);
    var mp := (5 * doy + 2) / 153;
    if mp <= 10 { MonthLengths(year, mp); }
  }

  /** The month changes exactly on the day it starts. */
  lemma MonthStep(doy: int)
    requires 0 <= doy < 365
    ensures var mp := (5 * doy + 2) / 153;
            (5 * (doy + 1) + 2) / 153 == if mp < 11 && doy + 1 == MonthStart(mp + 1) then mp + 1 else mp
  {
    MonthOfDay(doy);
    MonthOfDay(doy + 1);
  }

  lemma NewYearNext(year: int)
    ensures FromYearDay(year + 1, 0) == Tomorrow(FromYearDay(year, YearLength(year) - 1))
  {
    YearLengthIs(year);
    MonthOfDay(YearLength(year) - 1);
  }

  /** The next day of a year is tomorrow's date, and the day after the last one is the first of March. */
  lemma YearDayNext(year: int, doy: int)
    requires 0 <= doy < YearLength(year)
    ensures FromYearDay(if doy + 1 < YearLength(year) then year
            else year + 1, if doy + 1 < YearLength(year) then doy + 1 else 0)
            == Tomorrow(FromYearDay(year, doy))
  {
    if doy + 1 < YearLength(year) { SameYearNext(year, doy); } else { NewYearNext(year); }
  }

  /** Two ways of splitting a day number are one. */
  lemma SplitUnique(z: int, y1: int, d1: int, y2: int, d2: int)
    requires Splits(z, y1, d1) && Splits(z, y2, d2)
    ensures y1 == y2 && d1 == d2
  {
    if y1 < y2 { DaysBeforeGrows(y1 + 1, y2); }
    if y2 < y1 { DaysBeforeGrows(y2 + 1, y1); }
  }

  lemma {:induction false} DaysBeforeGrows(a: int, b: int)
    requires a <= b
    ensures DaysBefore(a) <= DaysBefore(b)
    decreases b - a
  {
    if a < b {
      YearLengthIs(a);
      DaysBeforeGrows(a + 1, b);
    }
  }

  // ----- The theorems ------------------------------------------------------

  lemma EpochDate()
    ensures CivilFromDays(0) == Date(1970, 1, 1)
  {
  }

  /** From 0000-03-01 on every day number gives a date that exists. */
  lemma DateExists(days: int)
    requires days >= -719468
    ensures Valid(CivilFromDays(days))
  {
    var year, doy := CivilSplits(days);
    YearDayValid(year, doy);
  }

  /** The next day number gives the next date, leap days and turns of months, years and centuries
      included. */
  lemma NextDayNextDate(days: int)
    requires days >= -719468
    ensures CivilFromDays(days + 1) == Tomorrow(CivilFromDays(days))
  {
    var y1, d1 := CivilSplits(days);
    var y2, d2 := CivilSplits(days + 1);
    YearDayNext(y1, d1);
    var y := if d1 + 1 < YearLength(y1) then y1 else y1 + 1;
    var d := if d1 + 1 < YearLength(y1) then d1 + 1 else 0;
    YearLengthIs(y);
    SplitUnique(days + 1 + 719468, y, d, y2, d2);
  }

  lemma TomorrowLater(a: Date, b: Date)
    requires Valid(b) && (a == b || Earlier(a, b))
    ensures Earlier(a, Tomorrow(b))
  {
  }

  /** Later day numbers give later dates, so no two day numbers share a date. */
  lemma {:induction false} DatesInOrder(a: int, b: int)
    requires -719468 <= a < b
    ensures Earlier(CivilFromDays(a), CivilFromDays(b))
    decreases b - a
  {
    hide CivilFromDays, Tomorrow, Valid;
    if a + 1 < b { DatesInOrder(a, b - 1); }
    DateExists(b - 1);
    NextDayNextDate(b - 1);
    TomorrowLater(CivilFromDays(a), CivilFromDays(b - 1));
  }

  // ----- Before 0000-03-01 ----------------------------------------------------

  /** The conversion gives the date of the day's own March-based year and day of that year. */
  ghost predicate RightDate(days: int) {
    exists year, doy :: Splits(days + 719468, year, doy) && CivilFromDays(days) == FromYearDay(year, doy)
  }

  /** The day numbers it is right for: all from 0000-03-01 on, and before that the last day of each era of
      400 years only. */
  predicate Converts(days: int) { days >= -719468 || (days + 719468) % 146097 == 146096 }

  /** An era too early, the year still comes out right. */
  lemma LateYearOfEra(c: int, q: int, y: int, d: int)
    requires 0 <= c <= 3 && 0 <= q <= 24 && 0 <= y <= 3 && 0 <= d <= 365
    requires d == 365 ==> y == 3 && q < 24
    ensures YearOfEra(146097 + 36524 * c + 1461 * q + 365 * y + d) == 400 + 100 * c + 4 * q + y
  {
    var doe := 146097 + 36524 * c + 1461 * q + 365 * y + d;
    var over := if 97 + 24 * c + q + 365 * y + d >= 1460 then 1 else 0;
    var last := if 1461 * q + 365 * y + d >= 36523 then 1 else 0;
    var two := if doe >= 292192 then 2 else 1;
    assert doe / 1460 == 100 + 25 * c + q + over;
    assert doe / 36524 == 4 + c + last;
    assert doe / 146096 == two;
  }

  /** An era too early, the day of the year is one too late. */
  lemma LateEraSplits(era: int, r: int)
    requires 0 <= r < 146096
    ensures var yoe := YearOfEra(r + 146097);
            Splits(146097 * era + r, yoe + 400 * (era - 1), r + 146097 - (365 * yoe + yoe / 4 - yoe / 100) - 1)
  {
    hide Leap;
    hide YearOfEra;
    var c, q, y, d := SplitEra(r);
    LateYearOfEra(c, q, y, d);
    EraQuotients(era, c, q, y);
    EraQuotients(1, c, q, y);
    YearLengthIs(100 * c + 4 * q + y + 400 * era);
    if d == 365 { LastDayOfCycle(era, c, q); }
  }

  /** Two days of one year never share a date, the one after its last included. */
  lemma NextDayDiffers(year: int, doy: int)
    requires 0 <= doy < YearLength(year)
    ensures FromYearDay(year, doy + 1) != FromYearDay(year, doy)
  {
    YearLengthIs(year);
    MonthOfDay(doy);
    if doy < 365 { MonthStep(doy); }
  }

  /** Before 0000-03-01, except on the last day of an era, the conversion gives the day after the right one
      within the right year. */
  lemma CivilOfEarlyDay(days: int) returns (year: int, doy: int)
    requires !Converts(days)
    ensures Splits(days + 719468, year, doy) && CivilFromDays(days) == FromYearDay(year, doy + 1)
  {
    hide YearOfEra, FromYearDay;
    var z := days + 719468;
    var era, r := z / 146097, z % 146097;
    assert (z - 146096) / 146097 == era - 1 by { QuotientUnique(z - 146096, 146097, era - 1, r + 1); }
    LateEraSplits(era, r);
    var yoe := YearOfEra(r + 146097);
    year, doy := yoe + 400 * (era - 1), r + 146097 - (365 * yoe + yoe / 4 - yoe / 100) - 1;
  }

  lemma CivilOfLastDay(days: int) returns (year: int, doy: int)
    requires days < -719468 && Converts(days)
    ensures Splits(days + 719468, year, doy) && CivilFromDays(days) == FromYearDay(year, doy)
  {
    hide YearOfEra, FromYearDay;
    var z := days + 719468;
    var era, doe := z / 146097, z % 146097;
    assert (z - 146096) / 146097 == era by { QuotientUnique(z - 146096, 146097, era, 0); }
    EraSplits(era, doe);
    year, doy := YearOfEra(doe) + 400 * era, doe - (365 * YearOfEra(doe) + YearOfEra(doe) / 4 - YearOfEra(doe) / 100);
  }

  /** Exactly which day numbers are converted to their Gregorian date. */
  lemma RightDateIff(days: int)
    ensures RightDate(days) <==> Converts(days)
  {
    hide CivilFromDays, FromYearDay, Splits;
    if days >= -719468 {
      var year, doy := CivilSplits(days);
    } else if Converts(days) {
      var year, doy := CivilOfLastDay(days);
    } else {
      var year, doy := CivilOfEarlyDay(days);
      NextDayDiffers(year, doy) by { assert 0 <= doy < YearLength(year) by { SplitBounds(days + 719468, year, doy); } }
      forall y, d | Splits(days + 719468, y, d) ensures CivilFromDays(days) != FromYearDay(y, d) {
        SplitUnique(days + 719468, year, doy, y, d);
      }
    }
  }

  lemma SplitBounds(z: int, year: int, doy: int)
    requires Splits(z, year, doy)
    ensures 0 <= doy < YearLength(year)
  {
  }

  /** The era is rounded down twice, so that days two and one before 0000-03-01 both become the leap day
      of year 0. */
  lemma BeforeTheFirstEra()
    ensures CivilFromDays(-719470) == Date(0, 2, 29) == CivilFromDays(-719469)
  {
    assert (-2 - 146096) / 146097 == -2 && (-1 - 146096) / 146097 == -1;
    assert YearOfEra(292192) == 799 && YearOfEra(146096) == 399;
    assert FromYearDay(-1, 365) == Date(0, 2, 29);
  }
}
