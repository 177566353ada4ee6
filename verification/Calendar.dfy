/** Proleptic Gregorian dates and day counts, by Euclidean division. */
module Calendar {
  import opened Base

  const DAYS_TO_UNIX_EPOCH: int := 719_468
  const DAYS_PER_400_YEARS: int := 146_097

  datatype Date = Date(year: int, month: int, day: int)

  predicate LeapYear(year: int) { (year % 4 == 0 && year % 100 != 0) || year % 400 == 0 }

  function DaysInMonth(year: int, month: int): int {
    if month == 2 then (if LeapYear(year) then 29 else 28)
    else if month == 4 || month == 6 || month == 9 || month == 11 then 30
    else 31
  }

  predicate ValidDate(d: Date) { 1 <= d.month <= 12 && 1 <= d.day <= DaysInMonth(d.year, d.month) }

  function DaysFromCivil(d: Date): int {
    var year := if d.month <= 2 then d.year - 1 else d.year;
    var era := year / 400;
    var yearOfEra := year - era * 400;
    var monthFromMarch := (d.month + 9) % 12;
    var dayOfYear := (153 * monthFromMarch + 2) / 5 + d.day - 1;
    var dayOfEra := yearOfEra * 365 + yearOfEra / 4 - yearOfEra / 100 + dayOfYear;
    era * DAYS_PER_400_YEARS + dayOfEra - DAYS_TO_UNIX_EPOCH
  }

  function YearOfEra(dayOfEra: int): int { (dayOfEra - dayOfEra / 1460 + dayOfEra / 36524 - dayOfEra / 146_096) / 365 }

  function CivilFromDays(unixDays: int): Date {
    var days := unixDays + DAYS_TO_UNIX_EPOCH;
    var era := days / DAYS_PER_400_YEARS;
    var dayOfEra := days - era * DAYS_PER_400_YEARS;
    var yearOfEra := YearOfEra(dayOfEra);
    var dayOfYear := dayOfEra - (365 * yearOfEra + yearOfEra / 4 - yearOfEra / 100);
    var monthFromMarch := (5 * dayOfYear + 2) / 153;
    var day := dayOfYear - (153 * monthFromMarch + 2) / 5 + 1;
    var month := if monthFromMarch < 10 then monthFromMarch + 3 else monthFromMarch - 9;
    Date(yearOfEra + era * 400 + (if month <= 2 then 1 else 0), month, day)
  }

  // ---------------------------------------------------------------- years that start in March

  /** The days before year `y` of a 400-year era, counting years from March. */
  function YearStart(y: int): int { 365 * y + y / 4 - y / 100 }

  /** Whether the year from March of `y` ends with a leap day. */
  predicate LongYear(y: int) { LeapYear(y + 1) }

  function YearLength(y: int): int { if LongYear(y) then 366 else 365 }

  /** A year of an era in centuries, four-year cycles and years. */
  lemma YearParts(y: int) returns (c: int, q: int, r: int)
    requires 0 <= y < 400
    ensures y == 100 * c + 4 * q + r && 0 <= c < 4 && 0 <= q < 25 && 0 <= r < 4
    ensures YearStart(y) == 36524 * c + 1461 * q + 365 * r
    ensures LongYear(y) <==> r == 3 && (q < 24 || c == 3)
  {
    c, q, r := y / 100, y % 100 / 4, y % 4;
  }

  /** The year of a day of an era. */
  lemma YearFound(y: int, dayOfYear: int)
    requires 0 <= y < 400 && 0 <= dayOfYear < YearLength(y)
    ensures YearOfEra(YearStart(y) + dayOfYear) == y && 0 <= YearStart(y) + dayOfYear < DAYS_PER_400_YEARS
  {
    var c, q, r := YearParts(y);
    var doe := YearStart(y) + dayOfYear;
    var rest := 24 * c + q + 365 * r + dayOfYear;
    assert doe == 1460 * (25 * c + q) + rest;
    assert doe / 1460 == 25 * c + q + (if rest >= 1460 then 1 else 0);
    assert doe == 36524 * c + (1461 * q + 365 * r + dayOfYear);
    if doe == 146_096 {
      assert doe / 36524 == 4 && doe / 146_096 == 1;
    } else {
      assert doe / 36524 == c && doe / 146_096 == 0;
    }
  }

  /** Every day of an era is in a year. */
  lemma DayInYear(doe: int) returns (y: int, dayOfYear: int)
    requires 0 <= doe < DAYS_PER_400_YEARS
    ensures 0 <= y < 400 && 0 <= dayOfYear < YearLength(y) && doe == YearStart(y) + dayOfYear
  {
    var c := if doe / 36524 < 4 then doe / 36524 else 3;
    var inCentury := doe - 36524 * c;
    var q, inCycle := inCentury / 1461, inCentury % 1461;
    var r := if inCycle / 365 < 4 then inCycle / 365 else 3;
    y, dayOfYear := 100 * c + 4 * q + r, inCycle - 365 * r;
    assert y / 100 == c && y % 100 / 4 == q && y % 4 == r;
    var c', q', r' := YearParts(y);
  }

  // ---------------------------------------------------------------- months from March

  function MonthStart(m: int): int { (153 * m + 2) / 5 }

  function MonthOf(m: int): int { if m < 10 then m + 3 else m - 9 }

  /** The month of a day of a year from March. */
  lemma MonthFound(y: int, m: int, day: int)
    requires 0 <= m < 12 && 1 <= day <= DaysInMonth(if m < 10 then y else y + 1, MonthOf(m))
    ensures (5 * (MonthStart(m) + day - 1) + 2) / 153 == m && 0 <= MonthStart(m) + day - 1 < YearLength(y)
    ensures (MonthOf(m) + 9) % 12 == m && (MonthOf(m) <= 2 <==> m >= 10)
  {
    if m < 6 { MonthFoundFirst(y, m, day); } else { MonthFoundLast(y, m, day); }
  }

  lemma MonthFoundFirst(y: int, m: int, day: int)
    requires 0 <= m < 6 && 1 <= day <= DaysInMonth(y, MonthOf(m))
    ensures (5 * (MonthStart(m) + day - 1) + 2) / 153 == m && 0 <= MonthStart(m) + day - 1 < 365
  {
    assert m == 0 || m == 1 || m == 2 || m == 3 || m == 4 || m == 5;
  }

  lemma MonthFoundLast(y: int, m: int, day: int)
    requires 6 <= m < 12 && 1 <= day <= DaysInMonth(if m < 10 then y else y + 1, MonthOf(m))
    ensures (5 * (MonthStart(m) + day - 1) + 2) / 153 == m && 0 <= MonthStart(m) + day - 1 < YearLength(y)
  {
    assert m == 6 || m == 7 || m == 8 || m == 9 || m == 10 || m == 11;
  }

  /** Every day of a year from March is in a month. */
  lemma DayInMonth(y: int, dayOfYear: int)
    requires 0 <= dayOfYear < YearLength(y)
    ensures var m := (5 * dayOfYear + 2) / 153;
            0 <= m < 12 && 1 <= dayOfYear - MonthStart(m) + 1 <= DaysInMonth(if m < 10 then y else y + 1, MonthOf(m))
  {
    var m := (5 * dayOfYear + 2) / 153;
    assert m == 0 || m == 1 || m == 2 || m == 3 || m == 4 || m == 5 || m == 6 || m == 7 || m == 8 || m == 9
        || m == 10 || m == 11;
  }

  // ---------------------------------------------------------------- the two conversions

  lemma Mod4(t: int, y: int)
    ensures (4 * t + y) % 4 == y % 4
  {}

  lemma Mod100(t: int, y: int)
    ensures (100 * t + y) % 100 == y % 100
  {}

  lemma Mod400(t: int, y: int)
    ensures (400 * t + y) % 400 == y % 400
  {}

  /** Leap years repeat every 400 years. */
  lemma EraYears(era: int, y: int)
    ensures LeapYear(400 * era + y) <==> LeapYear(y)
  {
    Mod4(100 * era, y);
    Mod100(4 * era, y);
    Mod400(era, y);
    assert 4 * (100 * era) == 400 * era && 100 * (4 * era) == 400 * era;
  }

  /** The date with year `y` of an era, month `m` from March and a day. */
  function DateAt(era: int, y: int, m: int, day: int): Date {
    Date(400 * era + y + (if m >= 10 then 1 else 0), MonthOf(m), day)
  }

  /** A date's day count, from its era, year, month and day. */
  lemma DaysOf(era: int, y: int, m: int, day: int)
    requires 0 <= y < 400 && 0 <= m < 12
    ensures DaysFromCivil(DateAt(era, y, m, day)) ==
            era * DAYS_PER_400_YEARS + (YearStart(y) + MonthStart(m) + day - 1) - DAYS_TO_UNIX_EPOCH
  {
    assert (400 * era + y) / 400 == era;
  }

  lemma EraOf(era: int, doe: int)
    requires 0 <= doe < DAYS_PER_400_YEARS
    ensures (era * DAYS_PER_400_YEARS + doe) / DAYS_PER_400_YEARS == era
  {}

  /** The date of a day count, from its era, its year and the day of the year. */
  lemma CivilOf(era: int, y: int, m: int, dayOfYear: int)
    requires 0 <= y < 400 && 0 <= dayOfYear < YearLength(y) && (5 * dayOfYear + 2) / 153 == m && m < 12
    ensures CivilFromDays(era * DAYS_PER_400_YEARS + (YearStart(y) + dayOfYear) - DAYS_TO_UNIX_EPOCH) ==
            DateAt(era, y, m, dayOfYear - MonthStart(m) + 1)
  {
    YearFound(y, dayOfYear);
    EraOf(era, YearStart(y) + dayOfYear);
  }

  /** How a valid date is made up. */
  lemma DateParts(d: Date) returns (era: int, y: int, m: int)
    requires ValidDate(d)
    ensures 0 <= y < 400 && 0 <= m < 12 && d == DateAt(era, y, m, d.day)
            && 1 <= d.day <= DaysInMonth(if m < 10 then y else y + 1, MonthOf(m))
  {
    var year := if d.month <= 2 then d.year - 1 else d.year;
    era, y, m := year / 400, year % 400, (d.month + 9) % 12;
    assert year == 400 * era + y && MonthOf(m) == d.month;
    EraYears(era, if m < 10 then y else y + 1);
  }

  /** Every valid date comes back from its day count. */
  lemma DateRoundTrip(d: Date)
    requires ValidDate(d)
    ensures CivilFromDays(DaysFromCivil(d)) == d
  {
    var era, y, m := DateParts(d);
    DaysOf(era, y, m, d.day);
    assert (5 * (MonthStart(m) + d.day - 1) + 2) / 153 == m && 0 <= MonthStart(m) + d.day - 1 < YearLength(y) by {
      MonthFound(y, m, d.day);
    }
    CivilOf(era, y, m, MonthStart(m) + d.day - 1);
  }

  /** The date of a day of a year from March is valid, and its day count is that day. */
  lemma DateOfDay(era: int, y: int, dayOfYear: int)
    requires 0 <= y < 400 && 0 <= dayOfYear < YearLength(y)
    ensures var m := (5 * dayOfYear + 2) / 153; var d := DateAt(era, y, m, dayOfYear - MonthStart(m) + 1);
            ValidDate(d)
                && DaysFromCivil(d) == era * DAYS_PER_400_YEARS + (YearStart(y) + dayOfYear) - DAYS_TO_UNIX_EPOCH
  {
    DayInMonth(y, dayOfYear);
    var m := (5 * dayOfYear + 2) / 153;
    EraYears(era, if m < 10 then y else y + 1);
    DaysOf(era, y, m, dayOfYear - MonthStart(m) + 1);
  }

  lemma EraAndDay(days: int) returns (era: int, doe: int)
    ensures days == era * DAYS_PER_400_YEARS + doe - DAYS_TO_UNIX_EPOCH && 0 <= doe < DAYS_PER_400_YEARS
  {
    era, doe := (days + DAYS_TO_UNIX_EPOCH) / DAYS_PER_400_YEARS, (days + DAYS_TO_UNIX_EPOCH) % DAYS_PER_400_YEARS;
  }

  /** Every day count is that of a valid date. */
  lemma DaysRoundTrip(days: int)
    ensures ValidDate(CivilFromDays(days)) && DaysFromCivil(CivilFromDays(days)) == days
  {
    var era, doe := EraAndDay(days);
    var y, dayOfYear := DayInYear(doe);
    assert (5 * dayOfYear + 2) / 153 < 12 by { DayInMonth(y, dayOfYear); }
    CivilOf(era, y, (5 * dayOfYear + 2) / 153, dayOfYear);
    DateOfDay(era, y, dayOfYear);
  }

  predicate DateLess(a: Date, b: Date) {
    a.year < b.year || (a.year == b.year && (a.month < b.month || (a.month == b.month && a.day < b.day)))
  }

  // ---------------------------------------------------------------- date order is day order

  /** The days before the year from March of `y`, over all eras. */
  function Begins(y: int): int { 365 * y + y / 4 - y / 100 + y / 400 }

  lemma NextYear(y: int)
    ensures Begins(y + 1) == Begins(y) + YearLength(y)
  {
    NextDiv4(y);
    NextDiv100(y);
    NextDiv400(y);
  }

  lemma NextDiv4(y: int)
    ensures (y + 1) / 4 == y / 4 + (if (y + 1) % 4 == 0 then 1 else 0)
  {}

  lemma NextDiv100(y: int)
    ensures (y + 1) / 100 == y / 100 + (if (y + 1) % 100 == 0 then 1 else 0)
    ensures (y + 1) % 100 == 0 ==> (y + 1) % 4 == 0
  {}

  lemma NextDiv400(y: int)
    ensures (y + 1) / 400 == y / 400 + (if (y + 1) % 400 == 0 then 1 else 0)
    ensures (y + 1) % 400 == 0 ==> (y + 1) % 100 == 0
  {}

  lemma {:induction false} YearsInOrder(x: int, y: int)
    requires x < y
    ensures Begins(y) >= Begins(x) + YearLength(x)
    decreases y - x
  {
    NextYear(y - 1);
    if x < y - 1 { YearsInOrder(x, y - 1); }
  }

  lemma BeginsAt(era: int, y: int)
    requires 0 <= y < 400
    ensures Begins(400 * era + y) == era * DAYS_PER_400_YEARS + YearStart(y)
  {
    assert (400 * era + y) / 4 == 100 * era + y / 4 && (400 * era + y) / 100 == 4 * era + y / 100
        && (400 * era + y) / 400 == era;
  }

  lemma MonthsInOrder(y: int, m: int, day: int, m': int, day': int)
    requires 0 <= m < m' < 12 && 1 <= day' && 1 <= day <= DaysInMonth(if m < 10 then y else y + 1, MonthOf(m))
    ensures MonthStart(m) + day < MonthStart(m') + day'
  {
    assert m == 0 || m == 1 || m == 2 || m == 3 || m == 4 || m == 5 || m == 6 || m == 7 || m == 8 || m == 9 || m == 10;
  }

  /** A date's day count as the beginning of its year from March and the day of that year. */
  lemma DayCount(d: Date) returns (y: int, m: int)
    requires ValidDate(d)
    ensures 0 <= m < 12 && 12 * y + m == 12 * d.year + d.month - 3
            && 1 <= d.day <= DaysInMonth(if m < 10 then y else y + 1, MonthOf(m))
    ensures DaysFromCivil(d) == Begins(y) + MonthStart(m) + d.day - 1 - DAYS_TO_UNIX_EPOCH
            && 0 <= MonthStart(m) + d.day - 1 < YearLength(y)
  {
    var era, z;
    era, z, m := DateParts(d);
    y := 400 * era + z;
    DaysOf(era, z, m, d.day);
    BeginsAt(era, z);
    MonthFound(z, m, d.day);
    EraYears(era, if m < 10 then z else z + 1);
    EraYears(era, z + 1);
  }

  lemma MonthNumbers(a: Date, b: Date, y: int, m: int, z: int, n: int)
    requires DateLess(a, b) && 1 <= a.month <= 12 && 1 <= b.month <= 12 && 0 <= m < 12 && 0 <= n < 12
    requires 12 * y + m == 12 * a.year + a.month - 3 && 12 * z + n == 12 * b.year + b.month - 3
    ensures y < z || (y == z && (m < n || (m == n && a.day < b.day)))
  {}

  lemma EarlierDate(a: Date, b: Date)
    requires ValidDate(a) && ValidDate(b) && DateLess(a, b)
    ensures DaysFromCivil(a) < DaysFromCivil(b)
  {
    var y, m := DayCount(a);
    var z, n := DayCount(b);
    MonthNumbers(a, b, y, m, z, n);
    if y < z {
      YearsInOrder(y, z);
    } else if m < n {
      MonthsInOrder(y, m, a.day, n, b.day);
    }
  }

  /** Dates are in the order of their day counts. */
  lemma DateOrder(a: Date, b: Date)
    requires ValidDate(a) && ValidDate(b)
    ensures DateLess(a, b) <==> DaysFromCivil(a) < DaysFromCivil(b)
  {
    if DateLess(a, b) {
      EarlierDate(a, b);
    } else if a != b {
      EarlierDate(b, a);
    }
  }
}
