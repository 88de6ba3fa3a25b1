/** `__secs_to_tm`: seconds since the Epoch to a broken-down Gregorian date, checked against
    the POSIX formula for Seconds Since the Epoch (section 4.16 of POSIX.1-2017). */
module Calendar {
  import opened Arith
  import opened Options

  const INT_MIN := -0x8000_0000
  const INT_MAX := 0x7fff_ffff

  datatype Tm = Tm(sec: int, min: int, hour: int, mday: int, mon: int, year: int, wday: int, yday: int)

  // ----- the calendar -----

  /** `y` counts years from 1900, as `tm_year` does. */
  predicate IsLeap(y: int) {
    (y + 1900) % 4 == 0 && ((y + 1900) % 100 != 0 || (y + 1900) % 400 == 0)
  }

  function YearLength(y: int): int {
    if IsLeap(y) then 366 else 365
  }

  function MonthLength(leap: bool, mon: int): int {
    if mon == 1 then if leap then 29 else 28
    else if mon in {3, 5, 8, 10} then 30
    else 31
  }

  /** Days of the year before the first of the month. */
  function DaysBefore(leap: bool, mon: nat): int {
    if mon == 0 then 0 else DaysBefore(leap, mon - 1) + MonthLength(leap, mon - 1)
  }

  /** Days from the Epoch to the first of January; the terms of the POSIX formula. */
  function YearStart(y: int): int {
    (y - 70) * 365 + (y - 69) / 4 - (y - 1) / 100 + (y + 299) / 400
  }

  function Seconds(tm: Tm): int {
    tm.sec + tm.min * 60 + tm.hour * 3600 + (YearStart(tm.year) + tm.yday) * 86400
  }

  /** A date and time of the Gregorian calendar whose fields agree with each other; the Epoch
      was a Thursday. */
  predicate IsValid(tm: Tm) {
    && 0 <= tm.sec < 60 && 0 <= tm.min < 60 && 0 <= tm.hour < 24
    && 0 <= tm.mon < 12 && 1 <= tm.mday <= MonthLength(IsLeap(tm.year), tm.mon)
    && tm.yday == DaysBefore(IsLeap(tm.year), tm.mon) + tm.mday - 1
    && tm.wday == (YearStart(tm.year) + tm.yday + 4) % 7
  }

  // ----- division as in C -----

  function CDiv(a: int, b: int): int
    requires b > 0
  {
    if a >= 0 then a / b else -(-a / b)
  }

  function CMod(a: int, b: int): int
    requires b > 0
  {
    a - CDiv(a, b) * b
  }

  /** Quotient and remainder after the correction of a negative remainder. */
  lemma Corrected(a: int, b: int)
    requires b > 0
    ensures var q, r := CDiv(a, b), CMod(a, b);
            if r < 0 then q - 1 == a / b && r + b == a % b else q == a / b && r == a % b
  {
    if a < 0 {
      var n := -a;
      assert n == n / b * b + n % b;
      if n % b == 0 {
        assert a == -(n / b) * b;
        Floor(a, b, -(n / b), 0);
      } else {
        assert a == (-(n / b) - 1) * b + (b - n % b);
        Floor(a, b, -(n / b) - 1, b - n % b);
      }
    }
  }

  // ----- 400-year cycles from the first of March 2000 -----

  /** Days before the first of the `m`-th month of a year that begins in March. */
  function MarchDays(m: int): int
    requires 0 <= m <= 12
  {
    [0, 31, 61, 92, 122, 153, 184, 214, 245, 275, 306, 337, 366][m]
  }

  /** Leap days from March of year 2000 to March of year 2000 + `y`. */
  function LeapDays(y: int): int {
    y / 4 - y / 100 + y / 400
  }

  /** The cycle counts name a year, and a day of it that exists. */
  lemma Cycles(qc: int, c: int, q: int, r: int, rem: int)
    requires 0 <= c <= 3 && 0 <= q <= 24 && 0 <= r <= 3 && 0 <= rem <= 365
    requires rem == 365 ==> r == 3 && (q < 24 || c == 3)
    ensures var y := r + 4 * q + 100 * c + 400 * qc;
            && 146097 * qc + 36524 * c + 1461 * q + 365 * r == 365 * y + LeapDays(y)
            && (IsLeap(y + 100) <==> r == 0 && (q > 0 || c == 0))
            && (rem == 365 ==> IsLeap(y + 101))
  {
    var y := r + 4 * q + 100 * c + 400 * qc;
    Floor(y, 4, q + 25 * c + 100 * qc, r);
    Floor(y, 100, c + 4 * qc, r + 4 * q);
    Floor(y, 400, qc, r + 4 * q + 100 * c);
    LeapYear(y);
    if rem == 365 {
      LastOfCycle(qc, c, q);
    }
    hide IsLeap;
  }

  lemma LastOfCycle(qc: int, c: int, q: int)
    requires 0 <= c <= 3 && 0 <= q <= 24 && (q < 24 || c == 3)
    ensures IsLeap(3 + 4 * q + 100 * c + 400 * qc + 101)
  {
    var z := 4 * (q + 1) + 100 * c + 400 * qc;
    Floor(z, 4, q + 1 + 25 * c + 100 * qc, 0);
    if q < 24 {
      Floor(z, 100, c + 4 * qc, 4 * (q + 1));
    } else {
      Floor(z, 400, qc + 1, 0);
    }
    LeapYear(z);
    hide IsLeap;
  }

  lemma LeapYear(y: int)
    ensures IsLeap(y + 100) <==> y % 4 == 0 && (y % 100 != 0 || y % 400 == 0)
  {
    LeapShift(y);
  }

  /** From March to December: the year is `y`, the day of the year begins with January. */
  lemma LaterMonths(y: int)
    ensures YearStart(y + 100) + 59 + (if IsLeap(y + 100) then 1 else 0) == 365 * y + LeapDays(y) + 11017
  {
    ShiftDiv(y + 3, 7, 4);
    CeilDiv(y, 4);
    CeilDiv(y, 100);
    CeilDiv(y, 400);
    LeapShift(y);
    LeapTerms(y);
  }

  lemma LeapShift(y: int)
    ensures (y + 2000) % 4 == y % 4 && (y + 2000) % 100 == y % 100 && (y + 2000) % 400 == y % 400
  {
    ShiftDiv(y, 500, 4);
    ShiftDiv(y, 20, 100);
    ShiftDiv(y, 5, 400);
  }

  /** Exactly the years that the three divisions count. */
  lemma LeapTerms(y: int)
    ensures y % 400 == 0 ==> y % 100 == 0
    ensures y % 100 == 0 ==> y % 4 == 0
  {
  }

  /** January and February belong to the next year. */
  lemma EarlyMonths(y: int)
    ensures YearStart(y + 101) - 306 == 365 * y + LeapDays(y) + 11017
  {
    ShiftDiv(y, 8, 4);
    ShiftDiv(y, 1, 100);
    ShiftDiv(y, 1, 400);
  }

  lemma MonthTable(leap: bool)
    ensures DaysBefore(leap, 0) == 0 && DaysBefore(leap, 1) == 31
    ensures forall m | 0 <= m < 10 :: DaysBefore(leap, m + 2) == MarchDays(m) + 59 + (if leap then 1 else 0)
    ensures forall m | 0 <= m < 10 :: MarchDays(m + 1) - MarchDays(m) == MonthLength(leap, m + 2)
  {
    assert DaysBefore(leap, 1) == 31;
    assert DaysBefore(leap, 2) == 59 + (if leap then 1 else 0);
    assert DaysBefore(leap, 4) == DaysBefore(leap, 2) + 61;
    assert DaysBefore(leap, 6) == DaysBefore(leap, 2) + 122;
    assert DaysBefore(leap, 8) == DaysBefore(leap, 2) + 184;
    assert DaysBefore(leap, 10) == DaysBefore(leap, 2) + 245;
  }

  // ----- the conversion -----

  /** Days since the first of March 2000 split into 400-, 100-, 4- and 1-year cycles. */
  method SplitDays(days: int) returns (qc: int, c: int, q: int, r: int, rem: int)
    ensures days == 146097 * qc + 36524 * c + 1461 * q + 365 * r + rem
    ensures 0 <= c <= 3 && 0 <= q <= 24 && 0 <= r <= 3 && 0 <= rem <= 365
    ensures rem == 365 ==> r == 3 && (q < 24 || c == 3)
  {
    Corrected(days, 146097);
    qc := CDiv(days, 146097);
    rem := CMod(days, 146097);
    if rem < 0 {
      rem := rem + 146097;
      qc := qc - 1;
    }
    assert days == 146097 * qc + rem && 0 <= rem < 146097;
    c := rem / 36524;
    if c == 4 {
      c := c - 1;
    }
    rem := rem - c * 36524;
    assert 0 <= c <= 3 && 0 <= rem && (if c < 3 then rem < 36524 else rem < 36525);
    q := rem / 1461;
    if q == 25 {
      q := q - 1;
    }
    rem := rem - q * 1461;
    assert 0 <= q <= 24 && 0 <= rem < 1461 && (q == 24 && c < 3 ==> rem < 1460);
    r := rem / 365;
    if r == 4 {
      r := r - 1;
    }
    rem := rem - r * 365;
  }

  /** The month loop: the month of a year that begins in March, and the day of that month. */
  method FindMonth(rem: int) returns (months: int, day: int)
    requires 0 <= rem <= 365
    ensures 0 <= months < 12 && rem == MarchDays(months) + day && 0 <= day < MarchDays(months + 1) - MarchDays(months)
  {
    var daysInMonth := [31, 30, 31, 30, 31, 31, 30, 31, 30, 31, 31, 29];
    months, day := 0, rem;
    while daysInMonth[months] <= day
      invariant 0 <= months < 12 && 0 <= day && rem == MarchDays(months) + day
      decreases 12 - months
    {
      day := day - daysInMonth[months];
      months := months + 1;
    }
  }

  /** The true number of years since 1900 of the day `d` days after the Epoch. */
  ghost predicate InYear(d: int, y: int) {
    YearStart(y) <= d < YearStart(y) + YearLength(y)
  }

  /** What the last steps make of a year that begins in March and a day of it. */
  lemma DateCorrect(d: int, y: int, rem: int, months: int, day: int)
    requires d == 365 * y + LeapDays(y) + 11017 + rem && 0 <= rem <= 365 && (rem == 365 ==> IsLeap(y + 101))
    requires 0 <= months < 12 && rem == MarchDays(months) + day && 0 <= day < MarchDays(months + 1) - MarchDays(months)
    ensures var leap := if IsLeap(y + 100) then 1 else 0;
            var yday0 := rem + 59 + leap;
            var yday := if yday0 >= 365 + leap then yday0 - (365 + leap) else yday0;
            var (mon, year) := if months >= 10 then (months - 10, y + 101) else (months + 2, y + 100);
            && YearStart(year) + yday == d && InYear(d, year)
            && 0 <= mon < 12 && 1 <= day + 1 <= MonthLength(IsLeap(year), mon)
            && yday == DaysBefore(IsLeap(year), mon) + day
  {
    LaterMonths(y);
    EarlyMonths(y);
    MonthTable(IsLeap(y + 100));
    MonthTable(IsLeap(y + 101));
    hide YearStart, IsLeap, LeapDays, DaysBefore;
  }

  /** Days since the first of March 2000, second of the day and day of the week. */
  method SplitSeconds(t: int) returns (days: int, remsecs: int, wday: int)
    ensures days + 11017 == t / 86400 && remsecs == t % 86400 && wday == (days + 11017 + 4) % 7
  {
    var secs := t - (946684800 + 86400 * (31 + 29));
    Corrected(secs, 86400);
    days, remsecs := CDiv(secs, 86400), CMod(secs, 86400);
    if remsecs < 0 {
      remsecs := remsecs + 86400;
      days := days - 1;
    }
    ShiftDiv(t, -11017, 86400);
    Corrected(3 + days, 7);
    wday := CMod(3 + days, 7);
    if wday < 0 {
      wday := wday + 7;
    }
    ShiftDiv(3 + days, 1574, 7);
  }

  /** Year since 1900, month, day of the month less one, and day of the year. */
  method DateOf(days: int) returns (year: int, mon: int, day: int, yday: int)
    ensures var d := days + 11017;
            && YearStart(year) + yday == d && InYear(d, year)
            && 0 <= mon < 12 && 1 <= day + 1 <= MonthLength(IsLeap(year), mon)
            && yday == DaysBefore(IsLeap(year), mon) + day
  {
    hide YearStart, DaysBefore, MonthLength, LeapDays, MarchDays, InYear;
    var qc, c, q, remyears, remdays := SplitDays(days);
    Cycles(qc, c, q, remyears, remdays);
    hide IsLeap;
    var leap := if remyears == 0 && (q != 0 || c == 0) then 1 else 0;
    yday := remdays + 31 + 28 + leap;
    if yday >= 365 + leap {
      yday := yday - (365 + leap);
    }
    var years := remyears + 4 * q + 100 * c + 400 * qc;
    var months;
    months, day := FindMonth(remdays);
    DateCorrect(days + 11017, years, remdays, months, day);
    if months >= 10 {
      months := months - 12;
      years := years + 1;
    }
    year, mon := years + 100, months + 2;
  }

  /** Returns a valid date and time with exactly these seconds since the Epoch, or nothing if
      the argument is out of range or the year does not fit an int. */
  method SecsToTm(t: int) returns (r: Option<Tm>)
    ensures r.Some? ==> IsValid(r.value) && Seconds(r.value) == t
    ensures r.None? <==> t < INT_MIN * 31622400 || t > INT_MAX * 31622400
                         || exists y :: InYear(t / 86400, y) && !(INT_MIN <= y <= INT_MAX)
  {
    if t < INT_MIN * 31622400 || t > INT_MAX * 31622400 {
      return None;
    }
    hide YearStart, IsLeap, DaysBefore, MonthLength, InYear;
    var days, remsecs, wday := SplitSeconds(t);
    var year, mon, day, yday := DateOf(days);
    forall y | InYear(t / 86400, y) ensures y == year {
      OneYear(t / 86400, y, year);
    }
    if year > INT_MAX || year < INT_MIN {
      return None;
    }
    TimeOfDay(remsecs);
    r := Some(Tm(remsecs % 60, remsecs / 60 % 60, remsecs / 3600, day + 1, mon, year, wday, yday));
  }

  lemma TimeOfDay(s: int)
    requires 0 <= s < 86400
    ensures 0 <= s / 3600 < 24 && s % 60 + s / 60 % 60 * 60 + s / 3600 * 3600 == s
  {
  }

  // ----- there is only one date -----

  lemma NextYear(y: int)
    ensures YearStart(y + 1) == YearStart(y) + YearLength(y)
  {
    LeapShift(y - 100);
    LaterMonths(y - 100);
    EarlyMonths(y - 100);
    hide YearStart, LeapDays, IsLeap;
  }

  lemma YearsIncrease(y: int, y': int)
    requires y < y'
    ensures YearStart(y) + YearLength(y) <= YearStart(y')
    decreases y' - y
  {
    hide YearStart, IsLeap;
    NextYear(y);
    if y + 1 < y' {
      YearsIncrease(y + 1, y');
    }
  }

  lemma OneYear(d: int, y: int, y': int)
    requires InYear(d, y) && InYear(d, y')
    ensures y == y'
  {
    hide YearStart, YearLength;
    if y < y' {
      YearsIncrease(y, y');
    } else if y' < y {
      YearsIncrease(y', y);
    }
  }

  lemma MonthsIncrease(leap: bool, m: nat, m': nat)
    requires m < m'
    ensures DaysBefore(leap, m) + MonthLength(leap, m) <= DaysBefore(leap, m')
    decreases m' - m
  {
    if m + 1 < m' {
      MonthsIncrease(leap, m + 1, m');
    }
  }

  lemma DayInYear(tm: Tm)
    requires IsValid(tm)
    ensures 0 <= tm.yday < YearLength(tm.year)
  {
    var leap := IsLeap(tm.year);
    assert DaysBefore(leap, 12) == YearLength(tm.year) by {
      MonthTable(leap);
      assert DaysBefore(leap, 9 + 2) == MarchDays(9) + 59 + (if leap then 1 else 0);
    }
    if tm.mon < 12 {
      MonthsIncrease(leap, tm.mon, 12);
    }
    if tm.mon > 0 {
      MonthsIncrease(leap, 0, tm.mon);
    }
  }

  /** Two valid dates and times with the same number of seconds are the same. */
  lemma DateUnique(a: Tm, b: Tm)
    requires IsValid(a) && IsValid(b) && Seconds(a) == Seconds(b)
    ensures a == b
  {
    DayInYear(a);
    DayInYear(b);
    SameDay(a, b);
    hide YearStart, IsLeap, DaysBefore, YearLength;
    OneYear(YearStart(a.year) + a.yday, a.year, b.year);
    if a.mon < b.mon {
      MonthsIncrease(IsLeap(a.year), a.mon, b.mon);
    } else if b.mon < a.mon {
      MonthsIncrease(IsLeap(a.year), b.mon, a.mon);
    }
  }

  lemma SameDay(a: Tm, b: Tm)
    requires IsValid(a) && IsValid(b) && Seconds(a) == Seconds(b)
    ensures YearStart(a.year) + a.yday == YearStart(b.year) + b.yday
    ensures a.sec == b.sec && a.min == b.min && a.hour == b.hour
  {
    hide YearStart, IsLeap, DaysBefore, MonthLength;
    var d, e := YearStart(a.year) + a.yday, YearStart(b.year) + b.yday;
    SameParts(a.sec, a.min + 60 * a.hour + 1440 * d, b.sec, b.min + 60 * b.hour + 1440 * e, 60);
    SameParts(a.min, a.hour + 24 * d, b.min, b.hour + 24 * e, 60);
    SameParts(a.hour, d, b.hour, e, 24);
  }

  lemma SameParts(r: int, q: int, r': int, q': int, d: nat)
    requires 0 <= r < d && 0 <= r' < d && r + q * d == r' + q' * d
    ensures r == r' && q == q'
  {
    Floor(r + q * d, d, q, r);
    Floor(r + q * d, d, q', r');
  }
}
