/** UTC calendar times as seconds since J2000, by counting days year by year. Seconds are exact reals. */
module Calendar {

  predicate IsLeapYear(year: int) {
    // C's remainder is zero exactly when Dafny's is
    (year % 4 == 0 && year % 100 != 0) || year % 400 == 0
  }

  function DaysIn(year: int): int {
    if IsLeapYear(year) then 366 else 365
  }

  /** Days from the start of year 0 to the start of this one, in the proleptic Gregorian calendar: 365 a year and one
      more for each leap year. Division rounds down. */
  function DaysBefore(year: int): int {
    365 * year + (year + 3) / 4 - (year + 99) / 100 + (year + 399) / 400
  }

  /** From one year to the next the closed form grows by the length of the year: 366 days every fourth year, but not in a
      year that ends a century unless its number divides by 400. */
  lemma OneYear(year: int)
    ensures DaysBefore(year + 1) - DaysBefore(year) == DaysIn(year)
    ensures DaysIn(year) == if year % 4 == 0 && (year % 100 == 0 ==> year % 400 == 0) then 366 else 365
  {
    Counted(year, 4);
    Counted(year, 100);
    Counted(year, 400);
    assert year % 400 == 0 ==> year % 100 == 0 by { Divides(year, 100, 4); }
    assert year % 100 == 0 ==> year % 4 == 0 by { Divides(year, 4, 25); }
  }

  /** (year + n - 1) / n counts the multiples of n below year. */
  lemma Counted(year: int, n: int)
    requires n > 1
    ensures (year + 1 + n - 1) / n - (year + n - 1) / n == if year % n == 0 then 1 else 0
  {
    var q, r := year / n, year % n;
    assert year == q * n + r;
    Quotient(year + n, n, q + 1, r);
    if r == 0 {
      Quotient(year + n - 1, n, q, n - 1);
    } else {
      Quotient(year + n - 1, n, q + 1, r - 1);
    }
  }

  lemma Quotient(a: int, n: int, q: int, r: int)
    requires n > 0 && a == q * n + r && 0 <= r < n
    ensures a / n == q
  {
    var d := a / n - q;
    assert a == (a / n) * n + a % n;
    assert d * n == r - a % n;
    Multiple(d, n);
  }

  lemma Multiple(d: int, n: int)
    requires n > 0
    ensures d >= 1 ==> d * n >= n
    ensures d <= -1 ==> d * n <= -n
  {
  }

  lemma Divides(year: int, n: int, m: int)
    requires n > 0 && m > 0 && n * m > 0
    ensures year % (n * m) == 0 ==> year % n == 0
  {
    if year % (n * m) == 0 {
      var q := year / (n * m);
      assert year == q * (n * m);
      assert year == (q * m) * n + 0;
      Quotient(year, n, q * m, 0);
      assert year % n == year - (year / n) * n;
    }
  }

  datatype Time = Time(year: int, day: int, hour: int, minute: int, second: real)

  /** A day of the year and a time of day that exist. */
  predicate IsTime(t: Time) {
    1 <= t.day <= DaysIn(t.year) && 0 <= t.hour < 24 && 0 <= t.minute < 60 && 0.0 <= t.second < 60.0
  }

  function SecondsOfDay(t: Time): real {
    t.hour as real * 3600.0 + t.minute as real * 60.0 + t.second
  }

  /** Noon of day 1 of 2000 is zero. */
  function SinceJ2000(t: Time): real {
    ((DaysBefore(t.year) - DaysBefore(2000) + t.day - 1) as real - 0.5) * 86400.0 + SecondsOfDay(t)
  }

  /** The loops count the same days as the closed form, on both sides of 2000, for any day number. */
  method CivilToSeconds(t: Time) returns (seconds: real)
    ensures seconds == SinceJ2000(t)
  {
    var days := 0;
    if t.year >= 2000 {
      var y := 2000;
      while y < t.year
        invariant 2000 <= y <= t.year && days == DaysBefore(y) - DaysBefore(2000)
      {
        OneYear(y);
        days := days + (if IsLeapYear(y) then 366 else 365);
        y := y + 1;
      }
    } else {
      var y := t.year;
      while y < 2000
        invariant t.year <= y <= 2000 && days == DaysBefore(t.year) - DaysBefore(y)
      {
        OneYear(y);
        days := days - (if IsLeapYear(y) then 366 else 365);
        y := y + 1;
      }
    }
    days := days + (t.day - 1);
    seconds := (days as real - 0.5) * 86400.0 + t.hour as real * 3600.0 + t.minute as real * 60.0 + t.second;
  }

  /** The epoch is noon of 2000-001, and within a day seconds are seconds. */
  lemma EpochAndDay(t: Time)
    ensures SinceJ2000(Time(2000, 1, 12, 0, 0.0)) == 0.0
    ensures SinceJ2000(t) - SinceJ2000(t.(hour := 0, minute := 0, second := 0.0))
            == 3600.0 * t.hour as real + 60.0 * t.minute as real + t.second
  {
    hide DaysBefore;
  }

  // ---------------------------------------------------------------- order and gaps

  predicate Before(a: Time, b: Time) {
    || a.year < b.year
    || (a.year == b.year && (a.day < b.day
        || (a.day == b.day && (a.hour < b.hour
            || (a.hour == b.hour && (a.minute < b.minute || (a.minute == b.minute && a.second < b.second)))))))
  }

  lemma {:induction false} YearsGrow(a: int, b: int)
    requires a < b
    ensures DaysBefore(b) >= DaysBefore(a) + DaysIn(a)
    decreases b - a
  {
    OneYear(a);
    if a + 1 < b {
      YearsGrow(a + 1, b);
    }
  }

  lemma WithinDay(t: Time)
    requires IsTime(t)
    ensures 0.0 <= SecondsOfDay(t) < 86400.0
  {
  }

  /** Later times have more seconds, and only they. */
  lemma SecondsFollowTheCalendar(a: Time, b: Time)
    requires IsTime(a) && IsTime(b)
    ensures Before(a, b) <==> SinceJ2000(a) < SinceJ2000(b)
  {
    if Before(a, b) {
      MoreSeconds(a, b);
    } else if Before(b, a) {
      MoreSeconds(b, a);
    }
  }

  lemma MoreSeconds(a: Time, b: Time)
    requires IsTime(a) && IsTime(b) && Before(a, b)
    ensures SinceJ2000(a) < SinceJ2000(b)
  {
    hide DaysBefore, DaysIn;
    WithinDay(a);
    WithinDay(b);
    if a.year < b.year {
      YearsGrow(a.year, b.year);
      LaterDay(a, b);
    } else if a.day < b.day {
      LaterDay(a, b);
    }
  }

  lemma LaterDay(a: Time, b: Time)
    requires 0.0 <= SecondsOfDay(a) < 86400.0 && 0.0 <= SecondsOfDay(b) < 86400.0
    requires DaysBefore(a.year) + a.day < DaysBefore(b.year) + b.day
    ensures SinceJ2000(a) < SinceJ2000(b)
  {
    hide DaysBefore, SecondsOfDay;
    var da, db := DaysBefore(a.year) - DaysBefore(2000) + a.day - 1, DaysBefore(b.year) - DaysBefore(2000) + b.day - 1;
    assert da + 1 <= db;
    assert (da as real - 0.5) * 86400.0 + 86400.0 <= (db as real - 0.5) * 86400.0;
  }

  /** The day after; after the last day of a year, the first of the next. */
  function NextDay(t: Time): Time {
    if t.day < DaysIn(t.year) then t.(day := t.day + 1) else t.(year := t.year + 1, day := 1)
  }

  /** Days follow each other without gap or overlap: the same time a calendar day later is 86400 seconds later. */
  lemma DaysAreContiguous(t: Time)
    requires IsTime(t)
    ensures IsTime(NextDay(t)) && SinceJ2000(NextDay(t)) == SinceJ2000(t) + 86400.0
  {
    hide DaysBefore;
    OneYear(t.year);
  }
}
