/** The date arithmetic behind `Date.prototype.setDate` and `setMonth` (ECMA-262 section 21.4.1), with
    UTC as the process time zone. A time is a number of milliseconds since the epoch; months count
    from 0. The limit of the time range (`TimeClip`) is not part of this model. */
module Calendar {

  const MS_PER_DAY: int := 86_400_000

  function Day(t: int): int {
    t / MS_PER_DAY
  }

  function TimeWithinDay(t: int): int {
    t % MS_PER_DAY
  }

  predicate Leap(y: int) {
    y % 4 == 0 && (y % 100 != 0 || y % 400 == 0)
  }

  /** The day number of the first of January. `/` floors, as the standard requires. */
  function DayFromYear(y: int): int {
    365 * (y - 1970) + (y - 1969) / 4 - (y - 1901) / 100 + (y - 1601) / 400
  }

  /** `(x + 1) / k` exceeds `x / k` exactly at the multiples of `k`. */
  lemma QuotientSteps(x: int, k: int)
    requires k == 4 || k == 100 || k == 400
    ensures (x + 1) / k - x / k == if (x + 1) % k == 0 then 1 else 0
  {}

  lemma YearLength(y: int)
    ensures DayFromYear(y + 1) - DayFromYear(y) == if Leap(y) then 366 else 365
  {
    QuotientSteps(y - 1969, 4);
    QuotientSteps(y - 1901, 100);
    QuotientSteps(y - 1601, 400);
    MultiplesOf4(y);
    MultiplesOf100(y);
    MultiplesOf400(y);
  }

  lemma MultiplesOf4(y: int)
    ensures (y - 1968) % 4 == y % 4
  {}

  lemma MultiplesOf100(y: int)
    ensures (y - 1900) % 100 == y % 100
    ensures y % 100 == 0 ==> y % 4 == 0
  {}

  lemma MultiplesOf400(y: int)
    ensures (y - 1600) % 400 == y % 400
    ensures y % 400 == 0 ==> y % 100 == 0
  {}

  lemma {:induction false} YearsAreOrdered(a: int, b: int)
    requires a <= b
    ensures DayFromYear(a) + 365 * (b - a) <= DayFromYear(b)
    decreases b - a
  {
    if a < b {
      YearsAreOrdered(a, b - 1);
      YearLength(b - 1);
    }
  }

  /** The year containing a day, searched from a guess. */
  function YearFrom(day: int, guess: int): (y: int)
    ensures DayFromYear(y) <= day < DayFromYear(y + 1)
    decreases if day < DayFromYear(guess) then DayFromYear(guess) - day + 366 else day - DayFromYear(guess)
  {
    YearLength(guess);
    YearLength(guess - 1);
    if day < DayFromYear(guess) then YearFrom(day, guess - 1)
    else if day >= DayFromYear(guess + 1) then YearFrom(day, guess + 1)
    else guess
  }

  function YearOf(day: int): (y: int)
    ensures DayFromYear(y) <= day < DayFromYear(y + 1)
  {
    YearFrom(day, 1970)
  }

  lemma YearIsUnique(day: int, y: int)
    requires DayFromYear(y) <= day < DayFromYear(y + 1)
    ensures YearOf(day) == y
  {
    var z := YearOf(day);
    if z < y {
      YearsAreOrdered(z + 1, y);
    } else if y < z {
      YearsAreOrdered(y + 1, z);
    }
  }

  type Month = m: int | 0 <= m < 12

  function DaysInMonth(y: int, m: Month): (n: int)
    ensures 28 <= n <= 31
  {
    if m == 1 then (if Leap(y) then 29 else 28)
    else if m == 3 || m == 5 || m == 8 || m == 10 then 30
    else 31
  }

  /** Days of the year before month `m`. */
  function MonthStart(y: int, m: int): int
    requires 0 <= m <= 12
    decreases m
  {
    if m == 0 then 0 else MonthStart(y, m - 1) + DaysInMonth(y, m - 1)
  }

  /** The cumulative days of a year, as ECMA-262 section 21.4.1 tabulates them. */
  lemma MonthTable(y: int)
    ensures MonthStart(y, 0) == 0 && MonthStart(y, 1) == 31
    ensures var leap := if Leap(y) then 1 else 0;
            && MonthStart(y, 2) == 59 + leap && MonthStart(y, 3) == 90 + leap && MonthStart(y, 4) == 120 + leap
            && MonthStart(y, 5) == 151 + leap && MonthStart(y, 6) == 181 + leap && MonthStart(y, 7) == 212 + leap
            && MonthStart(y, 8) == 243 + leap && MonthStart(y, 9) == 273 + leap && MonthStart(y, 10) == 304 + leap
            && MonthStart(y, 11) == 334 + leap && MonthStart(y, 12) == 365 + leap
  {
    var leap := if Leap(y) then 1 else 0;
    assert MonthStart(y, 1) == 31;
    assert MonthStart(y, 2) == 59 + leap;
    assert MonthStart(y, 3) == 90 + leap;
    assert MonthStart(y, 4) == 120 + leap;
    assert MonthStart(y, 5) == 151 + leap;
    assert MonthStart(y, 6) == 181 + leap;
    assert MonthStart(y, 7) == 212 + leap;
    assert MonthStart(y, 8) == 243 + leap;
    assert MonthStart(y, 9) == 273 + leap;
    assert MonthStart(y, 10) == 304 + leap;
    assert MonthStart(y, 11) == 334 + leap;
  }

  lemma MonthStarts(y: int)
    ensures MonthStart(y, 12) == if Leap(y) then 366 else 365
    ensures forall a: int, b: int :: 0 <= a <= b <= 12 ==> MonthStart(y, a) + 28 * (b - a) <= MonthStart(y, b)
  {
    MonthTable(y);
    forall a: int, b: int | 0 <= a <= b <= 12 ensures MonthStart(y, a) + 28 * (b - a) <= MonthStart(y, b) {
      MonthsAreOrdered(y, a, b);
    }
  }

  lemma {:induction false} MonthsAreOrdered(y: int, a: int, b: int)
    requires 0 <= a <= b <= 12
    ensures MonthStart(y, a) + 28 * (b - a) <= MonthStart(y, b)
    decreases b - a
  {
    if a < b {
      MonthsAreOrdered(y, a, b - 1);
    }
  }

  function MonthFrom(y: int, dayInYear: int, m: Month): (r: Month)
    requires MonthStart(y, m) <= dayInYear < MonthStart(y, 12)
    ensures MonthStart(y, r) <= dayInYear < MonthStart(y, r + 1)
    decreases 12 - m
  {
    if dayInYear < MonthStart(y, m + 1) then m else MonthFrom(y, dayInYear, m + 1)
  }

  function MonthOf(day: int): (m: Month)
    ensures var y := YearOf(day); MonthStart(y, m) <= day - DayFromYear(y) < MonthStart(y, m + 1)
  {
    var y := YearOf(day);
    YearLength(y);
    MonthStarts(y);
    MonthFrom(y, day - DayFromYear(y), 0)
  }

  /** The day of the month, counting from 1. */
  function DateOf(day: int): (d: int)
    ensures 1 <= d <= DaysInMonth(YearOf(day), MonthOf(day))
  {
    day - DayFromYear(YearOf(day)) - MonthStart(YearOf(day), MonthOf(day)) + 1
  }

  /** `MakeDay`: months beyond December carry into the year, dates run over freely. */
  function MakeDay(year: int, month: int, date: int): int {
    var y := year + month / 12;
    DayFromYear(y) + MonthStart(y, month % 12) + date - 1
  }

  lemma MonthIsUnique(y: int, m: Month, k: Month, dayInYear: int)
    requires MonthStart(y, m) <= dayInYear < MonthStart(y, m + 1)
    requires MonthStart(y, k) <= dayInYear < MonthStart(y, k + 1)
    ensures m == k
  {
    if m < k {
      MonthsAreOrdered(y, m + 1, k);
    } else if k < m {
      MonthsAreOrdered(y, k + 1, m);
    }
  }

  lemma MakeDayInYear(y: int, m: Month, d: int)
    ensures MakeDay(y, m, d) == DayFromYear(y) + MonthStart(y, m) + d - 1
  {
    hide DayFromYear, MonthStart;
  }

  lemma MonthEnds(y: int, m: Month)
    ensures MonthStart(y, m + 1) == MonthStart(y, m) + DaysInMonth(y, m)
    ensures 0 <= MonthStart(y, m) && DayFromYear(y) + MonthStart(y, m + 1) <= DayFromYear(y + 1)
  {
    MonthsAreOrdered(y, 0, m);
    MonthsAreOrdered(y, m + 1, 12);
    MonthStarts(y);
    YearLength(y);
  }

  /** Taking a day apart undoes putting it together, for every date of the calendar. */
  lemma CivilRoundTrip(y: int, m: Month, d: int)
    requires 1 <= d <= DaysInMonth(y, m)
    ensures var day := MakeDay(y, m, d);
            YearOf(day) == y && MonthOf(day) == m && DateOf(day) == d
  {
    hide DayFromYear, MonthStart, DaysInMonth, MakeDay, YearOf, MonthOf;
    var day := MakeDay(y, m, d);
    MakeDayInYear(y, m, d);
    MonthEnds(y, m);
    YearIsUnique(day, y);
    MonthIsUnique(y, m, MonthOf(day), day - DayFromYear(y));
  }

  lemma DayRoundTrip(day: int)
    ensures MakeDay(YearOf(day), MonthOf(day), DateOf(day)) == day
  {
    hide DayFromYear, MonthStart, DaysInMonth, MakeDay, YearOf, MonthOf;
    MakeDayInYear(YearOf(day), MonthOf(day), DateOf(day));
  }

  function SetDate(t: int, date: int): int {
    MakeDay(YearOf(Day(t)), MonthOf(Day(t)), date) * MS_PER_DAY + TimeWithinDay(t)
  }

  function SetMonth(t: int, month: int): int {
    MakeDay(YearOf(Day(t)), month, DateOf(Day(t))) * MS_PER_DAY + TimeWithinDay(t)
  }

  lemma DayAndTime(t: int)
    ensures Day(t) * MS_PER_DAY + TimeWithinDay(t) == t
  {}

  lemma SetDateMoves(t: int, days: int)
    ensures SetDate(t, DateOf(Day(t)) + days) == t + days * MS_PER_DAY
  {
    hide YearOf, MonthOf, DateOf, Day, TimeWithinDay;
    DayAndTime(t);
    DayRoundTrip(Day(t));
    MakeDayShifts(YearOf(Day(t)), MonthOf(Day(t)), DateOf(Day(t)), DateOf(Day(t)) + days);
    Distribute(Day(t), days);
  }

  /** Month `m + 1`, carried into the next year after December. */
  function NextMonth(y: int, m: Month): (int, Month) {
    if m == 11 then (y + 1, 0) else (y, m + 1)
  }

  lemma MakeDayCarries(y: int, m: Month, d: int)
    ensures MakeDay(y, m + 1, d) == MakeDay(NextMonth(y, m).0, NextMonth(y, m).1, d)
  {
    hide DayFromYear, MonthStart;
  }

  /** The next month starts where this one ends, December included. */
  lemma MonthsFollow(y: int, m: Month, d: int)
    ensures MakeDay(y, m + 1, d) == MakeDay(y, m, d) + DaysInMonth(y, m)
  {
    hide DayFromYear, DaysInMonth, MakeDay, Leap, MonthStart;
    var (y1, m1) := NextMonth(y, m);
    MakeDayCarries(y, m, d);
    MakeDayInYear(y, m, d);
    MakeDayInYear(y1, m1, d);
    MonthEnds(y, m);
    YearLength(y);
    MonthStarts(y);
    YearBegins(y1);
  }

  lemma YearBegins(y: int)
    ensures MonthStart(y, 0) == 0
  {}

  /** One month forward is exactly the length of the starting month forward. */
  lemma SetNextMonthMoves(t: int)
    ensures SetMonth(t, MonthOf(Day(t)) + 1)
            == t + DaysInMonth(YearOf(Day(t)), MonthOf(Day(t))) * MS_PER_DAY
  {
    hide MakeDay, YearOf, MonthOf, DateOf, DaysInMonth, Day, TimeWithinDay;
    var y, m, d := YearOf(Day(t)), MonthOf(Day(t)), DateOf(Day(t));
    DayAndTime(t);
    MonthsFollow(y, m, d);
    DayRoundTrip(Day(t));
    Distribute(Day(t), DaysInMonth(y, m));
  }

  lemma Distribute(a: int, b: int)
    ensures (a + b) * MS_PER_DAY == a * MS_PER_DAY + b * MS_PER_DAY
  {}

  /** Where one month forward lands: on the same day of the next month exactly when that month is long
      enough, and otherwise the excess days into the month after it. */
  lemma NextMonthLandsOn(y: int, m: Month, d: int)
    requires 1 <= d <= DaysInMonth(y, m)
    ensures var day := MakeDay(y, m + 1, d);
            var (y1, m1) := NextMonth(y, m);
            var (y2, m2) := NextMonth(y1, m1);
            if d <= DaysInMonth(y1, m1)
            then YearOf(day) == y1 && MonthOf(day) == m1 && DateOf(day) == d
            else YearOf(day) == y2 && MonthOf(day) == m2 && DateOf(day) == d - DaysInMonth(y1, m1)
  {
    hide MakeDay, YearOf, MonthOf, DateOf, Leap;
    var (y1, m1) := NextMonth(y, m);
    MakeDayCarries(y, m, d);
    if d <= DaysInMonth(y1, m1) {
      CivilRoundTrip(y1, m1, d);
    } else {
      var (y2, m2) := NextMonth(y1, m1);
      var excess := d - DaysInMonth(y1, m1);
      MonthsFollow(y1, m1, excess);
      MakeDayCarries(y1, m1, excess);
      MakeDayShifts(y1, m1, excess, d);
      CivilRoundTrip(y2, m2, excess);
    }
  }

  lemma MakeDayShifts(y: int, m: int, d: int, e: int)
    ensures MakeDay(y, m, e) == MakeDay(y, m, d) + e - d
  {}

  // ----- Months in a row -----

  /** Calendar months numbered throughout. */
  function MonthIndex(day: int): int {
    12 * YearOf(day) + MonthOf(day)
  }

  lemma MonthsNeverGoBack(a: int, b: int)
    requires a <= b
    ensures MonthIndex(a) <= MonthIndex(b)
  {
    hide DayFromYear, MonthStart, YearOf, MonthOf;
    var y, z := YearOf(a), YearOf(b);
    if z < y {
      YearsAreOrdered(z + 1, y);
    } else if y == z && MonthOf(b) < MonthOf(a) {
      MonthsAreOrdered(y, MonthOf(b) + 1, MonthOf(a));
    }
  }

  /** The length of its month later it is a later month, whatever month is skipped on the way. */
  lemma MonthLengthLater(a: int, b: int)
    requires a + DaysInMonth(YearOf(a), MonthOf(a)) <= b
    ensures MonthIndex(a) < MonthIndex(b)
  {
    hide DayFromYear, MonthStart, MakeDay, YearOf, MonthOf, DateOf, DaysInMonth;
    var y, m, d := YearOf(a), MonthOf(a), DateOf(a);
    DayRoundTrip(a);
    MonthsFollow(y, m, d);
    NextMonthLandsOn(y, m, d);
    MonthsNeverGoBack(a + DaysInMonth(y, m), b);
  }

  // ----- The Gregorian calendar -----

  /** The day number of a date in closed form, with years that begin in March: five months of every 153 days,
      a leap day every 4 years but not every 100 unless every 400, and the first of January 1970 as day 0. */
  function Gregorian(y: int, month: Month, date: int): int {
    var year := if month >= 2 then y else y - 1;
    var fromMarch := if month >= 2 then month - 2 else month + 10;
    365 * year + year / 4 - year / 100 + year / 400 + (153 * fromMarch + 2) / 5 + date - 1 - 719_468
  }

  /** Four centuries have 146097 days. */
  lemma FourCenturies(y: int, month: Month, date: int)
    ensures Gregorian(y + 400, month, date) == Gregorian(y, month, date) + 146_097
  {
    var year := if month >= 2 then y else y - 1;
    Centuries(year);
  }

  lemma Centuries(y: int)
    ensures (y + 400) / 4 == y / 4 + 100
    ensures (y + 400) / 100 == y / 100 + 4
    ensures (y + 400) / 400 == y / 400 + 1
  {}

  lemma YearStart(y: int)
    ensures DayFromYear(y) == 365 * y + (y - 1) / 4 - (y - 1) / 100 + (y - 1) / 400 - 719_527
  {
    Epoch(y);
  }

  lemma Epoch(y: int)
    ensures (y - 1969) / 4 == (y - 1) / 4 - 492
    ensures (y - 1901) / 100 == (y - 1) / 100 - 19
    ensures (y - 1601) / 400 == (y - 1) / 400 - 4
  {}

  lemma LeapDays(y: int)
    ensures y / 4 - y / 100 + y / 400 - ((y - 1) / 4 - (y - 1) / 100 + (y - 1) / 400) == if Leap(y) then 1 else 0
  {
    QuotientSteps(y - 1, 4);
    QuotientSteps(y - 1, 100);
    QuotientSteps(y - 1, 400);
    MultiplesOf100(y);
    MultiplesOf400(y);
  }

  lemma FromMarch(y: int, month: Month)
    ensures month >= 2 ==> MonthStart(y, month) == (if Leap(y) then 60 else 59) + (153 * (month - 2) + 2) / 5
    ensures month < 2 ==> MonthStart(y, month) + 306 == (153 * (month + 10) + 2) / 5
  {
    MonthTable(y);
  }

  /** The calendar of the model is the Gregorian one, for every year, month and date. */
  lemma MakeDayIsGregorian(y: int, month: Month, date: int)
    ensures MakeDay(y, month, date) == Gregorian(y, month, date)
  {
    hide DayFromYear, MonthStart, MakeDay, Leap;
    MakeDayInYear(y, month, date);
    YearStart(y);
    LeapDays(y);
    FromMarch(y, month);
  }
}
