// Dates of the proleptic Gregorian calendar as days since 1970-01-01, in closed form and
// by counting.
module Calendar {

  datatype Date = Date(year: int, month: int, day: int)

  // Division that truncates toward zero, and its remainder.
  function TDiv(a: int, b: int): int
    requires b > 0
  {
    if a >= 0 then a / b else -(-a / b)
  }

  function TMod(a: int, b: int): int
    requires b > 0
  {
    a - TDiv(a, b) * b
  }

  predicate IsLeap(year: int) {
    (TMod(year, 4) == 0 && TMod(year, 100) != 0) || TMod(year, 400) == 0
  }

  function DaysInMonth(year: int, month: int): nat {
    if month == 1 || month == 3 || month == 5 || month == 7 || month == 8 || month == 10 || month == 12 then 31
    else if month == 4 || month == 6 || month == 9 || month == 11 then 30
    else if month == 2 && IsLeap(year) then 29
    else if month == 2 then 28
    else 0
  }

  predicate ValidDate(d: Date) {
    1 <= d.month <= 12 && 1 <= d.day <= DaysInMonth(d.year, d.month)
  }

  // The closed form: the year starts in March, so that the leap day is its last.
  function DaysFromCivil(d: Date): int {
    var y := if d.month <= 2 then d.year - 1 else d.year;
    var era := TDiv(if y >= 0 then y else y - 399, 400);
    var yoe := y - era * 400;
    var doy := TDiv(153 * (if d.month > 2 then d.month - 3 else d.month + 9) + 2, 5) + d.day - 1;
    var doe := yoe * 365 + TDiv(yoe, 4) - TDiv(yoe, 100) + doy;
    era * 146097 + doe - 719468
  }

  // ---------------------------------------------------------------------------
  // Counting
  // ---------------------------------------------------------------------------

  function YearLength(year: int): nat {
    if IsLeap(year) then 366 else 365
  }

  // Days from 1970-01-01 to the first of January, year by year.
  function YearStart(year: int): int
    decreases if year >= 1970 then year - 1970 else 1970 - year
  {
    if year == 1970 then 0
    else if year > 1970 then YearStart(year - 1) + YearLength(year - 1)
    else YearStart(year + 1) - YearLength(year)
  }

  // Days from the first of January to the first of a month, month by month.
  function MonthStart(year: int, month: nat): nat {
    if month <= 1 then 0 else MonthStart(year, month - 1) + DaysInMonth(year, month - 1)
  }

  function DayNumber(d: Date): int
    requires ValidDate(d)
  {
    YearStart(d.year) + MonthStart(d.year, d.month) + d.day - 1
  }

  lemma LeapByFloor(year: int)
    ensures IsLeap(year) <==> (year % 4 == 0 && year % 100 != 0) || year % 400 == 0
  {
  }

  // The closed form without eras, for the floor of the division.
  function Flat(d: Date): int {
    var y := if d.month <= 2 then d.year - 1 else d.year;
    365 * y + y / 4 - y / 100 + y / 400 + MarchDays(d.month) + d.day - 1 - 719468
  }

  lemma ErasAreFloors(d: Date)
    requires 1 <= d.month <= 12
    ensures DaysFromCivil(d) == Flat(d)
  {
    var y := if d.month <= 2 then d.year - 1 else d.year;
    var era := TDiv(if y >= 0 then y else y - 399, 400);
    assert era == y / 400;
    var yoe := y - era * 400;
    assert 0 <= yoe < 400 && y == era * 400 + yoe;
    assert y / 4 == era * 100 + yoe / 4;
    assert y / 100 == era * 4 + yoe / 100;
  }

  function Divides(b: int, year: int): int
    requires b > 0
  {
    if year % b == 0 then 1 else 0
  }

  function LeapDay(year: int): int {
    if IsLeap(year) then 1 else 0
  }

  lemma LeapAsSum(year: int)
    ensures LeapDay(year) == Divides(4, year) - Divides(100, year) + Divides(400, year)
  {
    LeapByFloor(year);
    hide IsLeap;
    if year % 400 == 0 {
      assert year == 100 * (4 * (year / 400));
      assert year % 100 == 0;
    }
    if year % 100 == 0 {
      assert year == 4 * (25 * (year / 100));
      assert year % 4 == 0;
    }
  }

  lemma FloorStep(y: int, b: int)
    requires b == 4 || b == 100 || b == 400
    ensures y / b == (y - 1) / b + Divides(b, y)
  {
  }

  // The leap day of a year comes between its January and its March.
  lemma FlatMarch(year: int)
    ensures Flat(Date(year, 3, 1)) == Flat(Date(year, 1, 1)) + 59 + LeapDay(year)
  {
    LeapAsSum(year);
    FloorStep(year, 4);
    FloorStep(year, 100);
    FloorStep(year, 400);
    MarchTable();
    hide LeapDay, MarchDays, Divides;
  }

  // From one January to the next the closed form grows by the length of the year.
  lemma FlatYear(year: int)
    ensures Flat(Date(year + 1, 1, 1)) == Flat(Date(year, 1, 1)) + YearLength(year)
  {
    FlatMarch(year);
    hide IsLeap;
    assert Flat(Date(year + 1, 1, 1)) == Flat(Date(year, 3, 1)) + 306 by {
      MarchTable();
    }
  }

  // The days before a month, in a year that starts in March.
  function MarchDays(month: int): int {
    (153 * (if month > 2 then month - 3 else month + 9) + 2) / 5
  }

  lemma MarchTable()
    ensures MarchDays(1) == 306 && MarchDays(2) == 337 && MarchDays(3) == 0 && MarchDays(4) == 31 && MarchDays(5) == 61
    ensures MarchDays(6) == 92 && MarchDays(7) == 122 && MarchDays(8) == 153 && MarchDays(9) == 184
    ensures MarchDays(10) == 214
    ensures MarchDays(11) == 245 && MarchDays(12) == 275
  {
  }

  // Within a year it grows by the lengths of the months.
  lemma FlatMonth(year: int, month: int)
    requires 1 <= month <= 12
    ensures Flat(Date(year, month, 1)) == Flat(Date(year, 1, 1)) + MonthStart(year, month)
  {
    MonthOffset(year, month);
    hide IsLeap, MonthStart, MarchDays;
    if month <= 2 {
      MarchTable();
    } else {
      FlatMarch(year);
      MarchTable();
    }
  }

  lemma MonthOffset(year: int, month: int)
    requires 1 <= month <= 12
    ensures MonthStart(year, month) == if month <= 2 then 31 * (month - 1) else 59 + LeapDay(year) + MarchDays(month)
  {
    MonthStarts(year);
    MarchTable();
    hide IsLeap, MonthStart, MarchDays;
  }

  lemma MonthStarts(year: int)
    ensures var leap := LeapDay(year);
      && MonthStart(year, 1) == 0 && MonthStart(year, 2) == 31
      && MonthStart(year, 3) == 59 + leap && MonthStart(year, 4) == 90 + leap && MonthStart(year, 5) == 120 + leap
      && MonthStart(year, 6) == 151 + leap && MonthStart(year, 7) == 181 + leap && MonthStart(year, 8) == 212 + leap
      && MonthStart(year, 9) == 243 + leap && MonthStart(year, 10) == 273 + leap && MonthStart(year, 11) == 304 + leap
      && MonthStart(year, 12) == 334 + leap
  {
  }

  lemma {:induction false} FlatIsYearStart(year: int)
    ensures Flat(Date(year, 1, 1)) == YearStart(year)
    decreases if year >= 1970 then year - 1970 else 1970 - year
  {
    if year > 1970 {
      FlatIsYearStart(year - 1);
      FlatYear(year - 1);
    } else if year < 1970 {
      FlatIsYearStart(year + 1);
      FlatYear(year);
    }
  }

  // Main result: for every valid date of every year, the closed form is the number of
  // days counted from 1970-01-01 by the lengths of years and months.
  lemma ClosedFormCounts(d: Date)
    requires ValidDate(d)
    ensures DaysFromCivil(d) == DayNumber(d)
  {
    ErasAreFloors(d);
    FlatMonth(d.year, d.month);
    FlatIsYearStart(d.year);
    assert Flat(d) == Flat(Date(d.year, d.month, 1)) + d.day - 1;
  }

  function NextDay(d: Date): Date {
    if d.day < DaysInMonth(d.year, d.month) then d.(day := d.day + 1)
    else if d.month < 12 then Date(d.year, d.month + 1, 1)
    else Date(d.year + 1, 1, 1)
  }

  // The next day is one day on, and is valid.
  lemma NextDayCounts(d: Date)
    requires ValidDate(d)
    ensures ValidDate(NextDay(d)) && DayNumber(NextDay(d)) == DayNumber(d) + 1
  {
    MonthStarts(d.year);
    YearStartNext(d.year);
  }

  lemma YearStartNext(year: int)
    ensures YearStart(year + 1) == YearStart(year) + YearLength(year)
  {
  }

  // Later dates have greater numbers, so no two dates share one.
  predicate Earlier(a: Date, b: Date) {
    a.year < b.year || (a.year == b.year && (a.month < b.month || (a.month == b.month && a.day < b.day)))
  }

  lemma {:induction false} YearsApart(a: int, b: int)
    requires a < b
    ensures YearStart(a) + YearLength(a) <= YearStart(b)
    decreases b - a
  {
    YearStartNext(a);
    if a + 1 < b {
      YearsApart(a + 1, b);
    }
  }

  lemma {:induction false} MonthsApart(year: int, a: nat, b: nat)
    requires 1 <= a < b
    ensures MonthStart(year, a) + DaysInMonth(year, a) <= MonthStart(year, b)
    decreases b - a
  {
    assert MonthStart(year, a + 1) == MonthStart(year, a) + DaysInMonth(year, a);
    if a + 1 < b {
      MonthsApart(year, a + 1, b);
    }
  }

  lemma DayNumberOrders(a: Date, b: Date)
    requires ValidDate(a) && ValidDate(b)
    ensures Earlier(a, b) <==> DayNumber(a) < DayNumber(b)
    ensures DayNumber(a) == DayNumber(b) ==> a == b
  {
    if Earlier(a, b) {
      EarlierIsLess(a, b);
    } else if Earlier(b, a) {
      EarlierIsLess(b, a);
    }
  }

  lemma EarlierIsLess(a: Date, b: Date)
    requires ValidDate(a) && ValidDate(b) && Earlier(a, b)
    ensures DayNumber(a) < DayNumber(b)
  {
    if a.year < b.year {
      YearsApart(a.year, b.year);
      if a.month < 13 {
        MonthsApart(a.year, a.month, 13);
      }
      MonthStarts(a.year);
      assert MonthStart(a.year, 13) == YearLength(a.year);
    } else if a.month < b.month {
      MonthsApart(a.year, a.month, b.month);
    }
  }
}
