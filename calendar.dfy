/** Calendar dates as the scripts use them: the date of a record, its month,
    quarter and weekday, and the earliest and latest of a set of dates. */
module Calendar {

  datatype Date = Date(year: int, month: int, day: int)

  predicate IsLeapYear(y: int) {
    (y % 4 == 0 && y % 100 != 0) || y % 400 == 0
  }

  function DaysInMonth(y: int, m: int): nat {
    if m == 2 then (if IsLeapYear(y) then 29 else 28)
    else if m == 4 || m == 6 || m == 9 || m == 11 then 30
    else 31
  }

  predicate ValidDate(d: Date) {
    1 <= d.month <= 12 && 1 <= d.day <= DaysInMonth(d.year, d.month)
  }

  /** A date that exists on the calendar (every parsed timestamp is one). */
  type CalDate = d: Date | ValidDate(d) witness Date(1970, 1, 1)

  /** Chronological order: by year, then month, then day. */
  predicate DateLe(a: Date, b: Date) {
    a.year < b.year
    || (a.year == b.year && a.month < b.month)
    || (a.year == b.year && a.month == b.month && a.day <= b.day)
  }

  lemma DateLeTotal(a: Date, b: Date)
    ensures DateLe(a, b) || DateLe(b, a)
    ensures DateLe(a, b) && DateLe(b, a) ==> a == b
  {
  }

  /** `dt.quarter`. */
  function Quarter(month: int): (q: int)
    requires 1 <= month <= 12
    ensures 1 <= q <= 4
  {
    (month - 1) / 3 + 1
  }

  /** Days counted from an arbitrary Sunday, up to a multiple of seven
      (Sakamoto's method). */
  function DayCount(d: Date): int
    requires ValidDate(d)
  {
    var offsets := [0, 3, 2, 5, 0, 3, 5, 1, 4, 6, 2, 4];
    var y := if d.month < 3 then d.year - 1 else d.year;
    y + y / 4 - y / 100 + y / 400 + offsets[d.month - 1] + d.day
  }

  /** `dt.dayofweek`: Monday is 0 and Sunday is 6. */
  function DayOfWeek(d: Date): (w: int)
    requires ValidDate(d)
    ensures 0 <= w < 7
  {
    (DayCount(d) % 7 + 6) % 7
  }

  lemma WeekStep(a: int)
    ensures ((a + 1) % 7 + 6) % 7 == ((a % 7 + 6) % 7 + 1) % 7
  {
    var r := a % 7;
    assert a == 7 * (a / 7) + r;
    assert (a + 1) % 7 == (r + 1) % 7;
  }

  /** Within a month, each next day is the next weekday. */
  lemma DayOfWeekNextDay(d: Date)
    requires ValidDate(d) && d.day < DaysInMonth(d.year, d.month)
    ensures ValidDate(d.(day := d.day + 1))
    ensures DayOfWeek(d.(day := d.day + 1)) == (DayOfWeek(d) + 1) % 7
  {
    var e := d.(day := d.day + 1);
    assert DayCount(e) == DayCount(d) + 1;
    WeekStep(DayCount(d));
  }

  /** The weekday numbering is anchored: 1 January 2024 was a Monday and
      29 February 2024 a Thursday. */
  lemma DayOfWeekAnchors()
    ensures DayOfWeek(Date(2024, 1, 1)) == 0
    ensures DayOfWeek(Date(2024, 2, 29)) == 3
  {
    assert DayCount(Date(2024, 1, 1)) == 2514 == 7 * 359 + 1;
    assert DayCount(Date(2024, 2, 29)) == 2545 == 7 * 363 + 4;
  }

  /** The last month of a quarter (March, June, September, December). */
  predicate IsQuarterEnd(month: int) {
    month == 3 || month == 6 || month == 9 || month == 12
  }

  /** Harvest months (April, May, October, November). */
  predicate IsHarvestSeason(month: int) {
    month == 4 || month == 5 || month == 10 || month == 11
  }

  /** Festival months (March, April, October, November). */
  predicate IsFestivalSeason(month: int) {
    month == 10 || month == 11 || month == 3 || month == 4
  }

  /** A month ends its quarter exactly when it is three times its quarter. */
  lemma QuarterEndIff(month: int)
    requires 1 <= month <= 12
    ensures IsQuarterEnd(month) <==> month == 3 * Quarter(month)
  {
  }

  /** The earliest date of a non-empty sequence (`Series.min`). */
  function MinDate(s: seq<Date>): (m: Date)
    requires |s| > 0
    ensures m in s
    ensures forall x :: x in s ==> DateLe(m, x)
  {
    if |s| == 1 then s[0]
    else
      var rest := MinDate(s[1..]);
      assert forall x :: x in s ==> x == s[0] || x in s[1..];
      if DateLe(s[0], rest) then s[0] else rest
  }

  /** The latest date of a non-empty sequence (`Series.max`). */
  function MaxDate(s: seq<Date>): (m: Date)
    requires |s| > 0
    ensures m in s
    ensures forall x :: x in s ==> DateLe(x, m)
  {
    if |s| == 1 then s[0]
    else
      var rest := MaxDate(s[1..]);
      assert forall x :: x in s ==> x == s[0] || x in s[1..];
      if DateLe(rest, s[0]) then s[0] else rest
  }
}
