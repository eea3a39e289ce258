/** Moving a date by days (htime.c). */
module Calendar {

  predicate LeapYear(year: int) { (year % 4 == 0 && year % 100 != 0) || year % 400 == 0 }

  /** `s_days`. */
  const DAYS: seq<nat> := [31, 28, 31, 30, 31, 30, 31, 31, 30, 31, 30, 31]

  /** `days_of_month`. */
  function DaysOfMonth(month: int, year: int): (n: nat)
    ensures 1 <= month <= 12 ==> 28 <= n <= 31
  {
    if month < 1 || month > 12 then 0
    else if month == 2 && LeapYear(year) then DAYS[month - 1] + 1 else DAYS[month - 1]
  }

  /** April, June, September and November have 30 days, February has 28 or 29, and the others have 31. */
  lemma DaysByName(month: int, year: int)
    ensures month in {4, 6, 9, 11} ==> DaysOfMonth(month, year) == 30
    ensures month == 2 ==> DaysOfMonth(month, year) == if (year % 4 == 0 && year % 100 != 0) || year % 400 == 0 then 29 else 28
    ensures month in {1, 3, 5, 7, 8, 10, 12} ==> DaysOfMonth(month, year) == 31
    ensures !(1 <= month <= 12) ==> DaysOfMonth(month, year) == 0
  {
  }

  // ------------------------------------------------------------ the Gregorian day number

  /** The days from 1 January of the year 1 to 1 January of `year`, counted by the leap year rule in closed form. */
  function YearStart(year: int): int {
    365 * (year - 1) + (year - 1) / 4 - (year - 1) / 100 + (year - 1) / 400
  }

  /** The days of the year before the first of `month`. */
  function MonthStart(month: nat, year: int): nat
    requires 1 <= month <= 13
  {
    if month == 1 then 0 else MonthStart(month - 1, year) + DaysOfMonth(month - 1, year)
  }

  datatype Date = Date(year: int, month: int, day: int)

  predicate ValidDate(d: Date) { 1 <= d.month <= 12 && 1 <= d.day <= DaysOfMonth(d.month, d.year) }

  function DayNumber(d: Date): int
    requires ValidDate(d)
  {
    YearStart(d.year) + MonthStart(d.month, d.year) + d.day
  }

  /** Dividing by `k` goes up by one exactly at the multiples of `k`. */
  lemma Quotient(n: int, k: int)
    requires k > 0
    ensures n / k - (n - 1) / k == if n % k == 0 then 1 else 0
  {
    var q, r := n / k, n % k;
    assert n == k * q + r;
    if r == 0 {
      assert n - 1 == k * (q - 1) + (k - 1);
      DivUnique(n - 1, k, q - 1, k - 1);
    } else {
      DivUnique(n - 1, k, q, r - 1);
    }
  }

  lemma DivUnique(n: int, k: int, q: int, r: int)
    requires k > 0 && n == k * q + r && 0 <= r < k
    ensures n / k == q
  {
    var d := n / k - q;
    assert n % k == r - k * d;
    assert d >= 1 ==> k * d >= k;
    assert d <= -1 ==> k * d <= -k;
  }

  /** A year has as many days as its months together. */
  lemma YearLength(year: int)
    ensures YearStart(year + 1) == YearStart(year) + MonthStart(13, year)
    ensures MonthStart(13, year) == 365 + if LeapYear(year) then 1 else 0
  {
    hide DaysOfMonth, MonthStart;
    MonthsOf(year);
    DaysByName(2, year);
    Quotient(year, 4);
    Quotient(year, 100);
    Quotient(year, 400);
    assert year % 400 == 0 ==> year % 100 == 0 && year % 4 == 0;
    assert year % 100 == 0 ==> year % 4 == 0;
  }

  lemma MonthsOf(year: int)
    ensures MonthStart(13, year) == 337 + DaysOfMonth(2, year)
  {
    assert MonthStart(2, year) == 31;
    assert MonthStart(4, year) == 62 + DaysOfMonth(2, year);
    assert MonthStart(6, year) == 123 + DaysOfMonth(2, year);
    assert MonthStart(8, year) == 184 + DaysOfMonth(2, year);
    assert MonthStart(10, year) == 245 + DaysOfMonth(2, year);
    assert MonthStart(12, year) == 306 + DaysOfMonth(2, year);
  }

  /** The first of the next month follows the last of this one. */
  lemma MonthEnd(year: int, month: int)
    requires 1 <= month <= 12
    ensures var next := if month == 12 then Date(year + 1, 1, 1) else Date(year, month + 1, 1);
      DayNumber(next) == DayNumber(Date(year, month, DaysOfMonth(month, year))) + 1
  {
    if month == 12 { YearLength(year); }
  }

  lemma {:induction false} MonthsGrow(year: int, m: nat, n: nat)
    requires 1 <= m < n <= 13
    ensures MonthStart(m, year) + DaysOfMonth(m, year) <= MonthStart(n, year)
    decreases n
  {
    if m < n - 1 { MonthsGrow(year, m, n - 1); }
  }

  lemma {:induction false} YearsGrow(a: int, b: int)
    requires a < b
    ensures YearStart(a) + MonthStart(13, a) <= YearStart(b)
    decreases b - a
  {
    YearLength(b - 1);
    if a < b - 1 { YearsGrow(a, b - 1); } 
  }

  /** An earlier date has a smaller day number. */
  lemma DayNumberGrows(a: Date, b: Date)
    requires ValidDate(a) && ValidDate(b)
    requires a.year < b.year || (a.year == b.year && (a.month < b.month || (a.month == b.month && a.day < b.day)))
    ensures DayNumber(a) < DayNumber(b)
  {
    MonthsGrow(a.year, a.month, 13);
    if a.year < b.year {
      YearsGrow(a.year, b.year);
    } else if a.month < b.month {
      MonthsGrow(a.year, a.month, b.month);
    }
  }

  /** So a day number belongs to one date only. */
  lemma DayNumberUnique(a: Date, b: Date)
    requires ValidDate(a) && ValidDate(b) && DayNumber(a) == DayNumber(b)
    ensures a == b
  {
    if a.year < b.year || (a.year == b.year && (a.month < b.month || (a.month == b.month && a.day < b.day))) {
      DayNumberGrows(a, b);
    } else if a != b {
      DayNumberGrows(b, a);
    }
  }

  /** The date of `datetime_t`. */
  class Datetime {
    var year: int
    var month: int
    var day: int

    constructor (year: int, month: int, day: int)
      ensures Current() == Date(year, month, day)
    {
      this.year, this.month, this.day := year, month, day;
    }

    function Current(): Date
      reads this
    {
      Date(year, month, day)
    }

    /** `datetime_past`. */
    method Past(days: nat)
      requires ValidDate(Current())
      modifies this
      ensures ValidDate(Current()) && DayNumber(Current()) == old(DayNumber(Current())) - days
    {
      hide MonthStart, YearStart;
      var sub: nat := days;
      while sub > 0
        invariant ValidDate(Current()) && DayNumber(Current()) - sub == old(DayNumber(Current())) - days
      {
        if day > sub {
          day := day - sub;
          break;
        }
        sub := sub - day;
        month := month - 1;
        if month == 0 {
          month := 12;
          year := year - 1;
        }
        MonthEnd(year, month);
        day := DaysOfMonth(month, year);
      }
    }

    /** `datetime_future`. */
    method Future(days: nat)
      requires ValidDate(Current())
      modifies this
      ensures ValidDate(Current()) && DayNumber(Current()) == old(DayNumber(Current())) + days
    {
      hide MonthStart, YearStart;
      var sub: nat := days;
      while sub > 0
        invariant ValidDate(Current()) && DayNumber(Current()) + sub == old(DayNumber(Current())) + days
      {
        var mdays := DaysOfMonth(month, year);
        if day + sub <= mdays {
          day := day + sub;
          break;
        }
        sub := sub - (mdays - day + 1);
        MonthEnd(year, month);
        month := month + 1;
        if month > 12 {
          month := 1;
          year := year + 1;
        }
        day := 1;
      }
    }

    /** Each undoes the other. */
    method ThereAndBack(days: nat)
      requires ValidDate(Current())
      modifies this
      ensures Current() == old(Current())
    {
      ghost var start := Current();
      Future(days);
      Past(days);
      DayNumberUnique(Current(), start);
      Past(days);
      Future(days);
      DayNumberUnique(Current(), start);
    }
  }
}
