// The proleptic Gregorian calendar behind JavaScript's local-time `Date`
// constructor, for a zone a fixed `offset` milliseconds ahead of UTC.
module Calendar {
  import opened Common

  predicate IsLeap(y: int)
  {
    y % 4 == 0 && (y % 100 != 0 || y % 400 == 0)
  }

  function DaysInMonth(y: int, m: int): (n: int)
    requires 1 <= m <= 12
    ensures 28 <= n <= 31
  {
    if m == 2 then (if IsLeap(y) then 29 else 28)
    else if m == 4 || m == 6 || m == 9 || m == 11 then 30
    else 31
  }

  /** Days from 1970-01-01 to the first day of the year-of-era count used
      below: whole 400-year eras, then years, then leap days. */
  function YearDays(y: int): int
  {
    var era := y / 400;
    var yoe := y - era * 400;
    era * 146097 + yoe * 365 + yoe / 4 - yoe / 100
  }

  /** Days from 1970-01-01 to day `d` of month `m` of year `y`, counting
      years from March so that the leap day ends a year. */
  function DaysFromCivil(y: int, m: int, d: int): int
    requires 1 <= m <= 12
  {
    var y' := if m <= 2 then y - 1 else y;
    var mp := if m > 2 then m - 3 else m + 9;
    YearDays(y') + (153 * mp + 2) / 5 + d - 1 - 719468
  }

  /** The Date constructor reads a year from 0 to 99 as 1900 to 1999. */
  function FullYear(year: int): (y: int)
    ensures 0 <= year <= 99 ==> y == 1900 + year
    ensures !(0 <= year <= 99) ==> y == year
  {
    if 0 <= year <= 99 then 1900 + year else year
  }

  /** `new Date(year, monthIndex, day, h, min, s, ms)` in local time: the
      month index is normalised into the year (13 is February of the next
      year, -1 December of the previous one) and the day may be 0 or run
      past the month's end. */
  function JsDate(year: int, monthIndex: int, day: int, h: int, min: int, s: int, ms: int, offset: int): int
  {
    var y := FullYear(year) + monthIndex / 12;
    var m := monthIndex % 12 + 1;
    (DaysFromCivil(y, m, 1) + day - 1) * DayMs + h * 3_600_000 + min * 60_000 + s * 1000 + ms - offset
  }

  /** Leap years repeat every 400 years. */
  lemma LeapByEra(y: int)
    ensures var r := y % 400; IsLeap(y) <==> r % 4 == 0 && (r % 100 != 0 || r == 0)
  {
    var q, r := y / 400, y % 400;
    Shift4(y, 100 * q, r);
    Shift100(y, 4 * q, r);
  }

  lemma Shift4(y: int, q: int, r: int)
    requires y == 4 * q + r
    ensures y % 4 == r % 4
  {
  }

  lemma Shift100(y: int, q: int, r: int)
    requires y == 100 * q + r
    ensures y % 100 == r % 100
  {
  }

  /** From one year of an era to the next, the leap-day terms grow by one
      exactly when the later year is a leap year within the era. */
  lemma LeapTerms(n: int)
    requires 0 <= n < 399
    ensures (n + 1) / 4 - (n + 1) / 100 == n / 4 - n / 100 +
              (if (n + 1) % 4 == 0 && (n + 1) % 100 != 0 then 1 else 0)
  {
    if (n + 1) % 100 == 0 {
      Shift4(n + 1, 25 * ((n + 1) / 100), 0);
    }
  }

  lemma YearStep(y: int)
    ensures YearDays(y + 1) == YearDays(y) + (if IsLeap(y + 1) then 366 else 365)
  {
    var era := y / 400;
    var yoe := y - era * 400;
    LeapByEra(y + 1);
    if yoe < 399 {
      assert (y + 1) / 400 == era && (y + 1) % 400 == yoe + 1;
      LeapTerms(yoe);
    } else {
      assert (y + 1) / 400 == era + 1 && (y + 1) % 400 == 0;
    }
  }

  /** The first of the next month lies exactly a month's length after the
      first of this one. */
  lemma MonthLength(y: int, m: int)
    requires 1 <= m <= 12
    ensures m < 12 ==> DaysFromCivil(y, m + 1, 1) == DaysFromCivil(y, m, 1) + DaysInMonth(y, m)
    ensures m == 12 ==> DaysFromCivil(y + 1, 1, 1) == DaysFromCivil(y, 12, 1) + 31
  {
    if m == 2 {
      YearStep(y - 1);
    }
  }

  /** Midnight on the first of month `month` (1 to 12), as
      `new Date(year, month - 1, 1)` gives it. */
  lemma MonthStartIs(year: int, month: int, offset: int)
    requires 1 <= month <= 12
    ensures JsDate(year, month - 1, 1, 0, 0, 0, 0, offset) == DaysFromCivil(FullYear(year), month, 1) * DayMs - offset
  {
    assert (month - 1) / 12 == 0 && (month - 1) % 12 == month - 1;
  }

  /** Midnight on the first of the month after `month`, as
      `new Date(year, month, 1)` gives it: one month length later. */
  lemma NextMonthStartIs(year: int, month: int, offset: int)
    requires 1 <= month <= 12
    ensures JsDate(year, month, 1, 0, 0, 0, 0, offset) ==
              (DaysFromCivil(FullYear(year), month, 1) + DaysInMonth(FullYear(year), month)) * DayMs - offset
  {
    var fy := FullYear(year);
    var next := if month < 12 then DaysFromCivil(fy, month + 1, 1) else DaysFromCivil(fy + 1, 1, 1);
    assert JsDate(year, month, 1, 0, 0, 0, 0, offset) == next * DayMs - offset by {
      if month < 12 {
        assert month / 12 == 0 && month % 12 == month;
      } else {
        assert month / 12 == 1 && month % 12 == 0;
      }
    }
    MonthLength(fy, month);
  }

  /** 23:59:59.999 on day 0 of the next month, as
      `new Date(year, month, 0, 23, 59, 59, 999)` gives it: the last
      millisecond before the next month starts. */
  lemma MonthEndIs(year: int, month: int, offset: int)
    requires 1 <= month <= 12
    ensures JsDate(year, month, 0, 23, 59, 59, 999, offset) + 1 == JsDate(year, month, 1, 0, 0, 0, 0, offset)
  {
  }

  /** Month index 12 of one year is month index 0 of the next, except
      where the next year falls into the 0 to 99 reading or leaves it. */
  lemma YearRollover(year: int, day: int, offset: int)
    requires year != -1 && year != 99
    ensures JsDate(year, 12, day, 0, 0, 0, 0, offset) == JsDate(year + 1, 0, day, 0, 0, 0, 0, offset)
  {
    assert FullYear(year + 1) == FullYear(year) + 1;
  }

  /** The window getExpenses builds for month `month` (1 to 12) of `year`:
      from local midnight of its first day to 23:59:59.999 of its last
      day, exactly the month's days long, and the next month's window
      starts one millisecond after it ends. */
  lemma MonthWindow(year: int, month: int, offset: int)
    requires 1 <= month <= 12
    ensures var start := JsDate(year, month - 1, 1, 0, 0, 0, 0, offset);
            var end := JsDate(year, month, 0, 23, 59, 59, 999, offset);
            var y := FullYear(year);
            start == DaysFromCivil(y, month, 1) * DayMs - offset &&
            end - start + 1 == DaysInMonth(y, month) * DayMs &&
            end + 1 == JsDate(year, month, 1, 0, 0, 0, 0, offset)
  {
    MonthStartIs(year, month, offset);
    NextMonthStartIs(year, month, offset);
    MonthEndIs(year, month, offset);
  }
}
