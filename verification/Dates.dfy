/**
 * Adding calendar months to an instant (packages/domain/src/billing/dates.ts).
 * Instants are milliseconds since 1970-01-01T00:00Z, unbounded.
 */
module Dates {
  import opened Calendar

  function Min(a: int, b: int): int {
    if a <= b then a else b
  }

  /** `Date.UTC(year, month, date)` with the overflow ECMAScript allows in `month` and `date`. */
  function MakeDay(month: int, date: int): int {
    FirstDay(month) + date - 1
  }

  /** The same day of the month and time of day, `n` months on, clamped to that month's last day. */
  function AddMonths(t: int, n: int): int {
    var day := t / MS_PER_DAY;
    var month := MonthOf(day) + n;
    MakeDay(month, Min(DateOf(day), DaysInMonth(month))) * MS_PER_DAY + t % MS_PER_DAY
  }

  /** The mutable date object of the source: one instant, changed in place. */
  class UtcDate {
    var time: int

    constructor (t: int)
      ensures time == t
    {
      time := t;
    }

    function Day(): int
      reads this
    {
      time / MS_PER_DAY
    }

    function GetUTCDate(): int
      reads this
    {
      DateOf(Day())
    }

    /** The month number counted from year 0: `12 * getUTCFullYear() + getUTCMonth()`. */
    function GetUTCMonthNumber(): int
      reads this
    {
      MonthOf(Day())
    }

    method SetUTCDate(date: int)
      modifies this
      ensures time == MakeDay(old(GetUTCMonthNumber()), date) * MS_PER_DAY + old(time) % MS_PER_DAY
    {
      time := MakeDay(GetUTCMonthNumber(), date) * MS_PER_DAY + time % MS_PER_DAY;
    }

    method SetUTCMonth(month: int)
      modifies this
      ensures time == MakeDay(month, old(GetUTCDate())) * MS_PER_DAY + old(time) % MS_PER_DAY
    {
      time := MakeDay(month, GetUTCDate()) * MS_PER_DAY + time % MS_PER_DAY;
    }
  }

  /** Six in-place steps on a copy end on the clamped date. */
  method AddMonthsInPlace(start: UtcDate, months: int) returns (result: UtcDate)
    ensures fresh(result) && result.time == AddMonths(start.time, months)
  {
    hide FirstDay, DaysInMonth, MonthOf, DateOf;
    result := new UtcDate(start.time);
    var day := result.GetUTCDate();
    ghost var month, ms := result.GetUTCMonthNumber(), start.time % MS_PER_DAY;
    result.SetUTCDate(1);
    FirstOfMonth(month, ms);
    result.SetUTCMonth(result.GetUTCMonthNumber() + months);
    FirstOfMonth(month + months, ms);
    LastOfMonth(month + months);
    var lastDay := DateOf(MakeDay(result.GetUTCMonthNumber() + 1, 0));
    result.SetUTCDate(Min(day, lastDay));
  }

  lemma FirstOfMonth(month: int, ms: int)
    requires 0 <= ms < MS_PER_DAY
    ensures var t := MakeDay(month, 1) * MS_PER_DAY + ms;
      && MonthOf(t / MS_PER_DAY) == month && DateOf(t / MS_PER_DAY) == 1
      && t % MS_PER_DAY == ms
  {
    hide FirstDay, DaysInMonth, MonthOf, DateOf;
    SplitInstant(MakeDay(month, 1), ms);
    OnDate(month, 1);
  }

  /** Day zero of the next month is the last day of this one. */
  lemma LastOfMonth(month: int)
    ensures DateOf(MakeDay(month + 1, 0)) == DaysInMonth(month)
  {
    hide FirstDay, DaysInMonth, MonthOf, DateOf;
    NextMonth(month);
    OnDate(month, DaysInMonth(month));
  }

  lemma SplitInstant(day: int, ms: int)
    requires 0 <= ms < MS_PER_DAY
    ensures (day * MS_PER_DAY + ms) / MS_PER_DAY == day
    ensures (day * MS_PER_DAY + ms) % MS_PER_DAY == ms
  {
  }

  lemma OnDate(month: int, date: int)
    requires 1 <= date <= DaysInMonth(month)
    ensures MonthOf(MakeDay(month, date)) == month && DateOf(MakeDay(month, date)) == date
  {
    hide FirstDay, DaysInMonth, MonthOf;
    MonthOfIs(MakeDay(month, date), month);
  }

  /** Exactly `n` months ahead, the day clamped to that month, the same time of day. */
  lemma AddMonthsLands(t: int, n: int)
    ensures var day, day' := t / MS_PER_DAY, AddMonths(t, n) / MS_PER_DAY;
      && MonthOf(day') == MonthOf(day) + n
      && DateOf(day') == Min(DateOf(day), DaysInMonth(MonthOf(day) + n))
      && AddMonths(t, n) % MS_PER_DAY == t % MS_PER_DAY
  {
    hide FirstDay, DaysInMonth, MonthOf, DateOf;
    var day := t / MS_PER_DAY;
    var month := MonthOf(day) + n;
    var date := Min(DateOf(day), DaysInMonth(month));
    OnDate(month, date);
    SplitInstant(MakeDay(month, date), t % MS_PER_DAY);
  }

  /** An instant is determined by its month, date and time of day, and ordered by them. */
  lemma InstantOrder(t: int, u: int)
    ensures MonthOf(t / MS_PER_DAY) < MonthOf(u / MS_PER_DAY) ==> t / MS_PER_DAY < u / MS_PER_DAY
    ensures MonthOf(t / MS_PER_DAY) == MonthOf(u / MS_PER_DAY) ==>
      t / MS_PER_DAY - u / MS_PER_DAY == DateOf(t / MS_PER_DAY) - DateOf(u / MS_PER_DAY)
  {
    hide FirstDay, DaysInMonth, MonthOf;
    var a, b := t / MS_PER_DAY, u / MS_PER_DAY;
    if MonthOf(a) < MonthOf(b) {
      FirstDayIncreases(MonthOf(a), MonthOf(b));
    }
  }

  lemma AddMonthsLater(t: int, n: int)
    requires n >= 1
    ensures AddMonths(t, n) > t
  {
    hide FirstDay, DaysInMonth, MonthOf, DateOf, AddMonths;
    AddMonthsLands(t, n);
    InstantOrder(t, AddMonths(t, n));
  }

  /**
   * Two steps never overshoot one long step, and fall at most three days
   * short; they agree exactly when the month in the middle did not clamp away
   * days that the last month would have kept.
   */
  lemma AddMonthsTwice(t: int, a: int, b: int)
    ensures var twice, once := AddMonths(AddMonths(t, a), b), AddMonths(t, a + b);
      var month, date := MonthOf(t / MS_PER_DAY), DateOf(t / MS_PER_DAY);
      && twice <= once <= twice + 3 * MS_PER_DAY
      && (twice == once <==>
          Min(date, DaysInMonth(month + a + b)) <= DaysInMonth(month + a))
      && (date <= 28 ==> twice == once)
  {
    hide FirstDay, DaysInMonth, MonthOf, DateOf, AddMonths;
    AddMonthsLands(t, a);
    AddMonthsLands(AddMonths(t, a), b);
    AddMonthsLands(t, a + b);
    InstantOrder(AddMonths(AddMonths(t, a), b), AddMonths(t, a + b));
  }

  /** Going forward and back by the same number of months comes home unless the day was clamped. */
  lemma AddMonthsBack(t: int, n: int)
    ensures AddMonths(AddMonths(t, n), -n) == t <==>
      DateOf(t / MS_PER_DAY) <= DaysInMonth(MonthOf(t / MS_PER_DAY) + n)
  {
    hide FirstDay, DaysInMonth, MonthOf, DateOf, AddMonths;
    AddMonthsLands(t, n);
    AddMonthsLands(AddMonths(t, n), -n);
    InstantOrder(AddMonths(AddMonths(t, n), -n), t);
  }

  /** A later calendar day stays no earlier. */
  lemma AddMonthsMonotoneByDay(t: int, u: int, n: int)
    requires t / MS_PER_DAY <= u / MS_PER_DAY
    ensures AddMonths(t, n) / MS_PER_DAY <= AddMonths(u, n) / MS_PER_DAY
  {
    hide FirstDay, DaysInMonth, MonthOf, DateOf, AddMonths;
    AddMonthsLands(t, n);
    AddMonthsLands(u, n);
    InstantOrder(u, t);
    InstantOrder(AddMonths(t, n), AddMonths(u, n));
    InstantOrder(AddMonths(u, n), AddMonths(t, n));
  }

  /**
   * By the millisecond it is not monotone. For t earlier than u the order is
   * lost exactly when both are clamped onto one day, t from an earlier day
   * but at a later time of day.
   */
  lemma AddMonthsSwaps(t: int, u: int, n: int)
    requires t < u
    ensures AddMonths(u, n) < AddMonths(t, n) <==>
      && t % MS_PER_DAY > u % MS_PER_DAY
      && MonthOf(t / MS_PER_DAY) == MonthOf(u / MS_PER_DAY)
      && DateOf(t / MS_PER_DAY) >= DaysInMonth(MonthOf(t / MS_PER_DAY) + n)
  {
    hide FirstDay, DaysInMonth, MonthOf, DateOf, AddMonths;
    AddMonthsLands(t, n);
    AddMonthsLands(u, n);
    InstantOrder(u, t);
    InstantOrder(t, u);
    InstantOrder(AddMonths(t, n), AddMonths(u, n));
    InstantOrder(AddMonths(u, n), AddMonths(t, n));
  }

  /** 30 January 23:00 and 31 January 00:00 of 2026 change places on the way to February. */
  lemma AddMonthsSwapExample()
    ensures MakeDay(12 * 2026, 30) * MS_PER_DAY + 82_800_000 < MakeDay(12 * 2026, 31) * MS_PER_DAY
    ensures AddMonths(MakeDay(12 * 2026, 31) * MS_PER_DAY, 1)
      < AddMonths(MakeDay(12 * 2026, 30) * MS_PER_DAY + 82_800_000, 1)
  {
    JanuaryAndFebruary();
    hide FirstDay, DaysInMonth, MonthOf, DateOf, AddMonths;
    var t, u := MakeDay(12 * 2026, 30) * MS_PER_DAY + 82_800_000, MakeDay(12 * 2026, 31) * MS_PER_DAY;
    OnDate(12 * 2026, 30);
    OnDate(12 * 2026, 31);
    SplitInstant(MakeDay(12 * 2026, 30), 82_800_000);
    SplitInstant(MakeDay(12 * 2026, 31), 0);
    AddMonthsSwaps(t, u, 1);
  }

  lemma JanuaryAndFebruary()
    ensures DaysInMonth(12 * 2026) == 31 && DaysInMonth(12 * 2026 + 1) == 28
  {
  }
}
