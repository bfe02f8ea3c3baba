/**
 * The proleptic Gregorian calendar of ECMAScript dates (section 21.4.1 of
 * ECMA-262). Days are counted from 1970-01-01 and a month is numbered
 * 12 * year + monthIndex, so "n months later" is plain addition.
 */
module Calendar {
  const MS_PER_DAY := 86_400_000

  const EPOCH_MONTH := 12 * 1970

  predicate IsLeap(y: int) {
    y % 4 == 0 && (y % 100 != 0 || y % 400 == 0)
  }

  function DaysInMonth(month: int): (n: nat)
    ensures 28 <= n <= 31
  {
    var index := month % 12;
    if index == 1 then (if IsLeap(month / 12) then 29 else 28)
    else if index == 3 || index == 5 || index == 8 || index == 10 then 30
    else 31
  }

  /** The day number of the first of the month: the months tile the days, in both directions from 1970. */
  function FirstDay(month: int): int
    decreases if month >= EPOCH_MONTH then month - EPOCH_MONTH else EPOCH_MONTH - month
  {
    if month == EPOCH_MONTH then 0
    else if month > EPOCH_MONTH then FirstDay(month - 1) + DaysInMonth(month - 1)
    else FirstDay(month + 1) - DaysInMonth(month)
  }

  lemma NextMonth(month: int)
    ensures FirstDay(month + 1) == FirstDay(month) + DaysInMonth(month)
  {
    hide DaysInMonth;
  }

  lemma {:induction false} FirstDayIncreases(a: int, b: int)
    requires a < b
    ensures FirstDay(a) + DaysInMonth(a) <= FirstDay(b)
    decreases b - a
  {
    hide *;
    NextMonth(b - 1);
    if a < b - 1 {
      FirstDayIncreases(a, b - 1);
    } else {
      assert a == b - 1;
    }
  }

  predicate Contains(month: int, day: int) {
    FirstDay(month) <= day < FirstDay(month) + DaysInMonth(month)
  }

  /** Walk from a month to the one that contains the day. */
  function FindMonth(day: int, month: int): (found: int)
    ensures Contains(found, day)
    decreases day < FirstDay(month), if day < FirstDay(month) then FirstDay(month) - day else day - FirstDay(month)
  {
    NextMonth(month);
    NextMonth(month - 1);
    if day < FirstDay(month) then FindMonth(day, month - 1)
    else if FirstDay(month + 1) <= day then FindMonth(day, month + 1)
    else month
  }

  /** The month a day falls in. */
  function MonthOf(day: int): (month: int)
    ensures Contains(month, day)
  {
    FindMonth(day, EPOCH_MONTH)
  }

  /** A day belongs to one month only. */
  lemma MonthOfIs(day: int, month: int)
    requires Contains(month, day)
    ensures MonthOf(day) == month
  {
    hide MonthOf, FirstDay, DaysInMonth;
    var found := MonthOf(day);
    if found < month {
      FirstDayIncreases(found, month);
    } else if month < found {
      FirstDayIncreases(month, found);
    }
  }

  /** Day of the month, from 1. */
  function DateOf(day: int): (date: int)
    ensures 1 <= date <= DaysInMonth(MonthOf(day))
  {
    day - FirstDay(MonthOf(day)) + 1
  }

  // ---- The closed form of ECMA-262

  /** The day number of 1 January as ECMA-262 computes it. */
  function DayFromYear(y: int): int {
    365 * (y - 1970) + (y - 1969) / 4 - (y - 1901) / 100 + (y - 1601) / 400
  }

  lemma YearLength(y: int)
    ensures FirstDay(12 * (y + 1)) == FirstDay(12 * y) + if IsLeap(y) then 366 else 365
  {
    hide FirstDay, DaysInMonth, IsLeap;
    var m := 12 * y;
    NextMonth(m);
    NextMonth(m + 1);
    NextMonth(m + 2);
    NextMonth(m + 3);
    NextMonth(m + 4);
    NextMonth(m + 5);
    NextMonth(m + 6);
    NextMonth(m + 7);
    NextMonth(m + 8);
    NextMonth(m + 9);
    NextMonth(m + 10);
    NextMonth(m + 11);
    assert m + 12 == 12 * (y + 1);
    MonthLengths(y);
  }

  lemma MonthLengths(y: int)
    ensures var m := 12 * y;
      && DaysInMonth(m) == 31 && DaysInMonth(m + 1) == (if IsLeap(y) then 29 else 28)
      && DaysInMonth(m + 2) == 31 && DaysInMonth(m + 3) == 30 && DaysInMonth(m + 4) == 31
      && DaysInMonth(m + 5) == 30 && DaysInMonth(m + 6) == 31 && DaysInMonth(m + 7) == 31
      && DaysInMonth(m + 8) == 30 && DaysInMonth(m + 9) == 31 && DaysInMonth(m + 10) == 30
      && DaysInMonth(m + 11) == 31
  {
    hide IsLeap;
  }

  lemma FourthYears(y: int)
    ensures (y - 1968) / 4 == (y - 1969) / 4 + if y % 4 == 0 then 1 else 0
  {
  }

  lemma HundredthYears(y: int)
    ensures (y - 1900) / 100 == (y - 1901) / 100 + if y % 100 == 0 then 1 else 0
  {
  }

  lemma FourHundredthYears(y: int)
    ensures (y - 1600) / 400 == (y - 1601) / 400 + if y % 400 == 0 then 1 else 0
  {
  }

  lemma NestedYears(y: int)
    ensures y % 100 == 0 ==> y % 4 == 0
    ensures y % 400 == 0 ==> y % 100 == 0
  {
  }

  /** The closed form counts the fourth years less the hundredth ones plus the four-hundredth ones. */
  lemma DayFromNextYear(y: int)
    ensures DayFromYear(y + 1)
      == 365 * (y - 1969) + (y - 1968) / 4 - (y - 1900) / 100 + (y - 1600) / 400
  {
    var next := y + 1;
    assert next - 1969 == y - 1968 && next - 1901 == y - 1900 && next - 1601 == y - 1600;
  }

  lemma LeapStep(y: int)
    ensures DayFromYear(y + 1) == DayFromYear(y) + if IsLeap(y) then 366 else 365
  {
    DayFromNextYear(y);
    FourthYears(y);
    HundredthYears(y);
    FourHundredthYears(y);
    NestedYears(y);
    LeapDays(y, (y - 1969) / 4, (y - 1901) / 100, (y - 1601) / 400);
  }

  lemma LeapDays(y: int, a: int, b: int, c: int)
    requires y % 100 == 0 ==> y % 4 == 0
    requires y % 400 == 0 ==> y % 100 == 0
    ensures (a + if y % 4 == 0 then 1 else 0) - (b + if y % 100 == 0 then 1 else 0)
        + (c + if y % 400 == 0 then 1 else 0)
      == a - b + c + if IsLeap(y) then 1 else 0
  {
  }

  /** Laying the months end to end gives the closed form, for every year. */
  lemma {:induction false} YearsBeginWhereEcmaScriptSays(y: int)
    ensures FirstDay(12 * y) == DayFromYear(y)
    decreases if y >= 1970 then y - 1970 else 1970 - y
  {
    if y == 1970 {
      assert DayFromYear(1970) == 0 == FirstDay(12 * 1970);
    } else {
      hide FirstDay, DayFromYear, IsLeap;
      var near := if y > 1970 then y - 1 else y + 1;
      YearsBeginWhereEcmaScriptSays(near);
      YearLength(if y > 1970 then near else y);
      LeapStep(if y > 1970 then near else y);
    }
  }
}
