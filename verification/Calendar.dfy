/** The proleptic Gregorian calendar, with no bound on years, and whole-month shifts. */
module Calendar {
  datatype Date = Date(year: int, month: int, day: int) {
    predicate Valid() {
      1 <= month <= 12 && 1 <= day <= DaysIn(year, month)
    }
  }

  predicate IsLeap(year: int) {
    year % 4 == 0 && (year % 100 != 0 || year % 400 == 0)
  }

  function DaysIn(year: int, month: int): (n: int)
    ensures 28 <= n <= 31
  {
    if month == 2 then (if IsLeap(year) then 29 else 28)
    else if month == 4 || month == 6 || month == 9 || month == 11 then 30
    else 31
  }

  /** Dates compare by year, then month, then day. */
  predicate Before(a: Date, b: Date) {
    a.year < b.year || (a.year == b.year && (a.month < b.month || (a.month == b.month && a.day < b.day)))
  }

  function Later(a: Date, b: Date): Date {
    if Before(a, b) then b else a
  }

  function Earlier(a: Date, b: Date): Date {
    if Before(b, a) then b else a
  }

  function NextDay(d: Date): Date {
    if d.day < DaysIn(d.year, d.month) then d.(day := d.day + 1)
    else if d.month < 12 then Date(d.year, d.month + 1, 1)
    else Date(d.year + 1, 1, 1)
  }

  function PrevDay(d: Date): Date {
    if d.day > 1 then d.(day := d.day - 1)
    else if d.month > 1 then Date(d.year, d.month - 1, DaysIn(d.year, d.month - 1))
    else Date(d.year - 1, 12, 31)
  }

  // --------------------------------------------------------------- day numbers

  /** Days from a fixed origin to the first of January. */
  function DaysBeforeYear(year: int): int {
    var y := year - 1;
    y * 365 + y / 4 - y / 100 + y / 400
  }

  function DaysBeforeMonth(year: int, month: int): int
    decreases month
  {
    if month <= 1 then 0 else DaysBeforeMonth(year, month - 1) + DaysIn(year, month - 1)
  }

  function DayNumber(d: Date): int {
    DaysBeforeYear(d.year) + DaysBeforeMonth(d.year, d.month) + d.day
  }

  lemma MonthLengths(year: int, month: int)
    requires 1 <= month <= 12
    ensures DaysIn(year, month) == 31 <==> month in {1, 3, 5, 7, 8, 10, 12}
    ensures DaysIn(year, month) == 30 <==> month in {4, 6, 9, 11}
    ensures DaysIn(year, month) == 29 <==> month == 2 && IsLeap(year)
  {
  }

  lemma YearLength(year: int)
    ensures DaysBeforeYear(year + 1) == DaysBeforeYear(year) + DaysBeforeMonth(year, 13)
  {
    DaysOfYear(year);
    FoursUpTo(year);
    HundredsUpTo(year);
    FourHundredsUpTo(year);
  }

  lemma FoursUpTo(year: int)
    ensures (year - 1) / 4 + (if year % 4 == 0 then 1 else 0) == year / 4
  {
  }

  lemma HundredsUpTo(year: int)
    ensures (year - 1) / 100 + (if year % 100 == 0 then 1 else 0) == year / 100
  {
  }

  lemma FourHundredsUpTo(year: int)
    ensures (year - 1) / 400 + (if year % 400 == 0 then 1 else 0) == year / 400
    ensures year % 400 == 0 ==> year % 100 == 0
    ensures year % 100 == 0 ==> year % 4 == 0
  {
  }

  lemma DaysOfYear(year: int)
    ensures DaysBeforeMonth(year, 13) == (if IsLeap(year) then 366 else 365)
  {
    assert DaysBeforeMonth(year, 4) == 62 + DaysIn(year, 2) by {
      assert DaysBeforeMonth(year, 2) == 31;
      assert DaysBeforeMonth(year, 3) == 31 + DaysIn(year, 2);
    }
    assert DaysBeforeMonth(year, 7) == DaysBeforeMonth(year, 4) + 91;
    assert DaysBeforeMonth(year, 10) == DaysBeforeMonth(year, 7) + 92;
    assert DaysBeforeMonth(year, 13) == DaysBeforeMonth(year, 10) + 92;
  }

  /** Stepping one day changes the day number by one, across month, year and leap-day ends. */
  lemma NextDayNumber(d: Date)
    requires d.Valid()
    ensures NextDay(d).Valid() && DayNumber(NextDay(d)) == DayNumber(d) + 1 && PrevDay(NextDay(d)) == d
  {
    if d.day == DaysIn(d.year, d.month) && d.month == 12 {
      YearLength(d.year);
      assert DaysBeforeMonth(d.year, 13) == DaysBeforeMonth(d.year, 12) + 31;
    }
  }

  lemma PrevDayNumber(d: Date)
    requires d.Valid()
    ensures PrevDay(d).Valid() && NextDay(PrevDay(d)) == d && DayNumber(PrevDay(d)) == DayNumber(d) - 1
  {
    NextDayNumber(PrevDay(d));
  }

  lemma {:induction false} MonthsAccumulate(year: int, m: int, n: int)
    requires 1 <= m <= n
    ensures DaysBeforeMonth(year, n) >= DaysBeforeMonth(year, m)
    ensures m < n ==> DaysBeforeMonth(year, n) >= DaysBeforeMonth(year, m) + DaysIn(year, m)
    decreases n
  {
    if m < n {
      MonthsAccumulate(year, m, n - 1);
    }
  }

  lemma {:induction false} YearsAccumulate(y: int, z: int)
    requires y <= z
    ensures DaysBeforeYear(y) <= DaysBeforeYear(z)
    decreases z - y
  {
    if y < z {
      YearsAccumulate(y, z - 1);
      YearLength(z - 1);
      DaysOfYear(z - 1);
    }
  }

  lemma BeforeImpliesLess(a: Date, b: Date)
    requires a.Valid() && b.Valid() && Before(a, b)
    ensures DayNumber(a) < DayNumber(b)
  {
    MonthsAccumulate(a.year, a.month, 13);
    MonthsAccumulate(b.year, 1, b.month);
    if a.year < b.year {
      YearLength(a.year);
      YearsAccumulate(a.year + 1, b.year);
    } else if a.month < b.month {
      MonthsAccumulate(a.year, a.month, b.month);
    }
  }

  /** Comparing dates is comparing day numbers. */
  lemma BeforeIsLess(a: Date, b: Date)
    requires a.Valid() && b.Valid()
    ensures Before(a, b) <==> DayNumber(a) < DayNumber(b)
    ensures a == b <==> DayNumber(a) == DayNumber(b)
  {
    if Before(a, b) {
      BeforeImpliesLess(a, b);
    } else if Before(b, a) {
      BeforeImpliesLess(b, a);
    }
  }

  // -------------------------------------------------------------- whole months

  /** Months counted from the start of year zero. */
  function MonthIndex(d: Date): int {
    d.year * 12 + d.month - 1
  }

  function DaysInMonth(m: int): (n: int)
    ensures 28 <= n <= 31
  {
    DaysIn(m / 12, m % 12 + 1)
  }

  function DayOf(m: int, day: int): Date {
    Date(m / 12, m % 12 + 1, day)
  }

  function FirstOf(m: int): (d: Date)
    ensures d.Valid() && MonthIndex(d) == m
  {
    DayOf(m, 1)
  }

  function LastOf(m: int): (d: Date)
    ensures d.Valid() && MonthIndex(d) == m
  {
    DayOf(m, DaysInMonth(m))
  }

  /** A date is its month index and its day. */
  lemma MonthAndDay(d: Date)
    requires d.Valid()
    ensures d == DayOf(MonthIndex(d), d.day) && DaysIn(d.year, d.month) == DaysInMonth(MonthIndex(d))
  {
  }

  /** Comparing dates is comparing month indices, then days. */
  lemma BeforeByMonth(a: Date, b: Date)
    requires a.Valid() && b.Valid()
    ensures Before(a, b) <==> MonthIndex(a) < MonthIndex(b) || (MonthIndex(a) == MonthIndex(b) && a.day < b.day)
  {
  }

  lemma DayBeforeFirst(m: int, prev: int)
    requires prev == m - 1
    ensures PrevDay(FirstOf(m)) == LastOf(prev) && NextDay(LastOf(prev)) == FirstOf(m)
  {
    if m % 12 == 0 {
      assert prev / 12 == m / 12 - 1 && prev % 12 == 11;
    } else {
      assert prev / 12 == m / 12 && prev % 12 == m % 12 - 1;
    }
  }

  function Min(a: int, b: int): int {
    if b < a then b else a
  }

  /** The date so many months later, or earlier when negative; a day the month lacks becomes its last. */
  function ShiftMonths(base: Date, months: int): Date {
    var m := MonthIndex(base) + months;
    DayOf(m, Min(base.day, DaysInMonth(m)))
  }

  lemma ShiftLands(base: Date, months: int)
    requires base.Valid()
    ensures ShiftMonths(base, months).Valid()
    ensures MonthIndex(ShiftMonths(base, months)) == MonthIndex(base) + months
  {
  }

  /** Shifting keeps the order of dates. */
  lemma ShiftIsMonotone(a: Date, b: Date, months: int)
    requires a.Valid() && b.Valid() && !Before(b, a)
    ensures !Before(ShiftMonths(b, months), ShiftMonths(a, months))
  {
    ShiftLands(a, months);
    ShiftLands(b, months);
    BeforeByMonth(b, a);
    BeforeByMonth(ShiftMonths(b, months), ShiftMonths(a, months));
  }

  /**
   Two shifts in a row equal one shift by the sum exactly when the month in between does not
   clamp the day further than the last month does. The first of a month never clamps.
   */
  lemma ShiftIsAdditiveExactly(d: Date, i: int, j: int)
    requires d.Valid()
    ensures ShiftMonths(ShiftMonths(d, i), j) == ShiftMonths(d, i + j) <==>
            d.day <= DaysInMonth(MonthIndex(d) + i) || DaysInMonth(MonthIndex(d) + i + j) <= DaysInMonth(MonthIndex(d) + i)
  {
    ShiftLands(d, i);
    ShiftLands(d, i + j);
    var mid, last := MonthIndex(d) + i, MonthIndex(d) + i + j;
    assert ShiftMonths(d, i + j).day == Min(d.day, DaysInMonth(last));
    assert ShiftMonths(ShiftMonths(d, i), j).day == Min(Min(d.day, DaysInMonth(mid)), DaysInMonth(last));
    ShiftLands(ShiftMonths(d, i), j);
    MonthAndDay(ShiftMonths(ShiftMonths(d, i), j));
    MonthAndDay(ShiftMonths(d, i + j));
  }

  lemma ShiftFirst(m: int, months: int)
    ensures ShiftMonths(FirstOf(m), months) == FirstOf(m + months)
  {
  }

  /** One month on and one month on from 31 January is not two months on. */
  lemma ShiftIsNotAdditive()
    ensures var d := Date(2023, 1, 31); ShiftMonths(ShiftMonths(d, 1), 1) != ShiftMonths(d, 2)
  {
    var d := Date(2023, 1, 31);
    assert DaysInMonth(24277) == 28 && DaysInMonth(24278) == 31;
    ShiftIsAdditiveExactly(d, 1, 1);
  }
}
