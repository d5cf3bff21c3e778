/** Canonical stored timestamps: UTC, to the second, compared as strings. */
module Timestamps {
  import opened Ordering
  import opened Calendar
  import opened Text

  const SECONDS_PER_DAY := 86400

  /** A moment in UTC: its date, the second of the day and the microsecond. */
  datatype Moment = Moment(date: Date, second: int, micro: int) {
    predicate Valid() {
      InYears(date) && 0 <= second < SECONDS_PER_DAY && 0 <= micro < 1000000
    }
  }

  /** The years a four-digit field can name. */
  predicate InYears(d: Date) {
    d.Valid() && 1 <= d.year <= 9999
  }

  /** Whole seconds since the calendar's origin. */
  function Seconds(m: Moment): int {
    DayNumber(m.date) * SECONDS_PER_DAY + m.second
  }

  // ----------------------------------------------------------------- printing

  /** `n` in decimal, with leading zeros up to `width` characters. */
  function Digits(n: nat, width: nat): (s: string)
    ensures |s| == width
  {
    if width == 0 then "" else
      var shorter := width - 1;
      Digits(n / 10, shorter) + [DigitChar(n % 10)]
  }

  function DateStr(d: Date): (s: string)
    requires InYears(d)
    ensures |s| == 10
  {
    Digits(d.year, 4) + ("-" + (Digits(d.month, 2) + ("-" + Digits(d.day, 2))))
  }

  function TimeStr(second: int): (s: string)
    requires 0 <= second < SECONDS_PER_DAY
    ensures |s| == 8
  {
    Digits(second / 3600, 2) + (":" + (Digits(second / 60 % 60, 2) + (":" + Digits(second % 60, 2))))
  }

  /** The stored form; the fraction of a second is dropped. */
  function AsUtcIso(m: Moment): string
    requires m.Valid()
  {
    DateStr(m.date) + ("T" + (TimeStr(m.second) + "Z"))
  }

  /** The day after, while the year still has four digits. */
  function NextDateStr(d: Date): string
    requires InYears(d) && InYears(NextDay(d))
  {
    DateStr(NextDay(d))
  }

  // ------------------------------------------------------------ order of strings

  /** Strings that begin with equally long parts compare by those parts first. */
  lemma {:induction false} LexConcat(a: string, b: string, x: string, y: string)
    requires |a| == |b|
    ensures LexLe(a + x, b + y) <==> if a == b then LexLe(x, y) else LexLe(a, b)
  {
    if a == [] {
      assert a + x == x && b + y == y;
    } else {
      assert (a + x)[1..] == a[1..] + x && (b + y)[1..] == b[1..] + y;
      assert a == b <==> a[0] == b[0] && a[1..] == b[1..] by {
        assert a == [a[0]] + a[1..] && b == [b[0]] + b[1..];
      }
      LexConcat(a[1..], b[1..], x, y);
    }
  }

  function TenToThe(k: nat): nat {
    if k == 0 then 1 else
      var less := k - 1;
      10 * TenToThe(less)
  }

  lemma DigitOrder(d: int, e: int)
    requires 0 <= d < 10 && 0 <= e < 10
    ensures LexLe([DigitChar(d)], [DigitChar(e)]) <==> d <= e
    ensures DigitChar(d) == DigitChar(e) <==> d == e
  {
    assert [DigitChar(d)][1..] == [] && [DigitChar(e)][1..] == [];
  }

  /** Equally wide numbers compare as strings exactly as they do in value. */
  lemma {:induction false} DigitsOrder(n: nat, m: nat, width: nat)
    requires n < TenToThe(width) && m < TenToThe(width)
    ensures LexLe(Digits(n, width), Digits(m, width)) <==> n <= m
    ensures Digits(n, width) == Digits(m, width) <==> n == m
  {
    if width > 0 {
      var shorter := width - 1;
      DigitsOrder(n / 10, m / 10, shorter);
      DigitOrder(n % 10, m % 10);
      LexConcat(Digits(n / 10, shorter), Digits(m / 10, shorter), [DigitChar(n % 10)], [DigitChar(m % 10)]);
      assert Digits(n, width)[shorter] == DigitChar(n % 10) && Digits(m, width)[shorter] == DigitChar(m % 10);
      assert Digits(n, width)[..shorter] == Digits(n / 10, shorter) && Digits(m, width)[..shorter] == Digits(m / 10, shorter);
    }
  }

  lemma FieldOrder(n: nat, m: nat, width: nat, x: string, y: string)
    requires n < TenToThe(width) && m < TenToThe(width)
    ensures LexLe(Digits(n, width) + x, Digits(m, width) + y) <==> n < m || (n == m && LexLe(x, y))
  {
    DigitsOrder(n, m, width);
    LexConcat(Digits(n, width), Digits(m, width), x, y);
  }

  lemma SeparatorOrder(sep: string, x: string, y: string)
    ensures LexLe(sep + x, sep + y) <==> LexLe(x, y)
  {
    LexConcat(sep, sep, x, y);
  }

  lemma TenPowers()
    ensures TenToThe(2) == 100 && TenToThe(4) == 10000
  {
    assert TenToThe(1) == 10 && TenToThe(3) == 1000;
  }

  /** Date strings, whatever follows them, compare by date first. */
  lemma DateOrder(a: Date, b: Date, x: string, y: string)
    requires InYears(a) && InYears(b)
    ensures LexLe(DateStr(a) + x, DateStr(b) + y) <==> Before(a, b) || (a == b && LexLe(x, y))
  {
    TenPowers();
    var dayA, dayB := Digits(a.day, 2), Digits(b.day, 2);
    var monthA, monthB := Digits(a.month, 2), Digits(b.month, 2);
    FieldOrder(a.day, b.day, 2, x, y);
    SeparatorOrder("-", dayA + x, dayB + y);
    FieldOrder(a.month, b.month, 2, "-" + (dayA + x), "-" + (dayB + y));
    SeparatorOrder("-", monthA + ("-" + (dayA + x)), monthB + ("-" + (dayB + y)));
    FieldOrder(a.year, b.year, 4, "-" + (monthA + ("-" + (dayA + x))), "-" + (monthB + ("-" + (dayB + y))));
    DateThen(a, x);
    DateThen(b, y);
  }

  lemma DateThen(a: Date, x: string)
    requires InYears(a)
    ensures DateStr(a) + x == Digits(a.year, 4) + ("-" + (Digits(a.month, 2) + ("-" + (Digits(a.day, 2) + x))))
  {
  }

  lemma TimeThen(s: int, x: string)
    requires 0 <= s < SECONDS_PER_DAY
    ensures TimeStr(s) + x == Digits(s / 3600, 2) + (":" + (Digits(s / 60 % 60, 2) + (":" + (Digits(s % 60, 2) + x))))
  {
  }

  lemma ClockFields(s: int, t: int)
    requires 0 <= s < SECONDS_PER_DAY && 0 <= t < SECONDS_PER_DAY
    ensures s == s / 3600 * 3600 + s / 60 % 60 * 60 + s % 60 && s / 3600 < 24
    ensures s < t <==> s / 3600 < t / 3600 || (s / 3600 == t / 3600 && (s / 60 % 60 < t / 60 % 60
                         || (s / 60 % 60 == t / 60 % 60 && s % 60 < t % 60)))
  {
    ClockField(s);
    ClockField(t);
  }

  lemma ClockField(s: int)
    requires 0 <= s < SECONDS_PER_DAY
    ensures s == s / 3600 * 3600 + s / 60 % 60 * 60 + s % 60 && s / 3600 < 24
  {
    assert s / 60 / 60 == s / 3600;
    assert s / 60 == s / 3600 * 60 + s / 60 % 60;
  }

  lemma TimeOrder(s: int, t: int, x: string, y: string)
    requires 0 <= s < SECONDS_PER_DAY && 0 <= t < SECONDS_PER_DAY
    ensures LexLe(TimeStr(s) + x, TimeStr(t) + y) <==> s < t || (s == t && LexLe(x, y))
  {
    TenPowers();
    ClockFields(s, t);
    ClockFields(t, s);
    var secS, secT := Digits(s % 60, 2), Digits(t % 60, 2);
    var minS, minT := Digits(s / 60 % 60, 2), Digits(t / 60 % 60, 2);
    FieldOrder(s % 60, t % 60, 2, x, y);
    SeparatorOrder(":", secS + x, secT + y);
    FieldOrder(s / 60 % 60, t / 60 % 60, 2, ":" + (secS + x), ":" + (secT + y));
    SeparatorOrder(":", minS + (":" + (secS + x)), minT + (":" + (secT + y)));
    FieldOrder(s / 3600, t / 3600, 2, ":" + (minS + (":" + (secS + x))), ":" + (minT + (":" + (secT + y))));
    TimeThen(s, x);
    TimeThen(t, y);
  }

  lemma SecondsOrder(a: Moment, b: Moment)
    requires a.Valid() && b.Valid()
    ensures Seconds(a) <= Seconds(b) <==> Before(a.date, b.date) || (a.date == b.date && a.second <= b.second)
    ensures Seconds(a) == Seconds(b) <==> a.date == b.date && a.second == b.second
  {
    BeforeIsLess(a.date, b.date);
    BeforeIsLess(b.date, a.date);
  }

  /** Stored timestamps compare as strings exactly as they do in time. */
  lemma StringOrderIsTimeOrder(a: Moment, b: Moment)
    requires a.Valid() && b.Valid()
    ensures LexLe(AsUtcIso(a), AsUtcIso(b)) <==> Seconds(a) <= Seconds(b)
    ensures AsUtcIso(a) == AsUtcIso(b) <==> Seconds(a) == Seconds(b)
  {
    StringOrderOneWay(a, b);
    StringOrderOneWay(b, a);
    LexTotal(AsUtcIso(a), AsUtcIso(b));
  }

  lemma StringOrderOneWay(a: Moment, b: Moment)
    requires a.Valid() && b.Valid()
    ensures LexLe(AsUtcIso(a), AsUtcIso(b)) <==> Seconds(a) <= Seconds(b)
  {
    var x, y := TimeStr(a.second) + "Z", TimeStr(b.second) + "Z";
    DateOrder(a.date, b.date, "T" + x, "T" + y);
    SeparatorOrder("T", x, y);
    TimeOrder(a.second, b.second, "Z", "Z");
    LexTotal("Z", "Z");
    SecondsOrder(a, b);
  }

  /** Strings from a date string up to the next day's are exactly those that begin with the date. */
  lemma DayRange(d: Date, e: Date, rest: string)
    requires InYears(d) && InYears(e) && InYears(NextDay(d))
    ensures LexLe(DateStr(d), DateStr(e) + rest) && !LexLe(NextDateStr(d), DateStr(e) + rest) <==> e == d
  {
    DateOrder(d, e, "", rest);
    DateOrder(NextDay(d), e, "", rest);
    assert DateStr(d) + "" == DateStr(d) && NextDateStr(d) + "" == NextDateStr(d);
    NextDayNumber(d);
    BeforeIsLess(d, e);
    BeforeIsLess(NextDay(d), e);
    BeforeIsLess(NextDay(d), d);
  }

  /** A stored timestamp falls on a date exactly when it lies between that date string and the next. */
  lemma StampFallsOnDate(m: Moment, d: Date)
    requires m.Valid() && InYears(d) && InYears(NextDay(d))
    ensures LexLe(DateStr(d), AsUtcIso(m)) && !LexLe(NextDateStr(d), AsUtcIso(m)) <==> m.date == d
  {
    DayRange(d, m.date, "T" + (TimeStr(m.second) + "Z"));
  }
}
