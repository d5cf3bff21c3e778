/** Reading timestamps: a date, a time, an optional fraction and an optional offset. */
module TimestampParsing {
  import opened Outcomes
  import opened Calendar
  import opened Timestamps
  import opened Text

  // ------------------------------------------------------------------- pieces

  function DigitValue(c: char): nat
    requires IsDigit(c)
  {
    (c as int) - ('0' as int)
  }

  /** The value of the first `width` characters, if they are digits. */
  function NumberAt(s: string, width: nat): Option<nat> {
    if width > |s| then None
    else if width == 0 then Some(0)
    else
      var last := width - 1;
      var front := NumberAt(s, last);
      if front.None? || !IsDigit(s[last]) then None else Some(10 * front.value + DigitValue(s[last]))
  }

  /** A number field and what follows it. */
  function TakeNumber(s: string, width: nat): Option<(nat, string)> {
    var n := NumberAt(s, width);
    if n.None? || width > |s| then None else Some((n.value, s[width..]))
  }

  /** A separator and then a number field. */
  function TakeField(s: string, sep: char, width: nat): Option<(nat, string)> {
    if s == [] || s[0] != sep then None else TakeNumber(s[1..], width)
  }

  function TakeDate(s: string): Option<(Date, string)> {
    var y := TakeNumber(s, 4);
    if y.None? then None else
      var m := TakeField(y.value.1, '-', 2);
      if m.None? then None else
        var d := TakeField(m.value.1, '-', 2);
        if d.None? then None else
          var date := Date(y.value.0, m.value.0, d.value.0);
          if InYears(date) then Some((date, d.value.1)) else None
  }

  function TakeTime(s: string): Option<(int, string)> {
    var h := TakeNumber(s, 2);
    if h.None? || h.value.0 > 23 then None else
      var m := TakeField(h.value.1, ':', 2);
      if m.None? || m.value.0 > 59 then None else
        var sec := TakeField(m.value.1, ':', 2);
        if sec.None? || sec.value.0 > 59 then None
        else Some((h.value.0 * 3600 + m.value.0 * 60 + sec.value.0, sec.value.1))
  }

  /** How many digits a string begins with. */
  function DigitRun(s: string): (n: nat)
    ensures n <= |s| && forall i :: 0 <= i < n ==> IsDigit(s[i])
  {
    if s == [] || !IsDigit(s[0]) then 0 else 1 + DigitRun(s[1..])
  }

  /** A fraction of any length in microseconds, digits past the sixth dropped; none written is zero. */
  function TakeFraction(s: string): Option<(int, string)> {
    if s == [] || s[0] != '.' then Some((0, s)) else
      var run := DigitRun(s[1..]);
      var used: nat := if run < 6 then run else 6;
      var n := NumberAt(s[1..], used);
      if run == 0 || n.None? then None else Some((n.value * TenToThe(6 - used), s[1..][run..]))
  }

  /** The offset from UTC in seconds; none written means UTC. */
  function ReadOffset(s: string): Option<int> {
    if s == [] then Some(0)
    else if s[0] != '+' && s[0] != '-' then None
    else
      var h := TakeNumber(s[1..], 2);
      if h.None? || h.value.0 > 23 then None else
        var m := TakeField(h.value.1, ':', 2);
        if m.None? || m.value.0 > 59 || m.value.1 != [] then None else
          var seconds := h.value.0 * 3600 + m.value.0 * 60;
          Some(if s[0] == '-' then -seconds else seconds)
  }

  /** A local date and second, taken back by its offset to UTC. */
  function ToUtc(date: Date, second: int, micro: int, offset: int): Moment {
    var utc := second - offset;
    if utc < 0 then Moment(PrevDay(date), utc + SECONDS_PER_DAY, micro)
    else if utc >= SECONDS_PER_DAY then Moment(NextDay(date), utc - SECONDS_PER_DAY, micro)
    else Moment(date, utc, micro)
  }

  function WithoutZ(s: string): string {
    if s != [] && s[|s| - 1] == 'Z' then s[..|s| - 1] + "+00:00" else s
  }

  function ParseFields(s: string): Option<Moment> {
    var date := TakeDate(s);
    if date.None? || date.value.1 == [] || (date.value.1[0] != 'T' && date.value.1[0] != ' ') then None else
      var time := TakeTime(date.value.1[1..]);
      if time.None? then None else
        var fraction := TakeFraction(time.value.1);
        if fraction.None? then None else
          var offset := ReadOffset(fraction.value.1);
          if offset.None? then None else
            var m := ToUtc(date.value.0, time.value.0, fraction.value.0, offset.value);
            if m.Valid() then Some(m) else None
  }

  function ParseUtcIso(text: string): (r: Option<Moment>)
    ensures r.Some? ==> r.value.Valid()
  {
    ParseFields(WithoutZ(Strip(text)))
  }

  function NormalizeUtcIso(text: string): Option<string> {
    var m := ParseUtcIso(text);
    if m.None? then None else Some(AsUtcIso(m.value))
  }

  /** The date string after a date string. */
  function NextDateOf(text: string): Option<string> {
    var d := TakeDate(text);
    if d.Some? && d.value.1 == [] && InYears(NextDay(d.value.0)) then Some(NextDateStr(d.value.0)) else None
  }

  // ------------------------------------------------------------- round trips

  /** Taking an offset away keeps the instant. */
  lemma UtcKeepsInstant(date: Date, second: int, micro: int, offset: int)
    requires date.Valid() && 0 <= second < SECONDS_PER_DAY && -SECONDS_PER_DAY < offset < SECONDS_PER_DAY
    ensures Seconds(ToUtc(date, second, micro, offset)) == DayNumber(date) * SECONDS_PER_DAY + second - offset
    ensures ToUtc(date, second, micro, offset).date.Valid() && 0 <= ToUtc(date, second, micro, offset).second < SECONDS_PER_DAY
  {
    NextDayNumber(date);
    PrevDayNumber(date);
  }

  lemma {:induction false} NumberAtFront(s: string, x: string, width: nat)
    requires width <= |s|
    ensures NumberAt(s + x, width) == NumberAt(s, width)
  {
    if width > 0 {
      NumberAtFront(s, x, width - 1);
    }
  }

  lemma {:induction false} NumberOfDigits(n: nat, width: nat)
    requires n < TenToThe(width)
    ensures NumberAt(Digits(n, width), width) == Some(n)
  {
    if width > 0 {
      var shorter := width - 1;
      NumberOfDigits(n / 10, shorter);
      NumberAtFront(Digits(n / 10, shorter), [DigitChar(n % 10)], shorter);
    }
  }

  lemma TakePrinted(n: nat, width: nat, x: string)
    requires n < TenToThe(width)
    ensures TakeNumber(Digits(n, width) + x, width) == Some((n, x))
  {
    NumberOfDigits(n, width);
    NumberAtFront(Digits(n, width), x, width);
  }

  lemma FieldPrinted(sep: char, n: nat, width: nat, x: string)
    requires n < TenToThe(width)
    ensures TakeField([sep] + (Digits(n, width) + x), sep, width) == Some((n, x))
  {
    TakePrinted(n, width, x);
    assert ([sep] + (Digits(n, width) + x))[1..] == Digits(n, width) + x;
  }

  lemma DatePrinted(d: Date, x: string)
    requires InYears(d)
    ensures TakeDate(DateStr(d) + x) == Some((d, x))
  {
    TenPowers();
    DateThen(d, x);
    var day, month := Digits(d.day, 2) + x, Digits(d.month, 2);
    FieldPrinted('-', d.day, 2, x);
    FieldPrinted('-', d.month, 2, "-" + day);
    TakePrinted(d.year, 4, "-" + (month + ("-" + day)));
  }

  lemma TimeRead(s: string, hour: nat, afterHour: string, minute: nat, afterMinute: string, second: nat, rest: string)
    requires TakeNumber(s, 2) == Some((hour, afterHour)) && hour <= 23
    requires TakeField(afterHour, ':', 2) == Some((minute, afterMinute)) && minute <= 59
    requires TakeField(afterMinute, ':', 2) == Some((second, rest)) && second <= 59
    ensures TakeTime(s) == Some((hour * 3600 + minute * 60 + second, rest))
  {
  }

  lemma TimePrinted(s: int, x: string)
    requires 0 <= s < SECONDS_PER_DAY
    ensures TakeTime(TimeStr(s) + x) == Some((s, x))
  {
    TenPowers();
    TimeThen(s, x);
    ClockField(s);
    ClockPrinted(s / 3600, s / 60 % 60, s % 60, x);
  }

  lemma ClockPrinted(hour: nat, minute: nat, second: nat, x: string)
    requires hour <= 23 && minute <= 59 && second <= 59
    ensures TakeTime(Digits(hour, 2) + (":" + (Digits(minute, 2) + (":" + (Digits(second, 2) + x)))))
         == Some((hour * 3600 + minute * 60 + second, x))
  {
    TenPowers();
    var afterMinute := ":" + (Digits(second, 2) + x);
    var afterHour := ":" + (Digits(minute, 2) + afterMinute);
    FieldPrinted(':', second, 2, x);
    FieldPrinted(':', minute, 2, afterMinute);
    TakePrinted(hour, 2, afterHour);
    TimeRead(Digits(hour, 2) + afterHour, hour, afterHour, minute, afterMinute, second, x);
  }

  lemma ZeroOffset()
    ensures ReadOffset("+00:00") == Some(0)
  {
    var s := "+00:00";
    assert s[1..] == "00:00" && s[1..][2..] == ":00" && s[1..][2..][1..] == "00" && "00"[2..] == "";
    assert NumberAt("00:00", 0) == Some(0) && NumberAt("00:00", 1) == Some(0) && NumberAt("00:00", 2) == Some(0);
    assert NumberAt("00", 0) == Some(0) && NumberAt("00", 1) == Some(0) && NumberAt("00", 2) == Some(0);
  }

  /** Reading a date, a separator, a time without fraction and a zero offset. */
  lemma FieldsRead(s: string, date: Date, time: string, second: int, offset: string)
    requires TakeDate(s) == Some((date, "T" + time)) && TakeTime(time) == Some((second, offset))
    requires offset != "" && offset[0] != '.' && ReadOffset(offset) == Some(0)
    requires InYears(date) && 0 <= second < SECONDS_PER_DAY
    ensures ParseFields(s) == Some(Moment(date, second, 0))
  {
    assert ("T" + time)[1..] == time;
  }

  lemma FieldsPrinted(m: Moment)
    requires m.Valid()
    ensures ParseFields(DateStr(m.date) + ("T" + (TimeStr(m.second) + "+00:00"))) == Some(m.(micro := 0))
  {
    var time := TimeStr(m.second) + "+00:00";
    DatePrinted(m.date, "T" + time);
    TimePrinted(m.second, "+00:00");
    ZeroOffset();
    FieldsRead(DateStr(m.date) + ("T" + time), m.date, time, m.second, "+00:00");
  }

  lemma {:induction false} DigitsAreDigits(n: nat, width: nat)
    ensures forall i :: 0 <= i < width ==> IsDigit(Digits(n, width)[i])
  {
    if width > 0 {
      DigitsAreDigits(n / 10, width - 1);
    }
  }

  lemma PrintedIsTrimmed(m: Moment)
    requires m.Valid()
    ensures Strip(AsUtcIso(m)) == AsUtcIso(m)
    ensures WithoutZ(AsUtcIso(m)) == DateStr(m.date) + ("T" + (TimeStr(m.second) + "+00:00"))
  {
    var s := AsUtcIso(m);
    DigitsAreDigits(m.date.year, 4);
    assert s[0] == Digits(m.date.year, 4)[0];
    assert s[|s| - 1] == 'Z';
    assert s[..|s| - 1] == DateStr(m.date) + ("T" + TimeStr(m.second));
    assert WithoutZ(s) == DateStr(m.date) + ("T" + TimeStr(m.second)) + "+00:00";
  }

  /** Parsing inverts printing, to the second. */
  lemma ParseInvertsPrint(m: Moment)
    requires m.Valid()
    ensures ParseUtcIso(AsUtcIso(m)) == Some(m.(micro := 0))
  {
    PrintedIsTrimmed(m);
    FieldsPrinted(m);
  }

  /** Normalising a normalised timestamp changes nothing. */
  lemma NormalizeIsIdempotent(text: string)
    requires NormalizeUtcIso(text).Some?
    ensures NormalizeUtcIso(NormalizeUtcIso(text).value) == NormalizeUtcIso(text)
  {
    ParseInvertsPrint(ParseUtcIso(text).value);
  }

  /** Two spellings normalise to one string exactly when they name the same second. */
  lemma NormalFormIsUnique(a: string, b: string)
    requires ParseUtcIso(a).Some? && ParseUtcIso(b).Some?
    ensures NormalizeUtcIso(a) == NormalizeUtcIso(b) <==> Seconds(ParseUtcIso(a).value) == Seconds(ParseUtcIso(b).value)
  {
    StringOrderIsTimeOrder(ParseUtcIso(a).value, ParseUtcIso(b).value);
  }

  /** The next date of a printed date is the printed next date. */
  lemma NextDatePrinted(d: Date)
    requires InYears(d)
    ensures NextDateOf(DateStr(d)) == if InYears(NextDay(d)) then Some(DateStr(NextDay(d))) else None
  {
    DatePrinted(d, "");
    assert DateStr(d) + "" == DateStr(d);
  }
}
