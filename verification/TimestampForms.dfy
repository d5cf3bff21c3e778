/** Which strings are timestamps, as the pieces they are made of, and which moment each one names. */
module TimestampForms {
  import opened Outcomes
  import opened Text
  import opened Calendar
  import opened Timestamps
  import opened TimestampParsing

  /** `width` digits that stand for `n`. */
  ghost predicate Number(digits: string, width: nat, n: int) {
    |digits| == width && (forall i :: 0 <= i < width ==> IsDigit(digits[i])) && Value(digits) == n
  }

  lemma {:induction false} NumberReads(s: string, width: nat)
    requires NumberAt(s, width).Some?
    ensures width <= |s| && Number(s[..width], width, NumberAt(s, width).value)
  {
    if width > 0 {
      var last := width - 1;
      NumberReads(s, last);
      assert s[..width][..last] == s[..last];
      assert s[..width] == s[..last] + [s[last]];
    } else {
      assert s[..0] == "";
    }
  }

  lemma {:induction false} NumberTaken(digits: string, width: nat, n: int, rest: string)
    requires Number(digits, width, n)
    ensures NumberAt(digits + rest, width) == Some(n)
  {
    if width > 0 {
      var last := width - 1;
      assert digits == digits[..last] + [digits[last]];
      NumberTaken(digits[..last], last, Value(digits[..last]), [digits[last]] + rest);
      assert digits[..last] + ([digits[last]] + rest) == digits + rest;
    }
  }

  lemma TakeReads(s: string, width: nat) returns (digits: string)
    requires TakeNumber(s, width).Some?
    ensures Number(digits, width, TakeNumber(s, width).value.0) && s == digits + TakeNumber(s, width).value.1
  {
    digits := s[..width];
    NumberReads(s, width);
  }

  lemma TakeTaken(digits: string, width: nat, n: int, rest: string)
    requires Number(digits, width, n)
    ensures n >= 0 && TakeNumber(digits + rest, width) == Some((n, rest))
  {
    NumberTaken(digits, width, n, rest);
    assert (digits + rest)[width..] == rest;
  }

  lemma FieldReads(s: string, sep: char, width: nat) returns (digits: string)
    requires TakeField(s, sep, width).Some?
    ensures Number(digits, width, TakeField(s, sep, width).value.0)
    ensures s == [sep] + (digits + TakeField(s, sep, width).value.1)
  {
    digits := TakeReads(s[1..], width);
    assert s == [s[0]] + s[1..];
  }

  lemma FieldTaken(sep: char, digits: string, width: nat, n: int, rest: string)
    requires Number(digits, width, n)
    ensures TakeField([sep] + (digits + rest), sep, width) == Some((n, rest))
  {
    TakeTaken(digits, width, n, rest);
    assert ([sep] + (digits + rest))[1..] == digits + rest;
  }

  // -------------------------------------------------------------------- the date

  ghost predicate DateParts(s: string, y: string, m: string, d: string, date: Date, rest: string) {
    && s == y + ("-" + (m + ("-" + (d + rest))))
    && Number(y, 4, date.year) && Number(m, 2, date.month) && Number(d, 2, date.day) && InYears(date)
  }

  /** Four digits, two and two with hyphens between them: a date there is. */
  ghost predicate DateForm(s: string, date: Date, rest: string) {
    exists y, m, d :: DateParts(s, y, m, d, date, rest)
  }

  lemma DateExactly(s: string, date: Date, rest: string)
    ensures TakeDate(s) == Some((date, rest)) <==> DateForm(s, date, rest)
  {
    if TakeDate(s).Some? {
      var afterYear := TakeNumber(s, 4).value.1;
      var afterMonth := TakeField(afterYear, '-', 2).value.1;
      var y := TakeReads(s, 4);
      var m := FieldReads(afterYear, '-', 2);
      var d := FieldReads(afterMonth, '-', 2);
      assert DateParts(s, y, m, d, TakeDate(s).value.0, TakeDate(s).value.1);
    }
    if DateForm(s, date, rest) {
      var y, m, d :| DateParts(s, y, m, d, date, rest);
      FieldTaken('-', d, 2, date.day, rest);
      FieldTaken('-', m, 2, date.month, "-" + (d + rest));
      TakeTaken(y, 4, date.year, "-" + (m + ("-" + (d + rest))));
    }
  }

  // -------------------------------------------------------------------- the time

  ghost predicate TimeParts(s: string, h: string, m: string, sec: string, second: int, rest: string) {
    && s == h + (":" + (m + (":" + (sec + rest))))
    && Number(h, 2, Value(h)) && Number(m, 2, Value(m)) && Number(sec, 2, Value(sec))
    && Value(h) < 24 && Value(m) < 60 && Value(sec) < 60
    && second == 3600 * Value(h) + 60 * Value(m) + Value(sec)
  }

  ghost predicate TimeForm(s: string, second: int, rest: string) {
    exists h, m, sec :: TimeParts(s, h, m, sec, second, rest)
  }

  lemma TimeExactly(s: string, second: int, rest: string)
    ensures TakeTime(s) == Some((second, rest)) <==> TimeForm(s, second, rest)
  {
    if TakeTime(s).Some? {
      var afterHour := TakeNumber(s, 2).value.1;
      var afterMinute := TakeField(afterHour, ':', 2).value.1;
      var h := TakeReads(s, 2);
      var m := FieldReads(afterHour, ':', 2);
      var sec := FieldReads(afterMinute, ':', 2);
      assert TimeParts(s, h, m, sec, TakeTime(s).value.0, TakeTime(s).value.1);
    }
    if TimeForm(s, second, rest) {
      var h, m, sec :| TimeParts(s, h, m, sec, second, rest);
      FieldTaken(':', sec, 2, Value(sec), rest);
      FieldTaken(':', m, 2, Value(m), ":" + (sec + rest));
      TakeTaken(h, 2, Value(h), ":" + (m + (":" + (sec + rest))));
    }
  }

  // ----------------------------------------------------------- fraction and offset

  /** The first six digits of a fraction, filled up with zeros. */
  function Micros(digits: string): int {
    if |digits| >= 6 then Value(digits[..6]) else Value(digits) * TenToThe(6 - |digits|)
  }

  ghost predicate FractionParts(s: string, digits: string, micro: int, rest: string) {
    && digits != "" && (forall i :: 0 <= i < |digits| ==> IsDigit(digits[i]))
    && s == "." + (digits + rest) && (rest == "" || !IsDigit(rest[0])) && micro == Micros(digits)
  }

  /** No fraction, or a full stop and as many digits as there are. */
  ghost predicate FractionForm(s: string, micro: int, rest: string) {
    if s == "" || s[0] != '.' then micro == 0 && rest == s
    else exists digits :: FractionParts(s, digits, micro, rest)
  }

  lemma {:induction false} RunExactly(digits: string, rest: string)
    requires (forall i :: 0 <= i < |digits| ==> IsDigit(digits[i])) && (rest == "" || !IsDigit(rest[0]))
    ensures DigitRun(digits + rest) == |digits|
  {
    if digits == "" {
      assert digits + rest == rest;
    } else {
      assert (digits + rest)[1..] == digits[1..] + rest;
      RunExactly(digits[1..], rest);
    }
  }

  lemma {:induction false} RunIsWhole(s: string)
    ensures DigitRun(s) < |s| ==> !IsDigit(s[DigitRun(s)])
  {
    if s != "" && IsDigit(s[0]) {
      RunIsWhole(s[1..]);
    }
  }

  lemma UsedDigits(digits: string, rest: string, used: nat)
    requires forall i :: 0 <= i < |digits| ==> IsDigit(digits[i])
    requires used == (if |digits| < 6 then |digits| else 6)
    ensures NumberAt(digits + rest, used).Some? && NumberAt(digits + rest, used).value * TenToThe(6 - used) == Micros(digits)
  {
    var front, back := digits[..used], digits[used..];
    assert digits == front + back;
    NumberTaken(front, used, Value(front), back + rest);
    assert front + (back + rest) == digits + rest;
    TenPowers();
    if used == 6 {
      assert TenToThe(6 - used) == 1;
    } else {
      assert front == digits;
    }
  }

  lemma FractionReads(s: string)
    requires s != "" && s[0] == '.' && TakeFraction(s).Some?
    ensures FractionForm(s, TakeFraction(s).value.0, TakeFraction(s).value.1)
  {
    var tail := s[1..];
    var run := DigitRun(tail);
    RunIsWhole(tail);
    var digits, rest := tail[..run], tail[run..];
    assert tail == digits + rest && s == "." + tail;
    UsedDigits(digits, rest, if run < 6 then run else 6);
    assert FractionParts(s, digits, Micros(digits), rest);
  }

  lemma FractionTaken(s: string, digits: string, micro: int, rest: string)
    requires FractionParts(s, digits, micro, rest)
    ensures TakeFraction(s) == Some((micro, rest))
  {
    assert s[1..] == digits + rest;
    RunExactly(digits, rest);
    UsedDigits(digits, rest, if |digits| < 6 then |digits| else 6);
    assert (digits + rest)[|digits|..] == rest;
  }

  lemma FractionExactly(s: string, micro: int, rest: string)
    ensures TakeFraction(s) == Some((micro, rest)) <==> FractionForm(s, micro, rest)
  {
    if s != "" && s[0] == '.' {
      if TakeFraction(s).Some? {
        FractionReads(s);
      }
      if FractionForm(s, micro, rest) {
        var digits :| FractionParts(s, digits, micro, rest);
        FractionTaken(s, digits, micro, rest);
      }
    }
  }

  ghost predicate OffsetParts(s: string, h: string, m: string, offset: int) {
    && s != "" && (s[0] == '+' || s[0] == '-') && s == [s[0]] + (h + (":" + m))
    && Number(h, 2, Value(h)) && Number(m, 2, Value(m)) && Value(h) < 24 && Value(m) < 60
    && offset == if s[0] == '+' then 3600 * Value(h) + 60 * Value(m) else -3600 * Value(h) - 60 * Value(m)
  }

  /** Nothing for UTC, or a sign, hours and minutes. */
  ghost predicate OffsetForm(s: string, offset: int) {
    (s == "" && offset == 0) || exists h, m :: OffsetParts(s, h, m, offset)
  }

  lemma OffsetExactly(s: string, offset: int)
    ensures ReadOffset(s) == Some(offset) <==> OffsetForm(s, offset)
  {
    if s != "" && ReadOffset(s).Some? {
      var tail := s[1..];
      var afterHour := TakeNumber(tail, 2).value.1;
      var h := TakeReads(tail, 2);
      var m := FieldReads(afterHour, ':', 2);
      assert s == [s[0]] + tail;
      assert OffsetParts(s, h, m, ReadOffset(s).value);
    }
    if s != "" && OffsetForm(s, offset) {
      var h, m :| OffsetParts(s, h, m, offset);
      assert m + "" == m;
      var tail := ":" + m;
      assert s[1..] == h + tail;
      TakeTaken(h, 2, Value(h), tail);
      FieldTaken(':', m, 2, Value(m), "");
    }
  }

  // --------------------------------------------------------------------- the whole

  ghost predicate Parts(s: string, date: Date, afterDate: string, second: int, afterTime: string, micro: int, zone: string,
                        offset: int)
  {
    && DateForm(s, date, afterDate) && afterDate != "" && (afterDate[0] == 'T' || afterDate[0] == ' ')
    && TimeForm(afterDate[1..], second, afterTime)
    && FractionForm(afterTime, micro, zone) && OffsetForm(zone, offset)
  }

  /** A date, a T or a space, a time, and then a fraction and an offset if there are any. */
  ghost predicate Spells(s: string, date: Date, second: int, micro: int, offset: int) {
    exists afterDate, afterTime, zone :: Parts(s, date, afterDate, second, afterTime, micro, zone, offset)
  }

  /** The moment of a local date and time: valid, and as many seconds from it as the offset says. */
  ghost predicate IsMoment(m: Moment, date: Date, second: int, micro: int, offset: int) {
    m.Valid() && m.micro == micro
    && DayNumber(m.date) * 86400 + m.second == DayNumber(date) * 86400 + second - offset
  }

  lemma MomentIsUnique(a: Moment, b: Moment)
    requires a.date.Valid() && b.date.Valid() && 0 <= a.second < 86400 && 0 <= b.second < 86400 && a.micro == b.micro
    requires DayNumber(a.date) * 86400 + a.second == DayNumber(b.date) * 86400 + b.second
    ensures a == b
  {
    BeforeIsLess(a.date, b.date);
    BeforeIsLess(b.date, a.date);
  }

  lemma MomentExactly(m: Moment, date: Date, second: int, micro: int, offset: int)
    requires date.Valid() && 0 <= second < 86400 && -86400 < offset < 86400
    ensures IsMoment(m, date, second, micro, offset) <==> m == ToUtc(date, second, micro, offset) && m.Valid()
  {
    var utc := ToUtc(date, second, micro, offset);
    UtcKeepsInstant(date, second, micro, offset);
    if IsMoment(m, date, second, micro, offset) {
      MomentIsUnique(m, utc);
    }
  }

  lemma PartsBounds(s: string, date: Date, second: int, micro: int, offset: int)
    requires Spells(s, date, second, micro, offset)
    ensures date.Valid() && 0 <= second < 86400 && -86400 < offset < 86400
  {
    var afterDate, afterTime, zone :| Parts(s, date, afterDate, second, afterTime, micro, zone, offset);
    var y, mo, d :| DateParts(s, y, mo, d, date, afterDate);
    var h, mi, sec :| TimeParts(afterDate[1..], h, mi, sec, second, afterTime);
    ValueIsNatural(h);
    ValueIsNatural(mi);
    ValueIsNatural(sec);
    if zone != "" {
      var oh, om :| OffsetParts(zone, oh, om, offset);
      ValueIsNatural(oh);
      ValueIsNatural(om);
    }
  }

  lemma {:induction false} ValueIsNatural(digits: string)
    requires forall i :: 0 <= i < |digits| ==> IsDigit(digits[i])
    ensures Value(digits) >= 0
  {
    if digits != "" {
      ValueIsNatural(digits[..|digits| - 1]);
    }
  }

  lemma PartsAreRead(s: string, date: Date, afterDate: string, second: int, afterTime: string, micro: int, zone: string,
                     offset: int)
    requires Parts(s, date, afterDate, second, afterTime, micro, zone, offset)
    ensures var m := ToUtc(date, second, micro, offset);
            ParseFields(s) == if m.Valid() then Some(m) else None
  {
    DateExactly(s, date, afterDate);
    TimeExactly(afterDate[1..], second, afterTime);
    FractionExactly(afterTime, micro, zone);
    OffsetExactly(zone, offset);
  }

  lemma ReadHasParts(s: string) returns (date: Date, second: int, micro: int, offset: int)
    requires ParseFields(s).Some?
    ensures Spells(s, date, second, micro, offset) && ParseFields(s) == Some(ToUtc(date, second, micro, offset))
  {
    var afterDate, afterTime, zone;
    date, afterDate := TakeDate(s).value.0, TakeDate(s).value.1;
    second, afterTime := TakeTime(afterDate[1..]).value.0, TakeTime(afterDate[1..]).value.1;
    micro, zone := TakeFraction(afterTime).value.0, TakeFraction(afterTime).value.1;
    offset := ReadOffset(zone).value;
    DateExactly(s, date, afterDate);
    TimeExactly(afterDate[1..], second, afterTime);
    FractionExactly(afterTime, micro, zone);
    OffsetExactly(zone, offset);
    assert Parts(s, date, afterDate, second, afterTime, micro, zone, offset);
  }

  /** A trailing Z stands for a zero offset. */
  ghost predicate Unabbreviates(s: string, full: string) {
    if s != "" && s[|s| - 1] == 'Z' then exists front :: s == front + "Z" && full == front + "+00:00" else full == s
  }

  lemma WithoutZExactly(s: string)
    ensures Unabbreviates(s, WithoutZ(s))
  {
    if s != "" && s[|s| - 1] == 'Z' {
      var front := s[..|s| - 1];
      assert s == front + "Z";
      assert WithoutZ(s) == front + "+00:00";
    }
  }

  /** A text reads as a moment exactly when, trimmed, it spells one. */
  lemma ParseExactly(text: string, m: Moment)
    ensures Unabbreviates(Strip(text), WithoutZ(Strip(text)))
    ensures ParseUtcIso(text) == Some(m)
       <==> exists date, second, micro, offset ::
              Spells(WithoutZ(Strip(text)), date, second, micro, offset) && IsMoment(m, date, second, micro, offset)
  {
    var s := WithoutZ(Strip(text));
    WithoutZExactly(Strip(text));
    if ParseFields(s).Some? {
      var date, second, micro, offset := ReadHasParts(s);
      PartsBounds(s, date, second, micro, offset);
      MomentExactly(ParseFields(s).value, date, second, micro, offset);
    }
    forall date, second, micro, offset | Spells(s, date, second, micro, offset) && IsMoment(m, date, second, micro, offset)
      ensures ParseFields(s) == Some(m)
    {
      SpelledIsRead(s, m, date, second, micro, offset);
    }
  }

  lemma SpelledIsRead(s: string, m: Moment, date: Date, second: int, micro: int, offset: int)
    requires Spells(s, date, second, micro, offset) && IsMoment(m, date, second, micro, offset)
    ensures ParseFields(s) == Some(m)
  {
    PartsBounds(s, date, second, micro, offset);
    MomentExactly(m, date, second, micro, offset);
    var afterDate, afterTime, zone :| Parts(s, date, afterDate, second, afterTime, micro, zone, offset);
    PartsAreRead(s, date, afterDate, second, afterTime, micro, zone, offset);
  }
}
