/** Backtest and live decisions: rows carried onto the shared calendar against rows of own days alone. */
module LiveAgreement {
  import opened Outcomes
  import opened Ordering
  import opened BarPanel
  import opened SignalInputs
  import opened Simulation

  // -------------------------------------------------------------- the live path

  function ValueOn<T>(series: Series<T>, d: int): Option<T> {
    if d in series then series[d] else None
  }

  /** What the live path reads on an own day: that day's values, none of them carried. */
  function LiveRow(st: Strategy, h: History, e: int): Row {
    Row(ValueOn(CloseSeries(h), e), map name | name in st.names :: ValueOn(st.compute(h, name), e), |PricedDays(h, e)|)
  }

  ghost function OwnDays(h: History): (days: seq<int>)
    ensures forall e :: e in days <==> e in h
    ensures forall i, j :: 0 <= i < j < |days| ==> days[i] < days[j]
  {
    SortedInts(h.Keys)
  }

  ghost function LiveRows(st: Strategy, h: History): (rows: seq<Row>)
    ensures |rows| == |OwnDays(h)|
  {
    seq(|OwnDays(h)|, k requires 0 <= k < |OwnDays(h)| => LiveRow(st, h, OwnDays(h)[k]))
  }

  /** The live decision: at the latest of the bars there are. */
  ghost function LiveSignal(st: Strategy, h: History): Signal
    requires h != map[]
  {
    LatestIsThere(h);
    st.signal(LiveRows(st, h), |OwnDays(h)| - 1)
  }

  lemma LatestIsThere(h: History)
    requires h != map[]
    ensures |OwnDays(h)| > 0
  {
  }

  // ----------------------------------------------------------- the latest own day

  /** `e` is the latest own day at or before `d`. */
  ghost predicate LastOwn(h: History, d: int, e: int) {
    e in h && e <= d && forall f :: f in h && f <= d ==> f <= e
  }

  lemma PastDays(h: History, d: int) returns (days: seq<int>)
    ensures days == OwnDays(UpTo(h, d)) && Increasing(days)
    ensures forall x :: x in days <==> x in h && x <= d
  {
    days := OwnDays(UpTo(h, d));
  }

  lemma LatestIsLast(h: History, d: int, e: int)
    requires LastOwn(h, d, e)
    ensures |OwnDays(UpTo(h, d))| > 0 && OwnDays(UpTo(h, d))[|OwnDays(UpTo(h, d))| - 1] == e
  {
    var days := PastDays(h, d);
    assert e in days;
    assert days[|days| - 1] in days;
  }

  /** Every indicator is a series over the ticker's own days. */
  ghost predicate OnOwnDays(st: Strategy) {
    forall h, name :: name in st.names ==> st.compute(h, name).Keys == h.Keys
  }

  lemma LiveRowOfPast(st: Strategy, h: History, d: int, e: int)
    requires Causal(st) && e <= d
    ensures LiveRow(st, UpTo(h, d), e) == LiveRow(st, h, e)
  {
    var past := UpTo(h, d);
    assert AgreeUpTo(past, h, d);
    OwnSeriesAgree(past, h, d);
    assert PricedDays(past, e) == PricedDays(h, e);
    assert ValueOn(CloseSeries(past), e) == ValueOn(CloseSeries(h), e);
    forall name | name in st.names
      ensures ValueOn(st.compute(past, name), e) == ValueOn(st.compute(h, name), e)
    {
      assert SeriesAgree(st.compute(past, name), st.compute(h, name), d);
    }
  }

  // ------------------------------------------------------------------ own rows

  /** The day has a value, or no day up to it has: there is nothing to carry into it. */
  ghost predicate Settled<T>(series: Series<T>, e: int) {
    ValueOn(series, e).Some? || forall f :: f in series && f <= e ==> series[f].None?
  }

  ghost predicate GapFree(st: Strategy, h: History, e: int) {
    Settled(CloseSeries(h), e) && forall name :: name in st.names ==> Settled(st.compute(h, name), e)
  }

  /** Carried onto a calendar, the latest own value is that of the latest own day, unless that day has a gap. */
  lemma CarriedAtLast<T>(series: Series<T>, dates: seq<int>, i: nat, e: int)
    requires OnCalendar(series, dates) && i < |dates| && e in series && e <= dates[i]
    requires forall f :: f in series && f <= dates[i] ==> f <= e
    ensures Carried(series, dates, i) == ValueOn(series, e) <==> Settled(series, e)
  {
    var v := Carried(series, dates, i);
    CarriedIsLatest(series, dates, i);
    if v.Some? {
      var f :| f in series && f <= dates[i] && series[f] == v && NoneAfter(series, f, dates[i]);
      assert f <= e;
    }
  }

  lemma SeriesOnCalendar(st: Strategy, h: History, dates: seq<int>)
    requires Covers(dates, h) && OnOwnDays(st)
    ensures OnCalendar(CloseSeries(h), dates) && OnCalendar(PricedSeries(h), dates)
    ensures forall name :: name in st.names ==> OnCalendar(st.compute(h, name), dates)
  {
    forall name | name in st.names
      ensures OnCalendar(st.compute(h, name), dates)
    {
      assert st.compute(h, name).Keys == h.Keys;
    }
  }

  /**
   A row at a date is the live row of the latest own day, whatever days the calendar has besides, if and
   only if that day has no gap: a missing value is carried from earlier days here and stays missing live.
   */
  lemma RowIsLiveExactly(st: Strategy, h: History, dates: seq<int>, i: nat, e: int)
    requires Covers(dates, h) && OnOwnDays(st) && i < |dates| && LastOwn(h, dates[i], e)
    ensures RowAt(st, h, dates, i) == LiveRow(st, h, e) <==> GapFree(st, h, e)
  {
    var row, live := RowAt(st, h, dates, i), LiveRow(st, h, e);
    SeriesOnCalendar(st, h, dates);
    CarriedAtLast(CloseSeries(h), dates, i, e);
    CarriedAtLast(PricedSeries(h), dates, i, e);
    forall name | name in st.names
      ensures row.values[name] == live.values[name] <==> Settled(st.compute(h, name), e)
    {
      CarriedAtLast(st.compute(h, name), dates, i, e);
    }
    assert row.priced == live.priced;
    assert row.values == live.values <==> forall name :: name in st.names ==> row.values[name] == live.values[name];
  }

  // ----------------------------------------------- strategies that read one row

  /** A decision depends on the current row alone. */
  ghost predicate ReadsCurrent(st: Strategy) {
    forall rows, rows', i, k :: 0 <= i < |rows| && 0 <= k < |rows'| && rows[i] == rows'[k] ==>
      st.signal(rows, i) == st.signal(rows', k)
  }

  /** Backtest and live path reach one decision for the date. */
  ghost predicate DecideAlike(st: Strategy, h: History, dates: seq<int>, i: nat, e: int)
    requires i < |dates| && LastOwn(h, dates[i], e)
  {
    assert e in UpTo(h, dates[i]);
    st.signal(Rows(st, h, dates), i) == LiveSignal(st, UpTo(h, dates[i]))
  }

  lemma LiveReads(st: Strategy, h: History, d: int, e: int)
    requires Causal(st) && LastOwn(h, d, e)
    ensures var rows := LiveRows(st, UpTo(h, d)); rows != [] && rows[|rows| - 1] == LiveRow(st, h, e)
  {
    LatestIsLast(h, d, e);
    LiveRowOfPast(st, h, d, e);
  }

  lemma CurrentAlike(st: Strategy, h: History, dates: seq<int>, i: nat, e: int)
    requires Causal(st) && Covers(dates, h) && OnOwnDays(st) && i < |dates| && LastOwn(h, dates[i], e)
    requires ReadsCurrent(st) && GapFree(st, h, e)
    ensures DecideAlike(st, h, dates, i, e)
  {
    RowIsLiveExactly(st, h, dates, i, e);
    LiveReads(st, h, dates[i], e);
    assert e in UpTo(h, dates[i]);
    assert Rows(st, h, dates)[i] == LiveRow(st, h, e);
  }

  /** Swapping the decision leaves what is read as it was. */
  lemma SameRows(st: Strategy, other: Strategy, h: History, dates: seq<int>, d: int)
    requires other.names == st.names && other.compute == st.compute
    ensures Rows(other, h, dates) == Rows(st, h, dates) && LiveRows(other, UpTo(h, d)) == LiveRows(st, UpTo(h, d))
  {
  }

  /** Buys at one row and nowhere else. */
  function BuysAt(st: Strategy, row: Row): Strategy {
    st.(signal := (rows: seq<Row>, i: nat) => if i < |rows| && rows[i] == row then BuySignal else Hold)
  }

  lemma BuyerReadsCurrent(st: Strategy, row: Row)
    ensures ReadsCurrent(BuysAt(st, row))
  {
  }

  lemma BuyerDiffers(st: Strategy, rows: seq<Row>, i: nat, live: seq<Row>, k: nat)
    requires i < |rows| && k < |live| && rows[i] != live[k]
    ensures BuysAt(st, rows[i]).signal(rows, i) != BuysAt(st, rows[i]).signal(live, k)
  {
  }

  lemma GapTells(st: Strategy, h: History, dates: seq<int>, i: nat, e: int)
    requires Causal(st) && Covers(dates, h) && OnOwnDays(st) && i < |dates| && LastOwn(h, dates[i], e) && !GapFree(st, h, e)
    ensures !DecideAlike(BuysAt(st, RowAt(st, h, dates, i)), h, dates, i, e)
  {
    var rows, live := Rows(st, h, dates), LiveRows(st, UpTo(h, dates[i]));
    RowIsLiveExactly(st, h, dates, i, e);
    LiveReads(st, h, dates[i], e);
    SameRows(st, BuysAt(st, rows[i]), h, dates, dates[i]);
    assert e in UpTo(h, dates[i]);
    var last := |live| - 1;
    BuyerDiffers(st, rows, i, live, last);
  }

  /** Every strategy on these indicators that reads the current row decides as it would live, exactly without a gap. */
  lemma CurrentReadersAlikeExactly(st: Strategy, h: History, dates: seq<int>, i: nat, e: int)
    requires Causal(st) && Covers(dates, h) && OnOwnDays(st) && i < |dates| && LastOwn(h, dates[i], e)
    ensures (forall signal :: ReadsCurrent(st.(signal := signal)) ==> DecideAlike(st.(signal := signal), h, dates, i, e))
       <==> GapFree(st, h, e)
  {
    if GapFree(st, h, e) {
      forall signal | ReadsCurrent(st.(signal := signal))
        ensures DecideAlike(st.(signal := signal), h, dates, i, e)
      {
        CurrentAlike(st.(signal := signal), h, dates, i, e);
      }
    } else {
      GapTells(st, h, dates, i, e);
      var other := BuysAt(st, RowAt(st, h, dates, i));
      BuyerReadsCurrent(st, RowAt(st, h, dates, i));
      assert other == st.(signal := other.signal);
    }
  }

  // ------------------------------------------ strategies that read two rows

  /** What is read where there is no row. */
  function Blank(st: Strategy): Row {
    Row(None, map name | name in st.names :: None, 0)
  }

  function Previous(st: Strategy, rows: seq<Row>, i: nat): Row {
    if 0 < i <= |rows| then rows[i - 1] else Blank(st)
  }

  predicate SameLastTwo(st: Strategy, rows: seq<Row>, i: nat, rows': seq<Row>, k: nat)
    requires i < |rows| && k < |rows'|
  {
    rows[i] == rows'[k] && Previous(st, rows, i) == Previous(st, rows', k)
  }

  /** A decision depends on the current row and the one before it. */
  ghost predicate ReadsLastTwo(st: Strategy) {
    forall rows, rows', i, k :: 0 <= i < |rows| && 0 <= k < |rows'| && SameLastTwo(st, rows, i, rows', k) ==>
      st.signal(rows, i) == st.signal(rows', k)
  }

  ghost predicate NeverGaps(st: Strategy, h: History) {
    forall e :: e in h ==> GapFree(st, h, e)
  }

  /** The row before the current one on the shared calendar. */
  function SharedPrevious(st: Strategy, h: History, dates: seq<int>, i: nat): Row {
    Previous(st, Rows(st, h, dates), i)
  }

  /** The row of the own day before the latest one up to `d`. */
  ghost function LivePrevious(st: Strategy, h: History, d: int): Row {
    var rows := LiveRows(st, UpTo(h, d));
    if rows == [] then Blank(st) else
      var last := |rows| - 1;
      Previous(st, rows, last)
  }

  lemma BeforeListing(st: Strategy, h: History, dates: seq<int>, i: nat)
    requires Covers(dates, h) && OnOwnDays(st) && i < |dates| && forall f :: f in h ==> f > dates[i]
    ensures RowAt(st, h, dates, i) == Blank(st)
  {
    SeriesOnCalendar(st, h, dates);
    CarriedIsLatest(CloseSeries(h), dates, i);
    CarriedIsLatest(PricedSeries(h), dates, i);
    forall name | name in st.names
      ensures Carried(st.compute(h, name), dates, i) == None
    {
      CarriedIsLatest(st.compute(h, name), dates, i);
      assert st.compute(h, name).Keys == h.Keys;
    }
  }

  lemma RowRepeats(st: Strategy, h: History, dates: seq<int>, i: nat, before: nat)
    requires OnOwnDays(st) && i < |dates| && before + 1 == i && dates[i] !in h
    ensures RowAt(st, h, dates, before) == RowAt(st, h, dates, i)
  {
    forall name | name in st.names
      ensures Carried(st.compute(h, name), dates, i) == Carried(st.compute(h, name), dates, before)
    {
      assert st.compute(h, name).Keys == h.Keys;
    }
  }

  /** Off its own days a ticker's row only repeats the one before. */
  lemma OffDayRepeats(st: Strategy, h: History, dates: seq<int>, i: nat, e: int)
    requires Covers(dates, h) && OnOwnDays(st) && i < |dates| && LastOwn(h, dates[i], e) && dates[i] !in h
    ensures SharedPrevious(st, h, dates, i) == RowAt(st, h, dates, i)
  {
    NothingBetween(CloseSeries(h), dates, i, e);
    RowRepeats(st, h, dates, i, i - 1);
  }

  /** The count of priced bars goes up by one on every own day with a close, and stays on every other. */
  lemma PricedBarsCountUp(h: History, d: int, before: int)
    requires before == d - 1
    ensures |PricedDays(h, d)| == |PricedDays(h, before)| + if d in h && h[d].close.Some? then 1 else 0
    ensures (forall e :: e in h ==> e > d) ==> |PricedDays(h, d)| == 0
  {
    if d in h && h[d].close.Some? {
      assert PricedDays(h, d) == PricedDays(h, before) + {d};
    } else {
      assert PricedDays(h, d) == PricedDays(h, before);
    }
    if forall e :: e in h ==> e > d {
      assert PricedDays(h, d) == {};
    }
  }

  /** A row counts the priced bars of its ticker up to and including its date. */
  lemma RowCountsPricedBars(st: Strategy, h: History, dates: seq<int>, i: nat, e: int)
    requires Covers(dates, h) && OnOwnDays(st) && i < |dates| && LastOwn(h, dates[i], e)
    ensures RowAt(st, h, dates, i).priced == |PricedDays(h, dates[i])|
  {
    SeriesOnCalendar(st, h, dates);
    CarriedAtLast(PricedSeries(h), dates, i, e);
    assert PricedDays(h, e) == PricedDays(h, dates[i]);
  }

  /** In an ascending list what comes before the last item is the greatest of the smaller ones. */
  lemma NextToLast(days: seq<int>, k: nat, f: int)
    requires Increasing(days) && k + 1 == |days| && f in days && f < days[k]
    requires forall x :: x in days && x < days[k] ==> x <= f
    ensures k > 0 && days[k - 1] == f
  {
    var m :| 0 <= m < |days| && days[m] == f;
    assert m < k;
    assert days[k - 1] in days;
  }

  lemma DaysBefore(h: History, d: int, e: int, f: int, days: seq<int>, k: nat)
    requires LastOwn(h, d, e) && LastOwn(h, e - 1, f) && Increasing(days) && k + 1 == |days| && days[k] == e
    requires forall x :: x in days <==> x in h && x <= d
    ensures k > 0 && days[k - 1] == f
  {
    NextToLast(days, k, f);
  }

  lemma DayBeforeAt(h: History, d: int, e: int, f: int, k: nat)
    requires LastOwn(h, d, e) && LastOwn(h, e - 1, f) && k + 1 == |OwnDays(UpTo(h, d))|
    ensures k > 0 && OwnDays(UpTo(h, d))[k - 1] == f
  {
    var days := PastDays(h, d);
    LatestIsLast(h, d, e);
    DaysBefore(h, d, e, f, days, k);
  }

  lemma PreviousAt(st: Strategy, past: History, k: nat)
    requires 0 < k < |OwnDays(past)|
    ensures Previous(st, LiveRows(st, past), k) == LiveRow(st, past, OwnDays(past)[k - 1])
  {
  }

  /** The live path reads the own day before the latest one. */
  lemma LivePreviousIs(st: Strategy, h: History, d: int, e: int, f: int)
    requires Causal(st) && LastOwn(h, d, e) && LastOwn(h, e - 1, f)
    ensures LivePrevious(st, h, d) == LiveRow(st, h, f)
  {
    LatestIsLast(h, d, e);
    var k := |OwnDays(UpTo(h, d))| - 1;
    DayBeforeAt(h, d, e, f, k);
    PreviousAt(st, UpTo(h, d), k);
    LiveRowOfPast(st, h, d, f);
  }

  lemma LivePreviousIsBlank(st: Strategy, h: History, d: int, e: int)
    requires LastOwn(h, d, e) && forall f :: f in h ==> f >= e
    ensures LivePrevious(st, h, d) == Blank(st)
  {
    var days := PastDays(h, d);
    LatestIsLast(h, d, e);
    assert days[0] in days;
    assert |days| == 1;
  }

  lemma Greatest(days: seq<int>, x: int) returns (f: int)
    requires Increasing(days) && x in days
    ensures f in days && forall y :: y in days ==> y <= f
  {
    f := days[|days| - 1];
  }

  /** The latest own day before `e`, if there is any. */
  lemma DayBefore(h: History, e: int) returns (f: int)
    requires exists x :: x in h && x < e
    ensures LastOwn(h, e - 1, f)
  {
    var x :| x in h && x < e;
    var days := PastDays(h, e - 1);
    f := Greatest(days, x);
  }

  /** On an own day the row before is the live one, however many other days lie between. */
  lemma OwnDayPrevious(st: Strategy, h: History, dates: seq<int>, i: nat)
    requires Causal(st) && Covers(dates, h) && OnOwnDays(st) && NeverGaps(st, h) && i < |dates| && dates[i] in h
    ensures SharedPrevious(st, h, dates, i) == LivePrevious(st, h, dates[i])
  {
    var e := dates[i];
    if exists x :: x in h && x < e {
      var f := DayBefore(h, e);
      PreviousIsLive(st, h, dates, i, f);
      LivePreviousIs(st, h, e, e, f);
    } else {
      LivePreviousIsBlank(st, h, e, e);
      if i > 0 {
        var before := i - 1;
        assert dates[before] < e;
        BeforeListing(st, h, dates, before);
      }
    }
  }

  lemma PreviousIsLive(st: Strategy, h: History, dates: seq<int>, i: nat, e: int)
    requires Covers(dates, h) && OnOwnDays(st) && NeverGaps(st, h) && i < |dates| && LastOwn(h, dates[i] - 1, e)
    ensures SharedPrevious(st, h, dates, i) == LiveRow(st, h, e)
  {
    NothingBetween(CloseSeries(h), dates, i, e);
    var before := i - 1;
    assert dates[before] < dates[i];
    RowIsLiveExactly(st, h, dates, before, e);
  }

  lemma TwoAlike(st: Strategy, h: History, dates: seq<int>, i: nat, e: int)
    requires Causal(st) && Covers(dates, h) && OnOwnDays(st) && i < |dates| && LastOwn(h, dates[i], e)
    requires ReadsLastTwo(st) && GapFree(st, h, e) && SharedPrevious(st, h, dates, i) == LivePrevious(st, h, dates[i])
    ensures DecideAlike(st, h, dates, i, e)
  {
    var rows, live := Rows(st, h, dates), LiveRows(st, UpTo(h, dates[i]));
    var last := |live| - 1;
    RowIsLiveExactly(st, h, dates, i, e);
    LiveReads(st, h, dates[i], e);
    assert e in UpTo(h, dates[i]);
    assert SameLastTwo(st, rows, i, live, last);
  }

  /** Buys where a row repeats the one before, as a crossover looks for where it does not. */
  function BuysRepeats(st: Strategy): Strategy {
    st.(signal := (rows: seq<Row>, i: nat) => if i < |rows| && Previous(st, rows, i) == rows[i] then BuySignal else Hold)
  }

  lemma RepeatsReadsLastTwo(st: Strategy)
    ensures ReadsLastTwo(BuysRepeats(st))
  {
    var other := BuysRepeats(st);
    forall rows, rows', i, k | 0 <= i < |rows| && 0 <= k < |rows'| && SameLastTwo(other, rows, i, rows', k)
      ensures other.signal(rows, i) == other.signal(rows', k)
    {
      assert Previous(other, rows, i) == Previous(st, rows, i) && Previous(other, rows', k) == Previous(st, rows', k);
    }
  }

  /** On a day only others traded, the previous own row is out of sight: it is the current one again. */
  lemma OffDayTells(st: Strategy, h: History, dates: seq<int>, i: nat, e: int)
    requires Causal(st) && Covers(dates, h) && OnOwnDays(st) && NeverGaps(st, h) && i < |dates| && LastOwn(h, dates[i], e)
    requires dates[i] !in h && LivePrevious(st, h, dates[i]) != LiveRow(st, h, e)
    ensures !DecideAlike(BuysRepeats(st), h, dates, i, e)
  {
    var other := BuysRepeats(st);
    OffDayRepeats(st, h, dates, i, e);
    LiveReads(st, h, dates[i], e);
    SameRows(st, other, h, dates, dates[i]);
    assert e in UpTo(h, dates[i]);
    assert other.signal(Rows(st, h, dates), i) == BuySignal;
    var live := LiveRows(st, UpTo(h, dates[i]));
    var last := |live| - 1;
    assert other.signal(live, last) == Hold;
  }

  /**
   Every strategy on these indicators that reads the current row and the one before decides as it would
   live if and only if the date is one of the ticker's own days or its last two own rows are the same.
   */
  lemma LastTwoReadersAlikeExactly(st: Strategy, h: History, dates: seq<int>, i: nat, e: int)
    requires Causal(st) && Covers(dates, h) && OnOwnDays(st) && NeverGaps(st, h) && i < |dates| && LastOwn(h, dates[i], e)
    ensures (forall signal :: ReadsLastTwo(st.(signal := signal)) ==> DecideAlike(st.(signal := signal), h, dates, i, e))
       <==> dates[i] in h || LivePrevious(st, h, dates[i]) == LiveRow(st, h, e)
  {
    if dates[i] in h || LivePrevious(st, h, dates[i]) == LiveRow(st, h, e) {
      PreviousAgrees(st, h, dates, i, e);
      forall signal | ReadsLastTwo(st.(signal := signal))
        ensures DecideAlike(st.(signal := signal), h, dates, i, e)
      {
        var other := st.(signal := signal);
        SameRows(st, other, h, dates, dates[i]);
        TwoAlike(other, h, dates, i, e);
      }
    } else {
      OffDayTells(st, h, dates, i, e);
      RepeatsReadsLastTwo(st);
      assert BuysRepeats(st) == st.(signal := BuysRepeats(st).signal);
    }
  }

  lemma PreviousAgrees(st: Strategy, h: History, dates: seq<int>, i: nat, e: int)
    requires Causal(st) && Covers(dates, h) && OnOwnDays(st) && NeverGaps(st, h) && i < |dates| && LastOwn(h, dates[i], e)
    requires dates[i] in h || LivePrevious(st, h, dates[i]) == LiveRow(st, h, e)
    ensures SharedPrevious(st, h, dates, i) == LivePrevious(st, h, dates[i])
  {
    if dates[i] in h {
      OwnDayPrevious(st, h, dates, i);
    } else {
      OffDayRepeats(st, h, dates, i, e);
      RowIsLiveExactly(st, h, dates, i, e);
    }
  }

  /** The failing family: two own days with different closes, and then a day only others traded. */
  lemma QuietDayDiffers(st: Strategy, h: History, dates: seq<int>, i: nat, e: int, f: int)
    requires Causal(st) && Covers(dates, h) && OnOwnDays(st) && NeverGaps(st, h) && i < |dates| && dates[i] !in h
    requires LastOwn(h, dates[i], e) && LastOwn(h, e - 1, f) && h[e].close != h[f].close
    ensures ReadsLastTwo(BuysRepeats(st)) && !DecideAlike(BuysRepeats(st), h, dates, i, e)
  {
    LivePreviousIs(st, h, dates[i], e, f);
    OffDayTells(st, h, dates, i, e);
    RepeatsReadsLastTwo(st);
  }
}
