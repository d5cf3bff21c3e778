/** What a signal reads: indicators of a ticker's own bars, carried onto the shared calendar. */
module SignalInputs {
  import opened Outcomes
  import opened BarPanel
  import Simulation

  /** A ticker's inputs at one calendar position. */
  datatype Row = Row(close: Option<real>, values: map<string, Option<real>>, priced: nat)

  /** A series over a ticker's own trading days; an empty entry is a value that is not there. */
  type Series<T> = map<int, Option<T>>

  /**
   A strategy: named indicators, each computed from the ticker's own bars, and a decision read off
   the rows of the shared calendar at one position.
   */
  datatype Strategy = Strategy(names: set<string>, compute: (History, string) -> Series<real>,
                               signal: (seq<Row>, nat) -> Simulation.Signal)

  // --------------------------------------------------------------- carrying

  /** The series on the calendar: each value holds until the ticker's next one. */
  function Carried<T>(series: Series<T>, dates: seq<int>, i: int): Option<T>
    requires i < |dates|
    decreases i + 1
  {
    if i < 0 then None
    else if dates[i] in series && series[dates[i]].Some? then series[dates[i]]
    else
      var before := i - 1;
      Carried(series, dates, before)
  }

  function CloseSeries(h: History): Series<real> {
    map e | e in h :: h[e].close
  }

  function PricedDays(h: History, d: int): set<int> {
    set e | e in h && e <= d && h[e].close.Some?
  }

  /** On each own day, how many own days up to it had a usable close. */
  function PricedSeries(h: History): Series<nat> {
    map e | e in h :: Some(|PricedDays(h, e)|)
  }

  function RowAt(st: Strategy, h: History, dates: seq<int>, i: nat): Row
    requires i < |dates|
  {
    Row(Carried(CloseSeries(h), dates, i),
        map name | name in st.names :: Carried(st.compute(h, name), dates, i),
        Carried(PricedSeries(h), dates, i).GetOr(0))
  }

  /** A ticker's rows, one for each date of the calendar. */
  function Rows(st: Strategy, h: History, dates: seq<int>): (rows: seq<Row>)
    ensures |rows| == |dates|
  {
    seq(|dates|, i requires 0 <= i < |dates| => RowAt(st, h, dates, i))
  }

  /** The decisions a strategy reads off every ticker's rows. */
  function PlanOf(st: Strategy, inputs: map<string, seq<Row>>): Simulation.Plan {
    map t | t in inputs :: seq(|inputs[t]|, i requires 0 <= i < |inputs[t]| => st.signal(inputs[t], i))
  }

  /** Every ticker's rows on the panel's calendar, from the bars the panel keeps as its sources. */
  function PanelInputs(st: Strategy, p: Panel): map<string, seq<Row>> {
    map t | t in p.sources :: Rows(st, p.sources[t], p.dates)
  }

  // ------------------------------------------------------------- assumptions

  /** The two histories have the same bars on every day up to and including `d`. */
  ghost predicate AgreeUpTo(h: History, h': History, d: int) {
    forall e :: e <= d ==> (e in h <==> e in h') && (e in h ==> h[e] == h'[e])
  }

  ghost predicate SeriesAgree<T>(x: Series<T>, y: Series<T>, d: int) {
    forall e :: e <= d ==> (e in x <==> e in y) && (e in x ==> x[e] == y[e])
  }

  /** An indicator's value on an own day depends on the own bars up to that day. */
  ghost predicate Causal(st: Strategy) {
    forall h, h', d, name :: name in st.names && AgreeUpTo(h, h', d) ==>
      SeriesAgree(st.compute(h, name), st.compute(h', name), d)
  }

  /** A decision at a position reads rows up to it only. */
  ghost predicate ReadsPast(st: Strategy) {
    forall rows, rows', i :: 0 <= i < |rows| && i < |rows'| && rows[..i + 1] == rows'[..i + 1] ==>
      st.signal(rows, i) == st.signal(rows', i)
  }

  /** The own bars up to and including a day. */
  function UpTo(h: History, d: int): History {
    map e | e in h && e <= d :: h[e]
  }

  /** An indicator that works out each own day from the bars up to that day. */
  function Rolling(g: History -> Option<real>, h: History): Series<real> {
    map e | e in h :: g(UpTo(h, e))
  }

  /** Rolling indicators are causal: every strategy built from them meets the assumption. */
  lemma RollingIsCausal(st: Strategy, window: string -> History -> Option<real>)
    requires forall h, name :: name in st.names ==> st.compute(h, name) == Rolling(window(name), h)
    ensures Causal(st)
  {
    forall h, h', d, name | name in st.names && AgreeUpTo(h, h', d)
      ensures SeriesAgree(st.compute(h, name), st.compute(h', name), d)
    {
      forall e | e <= d
        ensures UpTo(h, e) == UpTo(h', e)
      {
      }
    }
  }

  // -------------------------------------------------- rows look back, not ahead

  /** The calendars share their first dates, up to position `i`. */
  ghost predicate SameDates(dates: seq<int>, dates': seq<int>, i: nat) {
    i < |dates| && i < |dates'| && dates[..i + 1] == dates'[..i + 1]
  }

  /** Carrying forward is the only step between days, and it brings nothing from later ones. */
  lemma {:induction false} CarriedAgree<T>(x: Series<T>, y: Series<T>, dates: seq<int>, dates': seq<int>, i: nat)
    requires SameDates(dates, dates', i) && Increasing(dates) && SeriesAgree(x, y, dates[i])
    ensures Carried(x, dates, i) == Carried(y, dates', i)
  {
    assert dates[i] == dates[..i + 1][i] == dates'[i];
    if i > 0 {
      var before := i - 1;
      assert dates[..before + 1] == dates[..i + 1][..before + 1] == dates'[..before + 1];
      assert dates[before] < dates[i];
      CarriedAgree(x, y, dates, dates', before);
    }
  }

  lemma OwnSeriesAgree(h: History, h': History, d: int)
    requires AgreeUpTo(h, h', d)
    ensures SeriesAgree(CloseSeries(h), CloseSeries(h'), d) && SeriesAgree(PricedSeries(h), PricedSeries(h'), d)
  {
    forall e | e <= d && e in h
      ensures PricedDays(h, e) == PricedDays(h', e)
    {
      forall f
        ensures f in PricedDays(h, e) <==> f in PricedDays(h', e)
      {
      }
    }
  }

  /** A row is fixed by the ticker's own bars up to its date. */
  lemma RowSeesPastOnly(st: Strategy, h: History, h': History, dates: seq<int>, dates': seq<int>, i: nat)
    requires Causal(st) && SameDates(dates, dates', i) && Increasing(dates) && AgreeUpTo(h, h', dates[i])
    ensures RowAt(st, h, dates, i) == RowAt(st, h', dates', i)
  {
    OwnSeriesAgree(h, h', dates[i]);
    CarriedAgree(CloseSeries(h), CloseSeries(h'), dates, dates', i);
    CarriedAgree(PricedSeries(h), PricedSeries(h'), dates, dates', i);
    forall name | name in st.names
      ensures Carried(st.compute(h, name), dates, i) == Carried(st.compute(h', name), dates', i)
    {
      assert SeriesAgree(st.compute(h, name), st.compute(h', name), dates[i]);
      CarriedAgree(st.compute(h, name), st.compute(h', name), dates, dates', i);
    }
  }

  /** A decision at a date is fixed by the ticker's own bars up to that date. */
  lemma SignalSeesPastOnly(st: Strategy, h: History, h': History, dates: seq<int>, dates': seq<int>, i: nat)
    requires Causal(st) && ReadsPast(st) && SameDates(dates, dates', i) && Increasing(dates) && AgreeUpTo(h, h', dates[i])
    ensures st.signal(Rows(st, h, dates), i) == st.signal(Rows(st, h', dates'), i)
  {
    var rows, rows' := Rows(st, h, dates), Rows(st, h', dates');
    forall k: nat | k <= i
      ensures rows[k] == rows'[k]
    {
      assert dates[..k + 1] == dates[..i + 1][..k + 1] == dates'[..k + 1];
      assert AgreeUpTo(h, h', dates[k]);
      RowSeesPastOnly(st, h, h', dates, dates', k);
    }
    assert rows[..i + 1] == rows'[..i + 1];
  }

  /**
   A decision read off inputs computed once over the whole run is the one read off inputs computed on
   that date, from the bars and the calendar there were.
   */
  lemma PrecomputedIsUpToDate(st: Strategy, h: History, dates: seq<int>, i: nat)
    requires Causal(st) && ReadsPast(st) && Increasing(dates) && i < |dates|
    ensures st.signal(Rows(st, h, dates), i) == st.signal(Rows(st, UpTo(h, dates[i]), dates[..i + 1]), i)
  {
    assert AgreeUpTo(h, UpTo(h, dates[i]), dates[i]);
    SignalSeesPastOnly(st, h, UpTo(h, dates[i]), dates, dates[..i + 1], i);
  }

  // ----------------------------------------------- rows ignore other tickers

  /** The value at the latest own day at or before `d` that has one, none if there is none. */
  ghost predicate IsLatest<T>(series: Series<T>, d: int, v: Option<T>) {
    if v.None? then forall e :: e in series && e <= d ==> series[e].None?
    else exists e :: e in series && e <= d && series[e] == v && NoneAfter(series, e, d)
  }

  ghost predicate NoneAfter<T>(series: Series<T>, after: int, upTo: int) {
    forall e :: e in series && after < e <= upTo ==> series[e].None?
  }

  lemma LatestUnique<T>(series: Series<T>, d: int, v: Option<T>, w: Option<T>)
    requires IsLatest(series, d, v) && IsLatest(series, d, w)
    ensures v == w
  {
  }

  ghost predicate OnCalendar<T>(series: Series<T>, dates: seq<int>) {
    Increasing(dates) && forall e :: e in series ==> e in dates
  }

  lemma NothingBetween<T>(series: Series<T>, dates: seq<int>, i: nat, e: int)
    requires OnCalendar(series, dates) && i < |dates| && e in series && e < dates[i]
    ensures i > 0 && e <= dates[i - 1]
  {
    var k :| 0 <= k < |dates| && dates[k] == e;
  }

  /** On a calendar that has every own day, carrying gives the latest own value. */
  lemma {:induction false} CarriedIsLatest<T>(series: Series<T>, dates: seq<int>, i: nat)
    requires OnCalendar(series, dates) && i < |dates|
    ensures IsLatest(series, dates[i], Carried(series, dates, i))
  {
    var d := dates[i];
    forall e | e in series && e < d
      ensures i > 0 && e <= dates[i - 1]
    {
      NothingBetween(series, dates, i, e);
    }
    if d in series && series[d].Some? {
      assert NoneAfter(series, d, d);
    } else if i > 0 {
      var before := i - 1;
      CarriedIsLatest(series, dates, before);
      var v := Carried(series, dates, before);
      if v.Some? {
        var e :| e in series && e <= dates[before] && series[e] == v && NoneAfter(series, e, dates[before]);
        assert NoneAfter(series, e, d);
      }
    }
  }

  /** Other tickers' trading days on the calendar never change a ticker's row on a given date. */
  lemma RowIgnoresOtherDays(st: Strategy, h: History, dates: seq<int>, dates': seq<int>, i: nat, j: nat)
    requires i < |dates| && j < |dates'| && dates[i] == dates'[j]
    requires OnCalendar(CloseSeries(h), dates) && OnCalendar(CloseSeries(h), dates')
    requires forall name :: name in st.names ==> st.compute(h, name).Keys <= h.Keys
    ensures RowAt(st, h, dates, i) == RowAt(st, h, dates', j)
  {
    LatestTwice(CloseSeries(h), dates, dates', i, j);
    LatestTwice(PricedSeries(h), dates, dates', i, j);
    forall name | name in st.names
      ensures Carried(st.compute(h, name), dates, i) == Carried(st.compute(h, name), dates', j)
    {
      LatestTwice(st.compute(h, name), dates, dates', i, j);
    }
  }

  lemma LatestTwice<T>(series: Series<T>, dates: seq<int>, dates': seq<int>, i: nat, j: nat)
    requires OnCalendar(series, dates) && OnCalendar(series, dates')
    requires i < |dates| && j < |dates'| && dates[i] == dates'[j]
    ensures Carried(series, dates, i) == Carried(series, dates', j)
  {
    CarriedIsLatest(series, dates, i);
    CarriedIsLatest(series, dates', j);
    LatestUnique(series, dates[i], Carried(series, dates, i), Carried(series, dates', j));
  }

  // ------------------------------------------------------ rows and the panel

  /** A row closes where the panel closes: signals and marks see the same price. */
  lemma RowCloseIsAsOf(st: Strategy, h: History, dates: seq<int>, i: nat)
    requires Covers(dates, h) && i < |dates|
    ensures IsAsOf(h, Close, dates[i], RowAt(st, h, dates, i).close)
  {
    var v := RowAt(st, h, dates, i).close;
    CarriedIsLatest(CloseSeries(h), dates, i);
    if v.Some? {
      var e :| e in CloseSeries(h) && e <= dates[i] && CloseSeries(h)[e] == v && NoneAfter(CloseSeries(h), e, dates[i]);
      forall f | f in h && e < f <= dates[i]
        ensures h[f].close.None?
      {
        assert f in CloseSeries(h) && CloseSeries(h)[f].None?;
      }
      assert NoPriceIn(h, Close, e, dates[i]);
    } else {
      forall f | f in h && f <= dates[i]
        ensures h[f].close.None?
      {
        assert f in CloseSeries(h);
      }
    }
  }

  /** Before its first usable close a ticker has no priced bars. */
  lemma NoCloseNoPricedBars(st: Strategy, h: History, dates: seq<int>, i: nat)
    requires Covers(dates, h) && i < |dates| && RowAt(st, h, dates, i).close.None?
    ensures RowAt(st, h, dates, i).priced == 0
  {
    CarriedIsLatest(CloseSeries(h), dates, i);
    CarriedIsLatest(PricedSeries(h), dates, i);
    var v := Carried(PricedSeries(h), dates, i);
    if v.Some? {
      var e :| e in PricedSeries(h) && e <= dates[i] && PricedSeries(h)[e] == v && NoneAfter(PricedSeries(h), e, dates[i]);
      forall f | f in h && f <= e
        ensures h[f].close.None?
      {
        assert f in CloseSeries(h) && CloseSeries(h)[f].None?;
      }
      assert PricedDays(h, e) == {};
    }
  }
}
