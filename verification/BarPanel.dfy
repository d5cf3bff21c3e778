/** Per-ticker bars aligned onto one trading calendar. */
module BarPanel {
  import opened Outcomes
  import opened Ordering

  datatype Column = Open | High | Low | Close

  /** One day's bar; an empty cell is a price that is not there. */
  datatype Bar = Bar(open: Option<real>, high: Option<real>, low: Option<real>, close: Option<real>, volume: Option<real>) {
    function Price(c: Column): Option<real> {
      match c
      case Open => open
      case High => high
      case Low => low
      case Close => close
    }
  }

  /** The days a ticker traded, each with its bar. */
  type History = map<int, Bar>

  datatype Aligned = Aligned(prices: map<Column, seq<Option<real>>>, volume: seq<real>)

  datatype Panel = Panel(dates: seq<int>, frames: map<string, Aligned>, close: map<string, seq<Option<real>>>,
                         sources: map<string, History>)

  const BAR_VOLUME_FILL := 0.0
  const BAR_PRICE_COLUMNS: seq<Column> := [Open, High, Low, Close]

  // ---------------------------------------------------------- what alignment means

  /** No own trading day in the range has a price in the column. */
  ghost predicate NoPriceIn(h: History, c: Column, after: int, upTo: int) {
    forall e :: e in h && after < e <= upTo ==> h[e].Price(c).None?
  }

  /** The price at the latest own trading day at or before `d` that has one, none if there is none. */
  ghost predicate IsAsOf(h: History, c: Column, d: int, price: Option<real>) {
    if price.None? then forall e :: e in h && e <= d ==> h[e].Price(c).None?
    else exists e :: e in h && e <= d && h[e].Price(c) == price && NoPriceIn(h, c, e, d)
  }

  function VolumeOn(h: History, d: int): real {
    if d in h then h[d].volume.GetOr(BAR_VOLUME_FILL) else BAR_VOLUME_FILL
  }

  lemma AsOfUnique(h: History, c: Column, d: int, p: Option<real>, q: Option<real>)
    requires IsAsOf(h, c, d, p) && IsAsOf(h, c, d, q)
    ensures p == q
  {
    if p.Some? && q.Some? {
      var e :| e in h && e <= d && h[e].Price(c) == p && NoPriceIn(h, c, e, d);
      var f :| f in h && f <= d && h[f].Price(c) == q && NoPriceIn(h, c, f, d);
    }
  }

  // -------------------------------------------------------------- forward filling

  ghost predicate Increasing(dates: seq<int>) {
    forall i, j :: 0 <= i < j < |dates| ==> dates[i] < dates[j]
  }

  /** The calendar has every own trading day. */
  ghost predicate Covers(dates: seq<int>, h: History) {
    Increasing(dates) && forall e :: e in h ==> e in dates
  }

  function Cell(h: History, c: Column, d: int): Option<real> {
    if d in h then h[d].Price(c) else None
  }

  /** One calendar day later, the price is the new cell if it has one and the old price otherwise. */
  lemma CarryForward(h: History, c: Column, dates: seq<int>, i: nat, before: Option<real>)
    requires Covers(dates, h) && i < |dates|
    requires if i == 0 then before.None? else IsAsOf(h, c, dates[i - 1], before)
    ensures IsAsOf(h, c, dates[i], if Cell(h, c, dates[i]).Some? then Cell(h, c, dates[i]) else before)
  {
    var d := dates[i];
    forall e | e in h && e < d
      ensures i > 0 && e <= dates[i - 1]
    {
      var k :| 0 <= k < |dates| && dates[k] == e;
    }
    if Cell(h, c, d).Some? {
      assert NoPriceIn(h, c, d, d);
    } else if before.Some? {
      var e :| e in h && e <= dates[i - 1] && h[e].Price(c) == before && NoPriceIn(h, c, e, dates[i - 1]);
      assert NoPriceIn(h, c, e, d);
    }
  }

  /** One column, filled forward in one pass over the calendar. */
  method FillColumn(h: History, dates: seq<int>, c: Column) returns (filled: seq<Option<real>>)
    requires Covers(dates, h)
    ensures |filled| == |dates| && forall i :: 0 <= i < |dates| ==> IsAsOf(h, c, dates[i], filled[i])
  {
    filled := [];
    var last: Option<real> := None;
    for i := 0 to |dates|
      invariant |filled| == i && forall k :: 0 <= k < i ==> IsAsOf(h, c, dates[k], filled[k])
      invariant if i == 0 then last.None? else IsAsOf(h, c, dates[i - 1], last)
    {
      CarryForward(h, c, dates, i, last);
      if dates[i] in h && h[dates[i]].Price(c).Some? {
        last := h[dates[i]].Price(c);
      }
      filled := filled + [last];
    }
  }

  ghost predicate IsAligned(h: History, dates: seq<int>, a: Aligned) {
    && |a.volume| == |dates|
    && (forall i :: 0 <= i < |dates| ==> a.volume[i] == VolumeOn(h, dates[i]))
    && forall c: Column :: ColumnAligned(h, dates, a, c)
  }

  ghost predicate ColumnAligned(h: History, dates: seq<int>, a: Aligned, c: Column) {
    && c in a.prices && |a.prices[c]| == |dates|
    && forall i :: 0 <= i < |dates| ==> IsAsOf(h, c, dates[i], a.prices[c][i])
  }

  method AlignHistory(h: History, dates: seq<int>) returns (a: Aligned)
    requires Covers(dates, h)
    ensures IsAligned(h, dates, a)
  {
    var prices: map<Column, seq<Option<real>>> := map[];
    for k := 0 to |BAR_PRICE_COLUMNS|
      invariant forall j :: 0 <= j < k ==> ColumnAligned(h, dates, Aligned(prices, []), BAR_PRICE_COLUMNS[j])
    {
      var c := BAR_PRICE_COLUMNS[k];
      var filled := FillColumn(h, dates, c);
      prices := prices[c := filled];
    }
    var volume := seq(|dates|, i requires 0 <= i < |dates| => VolumeOn(h, dates[i]));
    a := Aligned(prices, volume);
    forall c: Column
      ensures ColumnAligned(h, dates, a, c)
    {
      var j := match c case Open => 0 case High => 1 case Low => 2 case Close => 3;
      assert ColumnAligned(h, dates, Aligned(prices, []), BAR_PRICE_COLUMNS[j]);
    }
  }

  // --------------------------------------------------------------- the panel

  ghost predicate IsPanel(histories: map<string, History>, tickers: seq<string>, p: Panel) {
    && (forall t :: t in tickers ==> t in histories)
    && Increasing(p.dates)
    && (forall d :: d in p.dates <==> exists t :: t in tickers && d in histories[t])
    && p.frames.Keys == p.close.Keys == p.sources.Keys == (set t | t in tickers)
    && forall t :: t in tickers ==> TickerAligned(histories, p, t)
  }

  ghost predicate TickerAligned(histories: map<string, History>, p: Panel, t: string) {
    && t in histories && t in p.frames && t in p.close && t in p.sources
    && IsAligned(histories[t], p.dates, p.frames[t])
    && ColumnAligned(histories[t], p.dates, p.frames[t], Close)
    && p.close[t] == p.frames[t].prices[Close]
    && p.sources[t] == histories[t]
  }

  /** The price a panel shows. */
  ghost function Shown(p: Panel, t: string, c: Column, i: nat): Option<real> {
    if t in p.frames && c in p.frames[t].prices && i < |p.frames[t].prices[c]| then p.frames[t].prices[c][i] else None
  }

  ghost function VolumeShown(p: Panel, t: string, i: nat): real {
    if t in p.frames && i < |p.frames[t].volume| then p.frames[t].volume[i] else 0.0
  }

  /** What a panel shows is the price as of its date, computed from the ticker's own history alone. */
  lemma ShownIsAsOf(histories: map<string, History>, tickers: seq<string>, p: Panel, t: string, i: nat, c: Column)
    requires IsPanel(histories, tickers, p) && t in tickers && i < |p.dates|
    ensures IsAsOf(histories[t], c, p.dates[i], Shown(p, t, c, i))
    ensures VolumeShown(p, t, i) == VolumeOn(histories[t], p.dates[i])
    ensures t in p.close && i < |p.close[t]| && p.close[t][i] == Shown(p, t, Close, i)
  {
    assert TickerAligned(histories, p, t);
    assert ColumnAligned(histories[t], p.dates, p.frames[t], c);
  }

  method UnionCalendar(histories: map<string, History>, tickers: seq<string>) returns (dates: seq<int>)
    requires forall t :: t in tickers ==> t in histories
    ensures Increasing(dates)
    ensures forall d :: d in dates <==> exists t :: t in tickers && d in histories[t]
  {
    var calendar: set<int> := {};
    for k := 0 to |tickers|
      invariant forall d :: d in calendar <==> exists j :: 0 <= j < k && d in histories[tickers[j]]
    {
      calendar := calendar + histories[tickers[k]].Keys;
    }
    forall d
      ensures d in calendar <==> exists t :: t in tickers && d in histories[t]
    {
      TradedByPosition(histories, tickers, d);
    }
    dates := SortInts(calendar);
  }

  lemma TradedByPosition(histories: map<string, History>, tickers: seq<string>, d: int)
    requires forall t :: t in tickers ==> t in histories
    ensures (exists j :: 0 <= j < |tickers| && d in histories[tickers[j]]) <==> (exists t :: t in tickers && d in histories[t])
  {
    if t :| t in tickers && d in histories[t] {
      var j :| 0 <= j < |tickers| && tickers[j] == t;
    }
    if j :| 0 <= j < |tickers| && d in histories[tickers[j]] {
      assert tickers[j] in tickers;
    }
  }

  method AlignAll(histories: map<string, History>, tickers: seq<string>, dates: seq<int>) returns (frames: map<string, Aligned>)
    requires forall t :: t in tickers ==> t in histories && Covers(dates, histories[t])
    ensures frames.Keys == set t | t in tickers
    ensures forall t :: t in tickers ==> t in frames && IsAligned(histories[t], dates, frames[t])
  {
    frames := map[];
    for k := 0 to |tickers|
      invariant frames.Keys == set t | t in tickers[..k]
      invariant forall t :: t in frames ==> t in tickers && IsAligned(histories[t], dates, frames[t])
    {
      var a := AlignHistory(histories[tickers[k]], dates);
      frames := frames[tickers[k] := a];
      assert tickers[..k + 1] == tickers[..k] + [tickers[k]];
    }
    assert tickers[..|tickers|] == tickers;
  }

  method BuildBarPanel(histories: map<string, History>, tickers: seq<string>) returns (r: Result<Panel, set<string>>)
    ensures r.Success? <==> forall t :: t in tickers ==> t in histories
    ensures r.Failure? ==> r.error == (set t | t in tickers && t !in histories)
    ensures r.Success? ==> IsPanel(histories, tickers, r.value)
  {
    var missing := set t | t in tickers && t !in histories;
    if missing != {} {
      return Failure(missing);
    }
    forall t | t in tickers
      ensures t in histories
    {
      assert t !in missing;
    }
    var dates := UnionCalendar(histories, tickers);
    var frames := AlignAll(histories, tickers, dates);
    forall t | t in tickers
      ensures ColumnAligned(histories[t], dates, frames[t], Close)
    {
      assert IsAligned(histories[t], dates, frames[t]);
    }
    var close := map t | t in frames :: frames[t].prices[Close];
    var sources := map t | t in frames :: histories[t];
    var panel := Panel(dates, frames, close, sources);
    assert forall t :: t in tickers ==> TickerAligned(histories, panel, t);
    return Success(panel);
  }

  // -------------------------------------------------------------- consequences

  /** On an own trading day with a price, the panel shows that price. */
  lemma OwnDayIsIdentity(histories: map<string, History>, tickers: seq<string>, p: Panel, t: string, i: nat, c: Column)
    requires IsPanel(histories, tickers, p) && t in tickers && i < |p.dates|
    requires Cell(histories[t], c, p.dates[i]).Some?
    ensures Shown(p, t, c, i) == Cell(histories[t], c, p.dates[i])
  {
    var h, d := histories[t], p.dates[i];
    ShownIsAsOf(histories, tickers, p, t, i, c);
    assert NoPriceIn(h, c, d, d);
    AsOfUnique(h, c, d, Shown(p, t, c, i), Cell(h, c, d));
  }

  /** Off its own trading days a ticker has no volume; before its first bar it has no prices. */
  lemma OffDays(histories: map<string, History>, tickers: seq<string>, p: Panel, t: string, i: nat, c: Column)
    requires IsPanel(histories, tickers, p) && t in tickers && i < |p.dates|
    ensures p.dates[i] !in histories[t] ==> VolumeShown(p, t, i) == 0.0
    ensures (forall e :: e in histories[t] ==> p.dates[i] < e) ==> Shown(p, t, c, i).None?
  {
    ShownIsAsOf(histories, tickers, p, t, i, c);
  }

  /** Other tickers in the universe never change a ticker's values on a date both panels have. */
  lemma OtherTickersChangeNothing(histories: map<string, History>, a: seq<string>, b: seq<string>, p: Panel, q: Panel,
                                  t: string, i: nat, j: nat, c: Column)
    requires IsPanel(histories, a, p) && IsPanel(histories, b, q) && t in a && t in b
    requires i < |p.dates| && j < |q.dates| && p.dates[i] == q.dates[j]
    ensures Shown(p, t, c, i) == Shown(q, t, c, j)
    ensures VolumeShown(p, t, i) == VolumeShown(q, t, j)
  {
    ShownIsAsOf(histories, a, p, t, i, c);
    ShownIsAsOf(histories, b, q, t, j, c);
    AsOfUnique(histories[t], c, p.dates[i], Shown(p, t, c, i), Shown(q, t, c, j));
  }

  lemma AsOfPersists(h: History, c: Column, d: int, later: int, p: Option<real>, q: Option<real>)
    requires IsAsOf(h, c, d, p) && IsAsOf(h, c, later, q) && d <= later
    ensures p.Some? ==> q.Some?
  {
  }

  /** Once a column has a price it keeps one: marks never disappear. */
  lemma PricesPersist(histories: map<string, History>, tickers: seq<string>, p: Panel, t: string, i: nat, j: nat, c: Column)
    requires IsPanel(histories, tickers, p) && t in tickers && i <= j < |p.dates|
    ensures Shown(p, t, c, i).Some? ==> Shown(p, t, c, j).Some?
  {
    assert p.dates[i] <= p.dates[j];
    ShownIsAsOf(histories, tickers, p, t, i, c);
    ShownIsAsOf(histories, tickers, p, t, j, c);
    AsOfPersists(histories[t], c, p.dates[i], p.dates[j], Shown(p, t, c, i), Shown(p, t, c, j));
  }
}
