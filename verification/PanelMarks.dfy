/** The simulation's bars taken from an aligned panel: what alignment guarantees the run. */
module PanelMarks {
  import opened Outcomes
  import opened Accounting
  import opened Simulation
  import opened Attribution
  import opened MarkedRuns
  import opened SignalInputs
  import BarPanel

  /** A panel cell as a mark: an empty cell is not a number. */
  function MarkFrom(cell: Option<real>): Price {
    match cell
    case None => NaN
    case Some(v) => Num(v)
  }

  /** The simulation's bars: each date's month and every ticker's close on the panel. */
  ghost function BarsOf(p: BarPanel.Panel, monthOf: int -> int): (bars: seq<Bar>)
    ensures |bars| == |p.dates|
  {
    seq(|p.dates|, i requires 0 <= i < |p.dates| =>
      Bar(monthOf(p.dates[i]), map t | t in p.close :: MarkFrom(BarPanel.Shown(p, t, BarPanel.Close, i))))
  }

  lemma MarkOnPanel(histories: map<string, BarPanel.History>, tickers: seq<string>, p: BarPanel.Panel, monthOf: int -> int,
                    i: nat, t: string)
    requires BarPanel.IsPanel(histories, tickers, p) && i < |p.dates|
    ensures MarkOf(BarsOf(p, monthOf)[i].prices, t)
         == if t in tickers then MarkFrom(BarPanel.Shown(p, t, BarPanel.Close, i)) else NaN
  {
    assert t in p.close <==> t in (set x | x in tickers);
  }

  /** On bars from an aligned panel a ticker that has a mark keeps one. */
  lemma PanelMarksPersist(histories: map<string, BarPanel.History>, tickers: seq<string>, p: BarPanel.Panel, monthOf: int -> int)
    requires BarPanel.IsPanel(histories, tickers, p)
    ensures MarksPersist(BarsOf(p, monthOf))
  {
    var bars := BarsOf(p, monthOf);
    forall i: nat, j: nat, t | i <= j < |bars| && MarkOf(bars[i].prices, t).Num?
      ensures MarkOf(bars[j].prices, t).Num?
    {
      MarkPersists(histories, tickers, p, monthOf, i, j, t);
    }
  }

  lemma MarkPersists(histories: map<string, BarPanel.History>, tickers: seq<string>, p: BarPanel.Panel, monthOf: int -> int,
                     i: nat, j: nat, t: string)
    requires BarPanel.IsPanel(histories, tickers, p) && i <= j < |p.dates|
    ensures MarkOf(BarsOf(p, monthOf)[i].prices, t).Num? ==> MarkOf(BarsOf(p, monthOf)[j].prices, t).Num?
  {
    MarkOnPanel(histories, tickers, p, monthOf, i, t);
    MarkOnPanel(histories, tickers, p, monthOf, j, t);
    if t in tickers {
      BarPanel.PricesPersist(histories, tickers, p, t, i, j, BarPanel.Close);
    }
  }

  // --------------------------------------------- strategies that wait for bars

  /** A strategy decides nothing before a ticker has its first usable close. */
  ghost predicate WaitsForBars(st: Strategy) {
    forall rows: seq<Row>, i: int :: 0 <= i < |rows| && rows[i].priced == 0 ==> st.signal(rows, i) == Hold
  }

  lemma UnlistedIsHeld(histories: map<string, BarPanel.History>, tickers: seq<string>, p: BarPanel.Panel, monthOf: int -> int,
                       st: Strategy, i: nat, t: string)
    requires BarPanel.IsPanel(histories, tickers, p) && WaitsForBars(st) && i < |p.dates|
    ensures MarkOf(BarsOf(p, monthOf)[i].prices, t).NaN? ==> PlannedAt(PlanOf(st, PanelInputs(st, p)), t, i) == Hold
  {
    MarkOnPanel(histories, tickers, p, monthOf, i, t);
    if t in tickers && MarkOf(BarsOf(p, monthOf)[i].prices, t).NaN? {
      var h := histories[t];
      assert BarPanel.TickerAligned(histories, p, t);
      PanelCovers(histories, tickers, p, t);
      BarPanel.ShownIsAsOf(histories, tickers, p, t, i, BarPanel.Close);
      RowCloseIsAsOf(st, h, p.dates, i);
      BarPanel.AsOfUnique(h, BarPanel.Close, p.dates[i], RowAt(st, h, p.dates, i).close, BarPanel.Shown(p, t, BarPanel.Close, i));
      NoCloseNoPricedBars(st, h, p.dates, i);
      assert Rows(st, h, p.dates)[i].priced == 0;
    } else {
      assert t in p.sources <==> t in (set x | x in tickers);
    }
  }

  lemma PanelCovers(histories: map<string, BarPanel.History>, tickers: seq<string>, p: BarPanel.Panel, t: string)
    requires BarPanel.IsPanel(histories, tickers, p) && t in tickers
    ensures BarPanel.Covers(p.dates, histories[t])
  {
  }

  /** A strategy that waits for its first priced bar holds off every ticker without a mark. */
  lemma WaitingHoldsUnlisted(histories: map<string, BarPanel.History>, tickers: seq<string>, p: BarPanel.Panel,
                             monthOf: int -> int, s: Settings, st: Strategy)
    requires BarPanel.IsPanel(histories, tickers, p) && WaitsForBars(st)
    ensures HoldsUnlisted(s, PlanOf(st, PanelInputs(st, p)), BarsOf(p, monthOf))
  {
    var bars := BarsOf(p, monthOf);
    forall i: nat, t | i < |bars| && MarkOf(bars[i].prices, t).NaN?
      ensures PlannedAt(PlanOf(st, PanelInputs(st, p)), t, i) == Hold
    {
      UnlistedIsHeld(histories, tickers, p, monthOf, st, i, t);
    }
  }

  // --------------------------------------------------------- runs over a panel

  /** The states are those of the strategy's run over the panel, from bar `first` on. */
  ghost predicate PanelRun(s: Settings, st: Strategy, p: BarPanel.Panel, monthOf: int -> int, first: nat, states: seq<Portfolio>) {
    IsRun(s, PlanOf(st, PanelInputs(st, p)), BarsOf(p, monthOf), first, states)
  }

  /** The equity of a run over a panel is a number throughout when the strategy waits for bars. */
  lemma PanelRunHasMarks(histories: map<string, BarPanel.History>, tickers: seq<string>, p: BarPanel.Panel, monthOf: int -> int,
                         s: Settings, st: Strategy, first: nat, states: seq<Portfolio>, j: nat)
    requires BarPanel.IsPanel(histories, tickers, p) && WaitsForBars(st) && PanelRun(s, st, p, monthOf, first, states)
    requires states[first].book.positions == map[] && first <= j < |states|
    ensures EquityAt(BarsOf(p, monthOf), states, j).Num?
  {
    PanelMarksPersist(histories, tickers, p, monthOf);
    WaitingHoldsUnlisted(histories, tickers, p, monthOf, s, st);
    RunIsPriced(s, PlanOf(st, PanelInputs(st, p)), BarsOf(p, monthOf), first, states, j);
  }

  /**
   The attribution of a whole run over a panel, for every strategy: equity at a bar is the initial cash,
   plus the price gains on what was held, minus every bar's slippage and fees, if and only if it is a
   number; and it is one exactly when no ticker signalled before is without a mark there.
   */
  lemma PanelRunAttribution(histories: map<string, BarPanel.History>, tickers: seq<string>, p: BarPanel.Panel,
                            monthOf: int -> int, s: Settings, st: Strategy, first: nat, states: seq<Portfolio>,
                            initialCash: real, j: nat)
    requires BarPanel.IsPanel(histories, tickers, p) && PanelRun(s, st, p, monthOf, first, states)
    requires states[first] == Start(initialCash) && first <= j < |states|
    ensures var bars := BarsOf(p, monthOf);
            var attributed := EquityAt(bars, states, j)
                              == Num(initialCash + TotalGain(bars, first, states, j) - TotalCost(bars, first, states, j));
            && (attributed <==> EquityAt(bars, states, j).Num?)
            && (attributed <==> forall t :: t in bars[j].prices && bars[j].prices[t].NaN? ==>
                                  !SignalledBefore(s, PlanOf(st, PanelInputs(st, p)), bars, first, j, t))
  {
    PanelMarksPersist(histories, tickers, p, monthOf);
    RunAttribution(s, PlanOf(st, PanelInputs(st, p)), BarsOf(p, monthOf), first, states, j);
  }

  /** One bar of a run over a panel, for every strategy: what separates two equities that are numbers. */
  lemma PanelBarAttribution(histories: map<string, BarPanel.History>, tickers: seq<string>, p: BarPanel.Panel,
                            monthOf: int -> int, s: Settings, st: Strategy, first: nat, states: seq<Portfolio>, i: nat, j: nat)
    requires BarPanel.IsPanel(histories, tickers, p) && PanelRun(s, st, p, monthOf, first, states)
    requires states[first].book.positions == map[] && first <= i && j == i + 1 && j < |states|
    requires EquityAt(BarsOf(p, monthOf), states, i).Num? && EquityAt(BarsOf(p, monthOf), states, j).Num?
    ensures EquityAt(BarsOf(p, monthOf), states, j).v - EquityAt(BarsOf(p, monthOf), states, i).v
         == BarGain(BarsOf(p, monthOf), states, i, j) - BarCost(BarsOf(p, monthOf), states, i, j)
  {
    var plan, bars := PlanOf(st, PanelInputs(st, p)), BarsOf(p, monthOf);
    PanelMarksPersist(histories, tickers, p, monthOf);
    RunHoldsMarked(s, plan, bars, first, states, i);
    MarkedLater(bars, states[i].book, i, j);
    assert StepsTo(s, plan, bars, states, i, j);
    BarAttribution(s, plan, bars, states, i, j);
  }
}
