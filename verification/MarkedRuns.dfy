/** When a run's equity is a number: which tickers are entered in the book, and whether they have marks. */
module MarkedRuns {
  import opened Accounting
  import opened Sizing
  import opened Simulation

  // ------------------------------------------------ the entries of a book

  /** The tickers among `tickers` that a signal asks to sell. */
  function SellSignals(signals: map<string, Signal>, tickers: seq<string>): set<string> {
    set t | t in tickers && SignalOf(signals, t) == SellSignal
  }

  function Candidates(signals: map<string, Signal>, active: seq<string>, tickers: seq<string>): set<string> {
    set t | t in tickers && BuyCandidate(signals, active, t)
  }

  lemma LastTicker(tickers: seq<string>, n: nat)
    requires n + 1 == |tickers|
    ensures forall t :: t in tickers <==> t in tickers[..n] || t == tickers[n]
  {
    assert tickers == tickers[..n] + [tickers[n]];
  }

  lemma SellTickerKeys(s: Settings, prices: map<string, Price>, signals: map<string, Signal>, p: Portfolio, t: string)
    ensures SellTicker(s, prices, signals, p, t).book.positions.Keys
         == p.book.positions.Keys + (if SignalOf(signals, t) == SellSignal then {t} else {})
  {
  }

  /** Looking a position up to sell it enters the ticker, sold or not. */
  lemma {:induction false} SellPhaseKeys(s: Settings, prices: map<string, Price>, signals: map<string, Signal>,
                                         p: Portfolio, tickers: seq<string>)
    ensures SellPhase(s, prices, signals, p, tickers).book.positions.Keys
         == p.book.positions.Keys + SellSignals(signals, tickers)
  {
    if tickers != [] {
      var n := |tickers| - 1;
      SellPhaseKeys(s, prices, signals, p, tickers[..n]);
      SellTickerKeys(s, prices, signals, SellPhase(s, prices, signals, p, tickers[..n]), tickers[n]);
      LastTicker(tickers, n);
    }
  }

  lemma {:induction false} TouchKeys(signals: map<string, Signal>, active: seq<string>, b: Book, tickers: seq<string>)
    ensures TouchCandidates(signals, active, b, tickers).positions.Keys == b.positions.Keys + Candidates(signals, active, tickers)
  {
    if tickers != [] {
      var n := |tickers| - 1;
      TouchKeys(signals, active, b, tickers[..n]);
      LastTicker(tickers, n);
    }
  }

  lemma {:induction false} RequestsAreCandidates(s: Settings, prices: map<string, Price>, signals: map<string, Signal>,
                                                 active: seq<string>, b: Book, equity: Price, tickers: seq<string>)
    ensures forall r :: r in BuyRequests(s, prices, signals, active, b, equity, tickers) ==>
              r.ticker in Candidates(signals, active, tickers)
  {
    if tickers != [] {
      var n := |tickers| - 1;
      RequestsAreCandidates(s, prices, signals, active, b, equity, tickers[..n]);
      LastTicker(tickers, n);
    }
  }

  lemma {:induction false} FillKeys(s: Settings, granted: map<string, real>, p: Portfolio, requests: seq<Request>)
    requires forall r :: r in requests ==> r.ticker in p.book.positions
    ensures FillBuys(s, granted, p, requests).book.positions.Keys == p.book.positions.Keys
  {
    if requests != [] {
      FillKeys(s, granted, p, requests[..|requests| - 1]);
    }
  }

  lemma BuyPhaseKeys(s: Settings, prices: map<string, Price>, signals: map<string, Signal>, active: seq<string>,
                     p: Portfolio, tickers: seq<string>)
    ensures BuyPhase(s, prices, signals, active, p, tickers).book.positions.Keys
         == p.book.positions.Keys + Candidates(signals, active, tickers)
  {
    var equity := Equity(p.book, prices);
    var requests := BuyRequests(s, prices, signals, active, p.book, equity, tickers);
    TouchKeys(signals, active, p.book, tickers);
    RequestsAreCandidates(s, prices, signals, active, p.book, equity, tickers);
    FillKeys(s, Granted(requests, p.book.cash, s.fee), p.(book := TouchCandidates(signals, active, p.book, tickers)), requests);
  }

  /** The active tickers a signal is given for at a bar. */
  function SignalledAt(s: Settings, plan: Plan, index: nat, month: int): set<string> {
    set t | t in s.ActiveTickers(month) && PlannedAt(plan, t, index) != Hold
  }

  /** Whatever is bought or sold, one bar enters exactly the active tickers it has a signal for. */
  lemma BarStepKeys(s: Settings, plan: Plan, signalIndex: nat, month: int, prices: map<string, Price>, p: Portfolio)
    ensures BarStep(s, plan, signalIndex, month, prices, p).book.positions.Keys
         == p.book.positions.Keys + SignalledAt(s, plan, signalIndex, month)
  {
    var active := s.ActiveTickers(month);
    var tickers := StrategyTickers(active, p.book);
    var signals := SignalsAt(plan, signalIndex, tickers);
    SellPhaseKeys(s, prices, signals, p, tickers);
    BuyPhaseKeys(s, prices, signals, active, SellPhase(s, prices, signals, p, tickers), tickers);
    forall t
      ensures t in p.book.positions || t in SellSignals(signals, tickers) || t in Candidates(signals, active, tickers)
              <==> t in p.book.positions || t in SignalledAt(s, plan, signalIndex, month)
    {
      EntryOfTicker(s, plan, signalIndex, month, p.book, t);
    }
  }

  lemma EntryOfTicker(s: Settings, plan: Plan, signalIndex: nat, month: int, b: Book, t: string)
    ensures var active := s.ActiveTickers(month);
            var tickers := StrategyTickers(active, b);
            var signals := SignalsAt(plan, signalIndex, tickers);
            t in b.positions || t in SellSignals(signals, tickers) || t in Candidates(signals, active, tickers)
            <==> t in b.positions || t in SignalledAt(s, plan, signalIndex, month)
  {
    var active := s.ActiveTickers(month);
    var tickers := StrategyTickers(active, b);
    assert t in tickers <==> t in active || t in HeldTickers(b);
  }

  lemma StepKeys(s: Settings, plan: Plan, bars: seq<Bar>, states: seq<Portfolio>, i: nat, j: nat)
    requires i < |states| <= |bars| && j < |states| && StepsTo(s, plan, bars, states, i, j)
    ensures states[j].book.positions.Keys == states[i].book.positions.Keys + SignalledAt(s, plan, i, bars[i].month)
  {
    BarStepKeys(s, plan, i, bars[i].month, bars[j].prices, states[i]);
  }

  // ------------------------------------------------------- equity over a run

  /** A ticker was signalled, while active, at some bar from `first` up to but not including `j`. */
  ghost predicate SignalledBefore(s: Settings, plan: Plan, bars: seq<Bar>, first: nat, j: nat, t: string)
    requires j <= |bars|
  {
    exists i: nat :: first <= i < j && t in SignalledAt(s, plan, i, bars[i].month)
  }

  /** The book of a run that starts flat has exactly the tickers signalled so far. */
  lemma {:induction false} RunKeys(s: Settings, plan: Plan, bars: seq<Bar>, first: nat, states: seq<Portfolio>, j: nat, t: string)
    requires IsRun(s, plan, bars, first, states) && states[first].book.positions == map[] && first <= j < |states|
    ensures t in states[j].book.positions <==> SignalledBefore(s, plan, bars, first, j, t)
  {
    if j > first {
      var i := j - 1;
      assert StepsTo(s, plan, bars, states, i, j);
      StepKeys(s, plan, bars, states, i, j);
      RunKeys(s, plan, bars, first, states, i, t);
      SignalledLater(s, plan, bars, first, i, j, t);
    }
  }

  lemma SignalledLater(s: Settings, plan: Plan, bars: seq<Bar>, first: nat, i: nat, j: nat, t: string)
    requires first <= i && j == i + 1 && j <= |bars|
    ensures SignalledBefore(s, plan, bars, first, j, t)
       <==> SignalledBefore(s, plan, bars, first, i, t) || t in SignalledAt(s, plan, i, bars[i].month)
  {
    if SignalledBefore(s, plan, bars, first, i, t) {
      var k: nat :| first <= k < i && t in SignalledAt(s, plan, k, bars[k].month);
      assert first <= k < j;
    }
  }

  /**
   The equity of a run that starts flat is a number at a bar if and only if no active ticker was
   signalled at an earlier bar that has, at this bar, a mark that is no number.
   */
  lemma EquityIsNumberExactly(s: Settings, plan: Plan, bars: seq<Bar>, first: nat, states: seq<Portfolio>, j: nat)
    requires IsRun(s, plan, bars, first, states) && states[first].book.positions == map[] && first <= j < |states|
    ensures EquityAt(bars, states, j).Num?
       <==> forall t :: t in bars[j].prices && bars[j].prices[t].NaN? ==> !SignalledBefore(s, plan, bars, first, j, t)
  {
    forall t
      ensures t in states[j].book.positions <==> SignalledBefore(s, plan, bars, first, j, t)
    {
      RunKeys(s, plan, bars, first, states, j, t);
    }
  }

  lemma OneStepRun(s: Settings, plan: Plan, bars: seq<Bar>, p: Portfolio, q: Portfolio)
    requires |bars| == 2 && q == BarStep(s, plan, 0, bars[0].month, bars[1].prices, p)
    ensures IsRun(s, plan, bars, 0, [p, q])
  {
    assert StepsTo(s, plan, bars, [p, q], 0, 1);
    forall i: nat, j: nat | j == i + 1 && j < 2
      ensures StepsTo(s, plan, bars, [p, q], i, j)
    {
      assert i == 0;
    }
  }

  function UnlistedBars(t: string, month: int): seq<Bar> {
    [Bar(month, map[t := NaN]), Bar(month, map[t := NaN])]
  }

  ghost function AfterUnlisted(s: Settings, t: string, month: int, signal: Signal, cash: real): Portfolio {
    BarStep(s, map[t := [signal]], 0, month, map[t := NaN], Start(cash))
  }

  /** One signal for an active ticker without a mark, to buy or to sell, and the equity is no number. */
  lemma UnlistedSignalPoisons(s: Settings, t: string, month: int, signal: Signal, cash: real)
    requires t in s.ActiveTickers(month) && signal != Hold
    ensures var states := [Start(cash), AfterUnlisted(s, t, month, signal, cash)];
            && IsRun(s, map[t := [signal]], UnlistedBars(t, month), 0, states)
            && EquityAt(UnlistedBars(t, month), states, 1).NaN?
  {
    var plan, bars, q := map[t := [signal]], UnlistedBars(t, month), AfterUnlisted(s, t, month, signal, cash);
    OneStepRun(s, plan, bars, Start(cash), q);
    assert t in SignalledAt(s, plan, 0, month);
    BarStepKeys(s, plan, 0, month, map[t := NaN], Start(cash));
    assert t in q.book.positions;
  }

  // ---------------------------------------------------- runs priced throughout

  /** Every entry of the book has a mark that is a number. */
  predicate Priced(b: Book, prices: map<string, Price>) {
    forall t :: t in b.positions ==> MarkOf(prices, t).Num?
  }

  /** The book at the close of bar `i` is priced at bar `j`. */
  ghost predicate PricedAt(bars: seq<Bar>, states: seq<Portfolio>, i: nat, j: nat)
    requires i < |states| <= |bars| && j < |bars|
  {
    Priced(states[i].book, bars[j].prices)
  }

  /** Once a ticker has a mark it keeps one: prices carry forward. */
  ghost predicate MarksPersist(bars: seq<Bar>) {
    forall i, j, t :: 0 <= i <= j < |bars| && MarkOf(bars[i].prices, t).Num? ==> MarkOf(bars[j].prices, t).Num?
  }

  /** No signal but hold is given for an active ticker that has no mark yet. */
  ghost predicate HoldsUnlisted(s: Settings, plan: Plan, bars: seq<Bar>) {
    forall i: nat, t :: i < |bars| && MarkOf(bars[i].prices, t).NaN? ==> t !in SignalledAt(s, plan, i, bars[i].month)
  }

  lemma StepIsPriced(s: Settings, plan: Plan, bars: seq<Bar>, states: seq<Portfolio>, i: nat, j: nat)
    requires j == i + 1 && j < |states| <= |bars| && StepsTo(s, plan, bars, states, i, j)
    requires PricedAt(bars, states, i, i) && MarksPersist(bars) && HoldsUnlisted(s, plan, bars)
    ensures PricedAt(bars, states, i, j) && PricedAt(bars, states, j, j)
  {
    StepKeys(s, plan, bars, states, i, j);
    forall t | t in states[j].book.positions
      ensures MarkOf(bars[j].prices, t).Num?
    {
      assert MarkOf(bars[i].prices, t).Num?;
    }
  }

  /** A run that starts flat is priced throughout when marks persist and unlisted tickers are held off. */
  lemma {:induction false} RunIsPriced(s: Settings, plan: Plan, bars: seq<Bar>, first: nat, states: seq<Portfolio>, j: nat)
    requires IsRun(s, plan, bars, first, states) && states[first].book.positions == map[] && first <= j < |states|
    requires MarksPersist(bars) && HoldsUnlisted(s, plan, bars)
    ensures PricedAt(bars, states, j, j)
    ensures j > first ==> PricedAt(bars, states, j - 1, j)
  {
    if j > first {
      var i := j - 1;
      RunIsPriced(s, plan, bars, first, states, i);
      assert StepsTo(s, plan, bars, states, i, j);
      StepIsPriced(s, plan, bars, states, i, j);
    }
  }
}
