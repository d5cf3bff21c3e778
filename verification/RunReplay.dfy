/** Replaying a run's recorded trades through the metrics gives back its portfolio, and when. */
module RunReplay {
  import opened Reals
  import opened Sums
  import opened Text
  import opened Accounting
  import opened Sizing
  import opened Simulation
  import opened TradeReplay
  import opened TradeHistory
  import opened BarDiscipline
  import opened RoundTrips

  /** The replay succeeds and ends with the portfolio's positions, costs, realized P&L and cash. */
  ghost predicate ReplayAgrees(p: Portfolio, initialCash: real) {
    && Replay(p.trades).Success?
    && var r := Replay(p.trades).value.book;
       && r.cash == p.book.cash - initialCash
       && r.realized == p.book.realized
       && forall t :: r.Qty(t) == p.book.Qty(t) && r.Avg(t) == p.book.Avg(t)
  }

  ghost predicate UpperKeys(b: Book) {
    forall t :: t in b.positions ==> Upper(t) == t
  }

  /** The replay agrees with the portfolio, whose tickers are written as the metrics normalise them. */
  ghost predicate Replayable(p: Portfolio, initialCash: real) {
    ReplayAgrees(p, initialCash) && UpperKeys(p.book)
  }

  lemma RecordedReplay(p: Portfolio, b: Book, trade: Trade)
    requires Replay(p.trades).Success?
    ensures Replay(p.(book := b).Record(trade).trades) == ReplayTrade(Replay(p.trades).value, trade)
  {
    assert (p.trades + [trade])[..|p.trades|] == p.trades;
  }

  lemma BuyKeepsReplay(p: Portfolio, t: string, qty: real, px: real, fee: real, initialCash: real)
    requires ReplayAgrees(p, initialCash) && Upper(t) == t && qty > 0.0 && px > 0.0 && p.book.Qty(t) >= 0.0
    ensures ReplayAgrees(p.(book := p.book.ApplyBuy(t, qty, px, fee)).Record(Trade(t, Buy, qty, px, fee)), initialCash)
  {
    var b := p.book.ApplyBuy(t, qty, px, fee);
    var r := Replay(p.trades).value.book;
    RecordedReplay(p, b, Trade(t, Buy, qty, px, fee));
    assert r.Qty(t) == p.book.Qty(t) && r.Avg(t) == p.book.Avg(t);
    var after := r.ApplyBuy(t, qty, px, fee);
    forall x
      ensures after.Qty(x) == b.Qty(x) && after.Avg(x) == b.Avg(x)
    {
      assert r.Qty(x) == p.book.Qty(x) && r.Avg(x) == p.book.Avg(x);
    }
  }

  lemma SellKeepsReplay(p: Portfolio, t: string, px: real, fee: real, initialCash: real)
    requires ReplayAgrees(p, initialCash) && Upper(t) == t && px >= 0.0 && p.book.Qty(t) > 0.0
    ensures var qty := p.book.Qty(t);
            ReplayAgrees(p.(book := p.book.ApplySell(t, qty, px, fee)).Record(Trade(t, Sell, qty, px, fee)), initialCash)
  {
    var qty := p.book.Qty(t);
    var b := p.book.ApplySell(t, qty, px, fee);
    var r := Replay(p.trades).value.book;
    RecordedReplay(p, b, Trade(t, Sell, qty, px, fee));
    assert r.Qty(t) == p.book.Qty(t) && r.Avg(t) == p.book.Avg(t);
    var after := r.ApplySell(t, qty, px, fee);
    forall x
      ensures after.Qty(x) == b.Qty(x) && after.Avg(x) == b.Avg(x)
    {
      assert r.Qty(x) == p.book.Qty(x) && r.Avg(x) == p.book.Avg(x);
    }
  }

  lemma TouchKeepsReplay(p: Portfolio, t: string, initialCash: real)
    requires Replayable(p, initialCash) && Upper(t) == t
    ensures Replayable(p.(book := p.book.Touch(t)), initialCash)
  {
    var q := p.(book := p.book.Touch(t));
    assert forall x :: q.book.Qty(x) == p.book.Qty(x) && q.book.Avg(x) == p.book.Avg(x);
  }

  // ------------------------------------------------------------------ phases

  predicate AllBuys(trades: seq<Trade>) {
    forall i :: 0 <= i < |trades| ==> trades[i].side.Buy?
  }

  /** No recorded sell was priced below zero: slippage leaves sells a price, or there are none. */
  predicate SellsPriced(s: Settings, trades: seq<Trade>) {
    s.SellMultiplier() >= 0.0 || AllBuys(trades)
  }

  lemma EarlierSellsPriced(s: Settings, before: seq<Trade>, now: seq<Trade>)
    requires before <= now && SellsPriced(s, now)
    ensures SellsPriced(s, before)
  {
    assert forall i :: 0 <= i < |before| ==> before[i] == now[i];
  }

  lemma SellTickerKeepsReplay(s: Settings, prices: map<string, Price>, signals: map<string, Signal>, p: Portfolio,
                              t: string, initialCash: real)
    requires Replayable(p, initialCash) && Upper(t) == t && SellsPriced(s, SellTicker(s, prices, signals, p, t).trades)
    ensures Replayable(SellTicker(s, prices, signals, p, t), initialCash)
  {
    TouchKeepsReplay(p, t, initialCash);
    var q := p.(book := p.book.Touch(t));
    var px := SellPrice(s, prices, t);
    if SignalOf(signals, t) == SellSignal && q.book.Qty(t) > 0.0 && px.Some? {
      assert SellTicker(s, prices, signals, p, t).trades[|p.trades|].side.Sell?;
      Scale(0.0, s.SellMultiplier(), MarkOf(prices, t).v);
      SellKeepsReplay(q, t, px.value, s.fee, initialCash);
    }
  }

  lemma {:induction false} SellPhaseKeepsReplay(s: Settings, prices: map<string, Price>, signals: map<string, Signal>,
                                                p: Portfolio, tickers: seq<string>, initialCash: real)
    requires Replayable(p, initialCash) && SellsPriced(s, SellPhase(s, prices, signals, p, tickers).trades)
    requires forall t :: t in tickers ==> Upper(t) == t
    ensures Replayable(SellPhase(s, prices, signals, p, tickers), initialCash)
  {
    if tickers != [] {
      var n := |tickers| - 1;
      EarlierSellsPriced(s, SellPhase(s, prices, signals, p, tickers[..n]).trades, SellPhase(s, prices, signals, p, tickers).trades);
      SellPhaseKeepsReplay(s, prices, signals, p, tickers[..n], initialCash);
      SellTickerKeepsReplay(s, prices, signals, SellPhase(s, prices, signals, p, tickers[..n]), tickers[n], initialCash);
    }
  }

  lemma {:induction false} TouchesKeepReplay(signals: map<string, Signal>, active: seq<string>, p: Portfolio,
                                             tickers: seq<string>, initialCash: real)
    requires Replayable(p, initialCash) && forall t :: t in tickers ==> Upper(t) == t
    ensures Replayable(p.(book := TouchCandidates(signals, active, p.book, tickers)), initialCash)
  {
    if tickers != [] {
      var n := |tickers| - 1;
      TouchesKeepReplay(signals, active, p, tickers[..n], initialCash);
      TouchKeepsReplay(p.(book := TouchCandidates(signals, active, p.book, tickers[..n])), tickers[n], initialCash);
    }
  }

  lemma {:induction false} FillBuysKeepsReplay(s: Settings, granted: map<string, real>, p: Portfolio, requests: seq<Request>,
                                               initialCash: real)
    requires Replayable(p, initialCash) && forall t :: p.book.Qty(t) >= 0.0
    requires forall r :: r in requests ==> Upper(r.ticker) == r.ticker && r.price > 0.0
    ensures var q := FillBuys(s, granted, p, requests);
            Replayable(q, initialCash) && forall t :: q.book.Qty(t) >= 0.0
  {
    if requests != [] {
      var n := |requests| - 1;
      var r, q := requests[n], FillBuys(s, granted, p, requests[..n]);
      FillBuysKeepsReplay(s, granted, p, requests[..n], initialCash);
      FillsSpend(s, granted, p, requests);
      var qty := Get(granted, r.ticker);
      assert q.book.Qty(r.ticker) >= 0.0;
      if qty >= 1.0 {
        BuyKeepsReplay(q, r.ticker, qty, r.price, s.fee, initialCash);
      }
    }
  }

  lemma BuyPhaseKeepsReplay(s: Settings, prices: map<string, Price>, signals: map<string, Signal>, active: seq<string>,
                            p: Portfolio, tickers: seq<string>, initialCash: real)
    requires Replayable(p, initialCash) && Orderly(p, initialCash)
    requires Distinct(tickers) && forall t :: t in tickers ==> Upper(t) == t
    ensures Replayable(BuyPhase(s, prices, signals, active, p, tickers), initialCash)
  {
    var equity := Equity(p.book, prices);
    var requests := BuyRequests(s, prices, signals, active, p.book, equity, tickers);
    TouchesKeepReplay(signals, active, p, tickers, initialCash);
    TouchesKeepOrder(signals, active, p, tickers, initialCash);
    RequestsAreGood(s, prices, signals, active, p.book, equity, tickers);
    var touched := p.(book := TouchCandidates(signals, active, p.book, tickers));
    forall t
      ensures touched.book.Qty(t) >= 0.0
    {
      OrderlyIsLong(p, t, initialCash);
    }
    forall r | r in requests
      ensures Upper(r.ticker) == r.ticker && r.price > 0.0
    {
      assert GoodRequest(s, prices, signals, p.book, tickers, r);
    }
    FillBuysKeepsReplay(s, Granted(requests, p.book.cash, s.fee), touched, requests, initialCash);
  }

  // -------------------------------------------------------------- whole runs

  /** Ticker files are upper-cased when they are loaded. */
  ghost predicate UpperUniverse(u: Universe) {
    && (forall t :: t in u.defaultTickers ==> Upper(t) == t)
    && (forall m, t :: m in u.monthToTickers && t in u.monthToTickers[m] ==> Upper(t) == t)
  }

  lemma BarStepKeepsReplay(s: Settings, plan: Plan, signalIndex: nat, month: int, prices: map<string, Price>, p: Portfolio,
                           initialCash: real)
    requires Replayable(p, initialCash) && Orderly(p, initialCash) && UpperUniverse(s.universe)
    requires SellsPriced(s, BarStep(s, plan, signalIndex, month, prices, p).trades)
    ensures Replayable(BarStep(s, plan, signalIndex, month, prices, p), initialCash)
  {
    var active := s.ActiveTickers(month);
    var tickers := StrategyTickers(active, p.book);
    var signals := SignalsAt(plan, signalIndex, tickers);
    var sold := SellPhase(s, prices, signals, p, tickers);
    assert forall t :: t in tickers ==> Upper(t) == t;
    BuysOnlyAppend(s, prices, signals, active, sold, tickers);
    EarlierSellsPriced(s, sold.trades, BarStep(s, plan, signalIndex, month, prices, p).trades);
    SellPhaseKeepsReplay(s, prices, signals, p, tickers, initialCash);
    SellPhaseKeepsOrder(s, prices, signals, p, tickers, initialCash);
    BuyPhaseKeepsReplay(s, prices, signals, active, sold, tickers, initialCash);
  }

  lemma StepKeepsReplay(s: Settings, plan: Plan, bars: seq<Bar>, states: seq<Portfolio>, i: nat, j: nat, initialCash: real)
    requires i < |states| <= |bars| && j < |states| && StepsTo(s, plan, bars, states, i, j)
    requires Replayable(states[i], initialCash) && Orderly(states[i], initialCash)
    requires UpperUniverse(s.universe) && SellsPriced(s, states[j].trades)
    ensures Replayable(states[j], initialCash)
  {
    BarStepKeepsReplay(s, plan, i, bars[i].month, bars[j].prices, states[i], initialCash);
  }

  /** Replaying the trade list of a run reproduces positions, average costs, realized P&L and cash. */
  lemma {:induction false} RunReplays(s: Settings, plan: Plan, bars: seq<Bar>, first: nat, states: seq<Portfolio>,
                                      initialCash: real, j: nat)
    requires IsRun(s, plan, bars, first, states) && states[first] == Start(initialCash) && first <= j < |states|
    requires UpperUniverse(s.universe) && SellsPriced(s, states[j].trades)
    ensures Replayable(states[j], initialCash)
  {
    if j > first {
      var i := j - 1;
      assert StepsTo(s, plan, bars, states, i, j);
      StepOnlyAppends(s, plan, bars, states, i, j);
      EarlierSellsPriced(s, states[i].trades, states[j].trades);
      RunReplays(s, plan, bars, first, states, initialCash, i);
      RunIsOrderly(s, plan, bars, first, states, initialCash, i);
      StepKeepsReplay(s, plan, bars, states, i, j, initialCash);
    }
  }

  // ------------------------------------------------------- a replay that fails

  /** A recorded sell at a negative price makes the metrics' replay fail. */
  lemma NegativeSellFailsReplay(trades: seq<Trade>, i: nat)
    requires i < |trades| && trades[i].price < 0.0
    ensures Replay(trades).Failure?
  {
    assert trades[..i + 1][..i] == trades[..i];
    FailedPrefixFails(trades, i + 1);
  }

  /** With a sell multiplier below zero, every sell of a bar is recorded at a negative price. */
  lemma NegativeMultiplierPrices(s: Settings, prices: map<string, Price>, signals: map<string, Signal>,
                                 p: Portfolio, q: Portfolio, i: nat)
    requires s.SellMultiplier() < 0.0 && BarTraded(s, prices, signals, p, q)
    requires |p.trades| <= i < |q.trades| && q.trades[i].side.Sell?
    ensures q.trades[i].price < 0.0
  {
    ScaleStrict(s.SellMultiplier(), 0.0, MarkOf(prices, q.trades[i].ticker).v);
  }

  lemma StepSellPrices(s: Settings, plan: Plan, bars: seq<Bar>, states: seq<Portfolio>, i: nat, j: nat, n: nat)
    requires i < |states| <= |bars| && j < |states| && StepsTo(s, plan, bars, states, i, j) && s.SellMultiplier() < 0.0
    requires |states[i].trades| <= n < |states[j].trades| && states[j].trades[n].side.Sell?
    ensures states[j].trades[n].price < 0.0
  {
    var month, prices := bars[i].month, bars[j].prices;
    BarTradesOnce(s, plan, i, month, prices, states[i]);
    var tickers := StrategyTickers(s.ActiveTickers(month), states[i].book);
    NegativeMultiplierPrices(s, prices, SignalsAt(plan, i, tickers), states[i], states[j], n);
  }

  lemma {:induction false} RunSellPrices(s: Settings, plan: Plan, bars: seq<Bar>, first: nat, states: seq<Portfolio>,
                                         j: nat, n: nat)
    requires IsRun(s, plan, bars, first, states) && states[first].trades == [] && first <= j < |states|
    requires s.SellMultiplier() < 0.0 && n < |states[j].trades| && states[j].trades[n].side.Sell?
    ensures states[j].trades[n].price < 0.0
  {
    if j > first {
      var i := j - 1;
      assert StepsTo(s, plan, bars, states, i, j);
      StepOnlyAppends(s, plan, bars, states, i, j);
      if n < |states[i].trades| {
        RunSellPrices(s, plan, bars, first, states, i, n);
      } else {
        StepSellPrices(s, plan, bars, states, i, j, n);
      }
    }
  }

  /** The recorded trades of a run replay exactly when no sell was priced below zero by slippage. */
  lemma ReplayExact(s: Settings, plan: Plan, bars: seq<Bar>, first: nat, states: seq<Portfolio>, initialCash: real, j: nat)
    requires IsRun(s, plan, bars, first, states) && states[first] == Start(initialCash) && first <= j < |states|
    requires UpperUniverse(s.universe)
    ensures Replay(states[j].trades).Success? <==> SellsPriced(s, states[j].trades)
  {
    if SellsPriced(s, states[j].trades) {
      RunReplays(s, plan, bars, first, states, initialCash, j);
    } else {
      var n :| 0 <= n < |states[j].trades| && states[j].trades[n].side.Sell?;
      RunSellPrices(s, plan, bars, first, states, j, n);
      NegativeSellFailsReplay(states[j].trades, n);
    }
  }

  // ---------------------------------------------------- which settings replay

  /** Every run under these settings, from any cash over any history and signals, replays at every bar. */
  ghost predicate AlwaysReplays(s: Settings) {
    forall plan, bars, first: nat, states: seq<Portfolio>, initialCash, j: nat ::
      IsRun(s, plan, bars, first, states) && states[first] == Start(initialCash) && first <= j < |states| ==>
        Replay(states[j].trades).Success?
  }

  /** With slippage above all of the price, a round trip in any tradeable ticker records a sell the metrics refuse. */
  lemma RoundTripFails(s: Settings, t: string, month: int) returns (cash: real)
    requires t in s.ActiveTickers(month) && 0.0 < s.pct.trade <= s.pct.position && s.slippageBps > 10000.0
    ensures IsRun(s, RoundTripPlan(t), RoundTripBars(t, month, 1.0, 1.0), 0, RoundTrip(s, t, month, 1.0, 1.0, cash))
    ensures Replay(RoundTrip(s, t, month, 1.0, 1.0, cash)[2].trades).Failure?
  {
    ScaleStrict(0.0, s.BuyMultiplier(), 1.0);
    ScaleStrict(s.SellMultiplier(), 0.0, 1.0);
    cash := EnoughForOne(Mul(1.0, s.BuyMultiplier()), s.fee, s.pct);
    RoundTripIsRun(s, t, month, 1.0, 1.0, cash);
    RoundTripEnds(s, t, month, 1.0, 1.0, cash);
    var trades := RoundTrip(s, t, month, 1.0, 1.0, cash)[2].trades;
    NegativeSellFailsReplay(trades, |trades| - 1);
  }

  /**
   By configuration: for a universe in upper case with a ticker to trade and accepted percentages,
   every run replays if and only if slippage is at most 10000 basis points.
   */
  lemma AlwaysReplaysExactly(s: Settings, t: string, month: int)
    requires UpperUniverse(s.universe) && t in s.ActiveTickers(month) && 0.0 < s.pct.trade <= s.pct.position
    ensures AlwaysReplays(s) <==> s.slippageBps <= 10000.0
  {
    if s.slippageBps <= 10000.0 {
      forall plan, bars, first: nat, states: seq<Portfolio>, initialCash, j: nat
        | IsRun(s, plan, bars, first, states) && states[first] == Start(initialCash) && first <= j < |states|
        ensures Replay(states[j].trades).Success?
      {
        RunReplays(s, plan, bars, first, states, initialCash, j);
      }
    } else {
      var cash := RoundTripFails(s, t, month);
      assert RoundTrip(s, t, month, 1.0, 1.0, cash)[0] == Start(cash);
    }
  }
}
