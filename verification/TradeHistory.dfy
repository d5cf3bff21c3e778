/** What every run's trade list looks like, ticker by ticker, and that the books balance. */
module TradeHistory {
  import opened Reals
  import opened Sums
  import opened Accounting
  import opened Sizing
  import opened Simulation

  // ------------------------------------------------------ trades of a ticker

  function TradesOf(trades: seq<Trade>, t: string): seq<Trade> {
    if trades == [] then [] else
      var last := trades[|trades| - 1];
      TradesOf(trades[..|trades| - 1], t) + if last.ticker == t then [last] else []
  }

  /** Leg `i` of a history: even legs buy, odd legs sell what the leg before bought. */
  predicate LegAt(h: seq<Trade>, i: int)
    requires 0 <= i < |h|
  {
    && h[i].qty > 0.0
    && if i % 2 == 0 then h[i].side.Buy? else h[i].side.Sell? && h[i].qty == h[i - 1].qty
  }

  /** Buys and sells take turns, and each sell closes exactly the buy before it. */
  ghost predicate Alternates(h: seq<Trade>) {
    forall i :: 0 <= i < |h| ==> LegAt(h, i)
  }

  /** The quantity an alternating history leaves open. */
  function OpenQty(h: seq<Trade>): real {
    if |h| % 2 == 0 then 0.0 else h[|h| - 1].qty
  }

  ghost predicate TickerConsistent(p: Portfolio, t: string) {
    Alternates(TradesOf(p.trades, t)) && p.book.Qty(t) == OpenQty(TradesOf(p.trades, t))
  }

  /** What every portfolio of every run satisfies. */
  ghost predicate Orderly(p: Portfolio, initialCash: real) {
    && p.tradeCount == |p.trades|
    && (forall t :: TickerConsistent(p, t))
    && Balanced(p.book, initialCash)
  }

  /** A history is open exactly when its length is odd. */
  lemma OpenMeansOdd(h: seq<Trade>)
    requires Alternates(h)
    ensures OpenQty(h) >= 0.0
    ensures OpenQty(h) > 0.0 <==> |h| % 2 == 1
  {
    if |h| % 2 == 1 {
      assert LegAt(h, |h| - 1);
    }
  }

  lemma AppendTrade(h: seq<Trade>, trade: Trade)
    requires Alternates(h) && trade.qty > 0.0
    requires if trade.side.Buy? then OpenQty(h) == 0.0 else OpenQty(h) == trade.qty
    ensures Alternates(h + [trade])
    ensures OpenQty(h + [trade]) == if trade.side.Buy? then trade.qty else 0.0
  {
    var g := h + [trade];
    OpenMeansOdd(h);
    forall i | 0 <= i < |g|
      ensures LegAt(g, i)
    {
      if i < |h| {
        assert LegAt(h, i);
      }
    }
  }

  lemma RecordedTrades(p: Portfolio, b: Book, trade: Trade, x: string)
    ensures TradesOf(p.(book := b).Record(trade).trades, x)
         == TradesOf(p.trades, x) + if trade.ticker == x then [trade] else []
  {
    assert (p.trades + [trade])[..|p.trades|] == p.trades;
  }

  lemma BuyKeepsTicker(p: Portfolio, t: string, qty: real, px: real, fee: real, x: string)
    requires TickerConsistent(p, x) && qty > 0.0 && p.book.Qty(t) == 0.0
    ensures TickerConsistent(p.(book := p.book.ApplyBuy(t, qty, px, fee)).Record(Trade(t, Buy, qty, px, fee)), x)
  {
    var trade := Trade(t, Buy, qty, px, fee);
    RecordedTrades(p, p.book.ApplyBuy(t, qty, px, fee), trade, x);
    if x == t {
      AppendTrade(TradesOf(p.trades, x), trade);
    } else {
      assert TradesOf(p.trades, x) + [] == TradesOf(p.trades, x);
    }
  }

  lemma SellKeepsTicker(p: Portfolio, t: string, px: real, fee: real, x: string)
    requires TickerConsistent(p, x) && p.book.Qty(t) > 0.0
    ensures var qty := p.book.Qty(t);
            TickerConsistent(p.(book := p.book.ApplySell(t, qty, px, fee)).Record(Trade(t, Sell, qty, px, fee)), x)
  {
    var qty := p.book.Qty(t);
    var trade := Trade(t, Sell, qty, px, fee);
    RecordedTrades(p, p.book.ApplySell(t, qty, px, fee), trade, x);
    if x == t {
      AppendTrade(TradesOf(p.trades, x), trade);
    } else {
      assert TradesOf(p.trades, x) + [] == TradesOf(p.trades, x);
    }
  }

  // ------------------------------------------------------------------ fills

  lemma StartIsOrderly(initialCash: real)
    ensures Orderly(Start(initialCash), initialCash)
  {
  }

  lemma OrderlyIsLong(p: Portfolio, t: string, initialCash: real)
    requires Orderly(p, initialCash)
    ensures p.book.Qty(t) >= 0.0
  {
    assert TickerConsistent(p, t);
    OpenMeansOdd(TradesOf(p.trades, t));
  }

  lemma TouchKeepsOrder(p: Portfolio, t: string, initialCash: real)
    requires Orderly(p, initialCash)
    ensures Orderly(p.(book := p.book.Touch(t)), initialCash)
  {
    var q := p.(book := p.book.Touch(t));
    TouchKeepsBalance(p.book, t, initialCash);
    forall x
      ensures TickerConsistent(q, x)
    {
      assert TickerConsistent(p, x);
    }
  }

  /** A buy of a ticker not held keeps a portfolio orderly. */
  lemma BuyKeepsOrder(p: Portfolio, t: string, qty: real, px: real, fee: real, initialCash: real)
    requires Orderly(p, initialCash) && qty > 0.0 && p.book.Qty(t) == 0.0
    ensures Orderly(p.(book := p.book.ApplyBuy(t, qty, px, fee)).Record(Trade(t, Buy, qty, px, fee)), initialCash)
  {
    BuyKeepsBalance(p.book, t, qty, px, fee, initialCash);
    var q := p.(book := p.book.ApplyBuy(t, qty, px, fee)).Record(Trade(t, Buy, qty, px, fee));
    forall x
      ensures TickerConsistent(q, x)
    {
      assert TickerConsistent(p, x);
      BuyKeepsTicker(p, t, qty, px, fee, x);
    }
  }

  /** A sell of a whole position keeps a portfolio orderly, whatever its price. */
  lemma SellKeepsOrder(p: Portfolio, t: string, px: real, fee: real, initialCash: real)
    requires Orderly(p, initialCash) && p.book.Qty(t) > 0.0
    ensures var qty := p.book.Qty(t);
            Orderly(p.(book := p.book.ApplySell(t, qty, px, fee)).Record(Trade(t, Sell, qty, px, fee)), initialCash)
  {
    var qty := p.book.Qty(t);
    SellKeepsBalance(p.book, t, qty, px, fee, initialCash);
    var q := p.(book := p.book.ApplySell(t, qty, px, fee)).Record(Trade(t, Sell, qty, px, fee));
    forall x
      ensures TickerConsistent(q, x)
    {
      assert TickerConsistent(p, x);
      SellKeepsTicker(p, t, px, fee, x);
    }
  }

  // ------------------------------------------------------------------ phases

  lemma SellTickerKeepsOrder(s: Settings, prices: map<string, Price>, signals: map<string, Signal>, p: Portfolio,
                             t: string, initialCash: real)
    requires Orderly(p, initialCash)
    ensures Orderly(SellTicker(s, prices, signals, p, t), initialCash)
  {
    TouchKeepsOrder(p, t, initialCash);
    var q := p.(book := p.book.Touch(t));
    var px := SellPrice(s, prices, t);
    if SignalOf(signals, t) == SellSignal && q.book.Qty(t) > 0.0 && px.Some? {
      SellKeepsOrder(q, t, px.value, s.fee, initialCash);
    }
  }

  lemma {:induction false} SellPhaseKeepsOrder(s: Settings, prices: map<string, Price>, signals: map<string, Signal>,
                                               p: Portfolio, tickers: seq<string>, initialCash: real)
    requires Orderly(p, initialCash)
    ensures Orderly(SellPhase(s, prices, signals, p, tickers), initialCash)
  {
    if tickers != [] {
      var n := |tickers| - 1;
      SellPhaseKeepsOrder(s, prices, signals, p, tickers[..n], initialCash);
      SellTickerKeepsOrder(s, prices, signals, SellPhase(s, prices, signals, p, tickers[..n]), tickers[n], initialCash);
    }
  }

  lemma {:induction false} TouchesKeepOrder(signals: map<string, Signal>, active: seq<string>, p: Portfolio,
                                            tickers: seq<string>, initialCash: real)
    requires Orderly(p, initialCash)
    ensures var b := TouchCandidates(signals, active, p.book, tickers);
            Orderly(p.(book := b), initialCash) && forall t :: b.Qty(t) == p.book.Qty(t)
  {
    if tickers != [] {
      var n := |tickers| - 1;
      TouchesKeepOrder(signals, active, p, tickers[..n], initialCash);
      TouchKeepsOrder(p.(book := TouchCandidates(signals, active, p.book, tickers[..n])), tickers[n], initialCash);
    }
  }

  /** What every request made in a buy phase satisfies. */
  ghost predicate GoodRequest(s: Settings, prices: map<string, Price>, signals: map<string, Signal>, b: Book,
                              tickers: seq<string>, r: Request) {
    && r.ticker in tickers
    && SignalOf(signals, r.ticker) == BuySignal
    && b.Qty(r.ticker) <= 0.0
    && Tradeable(MarkOf(prices, r.ticker)).Some?
    && r.price == Mul(MarkOf(prices, r.ticker).v, s.BuyMultiplier()) > 0.0
    && r.qty >= 1.0
  }

  lemma {:induction false} RequestsAreGood(s: Settings, prices: map<string, Price>, signals: map<string, Signal>,
                                           active: seq<string>, b: Book, equity: Price, tickers: seq<string>)
    requires Distinct(tickers)
    ensures var rs := BuyRequests(s, prices, signals, active, b, equity, tickers);
            DistinctTickers(rs) && forall r :: r in rs ==> GoodRequest(s, prices, signals, b, tickers, r)
  {
    if tickers != [] {
      var n := |tickers| - 1;
      var before := BuyRequests(s, prices, signals, active, b, equity, tickers[..n]);
      RequestsAreGood(s, prices, signals, active, b, equity, tickers[..n]);
      assert forall i :: 0 <= i < |before| ==> before[i] in before;
      assert forall r :: r in before ==> GoodRequest(s, prices, signals, b, tickers[..n], r);
      assert tickers[n] !in tickers[..n];
    }
  }

  lemma {:induction false} FillBuysKeepsOrder(s: Settings, granted: map<string, real>, p: Portfolio, requests: seq<Request>,
                                              initialCash: real)
    requires Orderly(p, initialCash) && DistinctTickers(requests)
    requires forall r :: r in requests ==> p.book.Qty(r.ticker) == 0.0
    ensures var q := FillBuys(s, granted, p, requests);
            && Orderly(q, initialCash)
            && forall t :: (forall r :: r in requests ==> r.ticker != t) ==> q.book.Qty(t) == p.book.Qty(t)
  {
    if requests != [] {
      var n := |requests| - 1;
      var r, q := requests[n], FillBuys(s, granted, p, requests[..n]);
      FillBuysKeepsOrder(s, granted, p, requests[..n], initialCash);
      assert forall i :: 0 <= i < n ==> requests[..n][i] == requests[i];
      assert q.book.Qty(r.ticker) == 0.0;
      var qty := Get(granted, r.ticker);
      if qty >= 1.0 {
        BuyKeepsOrder(q, r.ticker, qty, r.price, s.fee, initialCash);
      }
    }
  }

  lemma BuyPhaseKeepsOrder(s: Settings, prices: map<string, Price>, signals: map<string, Signal>, active: seq<string>,
                           p: Portfolio, tickers: seq<string>, initialCash: real)
    requires Orderly(p, initialCash) && Distinct(tickers)
    ensures Orderly(BuyPhase(s, prices, signals, active, p, tickers), initialCash)
  {
    var equity := Equity(p.book, prices);
    var requests := BuyRequests(s, prices, signals, active, p.book, equity, tickers);
    TouchesKeepOrder(signals, active, p, tickers, initialCash);
    RequestsAreGood(s, prices, signals, active, p.book, equity, tickers);
    var touched := p.(book := TouchCandidates(signals, active, p.book, tickers));
    forall r | r in requests
      ensures touched.book.Qty(r.ticker) == 0.0
    {
      assert GoodRequest(s, prices, signals, p.book, tickers, r);
      OrderlyIsLong(p, r.ticker, initialCash);
    }
    FillBuysKeepsOrder(s, Granted(requests, p.book.cash, s.fee), touched, requests, initialCash);
  }

  // -------------------------------------------------------------- whole runs

  lemma BarStepKeepsOrder(s: Settings, plan: Plan, signalIndex: nat, month: int, prices: map<string, Price>, p: Portfolio,
                          initialCash: real)
    requires Orderly(p, initialCash)
    ensures Orderly(BarStep(s, plan, signalIndex, month, prices, p), initialCash)
  {
    var active := s.ActiveTickers(month);
    var tickers := StrategyTickers(active, p.book);
    var signals := SignalsAt(plan, signalIndex, tickers);
    SellPhaseKeepsOrder(s, prices, signals, p, tickers, initialCash);
    BuyPhaseKeepsOrder(s, prices, signals, active, SellPhase(s, prices, signals, p, tickers), tickers, initialCash);
  }

  lemma StepKeepsOrder(s: Settings, plan: Plan, bars: seq<Bar>, states: seq<Portfolio>, i: nat, j: nat, initialCash: real)
    requires i < |states| <= |bars| && j < |states| && StepsTo(s, plan, bars, states, i, j)
    requires Orderly(states[i], initialCash)
    ensures Orderly(states[j], initialCash)
  {
    BarStepKeepsOrder(s, plan, i, bars[i].month, bars[j].prices, states[i], initialCash);
  }

  /**
   At every bar of every run, whatever the slippage and the tickers: each ticker's trades alternate
   and each sell closes exactly its buy, the position is what the history leaves open, and cash plus
   cost basis is initial cash plus realized P&L.
   */
  lemma {:induction false} RunIsOrderly(s: Settings, plan: Plan, bars: seq<Bar>, first: nat, states: seq<Portfolio>,
                                        initialCash: real, j: nat)
    requires IsRun(s, plan, bars, first, states) && states[first] == Start(initialCash) && first <= j < |states|
    ensures Orderly(states[j], initialCash)
  {
    if j == first {
      StartIsOrderly(initialCash);
    } else {
      var i := j - 1;
      assert StepsTo(s, plan, bars, states, i, j);
      RunIsOrderly(s, plan, bars, first, states, initialCash, i);
      StepKeepsOrder(s, plan, bars, states, i, j, initialCash);
    }
  }

  // ------------------------------------------------- the list only grows

  lemma {:induction false} FillsOnlyAppend(s: Settings, granted: map<string, real>, p: Portfolio, requests: seq<Request>)
    ensures p.trades <= FillBuys(s, granted, p, requests).trades
  {
    if requests != [] {
      FillsOnlyAppend(s, granted, p, requests[..|requests| - 1]);
    }
  }

  lemma {:induction false} SellsOnlyAppend(s: Settings, prices: map<string, Price>, signals: map<string, Signal>,
                                           p: Portfolio, tickers: seq<string>)
    ensures p.trades <= SellPhase(s, prices, signals, p, tickers).trades
  {
    if tickers != [] {
      SellsOnlyAppend(s, prices, signals, p, tickers[..|tickers| - 1]);
    }
  }

  lemma BuysOnlyAppend(s: Settings, prices: map<string, Price>, signals: map<string, Signal>, active: seq<string>,
                       p: Portfolio, tickers: seq<string>)
    ensures p.trades <= BuyPhase(s, prices, signals, active, p, tickers).trades
  {
    var requests := BuyRequests(s, prices, signals, active, p.book, Equity(p.book, prices), tickers);
    FillsOnlyAppend(s, Granted(requests, p.book.cash, s.fee),
                    p.(book := TouchCandidates(signals, active, p.book, tickers)), requests);
  }

  lemma BarStepOnlyAppends(s: Settings, plan: Plan, signalIndex: nat, month: int, prices: map<string, Price>, p: Portfolio)
    ensures p.trades <= BarStep(s, plan, signalIndex, month, prices, p).trades
  {
    var active := s.ActiveTickers(month);
    var tickers := StrategyTickers(active, p.book);
    var signals := SignalsAt(plan, signalIndex, tickers);
    SellsOnlyAppend(s, prices, signals, p, tickers);
    BuysOnlyAppend(s, prices, signals, active, SellPhase(s, prices, signals, p, tickers), tickers);
  }

  lemma StepOnlyAppends(s: Settings, plan: Plan, bars: seq<Bar>, states: seq<Portfolio>, i: nat, j: nat)
    requires i < |states| <= |bars| && j < |states| && StepsTo(s, plan, bars, states, i, j)
    ensures states[i].trades <= states[j].trades
  {
    BarStepOnlyAppends(s, plan, i, bars[i].month, bars[j].prices, states[i]);
  }
}
