/** Where equity comes from, over one bar and over a whole run. */
module Attribution {
  import opened Reals
  import opened Sums
  import opened Accounting
  import opened Sizing
  import opened Simulation
  import opened MarkedRuns

  // ------------------------------------------------------- cost of trading

  /** What a fill loses against the bar's mark. */
  function Slippage(t: Trade, mark: real): real {
    if t.side.Buy? then Mul(t.qty, t.price) - Mul(t.qty, mark) else Mul(t.qty, mark) - Mul(t.qty, t.price)
  }

  function TradeCost(prices: map<string, Price>, t: Trade): real {
    t.fee + match MarkOf(prices, t.ticker) { case NaN => 0.0 case Num(v) => Slippage(t, v) }
  }

  function TradesCost(prices: map<string, Price>, trades: seq<Trade>): real {
    if trades == [] then 0.0 else
      TradesCost(prices, trades[..|trades| - 1]) + TradeCost(prices, trades[|trades| - 1])
  }

  /** The book's value with unmarked entries left out. */
  ghost function Value(b: Book, prices: map<string, Price>): real {
    b.cash + Worth(b, prices)
  }

  /** `q` follows `p` by trades recorded since, and is worth their cost less. */
  ghost predicate Costed(prices: map<string, Price>, p: Portfolio, q: Portfolio) {
    && p.trades <= q.trades
    && Value(q.book, prices) == Value(p.book, prices) - TradesCost(prices, q.trades[|p.trades|..])
  }

  lemma {:induction false} CostAppends(prices: map<string, Price>, a: seq<Trade>, b: seq<Trade>)
    ensures TradesCost(prices, a + b) == TradesCost(prices, a) + TradesCost(prices, b)
  {
    if b == [] {
      assert a + b == a;
    } else {
      var n := |b| - 1;
      CostAppends(prices, a, b[..n]);
      assert (a + b)[..|a + b| - 1] == a + b[..n];
    }
  }

  lemma CostedChain(prices: map<string, Price>, p: Portfolio, q: Portfolio, r: Portfolio)
    requires Costed(prices, p, q) && Costed(prices, q, r)
    ensures Costed(prices, p, r)
  {
    var a, b := q.trades[|p.trades|..], r.trades[|q.trades|..];
    CostAppends(prices, a, b);
    assert r.trades[|p.trades|..] == a + b;
  }

  lemma TouchKeepsValue(b: Book, t: string, prices: map<string, Price>)
    ensures Value(b.Touch(t), prices) == Value(b, prices)
  {
    WorthAt(b, b.Touch(t), prices, t);
  }

  lemma SellLosesCost(b: Book, t: string, qty: real, px: real, fee: real, prices: map<string, Price>)
    requires qty <= b.Qty(t) && MarkOf(prices, t).Num?
    ensures Value(b.ApplySell(t, qty, px, fee), prices)
         == Value(b, prices) - TradeCost(prices, Trade(t, Sell, qty, px, fee))
  {
    var v := MarkOf(prices, t).v;
    WorthAt(b, b.ApplySell(t, qty, px, fee), prices, t);
    assert Mul(b.Qty(t) - qty, v) == Mul(b.Qty(t), v) - Mul(qty, v);
  }

  lemma BuyLosesCost(b: Book, t: string, qty: real, px: real, fee: real, prices: map<string, Price>)
    requires b.Qty(t) + qty > 0.0 && MarkOf(prices, t).Num?
    ensures Value(b.ApplyBuy(t, qty, px, fee), prices)
         == Value(b, prices) - TradeCost(prices, Trade(t, Buy, qty, px, fee))
  {
    var v := MarkOf(prices, t).v;
    WorthAt(b, b.ApplyBuy(t, qty, px, fee), prices, t);
    assert Mul(b.Qty(t) + qty, v) == Mul(b.Qty(t), v) + Mul(qty, v);
  }

  lemma RecordedCost(prices: map<string, Price>, p: Portfolio, b: Book, t: Trade)
    requires Value(b, prices) == Value(p.book, prices) - TradeCost(prices, t)
    ensures Costed(prices, p, p.(book := b).Record(t))
  {
    var q := p.(book := b).Record(t);
    assert q.trades[|p.trades|..] == [t];
    assert TradesCost(prices, [t]) == TradesCost(prices, []) + TradeCost(prices, t);
  }

  lemma {:induction false} SellPhaseCosted(s: Settings, prices: map<string, Price>, signals: map<string, Signal>,
                                           p: Portfolio, tickers: seq<string>)
    ensures Costed(prices, p, SellPhase(s, prices, signals, p, tickers))
  {
    if tickers != [] {
      var n := |tickers| - 1;
      var q := SellPhase(s, prices, signals, p, tickers[..n]);
      SellPhaseCosted(s, prices, signals, p, tickers[..n]);
      SellTickerCosted(s, prices, signals, q, tickers[n]);
      CostedChain(prices, p, q, SellPhase(s, prices, signals, p, tickers));
    }
  }

  lemma SellTickerCosted(s: Settings, prices: map<string, Price>, signals: map<string, Signal>, q: Portfolio, t: string)
    ensures Costed(prices, q, SellTicker(s, prices, signals, q, t))
  {
    var b, px := q.book.Touch(t), SellPrice(s, prices, t);
    TouchKeepsValue(q.book, t, prices);
    if SignalOf(signals, t) == SellSignal && b.Qty(t) > 0.0 && px.Some? {
      SellLosesCost(b, t, b.Qty(t), px.value, s.fee, prices);
      RecordedCost(prices, q, b.ApplySell(t, b.Qty(t), px.value, s.fee), Trade(t, Sell, b.Qty(t), px.value, s.fee));
    }
  }

  lemma {:induction false} TouchesKeepValue(signals: map<string, Signal>, active: seq<string>, b: Book,
                                            tickers: seq<string>, prices: map<string, Price>)
    ensures Value(TouchCandidates(signals, active, b, tickers), prices) == Value(b, prices)
  {
    if tickers != [] {
      var n := |tickers| - 1;
      TouchesKeepValue(signals, active, b, tickers[..n], prices);
      TouchKeepsValue(TouchCandidates(signals, active, b, tickers[..n]), tickers[n], prices);
    }
  }

  /** Every request is for a ticker whose mark is a number. */
  lemma {:induction false} RequestsAreMarked(s: Settings, prices: map<string, Price>, signals: map<string, Signal>,
                                             active: seq<string>, b: Book, equity: Price, tickers: seq<string>)
    ensures forall r :: r in BuyRequests(s, prices, signals, active, b, equity, tickers) ==> MarkOf(prices, r.ticker).Num?
  {
    if tickers != [] {
      RequestsAreMarked(s, prices, signals, active, b, equity, tickers[..|tickers| - 1]);
    }
  }

  lemma {:induction false} FillBuysCosted(s: Settings, granted: map<string, real>, p: Portfolio, requests: seq<Request>,
                                          prices: map<string, Price>)
    requires forall r :: r in requests ==> MarkOf(prices, r.ticker).Num?
    ensures Costed(prices, p, FillBuys(s, granted, p, requests))
  {
    if requests != [] {
      var n := |requests| - 1;
      var q, r := FillBuys(s, granted, p, requests[..n]), requests[n];
      FillBuysCosted(s, granted, p, requests[..n], prices);
      var qty := Get(granted, r.ticker);
      if qty >= 1.0 && q.book.Qty(r.ticker) + qty > 0.0 {
        BuyLosesCost(q.book, r.ticker, qty, r.price, s.fee, prices);
        RecordedCost(prices, q, q.book.ApplyBuy(r.ticker, qty, r.price, s.fee), Trade(r.ticker, Buy, qty, r.price, s.fee));
        CostedChain(prices, p, q, FillBuys(s, granted, p, requests));
      }
    }
  }

  lemma BuyPhaseCosted(s: Settings, prices: map<string, Price>, signals: map<string, Signal>, active: seq<string>,
                       p: Portfolio, tickers: seq<string>)
    ensures Costed(prices, p, BuyPhase(s, prices, signals, active, p, tickers))
  {
    var equity := Equity(p.book, prices);
    var requests := BuyRequests(s, prices, signals, active, p.book, equity, tickers);
    var touched := p.(book := TouchCandidates(signals, active, p.book, tickers));
    RequestsAreMarked(s, prices, signals, active, p.book, equity, tickers);
    TouchesKeepValue(signals, active, p.book, tickers, prices);
    FillBuysCosted(s, Granted(requests, p.book.cash, s.fee), touched, requests, prices);
    CostedChain(prices, p, touched, BuyPhase(s, prices, signals, active, p, tickers));
  }

  /** Over one bar, at the bar's own marks, equity falls by exactly the cost of the bar's trades. */
  lemma BarStepCosted(s: Settings, plan: Plan, signalIndex: nat, month: int, prices: map<string, Price>, p: Portfolio)
    ensures Costed(prices, p, BarStep(s, plan, signalIndex, month, prices, p))
  {
    var active := s.ActiveTickers(month);
    var tickers := StrategyTickers(active, p.book);
    var signals := SignalsAt(plan, signalIndex, tickers);
    var sold := SellPhase(s, prices, signals, p, tickers);
    SellPhaseCosted(s, prices, signals, p, tickers);
    BuyPhaseCosted(s, prices, signals, active, sold, tickers);
    CostedChain(prices, p, sold, BarStep(s, plan, signalIndex, month, prices, p));
  }

  // ------------------------------------------------------------ gain on marks

  /** Every entry with a quantity has a mark that is a number; an entry of zero need not. */
  ghost predicate HeldMarked(b: Book, prices: map<string, Price>) {
    forall t :: b.Qty(t) != 0.0 ==> MarkOf(prices, t).Num?
  }

  function PriceChange(before: map<string, Price>, now: map<string, Price>, t: string): real {
    match (MarkOf(before, t), MarkOf(now, t))
    case (Num(u), Num(v)) => v - u
    case _ => 0.0
  }

  /** What the positions held into a bar gain from the bar before. */
  ghost function PriceGain(b: Book, before: map<string, Price>, now: map<string, Price>): real {
    Sum(b.positions.Keys, t => Mul(b.Qty(t), PriceChange(before, now, t)))
  }

  lemma HoldingGains(b: Book, before: map<string, Price>, now: map<string, Price>, t: string)
    requires b.Qty(t) != 0.0 ==> MarkOf(before, t).Num? && MarkOf(now, t).Num?
    ensures HoldingValue(b, now, t) == HoldingValue(b, before, t) + Mul(b.Qty(t), PriceChange(before, now, t))
  {
    if b.Qty(t) != 0.0 {
      var u, v := MarkOf(before, t).v, MarkOf(now, t).v;
      MulAdd(b.Qty(t), u, v - u);
    } else {
      assert forall x :: Mul(0.0, x) == 0.0;
    }
  }

  lemma GainIsWorthChange(b: Book, before: map<string, Price>, now: map<string, Price>)
    requires HeldMarked(b, before) && HeldMarked(b, now)
    ensures PriceGain(b, before, now) == Worth(b, now) - Worth(b, before)
  {
    forall t | t in b.positions
      ensures HoldingValue(b, now, t) == HoldingValue(b, before, t) + Mul(b.Qty(t), PriceChange(before, now, t))
    {
      HoldingGains(b, before, now, t);
    }
    SumAdd(b.positions.Keys, t => HoldingValue(b, before, t),
           t => Mul(b.Qty(t), PriceChange(before, now, t)), t => HoldingValue(b, now, t));
  }

  // --------------------------------------------------------------- whole runs

  ghost function BarGain(bars: seq<Bar>, states: seq<Portfolio>, i: nat, j: nat): real
    requires i < |states| <= |bars| && j < |states|
  {
    PriceGain(states[i].book, bars[i].prices, bars[j].prices)
  }

  /** The trades recorded since an earlier list. */
  function TradesSince(before: seq<Trade>, now: seq<Trade>): seq<Trade> {
    if |before| <= |now| then now[|before|..] else []
  }

  function BarCost(bars: seq<Bar>, states: seq<Portfolio>, i: nat, j: nat): real
    requires i < |states| <= |bars| && j < |states|
  {
    TradesCost(bars[j].prices, TradesSince(states[i].trades, states[j].trades))
  }

  ghost function TotalGain(bars: seq<Bar>, first: nat, states: seq<Portfolio>, j: nat): real
    requires j < |states| <= |bars|
  {
    if j <= first then 0.0 else TotalGain(bars, first, states, j - 1) + BarGain(bars, states, j - 1, j)
  }

  function TotalCost(bars: seq<Bar>, first: nat, states: seq<Portfolio>, j: nat): real
    requires j < |states| <= |bars|
  {
    if j <= first then 0.0 else TotalCost(bars, first, states, j - 1) + BarCost(bars, states, j - 1, j)
  }

  /** The value of the book at the close of bar `i`, unmarked entries left out. */
  ghost function ValueAt(bars: seq<Bar>, states: seq<Portfolio>, i: nat): real
    requires i < |states| <= |bars|
  {
    Value(states[i].book, bars[i].prices)
  }

  lemma ValueIsEquity(bars: seq<Bar>, states: seq<Portfolio>, i: nat)
    requires i < |states| <= |bars|
    ensures EquityAt(bars, states, i).Num? <==> EquityAt(bars, states, i) == Num(ValueAt(bars, states, i))
  {
  }

  /** What is held into a bar is marked at both its ends, so value changes by the gain less the cost. */
  lemma ValueStep(s: Settings, plan: Plan, bars: seq<Bar>, states: seq<Portfolio>, i: nat, j: nat)
    requires i < |states| <= |bars| && j < |states| && StepsTo(s, plan, bars, states, i, j)
    requires HeldMarked(states[i].book, bars[i].prices) && HeldMarked(states[i].book, bars[j].prices)
    ensures ValueAt(bars, states, j) == ValueAt(bars, states, i) + BarGain(bars, states, i, j) - BarCost(bars, states, i, j)
  {
    BarStepCosted(s, plan, i, bars[i].month, bars[j].prices, states[i]);
    GainIsWorthChange(states[i].book, bars[i].prices, bars[j].prices);
  }

  // --------------------------------------------------------------- one bar

  /** Every ticker held has an entry among the prices, a number or not. */
  ghost predicate Listed(b: Book, prices: map<string, Price>) {
    forall t :: b.Qty(t) != 0.0 ==> t in prices
  }

  /**
   One bar, whatever was signalled and when: if its two equities are numbers, they differ by the price
   gain on what was held into it, less the bar's trading cost.
   */
  lemma BarAttribution(s: Settings, plan: Plan, bars: seq<Bar>, states: seq<Portfolio>, i: nat, j: nat)
    requires i < |states| <= |bars| && j < |states| && StepsTo(s, plan, bars, states, i, j)
    requires Listed(states[i].book, bars[i].prices) && Listed(states[i].book, bars[j].prices)
    requires EquityAt(bars, states, i).Num? && EquityAt(bars, states, j).Num?
    ensures EquityAt(bars, states, j).v - EquityAt(bars, states, i).v
         == BarGain(bars, states, i, j) - BarCost(bars, states, i, j)
  {
    StepKeys(s, plan, bars, states, i, j);
    EntriesAreMarked(states[i].book, states[i].book, bars[i].prices);
    EntriesAreMarked(states[i].book, states[j].book, bars[j].prices);
    ValueStep(s, plan, bars, states, i, j);
    ValueIsEquity(bars, states, i);
    ValueIsEquity(bars, states, j);
  }

  lemma EntriesAreMarked(b: Book, later: Book, prices: map<string, Price>)
    requires Listed(b, prices) && b.positions.Keys <= later.positions.Keys && Equity(later, prices).Num?
    ensures HeldMarked(b, prices)
  {
    forall t | b.Qty(t) != 0.0
      ensures MarkOf(prices, t).Num?
    {
      assert t in later.positions && t in prices;
    }
  }

  // -------------------------------------------------- what is held stays marked

  lemma {:induction false} SellsKeepMarked(s: Settings, prices: map<string, Price>, signals: map<string, Signal>,
                                           p: Portfolio, tickers: seq<string>)
    requires HeldMarked(p.book, prices)
    ensures HeldMarked(SellPhase(s, prices, signals, p, tickers).book, prices)
  {
    if tickers != [] {
      var n := |tickers| - 1;
      SellsKeepMarked(s, prices, signals, p, tickers[..n]);
      SellKeepsMarked(s, prices, signals, SellPhase(s, prices, signals, p, tickers[..n]), tickers[n]);
    }
  }

  lemma SellKeepsMarked(s: Settings, prices: map<string, Price>, signals: map<string, Signal>, p: Portfolio, t: string)
    requires HeldMarked(p.book, prices)
    ensures HeldMarked(SellTicker(s, prices, signals, p, t).book, prices)
  {
    var q := SellTicker(s, prices, signals, p, t);
    forall x | q.book.Qty(x) != 0.0
      ensures MarkOf(prices, x).Num?
    {
      assert p.book.Qty(x) != 0.0;
    }
  }

  lemma {:induction false} TouchesKeepQuantities(signals: map<string, Signal>, active: seq<string>, b: Book,
                                                 tickers: seq<string>, t: string)
    ensures TouchCandidates(signals, active, b, tickers).Qty(t) == b.Qty(t)
  {
    if tickers != [] {
      TouchesKeepQuantities(signals, active, b, tickers[..|tickers| - 1], t);
    }
  }

  lemma {:induction false} FillsKeepMarked(s: Settings, granted: map<string, real>, p: Portfolio, requests: seq<Request>,
                                           prices: map<string, Price>)
    requires HeldMarked(p.book, prices) && forall r :: r in requests ==> MarkOf(prices, r.ticker).Num?
    ensures HeldMarked(FillBuys(s, granted, p, requests).book, prices)
  {
    if requests != [] {
      var n := |requests| - 1;
      var before, after := FillBuys(s, granted, p, requests[..n]), FillBuys(s, granted, p, requests);
      FillsKeepMarked(s, granted, p, requests[..n], prices);
      forall t | after.book.Qty(t) != 0.0
        ensures MarkOf(prices, t).Num?
      {
        assert t == requests[n].ticker || before.book.Qty(t) != 0.0;
      }
    }
  }

  lemma BuysKeepMarked(s: Settings, prices: map<string, Price>, signals: map<string, Signal>, active: seq<string>,
                       p: Portfolio, tickers: seq<string>)
    requires HeldMarked(p.book, prices)
    ensures HeldMarked(BuyPhase(s, prices, signals, active, p, tickers).book, prices)
  {
    var equity := Equity(p.book, prices);
    var requests := BuyRequests(s, prices, signals, active, p.book, equity, tickers);
    var touched := p.(book := TouchCandidates(signals, active, p.book, tickers));
    forall t | touched.book.Qty(t) != 0.0
      ensures MarkOf(prices, t).Num?
    {
      TouchesKeepQuantities(signals, active, p.book, tickers, t);
    }
    RequestsAreMarked(s, prices, signals, active, p.book, equity, tickers);
    FillsKeepMarked(s, Granted(requests, p.book.cash, s.fee), touched, requests, prices);
  }

  /** Only what has a mark is bought or sold, so marked holdings stay marked through a bar. */
  lemma StepKeepsMarked(s: Settings, plan: Plan, bars: seq<Bar>, states: seq<Portfolio>, i: nat, j: nat)
    requires i < |states| <= |bars| && j < |states| && StepsTo(s, plan, bars, states, i, j)
    requires HeldMarked(states[i].book, bars[j].prices)
    ensures HeldMarked(states[j].book, bars[j].prices)
  {
    var prices, active := bars[j].prices, s.ActiveTickers(bars[i].month);
    var tickers := StrategyTickers(active, states[i].book);
    var signals := SignalsAt(plan, i, tickers);
    SellsKeepMarked(s, prices, signals, states[i], tickers);
    BuysKeepMarked(s, prices, signals, active, SellPhase(s, prices, signals, states[i], tickers), tickers);
  }

  lemma MarkedLater(bars: seq<Bar>, b: Book, i: nat, j: nat)
    requires MarksPersist(bars) && i <= j < |bars| && HeldMarked(b, bars[i].prices)
    ensures HeldMarked(b, bars[j].prices)
  {
    forall t | b.Qty(t) != 0.0
      ensures MarkOf(bars[j].prices, t).Num?
    {
      assert MarkOf(bars[i].prices, t).Num?;
    }
  }

  // ------------------------------------------------------------- the whole run

  lemma FlatBook(b: Book, prices: map<string, Price>)
    requires b.positions == map[]
    ensures HeldMarked(b, prices) && Value(b, prices) == b.cash
  {
    assert b.positions.Keys == {};
  }

  /** In a run that starts flat, whatever is held at a bar has a mark there. */
  lemma {:induction false} RunHoldsMarked(s: Settings, plan: Plan, bars: seq<Bar>, first: nat, states: seq<Portfolio>, j: nat)
    requires IsRun(s, plan, bars, first, states) && MarksPersist(bars)
    requires states[first].book.positions == map[] && first <= j < |states|
    ensures HeldMarked(states[j].book, bars[j].prices)
  {
    if j == first {
      FlatBook(states[first].book, bars[first].prices);
    } else {
      var i := j - 1;
      RunHoldsMarked(s, plan, bars, first, states, i);
      assert StepsTo(s, plan, bars, states, i, j);
      MarkedLater(bars, states[i].book, i, j);
      StepKeepsMarked(s, plan, bars, states, i, j);
    }
  }

  lemma RunValueStep(s: Settings, plan: Plan, bars: seq<Bar>, first: nat, states: seq<Portfolio>, i: nat, j: nat)
    requires IsRun(s, plan, bars, first, states) && MarksPersist(bars)
    requires states[first].book.positions == map[] && first <= i && j == i + 1 && j < |states|
    ensures ValueAt(bars, states, j) == ValueAt(bars, states, i) + BarGain(bars, states, i, j) - BarCost(bars, states, i, j)
  {
    RunHoldsMarked(s, plan, bars, first, states, i);
    MarkedLater(bars, states[i].book, i, j);
    assert StepsTo(s, plan, bars, states, i, j);
    ValueStep(s, plan, bars, states, i, j);
  }

  /** Value at the marks, over a run that starts flat: the cash it started with, plus gains, less costs. */
  lemma {:induction false} RunValue(s: Settings, plan: Plan, bars: seq<Bar>, first: nat, states: seq<Portfolio>, j: nat)
    requires IsRun(s, plan, bars, first, states) && MarksPersist(bars)
    requires states[first].book.positions == map[] && first <= j < |states|
    ensures ValueAt(bars, states, j)
         == states[first].book.cash + TotalGain(bars, first, states, j) - TotalCost(bars, first, states, j)
  {
    if j == first {
      FlatBook(states[first].book, bars[first].prices);
    } else {
      var i := j - 1;
      RunValue(s, plan, bars, first, states, i);
      RunValueStep(s, plan, bars, first, states, i, j);
    }
  }

  /** Equity at bar `j` is the starting cash plus all price gains, less all slippage and fees. */
  ghost predicate Attributed(bars: seq<Bar>, first: nat, states: seq<Portfolio>, j: nat)
    requires first <= j < |states| <= |bars|
  {
    EquityAt(bars, states, j)
    == Num(states[first].book.cash + TotalGain(bars, first, states, j) - TotalCost(bars, first, states, j))
  }

  /**
   The whole run, for every strategy: equity at a bar is attributed if and only if it is a number, and
   that is so if and only if no ticker signalled before has, at that bar, a mark that is no number.
   */
  lemma RunAttribution(s: Settings, plan: Plan, bars: seq<Bar>, first: nat, states: seq<Portfolio>, j: nat)
    requires IsRun(s, plan, bars, first, states) && MarksPersist(bars)
    requires states[first].book.positions == map[] && first <= j < |states|
    ensures Attributed(bars, first, states, j) <==> EquityAt(bars, states, j).Num?
    ensures Attributed(bars, first, states, j)
       <==> forall t :: t in bars[j].prices && bars[j].prices[t].NaN? ==> !SignalledBefore(s, plan, bars, first, j, t)
  {
    RunValue(s, plan, bars, first, states, j);
    ValueIsEquity(bars, states, j);
    EquityIsNumberExactly(s, plan, bars, first, states, j);
  }

  /** A fill at the slippage price loses that rate of the traded value, beside its fee. */
  lemma SlippageIsRate(s: Settings, t: Trade, mark: real)
    requires t.price == Mul(mark, if t.side.Buy? then s.BuyMultiplier() else s.SellMultiplier())
    ensures Slippage(t, mark) == t.qty * mark * (s.slippageBps / BASIS_POINTS_DIVISOR)
  {
    var rate := s.slippageBps / BASIS_POINTS_DIVISOR;
    assert t.qty * (mark * (1.0 + rate)) == t.qty * mark + t.qty * mark * rate;
    assert t.qty * (mark * (1.0 - rate)) == t.qty * mark - t.qty * mark * rate;
  }
}
