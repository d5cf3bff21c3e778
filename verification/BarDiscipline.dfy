/** One bar at a time: which trades it records, what it spends, and what it looks at. */
module BarDiscipline {
  import opened Reals
  import opened Sums
  import opened Accounting
  import opened Sizing
  import opened Simulation
  import opened TradeHistory

  // --------------------------------------------------------- a bar's trades

  /** The bar's price for a side: its mark moved by the slippage rate. */
  function SidePrice(s: Settings, mark: real, side: Side): real {
    Mul(mark, if side.Buy? then s.BuyMultiplier() else s.SellMultiplier())
  }

  /** A trade its signal asked for, at a tradeable mark moved by the slippage rate. */
  ghost predicate Signalled(s: Settings, prices: map<string, Price>, signals: map<string, Signal>, t: Trade) {
    && t.qty > 0.0 && t.fee == s.fee
    && Tradeable(MarkOf(prices, t.ticker)).Some?
    && t.price == SidePrice(s, MarkOf(prices, t.ticker).v, t.side)
    && SignalOf(signals, t.ticker) == (if t.side.Buy? then BuySignal else SellSignal)
  }

  /** `q` follows `p` by signalled trades of one side, in distinct tickers of `among`. */
  ghost predicate TradedOnce(s: Settings, prices: map<string, Price>, signals: map<string, Signal>, side: Side,
                             among: set<string>, p: Portfolio, q: Portfolio) {
    && p.trades <= q.trades
    && (forall i :: |p.trades| <= i < |q.trades| ==>
        Signalled(s, prices, signals, q.trades[i]) && q.trades[i].side == side && q.trades[i].ticker in among)
    && (forall i, j :: |p.trades| <= i < j < |q.trades| ==> q.trades[i].ticker != q.trades[j].ticker)
  }

  lemma {:induction false} SellsTradeOnce(s: Settings, prices: map<string, Price>, signals: map<string, Signal>,
                                          p: Portfolio, tickers: seq<string>)
    requires Distinct(tickers)
    ensures TradedOnce(s, prices, signals, Sell, (set t | t in tickers), p, SellPhase(s, prices, signals, p, tickers))
  {
    if tickers != [] {
      var n := |tickers| - 1;
      SellsTradeOnce(s, prices, signals, p, tickers[..n]);
      assert tickers[n] !in tickers[..n];
    }
  }

  lemma {:induction false} FillsTradeOnce(s: Settings, prices: map<string, Price>, signals: map<string, Signal>,
                                          b: Book, tickers: seq<string>, granted: map<string, real>,
                                          p: Portfolio, requests: seq<Request>)
    requires DistinctTickers(requests)
    requires forall r :: r in requests ==> GoodRequest(s, prices, signals, b, tickers, r)
    ensures TradedOnce(s, prices, signals, Buy, (set r | r in requests :: r.ticker), p, FillBuys(s, granted, p, requests))
  {
    if requests != [] {
      var n := |requests| - 1;
      FillsTradeOnce(s, prices, signals, b, tickers, granted, p, requests[..n]);
      assert GoodRequest(s, prices, signals, b, tickers, requests[n]);
      forall r | r in requests[..n]
        ensures r.ticker != requests[n].ticker
      {
        var i :| 0 <= i < n && requests[..n][i] == r;
        assert requests[i] == r;
      }
      assert (set r | r in requests[..n] :: r.ticker) <= (set r | r in requests :: r.ticker);
    }
  }

  /** The trades of one bar: signalled, sells before buys, no ticker twice. */
  ghost predicate BarTraded(s: Settings, prices: map<string, Price>, signals: map<string, Signal>, p: Portfolio, q: Portfolio) {
    && p.trades <= q.trades
    && (forall i :: |p.trades| <= i < |q.trades| ==> Signalled(s, prices, signals, q.trades[i]))
    && (forall i, j :: |p.trades| <= i < j < |q.trades| ==>
        q.trades[i].ticker != q.trades[j].ticker && (q.trades[i].side.Buy? ==> q.trades[j].side.Buy?))
  }

  lemma SellsThenBuys(s: Settings, prices: map<string, Price>, signals: map<string, Signal>, x: set<string>, y: set<string>,
                      p: Portfolio, sold: Portfolio, q: Portfolio)
    requires TradedOnce(s, prices, signals, Sell, x, p, sold) && TradedOnce(s, prices, signals, Buy, y, sold, q)
    ensures BarTraded(s, prices, signals, p, q)
  {
    forall i | |p.trades| <= i < |sold.trades|
      ensures q.trades[i] == sold.trades[i]
    {
    }
  }

  /** Every trade of a bar follows its own signal, and no ticker trades twice in a bar. */
  lemma BarTradesOnce(s: Settings, plan: Plan, signalIndex: nat, month: int, prices: map<string, Price>, p: Portfolio)
    ensures var tickers := StrategyTickers(s.ActiveTickers(month), p.book);
            BarTraded(s, prices, SignalsAt(plan, signalIndex, tickers), p, BarStep(s, plan, signalIndex, month, prices, p))
  {
    var active := s.ActiveTickers(month);
    var tickers := StrategyTickers(active, p.book);
    var signals := SignalsAt(plan, signalIndex, tickers);
    var sold := SellPhase(s, prices, signals, p, tickers);
    SellsTradeOnce(s, prices, signals, p, tickers);
    BuysTradeOnce(s, prices, signals, active, sold, tickers);
    var y :| TradedOnce(s, prices, signals, Buy, y, sold, BuyPhase(s, prices, signals, active, sold, tickers));
    SellsThenBuys(s, prices, signals, (set t | t in tickers), y, p, sold, BarStep(s, plan, signalIndex, month, prices, p));
  }

  lemma BuysTradeOnce(s: Settings, prices: map<string, Price>, signals: map<string, Signal>, active: seq<string>,
                      p: Portfolio, tickers: seq<string>)
    requires Distinct(tickers)
    ensures exists y :: TradedOnce(s, prices, signals, Buy, y, p, BuyPhase(s, prices, signals, active, p, tickers))
  {
    var equity := Equity(p.book, prices);
    var requests := BuyRequests(s, prices, signals, active, p.book, equity, tickers);
    var touched := p.(book := TouchCandidates(signals, active, p.book, tickers));
    RequestsAreGood(s, prices, signals, active, p.book, equity, tickers);
    FillsTradeOnce(s, prices, signals, p.book, tickers, Granted(requests, p.book.cash, s.fee), touched, requests);
    assert TradedOnce(s, prices, signals, Buy, (set r | r in requests :: r.ticker), p,
                      BuyPhase(s, prices, signals, active, p, tickers));
  }

  // ------------------------------------------------------------------- cash

  /** What the filled buys of a request list cost together. */
  function FilledCost(s: Settings, granted: map<string, real>, requests: seq<Request>): real {
    if requests == [] then 0.0 else
      var r := requests[|requests| - 1];
      FilledCost(s, granted, requests[..|requests| - 1]) +
      if Get(granted, r.ticker) >= 1.0 then BuyCost(Get(granted, r.ticker), r.price, s.fee) else 0.0
  }

  lemma {:induction false} FillsSpend(s: Settings, granted: map<string, real>, p: Portfolio, requests: seq<Request>)
    requires forall t :: p.book.Qty(t) >= 0.0
    ensures var q := FillBuys(s, granted, p, requests);
            q.book.cash == p.book.cash - FilledCost(s, granted, requests) && forall t :: q.book.Qty(t) >= 0.0
  {
    if requests != [] {
      var before, after := FillBuys(s, granted, p, requests[..|requests| - 1]), FillBuys(s, granted, p, requests);
      FillsSpend(s, granted, p, requests[..|requests| - 1]);
      forall t ensures after.book.Qty(t) >= 0.0 {
        assert before.book.Qty(t) >= 0.0;
      }
      assert before.book.Qty(requests[|requests| - 1].ticker) >= 0.0;
    }
  }

  lemma {:induction false} FilledCostIsSpend(s: Settings, granted: map<string, real>, requests: seq<Request>)
    requires DistinctTickers(requests) && forall r :: r in requests ==> Fundable(r)
    ensures FilledCost(s, granted, requests)
         == Sum(ByTicker(requests).Keys, t => FillCost(s, granted, ByTicker(requests), t))
  {
    if requests != [] {
      var n := |requests| - 1;
      var before, now := ByTicker(requests[..n]), ByTicker(requests);
      var r := requests[n];
      FilledCostIsSpend(s, granted, requests[..n]);
      NextIsNew(requests, n);
      assert requests[..n + 1] == requests && r in requests;
      SumPick(now.Keys, t => FillCost(s, granted, now, t), r.ticker);
      assert now.Keys - {r.ticker} == before.Keys;
      SumSame(before.Keys, t => FillCost(s, granted, before, t), t => FillCost(s, granted, now, t));
    }
  }

  ghost function FillCost(s: Settings, granted: map<string, real>, asks: map<string, Request>, t: string): real {
    if t in asks && Get(granted, t) >= 1.0 then BuyCost(Get(granted, t), asks[t].price, s.fee) else 0.0
  }

  lemma {:induction false} TouchesKeepCash(signals: map<string, Signal>, active: seq<string>, b: Book, tickers: seq<string>)
    ensures var c := TouchCandidates(signals, active, b, tickers);
            c.cash == b.cash && forall t :: c.Qty(t) == b.Qty(t)
  {
    if tickers != [] {
      TouchesKeepCash(signals, active, b, tickers[..|tickers| - 1]);
    }
  }

  lemma FilledCostIsSpent(s: Settings, granted: map<string, real>, requests: seq<Request>, cash: real)
    requires DistinctTickers(requests) && forall r :: r in requests ==> Fundable(r)
    requires granted == Granted(requests, cash, s.fee)
    ensures forall t :: t in granted ==> t in ByTicker(requests)
    ensures FilledCost(s, granted, requests) == Spend(ByTicker(requests), granted, s.fee)
  {
    ByTickerPriced(requests);
    var asks := ByTicker(requests);
    FilledCostIsSpend(s, granted, requests);
    var spent := map t | t in granted :: BuyCost(granted[t], asks[t].price, s.fee);
    assert spent.Keys == granted.Keys;
    SumSame(granted.Keys, t => Get(spent, t), t => FillCost(s, granted, asks, t));
    SumWiden(granted.Keys, asks.Keys, t => FillCost(s, granted, asks, t));
  }

  /** A sized request costs no more than the cash it was sized against. */
  lemma RequestWithinCash(s: Settings, prices: map<string, Price>, signals: map<string, Signal>, active: seq<string>,
                          b: Book, equity: Price, t: string)
    ensures var r := BuyRequest(s, prices, signals, active, b, equity, t);
            r.Some? ==> CostOf(r.value, s.fee) <= b.cash
  {
    var mark := Tradeable(MarkOf(prices, t));
    if mark.Some? {
      var px := Mul(mark.value, s.BuyMultiplier());
      ChosenWithinCash(b.cash, px, s.fee, s.pct, Mul(b.Qty(t), mark.value), equity);
    }
  }

  lemma {:induction false} RequestsWithinCash(s: Settings, prices: map<string, Price>, signals: map<string, Signal>,
                                              active: seq<string>, b: Book, equity: Price, tickers: seq<string>)
    ensures forall r :: r in BuyRequests(s, prices, signals, active, b, equity, tickers) ==> CostOf(r, s.fee) <= b.cash
  {
    if tickers != [] {
      var n := |tickers| - 1;
      RequestsWithinCash(s, prices, signals, active, b, equity, tickers[..n]);
      RequestWithinCash(s, prices, signals, active, b, equity, tickers[n]);
    }
  }

  /** Requests that each keep to cash spend no more than the larger of cash and nothing, for every fee. */
  lemma SizedSpendFits(s: Settings, requests: seq<Request>, cash: real)
    requires DistinctTickers(requests) && forall r :: r in requests ==> CostOf(r, s.fee) <= cash
    ensures SpendFits(requests, cash, s.fee) && !DividesByZero(requests, cash, s.fee)
  {
    if cash >= 0.0 {
      AllocationFitsCash(requests, cash, s.fee);
    } else {
      ByTickerPriced(requests);
      var asks := ByTicker(requests);
      forall t | t in asks
        ensures CostOf(asks[t], s.fee) <= cash
      {
        ByTickerExact(requests, asks[t]);
      }
      NegativeCostsAddUp(asks, cash, s.fee);
      if asks != map[] {
        CoveredSpendIsTotal(asks, Granted(requests, cash, s.fee), Total(CostMap(asks, s.fee)), cash, s.fee);
      } else {
        NothingAsked(requests, cash, s.fee);
      }
    }
  }

  /**
   A buy phase never takes cash below zero, nor any lower when it already is: for every fee, and for
   every book without a short position.
   */
  lemma BuysNeverOverspend(s: Settings, prices: map<string, Price>, signals: map<string, Signal>, active: seq<string>,
                           p: Portfolio, tickers: seq<string>)
    requires Distinct(tickers) && forall t :: p.book.Qty(t) >= 0.0
    ensures BuyPhase(s, prices, signals, active, p, tickers).book.cash >= Min(0.0, p.book.cash)
  {
    var equity := Equity(p.book, prices);
    var requests := BuyRequests(s, prices, signals, active, p.book, equity, tickers);
    var granted := Granted(requests, p.book.cash, s.fee);
    var touched := p.(book := TouchCandidates(signals, active, p.book, tickers));
    RequestsAreGood(s, prices, signals, active, p.book, equity, tickers);
    RequestsWithinCash(s, prices, signals, active, p.book, equity, tickers);
    TouchesKeepCash(signals, active, p.book, tickers);
    FillsSpend(s, granted, touched, requests);
    FilledCostIsSpent(s, granted, requests, p.book.cash);
    SizedSpendFits(s, requests, p.book.cash);
    SpentWithin(p.book.cash, FilledCost(s, granted, requests));
  }

  lemma SpentWithin(cash: real, spent: real)
    requires spent <= Max(0.0, cash)
    ensures cash - spent >= Min(0.0, cash)
  {
  }

  // ------------------------------------------------------ cash over whole runs

  /** Every sell recorded from position `from` on brought in at least its fee. */
  ghost predicate SellsPay(trades: seq<Trade>, from: nat) {
    forall n :: from <= n < |trades| && trades[n].side.Sell? ==> SellProceeds(trades[n].qty, trades[n].price, trades[n].fee) >= 0.0
  }

  lemma {:induction false} PayingSellsRaiseCash(s: Settings, prices: map<string, Price>, signals: map<string, Signal>,
                                                p: Portfolio, tickers: seq<string>)
    requires SellsPay(SellPhase(s, prices, signals, p, tickers).trades, |p.trades|)
    ensures p.trades <= SellPhase(s, prices, signals, p, tickers).trades
    ensures SellPhase(s, prices, signals, p, tickers).book.cash >= p.book.cash
  {
    SellsOnlyAppend(s, prices, signals, p, tickers);
    if tickers != [] {
      var n := |tickers| - 1;
      var before, after := SellPhase(s, prices, signals, p, tickers[..n]), SellPhase(s, prices, signals, p, tickers);
      SellsOnlyAppend(s, prices, signals, p, tickers[..n]);
      assert before.trades <= after.trades;
      PayingSellsRaiseCash(s, prices, signals, p, tickers[..n]);
      if after.trades != before.trades {
        var trade := after.trades[|before.trades|];
        assert trade.side.Sell?;
      }
    }
  }

  lemma BarKeepsCash(s: Settings, plan: Plan, signalIndex: nat, month: int, prices: map<string, Price>, p: Portfolio,
                     initialCash: real)
    requires Orderly(p, initialCash) && p.book.cash >= 0.0
    requires SellsPay(BarStep(s, plan, signalIndex, month, prices, p).trades, |p.trades|)
    ensures BarStep(s, plan, signalIndex, month, prices, p).book.cash >= 0.0
  {
    var active := s.ActiveTickers(month);
    var tickers := StrategyTickers(active, p.book);
    var signals := SignalsAt(plan, signalIndex, tickers);
    var sold := SellPhase(s, prices, signals, p, tickers);
    BuysOnlyAppend(s, prices, signals, active, sold, tickers);
    EarlierSellsPay(sold.trades, BarStep(s, plan, signalIndex, month, prices, p).trades, |p.trades|);
    PayingSellsRaiseCash(s, prices, signals, p, tickers);
    SellPhaseKeepsOrder(s, prices, signals, p, tickers, initialCash);
    forall t
      ensures sold.book.Qty(t) >= 0.0
    {
      OrderlyIsLong(sold, t, initialCash);
    }
    BuysNeverOverspend(s, prices, signals, active, sold, tickers);
  }

  lemma EarlierSellsPay(before: seq<Trade>, now: seq<Trade>, from: nat)
    requires before <= now && SellsPay(now, from)
    ensures SellsPay(before, from)
  {
    assert forall n :: 0 <= n < |before| ==> before[n] == now[n];
  }

  lemma StepKeepsCash(s: Settings, plan: Plan, bars: seq<Bar>, states: seq<Portfolio>, i: nat, j: nat, initialCash: real)
    requires i < |states| <= |bars| && j < |states| && StepsTo(s, plan, bars, states, i, j)
    requires Orderly(states[i], initialCash) && states[i].book.cash >= 0.0 && SellsPay(states[j].trades, |states[i].trades|)
    ensures states[j].book.cash >= 0.0
  {
    BarKeepsCash(s, plan, i, bars[i].month, bars[j].prices, states[i], initialCash);
  }

  /**
   Over every run from cash of zero or more, for every fee and slippage: cash falls below zero only
   if some recorded sell brought in less than its fee. Buying never does it.
   */
  lemma {:induction false} CashFallsOnlyThroughSells(s: Settings, plan: Plan, bars: seq<Bar>, first: nat,
                                                     states: seq<Portfolio>, initialCash: real, j: nat)
    requires IsRun(s, plan, bars, first, states) && states[first] == Start(initialCash) && first <= j < |states|
    requires initialCash >= 0.0 && SellsPay(states[j].trades, 0)
    ensures states[j].book.cash >= 0.0
  {
    if j > first {
      var i := j - 1;
      assert StepsTo(s, plan, bars, states, i, j);
      StepOnlyAppends(s, plan, bars, states, i, j);
      EarlierSellsPay(states[i].trades, states[j].trades, 0);
      CashFallsOnlyThroughSells(s, plan, bars, first, states, initialCash, i);
      RunIsOrderly(s, plan, bars, first, states, initialCash, i);
      StepKeepsCash(s, plan, bars, states, i, j, initialCash);
    }
  }
}
