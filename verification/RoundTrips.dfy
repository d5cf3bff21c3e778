/** The smallest runs that trade: one ticker, bought at one mark and sold at the next. */
module RoundTrips {
  import opened Outcomes
  import opened Reals
  import opened Sums
  import opened Accounting
  import opened Sizing
  import opened Simulation
  import opened BarDiscipline

  function RoundTripPlan(t: string): Plan {
    map[t := [BuySignal, SellSignal]]
  }

  function OnePrice(t: string, mark: real): map<string, Price> {
    map[t := Num(mark)]
  }

  // ------------------------------------------------------- a bar that only buys

  lemma {:induction false} NobodySells(s: Settings, prices: map<string, Price>, signals: map<string, Signal>,
                                       p: Portfolio, tickers: seq<string>)
    requires forall t :: SignalOf(signals, t) != SellSignal
    ensures SellPhase(s, prices, signals, p, tickers) == p
  {
    if tickers != [] {
      NobodySells(s, prices, signals, p, tickers[..|tickers| - 1]);
    }
  }

  lemma {:induction false} OneBuyer(s: Settings, prices: map<string, Price>, signals: map<string, Signal>, active: seq<string>,
                                    b: Book, equity: Price, tickers: seq<string>, t: string, r: Request)
    requires Distinct(tickers) && (forall x :: SignalOf(signals, x) == BuySignal ==> x == t)
    requires BuyRequest(s, prices, signals, active, b, equity, t) == Some(r)
    ensures BuyRequests(s, prices, signals, active, b, equity, tickers) == if t in tickers then [r] else []
  {
    if tickers != [] {
      var n := |tickers| - 1;
      OneBuyer(s, prices, signals, active, b, equity, tickers[..n], t, r);
      assert tickers[n] !in tickers[..n];
      assert tickers == tickers[..n] + [tickers[n]];
    }
  }

  /** Cash and percentages allow one share at this price. */
  ghost predicate BuysOne(price: real, fee: real, pct: SizingPct, cash: real) {
    && price > 0.0 && cash > 0.0 && price <= cash - fee
    && price <= Mul(cash, pct.trade / 100.0)
    && price <= Mul(cash, pct.position / 100.0)
  }

  lemma OneIsChosen(price: real, fee: real, pct: SizingPct, cash: real)
    requires BuysOne(price, fee, pct, cash)
    ensures ChooseBuyQty(cash, price, fee, pct, 0.0, Num(cash)) >= 1.0
  {
    var spendable := Min(Min(Max(0.0, cash - fee), Mul(cash, pct.trade / 100.0)), Max(0.0, Mul(cash, pct.position / 100.0)));
    WholeShareAffordable(spendable, price);
  }

  /** What a buyer without a position asks for. */
  function FirstAsk(s: Settings, t: string, mark: real, cash: real): Request {
    var price := Mul(mark, s.BuyMultiplier());
    Request(t, price, ChooseBuyQty(cash, price, s.fee, s.pct, 0.0, Num(cash)))
  }

  lemma FirstRequest(s: Settings, signals: map<string, Signal>, active: seq<string>, t: string, mark: real, cash: real)
    requires BuyCandidate(signals, active, t) && mark > 0.0 && BuysOne(Mul(mark, s.BuyMultiplier()), s.fee, s.pct, cash)
    ensures BuyRequest(s, OnePrice(t, mark), signals, active, Start(cash).book, Num(cash), t) == Some(FirstAsk(s, t, mark, cash))
    ensures Fundable(FirstAsk(s, t, mark, cash)) && CostOf(FirstAsk(s, t, mark, cash), s.fee) <= cash
  {
    var price := Mul(mark, s.BuyMultiplier());
    OneIsChosen(price, s.fee, s.pct, cash);
    ChosenWithinCash(cash, price, s.fee, s.pct, 0.0, Num(cash));
    assert Mul(0.0, mark) == 0.0;
  }

  lemma OneIsGranted(r: Request, cash: real, fee: real)
    requires Fundable(r) && CostOf(r, fee) <= cash
    ensures r.ticker in Granted([r], cash, fee) && Granted([r], cash, fee)[r.ticker] == r.qty
  {
    OneRequest(r, fee);
    FullFundingWhenCovered([r], cash, fee, r);
  }

  /** A portfolio that holds `qty` of a ticker and this much cash. */
  ghost predicate Holding(p: Portfolio, t: string, qty: real, cash: real) {
    p.book.Qty(t) == qty && p.book.cash == cash
  }

  lemma OneIsFilled(s: Settings, granted: map<string, real>, p: Portfolio, r: Request)
    requires Get(granted, r.ticker) == r.qty >= 1.0 && p.book.Qty(r.ticker) == 0.0
    ensures Holding(FillBuys(s, granted, p, [r]), r.ticker, r.qty, p.book.cash - CostOf(r, s.fee))
  {
    assert [r][..0] == [];
  }

  lemma OnlyRequestIsFilled(s: Settings, prices: map<string, Price>, signals: map<string, Signal>, active: seq<string>,
                            p: Portfolio, tickers: seq<string>, r: Request)
    requires BuyRequests(s, prices, signals, active, p.book, Equity(p.book, prices), tickers) == [r]
    requires Fundable(r) && CostOf(r, s.fee) <= p.book.cash && p.book.Qty(r.ticker) == 0.0
    ensures Holding(BuyPhase(s, prices, signals, active, p, tickers), r.ticker, r.qty, p.book.cash - CostOf(r, s.fee))
  {
    OneIsGranted(r, p.book.cash, s.fee);
    TouchesKeepCash(signals, active, p.book, tickers);
    OneIsFilled(s, Granted([r], p.book.cash, s.fee), p.(book := TouchCandidates(signals, active, p.book, tickers)), r);
  }

  lemma FirstSignals(t: string, tickers: seq<string>)
    requires t in tickers
    ensures var signals := SignalsAt(RoundTripPlan(t), 0, tickers);
            SignalOf(signals, t) == BuySignal && forall x :: x != t ==> SignalOf(signals, x) == Hold
  {
  }

  lemma FirstBuyPhase(s: Settings, t: string, active: seq<string>, tickers: seq<string>, signals: map<string, Signal>,
                      mark: real, cash: real)
    requires mark > 0.0 && BuysOne(Mul(mark, s.BuyMultiplier()), s.fee, s.pct, cash)
    requires BuyCandidate(signals, active, t) && t in tickers && Distinct(tickers)
    requires forall x :: SignalOf(signals, x) == BuySignal ==> x == t
    ensures var r := FirstAsk(s, t, mark, cash);
            Holding(BuyPhase(s, OnePrice(t, mark), signals, active, Start(cash), tickers), t, r.qty, cash - CostOf(r, s.fee))
  {
    var r, b := FirstAsk(s, t, mark, cash), Start(cash).book;
    StartIsWorthItsCash(cash, OnePrice(t, mark));
    FirstRequest(s, signals, active, t, mark, cash);
    OneBuyer(s, OnePrice(t, mark), signals, active, b, Num(cash), tickers, t, r);
    OnlyRequestIsFilled(s, OnePrice(t, mark), signals, active, Start(cash), tickers, r);
  }

  /** With cash for one share the first signal buys, at the bar's mark. */
  lemma FirstBarBuys(s: Settings, t: string, month: int, mark: real, cash: real)
    requires t in s.ActiveTickers(month) && mark > 0.0 && BuysOne(Mul(mark, s.BuyMultiplier()), s.fee, s.pct, cash)
    ensures var r := FirstAsk(s, t, mark, cash);
            Holding(BarStep(s, RoundTripPlan(t), 0, month, OnePrice(t, mark), Start(cash)), t, r.qty, cash - CostOf(r, s.fee))
  {
    var p, prices := Start(cash), OnePrice(t, mark);
    var tickers := StrategyTickers(s.ActiveTickers(month), p.book);
    var signals := SignalsAt(RoundTripPlan(t), 0, tickers);
    FirstSignals(t, tickers);
    NobodySells(s, prices, signals, p, tickers);
    FirstBuyPhase(s, t, s.ActiveTickers(month), tickers, signals, mark, cash);
  }

  // ------------------------------------------------------ a bar that only sells

  lemma {:induction false} OneSeller(s: Settings, prices: map<string, Price>, signals: map<string, Signal>, p: Portfolio,
                                     tickers: seq<string>, t: string)
    requires Distinct(tickers) && (forall x :: SignalOf(signals, x) == SellSignal ==> x == t)
    ensures SellPhase(s, prices, signals, p, tickers) == if t in tickers then SellTicker(s, prices, signals, p, t) else p
  {
    if tickers != [] {
      var n := |tickers| - 1;
      OneSeller(s, prices, signals, p, tickers[..n], t);
      assert tickers[n] !in tickers[..n];
      assert tickers == tickers[..n] + [tickers[n]];
    }
  }

  lemma {:induction false} NobodyAsks(s: Settings, prices: map<string, Price>, signals: map<string, Signal>, active: seq<string>,
                                      b: Book, equity: Price, tickers: seq<string>)
    requires forall t :: SignalOf(signals, t) != BuySignal
    ensures BuyRequests(s, prices, signals, active, b, equity, tickers) == []
    ensures TouchCandidates(signals, active, b, tickers) == b
  {
    if tickers != [] {
      NobodyAsks(s, prices, signals, active, b, equity, tickers[..|tickers| - 1]);
    }
  }

  lemma NobodyBuys(s: Settings, prices: map<string, Price>, signals: map<string, Signal>, active: seq<string>,
                   p: Portfolio, tickers: seq<string>)
    requires forall t :: SignalOf(signals, t) != BuySignal
    ensures BuyPhase(s, prices, signals, active, p, tickers) == p
  {
    NobodyAsks(s, prices, signals, active, p.book, Equity(p.book, prices), tickers);
  }

  lemma SecondSignals(t: string, tickers: seq<string>)
    requires t in tickers
    ensures var signals := SignalsAt(RoundTripPlan(t), 1, tickers);
            SignalOf(signals, t) == SellSignal && forall x :: x != t ==> SignalOf(signals, x) == Hold
  {
  }

  /** What is left after selling the whole position at the mark. */
  ghost predicate SoldAt(s: Settings, t: string, mark: real, p: Portfolio, q: Portfolio) {
    var price := Mul(mark, s.SellMultiplier());
    && q.book.cash == p.book.cash + SellProceeds(p.book.Qty(t), price, s.fee)
    && q.trades == p.trades + [Trade(t, Sell, p.book.Qty(t), price, s.fee)]
  }

  lemma HeldIsSold(s: Settings, t: string, mark: real, signals: map<string, Signal>, p: Portfolio)
    requires SignalOf(signals, t) == SellSignal && mark > 0.0 && p.book.Qty(t) > 0.0
    ensures SoldAt(s, t, mark, p, SellTicker(s, OnePrice(t, mark), signals, p, t))
  {
  }

  lemma SecondBarSells(s: Settings, t: string, month: int, mark: real, p: Portfolio)
    requires t in s.ActiveTickers(month) && mark > 0.0 && p.book.Qty(t) > 0.0
    ensures SoldAt(s, t, mark, p, BarStep(s, RoundTripPlan(t), 1, month, OnePrice(t, mark), p))
  {
    var prices, active := OnePrice(t, mark), s.ActiveTickers(month);
    var tickers := StrategyTickers(active, p.book);
    var signals := SignalsAt(RoundTripPlan(t), 1, tickers);
    SecondSignals(t, tickers);
    HeldIsSold(s, t, mark, signals, p);
    SellsThenNothing(s, prices, signals, active, p, tickers, t);
  }

  lemma SellsThenNothing(s: Settings, prices: map<string, Price>, signals: map<string, Signal>, active: seq<string>,
                         p: Portfolio, tickers: seq<string>, t: string)
    requires Distinct(tickers) && t in tickers && (forall x :: SignalOf(signals, x) == SellSignal ==> x == t)
    requires forall x :: SignalOf(signals, x) != BuySignal
    ensures BuyPhase(s, prices, signals, active, SellPhase(s, prices, signals, p, tickers), tickers)
         == SellTicker(s, prices, signals, p, t)
  {
    OneSeller(s, prices, signals, p, tickers, t);
    NobodyBuys(s, prices, signals, active, SellTicker(s, prices, signals, p, t), tickers);
  }

  // ------------------------------------------------------------- the round trip

  /** Bought at the close of the second bar, sold at the close of the third. */
  function RoundTripBars(t: string, month: int, buyAt: real, sellAt: real): seq<Bar> {
    [Bar(month, OnePrice(t, buyAt)), Bar(month, OnePrice(t, buyAt)), Bar(month, OnePrice(t, sellAt))]
  }

  ghost function RoundTrip(s: Settings, t: string, month: int, buyAt: real, sellAt: real, cash: real): seq<Portfolio> {
    var bought := BarStep(s, RoundTripPlan(t), 0, month, OnePrice(t, buyAt), Start(cash));
    [Start(cash), bought, BarStep(s, RoundTripPlan(t), 1, month, OnePrice(t, sellAt), bought)]
  }

  lemma RoundTripIsRun(s: Settings, t: string, month: int, buyAt: real, sellAt: real, cash: real)
    ensures IsRun(s, RoundTripPlan(t), RoundTripBars(t, month, buyAt, sellAt), 0, RoundTrip(s, t, month, buyAt, sellAt, cash))
  {
    var plan, bars, states := RoundTripPlan(t), RoundTripBars(t, month, buyAt, sellAt), RoundTrip(s, t, month, buyAt, sellAt, cash);
    assert StepsTo(s, plan, bars, states, 0, 1) && StepsTo(s, plan, bars, states, 1, 2);
    forall i: nat, j: nat | j == i + 1 && j < |states|
      ensures StepsTo(s, plan, bars, states, i, j)
    {
      assert i == 0 || i == 1;
    }
  }

  /** Cash pays two fees and the difference of the two slipped prices, a share. */
  lemma RoundTripEnds(s: Settings, t: string, month: int, buyAt: real, sellAt: real, cash: real)
    requires t in s.ActiveTickers(month) && buyAt > 0.0 && sellAt > 0.0
    requires BuysOne(Mul(buyAt, s.BuyMultiplier()), s.fee, s.pct, cash)
    ensures var r, last := FirstAsk(s, t, buyAt, cash), RoundTrip(s, t, month, buyAt, sellAt, cash)[2];
            && r.qty >= 1.0
            && last.book.cash == cash - CostOf(r, s.fee) + SellProceeds(r.qty, Mul(sellAt, s.SellMultiplier()), s.fee)
            && last.trades != [] && last.trades[|last.trades| - 1].side.Sell?
            && last.trades[|last.trades| - 1].price == Mul(sellAt, s.SellMultiplier())
  {
    OneIsChosen(Mul(buyAt, s.BuyMultiplier()), s.fee, s.pct, cash);
    FirstBarBuys(s, t, month, buyAt, cash);
    SecondBarSells(s, t, month, sellAt, RoundTrip(s, t, month, buyAt, sellAt, cash)[1]);
  }

  // ------------------------------------------------------------ enough for one

  /** Some cash covers the fee, one share, and the share's part of the trade budget. */
  lemma EnoughForOne(price: real, fee: real, pct: SizingPct) returns (cash: real)
    requires price > 0.0 && 0.0 < pct.trade <= pct.position
    ensures BuysOne(price, fee, pct, cash)
  {
    var part := 100.0 * price / pct.trade;
    cash := price + Abs(fee) + part;
    Divide(100.0 * price, pct.trade);
    assert part * pct.trade == 100.0 * price;
    PartIsPositive(part, pct.trade);
    Scale(part, cash, pct.trade / 100.0);
    assert part * (pct.trade / 100.0) == price;
    Scale(pct.trade / 100.0, pct.position / 100.0, cash);
  }

  lemma PartIsPositive(part: real, trade: real)
    requires trade > 0.0 && part * trade > 0.0
    ensures part > 0.0
  {
    if part <= 0.0 {
      Scale(part, 0.0, trade);
    }
  }
}
