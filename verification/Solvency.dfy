/** Under which fees and slippage a run can spend cash it does not have. */
module Solvency {
  import opened Reals
  import opened Accounting
  import opened Simulation
  import opened BarDiscipline
  import opened RoundTrips

  /** Every run under these settings, from any cash over any history and signals, keeps cash at zero or more. */
  ghost predicate AlwaysSolvent(s: Settings) {
    forall plan, bars, first: nat, states: seq<Portfolio>, initialCash, j: nat ::
      IsRun(s, plan, bars, first, states) && states[first] == Start(initialCash) && initialCash >= 0.0 && first <= j < |states| ==>
        states[j].book.cash >= 0.0
  }

  // --------------------------------------------------- sells that pay their way

  lemma SellPays(s: Settings, prices: map<string, Price>, signals: map<string, Signal>, trade: Trade)
    requires Signalled(s, prices, signals, trade) && trade.side.Sell? && s.fee <= 0.0 && s.SellMultiplier() >= 0.0
    ensures SellProceeds(trade.qty, trade.price, trade.fee) >= 0.0
  {
    var mark := MarkOf(prices, trade.ticker).v;
    Scale(0.0, s.SellMultiplier(), mark);
    Scale(0.0, trade.price, trade.qty);
  }

  lemma StepSellsPay(s: Settings, plan: Plan, bars: seq<Bar>, states: seq<Portfolio>, i: nat, j: nat)
    requires i < |states| <= |bars| && j < |states| && StepsTo(s, plan, bars, states, i, j)
    requires s.fee <= 0.0 && s.SellMultiplier() >= 0.0 && SellsPay(states[i].trades, 0)
    ensures SellsPay(states[j].trades, 0)
  {
    var month, prices := bars[i].month, bars[j].prices;
    var signals := SignalsAt(plan, i, StrategyTickers(s.ActiveTickers(month), states[i].book));
    var before, now := states[i].trades, states[j].trades;
    BarTradesOnce(s, plan, i, month, prices, states[i]);
    forall n | 0 <= n < |now| && now[n].side.Sell?
      ensures SellProceeds(now[n].qty, now[n].price, now[n].fee) >= 0.0
    {
      if n < |before| {
        assert before[n] == now[n];
      } else {
        SellPays(s, prices, signals, now[n]);
      }
    }
  }

  lemma {:induction false} RunSellsPay(s: Settings, plan: Plan, bars: seq<Bar>, first: nat, states: seq<Portfolio>, j: nat)
    requires IsRun(s, plan, bars, first, states) && states[first].trades == [] && first <= j < |states|
    requires s.fee <= 0.0 && s.SellMultiplier() >= 0.0
    ensures SellsPay(states[j].trades, 0)
  {
    if j > first {
      var i := j - 1;
      assert StepsTo(s, plan, bars, states, i, j);
      RunSellsPay(s, plan, bars, first, states, i);
      StepSellsPay(s, plan, bars, states, i, j);
    }
  }

  // ----------------------------------------------------- a run that never buys

  lemma {:induction false} NothingToSell(s: Settings, prices: map<string, Price>, signals: map<string, Signal>,
                                         p: Portfolio, tickers: seq<string>)
    requires forall t :: p.book.Qty(t) <= 0.0
    ensures var q := SellPhase(s, prices, signals, p, tickers);
            q.book.cash == p.book.cash && forall t :: q.book.Qty(t) <= 0.0
  {
    if tickers != [] {
      var n := |tickers| - 1;
      NothingToSell(s, prices, signals, p, tickers[..n]);
      var before := SellPhase(s, prices, signals, p, tickers[..n]);
      assert before.book.Qty(tickers[n]) <= 0.0;
      forall t
        ensures before.book.Touch(tickers[n]).Qty(t) <= 0.0
      {
        assert before.book.Qty(t) <= 0.0;
      }
    }
  }

  lemma {:induction false} NothingAffordable(s: Settings, prices: map<string, Price>, signals: map<string, Signal>,
                                             active: seq<string>, b: Book, equity: Price, tickers: seq<string>)
    requires s.BuyMultiplier() <= 0.0
    ensures BuyRequests(s, prices, signals, active, b, equity, tickers) == []
  {
    if tickers != [] {
      var n := |tickers| - 1;
      NothingAffordable(s, prices, signals, active, b, equity, tickers[..n]);
      var mark := Tradeable(MarkOf(prices, tickers[n]));
      if mark.Some? {
        Scale(s.BuyMultiplier(), 0.0, mark.value);
      }
    }
  }

  lemma {:induction false} TouchesKeepNothing(signals: map<string, Signal>, active: seq<string>, b: Book, tickers: seq<string>)
    requires forall t :: b.Qty(t) <= 0.0
    ensures forall t :: TouchCandidates(signals, active, b, tickers).Qty(t) <= 0.0
  {
    if tickers != [] {
      var n := |tickers| - 1;
      TouchesKeepNothing(signals, active, b, tickers[..n]);
      var before := TouchCandidates(signals, active, b, tickers[..n]);
      forall t
        ensures before.Touch(tickers[n]).Qty(t) <= 0.0
      {
        assert before.Qty(t) <= 0.0;
      }
    }
  }

  lemma IdleStep(s: Settings, plan: Plan, bars: seq<Bar>, states: seq<Portfolio>, i: nat, j: nat)
    requires i < |states| <= |bars| && j < |states| && StepsTo(s, plan, bars, states, i, j)
    requires s.BuyMultiplier() <= 0.0 && forall t :: states[i].book.Qty(t) <= 0.0
    ensures states[j].book.cash == states[i].book.cash && forall t :: states[j].book.Qty(t) <= 0.0
  {
    var prices, active := bars[j].prices, s.ActiveTickers(bars[i].month);
    var tickers := StrategyTickers(active, states[i].book);
    var signals := SignalsAt(plan, i, tickers);
    var sold := SellPhase(s, prices, signals, states[i], tickers);
    NothingToSell(s, prices, signals, states[i], tickers);
    NothingAffordable(s, prices, signals, active, sold.book, Equity(sold.book, prices), tickers);
    TouchesKeepCash(signals, active, sold.book, tickers);
    TouchesKeepNothing(signals, active, sold.book, tickers);
  }

  /** When slippage takes every buy price to zero or below, nothing is ever traded. */
  lemma {:induction false} IdleRun(s: Settings, plan: Plan, bars: seq<Bar>, first: nat, states: seq<Portfolio>,
                                   initialCash: real, j: nat)
    requires IsRun(s, plan, bars, first, states) && states[first] == Start(initialCash) && first <= j < |states|
    requires s.BuyMultiplier() <= 0.0
    ensures states[j].book.cash == initialCash && forall t :: states[j].book.Qty(t) <= 0.0
  {
    if j > first {
      var i := j - 1;
      assert StepsTo(s, plan, bars, states, i, j);
      IdleRun(s, plan, bars, first, states, initialCash, i);
      IdleStep(s, plan, bars, states, i, j);
    }
  }

  // ----------------------------------------------------------- runs that overdraw

  /** A round trip through which cash ends below zero. */
  ghost predicate Overdraws(s: Settings, t: string, month: int, buyAt: real, sellAt: real, cash: real) {
    cash >= 0.0 && RoundTrip(s, t, month, buyAt, sellAt, cash)[2].book.cash < 0.0
  }

  lemma OverdrawnIsNotSolvent(s: Settings, t: string, month: int, buyAt: real, sellAt: real, cash: real)
    requires Overdraws(s, t, month, buyAt, sellAt, cash)
    ensures !AlwaysSolvent(s)
  {
    RoundTripIsRun(s, t, month, buyAt, sellAt, cash);
    assert RoundTrip(s, t, month, buyAt, sellAt, cash)[0] == Start(cash);
  }

  /** With a fee to pay, cash of one and a half fees buys a little and cannot pay for selling it. */
  lemma FeeOverdraws(s: Settings, t: string, month: int)
    requires t in s.ActiveTickers(month) && 0.0 < s.pct.trade <= s.pct.position
    requires s.fee > 0.0 && s.BuyMultiplier() > 0.0
    ensures !AlwaysSolvent(s)
  {
    var cash := s.fee + s.fee / 2.0;
    var price := Min(s.fee / 2.0, Mul(cash, s.pct.trade / 100.0));
    var buyAt, sellAt := price / s.BuyMultiplier(), if s.SellMultiplier() > 0.0 then price / s.SellMultiplier() else 1.0;
    ScaleStrict(0.0, s.pct.trade / 100.0, cash);
    Scale(s.pct.trade / 100.0, s.pct.position / 100.0, cash);
    Quotient(price, s.BuyMultiplier());
    if s.SellMultiplier() > 0.0 {
      Quotient(price, s.SellMultiplier());
    }
    RoundTripEnds(s, t, month, buyAt, sellAt, cash);
    TwoFees(FirstAsk(s, t, buyAt, cash).qty, price, Mul(sellAt, s.SellMultiplier()), s.fee);
    OverdrawnIsNotSolvent(s, t, month, buyAt, sellAt, cash);
  }

  lemma Quotient(price: real, multiplier: real)
    requires price > 0.0 && multiplier > 0.0
    ensures price / multiplier > 0.0 && Mul(price / multiplier, multiplier) == price
  {
    Divide(price, multiplier);
    PartIsPositive(price / multiplier, multiplier);
  }

  /** Selling for no more than was paid costs at least two fees. */
  lemma TwoFees(qty: real, bought: real, sold: real, fee: real)
    requires qty >= 1.0 && sold <= bought
    ensures SellProceeds(qty, sold, fee) - BuyCost(qty, bought, fee) <= -2.0 * fee
  {
    Scale(sold, bought, qty);
  }

  /** Some mark, slipped below zero, is any debt. */
  lemma MarkForDebt(due: real, multiplier: real) returns (mark: real)
    requires due > 0.0 && multiplier < 0.0
    ensures mark > 0.0 && Mul(mark, multiplier) == -due
  {
    mark := due / -multiplier;
    Quotient(due, -multiplier);
    assert Mul(mark, multiplier) == -Mul(mark, -multiplier);
  }

  /** Shares sold at minus all that is left after two fees leave less than nothing. */
  lemma AllOfItDue(qty: real, price: real, sold: real, cash: real, fee: real)
    requires qty >= 1.0 && price > 0.0 && sold == 2.0 * fee - cash < 0.0
    ensures cash - BuyCost(qty, price, fee) + SellProceeds(qty, sold, fee) < 0.0
  {
    Scale(1.0, qty, -sold);
    ScaleStrict(0.0, price, qty);
    assert Mul(qty, sold) == -(qty * -sold);
  }

  /** With slippage above all of the price, a sell at a high enough mark costs more than there is. */
  lemma SlippageOverdraws(s: Settings, t: string, month: int)
    requires t in s.ActiveTickers(month) && 0.0 < s.pct.trade <= s.pct.position
    requires s.fee <= 0.0 && s.slippageBps > 10000.0
    ensures !AlwaysSolvent(s)
  {
    var price := Mul(1.0, s.BuyMultiplier());
    ScaleStrict(0.0, s.BuyMultiplier(), 1.0);
    var cash := EnoughForOne(price, s.fee, s.pct);
    var due := cash - 2.0 * s.fee;
    var sellAt := MarkForDebt(due, s.SellMultiplier());
    RoundTripEnds(s, t, month, 1.0, sellAt, cash);
    AllOfItDue(FirstAsk(s, t, 1.0, cash).qty, price, Mul(sellAt, s.SellMultiplier()), cash, s.fee);
    OverdrawnIsNotSolvent(s, t, month, 1.0, sellAt, cash);
  }

  /**
   By configuration, for a universe with a ticker to trade and accepted percentages: no run ever takes
   cash below zero if and only if no fee is charged and slippage is at most 10000 basis points, or
   slippage of minus 10000 or less keeps anything from being bought.
   */
  lemma AlwaysSolventExactly(s: Settings, t: string, month: int)
    requires t in s.ActiveTickers(month) && 0.0 < s.pct.trade <= s.pct.position
    ensures AlwaysSolvent(s) <==> s.slippageBps <= -10000.0 || (s.fee <= 0.0 && s.slippageBps <= 10000.0)
  {
    if s.slippageBps <= -10000.0 || (s.fee <= 0.0 && s.slippageBps <= 10000.0) {
      forall plan, bars, first: nat, states: seq<Portfolio>, initialCash, j: nat
        | IsRun(s, plan, bars, first, states) && states[first] == Start(initialCash) && initialCash >= 0.0
          && first <= j < |states|
        ensures states[j].book.cash >= 0.0
      {
        if s.slippageBps <= -10000.0 {
          IdleRun(s, plan, bars, first, states, initialCash, j);
        } else {
          RunSellsPay(s, plan, bars, first, states, j);
          CashFallsOnlyThroughSells(s, plan, bars, first, states, initialCash, j);
        }
      }
    } else if s.fee > 0.0 {
      FeeOverdraws(s, t, month);
    } else {
      SlippageOverdraws(s, t, month);
    }
  }
}
