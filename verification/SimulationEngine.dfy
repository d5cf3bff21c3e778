/** The mutable portfolio the engine advances in place, and the loop over the bars. */
module SimulationEngine {
  import opened Outcomes
  import opened Reals
  import opened Sums
  import opened Ordering
  import opened Accounting
  import opened Sizing
  import opened Simulation
  import opened SignalInputs
  import opened TradeHistory
  import opened BarDiscipline

  /** No position is short. */
  ghost predicate Long(b: Book) {
    forall t :: b.Qty(t) >= 0.0
  }

  lemma TouchStaysLong(b: Book, t: string)
    requires Long(b)
    ensures Long(b.Touch(t))
  {
    forall x ensures b.Touch(t).Qty(x) >= 0.0 {
      assert b.Qty(x) >= 0.0;
    }
  }

  lemma SellTickerStaysLong(s: Settings, prices: map<string, Price>, signals: map<string, Signal>, p: Portfolio, t: string)
    requires Long(p.book)
    ensures Long(SellTicker(s, prices, signals, p, t).book)
  {
    TouchStaysLong(p.book, t);
    var q := SellTicker(s, prices, signals, p, t);
    forall x ensures q.book.Qty(x) >= 0.0 {
      assert p.book.Touch(t).Qty(x) >= 0.0 && p.book.Qty(x) >= 0.0;
    }
  }

  lemma FillBuyStaysLong(s: Settings, granted: map<string, real>, p: Portfolio, r: Request)
    requires Long(p.book)
    ensures Long(FillBuy(s, granted, p, r).book)
  {
    var q := FillBuy(s, granted, p, r);
    forall x ensures q.book.Qty(x) >= 0.0 {
      assert p.book.Qty(x) >= 0.0 && p.book.Qty(r.ticker) >= 0.0;
    }
  }

  /** A request depends on the book's cash and the ticker's position alone. */
  lemma RequestReadsPosition(s: Settings, prices: map<string, Price>, signals: map<string, Signal>, active: seq<string>,
                             b: Book, b': Book, equity: Price, t: string)
    requires b.cash == b'.cash && b.Qty(t) == b'.Qty(t)
    ensures BuyRequest(s, prices, signals, active, b, equity, t) == BuyRequest(s, prices, signals, active, b', equity, t)
  {
  }

  lemma {:induction false} SellPhaseStaysLong(s: Settings, prices: map<string, Price>, signals: map<string, Signal>,
                                              p: Portfolio, tickers: seq<string>)
    requires Long(p.book)
    ensures Long(SellPhase(s, prices, signals, p, tickers).book)
  {
    if tickers != [] {
      var n := |tickers| - 1;
      SellPhaseStaysLong(s, prices, signals, p, tickers[..n]);
      SellTickerStaysLong(s, prices, signals, SellPhase(s, prices, signals, p, tickers[..n]), tickers[n]);
    }
  }

  lemma {:induction false} TouchesStayLong(signals: map<string, Signal>, active: seq<string>, b: Book, tickers: seq<string>)
    requires Long(b)
    ensures Long(TouchCandidates(signals, active, b, tickers))
  {
    if tickers != [] {
      var n := |tickers| - 1;
      TouchesStayLong(signals, active, b, tickers[..n]);
      TouchStaysLong(TouchCandidates(signals, active, b, tickers[..n]), tickers[n]);
    }
  }

  class PortfolioState {
    var cash: real
    var realizedPnl: real
    var positions: map<string, real>
    var avgCost: map<string, real>
    var tradeCount: nat
    var executedTrades: seq<Trade>

    function Value(): Portfolio
      reads this
    {
      Portfolio(Book(cash, realizedPnl, positions, avgCost), tradeCount, executedTrades)
    }

    constructor (initialCash: real)
      ensures Value() == Start(initialCash)
    {
      cash, realizedPnl := initialCash, 0.0;
      positions, avgCost := map[], map[];
      tradeCount, executedTrades := 0, [];
    }

    /** Reads a position; a ticker never seen is entered at zero. */
    method Position(t: string) returns (qty: real)
      modifies this`positions
      ensures Value() == old(Value()).(book := old(Value()).book.Touch(t))
      ensures qty == Value().book.Qty(t)
    {
      if t !in positions {
        positions := positions[t := 0.0];
      }
      qty := positions[t];
    }

    method RecordTrade(t: Trade)
      modifies this`tradeCount, this`executedTrades
      ensures Value() == old(Value()).Record(t)
    {
      tradeCount := tradeCount + 1;
      executedTrades := executedTrades + [t];
    }

    /** Books a buy; one that leaves no positive position is refused, and no money moves. */
    method ApplyBuy(t: string, qty: real, price: real, fee: real) returns (ok: bool)
      modifies this`cash, this`positions, this`avgCost
      ensures ok <==> old(Value()).book.Qty(t) + qty > 0.0
      ensures ok ==> Value() == old(Value()).(book := old(Value()).book.ApplyBuy(t, qty, price, fee))
      ensures !ok ==> Value() == old(Value()).(book := old(Value()).book.Touch(t))
    {
      var oldQty := Position(t);
      if oldQty + qty <= 0.0 {
        return false;
      }
      ok := true;
      var oldAvg := Get(avgCost, t);
      var tradeValue := BuyCost(qty, price, fee);
      positions := positions[t := oldQty + qty];
      avgCost := avgCost[t := (Mul(oldQty, oldAvg) + tradeValue) / (oldQty + qty)];
      cash := cash - tradeValue;
    }

    /** Books a sell; one of more than is held is refused, and no money moves. */
    method ApplySell(t: string, qty: real, price: real, fee: real) returns (ok: bool)
      modifies this`cash, this`realizedPnl, this`positions, this`avgCost
      ensures ok <==> qty <= old(Value()).book.Qty(t)
      ensures ok ==> Value() == old(Value()).(book := old(Value()).book.ApplySell(t, qty, price, fee))
      ensures !ok ==> Value() == old(Value()).(book := old(Value()).book.Touch(t))
    {
      var oldQty := Position(t);
      if qty > oldQty {
        return false;
      }
      ok := true;
      var avg := Get(avgCost, t);
      positions := positions[t := oldQty - qty];
      avgCost := avgCost[t := avg];
      cash := cash + SellProceeds(qty, price, fee);
      realizedPnl := realizedPnl + RealizedGain(avg, qty, price, fee);
    }

    /** Closes signalled positions, in ticker order. */
    method ExecuteSells(s: Settings, prices: map<string, Price>, signals: map<string, Signal>, tickers: seq<string>)
      modifies this
      ensures Value() == SellPhase(s, prices, signals, old(Value()), tickers)
    {
      for i := 0 to |tickers|
        invariant Value() == SellPhase(s, prices, signals, old(Value()), tickers[..i])
      {
        assert tickers[..i + 1][..i] == tickers[..i];
        var t := tickers[i];
        ghost var before := Value();
        if SignalOf(signals, t) == SellSignal {
          var qty := Position(t);
          var px := SellPrice(s, prices, t);
          if qty > 0.0 && px.Some? {
            var ok := ApplySell(t, qty, px.value, s.fee);
            RecordTrade(Trade(t, Sell, qty, px.value, s.fee));
          }
        }
        assert Value() == SellTicker(s, prices, signals, before, t);
      }
      assert tickers[..|tickers|] == tickers;
    }

    /** Asks for a quantity per signalled buy; no request sees what another will spend. */
    method SizeBuys(s: Settings, prices: map<string, Price>, signals: map<string, Signal>, active: seq<string>,
                    equity: Price, tickers: seq<string>) returns (requests: seq<Request>)
      modifies this`positions
      ensures Value() == old(Value()).(book := TouchCandidates(signals, active, old(Value()).book, tickers))
      ensures requests == BuyRequests(s, prices, signals, active, old(Value()).book, equity, tickers)
    {
      requests := [];
      for i := 0 to |tickers|
        invariant Value() == old(Value()).(book := TouchCandidates(signals, active, old(Value()).book, tickers[..i]))
        invariant forall t :: Value().book.Qty(t) == old(Value()).book.Qty(t)
        invariant requests == BuyRequests(s, prices, signals, active, old(Value()).book, equity, tickers[..i])
      {
        assert tickers[..i + 1][..i] == tickers[..i];
        var t := tickers[i];
        if BuyCandidate(signals, active, t) {
          var held := Position(t);
        }
        RequestReadsPosition(s, prices, signals, active, Value().book, old(Value()).book, equity, t);
        var r := BuyRequest(s, prices, signals, active, Value().book, equity, t);
        if r.Some? {
          requests := requests + [r.value];
        }
      }
      assert tickers[..|tickers|] == tickers;
    }

    /** The bar's buys, funded together out of what the sells left; their cost is never a total of zero. */
    method ExecuteBuys(s: Settings, prices: map<string, Price>, signals: map<string, Signal>, tickers: seq<string>,
                       active: seq<string>)
      requires Long(Value().book) && Distinct(tickers)
      modifies this
      ensures Value() == BuyPhase(s, prices, signals, active, old(Value()), tickers)
      ensures Long(Value().book)
    {
      var postSellEquity := ComputeEquity(Value().book, prices);
      ghost var start := Value();
      TouchesStayLong(signals, active, start.book, tickers);
      RequestsAreGood(s, prices, signals, active, start.book, postSellEquity, tickers);
      RequestsWithinCash(s, prices, signals, active, start.book, postSellEquity, tickers);
      var requests := SizeBuys(s, prices, signals, active, postSellEquity, tickers);
      TouchesKeepCash(signals, active, start.book, tickers);
      SizedSpendFits(s, requests, cash);
      var granted := AllocateBuyQuantities(requests, cash, s.fee);
      FillGranted(s, granted.value, requests);
    }

    method FillGranted(s: Settings, granted: map<string, real>, requests: seq<Request>)
      requires Long(Value().book)
      modifies this
      ensures Value() == FillBuys(s, granted, old(Value()), requests)
      ensures Long(Value().book)
    {
      for i := 0 to |requests|
        invariant Value() == FillBuys(s, granted, old(Value()), requests[..i])
        invariant Long(Value().book)
      {
        assert requests[..i + 1][..i] == requests[..i];
        var r := requests[i];
        FillBuyStaysLong(s, granted, Value(), r);
        assert Value().book.Qty(r.ticker) >= 0.0;
        var qty := Get(granted, r.ticker);
        if qty >= 1.0 {
          var ok := ApplyBuy(r.ticker, qty, r.price, s.fee);
          RecordTrade(Trade(r.ticker, Buy, qty, r.price, s.fee));
        }
      }
      assert requests[..|requests|] == requests;
    }
  }

  /** Decides every ticker for the next bar from its rows up to the signal bar. */
  method EvaluateSignals(st: Strategy, inputs: map<string, seq<Row>>, index: nat, tickers: seq<string>)
    returns (signals: map<string, Signal>)
    ensures signals == SignalsAt(PlanOf(st, inputs), index, tickers)
  {
    signals := map[];
    for i := 0 to |tickers|
      invariant signals == SignalsAt(PlanOf(st, inputs), index, tickers[..i])
    {
      var t := tickers[i];
      assert tickers[..i + 1] == tickers[..i] + [t];
      var signal := if t in inputs && index < |inputs[t]| then st.signal(inputs[t], index) else Hold;
      signals := signals[t := signal];
    }
    assert tickers[..|tickers|] == tickers;
  }

  /** Resolves one bar: decide, sell, buy. */
  method AdvanceBar(state: PortfolioState, s: Settings, st: Strategy, inputs: map<string, seq<Row>>, signalIndex: nat,
                    month: int, prices: map<string, Price>)
    requires Long(state.Value().book)
    modifies state
    ensures state.Value() == BarStep(s, PlanOf(st, inputs), signalIndex, month, prices, old(state.Value()))
    ensures Long(state.Value().book)
  {
    ghost var p := state.Value();
    var active := s.ActiveTickers(month);
    var tickers := SortStrings((set t | t in active) + HeldTickers(state.Value().book));
    var signals := EvaluateSignals(st, inputs, signalIndex, tickers);
    state.ExecuteSells(s, prices, signals, tickers);
    SellPhaseStaysLong(s, prices, signals, p, tickers);
    state.ExecuteBuys(s, prices, signals, tickers, active);
  }

  /** One point for every scored bar: the mark of the portfolio at its close. */
  ghost predicate CurveMarks(bars: seq<Bar>, first: nat, states: seq<Portfolio>, curve: seq<Price>)
    requires first < |states| <= |bars|
  {
    && |curve| == |states| - first
    && forall k: nat, i: nat :: k < |curve| && i == first + k ==> curve[k] == EquityAt(bars, states, i)
  }

  lemma CurveExtends(bars: seq<Bar>, first: nat, states: seq<Portfolio>, curve: seq<Price>, next: Portfolio, mark: Price)
    requires first < |states| < |bars| && CurveMarks(bars, first, states, curve)
    requires mark == Equity(next.book, bars[|states|].prices)
    ensures CurveMarks(bars, first, states + [next], curve + [mark])
  {
    var longer := states + [next];
    forall k: nat, i: nat | k < |curve| + 1 && i == first + k
      ensures (curve + [mark])[k] == EquityAt(bars, longer, i)
    {
      if k < |curve| {
        assert curve[k] == EquityAt(bars, states, i);
      } else {
        assert i == |states|;
      }
    }
  }

  /** Runs every bar after the first scored one and returns the marks at the closes, the first included. */
  method SimulateBars(state: PortfolioState, s: Settings, st: Strategy, inputs: map<string, seq<Row>>, bars: seq<Bar>, first: nat)
    returns (curve: seq<Price>, ghost states: seq<Portfolio>)
    requires first < |bars| && Long(state.Value().book)
    modifies state
    ensures |states| == |bars| && IsRun(s, PlanOf(st, inputs), bars, first, states)
    ensures states[first] == old(state.Value()) && states[|bars| - 1] == state.Value()
    ensures CurveMarks(bars, first, states, curve)
  {
    ghost var plan := PlanOf(st, inputs);
    var equity := ComputeEquity(state.Value().book, bars[first].prices);
    ghost var start := state.Value();
    curve, states := [equity], seq(first + 1, i => start);
    for index := first + 1 to |bars|
      invariant |states| == index
      invariant Long(state.Value().book)
      invariant states[first] == old(state.Value()) && states[index - 1] == state.Value()
      invariant IsRun(s, plan, bars, first, states)
      invariant CurveMarks(bars, first, states, curve)
    {
      var signalIndex := index - 1;
      ghost var before := state.Value();
      assert states[signalIndex] == before;
      AdvanceBar(state, s, st, inputs, signalIndex, bars[signalIndex].month, bars[index].prices);
      ghost var next := state.Value();
      assert next == BarStep(s, plan, signalIndex, bars[signalIndex].month, bars[index].prices, before);
      equity := ComputeEquity(state.Value().book, bars[index].prices);
      RunExtends(s, plan, bars, first, states, next, signalIndex, index);
      CurveExtends(bars, first, states, curve, next, equity);
      curve, states := curve + [equity], states + [next];
    }
  }

  lemma RunExtends(s: Settings, plan: Plan, bars: seq<Bar>, first: nat, states: seq<Portfolio>, next: Portfolio, i: nat, j: nat)
    requires IsRun(s, plan, bars, first, states) && j == |states| < |bars| && j == i + 1
    requires next == BarStep(s, plan, i, bars[i].month, bars[j].prices, states[i])
    ensures IsRun(s, plan, bars, first, states + [next])
    ensures forall k :: 0 <= k < j ==> EquityAt(bars, states + [next], k) == EquityAt(bars, states, k)
  {
    var longer := states + [next];
    forall m: nat, n: nat | first <= m && n == m + 1 && n < |longer|
      ensures StepsTo(s, plan, bars, longer, m, n)
    {
      if n < j {
        assert StepsTo(s, plan, bars, states, m, n);
        SameStepsTo(s, plan, bars, states, longer, m, n);
      } else {
        assert m == i && n == j;
      }
    }
  }

  lemma SameStepsTo(s: Settings, plan: Plan, bars: seq<Bar>, a: seq<Portfolio>, b: seq<Portfolio>, i: nat, j: nat)
    requires i < |a| <= |bars| && j < |a| && i < |b| <= |bars| && j < |b|
    requires a[i] == b[i] && a[j] == b[j] && StepsTo(s, plan, bars, a, i, j)
    ensures StepsTo(s, plan, bars, b, i, j)
  {
  }

  datatype WindowError = TooFewScoredDays | NoScoredDay

  /** Where scoring begins: at once without a warm-up, else on the first day from the scoring start on. */
  method ScoringStartIndex(days: seq<int>, warmupMonths: int, scoringStart: int) returns (r: Result<nat, WindowError>)
    ensures r.Success? ==> ScoredFrom(days, warmupMonths, scoringStart, r.value)
    ensures warmupMonths <= 0 ==> r.Success?
    ensures r == Failure(TooFewScoredDays) ==> exists i :: FirstScored(days, scoringStart, i) && i + 2 > |days|
    ensures r == Failure(NoScoredDay) ==> forall day :: day in days ==> day < scoringStart
  {
    if warmupMonths <= 0 {
      return Success(0);
    }
    for index := 0 to |days|
      invariant forall i :: 0 <= i < index ==> days[i] < scoringStart
    {
      if days[index] >= scoringStart {
        assert FirstScored(days, scoringStart, index);
        if |days| - index < 2 {
          return Failure(TooFewScoredDays);
        }
        return Success(index);
      }
    }
    return Failure(NoScoredDay);
  }
}
