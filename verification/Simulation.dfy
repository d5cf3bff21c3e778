/** The backtest engine: decide, sell, buy, mark, one bar at a time. */
module Simulation {
  import opened Outcomes
  import opened Reals
  import opened Sums
  import opened Ordering
  import opened Accounting
  import opened Sizing

  const BASIS_POINTS_DIVISOR := 10000.0

  datatype Signal = BuySignal | SellSignal | Hold

  /** One bar of the shared calendar: its month, and every ticker's close. */
  datatype Bar = Bar(month: int, prices: map<string, Price>)

  datatype Universe = Universe(defaultTickers: seq<string>, monthToTickers: map<int, seq<string>>)

  datatype Settings = Settings(fee: real, slippageBps: real, pct: SizingPct, universe: Universe)
  {
    function BuyMultiplier(): real {
      1.0 + slippageBps / BASIS_POINTS_DIVISOR
    }

    function SellMultiplier(): real {
      1.0 - slippageBps / BASIS_POINTS_DIVISOR
    }

    function ActiveTickers(month: int): seq<string> {
      if month in universe.monthToTickers then universe.monthToTickers[month] else universe.defaultTickers
    }
  }

  /** The book, with a count and a list of the trades made so far. */
  datatype Portfolio = Portfolio(book: Book, tradeCount: nat, trades: seq<Trade>)
  {
    function Record(t: Trade): Portfolio {
      Portfolio(book, tradeCount + 1, trades + [t])
    }
  }

  ghost predicate Distinct(tickers: seq<string>) {
    forall i, j :: 0 <= i < j < |tickers| ==> tickers[i] != tickers[j]
  }

  function SignalOf(signals: map<string, Signal>, t: string): Signal {
    if t in signals then signals[t] else Hold
  }

  /** Trades need a positive mark. */
  function Tradeable(p: Price): Option<real> {
    if p.Num? && p.v > 0.0 then Some(p.v) else None
  }

  // ------------------------------------------------------------------ sells

  function SellPrice(s: Settings, prices: map<string, Price>, t: string): Option<real> {
    match Tradeable(MarkOf(prices, t))
    case None => None
    case Some(px) => Some(Mul(px, s.SellMultiplier()))
  }

  /** Closes one signalled position outright. */
  function SellTicker(s: Settings, prices: map<string, Price>, signals: map<string, Signal>, p: Portfolio, t: string): Portfolio {
    if SignalOf(signals, t) != SellSignal then p else
      var b := p.book.Touch(t);
      var px := SellPrice(s, prices, t);
      if b.Qty(t) <= 0.0 || px.None? then p.(book := b)
      else
        p.(book := b.ApplySell(t, b.Qty(t), px.value, s.fee)).Record(Trade(t, Sell, b.Qty(t), px.value, s.fee))
  }

  function SellPhase(s: Settings, prices: map<string, Price>, signals: map<string, Signal>, p: Portfolio, tickers: seq<string>): Portfolio {
    if tickers == [] then p else
      var n := |tickers| - 1;
      SellTicker(s, prices, signals, SellPhase(s, prices, signals, p, tickers[..n]), tickers[n])
  }

  // ------------------------------------------------------------------- buys

  /** A ticker whose position the buy loop looks up. */
  predicate BuyCandidate(signals: map<string, Signal>, active: seq<string>, t: string) {
    SignalOf(signals, t) == BuySignal && t in active
  }

  function TouchCandidates(signals: map<string, Signal>, active: seq<string>, b: Book, tickers: seq<string>): Book {
    if tickers == [] then b else
      var n := |tickers| - 1;
      var before := TouchCandidates(signals, active, b, tickers[..n]);
      if BuyCandidate(signals, active, tickers[n]) then before.Touch(tickers[n]) else before
  }

  /** The request one ticker makes, if any, sized against the post-sell cash and equity. */
  function BuyRequest(s: Settings, prices: map<string, Price>, signals: map<string, Signal>, active: seq<string>,
                      b: Book, equity: Price, t: string): Option<Request> {
    var mark := Tradeable(MarkOf(prices, t));
    if !BuyCandidate(signals, active, t) || b.Qty(t) > 0.0 || mark.None? then None else
      var px := Mul(mark.value, s.BuyMultiplier());
      if px <= 0.0 then None else
        var qty := ChooseBuyQty(b.cash, px, s.fee, s.pct, Mul(b.Qty(t), mark.value), equity);
        if qty >= 1.0 then Some(Request(t, px, qty)) else None
  }

  function BuyRequests(s: Settings, prices: map<string, Price>, signals: map<string, Signal>, active: seq<string>,
                       b: Book, equity: Price, tickers: seq<string>): seq<Request> {
    if tickers == [] then [] else
      var n := |tickers| - 1;
      var r := BuyRequest(s, prices, signals, active, b, equity, tickers[n]);
      BuyRequests(s, prices, signals, active, b, equity, tickers[..n]) + if r.Some? then [r.value] else []
  }

  function FillBuy(s: Settings, granted: map<string, real>, p: Portfolio, r: Request): Portfolio {
    var qty := Get(granted, r.ticker);
    if qty < 1.0 || p.book.Qty(r.ticker) + qty <= 0.0 then p else
      p.(book := p.book.ApplyBuy(r.ticker, qty, r.price, s.fee)).Record(Trade(r.ticker, Buy, qty, r.price, s.fee))
  }

  function FillBuys(s: Settings, granted: map<string, real>, p: Portfolio, requests: seq<Request>): Portfolio {
    if requests == [] then p else
      var n := |requests| - 1;
      FillBuy(s, granted, FillBuys(s, granted, p, requests[..n]), requests[n])
  }

  ghost function BuyPhase(s: Settings, prices: map<string, Price>, signals: map<string, Signal>, active: seq<string>,
                          p: Portfolio, tickers: seq<string>): Portfolio {
    var requests := BuyRequests(s, prices, signals, active, p.book, Equity(p.book, prices), tickers);
    FillBuys(s, Granted(requests, p.book.cash, s.fee),
             p.(book := TouchCandidates(signals, active, p.book, tickers)), requests)
  }

  // -------------------------------------------------------------------- bars

  /** Every ticker's decision at every bar, read off that bar. */
  type Plan = map<string, seq<Signal>>

  function PlannedAt(plan: Plan, t: string, index: nat): Signal {
    if t in plan && index < |plan[t]| then plan[t][index] else Hold
  }

  function HeldTickers(b: Book): set<string> {
    set t | t in b.positions && b.Qty(t) > 0.0
  }

  ghost function StrategyTickers(active: seq<string>, b: Book): seq<string> {
    SortedStrings((set t | t in active) + HeldTickers(b))
  }

  function SignalsAt(plan: Plan, index: nat, tickers: seq<string>): map<string, Signal> {
    map t | t in tickers :: PlannedAt(plan, t, index)
  }

  /** One bar: signals and universe of the bar before, then sells, then buys, at this bar's prices. */
  ghost function BarStep(s: Settings, plan: Plan, signalIndex: nat, month: int, prices: map<string, Price>, p: Portfolio): Portfolio {
    var active := s.ActiveTickers(month);
    var tickers := StrategyTickers(active, p.book);
    var signals := SignalsAt(plan, signalIndex, tickers);
    BuyPhase(s, prices, signals, active, SellPhase(s, prices, signals, p, tickers), tickers)
  }

  /** Bar `j` took the portfolio from the close of bar `i` to its own close. */
  ghost predicate StepsTo(s: Settings, plan: Plan, bars: seq<Bar>, states: seq<Portfolio>, i: nat, j: nat)
    requires i < |states| <= |bars| && j < |states|
  {
    states[j] == BarStep(s, plan, i, bars[i].month, bars[j].prices, states[i])
  }

  /** `states[i]` is the portfolio at the close of bar `i`, from bar `first` on. */
  ghost predicate IsRun(s: Settings, plan: Plan, bars: seq<Bar>, first: nat, states: seq<Portfolio>) {
    && first < |states| <= |bars|
    && forall i: nat, j: nat :: first <= i && j == i + 1 && j < |states| ==> StepsTo(s, plan, bars, states, i, j)
  }

  ghost predicate FirstScored(days: seq<int>, scoringStart: int, i: int) {
    0 <= i < |days| && days[i] >= scoringStart && forall j :: 0 <= j < i ==> days[j] < scoringStart
  }

  /** Scoring begins at bar `first`: at once without a warm-up, else on the first day from the scoring start on. */
  ghost predicate ScoredFrom(days: seq<int>, warmupMonths: int, scoringStart: int, first: nat) {
    if warmupMonths <= 0 then first == 0 else FirstScored(days, scoringStart, first) && first + 2 <= |days|
  }

  function Start(initialCash: real): Portfolio {
    Portfolio(Book(initialCash, 0.0, map[], map[]), 0, [])
  }

  lemma StartIsWorthItsCash(initialCash: real, prices: map<string, Price>)
    ensures Equity(Start(initialCash).book, prices) == Num(initialCash)
  {
    assert Start(initialCash).book.positions.Keys == {};
  }

  /** The mark of the portfolio at the close of bar `i`. */
  ghost function EquityAt(bars: seq<Bar>, states: seq<Portfolio>, i: nat): Price
    requires i < |states| <= |bars|
  {
    Equity(states[i].book, bars[i].prices)
  }
}
