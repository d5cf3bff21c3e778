/** What one bar does, all tickers at once: from decisions, universe and marks to the portfolio at its close. */
module BarOutcome {
  import opened Outcomes
  import opened Reals
  import opened Sums
  import opened Ordering
  import opened Accounting
  import opened Sizing
  import opened FairShares
  import opened Simulation
  import opened TradeHistory

  /** One bar to resolve: decisions and month of the bar before, prices of its own. */
  datatype Session = Session(s: Settings, plan: Plan, decided: nat, month: int, prices: map<string, Price>)
  {
    predicate Active(t: string) {
      if month in s.universe.monthToTickers then t in s.universe.monthToTickers[month] else t in s.universe.defaultTickers
    }

    predicate Says(t: string, signal: Signal) {
      t in plan && decided < |plan[t]| && plan[t][decided] == signal
    }

    predicate Quoted(t: string) {
      t in prices && prices[t].Num? && prices[t].v > 0.0
    }

    function SellsAt(t: string): real {
      if Quoted(t) then Mul(prices[t].v, 1.0 - s.slippageBps / 10000.0) else 0.0
    }

    function BuysAt(t: string): real {
      if Quoted(t) then Mul(prices[t].v, 1.0 + s.slippageBps / 10000.0) else 0.0
    }
  }

  predicate Holds(b: Book, t: string) {
    t in b.positions && b.positions[t] > 0.0
  }

  // -------------------------------------------------------- what a bar sells

  /** Everything held, told to sell and quoted, in the universe or not. */
  ghost function Sold(d: Session, b: Book): set<string> {
    set t | t in b.positions && b.positions[t] > 0.0 && d.Says(t, SellSignal) && d.Quoted(t)
  }

  /** Tickers whose position the sells look up. */
  ghost predicate LookedUp(d: Session, b: Book, t: string) {
    d.Says(t, SellSignal) && (d.Active(t) || Holds(b, t))
  }

  ghost function SellOf(d: Session, b: Book, t: string): Trade {
    Trade(t, Sell, Get(b.positions, t), d.SellsAt(t), d.s.fee)
  }

  ghost function Proceeds(d: Session, b: Book, t: string): real {
    Mul(Get(b.positions, t), d.SellsAt(t)) - d.s.fee
  }

  ghost function Gain(d: Session, b: Book, t: string): real {
    Mul(d.SellsAt(t) - Get(b.avgCost, t), Get(b.positions, t)) - d.s.fee
  }

  ghost function CashAfterSells(d: Session, b: Book): real {
    b.cash + Sum(Sold(d, b), t => Proceeds(d, b, t))
  }

  ghost function Kept(d: Session, b: Book): set<string> {
    set t | t in b.positions && b.positions[t] > 0.0 && !(d.Says(t, SellSignal) && d.Quoted(t))
  }

  ghost function WorthAtMark(d: Session, b: Book, t: string): real {
    if t in d.prices && d.prices[t].Num? then Mul(Get(b.positions, t), d.prices[t].v) else 0.0
  }

  /** The value buys are sized against; no number when an entered ticker's mark is none. */
  ghost function EquityAfterSells(d: Session, b: Book): Price {
    if exists t :: t in d.prices && d.prices[t].NaN? && (t in b.positions || LookedUp(d, b, t)) then NaN
    else Num(CashAfterSells(d, b) + Sum(Kept(d, b), t => WorthAtMark(d, b, t)))
  }

  // --------------------------------------------------------- what a bar buys

  ghost predicate AsksFor(r: Request, n: nat, cash: real, fee: real, pct: SizingPct, equity: Price) {
    n >= 1 && r.qty == n as real && MostInBudget(n, cash, r.price, fee, pct, equity)
  }

  /** A request: the most shares in budget, one or more, of an active, quoted ticker told to buy and not held. */
  ghost predicate Requested(d: Session, b: Book, r: Request) {
    && d.Active(r.ticker) && d.Says(r.ticker, BuySignal) && !Holds(b, r.ticker) && d.Quoted(r.ticker)
    && r.price == d.BuysAt(r.ticker) && r.price > 0.0
    && exists n: nat :: AsksFor(r, n, CashAfterSells(d, b), d.s.fee, d.s.pct, EquityAfterSells(d, b))
  }

  ghost function BuyOf(d: Session, granted: map<string, real>, t: string): Trade {
    Trade(t, Buy, Get(granted, t), d.BuysAt(t), d.s.fee)
  }

  ghost function Spent(d: Session, granted: map<string, real>, t: string): real {
    Mul(Get(granted, t), d.BuysAt(t)) + d.s.fee
  }

  // ------------------------------------------------------ the book at the close

  /** Trades in ascending tickers: those of `due`, each once. */
  ghost predicate Lists(trades: seq<Trade>, due: map<string, Trade>) {
    && (forall k :: 0 <= k < |trades| ==> trades[k].ticker in due && trades[k] == due[trades[k].ticker])
    && (forall t :: t in due ==> exists k :: 0 <= k < |trades| && trades[k].ticker == t)
    && (forall i, j :: 0 <= i < j < |trades| ==>
        trades[i].ticker != trades[j].ticker && LexLe(trades[i].ticker, trades[j].ticker))
  }

  ghost function QtyAtClose(d: Session, b: Book, granted: map<string, real>, t: string): real {
    if t in granted then granted[t] else if t in Sold(d, b) then 0.0 else Get(b.positions, t)
  }

  /** A new holding costs what it took to buy it, fee included. */
  ghost function AvgAtClose(d: Session, b: Book, granted: map<string, real>, t: string): real {
    if t in granted && granted[t] != 0.0 then Spent(d, granted, t) / granted[t] else Get(b.avgCost, t)
  }

  ghost predicate BookAtClose(d: Session, b: Book, granted: map<string, real>, after: Book) {
    && after.cash == CashAfterSells(d, b) - Sum(granted.Keys, t => Spent(d, granted, t))
    && after.realized == b.realized + Sum(Sold(d, b), t => Gain(d, b, t))
    && (forall t :: Get(after.positions, t) == QtyAtClose(d, b, granted, t))
    && (forall t :: Get(after.avgCost, t) == AvgAtClose(d, b, granted, t))
    && (forall t :: t in after.positions <==>
        t in b.positions || LookedUp(d, b, t) || (d.Active(t) && d.Says(t, BuySignal)))
  }

  /** First the sells, then the buys. */
  ghost predicate TradedAtClose(d: Session, p: Portfolio, granted: map<string, real>, q: Portfolio) {
    exists sells, buys ::
      && q.trades == p.trades + sells + buys
      && Lists(sells, map t | t in Sold(d, p.book) :: SellOf(d, p.book, t))
      && Lists(buys, map t | t in granted :: BuyOf(d, granted, t))
  }

  ghost predicate RequestList(d: Session, b: Book, requests: seq<Request>) {
    && DistinctTickers(requests)
    && forall r :: r in requests <==> Requested(d, b, r)
  }

  /** The bar sells, asks, shares its cash fairly among what is asked for, and records what it did. */
  ghost predicate SettledBy(d: Session, p: Portfolio, requests: seq<Request>, granted: map<string, real>, q: Portfolio) {
    && RequestList(d, p.book, requests)
    && SharedFairly(requests, CashAfterSells(d, p.book), d.s.fee, granted)
    && BookAtClose(d, p.book, granted, q.book)
    && TradedAtClose(d, p, granted, q)
  }

  ghost predicate Settles(d: Session, p: Portfolio, q: Portfolio) {
    (exists requests, granted :: SettledBy(d, p, requests, granted, q)) && q.tradeCount == |q.trades|
  }

  // ---------------------------------------------------------------- the sells

  /** The signals the bar reads are the decisions. */
  ghost predicate Reads(d: Session, signals: map<string, Signal>, tickers: seq<string>) {
    forall t :: t in tickers ==>
      && (SignalOf(signals, t) == SellSignal <==> d.Says(t, SellSignal))
      && (SignalOf(signals, t) == BuySignal <==> d.Says(t, BuySignal))
  }

  ghost function SoldOf(d: Session, b: Book, tickers: seq<string>): set<string> {
    set t | t in Sold(d, b) && t in tickers
  }

  /** The portfolio after some of the sells. */
  ghost predicate SoldSome(d: Session, p: Portfolio, tickers: seq<string>, q: Portfolio) {
    && q.book.cash == p.book.cash + Sum(SoldOf(d, p.book, tickers), t => Proceeds(d, p.book, t))
    && q.book.realized == p.book.realized + Sum(SoldOf(d, p.book, tickers), t => Gain(d, p.book, t))
    && (forall t :: q.book.Qty(t) == if t in SoldOf(d, p.book, tickers) then 0.0 else p.book.Qty(t))
    && (forall t :: q.book.Avg(t) == p.book.Avg(t))
    && (forall t :: t in q.book.positions <==> t in p.book.positions || (t in tickers && d.Says(t, SellSignal)))
  }

  ghost function SellsDue(d: Session, b: Book, tickers: seq<string>): map<string, Trade> {
    map t | t in SoldOf(d, b, tickers) :: SellOf(d, b, t)
  }

  /** `q` has the trades of `p` and then those due, in ascending tickers. */
  ghost predicate Appends(p: Portfolio, due: map<string, Trade>, q: Portfolio) {
    exists more :: q.trades == p.trades + more && Lists(more, due)
  }

  lemma ListsNext(trades: seq<Trade>, due: map<string, Trade>, trade: Trade)
    requires Lists(trades, due) && forall t :: t in due ==> t != trade.ticker && LexLe(t, trade.ticker)
    ensures Lists(trades + [trade], due[trade.ticker := trade])
  {
    var longer, more := trades + [trade], due[trade.ticker := trade];
    assert longer[|trades|] == trade;
    forall t | t in more
      ensures exists k :: 0 <= k < |longer| && longer[k].ticker == t
    {
      if t in due {
        var k :| 0 <= k < |trades| && trades[k].ticker == t;
        assert longer[k].ticker == t;
      }
    }
  }

  lemma SoldOfNext(d: Session, b: Book, tickers: seq<string>, t: string)
    requires t !in tickers
    ensures t !in SoldOf(d, b, tickers)
    ensures SoldOf(d, b, tickers + [t]) == if t in Sold(d, b) then SoldOf(d, b, tickers) + {t} else SoldOf(d, b, tickers)
  {
  }

  lemma SoldTicker(d: Session, signals: map<string, Signal>, p: Portfolio, q: Portfolio, t: string)
    requires q.book.Qty(t) == p.book.Qty(t) && q.book.Avg(t) == p.book.Avg(t)
    requires SignalOf(signals, t) == SellSignal <==> d.Says(t, SellSignal)
    ensures var r := SellTicker(d.s, d.prices, signals, q, t);
            && r.book.cash == q.book.cash + (if t in Sold(d, p.book) then Proceeds(d, p.book, t) else 0.0)
            && r.book.realized == q.book.realized + (if t in Sold(d, p.book) then Gain(d, p.book, t) else 0.0)
            && r.trades == (if t in Sold(d, p.book) then q.trades + [SellOf(d, p.book, t)] else q.trades)
            && (forall x :: r.book.Qty(x) == if x == t && t in Sold(d, p.book) then 0.0 else q.book.Qty(x))
            && (forall x :: r.book.Avg(x) == q.book.Avg(x))
            && (forall x :: x in r.book.positions <==> x in q.book.positions || (x == t && d.Says(t, SellSignal)))
  {
  }

  lemma SoldNext(d: Session, signals: map<string, Signal>, p: Portfolio, tickers: seq<string>, q: Portfolio, t: string)
    requires SoldSome(d, p, tickers, q) && t !in tickers
    requires SignalOf(signals, t) == SellSignal <==> d.Says(t, SellSignal)
    ensures SoldSome(d, p, tickers + [t], SellTicker(d.s, d.prices, signals, q, t))
  {
    SoldOfNext(d, p.book, tickers, t);
    SoldTicker(d, signals, p, q, t);
    var now := SoldOf(d, p.book, tickers + [t]);
    if t in Sold(d, p.book) {
      assert now - {t} == SoldOf(d, p.book, tickers);
      SumPick(now, x => Proceeds(d, p.book, x), t);
      SumPick(now, x => Gain(d, p.book, x), t);
    }
  }

  lemma AppendsNext(p: Portfolio, due: map<string, Trade>, q: Portfolio, trade: Trade, r: Portfolio)
    requires Appends(p, due, q) && forall t :: t in due ==> t != trade.ticker && LexLe(t, trade.ticker)
    requires r.trades == q.trades + [trade]
    ensures Appends(p, due[trade.ticker := trade], r)
  {
    var more :| q.trades == p.trades + more && Lists(more, due);
    ListsNext(more, due, trade);
    assert r.trades == p.trades + (more + [trade]);
  }

  lemma SellsListedNext(d: Session, signals: map<string, Signal>, p: Portfolio, tickers: seq<string>, q: Portfolio, t: string)
    requires SoldSome(d, p, tickers, q) && Appends(p, SellsDue(d, p.book, tickers), q)
    requires forall x :: x in tickers ==> x != t && LexLe(x, t)
    requires SignalOf(signals, t) == SellSignal <==> d.Says(t, SellSignal)
    ensures Appends(p, SellsDue(d, p.book, tickers + [t]), SellTicker(d.s, d.prices, signals, q, t))
  {
    SellsDueNext(d, p.book, tickers, t);
    SoldTicker(d, signals, p, q, t);
    if t in Sold(d, p.book) {
      AppendsNext(p, SellsDue(d, p.book, tickers), q, SellOf(d, p.book, t), SellTicker(d.s, d.prices, signals, q, t));
    }
  }

  lemma SellsDueNext(d: Session, b: Book, tickers: seq<string>, t: string)
    requires t !in tickers
    ensures var due := SellsDue(d, b, tickers);
            SellsDue(d, b, tickers + [t]) == if t in Sold(d, b) then due[t := SellOf(d, b, t)] else due
  {
    SoldOfNext(d, b, tickers, t);
    var due, more := SellsDue(d, b, tickers), SellsDue(d, b, tickers + [t]);
    if t in Sold(d, b) {
      assert more == due[t := SellOf(d, b, t)];
    } else {
      assert more == due;
    }
  }

  lemma {:induction false} SellsUnfold(d: Session, signals: map<string, Signal>, p: Portfolio, tickers: seq<string>)
    requires StrictlyAscending(tickers, LexLe) && Reads(d, signals, tickers)
    ensures var q := SellPhase(d.s, d.prices, signals, p, tickers);
            SoldSome(d, p, tickers, q) && Appends(p, SellsDue(d, p.book, tickers), q)
  {
    if tickers == [] {
      assert SoldOf(d, p.book, tickers) == {};
      assert p.trades == p.trades + [];
      assert Lists([], SellsDue(d, p.book, tickers));
    } else {
      var n := |tickers| - 1;
      var t, before := tickers[n], tickers[..n];
      assert tickers == before + [t];
      SellsUnfold(d, signals, p, before);
      var q := SellPhase(d.s, d.prices, signals, p, before);
      SoldNext(d, signals, p, before, q, t);
      SellsListedNext(d, signals, p, before, q, t);
    }
  }

  /** The value of the book after the sells. */
  lemma EquityUnfolds(d: Session, p: Portfolio, tickers: seq<string>, sold: Portfolio)
    requires SoldSome(d, p, tickers, sold) && forall t :: Get(p.book.positions, t) >= 0.0
    requires forall t :: t in tickers <==> d.Active(t) || Holds(p.book, t)
    ensures Equity(sold.book, d.prices) == EquityAfterSells(d, p.book)
    ensures sold.book.cash == CashAfterSells(d, p.book)
  {
    assert SoldOf(d, p.book, tickers) == Sold(d, p.book);
    var keys, kept := sold.book.positions.Keys, Kept(d, p.book);
    forall t | t in keys
      ensures t in kept ==> HoldingValue(sold.book, d.prices, t) == WorthAtMark(d, p.book, t)
      ensures t !in kept ==> HoldingValue(sold.book, d.prices, t) == 0.0
    {
      assert sold.book.Qty(t) == if t in Sold(d, p.book) then 0.0 else p.book.Qty(t);
      if t !in kept {
        assert sold.book.Qty(t) == 0.0;
      }
    }
    assert kept <= keys;
    SumWiden(kept, keys, t => HoldingValue(sold.book, d.prices, t));
    SumSame(kept, t => HoldingValue(sold.book, d.prices, t), t => WorthAtMark(d, p.book, t));
  }

  // ------------------------------------------------------------- the requests

  lemma LargerCostsMore(qty: real, more: real, price: real)
    requires price > 0.0 && qty <= more
    ensures Mul(qty, price) <= Mul(more, price)
  {
    Scale(qty, more, price);
  }

  lemma MoreIsOverBudget(n: nat, m: nat, cash: real, price: real, fee: real, pct: SizingPct, equity: Price)
    requires price > 0.0 && n < m && MostInBudget(n, cash, price, fee, pct, equity)
    ensures !MostInBudget(m, cash, price, fee, pct, equity)
  {
    LargerCostsMore((n + 1) as real, m as real, price);
  }

  /** The most shares in budget are one number. */
  lemma MostIsUnique(n: nat, m: nat, cash: real, price: real, fee: real, pct: SizingPct, equity: Price)
    requires price > 0.0 && MostInBudget(n, cash, price, fee, pct, equity) && MostInBudget(m, cash, price, fee, pct, equity)
    ensures n == m
  {
    if n < m {
      MoreIsOverBudget(n, m, cash, price, fee, pct, equity);
    }
    if m < n {
      MoreIsOverBudget(m, n, cash, price, fee, pct, equity);
    }
  }

  ghost predicate AscendingTickers(requests: seq<Request>) {
    forall i, j :: 0 <= i < j < |requests| ==>
      requests[i].ticker != requests[j].ticker && LexLe(requests[i].ticker, requests[j].ticker)
  }

  lemma AscendingNext(before: seq<Request>, next: Option<Request>, t: string)
    requires AscendingTickers(before) && (next.Some? ==> next.value.ticker == t)
    requires forall r :: r in before ==> r.ticker != t && LexLe(r.ticker, t)
    ensures var all := before + if next.Some? then [next.value] else [];
            AscendingTickers(all) && forall r :: r in all <==> r in before || next == Some(r)
  {
    assert forall i :: 0 <= i < |before| ==> before[i] in before;
  }

  /** The requests are those its tickers make, in their order. */
  lemma {:induction false} RequestsUnfold(s: Settings, prices: map<string, Price>, signals: map<string, Signal>,
                                          active: seq<string>, b: Book, equity: Price, tickers: seq<string>)
    requires StrictlyAscending(tickers, LexLe)
    ensures var rs := BuyRequests(s, prices, signals, active, b, equity, tickers);
            && AscendingTickers(rs)
            && forall r ::
                 r in rs <==> r.ticker in tickers && BuyRequest(s, prices, signals, active, b, equity, r.ticker) == Some(r)
  {
    if tickers != [] {
      var n := |tickers| - 1;
      var front, t := tickers[..n], tickers[n];
      RequestsUnfold(s, prices, signals, active, b, equity, front);
      assert tickers == front + [t];
      AscendingNext(BuyRequests(s, prices, signals, active, b, equity, front),
                    BuyRequest(s, prices, signals, active, b, equity, t), t);
    }
  }

  /** What a ticker of the universe asks for is what the bar's numbers make it ask for. */
  lemma RequestUnfolds(d: Session, signals: map<string, Signal>, active: seq<string>, p: Portfolio, sold: Portfolio,
                       r: Request, equity: Price)
    requires SignalOf(signals, r.ticker) == BuySignal <==> d.Says(r.ticker, BuySignal)
    requires r.ticker in active <==> d.Active(r.ticker)
    requires Get(p.book.positions, r.ticker) >= 0.0
    requires d.Says(r.ticker, BuySignal) ==> sold.book.Qty(r.ticker) == p.book.Qty(r.ticker)
    requires sold.book.cash == CashAfterSells(d, p.book) && equity == EquityAfterSells(d, p.book)
    ensures BuyRequest(d.s, d.prices, signals, active, sold.book, equity, r.ticker) == Some(r) <==> Requested(d, p.book, r)
  {
    var t, cash := r.ticker, CashAfterSells(d, p.book);
    if d.Active(t) && d.Says(t, BuySignal) && !Holds(p.book, t) && d.Quoted(t) && d.BuysAt(t) > 0.0 {
      assert sold.book.Qty(t) == 0.0;
      assert Mul(sold.book.Qty(t), d.prices[t].v) == 0.0;
      var px := d.BuysAt(t);
      var n := ChosenIsMostInBudget(cash, px, d.s.fee, d.s.pct, equity);
      if Requested(d, p.book, r) {
        var m: nat :| AsksFor(r, m, cash, d.s.fee, d.s.pct, equity);
        MostIsUnique(n, m, cash, px, d.s.fee, d.s.pct, equity);
      } else {
        assert r.price == px && r.qty == n as real && n >= 1 ==> AsksFor(r, n, cash, d.s.fee, d.s.pct, equity);
      }
    }
  }

  // ------------------------------------------------------------------ the buys

  ghost function GrantedOf(granted: map<string, real>, requests: seq<Request>): set<string> {
    set r | r in requests && r.ticker in granted :: r.ticker
  }

  ghost function BuysDue(d: Session, granted: map<string, real>, tickers: set<string>): map<string, Trade> {
    map t | t in tickers :: BuyOf(d, granted, t)
  }

  /** The portfolio after some of the fills. */
  ghost predicate FilledSome(d: Session, p: Portfolio, granted: map<string, real>, tickers: set<string>, q: Portfolio) {
    && q.book.cash == p.book.cash - Sum(tickers, t => Spent(d, granted, t))
    && q.book.realized == p.book.realized
    && (forall t :: q.book.Qty(t) == if t in tickers then Get(granted, t) else p.book.Qty(t))
    && (forall t :: q.book.Avg(t) ==
          if t in tickers && Get(granted, t) != 0.0 then Spent(d, granted, t) / Get(granted, t) else p.book.Avg(t))
    && (forall t :: t in q.book.positions <==> t in p.book.positions || t in tickers)
  }

  /** One fill of a ticker not held. */
  lemma FilledTicker(d: Session, granted: map<string, real>, q: Portfolio, r: Request)
    requires r.ticker in granted ==> granted[r.ticker] >= 1.0
    requires q.book.Qty(r.ticker) == 0.0 && r.price == d.BuysAt(r.ticker)
    ensures var f := FillBuy(d.s, granted, q, r);
            if r.ticker !in granted then f == q else
              && f.book.cash == q.book.cash - Spent(d, granted, r.ticker)
              && f.book.realized == q.book.realized
              && f.book.positions == q.book.positions[r.ticker := granted[r.ticker]]
              && f.book.avgCost == q.book.avgCost[r.ticker := Spent(d, granted, r.ticker) / granted[r.ticker]]
              && f.trades == q.trades + [BuyOf(d, granted, r.ticker)]
  {
    if r.ticker in granted {
      assert Mul(0.0, q.book.Avg(r.ticker)) == 0.0;
    }
  }

  lemma FilledNext(d: Session, p: Portfolio, granted: map<string, real>, tickers: set<string>, q: Portfolio, r: Request)
    requires FilledSome(d, p, granted, tickers, q) && r.ticker !in tickers && r.ticker in granted
    requires granted[r.ticker] >= 1.0 && p.book.Qty(r.ticker) == 0.0 && r.price == d.BuysAt(r.ticker)
    ensures FilledSome(d, p, granted, tickers + {r.ticker}, FillBuy(d.s, granted, q, r))
  {
    FilledTicker(d, granted, q, r);
    var now := tickers + {r.ticker};
    assert now - {r.ticker} == tickers;
    SumPick(now, t => Spent(d, granted, t), r.ticker);
  }

  lemma GrantedOfNext(granted: map<string, real>, requests: seq<Request>, r: Request)
    requires AscendingTickers(requests + [r])
    ensures forall t :: t in GrantedOf(granted, requests) ==> t != r.ticker && LexLe(t, r.ticker)
    ensures GrantedOf(granted, requests + [r])
         == if r.ticker in granted then GrantedOf(granted, requests) + {r.ticker} else GrantedOf(granted, requests)
  {
    var longer := requests + [r];
    forall i | 0 <= i < |requests|
      ensures requests[i].ticker != r.ticker && LexLe(requests[i].ticker, r.ticker)
    {
      assert longer[i].ticker != longer[|requests|].ticker && LexLe(longer[i].ticker, longer[|requests|].ticker);
    }
    assert forall x :: x in longer <==> x in requests || x == r;
  }

  lemma BuysDueNext(d: Session, p: Portfolio, granted: map<string, real>, tickers: set<string>, q: Portfolio, t: string,
                    r: Portfolio)
    requires Appends(p, BuysDue(d, granted, tickers), q) && forall x :: x in tickers ==> x != t && LexLe(x, t)
    requires r.trades == q.trades + [BuyOf(d, granted, t)]
    ensures Appends(p, BuysDue(d, granted, tickers + {t}), r)
  {
    var trade := BuyOf(d, granted, t);
    assert BuysDue(d, granted, tickers + {t}) == BuysDue(d, granted, tickers)[t := trade];
    AppendsNext(p, BuysDue(d, granted, tickers), q, trade, r);
  }

  lemma FillsNext(d: Session, granted: map<string, real>, p: Portfolio, before: seq<Request>, r: Request, q: Portfolio)
    requires AscendingTickers(before + [r]) && forall t :: t in granted ==> granted[t] >= 1.0
    requires p.book.Qty(r.ticker) == 0.0 && r.price == d.BuysAt(r.ticker)
    requires FilledSome(d, p, granted, GrantedOf(granted, before), q)
    requires Appends(p, BuysDue(d, granted, GrantedOf(granted, before)), q)
    ensures var f, now := FillBuy(d.s, granted, q, r), GrantedOf(granted, before + [r]);
            FilledSome(d, p, granted, now, f) && Appends(p, BuysDue(d, granted, now), f)
  {
    GrantedOfNext(granted, before, r);
    var tickers := GrantedOf(granted, before);
    FilledTicker(d, granted, q, r);
    if r.ticker in granted {
      FilledNext(d, p, granted, tickers, q, r);
      BuysDueNext(d, p, granted, tickers, q, r.ticker, FillBuy(d.s, granted, q, r));
    }
  }

  lemma {:induction false} FillsUnfold(d: Session, granted: map<string, real>, p: Portfolio, requests: seq<Request>)
    requires AscendingTickers(requests) && forall t :: t in granted ==> granted[t] >= 1.0
    requires forall r :: r in requests ==> p.book.Qty(r.ticker) == 0.0 && r.price == d.BuysAt(r.ticker)
    ensures var q, tickers := FillBuys(d.s, granted, p, requests), GrantedOf(granted, requests);
            FilledSome(d, p, granted, tickers, q) && Appends(p, BuysDue(d, granted, tickers), q)
  {
    if requests == [] {
      assert GrantedOf(granted, requests) == {};
      assert p.trades == p.trades + [];
      assert Lists([], BuysDue(d, granted, {}));
    } else {
      var n := |requests| - 1;
      var r, before := requests[n], requests[..n];
      assert requests == before + [r];
      FillsUnfold(d, granted, p, before);
      FillsNext(d, granted, p, before, r, FillBuys(d.s, granted, p, before));
    }
  }

  // ------------------------------------------------------------------ the bar

  ghost predicate TouchedOnly(d: Session, sold: Portfolio, touched: Portfolio) {
    && touched.book.cash == sold.book.cash && touched.book.realized == sold.book.realized
    && touched.book.avgCost == sold.book.avgCost && touched.trades == sold.trades
    && (forall t :: touched.book.Qty(t) == sold.book.Qty(t))
    && (forall t :: t in touched.book.positions <==> t in sold.book.positions || (d.Active(t) && d.Says(t, BuySignal)))
  }

  lemma {:induction false} TouchesUnfold(signals: map<string, Signal>, active: seq<string>, b: Book, tickers: seq<string>)
    ensures var c := TouchCandidates(signals, active, b, tickers);
            && c.cash == b.cash && c.realized == b.realized && c.avgCost == b.avgCost
            && (forall t :: c.Qty(t) == b.Qty(t))
            && (forall t :: t in c.positions <==> t in b.positions || (t in tickers && BuyCandidate(signals, active, t)))
  {
    if tickers != [] {
      var n := |tickers| - 1;
      TouchesUnfold(signals, active, b, tickers[..n]);
      assert tickers == tickers[..n] + [tickers[n]];
    }
  }

  /** What the bar looks at: the universe of its month and everything held, and their decisions. */
  ghost predicate LooksAt(d: Session, b: Book, signals: map<string, Signal>, active: seq<string>, tickers: seq<string>) {
    && StrictlyAscending(tickers, LexLe)
    && Reads(d, signals, tickers)
    && (forall t :: t in active <==> d.Active(t))
    && forall t :: t in tickers <==> d.Active(t) || Holds(b, t)
  }

  lemma SignalsAreDecisions(d: Session, tickers: seq<string>)
    ensures Reads(d, SignalsAt(d.plan, d.decided, tickers), tickers)
  {
    var signals := SignalsAt(d.plan, d.decided, tickers);
    forall t | t in tickers
      ensures (SignalOf(signals, t) == SellSignal <==> d.Says(t, SellSignal))
           && (SignalOf(signals, t) == BuySignal <==> d.Says(t, BuySignal))
    {
      assert SignalOf(signals, t) == PlannedAt(d.plan, t, d.decided);
    }
  }

  lemma ActiveIsUniverse(d: Session, t: string)
    ensures t in d.s.ActiveTickers(d.month) <==> d.Active(t)
  {
  }

  lemma BarLooksAt(d: Session, b: Book)
    ensures var active := d.s.ActiveTickers(d.month);
            var tickers := StrategyTickers(active, b);
            LooksAt(d, b, SignalsAt(d.plan, d.decided, tickers), active, tickers)
  {
    var active := d.s.ActiveTickers(d.month);
    var tickers := StrategyTickers(active, b);
    var looked := (set t | t in active) + HeldTickers(b);
    SortedStringsAscend(looked);
    SignalsAreDecisions(d, tickers);
    forall t
      ensures t in active <==> d.Active(t)
      ensures t in tickers <==> d.Active(t) || Holds(b, t)
    {
      ActiveIsUniverse(d, t);
      assert t in tickers <==> t in looked;
    }
  }

  /** The books between the phases combine into the one at the close. */
  lemma BooksCombine(d: Session, p: Portfolio, tickers: seq<string>, sold: Portfolio, touched: Portfolio,
                     granted: map<string, real>, q: Portfolio)
    requires SoldSome(d, p, tickers, sold) && TouchedOnly(d, sold, touched) && FilledSome(d, touched, granted, granted.Keys, q)
    requires SoldOf(d, p.book, tickers) == Sold(d, p.book)
    requires forall t :: t in tickers <==> d.Active(t) || Holds(p.book, t)
    requires forall t :: t in granted ==> d.Active(t) && d.Says(t, BuySignal)
    ensures BookAtClose(d, p.book, granted, q.book)
  {
    forall t
      ensures Get(q.book.positions, t) == QtyAtClose(d, p.book, granted, t)
      ensures Get(q.book.avgCost, t) == AvgAtClose(d, p.book, granted, t)
    {
      assert q.book.Qty(t) == if t in granted.Keys then Get(granted, t) else touched.book.Qty(t);
      assert touched.book.Avg(t) == sold.book.Avg(t) == p.book.Avg(t);
      assert q.book.Avg(t) == AvgAtClose(d, p.book, granted, t);
    }
  }

  lemma TradesCombine(d: Session, p: Portfolio, sold: Portfolio, touched: Portfolio, granted: map<string, real>, q: Portfolio)
    requires touched.trades == sold.trades
    requires Appends(p, map t | t in Sold(d, p.book) :: SellOf(d, p.book, t), sold)
    requires Appends(touched, map t | t in granted :: BuyOf(d, granted, t), q)
    ensures TradedAtClose(d, p, granted, q)
  {
    var sells :| sold.trades == p.trades + sells && Lists(sells, map t | t in Sold(d, p.book) :: SellOf(d, p.book, t));
    var buys :| q.trades == touched.trades + buys && Lists(buys, map t | t in granted :: BuyOf(d, granted, t));
    assert q.trades == p.trades + sells + buys;
  }

  /** The requests of a bar are what the decisions, the universe and the book after the sells make them. */
  lemma RequestsOfBar(d: Session, signals: map<string, Signal>, active: seq<string>, tickers: seq<string>, p: Portfolio,
                      sold: Portfolio, equity: Price)
    requires LooksAt(d, p.book, signals, active, tickers) && SoldSome(d, p, tickers, sold)
    requires forall t :: Get(p.book.positions, t) >= 0.0
    requires sold.book.cash == CashAfterSells(d, p.book) && equity == EquityAfterSells(d, p.book)
    ensures var rs := BuyRequests(d.s, d.prices, signals, active, sold.book, equity, tickers);
            AscendingTickers(rs) && forall r :: r in rs <==> Requested(d, p.book, r)
  {
    RequestsUnfold(d.s, d.prices, signals, active, sold.book, equity, tickers);
    forall r: Request
      ensures r.ticker in tickers && BuyRequest(d.s, d.prices, signals, active, sold.book, equity, r.ticker) == Some(r)
         <==> Requested(d, p.book, r)
    {
      if r.ticker in tickers {
        assert sold.book.Qty(r.ticker) == if r.ticker in SoldOf(d, p.book, tickers) then 0.0 else p.book.Qty(r.ticker);
        RequestUnfolds(d, signals, active, p, sold, r, equity);
      }
    }
  }

  /** Whoever is granted something asked for it. */
  lemma GrantedAsked(d: Session, b: Book, requests: seq<Request>, granted: map<string, real>)
    requires RequestList(d, b, requests) && SharedFairly(requests, CashAfterSells(d, b), d.s.fee, granted)
    ensures GrantedOf(granted, requests) == granted.Keys
    ensures forall t :: t in granted ==> d.Active(t) && d.Says(t, BuySignal) && !Holds(b, t) && granted[t] >= 1.0
  {
    forall t | t in granted
      ensures t in GrantedOf(granted, requests) && d.Active(t) && d.Says(t, BuySignal) && !Holds(b, t) && granted[t] >= 1.0
    {
      var r :| r in Asking(requests) && r.ticker == t;
      assert Requested(d, b, r);
    }
  }

  lemma AscendingAreDistinct(requests: seq<Request>)
    requires AscendingTickers(requests)
    ensures DistinctTickers(requests)
  {
  }

  /** The buy phase on the book the sells left. */
  lemma BuysSettle(d: Session, signals: map<string, Signal>, active: seq<string>, tickers: seq<string>, p: Portfolio,
                   sold: Portfolio)
    requires LooksAt(d, p.book, signals, active, tickers) && SoldSome(d, p, tickers, sold)
    requires forall t :: Get(p.book.positions, t) >= 0.0
    ensures var requests := BuyRequests(d.s, d.prices, signals, active, sold.book, Equity(sold.book, d.prices), tickers);
            var granted := Granted(requests, sold.book.cash, d.s.fee);
            && RequestList(d, p.book, requests)
            && SharedFairly(requests, CashAfterSells(d, p.book), d.s.fee, granted)
            && GrantedOf(granted, requests) == granted.Keys
            && (forall t :: t in granted ==> d.Active(t) && d.Says(t, BuySignal) && granted[t] >= 1.0)
            && AscendingTickers(requests)
  {
    EquityUnfolds(d, p, tickers, sold);
    RequestsOfBar(d, signals, active, tickers, p, sold, EquityAfterSells(d, p.book));
    var requests := BuyRequests(d.s, d.prices, signals, active, sold.book, Equity(sold.book, d.prices), tickers);
    AscendingAreDistinct(requests);
    AllocationIsFair(requests, sold.book.cash, d.s.fee);
    GrantedAsked(d, p.book, requests, Granted(requests, sold.book.cash, d.s.fee));
  }

  lemma FillsSettle(d: Session, p: Portfolio, tickers: seq<string>, sold: Portfolio, touched: Portfolio,
                    requests: seq<Request>, granted: map<string, real>)
    requires SoldSome(d, p, tickers, sold) && TouchedOnly(d, sold, touched)
    requires RequestList(d, p.book, requests) && AscendingTickers(requests)
    requires GrantedOf(granted, requests) == granted.Keys && forall t :: t in granted ==> granted[t] >= 1.0
    requires forall t :: Get(p.book.positions, t) >= 0.0
    ensures var q := FillBuys(d.s, granted, touched, requests);
            FilledSome(d, touched, granted, granted.Keys, q) && Appends(touched, BuysDue(d, granted, granted.Keys), q)
  {
    forall r | r in requests
      ensures touched.book.Qty(r.ticker) == 0.0 && r.price == d.BuysAt(r.ticker)
    {
      assert Requested(d, p.book, r);
      assert touched.book.Qty(r.ticker) == sold.book.Qty(r.ticker);
      assert sold.book.Qty(r.ticker) == if r.ticker in SoldOf(d, p.book, tickers) then 0.0 else p.book.Qty(r.ticker);
    }
    FillsUnfold(d, granted, touched, requests);
  }

  lemma TouchesOnlyTouch(d: Session, signals: map<string, Signal>, active: seq<string>, tickers: seq<string>, b: Book,
                         sold: Portfolio)
    requires LooksAt(d, b, signals, active, tickers)
    ensures TouchedOnly(d, sold, sold.(book := TouchCandidates(signals, active, sold.book, tickers)))
  {
    TouchesUnfold(signals, active, sold.book, tickers);
    forall t
      ensures t in tickers && BuyCandidate(signals, active, t) <==> d.Active(t) && d.Says(t, BuySignal)
    {
    }
  }

  /** Every bar settles, from every orderly portfolio. */
  lemma BarSettles(d: Session, p: Portfolio, initialCash: real)
    requires Orderly(p, initialCash)
    ensures Settles(d, p, BarStep(d.s, d.plan, d.decided, d.month, d.prices, p))
  {
    BarLooksAt(d, p.book);
    var active := d.s.ActiveTickers(d.month);
    var tickers := StrategyTickers(active, p.book);
    var signals := SignalsAt(d.plan, d.decided, tickers);
    forall t
      ensures Get(p.book.positions, t) >= 0.0
    {
      OrderlyIsLong(p, t, initialCash);
    }
    PhasesSettle(d, p, signals, active, tickers);
    BarStepKeepsOrder(d.s, d.plan, d.decided, d.month, d.prices, p, initialCash);
  }

  lemma PhasesSettle(d: Session, p: Portfolio, signals: map<string, Signal>, active: seq<string>, tickers: seq<string>)
    requires LooksAt(d, p.book, signals, active, tickers) && forall t :: Get(p.book.positions, t) >= 0.0
    ensures exists requests, granted ::
              SettledBy(d, p, requests, granted,
                            BuyPhase(d.s, d.prices, signals, active, SellPhase(d.s, d.prices, signals, p, tickers), tickers))
  {
    var sold := SellPhase(d.s, d.prices, signals, p, tickers);
    SellsUnfold(d, signals, p, tickers);
    BuysSettle(d, signals, active, tickers, p, sold);
    TouchesOnlyTouch(d, signals, active, tickers, p.book, sold);
    var requests := BuyRequests(d.s, d.prices, signals, active, sold.book, Equity(sold.book, d.prices), tickers);
    var granted := Granted(requests, sold.book.cash, d.s.fee);
    var touched := sold.(book := TouchCandidates(signals, active, sold.book, tickers));
    var q := FillBuys(d.s, granted, touched, requests);
    FillsSettle(d, p, tickers, sold, touched, requests, granted);
    assert SoldOf(d, p.book, tickers) == Sold(d, p.book);
    BooksCombine(d, p, tickers, sold, touched, granted, q);
    DuesCombine(d, p, tickers, sold, touched, granted, q);
    assert SettledBy(d, p, requests, granted, q);
    assert q == BuyPhase(d.s, d.prices, signals, active, sold, tickers);
  }

  lemma DuesCombine(d: Session, p: Portfolio, tickers: seq<string>, sold: Portfolio, touched: Portfolio,
                    granted: map<string, real>, q: Portfolio)
    requires SoldOf(d, p.book, tickers) == Sold(d, p.book) && touched.trades == sold.trades
    requires Appends(p, SellsDue(d, p.book, tickers), sold) && Appends(touched, BuysDue(d, granted, granted.Keys), q)
    ensures TradedAtClose(d, p, granted, q)
  {
    assert SellsDue(d, p.book, tickers) == map t | t in Sold(d, p.book) :: SellOf(d, p.book, t);
    assert BuysDue(d, granted, granted.Keys) == map t | t in granted :: BuyOf(d, granted, t);
    TradesCombine(d, p, sold, touched, granted, q);
  }

  // ---------------------------------------------------------------- whole runs

  /** Bar `j` of a run, resolved on what bar `i` decided. */
  function SessionOf(s: Settings, plan: Plan, bars: seq<Bar>, i: nat, j: nat): Session
    requires i < |bars| && j < |bars|
  {
    Session(s, plan, i, bars[i].month, bars[j].prices)
  }

  /** At every bar of every run from a flat start. */
  lemma RunSettles(s: Settings, plan: Plan, bars: seq<Bar>, first: nat, states: seq<Portfolio>, initialCash: real, i: nat, j: nat)
    requires IsRun(s, plan, bars, first, states) && states[first] == Start(initialCash)
    requires first <= i < |states| && j == i + 1 && j < |states|
    ensures Settles(SessionOf(s, plan, bars, i, j), states[i], states[j])
  {
    RunIsOrderly(s, plan, bars, first, states, initialCash, i);
    assert StepsTo(s, plan, bars, states, i, j);
    BarSettles(SessionOf(s, plan, bars, i, j), states[i], initialCash);
  }

  /** The trades bar `j` recorded in a ticker. */
  ghost predicate TradesAt(p: Portfolio, q: Portfolio, t: string, k: int) {
    |p.trades| <= k < |q.trades| && q.trades[k].ticker == t
  }

  ghost predicate OnlyTrade(p: Portfolio, q: Portfolio, t: string, k: int) {
    TradesAt(p, q, t, k) && forall m :: TradesAt(p, q, t, m) ==> m == k
  }

  /**
   A ticker held, told to sell and quoted is sold whole, in the universe or not: the bar records that
   one trade in it and leaves nothing. A ticker held otherwise keeps its quantity and is not traded.
   */
  lemma HeldIsSoldExactly(s: Settings, plan: Plan, bars: seq<Bar>, first: nat, states: seq<Portfolio>, initialCash: real,
                          i: nat, j: nat, t: string)
    requires IsRun(s, plan, bars, first, states) && states[first] == Start(initialCash)
    requires first <= i < |states| && j == i + 1 && j < |states|
    requires Get(states[i].book.positions, t) > 0.0
    ensures states[i].trades <= states[j].trades
    ensures var d := SessionOf(s, plan, bars, i, j);
            d.Says(t, SellSignal) && d.Quoted(t) ==>
              && Get(states[j].book.positions, t) == 0.0
              && exists k :: OnlyTrade(states[i], states[j], t, k)
                          && states[j].trades[k] == SellOf(d, states[i].book, t)
    ensures var d := SessionOf(s, plan, bars, i, j);
            !(d.Says(t, SellSignal) && d.Quoted(t)) ==>
              && Get(states[j].book.positions, t) == Get(states[i].book.positions, t)
              && forall k :: !TradesAt(states[i], states[j], t, k)
  {
    RunSettles(s, plan, bars, first, states, initialCash, i, j);
    var d, p, q := SessionOf(s, plan, bars, i, j), states[i], states[j];
    var requests, granted :| SettledBy(d, p, requests, granted, q);
    GrantedAsked(d, p.book, requests, granted);
    assert Holds(p.book, t) && t !in granted;
    HeldTrades(d, p, granted, q, t);
    assert QtyAtClose(d, p.book, granted, t) == Get(q.book.positions, t);
  }

  lemma TradeIsSellOrBuy(p: Portfolio, sells: seq<Trade>, buys: seq<Trade>, q: Portfolio, m: nat)
    requires q.trades == p.trades + sells + buys && m < |sells| + |buys|
    ensures |q.trades| == |p.trades| + |sells| + |buys|
    ensures q.trades[|p.trades| + m] == if m < |sells| then sells[m] else buys[m - |sells|]
  {
  }

  lemma SellsNameIt(p: Portfolio, sells: seq<Trade>, buys: seq<Trade>, q: Portfolio, t: string, due: map<string, Trade>)
    requires q.trades == p.trades + sells + buys && forall m :: 0 <= m < |buys| ==> buys[m].ticker != t
    requires Lists(sells, due)
    ensures t in due ==> exists k :: OnlyTrade(p, q, t, k) && q.trades[k] == due[t]
    ensures t !in due ==> forall k :: !TradesAt(p, q, t, k)
  {
    forall k | TradesAt(p, q, t, k)
      ensures k - |p.trades| < |sells| && q.trades[k] == sells[k - |p.trades|]
    {
      TradeIsSellOrBuy(p, sells, buys, q, k - |p.trades|);
    }
    if t in due {
      var m :| 0 <= m < |sells| && sells[m].ticker == t;
      var k := |p.trades| + m;
      assert q.trades[k] == sells[m];
      assert OnlyTrade(p, q, t, k);
    }
  }

  lemma HeldTrades(d: Session, p: Portfolio, granted: map<string, real>, q: Portfolio, t: string)
    requires TradedAtClose(d, p, granted, q) && t !in granted
    ensures p.trades <= q.trades
    ensures t in Sold(d, p.book) ==> exists k :: OnlyTrade(p, q, t, k) && q.trades[k] == SellOf(d, p.book, t)
    ensures t !in Sold(d, p.book) ==> forall k :: !TradesAt(p, q, t, k)
  {
    var sells, buys :| q.trades == p.trades + sells + buys
                    && Lists(sells, map x | x in Sold(d, p.book) :: SellOf(d, p.book, x))
                    && Lists(buys, map x | x in granted :: BuyOf(d, granted, x));
    SellsNameIt(p, sells, buys, q, t, map x | x in Sold(d, p.book) :: SellOf(d, p.book, x));
  }
}
