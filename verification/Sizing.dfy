/** How large a signalled buy is, and how one bar's cash is shared among its buys. */
module Sizing {
  import opened Outcomes
  import opened Reals
  import opened Sums
  import opened Accounting

  const DEFAULT_TRADE_SIZE_PCT := 10.0
  const DEFAULT_MAX_POSITION_PCT := 20.0
  const WHOLE_SHARE_STEP := 1.0

  datatype SizingError = BadTradeSizePct | BadMaxPositionPct | TradeAbovePosition

  /** The trade and position percentages a run sizes with. */
  datatype SizingPct = SizingPct(trade: real, position: real)

  predicate BadPct(pct: Option<real>) {
    pct.Some? && (pct.value <= 0.0 || pct.value > 100.0)
  }

  function ResolveSizing(tradeSizePct: Option<real>, maxPositionPct: Option<real>): Result<SizingPct, SizingError> {
    if BadPct(tradeSizePct) then Failure(BadTradeSizePct)
    else if BadPct(maxPositionPct) then Failure(BadMaxPositionPct)
    else
      var r := SizingPct(tradeSizePct.GetOr(DEFAULT_TRADE_SIZE_PCT), maxPositionPct.GetOr(DEFAULT_MAX_POSITION_PCT));
      if r.trade > r.position then Failure(TradeAbovePosition) else Success(r)
  }

  /** Rounds down to whole multiples of the step, never below zero. */
  function TruncateToStep(quantity: real, step: real): real {
    if quantity <= 0.0 || step <= 0.0 then 0.0 else Mul((quantity / step).Floor as real, step)
  }

  lemma TruncateBounds(quantity: real, step: real)
    requires step > 0.0
    ensures 0.0 <= TruncateToStep(quantity, step) <= Max(0.0, quantity)
  {
    if quantity > 0.0 {
      var x := quantity / step;
      assert x * step == quantity;
      assert 0.0 <= x.Floor as real <= x;
      assert x.Floor as real * step <= x * step;
    }
  }

  /**
   The whole-share quantity a buy asks for. A portfolio equity that is not a number leaves
   no position budget: both `max(0.0, nan)` and a later `min` over it come out at zero.
   */
  function ChooseBuyQty(cash: real, price: real, fee: real, pct: SizingPct, held: real, equity: Price): real {
    if price <= 0.0 || cash <= fee || equity.NaN? || equity.v <= 0.0 then 0.0 else
      var tradeBudget := Mul(equity.v, pct.trade / 100.0);
      var positionCap := Mul(equity.v, pct.position / 100.0);
      var positionBudget := Max(0.0, positionCap - Max(0.0, held));
      var spendable := Min(Min(Max(0.0, cash - fee), tradeBudget), positionBudget);
      TruncateToStep(spendable / price, WHOLE_SHARE_STEP)
  }

  /** A whole number of shares whose cost keeps to cash, the trade budget and the position cap. */
  ghost predicate WithinPolicy(qty: real, cash: real, price: real, fee: real, pct: SizingPct, held: real, equity: real) {
    var cost := Mul(qty, price);
    && cost <= cash - fee
    && cost <= Mul(equity, pct.trade / 100.0)
    && cost <= Max(0.0, Mul(equity, pct.position / 100.0) - Max(0.0, held))
  }

  lemma WholeShares(spendable: real, price: real, qty: real, next: real)
    requires price > 0.0 && spendable >= 0.0
    requires qty == TruncateToStep(spendable / price, WHOLE_SHARE_STEP) && next == qty + 1.0
    ensures 0.0 <= Mul(qty, price) <= spendable < Mul(next, price)
  {
    var x := spendable / price;
    Divide(spendable, price);
    NotNegative(x, price);
    FloorBetween(x, qty, next);
    CostsBetween(x, qty, next, price);
  }

  lemma CostsBetween(x: real, qty: real, next: real, price: real)
    requires price > 0.0 && 0.0 <= qty <= x < next
    ensures 0.0 <= Mul(qty, price) <= x * price < Mul(next, price)
  {
    Scale(0.0, qty, price);
    Scale(qty, x, price);
    CostsMore(x, next, price);
  }

  lemma CostsMore(x: real, next: real, price: real)
    requires price > 0.0 && x < next
    ensures x * price < Mul(next, price)
  {
    ScaleStrict(x, next, price);
  }

  lemma NotNegative(x: real, price: real)
    requires price > 0.0 && x * price >= 0.0
    ensures x >= 0.0
  {
    if x < 0.0 {
      ScaleStrict(x, 0.0, price);
    }
  }

  lemma FloorBetween(x: real, qty: real, next: real)
    requires x >= 0.0 && qty == TruncateToStep(x, WHOLE_SHARE_STEP) && next == qty + 1.0
    ensures 0.0 <= qty <= x < next
  {
    assert x / WHOLE_SHARE_STEP == x;
    if x > 0.0 {
      assert qty == Mul(x.Floor as real, WHOLE_SHARE_STEP);
      assert qty == x.Floor as real;
    }
  }

  lemma BudgetsAreNotNegative(pct: SizingPct, equity: real)
    requires pct.trade > 0.0 && equity > 0.0
    ensures Mul(equity, pct.trade / 100.0) >= 0.0
  {
    Scale(0.0, pct.trade / 100.0, equity);
  }

  /**
   A buy sized under percentages that were accepted asks for the largest whole number of shares
   within cash, the trade budget and what is left of the position cap: one more breaks one of them.
   */
  lemma ChosenIsLargestWithinPolicy(tradeSizePct: Option<real>, maxPositionPct: Option<real>,
                                    cash: real, price: real, fee: real, held: real, equity: real, qty: real, next: real)
    requires ResolveSizing(tradeSizePct, maxPositionPct).Success? && price > 0.0 && cash > fee && equity > 0.0
    requires qty == ChooseBuyQty(cash, price, fee, ResolveSizing(tradeSizePct, maxPositionPct).value, held, Num(equity))
    requires next == qty + 1.0
    ensures WithinPolicy(qty, cash, price, fee, ResolveSizing(tradeSizePct, maxPositionPct).value, held, equity)
    ensures !WithinPolicy(next, cash, price, fee, ResolveSizing(tradeSizePct, maxPositionPct).value, held, equity)
  {
    var pct := ResolveSizing(tradeSizePct, maxPositionPct).value;
    BudgetsAreNotNegative(pct, equity);
    var positionBudget := Max(0.0, Mul(equity, pct.position / 100.0) - Max(0.0, held));
    var spendable := Min(Min(Max(0.0, cash - fee), Mul(equity, pct.trade / 100.0)), positionBudget);
    WholeShares(spendable, price, qty, next);
  }

  /** A quantity of one share or more, with its fee, keeps to cash under any percentages. */
  lemma ChosenWithinCash(cash: real, price: real, fee: real, pct: SizingPct, held: real, equity: Price)
    ensures ChooseBuyQty(cash, price, fee, pct, held, equity) >= 1.0 ==>
              BuyCost(ChooseBuyQty(cash, price, fee, pct, held, equity), price, fee) <= cash
  {
    var qty := ChooseBuyQty(cash, price, fee, pct, held, equity);
    if qty >= 1.0 {
      var positionBudget := Max(0.0, Mul(equity.v, pct.position / 100.0) - Max(0.0, held));
      var spendable := Min(Min(Max(0.0, cash - fee), Mul(equity.v, pct.trade / 100.0)), positionBudget);
      Divide(spendable, price);
      TruncateBounds(spendable / price, WHOLE_SHARE_STEP);
      Scale(qty, spendable / price, price);
    }
  }

  // ------------------------------------------------------------- allocation

  /** A sized request: ticker, execution price, quantity asked for. */
  datatype Request = Request(ticker: string, price: real, qty: real)

  ghost predicate DistinctTickers(requests: seq<Request>) {
    forall i, j :: 0 <= i < j < |requests| ==> requests[i].ticker != requests[j].ticker
  }

  predicate Fundable(r: Request) {
    r.qty >= WHOLE_SHARE_STEP && r.price > 0.0
  }

  function CostOf(r: Request, fee: real): real {
    BuyCost(r.qty, r.price, fee)
  }

  /** The requests that can be funded at all, by ticker. */
  ghost function ByTicker(requests: seq<Request>): map<string, Request> {
    if requests == [] then map[] else
      var r := requests[|requests| - 1];
      var before := ByTicker(requests[..|requests| - 1]);
      if Fundable(r) then before[r.ticker := r] else before
  }

  ghost function CostMap(asks: map<string, Request>, fee: real): map<string, real> {
    map t | t in asks :: CostOf(asks[t], fee)
  }

  function Share(cash: real, cost: real, total: real): real
    requires total != 0.0
  {
    Mul(cash, cost / total)
  }

  /** What a request gets: all of it when cash covers every cost, else its proportional share. */
  function Grant(r: Request, total: real, cash: real, fee: real): real
    requires r.price > 0.0
  {
    if total <= cash || total == 0.0 then r.qty
    else Min(TruncateToStep((Share(cash, CostOf(r, fee), total) - fee) / r.price, WHOLE_SHARE_STEP), r.qty)
  }

  ghost predicate Priced(asks: map<string, Request>) {
    forall t :: t in asks ==> Fundable(asks[t]) && asks[t].ticker == t
  }

  /** The funded quantities: those of at least one whole share. */
  ghost function GrantedAt(asks: map<string, Request>, total: real, cash: real, fee: real): map<string, real>
    requires Priced(asks)
  {
    map t | t in asks && Grant(asks[t], total, cash, fee) >= WHOLE_SHARE_STEP :: Grant(asks[t], total, cash, fee)
  }

  lemma {:induction false} ByTickerPriced(requests: seq<Request>)
    ensures Priced(ByTicker(requests))
  {
    if requests != [] {
      ByTickerPriced(requests[..|requests| - 1]);
    }
  }

  ghost function Granted(requests: seq<Request>, cash: real, fee: real): map<string, real> {
    ByTickerPriced(requests);
    var asks := ByTicker(requests);
    GrantedAt(asks, Total(CostMap(asks, fee)), cash, fee)
  }

  lemma {:induction false} ByTickerKeys(requests: seq<Request>)
    ensures forall t :: t in ByTicker(requests) ==> exists i :: 0 <= i < |requests| && requests[i].ticker == t
  {
    if requests != [] {
      var n := |requests| - 1;
      ByTickerKeys(requests[..n]);
      forall t | t in ByTicker(requests)
        ensures exists i :: 0 <= i < |requests| && requests[i].ticker == t
      {
        if t in ByTicker(requests[..n]) {
          var i :| 0 <= i < n && requests[..n][i].ticker == t;
          assert requests[i].ticker == t;
        }
      }
    }
  }

  lemma GrantedExtends(asks: map<string, Request>, r: Request, total: real, cash: real, fee: real)
    requires Priced(asks) && Fundable(r) && r.ticker !in asks
    ensures var before := GrantedAt(asks, total, cash, fee);
            var qty := Grant(r, total, cash, fee);
            GrantedAt(asks[r.ticker := r], total, cash, fee)
            == if qty >= WHOLE_SHARE_STEP then before[r.ticker := qty] else before
  {
  }

  lemma NextIsNew(requests: seq<Request>, i: nat)
    requires DistinctTickers(requests) && i < |requests|
    ensures requests[i].ticker !in ByTicker(requests[..i])
    ensures ByTicker(requests[..i + 1])
         == if Fundable(requests[i]) then ByTicker(requests[..i])[requests[i].ticker := requests[i]]
            else ByTicker(requests[..i])
  {
    ByTickerKeys(requests[..i]);
    assert requests[..i + 1][..i] == requests[..i];
  }

  method CostTable(requests: seq<Request>, fee: real) returns (costs: map<string, real>)
    ensures costs == CostMap(ByTicker(requests), fee)
  {
    costs := map[];
    for i := 0 to |requests|
      invariant costs == CostMap(ByTicker(requests[..i]), fee)
    {
      assert requests[..i + 1][..i] == requests[..i];
      if Fundable(requests[i]) {
        costs := costs[requests[i].ticker := CostOf(requests[i], fee)];
      }
    }
    assert requests[..|requests|] == requests;
  }

  /** The shares are proportions of a total of zero, while there is less cash than that. */
  ghost predicate DividesByZero(requests: seq<Request>, cash: real, fee: real) {
    ByTicker(requests) != map[] && Total(CostMap(ByTicker(requests), fee)) == 0.0 && cash < 0.0
  }

  lemma OneRequest(r: Request, fee: real)
    requires Fundable(r)
    ensures ByTicker([r]) == map[r.ticker := r] && Total(CostMap(ByTicker([r]), fee)) == CostOf(r, fee)
  {
    var last := |[r]| - 1;
    assert [r][..last] == [] && [r][last] == r;
    assert ByTicker([r]) == map[r.ticker := r];
    var costs := CostMap(ByTicker([r]), fee);
    assert costs.Keys == {r.ticker};
    SumPick(costs.Keys, x => Get(costs, x), r.ticker);
    assert costs.Keys - {r.ticker} == {};
  }

  /** A negative fee can cancel what the shares cost: one such request and a debt, and there is no total to share. */
  lemma FeeCancelsCost(r: Request, cash: real, fee: real)
    requires Fundable(r) && cash < 0.0 && fee == -Mul(r.qty, r.price)
    ensures DividesByZero([r], cash, fee)
  {
    OneRequest(r, fee);
    assert r.ticker in ByTicker([r]);
  }

  /** Funds one bar's buys, at most one request a ticker; a total of zero cannot be shared out. */
  method AllocateBuyQuantities(requests: seq<Request>, cash: real, fee: real) returns (r: Result<map<string, real>, ()>)
    requires DistinctTickers(requests)
    ensures r.Failure? <==> DividesByZero(requests, cash, fee)
    ensures r.Success? ==> r.value == Granted(requests, cash, fee)
  {
    var costs := CostTable(requests, fee);
    assert costs.Keys == ByTicker(requests).Keys;
    var total := SumValues(costs);
    if costs != map[] && total == 0.0 && cash < 0.0 {
      return Failure(());
    }
    var granted := FundShares(requests, total, cash, fee);
    return Success(granted);
  }

  method FundShares(requests: seq<Request>, total: real, cash: real, fee: real) returns (granted: map<string, real>)
    requires DistinctTickers(requests)
    ensures Priced(ByTicker(requests))
    ensures granted == GrantedAt(ByTicker(requests), total, cash, fee)
  {
    granted := map[];
    for i := 0 to |requests|
      invariant Priced(ByTicker(requests[..i]))
      invariant granted == GrantedAt(ByTicker(requests[..i]), total, cash, fee)
    {
      var r := requests[i];
      NextIsNew(requests, i);
      if Fundable(r) {
        GrantedExtends(ByTicker(requests[..i]), r, total, cash, fee);
        var qty := Grant(r, total, cash, fee);
        if qty >= WHOLE_SHARE_STEP {
          granted := granted[r.ticker := qty];
        }
      }
      ByTickerPriced(requests[..i + 1]);
    }
    assert requests[..|requests|] == requests;
  }

  // ------------------------------------------------- what an allocation keeps

  /** A granted share of at least one whole share costs no more than its part of the cash. */
  lemma ScaledGrantFitsShare(r: Request, total: real, cash: real, fee: real)
    requires Fundable(r) && total > cash && total != 0.0
    requires Grant(r, total, cash, fee) >= WHOLE_SHARE_STEP
    ensures BuyCost(Grant(r, total, cash, fee), r.price, fee) <= Share(cash, CostOf(r, fee), total)
  {
    var spendable := Share(cash, CostOf(r, fee), total) - fee;
    var qty := Grant(r, total, cash, fee);
    TruncateBounds(spendable / r.price, WHOLE_SHARE_STEP);
    assert qty <= Max(0.0, spendable / r.price);
    assert qty <= spendable / r.price;
    assert qty * r.price <= spendable / r.price * r.price == spendable;
  }

  /** The cash an allocation spends. */
  ghost function Spend(asks: map<string, Request>, granted: map<string, real>, fee: real): real
    requires forall t :: t in granted ==> t in asks
  {
    Total(map t | t in granted :: BuyCost(granted[t], asks[t].price, fee))
  }

  lemma CostsArePositive(asks: map<string, Request>, fee: real)
    requires Priced(asks) && fee >= 0.0
    ensures forall t :: t in asks ==> CostOf(asks[t], fee) > 0.0
    ensures Total(CostMap(asks, fee)) >= 0.0
    ensures asks != map[] ==> Total(CostMap(asks, fee)) > 0.0
  {
    forall t | t in asks
      ensures CostOf(asks[t], fee) > 0.0
    {
      assert asks[t].qty * asks[t].price > 0.0;
    }
    var costs := CostMap(asks, fee);
    SumBounds(costs.Keys, x => Get(costs, x));
    if asks != map[] {
      var t :| t in asks;
      assert Get(costs, t) > 0.0;
    }
  }

  lemma NothingFromNoCash(r: Request, total: real, cash: real, fee: real)
    requires Fundable(r) && fee >= 0.0 && cash <= 0.0 && total > 0.0 && CostOf(r, fee) > 0.0
    ensures Grant(r, total, cash, fee) <= 0.0
  {
    var part := CostOf(r, fee) / total;
    assert part > 0.0;
    assert cash * part <= 0.0;
    var spendable := Share(cash, CostOf(r, fee), total) - fee;
    assert spendable <= 0.0;
    assert spendable / r.price <= 0.0;
  }

  lemma ShareSwap(cash: real, cost: real, total: real)
    requires total != 0.0
    ensures Share(cash, cost, total) == Mul(cash / total, cost)
    ensures Mul(cash / total, total) == cash
  {
    assert cash * (cost / total) == (cash / total) * cost;
  }

  ghost function ShareOf(asks: map<string, Request>, total: real, cash: real, fee: real, t: string): real
    requires total != 0.0
  {
    if t in asks then Share(cash, CostOf(asks[t], fee), total) else 0.0
  }

  lemma SharesAddUp(asks: map<string, Request>, total: real, cash: real, fee: real)
    requires total == Total(CostMap(asks, fee)) != 0.0
    ensures Sum(asks.Keys, t => ShareOf(asks, total, cash, fee, t)) == cash
  {
    var costs := CostMap(asks, fee);
    assert costs.Keys == asks.Keys;
    forall t | t in asks
      ensures ShareOf(asks, total, cash, fee, t) == Mul(cash / total, Get(costs, t))
    {
      ShareSwap(cash, CostOf(asks[t], fee), total);
    }
    SumScale(asks.Keys, t => Get(costs, t), t => ShareOf(asks, total, cash, fee, t), cash / total);
    ShareSwap(cash, total, total);
  }

  lemma PartOfNegative(k: real, cost: real)
    requires 0.0 <= k <= 1.0 && cost <= 0.0
    ensures Mul(k, cost) >= cost
  {
    Scale(k, 1.0, -cost);
  }

  lemma PartOfCash(cash: real, total: real)
    requires 0.0 <= cash < total
    ensures 0.0 <= cash / total <= 1.0
  {
    var k := cash / total;
    Divide(cash, total);
    NotNegative(k, total);
    if k > 1.0 {
      ScaleStrict(1.0, k, total);
    }
  }

  /** A request that a negative fee makes pay for itself is always funded. */
  lemma PayingRequestIsGranted(r: Request, total: real, cash: real, fee: real)
    requires Fundable(r) && 0.0 <= cash < total && CostOf(r, fee) <= 0.0
    ensures Grant(r, total, cash, fee) >= WHOLE_SHARE_STEP
  {
    var share := Share(cash, CostOf(r, fee), total);
    ShareSwap(cash, CostOf(r, fee), total);
    PartOfCash(cash, total);
    PartOfNegative(cash / total, CostOf(r, fee));
    Scale(1.0, r.qty, r.price);
    WholeShareAffordable(share - fee, r.price);
  }

  lemma WholeShareAffordable(spendable: real, price: real)
    requires price > 0.0 && spendable >= price
    ensures TruncateToStep(spendable / price, WHOLE_SHARE_STEP) >= WHOLE_SHARE_STEP
  {
    var x := spendable / price;
    Divide(spendable, price);
    if x < 1.0 {
      ScaleStrict(x, 1.0, price);
    } else {
      FloorBetween(x, TruncateToStep(x, WHOLE_SHARE_STEP), TruncateToStep(x, WHOLE_SHARE_STEP) + 1.0);
      assert TruncateToStep(x, WHOLE_SHARE_STEP) == x.Floor as real;
    }
  }

  lemma ShareSign(cash: real, cost: real, total: real)
    requires 0.0 <= cash < total && cost >= 0.0
    ensures Share(cash, cost, total) >= 0.0
  {
    ShareSwap(cash, cost, total);
    PartOfCash(cash, total);
    Scale(0.0, cash / total, cost);
  }

  /** Shares of cash that is there are kept to, whatever the fee. */
  lemma ScaledSpendFits(asks: map<string, Request>, granted: map<string, real>, total: real, cash: real, fee: real)
    requires Priced(asks) && 0.0 <= cash < total == Total(CostMap(asks, fee))
    requires granted == GrantedAt(asks, total, cash, fee)
    ensures Spend(asks, granted, fee) <= cash
  {
    var spent := map t | t in granted :: BuyCost(granted[t], asks[t].price, fee);
    assert spent.Keys == granted.Keys;
    forall t | t in asks
      ensures t in granted ==> Get(spent, t) <= ShareOf(asks, total, cash, fee, t)
      ensures t !in granted ==> ShareOf(asks, total, cash, fee, t) >= 0.0
    {
      if t in granted {
        ScaledGrantFitsShare(asks[t], total, cash, fee);
      } else if CostOf(asks[t], fee) <= 0.0 {
        PayingRequestIsGranted(asks[t], total, cash, fee);
      } else {
        ShareSign(cash, CostOf(asks[t], fee), total);
      }
    }
    SumPart(spent.Keys, asks.Keys, t => Get(spent, t), t => ShareOf(asks, total, cash, fee, t));
    SharesAddUp(asks, total, cash, fee);
  }

  /** When cash covers the total, exactly the total is spent. */
  lemma CoveredSpendIsTotal(asks: map<string, Request>, granted: map<string, real>, total: real, cash: real, fee: real)
    requires Priced(asks) && total == Total(CostMap(asks, fee)) <= cash
    requires granted == GrantedAt(asks, total, cash, fee)
    ensures Spend(asks, granted, fee) == total
  {
    var spent := map t | t in granted :: BuyCost(granted[t], asks[t].price, fee);
    assert spent == CostMap(asks, fee);
  }

  lemma NothingSpentFromNoCash(asks: map<string, Request>, granted: map<string, real>, total: real, cash: real, fee: real)
    requires Priced(asks) && fee >= 0.0 && cash < 0.0 && cash < total == Total(CostMap(asks, fee))
    requires granted == GrantedAt(asks, total, cash, fee)
    ensures Spend(asks, granted, fee) == 0.0
  {
    CostsArePositive(asks, fee);
    forall t | t in asks
      ensures t !in granted
    {
      NothingFromNoCash(asks[t], total, cash, fee);
    }
    assert (map t | t in granted :: BuyCost(granted[t], asks[t].price, fee)).Keys == {};
  }

  /** What a bar's buys spend keeps to the cash there is. */
  ghost predicate SpendFits(requests: seq<Request>, cash: real, fee: real) {
    var granted := Granted(requests, cash, fee);
    && (forall t :: t in granted ==> t in ByTicker(requests))
    && Spend(ByTicker(requests), granted, fee) <= Max(0.0, cash)
  }

  /** One bar's buys together never spend more cash than there is, unless cash and fee are both negative. */
  lemma AllocationFitsCash(requests: seq<Request>, cash: real, fee: real)
    requires fee >= 0.0 || cash >= 0.0
    ensures SpendFits(requests, cash, fee)
  {
    ByTickerPriced(requests);
    var asks, granted := ByTicker(requests), Granted(requests, cash, fee);
    var total := Total(CostMap(asks, fee));
    if total <= cash {
      CoveredSpendIsTotal(asks, granted, total, cash, fee);
    } else if cash < 0.0 {
      NothingSpentFromNoCash(asks, granted, total, cash, fee);
    } else {
      ScaledSpendFits(asks, granted, total, cash, fee);
    }
  }

  /** Costs that are each no more than a negative amount are together no more than it. */
  lemma NegativeCostsAddUp(asks: map<string, Request>, cash: real, fee: real)
    requires cash < 0.0 && forall t :: t in asks ==> CostOf(asks[t], fee) <= cash
    ensures asks != map[] ==> Total(CostMap(asks, fee)) <= cash
  {
    var costs := CostMap(asks, fee);
    assert costs.Keys == asks.Keys;
    if asks != map[] {
      var t :| t in asks;
      SumPick(costs.Keys, x => Get(costs, x), t);
      SumPart(costs.Keys - {t}, costs.Keys - {t}, x => Get(costs, x), x => 0.0);
      SumZero(costs.Keys - {t});
    }
  }

  lemma {:induction false} SumZero(s: set<string>)
    ensures Sum(s, x => 0.0) == 0.0
  {
    if s != {} {
      var x :| x in s;
      SumPick(s, y => 0.0, x);
      SumZero(s - {x});
      SumSame(s - {x}, y => 0.0, y => 0.0);
    }
  }

  lemma NothingAsked(requests: seq<Request>, cash: real, fee: real)
    requires ByTicker(requests) == map[]
    ensures SpendFits(requests, cash, fee)
  {
    ByTickerPriced(requests);
    assert Granted(requests, cash, fee).Keys == {};
  }

  // ------------------------------------------- cash and fee both below zero

  /**
   Three requests that break the bound: a dear one that costs `a`, and two that a fee of minus `a`
   pays for, cheap enough that the total is just below zero.
   */
  function Unfair(a: real, e: real): seq<Request> {
    [Request("A", 2.0 * a, 1.0), Request("B", a / 2.0 - e, 1.0), Request("C", a / 2.0 - e, 1.0)]
  }

  ghost predicate IsUnfair(a: real, b: real, e: real) {
    0.0 < e && 2.0 * e < b && 2.0 * e < a
  }

  lemma UnfairAsks(a: real, e: real)
    requires 0.0 < 2.0 * e < a
    ensures var rs := Unfair(a, e);
            DistinctTickers(rs) && ByTicker(rs) == map["A" := rs[0], "B" := rs[1], "C" := rs[2]]
  {
    var rs := Unfair(a, e);
    assert rs[0].ticker != rs[1].ticker && rs[0].ticker != rs[2].ticker && rs[1].ticker != rs[2].ticker by {
      assert "A"[0] != "B"[0] && "A"[0] != "C"[0] && "B"[0] != "C"[0];
    }
    assert rs[..2] == [rs[0], rs[1]] && rs[..2][..1] == [rs[0]] && [rs[0]][..0] == [];
    assert ByTicker([rs[0]]) == map["A" := rs[0]];
    assert ByTicker([rs[0], rs[1]]) == map["A" := rs[0], "B" := rs[1]];
  }

  lemma UnfairTotal(a: real, e: real)
    requires 0.0 < 2.0 * e < a
    ensures Total(CostMap(ByTicker(Unfair(a, e)), -a)) == -2.0 * e
  {
    UnfairAsks(a, e);
    var costs := CostMap(ByTicker(Unfair(a, e)), -a);
    assert "A"[0] != "B"[0] && "A"[0] != "C"[0] && "B"[0] != "C"[0];
    var f := x => Get(costs, x);
    assert costs.Keys == {"A", "B", "C"};
    SumPick({"A", "B", "C"}, f, "A");
    assert {"A", "B", "C"} - {"A"} == {"B", "C"};
    SumPick({"B", "C"}, f, "B");
    assert {"B", "C"} - {"B"} == {"C"};
    SumPick({"C"}, f, "C");
    assert {"C"} - {"C"} == {};
    SumSame(costs.Keys, f, x => Get(costs, x));
  }

  /** With a share more negative than the fee gives back, a paying request gets nothing. */
  lemma CheapIsRefused(a: real, b: real, e: real, r: Request)
    requires IsUnfair(a, b, e) && r.price == a / 2.0 - e && r.qty == 1.0
    ensures Grant(r, -2.0 * e, -b, -a) < WHOLE_SHARE_STEP
  {
    var total, cash, fee := -2.0 * e, -b, -a;
    var k := cash / total;
    RatioAboveOne(b, e);
    ShareSwap(cash, CostOf(r, fee), total);
    ScaleStrict(1.0, k, -CostOf(r, fee));
    assert Mul(k, CostOf(r, fee)) < CostOf(r, fee);
    NotAffordable(Share(cash, CostOf(r, fee), total) - fee, r.price);
  }

  lemma RatioAboveOne(b: real, e: real)
    requires 0.0 < 2.0 * e < b
    ensures (-b) / (-2.0 * e) > 1.0
  {
    var k := (-b) / (-2.0 * e);
    Divide(-b, -2.0 * e);
    if k <= 1.0 {
      Scale(k, 1.0, 2.0 * e);
    }
  }

  lemma NotAffordable(spendable: real, price: real)
    requires price > 0.0 && spendable < price
    ensures TruncateToStep(spendable / price, WHOLE_SHARE_STEP) < WHOLE_SHARE_STEP
  {
    var x := spendable / price;
    Divide(spendable, price);
    if x >= 1.0 {
      Scale(1.0, x, price);
    } else if x > 0.0 {
      assert TruncateToStep(x, WHOLE_SHARE_STEP) == Mul(x.Floor as real, 1.0);
    }
  }

  lemma DearIsGranted(a: real, b: real, e: real, r: Request)
    requires IsUnfair(a, b, e) && r.price == 2.0 * a && r.qty == 1.0
    ensures Grant(r, -2.0 * e, -b, -a) == 1.0
  {
    var total, cash, fee := -2.0 * e, -b, -a;
    var k := cash / total;
    RatioAboveOne(b, e);
    ShareSwap(cash, CostOf(r, fee), total);
    ScaleStrict(1.0, k, CostOf(r, fee));
    WholeShareAffordable(Share(cash, CostOf(r, fee), total) - fee, r.price);
  }

  lemma UnfairSpend(a: real, b: real, e: real)
    requires IsUnfair(a, b, e)
    ensures !SpendFits(Unfair(a, e), -b, -a)
  {
    var rs := Unfair(a, e);
    UnfairAsks(a, e);
    UnfairGrants(a, b, e);
    OneFillSpends(ByTicker(rs), "A", 1.0, -a);
  }

  lemma OneFillSpends(asks: map<string, Request>, t: string, qty: real, fee: real)
    requires t in asks
    ensures Spend(asks, map[t := qty], fee) == BuyCost(qty, asks[t].price, fee)
  {
    var granted := map[t := qty];
    var spent := map x | x in granted :: BuyCost(granted[x], asks[x].price, fee);
    assert spent.Keys == {t};
    SumPick(spent.Keys, x => Get(spent, x), t);
    assert spent.Keys - {t} == {};
  }

  lemma UnfairGrants(a: real, b: real, e: real)
    requires IsUnfair(a, b, e)
    ensures Granted(Unfair(a, e), -b, -a) == map["A" := 1.0]
  {
    var rs := Unfair(a, e);
    UnfairAsks(a, e);
    UnfairTotal(a, e);
    ByTickerPriced(rs);
    DearIsGranted(a, b, e, rs[0]);
    CheapIsRefused(a, b, e, rs[1]);
    CheapIsRefused(a, b, e, rs[2]);
  }

  /** The bound holds for every list of requests if and only if cash or fee is not negative. */
  lemma AllocationFitsExactly(cash: real, fee: real)
    ensures (forall requests :: DistinctTickers(requests) ==> SpendFits(requests, cash, fee)) <==> fee >= 0.0 || cash >= 0.0
  {
    if fee >= 0.0 || cash >= 0.0 {
      forall requests | DistinctTickers(requests)
        ensures SpendFits(requests, cash, fee)
      {
        AllocationFitsCash(requests, cash, fee);
      }
    } else {
      var a, b := -fee, -cash;
      var e := Min(a, b) / 4.0;
      UnfairAsks(a, e);
      UnfairSpend(a, b, e);
    }
  }

  lemma {:induction false} ByTickerExact(requests: seq<Request>, r: Request)
    requires DistinctTickers(requests)
    ensures r.ticker in ByTicker(requests) && ByTicker(requests)[r.ticker] == r <==> r in requests && Fundable(r)
  {
    if requests != [] {
      var n := |requests| - 1;
      NextIsNew(requests, n);
      assert requests[..n + 1] == requests;
      ByTickerExact(requests[..n], r);
      assert r in requests <==> r in requests[..n] || r == requests[n];
    }
  }

  /** What each ticker gets does not depend on the order of the requests. */
  lemma AllocationIgnoresOrder(a: seq<Request>, b: seq<Request>, cash: real, fee: real)
    requires DistinctTickers(a) && DistinctTickers(b)
    requires forall r :: r in a <==> r in b
    ensures Granted(a, cash, fee) == Granted(b, cash, fee)
  {
    ByTickerPriced(a);
    ByTickerPriced(b);
    var x, y := ByTicker(a), ByTicker(b);
    forall t
      ensures t in x <==> t in y
      ensures t in x ==> t in y && x[t] == y[t]
    {
      if t in x {
        ByTickerExact(a, x[t]);
        ByTickerExact(b, x[t]);
      }
      if t in y {
        ByTickerExact(a, y[t]);
        ByTickerExact(b, y[t]);
      }
    }
    assert x == y;
  }

  /** When cash covers every request, each is funded in full. */
  lemma FullFundingWhenCovered(requests: seq<Request>, cash: real, fee: real, r: Request)
    requires DistinctTickers(requests) && r in requests && Fundable(r)
    requires Total(CostMap(ByTicker(requests), fee)) <= cash
    ensures r.ticker in Granted(requests, cash, fee) && Granted(requests, cash, fee)[r.ticker] == r.qty
  {
    ByTickerPriced(requests);
    ByTickerExact(requests, r);
  }
}
