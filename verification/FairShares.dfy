/** What a bar's cash buys, in plain amounts: the most whole shares, request by request. */
module FairShares {
  import opened Outcomes
  import opened Reals
  import opened Sums
  import opened Accounting
  import opened Sizing

  /** `n` is the most whole shares that `spendable` pays for, none when it pays for none. */
  ghost predicate MostShares(n: nat, price: real, spendable: real) {
    && (n > 0 ==> Mul(n as real, price) <= spendable)
    && spendable < Mul((n + 1) as real, price)
  }

  /** A number of whole shares within cash, fee included, and within both percentages of equity. */
  ghost predicate InBudget(n: nat, cash: real, price: real, fee: real, pct: SizingPct, equity: real) {
    && Mul(n as real, price) + fee <= cash
    && Mul(n as real, price) <= Mul(equity, pct.trade / 100.0)
    && Mul(n as real, price) <= Mul(equity, pct.position / 100.0)
  }

  /** `n` is the most whole shares in budget; without a positive equity there are none. */
  ghost predicate MostInBudget(n: nat, cash: real, price: real, fee: real, pct: SizingPct, equity: Price) {
    && (n > 0 ==> equity.Num? && equity.v > 0.0 && InBudget(n, cash, price, fee, pct, equity.v))
    && (equity.Num? && equity.v > 0.0 ==> !InBudget(n + 1, cash, price, fee, pct, equity.v))
  }

  /** A percentage as given, or the default. */
  function PctOr(pct: Option<real>, otherwise: real): real {
    if pct.Some? then pct.value else otherwise
  }

  /** A percentage given must be above zero and at most a hundred, and a trade no larger than a position. */
  lemma PercentagesExactly(trade: Option<real>, position: Option<real>)
    ensures ResolveSizing(trade, position) == Failure(BadTradeSizePct) <==> !(0.0 < PctOr(trade, 10.0) <= 100.0)
    ensures ResolveSizing(trade, position) == Failure(BadMaxPositionPct)
       <==> 0.0 < PctOr(trade, 10.0) <= 100.0 && !(0.0 < PctOr(position, 20.0) <= 100.0)
    ensures ResolveSizing(trade, position) == Failure(TradeAbovePosition)
       <==> 0.0 < PctOr(trade, 10.0) <= 100.0 && 0.0 < PctOr(position, 20.0) <= 100.0
            && PctOr(trade, 10.0) > PctOr(position, 20.0)
    ensures ResolveSizing(trade, position).Success? ==>
              ResolveSizing(trade, position).value == SizingPct(PctOr(trade, 10.0), PctOr(position, 20.0))
  {
  }

  lemma TruncatedIsMost(spendable: real, price: real) returns (n: nat)
    requires price > 0.0
    ensures TruncateToStep(spendable / price, WHOLE_SHARE_STEP) == n as real && MostShares(n, price, spendable)
  {
    var x := spendable / price;
    Divide(spendable, price);
    if x <= 0.0 {
      n := 0;
      Scale(x, 0.0, price);
    } else {
      n := x.Floor;
      assert x / WHOLE_SHARE_STEP == x;
      CostsBetween(x, n as real, n as real + 1.0, price);
      assert (n + 1) as real == n as real + 1.0;
    }
  }

  /** What a budget of three ceilings pays for. */
  lemma MostWithinCeilings(n: nat, price: real, cash: real, trade: real, position: real)
    requires price > 0.0 && cash > 0.0
    requires MostShares(n, price, Min(Min(Max(0.0, cash), trade), Max(0.0, position - Max(0.0, 0.0))))
    ensures var cost := Mul(n as real, price);
            n > 0 ==> cost <= cash && cost <= trade && cost <= position
    ensures var cost := Mul((n + 1) as real, price);
            !(cost <= cash && cost <= trade && cost <= position)
  {
    Scale(1.0, (n + 1) as real, price);
    if n > 0 {
      Scale(1.0, n as real, price);
    }
  }

  /** A ticker not held asks for the most whole shares in budget, under any percentages. */
  lemma ChosenIsMostInBudget(cash: real, price: real, fee: real, pct: SizingPct, equity: Price) returns (n: nat)
    requires price > 0.0
    ensures ChooseBuyQty(cash, price, fee, pct, 0.0, equity) == n as real && MostInBudget(n, cash, price, fee, pct, equity)
  {
    if cash <= fee || equity.NaN? || equity.v <= 0.0 {
      n := 0;
      Scale(0.0, 1.0, price);
    } else {
      var trade, position := Mul(equity.v, pct.trade / 100.0), Mul(equity.v, pct.position / 100.0);
      var spendable := Min(Min(Max(0.0, cash - fee), trade), Max(0.0, position - Max(0.0, 0.0)));
      n := TruncatedIsMost(spendable, price);
      MostWithinCeilings(n, price, cash - fee, trade, position);
    }
  }

  // ------------------------------------------------------------- one bar's cash

  /** The requests that ask for a share or more at a positive price. */
  ghost function Asking(requests: seq<Request>): set<Request> {
    set r | r in requests && r.qty >= 1.0 && r.price > 0.0
  }

  ghost function FullCost(r: Request, fee: real): real {
    Mul(r.qty, r.price) + fee
  }

  /** What they would cost together, a fee each. */
  ghost function AskedCost(requests: seq<Request>, fee: real): real {
    Sum(Asking(requests), (r: Request) => FullCost(r, fee))
  }

  /** The part of cash in proportion to a cost. */
  ghost function PartOf(cash: real, cost: real, total: real): real
    requires total != 0.0
  {
    Mul(cash, cost / total)
  }

  /** What a request gets out of its part of the cash: the most whole shares, and no more than it asked for. */
  ghost predicate FairGrant(r: Request, part: real, fee: real, got: real) {
    var spendable := part - fee;
    exists n: nat :: MostShares(n, r.price, spendable) && got == Min(n as real, r.qty)
  }

  ghost predicate Gets(granted: map<string, real>, t: string, got: real) {
    if got >= 1.0 then t in granted && granted[t] == got else t !in granted
  }

  ghost predicate GetsItsPart(granted: map<string, real>, r: Request, part: real, fee: real) {
    exists got :: FairGrant(r, part, fee, got) && Gets(granted, r.ticker, got)
  }

  /** All requests in full when cash covers them, else each out of a part of cash in proportion to its cost. */
  ghost predicate SharedFairly(requests: seq<Request>, cash: real, fee: real, granted: map<string, real>) {
    var total := AskedCost(requests, fee);
    && (forall t :: t in granted ==> granted[t] >= 1.0 && exists r :: r in Asking(requests) && r.ticker == t)
    && (total <= cash || total == 0.0 ==>
        forall r :: r in Asking(requests) ==> Gets(granted, r.ticker, r.qty))
    && (total > cash && total != 0.0 ==>
        forall r :: r in Asking(requests) ==> GetsItsPart(granted, r, PartOf(cash, FullCost(r, fee), total), fee))
  }

  lemma AskingNext(before: seq<Request>, r: Request)
    requires DistinctTickers(before + [r])
    ensures r !in Asking(before)
    ensures Asking(before + [r]) == if Fundable(r) then Asking(before) + {r} else Asking(before)
  {
    var longer := before + [r];
    forall i | 0 <= i < |before|
      ensures before[i] != r
    {
      assert longer[i].ticker != longer[|before|].ticker;
    }
    assert forall x :: x in longer <==> x in before || x == r;
  }

  lemma AskedCostNext(before: seq<Request>, r: Request, fee: real)
    requires DistinctTickers(before + [r])
    ensures AskedCost(before + [r], fee) == AskedCost(before, fee) + if Fundable(r) then CostOf(r, fee) else 0.0
  {
    AskingNext(before, r);
    if Fundable(r) {
      assert Asking(before + [r]) - {r} == Asking(before);
      SumPick(Asking(before + [r]), (x: Request) => FullCost(x, fee), r);
      SumSame(Asking(before), (x: Request) => FullCost(x, fee), (x: Request) => FullCost(x, fee));
    }
  }

  lemma TotalNext(asks: map<string, Request>, r: Request, fee: real)
    requires r.ticker !in asks
    ensures Total(CostMap(asks[r.ticker := r], fee)) == Total(CostMap(asks, fee)) + CostOf(r, fee)
  {
    assert CostMap(asks[r.ticker := r], fee) == CostMap(asks, fee)[r.ticker := CostOf(r, fee)];
    TotalUpdate(CostMap(asks, fee), r.ticker, CostOf(r, fee));
  }

  lemma {:induction false} AskedCostIsTotal(requests: seq<Request>, fee: real)
    requires DistinctTickers(requests)
    ensures AskedCost(requests, fee) == Total(CostMap(ByTicker(requests), fee))
  {
    if requests == [] {
      assert Asking(requests) == {};
    } else {
      var n := |requests| - 1;
      var r, before := requests[n], requests[..n];
      AskedCostIsTotal(before, fee);
      NextIsNew(requests, n);
      assert requests[..n + 1] == requests && requests == before + [r];
      AskedCostNext(before, r, fee);
      TotalNext(ByTicker(before), r, fee);
    }
  }

  lemma GrantIsFair(r: Request, total: real, cash: real, fee: real)
    requires Fundable(r) && total > cash && total != 0.0
    ensures FairGrant(r, PartOf(cash, FullCost(r, fee), total), fee, Grant(r, total, cash, fee))
  {
    var part := PartOf(cash, FullCost(r, fee), total);
    assert part == Share(cash, CostOf(r, fee), total);
    var n := TruncatedIsMost(part - fee, r.price);
    GrantedOutOf(r, part, fee, n, Grant(r, total, cash, fee));
  }

  lemma GrantedOutOf(r: Request, part: real, fee: real, n: nat, got: real)
    requires MostShares(n, r.price, part - fee) && got == Min(n as real, r.qty)
    ensures FairGrant(r, part, fee, got)
  {
  }

  /** The cash of one bar is shared fairly among its requests, for every list, cash and fee. */
  lemma AllocationIsFair(requests: seq<Request>, cash: real, fee: real)
    requires DistinctTickers(requests)
    ensures SharedFairly(requests, cash, fee, Granted(requests, cash, fee))
  {
    ByTickerPriced(requests);
    AskedCostIsTotal(requests, fee);
    var asks, granted, total := ByTicker(requests), Granted(requests, cash, fee), AskedCost(requests, fee);
    forall t | t in granted
      ensures exists r :: r in Asking(requests) && r.ticker == t
    {
      ByTickerExact(requests, asks[t]);
      assert asks[t] in Asking(requests);
    }
    forall r | r in Asking(requests)
      ensures r.ticker in asks && asks[r.ticker] == r
      ensures total > cash && total != 0.0 ==>
                FairGrant(r, PartOf(cash, FullCost(r, fee), total), fee, Grant(r, total, cash, fee))
    {
      ByTickerExact(requests, r);
      if total > cash && total != 0.0 {
        GrantIsFair(r, total, cash, fee);
      }
    }
  }

  /** Sharing fails exactly when something is asked for, its cost cancels out, and there is a debt. */
  lemma DividesByZeroExactly(requests: seq<Request>, cash: real, fee: real)
    requires DistinctTickers(requests)
    ensures DividesByZero(requests, cash, fee) <==> Asking(requests) != {} && AskedCost(requests, fee) == 0.0 && cash < 0.0
  {
    AskedCostIsTotal(requests, fee);
    ByTickerPriced(requests);
    var asks := ByTicker(requests);
    if asks != map[] {
      var t :| t in asks;
      ByTickerExact(requests, asks[t]);
      assert asks[t] in Asking(requests);
    }
    if Asking(requests) != {} {
      var r :| r in Asking(requests);
      ByTickerExact(requests, r);
    }
  }
}
