/** Closed trades from what was paid: units held and their cost, without an average. */
module ClosedTrades {
  import opened Outcomes
  import opened Reals
  import opened Text
  import opened Accounting
  import opened TradeReplay

  /** Units of a ticker, written in capitals, that the trades leave. */
  ghost function Units(trades: seq<Trade>, t: string): real {
    if trades == [] then 0.0 else
      var n := |trades| - 1;
      Units(trades[..n], t) + Moved(trades[n], t)
  }

  ghost function Moved(trade: Trade, t: string): real {
    if Upper(trade.ticker) != t then 0.0 else if trade.side.Buy? then trade.qty else -trade.qty
  }

  /** What was paid for them: a buy adds its whole cost, a sell takes out its part. */
  ghost function Paid(trades: seq<Trade>, t: string): real {
    if trades == [] then 0.0 else
      var n := |trades| - 1;
      var trade, before := trades[n], Paid(trades[..n], t);
      if Upper(trade.ticker) != t then before
      else if trade.side.Buy? then before + (Mul(trade.qty, trade.price) + trade.fee)
      else before - PartOf(trade.qty, Units(trades[..n], t), before)
  }

  /** The part of a cost that falls to some of the units. */
  function PartOf(qty: real, units: real, cost: real): real {
    if units == 0.0 then 0.0 else Mul(cost / units, qty)
  }

  /** What a sold quantity had cost. */
  ghost function CostSold(trades: seq<Trade>, trade: Trade): real {
    PartOf(trade.qty, Units(trades, Upper(trade.ticker)), Paid(trades, Upper(trade.ticker)))
  }

  ghost function Gain(trades: seq<Trade>, trade: Trade): real {
    Mul(trade.qty, trade.price) - trade.fee - CostSold(trades, trade)
  }

  /** Why a trade is refused after those before it. */
  ghost function Complaint(before: seq<Trade>, trade: Trade): Option<ReplayError> {
    if trade.qty <= 0.0 then Some(NonPositiveQty)
    else if trade.price < 0.0 then Some(NegativePrice)
    else if trade.side.Buy? && trade.price == 0.0 then Some(ZeroBuyPrice)
    else if trade.side.Sell? && Units(before, Upper(trade.ticker)) < trade.qty then Some(Oversold)
    else None
  }

  /** The gain of every sell, in order. */
  ghost predicate GainsAre(trades: seq<Trade>, pnls: seq<real>)
    decreases |trades|
  {
    if trades == [] then pnls == [] else
      var n := |trades| - 1;
      if trades[n].side.Buy? then GainsAre(trades[..n], pnls)
      else pnls != [] && pnls[|pnls| - 1] == Gain(trades[..n], trades[n]) && GainsAre(trades[..n], pnls[..|pnls| - 1])
  }

  /** The gain of every sell whose units had cost something, in percent of that cost. */
  ghost predicate ReturnsAre(trades: seq<Trade>, pcts: seq<real>)
    decreases |trades|
  {
    if trades == [] then pcts == [] else
      var n := |trades| - 1;
      var cost := CostSold(trades[..n], trades[n]);
      if trades[n].side.Buy? || cost <= 0.0 then ReturnsAre(trades[..n], pcts)
      else pcts != [] && pcts[|pcts| - 1] == Gain(trades[..n], trades[n]) / cost * 100.0
           && ReturnsAre(trades[..n], pcts[..|pcts| - 1])
  }

  /** The book holds the units at what was paid for them. */
  ghost predicate HoldsAtCost(b: Book, trades: seq<Trade>) {
    forall t :: HoldsOne(b, trades, t)
  }

  ghost predicate HoldsOne(b: Book, trades: seq<Trade>, t: string) {
    b.Qty(t) == Units(trades, t) >= 0.0 && Mul(b.Qty(t), b.Avg(t)) == Paid(trades, t)
  }

  lemma AverageOfPart(units: real, avg: real, paid: real, qty: real)
    requires units != 0.0 && Mul(units, avg) == paid
    ensures PartOf(qty, units, paid) == Mul(avg, qty)
  {
    QuotientOf(avg, units, paid);
  }

  lemma QuotientOf(avg: real, units: real, paid: real)
    requires units != 0.0 && avg * units == paid
    ensures paid / units == avg
  {
  }

  lemma NextTrade(front: seq<Trade>, trade: Trade, t: string)
    ensures var all := front + [trade];
            && Units(all, t) == Units(front, t) + Moved(trade, t)
            && Paid(all, t) == (if Upper(trade.ticker) != t then Paid(front, t)
                                else if trade.side.Buy? then Paid(front, t) + (Mul(trade.qty, trade.price) + trade.fee)
                                else Paid(front, t) - PartOf(trade.qty, Units(front, t), Paid(front, t)))
  {
    assert (front + [trade])[..|front|] == front;
  }

  lemma BuyHolds(b: Book, front: seq<Trade>, trade: Trade, t: string)
    requires HoldsOne(b, front, t) && trade.side.Buy? && trade.qty > 0.0 && b.Qty(Upper(trade.ticker)) >= 0.0
    ensures HoldsOne(b.ApplyBuy(Upper(trade.ticker), trade.qty, trade.price, trade.fee), front + [trade], t)
  {
    NextTrade(front, trade, t);
    if Upper(trade.ticker) == t {
      AverageCostKeepsBasis(b.Qty(t), b.Avg(t), trade.qty, BuyCost(trade.qty, trade.price, trade.fee));
    }
  }

  lemma SellHolds(b: Book, front: seq<Trade>, trade: Trade, t: string)
    requires HoldsOne(b, front, t) && trade.side.Sell? && 0.0 < trade.qty <= b.Qty(Upper(trade.ticker))
    ensures HoldsOne(b.ApplySell(Upper(trade.ticker), trade.qty, trade.price, trade.fee), front + [trade], t)
  {
    NextTrade(front, trade, t);
    if Upper(trade.ticker) == t {
      AverageOfPart(Units(front, t), b.Avg(t), Paid(front, t), trade.qty);
      TakenOut(b.Qty(t), b.Avg(t), trade.qty);
    }
  }

  lemma TakenOut(units: real, avg: real, qty: real)
    ensures Mul(units - qty, avg) == Mul(units, avg) - Mul(avg, qty)
  {
  }

  lemma SellIsCosted(b: Book, front: seq<Trade>, trade: Trade)
    requires HoldsOne(b, front, Upper(trade.ticker)) && 0.0 < trade.qty <= b.Qty(Upper(trade.ticker))
    ensures var avg := b.Avg(Upper(trade.ticker));
            && Mul(avg, trade.qty) == CostSold(front, trade)
            && RealizedGain(avg, trade.qty, trade.price, trade.fee) == Gain(front, trade)
  {
    var t := Upper(trade.ticker);
    AverageOfPart(Units(front, t), b.Avg(t), Paid(front, t), trade.qty);
    GainIsProceedsLessBasis(b.Avg(t), trade.qty, trade.price, trade.fee);
  }

  lemma NextHolds(r: Replayed, front: seq<Trade>, trade: Trade)
    requires HoldsAtCost(r.book, front) && Complaint(front, trade).None?
    ensures ReplayTrade(r, trade).Success? && HoldsAtCost(ReplayTrade(r, trade).value.book, front + [trade])
  {
    var ticker := Upper(trade.ticker);
    assert HoldsOne(r.book, front, ticker);
    forall t
      ensures HoldsOne(ReplayTrade(r, trade).value.book, front + [trade], t)
    {
      assert HoldsOne(r.book, front, t);
      if trade.side.Buy? {
        BuyHolds(r.book, front, trade, t);
      } else {
        SellHolds(r.book, front, trade, t);
      }
    }
  }

  lemma NextIsRefused(r: Replayed, front: seq<Trade>, trade: Trade)
    requires HoldsAtCost(r.book, front) && Complaint(front, trade).Some?
    ensures ReplayTrade(r, trade) == Failure(Complaint(front, trade).value)
  {
    assert HoldsOne(r.book, front, Upper(trade.ticker));
  }

  ghost predicate Accounts(r: Replayed, trades: seq<Trade>) {
    HoldsAtCost(r.book, trades) && GainsAre(trades, r.pnls) && ReturnsAre(trades, r.pcts)
  }

  lemma NextIsAccounted(r: Replayed, front: seq<Trade>, trade: Trade)
    requires Accounts(r, front) && Complaint(front, trade).None?
    ensures ReplayTrade(r, trade).Success? && Accounts(ReplayTrade(r, trade).value, front + [trade])
  {
    NextHolds(r, front, trade);
    var after, all := ReplayTrade(r, trade).value, front + [trade];
    assert all[..|front|] == front;
    if trade.side.Sell? {
      assert HoldsOne(r.book, front, Upper(trade.ticker));
      SellIsCosted(r.book, front, trade);
      assert after.pnls[..|r.pnls|] == r.pnls;
      if CostSold(front, trade) > 0.0 {
        assert after.pcts[..|r.pcts|] == r.pcts;
      } else {
        assert after.pcts == r.pcts;
      }
    }
  }

  /** The first trade refused, if any, decides the outcome. */
  ghost predicate Replays(trades: seq<Trade>, outcome: Result<Replayed, ReplayError>) {
    match outcome
    case Success(r) => (forall k :: 0 <= k < |trades| ==> Complaint(trades[..k], trades[k]).None?) && Accounts(r, trades)
    case Failure(e) => exists k :: 0 <= k < |trades| && Complaint(trades[..k], trades[k]) == Some(e) && NoneRefused(trades, k)
  }

  ghost predicate NoneRefused(trades: seq<Trade>, k: int) {
    k <= |trades| && forall j :: 0 <= j < k ==> Complaint(trades[..j], trades[j]).None?
  }

  lemma NoneRefusedFront(trades: seq<Trade>, n: nat, k: nat)
    requires k <= n <= |trades|
    ensures NoneRefused(trades[..n], k) <==> NoneRefused(trades, k)
  {
    forall j | 0 <= j < k
      ensures trades[..n][..j] == trades[..j]
    {
    }
  }

  /** For every list of trades: which is refused first and why, or every gain and return from what was paid. */
  lemma {:induction false} ReplayExactly(trades: seq<Trade>)
    ensures Replays(trades, Replay(trades))
  {
    if trades == [] {
      assert forall t :: HoldsOne(Book(0.0, 0.0, map[], map[]), trades, t);
    } else {
      var n := |trades| - 1;
      var front, trade := trades[..n], trades[n];
      ReplayExactly(front);
      assert trades == front + [trade];
      if Replay(front).Failure? {
        RefusalStays(trades, n, Replay(front).error);
      } else {
        NoneRefusedFront(trades, n, n);
        assert NoneRefused(front, n);
        NextIsReplayed(trades, front, trade, Replay(front).value);
      }
    }
  }

  lemma RefusalStays(trades: seq<Trade>, n: nat, e: ReplayError)
    requires n <= |trades| && Replays(trades[..n], Failure(e))
    ensures Replays(trades, Failure(e))
  {
    var front := trades[..n];
    var k :| 0 <= k < n && Complaint(front[..k], front[k]) == Some(e) && NoneRefused(front, k);
    NoneRefusedFront(trades, n, k);
    assert front[..k] == trades[..k];
  }

  lemma NextIsReplayed(trades: seq<Trade>, front: seq<Trade>, trade: Trade, r: Replayed)
    requires trades == front + [trade] && NoneRefused(trades, |front|) && Accounts(r, front)
    ensures Replays(trades, ReplayTrade(r, trade))
  {
    var n := |front|;
    assert trades[..n] == front && trades[n] == trade;
    if Complaint(front, trade).Some? {
      NextIsRefused(r, front, trade);
    } else {
      NextIsAccounted(r, front, trade);
    }
  }
}
