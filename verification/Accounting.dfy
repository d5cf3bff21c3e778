/** Fills against a cash and position ledger. */
module Accounting {
  import opened Reals
  import opened Sums

  datatype Side = Buy | Sell

  datatype Trade = Trade(ticker: string, side: Side, qty: real, price: real, fee: real)

  /** A mark of a price series: days before the first bar have none. */
  datatype Price = NaN | Num(v: real)

  /** The cost a buy adds to the basis: the fee is part of it. */
  function BuyCost(qty: real, price: real, fee: real): real {
    Mul(qty, price) + fee
  }

  function SellProceeds(qty: real, price: real, fee: real): real {
    Mul(qty, price) - fee
  }

  function AverageCost(oldQty: real, oldAvg: real, qty: real, cost: real): real
    requires oldQty + qty != 0.0
  {
    (Mul(oldQty, oldAvg) + cost) / (oldQty + qty)
  }

  function RealizedGain(avg: real, qty: real, price: real, fee: real): real {
    Mul(price - avg, qty) - fee
  }

  /** Re-averaging spreads the old basis and the new cost over the whole position. */
  lemma AverageCostKeepsBasis(oldQty: real, oldAvg: real, qty: real, cost: real)
    requires oldQty + qty != 0.0
    ensures Mul(oldQty + qty, AverageCost(oldQty, oldAvg, qty, cost)) == Mul(oldQty, oldAvg) + cost
  {
    Divide(Mul(oldQty, oldAvg) + cost, oldQty + qty);
  }

  lemma GainIsProceedsLessBasis(avg: real, qty: real, price: real, fee: real)
    ensures RealizedGain(avg, qty, price, fee) == SellProceeds(qty, price, fee) - Mul(qty, avg)
  {
  }

  // ------------------------------------------------------------- the ledger

  /** Positions and average costs are read with zero for a ticker never seen. */
  datatype Book = Book(cash: real, realized: real, positions: map<string, real>, avgCost: map<string, real>)
  {
    function Qty(t: string): real {
      Get(positions, t)
    }

    function Avg(t: string): real {
      Get(avgCost, t)
    }

    /** The effect of reading a position: a new ticker is entered at zero. */
    function Touch(t: string): Book {
      if t in positions then this else this.(positions := positions[t := 0.0])
    }

    /** A buy that leaves no positive position is refused. */
    function ApplyBuy(t: string, qty: real, price: real, fee: real): Book
      requires Qty(t) + qty > 0.0
    {
      var cost := BuyCost(qty, price, fee);
      Book(cash - cost, realized, positions[t := Qty(t) + qty],
           avgCost[t := AverageCost(Qty(t), Avg(t), qty, cost)])
    }

    /** A sell of more than is held is refused; the average cost stays. */
    function ApplySell(t: string, qty: real, price: real, fee: real): Book
      requires qty <= Qty(t)
    {
      Book(cash + SellProceeds(qty, price, fee), realized + RealizedGain(Avg(t), qty, price, fee),
           positions[t := Qty(t) - qty], avgCost[t := Avg(t)])
    }
  }

  /** The cost basis of everything held. */
  ghost function Basis(b: Book): real {
    Sum(b.positions.Keys, t => Mul(b.Qty(t), b.Avg(t)))
  }

  /** Cash and basis together change only by what has been realized. */
  ghost predicate Balanced(b: Book, initialCash: real) {
    b.cash + Basis(b) == initialCash + b.realized
  }

  lemma BasisAt(b: Book, after: Book, t: string)
    requires after.positions.Keys == b.positions.Keys + {t}
    requires forall x :: x != t ==> after.Qty(x) == b.Qty(x) && after.Avg(x) == b.Avg(x)
    ensures Basis(after) == Basis(b) + Mul(after.Qty(t), after.Avg(t)) - Mul(b.Qty(t), b.Avg(t))
  {
    if t !in b.positions {
      MulAdd(b.Avg(t), 0.0, 0.0);
      assert Mul(b.Qty(t), b.Avg(t)) == 0.0;
    }
    SumWiden(b.positions.Keys, after.positions.Keys, x => Mul(b.Qty(x), b.Avg(x)));
    SumChange(after.positions.Keys, x => Mul(b.Qty(x), b.Avg(x)), x => Mul(after.Qty(x), after.Avg(x)), t);
  }

  lemma TouchKeepsBalance(b: Book, t: string, initialCash: real)
    requires Balanced(b, initialCash)
    ensures Balanced(b.Touch(t), initialCash)
  {
    BasisAt(b, b.Touch(t), t);
  }

  lemma BuyKeepsBalance(b: Book, t: string, qty: real, price: real, fee: real, initialCash: real)
    requires Balanced(b, initialCash) && b.Qty(t) + qty > 0.0
    ensures Balanced(b.ApplyBuy(t, qty, price, fee), initialCash)
  {
    BasisAt(b, b.ApplyBuy(t, qty, price, fee), t);
    AverageCostKeepsBasis(b.Qty(t), b.Avg(t), qty, BuyCost(qty, price, fee));
  }

  lemma SellKeepsBalance(b: Book, t: string, qty: real, price: real, fee: real, initialCash: real)
    requires Balanced(b, initialCash) && qty <= b.Qty(t)
    ensures Balanced(b.ApplySell(t, qty, price, fee), initialCash)
  {
    BasisAt(b, b.ApplySell(t, qty, price, fee), t);
    GainIsProceedsLessBasis(b.Avg(t), qty, price, fee);
    assert Mul(b.Qty(t) - qty, b.Avg(t)) == Mul(b.Qty(t), b.Avg(t)) - Mul(qty, b.Avg(t));
  }

  // ------------------------------------------------------------------- marks

  function MarkOf(prices: map<string, Price>, t: string): Price {
    if t in prices then prices[t] else NaN
  }

  /** What one holding is worth at its mark, zero when it has none. */
  function HoldingValue(b: Book, prices: map<string, Price>, t: string): real {
    match MarkOf(prices, t)
    case NaN => 0.0
    case Num(v) => Mul(b.Qty(t), v)
  }

  ghost function Worth(b: Book, prices: map<string, Price>): real {
    Sum(b.positions.Keys, t => HoldingValue(b, prices, t))
  }

  /** Every entry, even one at zero quantity, is marked by a number or not marked at all. */
  predicate Marked(b: Book, prices: map<string, Price>) {
    forall t :: t in b.positions && t in prices ==> prices[t].Num?
  }

  /** The marked value of the book: one mark that is no number makes the whole no number. */
  ghost function Equity(b: Book, prices: map<string, Price>): Price {
    if Marked(b, prices) then Num(b.cash + Worth(b, prices)) else NaN
  }

  lemma WorthAt(b: Book, after: Book, prices: map<string, Price>, t: string)
    requires after.positions.Keys == b.positions.Keys + {t}
    requires forall x :: x != t ==> after.Qty(x) == b.Qty(x)
    ensures Worth(after, prices) == Worth(b, prices) + HoldingValue(after, prices, t) - HoldingValue(b, prices, t)
  {
    if t !in b.positions && MarkOf(prices, t).Num? {
      MulAdd(MarkOf(prices, t).v, 0.0, 0.0);
      assert HoldingValue(b, prices, t) == 0.0;
    }
    SumWiden(b.positions.Keys, after.positions.Keys, x => HoldingValue(b, prices, x));
    SumChange(after.positions.Keys, x => HoldingValue(b, prices, x), x => HoldingValue(after, prices, x), t);
  }

  /** Values a book: adds holding by holding. */
  method ComputeEquity(b: Book, prices: map<string, Price>) returns (equity: Price)
    ensures equity == Equity(b, prices)
  {
    var total, rest := Num(0.0), b.positions.Keys;
    while rest != {}
      invariant rest <= b.positions.Keys
      invariant total.NaN? <==> exists t :: t in b.positions && t !in rest && t in prices && prices[t].NaN?
      invariant total.Num? ==> total.v + Sum(rest, t => HoldingValue(b, prices, t)) == Worth(b, prices)
      decreases |rest|
    {
      var t :| t in rest;
      SumPick(rest, x => HoldingValue(b, prices, x), t);
      if t in prices {
        total := match (total, prices[t])
          case (Num(sum), Num(v)) => Num(sum + Mul(b.positions[t], v))
          case _ => NaN;
      }
      rest := rest - {t};
    }
    return if total.Num? then Num(b.cash + total.v) else NaN;
  }
}
