/** The metrics' replay of a recorded trade list into closed-trade statistics. */
module TradeReplay {
  import opened Outcomes
  import opened Reals
  import opened Text
  import opened Accounting

  datatype ReplayError = NonPositiveQty | NegativePrice | ZeroBuyPrice | NonPositivePosition | Oversold

  /** The replayed ledger, with the P&L and the percent return of every closed trade. */
  datatype Replayed = Replayed(book: Book, pnls: seq<real>, pcts: seq<real>)

  const PERCENT_SCALE := 100.0

  function ReplayTrade(r: Replayed, t: Trade): Result<Replayed, ReplayError> {
    var ticker := Upper(t.ticker);
    if t.qty <= 0.0 then Failure(NonPositiveQty)
    else if t.price < 0.0 then Failure(NegativePrice)
    else if t.side.Buy? then
      if t.price <= 0.0 then Failure(ZeroBuyPrice)
      else if r.book.Qty(ticker) + t.qty <= 0.0 then Failure(NonPositivePosition)
      else Success(r.(book := r.book.ApplyBuy(ticker, t.qty, t.price, t.fee)))
    else if t.qty > r.book.Qty(ticker) then Failure(Oversold)
    else
      var basis := Mul(r.book.Avg(ticker), t.qty);
      var pnl := RealizedGain(r.book.Avg(ticker), t.qty, t.price, t.fee);
      Success(Replayed(r.book.ApplySell(ticker, t.qty, t.price, t.fee), r.pnls + [pnl],
                       r.pcts + if basis > 0.0 then [pnl / basis * PERCENT_SCALE] else []))
  }

  function Replay(trades: seq<Trade>): Result<Replayed, ReplayError> {
    if trades == [] then Success(Replayed(Book(0.0, 0.0, map[], map[]), [], [])) else
      match Replay(trades[..|trades| - 1])
      case Failure(e) => Failure(e)
      case Success(r) => ReplayTrade(r, trades[|trades| - 1])
  }

  lemma {:induction false} FailedPrefixFails(trades: seq<Trade>, k: nat)
    requires k <= |trades| && Replay(trades[..k]).Failure?
    ensures Replay(trades) == Replay(trades[..k])
  {
    if k < |trades| {
      var n := |trades| - 1;
      assert trades[..n][..k] == trades[..k];
      FailedPrefixFails(trades[..n], k);
    } else {
      assert trades[..k] == trades;
    }
  }

  /** The closed trades' P&L values and percent returns, in order. */
  method ClosedTradeStats(trades: seq<Trade>) returns (r: Result<(seq<real>, seq<real>), ReplayError>)
    ensures match Replay(trades)
            case Failure(e) => r == Failure(e)
            case Success(done) => r == Success((done.pnls, done.pcts))
  {
    var state := Replayed(Book(0.0, 0.0, map[], map[]), [], []);
    for i := 0 to |trades|
      invariant Replay(trades[..i]) == Success(state)
    {
      assert trades[..i + 1][..i] == trades[..i];
      var next := ReplayTrade(state, trades[i]);
      if next.Failure? {
        FailedPrefixFails(trades, i + 1);
        return Failure(next.error);
      }
      state := next.value;
    }
    assert trades[..|trades|] == trades;
    return Success((state.pnls, state.pcts));
  }

  function SumOf(xs: seq<real>): real {
    if xs == [] then 0.0 else SumOf(xs[..|xs| - 1]) + xs[|xs| - 1]
  }

  /** What a replay realizes is the sum of its closed trades' P&L. */
  lemma {:induction false} RealizedIsSumOfPnls(trades: seq<Trade>)
    requires Replay(trades).Success?
    ensures Replay(trades).value.book.realized == SumOf(Replay(trades).value.pnls)
  {
    if trades != [] {
      RealizedIsSumOfPnls(trades[..|trades| - 1]);
      var before, after := Replay(trades[..|trades| - 1]).value, Replay(trades).value;
      if trades[|trades| - 1].side.Sell? {
        assert after.pnls[..|before.pnls|] == before.pnls;
      }
    }
  }
}
