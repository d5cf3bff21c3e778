/** Cap safety of the risk gate at every prefix, and the size and reason of each buy. */
module RiskGateCaps {
  import opened Outcomes
  import opened Reals
  import opened Sums
  import opened RiskGate
  import opened RiskGateSafety

  // ------------------------------------------------------------ cap safety

  ghost predicate Bounded<K(!new)>(m: map<K, real>, start: map<K, real>, cap: real) {
    forall k :: Get(m, k) <= Max(Get(start, k), cap)
  }

  ghost predicate BooksBounded(g: Limits, m: map<(int, string), real>, start: map<(int, string), real>) {
    forall b, s :: Get(m, (b, s)) <= Max(Get(start, (b, s)), g.BookCap(b))
  }

  /** No exposure is above the larger of where it started and its cap. */
  ghost predicate WithinCaps(g: Limits, start: Ledgers, l: Ledgers) {
    && l.gross <= Max(start.gross, g.grossCap)
    && Bounded(l.symbol, start.symbol, g.symbolCap)
    && Bounded(l.sector, start.sector, g.sectorCap)
    && BooksBounded(g, l.book, start.book)
  }

  ghost predicate NoneHigher<K(!new)>(m: map<K, real>, than: map<K, real>) {
    forall k :: Get(m, k) <= Get(than, k)
  }

  /** No exposure is higher than before. */
  ghost predicate NoRise(before: Ledgers, after: Ledgers) {
    && after.gross <= before.gross
    && NoneHigher(after.symbol, before.symbol)
    && NoneHigher(after.sector, before.sector)
    && NoneHigher(after.book, before.book)
  }

  lemma NoRiseKeepsCaps(g: Limits, start: Ledgers, before: Ledgers, after: Ledgers)
    requires WithinCaps(g, start, before) && NoRise(before, after)
    ensures WithinCaps(g, start, after)
  {
    forall k ensures Get(after.symbol, k) <= Max(Get(start.symbol, k), g.symbolCap) {
      assert Get(after.symbol, k) <= Get(before.symbol, k);
    }
    forall k ensures Get(after.sector, k) <= Max(Get(start.sector, k), g.sectorCap) {
      assert Get(after.sector, k) <= Get(before.sector, k);
    }
    forall b, s ensures Get(after.book, (b, s)) <= Max(Get(start.book, (b, s)), g.BookCap(b)) {
      assert Get(after.book, (b, s)) <= Get(before.book, (b, s));
    }
  }

  lemma LowerOne<K(!new)>(m: map<K, real>, k: K, v: real)
    requires v <= Get(m, k)
    ensures NoneHigher(m[k := v], m)
  {
  }

  lemma SectorNonNegative(g: Limits, l: Ledgers, s: string)
    requires Conserved(g, l)
    ensures Get(l.sector, s) >= 0.0
  {
    if g.sectorLimitsOn {
      ShareBounds(g, l.symbol, s);
    }
  }

  /** A sell at a price of zero or more raises no exposure. */
  lemma ReleaseNoRise(g: Limits, l: Ledgers, bookId: int, s: string, notional: real)
    requires Conserved(g, l) && notional >= 0.0
    ensures NoRise(l, Release(g, l, bookId, s, notional))
  {
    var delta := Min(Get(l.symbol, s), notional);
    assert Get(l.symbol, s) >= 0.0 && Get(l.book, (bookId, s)) >= 0.0;
    TotalBounds(l.symbol);
    LowerOne(l.symbol, s, Max(0.0, Get(l.symbol, s) - delta));
    LowerOne(l.book, (bookId, s), Max(0.0, Get(l.book, (bookId, s)) - delta));
    if g.bucket(s).Some? {
      var sec := g.bucket(s).value;
      SectorNonNegative(g, l, sec);
      LowerOne(l.sector, sec, Max(0.0, Get(l.sector, sec) - delta));
    }
  }

  /** `amount` more exposure keeps every cap of this book and symbol. */
  ghost predicate CapsHold(g: Limits, l: Ledgers, bookId: int, s: string, amount: real) {
    && l.gross + amount <= g.grossCap
    && Get(l.symbol, s) + amount <= g.symbolCap
    && (g.bucket(s).Some? ==> Get(l.sector, g.bucket(s).value) + amount <= g.sectorCap)
    && Get(l.book, (bookId, s)) + amount <= g.BookCap(bookId)
  }

  lemma PutBounded<K(!new)>(m: map<K, real>, start: map<K, real>, k: K, v: real, cap: real)
    requires Bounded(m, start, cap) && v <= cap
    ensures Bounded(m[k := v], start, cap)
  {
    var m' := m[k := v];
    forall x ensures Get(m', x) <= Max(Get(start, x), cap) {
      assert Get(m, x) <= Max(Get(start, x), cap);
    }
  }

  lemma ChargeWithinCaps(g: Limits, start: Ledgers, l: Ledgers, bookId: int, s: string, amount: real)
    requires WithinCaps(g, start, l) && CapsHold(g, l, bookId, s, amount)
    ensures WithinCaps(g, start, Charge(g, l, bookId, s, amount))
  {
    var after := Charge(g, l, bookId, s, amount);
    PutBounded(l.symbol, start.symbol, s, Get(l.symbol, s) + amount, g.symbolCap);
    if g.bucket(s).Some? {
      var sec := g.bucket(s).value;
      PutBounded(l.sector, start.sector, sec, Get(l.sector, sec) + amount, g.sectorCap);
    }
    forall b, s' ensures Get(after.book, (b, s')) <= Max(Get(start.book, (b, s')), g.BookCap(b)) {
      assert Get(l.book, (b, s')) <= Max(Get(start.book, (b, s')), g.BookCap(b));
    }
  }

  /** A positive amount is within every room exactly when it keeps every cap. */
  lemma RoomsAreCaps(g: Limits, l: Ledgers, bookId: int, s: string, requested: real, amount: real)
    requires amount > 0.0
    ensures amount <= SizedNotional(requested, RoomsFor(g, l, bookId, s)) <==>
            amount <= requested && CapsHold(g, l, bookId, s, amount)
  {
  }

  // ------------------------------------------------------ arithmetic of steps

  /** Flooring to the grid gives the last grid point whose cost fits. */
  lemma FloorFits(notional: real, price: real, step: real)
    requires price > 0.0 && step > 0.0
    ensures var n := (notional / price / step).Floor;
            n as real * step * price <= notional < (n + 1) as real * step * price
  {
    var n := (notional / price / step).Floor;
    var x := notional / price / step;
    Divide(notional / price, step);
    Divide(notional, price);
    Scale(n as real, x, step);
    Scale(n as real * step, x * step, price);
    ScaleStrict(x, (n + 1) as real, step);
    ScaleStrict(x * step, (n + 1) as real * step, price);
  }

  ghost predicate OnGrid(qty: real, step: real) {
    exists n: int :: qty == GridPoint(n, step)
  }

  /** Every grid point whose cost fits is at most the floored quantity. */
  lemma FloorIsLargest(notional: real, price: real, step: real, k: int)
    requires price > 0.0 && step > 0.0 && Notional(GridPoint(k, step), price) <= notional
    ensures GridPoint(k, step) <= MaxQty(notional, price, step)
  {
    FloorFits(notional, price, step);
    var n := (notional / price / step).Floor;
    if k > n {
      Scale((n + 1) as real, k as real, step);
      Scale((n + 1) as real * step, k as real * step, price);
      assert false;
    }
    Scale(k as real, n as real, step);
  }

  lemma GridCost(notional: real, price: real, step: real)
    requires price > 0.0 && step > 0.0
    ensures Notional(MaxQty(notional, price, step), price) <= notional
    ensures OnGrid(MaxQty(notional, price, step), step)
  {
    FloorFits(notional, price, step);
  }

  // -------------------------------------------------- what a buy is granted

  lemma CostOrder(a: real, b: real, price: real)
    requires price > 0.0
    ensures a <= b <==> Notional(a, price) <= Notional(b, price)
  {
    if a <= b {
      Scale(a, b, price);
    } else {
      ScaleStrict(b, a, price);
    }
  }

  lemma MaxQtyBelow(notional: real, qty: real, price: real, step: real)
    requires qty > 0.0 && step > 0.0 && notional <= Notional(qty, price)
    ensures MaxQty(notional, price, step) <= qty
  {
    if price > 0.0 {
      GridCost(notional, price, step);
      CostOrder(MaxQty(notional, price, step), qty, price);
    }
  }

  lemma SizedBelowRequest(requested: real, r: Rooms)
    ensures SizedNotional(requested, r) <= requested
  {
  }

  lemma GridQtyBelowRequest(g: Limits, l: Ledgers, intent: Intent)
    requires intent.qty > 0.0
    ensures GridQty(g, l, intent) <= intent.qty
  {
    SizedBelowRequest(Notional(intent.qty, intent.requestedPrice), IntentRooms(g, l, intent));
    var notional := SizedNotional(Notional(intent.qty, intent.requestedPrice), IntentRooms(g, l, intent));
    MaxQtyBelow(notional, intent.qty, intent.requestedPrice, StepOf(intent));
    assert GridQty(g, l, intent) == MaxQty(notional, intent.requestedPrice, StepOf(intent));
  }

  lemma SettleGrants(intent: Intent, rooms: Rooms, maxQty: real)
    requires intent.qty > 0.0 && maxQty <= intent.qty
    ensures var d := SettleBuy(intent, rooms, maxQty);
            && d.approvedQty == Max(0.0, maxQty)
            && (d.action.Block? <==> d.approvedQty == 0.0)
            && (d.action.Allow? <==> d.approvedQty == intent.qty)
            && (!d.action.Allow? ==> d.reason == BlockingReason(rooms))
            && d.approvedNotional == Notional(d.approvedQty, intent.requestedPrice)
            && d.requestedNotional == Notional(intent.qty, intent.requestedPrice)
            && d.bookId == intent.bookId && d.symbol == NormalSymbol(intent.symbol)
  {
  }

  /** A sized buy is granted its grid quantity, which never exceeds the request. */
  lemma GrantIsGridQty(g: Limits, l: Ledgers, intent: Intent)
    requires IsSizedBuy(g, intent)
    ensures GridQty(g, l, intent) <= intent.qty
    ensures var d := Decide(g, l, intent);
            && d.approvedQty == Max(0.0, GridQty(g, l, intent))
            && (d.action.Block? <==> d.approvedQty == 0.0)
            && (d.action.Allow? <==> d.approvedQty == intent.qty)
            && (!d.action.Allow? ==> d.reason == BlockingReason(IntentRooms(g, l, intent)))
            && d.approvedNotional == Notional(d.approvedQty, intent.requestedPrice)
            && d.requestedNotional == Notional(intent.qty, intent.requestedPrice)
            && d.bookId == intent.bookId && d.symbol == NormalSymbol(intent.symbol)
  {
    GridQtyBelowRequest(g, l, intent);
    SettleGrants(intent, IntentRooms(g, l, intent), GridQty(g, l, intent));
  }

  /** `qty` is no more than the request and its cost keeps all four caps. */
  ghost predicate Fits(g: Limits, l: Ledgers, intent: Intent, qty: real) {
    && qty <= intent.qty
    && CapsHold(g, l, intent.bookId, NormalSymbol(intent.symbol), Notional(qty, intent.requestedPrice))
  }

  lemma FitsIsCapsHold(g: Limits, l: Ledgers, intent: Intent, qty: real, cost: real)
    requires cost == Notional(qty, intent.requestedPrice)
    ensures Fits(g, l, intent, qty) <==>
            qty <= intent.qty && CapsHold(g, l, intent.bookId, NormalSymbol(intent.symbol), cost)
  {
  }

  lemma FitsIsWithinRooms(g: Limits, l: Ledgers, intent: Intent, qty: real, cost: real, requested: real)
    requires cost > 0.0 && (cost <= requested <==> qty <= intent.qty)
    ensures qty <= intent.qty && CapsHold(g, l, intent.bookId, NormalSymbol(intent.symbol), cost) <==>
            cost <= SizedNotional(requested, IntentRooms(g, l, intent))
  {
    RoomsAreCaps(g, l, intent.bookId, NormalSymbol(intent.symbol), requested, cost);
  }

  lemma FitsExactly(g: Limits, l: Ledgers, intent: Intent, qty: real)
    requires qty > 0.0 && intent.requestedPrice > 0.0
    ensures Fits(g, l, intent, qty) <==>
            Notional(qty, intent.requestedPrice) <=
            SizedNotional(Notional(intent.qty, intent.requestedPrice), IntentRooms(g, l, intent))
  {
    CostOrder(qty, intent.qty, intent.requestedPrice);
    FitsIsCapsHold(g, l, intent, qty, Notional(qty, intent.requestedPrice));
    FitsIsWithinRooms(g, l, intent, qty, Notional(qty, intent.requestedPrice), Notional(intent.qty, intent.requestedPrice));
  }

  lemma NoLargerFit(g: Limits, l: Ledgers, intent: Intent, n: int)
    requires IsSizedBuy(g, intent) && intent.requestedPrice > 0.0 && n > 0
    requires Fits(g, l, intent, GridPoint(n, StepOf(intent)))
    ensures GridPoint(n, StepOf(intent)) <= GridQty(g, l, intent)
  {
    var price, step := intent.requestedPrice, StepOf(intent);
    ScaleStrict(0.0, n as real, step);
    FitsExactly(g, l, intent, GridPoint(n, step));
    FloorIsLargest(SizedNotional(Notional(intent.qty, price), IntentRooms(g, l, intent)), price, step, n);
  }

  lemma GrantFits(g: Limits, l: Ledgers, intent: Intent)
    requires IsSizedBuy(g, intent) && intent.requestedPrice > 0.0 && GridQty(g, l, intent) > 0.0
    ensures Fits(g, l, intent, GridQty(g, l, intent))
  {
    var price := intent.requestedPrice;
    FitsExactly(g, l, intent, GridQty(g, l, intent));
    GridCost(SizedNotional(Notional(intent.qty, price), IntentRooms(g, l, intent)), price, StepOf(intent));
  }

  lemma GrantOnGrid(g: Limits, l: Ledgers, intent: Intent)
    requires intent.requestedPrice > 0.0
    ensures OnGrid(Max(0.0, GridQty(g, l, intent)), StepOf(intent))
  {
    var price, step := intent.requestedPrice, StepOf(intent);
    GridCost(SizedNotional(Notional(intent.qty, price), IntentRooms(g, l, intent)), price, step);
    assert GridPoint(0, step) == 0.0;
  }

  /** A buy is granted the largest quantity on its step grid that fits the request and every cap. */
  lemma GrantIsLargestFit(g: Limits, l: Ledgers, intent: Intent)
    requires IsSizedBuy(g, intent) && intent.requestedPrice > 0.0
    ensures var qty := Decide(g, l, intent).approvedQty;
            && OnGrid(qty, StepOf(intent))
            && (qty > 0.0 ==> Fits(g, l, intent, qty))
            && (forall n :: n > 0 && Fits(g, l, intent, GridPoint(n, StepOf(intent))) ==>
                            GridPoint(n, StepOf(intent)) <= qty)
  {
    GrantIsGridQty(g, l, intent);
    GrantOnGrid(g, l, intent);
    if GridQty(g, l, intent) > 0.0 {
      GrantFits(g, l, intent);
    }
    forall n | n > 0 && Fits(g, l, intent, GridPoint(n, StepOf(intent)))
      ensures GridPoint(n, StepOf(intent)) <= Decide(g, l, intent).approvedQty
    {
      NoLargerFit(g, l, intent, n);
    }
  }

  // -------------------------------------------------------- reason of a cut

  function RoomOf(r: Rooms, reason: Reason): Option<real> {
    match reason
    case SectorConcentrationCap => r.sector
    case GrossExposureCap => Some(r.gross)
    case SymbolConcentrationCap => Some(r.symbol)
    case BookNotionalCap => Some(r.book)
    case _ => None
  }

  /** The order in which tied caps are named. */
  function TieRank(reason: Reason): nat {
    match reason
    case SectorConcentrationCap => 0
    case GrossExposureCap => 1
    case SymbolConcentrationCap => 2
    case BookNotionalCap => 3
    case _ => 4
  }

  /** The cap leaves less room than the whole request costs. */
  predicate Binds(r: Rooms, reason: Reason, requested: real) {
    RoomOf(r, reason).Some? && RoomOf(r, reason).value < requested
  }

  /** Every cap has room for the whole request. */
  predicate RequestFits(r: Rooms, requested: real) {
    SizedNotional(requested, r) == requested
  }

  /** The named cap has the least room, and among equals comes first in the fixed order. */
  lemma BlockingReasonIsTightest(r: Rooms)
    ensures TieRank(BlockingReason(r)) < 4
    ensures forall other :: TieRank(other) < 4 ==> !RoomBelow(RoomOf(r, other), RoomOf(r, BlockingReason(r)))
    ensures forall other :: TieRank(other) < TieRank(BlockingReason(r)) ==>
                            RoomBelow(RoomOf(r, BlockingReason(r)), RoomOf(r, other))
  {
    var caps := CapList(r);
    var i := LeastRoom(caps);
    assert forall j :: 0 <= j < 4 ==> TieRank(caps[j].0) == j && RoomOf(r, caps[j].0) == caps[j].1;
    forall other | TieRank(other) < 4
      ensures caps[TieRank(other)].0 == other
    {
    }
  }

  /**
   A sized buy passes untouched exactly when its price is positive, its quantity is on
   its own step grid, and every cap has room. When it is cut, the cap named in the reason
   truly binds exactly when some cap lacks room.
   */
  lemma CutExactly(g: Limits, l: Ledgers, intent: Intent)
    requires IsSizedBuy(g, intent)
    ensures var d := Decide(g, l, intent);
            var r := IntentRooms(g, l, intent);
            && (d.action.Allow? <==> intent.requestedPrice > 0.0 && OnGrid(intent.qty, StepOf(intent))
                                     && RequestFits(r, d.requestedNotional))
            && (!d.action.Allow? ==> d.reason == BlockingReason(r))
            && (!d.action.Allow? ==> (Binds(r, d.reason, d.requestedNotional) <==> !RequestFits(r, d.requestedNotional)))
  {
    GrantIsGridQty(g, l, intent);
    NamedCapBinds(IntentRooms(g, l, intent), Notional(intent.qty, intent.requestedPrice));
    if intent.requestedPrice > 0.0 {
      WholeGrantExactly(g, l, intent);
    }
  }

  /** A buy that every cap has room for is cut all the same off its own grid, and the cap named does not bind. */
  lemma OffGridIsCut(g: Limits, l: Ledgers, intent: Intent)
    requires IsSizedBuy(g, intent) && !OnGrid(intent.qty, StepOf(intent))
    requires RequestFits(IntentRooms(g, l, intent), Notional(intent.qty, intent.requestedPrice))
    ensures var d := Decide(g, l, intent);
            !d.action.Allow? && !Binds(IntentRooms(g, l, intent), d.reason, d.requestedNotional)
  {
    CutExactly(g, l, intent);
    GrantIsGridQty(g, l, intent);
  }

  const ROOMY := Config(1.0, 1.0, 1.0, 1.0, 50.0, [])

  /** It happens: a share and a half at a price of one, in whole shares, for an account worth a hundred. */
  lemma OffGridHappens(side: string, symbol: string)
    requires NormalSide(side) != "sell"
    ensures var g, intent := LimitsOf(map[1 := 100.0], ROOMY, None), Intent(1, side, symbol, 1.5, 1.0, 1.0);
            && CheckConfig(ROOMY).None? && IsSizedBuy(g, intent) && !OnGrid(intent.qty, StepOf(intent))
            && RequestFits(IntentRooms(g, Seed(g, []), intent), Notional(intent.qty, intent.requestedPrice))
  {
    var equity := map[1 := 100.0];
    assert equity.Keys == {1};
    SumPick(equity.Keys, k => Get(equity, k), 1);
    assert equity.Keys - {1} == {};
  }

  lemma WholeGrantExactly(g: Limits, l: Ledgers, intent: Intent)
    requires IsSizedBuy(g, intent) && intent.requestedPrice > 0.0
    ensures GridQty(g, l, intent) == intent.qty <==>
            OnGrid(intent.qty, StepOf(intent))
            && RequestFits(IntentRooms(g, l, intent), Notional(intent.qty, intent.requestedPrice))
  {
    var price, step := intent.requestedPrice, StepOf(intent);
    var requested := Notional(intent.qty, price);
    var notional := SizedNotional(requested, IntentRooms(g, l, intent));
    SizedBelowRequest(requested, IntentRooms(g, l, intent));
    GridCost(notional, price, step);
    GridQtyBelowRequest(g, l, intent);
    if notional == requested && OnGrid(intent.qty, step) {
      var n :| intent.qty == GridPoint(n, step);
      FloorIsLargest(notional, price, step, n);
    }
  }

  lemma NamedCapBinds(r: Rooms, requested: real)
    ensures Binds(r, BlockingReason(r), requested) <==> !RequestFits(r, requested)
  {
    BlockingReasonIsTightest(r);
    var named := RoomOf(r, BlockingReason(r));
    assert !RoomBelow(RoomOf(r, SectorConcentrationCap), named);
    assert !RoomBelow(RoomOf(r, GrossExposureCap), named);
    assert !RoomBelow(RoomOf(r, SymbolConcentrationCap), named);
    assert !RoomBelow(RoomOf(r, BookNotionalCap), named);
  }

  // ------------------------------------------------------------- whole runs

  /** No sell in the list has a negative price. */
  ghost predicate SellsArePriced(intents: seq<Intent>) {
    forall i :: 0 <= i < |intents| && IsSell(intents[i]) ==> intents[i].requestedPrice >= 0.0
  }

  lemma SellNoRise(g: Limits, l: Ledgers, intent: Intent)
    requires Conserved(g, l) && IsSell(intent) && intent.requestedPrice >= 0.0
    ensures NoRise(l, Post(g, l, intent))
  {
    var notional := Notional(intent.qty, intent.requestedPrice);
    Scale(0.0, intent.requestedPrice, intent.qty);
    assert notional >= 0.0;
    ReleaseNoRise(g, l, intent.bookId, NormalSymbol(intent.symbol), notional);
  }

  lemma BuyWithinCaps(g: Limits, start: Ledgers, l: Ledgers, intent: Intent)
    requires WithinCaps(g, start, l) && !IsSell(intent) && !Decide(g, l, intent).action.Block?
    ensures WithinCaps(g, start, Post(g, l, intent))
  {
    var d := Decide(g, l, intent);
    ApprovedBuyIsPositive(g, l, intent);
    GrantIsGridQty(g, l, intent);
    GrantFits(g, l, intent);
    ChargeWithinCaps(g, start, l, d.bookId, d.symbol, d.approvedNotional);
  }

  /** After every prefix of a run, every exposure is within the larger of its start and its cap. */
  lemma {:induction false} RunWithinCaps(g: Limits, positions: seq<Position>, intents: seq<Intent>)
    requires g.Valid() && SellsArePriced(intents)
    ensures WithinCaps(g, Seed(g, positions), After(g, Seed(g, positions), intents))
  {
    if intents != [] {
      var n := |intents| - 1;
      var start := Seed(g, positions);
      var before := After(g, start, intents[..n]);
      assert forall i :: 0 <= i < n ==> intents[..n][i] == intents[i];
      RunWithinCaps(g, positions, intents[..n]);
      RunConserves(g, positions, intents[..n]);
      if IsSell(intents[n]) {
        SellNoRise(g, before, intents[n]);
        NoRiseKeepsCaps(g, start, before, After(g, start, intents));
      } else if !Decide(g, before, intents[n]).action.Block? {
        BuyWithinCaps(g, start, before, intents[n]);
      }
    }
  }

  /** With buys halted one intent raises nothing: a buy is blocked, a sell only releases. */
  lemma HaltedStep(g: Limits, l: Ledgers, intent: Intent)
    requires Conserved(g, l) && g.buysHalted && (IsSell(intent) ==> intent.requestedPrice >= 0.0)
    ensures NoRise(l, Post(g, l, intent))
  {
    if IsSell(intent) {
      SellNoRise(g, l, intent);
    } else {
      assert Post(g, l, intent) == l;
    }
  }

  /** While the drawdown breaker is tripped no exposure ever rises. */
  lemma {:induction false} HaltedRunNeverRises(g: Limits, positions: seq<Position>, intents: seq<Intent>, from: nat)
    requires g.Valid() && g.buysHalted && SellsArePriced(intents) && from <= |intents|
    ensures NoRise(After(g, Seed(g, positions), intents[..from]), After(g, Seed(g, positions), intents))
  {
    if from == |intents| {
      assert intents[..from] == intents;
    } else {
      var n := |intents| - 1;
      var start := Seed(g, positions);
      var earlier := intents[..n];
      assert forall i :: 0 <= i < n ==> earlier[i] == intents[i];
      assert earlier[..from] == intents[..from];
      HaltedRunNeverRises(g, positions, earlier, from);
      RunConserves(g, positions, earlier);
      HaltedStep(g, After(g, start, earlier), intents[n]);
      NoRiseChain(After(g, start, intents[..from]), After(g, start, earlier), After(g, start, intents));
    }
  }

  /** No exposure is higher after a longer part of the list than after a shorter one. */
  ghost predicate NeverRises(g: Limits, positions: seq<Position>, intents: seq<Intent>) {
    forall from, to :: 0 <= from <= to <= |intents| ==>
      NoRise(After(g, Seed(g, positions), intents[..from]), After(g, Seed(g, positions), intents[..to]))
  }

  /** A sell at a negative price adds to gross exposure, in every account and halted or not. */
  lemma NegativeSellAddsGross(g: Limits, positions: seq<Position>, intents: seq<Intent>, k: nat)
    requires g.Valid() && k < |intents| && IsSell(intents[k]) && intents[k].requestedPrice < 0.0
    ensures After(g, Seed(g, positions), intents[..k + 1]).gross > After(g, Seed(g, positions), intents[..k]).gross >= 0.0
  {
    var start := Seed(g, positions);
    var before := After(g, start, intents[..k]);
    assert intents[..k + 1][..k] == intents[..k];
    RunConserves(g, positions, intents[..k]);
    ScaleStrict(intents[k].requestedPrice, 0.0, intents[k].qty);
    assert Notional(intents[k].qty, intents[k].requestedPrice) < 0.0;
    TotalBounds(before.symbol);
    assert Get(before.symbol, NormalSymbol(intents[k].symbol)) >= 0.0;
  }

  /** In every account with buys halted, exposures only fall exactly when no sell is negatively priced. */
  lemma HaltedNeverRisesExactly(g: Limits, positions: seq<Position>, intents: seq<Intent>)
    requires g.Valid() && g.buysHalted
    ensures NeverRises(g, positions, intents) <==> SellsArePriced(intents)
  {
    var start := Seed(g, positions);
    if SellsArePriced(intents) {
      forall from, to | 0 <= from <= to <= |intents|
        ensures NoRise(After(g, start, intents[..from]), After(g, start, intents[..to]))
      {
        assert intents[..to][..from] == intents[..from];
        HaltedRunNeverRises(g, positions, intents[..to], from);
      }
    } else {
      var k :| 0 <= k < |intents| && IsSell(intents[k]) && intents[k].requestedPrice < 0.0;
      NegativeSellAddsGross(g, positions, intents, k);
      assert !NoRise(After(g, start, intents[..k]), After(g, start, intents[..k + 1]));
    }
  }

  lemma NoRiseChain(a: Ledgers, b: Ledgers, c: Ledgers)
    requires NoRise(a, b) && NoRise(b, c)
    ensures NoRise(a, c)
  {
    forall k ensures Get(c.symbol, k) <= Get(a.symbol, k) {
      assert Get(c.symbol, k) <= Get(b.symbol, k);
    }
    forall k ensures Get(c.sector, k) <= Get(a.sector, k) {
      assert Get(c.sector, k) <= Get(b.sector, k);
    }
    forall k ensures Get(c.book, k) <= Get(a.book, k) {
      assert Get(c.book, k) <= Get(b.book, k);
    }
  }

  /** Every prefix keeps within caps, for every account and configuration the gate accepts. */
  ghost predicate AlwaysWithinCaps(intents: seq<Intent>) {
    forall equity, c, drawdownPct, positions, k :: CheckConfig(c).None? && 0 <= k <= |intents| ==>
      PrefixWithinCaps(LimitsOf(equity, c, drawdownPct), positions, intents, k)
  }

  ghost predicate PrefixWithinCaps(g: Limits, positions: seq<Position>, intents: seq<Intent>, k: nat)
    requires k <= |intents|
  {
    WithinCaps(g, Seed(g, positions), After(g, Seed(g, positions), intents[..k]))
  }

  /** The price condition on sells is exact: cap safety for every account needs it. */
  lemma CapSafetyExact(intents: seq<Intent>)
    ensures AlwaysWithinCaps(intents) <==> SellsArePriced(intents)
  {
    if SellsArePriced(intents) {
      forall equity, c, drawdownPct, positions, k | CheckConfig(c).None? && 0 <= k <= |intents|
        ensures PrefixWithinCaps(LimitsOf(equity, c, drawdownPct), positions, intents, k)
      {
        RunWithinCaps(LimitsOf(equity, c, drawdownPct), positions, intents[..k]);
      }
    } else {
      var k :| 0 <= k < |intents| && IsSell(intents[k]) && intents[k].requestedPrice < 0.0;
      var c := Config(1.0, 1.0, 1.0, 1.0, 1.0, []);
      NegativeSellBreaksCaps(intents, k, c, None);
      assert !PrefixWithinCaps(LimitsOf(map[], c, None), [], intents, k + 1);
    }
  }

  /** An account with neither equity nor positions has no room, and a negatively priced sell takes some. */
  lemma NegativeSellBreaksCaps(intents: seq<Intent>, k: nat, c: Config, drawdownPct: Option<real>)
    requires CheckConfig(c).None? && k < |intents| && IsSell(intents[k]) && intents[k].requestedPrice < 0.0
    ensures !PrefixWithinCaps(LimitsOf(map[], c, drawdownPct), [], intents, k + 1)
  {
    var g := LimitsOf(map[], c, drawdownPct);
    assert g.grossCap == 0.0 * c.maxAccountGrossExposure == 0.0;
    NegativeSellAddsGross(g, [], intents, k);
  }

  // ------------------------------------------------------------ bookkeeping

  lemma DecisionsExtend(g: Limits, l: Ledgers, intents: seq<Intent>) returns (last: Decision)
    requires intents != []
    ensures Decisions(g, l, intents) == Decisions(g, l, intents[..|intents| - 1]) + [last]
  {
    last := Decide(g, After(g, l, intents[..|intents| - 1]), intents[|intents| - 1]);
  }

  /** The decisions on a part of the list are that part of the decisions. */
  lemma {:induction false} DecisionsPrefix(g: Limits, l: Ledgers, intents: seq<Intent>, k: nat)
    requires k <= |intents|
    ensures Decisions(g, l, intents)[..k] == Decisions(g, l, intents[..k])
  {
    if k < |intents| {
      var earlier := intents[..|intents| - 1];
      var last := DecisionsExtend(g, l, intents);
      DecisionsPrefix(g, l, earlier, k);
      assert earlier[..k] == intents[..k];
      assert Decisions(g, l, intents)[..k] == Decisions(g, l, earlier)[..k];
    } else {
      assert intents[..k] == intents;
    }
  }

  lemma DecisionsAt(g: Limits, l: Ledgers, intents: seq<Intent>, i: nat)
    requires i < |intents|
    ensures Decisions(g, l, intents)[i] == Decide(g, After(g, l, intents[..i]), intents[i])
  {
    DecisionsPrefix(g, l, intents, i + 1);
    assert Decisions(g, l, intents)[i] == Decisions(g, l, intents)[..i + 1][i];
    assert intents[..i + 1][..i] == intents[..i];
  }

  lemma DecideEchoesIntent(g: Limits, l: Ledgers, intent: Intent)
    ensures var d := Decide(g, l, intent);
            && d.bookId == intent.bookId
            && d.symbol == NormalSymbol(intent.symbol)
            && d.side == NormalSide(intent.side)
            && d.requestedQty == intent.qty
  {
  }

  /** Each decision answers its own intent, on the ledgers its predecessors left. */
  lemma DecisionsMatchIntents(g: Limits, l: Ledgers, intents: seq<Intent>, i: nat)
    requires i < |intents|
    ensures var d := Decisions(g, l, intents)[i];
            && d == Decide(g, After(g, l, intents[..i]), intents[i])
            && d.bookId == intents[i].bookId
            && d.symbol == NormalSymbol(intents[i].symbol)
            && d.side == NormalSide(intents[i].side)
            && d.requestedQty == intents[i].qty
  {
    DecisionsAt(g, l, intents, i);
    DecideEchoesIntent(g, After(g, l, intents[..i]), intents[i]);
  }

  /** Positions of the decisions that did not block, in order. */
  function Kept(ds: seq<Decision>): (kept: seq<nat>)
    ensures forall i :: 0 <= i < |kept| ==> kept[i] < |ds| && !ds[kept[i]].action.Block?
    ensures forall i, j :: 0 <= i < j < |kept| ==> kept[i] < kept[j]
    ensures forall i: nat :: i < |ds| && !ds[i].action.Block? ==> i in kept
  {
    if ds == [] then [] else
      var before := Kept(ds[..|ds| - 1]);
      if ds[|ds| - 1].action.Block? then before else before + [|ds| - 1]
  }

  /** The approved list is exactly the non-blocked subsequence, at the approved quantities. */
  lemma {:induction false} ApprovedIsNonBlocked(intents: seq<Intent>, ds: seq<Decision>)
    requires |intents| == |ds|
    ensures |Approved(intents, ds)| == |Kept(ds)|
    ensures forall i :: 0 <= i < |Kept(ds)| ==>
              Approved(intents, ds)[i] == intents[Kept(ds)[i]].(qty := ds[Kept(ds)[i]].approvedQty)
  {
    if ds != [] {
      var n := |ds| - 1;
      var kept, before := Kept(ds[..n]), Approved(intents[..n], ds[..n]);
      ApprovedIsNonBlocked(intents[..n], ds[..n]);
      forall i | 0 <= i < |kept|
        ensures before[i] == intents[kept[i]].(qty := ds[kept[i]].approvedQty)
      {
        assert kept[i] < n;
      }
    }
  }

  /** Every intent is counted exactly once, and the approved ones are those not blocked. */
  lemma {:induction false} CountsAddUp(intents: seq<Intent>, ds: seq<Decision>)
    requires |intents| == |ds|
    ensures |Approved(intents, ds)| == Count(ds, Allow) + Count(ds, Rescale)
    ensures |intents| == Count(ds, Allow) + Count(ds, Rescale) + Count(ds, Block)
  {
    if ds != [] {
      CountsAddUp(intents[..|ds| - 1], ds[..|ds| - 1]);
    }
  }

  // ---------------------------------------------------------- the breaker

  lemma RatioBound(ratio: real, part: real, whole: real, limit: real)
    requires whole > 0.0 && Mul(ratio, whole) == part
    ensures ratio <= limit <==> part <= Mul(whole, limit)
  {
    if ratio <= limit {
      Scale(ratio, limit, whole);
    } else {
      ScaleStrict(limit, ratio, whole);
    }
  }

  /** The breaker trips exactly when equity is positive and at least the limit below its peak. */
  lemma BreakerTripsAtLimit(totalEquity: real, peakEquity: Option<real>, maxDrawdownPct: real)
    ensures var peak := if peakEquity.Some? then Max(peakEquity.value, totalEquity) else totalEquity;
            BreakerTripped(PointInTimeDrawdown(totalEquity, peakEquity), maxDrawdownPct) <==>
            totalEquity > 0.0 && totalEquity <= peak * (1.0 - Abs(maxDrawdownPct) / 100.0)
  {
    if totalEquity > 0.0 {
      var peak := if peakEquity.Some? then Max(peakEquity.value, totalEquity) else totalEquity;
      var limit := 1.0 - Abs(maxDrawdownPct) / 100.0;
      Divide(totalEquity, peak);
      RatioBound(totalEquity / peak, totalEquity, peak, limit);
      assert BreakerTripped(PointInTimeDrawdown(totalEquity, peakEquity), maxDrawdownPct) <==> totalEquity / peak <= limit;
    }
  }
}
