/**
 One evaluation of the risk gate in the account's own terms: equity, percentages and reference data,
 and exposures added up from the positions and the decisions themselves.
 */
module RiskGateEvaluation {
  import opened Outcomes
  import opened Reals
  import opened Sums
  import opened Text
  import opened RiskGate
  import opened RiskGateSafety
  import opened RiskGateCaps

  // --------------------------------------------- exposures, added up anew

  /** What all rows of a symbol amount to. */
  function HeldAtStart(positions: seq<Position>, s: string): real {
    if positions == [] then 0.0 else
      var n := |positions| - 1;
      HeldAtStart(positions[..n], s) + if positions[n].symbol == s then Abs(positions[n].marketValue) else 0.0
  }

  /** The symbol's exposure once the decisions are carried out: a sell takes off no more than there is. */
  function Held(positions: seq<Position>, ds: seq<Decision>, s: string): real {
    if ds == [] then HeldAtStart(positions, s) else
      var n := |ds| - 1;
      var d, before := ds[n], Held(positions, ds[..n], s);
      if d.symbol != s || d.action.Block? then before
      else if d.side == "sell" then before - Min(before, d.requestedNotional)
      else before + d.approvedNotional
  }

  /** The last row of a book and symbol, which is all that counts of them. */
  function BookAtStart(positions: seq<Position>, b: int, s: string): real {
    if positions == [] then 0.0 else
      var n := |positions| - 1;
      if positions[n].bookId == b && positions[n].symbol == s then Abs(positions[n].marketValue)
      else BookAtStart(positions[..n], b, s)
  }

  /** The book's entry in a symbol: a sell takes off what it takes off the symbol, down to nothing. */
  function BookHeld(positions: seq<Position>, ds: seq<Decision>, b: int, s: string): real {
    if ds == [] then BookAtStart(positions, b, s) else
      var n := |ds| - 1;
      var d, before := ds[n], BookHeld(positions, ds[..n], b, s);
      if d.bookId != b || d.symbol != s || d.action.Block? then before
      else if d.side == "sell" then Max(0.0, before - Min(Held(positions, ds[..n], s), d.requestedNotional))
      else before + d.approvedNotional
  }

  ghost function Symbols(positions: seq<Position>, ds: seq<Decision>): set<string> {
    (set p | p in positions :: p.symbol) + (set d | d in ds :: d.symbol)
  }

  ghost function GrossHeld(positions: seq<Position>, ds: seq<Decision>): real {
    Sum(Symbols(positions, ds), s => Held(positions, ds, s))
  }

  // ------------------------------------------------------------ reference data

  /** Entry `k` is the last one for the symbol. */
  ghost predicate LastEntry(pairs: seq<(string, string)>, symbol: string, k: int) {
    && 0 <= k < |pairs| && NormalSymbol(pairs[k].0) == NormalSymbol(symbol)
    && forall m :: k < m < |pairs| ==> NormalSymbol(pairs[m].0) != NormalSymbol(symbol)
  }

  ghost predicate Unlisted(pairs: seq<(string, string)>, symbol: string) {
    forall k :: 0 <= k < |pairs| ==> NormalSymbol(pairs[k].0) != NormalSymbol(symbol)
  }

  /** A sector's name as it is charged; a blank one is no name. */
  function SectorLabel(text: string): string {
    var name := Lower(Strip(text));
    if name == "" then "uncategorized" else name
  }

  /** The reference data puts the symbol in the sector; a symbol it does not list is uncategorized. */
  ghost predicate InSector(pairs: seq<(string, string)>, symbol: string, sector: string) {
    || (exists k :: LastEntry(pairs, symbol, k) && sector == SectorLabel(pairs[k].1))
    || (Unlisted(pairs, symbol) && sector == "uncategorized")
  }

  ghost function SectorHeld(positions: seq<Position>, ds: seq<Decision>, pairs: seq<(string, string)>, sector: string): real {
    Sum((set s | s in Symbols(positions, ds) && InSector(pairs, s, sector)), s => Held(positions, ds, s))
  }

  // ------------------------------------------------- ledgers are these sums

  lemma {:induction false} SeedHolds(g: Limits, positions: seq<Position>, s: string)
    ensures Get(Seed(g, positions).symbol, s) == HeldAtStart(positions, s)
  {
    if positions != [] {
      SeedHolds(g, positions[..|positions| - 1], s);
    }
  }

  lemma {:induction false} SeedBooks(g: Limits, positions: seq<Position>, b: int, s: string)
    ensures Get(Seed(g, positions).book, (b, s)) == BookAtStart(positions, b, s)
  {
    if positions != [] {
      SeedBooks(g, positions[..|positions| - 1], b, s);
    }
  }

  /** The decisions of a run from the seeded ledgers. */
  function Verdicts(g: Limits, positions: seq<Position>, intents: seq<Intent>): seq<Decision> {
    Decisions(g, Seed(g, positions), intents)
  }

  lemma PostHeld(g: Limits, l: Ledgers, intent: Intent, s: string)
    ensures var d, x, after := Decide(g, l, intent), Get(l.symbol, s), Post(g, l, intent);
            Get(after.symbol, s)
            == if d.symbol != s || d.action.Block? then x
               else if d.side == "sell" then x - Min(x, d.requestedNotional)
               else x + d.approvedNotional
  {
  }

  lemma PostBook(g: Limits, l: Ledgers, intent: Intent, b: int, s: string)
    ensures var d, x, after := Decide(g, l, intent), Get(l.book, (b, s)), Post(g, l, intent);
            Get(after.book, (b, s))
            == if d.bookId != b || d.symbol != s || d.action.Block? then x
               else if d.side == "sell" then Max(0.0, x - Min(Get(l.symbol, s), d.requestedNotional))
               else x + d.approvedNotional
  {
  }

  lemma {:induction false} LedgerHolds(g: Limits, positions: seq<Position>, intents: seq<Intent>, s: string)
    ensures Get(After(g, Seed(g, positions), intents).symbol, s) == Held(positions, Verdicts(g, positions, intents), s)
  {
    if intents == [] {
      SeedHolds(g, positions, s);
    } else {
      var n := |intents| - 1;
      LedgerHolds(g, positions, intents[..n], s);
      PostHeld(g, After(g, Seed(g, positions), intents[..n]), intents[n], s);
      var last := DecisionsExtend(g, Seed(g, positions), intents);
      assert Verdicts(g, positions, intents)[..n] == Verdicts(g, positions, intents[..n]);
    }
  }

  lemma {:induction false} LedgerBooks(g: Limits, positions: seq<Position>, intents: seq<Intent>, b: int, s: string)
    ensures Get(After(g, Seed(g, positions), intents).book, (b, s)) == BookHeld(positions, Verdicts(g, positions, intents), b, s)
  {
    if intents == [] {
      SeedBooks(g, positions, b, s);
    } else {
      var n := |intents| - 1;
      LedgerBooks(g, positions, intents[..n], b, s);
      LedgerHolds(g, positions, intents[..n], s);
      PostBook(g, After(g, Seed(g, positions), intents[..n]), intents[n], b, s);
      var last := DecisionsExtend(g, Seed(g, positions), intents);
      assert Verdicts(g, positions, intents)[..n] == Verdicts(g, positions, intents[..n]);
    }
  }

  lemma {:induction false} SeedKeys(g: Limits, positions: seq<Position>)
    ensures Seed(g, positions).symbol.Keys <= Symbols(positions, [])
  {
    if positions != [] {
      SeedKeys(g, positions[..|positions| - 1]);
    }
  }

  lemma PostKeys(g: Limits, l: Ledgers, intent: Intent)
    ensures Post(g, l, intent).symbol.Keys <= l.symbol.Keys + {Decide(g, l, intent).symbol}
  {
  }

  lemma {:induction false} LedgerKeys(g: Limits, positions: seq<Position>, intents: seq<Intent>)
    ensures After(g, Seed(g, positions), intents).symbol.Keys <= Symbols(positions, Verdicts(g, positions, intents))
  {
    if intents == [] {
      SeedKeys(g, positions);
    } else {
      var n := |intents| - 1;
      LedgerKeys(g, positions, intents[..n]);
      PostKeys(g, After(g, Seed(g, positions), intents[..n]), intents[n]);
      MoreDecisions(positions, Verdicts(g, positions, intents[..n]),
                    Decide(g, After(g, Seed(g, positions), intents[..n]), intents[n]));
    }
  }

  lemma MoreDecisions(positions: seq<Position>, ds: seq<Decision>, d: Decision)
    ensures Symbols(positions, ds + [d]) == Symbols(positions, ds) + {d.symbol}
  {
    assert forall x :: x in ds + [d] <==> x in ds || x == d;
  }

  /** The gross ledger is what all symbols hold together. */
  lemma LedgerGross(g: Limits, positions: seq<Position>, intents: seq<Intent>)
    requires g.Valid()
    ensures After(g, Seed(g, positions), intents).gross == GrossHeld(positions, Verdicts(g, positions, intents))
  {
    var l, ds := After(g, Seed(g, positions), intents), Verdicts(g, positions, intents);
    RunConserves(g, positions, intents);
    LedgerKeys(g, positions, intents);
    forall s
      ensures Get(l.symbol, s) == Held(positions, ds, s)
    {
      LedgerHolds(g, positions, intents, s);
    }
    SumWiden(l.symbol.Keys, Symbols(positions, ds), s => Get(l.symbol, s));
    SumSame(Symbols(positions, ds), s => Get(l.symbol, s), s => Held(positions, ds, s));
  }

  /** The limits charge to a sector exactly the symbols the reference data puts there. */
  ghost predicate ChargesBy(g: Limits, pairs: seq<(string, string)>) {
    && (g.sectorLimitsOn <==> pairs != [])
    && forall s, sector :: pairs != [] ==> (g.bucket(s) == Some(sector) <==> InSector(pairs, s, sector))
  }

  /** A sector's ledger is what its symbols hold together. */
  lemma LedgerSector(g: Limits, positions: seq<Position>, intents: seq<Intent>, pairs: seq<(string, string)>, sector: string)
    requires g.Valid() && ChargesBy(g, pairs) && pairs != []
    ensures Get(After(g, Seed(g, positions), intents).sector, sector)
         == SectorHeld(positions, Verdicts(g, positions, intents), pairs, sector)
  {
    var l, ds := After(g, Seed(g, positions), intents), Verdicts(g, positions, intents);
    RunConserves(g, positions, intents);
    LedgerKeys(g, positions, intents);
    forall s
      ensures Get(l.symbol, s) == Held(positions, ds, s)
    {
      LedgerHolds(g, positions, intents, s);
    }
    TotalWhereOver(l.symbol, k => g.bucket(k) == Some(sector), Symbols(positions, ds),
                   (set s | s in Symbols(positions, ds) && InSector(pairs, s, sector)), s => Held(positions, ds, s));
  }

  // ------------------------------------------------- limits come from the data

  lemma {:induction false} UnlistedExactly(pairs: seq<(string, string)>, symbol: string)
    ensures NormalSymbol(symbol) !in NormalSectors(pairs) <==> Unlisted(pairs, symbol)
  {
    if pairs != [] {
      var n := |pairs| - 1;
      UnlistedExactly(pairs[..n], symbol);
      assert forall k :: 0 <= k < n ==> pairs[..n][k] == pairs[k];
    }
  }

  lemma {:induction false} LastEntryCounts(pairs: seq<(string, string)>, symbol: string, k: int)
    requires LastEntry(pairs, symbol, k)
    ensures NormalSymbol(symbol) in NormalSectors(pairs) && NormalSectors(pairs)[NormalSymbol(symbol)] == pairs[k].1
  {
    var n := |pairs| - 1;
    if k < n {
      assert forall m :: 0 <= m < n ==> pairs[..n][m] == pairs[m];
      LastEntryCounts(pairs[..n], symbol, k);
      assert NormalSymbol(pairs[n].0) != NormalSymbol(symbol);
    }
  }

  lemma {:induction false} SomeEntryIsLast(pairs: seq<(string, string)>, symbol: string) returns (k: int)
    requires !Unlisted(pairs, symbol)
    ensures LastEntry(pairs, symbol, k)
  {
    var n := |pairs| - 1;
    if NormalSymbol(pairs[n].0) == NormalSymbol(symbol) {
      k := n;
    } else {
      k := SomeEntryIsLast(pairs[..n], symbol);
    }
  }

  lemma OneLastEntry(pairs: seq<(string, string)>, symbol: string, k: int, m: int)
    requires LastEntry(pairs, symbol, k) && LastEntry(pairs, symbol, m)
    ensures k == m
  {
  }

  lemma BucketIsSector(pairs: seq<(string, string)>, s: string, sector: string)
    requires pairs != []
    ensures NormalSectors(pairs) != map[]
    ensures SectorBucket(NormalSectors(pairs), s) == Some(sector) <==> InSector(pairs, s, sector)
  {
    assert NormalSymbol(pairs[|pairs| - 1].0) in NormalSectors(pairs);
    UnlistedExactly(pairs, s);
    if !Unlisted(pairs, s) {
      var k := SomeEntryIsLast(pairs, s);
      LastEntryCounts(pairs, s, k);
      forall m | LastEntry(pairs, s, m)
        ensures m == k
      {
        OneLastEntry(pairs, s, k, m);
      }
    }
  }

  // ------------------------------------------------------------- one account

  /** The inputs of an evaluation other than the intents. */
  datatype Account = Account(equity: map<int, real>, config: Config, drawdownPct: Option<real>, positions: seq<Position>)

  /** The amounts that the four caps come to for one book. */
  datatype Caps = Caps(gross: real, symbol: real, sector: real, book: real)

  /** The equity of all books together. */
  ghost function AllEquity(a: Account): real {
    Sum(a.equity.Keys, b => Get(a.equity, b))
  }

  ghost function CapsOf(a: Account, b: int): Caps {
    Caps(AllEquity(a) * a.config.maxAccountGrossExposure,
         AllEquity(a) * a.config.maxSymbolConcentrationPct,
         AllEquity(a) * a.config.maxSectorConcentrationPct,
         Get(a.equity, b) * a.config.maxBookNotionalPct)
  }

  ghost predicate Halted(a: Account) {
    a.drawdownPct.Some? && a.drawdownPct.value <= -Abs(a.config.maxDrawdownPct)
  }

  /** What is fixed while one book's intents are answered: its caps, the positions and the reference data. */
  datatype Terms = Terms(caps: Caps, positions: seq<Position>, pairs: seq<(string, string)>, halted: bool)

  ghost function TermsOf(a: Account, b: int): Terms {
    Terms(CapsOf(a, b), a.positions, a.config.symbolSectors, Halted(a))
  }

  /** The limits are these terms. */
  ghost predicate LimitsAre(g: Limits, b: int, e: Terms) {
    && g.Valid() && ChargesBy(g, e.pairs)
    && g.grossCap == e.caps.gross && g.symbolCap == e.caps.symbol && g.sectorCap == e.caps.sector
    && g.BookCap(b) == e.caps.book && g.buysHalted == e.halted
  }

  function LimitsFor(total: real, a: Account): Limits {
    LimitsAt(total, a.equity, a.config, a.drawdownPct)
  }

  lemma ChargesByData(pairs: seq<(string, string)>, g: Limits)
    requires g.sectorLimitsOn == (NormalSectors(pairs) != map[])
    requires forall s :: g.bucket(s) == SectorBucket(NormalSectors(pairs), s)
    ensures ChargesBy(g, pairs)
  {
    forall s, sector | pairs != []
      ensures g.bucket(s) == Some(sector) <==> InSector(pairs, s, sector)
    {
      BucketIsSector(pairs, s, sector);
    }
    if pairs != [] {
      BucketIsSector(pairs, "", "");
    }
  }

  /** The limits of an evaluation are what the account's equity, percentages and reference data come to. */
  lemma LimitsForAccount(total: real, a: Account, b: int)
    requires total == Total(a.equity)
    ensures LimitsAre(LimitsFor(total, a), b, TermsOf(a, b))
  {
    SumSame(a.equity.Keys, k => Get(a.equity, k), k => Get(a.equity, k));
    ChargesByData(a.config.symbolSectors, LimitsFor(total, a));
  }

  // --------------------------------------------------------------- what fits

  /** So much more exposure of a book in a symbol passes no cap. */
  ghost predicate FitsCaps(e: Terms, ds: seq<Decision>, b: int, s: string, cost: real) {
    && GrossHeld(e.positions, ds) + cost <= e.caps.gross
    && Held(e.positions, ds, s) + cost <= e.caps.symbol
    && FitsSector(e, ds, s, cost)
    && BookHeld(e.positions, ds, b, s) + cost <= e.caps.book
  }

  /** Without reference data there is no sector to fit. */
  ghost predicate FitsSector(e: Terms, ds: seq<Decision>, s: string, cost: real) {
    forall sector :: e.pairs != [] && InSector(e.pairs, s, sector) ==>
      SectorHeld(e.positions, ds, e.pairs, sector) + cost <= e.caps.sector
  }

  function CostAt(qty: real, price: real): real {
    qty * price
  }

  lemma NotionalIsCost(qty: real, price: real)
    ensures Notional(qty, price) == CostAt(qty, price)
  {
  }

  /** The quantity is no more than asked for, and its cost passes no cap. */
  ghost predicate FitsAll(e: Terms, ds: seq<Decision>, intent: Intent, qty: real) {
    qty <= intent.qty && FitsCaps(e, ds, intent.bookId, NormalSymbol(intent.symbol), CostAt(qty, intent.requestedPrice))
  }

  lemma OnlySector(g: Limits, b: int, e: Terms, s: string) returns (sector: string)
    requires LimitsAre(g, b, e) && e.pairs != []
    ensures g.bucket(s) == Some(sector) && InSector(e.pairs, s, sector)
    ensures forall other :: InSector(e.pairs, s, other) ==> other == sector
  {
    sector := g.bucket(s).value;
    forall other | InSector(e.pairs, s, other)
      ensures other == sector
    {
      assert g.bucket(s) == Some(other);
    }
  }

  lemma SectorFitsExactly(g: Limits, b: int, e: Terms, intents: seq<Intent>, s: string, cost: real)
    requires LimitsAre(g, b, e)
    ensures var l := After(g, Seed(g, e.positions), intents);
            (g.bucket(s).Some? ==> Get(l.sector, g.bucket(s).value) + cost <= g.sectorCap)
            <==> FitsSector(e, Verdicts(g, e.positions, intents), s, cost)
  {
    if e.pairs != [] {
      var sector := OnlySector(g, b, e, s);
      LedgerSector(g, e.positions, intents, e.pairs, sector);
    }
  }

  lemma CapsHoldExactly(g: Limits, b: int, e: Terms, intents: seq<Intent>, s: string, cost: real)
    requires LimitsAre(g, b, e)
    ensures CapsHold(g, After(g, Seed(g, e.positions), intents), b, s, cost)
       <==> FitsCaps(e, Verdicts(g, e.positions, intents), b, s, cost)
  {
    LedgerGross(g, e.positions, intents);
    LedgerHolds(g, e.positions, intents, s);
    LedgerBooks(g, e.positions, intents, b, s);
    SectorFitsExactly(g, b, e, intents, s, cost);
  }

  lemma FitsExactlyAll(g: Limits, e: Terms, intents: seq<Intent>, intent: Intent, qty: real, cost: real)
    requires LimitsAre(g, intent.bookId, e) && cost == Notional(qty, intent.requestedPrice)
    ensures Fits(g, After(g, Seed(g, e.positions), intents), intent, qty)
       <==> FitsAll(e, Verdicts(g, e.positions, intents), intent, qty)
  {
    FitsIsCapsHold(g, After(g, Seed(g, e.positions), intents), intent, qty, cost);
    CapsHoldExactly(g, intent.bookId, e, intents, NormalSymbol(intent.symbol), cost);
    NotionalIsCost(qty, intent.requestedPrice);
  }

  /** The largest multiple of the step that fits, zero if none does. */
  ghost predicate LargestFit(e: Terms, ds: seq<Decision>, intent: Intent, step: real, qty: real) {
    && qty >= 0.0 && OnGrid(qty, step)
    && (qty > 0.0 ==> FitsAll(e, ds, intent, qty))
    && forall more :: more > qty && OnGrid(more, step) ==> !FitsAll(e, ds, intent, more)
  }

  lemma GrantIsLargest(g: Limits, e: Terms, intents: seq<Intent>, intent: Intent, step: real)
    requires LimitsAre(g, intent.bookId, e) && IsSizedBuy(g, intent) && intent.requestedPrice > 0.0
    requires step == if intent.quantityStep > 0.0 then intent.quantityStep else 1.0
    ensures LargestFit(e, Verdicts(g, e.positions, intents), intent, step,
                       Decide(g, After(g, Seed(g, e.positions), intents), intent).approvedQty)
  {
    var l, ds := After(g, Seed(g, e.positions), intents), Verdicts(g, e.positions, intents);
    var qty := Decide(g, l, intent).approvedQty;
    GrantIsLargestFit(g, l, intent);
    GrantIsGridQty(g, l, intent);
    FitsExactlyAll(g, e, intents, intent, qty, Notional(qty, intent.requestedPrice));
    forall more | more > qty && OnGrid(more, step)
      ensures !FitsAll(e, ds, intent, more)
    {
      var n: int :| more == GridPoint(n, step);
      PositiveSteps(n, step);
      FitsExactlyAll(g, e, intents, intent, more, Notional(more, intent.requestedPrice));
    }
  }

  lemma PositiveSteps(n: int, step: real)
    requires step > 0.0 && GridPoint(n, step) > 0.0
    ensures n > 0
  {
    if n <= 0 {
      Scale(n as real, 0.0, step);
    }
  }

  // ------------------------------------------------------------ reason of a cut

  const CAPS := [SectorConcentrationCap, GrossExposureCap, SymbolConcentrationCap, BookNotionalCap]

  function RoomLeft(cap: real, held: real): real {
    if held < cap then cap - held else 0.0
  }

  /** The room a cap leaves: nothing when it is passed, no bound where there is no sector limit. */
  ghost predicate RoomIs(e: Terms, ds: seq<Decision>, b: int, s: string, reason: Reason, room: Option<real>) {
    match reason
    case SectorConcentrationCap => SectorRoomIs(e, ds, s, room)
    case GrossExposureCap => room == Some(RoomLeft(e.caps.gross, GrossHeld(e.positions, ds)))
    case SymbolConcentrationCap => room == Some(RoomLeft(e.caps.symbol, Held(e.positions, ds, s)))
    case BookNotionalCap => room == Some(RoomLeft(e.caps.book, BookHeld(e.positions, ds, b, s)))
    case _ => false
  }

  ghost predicate SectorRoomIs(e: Terms, ds: seq<Decision>, s: string, room: Option<real>) {
    if e.pairs == [] then room.None?
    else
      room.Some? && exists sector ::
        InSector(e.pairs, s, sector) && room.value == RoomLeft(e.caps.sector, SectorHeld(e.positions, ds, e.pairs, sector))
  }

  predicate LessRoom(x: Option<real>, y: Option<real>) {
    x.Some? && (y.None? || x.value < y.value)
  }

  /** The cap with the least room, the first of `CAPS` among equals. */
  ghost predicate Tightest(e: Terms, ds: seq<Decision>, b: int, s: string, reason: Reason) {
    exists k, room :: 0 <= k < 4 && CAPS[k] == reason && RoomIs(e, ds, b, s, reason, room) && TightestAt(e, ds, b, s, k, room)
  }

  ghost predicate TightestAt(e: Terms, ds: seq<Decision>, b: int, s: string, k: int, room: Option<real>) {
    forall m, other :: 0 <= m < 4 && RoomIs(e, ds, b, s, CAPS[m], other) ==>
      !LessRoom(other, room) && (m < k ==> LessRoom(room, other))
  }

  lemma SectorRoomNamed(e: Terms, ds: seq<Decision>, s: string, sector: string, room: Option<real>)
    requires e.pairs != [] && InSector(e.pairs, s, sector)
    requires forall other :: InSector(e.pairs, s, other) ==> other == sector
    ensures SectorRoomIs(e, ds, s, room)
       <==> room == Some(RoomLeft(e.caps.sector, SectorHeld(e.positions, ds, e.pairs, sector)))
  {
  }

  lemma LedgerRoom(g: Limits, l: Ledgers, b: int, s: string, sector: string)
    requires g.bucket(s) == Some(sector)
    ensures RoomsFor(g, l, b, s).sector == Some(RoomLeft(g.sectorCap, Get(l.sector, sector)))
  {
  }

  lemma SectorLeft(g: Limits, b: int, e: Terms, intents: seq<Intent>, s: string, sector: string)
    requires LimitsAre(g, b, e) && e.pairs != [] && g.bucket(s) == Some(sector)
    ensures RoomsFor(g, After(g, Seed(g, e.positions), intents), b, s).sector
         == Some(RoomLeft(e.caps.sector, SectorHeld(e.positions, Verdicts(g, e.positions, intents), e.pairs, sector)))
  {
    LedgerSector(g, e.positions, intents, e.pairs, sector);
    LedgerRoom(g, After(g, Seed(g, e.positions), intents), b, s, sector);
  }

  lemma SectorRoomExactly(g: Limits, b: int, e: Terms, intents: seq<Intent>, s: string, room: Option<real>, rooms: Rooms)
    requires LimitsAre(g, b, e) && rooms == RoomsFor(g, After(g, Seed(g, e.positions), intents), b, s)
    ensures SectorRoomIs(e, Verdicts(g, e.positions, intents), s, room) <==> room == rooms.sector
  {
    if e.pairs == [] {
      assert g.bucket(s).None?;
    } else {
      var sector := OnlySector(g, b, e, s);
      SectorLeft(g, b, e, intents, s, sector);
      SectorRoomNamed(e, Verdicts(g, e.positions, intents), s, sector, room);
    }
  }

  lemma AmountsExactly(g: Limits, b: int, e: Terms, intents: seq<Intent>, s: string)
    requires LimitsAre(g, b, e)
    ensures var ds := Verdicts(g, e.positions, intents);
            var rooms := RoomsFor(g, After(g, Seed(g, e.positions), intents), b, s);
            && rooms.gross == RoomLeft(e.caps.gross, GrossHeld(e.positions, ds))
            && rooms.symbol == RoomLeft(e.caps.symbol, Held(e.positions, ds, s))
            && rooms.book == RoomLeft(e.caps.book, BookHeld(e.positions, ds, b, s))
  {
    LedgerGross(g, e.positions, intents);
    LedgerHolds(g, e.positions, intents, s);
    LedgerBooks(g, e.positions, intents, b, s);
  }

  lemma NamedRoom(e: Terms, ds: seq<Decision>, b: int, s: string, reason: Reason, room: Option<real>, rooms: Rooms)
    requires reason in CAPS && (SectorRoomIs(e, ds, s, room) <==> room == rooms.sector)
    requires rooms.gross == RoomLeft(e.caps.gross, GrossHeld(e.positions, ds))
    requires rooms.symbol == RoomLeft(e.caps.symbol, Held(e.positions, ds, s))
    requires rooms.book == RoomLeft(e.caps.book, BookHeld(e.positions, ds, b, s))
    ensures RoomIs(e, ds, b, s, reason, room) <==> room == RoomOf(rooms, reason)
  {
  }

  lemma RoomExactly(g: Limits, b: int, e: Terms, intents: seq<Intent>, s: string, reason: Reason, room: Option<real>)
    requires LimitsAre(g, b, e) && reason in CAPS
    ensures RoomIs(e, Verdicts(g, e.positions, intents), b, s, reason, room)
       <==> room == RoomOf(RoomsFor(g, After(g, Seed(g, e.positions), intents), b, s), reason)
  {
    var rooms := RoomsFor(g, After(g, Seed(g, e.positions), intents), b, s);
    SectorRoomExactly(g, b, e, intents, s, room, rooms);
    AmountsExactly(g, b, e, intents, s);
    NamedRoom(e, Verdicts(g, e.positions, intents), b, s, reason, room, rooms);
  }

  lemma TightestIsNamed(e: Terms, ds: seq<Decision>, b: int, s: string, rooms: Rooms)
    requires forall reason, room :: reason in CAPS ==> (RoomIs(e, ds, b, s, reason, room) <==> room == RoomOf(rooms, reason))
    ensures Tightest(e, ds, b, s, BlockingReason(rooms))
  {
    var reason := BlockingReason(rooms);
    BlockingReasonIsTightest(rooms);
    var k, room := TieRank(reason), RoomOf(rooms, reason);
    assert CAPS[k] == reason;
    forall m, other | 0 <= m < 4 && RoomIs(e, ds, b, s, CAPS[m], other)
      ensures !LessRoom(other, room) && (m < k ==> LessRoom(room, other))
    {
      assert TieRank(CAPS[m]) == m && CAPS[m] in CAPS;
    }
    assert TightestAt(e, ds, b, s, k, room);
  }

  lemma ReasonIsTightest(g: Limits, b: int, e: Terms, intents: seq<Intent>, s: string)
    requires LimitsAre(g, b, e)
    ensures Tightest(e, Verdicts(g, e.positions, intents), b, s,
                     BlockingReason(RoomsFor(g, After(g, Seed(g, e.positions), intents), b, s)))
  {
    var ds, rooms := Verdicts(g, e.positions, intents), RoomsFor(g, After(g, Seed(g, e.positions), intents), b, s);
    forall reason, room | reason in CAPS
      ensures RoomIs(e, ds, b, s, reason, room) <==> room == RoomOf(rooms, reason)
    {
      RoomExactly(g, b, e, intents, s, reason, room);
    }
    TightestIsNamed(e, ds, b, s, rooms);
  }

  // -------------------------------------------------------------- one decision

  /** The verdict on a buy that nothing stops before the caps. */
  ghost predicate BuyAnswered(e: Terms, ds: seq<Decision>, intent: Intent, d: Decision) {
    && (if intent.requestedPrice <= 0.0 then d.approvedQty == 0.0
        else LargestFit(e, ds, intent, if intent.quantityStep > 0.0 then intent.quantityStep else 1.0, d.approvedQty))
    && d.action == (if d.approvedQty == 0.0 then Block else if d.approvedQty == intent.qty then Allow else Rescale)
    && (if d.action.Allow? then d.reason == WithinLimits
        else Tightest(e, ds, intent.bookId, NormalSymbol(intent.symbol), d.reason))
  }

  /** The verdict on an intent, after the decisions before it. */
  ghost predicate Answers(e: Terms, ds: seq<Decision>, intent: Intent, d: Decision) {
    if intent.qty <= 0.0 then d.action.Block? && d.reason == NonPositiveQty && d.approvedQty == 0.0
    else if NormalSide(intent.side) == "sell" then d.action.Allow? && d.reason == RiskReducingSell && d.approvedQty == intent.qty
    else if e.halted then d.action.Block? && d.reason == DrawdownBreaker && d.approvedQty == 0.0
    else BuyAnswered(e, ds, intent, d)
  }

  /** A decision repeats its intent and says what it costs. */
  ghost predicate Repeats(intent: Intent, d: Decision) {
    && d.bookId == intent.bookId && d.symbol == NormalSymbol(intent.symbol) && d.side == NormalSide(intent.side)
    && d.requestedQty == intent.qty && d.requestedNotional == CostAt(intent.qty, intent.requestedPrice)
    && d.approvedNotional == CostAt(d.approvedQty, intent.requestedPrice)
  }

  lemma DecisionCosts(g: Limits, l: Ledgers, intent: Intent)
    ensures var d := Decide(g, l, intent);
            && d.requestedNotional == Notional(intent.qty, intent.requestedPrice)
            && d.approvedNotional == Notional(d.approvedQty, intent.requestedPrice)
  {
    if IsSizedBuy(g, intent) {
      GrantIsGridQty(g, l, intent);
    } else {
      assert Notional(0.0, intent.requestedPrice) == 0.0;
    }
  }

  lemma DecisionRepeats(g: Limits, l: Ledgers, intent: Intent)
    ensures Repeats(intent, Decide(g, l, intent))
  {
    DecideEchoesIntent(g, l, intent);
    DecisionCosts(g, l, intent);
    EchoRepeats(intent, Decide(g, l, intent));
  }

  lemma EchoRepeats(intent: Intent, d: Decision)
    requires d.bookId == intent.bookId && d.symbol == NormalSymbol(intent.symbol) && d.side == NormalSide(intent.side)
    requires d.requestedQty == intent.qty && d.requestedNotional == Notional(intent.qty, intent.requestedPrice)
    requires d.approvedNotional == Notional(d.approvedQty, intent.requestedPrice)
    ensures Repeats(intent, d)
  {
    NotionalIsCost(intent.qty, intent.requestedPrice);
    NotionalIsCost(d.approvedQty, intent.requestedPrice);
  }

  lemma BuyIsAnswered(g: Limits, e: Terms, intents: seq<Intent>, intent: Intent)
    requires LimitsAre(g, intent.bookId, e) && IsSizedBuy(g, intent)
    ensures BuyAnswered(e, Verdicts(g, e.positions, intents), intent, Decide(g, After(g, Seed(g, e.positions), intents), intent))
  {
    var l := After(g, Seed(g, e.positions), intents);
    GrantIsGridQty(g, l, intent);
    ReasonIsTightest(g, intent.bookId, e, intents, NormalSymbol(intent.symbol));
    var step := if intent.quantityStep > 0.0 then intent.quantityStep else 1.0;
    if intent.requestedPrice > 0.0 {
      GrantIsLargest(g, e, intents, intent, step);
    }
  }

  lemma IntentIsAnswered(g: Limits, e: Terms, intents: seq<Intent>, intent: Intent)
    requires LimitsAre(g, intent.bookId, e)
    ensures Answers(e, Verdicts(g, e.positions, intents), intent, Decide(g, After(g, Seed(g, e.positions), intents), intent))
  {
    if IsSizedBuy(g, intent) {
      BuyIsAnswered(g, e, intents, intent);
    }
  }

  // ---------------------------------------------------------- one evaluation

  /** Decision `i` answers intent `i`, on what the decisions before it left. */
  ghost predicate AnswersAt(a: Account, intents: seq<Intent>, ds: seq<Decision>, i: nat)
    requires i < |intents| == |ds|
  {
    Repeats(intents[i], ds[i]) && Answers(TermsOf(a, intents[i].bookId), ds[..i], intents[i], ds[i])
  }

  /** Where the decisions took an action. */
  function Where(ds: seq<Decision>, action: Action): set<nat> {
    set i: nat | i < |ds| && ds[i].action == action
  }

  lemma {:induction false} CountIsTally(ds: seq<Decision>, action: Action)
    ensures Count(ds, action) == |Where(ds, action)|
  {
    if ds == [] {
      assert Where(ds, action) == {};
    } else {
      var n := |ds| - 1;
      CountIsTally(ds[..n], action);
      WhereExtends(ds[..n], ds[n], action);
      assert ds == ds[..n] + [ds[n]];
    }
  }

  lemma WhereExtends(ds: seq<Decision>, d: Decision, action: Action)
    ensures Where(ds + [d], action) == Where(ds, action) + (if d.action == action then {|ds|} else {})
  {
  }

  /** The whole answer to an evaluation. */
  ghost predicate Gated(a: Account, intents: seq<Intent>, v: GateResult) {
    && |v.decisions| == |intents|
    && (forall i: nat :: i < |intents| ==> AnswersAt(a, intents, v.decisions, i))
    && Passed(intents, v.decisions, v.approvedIntents)
    && v.allowedCount == |Where(v.decisions, Allow)|
    && v.rescaledCount == |Where(v.decisions, Rescale)|
    && v.blockedCount == |Where(v.decisions, Block)|
    && v.grossBefore == GrossHeld(a.positions, [])
    && v.grossAfter == GrossHeld(a.positions, v.decisions)
  }

  /** The approved intents are those not blocked, in order, at the approved quantities. */
  ghost predicate Passed(intents: seq<Intent>, ds: seq<Decision>, approved: seq<Intent>)
    requires |ds| == |intents|
  {
    && |approved| == |Kept(ds)|
    && forall k :: 0 <= k < |approved| ==> approved[k] == intents[Kept(ds)[k]].(qty := ds[Kept(ds)[k]].approvedQty)
  }

  lemma RunIsAnswered(a: Account, g: Limits, intents: seq<Intent>, i: nat)
    requires i < |intents| && LimitsAre(g, intents[i].bookId, TermsOf(a, intents[i].bookId))
    ensures AnswersAt(a, intents, Verdicts(g, a.positions, intents), i)
  {
    var e := TermsOf(a, intents[i].bookId);
    DecisionsAt(g, Seed(g, a.positions), intents, i);
    DecisionsPrefix(g, Seed(g, a.positions), intents, i);
    DecisionRepeats(g, After(g, Seed(g, a.positions), intents[..i]), intents[i]);
    IntentIsAnswered(g, e, intents[..i], intents[i]);
  }

  /** After these decisions no exposure is above the larger of where it started and its cap. */
  ghost predicate TermsKept(e: Terms, b: int, ds: seq<Decision>) {
    && GrossHeld(e.positions, ds) <= Max(GrossHeld(e.positions, []), e.caps.gross)
    && (forall s :: Held(e.positions, ds, s) <= Max(HeldAtStart(e.positions, s), e.caps.symbol))
    && (forall s :: BookHeld(e.positions, ds, b, s) <= Max(BookAtStart(e.positions, b, s), e.caps.book))
    && forall sector :: SectorKept(e, ds, sector)
  }

  ghost predicate SectorKept(e: Terms, ds: seq<Decision>, sector: string) {
    e.pairs != [] ==>
      SectorHeld(e.positions, ds, e.pairs, sector) <= Max(SectorHeld(e.positions, [], e.pairs, sector), e.caps.sector)
  }

  /** After every part of the decisions, whatever the book. */
  ghost predicate CapsKept(a: Account, ds: seq<Decision>) {
    forall b, k :: 0 <= k <= |ds| ==> TermsKept(TermsOf(a, b), b, ds[..k])
  }

  lemma SymbolStaysKept(g: Limits, b: int, e: Terms, intents: seq<Intent>, s: string)
    requires LimitsAre(g, b, e) && WithinCaps(g, Seed(g, e.positions), After(g, Seed(g, e.positions), intents))
    ensures Held(e.positions, Verdicts(g, e.positions, intents), s) <= Max(HeldAtStart(e.positions, s), e.caps.symbol)
    ensures BookHeld(e.positions, Verdicts(g, e.positions, intents), b, s) <= Max(BookAtStart(e.positions, b, s), e.caps.book)
  {
    LedgerHolds(g, e.positions, intents, s);
    SeedHolds(g, e.positions, s);
    LedgerBooks(g, e.positions, intents, b, s);
    SeedBooks(g, e.positions, b, s);
  }

  lemma SectorStaysKept(g: Limits, b: int, e: Terms, intents: seq<Intent>, sector: string)
    requires LimitsAre(g, b, e) && WithinCaps(g, Seed(g, e.positions), After(g, Seed(g, e.positions), intents))
    ensures SectorKept(e, Verdicts(g, e.positions, intents), sector)
  {
    if e.pairs != [] {
      LedgerSector(g, e.positions, intents, e.pairs, sector);
      LedgerSector(g, e.positions, [], e.pairs, sector);
    }
  }

  lemma TermsStayKept(g: Limits, b: int, e: Terms, intents: seq<Intent>)
    requires LimitsAre(g, b, e) && SellsArePriced(intents)
    ensures TermsKept(e, b, Verdicts(g, e.positions, intents))
  {
    RunWithinCaps(g, e.positions, intents);
    LedgerGross(g, e.positions, []);
    LedgerGross(g, e.positions, intents);
    forall s
      ensures Held(e.positions, Verdicts(g, e.positions, intents), s) <= Max(HeldAtStart(e.positions, s), e.caps.symbol)
      ensures BookHeld(e.positions, Verdicts(g, e.positions, intents), b, s) <= Max(BookAtStart(e.positions, b, s), e.caps.book)
    {
      SymbolStaysKept(g, b, e, intents, s);
    }
    forall sector
      ensures SectorKept(e, Verdicts(g, e.positions, intents), sector)
    {
      SectorStaysKept(g, b, e, intents, sector);
    }
  }

  lemma CapsStayKept(a: Account, g: Limits, intents: seq<Intent>)
    requires SellsArePriced(intents) && forall b :: LimitsAre(g, b, TermsOf(a, b))
    ensures CapsKept(a, Verdicts(g, a.positions, intents))
  {
    var ds := Verdicts(g, a.positions, intents);
    forall b, k | 0 <= k <= |ds|
      ensures TermsKept(TermsOf(a, b), b, ds[..k])
    {
      assert LimitsAre(g, b, TermsOf(a, b));
      DecisionsPrefix(g, Seed(g, a.positions), intents, k);
      assert SellsArePriced(intents[..k]);
      TermsStayKept(g, b, TermsOf(a, b), intents[..k]);
    }
  }

  lemma RunIsGated(a: Account, g: Limits, intents: seq<Intent>)
    requires forall b :: LimitsAre(g, b, TermsOf(a, b))
    ensures var seed, ds := Seed(g, a.positions), Verdicts(g, a.positions, intents);
            Gated(a, intents, GateResult(Approved(intents, ds), ds, Count(ds, Allow), Count(ds, Rescale), Count(ds, Block),
                                         seed.gross, After(g, seed, intents).gross))
  {
    var ds := Verdicts(g, a.positions, intents);
    assert LimitsAre(g, 0, TermsOf(a, 0));
    forall i: nat | i < |intents|
      ensures AnswersAt(a, intents, ds, i)
    {
      assert LimitsAre(g, intents[i].bookId, TermsOf(a, intents[i].bookId));
      RunIsAnswered(a, g, intents, i);
    }
    ApprovedIsNonBlocked(intents, ds);
    CountIsTally(ds, Allow);
    CountIsTally(ds, Rescale);
    CountIsTally(ds, Block);
    LedgerGross(g, a.positions, []);
    LedgerGross(g, a.positions, intents);
  }

  /** The configuration errors, each with the percentage it refuses. */
  function Percentages(c: Config): seq<(real, ConfigError)> {
    [(c.maxBookNotionalPct, BadBookNotionalPct), (c.maxSymbolConcentrationPct, BadSymbolConcentrationPct),
     (c.maxAccountGrossExposure, BadAccountGrossExposure), (c.maxSectorConcentrationPct, BadSectorConcentrationPct)]
  }

  /** The first percentage that is not positive is the one complained about. */
  ghost predicate FirstBad(c: Config, error: ConfigError) {
    exists k :: 0 <= k < 4 && Percentages(c)[k].1 == error && Percentages(c)[k].0 <= 0.0
      && forall m :: 0 <= m < k ==> Percentages(c)[m].0 > 0.0
  }

  lemma ComplaintIsFirst(c: Config)
    ensures CheckConfig(c).Some? ==> FirstBad(c, CheckConfig(c).value)
    ensures CheckConfig(c).None? <==> forall k :: 0 <= k < 4 ==> Percentages(c)[k].0 > 0.0
  {
    if CheckConfig(c).Some? {
      var k := match CheckConfig(c).value
        case BadBookNotionalPct => 0
        case BadSymbolConcentrationPct => 1
        case BadAccountGrossExposure => 2
        case BadSectorConcentrationPct => 3;
      assert Percentages(c)[k].1 == CheckConfig(c).value && Percentages(c)[k].0 <= 0.0;
    }
  }

  /** The gate over one list of intents. */
  method EvaluateRiskGate(intents: seq<Intent>, bookEquity: map<int, real>, positions: seq<Position>,
                          config: Config, drawdownPct: Option<real>)
    returns (r: Result<GateResult, ConfigError>)
    ensures intents == [] ==> r == Success(GateResult([], [], 0, 0, 0, 0.0, 0.0))
    ensures intents != [] ==> (r.Success? <==> forall k :: 0 <= k < 4 ==> Percentages(config)[k].0 > 0.0)
    ensures intents != [] && r.Failure? ==> FirstBad(config, r.error)
    ensures intents != [] && r.Success? ==>
              var a := Account(bookEquity, config, drawdownPct, positions);
              Gated(a, intents, r.value) && (SellsArePriced(intents) ==> CapsKept(a, r.value.decisions))
  {
    if intents == [] {
      return Success(GateResult([], [], 0, 0, 0, 0.0, 0.0));
    }
    var bad := CheckConfig(config);
    ComplaintIsFirst(config);
    if bad.Some? {
      return Failure(bad.value);
    }
    var totalEquity := SumValues(bookEquity);
    var g := LimitsAt(totalEquity, bookEquity, config, drawdownPct);
    var seed := SeedLedgers(g, positions);
    var approved, decisions, allowed, rescaled, blocked, grossAfter := GateIntents(g, seed, intents);
    ghost var a := Account(bookEquity, config, drawdownPct, positions);
    forall b
      ensures LimitsAre(g, b, TermsOf(a, b))
    {
      LimitsForAccount(totalEquity, a, b);
    }
    RunIsGated(a, g, intents);
    if SellsArePriced(intents) {
      CapsStayKept(a, g, intents);
    }
    return Success(GateResult(approved, decisions, allowed, rescaled, blocked, seed.gross, grossAfter));
  }
}
