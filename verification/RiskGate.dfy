/**
 The pre-trade risk gate: walks trade intents in order, keeps running exposure
 ledgers, and allows, cuts or blocks each buy against four layered caps.
 */
module RiskGate {
  import opened Outcomes
  import opened Reals
  import opened Sums
  import opened Text

  datatype Intent = Intent(bookId: int, side: string, symbol: string, qty: real,
                           requestedPrice: real, quantityStep: real)

  datatype Position = Position(bookId: int, symbol: string, marketValue: real)

  /** `symbolSectors` lists the reference data in insertion order. */
  datatype Config = Config(maxBookNotionalPct: real, maxSymbolConcentrationPct: real,
                           maxAccountGrossExposure: real, maxSectorConcentrationPct: real,
                           maxDrawdownPct: real, symbolSectors: seq<(string, string)>)

  datatype Action = Allow | Rescale | Block

  datatype Reason =
    | NonPositiveQty
    | RiskReducingSell
    | DrawdownBreaker
    | WithinLimits
    | SectorConcentrationCap
    | GrossExposureCap
    | SymbolConcentrationCap
    | BookNotionalCap

  datatype Decision = Decision(bookId: int, symbol: string, side: string, action: Action, reason: Reason,
                               requestedQty: real, approvedQty: real,
                               requestedNotional: real, approvedNotional: real)

  datatype GateResult = GateResult(approvedIntents: seq<Intent>, decisions: seq<Decision>,
                                   allowedCount: nat, rescaledCount: nat, blockedCount: nat,
                                   grossBefore: real, grossAfter: real)

  datatype ConfigError =
    | BadBookNotionalPct
    | BadSymbolConcentrationPct
    | BadAccountGrossExposure
    | BadSectorConcentrationPct

  const UNCATEGORIZED_SECTOR := "uncategorized"

  // ---------------------------------------------------------------- inputs

  function NormalSymbol(symbol: string): string {
    Strip(Upper(symbol))
  }

  function NormalSide(side: string): string {
    Strip(Lower(side))
  }

  /** Keys that normalise to the same symbol overwrite one another, last one first. */
  function NormalSectors(pairs: seq<(string, string)>): map<string, string> {
    if pairs == [] then map[] else
      var last := pairs[|pairs| - 1];
      NormalSectors(pairs[..|pairs| - 1])[NormalSymbol(last.0) := last.1]
  }

  function ResolveSector(symbol: string, sectors: map<string, string>): Option<string> {
    var key := NormalSymbol(symbol);
    if key !in sectors then None else
      var sector := Lower(Strip(sectors[key]));
      if sector == "" then None else Some(sector)
  }

  function BreakerTripped(drawdownPct: Option<real>, maxDrawdownPct: real): bool {
    drawdownPct.Some? && drawdownPct.value <= -Abs(maxDrawdownPct)
  }

  /** Distance below the historical peak, in percent; none when there is no equity. */
  function PointInTimeDrawdown(totalEquity: real, peakEquity: Option<real>): Option<real> {
    if totalEquity <= 0.0 then None else
      var peak := if peakEquity.Some? then Max(peakEquity.value, totalEquity) else totalEquity;
      if peak <= 0.0 then None else Some((totalEquity / peak - 1.0) * 100.0)
  }

  function CheckConfig(c: Config): Option<ConfigError> {
    if c.maxBookNotionalPct <= 0.0 then Some(BadBookNotionalPct)
    else if c.maxSymbolConcentrationPct <= 0.0 then Some(BadSymbolConcentrationPct)
    else if c.maxAccountGrossExposure <= 0.0 then Some(BadAccountGrossExposure)
    else if c.maxSectorConcentrationPct <= 0.0 then Some(BadSectorConcentrationPct)
    else None
  }

  /** The sector a symbol is charged to: none when no sector map is configured. */
  function SectorBucket(sectors: map<string, string>, symbol: string): Option<string> {
    if sectors == map[] then None
    else Some(ResolveSector(symbol, sectors).GetOr(UNCATEGORIZED_SECTOR))
  }

  /** What one evaluation holds fixed. */
  datatype Limits = Limits(bookPct: real, equity: map<int, real>, grossCap: real, symbolCap: real, sectorCap: real,
                           sectorLimitsOn: bool, bucket: string -> Option<string>, buysHalted: bool)
  {
    ghost predicate Valid() {
      forall s :: bucket(s).Some? == sectorLimitsOn
    }

    function BookCap(bookId: int): real {
      Get(equity, bookId) * bookPct
    }
  }

  function LimitsAt(totalEquity: real, equity: map<int, real>, c: Config, drawdownPct: Option<real>): (g: Limits)
    ensures g.Valid()
  {
    var sectors := NormalSectors(c.symbolSectors);
    Limits(c.maxBookNotionalPct, equity, totalEquity * c.maxAccountGrossExposure,
           totalEquity * c.maxSymbolConcentrationPct, totalEquity * c.maxSectorConcentrationPct,
           sectors != map[], s => SectorBucket(sectors, s), BreakerTripped(drawdownPct, c.maxDrawdownPct))
  }

  ghost function LimitsOf(equity: map<int, real>, c: Config, drawdownPct: Option<real>): Limits {
    LimitsAt(Total(equity), equity, c, drawdownPct)
  }

  // --------------------------------------------------------------- ledgers

  datatype Ledgers = Ledgers(gross: real, symbol: map<string, real>, sector: map<string, real>,
                             book: map<(int, string), real>)

  /** Adds to the sector ledger when sector limits are on. */
  function AddSector(sector: map<string, real>, bucket: Option<string>, amount: real): map<string, real> {
    match bucket
    case None => sector
    case Some(s) => sector[s := Get(sector, s) + amount]
  }

  /** The starting ledgers: a repeated (book, symbol) row overwrites, all else adds up. */
  function Seed(g: Limits, positions: seq<Position>): Ledgers {
    if positions == [] then Ledgers(0.0, map[], map[], map[]) else
      var l := Seed(g, positions[..|positions| - 1]);
      var pos := positions[|positions| - 1];
      var exposure := Abs(pos.marketValue);
      Ledgers(l.gross + exposure,
              l.symbol[pos.symbol := Get(l.symbol, pos.symbol) + exposure],
              AddSector(l.sector, g.bucket(pos.symbol), exposure),
              l.book[(pos.bookId, pos.symbol) := exposure])
  }

  function Charge(g: Limits, l: Ledgers, bookId: int, symbol: string, amount: real): Ledgers {
    Ledgers(l.gross + amount,
            l.symbol[symbol := Get(l.symbol, symbol) + amount],
            AddSector(l.sector, g.bucket(symbol), amount),
            l.book[(bookId, symbol) := Get(l.book, (bookId, symbol)) + amount])
  }

  /** Takes a sell off every ledger, none of them below zero. */
  function Release(g: Limits, l: Ledgers, bookId: int, symbol: string, notional: real): Ledgers {
    var delta := Min(Get(l.symbol, symbol), notional);
    Ledgers(Max(0.0, l.gross - delta),
            l.symbol[symbol := Max(0.0, Get(l.symbol, symbol) - delta)],
            match g.bucket(symbol) {
              case None => l.sector
              case Some(s) => l.sector[s := Max(0.0, Get(l.sector, s) - delta)]
            },
            l.book[(bookId, symbol) := Max(0.0, Get(l.book, (bookId, symbol)) - delta)])
  }

  // ---------------------------------------------------------------- sizing

  /** Room left under each cap; `sector` is none when sector limits are off. */
  datatype Rooms = Rooms(book: real, symbol: real, gross: real, sector: Option<real>)

  function RoomsFor(g: Limits, l: Ledgers, bookId: int, symbol: string): Rooms {
    Rooms(Max(0.0, g.BookCap(bookId) - Get(l.book, (bookId, symbol))),
          Max(0.0, g.symbolCap - Get(l.symbol, symbol)),
          Max(0.0, g.grossCap - l.gross),
          match g.bucket(symbol)
          case None => None
          case Some(s) => Some(Max(0.0, g.sectorCap - Get(l.sector, s))))
  }

  function Notional(qty: real, price: real): real {
    qty * price
  }

  function SizedNotional(requested: real, r: Rooms): real {
    var m := Min(Min(Min(requested, r.book), r.symbol), r.gross);
    if r.sector.Some? then Min(m, r.sector.value) else m
  }

  function StepOf(intent: Intent): real {
    if intent.quantityStep > 0.0 then intent.quantityStep else 1.0
  }

  function GridPoint(n: int, step: real): real {
    n as real * step
  }

  /** The sized quantity, floored to the step grid. */
  function MaxQty(notional: real, price: real, step: real): real
    requires step > 0.0
  {
    if price > 0.0 then GridPoint((notional / price / step).Floor, step) else 0.0
  }

  /** The caps in tie order, each with its room; none stands for unlimited room. */
  function CapList(r: Rooms): seq<(Reason, Option<real>)> {
    [(SectorConcentrationCap, r.sector), (GrossExposureCap, Some(r.gross)),
     (SymbolConcentrationCap, Some(r.symbol)), (BookNotionalCap, Some(r.book))]
  }

  predicate RoomBelow(a: Option<real>, b: Option<real>) {
    a.Some? && (b.None? || a.value < b.value)
  }

  /** The head of the list after a stable sort by room. */
  function LeastRoom(caps: seq<(Reason, Option<real>)>): (i: nat)
    requires caps != []
    ensures i < |caps|
    ensures forall j :: 0 <= j < |caps| ==> !RoomBelow(caps[j].1, caps[i].1)
    ensures forall j :: 0 <= j < i ==> RoomBelow(caps[i].1, caps[j].1)
  {
    if |caps| == 1 then 0 else
      var i := LeastRoom(caps[..|caps| - 1]);
      if RoomBelow(caps[|caps| - 1].1, caps[i].1) then |caps| - 1 else i
  }

  function BlockingReason(r: Rooms): Reason {
    CapList(r)[LeastRoom(CapList(r))].0
  }

  // ------------------------------------------------------------- one intent

  function Verdict(intent: Intent, action: Action, reason: Reason, qty: real, notional: real): Decision {
    Decision(intent.bookId, NormalSymbol(intent.symbol), NormalSide(intent.side), action, reason,
             intent.qty, qty, Notional(intent.qty, intent.requestedPrice), notional)
  }

  predicate IsSell(intent: Intent) {
    intent.qty > 0.0 && NormalSide(intent.side) == "sell"
  }

  /** A buy that reaches the caps. */
  predicate IsSizedBuy(g: Limits, intent: Intent) {
    intent.qty > 0.0 && NormalSide(intent.side) != "sell" && !g.buysHalted
  }

  function IntentRooms(g: Limits, l: Ledgers, intent: Intent): Rooms {
    RoomsFor(g, l, intent.bookId, NormalSymbol(intent.symbol))
  }

  /** The sized quantity of a buy, on its step grid. */
  function GridQty(g: Limits, l: Ledgers, intent: Intent): real {
    MaxQty(SizedNotional(Notional(intent.qty, intent.requestedPrice), IntentRooms(g, l, intent)),
           intent.requestedPrice, StepOf(intent))
  }

  /** What becomes of a buy whose sized quantity is `maxQty`. */
  function SettleBuy(intent: Intent, rooms: Rooms, maxQty: real): Decision {
    var qty := Min(intent.qty, maxQty);
    if maxQty <= 0.0 then Verdict(intent, Block, BlockingReason(rooms), 0.0, 0.0)
    else if qty < intent.qty then
      Verdict(intent, Rescale, BlockingReason(rooms), qty, Notional(qty, intent.requestedPrice))
    else
      Verdict(intent, Allow, WithinLimits, qty, Notional(qty, intent.requestedPrice))
  }

  function DecideBuy(g: Limits, l: Ledgers, intent: Intent): Decision {
    SettleBuy(intent, IntentRooms(g, l, intent), GridQty(g, l, intent))
  }

  function Decide(g: Limits, l: Ledgers, intent: Intent): Decision {
    var notional := Notional(intent.qty, intent.requestedPrice);
    if intent.qty <= 0.0 then Verdict(intent, Block, NonPositiveQty, 0.0, 0.0)
    else if NormalSide(intent.side) == "sell" then Verdict(intent, Allow, RiskReducingSell, intent.qty, notional)
    else if g.buysHalted then Verdict(intent, Block, DrawdownBreaker, 0.0, 0.0)
    else DecideBuy(g, l, intent)
  }

  function Post(g: Limits, l: Ledgers, intent: Intent): Ledgers {
    var d := Decide(g, l, intent);
    if d.action.Block? then l
    else if IsSell(intent) then Release(g, l, d.bookId, d.symbol, d.requestedNotional)
    else Charge(g, l, d.bookId, d.symbol, d.approvedNotional)
  }

  // ---------------------------------------------------------------- the run

  /** The ledgers after the intents of a list, in order. */
  function After(g: Limits, l: Ledgers, intents: seq<Intent>): Ledgers {
    if intents == [] then l else
      Post(g, After(g, l, intents[..|intents| - 1]), intents[|intents| - 1])
  }

  function Decisions(g: Limits, l: Ledgers, intents: seq<Intent>): (ds: seq<Decision>)
    ensures |ds| == |intents|
  {
    if intents == [] then [] else
      var before := intents[..|intents| - 1];
      Decisions(g, l, before) + [Decide(g, After(g, l, before), intents[|intents| - 1])]
  }

  function Count(ds: seq<Decision>, action: Action): nat {
    if ds == [] then 0 else
      Count(ds[..|ds| - 1], action) + if ds[|ds| - 1].action == action then 1 else 0
  }

  /** The intents that were not blocked, in order, at their approved quantities. */
  function Approved(intents: seq<Intent>, ds: seq<Decision>): seq<Intent>
    requires |intents| == |ds|
  {
    if intents == [] then [] else
      var n := |intents| - 1;
      Approved(intents[..n], ds[..n]) +
      if ds[n].action.Block? then [] else [intents[n].(qty := ds[n].approvedQty)]
  }

  /** An allowed intent passes through at exactly the quantity it asked for. */
  lemma AllowKeepsQty(g: Limits, l: Ledgers, intent: Intent)
    ensures Decide(g, l, intent).action.Allow? ==> Decide(g, l, intent).approvedQty == intent.qty
    ensures Decide(g, l, intent).action.Rescale? ==> 0.0 < Decide(g, l, intent).approvedQty < intent.qty
  {
  }

  // ------------------------------------------------------------ the methods

  method SeedLedgers(g: Limits, positions: seq<Position>) returns (l: Ledgers)
    ensures l == Seed(g, positions)
  {
    var symbolExposure: map<string, real>, sectorExposure: map<string, real> := map[], map[];
    var bookExposure: map<(int, string), real> := map[];
    var gross := 0.0;
    for i := 0 to |positions|
      invariant Ledgers(gross, symbolExposure, sectorExposure, bookExposure) == Seed(g, positions[..i])
    {
      var pos := positions[i];
      assert positions[..i + 1][..i] == positions[..i];
      var exposure := Abs(pos.marketValue);
      gross := gross + exposure;
      symbolExposure := symbolExposure[pos.symbol := Get(symbolExposure, pos.symbol) + exposure];
      sectorExposure := AddSector(sectorExposure, g.bucket(pos.symbol), exposure);
      bookExposure := bookExposure[(pos.bookId, pos.symbol) := exposure];
    }
    assert positions[..|positions|] == positions;
    l := Ledgers(gross, symbolExposure, sectorExposure, bookExposure);
  }

  /** The verdict on a buy that reached the caps. */
  method SizeBuy(intent: Intent, rooms: Rooms, maxQty: real) returns (d: Decision)
    ensures d == SettleBuy(intent, rooms, maxQty)
  {
    var symbol, side := NormalSymbol(intent.symbol), NormalSide(intent.side);
    var notional := Notional(intent.qty, intent.requestedPrice);
    if maxQty <= 0.0 {
      return Decision(intent.bookId, symbol, side, Block, BlockingReason(rooms), intent.qty, 0.0, notional, 0.0);
    }
    var qty := Min(intent.qty, maxQty);
    var cost := Notional(qty, intent.requestedPrice);
    if qty < intent.qty {
      return Decision(intent.bookId, symbol, side, Rescale, BlockingReason(rooms), intent.qty, qty, notional, cost);
    }
    return Decision(intent.bookId, symbol, side, Allow, WithinLimits, intent.qty, qty, notional, cost);
  }

  /** A sell's effect on the four ledgers. */
  method ReleaseSell(g: Limits, before: Ledgers, bookId: int, symbol: string, notional: real) returns (after: Ledgers)
    ensures after == Release(g, before, bookId, symbol, notional)
  {
    var Ledgers(gross, symbolExposure, sectorExposure, bookExposure) := before;
    var key, bucket := (bookId, symbol), g.bucket(symbol);
    var delta := Min(Get(symbolExposure, symbol), notional);
    gross := Max(0.0, gross - delta);
    symbolExposure := symbolExposure[symbol := Max(0.0, Get(symbolExposure, symbol) - delta)];
    if bucket.Some? {
      sectorExposure := sectorExposure[bucket.value := Max(0.0, Get(sectorExposure, bucket.value) - delta)];
    }
    bookExposure := bookExposure[key := Max(0.0, Get(bookExposure, key) - delta)];
    after := Ledgers(gross, symbolExposure, sectorExposure, bookExposure);
  }

  /** An approved buy's effect on the four ledgers. */
  method ChargeBuy(g: Limits, before: Ledgers, bookId: int, symbol: string, cost: real) returns (after: Ledgers)
    ensures after == Charge(g, before, bookId, symbol, cost)
  {
    var Ledgers(gross, symbolExposure, sectorExposure, bookExposure) := before;
    var key, bucket := (bookId, symbol), g.bucket(symbol);
    gross := gross + cost;
    symbolExposure := symbolExposure[symbol := Get(symbolExposure, symbol) + cost];
    if bucket.Some? {
      sectorExposure := sectorExposure[bucket.value := Get(sectorExposure, bucket.value) + cost];
    }
    bookExposure := bookExposure[key := Get(bookExposure, key) + cost];
    after := Ledgers(gross, symbolExposure, sectorExposure, bookExposure);
  }

  /** One turn of the gate's loop: decide, then move the ledgers. */
  method ProcessIntent(g: Limits, before: Ledgers, intent: Intent) returns (after: Ledgers, d: Decision)
    ensures d == Decide(g, before, intent)
    ensures after == Post(g, before, intent)
  {
    var symbol, side := NormalSymbol(intent.symbol), NormalSide(intent.side);
    var notional := Notional(intent.qty, intent.requestedPrice);
    if intent.qty <= 0.0 {
      d := Decision(intent.bookId, symbol, side, Block, NonPositiveQty, intent.qty, 0.0, notional, 0.0);
      return before, d;
    }
    if side == "sell" {
      d := Decision(intent.bookId, symbol, side, Allow, RiskReducingSell, intent.qty, intent.qty, notional, notional);
      after := ReleaseSell(g, before, intent.bookId, symbol, notional);
      return after, d;
    }
    if g.buysHalted {
      d := Decision(intent.bookId, symbol, side, Block, DrawdownBreaker, intent.qty, 0.0, notional, 0.0);
      return before, d;
    }
    var rooms := RoomsFor(g, before, intent.bookId, symbol);
    var maxQty := GridQty(g, before, intent);
    d := SizeBuy(intent, rooms, maxQty);
    if d.action.Block? {
      return before, d;
    }
    after := ChargeBuy(g, before, intent.bookId, symbol, d.approvedNotional);
  }

  lemma NextTurn(g: Limits, l: Ledgers, intents: seq<Intent>, i: nat, next: nat)
    requires next == i + 1 <= |intents|
    ensures var now := After(g, l, intents[..i]);
            && After(g, l, intents[..next]) == Post(g, now, intents[i])
            && Decisions(g, l, intents[..next]) == Decisions(g, l, intents[..i]) + [Decide(g, now, intents[i])]
  {
    assert intents[..next][..i] == intents[..i];
  }

  lemma NextVerdict(intents: seq<Intent>, ds: seq<Decision>, d: Decision, i: nat, next: nat)
    requires next == i + 1 <= |intents| && |ds| == i
    ensures Approved(intents[..next], ds + [d])
         == Approved(intents[..i], ds) + if d.action.Block? then [] else [intents[i].(qty := d.approvedQty)]
    ensures forall action :: Count(ds + [d], action) == Count(ds, action) + if d.action == action then 1 else 0
  {
    assert intents[..next][..i] == intents[..i] && (ds + [d])[..i] == ds;
  }

  /** What one verdict adds to the approved list and the counters. */
  method Tally(intent: Intent, d: Decision, allowed: nat, rescaled: nat, blocked: nat)
    returns (passed: seq<Intent>, allowed': nat, rescaled': nat, blocked': nat)
    requires d.action.Allow? ==> d.approvedQty == intent.qty
    ensures passed == if d.action.Block? then [] else [intent.(qty := d.approvedQty)]
    ensures allowed' == allowed + if d.action == Allow then 1 else 0
    ensures rescaled' == rescaled + if d.action == Rescale then 1 else 0
    ensures blocked' == blocked + if d.action == Block then 1 else 0
  {
    passed, allowed', rescaled', blocked' := [], allowed, rescaled, blocked;
    match d.action {
      case Block => blocked' := blocked + 1;
      case Rescale => rescaled', passed := rescaled + 1, [intent.(qty := d.approvedQty)];
      case Allow => allowed', passed := allowed + 1, [intent];
    }
  }

  /** The gate's loop over the intents of one evaluation. */
  method GateIntents(g: Limits, seed: Ledgers, intents: seq<Intent>)
    returns (approved: seq<Intent>, decisions: seq<Decision>,
             allowed: nat, rescaled: nat, blocked: nat, grossAfter: real)
    ensures decisions == Decisions(g, seed, intents)
    ensures approved == Approved(intents, decisions)
    ensures allowed == Count(decisions, Allow)
    ensures rescaled == Count(decisions, Rescale)
    ensures blocked == Count(decisions, Block)
    ensures grossAfter == After(g, seed, intents).gross
  {
    approved, decisions, allowed, rescaled, blocked := [], [], 0, 0, 0;
    var now := seed;
    for i := 0 to |intents|
      invariant now == After(g, seed, intents[..i])
      invariant decisions == Decisions(g, seed, intents[..i])
      invariant approved == Approved(intents[..i], decisions)
      invariant allowed == Count(decisions, Allow)
      invariant rescaled == Count(decisions, Rescale)
      invariant blocked == Count(decisions, Block)
    {
      var after, d := ProcessIntent(g, now, intents[i]);
      AllowKeepsQty(g, now, intents[i]);
      NextTurn(g, seed, intents, i, i + 1);
      NextVerdict(intents, decisions, d, i, i + 1);
      var passed;
      passed, allowed, rescaled, blocked := Tally(intents[i], d, allowed, rescaled, blocked);
      approved, decisions, now := approved + passed, decisions + [d], after;
    }
    assert intents[..|intents|] == intents;
    grossAfter := now.gross;
  }
}
