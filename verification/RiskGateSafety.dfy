/** What the risk gate keeps over every list of intents. */
module RiskGateSafety {
  import opened Outcomes
  import opened Reals
  import opened Sums
  import opened RiskGate

  // ----------------------------------------------- conservation of exposure

  ghost predicate NonNegative<K(!new)>(m: map<K, real>) {
    forall k :: Get(m, k) >= 0.0
  }

  lemma PutNonNegative<K(!new)>(m: map<K, real>, k: K, v: real)
    requires NonNegative(m) && v >= 0.0
    ensures NonNegative(m[k := v])
  {
    var m' := m[k := v];
    forall x
      ensures Get(m', x) >= 0.0
    {
      assert Get(m, x) >= 0.0;
    }
  }

  /** The symbol exposure that is charged to one sector. */
  ghost function SectorShare(g: Limits, symbol: map<string, real>, sector: string): real {
    TotalWhere(symbol, k => g.bucket(k) == Some(sector))
  }

  /** Gross exposure is the sum of the symbols, and each sector is the sum of its own symbols. */
  ghost predicate Conserved(g: Limits, l: Ledgers) {
    && NonNegative(l.symbol)
    && NonNegative(l.book)
    && l.gross == Total(l.symbol)
    && (!g.sectorLimitsOn ==> l.sector == map[])
    && (g.sectorLimitsOn ==> l.gross == Total(l.sector))
    && (g.sectorLimitsOn ==> forall s :: Get(l.sector, s) == SectorShare(g, l.symbol, s))
  }

  lemma TotalBounds<K(!new)>(m: map<K, real>)
    requires NonNegative(m)
    ensures Total(m) >= 0.0
    ensures forall k :: Get(m, k) <= Total(m)
  {
    SumBounds(m.Keys, k => Get(m, k));
  }

  /** `after` is `before` with `x` moved through symbol `s` of every account-scoped ledger. */
  ghost predicate Shifted(g: Limits, before: Ledgers, after: Ledgers, s: string, x: real) {
    && g.bucket(s).Some? == g.sectorLimitsOn
    && after.gross == before.gross + x
    && after.symbol == before.symbol[s := Get(before.symbol, s) + x]
    && after.sector == AddSector(before.sector, g.bucket(s), x)
    && Get(after.symbol, s) >= 0.0
    && NonNegative(after.book)
  }

  lemma ShareUpdate(g: Limits, m: map<string, real>, m': map<string, real>, s: string, sec: string)
    requires s in m' && m' == m[s := m'[s]]
    ensures SectorShare(g, m', sec)
         == SectorShare(g, m, sec) + (if g.bucket(s) == Some(sec) then m'[s] - Get(m, s) else 0.0)
  {
    TotalWhereUpdate(m, k => g.bucket(k) == Some(sec), s, m'[s]);
  }

  lemma ShareBounds(g: Limits, m: map<string, real>, sec: string)
    requires NonNegative(m)
    ensures SectorShare(g, m, sec) >= 0.0
    ensures forall k :: g.bucket(k) == Some(sec) ==> Get(m, k) <= SectorShare(g, m, sec)
  {
    TotalWhereBounds(m, k => g.bucket(k) == Some(sec));
  }

  lemma ShiftSector(g: Limits, before: Ledgers, after: Ledgers, s: string, x: real, sec: string)
    requires Shifted(g, before, after, s, x) && g.sectorLimitsOn
    requires Get(before.sector, sec) == SectorShare(g, before.symbol, sec)
    ensures Get(after.sector, sec) == SectorShare(g, after.symbol, sec)
  {
    ShareUpdate(g, before.symbol, after.symbol, s, sec);
  }

  lemma ShiftKeepsSectors(g: Limits, before: Ledgers, after: Ledgers, s: string, x: real)
    requires Conserved(g, before) && Shifted(g, before, after, s, x) && g.sectorLimitsOn
    ensures Total(after.sector) == Total(before.sector) + x
    ensures forall sec :: Get(after.sector, sec) == SectorShare(g, after.symbol, sec)
  {
    var bucket := g.bucket(s).value;
    TotalUpdate(before.sector, bucket, Get(before.sector, bucket) + x);
    forall sec
      ensures Get(after.sector, sec) == SectorShare(g, after.symbol, sec)
    {
      ShiftSector(g, before, after, s, x, sec);
    }
  }

  lemma ShiftConserves(g: Limits, before: Ledgers, after: Ledgers, s: string, x: real)
    requires Conserved(g, before) && Shifted(g, before, after, s, x)
    ensures Conserved(g, after)
  {
    TotalUpdate(before.symbol, s, Get(before.symbol, s) + x);
    PutNonNegative(before.symbol, s, Get(before.symbol, s) + x);
    if g.sectorLimitsOn {
      ShiftKeepsSectors(g, before, after, s, x);
    }
  }

  lemma {:induction false} SeedConserves(g: Limits, positions: seq<Position>)
    requires g.Valid()
    ensures Conserved(g, Seed(g, positions))
  {
    if positions != [] {
      var n := |positions| - 1;
      SeedConserves(g, positions[..n]);
      var x := Abs(positions[n].marketValue);
      var before, after := Seed(g, positions[..n]), Seed(g, positions);
      assert Get(before.symbol, positions[n].symbol) >= 0.0;
      PutNonNegative(before.book, (positions[n].bookId, positions[n].symbol), x);
      ShiftConserves(g, before, after, positions[n].symbol, x);
    } else {
      assert forall s :: SectorShare(g, map[], s) == 0.0;
    }
  }

  /** A sell takes no more than there is in gross, the symbol and its sector. */
  lemma SellIsCovered(g: Limits, l: Ledgers, s: string, notional: real)
    requires Conserved(g, l) && g.bucket(s).Some? == g.sectorLimitsOn
    ensures var delta := Min(Get(l.symbol, s), notional);
            && l.gross - delta >= 0.0
            && Get(l.symbol, s) - delta >= 0.0
            && (g.bucket(s).Some? ==> Get(l.sector, g.bucket(s).value) - delta >= 0.0)
  {
    TotalBounds(l.symbol);
    if g.sectorLimitsOn {
      var bucket := g.bucket(s).value;
      ShareBounds(g, l.symbol, bucket);
      assert Get(l.sector, bucket) == SectorShare(g, l.symbol, bucket);
    }
  }

  /** The floors at zero on the account-scoped ledgers never change a sell's effect. */
  lemma SellFloorsAreInert(g: Limits, l: Ledgers, bookId: int, s: string, notional: real)
    requires Conserved(g, l) && g.bucket(s).Some? == g.sectorLimitsOn
    ensures var delta := Min(Get(l.symbol, s), notional);
            && l.gross - delta >= 0.0
            && Get(l.symbol, s) - delta >= 0.0
            && (g.bucket(s).Some? ==> Get(l.sector, g.bucket(s).value) - delta >= 0.0)
            && Shifted(g, l, Release(g, l, bookId, s, notional), s, -delta)
  {
    SellIsCovered(g, l, s, notional);
    CoveredSellShifts(g, l, bookId, s, notional, Min(Get(l.symbol, s), notional));
  }

  lemma CoveredSellShifts(g: Limits, l: Ledgers, bookId: int, s: string, notional: real, delta: real)
    requires delta == Min(Get(l.symbol, s), notional) && NonNegative(l.book) && g.bucket(s).Some? == g.sectorLimitsOn
    requires l.gross - delta >= 0.0 && Get(l.symbol, s) - delta >= 0.0
    requires g.bucket(s).Some? ==> Get(l.sector, g.bucket(s).value) - delta >= 0.0
    ensures Shifted(g, l, Release(g, l, bookId, s, notional), s, -delta)
  {
    var key := (bookId, s);
    PutNonNegative(l.book, key, Max(0.0, Get(l.book, key) - delta));
  }

  /** An approved buy has a positive price, quantity and cost. */
  lemma ApprovedBuyIsPositive(g: Limits, l: Ledgers, intent: Intent)
    requires IsSizedBuy(g, intent) && !Decide(g, l, intent).action.Block?
    ensures intent.requestedPrice > 0.0
    ensures Decide(g, l, intent).approvedQty > 0.0
    ensures Decide(g, l, intent).approvedNotional == Notional(Decide(g, l, intent).approvedQty, intent.requestedPrice) > 0.0
  {
  }

  lemma ReleaseConserves(g: Limits, l: Ledgers, bookId: int, s: string, notional: real)
    requires Conserved(g, l) && g.bucket(s).Some? == g.sectorLimitsOn
    ensures Conserved(g, Release(g, l, bookId, s, notional))
  {
    SellFloorsAreInert(g, l, bookId, s, notional);
    ShiftConserves(g, l, Release(g, l, bookId, s, notional), s, -Min(Get(l.symbol, s), notional));
  }

  lemma ChargeConserves(g: Limits, l: Ledgers, bookId: int, s: string, amount: real)
    requires Conserved(g, l) && g.bucket(s).Some? == g.sectorLimitsOn && amount >= 0.0
    ensures Conserved(g, Charge(g, l, bookId, s, amount))
  {
    var key := (bookId, s);
    assert Get(l.book, key) >= 0.0 && Get(l.symbol, s) >= 0.0;
    PutNonNegative(l.book, key, Get(l.book, key) + amount);
    ShiftConserves(g, l, Charge(g, l, bookId, s, amount), s, amount);
  }

  lemma PostConserves(g: Limits, l: Ledgers, intent: Intent)
    requires Conserved(g, l) && g.bucket(NormalSymbol(intent.symbol)).Some? == g.sectorLimitsOn
    ensures Conserved(g, Post(g, l, intent))
  {
    var d := Decide(g, l, intent);
    if d.action.Block? {
    } else if IsSell(intent) {
      ReleaseConserves(g, l, d.bookId, d.symbol, d.requestedNotional);
    } else {
      ApprovedBuyIsPositive(g, l, intent);
      ChargeConserves(g, l, d.bookId, d.symbol, d.approvedNotional);
    }
  }

  /** Conservation holds after every prefix of every list of intents. */
  lemma {:induction false} RunConserves(g: Limits, positions: seq<Position>, intents: seq<Intent>)
    requires g.Valid()
    ensures Conserved(g, After(g, Seed(g, positions), intents))
  {
    if intents == [] {
      SeedConserves(g, positions);
    } else {
      var n := |intents| - 1;
      RunConserves(g, positions, intents[..n]);
      PostConserves(g, After(g, Seed(g, positions), intents[..n]), intents[n]);
    }
  }

  // ----------------------------------------------- books cover their symbols

  /** The exposure that all books together hold in one symbol. */
  ghost function BookShare(book: map<(int, string), real>, s: string): real {
    TotalWhere(book, (k: (int, string)) => k.1 == s)
  }

  ghost predicate BooksCover(l: Ledgers) {
    forall s :: Get(l.symbol, s) <= BookShare(l.book, s)
  }

  /** No row with exposure is followed by another row of the same book and symbol. */
  ghost predicate NoShadowedRow(positions: seq<Position>) {
    forall i, j :: 0 <= i < j < |positions| && SameRow(positions[i], positions[j]) ==> positions[i].marketValue == 0.0
  }

  predicate SameRow(p: Position, q: Position) {
    p.bookId == q.bookId && p.symbol == q.symbol
  }

  lemma BookShareUpdate(book: map<(int, string), real>, book': map<(int, string), real>, key: (int, string), s: string)
    requires key in book' && book' == book[key := book'[key]]
    ensures BookShare(book', s) == BookShare(book, s) + (if key.1 == s then book'[key] - Get(book, key) else 0.0)
  {
    TotalWhereUpdate(book, (k: (int, string)) => k.1 == s, key, book'[key]);
  }

  /** A starting book entry is the exposure of the last row of its book and symbol. */
  lemma {:induction false} SeedBookEntry(g: Limits, positions: seq<Position>, row: Position)
    requires NoShadowedRow(positions)
    ensures var entry := Get(Seed(g, positions).book, (row.bookId, row.symbol));
            && entry >= 0.0
            && (entry == 0.0 <==>
                forall i :: 0 <= i < |positions| && SameRow(positions[i], row) ==> positions[i].marketValue == 0.0)
  {
    if positions != [] {
      var n := |positions| - 1;
      SeedBookEntry(g, positions[..n], row);
      assert forall i :: 0 <= i < n ==> positions[..n][i] == positions[i];
    }
  }

  /** How far a symbol's account exposure exceeds what its books hold. */
  ghost function Gap(l: Ledgers, s: string): real {
    Get(l.symbol, s) - BookShare(l.book, s)
  }

  lemma SeedGapStep(g: Limits, positions: seq<Position>, s: string)
    requires positions != []
    ensures var n := |positions| - 1;
            var row := positions[n];
            var before := Seed(g, positions[..n]);
            var overwritten := if row.symbol == s then Get(before.book, (row.bookId, s)) else 0.0;
            Gap(Seed(g, positions), s) == Gap(before, s) + overwritten
  {
    var n := |positions| - 1;
    BookShareUpdate(Seed(g, positions[..n]).book, Seed(g, positions).book, (positions[n].bookId, positions[n].symbol), s);
  }

  lemma {:induction false} SeedGapNonNegative(g: Limits, positions: seq<Position>, s: string)
    ensures Gap(Seed(g, positions), s) >= 0.0
    ensures forall b :: Get(Seed(g, positions).book, (b, s)) >= 0.0
  {
    if positions != [] {
      SeedGapNonNegative(g, positions[..|positions| - 1], s);
      SeedGapStep(g, positions, s);
    }
  }

  /** At the start, books cover their symbols exactly when no row with exposure is overwritten. */
  lemma {:induction false} SeedCoverExact(g: Limits, positions: seq<Position>)
    ensures BooksCover(Seed(g, positions)) <==> NoShadowedRow(positions)
  {
    if positions != [] {
      var n := |positions| - 1;
      var before, row := positions[..n], positions[n];
      var now := Seed(g, positions);
      SeedCoverExact(g, before);
      assert forall i :: 0 <= i < n ==> before[i] == positions[i];
      forall s
        ensures Get(now.symbol, s) <= BookShare(now.book, s) <==>
                Get(Seed(g, before).symbol, s) <= BookShare(Seed(g, before).book, s)
                && (row.symbol == s ==> Get(Seed(g, before).book, (row.bookId, s)) == 0.0)
      {
        SeedGapStep(g, positions, s);
        SeedGapNonNegative(g, before, s);
      }
      if NoShadowedRow(before) {
        SeedBookEntry(g, before, row);
      }
    }
  }

  lemma PostKeepsCover(g: Limits, l: Ledgers, intent: Intent)
    requires BooksCover(l)
    ensures BooksCover(Post(g, l, intent))
  {
    var d := Decide(g, l, intent);
    var after := Post(g, l, intent);
    if !d.action.Block? {
      var key := (d.bookId, d.symbol);
      forall s
        ensures Get(after.symbol, s) <= BookShare(after.book, s)
      {
        assert Get(l.symbol, s) <= BookShare(l.book, s);
        BookShareUpdate(l.book, after.book, key, s);
      }
    }
  }

  lemma {:induction false} RunKeepsCover(g: Limits, l: Ledgers, intents: seq<Intent>)
    requires BooksCover(l)
    ensures BooksCover(After(g, l, intents))
  {
    if intents != [] {
      RunKeepsCover(g, l, intents[..|intents| - 1]);
      PostKeepsCover(g, After(g, l, intents[..|intents| - 1]), intents[|intents| - 1]);
    }
  }

  /** Books cover their symbols after every prefix exactly when no starting row is overwritten. */
  lemma BookCoverExact(g: Limits, positions: seq<Position>, intents: seq<Intent>)
    ensures (forall k :: 0 <= k <= |intents| ==> BooksCover(After(g, Seed(g, positions), intents[..k])))
       <==> NoShadowedRow(positions)
  {
    SeedCoverExact(g, positions);
    if NoShadowedRow(positions) {
      forall k | 0 <= k <= |intents|
        ensures BooksCover(After(g, Seed(g, positions), intents[..k]))
      {
        RunKeepsCover(g, Seed(g, positions), intents[..k]);
      }
    } else {
      assert !BooksCover(After(g, Seed(g, positions), intents[..0]));
    }
  }
}
