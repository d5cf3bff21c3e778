# Verification of the trading research framework

A Dafny model of the stateful arithmetic at the centre of the repository, with
proofs of what that arithmetic is for. The modules, from the hardest on:

- **Risk gate** (`RiskGate`, `RiskGateSafety`, `RiskGateCaps`, `RiskGateEvaluation`).
  A sequential allocator over four running exposure ledgers and four layered caps.
  Proved: conservation across the ledgers and cap safety at every prefix of every
  intent list, each with its exact condition; and on the arguments of the call, with
  exposures added up from positions and decisions, the granted quantity is the
  largest that fits and the reason names the tightest cap.
- **Backtest engine** (`Accounting`, `Sizing`, `FairShares`, `Simulation`,
  `SimulationEngine`, `BarOutcome`, `SignalInputs`, `LookAhead`, `LiveAgreement`,
  `MarkedRuns`, `Attribution`, `PanelMarks`, `TradeReplay`, `ClosedTrades`,
  `TradeHistory`, `BarDiscipline`, `RoundTrips`, `RunReplay`, `Solvency`). A portfolio
  object mutated bar by bar, refined to a pure step. Proved over whole runs: what
  every bar sells, asks for, funds, leaves and records, from decisions, universe and
  marks; no look-ahead from the tickers' histories to the equity
  curve, equity attribution wherever equity is a number, alternation of trades; and
  under exactly which settings or signals the metrics' replay reproduces every run,
  cash never falls below zero, and equity is a number.
- **Calendar panel and drawdown** (`BarPanel`, `Drawdown`).
- **Walk-forward geometry and search** (`Calendar`, `Windowing`, `SplitLaws`,
  `Compounding`, `CandidateGrid`, `CandidateScore`, `RunTrace`, `WalkForward`,
  `SearchReport`).
  Month arithmetic on the Gregorian calendar over unbounded years, the split
  loop with a closed-form count, the candidate grid as a bijection, winner
  selection, the trace of runs with its failure stages, and the report of a finished
  search run by run.
- **Rate limiter** (`RateLimiter`, `CallPacing`). The object itself, and a state
  machine of many threads taking turns under its lock.
- **Retention, timestamps, documentation fixers** (`BackupRetention`,
  `Timestamps`, `TimestampParsing`, `TimestampForms`, `TextLines`, `MapLines`,
  `LineForms`, `MapDocs`, `MapMeaning`, `SchemaDocs`, `SchemaLaws`, `SchemaMeaning`).
  Each fixer is proved against the checker it must satisfy; what the patterns match is
  stated as the pieces of a line.
- **Shared** (`Outcomes`, `Reals`, `Sums`, `Ordering`, `Text`).

Code that changes things step by step is a method or a class here, proved
against a specification function; the theorems are about those functions.

## Modelling choices

- Floats are exact reals; rounding, infinities and signed zero are not modelled.
  A price that is not a number is an explicit value, because it changes what the
  code does: it poisons the marked value even of a position of zero.
- Text operations (case, trimming, word characters) are those of ASCII.
- Dictionaries that default to zero are maps; reading one enters the key, as the
  code does.
- `Engine`, the backtest a search calls, is any function of the whole trace so
  far: it may answer the same request differently later, or raise.
- `Strategy` is a set of indicator names, any function from a ticker's own bars and
  a name to a series over its own days, and any decision read off a ticker's rows at
  a position. The rows are built as the code builds them: computed on own days,
  then carried onto the shared calendar, with a running count of priced bars. The
  no-look-ahead results ask that an indicator's value on an own day depend on own
  bars up to it (`Causal`; `SignalInputs.RollingIsCausal`) and that a decision read
  rows up to its position (`ReadsPast`); the carrying is proved, not assumed.
- A ticker without inputs is held; the code builds inputs for its whole universe.
- The limiter's clock only moves forward; a sleep lasts at least as long as asked.

## Where the code and its description differ

- `src/trading/domain/risk_gate.py:77-81` says a buy that fits every cap passes
  untouched and that a rescaled one is floored to a whole unit. The code floors
  every buy to the intent's own step (lines 323-324), so an off-grid request is
  cut even when it fits; `RiskGateCaps.CutExactly` states when a buy passes, and
  that the reason code then names a cap that does not bind (`OffGridIsCut`).
- `src/trading/domain/risk_gate.py:227` assigns where the other ledgers add: book
  exposures cover the account's exactly when no row is overwritten
  (`RiskGateSafety.BookCoverExact`).
- A sell is always allowed, and at a negative price it would add exposure
  (`RiskGateCaps.CapSafetyExact`).
- `scripts/data_ops/backup_db.py:83`: a window of zero or of minus one keeps
  everything. Below minus one pruning is not idempotent, and the archives of all
  months still stay (`BackupRetention.IdempotentExactly`, `ArchiveIsPermanent`).
- Slippage is not validated. Above 10000 basis points it records sells at negative
  prices, which the metrics' replay then refuses (`RunReplay.AlwaysReplaysExactly`).
- The sizing fits every buy into cash, but a sell's fee is never checked against it:
  any positive fee can end a run with less than no cash
  (`Solvency.AlwaysSolventExactly`).
- `src/trading/domain/auto_trading/sizing.py:123` divides by the total cost, which is
  zero for some requests when fee and cash are both negative
  (`Sizing.AllocateBuyQuantities`, `FeeCancelsCost`); the engine never makes such requests
  (`SimulationEngine.PortfolioState.ExecuteBuys`).
- A signal for a ticker that has no price yet enters a position of zero whose mark is
  not a number, and no later equity is one until the mark is
  (`MarkedRuns.EquityIsNumberExactly`). The shipped signals wait for thirty priced
  bars.
- The schema fixer appends the row of a missing table again at every run when the name
  is not a word and has no newline or backtick (`SchemaLaws.GrowsAtEveryRun`).
- `src/trading/domain/strategies/indicator_view.py:122-124` says the backtest's carried
  values are what the live path computes. That holds for a strategy that reads the
  current row, when the latest own day has no gap
  (`LiveAgreement.CurrentReadersAlikeExactly`); the moving-average crossover also reads the row before, which on a day
  only others traded is the same row again (`LiveAgreement.LastTwoReadersAlikeExactly`).
- A one-month holdout with an end date on the first of a month starts on its own end
  (`Windowing.HoldoutIsRangeExactly`); no run accepts such a range.

## Model

| member | source | states |
|---|---|---|
| RiskGateEvaluation.EvaluateRiskGate | src/trading/domain/risk_gate.py:170-393 | The whole call in terms of its arguments: an empty list answers with zeros before the configuration is looked at; the first percentage that is not positive is refused; otherwise every decision, the approved list, the counts and both gross exposures are those the equity, percentages, reference data, positions and earlier decisions call for, and when no sell has a negative price every exposure stays at most the larger of its start and its cap, at every prefix. |
| RiskGateEvaluation.LimitsForAccount | src/trading/domain/risk_gate.py:200-214 | The four caps are the sum of the book equities, or one book's equity, times each one's own percentage; sector limits hold exactly when there is reference data. |
| RiskGateEvaluation.BucketIsSector | src/trading/domain/risk_gate.py:161-209 | A symbol is charged to the sector its last reference entry names, trimmed and in lower case, and to the uncategorised one when there is none or it is blank. |
| RiskGateEvaluation.GrantIsLargest | src/trading/domain/risk_gate.py:301-324 | A buy is granted the largest multiple of its step, zero if none, with which gross, the symbol, its sector and the (book, symbol) entry, added up from the positions and the decisions before it, stay within equity times their percentages. |
| RiskGateEvaluation.ReasonIsTightest | src/trading/domain/risk_gate.py:108-131 | The reason names the cap with the least room left by the positions and the decisions before, the first in the order sector, gross, symbol, book among equals. |
| RiskGateEvaluation.CapsStayKept | src/trading/domain/risk_gate.py:237-383 | At every prefix of the decisions gross, every symbol, every sector and every (book, symbol), added up from positions and decisions, is at most the larger of its start and its cap. |
| RiskGateEvaluation.RunIsGated | src/trading/domain/risk_gate.py:230-393 | Decision by decision: refused quantity, released sell, halted buy or largest fit with its reason; the approved list, counts and gross exposures read off the decisions. |
| RiskGateEvaluation.ComplaintIsFirst | src/trading/domain/risk_gate.py:189-198 | The percentage complained about is the first, in the order they are read, that is not positive. |
| RiskGate.SeedLedgers | src/trading/domain/risk_gate.py:216-228 | The four starting ledgers from the positions; a repeated (book, symbol) row overwrites while the other three add. |
| RiskGate.ProcessIntent | src/trading/domain/risk_gate.py:237-383 | One turn of the loop: the verdict on an intent and the ledgers it leaves. |
| RiskGate.SizeBuy | src/trading/domain/risk_gate.py:325-363 | Block, rescale or allow a buy from its sized quantity. |
| RiskGate.ReleaseSell | src/trading/domain/risk_gate.py:261-268 | A sell lowers the four ledgers by one amount, each floored at zero. |
| RiskGate.ChargeBuy | src/trading/domain/risk_gate.py:365-370 | An approved buy raises the four ledgers by its cost. |
| RiskGate.GateIntents | src/trading/domain/risk_gate.py:230-393 | The loop: decisions, approved intents, three counters and final gross exposure together match the specification run. |
| RiskGate.LeastRoom | src/trading/domain/risk_gate.py:124-131 | The head of the stable sort: no cap has less room, and every earlier one in the list has strictly more. |
| RiskGateSafety.RunConserves | src/trading/domain/risk_gate.py:216-228 | After every intent list, gross exposure is the sum of the symbol exposures; with sector limits on it is also the sum of the sector exposures, each of which is the sum of its own symbols. |
| RiskGateSafety.SellFloorsAreInert | src/trading/domain/risk_gate.py:258-268 | On any conserved ledgers the floors at zero on gross, symbol and sector never bite, and a sell moves all three by one amount. |
| RiskGateSafety.SeedCoverExact | src/trading/domain/risk_gate.py:216-228 | The seeded per-book exposures cover every symbol exactly when no row with exposure is overwritten. |
| RiskGateSafety.RunKeepsCover | src/trading/domain/risk_gate.py:258-268 | Covered books stay covered through any intents, buys and sells. |
| RiskGateSafety.BookCoverExact | src/trading/domain/risk_gate.py:216-228 | Per symbol, book exposures sum to at least the account exposure after every prefix if and only if no starting row with exposure is overwritten. |
| RiskGateSafety.ApprovedBuyIsPositive | src/trading/domain/risk_gate.py:324-348 | A buy that is not blocked has a positive price, quantity and cost. |
| RiskGateCaps.RunWithinCaps | src/trading/domain/risk_gate.py:301-317 | After every list of intents without a negatively priced sell, whatever the order of buys and sells, gross, every symbol, every sector and every (book, symbol) is at most the larger of its start and its cap. |
| RiskGateCaps.CapSafetyExact | src/trading/domain/risk_gate.py:258-268 | A list of intents keeps the caps at every prefix, for every account, configuration and drawdown the gate accepts, if and only if no sell in it has a negative price. |
| RiskGateCaps.NegativeSellBreaksCaps | src/trading/domain/risk_gate.py:258-268 | The failing family: a sell at a negative price, anywhere in a list, takes an account without equity or positions over its caps, under every accepted configuration. |
| RiskGateCaps.HaltedRunNeverRises | src/trading/domain/risk_gate.py:284-299 | With the drawdown breaker tripped no ledger entry ever rises from any prefix to any later one, when no sell is negatively priced. |
| RiskGateCaps.HaltedNeverRisesExactly | src/trading/domain/risk_gate.py:258-299 | In each account with buys halted, no ledger entry is higher after a longer part of the list than after a shorter one if and only if no sell in the list has a negative price. |
| RiskGateCaps.GrantIsLargestFit | src/trading/domain/risk_gate.py:311-324 | A buy is granted the largest quantity on its step grid that fits the request and all four caps: it fits, and every fitting grid quantity is no larger. |
| RiskGateCaps.GrantIsGridQty | src/trading/domain/risk_gate.py:324-383 | A sized buy is granted its grid quantity, never more than requested; blocked exactly when that is zero, allowed exactly when it is the whole request. |
| RiskGateCaps.CutExactly | src/trading/domain/risk_gate.py:324-363 | A buy passes untouched if and only if its price is positive, its quantity is on its step grid and every cap has room for it; when cut, the named cap truly binds if and only if the request did not fit. |
| RiskGateCaps.OffGridIsCut | src/trading/domain/risk_gate.py:323-363 | A buy off its own step grid is cut although every cap has room for it, under a reason that does not bind. |
| RiskGateCaps.OffGridHappens | src/trading/domain/risk_gate.py:323-324 | Such a buy exists under an accepted configuration: a share and a half, in whole shares. |
| RiskGateCaps.BlockingReasonIsTightest | src/trading/domain/risk_gate.py:108-131 | The reason code names a cap with least room, the earliest in the fixed order among equals. |
| RiskGateCaps.NamedCapBinds | src/trading/domain/risk_gate.py:108-131 | The named cap has less room than requested exactly when some cap does. |
| RiskGateCaps.DecisionsMatchIntents | src/trading/domain/risk_gate.py:236-383 | Decision i answers intent i, on the ledgers left by the intents before it. |
| RiskGateCaps.ApprovedIsNonBlocked | src/trading/domain/risk_gate.py:230-363 | The approved list is exactly the non-blocked subsequence, in order, at the approved quantities. |
| RiskGateCaps.CountsAddUp | src/trading/domain/risk_gate.py:385-393 | Allowed, rescaled and blocked add up to the intents, and the first two to the approved ones. |
| RiskGateCaps.BreakerTripsAtLimit | src/trading/domain/risk_gate.py:134-158 | The breaker trips exactly when equity is positive and at least the limit below its peak. |
| Accounting.BuyKeepsBalance | src/trading/domain/accounting/account.py:50-78 | A buy keeps cash plus cost basis equal to initial cash plus realized P&L. |
| Accounting.SellKeepsBalance | src/trading/domain/accounting/account.py:81-104 | A sell keeps the same balance. |
| Accounting.ComputeEquity | src/trading/domain/metrics/portfolio_math.py:45-53 | Cash plus the marked value of every holding; a ticker with no price is skipped, a mark that is not a number makes the whole not a number. |
| Sizing.ChosenIsLargestWithinPolicy | src/trading/domain/auto_trading/sizing.py:37-81 | Under accepted percentages (positive, at most 100, trade no larger than position) a buy asks for the largest whole number of shares within cash after the fee, the trade budget and what is left of the position cap: one share more breaks one of them. |
| Sizing.AllocateBuyQuantities | src/trading/domain/auto_trading/sizing.py:84-128 | The two-pass loop grants each ticker what the specification map grants it, and fails exactly when the costs add up to zero while cash is below that, where the code divides by zero. |
| Sizing.FeeCancelsCost | src/trading/domain/auto_trading/sizing.py:115-123 | The division by zero is met: any one request whose shares cost what a negative fee gives back, with cash below zero. |
| Sizing.AllocationFitsCash | src/trading/domain/auto_trading/sizing.py:112-128 | When fee or cash is at least zero, one bar's funded buys together cost no more than the larger of cash and nothing, and nothing is funded that was not asked for. |
| Sizing.AllocationFitsExactly | src/trading/domain/auto_trading/sizing.py:112-128 | That bound holds for every list of requests if and only if fee or cash is at least zero; with both negative, three requests whose costs differ in sign break it. |
| Sizing.AllocationIgnoresOrder | src/trading/domain/auto_trading/sizing.py:98-110 | Two lists of the same requests are funded alike, ticker by ticker. |
| Sizing.FullFundingWhenCovered | src/trading/domain/auto_trading/sizing.py:116-119 | When cash covers every cost, every request is funded in full. |
| FairShares.ChosenIsMostInBudget | src/trading/domain/auto_trading/sizing.py:37-81 | For any percentages, a ticker not held asks for the most whole shares that cash less the fee and both percentages of equity pay for, and for none without a positive equity. |
| FairShares.PercentagesExactly | src/trading/domain/auto_trading/sizing.py:37-71 | Each sizing error is returned exactly when its own condition holds and no earlier one does; otherwise the percentages are those given or the defaults. |
| FairShares.AllocationIsFair | src/trading/domain/auto_trading/sizing.py:112-128 | All requests in full when cash covers their cost; otherwise each gets the most whole shares that its part of cash, in proportion to its cost, pays for with a fee, and no more than it asked for. |
| FairShares.DividesByZeroExactly | src/trading/domain/auto_trading/sizing.py:112-123 | Sharing divides by zero exactly when something is asked for, its cost adds up to zero and cash is below that. |
| SimulationEngine.PortfolioState.constructor | src/backtesting/services/simulation.py:118-131 | A fresh state holds the initial cash and nothing else. |
| SimulationEngine.PortfolioState.Position | src/backtesting/services/simulation.py:128-128 | Reading a position of a defaulting dictionary enters a new ticker at zero and changes nothing else. |
| SimulationEngine.PortfolioState.RecordTrade | src/backtesting/services/simulation.py:152-179 | Appends the trade and counts it. |
| SimulationEngine.PortfolioState.ApplyBuy | src/trading/domain/accounting/account.py:50-78 | The in-place buy: cash, position and re-averaged cost; refused exactly when no positive position would be left, and then nothing but a looked-up position changes. |
| SimulationEngine.PortfolioState.ApplySell | src/trading/domain/accounting/account.py:81-104 | The in-place sell: cash, realized P&L and position, the average cost staying; refused exactly when it exceeds what is held, and then nothing but a looked-up position changes. |
| SimulationEngine.PortfolioState.ExecuteSells | src/backtesting/services/simulation.py:182-223 | The sell loop leaves exactly the state of the sell-phase specification. |
| SimulationEngine.PortfolioState.SizeBuys | src/backtesting/services/simulation.py:237-262 | No request sees what another will spend: the loop leaves the requests of the specification, all read off the book as it stood before the first of them, and enters the candidates looked up. |
| SimulationEngine.PortfolioState.ExecuteBuys | src/backtesting/services/simulation.py:226-284 | The buy phase, sizing to fills, leaves the state of the specification and no short position; the allocation never fails on requests the engine sized. |
| SimulationEngine.PortfolioState.FillGranted | src/backtesting/services/simulation.py:264-284 | The fill loop buys and records what was granted, at least one share. |
| SimulationEngine.EvaluateSignals | src/backtesting/services/simulation.py:287-308 | The loop calls the strategy on each ticker's rows at the signal bar; the decisions are those of the plan the strategy defines over the whole run. |
| SimulationEngine.AdvanceBar | src/backtesting/services/simulation.py:362-389 | One bar: decide on the bar before, sell, then buy. What that comes to, ticker by ticker, is BarOutcome.BarSettles. |
| SimulationEngine.SimulateBars | src/backtesting/services/simulation.py:334-404 | The bar loop produces a run in the sense of the specification, which BarOutcome.RunSettles describes bar by bar, and an equity curve with one mark per scored bar, each the equity of that bar's state. |
| BarOutcome.BarSettles | src/backtesting/services/simulation.py:182-284 | One bar from every orderly portfolio, all tickers at once, from decisions, universe and marks: whatever is held, told to sell and quoted is sold whole; active tickers told to buy, quoted and not held ask for the most shares in budget, of cash and equity after the sells; cash is shared fairly; cash, realized P&L, every quantity, every average cost, the entries of the book and the new trades, sells before buys in ascending tickers, are what that comes to. |
| BarOutcome.RunSettles | src/backtesting/services/simulation.py:334-404 | The same at every bar of every run from a flat start, with the decisions and the month of the bar before and the prices of the bar. |
| BarOutcome.HeldIsSoldExactly | src/backtesting/services/simulation.py:367-389 | In every run from a flat start a held ticker that is told to sell and has a positive mark is sold whole in one trade and leaves nothing, in the universe or not; otherwise it keeps its quantity and is not traded. |
| SimulationEngine.ScoringStartIndex | src/backtesting/services/simulation.py:407-420 | Bar zero without warm-up; otherwise the first bar on or after the scoring start, refused when fewer than two bars remain. |
| SignalInputs.CarriedAgree | src/trading/domain/strategies/indicator_view.py:77-84 | Carrying a series onto the calendar brings nothing from later days: up to a date, it depends on the series and the calendar up to that date. |
| SignalInputs.RollingIsCausal | src/trading/domain/strategies/indicator_view.py:34-55 | Indicators that work out each own day from the own bars up to that day meet the causality assumption. |
| SignalInputs.RowSeesPastOnly | src/trading/domain/strategies/indicator_view.py:100-131 | A row of signal inputs (close, indicators, count of priced bars) at a date is fixed by the ticker's own bars and the calendar up to that date. |
| SignalInputs.SignalSeesPastOnly | src/backtesting/services/simulation.py:287-308 | A decision at a date is the same for any two histories of the ticker that agree up to it. |
| SignalInputs.PrecomputedIsUpToDate | src/backtesting/services/simulation.py:461-476 | A decision read off inputs computed once for the whole run is the one read off inputs computed on that date from the bars and the calendar there were. |
| LiveAgreement.RowIsLiveExactly | src/trading/domain/strategies/indicator_view.py:118-124 | A row on the shared calendar is the live row of the ticker's latest own day if and only if that day has no gap: a missing value is carried from earlier days in the backtest and stays missing live. |
| LiveAgreement.CurrentReadersAlikeExactly | src/trading/domain/strategies/resolution.py:92-124 | Every strategy on given indicators that reads the current row decides in the backtest as it would live, on any calendar, if and only if the latest own day has no gap. |
| LiveAgreement.LastTwoReadersAlikeExactly | src/trading/domain/strategies/resolution.py:92-124 | Every strategy that reads the current row and the one before decides as it would live if and only if the date is an own day or the last two own rows are the same. |
| LiveAgreement.QuietDayDiffers | src/trading/domain/strategies/signals/technical.py:170-171 | The failing family: after two own days with different closes, on a day only others traded, the row before is the current one again, and a strategy that compares the two decides otherwise than live. |
| SignalInputs.RowIgnoresOtherDays | src/trading/domain/strategies/indicator_view.py:115-120 | Days only other tickers traded never change a ticker's row on a date: it holds the latest own value. |
| SignalInputs.RowCloseIsAsOf | src/trading/domain/strategies/indicator_view.py:125-129 | Signals and marks see one price: a row closes where the aligned panel closes. |
| LiveAgreement.RowCountsPricedBars | src/trading/domain/strategies/indicator_view.py:100-131 | A row counts the priced bars of its ticker up to and including its date. |
| LiveAgreement.PricedBarsCountUp | src/trading/domain/strategies/indicator_view.py:100-131 | That count goes up by one on every own day with a close, stays on every other, and is zero before the first bar. |
| LookAhead.NoLookAhead | src/backtesting/services/simulation.py:334-420 | From histories to the equity curve: two sets of ticker histories that agree up to a day give panels with the same dates up to that day, the same first scored bar, and runs from the same cash with the same portfolio, trades and equity mark at every bar dated up to it. |
| LookAhead.RunSeesPastOnly | src/backtesting/services/simulation.py:334-404 | The same from equal portfolios at any one bar, scored or not. |
| LookAhead.OrdersAreDecidedBefore | src/backtesting/services/simulation.py:287-308 | The decisions behind a bar's trades are fixed by the histories up to the bar before. |
| Attribution.BarStepCosted | src/backtesting/services/simulation.py:182-284 | At the bar's own marks, a bar lowers equity by exactly the slippage and fees of the trades it recorded. |
| Attribution.BarAttribution | src/backtesting/services/simulation.py:349-404 | One bar, whatever was signalled and when: when its two equities are numbers and what is held into it is listed at both ends, they differ by the price change on the positions held into it minus that bar's slippage and fees. |
| Attribution.RunAttribution | src/backtesting/services/simulation.py:349-404 | The whole run, for every strategy, over marks that persist: equity at a bar is the starting cash plus all price gains minus all trading cost if and only if it is a number, which is so if and only if no ticker signalled before has, at that bar, a mark that is not a number. |
| Attribution.RunHoldsMarked | src/backtesting/services/simulation.py:195-253 | In a run that starts flat whatever is held at a bar has a mark there; only entries of zero can be without one. |
| Attribution.SlippageIsRate | src/backtesting/services/simulation.py:199-199 | A fill at the slipped price loses that rate of the traded value. |
| MarkedRuns.EquityIsNumberExactly | src/backtesting/services/simulation.py:105-115 | In a run that starts flat, equity at a bar is a number if and only if no active ticker signalled at an earlier bar has a mark at this bar that is not a number. |
| MarkedRuns.UnlistedSignalPoisons | src/backtesting/services/simulation.py:193-197 | The failing run: one buy or sell signal for an active ticker without a mark, in any universe and from any cash, and the next equity is not a number. |
| MarkedRuns.BarStepKeys | src/backtesting/services/simulation.py:193-245 | Bought or not, one bar enters into the book exactly the active tickers it has a signal for. |
| MarkedRuns.RunIsPriced | src/backtesting/services/simulation.py:105-115 | If marks persist and active tickers are held off until they have one, every book of a run is priced at its own bar and the next. |
| PanelMarks.PanelMarksPersist | src/backtesting/domain/bars.py:72-79 | On bars taken from an aligned panel a ticker that has a mark keeps one. |
| PanelMarks.WaitingHoldsUnlisted | src/trading/domain/strategies/signals/technical.py:30-31 | A strategy that decides nothing before a ticker's first priced bar decides nothing on a ticker without a mark; each shipped signal waits for thirty priced bars or more. |
| PanelMarks.PanelRunHasMarks | src/backtesting/services/simulation.py:105-115 | A run over an aligned panel that starts flat has a number for its mark at every scored bar, when the strategy holds off a ticker with no priced bar yet (WaitsForBars). |
| PanelMarks.PanelRunAttribution | src/backtesting/services/simulation.py:349-404 | For every strategy over an aligned panel, with nothing assumed about marks: equity at a bar is initial cash plus price gains minus total trading cost if and only if it is a number, and if and only if no ticker signalled before is without a mark there. |
| PanelMarks.PanelBarAttribution | src/backtesting/services/simulation.py:349-404 | For every strategy over an aligned panel, two consecutive equities that are numbers differ by the price gains on what was held minus the bar's trading cost. |
| TradeHistory.RunIsOrderly | src/backtesting/services/simulation.py:362-402 | In every state of every run, whatever the fee and slippage, each ticker's trades alternate buy, sell, buy, each sell closing exactly the quantity of its buy; the position is what its history leaves open; the count is the number of trades; cash plus cost basis is initial cash plus realized P&L. |
| TradeHistory.OpenMeansOdd | src/backtesting/services/simulation.py:182-284 | A ticker is held exactly when its history has odd length. |
| BarDiscipline.BarTradesOnce | src/backtesting/services/simulation.py:367-389 | Within a bar no ticker trades twice, every trade follows its own signal at its own slipped price. |
| BarDiscipline.BuysNeverOverspend | src/backtesting/services/simulation.py:226-284 | For every fee and every book without a short position, a buy phase never takes cash below zero, nor lower when it already is. |
| BarDiscipline.CashFallsOnlyThroughSells | src/backtesting/services/simulation.py:182-284 | Over every run from cash of zero or more, cash is below zero only if some recorded sell brought in less than its fee. |
| Solvency.AlwaysSolventExactly | src/backtesting/services/simulation.py:182-284 | By configuration: no run ever takes cash below zero if and only if no fee is charged and slippage is at most 10000 basis points, or slippage of minus 10000 or less keeps anything from being bought. |
| Solvency.FeeOverdraws | src/backtesting/services/simulation.py:204-213 | With any positive fee some round trip ends with less than no cash. |
| RoundTrips.RoundTripEnds | src/backtesting/services/simulation.py:362-389 | A bar that buys one ticker and a bar that sells it: cash changes by two fees and the slipped prices, exactly. |
| RunReplay.RunReplays | src/backtesting/domain/metrics.py:155-183 | While no sell is recorded at a negative price, replaying the trades of a run gives the state's positions, average costs, realized P&L and cash change. |
| RunReplay.ReplayExact | src/backtesting/domain/metrics.py:155-183 | The recorded trades of a run replay through the metrics if and only if slippage left no recorded sell below zero (at most 10000 basis points, or no sells). |
| RunReplay.AlwaysReplaysExactly | src/backtesting/domain/metrics.py:155-183 | By configuration: every run replays if and only if slippage is at most 10000 basis points. |
| RunReplay.RoundTripFails | src/backtesting/domain/metrics.py:159-160 | The failing family: above 10000 basis points a round trip in any tradeable ticker records a sell the metrics refuse. |
| TradeReplay.ClosedTradeStats | src/backtesting/domain/metrics.py:148-183 | The loop returns the P&L values and percent returns of the specification replay, or its error. |
| TradeReplay.RealizedIsSumOfPnls | src/backtesting/domain/metrics.py:155-183 | Realized P&L of a replay is the sum of the closed trades' P&L. |
| TradeReplay.FailedPrefixFails | src/backtesting/domain/metrics.py:155-167 | A replay that fails on a prefix fails the same way on the whole list. |
| ClosedTrades.ReplayExactly | src/backtesting/domain/metrics.py:148-183 | For every list of trades: the first one with a quantity that is not positive, a negative price, a free buy or more than is held decides the error; otherwise each sell's P&L is its proceeds less the part of what was paid for the units, and its percent return is that over the cost, where there was one. |
| Drawdown.MaxDrawdownPct | src/backtesting/domain/metrics.py:40-52 | The single pass with its running peak computes the specification drawdown times a hundred; zero for no marks. |
| Drawdown.WorstIsPairwise | src/backtesting/domain/metrics.py:40-52 | On a non-negative curve with a positive first mark the result is the worst fall over all pairs i <= j, and is attained by a pair. |
| Drawdown.WorstIsAFall | src/backtesting/domain/metrics.py:44-52 | On any curve the result is never positive, and when negative it is the fall between two marks of the curve. |
| Drawdown.NoDrawdownExactly | src/backtesting/domain/metrics.py:44-52 | Any curve has zero drawdown if and only if no mark is below an earlier positive one; a non-negative curve, if and only if it never falls. |
| Drawdown.AppendingNeverImproves | src/backtesting/domain/metrics.py:44-52 | Appending any marks to any curve never improves the drawdown. |
| Drawdown.ScaleInvariant | src/backtesting/domain/metrics.py:48-51 | Scaling a curve by a positive factor leaves the drawdown unchanged. |
| Drawdown.PairwiseExactly | src/backtesting/domain/metrics.py:44-52 | Every curve that starts above zero and never goes below m agrees with its worst pairwise fall if and only if m is at least zero. |
| Drawdown.NegativeMarkBreaksPairwise | src/backtesting/domain/metrics.py:44-52 | The failing family: 1, 2, m for every negative m. |
| Calendar.BeforeIsLess | src/backtesting/domain/windowing.py:98-98 | Comparing dates field by field is comparing day numbers of the proleptic Gregorian calendar, with no bound on years. |
| Calendar.NextDayNumber | src/backtesting/domain/windowing.py:109-109 | The next day has the next day number, across month, year and leap-day ends, and stepping back undoes it. |
| Calendar.MonthLengths | src/backtesting/domain/windowing.py:34-34 | Thirty-one, thirty or, in February, twenty-eight days and twenty-nine in leap years. |
| Calendar.ShiftIsMonotone | src/backtesting/domain/windowing.py:29-35 | Shifting by months keeps the order of dates. |
| Calendar.ShiftIsAdditiveExactly | src/backtesting/domain/windowing.py:29-35 | Two shifts equal one shift by the sum if and only if the month in between does not clamp the day below what the last month would. |
| Calendar.ShiftFirst | src/backtesting/domain/windowing.py:29-35 | From the first of a month shifting is exact month arithmetic, so it adds up. |
| Calendar.ShiftIsNotAdditive | src/backtesting/domain/windowing.py:29-35 | 31 January, one month and one month on, is not two months on. |
| Windowing.LookbackSpansItsMonths | src/backtesting/domain/windowing.py:57-69 | A positive lookback always yields a valid range ending at the end date and spanning exactly that many calendar months. |
| Windowing.RunWindowExactly | src/backtesting/domain/windowing.py:44-69 | A start and a lookback together, a lookback below one and a start not before the end are refused, in that order; otherwise the range ends at the end date or today and begins at the start, or as many calendar months before, one without a lookback, on the same day or the last its month has. |
| Windowing.BuildSplits | src/backtesting/domain/windowing.py:72-137 | The whole builder, in plain inequalities and dates: the first complaint in order, or every usable window that ends by the last usable day, in order, and the holdout. |
| Windowing.PlanComplains | src/backtesting/domain/windowing.py:72-108 | Each error is returned exactly when its own condition holds and no earlier one does. |
| Windowing.PlanAnswers | src/backtesting/domain/windowing.py:72-137 | The plan succeeds exactly when nothing is wrong, and lists exactly the usable windows. |
| Windowing.UsableExactly | src/backtesting/domain/windowing.py:111-130 | A window is usable, by its dates, exactly when it is one of those the closed-form count lists. |
| Windowing.SplitLoop | src/backtesting/domain/windowing.py:111-130 | The unbounded loop terminates and appends exactly the windows below the closed-form count. |
| Windowing.CountIsExact | src/backtesting/domain/windowing.py:112-117 | Window i ends within the last usable month if and only if i is below the closed-form count. |
| Windowing.TestBounds | src/backtesting/domain/windowing.py:115-120 | The guard on the test start is a no-op: the cursor is always past the start date. |
| Windowing.TurnEnds | src/backtesting/domain/windowing.py:115-127 | The loop breaks exactly at the count, and the guard on the test end is a no-op. |
| Windowing.SkipTest | src/backtesting/domain/windowing.py:118-121 | A window is skipped exactly when it is the first, training is one month and the start is the last day of its month. |
| Windowing.HoldoutIsRangeExactly | src/backtesting/domain/windowing.py:103-109 | The holdout is a range a run accepts if and only if it is longer than a month or the end is not the first of its month. |
| Windowing.WindowsAt | src/backtesting/domain/windowing.py:114-130 | Listed split j is window (first + j): none is missing and the order is kept. |
| SplitLaws.SplitIsChronological | src/backtesting/domain/windowing.py:103-129 | Training is a real range ending the day before testing, testing is a real range, and the window ends before the holdout, or by the end date. |
| SplitLaws.SplitsAreDisjoint | src/backtesting/domain/windowing.py:96-97 | Any two listed test windows do not overlap. |
| SplitLaws.NoFurtherWindowFits | src/backtesting/domain/windowing.py:115-117 | One window more would reach the holdout or pass the end date. |
| SplitLaws.GapBeforeSplit | src/backtesting/domain/windowing.py:96-130 | Consecutive test windows leave a gap if and only if the step is longer than the test. |
| Compounding.CompoundOosReturns | src/backtesting/domain/optimization.py:158-185 | Each point carries the compounded return of the prefix up to it and its own gap flag; the series carries the whole product and whether any gap exists; on dates that exist the series is compounded in the sense of SeriesIsCompounded. |
| Compounding.SeriesIsCompounded | src/backtesting/domain/optimization.py:158-185 | Point by point: the window and return are the segment's, one plus the percentage is that of the point before times that of the segment, a gap is flagged exactly when a day is missing in between, and the series ends where its last point stands. |
| Compounding.GrowthOfConcatenation | src/backtesting/domain/optimization.py:164-168 | Growth of a concatenation is the product of the growths. |
| Compounding.CompoundedIsOneFactor | src/backtesting/domain/optimization.py:181-185 | A list of segments is worth its compounded percentage applied once, before any further segments. |
| Compounding.GapsExactly | src/backtesting/domain/optimization.py:169-169 | On segments laid on built splits, a gap precedes a segment if and only if it is not the first and the step is longer than the test. |
| Compounding.HasGapsExactly | src/backtesting/domain/optimization.py:184-184 | The series has gaps if and only if the step is longer than the test and there are at least two windows. |
| CandidateGrid.GenerateCandidates | src/backtesting/domain/optimization.py:53-79 | Empty space, the first name in sorted order without values, a grid over budget (never truncated), or the full grid: one candidate per index, mapping every sorted name to the value its digit chooses. |
| CandidateGrid.CollectPools | src/backtesting/domain/optimization.py:63-71 | The value lists in sorted name order with the product of their sizes, or the first empty name. |
| CandidateGrid.ProductAt | src/backtesting/domain/optimization.py:79-79 | Row i of the Cartesian product is chosen by the mixed-radix digits of i, the last name running fastest. |
| CandidateGrid.IndexOfDigits | src/backtesting/domain/optimization.py:79-79 | The digits of an index give the index back. |
| CandidateGrid.DigitsOfIndex | src/backtesting/domain/optimization.py:79-79 | Every tuple of choices is the digits of its own index, inside the grid: with IndexOfDigits, a bijection. |
| CandidateGrid.ZipAt | src/backtesting/domain/optimization.py:79-79 | A candidate maps each name to the value of its own column. |
| CandidateGrid.KeyOrderIsIrrelevant | src/backtesting/domain/optimization.py:56-60 | Writing the names in another order describes the same space, hence the same grid. |
| CandidateScore.EligibleExactlyWhenScored | src/backtesting/domain/optimization.py:82-126 | A candidate is eligible exactly when it has a score, exactly when it passed all three gates; the score has the sign of the return and is no larger. |
| CandidateScore.EvaluatedIsJudged | src/backtesting/domain/optimization.py:82-126 | A candidate carries its training figures; it is rejected for fewer than 3 trades, no annualised return or a drawdown below minus 25 percent, in that order; its score times the drawdown in percent, at least one, is its return. |
| CandidateScore.SelectWinner | src/backtesting/domain/optimization.py:129-143 | A winner exists if and only if some candidate is eligible, and it is the first of the lowest-ranked eligible ones. |
| CandidateScore.WinnerIgnoresOrder | src/backtesting/domain/optimization.py:146-155 | Two lists of the same candidates, told apart by index, have the same winner. |
| CandidateScore.WinnerIsBestScored | src/backtesting/domain/optimization.py:146-155 | No eligible candidate has a better score than the winner. |
| CandidateScore.WinnerIsAsGood | src/backtesting/domain/optimization.py:146-155 | The winner is at least as good as every eligible candidate: by score, then return, then smaller drawdown, then more trades, then the earlier index. |
| WalkForward.Backtester.Run | src/backtesting/services/walk_forward_optimizer.py:39-41 | Issuing a run appends it to the trace and returns what the engine answers to that trace. |
| WalkForward.TrainCandidates | src/backtesting/services/walk_forward_optimizer.py:225-248 | Every candidate is run in order on the training interval and scored on its own result; a raising run stops the window there. |
| WalkForward.SelectWindowWinner | src/backtesting/services/walk_forward_optimizer.py:212-252 | As above, and then the winner of the scores; with nobody eligible the window stops after all training runs. |
| WalkForward.RunOneWindow | src/backtesting/services/walk_forward_optimizer.py:160-209 | A finished window issued all training runs, then the persisted winner, then the baseline, and returns exactly those results; an unfinished one issued the part up to what raised. |
| WalkForward.SearchWindows | src/backtesting/services/walk_forward_optimizer.py:108-129 | The window loop: all splits in order, or how many had finished, with the trace of those windows and the part of the next. |
| WalkForward.RunHoldout | src/backtesting/services/walk_forward_optimizer.py:255-299 | The last winner and the baseline over the holdout, in that order; SearchReport.SearchIsReported says with which parameters. |
| SearchReport.SearchIsReported | src/backtesting/services/walk_forward_optimizer.py:72-299 | A finished search, position by position of its runs: dates, parameters, purpose, marker and persistence of every training, winner, baseline and holdout run, each reported figure the engine's answer at that position, each winner as good as every eligible candidate, and the holdout pair last: the last window's winning parameters, persisted, and then the catalog's, not persisted. |
| WalkForward.RunPlan | src/backtesting/services/walk_forward_optimizer.py:108-157 | A finished search issued the windows' runs and then the holdout pair and nothing else; a failed one reports the stage and the finished windows. |
| WalkForward.RunWalkForwardOptimization | src/backtesting/services/walk_forward_optimizer.py:72-157 | Unknown keys, a bad run window, bad splits and a bad grid, for its own reason, are reported in that order without issuing a single run; otherwise the outcome is that of the planned search. |
| WalkForward.PlanExactly | src/backtesting/services/walk_forward_optimizer.py:72-105 | Names the strategy does not have are reported first and exactly, then the error of the run window, then that of the splits of it. |
| WalkForward.FinishedRunCount | scripts/benchmark_sweep.py:185-188 | A finished search issued candidates x windows + 2 x windows + 2 (with a holdout) runs. |
| WalkForward.FailurePointIsExact | src/backtesting/services/walk_forward_optimizer.py:122-147 | On failure the finished windows are (runs - 1) divided by (candidates + 2), and the stage is the holdout if and only if more runs were issued than all windows need. |
| WalkForward.OnlyTheLastTwoTouchHoldout | src/backtesting/services/walk_forward_optimizer.py:131-139 | In a finished search a run touches the holdout dates if and only if it is one of the last two. |
| WalkForward.FailedSearchStaysClear | src/backtesting/services/walk_forward_optimizer.py:122-129 | A search that fails before the holdout stage has not touched the holdout dates. |
| RunTrace.RunKinds | src/backtesting/services/walk_forward_optimizer.py:173-236 | Position by position within a window: training runs end before the test interval; the winner and the baseline share that interval; only the winner is persisted, on the winning parameters; only the baseline has no override. |
| RunTrace.TraceAt | src/backtesting/services/walk_forward_optimizer.py:108-121 | Run m of window j sits exactly after all runs of the windows before it. |
| RunTrace.FailureMatchesTrace | src/backtesting/services/walk_forward_optimizer.py:122-147 | The arithmetic behind FailurePointIsExact, for the finished windows and the issued part. |
| RunTrace.TestsRunForward | src/backtesting/services/walk_forward_optimizer.py:108-121 | Later windows test strictly later intervals. |
| RunTrace.WindowsStayClearOfHoldout | src/backtesting/services/walk_forward_optimizer.py:82-88 | No run of any finished window reaches the holdout. |
| RunTrace.WinnerCameFromTraining | src/backtesting/services/walk_forward_optimizer.py:225-252 | The parameters tested out of sample were one of the candidates, and no eligible candidate scored better in training. |
| RateLimiter.Create | src/common/rate_limit.py:45-65 | Construction succeeds if and only if the interval and the budget are not negative. |
| RateLimiter.Limiter.TryAcquire | src/common/rate_limit.py:76-89 | The locked section: refused exactly when the budget is spent, before the clock is read; granted exactly when there is budget and nothing was granted since the reset, no interval is kept, or the interval has passed; otherwise the wait is last grant plus interval less now. |
| RateLimiter.Limiter.Acquire | src/common/rate_limit.py:67-91 | A lone caller is granted if and only if the budget is not spent, and only once due; a call that is due when it comes never sleeps, any other sleeps once; a refusal changes nothing and does not sleep. |
| RateLimiter.Limiter.Reset | src/common/rate_limit.py:99-103 | Back to no calls and no pacing state. |
| CallPacing.CountIsGrantsSinceReset | src/common/rate_limit.py:76-103 | In every interleaving the count equals the grants since the last reset and never exceeds the budget. |
| CallPacing.GrantsAreSpaced | src/common/rate_limit.py:82-91 | In every interleaving any two grants with no reset between them are at least the interval apart. |
| CallPacing.SpanHoldsFewGrants | src/common/rate_limit.py:82-91 | In every interleaving a span of length T holds at most floor(T / interval) + 1 grants of one epoch. |
| CallPacing.RefusalChangesNothing | src/common/rate_limit.py:77-81 | A turn is refused if and only if the budget is spent; then clock, pacing and every other thread stay as they were. |
| CallPacing.UndisturbedSleeperIsGranted | src/common/rate_limit.py:75-91 | A sleeper that wakes to the pacing it left is granted at its next turn. |
| CallPacing.TurnExactly | src/common/rate_limit.py:76-89 | A turn is refused, granted or put to sleep by budget, last grant and interval alone, and a sleeper sleeps until last grant plus interval. |
| CallPacing.TurnComesTo | src/common/rate_limit.py:75-91 | In every interleaving a turn is granted exactly when there is budget and its epoch has no grant, no interval is kept, or the interval has passed since the epoch's last grant. |
| CallPacing.EntersLine | src/common/rate_limit.py:67-91 | A thread that comes in or wakes up is in line for a turn, and nothing else changes. |
| BarPanel.BuildBarPanel | src/backtesting/domain/bars.py:51-85 | Fails exactly when a ticker has no history, naming those; otherwise the dates are the ascending union of all trading days and every ticker is aligned, with its own source kept. |
| BarPanel.UnionCalendar | src/backtesting/domain/bars.py:67-70 | The loop over tickers collects exactly the days some ticker traded, ascending. |
| BarPanel.FillColumn | src/backtesting/domain/bars.py:75-75 | One forward pass gives, at every date, the price at the latest own trading day at or before it that has one. |
| BarPanel.AlignHistory | src/backtesting/domain/bars.py:72-77 | All four price columns filled forward, volume the day's own or zero. |
| BarPanel.ShownIsAsOf | src/backtesting/domain/bars.py:72-79 | What a panel shows is determined by the ticker's own history and the date alone. |
| BarPanel.OwnDayIsIdentity | src/backtesting/domain/bars.py:74-75 | On an own trading day with a price the panel shows that price. |
| BarPanel.OffDays | src/backtesting/domain/bars.py:57-61 | Off its own days a ticker has no volume, before its first bar no price. |
| BarPanel.OtherTickersChangeNothing | src/backtesting/domain/bars.py:67-77 | Other tickers in the universe never change a ticker's values on a date both panels have. |
| BarPanel.PricesPersist | src/backtesting/domain/bars.py:75-75 | Once a column has a price it keeps one. |
| BackupRetention.Directory.Prune | scripts/data_ops/backup_db.py:59-90 | Deletes every backup the policy does not keep, in order of age, and no other file; lists exactly those. |
| BackupRetention.Directory.DeleteAllBut | scripts/data_ops/backup_db.py:84-90 | The deletion loop removes exactly the candidates outside the keep set. |
| BackupRetention.FirstOfEachMonth | scripts/data_ops/backup_db.py:76-80 | The loop over the months keeps the first stamp of each. |
| BackupRetention.SliceIsPolicy | scripts/data_ops/backup_db.py:83-83 | The slice counted from the end has a stamp exactly when fewer than k are newer; for k = 0 or less it counts from the front. |
| BackupRetention.ArchiveIsOldest | scripts/data_ops/backup_db.py:75-81 | The archives are exactly the oldest stamps of their months. |
| BackupRetention.PruneThenAdd | scripts/data_ops/backup_db.py:59-90 | For every window of minus one or more, pruning before new backups arrive, of whatever age, changes nothing about what the next pruning leaves. |
| BackupRetention.PruningAsYouGoIsPruningOnce | scripts/data_ops/backup_db.py:102-110 | For every window of minus one or more, pruning after each of any sequence of batches leaves exactly what one pruning of all backups ever taken would keep. |
| BackupRetention.PruningTwiceIsPruningOnce | scripts/data_ops/backup_db.py:59-90 | For every window of minus one or more, pruning is idempotent. |
| BackupRetention.IdempotentExactly | scripts/data_ops/backup_db.py:83-83 | Pruning is idempotent on every directory if and only if the window is minus one or more. |
| BackupRetention.PruningAsYouGoExactly | scripts/data_ops/backup_db.py:102-110 | Pruning as backups arrive is one pruning of them all, for every sequence of batches, if and only if the window is minus one or more. |
| BackupRetention.ArchiveIsPermanent | scripts/data_ops/backup_db.py:9-10 | Whatever the window, the oldest backup ever taken in a month is never lost. |
| BackupRetention.KeepIsBounded | scripts/data_ops/backup_db.py:9-11 | For a window of one or more, at most the window and one backup per month are kept. |
| BackupRetention.ZeroKeepsAll | scripts/data_ops/backup_db.py:83-83 | A window of zero keeps everything: the slice from minus zero is the whole list. |
| BackupRetention.MinusOneKeepsAll | scripts/data_ops/backup_db.py:83-83 | A window of minus one keeps everything too: the one stamp the slice skips is its month's archive. |
| BackupRetention.NegativeWindowErodes | scripts/data_ops/backup_db.py:83-83 | The failing family: for every window below minus one, a month with one backup more than needed loses another at the second pruning. |
| Timestamps.StringOrderIsTimeOrder | src/common/time.py:18-28 | Stored timestamps compare as strings exactly as they do in time, and are equal exactly when they name the same second (the Z-suffixed UTC form of RFC 3339, sections 5.1 and 5.6). |
| Timestamps.StampFallsOnDate | src/common/time.py:46-53 | A stored timestamp falls on a date if and only if it lies from that date string up to the next one, as strings. |
| Timestamps.DayRange | src/common/time.py:46-53 | The same for any string that begins with a date, whatever follows it. |
| TimestampParsing.ParseInvertsPrint | src/common/time.py:8-28 | Parsing a printed timestamp gives the moment back, to the second. |
| TimestampParsing.NormalizeIsIdempotent | src/common/time.py:35-43 | Normalising a normalised timestamp changes nothing. |
| TimestampParsing.NormalFormIsUnique | src/common/time.py:35-43 | Two accepted spellings normalise to one string if and only if they name the same second. |
| TimestampParsing.UtcKeepsInstant | src/common/time.py:8-15 | Taking an offset back to UTC keeps the instant, across midnight in either direction. |
| TimestampParsing.NextDatePrinted | src/common/time.py:46-53 | The next date of a printed date is the printed next day, across month, year and leap-day ends, until the last four-digit year ends. |
| TimestampForms.ParseExactly | src/common/time.py:8-15 | A text reads as a moment if and only if, trimmed and with a Z for a zero offset, it is a date, a T or a space, a time, a fraction if any and an offset if any, and the moment is as many seconds from that local time as the offset says. |
| MapDocs.IterTableRowPaths | scripts/checks/docs/maps_check.py:149-195 | The loop yields, per table row naming a file, its line number and its files resolved in the section context of that line. |
| MapDocs.NextDirs | scripts/checks/docs/maps_check.py:163-184 | How a heading or a bold label moves the section base and the current directory. |
| MapDocs.FixMap | scripts/fixes/maps_fix.py:31-53 | The fixed text is the map without its dead rows (untouched when there are none), with the dead and the mixed rows reported in order. |
| MapDocs.SortRows | scripts/fixes/maps_fix.py:37-46 | The loop collects the numbers and texts of the dead rows and the texts of the mixed ones, in order. |
| MapDocs.RowKind | scripts/fixes/maps_fix.py:39-46 | A row is dead or mixed according to how many of its files are stale. |
| MapDocs.WithoutIsKeepLive | scripts/fixes/maps_fix.py:48-49 | Dropping lines by number is dropping the dead rows. |
| MapDocs.RemainingRowsResolveAlike | scripts/fixes/maps_fix.py:48-52 | Dropping dead rows never changes how the remaining lines resolve. |
| MapDocs.FixKeepsUndocumented | scripts/checks/docs/maps_check.py:206-214 | The checker finds the same undocumented modules before and after the fix. |
| MapDocs.FixLeavesOnlyMixedStale | scripts/checks/docs/maps_check.py:206-214 | After the fix the checker's stale files are exactly the stale files of mixed rows. |
| MapDocs.FixIsIdempotent | scripts/fixes/maps_fix.py:31-53 | Fixing a fixed map changes nothing. |
| MapDocs.StaleCount | scripts/fixes/maps_fix.py:39-46 | No stale file, or only stale files, can be told from their number. |
| LineForms.ClassifyExactly | scripts/checks/docs/maps_check.py:11-34 | Every line is read as what its pieces make it: one to six hashes and a space, with the first path between backticks; else the first bold label with a path in parentheses; else a bar after spaces, with the files its code spans name; else nothing. |
| LineForms.CodeSpansExactly | scripts/checks/docs/maps_check.py:11-13 | Code spans are found from left to right, each the first after the one before, none empty and none overlapping. |
| MapMeaning.ClaimsExactly | scripts/checks/docs/maps_check.py:134-195 | A row claims its files below the directory of the last heading or label above it, relative ones below the section of the last heading of level one or two, and full repository paths as they stand. |
| MapMeaning.FixMeans | scripts/fixes/maps_fix.py:31-53 | Line by line: a line goes exactly when its row names files and every one is below a directory and not on disk; reported as removed are those lines, as mixed those with one such file and one other, trimmed and in order. |
| SchemaDocs.QuickReferenceTables | scripts/checks/docs/db_schema_check.py:29-38 | The checker's loop collects the table names of the three-column rows. |
| SchemaDocs.FixQuickReference | scripts/fixes/db_schema_fix.py:28-68 | The fixed document and the added names in sorted order are those of the specification, the removed names are the stale ones in sorted order, each as often as it had a row; without a row to anchor them nothing is added. |
| SchemaDocs.SplitRows | scripts/fixes/db_schema_fix.py:35-50 | The row loop: kept lines, documented names, stale names and the last surviving row. |
| SchemaDocs.SpliceRows | scripts/fixes/db_schema_fix.py:52-58 | Scaffold rows go in right after the last row; without one nothing is added. |
| SchemaDocs.RefreshCount | scripts/fixes/db_schema_fix.py:60-63 | Only the first line that begins with a count of tables is rewritten. |
| SchemaDocs.ScaffoldIsRow | scripts/fixes/db_schema_fix.py:24-25 | A scaffold row is read by the checker as a row of its own table. |
| SchemaDocs.RowNamesAreWords | scripts/checks/docs/db_schema_check.py:12-14 | Every name the checker reads off a row is a word. |
| SchemaDocs.RecountKeepsTables | scripts/fixes/db_schema_fix.py:60-63 | Rewriting the count never changes which tables are documented. |
| SchemaMeaning.RowExactly | scripts/checks/docs/db_schema_check.py:12-14 | A row is a line of four bars or more that begins with a bar, spaces, a word between backticks, spaces and a bar; the word is its table. |
| SchemaMeaning.StaleExactly | scripts/fixes/db_schema_fix.py:35-50 | A name of no table is reported as often as it has a row, and no other name is. |
| SchemaMeaning.ScaffoldText | scripts/fixes/db_schema_fix.py:24-25 | The row written for a missing table, character by character. |
| SchemaMeaning.FixMeans | scripts/fixes/db_schema_fix.py:28-68 | Line by line: rows of tables that do not exist go, one row for each missing table comes in after the last row, in ascending order, and the first line that begins with a count of tables states the number there are, in decimal; no other line changes. |
| SchemaLaws.FixSatisfiesCheckExactly | scripts/fixes/db_schema_fix.py:28-68 | After the fix the checked set equals the real one if and only if nothing was missing, or a live row was there to anchor the new ones and every missing name is a word. |
| SchemaLaws.FixIsIdempotentExactly | scripts/fixes/db_schema_fix.py:28-68 | Among names without newline or backtick, fixing a fixed document changes nothing if and only if every missing name is a word or no live row is there to anchor new ones. |
| SchemaLaws.SettledAfterOnce | scripts/fixes/db_schema_fix.py:28-68 | For every name: when rows can carry the missing names, or none can be added, one fix settles the document. |
| SchemaLaws.NonWordIsAppendedAgain | scripts/fixes/db_schema_fix.py:52-58 | The failing family: any name without newline or backtick that is no word makes a document of one live row grow at every run; a-b is such a name. |
| SchemaLaws.GrowsAtEveryRun | scripts/fixes/db_schema_fix.py:52-58 | With a live row and a missing plain name that is no word, every run after the first adds lines to any document, and the first too when no row is stale. |
| SchemaLaws.MisreadNameSettles | scripts/fixes/db_schema_fix.py:24-58 | Why the exact law speaks of plain names: a missing name that closes its own cell with a backtick is no word, is read back as another table, and settles all the same. |

## Left out

- Float rounding, infinities and the exact text of error messages.
- Database rows, snapshots, unrealized P&L and trade notes written while a run is persisted (`src/backtesting/services/simulation.py:164-176`, `311-331`).
- The feature-history argument of a signal, and which indicators the shipped strategies compute: a strategy is arbitrary, and rolling indicators meet what is asked of it (SignalInputs.RollingIsCausal).
- Sharpe and Sortino ratios, annualised returns, the benchmark series and the bootstrap interval: irrational or random numbers without structural claims.
- The fields a search copies unchanged into every run it issues (account, tickers file, costs, warm-up), and resolving a strategy label against the catalog.
- The tally of rejection reasons in the message of a window without an eligible candidate.
- Parameter fingerprints: a hash of canonical JSON.
- Listing modules on disk and reading or writing files: the set of files, the text and the directory are values.
- Malformed dates and timestamps beyond the shapes modelled: a parser for a date, the letter T, a time to the second, a fraction and an offset, refusing everything else. The library also reads a date alone, other separators than T, week dates, compact forms, times without seconds and offsets with seconds.
- Line separators other than the newline character, and characters outside ASCII in names and spaces.
- Market-data, broker, news and policy adapters, SQL, migrations, the web backend and the frontend.
- RateLimiter.Limiter.Acquire: stated for a caller without competition; with other threads the number of sleeps has no bound, and CallPacing states what holds then.
- Windowing.BuildSplits: years beyond 9999, which the library's dates cannot name, are computed like any other.
- Sizing.AllocationFitsCash: asks that fee or cash be at least zero, the exact condition of Sizing.AllocationFitsExactly.
- BarDiscipline.BuysNeverOverspend: asks for a book without short positions and a list without repeats, which every state of a run and every bar's ticker list are.
- RunReplay.RunReplays: asks that sells be priced at zero or more, the exact condition of RunReplay.ReplayExact, and that the universe be written in upper case, as the metrics normalise tickers.
- RunReplay.AlwaysReplaysExactly: stated for a universe in upper case that has a ticker to trade, and percentages the sizing accepts; without a ticker every run is empty.
- Solvency.AlwaysSolventExactly: stated for a universe that has a ticker to trade and percentages the sizing accepts; without a ticker every run is empty.
- MarkedRuns.RunIsPriced: one direction, for every bar at once; EquityIsNumberExactly has both, bar by bar.
- Drawdown.WorstIsPairwise: asks for a non-negative curve with a positive first mark; PairwiseExactly is the exact form.
- BackupRetention.PruneThenAdd: asks for a window of minus one or more, the exact condition of BackupRetention.IdempotentExactly.
- BackupRetention.Directory.Prune: takes stamps to tell backups apart; two file names can be read as one stamp, as a field may be written with one digit, and such twins are not modelled.
- Attribution.BarAttribution: asks that what is held be listed among the prices of both bars, which the run's marks, taken for the whole universe, always do; PanelMarks.PanelBarAttribution does without.
- Attribution.RunAttribution: asks that a mark once a number stays one, which forward filling gives (PanelMarks.PanelMarksPersist); PanelMarks.PanelRunAttribution does without.
- LiveAgreement.LastTwoReadersAlikeExactly: asks for a history without gaps; CurrentReadersAlikeExactly says what a gap does.
- CandidateScore.WinnerIgnoresOrder: asks that indices tell candidates apart, as the search numbers them.
- SchemaLaws.FixIsIdempotentExactly: among names without newline or backtick; a name that closes its own cell can be read back as another table's row and settle all the same (SchemaLaws.MisreadNameSettles).
- MapDocs.FixKeepsUndocumented: asks that the source modules be files on disk, which is where the checker takes them from.
