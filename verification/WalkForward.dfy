/** The walk-forward search: windows, candidates, winners, holdout. */
module WalkForward {
  import opened Outcomes
  import opened Calendar
  import opened Windowing
  import opened SplitLaws
  import opened CandidateScore
  import opened CandidateGrid
  import opened RunTrace
  import Ordering

  /** What runs backtests; it remembers every run it was asked for. */
  class Backtester {
    const engine: Engine
    var trace: seq<RunConfig>

    constructor (engine: Engine)
      ensures this.engine == engine && trace == []
    {
      this.engine, trace := engine, [];
    }

    method Run(config: RunConfig) returns (r: Option<RunResult>)
      modifies this`trace
      ensures trace == old(trace) + [config] && r == engine(trace)
    {
      trace := trace + [config];
      r := engine(trace);
    }
  }

  method TrainCandidates(backtester: Backtester, split: Split, candidates: seq<Params>)
    returns (r: Option<seq<Candidate>>)
    modifies backtester`trace
    ensures r.Some? ==> backtester.trace == old(backtester.trace) + Trainings(split, candidates)
                        && Scored(backtester.engine, old(backtester.trace), split, candidates, r.value)
    ensures r.None? ==> exists part ::
                backtester.trace == old(backtester.trace) + part
                && TrainingStopped(backtester.engine, old(backtester.trace), split, candidates, part)
  {
    var results: seq<Candidate> := [];
    ghost var before, trainings := backtester.trace, Trainings(split, candidates);
    for i := 0 to |candidates|
      invariant |results| == i && backtester.trace == before + trainings[..i]
      invariant forall k: nat :: k < i ==> ScoredAt(backtester.engine, before + trainings[..k + 1], candidates[k], k, results[k])
    {
      var next := i + 1;
      var run := backtester.Run(TrainRun(split, candidates[i]));
      assert trainings[..next] == trainings[..i] + [trainings[i]];
      assert backtester.trace == before + trainings[..next];
      if run.None? {
        assert TrainingStopped(backtester.engine, before, split, candidates, trainings[..next]);
        return None;
      }
      var result := run.value;
      var scored := EvaluateCandidate(i, candidates[i], result.annualizedReturnPct, result.maxDrawdownPct, result.tradeCount);
      assert ScoredAt(backtester.engine, before + trainings[..next], candidates[i], i, scored);
      results := results + [scored];
    }
    assert trainings[..|candidates|] == trainings;
    return Some(results);
  }

  method SelectWindowWinner(backtester: Backtester, split: Split, candidates: seq<Params>)
    returns (r: Option<(Candidate, seq<Candidate>)>)
    modifies backtester`trace
    ensures r.Some? ==> backtester.trace == old(backtester.trace) + Trainings(split, candidates)
                        && Scored(backtester.engine, old(backtester.trace), split, candidates, r.value.1)
                        && Won(r.value.1, r.value.0)
    ensures r.None? ==> exists part ::
                backtester.trace == old(backtester.trace) + part
                && TrainingStopped(backtester.engine, old(backtester.trace), split, candidates, part)
  {
    var results := TrainCandidates(backtester, split, candidates);
    if results.None? {
      return None;
    }
    var winner := SelectWinner(results.value);
    if winner.None? {
      assert TrainingStopped(backtester.engine, old(backtester.trace), split, candidates, Trainings(split, candidates));
      return None;
    }
    return Some((winner.value, results.value));
  }

  method RunOneWindow(backtester: Backtester, index: nat, split: Split, candidates: seq<Params>)
    returns (r: Option<WindowSelection>)
    modifies backtester`trace
    ensures r.Some? ==> backtester.trace == old(backtester.trace) + RunsOf(r.value, candidates)
                        && WindowSound(backtester.engine, old(backtester.trace), split, index, candidates, r.value)
    ensures r.None? ==> exists part ::
                backtester.trace == old(backtester.trace) + part
                && WindowStopped(backtester.engine, old(backtester.trace), split, index, candidates, part)
  {
    ghost var before := backtester.trace;
    var chosen := SelectWindowWinner(backtester, split, candidates);
    if chosen.None? {
      return None;
    }
    var (winner, results) := chosen.value;
    ghost var tested := Trainings(split, candidates) + [WinnerRun(split, index, winner.params)];
    var winnerOos := backtester.Run(WinnerRun(split, index, winner.params));
    assert backtester.trace == before + tested;
    if winnerOos.None? {
      assert TestStoppedAt(backtester.engine, before, split, index, candidates, winner.params, tested);
      return None;
    }
    var baselineOos := backtester.Run(BaselineRun(split));
    assert backtester.trace == before + (tested + [BaselineRun(split)]);
    if baselineOos.None? {
      assert TestStoppedAt(backtester.engine, before, split, index, candidates, winner.params, tested + [BaselineRun(split)]);
      return None;
    }
    assert before + tested == before + Trainings(split, candidates) + [WinnerRun(split, index, winner.params)];
    assert tested + [BaselineRun(split)] == WindowRuns(split, index, candidates, winner.params);
    return Some(WindowSelection(index, split, |candidates|, winner, winnerOos.value, baselineOos.value, results));
  }

  lemma SearchedExtends(engine: Engine, splits: seq<Split>, candidates: seq<Params>,
                        selections: seq<WindowSelection>, s: WindowSelection)
    requires Searched(engine, splits, candidates, selections) && |selections| < |splits|
    requires WindowSound(engine, TraceOf(selections, candidates), splits[|selections|], |selections| + 1, candidates, s)
    ensures Searched(engine, splits, candidates, selections + [s])
    ensures TraceOf(selections + [s], candidates) == TraceOf(selections, candidates) + RunsOf(s, candidates)
  {
    var all := selections + [s];
    assert all[..|selections|] == selections;
    forall j: nat | j < |all|
      ensures SearchedAt(engine, splits, candidates, all, j)
    {
      if j < |selections| {
        assert SearchedAt(engine, splits, candidates, selections, j);
        assert all[..j] == selections[..j];
      }
    }
  }

  /** All windows in order; on failure, how many had finished. */
  method SearchWindows(backtester: Backtester, splits: seq<Split>, candidates: seq<Params>)
    returns (r: Result<seq<WindowSelection>, nat>)
    requires backtester.trace == []
    modifies backtester`trace
    ensures r.Success? ==> |r.value| == |splits| && Searched(backtester.engine, splits, candidates, r.value)
                           && backtester.trace == TraceOf(r.value, candidates)
    ensures r.Failure? ==> exists selections, part ::
                |selections| == r.error && backtester.trace == TraceOf(selections, candidates) + part
                && StoppedAfter(backtester.engine, splits, candidates, None, WindowSearch, selections, part)
  {
    var selections: seq<WindowSelection> := [];
    for k := 0 to |splits|
      invariant |selections| == k && Searched(backtester.engine, splits, candidates, selections)
      invariant backtester.trace == TraceOf(selections, candidates)
    {
      var window := RunOneWindow(backtester, k + 1, splits[k], candidates);
      if window.None? {
        ghost var part :| backtester.trace == TraceOf(selections, candidates) + part
                          && WindowStopped(backtester.engine, TraceOf(selections, candidates), splits[k], k + 1, candidates, part);
        assert StoppedAfter(backtester.engine, splits, candidates, None, WindowSearch, selections, part);
        return Failure(k);
      }
      SearchedExtends(backtester.engine, splits, candidates, selections, window.value);
      selections := selections + [window.value];
    }
    return Success(selections);
  }

  datatype HoldoutOutcome = HoldoutOutcome(start: Date, end: Date, winnerParams: Params,
                                           winner: RunResult, baseline: RunResult)

  /** The holdout pair ran, winner first, on the last window's winning parameters. */
  ghost predicate HoldoutSound(engine: Engine, before: seq<RunConfig>, holdout: (Date, Date), params: Params, o: HoldoutOutcome) {
    var first := before + [HoldoutWinnerRun(holdout, params)];
    && o.start == holdout.0 && o.end == holdout.1 && o.winnerParams == params
    && engine(first) == Some(o.winner)
    && engine(first + [HoldoutBaselineRun(holdout)]) == Some(o.baseline)
  }

  method RunHoldout(backtester: Backtester, holdout: (Date, Date), params: Params) returns (r: Option<HoldoutOutcome>)
    modifies backtester`trace
    ensures r.Some? ==> backtester.trace == old(backtester.trace) + HoldoutRuns(Some(holdout), params)
                        && HoldoutSound(backtester.engine, old(backtester.trace), holdout, params, r.value)
    ensures r.None? ==> exists part ::
                backtester.trace == old(backtester.trace) + part
                && HoldoutStopped(backtester.engine, old(backtester.trace), holdout, params, part)
  {
    ghost var before := backtester.trace;
    ghost var first, second := HoldoutWinnerRun(holdout, params), HoldoutBaselineRun(holdout);
    var winner := backtester.Run(HoldoutWinnerRun(holdout, params));
    if winner.None? {
      assert HoldoutStopped(backtester.engine, before, holdout, params, [first]);
      return None;
    }
    var baseline := backtester.Run(HoldoutBaselineRun(holdout));
    assert backtester.trace == before + ([first] + [second]);
    if baseline.None? {
      assert HoldoutStopped(backtester.engine, before, holdout, params, [first] + [second]);
      return None;
    }
    assert [first] + [second] == HoldoutRuns(Some(holdout), params);
    return Some(HoldoutOutcome(holdout.0, holdout.1, params, winner.value, baseline.value));
  }

  // --------------------------------------------------------- the whole search

  datatype Config = Config(searchSpace: seq<(string, seq<ParamValue>)>, start: Option<Date>, end: Option<Date>,
                           lookback: Option<int>, geometry: Geometry, budget: int)

  datatype Strategy = Strategy(params: Params, overrides: Params)

  datatype Summary = Summary(baselineParams: Params, promotionParams: Params, windows: seq<WindowSelection>,
                             holdout: Option<HoldoutOutcome>)

  datatype OptimizerError =
    | UnknownKeys(keys: set<string>)
    | BadRunWindow(window: RunWindowError)
    | BadSplits(split: SplitError)
    | BadGrid(grid: GridError)
    | RunFailed(stage: Stage, windowsCompleted: nat)

  function UnknownNames(cfg: Config, strategy: Strategy): set<string> {
    ToSpace(cfg.searchSpace).Keys - strategy.params.Keys
  }

  /** The splits and holdout a configuration asks for, or why there are none. */
  function PlanOf(cfg: Config, strategy: Strategy, today: Date): Result<(seq<Split>, Option<(Date, Date)>), OptimizerError> {
    if UnknownNames(cfg, strategy) != {} then Failure(UnknownKeys(UnknownNames(cfg, strategy))) else
      var window := ResolveRunWindow(cfg.start, cfg.end, cfg.lookback, today);
      if window.Failure? then Failure(BadRunWindow(window.error)) else
        var plan := SplitPlan(window.value.0, window.value.1, cfg.geometry);
        if plan.Failure? then Failure(BadSplits(plan.error)) else Success(plan.value)
  }

  /** The names of the search space, as they were written, that the strategy does not have. */
  ghost predicate AreUnknown(cfg: Config, strategy: Strategy, keys: set<string>) {
    && (forall name :: name in keys ==> name !in strategy.params && exists i :: 0 <= i < |cfg.searchSpace| && cfg.searchSpace[i].0 == name)
    && (forall i :: 0 <= i < |cfg.searchSpace| && cfg.searchSpace[i].0 !in strategy.params ==> cfg.searchSpace[i].0 in keys)
  }

  /** Unknown names first, then the run window, then the splits of it. */
  ghost predicate Planned(cfg: Config, strategy: Strategy, today: Date,
                          plan: Result<(seq<Split>, Option<(Date, Date)>), OptimizerError>)
  {
    exists unknown :: AreUnknown(cfg, strategy, unknown) &&
      if unknown != {} then plan == Failure(UnknownKeys(unknown)) else PlannedOnWindow(cfg, today, plan)
  }

  ghost predicate PlannedOnWindow(cfg: Config, today: Date, plan: Result<(seq<Split>, Option<(Date, Date)>), OptimizerError>) {
    exists window :: RunWindowIs(cfg.start, cfg.end, cfg.lookback, today, window) &&
      match window
      case Failure(error) => plan == Failure(BadRunWindow(error))
      case Success(dates) => PlannedOnDates(cfg, dates.0, dates.1, plan)
  }

  ghost predicate PlannedOnDates(cfg: Config, start: Date, end: Date,
                                 plan: Result<(seq<Split>, Option<(Date, Date)>), OptimizerError>)
  {
    exists splits :: Answers(start, end, cfg.geometry, splits) &&
      match splits
      case Failure(error) => plan == Failure(BadSplits(error))
      case Success(value) => plan == Success(value)
  }

  lemma {:induction false} SpaceNames(entries: seq<(string, seq<ParamValue>)>, name: string)
    ensures name in ToSpace(entries) <==> exists i :: 0 <= i < |entries| && entries[i].0 == name
  {
    if entries != [] {
      var n := |entries| - 1;
      var front, last := entries[..n], entries[n];
      SpaceNames(front, name);
      assert forall i :: 0 <= i < n ==> entries[i] == front[i];
    }
  }

  lemma UnknownExactly(cfg: Config, strategy: Strategy)
    ensures AreUnknown(cfg, strategy, UnknownNames(cfg, strategy))
  {
    forall name
      ensures name in ToSpace(cfg.searchSpace) <==> exists i :: 0 <= i < |cfg.searchSpace| && cfg.searchSpace[i].0 == name
    {
      SpaceNames(cfg.searchSpace, name);
    }
  }

  /** The plan, or the first thing wrong with the configuration. */
  lemma PlanExactly(cfg: Config, strategy: Strategy, today: Date)
    requires ValidDates(cfg, today)
    ensures Planned(cfg, strategy, today, PlanOf(cfg, strategy, today))
  {
    UnknownExactly(cfg, strategy);
    if UnknownNames(cfg, strategy) == {} {
      RunWindowExactly(cfg.start, cfg.end, cfg.lookback, today);
      var window := ResolveRunWindow(cfg.start, cfg.end, cfg.lookback, today);
      if window.Success? {
        RunWindowIsValid(cfg, today);
        PlanAnswers(window.value.0, window.value.1, cfg.geometry);
        assert PlannedOnDates(cfg, window.value.0, window.value.1, PlanOf(cfg, strategy, today));
      }
      assert PlannedOnWindow(cfg, today, PlanOf(cfg, strategy, today));
    }
  }

  ghost predicate ValidDates(cfg: Config, today: Date) {
    today.Valid() && (cfg.start.Some? ==> cfg.start.value.Valid()) && (cfg.end.Some? ==> cfg.end.value.Valid())
  }

  lemma RunWindowIsValid(cfg: Config, today: Date)
    requires ValidDates(cfg, today)
    ensures var w := ResolveRunWindow(cfg.start, cfg.end, cfg.lookback, today);
            w.Success? ==> w.value.0.Valid() && w.value.1.Valid()
  {
    var last := cfg.end.GetOr(today);
    if cfg.lookback.Some? {
      ShiftLands(last, -cfg.lookback.value);
    }
    ShiftLands(last, -DEFAULT_RUN_WINDOW_MONTHS);
  }

  /** A finished search over the plan: every split, then the holdout on the last winner. */
  ghost predicate Finished(engine: Engine, strategy: Strategy, plan: (seq<Split>, Option<(Date, Date)>),
                           candidates: seq<Params>, s: Summary)
  {
    var (splits, holdout) := plan;
    && 0 < |splits| == |s.windows|
    && Searched(engine, splits, candidates, s.windows)
    && var last := s.windows[|splits| - 1].winner.params;
    && s.baselineParams == strategy.params
    && s.promotionParams == strategy.overrides + last
    && (s.holdout.Some? <==> holdout.Some?)
    && (holdout.Some? ==> HoldoutSound(engine, TraceOf(s.windows, candidates), holdout.value, last, s.holdout.value))
  }

  /** A finished search issued the windows' runs and then the holdout pair, nothing else. */
  ghost predicate Issued(plan: (seq<Split>, Option<(Date, Date)>), candidates: seq<Params>, s: Summary, trace: seq<RunConfig>) {
    && s.windows != []
    && trace == TraceOf(s.windows, candidates) + HoldoutRuns(plan.1, s.windows[|s.windows| - 1].winner.params)
  }

  /** A failed search had issued the finished windows' runs and part of the failing stage. */
  ghost predicate FailedAt(engine: Engine, plan: (seq<Split>, Option<(Date, Date)>), candidates: seq<Params>,
                           stage: Stage, completed: nat, trace: seq<RunConfig>)
  {
    exists selections, part ::
      |selections| == completed && trace == TraceOf(selections, candidates) + part
      && StoppedAfter(engine, plan.0, candidates, plan.1, stage, selections, part)
  }

  ghost predicate GridOf(cfg: Config, candidates: seq<Params>) {
    cfg.searchSpace != [] && IsGrid(ToSpace(cfg.searchSpace), candidates) && |candidates| <= cfg.budget
  }

  /** No space, a name without values, or more candidates than the budget allows. */
  ghost predicate GridRefused(cfg: Config, error: GridError) {
    var space := ToSpace(cfg.searchSpace);
    match error
    case EmptySpace => cfg.searchSpace == []
    case NoValues(name) => FirstEmpty(space, name)
    case OverBudget(total) => cfg.searchSpace != [] && AllHaveValues(space) && total == GridSize(Pools(space)) > cfg.budget
  }

  lemma GridFitsBudget(cfg: Config, candidates: seq<Params>)
    requires GridOf(cfg, candidates)
    ensures AllHaveValues(ToSpace(cfg.searchSpace)) && GridSize(Pools(ToSpace(cfg.searchSpace))) <= cfg.budget
    ensures candidates != []
  {
    var space := ToSpace(cfg.searchSpace);
    var names, pools := Ordering.SortedStrings(space.Keys), Pools(space);
    GridNotEmpty(pools);
    forall name | name in space
      ensures space[name] != []
    {
      assert name in names;
      var k :| 0 <= k < |names| && names[k] == name;
      assert pools[k] != [];
    }
  }

  method RunPlan(backtester: Backtester, strategy: Strategy, plan: (seq<Split>, Option<(Date, Date)>), candidates: seq<Params>)
    returns (r: Result<Summary, (Stage, nat)>)
    requires backtester.trace == [] && plan.0 != []
    modifies backtester`trace
    ensures r.Success? ==> Finished(backtester.engine, strategy, plan, candidates, r.value)
                           && Issued(plan, candidates, r.value, backtester.trace)
    ensures r.Failure? ==> FailedAt(backtester.engine, plan, candidates, r.error.0, r.error.1, backtester.trace)
  {
    var (splits, holdout) := plan;
    var searched := SearchWindows(backtester, splits, candidates);
    if searched.Failure? {
      ghost var selections, part :| |selections| == searched.error && backtester.trace == TraceOf(selections, candidates) + part
                && StoppedAfter(backtester.engine, splits, candidates, None, WindowSearch, selections, part);
      assert StoppedAfter(backtester.engine, splits, candidates, holdout, WindowSearch, selections, part);
      return Failure((WindowSearch, searched.error));
    }
    var windows := searched.value;
    var winner := windows[|windows| - 1].winner.params;
    var promotion := strategy.overrides + winner;
    if holdout.None? {
      return Success(Summary(strategy.params, promotion, windows, None));
    }
    var outcome := RunHoldout(backtester, holdout.value, winner);
    if outcome.None? {
      ghost var part :| backtester.trace == TraceOf(windows, candidates) + part
                        && HoldoutStopped(backtester.engine, TraceOf(windows, candidates), holdout.value, winner, part);
      assert StoppedAfter(backtester.engine, splits, candidates, holdout, Holdout, windows, part);
      return Failure((Holdout, |windows|));
    }
    return Success(Summary(strategy.params, promotion, windows, outcome));
  }

  lemma PlanHasWindows(cfg: Config, strategy: Strategy, today: Date)
    requires ValidDates(cfg, today) && PlanOf(cfg, strategy, today).Success?
    ensures PlanOf(cfg, strategy, today).value.0 != []
  {
    var window := ResolveRunWindow(cfg.start, cfg.end, cfg.lookback, today).value;
    WindowsLength(window.0, cfg.geometry, WindowCount(window.0, window.1, cfg.geometry));
  }

  method RunWalkForwardOptimization(backtester: Backtester, cfg: Config, strategy: Strategy, today: Date)
    returns (r: Result<Summary, OptimizerError>)
    requires backtester.trace == [] && ValidDates(cfg, today)
    modifies backtester`trace
    ensures PlanOf(cfg, strategy, today).Failure? ==>
              r == Failure(PlanOf(cfg, strategy, today).error) && backtester.trace == []
    ensures r.Failure? && r.error.BadGrid? ==> backtester.trace == [] && !exists candidates :: GridOf(cfg, candidates)
    ensures r.Failure? && r.error.BadGrid? ==> GridRefused(cfg, r.error.grid)
    ensures r.Failure? && !r.error.BadGrid? && !r.error.RunFailed? ==> PlanOf(cfg, strategy, today).Failure?
    ensures r.Success? || r.error.RunFailed? || r.error.BadGrid? ==> PlanOf(cfg, strategy, today).Success?
    ensures r.Success? ==> exists candidates ::
                GridOf(cfg, candidates)
                && Finished(backtester.engine, strategy, PlanOf(cfg, strategy, today).value, candidates, r.value)
                && Issued(PlanOf(cfg, strategy, today).value, candidates, r.value, backtester.trace)
    ensures r.Failure? && r.error.RunFailed? ==> exists candidates ::
                GridOf(cfg, candidates)
                && FailedAt(backtester.engine, PlanOf(cfg, strategy, today).value, candidates,
                            r.error.stage, r.error.windowsCompleted, backtester.trace)
  {
    var names := ToSpace(cfg.searchSpace).Keys;
    var unknown := names - strategy.params.Keys;
    if unknown != {} {
      return Failure(UnknownKeys(unknown));
    }
    var window := ResolveRunWindow(cfg.start, cfg.end, cfg.lookback, today);
    if window.Failure? {
      return Failure(BadRunWindow(window.error));
    }
    RunWindowIsValid(cfg, today);
    var plan := BuildSplits(window.value.0, window.value.1, cfg.geometry);
    if plan.Failure? {
      return Failure(BadSplits(plan.error));
    }
    PlanHasWindows(cfg, strategy, today);
    var grid := GenerateCandidates(cfg.searchSpace, cfg.budget);
    if grid.Failure? {
      forall candidates | GridOf(cfg, candidates)
        ensures false
      {
        GridFitsBudget(cfg, candidates);
      }
      return Failure(BadGrid(grid.error));
    }
    assert GridOf(cfg, grid.value);
    var summary := RunPlan(backtester, strategy, plan.value, grid.value);
    if summary.Failure? {
      return Failure(RunFailed(summary.error.0, summary.error.1));
    }
    return Success(summary.value);
  }

  // ------------------------------------------------------------- whole searches

  /** A finished search issued candidates x windows + 2 x windows + 2 (with a holdout) runs. */
  lemma FinishedRunCount(engine: Engine, strategy: Strategy, plan: (seq<Split>, Option<(Date, Date)>),
                         candidates: seq<Params>, s: Summary, trace: seq<RunConfig>)
    requires Finished(engine, strategy, plan, candidates, s) && Issued(plan, candidates, s, trace)
    ensures |trace| == Times(|candidates|, |plan.0|) + 2 * |plan.0| + (if plan.1.Some? then 2 else 0)
  {
    RunCount(s.windows, candidates, plan.1, s.windows[|s.windows| - 1].winner.params);
  }

  /** A failed search's stage and finished windows can be read off the number of runs it issued. */
  lemma FailurePointIsExact(engine: Engine, plan: (seq<Split>, Option<(Date, Date)>), candidates: seq<Params>,
                            stage: Stage, completed: nat, trace: seq<RunConfig>)
    requires candidates != [] && FailedAt(engine, plan, candidates, stage, completed, trace)
    ensures |trace| > 0 && completed == Quot(|trace| - 1, PerWindow(candidates))
    ensures stage == Holdout <==> |trace| > Times(|plan.0|, PerWindow(candidates))
  {
    var selections, part :| |selections| == completed && trace == TraceOf(selections, candidates) + part
                            && StoppedAfter(engine, plan.0, candidates, plan.1, stage, selections, part);
    FailureMatchesTrace(engine, plan.0, candidates, plan.1, stage, selections, part, |trace|);
  }

  lemma SearchedOnPlan(engine: Engine, start: Date, end: Date, g: Geometry, candidates: seq<Params>,
                       selections: seq<WindowSelection>)
    requires start.Valid() && end.Valid() && SplitPlan(start, end, g).Success?
    requires Searched(engine, SplitPlan(start, end, g).value.0, candidates, selections)
    ensures OnPlan(start, end, g, selections)
  {
    var splits := SplitPlan(start, end, g).value.0;
    forall j: nat | j < |selections|
      ensures selections[j].split == splits[j]
    {
      assert SearchedAt(engine, splits, candidates, selections, j);
    }
  }

  /** The holdout dates are touched by the last two runs of a finished search and by no other. */
  lemma OnlyTheLastTwoTouchHoldout(engine: Engine, strategy: Strategy, start: Date, end: Date, g: Geometry,
                                   candidates: seq<Params>, s: Summary, trace: seq<RunConfig>, p: nat)
    requires start.Valid() && end.Valid() && SplitPlan(start, end, g).Success? && g.holdout > 0
    requires Finished(engine, strategy, SplitPlan(start, end, g).value, candidates, s)
    requires Issued(SplitPlan(start, end, g).value, candidates, s, trace) && p < |trace|
    ensures !Before(trace[p].end, HoldoutStart(end, g)) <==> p >= |trace| - 2
  {
    SearchedOnPlan(engine, start, end, g, candidates, s.windows);
    var windows := TraceOf(s.windows, candidates);
    if p < |windows| {
      assert windows[p] in windows;
      WindowsStayClearOfHoldout(start, end, g, s.windows, candidates, windows[p]);
    } else {
      BeforeByMonth(end, HoldoutStart(end, g));
    }
  }

  /** A search that fails before the holdout stage has not touched the holdout dates. */
  lemma FailedSearchStaysClear(engine: Engine, start: Date, end: Date, g: Geometry, candidates: seq<Params>,
                               completed: nat, trace: seq<RunConfig>, run: RunConfig)
    requires start.Valid() && end.Valid() && SplitPlan(start, end, g).Success? && g.holdout > 0
    requires FailedAt(engine, SplitPlan(start, end, g).value, candidates, WindowSearch, completed, trace)
    requires run in trace
    ensures Before(run.end, HoldoutStart(end, g))
  {
    var plan := SplitPlan(start, end, g).value;
    var selections, part :| |selections| == completed && trace == TraceOf(selections, candidates) + part
                            && StoppedAfter(engine, plan.0, candidates, plan.1, WindowSearch, selections, part);
    SearchedOnPlan(engine, start, end, g, candidates, selections);
    var done := TraceOf(selections, candidates);
    if run in done {
      WindowsStayClearOfHoldout(start, end, g, selections, candidates, run);
    } else {
      PartStaysClear(engine, done, start, end, g, completed, completed + 1, candidates, part, run);
    }
  }

  lemma PartStaysClear(engine: Engine, before: seq<RunConfig>, start: Date, end: Date, g: Geometry, k: nat, index: nat,
                       candidates: seq<Params>, part: seq<RunConfig>, run: RunConfig)
    requires start.Valid() && end.Valid() && Sound(g) && g.holdout > 0
    requires k < |Windows(start, g, WindowCount(start, end, g))| && run in part
    requires WindowStopped(engine, before, Windows(start, g, WindowCount(start, end, g))[k], index, candidates, part)
    ensures Before(run.end, HoldoutStart(end, g))
  {
    PartOnSplit(engine, before, Windows(start, g, WindowCount(start, end, g))[k], index, candidates, part, run);
    SplitIsChronological(start, end, g, WindowCount(start, end, g), k);
  }

  lemma PartOnSplit(engine: Engine, before: seq<RunConfig>, split: Split, index: nat, candidates: seq<Params>,
                    part: seq<RunConfig>, run: RunConfig)
    requires WindowStopped(engine, before, split, index, candidates, part) && run in part
    ensures run.end == split.trainEnd || run.end == split.testEnd
  {
    if TestingStopped(engine, before, split, index, candidates, part) {
      var results, winner :| Scored(engine, before, split, candidates, results) && Won(results, winner)
                             && TestStoppedAt(engine, before, split, index, candidates, winner.params, part);
    }
  }
}
