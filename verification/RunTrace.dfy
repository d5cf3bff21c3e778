/** The runs a walk-forward search issues, in order, and what they may touch. */
module RunTrace {
  import opened Outcomes
  import opened Calendar
  import opened Windowing
  import opened SplitLaws
  import opened CandidateScore
  import opened CandidateGrid

  datatype Purpose = Standalone | WalkForwardOos | FinalHoldout

  datatype RunName = WindowRun(index: nat) | HoldoutRun

  /** What one backtest is asked to do; a persisted run leaves a row behind. */
  datatype RunConfig = RunConfig(start: Date, end: Date, override: Option<Params>, purpose: Purpose,
                                 name: Option<RunName>, persisted: bool)

  datatype RunResult = RunResult(runId: int, annualizedReturnPct: Option<real>, maxDrawdownPct: real,
                                 tradeCount: int, totalReturnPct: real)

  /** The result of the last run of a trace, given everything run before it; none when it raises. */
  type Engine = seq<RunConfig> -> Option<RunResult>

  datatype WindowSelection = WindowSelection(index: nat, split: Split, candidateCount: nat, winner: Candidate,
                                             winnerOos: RunResult, baselineOos: RunResult, candidates: seq<Candidate>)

  // ------------------------------------------------------ the runs of a window

  function TrainRun(split: Split, params: Params): RunConfig {
    RunConfig(split.trainStart, split.trainEnd, Some(params), Standalone, None, false)
  }

  function WinnerRun(split: Split, index: nat, params: Params): RunConfig {
    RunConfig(split.testStart, split.testEnd, Some(params), WalkForwardOos, Some(WindowRun(index)), true)
  }

  function BaselineRun(split: Split): RunConfig {
    RunConfig(split.testStart, split.testEnd, None, Standalone, None, false)
  }

  function HoldoutWinnerRun(holdout: (Date, Date), params: Params): RunConfig {
    RunConfig(holdout.0, holdout.1, Some(params), FinalHoldout, Some(HoldoutRun), true)
  }

  function HoldoutBaselineRun(holdout: (Date, Date)): RunConfig {
    RunConfig(holdout.0, holdout.1, None, Standalone, None, false)
  }

  function Trainings(split: Split, candidates: seq<Params>): (runs: seq<RunConfig>)
    ensures |runs| == |candidates|
  {
    seq(|candidates|, i requires 0 <= i < |candidates| => TrainRun(split, candidates[i]))
  }

  /** A window's runs: every candidate trained in order, then the winner, then the baseline. */
  function WindowRuns(split: Split, index: nat, candidates: seq<Params>, winner: Params): (runs: seq<RunConfig>)
    ensures |runs| == |candidates| + 2
  {
    Trainings(split, candidates) + [WinnerRun(split, index, winner), BaselineRun(split)]
  }

  function RunsOf(s: WindowSelection, candidates: seq<Params>): (runs: seq<RunConfig>)
    ensures |runs| == |candidates| + 2
  {
    WindowRuns(s.split, s.index, candidates, s.winner.params)
  }

  /** The runs of finished windows, window after window. */
  function TraceOf(selections: seq<WindowSelection>, candidates: seq<Params>): seq<RunConfig> {
    if selections == [] then [] else
      var n := |selections| - 1;
      TraceOf(selections[..n], candidates) + RunsOf(selections[n], candidates)
  }

  function HoldoutRuns(holdout: Option<(Date, Date)>, params: Params): seq<RunConfig> {
    if holdout.None? then [] else [HoldoutWinnerRun(holdout.value, params), HoldoutBaselineRun(holdout.value)]
  }

  // -------------------------------------------------------- results and choice

  /** Every candidate was scored on the result its own training run returned. */
  ghost predicate Scored(engine: Engine, before: seq<RunConfig>, split: Split, candidates: seq<Params>,
                         results: seq<Candidate>)
  {
    && |results| == |candidates|
    && forall i: nat :: i < |candidates| ==> ScoredAt(engine, before + Trainings(split, candidates)[..i + 1],
                                                      candidates[i], i, results[i])
  }

  ghost predicate ScoredAt(engine: Engine, trace: seq<RunConfig>, params: Params, index: nat, c: Candidate) {
    var r := engine(trace);
    && r.Some?
    && c == EvaluateCandidate(index, params, r.value.annualizedReturnPct, r.value.maxDrawdownPct, r.value.tradeCount)
  }

  ghost predicate Won(results: seq<Candidate>, winner: Candidate) {
    exists i: nat :: IsWinner(results, i) && winner == results[i]
  }

  /** A finished window: scored on training, the winner chosen from the scores, both test runs returned. */
  ghost predicate WindowSound(engine: Engine, before: seq<RunConfig>, split: Split, index: nat,
                              candidates: seq<Params>, s: WindowSelection)
  {
    var trained := before + Trainings(split, candidates);
    var tested := trained + [WinnerRun(split, index, s.winner.params)];
    && s.split == split && s.index == index && s.candidateCount == |candidates|
    && Scored(engine, before, split, candidates, s.candidates)
    && Won(s.candidates, s.winner)
    && engine(tested) == Some(s.winnerOos)
    && engine(tested + [BaselineRun(split)]) == Some(s.baselineOos)
  }

  /** The listed windows are the first splits, numbered from one, each sound after those before it. */
  ghost predicate Searched(engine: Engine, splits: seq<Split>, candidates: seq<Params>,
                           selections: seq<WindowSelection>)
  {
    && |selections| <= |splits|
    && forall j: nat :: j < |selections| ==> SearchedAt(engine, splits, candidates, selections, j)
  }

  ghost predicate SearchedAt(engine: Engine, splits: seq<Split>, candidates: seq<Params>,
                             selections: seq<WindowSelection>, j: nat)
    requires j < |selections| <= |splits|
  {
    WindowSound(engine, TraceOf(selections[..j], candidates), splits[j], j + 1, candidates, selections[j])
  }

  // ----------------------------------------------------------------- failures

  datatype Stage = WindowSearch | Holdout

  /** Training stopped the window: a run raised, or nobody was eligible once all had run. */
  ghost predicate TrainingStopped(engine: Engine, before: seq<RunConfig>, split: Split, candidates: seq<Params>,
                                  part: seq<RunConfig>)
  {
    var trainings := Trainings(split, candidates);
    || (0 < |part| <= |trainings| && part == trainings[..|part|] && engine(before + part).None?)
    || (part == trainings && exists results :: Scored(engine, before, split, candidates, results) && !AnyEligible(results))
  }

  /** Testing stopped the window: the winner's run or the baseline's run raised. */
  ghost predicate TestingStopped(engine: Engine, before: seq<RunConfig>, split: Split, index: nat,
                                 candidates: seq<Params>, part: seq<RunConfig>)
  {
    exists results, winner :: Scored(engine, before, split, candidates, results) && Won(results, winner)
      && TestStoppedAt(engine, before, split, index, candidates, winner.params, part)
  }

  ghost predicate TestStoppedAt(engine: Engine, before: seq<RunConfig>, split: Split, index: nat,
                                candidates: seq<Params>, winner: Params, part: seq<RunConfig>)
  {
    var tested := Trainings(split, candidates) + [WinnerRun(split, index, winner)];
    (part == tested || part == tested + [BaselineRun(split)]) && engine(before + part).None?
  }

  ghost predicate WindowStopped(engine: Engine, before: seq<RunConfig>, split: Split, index: nat,
                                candidates: seq<Params>, part: seq<RunConfig>)
  {
    || TrainingStopped(engine, before, split, candidates, part)
    || TestingStopped(engine, before, split, index, candidates, part)
  }

  ghost predicate HoldoutStopped(engine: Engine, before: seq<RunConfig>, holdout: (Date, Date), params: Params,
                                 part: seq<RunConfig>)
  {
    var first := [HoldoutWinnerRun(holdout, params)];
    (part == first || part == first + [HoldoutBaselineRun(holdout)]) && engine(before + part).None?
  }

  /** The runs issued are those of the finished windows and the part of the stage that raised. */
  ghost predicate StoppedAfter(engine: Engine, splits: seq<Split>, candidates: seq<Params>, holdout: Option<(Date, Date)>,
                               stage: Stage, selections: seq<WindowSelection>, part: seq<RunConfig>)
  {
    var done, k := TraceOf(selections, candidates), |selections|;
    && Searched(engine, splits, candidates, selections)
    && match stage
       case WindowSearch => k < |splits| && WindowStopped(engine, done, splits[k], k + 1, candidates, part)
       case Holdout => holdout.Some? && 0 < k == |splits|
                       && HoldoutStopped(engine, done, holdout.value, selections[k - 1].winner.params, part)
  }

  // ------------------------------------------------------- counting the runs

  /** Runs per finished window. */
  function PerWindow(candidates: seq<Params>): nat {
    |candidates| + 2
  }

  lemma {:induction false} TraceLength(selections: seq<WindowSelection>, candidates: seq<Params>)
    ensures |TraceOf(selections, candidates)| == Times(|selections|, PerWindow(candidates))
  {
    OneMore(0, PerWindow(candidates));
    if selections != [] {
      var n := |selections| - 1;
      TraceLength(selections[..n], candidates);
      OneMore(n, PerWindow(candidates));
    }
  }

  lemma OneMore(a: nat, d: nat)
    ensures Times(0, d) == 0 && Times(a + 1, d) == Times(a, d) + d
  {
  }

  /** A whole search issues candidates x windows + 2 x windows + 2 (with a holdout) runs. */
  lemma RunCount(selections: seq<WindowSelection>, candidates: seq<Params>, holdout: Option<(Date, Date)>, params: Params)
    ensures |TraceOf(selections, candidates) + HoldoutRuns(holdout, params)|
         == Times(|candidates|, |selections|) + 2 * |selections| + (if holdout.Some? then 2 else 0)
  {
    TraceLength(selections, candidates);
    TwoMore(|candidates|, |selections|);
  }

  lemma TwoMore(a: nat, b: nat)
    ensures Times(b, a + 2) == Times(a, b) + 2 * b
  {
  }

  /** The part of a stage that was issued before it raised has at least one run and is not longer than the stage. */
  lemma PartLength(engine: Engine, splits: seq<Split>, candidates: seq<Params>, holdout: Option<(Date, Date)>,
                   stage: Stage, selections: seq<WindowSelection>, part: seq<RunConfig>)
    requires candidates != []
    requires StoppedAfter(engine, splits, candidates, holdout, stage, selections, part)
    ensures 0 < |part| <= PerWindow(candidates)
  {
    var done, k := TraceOf(selections, candidates), |selections|;
    if stage == WindowSearch {
      assert WindowStopped(engine, done, splits[k], k + 1, candidates, part);
    }
  }

  /**
   On failure the issued runs alone tell how far the search got: the number of finished windows is
   the whole windows before the last run, and the holdout stage failed exactly when there are more
   runs than all windows need.
   */
  lemma FailureMatchesTrace(engine: Engine, splits: seq<Split>, candidates: seq<Params>, holdout: Option<(Date, Date)>,
                            stage: Stage, selections: seq<WindowSelection>, part: seq<RunConfig>, runs: nat)
    requires candidates != []
    requires StoppedAfter(engine, splits, candidates, holdout, stage, selections, part)
    requires runs == |TraceOf(selections, candidates) + part|
    ensures runs > 0 && |selections| == Quot(runs - 1, PerWindow(candidates))
    ensures stage == Holdout <==> runs > Times(|splits|, PerWindow(candidates))
  {
    PartLength(engine, splits, candidates, holdout, stage, selections, part);
    TraceLength(selections, candidates);
    FailurePoint(|selections|, |splits|, PerWindow(candidates), |part|, runs);
    StageOrder(engine, splits, candidates, holdout, stage, selections, part);
  }

  lemma StageOrder(engine: Engine, splits: seq<Split>, candidates: seq<Params>, holdout: Option<(Date, Date)>,
                   stage: Stage, selections: seq<WindowSelection>, part: seq<RunConfig>)
    requires StoppedAfter(engine, splits, candidates, holdout, stage, selections, part)
    ensures |selections| <= |splits| && (stage == Holdout <==> |selections| == |splits|)
  {
  }

  /** The arithmetic of a failure in the middle of stage `done` of equally long stages. */
  lemma FailurePoint(done: nat, windows: nat, per: nat, part: nat, runs: nat)
    requires 0 < part <= per && runs == Times(done, per) + part && done <= windows
    ensures done == Quot(runs - 1, per)
    ensures done == windows <==> runs > Times(windows, per)
  {
    DividedUniquely(done, part - 1, per, runs - 1);
    TimesGrows(done, windows, per);
  }

  // ------------------------------------------------------ the order of the runs

  /** Run `m` of window `j` sits after all runs of the windows before it. */
  lemma {:induction false} TraceAt(selections: seq<WindowSelection>, candidates: seq<Params>, j: nat, m: nat, p: nat)
    requires j < |selections| && m < PerWindow(candidates) && p == Times(j, PerWindow(candidates)) + m
    ensures p < |TraceOf(selections, candidates)|
    ensures TraceOf(selections, candidates)[p] == RunsOf(selections[j], candidates)[m]
  {
    var n := |selections| - 1;
    TraceLength(selections[..n], candidates);
    if j < n {
      TraceAt(selections[..n], candidates, j, m, p);
    }
  }

  ghost predicate OnSplits(selections: seq<WindowSelection>, splits: seq<Split>) {
    |selections| <= |splits| && forall j :: 0 <= j < |selections| ==> selections[j].split == splits[j]
  }

  /** Every finished window is one of the built splits. */
  ghost predicate OnPlan(start: Date, end: Date, g: Geometry, selections: seq<WindowSelection>) {
    && start.Valid() && end.Valid() && Sound(g)
    && OnSplits(selections, Windows(start, g, WindowCount(start, end, g)))
  }

  /**
   Within window `j`, run `m` is a training run before position |candidates|, the persisted winner
   there and the baseline next; training ends before the test interval that the last two share.
   */
  lemma RunKinds(start: Date, end: Date, g: Geometry, selections: seq<WindowSelection>, candidates: seq<Params>,
                 j: nat, m: nat, p: nat)
    requires OnPlan(start, end, g, selections)
    requires j < |selections| && m < PerWindow(candidates) && p == Times(j, PerWindow(candidates)) + m
    ensures p < |TraceOf(selections, candidates)|
    ensures var run, split := TraceOf(selections, candidates)[p], selections[j].split;
            && (m < |candidates| ==> run == TrainRun(split, candidates[m]) && Before(run.end, split.testStart))
            && (m >= |candidates| ==> run.start == split.testStart && run.end == split.testEnd)
            && (run.persisted <==> m == |candidates|)
            && (run.persisted ==> run.override == Some(selections[j].winner.params))
            && (run.override.None? <==> m == |candidates| + 1)
  {
    TraceAt(selections, candidates, j, m, p);
    SplitIsChronological(start, end, g, WindowCount(start, end, g), j);
  }

  /** No run of any window reaches the holdout. */
  lemma {:induction false} WindowsStayClearOfHoldout(start: Date, end: Date, g: Geometry, selections: seq<WindowSelection>,
                                                     candidates: seq<Params>, run: RunConfig)
    requires OnPlan(start, end, g, selections) && g.holdout > 0
    requires run in TraceOf(selections, candidates)
    ensures Before(run.end, HoldoutStart(end, g))
  {
    var n := |selections| - 1;
    if run in TraceOf(selections[..n], candidates) {
      WindowsStayClearOfHoldout(start, end, g, selections[..n], candidates, run);
    } else {
      var m :| 0 <= m < PerWindow(candidates) && RunsOf(selections[n], candidates)[m] == run;
      ClearOfHoldout(start, end, g, selections[n], candidates, n, m);
    }
  }

  lemma ClearOfHoldout(start: Date, end: Date, g: Geometry, s: WindowSelection, candidates: seq<Params>, j: nat, m: nat)
    requires start.Valid() && end.Valid() && Sound(g) && g.holdout > 0 && m < PerWindow(candidates)
    requires j < |Windows(start, g, WindowCount(start, end, g))|
    requires s.split == Windows(start, g, WindowCount(start, end, g))[j]
    ensures Before(RunsOf(s, candidates)[m].end, HoldoutStart(end, g))
  {
    SplitIsChronological(start, end, g, WindowCount(start, end, g), j);
    var run := RunsOf(s, candidates)[m];
    assert run.end == s.split.trainEnd || run.end == s.split.testEnd;
  }

  /** Windows test in order: a later window's test interval begins after an earlier one's ended. */
  lemma TestsRunForward(start: Date, end: Date, g: Geometry, selections: seq<WindowSelection>, j: nat, k: nat)
    requires OnPlan(start, end, g, selections) && j < k < |selections|
    ensures Before(selections[j].split.testEnd, selections[k].split.testStart)
  {
    SplitsAreDisjoint(start, g, WindowCount(start, end, g), j, k);
  }

  /** The parameters tested were one of the candidates, and no eligible candidate scored better in training. */
  lemma WinnerCameFromTraining(engine: Engine, before: seq<RunConfig>, split: Split, index: nat,
                               candidates: seq<Params>, s: WindowSelection, other: Candidate)
    requires WindowSound(engine, before, split, index, candidates, s)
    requires other in s.candidates && other.eligible
    ensures s.winner.params in candidates && s.winner.eligible
    ensures s.winner.score.Some? && other.score.Some? && s.winner.score.value >= other.score.value
  {
    var i: nat :| IsWinner(s.candidates, i) && s.winner == s.candidates[i];
    forall c | c in s.candidates
      ensures Evaluated(c) && c.params in candidates
    {
      var k: nat :| k < |s.candidates| && s.candidates[k] == c;
      assert ScoredAt(engine, before + Trainings(split, candidates)[..k + 1], candidates[k], k, c);
    }
    WinnerIsBestScored(s.candidates, i, other);
  }
}
