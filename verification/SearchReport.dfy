/** A finished search read off its trace: what was asked at each position, and what is reported of the answers. */
module SearchReport {
  import opened Outcomes
  import opened Calendar
  import opened Windowing
  import opened CandidateScore
  import opened CandidateGrid
  import opened RunTrace
  import opened WalkForward

  // ---------------------------------------------------------- what is asked

  ghost predicate Covers(run: RunConfig, start: Date, end: Date) {
    run.start == start && run.end == end
  }

  /** A run that leaves nothing behind. */
  ghost predicate MetricsOnly(run: RunConfig) {
    run.purpose == Standalone && run.name == None && !run.persisted
  }

  /** The engine's answer to the run at a position, after all runs before it. */
  ghost function AnswerAt(engine: Engine, trace: seq<RunConfig>, p: nat): Option<RunResult>
    requires p < |trace|
  {
    engine(trace[..p + 1])
  }

  // --------------------------------------------------------- what is reported

  /** Candidate `m` was run over the training interval, and reported by what that run returned. */
  ghost predicate TrainedAt(engine: Engine, trace: seq<RunConfig>, p: nat, split: Split, params: Params, m: nat, c: Candidate)
    requires p < |trace|
  {
    var r := AnswerAt(engine, trace, p);
    && Covers(trace[p], split.trainStart, split.trainEnd) && trace[p].override == Some(params) && MetricsOnly(trace[p])
    && r.Some? && Measures(c, m, params, r.value.annualizedReturnPct, r.value.maxDrawdownPct, r.value.tradeCount)
    && Judged(c)
  }

  /** The winner was run over the test interval and persisted, under the window's number. */
  ghost predicate WinnerAt(engine: Engine, trace: seq<RunConfig>, p: nat, split: Split, number: nat, w: WindowSelection)
    requires p < |trace|
  {
    && Covers(trace[p], split.testStart, split.testEnd) && trace[p].override == Some(w.winner.params)
    && trace[p].purpose == WalkForwardOos && trace[p].name == Some(WindowRun(number)) && trace[p].persisted
    && AnswerAt(engine, trace, p) == Some(w.winnerOos)
  }

  ghost predicate BaselineAt(engine: Engine, trace: seq<RunConfig>, p: nat, split: Split, w: WindowSelection)
    requires p < |trace|
  {
    && Covers(trace[p], split.testStart, split.testEnd) && trace[p].override == None && MetricsOnly(trace[p])
    && AnswerAt(engine, trace, p) == Some(w.baselineOos)
  }

  /** The winner is an eligible candidate and as good as every eligible one. */
  ghost predicate Chosen(results: seq<Candidate>, winner: Candidate) {
    && winner in results && winner.eligible && winner.score.Some? && winner.annualizedReturnPct.Some?
    && forall c :: c in results && c.eligible ==> c.score.Some? && c.annualizedReturnPct.Some? && AsGood(winner, c)
  }

  /** A window's report, its runs beginning at position `base`. */
  ghost predicate WindowReported(engine: Engine, trace: seq<RunConfig>, candidates: seq<Params>, split: Split, number: nat,
                                 base: nat, w: WindowSelection)
  {
    && base + |candidates| + 2 <= |trace|
    && w.split == split && w.index == number && w.candidateCount == |candidates| == |w.candidates|
    && (forall m: nat, p: nat :: m < |candidates| && p == base + m ==>
          TrainedAt(engine, trace, p, split, candidates[m], m, w.candidates[m]))
    && WinnerAt(engine, trace, base + |candidates|, split, number, w)
    && BaselineAt(engine, trace, base + |candidates| + 1, split, w)
    && Chosen(w.candidates, w.winner)
  }

  /** The holdout's report: the last two runs, the winner persisted and then the catalog parameters. */
  ghost predicate HoldoutReported(engine: Engine, trace: seq<RunConfig>, holdout: (Date, Date), params: Params, o: HoldoutOutcome) {
    && |trace| >= 2
    && var first, second := |trace| - 2, |trace| - 1;
    && Covers(trace[first], holdout.0, holdout.1) && trace[first].override == Some(params)
    && trace[first].purpose == FinalHoldout && trace[first].name == Some(HoldoutRun) && trace[first].persisted
    && AnswerAt(engine, trace, first) == Some(o.winner)
    && Covers(trace[second], holdout.0, holdout.1) && trace[second].override == None && MetricsOnly(trace[second])
    && AnswerAt(engine, trace, second) == Some(o.baseline)
    && o.start == holdout.0 && o.end == holdout.1 && o.winnerParams == params
  }

  /** The parameters to promote: the last winner's over the strategy's own overrides. */
  ghost predicate Promotes(overrides: Params, winner: Params, promotion: Params) {
    && promotion.Keys == overrides.Keys + winner.Keys
    && forall k :: k in promotion ==> promotion[k] == if k in winner then winner[k] else overrides[k]
  }

  /** The whole report of a finished search. */
  ghost predicate Reported(engine: Engine, strategy: Strategy, splits: seq<Split>, holdout: Option<(Date, Date)>,
                           candidates: seq<Params>, s: Summary, trace: seq<RunConfig>)
  {
    && 0 < |splits| == |s.windows|
    && |trace| == Times(|splits|, |candidates| + 2) + (if holdout.Some? then 2 else 0)
    && (forall j: nat :: j < |splits| ==>
          WindowReported(engine, trace, candidates, splits[j], j + 1, Times(j, |candidates| + 2), s.windows[j]))
    && var last := s.windows[|splits| - 1].winner.params;
    && s.baselineParams == strategy.params && Promotes(strategy.overrides, last, s.promotionParams)
    && (if holdout.None? then s.holdout == None
        else s.holdout.Some? && HoldoutReported(engine, trace, holdout.value, last, s.holdout.value))
  }

  // ---------------------------------------------------------------- the proof

  /** The runs before window `j` are the traces of the windows before it. */
  lemma {:induction false} TracePrefix(selections: seq<WindowSelection>, candidates: seq<Params>, j: nat, base: nat)
    requires j < |selections| && base == Times(j, |candidates| + 2)
    ensures base + |candidates| + 2 <= |TraceOf(selections, candidates)|
    ensures TraceOf(selections, candidates)[..base] == TraceOf(selections[..j], candidates)
    ensures TraceOf(selections, candidates)[base..base + |candidates| + 2] == RunsOf(selections[j], candidates)
  {
    var n := |selections| - 1;
    TraceLength(selections[..j], candidates);
    TraceLength(selections[..n], candidates);
    if j < n {
      TracePrefix(selections[..n], candidates, j, base);
      assert selections[..n][..j] == selections[..j];
    }
  }

  /** Position `p` of a part of a trace. */
  lemma PartAt(trace: seq<RunConfig>, before: seq<RunConfig>, runs: seq<RunConfig>, base: nat, m: nat, p: nat)
    requires base + |runs| <= |trace| && trace[..base] == before && trace[base..base + |runs|] == runs
    requires m < |runs| && p == base + m
    ensures trace[p] == runs[m] && trace[..p + 1] == before + runs[..m + 1]
  {
    assert trace[base..base + |runs|][m] == trace[base + m];
    assert trace[base..base + |runs|][..m + 1] == trace[base..p + 1];
    assert trace[..p + 1] == trace[..base] + trace[base..p + 1];
  }

  lemma TrainingIsReported(engine: Engine, before: seq<RunConfig>, trace: seq<RunConfig>, candidates: seq<Params>,
                           split: Split, number: nat, base: nat, w: WindowSelection, m: nat, p: nat)
    requires WindowSound(engine, before, split, number, candidates, w)
    requires base + |candidates| + 2 <= |trace| && trace[..base] == before
    requires trace[base..base + |candidates| + 2] == RunsOf(w, candidates) && m < |candidates| && p == base + m
    ensures TrainedAt(engine, trace, p, split, candidates[m], m, w.candidates[m])
  {
    var runs, trainings := RunsOf(w, candidates), Trainings(split, candidates);
    PartAt(trace, before, runs, base, m, p);
    assert runs[..m + 1] == trainings[..m + 1];
    assert ScoredAt(engine, before + trainings[..m + 1], candidates[m], m, w.candidates[m]);
    var r := engine(trace[..p + 1]).value;
    EvaluatedIsJudged(m, candidates[m], r.annualizedReturnPct, r.maxDrawdownPct, r.tradeCount);
  }

  lemma TestsAreReported(engine: Engine, before: seq<RunConfig>, trace: seq<RunConfig>, candidates: seq<Params>,
                         split: Split, number: nat, base: nat, w: WindowSelection)
    requires WindowSound(engine, before, split, number, candidates, w)
    requires base + |candidates| + 2 <= |trace| && trace[..base] == before
    requires trace[base..base + |candidates| + 2] == RunsOf(w, candidates)
    ensures WinnerAt(engine, trace, base + |candidates|, split, number, w)
    ensures BaselineAt(engine, trace, base + |candidates| + 1, split, w)
  {
    var runs, n := RunsOf(w, candidates), |candidates|;
    var trained := before + Trainings(split, candidates);
    PartAt(trace, before, runs, base, n, base + n);
    PartAt(trace, before, runs, base, n + 1, base + n + 1);
    assert before + runs[..n + 1] == trained + [WinnerRun(split, number, w.winner.params)];
    assert before + runs[..n + 2] == trained + [WinnerRun(split, number, w.winner.params)] + [BaselineRun(split)];
  }

  lemma WinnerIsChosen(results: seq<Candidate>, winner: Candidate)
    requires Won(results, winner) && forall k :: 0 <= k < |results| ==> Judged(results[k])
    ensures Chosen(results, winner)
  {
    var i: nat :| IsWinner(results, i) && winner == results[i];
    forall c | c in results && c.eligible
      ensures c.score.Some? && c.annualizedReturnPct.Some? && AsGood(winner, c)
    {
      var k: nat :| k < |results| && results[k] == c;
      WinnerIsAsGood(results, i, k);
    }
  }

  lemma WindowIsReported(engine: Engine, before: seq<RunConfig>, trace: seq<RunConfig>, candidates: seq<Params>,
                         split: Split, number: nat, base: nat, w: WindowSelection)
    requires WindowSound(engine, before, split, number, candidates, w)
    requires base + |candidates| + 2 <= |trace| && trace[..base] == before
    requires trace[base..base + |candidates| + 2] == RunsOf(w, candidates)
    ensures WindowReported(engine, trace, candidates, split, number, base, w)
  {
    forall m: nat, p: nat | m < |candidates| && p == base + m
      ensures TrainedAt(engine, trace, p, split, candidates[m], m, w.candidates[m])
    {
      TrainingIsReported(engine, before, trace, candidates, split, number, base, w, m, p);
    }
    forall k: nat | k < |w.candidates|
      ensures Judged(w.candidates[k])
    {
      assert TrainedAt(engine, trace, base + k, split, candidates[k], k, w.candidates[k]);
    }
    TestsAreReported(engine, before, trace, candidates, split, number, base, w);
    WinnerIsChosen(w.candidates, w.winner);
  }

  lemma HoldoutIsReported(engine: Engine, before: seq<RunConfig>, holdout: (Date, Date), params: Params, o: HoldoutOutcome,
                          trace: seq<RunConfig>)
    requires HoldoutSound(engine, before, holdout, params, o) && trace == before + HoldoutRuns(Some(holdout), params)
    ensures HoldoutReported(engine, trace, holdout, params, o)
  {
    var first, second := |trace| - 2, |trace| - 1;
    assert trace[..first + 1] == before + [HoldoutWinnerRun(holdout, params)];
    assert trace[..second + 1] == before + [HoldoutWinnerRun(holdout, params)] + [HoldoutBaselineRun(holdout)];
  }

  /**
   A finished search, run by run: at every position what was asked, field by field; every candidate and
   outcome reported is the engine's answer there; winners are chosen by the published order; the holdout
   pair comes last, on the last window's winner.
   */
  lemma SearchIsReported(engine: Engine, strategy: Strategy, plan: (seq<Split>, Option<(Date, Date)>),
                         candidates: seq<Params>, s: Summary, trace: seq<RunConfig>)
    requires Finished(engine, strategy, plan, candidates, s) && Issued(plan, candidates, s, trace)
    ensures Reported(engine, strategy, plan.0, plan.1, candidates, s, trace)
  {
    var windows, n := TraceOf(s.windows, candidates), |candidates| + 2;
    TraceLength(s.windows, candidates);
    forall j: nat | j < |plan.0|
      ensures WindowReported(engine, trace, candidates, plan.0[j], j + 1, Times(j, n), s.windows[j])
    {
      assert SearchedAt(engine, plan.0, candidates, s.windows, j);
      WindowOfSearch(engine, plan.0, candidates, s.windows, trace, j, Times(j, n));
    }
    if plan.1.Some? {
      HoldoutIsReported(engine, windows, plan.1.value, s.windows[|s.windows| - 1].winner.params, s.holdout.value, trace);
    }
  }

  lemma WindowOfSearch(engine: Engine, splits: seq<Split>, candidates: seq<Params>, windows: seq<WindowSelection>,
                       trace: seq<RunConfig>, j: nat, base: nat)
    requires j < |windows| == |splits| && base == Times(j, |candidates| + 2)
    requires TraceOf(windows, candidates) <= trace && SearchedAt(engine, splits, candidates, windows, j)
    ensures WindowReported(engine, trace, candidates, splits[j], j + 1, base, windows[j])
  {
    var all, n := TraceOf(windows, candidates), |candidates| + 2;
    TracePrefix(windows, candidates, j, base);
    assert trace[..base] == all[..base];
    assert trace[base..base + n] == all[base..base + n];
    TraceLength(windows[..j], candidates);
    WindowIsReported(engine, TraceOf(windows[..j], candidates), trace, candidates, splits[j], j + 1, base, windows[j]);
  }
}
