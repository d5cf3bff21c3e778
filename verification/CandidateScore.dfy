/** Scoring of one training result and selection of a window's winner. */
module CandidateScore {
  import opened Outcomes
  import opened Reals

  datatype ParamValue = Number(n: real) | Text(s: string) | Flag(b: bool)

  type Params = map<string, ParamValue>

  datatype Rejection = TooFewTrades | NoAnnualizedReturn | DrawdownExceedsLimit

  datatype Candidate = Candidate(
    index: nat,
    params: Params,
    annualizedReturnPct: Option<real>,
    maxDrawdownPct: real,
    tradeCount: int,
    score: Option<real>,
    eligible: bool,
    rejection: Option<Rejection>)

  const CALMAR_V1_DRAWDOWN_FLOOR_PCT := 1.0
  const MIN_CANDIDATE_TRADES := 3
  const MAX_DRAWDOWN_ELIGIBILITY_PCT := -25.0

  // ------------------------------------------------------------------ scoring

  /** Annualized return per unit of drawdown, none when the denominator is not positive. */
  function CalmarRatio(annualized: Option<real>, drawdown: real, floor: real): Option<real> {
    if annualized.None? then None else
      var denominator := Max(Abs(drawdown), floor);
      if denominator <= 0.0 then None else Some(annualized.value / denominator)
  }

  function RejectionReason(annualized: Option<real>, drawdown: real, trades: int): Option<Rejection> {
    if trades < MIN_CANDIDATE_TRADES then Some(TooFewTrades)
    else if annualized.None? then Some(NoAnnualizedReturn)
    else if drawdown < MAX_DRAWDOWN_ELIGIBILITY_PCT then Some(DrawdownExceedsLimit)
    else None
  }

  function EvaluateCandidate(index: nat, params: Params, annualized: Option<real>, drawdown: real, trades: int)
    : Candidate
  {
    var rejection := RejectionReason(annualized, drawdown, trades);
    var score := if rejection.Some? then None else CalmarRatio(annualized, drawdown, CALMAR_V1_DRAWDOWN_FLOOR_PCT);
    Candidate(index, params, annualized, drawdown, trades, score, rejection.None?, rejection)
  }

  /** A ratio exists exactly when there is a return and something positive to divide it by. */
  lemma CalmarDefinedExactly(annualized: Option<real>, drawdown: real, floor: real)
    ensures CalmarRatio(annualized, drawdown, floor).Some? <==> annualized.Some? && (drawdown != 0.0 || floor > 0.0)
  {
  }

  lemma QuotientBound(a: real, d: real)
    requires d >= 1.0
    ensures Abs(a / d) <= Abs(a)
    ensures a / d > 0.0 <==> a > 0.0
  {
    Divide(a, d);
    Scale(1.0, d, Abs(a / d));
    if a / d > 0.0 {
      ScaleStrict(0.0, a / d, d);
    } else {
      Scale(a / d, 0.0, d);
    }
  }

  /**
   A candidate is eligible exactly when it has a score, exactly when it passed all three gates;
   the score is then no larger than the return itself and has its sign.
   */
  lemma EligibleExactlyWhenScored(index: nat, params: Params, annualized: Option<real>, drawdown: real, trades: int)
    ensures var c := EvaluateCandidate(index, params, annualized, drawdown, trades);
            && (c.eligible <==> c.score.Some?)
            && (c.eligible <==> trades >= 3 && annualized.Some? && drawdown >= -25.0)
            && (c.eligible <==> c.rejection.None?)
            && (c.eligible ==>
                  && Abs(c.score.value) <= Abs(annualized.value)
                  && (c.score.value > 0.0 <==> annualized.value > 0.0))
  {
    CalmarDefinedExactly(annualized, drawdown, CALMAR_V1_DRAWDOWN_FLOOR_PCT);
    if annualized.Some? {
      QuotientBound(annualized.value, Max(Abs(drawdown), CALMAR_V1_DRAWDOWN_FLOOR_PCT));
    }
  }

  /** What a candidate carries, in the terms of its training result. */
  ghost predicate Measures(c: Candidate, index: nat, params: Params, annualized: Option<real>, drawdown: real, trades: int) {
    && c.index == index && c.params == params
    && c.annualizedReturnPct == annualized && c.maxDrawdownPct == drawdown && c.tradeCount == trades
  }

  /** The first gate a result does not pass is why it is rejected; the score is return per percent of drawdown, of at least one. */
  ghost predicate Judged(c: Candidate) {
    && c.eligible == c.rejection.None? == c.score.Some?
    && (c.rejection == Some(TooFewTrades) <==> c.tradeCount < 3)
    && (c.rejection == Some(NoAnnualizedReturn) <==> c.tradeCount >= 3 && c.annualizedReturnPct.None?)
    && (c.rejection == Some(DrawdownExceedsLimit) <==>
          c.tradeCount >= 3 && c.annualizedReturnPct.Some? && c.maxDrawdownPct < -25.0)
    && (c.eligible ==> c.annualizedReturnPct.Some?
                       && Mul(c.score.value, if -1.0 <= c.maxDrawdownPct <= 1.0 then 1.0 else Abs(c.maxDrawdownPct))
                          == c.annualizedReturnPct.value)
  }

  lemma EvaluatedIsJudged(index: nat, params: Params, annualized: Option<real>, drawdown: real, trades: int)
    ensures var c := EvaluateCandidate(index, params, annualized, drawdown, trades);
            Measures(c, index, params, annualized, drawdown, trades) && Judged(c)
  {
    CalmarDefinedExactly(annualized, drawdown, CALMAR_V1_DRAWDOWN_FLOOR_PCT);
    if annualized.Some? {
      Divide(annualized.value, Max(Abs(drawdown), CALMAR_V1_DRAWDOWN_FLOOR_PCT));
    }
  }

  // ---------------------------------------------------------------- selection

  /** The fields a ranking compares, in order; lowest first. */
  datatype RankKey = RankKey(score: real, annualized: real, drawdown: real, trades: int, index: int)

  function KeyOf(c: Candidate): RankKey {
    RankKey(-c.score.GetOr(0.0), -c.annualizedReturnPct.GetOr(0.0), Abs(c.maxDrawdownPct), -c.tradeCount, c.index)
  }

  /** Tuples compare field by field. */
  predicate KeyLess(a: RankKey, b: RankKey) {
    if a.score != b.score then a.score < b.score
    else if a.annualized != b.annualized then a.annualized < b.annualized
    else if a.drawdown != b.drawdown then a.drawdown < b.drawdown
    else if a.trades != b.trades then a.trades < b.trades
    else a.index < b.index
  }

  /** Position `i` holds the first of the lowest-ranked eligible candidates. */
  ghost predicate IsWinner(results: seq<Candidate>, i: nat) {
    && i < |results| && results[i].eligible
    && (forall j :: 0 <= j < |results| && results[j].eligible ==> !KeyLess(KeyOf(results[j]), KeyOf(results[i])))
    && (forall j :: 0 <= j < i && results[j].eligible ==> KeyLess(KeyOf(results[i]), KeyOf(results[j])))
  }

  ghost predicate AnyEligible(results: seq<Candidate>) {
    exists i :: 0 <= i < |results| && results[i].eligible
  }

  method SelectWinner(results: seq<Candidate>) returns (r: Option<Candidate>)
    ensures r.Some? <==> AnyEligible(results)
    ensures r.Some? ==> exists i: nat :: IsWinner(results, i) && r.value == results[i]
  {
    r := None;
    ghost var best: nat := 0;
    for k := 0 to |results|
      invariant r.None? <==> !AnyEligible(results[..k])
      invariant r.Some? ==> IsWinner(results[..k], best) && r.value == results[best]
    {
      var seen, next := results[..k], k + 1;
      assert results[..next] == seen + [results[k]];
      if results[k].eligible && (r.None? || KeyLess(KeyOf(results[k]), KeyOf(r.value))) {
        assert results[..next][k].eligible;
        r, best := Some(results[k]), k;
      } else if r.Some? {
        assert results[..next][best].eligible;
      } else {
        forall i | 0 <= i < next
          ensures !results[..next][i].eligible
        {
          if i < k {
            assert !seen[i].eligible;
          }
        }
      }
    }
    assert results[..|results|] == results;
  }

  /** The order of the list does not matter when indices tell candidates apart. */
  lemma WinnerIgnoresOrder(a: seq<Candidate>, b: seq<Candidate>, i: nat, j: nat)
    requires IsWinner(a, i) && IsWinner(b, j)
    requires forall c :: c in a <==> c in b
    requires forall c, d :: c in a && d in a && c.index == d.index ==> c == d
    ensures a[i] == b[j]
  {
    assert a[i] in a && b[j] in b;
    var k :| 0 <= k < |b| && b[k] == a[i];
    var l :| 0 <= l < |a| && a[l] == b[j];
    assert !KeyLess(KeyOf(b[k]), KeyOf(b[j]));
    assert !KeyLess(KeyOf(a[l]), KeyOf(a[i]));
  }

  ghost predicate Evaluated(c: Candidate) {
    c == EvaluateCandidate(c.index, c.params, c.annualizedReturnPct, c.maxDrawdownPct, c.tradeCount)
  }

  /** The winner of evaluated candidates is eligible and no eligible candidate has a better score. */
  lemma WinnerIsBestScored(results: seq<Candidate>, i: nat, c: Candidate)
    requires IsWinner(results, i) && c in results && c.eligible
    requires forall d :: d in results ==> Evaluated(d)
    ensures results[i].score.Some? && c.score.Some? && results[i].score.value >= c.score.value
  {
    var w := results[i];
    assert w in results;
    EligibleExactlyWhenScored(w.index, w.params, w.annualizedReturnPct, w.maxDrawdownPct, w.tradeCount);
    EligibleExactlyWhenScored(c.index, c.params, c.annualizedReturnPct, c.maxDrawdownPct, c.tradeCount);
    var k :| 0 <= k < |results| && results[k] == c;
    assert !KeyLess(KeyOf(results[k]), KeyOf(results[i]));
  }

  /** A missing figure counts as zero. */
  function Figure(x: Option<real>): real {
    if x.Some? then x.value else 0.0
  }

  /**
   One eligible candidate is as good as another or better: by score, then by return, then by the smaller
   drawdown, then by trades, and last by coming first in the grid.
   */
  ghost predicate AsGood(w: Candidate, c: Candidate) {
    var s, t := Figure(w.score), Figure(c.score);
    var a, b := Figure(w.annualizedReturnPct), Figure(c.annualizedReturnPct);
    s > t || (s == t && (
      a > b || (a == b && (
        Abs(w.maxDrawdownPct) < Abs(c.maxDrawdownPct) || (Abs(w.maxDrawdownPct) == Abs(c.maxDrawdownPct) && (
          w.tradeCount > c.tradeCount || (w.tradeCount == c.tradeCount && w.index <= c.index)))))))
  }

  /** The winner is as good as every eligible candidate. */
  lemma WinnerIsAsGood(results: seq<Candidate>, i: nat, k: nat)
    requires IsWinner(results, i) && k < |results| && results[k].eligible
    ensures AsGood(results[i], results[k])
  {
  }
}
