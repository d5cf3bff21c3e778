/** The test windows' returns, compounded one after another. */
module Compounding {
  import opened Outcomes
  import opened Reals
  import opened Calendar
  import opened Windowing
  import opened SplitLaws

  const PERCENT_SCALE := 100.0

  datatype Segment = Segment(windowIndex: int, testStart: Date, testEnd: Date, returnPct: real)

  datatype Point = Point(windowIndex: int, testStart: Date, testEnd: Date, periodReturnPct: real,
                         cumulativeReturnPct: real, gapBefore: bool)

  datatype Series = Series(points: seq<Point>, compoundedReturnPct: real, hasGaps: bool)

  function Factor(s: Segment): real {
    1.0 + s.returnPct / PERCENT_SCALE
  }

  /** The growth of one unit through all segments. */
  function Growth(segments: seq<Segment>): real {
    if segments == [] then 1.0 else Mul(Growth(segments[..|segments| - 1]), Factor(segments[|segments| - 1]))
  }

  function AsPct(growth: real): real {
    (growth - 1.0) * PERCENT_SCALE
  }

  /** Segment `k` does not begin on or before the day after its predecessor ended. */
  predicate GapBefore(segments: seq<Segment>, k: int)
    requires 0 <= k < |segments|
  {
    k > 0 && Before(NextDay(segments[k - 1].testEnd), segments[k].testStart)
  }

  ghost predicate IsPoint(segments: seq<Segment>, k: int, p: Point)
    requires 0 <= k < |segments|
  {
    var s := segments[k];
    p == Point(s.windowIndex, s.testStart, s.testEnd, s.returnPct, AsPct(Growth(segments[..k + 1])), GapBefore(segments, k))
  }

  method CompoundOosReturns(segments: seq<Segment>) returns (series: Series)
    ensures |series.points| == |segments|
    ensures forall k :: 0 <= k < |segments| ==> IsPoint(segments, k, series.points[k])
    ensures series.compoundedReturnPct == AsPct(Growth(segments))
    ensures series.hasGaps <==> exists k :: 0 <= k < |segments| && GapBefore(segments, k)
    ensures OnDates(segments) ==> Compounded(segments, series)
  {
    var points: seq<Point>, growth, anyGap := [], 1.0, false;
    var previousEnd: Option<Date> := None;
    for k := 0 to |segments|
      invariant |points| == k
      invariant forall j :: 0 <= j < k ==> IsPoint(segments, j, points[j])
      invariant growth == Growth(segments[..k])
      invariant previousEnd == if k == 0 then None else Some(segments[k - 1].testEnd)
      invariant anyGap <==> exists j :: 0 <= j < k && GapBefore(segments, j)
    {
      var s := segments[k];
      assert segments[..k + 1][..k] == segments[..k];
      growth := Mul(growth, Factor(s));
      var gap := previousEnd.Some? && Before(NextDay(previousEnd.value), s.testStart);
      assert gap == GapBefore(segments, k);
      points := points + [Point(s.windowIndex, s.testStart, s.testEnd, s.returnPct, AsPct(growth), gap)];
      assert IsPoint(segments, k, points[k]);
      previousEnd, anyGap := Some(s.testEnd), anyGap || gap;
    }
    assert segments[..|segments|] == segments;
    series := Series(points, AsPct(growth), anyGap);
    if OnDates(segments) {
      SeriesIsCompounded(segments, series);
    }
  }

  // -------------------------------------------------------- in the points' own terms

  /** What a unit grows to on a percentage. */
  function Grown(pct: real): real {
    1.0 + pct / 100.0
  }

  /** The percentage the series stands at after `k` segments. */
  function StandsAt(series: Series, k: nat): real
    requires k <= |series.points|
  {
    if k == 0 then 0.0 else series.points[k - 1].cumulativeReturnPct
  }

  /** One point: its segment's window and return, compounded on the point before, and whether a day is missing in between. */
  ghost predicate Continues(segments: seq<Segment>, series: Series, k: nat, next: nat)
    requires k < next <= |segments| == |series.points|
  {
    var (s, p) := (segments[k], series.points[k]);
    && p.windowIndex == s.windowIndex && p.testStart == s.testStart && p.testEnd == s.testEnd
    && p.periodReturnPct == s.returnPct
    && Grown(p.cumulativeReturnPct) == Mul(Grown(StandsAt(series, k)), Grown(s.returnPct))
    && (p.gapBefore <==> k > 0 && DayNumber(s.testStart) > DayNumber(segments[k - 1].testEnd) + 1)
  }

  ghost predicate OnDates(segments: seq<Segment>) {
    forall s :: s in segments ==> s.testStart.Valid() && s.testEnd.Valid()
  }

  ghost predicate Compounded(segments: seq<Segment>, series: Series) {
    && |series.points| == |segments|
    && (forall k: nat, next: nat :: k < |segments| && next == k + 1 ==> Continues(segments, series, k, next))
    && series.compoundedReturnPct == StandsAt(series, |segments|)
    && (series.hasGaps <==> exists p :: p in series.points && p.gapBefore)
  }

  lemma PercentsCancel(growth: real)
    ensures Grown(AsPct(growth)) == growth
  {
    Divide(growth, 100.0);
  }

  lemma GapIsMissingDay(segments: seq<Segment>, k: nat)
    requires 0 < k < |segments| && segments[k].testStart.Valid() && segments[k - 1].testEnd.Valid()
    ensures GapBefore(segments, k) <==> DayNumber(segments[k].testStart) > DayNumber(segments[k - 1].testEnd) + 1
  {
    var a, b := segments[k - 1].testEnd, segments[k].testStart;
    NextDayNumber(a);
    BeforeIsLess(NextDay(a), b);
  }

  lemma PointContinues(segments: seq<Segment>, series: Series, k: nat, next: nat)
    requires |series.points| == |segments| && k < |segments| && next == k + 1
    requires IsPoint(segments, k, series.points[k]) && (k > 0 ==> IsPoint(segments, k - 1, series.points[k - 1]))
    requires segments[k].testStart.Valid() && (k > 0 ==> segments[k - 1].testEnd.Valid())
    ensures Continues(segments, series, k, next)
  {
    assert segments[..next][..k] == segments[..k];
    PercentsCancel(Growth(segments[..next]));
    PercentsCancel(Growth(segments[..k]));
    if k > 0 {
      GapIsMissingDay(segments, k);
    }
    assert Factor(segments[k]) == Grown(segments[k].returnPct);
    assert Growth(segments[..next]) == Mul(Growth(segments[..k]), Factor(segments[k]));
  }

  /** A series that has every point compounds its segments one after another and ends where the last one stands. */
  lemma SeriesIsCompounded(segments: seq<Segment>, series: Series)
    requires |series.points| == |segments|
    requires forall k :: 0 <= k < |segments| ==> IsPoint(segments, k, series.points[k])
    requires OnDates(segments)
    requires series.compoundedReturnPct == AsPct(Growth(segments))
    requires series.hasGaps <==> exists k :: 0 <= k < |segments| && GapBefore(segments, k)
    ensures Compounded(segments, series)
  {
    forall k: nat, next: nat | k < |segments| && next == k + 1
      ensures Continues(segments, series, k, next)
    {
      PointContinues(segments, series, k, next);
    }
    assert segments[..|segments|] == segments;
    forall k | 0 <= k < |segments|
      ensures series.points[k].gapBefore == GapBefore(segments, k) && series.points[k] in series.points
    {
      assert IsPoint(segments, k, series.points[k]);
    }
    if segments != [] {
      var last := |segments| - 1;
      assert IsPoint(segments, last, series.points[last]);
    }
  }

  lemma MulAssociates(a: real, b: real, c: real)
    ensures Mul(Mul(a, b), c) == Mul(a, Mul(b, c))
  {
  }

  /** Compounding distributes over putting one list of segments after another. */
  lemma {:induction false} GrowthOfConcatenation(a: seq<Segment>, b: seq<Segment>)
    ensures Growth(a + b) == Mul(Growth(a), Growth(b))
  {
    if b == [] {
      assert a + b == a;
    } else {
      var n := |b| - 1;
      GrowthOfConcatenation(a, b[..n]);
      assert (a + b)[..|a + b| - 1] == a + b[..n];
      MulAssociates(Growth(a), Growth(b[..n]), Factor(b[n]));
    }
  }

  /** A run of segments is worth its compounded percentage, applied once. */
  lemma CompoundedIsOneFactor(a: seq<Segment>, whole: Segment, b: seq<Segment>)
    requires whole.returnPct == AsPct(Growth(a))
    ensures Growth([whole] + b) == Growth(a + b)
  {
    GrowthOfConcatenation(a, b);
    GrowthOfConcatenation([whole], b);
    assert Growth([whole]) == Mul(Growth([]), Factor(whole));
    assert Growth([]) == 1.0;
  }

  /** The segments are laid out on the test intervals of the listed splits. */
  ghost predicate LaidOn(segments: seq<Segment>, splits: seq<Split>) {
    && |segments| == |splits|
    && forall k :: 0 <= k < |segments| ==>
         segments[k].testStart == splits[k].testStart && segments[k].testEnd == splits[k].testEnd
  }

  /** On segments laid on built splits, every later window has a gap before it exactly when the step is longer than the test. */
  lemma GapsExactly(segments: seq<Segment>, start: Date, g: Geometry, n: nat, k: nat)
    requires Sound(g) && LaidOn(segments, Windows(start, g, n)) && k < |segments|
    ensures GapBefore(segments, k) <==> k > 0 && g.step > g.test
  {
    if k > 0 {
      var j := k - 1;
      GapBeforeSplit(start, g, n, j, k);
      assert segments[j].testEnd == Windows(start, g, n)[j].testEnd;
    }
  }

  /** The series has gaps exactly when the step is longer than the test and there are two windows. */
  lemma HasGapsExactly(segments: seq<Segment>, start: Date, g: Geometry, n: nat)
    requires Sound(g) && LaidOn(segments, Windows(start, g, n))
    ensures (exists k :: 0 <= k < |segments| && GapBefore(segments, k)) <==> g.step > g.test && |segments| >= 2
  {
    forall k: nat | k < |segments|
      ensures GapBefore(segments, k) <==> k > 0 && g.step > g.test
    {
      GapsExactly(segments, start, g, n, k);
    }
    if g.step > g.test && |segments| >= 2 {
      assert GapBefore(segments, 1);
    }
  }
}
