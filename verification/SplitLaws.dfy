/** What every list of walk-forward windows satisfies, and how its test results compound. */
module SplitLaws {
  import opened Calendar
  import opened Windowing

  /** Training ends the day before testing, and both are real ranges within the run. */
  lemma WindowIsOrdered(start: Date, g: Geometry, i: nat)
    requires start.Valid() && Sound(g) && i >= FirstWindow(start, g)
    ensures var w := Window(start, g, i);
            && !Before(w.trainStart, start) && Before(w.trainStart, w.trainEnd)
            && NextDay(w.trainEnd) == w.testStart && Before(w.trainEnd, w.testStart)
            && Before(w.testStart, w.testEnd)
  {
    var m := TestMonth(start, g, i);
    var before, trained := m - 1, m - g.train;
    SkipTest(start, g, i);
    TestMonthAfterStart(start, g, i);
    DayBeforeFirst(m, before);
    MonthBounds(before, m);
    BeforeByMonth(FirstOf(trained), start);
  }

  lemma {:induction false} TestMonthsAdvance(start: Date, g: Geometry, i: nat, j: nat)
    requires Sound(g) && i < j
    ensures TestLast(start, g, i) < TestMonth(start, g, j)
  {
    if i + 1 < j {
      TestMonthsAdvance(start, g, i, j - 1);
    }
  }

  /** Test windows never overlap. */
  lemma TestsAreDisjoint(start: Date, g: Geometry, i: nat, j: nat)
    requires Sound(g) && i < j
    ensures Before(Window(start, g, i).testEnd, Window(start, g, j).testStart)
  {
    TestMonthsAdvance(start, g, i, j);
    MonthBounds(TestLast(start, g, i), TestMonth(start, g, j));
  }

  /** Every window ends before the holdout begins, or by the end date when there is none. */
  lemma WindowEndsInTime(start: Date, end: Date, g: Geometry, i: nat)
    requires end.Valid() && Sound(g) && i < WindowCount(start, end, g)
    ensures if g.holdout > 0 then Before(Window(start, g, i).testEnd, HoldoutStart(end, g))
            else !Before(end, Window(start, g, i).testEnd)
  {
    CountIsExact(start, end, g, i);
    var last := TestLast(start, g, i);
    if g.holdout > 0 {
      MonthBounds(last, MonthIndex(end) + 1 - g.holdout);
    } else {
      EndsInTime(end, g, last);
    }
  }

  /** One window more would run past the last usable day. */
  lemma NoFurtherWindowFits(start: Date, end: Date, g: Geometry)
    requires end.Valid() && Sound(g)
    ensures var w := Window(start, g, WindowCount(start, end, g));
            if g.holdout > 0 then !Before(w.testEnd, HoldoutStart(end, g)) else Before(end, w.testEnd)
  {
    var n := WindowCount(start, end, g);
    CountIsExact(start, end, g, n);
    var last, first := TestLast(start, g, n), MonthIndex(end) + 1 - g.holdout;
    if g.holdout > 0 {
      BeforeByMonth(LastOf(last), FirstOf(first));
    } else {
      EndsInTime(end, g, last);
    }
  }

  /** Consecutive test windows abut exactly when the step is the test length. */
  lemma GapExactly(start: Date, g: Geometry, i: nat, next: nat)
    requires Sound(g) && next == i + 1
    ensures var tomorrow := NextDay(Window(start, g, i).testEnd);
            && (tomorrow == Window(start, g, next).testStart <==> g.step == g.test)
            && (Before(tomorrow, Window(start, g, next).testStart) <==> g.step > g.test)
  {
    var last, after, m := TestLast(start, g, i), TestLast(start, g, i) + 1, TestMonth(start, g, next);
    DayBeforeFirst(after, last);
    BeforeByMonth(FirstOf(after), FirstOf(m));
    BeforeByMonth(FirstOf(m), FirstOf(after));
  }

  /** Each listed split is in order and stays clear of the holdout. */
  lemma SplitIsChronological(start: Date, end: Date, g: Geometry, n: nat, j: nat)
    requires start.Valid() && end.Valid() && Sound(g) && n == WindowCount(start, end, g)
    requires j < |Windows(start, g, n)|
    ensures var w := Windows(start, g, n)[j];
            && !Before(w.trainStart, start) && Before(w.trainStart, w.trainEnd)
            && NextDay(w.trainEnd) == w.testStart && Before(w.trainEnd, w.testStart)
            && Before(w.testStart, w.testEnd)
            && (if g.holdout > 0 then Before(w.testEnd, HoldoutStart(end, g)) else !Before(end, w.testEnd))
  {
    var i := FirstWindow(start, g) + j;
    WindowsAt(start, g, n, j, i);
    WindowIsOrdered(start, g, i);
    WindowEndsInTime(start, end, g, i);
  }

  /** Listed test windows never overlap. */
  lemma SplitsAreDisjoint(start: Date, g: Geometry, n: nat, j: nat, k: nat)
    requires Sound(g) && j < k < |Windows(start, g, n)|
    ensures Before(Windows(start, g, n)[j].testEnd, Windows(start, g, n)[k].testStart)
  {
    var ij, ik := FirstWindow(start, g) + j, FirstWindow(start, g) + k;
    WindowsAt(start, g, n, j, ij);
    WindowsAt(start, g, n, k, ik);
    TestsAreDisjoint(start, g, ij, ik);
  }

  /** There is a gap before a listed split exactly when the step is longer than the test. */
  lemma GapBeforeSplit(start: Date, g: Geometry, n: nat, j: nat, next: nat)
    requires Sound(g) && next == j + 1 && next < |Windows(start, g, n)|
    ensures Before(NextDay(Windows(start, g, n)[j].testEnd), Windows(start, g, n)[next].testStart) <==> g.step > g.test
  {
    var ij, inext := FirstWindow(start, g) + j, FirstWindow(start, g) + next;
    WindowsAt(start, g, n, j, ij);
    WindowsAt(start, g, n, next, inext);
    GapExactly(start, g, ij, inext);
  }
}
