/** Run windows and the walk-forward split of a date range into train, test and holdout. */
module Windowing {
  import opened Outcomes
  import opened Calendar

  // -------------------------------------------------------------- run windows

  datatype RunWindowError = StartAndLookback | NonPositiveLookback | EmptyRange

  const DEFAULT_RUN_WINDOW_MONTHS := 1

  function ResolveRunWindow(start: Option<Date>, end: Option<Date>, lookback: Option<int>, today: Date)
    : Result<(Date, Date), RunWindowError>
  {
    if start.Some? && lookback.Some? then Failure(StartAndLookback) else
      var last := end.GetOr(today);
      if lookback.Some? && lookback.value <= 0 then Failure(NonPositiveLookback) else
        var first :=
          if lookback.Some? then ShiftMonths(last, -lookback.value)
          else if start.Some? then start.value
          else ShiftMonths(last, -DEFAULT_RUN_WINDOW_MONTHS);
        if Before(first, last) then Success((first, last)) else Failure(EmptyRange)
  }

  /** A positive lookback always gives a range, of exactly that many calendar months. */
  lemma LookbackSpansItsMonths(end: Option<Date>, months: int, today: Date)
    requires months > 0 && today.Valid() && (end.Some? ==> end.value.Valid())
    ensures var r := ResolveRunWindow(None, end, Some(months), today);
            && r.Success? && r.value.1 == end.GetOr(today)
            && r.value.0.Valid() && Before(r.value.0, r.value.1)
            && MonthIndex(r.value.1) - MonthIndex(r.value.0) == months
  {
    var last := end.GetOr(today);
    ShiftLands(last, -months);
    BeforeByMonth(ShiftMonths(last, -months), last);
  }

  /** `first` lies `months` calendar months before `last`, on the same day or the last one its month has. */
  ghost predicate MonthsBefore(first: Date, last: Date, months: int) {
    && first.Valid()
    && 12 * (last.year - first.year) + (last.month - first.month) == months
    && first.day == if last.day <= DaysIn(first.year, first.month) then last.day else DaysIn(first.year, first.month)
  }

  /** A lookback counts back from the end; without one or a start, a month does; the end is today if not given. */
  ghost predicate RunWindowIs(start: Option<Date>, end: Option<Date>, lookback: Option<int>, today: Date,
                              r: Result<(Date, Date), RunWindowError>)
  {
    var last := if end.Some? then end.value else today;
    if start.Some? && lookback.Some? then r == Failure(StartAndLookback)
    else if start.Some? then
      r == if Before(start.value, last) then Success((start.value, last)) else Failure(EmptyRange)
    else if lookback.Some? && lookback.value < 1 then r == Failure(NonPositiveLookback)
    else r.Success? && r.value.1 == last && MonthsBefore(r.value.0, last, if lookback.Some? then lookback.value else 1)
  }

  lemma RunWindowExactly(start: Option<Date>, end: Option<Date>, lookback: Option<int>, today: Date)
    requires today.Valid() && (end.Some? ==> end.value.Valid())
    ensures RunWindowIs(start, end, lookback, today, ResolveRunWindow(start, end, lookback, today))
  {
    var last := end.GetOr(today);
    var months := lookback.GetOr(DEFAULT_RUN_WINDOW_MONTHS);
    if start.None? && months >= 1 {
      ShiftLands(last, -months);
      MonthAndDay(ShiftMonths(last, -months));
      BeforeByMonth(ShiftMonths(last, -months), last);
    }
  }

  // ------------------------------------------------------------------- splits

  datatype Split = Split(trainStart: Date, trainEnd: Date, testStart: Date, testEnd: Date)

  /** Window lengths in months. */
  datatype Geometry = Geometry(train: int, test: int, step: int, holdout: int)

  datatype SplitError =
    | BadTrainMonths
    | BadTestMonths
    | BadStepMonths
    | BadHoldoutMonths
    | OverlappingSteps
    | StartNotBeforeEnd
    | HoldoutLeavesNoRoom
    | NoWindows

  function CheckGeometry(start: Date, end: Date, g: Geometry): Option<SplitError> {
    if g.train <= 0 then Some(BadTrainMonths)
    else if g.test <= 0 then Some(BadTestMonths)
    else if g.step <= 0 then Some(BadStepMonths)
    else if g.holdout < 0 then Some(BadHoldoutMonths)
    else if g.step < g.test then Some(OverlappingSteps)
    else if !Before(start, end) then Some(StartNotBeforeEnd)
    else None
  }

  function HoldoutStart(end: Date, g: Geometry): Date {
    FirstOf(MonthIndex(end) + 1 - g.holdout)
  }

  /** The last month that training and testing may use in full. */
  function LastMonth(end: Date, g: Geometry): int {
    if g.holdout > 0 then MonthIndex(end) - g.holdout
    else if end.day == DaysIn(end.year, end.month) then MonthIndex(end)
    else MonthIndex(end) - 1
  }

  /** The month test window `i` begins in. */
  function TestMonth(start: Date, g: Geometry, i: nat): int {
    if i == 0 then MonthIndex(start) + g.train else TestMonth(start, g, i - 1) + g.step
  }

  /** The last month of test window `i`. */
  function TestLast(start: Date, g: Geometry, i: nat): int {
    TestMonth(start, g, i) + g.test - 1
  }

  /** Window `i`: whole months, trained up to the day before it tests. */
  function Window(start: Date, g: Geometry, i: nat): Split {
    var m := TestMonth(start, g, i);
    var before, trained, last := m - 1, m - g.train, TestLast(start, g, i);
    Split(if i == 0 then start else FirstOf(trained), LastOf(before), FirstOf(m), LastOf(last))
  }

  /** The first window is skipped when its training would be a single day. */
  function FirstWindow(start: Date, g: Geometry): nat {
    if g.train == 1 && start.day == DaysIn(start.year, start.month) then 1 else 0
  }

  /** How many windows end within the last usable month. */
  function WindowCount(start: Date, end: Date, g: Geometry): nat
    requires g.step > 0
  {
    var slack := LastMonth(end, g) - TestLast(start, g, 0);
    if slack < 0 then 0 else slack / g.step + 1
  }

  /** Windows `FirstWindow` up to but not including `n`. */
  function Windows(start: Date, g: Geometry, n: nat): seq<Split> {
    if n <= FirstWindow(start, g) then [] else
      var last := n - 1;
      Windows(start, g, last) + [Window(start, g, last)]
  }

  lemma {:induction false} WindowsLength(start: Date, g: Geometry, n: nat)
    ensures |Windows(start, g, n)| == if n <= FirstWindow(start, g) then 0 else n - FirstWindow(start, g)
  {
    if n > FirstWindow(start, g) {
      WindowsLength(start, g, n - 1);
    }
  }

  /** The windows are those from the first on, in order, none left out. */
  lemma {:induction false} WindowsAt(start: Date, g: Geometry, n: nat, j: nat, i: nat)
    requires j < |Windows(start, g, n)| && i == FirstWindow(start, g) + j
    ensures i < n && Windows(start, g, n)[j] == Window(start, g, i)
  {
    var last := n - 1;
    WindowsLength(start, g, n);
    WindowsLength(start, g, last);
    if i < last {
      WindowsAt(start, g, last, j, i);
    }
  }

  // -------------------------------------------------------- counting windows

  lemma {:induction false} TestMonthIsLinear(start: Date, g: Geometry, i: nat)
    ensures TestMonth(start, g, i) == MonthIndex(start) + g.train + i * g.step
  {
    if i > 0 {
      TestMonthIsLinear(start, g, i - 1);
      assert (i - 1) * g.step + g.step == i * g.step;
    }
  }

  lemma StepsWithin(slack: int, step: int, i: nat)
    requires step > 0 && slack >= 0
    ensures i * step <= slack <==> i <= slack / step
  {
    var q, r := slack / step, slack % step;
    assert slack == q * step + r && 0 <= r < step;
    if i <= q {
      assert i * step <= q * step;
    } else {
      assert i * step >= (q + 1) * step;
      assert (q + 1) * step == q * step + step;
    }
  }

  /** A window ends within the last usable month exactly when its index is below the count. */
  lemma CountIsExact(start: Date, end: Date, g: Geometry, i: nat)
    requires g.step > 0
    ensures TestLast(start, g, i) <= LastMonth(end, g) <==> i < WindowCount(start, end, g)
  {
    TestMonthIsLinear(start, g, i);
    TestMonthIsLinear(start, g, 0);
    var slack := LastMonth(end, g) - TestLast(start, g, 0);
    assert 0 * g.step == 0;
    assert TestLast(start, g, i) == TestLast(start, g, 0) + i * g.step;
    if slack >= 0 {
      StepsWithin(slack, g.step, i);
    } else {
      assert i * g.step >= 0;
    }
  }

  // --------------------------------------------------- one turn of the loop

  /** A month end is no later than the last usable day exactly when the month is usable. */
  lemma EndsInTime(end: Date, g: Geometry, last: int)
    requires end.Valid() && g.holdout == 0
    ensures Before(end, LastOf(last)) <==> last > LastMonth(end, g)
  {
    BeforeByMonth(end, LastOf(last));
    MonthAndDay(end);
  }

  lemma {:induction false} TestMonthAfterStart(start: Date, g: Geometry, i: nat)
    requires g.train > 0 && g.step > 0
    ensures TestMonth(start, g, i) >= MonthIndex(start) + g.train
    ensures i > 0 ==> TestMonth(start, g, i) >= MonthIndex(start) + g.train + g.step
  {
    if i > 0 {
      TestMonthAfterStart(start, g, i - 1);
    }
  }

  ghost predicate Sound(g: Geometry) {
    g.train > 0 && 0 < g.test <= g.step && g.holdout >= 0
  }

  /** The later of a month's first day and the start date. */
  lemma FirstOrStart(start: Date, m: int)
    requires start.Valid()
    ensures m == MonthIndex(start) ==> Later(FirstOf(m), start) == start
    ensures m > MonthIndex(start) ==> Later(FirstOf(m), start) == FirstOf(m) && Before(start, FirstOf(m))
  {
    BeforeByMonth(FirstOf(m), start);
    BeforeByMonth(start, FirstOf(m));
    MonthAndDay(start);
  }

  lemma MonthBounds(m: int, n: int)
    requires m <= n
    ensures Before(FirstOf(m), LastOf(n))
    ensures m < n ==> Before(LastOf(m), FirstOf(n))
  {
    BeforeByMonth(FirstOf(m), LastOf(n));
    BeforeByMonth(LastOf(m), FirstOf(n));
  }

  /** The guard on the test start is a no-op: a test window begins after the start date. */
  lemma TestBounds(start: Date, g: Geometry, i: nat, m: int)
    requires start.Valid() && Sound(g) && m == TestMonth(start, g, i)
    ensures Later(FirstOf(m), start) == FirstOf(m) == Window(start, g, i).testStart
    ensures PrevDay(ShiftMonths(FirstOf(m), g.test)) == Window(start, g, i).testEnd
    ensures PrevDay(FirstOf(m)) == Window(start, g, i).trainEnd
  {
    var before, last, next := m - 1, TestLast(start, g, i), m + g.test;
    TestMonthAfterStart(start, g, i);
    FirstOrStart(start, m);
    ShiftFirst(m, g.test);
    DayBeforeFirst(m, before);
    DayBeforeFirst(next, last);
  }

  lemma TrainStartBound(start: Date, g: Geometry, i: nat, m: int)
    requires start.Valid() && Sound(g) && m == TestMonth(start, g, i)
    ensures Later(ShiftMonths(FirstOf(m), -g.train), start) == Window(start, g, i).trainStart
  {
    var trained := m - g.train;
    TestMonthAfterStart(start, g, i);
    FirstOrStart(start, trained);
    ShiftFirst(m, -g.train);
  }

  /** A window's training and test are real ranges, save a first window trained on a month's last day. */
  lemma SkipTest(start: Date, g: Geometry, i: nat)
    requires start.Valid() && Sound(g)
    ensures var w := Window(start, g, i);
            Before(w.trainStart, w.trainEnd) && Before(w.testStart, w.testEnd) <==> i >= FirstWindow(start, g)
  {
    var m := TestMonth(start, g, i);
    var before, trained, last := m - 1, m - g.train, TestLast(start, g, i);
    TestMonthAfterStart(start, g, i);
    MonthBounds(m, last);
    if i > 0 {
      MonthBounds(trained, before);
    } else {
      BeforeByMonth(start, LastOf(before));
      MonthAndDay(start);
    }
  }

  /**
   The holdout is a real range, one that a run over it accepts, if and only if it is longer than a month
   or the end is not the first of its month.
   */
  lemma HoldoutIsRangeExactly(end: Date, g: Geometry, today: Date)
    requires end.Valid() && g.holdout > 0
    ensures Before(HoldoutStart(end, g), end) <==> g.holdout > 1 || end.day > 1
    ensures ResolveRunWindow(Some(HoldoutStart(end, g)), Some(end), None, today).Success?
       <==> g.holdout > 1 || end.day > 1
  {
    var first, m := HoldoutStart(end, g), MonthIndex(end) + 1 - g.holdout;
    MonthBounds(m, m);
    MonthAndDay(end);
    BeforeByMonth(first, end);
  }

  // ------------------------------------------------------------------ the loop

  /** The outcome of splitting: the first complaint, or the windows that fit and the holdout. */
  function SplitPlan(start: Date, end: Date, g: Geometry): Result<(seq<Split>, Option<(Date, Date)>), SplitError> {
    var bad := CheckGeometry(start, end, g);
    if bad.Some? then Failure(bad.value)
    else if g.holdout > 0 && !Before(start, HoldoutStart(end, g)) then Failure(HoldoutLeavesNoRoom)
    else if WindowCount(start, end, g) <= FirstWindow(start, g) then Failure(NoWindows)
    else Success((Windows(start, g, WindowCount(start, end, g)),
                  if g.holdout > 0 then Some((HoldoutStart(end, g), end)) else None))
  }

  // ---------------------------------------------- what the builder answers

  /** Window `i` in dates: whole months from the start's month on, save that the first begins at the start. */
  ghost predicate IsWindow(start: Date, g: Geometry, i: nat, w: Split) {
    var m := MonthIndex(start) + i * g.step;
    && w.trainStart == (if i == 0 then start else FirstOf(m))
    && w.trainEnd == LastOf(m + g.train - 1)
    && w.testStart == FirstOf(m + g.train)
    && w.testEnd == LastOf(m + g.train + g.test - 1)
  }

  /** Training and test are real ranges, and the test ends before the holdout begins, or by the end. */
  ghost predicate Usable(end: Date, g: Geometry, w: Split) {
    && Before(w.trainStart, w.trainEnd) && Before(w.testStart, w.testEnd)
    && (if g.holdout > 0 then Before(w.testEnd, FirstOf(MonthIndex(end) - (g.holdout - 1))) else !Before(end, w.testEnd))
  }

  const COMPLAINTS := [BadTrainMonths, BadTestMonths, BadStepMonths, BadHoldoutMonths, OverlappingSteps,
                       StartNotBeforeEnd, HoldoutLeavesNoRoom, NoWindows]

  /** What each complaint is about. */
  ghost predicate Complains(start: Date, end: Date, g: Geometry, error: SplitError) {
    match error
    case BadTrainMonths => g.train <= 0
    case BadTestMonths => g.test <= 0
    case BadStepMonths => g.step <= 0
    case BadHoldoutMonths => g.holdout < 0
    case OverlappingSteps => g.step < g.test
    case StartNotBeforeEnd => !Before(start, end)
    case HoldoutLeavesNoRoom => g.holdout > 0 && !Before(start, FirstOf(MonthIndex(end) - (g.holdout - 1)))
    case NoWindows => forall i: nat, w :: IsWindow(start, g, i, w) ==> !Usable(end, g, w)
  }

  /** The complaint is justified and none before it in the list is. */
  ghost predicate FirstComplaint(start: Date, end: Date, g: Geometry, error: SplitError) {
    exists k :: 0 <= k < 8 && COMPLAINTS[k] == error && Complains(start, end, g, error)
                && forall m :: 0 <= m < k ==> !Complains(start, end, g, COMPLAINTS[m])
  }

  /** The splits are the usable windows, from window `first` on, in order and without a gap. */
  ghost predicate ListsFrom(start: Date, end: Date, g: Geometry, splits: seq<Split>, first: nat) {
    && (forall j: nat, i: nat :: j < |splits| && i == first + j ==> IsWindow(start, g, i, splits[j]))
    && (forall i: nat, w :: IsWindow(start, g, i, w) ==> (Usable(end, g, w) <==> first <= i < first + |splits|))
  }

  ghost predicate ListsUsable(start: Date, end: Date, g: Geometry, splits: seq<Split>) {
    exists first: nat :: ListsFrom(start, end, g, splits, first)
  }

  lemma WindowInDates(start: Date, g: Geometry, i: nat)
    ensures IsWindow(start, g, i, Window(start, g, i))
  {
    TestMonthIsLinear(start, g, i);
  }

  lemma UsableExactly(start: Date, end: Date, g: Geometry, i: nat, w: Split)
    requires start.Valid() && end.Valid() && Sound(g) && IsWindow(start, g, i, w)
    ensures w == Window(start, g, i)
    ensures Usable(end, g, w) <==> FirstWindow(start, g) <= i < WindowCount(start, end, g)
  {
    WindowInDates(start, g, i);
    SkipTest(start, g, i);
    CountIsExact(start, end, g, i);
    var last := TestLast(start, g, i);
    if g.holdout > 0 {
      BeforeByMonth(LastOf(last), FirstOf(MonthIndex(end) - (g.holdout - 1)));
    } else {
      EndsInTime(end, g, last);
    }
  }

  lemma PlanListsUsable(start: Date, end: Date, g: Geometry)
    requires start.Valid() && end.Valid() && Sound(g)
    ensures ListsUsable(start, end, g, Windows(start, g, WindowCount(start, end, g)))
    ensures Complains(start, end, g, NoWindows) <==> WindowCount(start, end, g) <= FirstWindow(start, g)
  {
    var n, first := WindowCount(start, end, g), FirstWindow(start, g);
    var splits := Windows(start, g, n);
    WindowsLength(start, g, n);
    forall j: nat, i: nat | j < |splits| && i == first + j
      ensures IsWindow(start, g, i, splits[j])
    {
      WindowsAt(start, g, n, j, i);
      WindowInDates(start, g, i);
    }
    forall i: nat, w | IsWindow(start, g, i, w)
      ensures Usable(end, g, w) <==> first <= i < first + |splits|
      ensures Usable(end, g, w) <==> first <= i < n
    {
      UsableExactly(start, end, g, i, w);
    }
    assert ListsFrom(start, end, g, splits, first);
    if first < n {
      WindowInDates(start, g, first);
      UsableExactly(start, end, g, first, Window(start, g, first));
    }
  }

  lemma PlanComplains(start: Date, end: Date, g: Geometry)
    requires start.Valid() && end.Valid()
    ensures SplitPlan(start, end, g).Failure? ==> FirstComplaint(start, end, g, SplitPlan(start, end, g).error)
    ensures SplitPlan(start, end, g).Success? ==> forall error :: !Complains(start, end, g, error)
  {
    if CheckGeometry(start, end, g).None? {
      PlanListsUsable(start, end, g);
    }
    if SplitPlan(start, end, g).Failure? {
      var error := SplitPlan(start, end, g).error;
      var k := match error
        case BadTrainMonths => 0
        case BadTestMonths => 1
        case BadStepMonths => 2
        case BadHoldoutMonths => 3
        case OverlappingSteps => 4
        case StartNotBeforeEnd => 5
        case HoldoutLeavesNoRoom => 6
        case NoWindows => 7;
      assert COMPLAINTS[k] == error && Complains(start, end, g, error);
    }
  }

  /**
   The usable windows and the holdout when there is nothing to complain of; otherwise the first
   complaint there is.
   */
  ghost predicate Answers(start: Date, end: Date, g: Geometry, r: Result<(seq<Split>, Option<(Date, Date)>), SplitError>) {
    && (r.Success? <==> forall error :: !Complains(start, end, g, error))
    && match r
       case Failure(error) => FirstComplaint(start, end, g, error)
       case Success((splits, holdout)) =>
         ListsUsable(start, end, g, splits)
         && holdout == if g.holdout > 0 then Some((FirstOf(MonthIndex(end) - (g.holdout - 1)), end)) else None
  }

  lemma PlanAnswers(start: Date, end: Date, g: Geometry)
    requires start.Valid() && end.Valid()
    ensures Answers(start, end, g, SplitPlan(start, end, g))
  {
    PlanComplains(start, end, g);
    if CheckGeometry(start, end, g).None? {
      PlanListsUsable(start, end, g);
    }
    if SplitPlan(start, end, g).Failure? {
      assert Complains(start, end, g, SplitPlan(start, end, g).error);
    }
  }

  /** The day before the holdout is the last day of the last usable month. */
  lemma HoldoutCut(end: Date, g: Geometry)
    requires g.holdout > 0
    ensures ShiftMonths(FirstOf(MonthIndex(end)), 1 - g.holdout) == HoldoutStart(end, g)
    ensures PrevDay(HoldoutStart(end, g)) == LastOf(LastMonth(end, g))
  {
    var m, last := MonthIndex(end) + 1 - g.holdout, LastMonth(end, g);
    ShiftFirst(MonthIndex(end), 1 - g.holdout);
    DayBeforeFirst(m, last);
  }

  method BuildSplits(start: Date, end: Date, g: Geometry)
    returns (r: Result<(seq<Split>, Option<(Date, Date)>), SplitError>)
    requires start.Valid() && end.Valid()
    ensures Answers(start, end, g, r)
    ensures r == SplitPlan(start, end, g)
  {
    PlanAnswers(start, end, g);
    var bad := CheckGeometry(start, end, g);
    if bad.Some? {
      return Failure(bad.value);
    }
    var holdout: Option<(Date, Date)> := None;
    var optimizationEnd := end;
    if g.holdout > 0 {
      HoldoutCut(end, g);
      var holdoutStart := ShiftMonths(FirstOf(MonthIndex(end)), 1 - g.holdout);
      if !Before(start, holdoutStart) {
        return Failure(HoldoutLeavesNoRoom);
      }
      holdout := Some((holdoutStart, end));
      optimizationEnd := PrevDay(holdoutStart);
    }
    var splits := SplitLoop(start, end, g, optimizationEnd);
    WindowsLength(start, g, WindowCount(start, end, g));
    if splits == [] {
      return Failure(NoWindows);
    }
    return Success((splits, holdout));
  }

  /** The last day that training and testing may use: the end, or the day before the holdout. */
  ghost predicate IsOptimizationEnd(end: Date, g: Geometry, last: Date) {
    last == if g.holdout > 0 then LastOf(LastMonth(end, g)) else end
  }

  lemma WindowsExtend(start: Date, g: Geometry, i: nat, next: nat)
    requires next == i + 1
    ensures Windows(start, g, next)
         == if i >= FirstWindow(start, g) then Windows(start, g, i) + [Window(start, g, i)] else Windows(start, g, i)
  {
  }

  /** Everything one turn of the loop computes from its cursor. */
  lemma Turn(start: Date, end: Date, g: Geometry, optimizationEnd: Date, i: nat, m: int, cursor: Date)
    requires start.Valid() && end.Valid() && Sound(g) && IsOptimizationEnd(end, g, optimizationEnd)
    requires m == TestMonth(start, g, i) && cursor == FirstOf(m)
    ensures var w := Window(start, g, i);
            && PrevDay(ShiftMonths(cursor, g.test)) == w.testEnd
            && Later(cursor, start) == w.testStart
            && PrevDay(cursor) == w.trainEnd
            && Later(ShiftMonths(cursor, -g.train), start) == w.trainStart
            && (Before(optimizationEnd, w.testEnd) <==> i >= WindowCount(start, end, g))
            && (!Before(optimizationEnd, w.testEnd) ==> Earlier(w.testEnd, optimizationEnd) == w.testEnd)
            && (Before(w.trainStart, w.trainEnd) && Before(w.testStart, w.testEnd) <==> i >= FirstWindow(start, g))
    ensures ShiftMonths(cursor, g.step) == FirstOf(m + g.step)
  {
    TestBounds(start, g, i, m);
    TrainStartBound(start, g, i, m);
    SkipTest(start, g, i);
    TurnEnds(start, end, g, optimizationEnd, i);
    ShiftFirst(m, g.step);
  }

  method SplitLoop(start: Date, end: Date, g: Geometry, optimizationEnd: Date) returns (splits: seq<Split>)
    requires start.Valid() && end.Valid() && Sound(g) && IsOptimizationEnd(end, g, optimizationEnd)
    ensures splits == Windows(start, g, WindowCount(start, end, g))
  {
    splits := [];
    var cursor := ShiftMonths(FirstOf(MonthIndex(start)), g.train);
    ShiftFirst(MonthIndex(start), g.train);
    ghost var i: nat := 0;
    ghost var m := TestMonth(start, g, 0);
    while true
      invariant m == TestMonth(start, g, i) && cursor == FirstOf(m)
      invariant i <= WindowCount(start, end, g)
      invariant splits == Windows(start, g, i)
      decreases WindowCount(start, end, g) - i
    {
      ghost var next := i + 1;
      Turn(start, end, g, optimizationEnd, i, m, cursor);
      var testEnd := PrevDay(ShiftMonths(cursor, g.test));
      if Before(optimizationEnd, testEnd) {
        break;
      }
      var trainStart := Later(ShiftMonths(cursor, -g.train), start);
      var trainEnd := PrevDay(cursor);
      var testStart := Later(cursor, start);
      var split := Split(trainStart, trainEnd, testStart, Earlier(testEnd, optimizationEnd));
      assert split == Window(start, g, i);
      WindowsExtend(start, g, i, next);
      if Before(trainStart, trainEnd) && Before(testStart, testEnd) {
        splits := splits + [split];
      }
      cursor := ShiftMonths(cursor, g.step);
      i, m := next, m + g.step;
    }
  }

  /** The loop breaks exactly at the window count, and its guard on the test end is a no-op. */
  lemma TurnEnds(start: Date, end: Date, g: Geometry, optimizationEnd: Date, i: nat)
    requires start.Valid() && end.Valid() && Sound(g) && IsOptimizationEnd(end, g, optimizationEnd)
    ensures var testEnd := Window(start, g, i).testEnd;
            && (Before(optimizationEnd, testEnd) <==> i >= WindowCount(start, end, g))
            && (!Before(optimizationEnd, testEnd) ==> Earlier(testEnd, optimizationEnd) == testEnd)
  {
    var last, usable := TestLast(start, g, i), LastMonth(end, g);
    CountIsExact(start, end, g, i);
    if g.holdout > 0 {
      BeforeByMonth(LastOf(usable), LastOf(last));
    } else {
      EndsInTime(end, g, last);
    }
    BeforeByMonth(optimizationEnd, LastOf(last));
  }
}
