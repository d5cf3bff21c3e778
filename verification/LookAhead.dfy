/** A run never looks ahead: what it does at a bar is fixed by the tickers' own bars up to that date. */
module LookAhead {
  import opened Outcomes
  import opened Simulation
  import opened SignalInputs
  import opened PanelMarks
  import BarPanel

  // ------------------------------------------------ equal plans and equal bars

  /** The plans give one decision to every ticker at every bar before `j`. */
  ghost predicate PlansAgree(plan: Plan, plan': Plan, j: nat) {
    forall i: nat, t :: i < j ==> PlannedAt(plan, t, i) == PlannedAt(plan', t, i)
  }

  lemma StepAgrees(s: Settings, plan: Plan, plan': Plan, bars: seq<Bar>, bars': seq<Bar>,
                   states: seq<Portfolio>, states': seq<Portfolio>, i: nat, j: nat)
    requires j == i + 1 && j < |states| <= |bars| && j < |states'| <= |bars'| && PlansAgree(plan, plan', j)
    requires StepsTo(s, plan, bars, states, i, j) && StepsTo(s, plan', bars', states', i, j)
    requires states[i] == states'[i] && bars[i] == bars'[i] && bars[j] == bars'[j]
    ensures states[j] == states'[j]
  {
    var tickers := StrategyTickers(s.ActiveTickers(bars[i].month), states[i].book);
    assert SignalsAt(plan, i, tickers) == SignalsAt(plan', i, tickers);
  }

  /** Runs on equal bars under equal decisions are equal; bar `j` uses the decisions before `j` only. */
  lemma {:induction false} RunsAgree(s: Settings, plan: Plan, plan': Plan, bars: seq<Bar>, bars': seq<Bar>, first: nat,
                                     states: seq<Portfolio>, states': seq<Portfolio>, j: nat)
    requires IsRun(s, plan, bars, first, states) && IsRun(s, plan', bars', first, states')
    requires first <= j < |states| && j < |states'| && states[first] == states'[first]
    requires PlansAgree(plan, plan', j) && bars[..j + 1] == bars'[..j + 1]
    ensures states[j] == states'[j]
  {
    if j > first {
      var i := j - 1;
      assert bars[..i + 1] == bars[..j + 1][..i + 1] == bars'[..i + 1];
      assert bars[i] == bars[..j + 1][i] == bars'[i] && bars[j] == bars[..j + 1][j] == bars'[j];
      RunsAgree(s, plan, plan', bars, bars', first, states, states', i);
      assert StepsTo(s, plan, bars, states, i, j);
      assert StepsTo(s, plan', bars', states', i, j);
      StepAgrees(s, plan, plan', bars, bars', states, states', i, j);
    }
  }

  // --------------------------------------------------- panels of two histories

  /** Every ticker's own bars are the same on every day up to and including `d`. */
  ghost predicate HistoriesAgree(a: map<string, BarPanel.History>, b: map<string, BarPanel.History>, tickers: seq<string>, d: int) {
    forall t :: t in tickers ==> t in a && t in b && AgreeUpTo(a[t], b[t], d)
  }

  /** Two panels of the same tickers whose histories agree up to a day. */
  ghost predicate PanelsUpTo(a: map<string, BarPanel.History>, b: map<string, BarPanel.History>, tickers: seq<string>,
                             p: BarPanel.Panel, q: BarPanel.Panel, d: int) {
    BarPanel.IsPanel(a, tickers, p) && BarPanel.IsPanel(b, tickers, q) && HistoriesAgree(a, b, tickers, d)
  }

  lemma DateIsShared(a: map<string, BarPanel.History>, b: map<string, BarPanel.History>, tickers: seq<string>,
                     p: BarPanel.Panel, q: BarPanel.Panel, d: int, e: int)
    requires PanelsUpTo(a, b, tickers, p, q, d) && e <= d
    ensures e in p.dates <==> e in q.dates
  {
    if e in p.dates {
      var t :| t in tickers && e in a[t];
      assert e in b[t];
    }
    if e in q.dates {
      var t :| t in tickers && e in b[t];
      assert e in a[t];
    }
  }

  /** Ascending lists with one first part go on alike when they share the next date. */
  lemma NextDateAgrees(x: seq<int>, y: seq<int>, j: nat)
    requires BarPanel.Increasing(x) && BarPanel.Increasing(y)
    requires j < |x| && j <= |y| && x[..j] == y[..j]
    requires forall e :: e <= x[j] ==> (e in x <==> e in y)
    ensures j < |y| && y[j] == x[j]
  {
    assert forall k :: 0 <= k < j ==> x[k] == x[..j][k] == y[k];
    assert x[j] in x;
    var k :| 0 <= k < |y| && y[k] == x[j];
    assert j <= k && y[j] in y;
    var m :| 0 <= m < |x| && x[m] == y[j];
    assert m >= j;
  }

  lemma {:induction false} PrefixIsShared(x: seq<int>, y: seq<int>, j: nat)
    requires BarPanel.Increasing(x) && BarPanel.Increasing(y) && j < |x|
    requires forall e :: e <= x[j] ==> (e in x <==> e in y)
    ensures SameDates(x, y, j)
  {
    if j == 0 {
      NextDateAgrees(x, y, j);
    } else {
      var i := j - 1;
      PrefixIsShared(x, y, i);
      NextDateAgrees(x, y, j);
    }
  }

  /** The calendars have the same dates up to the day the histories agree to. */
  lemma DatesAgree(a: map<string, BarPanel.History>, b: map<string, BarPanel.History>, tickers: seq<string>,
                   p: BarPanel.Panel, q: BarPanel.Panel, d: int, j: nat)
    requires PanelsUpTo(a, b, tickers, p, q, d) && j < |p.dates| && p.dates[j] <= d
    ensures SameDates(p.dates, q.dates, j)
  {
    forall e | e <= p.dates[j]
      ensures e in p.dates <==> e in q.dates
    {
      DateIsShared(a, b, tickers, p, q, d, e);
    }
    PrefixIsShared(p.dates, q.dates, j);
  }

  lemma AsOfAgrees(h: BarPanel.History, h': BarPanel.History, c: BarPanel.Column, d: int, v: Option<real>)
    requires AgreeUpTo(h, h', d) && BarPanel.IsAsOf(h, c, d, v)
    ensures BarPanel.IsAsOf(h', c, d, v)
  {
    if v.Some? {
      var e :| e in h && e <= d && h[e].Price(c) == v && BarPanel.NoPriceIn(h, c, e, d);
      assert e in h' && BarPanel.NoPriceIn(h', c, e, d);
    }
  }

  lemma BarFromCloses(p: BarPanel.Panel, q: BarPanel.Panel, monthOf: int -> int, i: nat)
    requires i < |p.dates| && i < |q.dates| && p.dates[i] == q.dates[i] && p.close.Keys == q.close.Keys
    requires forall t :: t in p.close ==> BarPanel.Shown(p, t, BarPanel.Close, i) == BarPanel.Shown(q, t, BarPanel.Close, i)
    ensures BarsOf(p, monthOf)[i] == BarsOf(q, monthOf)[i]
  {
    var x, y := BarsOf(p, monthOf)[i].prices, BarsOf(q, monthOf)[i].prices;
    assert x.Keys == p.close.Keys && y.Keys == q.close.Keys;
    assert x == y;
  }

  /** The marks of a shared date are the same. */
  lemma BarAgrees(a: map<string, BarPanel.History>, b: map<string, BarPanel.History>, tickers: seq<string>,
                  p: BarPanel.Panel, q: BarPanel.Panel, monthOf: int -> int, d: int, i: nat)
    requires PanelsUpTo(a, b, tickers, p, q, d) && i < |p.dates| && i < |q.dates| && p.dates[i] == q.dates[i] <= d
    ensures BarsOf(p, monthOf)[i] == BarsOf(q, monthOf)[i]
  {
    forall t | t in p.close
      ensures BarPanel.Shown(p, t, BarPanel.Close, i) == BarPanel.Shown(q, t, BarPanel.Close, i)
    {
      assert t in (set x | x in tickers);
      ShownAgrees(a, b, tickers, p, q, d, i, t);
    }
    BarFromCloses(p, q, monthOf, i);
  }

  lemma ShownAgrees(a: map<string, BarPanel.History>, b: map<string, BarPanel.History>, tickers: seq<string>,
                    p: BarPanel.Panel, q: BarPanel.Panel, d: int, i: nat, t: string)
    requires PanelsUpTo(a, b, tickers, p, q, d) && i < |p.dates| && i < |q.dates| && p.dates[i] == q.dates[i] <= d
    requires t in tickers
    ensures BarPanel.Shown(p, t, BarPanel.Close, i) == BarPanel.Shown(q, t, BarPanel.Close, i)
  {
    BarPanel.ShownIsAsOf(a, tickers, p, t, i, BarPanel.Close);
    BarPanel.ShownIsAsOf(b, tickers, q, t, i, BarPanel.Close);
    assert AgreeUpTo(a[t], b[t], p.dates[i]);
    AsOfAgrees(a[t], b[t], BarPanel.Close, p.dates[i], BarPanel.Shown(p, t, BarPanel.Close, i));
    BarPanel.AsOfUnique(b[t], BarPanel.Close, p.dates[i], BarPanel.Shown(p, t, BarPanel.Close, i),
                        BarPanel.Shown(q, t, BarPanel.Close, i));
  }

  lemma PlannedOnPanel(st: Strategy, p: BarPanel.Panel, t: string, i: nat)
    requires i < |p.dates|
    ensures PlannedAt(PlanOf(st, PanelInputs(st, p)), t, i)
         == if t in p.sources then st.signal(Rows(st, p.sources[t], p.dates), i) else Hold
  {
  }

  /** The decision for a ticker at a shared date is the same: it reads own bars up to that date. */
  lemma DecisionAgrees(a: map<string, BarPanel.History>, b: map<string, BarPanel.History>, tickers: seq<string>,
                       p: BarPanel.Panel, q: BarPanel.Panel, st: Strategy, d: int, i: nat, t: string)
    requires PanelsUpTo(a, b, tickers, p, q, d) && Causal(st) && ReadsPast(st)
    requires SameDates(p.dates, q.dates, i) && p.dates[i] <= d
    ensures PlannedAt(PlanOf(st, PanelInputs(st, p)), t, i) == PlannedAt(PlanOf(st, PanelInputs(st, q)), t, i)
  {
    assert t in p.sources <==> t in (set x | x in tickers);
    assert t in q.sources <==> t in (set x | x in tickers);
    PlannedOnPanel(st, p, t, i);
    PlannedOnPanel(st, q, t, i);
    if t in tickers {
      assert BarPanel.TickerAligned(a, p, t) && BarPanel.TickerAligned(b, q, t);
      assert AgreeUpTo(a[t], b[t], p.dates[i]);
      SignalSeesPastOnly(st, a[t], b[t], p.dates, q.dates, i);
    }
  }

  // ------------------------------------------------------------ the theorem

  lemma PrefixAgrees(a: map<string, BarPanel.History>, b: map<string, BarPanel.History>, tickers: seq<string>,
                     p: BarPanel.Panel, q: BarPanel.Panel, st: Strategy, monthOf: int -> int, d: int, j: nat)
    requires PanelsUpTo(a, b, tickers, p, q, d) && Causal(st) && ReadsPast(st) && j < |p.dates| && p.dates[j] <= d
    ensures SameDates(p.dates, q.dates, j) && BarsOf(p, monthOf)[..j + 1] == BarsOf(q, monthOf)[..j + 1]
    ensures PlansAgree(PlanOf(st, PanelInputs(st, p)), PlanOf(st, PanelInputs(st, q)), j + 1)
  {
    DatesAgree(a, b, tickers, p, q, d, j);
    forall i: nat | i <= j
      ensures SameDates(p.dates, q.dates, i) && p.dates[i] == q.dates[i] <= d
    {
      assert p.dates[..i + 1] == p.dates[..j + 1][..i + 1] == q.dates[..i + 1];
      assert p.dates[i] == p.dates[..j + 1][i] == q.dates[i];
    }
    forall i: nat | i <= j
      ensures BarsOf(p, monthOf)[i] == BarsOf(q, monthOf)[i]
    {
      BarAgrees(a, b, tickers, p, q, monthOf, d, i);
    }
    forall i: nat, t | i < j + 1
      ensures PlannedAt(PlanOf(st, PanelInputs(st, p)), t, i) == PlannedAt(PlanOf(st, PanelInputs(st, q)), t, i)
    {
      DecisionAgrees(a, b, tickers, p, q, st, d, i, t);
    }
  }

  /** Runs from equal states at one bar stay equal as long as the histories agree. */
  lemma RunSeesPastOnly(a: map<string, BarPanel.History>, b: map<string, BarPanel.History>, tickers: seq<string>,
                        p: BarPanel.Panel, q: BarPanel.Panel, s: Settings, st: Strategy, monthOf: int -> int, first: nat,
                        states: seq<Portfolio>, states': seq<Portfolio>, d: int, j: nat)
    requires PanelsUpTo(a, b, tickers, p, q, d) && Causal(st) && ReadsPast(st)
    requires PanelRun(s, st, p, monthOf, first, states) && PanelRun(s, st, q, monthOf, first, states')
    requires first <= j < |states| && j < |states'| && states[first] == states'[first] && p.dates[j] <= d
    ensures q.dates[j] == p.dates[j] && states[j] == states'[j]
    ensures EquityAt(BarsOf(p, monthOf), states, j) == EquityAt(BarsOf(q, monthOf), states', j)
  {
    var plan, plan' := PlanOf(st, PanelInputs(st, p)), PlanOf(st, PanelInputs(st, q));
    var bars, bars' := BarsOf(p, monthOf), BarsOf(q, monthOf);
    PrefixAgrees(a, b, tickers, p, q, st, monthOf, d, j);
    assert p.dates[j] == p.dates[..j + 1][j] == q.dates[j];
    assert bars[j] == bars[..j + 1][j] == bars'[j];
    RunsAgree(s, plan, plan', bars, bars', first, states, states', j);
  }

  /** Calendars that agree past the first scored date of one begin scoring at the same bar. */
  lemma ScoringAgrees(x: seq<int>, y: seq<int>, warmupMonths: int, scoringStart: int, first: nat, other: nat, j: nat)
    requires SameDates(x, y, j) && first <= j
    requires ScoredFrom(x, warmupMonths, scoringStart, first) && ScoredFrom(y, warmupMonths, scoringStart, other)
    ensures first == other
  {
    assert forall i :: 0 <= i <= j ==> x[i] == x[..j + 1][i] == y[i];
  }

  /**
   No look-ahead, from the tickers' histories to the equity curve: two sets of histories that agree
   on every day up to `d` give panels with the same dates up to `d` and one first scored bar, and runs
   from the same cash with the same portfolio, trades and mark at every bar dated up to `d`.
   */
  lemma NoLookAhead(a: map<string, BarPanel.History>, b: map<string, BarPanel.History>, tickers: seq<string>,
                    p: BarPanel.Panel, q: BarPanel.Panel, s: Settings, st: Strategy, monthOf: int -> int,
                    warmupMonths: int, scoringStart: int, initialCash: real, first: nat, other: nat,
                    states: seq<Portfolio>, states': seq<Portfolio>, d: int, j: nat)
    requires PanelsUpTo(a, b, tickers, p, q, d) && Causal(st) && ReadsPast(st)
    requires ScoredFrom(p.dates, warmupMonths, scoringStart, first) && ScoredFrom(q.dates, warmupMonths, scoringStart, other)
    requires PanelRun(s, st, p, monthOf, first, states) && PanelRun(s, st, q, monthOf, other, states')
    requires states[first] == Start(initialCash) && states'[other] == Start(initialCash)
    requires first <= j < |states| && j < |states'| && p.dates[j] <= d
    ensures first == other && q.dates[j] == p.dates[j] && states[j] == states'[j]
    ensures EquityAt(BarsOf(p, monthOf), states, j) == EquityAt(BarsOf(q, monthOf), states', j)
  {
    DatesAgree(a, b, tickers, p, q, d, j);
    ScoringAgrees(p.dates, q.dates, warmupMonths, scoringStart, first, other, j);
    RunSeesPastOnly(a, b, tickers, p, q, s, st, monthOf, first, states, states', d, j);
  }

  /** The trades of the bar after `i` are decided on the days up to bar `i`: its own day sets only their prices. */
  lemma OrdersAreDecidedBefore(a: map<string, BarPanel.History>, b: map<string, BarPanel.History>, tickers: seq<string>,
                               p: BarPanel.Panel, q: BarPanel.Panel, st: Strategy, d: int, i: nat, asked: seq<string>)
    requires PanelsUpTo(a, b, tickers, p, q, d) && Causal(st) && ReadsPast(st) && i < |p.dates| && p.dates[i] <= d
    ensures SignalsAt(PlanOf(st, PanelInputs(st, p)), i, asked) == SignalsAt(PlanOf(st, PanelInputs(st, q)), i, asked)
  {
    DatesAgree(a, b, tickers, p, q, d, i);
    forall t | t in asked
      ensures PlannedAt(PlanOf(st, PanelInputs(st, p)), t, i) == PlannedAt(PlanOf(st, PanelInputs(st, q)), t, i)
    {
      DecisionAgrees(a, b, tickers, p, q, st, d, i, t);
    }
  }
}
