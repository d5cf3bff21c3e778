/** Many threads sharing one rate limiter: what every interleaving of their turns keeps. */
module CallPacing {
  import opened Outcomes
  import opened Reals
  import opened RateLimiter

  /** A thread is outside, about to take a turn under the lock, or asleep outside the lock. */
  datatype Phase = Outside | Trying | Asleep(until: real)

  datatype Event = Grant(at: real) | Refusal | Cleared

  datatype World = World(clock: real, pacing: Pacing, threads: map<nat, Phase>, log: seq<Event>)

  datatype Action = Tick(seconds: real) | Enter(id: nat) | TakeTurn(id: nat) | Wake(id: nat) | Reset

  function PhaseOf(w: World, id: nat): Phase {
    if id in w.threads then w.threads[id] else Outside
  }

  predicate Enabled(w: World, a: Action) {
    match a
    case Tick(seconds) => seconds >= 0.0
    case Enter(id) => PhaseOf(w, id) == Outside
    case TakeTurn(id) => PhaseOf(w, id) == Trying
    case Wake(id) => PhaseOf(w, id).Asleep? && w.clock >= PhaseOf(w, id).until
    case Reset => true
  }

  function AfterTurn(w: World, id: nat, turn: (Pacing, Verdict)): World {
    match turn.1
    case Granted => World(w.clock, turn.0, w.threads[id := Outside], w.log + [Grant(w.clock)])
    case Refused => World(w.clock, turn.0, w.threads[id := Outside], w.log + [Refusal])
    case Wait(seconds) => World(w.clock, turn.0, w.threads[id := Asleep(w.clock + seconds)], w.log)
  }

  function Step(limits: Limits, w: World, a: Action): World {
    match a
    case Tick(seconds) => w.(clock := w.clock + seconds)
    case Enter(id) => w.(threads := w.threads[id := Trying])
    case TakeTurn(id) => AfterTurn(w, id, Turn(limits, w.pacing, w.clock))
    case Wake(id) => w.(threads := w.threads[id := Trying])
    case Reset => w.(pacing := FRESH, log := w.log + [Cleared])
  }

  ghost predicate IsExecution(limits: Limits, worlds: seq<World>, actions: seq<Action>) {
    && limits.Valid()
    && |worlds| == |actions| + 1
    && worlds[0].pacing == FRESH && worlds[0].log == []
    && forall i: nat :: i < |actions| ==> Moves(limits, worlds[i], actions[i], worlds[i + 1])
  }

  ghost predicate Moves(limits: Limits, w: World, a: Action, next: World) {
    Enabled(w, a) && next == Step(limits, w, a)
  }

  // ------------------------------------------------------------------ invariant

  /** The times granted since the last reset. */
  function EpochGrants(log: seq<Event>): seq<real> {
    if log == [] then [] else
      var n := |log| - 1;
      match log[n]
      case Grant(at) => EpochGrants(log[..n]) + [at]
      case Refusal => EpochGrants(log[..n])
      case Cleared => []
  }

  /** Each grant is at least the interval after the one before it. */
  ghost predicate Spaced(grants: seq<real>, interval: real) {
    forall i, j :: 0 <= i < j < |grants| && j == i + 1 ==> grants[j] - grants[i] >= interval
  }

  ghost predicate WithinBudget(limits: Limits, n: int) {
    limits.maxCalls.Some? ==> n <= limits.maxCalls.value
  }

  /** What the grants of one epoch keep. */
  ghost predicate EpochKept(limits: Limits, grants: seq<real>) {
    Spaced(grants, limits.minInterval) && WithinBudget(limits, |grants|)
  }

  /** The recorded pacing is that of the current epoch, and every epoch so far was kept. */
  ghost predicate Kept(limits: Limits, w: World) {
    var grants := EpochGrants(w.log);
    && w.pacing.calls == |grants|
    && (if grants == [] then w.pacing.lastAt.None? else w.pacing.lastAt == Some(grants[|grants| - 1]) && grants[|grants| - 1] <= w.clock)
    && forall k :: 0 <= k <= |w.log| ==> EpochKept(limits, EpochGrants(w.log[..k]))
  }

  lemma GrantKeeps(limits: Limits, w: World)
    requires limits.Valid() && Kept(limits, w) && Turn(limits, w.pacing, w.clock).1 == Granted
    ensures EpochKept(limits, EpochGrants(w.log) + [w.clock])
  {
    WholeEpochKept(limits, w);
  }

  lemma EpochsExtend(limits: Limits, log: seq<Event>, e: Event)
    requires forall k :: 0 <= k <= |log| ==> EpochKept(limits, EpochGrants(log[..k]))
    requires EpochKept(limits, EpochGrants(log + [e]))
    ensures forall k :: 0 <= k <= |log + [e]| ==> EpochKept(limits, EpochGrants((log + [e])[..k]))
  {
    var longer := log + [e];
    forall k | 0 <= k <= |longer|
      ensures EpochKept(limits, EpochGrants(longer[..k]))
    {
      if k <= |log| {
        assert longer[..k] == log[..k];
      } else {
        assert longer[..k] == longer;
      }
    }
  }

  lemma EpochStep(log: seq<Event>, e: Event)
    ensures EpochGrants(log + [e]) == match e
                                      case Grant(at) => EpochGrants(log) + [at]
                                      case Refusal => EpochGrants(log)
                                      case Cleared => []
  {
    assert (log + [e])[..|log|] == log;
  }

  /** A step that records nothing only lets time pass or moves a thread. */
  lemma QuietStepKeeps(limits: Limits, w: World, next: World)
    requires Kept(limits, w) && next.log == w.log && next.pacing == w.pacing && next.clock >= w.clock
    ensures Kept(limits, next)
  {
  }

  lemma EventKeeps(limits: Limits, w: World, next: World, e: Event)
    requires Kept(limits, w) && next.log == w.log + [e] && next.clock == w.clock
    requires match e
             case Grant(at) => at == w.clock && next.pacing == Pacing(w.pacing.calls + 1, Some(at))
                               && EpochKept(limits, EpochGrants(w.log) + [at])
             case Refusal => next.pacing == w.pacing
             case Cleared => next.pacing == FRESH && limits.Valid()
    ensures Kept(limits, next)
  {
    EpochStep(w.log, e);
    WholeEpochKept(limits, w);
    EpochsExtend(limits, w.log, e);
  }

  lemma WholeEpochKept(limits: Limits, w: World)
    requires Kept(limits, w)
    ensures EpochKept(limits, EpochGrants(w.log))
  {
    assert w.log[..|w.log|] == w.log;
    assert EpochKept(limits, EpochGrants(w.log[..|w.log|]));
  }

  lemma TurnKeeps(limits: Limits, w: World, id: nat)
    requires limits.Valid() && Kept(limits, w)
    ensures Kept(limits, AfterTurn(w, id, Turn(limits, w.pacing, w.clock)))
  {
    var turn := Turn(limits, w.pacing, w.clock);
    var next := AfterTurn(w, id, turn);
    match turn.1 {
      case Granted =>
        GrantKeeps(limits, w);
        EventKeeps(limits, w, next, Grant(w.clock));
      case Refused => EventKeeps(limits, w, next, Refusal);
      case Wait(_) => QuietStepKeeps(limits, w, next);
    }
  }

  lemma StepKeeps(limits: Limits, w: World, a: Action)
    requires limits.Valid() && Kept(limits, w) && Enabled(w, a)
    ensures Kept(limits, Step(limits, w, a))
  {
    match a {
      case TakeTurn(id) => TurnKeeps(limits, w, id);
      case Reset => EventKeeps(limits, w, Step(limits, w, a), Cleared);
      case _ => QuietStepKeeps(limits, w, Step(limits, w, a));
    }
  }

  lemma {:induction false} ExecutionKeeps(limits: Limits, worlds: seq<World>, actions: seq<Action>, i: nat)
    requires IsExecution(limits, worlds, actions) && i < |worlds|
    ensures Kept(limits, worlds[i])
  {
    if i > 0 {
      var prev := i - 1;
      ExecutionKeeps(limits, worlds, actions, prev);
      assert Moves(limits, worlds[prev], actions[prev], worlds[prev + 1]);
      StepKeeps(limits, worlds[prev], actions[prev]);
    }
  }

  // ------------------------------------------------------- budget and spacing

  /** In every execution the count is the grants since the last reset, and stays within the budget. */
  lemma CountIsGrantsSinceReset(limits: Limits, worlds: seq<World>, actions: seq<Action>, i: nat)
    requires IsExecution(limits, worlds, actions) && i < |worlds|
    ensures worlds[i].pacing.calls == |EpochGrants(worlds[i].log)|
    ensures WithinBudget(limits, |EpochGrants(worlds[i].log)|)
  {
    var log := worlds[i].log;
    ExecutionKeeps(limits, worlds, actions, i);
    assert log[..|log|] == log;
    assert EpochKept(limits, EpochGrants(log[..|log|]));
  }

  /** The grant at log position `p`, with no reset after it, is in the epoch. */
  lemma {:induction false} GrantInEpoch(log: seq<Event>, p: nat) returns (k: nat)
    requires p < |log| && log[p].Grant?
    requires forall q :: p < q < |log| ==> !log[q].Cleared?
    ensures k < |EpochGrants(log)| && EpochGrants(log)[k] == log[p].at
    ensures p < |log| - 1 && log[|log| - 1].Grant? ==> k < |EpochGrants(log)| - 1
  {
    var n := |log| - 1;
    if p == n {
      k := |EpochGrants(log[..n])|;
    } else {
      k := GrantInEpoch(log[..n], p);
    }
  }

  lemma {:induction false} SpacedPairs(grants: seq<real>, interval: real, i: nat, j: nat)
    requires Spaced(grants, interval) && interval >= 0.0 && i < j < |grants|
    ensures grants[j] - grants[i] >= interval
  {
    var prev := j - 1;
    assert grants[j] - grants[prev] >= interval;
    if i < prev {
      SpacedPairs(grants, interval, i, prev);
    }
  }

  /** In every execution two grants with no reset between them are at least the interval apart. */
  lemma GrantsAreSpaced(limits: Limits, worlds: seq<World>, actions: seq<Action>, i: nat, p: nat, q: nat)
    requires IsExecution(limits, worlds, actions) && i < |worlds|
    requires p < q < |worlds[i].log| && worlds[i].log[p].Grant? && worlds[i].log[q].Grant?
    requires forall r :: p < r < q ==> !worlds[i].log[r].Cleared?
    ensures worlds[i].log[q].at - worlds[i].log[p].at >= limits.minInterval
  {
    ExecutionKeeps(limits, worlds, actions, i);
    var next := q + 1;
    var log := worlds[i].log[..next];
    assert EpochKept(limits, EpochGrants(log));
    var k := GrantInEpoch(log, p);
    SpacedPairs(EpochGrants(log), limits.minInterval, k, |EpochGrants(log)| - 1);
  }

  // --------------------------------------------------------- grants in a span

  /** How many of the times lie between `a` and `b`. */
  function CountWithin(grants: seq<real>, a: real, b: real): nat {
    if grants == [] then 0 else
      var n := |grants| - 1;
      CountWithin(grants[..n], a, b) + (if a <= grants[n] <= b then 1 else 0)
  }

  lemma {:induction false} CountCut(grants: seq<real>, a: real, b: real, c: real)
    requires forall k :: 0 <= k < |grants| ==> (a <= grants[k] <= b <==> a <= grants[k] <= c)
    ensures CountWithin(grants, a, b) == CountWithin(grants, a, c)
  {
    if grants != [] {
      CountCut(grants[..|grants| - 1], a, b, c);
    }
  }

  /** `n` spaced times need a span of `n - 1` intervals. */
  lemma {:induction false} SpanNeeded(grants: seq<real>, interval: real, a: real, b: real)
    requires Spaced(grants, interval) && interval > 0.0 && a <= b
    ensures CountWithin(grants, a, b) > 0 ==> Mul((CountWithin(grants, a, b) - 1) as real, interval) <= b - a
    decreases |grants|
  {
    if grants != [] {
      var n := |grants| - 1;
      var earlier, last := grants[..n], grants[n];
      forall k: nat | k < n
        ensures earlier[k] <= last - interval
      {
        SpacedPairs(grants, interval, k, n);
      }
      if a <= last <= b {
        var cut := last - interval;
        CountCut(earlier, a, b, cut);
        if a <= cut {
          SpanNeeded(earlier, interval, a, cut);
        } else {
          CountCut(earlier, a, cut, a - 1.0);
          CountNone(earlier, a, a - 1.0);
        }
        OneInterval(CountWithin(earlier, a, b), interval);
      } else {
        SpanNeeded(earlier, interval, a, b);
      }
    }
  }

  lemma {:induction false} CountNone(grants: seq<real>, a: real, b: real)
    requires b < a
    ensures CountWithin(grants, a, b) == 0
  {
    if grants != [] {
      CountNone(grants[..|grants| - 1], a, b);
    }
  }

  lemma OneInterval(n: nat, interval: real)
    ensures Mul(n as real, interval) == Mul((n - 1) as real, interval) + interval
    ensures Mul(0 as real, interval) == 0.0
  {
    MulAdd(interval, (n - 1) as real, 1.0);
    assert n as real == (n - 1) as real + 1.0;
    assert Mul(n as real, interval) == Mul(interval, n as real);
    assert Mul((n - 1) as real, interval) == Mul(interval, (n - 1) as real);
  }

  lemma WholeIntervals(n: int, interval: real, span: real)
    requires interval > 0.0 && Mul(n as real, interval) <= span
    ensures n <= (span / interval).Floor
  {
    var ratio := span / interval;
    Divide(span, interval);
    if n as real > ratio {
      ScaleStrict(ratio, n as real, interval);
    }
  }

  /** In every execution a span of length T holds at most floor(T / interval) + 1 grants of one epoch. */
  lemma SpanHoldsFewGrants(limits: Limits, worlds: seq<World>, actions: seq<Action>, i: nat, k: nat, from: real, span: real)
    requires IsExecution(limits, worlds, actions) && i < |worlds| && k <= |worlds[i].log|
    requires limits.minInterval > 0.0 && span >= 0.0
    ensures CountWithin(EpochGrants(worlds[i].log[..k]), from, from + span) <= (span / limits.minInterval).Floor + 1
  {
    ExecutionKeeps(limits, worlds, actions, i);
    var grants := EpochGrants(worlds[i].log[..k]);
    assert EpochKept(limits, grants);
    var n := CountWithin(grants, from, from + span);
    SpanNeeded(grants, limits.minInterval, from, from + span);
    if n > 0 {
      WholeIntervals(n - 1, limits.minInterval, span);
    } else {
      OneInterval(0, limits.minInterval);
      WholeIntervals(0, limits.minInterval, span);
    }
  }

  // ------------------------------------------------------- refusals and sleeps

  /** A turn is refused exactly when the budget is spent, and then it changes no shared state and nobody sleeps. */
  lemma RefusalChangesNothing(limits: Limits, w: World, id: nat)
    requires Enabled(w, TakeTurn(id))
    ensures var next := Step(limits, w, TakeTurn(id));
            && (next.log == w.log + [Refusal] <==> Exhausted(limits, w.pacing))
            && (Exhausted(limits, w.pacing) ==> next == w.(threads := w.threads[id := Outside], log := w.log + [Refusal]))
  {
    assert (w.log + [Refusal])[|w.log|] == Refusal;
    assert (w.log + [Grant(w.clock)])[|w.log|] == Grant(w.clock);
  }

  /** A sleeper that wakes to the pacing it left, whatever time has passed, is granted at its next turn. */
  lemma UndisturbedSleeperIsGranted(limits: Limits, w: World, id: nat, later: World)
    requires Enabled(w, TakeTurn(id)) && PhaseOf(Step(limits, w, TakeTurn(id)), id).Asleep?
    requires later.pacing == w.pacing && PhaseOf(later, id) == PhaseOf(Step(limits, w, TakeTurn(id)), id)
    requires Enabled(later, Wake(id))
    ensures var woken := Step(limits, later, Wake(id));
            Enabled(woken, TakeTurn(id)) && Step(limits, woken, TakeTurn(id)).log == later.log + [Grant(later.clock)]
  {
    SecondTurnIsGranted(limits, w.pacing, w.clock, later.clock);
  }

  // ------------------------------------------------- what a turn comes to

  /** The log positions of the grants since the last reset. */
  function Current(log: seq<Event>): set<nat> {
    set k: nat | k < |log| && log[k].Grant? && forall m :: k < m < |log| ==> !log[m].Cleared?
  }

  lemma CurrentExtends(log: seq<Event>, e: Event)
    ensures Current(log + [e]) == match e
                                  case Grant(_) => Current(log) + {|log|}
                                  case Refusal => Current(log)
                                  case Cleared => {}
  {
    var longer := log + [e];
    forall k: nat | k < |log|
      ensures k in Current(longer) <==> k in Current(log) && !e.Cleared?
    {
      if k in Current(longer) {
        assert longer[|log|] == e;
        forall m | k < m < |log|
          ensures !log[m].Cleared?
        {
          assert longer[m] == log[m];
        }
      }
    }
  }

  lemma {:induction false} EpochIsCurrent(log: seq<Event>)
    ensures |EpochGrants(log)| == |Current(log)|
    ensures forall k :: k in Current(log) ==> log[k].at in EpochGrants(log)
  {
    if log == [] {
      assert Current(log) == {};
    } else {
      var n := |log| - 1;
      EpochIsCurrent(log[..n]);
      CurrentExtends(log[..n], log[n]);
      EpochStep(log[..n], log[n]);
      assert log == log[..n] + [log[n]];
    }
  }

  /** The last grant of the epoch is its latest log position. */
  lemma {:induction false} LastIsCurrent(log: seq<Event>) returns (k: nat)
    requires EpochGrants(log) != []
    ensures k in Current(log) && (forall m :: m in Current(log) ==> m <= k)
    ensures log[k].at == EpochGrants(log)[|EpochGrants(log)| - 1]
  {
    var n := |log| - 1;
    CurrentExtends(log[..n], log[n]);
    EpochStep(log[..n], log[n]);
    assert log == log[..n] + [log[n]];
    if log[n].Grant? {
      k := n;
    } else {
      k := LastIsCurrent(log[..n]);
    }
  }

  /** Fewer calls were granted since the last reset than the budget allows. */
  ghost predicate BudgetLeft(limits: Limits, log: seq<Event>) {
    limits.maxCalls.Some? ==> |Current(log)| < limits.maxCalls.value
  }

  /** The interval has passed since every grant of the epoch, or there is none to keep. */
  ghost predicate Due(limits: Limits, w: World) {
    limits.minInterval == 0.0 || forall k :: k in Current(w.log) ==> w.clock >= w.log[k].at + limits.minInterval
  }

  /** The thread sleeps until the interval has passed since the last grant of the epoch. */
  ghost predicate SleepsOff(limits: Limits, w: World, until: real) {
    exists k :: k in Current(w.log) && (forall m :: m in Current(w.log) ==> m <= k) && until == w.log[k].at + limits.minInterval
  }

  lemma DueIsSinceLast(limits: Limits, w: World)
    requires limits.Valid() && Kept(limits, w) && limits.minInterval > 0.0
    ensures Due(limits, w) <==> w.pacing.lastAt.None? || w.clock >= w.pacing.lastAt.value + limits.minInterval
  {
    var grants := EpochGrants(w.log);
    EpochIsCurrent(w.log);
    WholeEpochKept(limits, w);
    if grants != [] {
      var last := LastIsCurrent(w.log);
      forall k | k in Current(w.log)
        ensures w.log[k].at <= w.log[last].at
      {
        EarlierInEpoch(grants, limits.minInterval, w.log[k].at);
      }
    }
  }

  lemma EarlierInEpoch(grants: seq<real>, interval: real, at: real)
    requires Spaced(grants, interval) && interval >= 0.0 && at in grants
    ensures at <= grants[|grants| - 1]
  {
    var i :| 0 <= i < |grants| && grants[i] == at;
    if i < |grants| - 1 {
      SpacedPairs(grants, interval, i, |grants| - 1);
    }
  }

  /** Refused when the budget is spent; else granted when due; else asleep until due. Others stay as they are. */
  ghost predicate ComesTo(limits: Limits, w: World, next: World, id: nat) {
    && next.clock == w.clock
    && (forall other :: other != id ==> PhaseOf(next, other) == PhaseOf(w, other))
    && (if !BudgetLeft(limits, w.log) then PhaseOf(next, id) == Outside && next.log == w.log + [Refusal]
        else if Due(limits, w) then PhaseOf(next, id) == Outside && next.log == w.log + [Grant(w.clock)]
        else PhaseOf(next, id).Asleep? && SleepsOff(limits, w, PhaseOf(next, id).until) && next.log == w.log)
  }

  lemma BudgetExactly(limits: Limits, w: World)
    requires Kept(limits, w)
    ensures BudgetLeft(limits, w.log) <==> HasBudget(limits, w.pacing)
  {
    EpochIsCurrent(w.log);
  }

  lemma DueExactly(limits: Limits, w: World)
    requires limits.Valid() && Kept(limits, w)
    ensures Due(limits, w) <==> IsDue(limits, w.pacing, w.clock)
  {
    if limits.minInterval > 0.0 {
      DueIsSinceLast(limits, w);
    }
  }

  lemma SleepExactly(limits: Limits, w: World)
    requires Kept(limits, w) && w.pacing.lastAt.Some?
    ensures SleepsOff(limits, w, w.pacing.lastAt.value + limits.minInterval)
  {
    var k := LastIsCurrent(w.log);
  }

  /** The step a turn makes, by what the recorded pacing says. */
  ghost predicate TurnsTo(limits: Limits, w: World, next: World, id: nat) {
    && next.clock == w.clock
    && (forall other :: other != id ==> PhaseOf(next, other) == PhaseOf(w, other))
    && (if !HasBudget(limits, w.pacing) then PhaseOf(next, id) == Outside && next.log == w.log + [Refusal]
        else if IsDue(limits, w.pacing, w.clock) then PhaseOf(next, id) == Outside && next.log == w.log + [Grant(w.clock)]
        else PhaseOf(next, id) == Asleep(w.pacing.lastAt.value + limits.minInterval) && next.log == w.log)
  }

  lemma TurnByPacing(limits: Limits, w: World, id: nat)
    ensures TurnsTo(limits, w, Step(limits, w, TakeTurn(id)), id)
  {
  }

  lemma TurnExactly(limits: Limits, w: World, id: nat)
    requires limits.Valid() && Kept(limits, w)
    ensures ComesTo(limits, w, Step(limits, w, TakeTurn(id)), id)
  {
    var next := Step(limits, w, TakeTurn(id));
    TurnByPacing(limits, w, id);
    BudgetExactly(limits, w);
    DueExactly(limits, w);
    if !IsDue(limits, w.pacing, w.clock) {
      SleepExactly(limits, w);
    }
    ByPacing(limits, w, next, id);
  }

  lemma ByPacing(limits: Limits, w: World, next: World, id: nat)
    requires TurnsTo(limits, w, next, id)
    requires (BudgetLeft(limits, w.log) <==> HasBudget(limits, w.pacing))
    requires (Due(limits, w) <==> IsDue(limits, w.pacing, w.clock))
    requires w.pacing.lastAt.Some? && !IsDue(limits, w.pacing, w.clock) ==>
               SleepsOff(limits, w, w.pacing.lastAt.value + limits.minInterval)
    ensures ComesTo(limits, w, next, id)
  {
  }

  /**
   What a turn comes to in every execution: refused exactly when the budget is spent; otherwise granted
   exactly when the interval has passed since the last grant of the epoch; otherwise asleep until then.
   */
  lemma TurnComesTo(limits: Limits, worlds: seq<World>, actions: seq<Action>, i: nat, j: nat, id: nat)
    requires IsExecution(limits, worlds, actions) && j == i + 1 && i < |actions| && actions[i] == TakeTurn(id)
    ensures ComesTo(limits, worlds[i], worlds[j], id)
  {
    ExecutionKeeps(limits, worlds, actions, i);
    assert Moves(limits, worlds[i], actions[i], worlds[i + 1]);
    TurnExactly(limits, worlds[i], id);
  }

  /** A thread that comes in, or wakes up, is in line for a turn; nothing else changes. */
  lemma EntersLine(limits: Limits, w: World, a: Action, next: World, id: nat)
    requires Moves(limits, w, a, next) && (a == Enter(id) || a == Wake(id))
    ensures Enabled(next, TakeTurn(id))
    ensures next.clock == w.clock && next.pacing == w.pacing && next.log == w.log
    ensures forall other :: other != id ==> PhaseOf(next, other) == PhaseOf(w, other)
  {
  }
}
