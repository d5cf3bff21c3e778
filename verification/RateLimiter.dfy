/** A guard that spaces outbound calls and caps how many are made. */
module RateLimiter {
  import opened Outcomes

  datatype Limits = Limits(minInterval: real, maxCalls: Option<int>) {
    predicate Valid() {
      minInterval >= 0.0 && (maxCalls.Some? ==> maxCalls.value >= 0)
    }
  }

  /** What the lock protects. */
  datatype Pacing = Pacing(calls: nat, lastAt: Option<real>)

  datatype Verdict = Granted | Refused | Wait(seconds: real)

  const FRESH := Pacing(0, None)

  predicate Exhausted(limits: Limits, p: Pacing) {
    limits.maxCalls.Some? && p.calls >= limits.maxCalls.value
  }

  function WaitFor(limits: Limits, p: Pacing, now: real): real {
    if limits.minInterval > 0.0 && p.lastAt.Some? then p.lastAt.value + limits.minInterval - now else 0.0
  }

  /** One turn inside the lock: refuse, grant and record, or say how long to wait. */
  function Turn(limits: Limits, p: Pacing, now: real): (Pacing, Verdict) {
    if Exhausted(limits, p) then (p, Refused) else
      var wait := WaitFor(limits, p, now);
      if wait <= 0.0 then (Pacing(p.calls + 1, Some(now)), Granted) else (p, Wait(wait))
  }

  /** Once the wait has passed and nobody was granted meanwhile, the next turn is granted. */
  lemma SecondTurnIsGranted(limits: Limits, p: Pacing, now: real, later: real)
    requires Turn(limits, p, now).1.Wait? && later >= now + Turn(limits, p, now).1.seconds
    ensures Turn(limits, p, now).0 == p && Turn(limits, p, later).1 == Granted
  {
  }

  predicate HasBudget(limits: Limits, p: Pacing) {
    limits.maxCalls.Some? ==> p.calls < limits.maxCalls.value
  }

  /** The interval has passed since the last call, if there was one and an interval is kept. */
  predicate IsDue(limits: Limits, p: Pacing, now: real) {
    limits.minInterval > 0.0 && p.lastAt.Some? ==> now >= p.lastAt.value + limits.minInterval
  }

  /** A clock that never goes back, and the sleeps taken on it. */
  class Clock {
    var now: real
    var naps: nat

    constructor ()
      ensures naps == 0
    {
      now, naps := 0.0, 0;
    }

    method Read() returns (t: real)
      modifies this`now
      ensures now >= old(now) && t == now
    {
      var passed: real :| passed >= 0.0;
      now := now + passed;
      t := now;
    }

    /** Sleeps at least as long as asked. */
    method Sleep(seconds: real)
      requires seconds >= 0.0
      modifies this
      ensures now >= old(now) + seconds && naps == old(naps) + 1
    {
      var extra: real :| extra >= 0.0;
      now, naps := now + seconds + extra, naps + 1;
    }
  }

  class Limiter {
    const limits: Limits
    var callCount: nat
    var lastCallAt: Option<real>

    ghost function State(): Pacing
      reads this
    {
      Pacing(callCount, lastCallAt)
    }

    constructor (limits: Limits)
      requires limits.Valid()
      ensures this.limits == limits && State() == FRESH
    {
      this.limits := limits;
      callCount, lastCallAt := 0, None;
    }

    /** The locked section of an acquire; an exhausted budget is refused before the clock is read. */
    method TryAcquire(clock: Clock) returns (verdict: Verdict)
      modifies this, clock`now
      ensures clock.now >= old(clock.now)
      ensures verdict == Refused <==> !HasBudget(limits, old(State()))
      ensures verdict == Granted <==> HasBudget(limits, old(State())) && IsDue(limits, old(State()), clock.now)
      ensures verdict.Wait? ==> old(lastCallAt).Some?
                                && verdict.seconds == old(lastCallAt).value + limits.minInterval - clock.now > 0.0
      ensures State() == if verdict == Granted then Pacing(old(callCount) + 1, Some(clock.now)) else old(State())
      ensures verdict == Turn(limits, old(State()), clock.now).1
      ensures State() == Turn(limits, old(State()), clock.now).0
      ensures verdict == Refused ==> clock.now == old(clock.now)
    {
      if limits.maxCalls.Some? && callCount >= limits.maxCalls.value {
        return Refused;
      }
      var now := clock.Read();
      var waitSeconds := 0.0;
      if limits.minInterval > 0.0 && lastCallAt.Some? {
        waitSeconds := lastCallAt.value + limits.minInterval - now;
      }
      if waitSeconds <= 0.0 {
        lastCallAt, callCount := Some(now), callCount + 1;
        return Granted;
      }
      return Wait(waitSeconds);
    }

    /**
     A caller with no competition: false when the budget is spent, which changes nothing. A call that is
     due when it comes never sleeps; any other sleeps once, and until it is due.
     */
    method Acquire(clock: Clock) returns (granted: bool)
      modifies this, clock
      ensures granted <==> HasBudget(limits, old(State()))
      ensures granted ==> State() == Pacing(old(callCount) + 1, Some(clock.now)) && IsDue(limits, old(State()), clock.now)
      ensures !granted ==> State() == old(State()) && clock.now == old(clock.now) && clock.naps == old(clock.naps)
      ensures old(clock.naps) <= clock.naps <= old(clock.naps) + 1 && clock.now >= old(clock.now)
      ensures IsDue(limits, old(State()), old(clock.now)) ==> clock.naps == old(clock.naps)
    {
      while true
        invariant State() == old(State())
        invariant old(clock.naps) <= clock.naps <= old(clock.naps) + 1 && clock.now >= old(clock.now)
        invariant clock.naps > old(clock.naps) ==>
                    HasBudget(limits, State()) && IsDue(limits, State(), clock.now) && !IsDue(limits, State(), old(clock.now))
        invariant clock.naps == old(clock.naps) ==> clock.now == old(clock.now)
        decreases old(clock.naps) + 1 - clock.naps
      {
        var verdict := TryAcquire(clock);
        if verdict == Refused {
          return false;
        }
        if verdict == Granted {
          return true;
        }
        clock.Sleep(verdict.seconds);
      }
    }

    method CallCount() returns (n: nat)
      ensures n == State().calls
    {
      n := callCount;
    }

    method Reset()
      modifies this
      ensures State() == FRESH
    {
      callCount, lastCallAt := 0, None;
    }
  }

  /** Construction refuses a negative interval or budget. */
  method Create(limits: Limits) returns (limiter: Option<Limiter>)
    ensures limiter.None? <==> limits.minInterval < 0.0 || limits.maxCalls.GetOr(0) < 0
    ensures limiter.Some? <==> limits.Valid()
    ensures limiter.Some? ==> fresh(limiter.value) && limiter.value.limits == limits && limiter.value.State() == FRESH
  {
    if limits.minInterval < 0.0 || (limits.maxCalls.Some? && limits.maxCalls.value < 0) {
      return None;
    }
    var made := new Limiter(limits);
    return Some(made);
  }
}
