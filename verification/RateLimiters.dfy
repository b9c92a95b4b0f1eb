/**
 The three limiters of the collector as the objects they are. The base limiter records the events of its
 lock regions, so the window bound of TokenBucket holds of every object at every moment; the authentication
 limiter records the checks, attempts and reports of all its callers, so the bound of AuthLockout does.
 */
module RateLimiters {
  import opened Common
  import B = TokenBucket
  import A = AuthLockout

  /** A clock that never runs backwards; a sleep takes at least as long as asked. `asked` is history. */
  class Clock {
    var now: real
    ghost var asked: seq<real>

    method Read() returns (t: real)
      modifies this`now
      ensures t == now >= old(now)
    {
      var pause: real := *;
      now := now + Max(0.0, pause);
      t := now;
    }

    method Sleep(seconds: real)
      modifies this
      ensures now >= old(now) + seconds && now >= old(now) && asked == old(asked) + [seconds]
    {
      asked := asked + [seconds];
      var extra: real := *;
      now := now + Max(0.0, seconds) + Max(0.0, extra);
    }
  }

  lemma {:induction false} EventAppended(cfg: B.Config, b: B.Bucket, from: real, events: seq<B.Event>, e: B.Event)
    requires B.InOrder(cfg, from, events) && B.Allowed(cfg, e) && LastEvent(from, events) <= e.at
    ensures B.InOrder(cfg, from, events + [e])
    ensures B.Run(cfg, b, events + [e]) == B.Step(cfg, B.Run(cfg, b, events), e)
    decreases events
  {
    if events == [] {
      assert [e][1..] == [];
    } else {
      EventAppended(cfg, B.Step(cfg, b, events[0]), events[0].at, events[1..], e);
      assert (events + [e])[1..] == events[1..] + [e];
    }
  }

  function LastEvent(from: real, events: seq<B.Event>): real {
    if events == [] then from else events[|events| - 1].at
  }

  class RateLimiter {
    const clock: Clock
    const burstSize: nat
    const backoffFactor: real
    const maxBackoff: real
    ghost const cap: real
    ghost const born: B.Bucket
    var rate: real
    var tokens: real
    var lastRefill: real
    var failureCount: nat
    var currentBackoff: real
    ghost var events: seq<B.Event>

    ghost function Limits(): B.Config {
      B.Config(burstSize, cap)
    }

    function View(): B.Bucket
      reads this
    {
      B.Bucket(tokens, lastRefill, rate)
    }

    ghost predicate Valid()
      reads this, clock
    {
      && B.ValidBucket(Limits(), born) && B.InOrder(Limits(), born.lastRefill, events)
      && View() == B.Run(Limits(), born, events) && B.ValidBucket(Limits(), View())
      && LastEvent(born.lastRefill, events) <= clock.now && lastRefill <= LastEvent(born.lastRefill, events)
    }

    constructor (clock: Clock, requestsPerSecond: real, burstSize: nat, factor: real, maxBackoff: real, ghost cap: real)
      requires 0.0 < requestsPerSecond <= cap
      modifies clock`now
      ensures this.clock == clock && this.burstSize == burstSize && this.cap == cap && this.rate == requestsPerSecond
      ensures this.backoffFactor == factor && this.maxBackoff == maxBackoff
      ensures Valid() && events == [] && tokens == burstSize as real && failureCount == 0 && currentBackoff == 0.0
      ensures clock.now >= old(clock.now)
    {
      this.clock := clock;
      this.burstSize, this.backoffFactor, this.maxBackoff, this.cap := burstSize, factor, maxBackoff, cap;
      var now := clock.Read();
      rate, tokens, lastRefill := requestsPerSecond, burstSize as real, now;
      failureCount, currentBackoff := 0, 0.0;
      born := B.Bucket(burstSize as real, now, requestsPerSecond);
      events := [];
    }

    ghost method Record(e: B.Event)
      requires B.ValidBucket(Limits(), born) && B.InOrder(Limits(), born.lastRefill, events)
      requires LastEvent(born.lastRefill, events) <= e.at <= clock.now && B.Allowed(Limits(), e)
      requires View() == B.Step(Limits(), B.Run(Limits(), born, events), e)
      requires B.ValidBucket(Limits(), B.Run(Limits(), born, events))
      requires B.Run(Limits(), born, events).lastRefill <= e.at
      modifies this`events
      ensures Valid() && events == old(events) + [e]
    {
      EventAppended(Limits(), born, born.lastRefill, events, e);
      B.StepKeepsBounds(Limits(), B.Run(Limits(), born, events), e);
      events := events + [e];
    }

    /**
     `acquire`. Without a timeout it returns after at most one sleep; with one it gives up only when the
     timeout is over. A request above the burst has to bring a timeout: it is never granted.
     */
    method Acquire(n: nat, timeout: Option<real>) returns (granted: bool, ghost tries: seq<B.Event>)
      requires Valid() && (timeout.None? ==> n <= burstSize)
      modifies this`tokens, this`lastRefill, this`events, clock
      ensures Valid() && events == old(events) + tries && B.Tries(Limits(), old(View()), tries, n, granted)
      ensures timeout.None? ==> granted && |tries| <= 2
      ensures !granted ==> timeout.Some? && clock.now >= old(clock.now) + timeout.value
      ensures granted ==> n <= burstSize
      ensures clock.now >= old(clock.now)
      ensures old(clock.asked) <= clock.asked && |clock.asked| - |old(clock.asked)| == |tries| - 1
    {
      var start := clock.Read();
      ghost var before := View();
      ghost var first, tried := before, B.ResetBucket(0.0, 0.0);
      granted, tried := TryOnce(n);
      tries := [tried];
      B.FirstTry(Limits(), first, tried);
      var expired := false;
      hide B.Run, B.Step, B.Tries, B.Grants;
      while !granted && !expired
        invariant Valid() && events == old(events) + tries && start <= clock.now
        invariant old(clock.asked) <= clock.asked && |clock.asked| - |old(clock.asked)| == |tries| - 1
        invariant B.Tries(Limits(), first, tries, n, granted) && View() == B.Run(Limits(), first, tries)
        invariant !granted ==> Failed(before, tried, n)
        invariant timeout.None? ==> |tries| <= 2 && (|tries| == 2 ==> granted) && !expired
        invariant granted ==> n <= burstSize
        invariant expired ==> timeout.Some? && clock.now >= start + timeout.value
        decreases !expired, if timeout.Some? then Ceiling((start + timeout.value - clock.now) * 100.0) else 2 - |tries|
      {
        expired := Expired(start, timeout, before, tried, n);
        if !expired {
          before, granted, tried := WaitAndRetry(n, before, tried);
          B.OneMoreTry(Limits(), first, tries, n, tried);
          tries := tries + [tried];
        }
      }
    }

    /** The timeout test of the loop. */
    method Expired(start: real, timeout: Option<real>, ghost before: B.Bucket, ghost tried: B.Event, n: nat)
      returns (expired: bool)
      requires Valid() && Failed(before, tried, n)
      modifies clock`now
      ensures Valid() && Failed(before, tried, n) && clock.now >= old(clock.now)
      ensures expired ==> timeout.Some? && clock.now >= start + timeout.value
      ensures !expired && timeout.Some? ==> clock.now < start + timeout.value
    {
      if timeout.None? {
        return false;
      }
      var now := clock.Read();
      expired := now - start >= timeout.value;
    }

    /** The latest try asked `before` for `n` tokens and did not get them. */
    ghost predicate Failed(before: B.Bucket, tried: B.Event, n: nat)
      reads this, clock
    {
      && B.ValidBucket(Limits(), before) && tried.TryAcquire? && tried.tokens == n
      && before.lastRefill <= tried.at <= clock.now
      && !B.Grants(Limits(), before, tried) && View() == B.Step(Limits(), before, tried)
    }

    /** The sleep of the loop and its next turn: enough for every request that fits in the burst. */
    method WaitAndRetry(n: nat, ghost before: B.Bucket, ghost tried: B.Event)
      returns (ghost now: B.Bucket, granted: bool, ghost retried: B.Event)
      requires Valid() && Failed(before, tried, n)
      modifies this`tokens, this`lastRefill, this`events, clock
      ensures Valid() && clock.now >= old(clock.now) + 0.01 && now == old(View())
      ensures clock.asked == old(clock.asked) + [Max(0.01, (n as real - old(tokens)) / rate)]
      ensures events == old(events) + [retried] && retried.TryAcquire? && retried.tokens == n
      ensures granted == B.Grants(Limits(), now, retried) && View() == B.Step(Limits(), now, retried)
      ensures (granted <==> n <= burstSize) && (!granted ==> Failed(now, retried, n))
    {
      now := View();
      var wait := B.WaitFor(View(), n);
      clock.Sleep(wait);
      granted, retried := TryOnce(n);
      B.OneSleepSuffices(Limits(), before, tried, retried.at);
    }

    /** One turn of the loop: refill, then take the tokens when there are enough. */
    method TryOnce(n: nat) returns (granted: bool, ghost tried: B.Event)
      requires Valid()
      modifies this`tokens, this`lastRefill, this`events, clock`now
      ensures Valid() && old(clock.now) <= tried.at <= clock.now
      ensures events == old(events) + [tried] && tried.TryAcquire? && tried.tokens == n
      ensures granted == B.Grants(Limits(), old(View()), tried) && View() == B.Step(Limits(), old(View()), tried)
      ensures (granted ==> n <= burstSize) && (!granted ==> Failed(old(View()), tried, n))
    {
      var now := clock.Read();
      tried := B.TryAcquire(now, n);
      tokens := Min(burstSize as real, tokens + B.Earned(rate, now - lastRefill));
      lastRefill := now;
      granted := tokens >= n as real;
      if granted {
        tokens := tokens - n as real;
      }
      Record(tried);
    }

    method OnSuccess()
      requires Valid()
      modifies this`failureCount, this`currentBackoff
      ensures Valid() && failureCount == 0 && (old(failureCount) > 0 ==> currentBackoff == 0.0)
      ensures old(failureCount) == 0 ==> currentBackoff == old(currentBackoff)
    {
      if failureCount > 0 {
        failureCount := 0;
        currentBackoff := 0.0;
      }
    }

    /** Counts the failure and sleeps the backoff of the whole streak. */
    method OnFailure(code: Option<int>)
      requires Valid()
      modifies this`failureCount, this`currentBackoff, clock
      ensures Valid() && failureCount == old(failureCount) + 1
      ensures currentBackoff == B.Backoff(backoffFactor, maxBackoff, failureCount, code)
      ensures var plain := Min(maxBackoff, B.Pow(backoffFactor, failureCount) / 2.0);
        currentBackoff == if code in {Some(429), Some(503)} then Min(maxBackoff, 2.0 * plain) else plain
      ensures clock.now >= old(clock.now) + currentBackoff && clock.now >= old(clock.now)
      ensures clock.asked == old(clock.asked) + if currentBackoff > 0.0 then [currentBackoff] else []
    {
      failureCount := failureCount + 1;
      currentBackoff := Min(maxBackoff, B.Pow(backoffFactor, failureCount) * 0.5);
      if code == Some(429) || code == Some(503) {
        currentBackoff := Min(maxBackoff, currentBackoff * 2.0);
      }
      if currentBackoff > 0.0 {
        clock.Sleep(currentBackoff);
      }
    }

    method SetRate(newRate: real)
      requires Valid() && 0.0 < newRate <= cap
      modifies this`rate, this`events, clock`now
      ensures Valid() && rate == newRate && clock.now >= old(clock.now)
      ensures exists e: B.Event :: e.SetRate? && events == old(events) + [e]
    {
      var now := clock.Read();
      rate := newRate;
      Record(B.SetRate(now, newRate));
    }

    method Reset()
      requires Valid()
      modifies this`tokens, this`lastRefill, this`failureCount, this`currentBackoff, this`events, clock`now
      ensures Valid() && tokens == burstSize as real && failureCount == 0 && currentBackoff == 0.0
      ensures clock.now >= old(clock.now)
      ensures exists e: B.Event :: e.ResetBucket? && events == old(events) + [e]
    {
      tokens := burstSize as real;
      lastRefill := clock.Read();
      failureCount := 0;
      currentBackoff := 0.0;
      Record(B.ResetBucket(lastRefill, rate));
    }

    /** The window bound of TokenBucket, for this object. */
    lemma GrantedInAnyWindow(s: real, e: real)
      requires Valid() && s <= e
      ensures B.GrantedIn(Limits(), born, events, s, e)
                <= burstSize as real + cap * (e - s) + B.ResetTokensIn(Limits(), events, s, e)
    {
      hide B.Run, B.Step, B.InOrder, B.GrantedIn, B.ResetTokensIn;
      B.WindowBound(Limits(), born, events, s, e);
    }
  }

  /**
   The adaptive limiter. Whatever the configured bounds, its rate stays between the smaller of the initial and
   the minimum rate and the larger of the initial and the maximum rate; the latter is the cap of its bucket.
   */
  class AdaptiveRateLimiter {
    const base: RateLimiter
    const initialRate: real
    const minRate: real
    const maxRate: real
    var successStreak: nat
    var failureStreak: nat

    ghost predicate Valid()
      reads this, base, base.clock
    {
      && base.Valid() && base.cap == Max(initialRate, maxRate) && minRate > 0.0 && initialRate > 0.0
      && Min(initialRate, minRate) <= base.rate <= Max(initialRate, maxRate)
    }

    constructor (
      clock: Clock, initialRate: real, minRate: real, maxRate: real, burst: nat, factor: real, maxBackoff: real)
      requires initialRate > 0.0 && minRate > 0.0
      modifies clock`now
      ensures Valid() && fresh(base) && base.clock == clock && base.rate == initialRate
      ensures this.initialRate == initialRate && this.minRate == minRate && this.maxRate == maxRate
      ensures successStreak == 0 && failureStreak == 0
    {
      this.initialRate, this.minRate, this.maxRate := initialRate, minRate, maxRate;
      successStreak, failureStreak := 0, 0;
      base := new RateLimiter(clock, initialRate, burst, factor, maxBackoff, Max(initialRate, maxRate));
    }

    method OnSuccess()
      requires Valid()
      modifies this, base, base.clock
      ensures Valid() && failureStreak == 0 && base.failureCount == 0
      ensures base.rate == if old(successStreak) + 1 >= 10 && old(base.rate) < maxRate
        then Min(maxRate, old(base.rate) * 6.0 / 5.0) else old(base.rate)
      ensures base.clock.asked == old(base.clock.asked)
      ensures successStreak ==
        if old(successStreak) + 1 >= 10 && old(base.rate) < maxRate then 0 else old(successStreak) + 1
    {
      base.OnSuccess();
      successStreak := successStreak + 1;
      failureStreak := 0;
      if successStreak >= 10 && base.rate < maxRate {
        base.SetRate(Min(maxRate, base.rate * 1.2));
        successStreak := 0;
      }
    }

    method OnFailure(code: Option<int>)
      requires Valid()
      modifies this, base, base.clock
      ensures Valid() && successStreak == 0 && failureStreak == old(failureStreak) + 1
      ensures base.rate == if old(base.rate) > minRate then Max(minRate, old(base.rate) / 2.0) else old(base.rate)
      ensures base.currentBackoff == B.Backoff(base.backoffFactor, base.maxBackoff, old(base.failureCount) + 1, code)
      ensures base.failureCount == old(base.failureCount) + 1
      ensures base.clock.asked == old(base.clock.asked) +
        (if base.currentBackoff > 0.0 then [base.currentBackoff] else [])
    {
      base.OnFailure(code);
      failureStreak := failureStreak + 1;
      successStreak := 0;
      if base.rate > minRate {
        base.SetRate(Max(minRate, base.rate * 0.5));
      }
    }

    method Reset()
      requires Valid()
      modifies this, base, base.clock
      ensures Valid() && base.rate == initialRate && successStreak == 0 && failureStreak == 0
    {
      base.Reset();
      base.SetRate(initialRate);
      successStreak, failureStreak := 0, 0;
    }
  }

  /** Seconds a check holds the lock after failures in a row, and a report that does not lock. */
  function ExtraWait(failures: nat): real {
    Min(30.0, failures as real * 5.0)
  }

  function ReportWait(failures: nat): real {
    Min(60.0, B.Pow(3.0, failures) * 2.0)
  }

  /**
   The authentication limiter, shared by up to `callers` threads. Its methods are the regions its lock guards;
   between two of them the other threads go through regions of their own. The events of all threads together are a
   run of AuthLockout; they are history: no code of the limiter looks at them.
   */
  class AuthRateLimiter {
    const base: RateLimiter
    const maxAttempts: int
    const lockoutDuration: real
    const callers: nat
    const born: real
    var consecutiveFailures: nat
    var lockedUntil: real
    var events: seq<A.Event>

    function Config(): A.Config {
      A.Config(maxAttempts, lockoutDuration, callers)
    }

    predicate Recorded()
      reads this
    {
      A.Legal(Config(), A.Start(born), events)
    }

    function State(): A.Limiter
      requires Recorded()
      reads this
    {
      A.After(Config(), A.Start(born), events)
    }

    ghost predicate Valid()
      reads this, base, base.clock
    {
      && base.Valid() && base.burstSize == 1 && base.backoffFactor == 3.0 && born >= 0.0 && Recorded()
      && State().failures == consecutiveFailures && State().lockedUntil == lockedUntil
      && 0.0 <= State().now <= base.clock.now
    }

    constructor (clock: Clock, requestsPerSecond: real, maxAttempts: int, lockoutDuration: real, callers: nat)
      requires requestsPerSecond > 0.0 && clock.now >= 0.0
      modifies clock`now
      ensures Valid() && fresh(base) && base.clock == clock && events == []
      ensures this.maxAttempts == maxAttempts && this.lockoutDuration == lockoutDuration && this.callers == callers
    {
      this.maxAttempts, this.lockoutDuration, this.callers := maxAttempts, lockoutDuration, callers;
      consecutiveFailures, lockedUntil, events := 0, 0.0, [];
      born := clock.now;
      base := new RateLimiter(clock, requestsPerSecond, 1, 3.0, lockoutDuration, requestsPerSecond);
    }

    method Take(e: A.Event)
      requires Recorded() && A.Enabled(Config(), State(), e)
      modifies this`events
      ensures Recorded() && events == old(events) + [e] && State() == A.Apply(Config(), old(State()), e)
    {
      A.OneEvent(Config(), State(), e);
      A.RunsJoin(Config(), A.Start(born), events, [e]);
      events := events + [e];
    }

    /** The first region of `wait_if_needed`: refuse while locked, else sleep the extra wait with the lock held. */
    method CheckLock() returns (admitted: bool)
      requires Valid() && State().waiting + State().trying < callers
      modifies this`events, base.clock
      ensures Valid() && base.clock.now >= old(base.clock.now)
      ensures !admitted ==> events == old(events) && lockedUntil > old(base.clock.now)
      ensures admitted ==> |events| == |old(events)| + 1 && old(events) <= events && events[|old(events)|].Check?
      ensures admitted ==> State() == old(State()).(now := State().now, waiting := old(State()).waiting + 1)
      ensures admitted ==> base.clock.now >= old(base.clock.now) + Min(30.0, 5.0 * consecutiveFailures as real)
      ensures base.clock.asked == old(base.clock.asked) +
        (if admitted && consecutiveFailures > 0 then [Min(30.0, 5.0 * consecutiveFailures as real)] else [])
      ensures old(base.clock.now) >= lockedUntil ==> admitted
    {
      var now := base.clock.Read();
      if lockedUntil > now {
        return false;
      }
      Take(A.Check(now));
      if consecutiveFailures > 0 {
        base.clock.Sleep(ExtraWait(consecutiveFailures));
      }
      admitted := true;
    }

    /** The second region: the token, after which the caller attempts. */
    method TakeToken()
      requires Valid() && State().waiting > 0
      modifies this`events, base`tokens, base`lastRefill, base`events, base.clock
      ensures Valid() && base.clock.now >= old(base.clock.now)
      ensures events == old(events) + [A.Attempt(base.clock.now)]
      ensures State() == A.Apply(Config(), old(State()), A.Attempt(base.clock.now))
    {
      ghost var granted, tries;
      granted, tries := base.Acquire(1, None);
      Take(A.Attempt(base.clock.now));
    }

    /**
     The other threads go through any of their regions, any number of times. `waiting` of the callers past the check
     and `trying` of those that have attempted are in a call of their own and stay where they are.
     */
    method Others(waiting: nat, trying: nat)
      requires Valid() && State().waiting >= waiting && State().trying >= trying
      modifies this, base`tokens, base`lastRefill, base`events, base`failureCount, base`currentBackoff, base.clock
      ensures Valid() && State().waiting >= waiting && State().trying >= trying && old(events) <= events
      ensures base.clock.now >= old(base.clock.now)
    {
      var turns: nat :| true;
      for turn := 0 to turns
        invariant Valid() && State().waiting >= waiting && State().trying >= trying && old(events) <= events
        invariant base.clock.now >= old(base.clock.now)
      {
        var choice: int := *;
        if choice == 0 && State().waiting + State().trying < callers {
          var _ := CheckLock();
        } else if choice == 1 && State().waiting > waiting {
          TakeToken();
        } else if choice == 2 && State().trying > trying {
          OnSuccess();
        } else if choice == 3 && State().trying > trying {
          OnFailure();
        }
      }
    }

    /** Both regions, with the other threads in between. What was true of the lock at the check may no longer be. */
    method WaitIfNeeded() returns (admitted: bool)
      requires Valid() && State().waiting + State().trying < callers
      modifies this, base`tokens, base`lastRefill, base`events, base`failureCount, base`currentBackoff, base.clock
      ensures Valid() && old(events) <= events
      ensures !admitted ==> events == old(events) && lockedUntil > old(base.clock.now)
      ensures admitted ==> State().trying > 0 && |events| > |old(events)| + 1
      ensures admitted ==> events[|old(events)|].Check? && events[|events| - 1] == A.Attempt(base.clock.now)
      ensures admitted ==>
        base.clock.now >= old(base.clock.now) + Min(30.0, 5.0 * old(consecutiveFailures) as real)
      ensures old(base.clock.now >= lockedUntil) ==> admitted
    {
      admitted := CheckLock();
      if admitted {
        Others(1, 0);
        TakeToken();
      }
    }

    /** Clears the count and the lock, also for the attempts of others still under way. */
    method OnSuccess()
      requires Valid() && State().trying > 0
      modifies this`consecutiveFailures, this`lockedUntil, this`events, base`failureCount, base`currentBackoff
      ensures Valid() && consecutiveFailures == 0 && lockedUntil == 0.0
      ensures base.failureCount == 0 && base.currentBackoff == 0.0
      ensures events == old(events) + [A.Report(base.clock.now, false)]
      ensures State() == A.Apply(Config(), old(State()), A.Report(base.clock.now, false))
    {
      consecutiveFailures := 0;
      lockedUntil := 0.0;
      base.failureCount := 0;
      base.currentBackoff := 0.0;
      Take(A.Report(base.clock.now, false));
    }

    /** Below the limit the region sleeps; from the limit on every failure locks again at once. */
    method OnFailure()
      requires Valid() && State().trying > 0
      modifies this`consecutiveFailures, this`lockedUntil, this`events, base`failureCount, base.clock
      ensures Valid() && consecutiveFailures == old(consecutiveFailures) + 1
      ensures base.failureCount == old(base.failureCount) + 1
      ensures base.clock.now >= State().now >= old(base.clock.now)
      ensures events == old(events) + [A.Report(State().now, true)]
      ensures State() == A.Apply(Config(), old(State()), A.Report(State().now, true))
      ensures consecutiveFailures >= maxAttempts ==> lockedUntil == State().now + lockoutDuration
      ensures consecutiveFailures < maxAttempts ==> lockedUntil == old(lockedUntil)
      ensures consecutiveFailures < maxAttempts ==>
        base.clock.now >= old(base.clock.now) + Min(60.0, 2.0 * B.Pow(3.0, consecutiveFailures))
      ensures base.clock.asked == old(base.clock.asked) +
        (if consecutiveFailures < maxAttempts then [Min(60.0, 2.0 * B.Pow(3.0, consecutiveFailures))] else [])
    {
      consecutiveFailures := consecutiveFailures + 1;
      base.failureCount := base.failureCount + 1;
      var reportedAt := base.clock.Read();
      Take(A.Report(reportedAt, true));
      if consecutiveFailures >= maxAttempts {
        lockedUntil := reportedAt + lockoutDuration;
      } else {
        base.clock.Sleep(Min(60.0, B.Pow(base.backoffFactor, consecutiveFailures) * 2.0));
      }
    }

    /** The lockout bound of AuthLockout, for all threads of this object together. */
    lemma AttemptsAreBounded(i: nat, j: nat)
      requires Valid() && i < j <= |events| && A.NoSuccess(events[i..j]) && lockoutDuration > 0.0
      ensures A.Attempts(events[i..j]) <= A.Spare(Config(), 0)
        + callers * (1 + A.Lockouts(Config(), events[i].at, events[j - 1].at))
    {
      assert events == (events[..i] + events[i..j]) + events[j..];
      A.PrefixIsLegal(Config(), A.Start(born), events[..i] + events[i..j], events[j..]);
      A.StretchBound(Config(), born, events[..i], events[i..j]);
    }
  }
}
