/** Attempts at the authentication limiter that keep every sleep of the source, and how many there can be. */
module PacedAttempts {
  import opened Common
  import A = AuthLockout
  import B = TokenBucket
  import opened RateLimiters

  /** Until when the limiter's lock is held, and when the bucket has its next token. */
  datatype Pace = Pace(busyUntil: real, tokenAt: real)

  /** The pace after an event, with the sleeps of the region it belongs to. */
  function Onward(cfg: A.Config, rate: real, s: A.Limiter, p: Pace, e: A.Event): Pace
    requires rate > 0.0
  {
    match e
    case Check(at) => p.(busyUntil := at + ExtraWait(s.failures))
    case Attempt(at) => Pace(at, at + 1.0 / rate)
    case Report(at, failed) =>
      p.(busyUntil := if failed && s.failures + 1 < cfg.maxAttempts then at + ReportWait(s.failures + 1) else at)
  }

  /** A check holds the lock five seconds for every failure, a failure below the limit twice a power of three. */
  lemma OnwardIs(cfg: A.Config, rate: real, s: A.Limiter, p: Pace, at: real)
    requires rate > 0.0
    ensures Onward(cfg, rate, s, p, A.Check(at)) == Pace(at + Min(30.0, 5.0 * s.failures as real), p.tokenAt)
    ensures Onward(cfg, rate, s, p, A.Attempt(at)) == Pace(at, at + 1.0 / rate)
    ensures Onward(cfg, rate, s, p, A.Report(at, false)) == Pace(at, p.tokenAt)
    ensures Onward(cfg, rate, s, p, A.Report(at, true)) == Pace(
      if s.failures + 1 >= cfg.maxAttempts then at else at + Min(60.0, 2.0 * B.Pow(3.0, s.failures + 1)), p.tokenAt)
  {
  }

  /** A run of events with every sleep of the source, a single token at a time. */
  predicate Paced(cfg: A.Config, rate: real, s: A.Limiter, p: Pace, events: seq<A.Event>)
    requires rate > 0.0 && A.Legal(cfg, s, events)
    decreases events
  {
    events == [] || (
      var e := events[0];
      && e.at >= p.busyUntil && (e.Attempt? ==> e.at >= p.tokenAt)
      && Paced(cfg, rate, A.Apply(cfg, s, e), Onward(cfg, rate, s, p, e), events[1..]))
  }

  /** One more event in front of a run that keeps its sleeps. */
  lemma PacedFrom(cfg: A.Config, rate: real, s: A.Limiter, p: Pace, e: A.Event, rest: seq<A.Event>, q: Pace)
    requires rate > 0.0 && A.Enabled(cfg, s, e) && A.Legal(cfg, A.Apply(cfg, s, e), rest) && A.NoSuccess(rest)
    requires e.at >= p.busyUntil && (e.Attempt? ==> e.at >= p.tokenAt) && !(e.Report? && !e.failed)
    requires q == Onward(cfg, rate, s, p, e)
    requires Paced(cfg, rate, A.Apply(cfg, s, e), q, rest)
    ensures A.Legal(cfg, s, [e] + rest) && Paced(cfg, rate, s, p, [e] + rest) && A.NoSuccess([e] + rest)
    ensures A.Attempts([e] + rest) == A.Attempts(rest) + if e.Attempt? then 1 else 0
    ensures rest != [] ==> ([e] + rest)[|rest|] == rest[|rest| - 1]
  {
    assert ([e] + rest)[1..] == rest;
  }

  /** The second half: two failures reported, two callers past the check, both attempting. */
  lemma TwoAtOnce(cfg: A.Config) returns (events: seq<A.Event>)
    requires cfg == A.Config(3, 600.0, 2)
    ensures A.Legal(cfg, A.Limiter(11.0, 2, 0.0, 0, 0), events) && A.NoSuccess(events) && A.Attempts(events) == 2
    ensures Paced(cfg, 0.2, A.Limiter(11.0, 2, 0.0, 0, 0), Pace(29.0, 16.0), events)
    ensures events != [] && events[|events| - 1].at == 49.0
  {
    assert 1.0 / 0.2 == 5.0 && ExtraWait(2) == 10.0;
    hide ReportWait, ExtraWait;
    events := [];
    PacedFrom(cfg, 0.2, A.Limiter(39.0, 2, 0.0, 1, 1), Pace(49.0, 44.0), A.Attempt(49.0), events, Pace(49.0, 54.0));
    events := [A.Attempt(49.0)] + events;
    PacedFrom(cfg, 0.2, A.Limiter(39.0, 2, 0.0, 0, 1), Pace(39.0, 44.0), A.Check(39.0), events, Pace(49.0, 44.0));
    events := [A.Check(39.0)] + events;
    PacedFrom(cfg, 0.2, A.Limiter(29.0, 2, 0.0, 1, 0), Pace(39.0, 16.0), A.Attempt(39.0), events, Pace(39.0, 44.0));
    events := [A.Attempt(39.0)] + events;
    PacedFrom(cfg, 0.2, A.Limiter(11.0, 2, 0.0, 0, 0), Pace(29.0, 16.0), A.Check(29.0), events, Pace(39.0, 16.0));
    events := [A.Check(29.0)] + events;
  }

  /** The three steps of a single caller. */
  lemma StepsOfARound(cfg: A.Config, s: A.Limiter, at: real, tried: real)
    requires cfg == A.Config(3, 600.0, 2) && s.waiting == s.trying == 0 && s.failures < 2 && s.lockedUntil == 0.0
    requires s.now <= at && 0.0 <= at && tried == at + ExtraWait(s.failures)
    ensures A.Enabled(cfg, s, A.Check(at)) && A.Enabled(cfg, A.Limiter(at, s.failures, 0.0, 1, 0), A.Attempt(tried))
    ensures A.Enabled(cfg, A.Limiter(tried, s.failures, 0.0, 0, 1), A.Report(tried, true))
    ensures A.Apply(cfg, s, A.Check(at)) == A.Limiter(at, s.failures, 0.0, 1, 0)
    ensures A.Apply(cfg, A.Limiter(at, s.failures, 0.0, 1, 0), A.Attempt(tried))
      == A.Limiter(tried, s.failures, 0.0, 0, 1)
    ensures A.Apply(cfg, A.Limiter(tried, s.failures, 0.0, 0, 1), A.Report(tried, true))
      == A.Limiter(tried, s.failures + 1, 0.0, 0, 0)
  {
  }

  lemma PaceOfARound(cfg: A.Config, s: A.Limiter, p: Pace, at: real, tried: real)
    requires cfg == A.Config(3, 600.0, 2) && s.failures < 2 && tried == at + ExtraWait(s.failures)
    ensures Onward(cfg, 0.2, s, p, A.Check(at)) == p.(busyUntil := tried)
    ensures Onward(cfg, 0.2, A.Limiter(at, s.failures, 0.0, 1, 0), p.(busyUntil := tried), A.Attempt(tried))
      == Pace(tried, tried + 5.0)
    ensures Onward(cfg, 0.2, A.Limiter(tried, s.failures, 0.0, 0, 1), Pace(tried, tried + 5.0), A.Report(tried, true))
      == Pace(tried + ReportWait(s.failures + 1), tried + 5.0)
  {
    hide ReportWait, ExtraWait;
    assert 1.0 / 0.2 == 5.0;
  }

  /** One round of a single caller. */
  lemma OneRound(cfg: A.Config, s: A.Limiter, p: Pace, at: real, rest: seq<A.Event>, q: Pace)
    returns (events: seq<A.Event>)
    requires cfg == A.Config(3, 600.0, 2) && s.waiting == s.trying == 0 && s.failures < 2 && s.lockedUntil == 0.0
    requires s.now <= at && p.busyUntil <= at && p.tokenAt <= at + ExtraWait(s.failures) && 0.0 <= at
    requires var tried := at + ExtraWait(s.failures); q == Pace(tried + ReportWait(s.failures + 1), tried + 5.0)
    requires var next := A.Limiter(at + ExtraWait(s.failures), s.failures + 1, 0.0, 0, 0);
      A.Legal(cfg, next, rest) && A.NoSuccess(rest) && Paced(cfg, 0.2, next, q, rest)
    requires rest != []
    ensures A.Legal(cfg, s, events) && A.NoSuccess(events) && A.Attempts(events) == 1 + A.Attempts(rest)
    ensures Paced(cfg, 0.2, s, p, events) && events != [] && events[0].at == at
    ensures events[|events| - 1] == rest[|rest| - 1]
  {
    hide A.Enabled, A.Apply, A.Legal, A.Attempts, A.NoSuccess, Onward, Paced, ReportWait, ExtraWait;
    var tried := at + ExtraWait(s.failures);
    StepsOfARound(cfg, s, at, tried);
    PaceOfARound(cfg, s, p, at, tried);
    var s1 := A.Limiter(at, s.failures, 0.0, 1, 0);
    var s2 := A.Limiter(tried, s.failures, 0.0, 0, 1);
    PacedFrom(cfg, 0.2, s2, Pace(tried, tried + 5.0), A.Report(tried, true), rest, q);
    events := [A.Report(tried, true)] + rest;
    PacedFrom(cfg, 0.2, s1, p.(busyUntil := tried), A.Attempt(tried), events, Pace(tried, tried + 5.0));
    events := [A.Attempt(tried)] + events;
    PacedFrom(cfg, 0.2, s, p, A.Check(at), events, p.(busyUntil := tried));
    events := [A.Check(at)] + events;
  }

  lemma FirstWaits()
    ensures ReportWait(1) == 6.0 && ReportWait(2) == 18.0 && ExtraWait(0) == 0.0 && ExtraWait(1) == 5.0
  {
    assert B.Pow(3.0, 0) == 1.0 && B.Pow(3.0, 1) == 3.0 * B.Pow(3.0, 0) && B.Pow(3.0, 2) == 3.0 * B.Pow(3.0, 1);
  }

  /**
   The limiter as it is configured, three attempts and a lock of ten minutes, with two threads: four attempts
   within 49 seconds and without a success keep every sleep and the rate of the source.
   */
  lemma ThreeAttemptsMayBeFour(cfg: A.Config) returns (events: seq<A.Event>)
    requires cfg == A.Config(3, 600.0, 2)
    ensures A.Legal(cfg, A.Start(0.0), events) && Paced(cfg, 0.2, A.Start(0.0), Pace(0.0, 0.0), events)
    ensures A.NoSuccess(events) && A.Attempts(events) == 4
    ensures events != [] && events[0].at == 0.0 && events[|events| - 1].at == 49.0
  {
    hide ReportWait, ExtraWait, Paced, Onward, A.Legal, A.Apply, A.Enabled, A.Attempts;
    FirstWaits();
    events := TwoAtOnce(cfg);
    events := OneRound(cfg, A.Limiter(0.0, 1, 0.0, 0, 0), Pace(6.0, 5.0), 6.0, events, Pace(29.0, 16.0));
    events := OneRound(cfg, A.Start(0.0), Pace(0.0, 0.0), 0.0, events, Pace(6.0, 5.0));
  }

  // ------------------------------------------------------------------------ every history, stretched

  /** The first event `delay` later, and each further one `gap` more. */
  function Stretched(events: seq<A.Event>, delay: real, gap: real): seq<A.Event>
    decreases events
  {
    if events == [] then []
    else [events[0].(at := events[0].at + delay)] + Stretched(events[1..], delay + gap, gap)
  }

  lemma {:induction false} StretchKeepsTheRest(events: seq<A.Event>, delay: real, gap: real)
    ensures |Stretched(events, delay, gap)| == |events|
    ensures A.Attempts(Stretched(events, delay, gap)) == A.Attempts(events)
    ensures A.NoSuccess(events) ==> A.NoSuccess(Stretched(events, delay, gap))
    ensures events != [] ==> Stretched(events, delay, gap)[0].at == events[0].at + delay
    decreases events
  {
    if events != [] {
      var first, rest := events[0].(at := events[0].at + delay), Stretched(events[1..], delay + gap, gap);
      StretchKeepsTheRest(events[1..], delay + gap, gap);
      assert ([first] + rest)[1..] == rest;
      if A.NoSuccess(events) {
        assert A.NoSuccess(events[1..]);
        assert !(first.Report? && !first.failed);
      }
    }
  }

  lemma {:induction false} LastOfStretched(events: seq<A.Event>, delay: real, gap: real)
    requires events != []
    ensures Stretched(events, delay, gap) != []
    ensures var last := |events| - 1;
      |Stretched(events, delay, gap)| == |events|
      && Stretched(events, delay, gap)[last].at == events[last].at + delay + Span(gap, last)
    decreases events
  {
    hide Span;
    StretchKeepsTheRest(events, delay, gap);
    OneMoreGap(gap, |events| - 1);
    if |events| > 1 {
      OneMoreGap(gap, |events| - 2);
      LastOfStretched(events[1..], delay + gap, gap);
    } else {
      assert Stretched(events[1..], delay + gap, gap) == [];
    }
  }

  /** The limiter of a stretched history: the same but for the clock, and no lock is later by more than the clock. */
  predicate Follows(s: A.Limiter, t: A.Limiter, delay: real) {
    && t == s.(now := t.now, lockedUntil := t.lockedUntil)
    && t.now <= s.now + delay && t.lockedUntil <= s.lockedUntil + delay
  }

  /** No wait of the source is longer than the gap, neither the sleeps nor the time to the next token. */
  predicate CoversWaits(gap: real, rate: real)
    requires rate > 0.0
  {
    gap >= 60.0 && gap >= 1.0 / rate
  }

  lemma StretchedStep(cfg: A.Config, s: A.Limiter, t: A.Limiter, e: A.Event, delay: real, gap: real)
    requires A.Enabled(cfg, s, e) && Follows(s, t, delay) && delay >= 0.0 && gap >= 0.0
    ensures A.Enabled(cfg, t, e.(at := e.at + delay))
    ensures Follows(A.Apply(cfg, s, e), A.Apply(cfg, t, e.(at := e.at + delay)), delay + gap)
  {
  }

  /** The sleeps of the source forbid no history: with gaps that cover them it is legal and keeps every one of them. */
  lemma {:induction false} StretchedIsPaced(
      cfg: A.Config, rate: real, s: A.Limiter, t: A.Limiter, p: Pace, events: seq<A.Event>, delay: real, gap: real)
    requires rate > 0.0 && CoversWaits(gap, rate) && delay >= 0.0
    requires A.Legal(cfg, s, events) && Follows(s, t, delay)
    requires p.busyUntil <= s.now + delay && p.tokenAt <= s.now + delay
    ensures A.Legal(cfg, t, Stretched(events, delay, gap)) && Paced(cfg, rate, t, p, Stretched(events, delay, gap))
    decreases events
  {
    if events != [] {
      var e := events[0];
      var later, rest := e.(at := e.at + delay), Stretched(events[1..], delay + gap, gap);
      StretchedStep(cfg, s, t, e, delay, gap);
      var s', t' := A.Apply(cfg, s, e), A.Apply(cfg, t, later);
      var q := Onward(cfg, rate, t, p, later);
      assert q.busyUntil <= s'.now + (delay + gap) && q.tokenAt <= s'.now + (delay + gap) by {
        hide B.Pow;
      }
      hide A.Apply, A.Enabled, Onward;
      StretchedIsPaced(cfg, rate, s', t', q, events[1..], delay + gap, gap);
      assert ([later] + rest)[1..] == rest;
    }
  }

  lemma LockoutsOfSpan(cfg: A.Config, n: nat, x: real, end: real)
    requires cfg.lockout > 0.0 && 0.0 <= x < cfg.lockout && end == n as real * cfg.lockout + x
    ensures A.Lockouts(cfg, 0.0, end) == n
  {
    var d := cfg.lockout;
    var q := x / d;
    assert q * d == x;
    DivisionIsMonotone(0.0, x, d);
    assert 0.0 / d == 0.0;
    A.DivisionBelow(x, d);
    assert (n as real + q) * d == end;
    Quotient(n as real + q, d, end);
    assert end >= 0.0 && end - 0.0 == end && (n as real + q).Floor == n;
  }

  /**
   Main result: the bound of `AuthLockout.StretchBound` is reached with every sleep and at the rate of the source,
   for every number of callers and every number of lockouts, once a lockout is longer than the run's own waits.
   */
  lemma PacedBoundIsReached(cfg: A.Config, rate: real, gap: real, n: nat) returns (events: seq<A.Event>)
    requires cfg.callers >= 1 && rate > 0.0 && CoversWaits(gap, rate)
    requires Span(gap, 3 * (A.Spare(cfg, 0) + A.Times(cfg.callers, 1 + n))) <= cfg.lockout
    ensures A.Legal(cfg, A.Start(0.0), events) && Paced(cfg, rate, A.Start(0.0), Pace(0.0, 0.0), events)
    ensures A.NoSuccess(events) && events != []
    ensures A.Lockouts(cfg, events[0].at, events[|events| - 1].at) == n
    ensures A.Attempts(events) == A.Spare(cfg, 0) + cfg.callers * (1 + n)
  {
    var s := A.Start(0.0);
    var tight := A.BoundIsReached(cfg, n);
    var last := |tight| - 1;
    A.LastEventIsNow(cfg, s, tight);
    events := Stretched(tight, 0.0, gap);
    StretchedIsPaced(cfg, rate, s, s, Pace(0.0, 0.0), tight, 0.0, gap);
    StretchKeepsTheRest(tight, 0.0, gap);
    LastOfStretched(tight, 0.0, gap);
    MoreGapsAreLonger(gap, last, 3 * A.Attempts(tight));
    OneMoreGap(gap, last);
    hide Span;
    LockoutsOfSpan(cfg, n, Span(gap, last), events[last].at);
  }

  lemma MoreGapsAreLonger(gap: real, m: nat, n: nat)
    requires gap > 0.0 && m < n
    ensures Span(gap, m) < Span(gap, n)
  {
  }
}
