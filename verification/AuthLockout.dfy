/**
 The lock of the authentication limiter. Callers check it, attempt and report in three steps, with no lock held in
 between, so up to `callers` of them are between their check and their report at any time.
 */
module AuthLockout {
  import opened Common

  datatype Config = Config(maxAttempts: int, lockout: real, callers: nat)

  /** `waiting` callers have passed the check and not attempted, `trying` have attempted and not reported. */
  datatype Limiter = Limiter(now: real, failures: nat, lockedUntil: real, waiting: nat, trying: nat)

  /** A refused check leaves no trace and is no event. */
  datatype Event = Check(at: real) | Attempt(at: real) | Report(at: real, failed: bool)

  function Start(now: real): Limiter {
    Limiter(now, 0, 0.0, 0, 0)
  }

  predicate Enabled(cfg: Config, s: Limiter, e: Event) {
    && s.now <= e.at
    && match e
       case Check(at) => s.lockedUntil <= at && s.waiting + s.trying < cfg.callers
       case Attempt(_) => s.waiting > 0
       case Report(_, _) => s.trying > 0
  }

  function Apply(cfg: Config, s: Limiter, e: Event): Limiter
    requires Enabled(cfg, s, e)
  {
    match e
    case Check(at) => s.(now := at, waiting := s.waiting + 1)
    case Attempt(at) => s.(now := at, waiting := s.waiting - 1, trying := s.trying + 1)
    case Report(at, false) => Limiter(at, 0, 0.0, s.waiting, s.trying - 1)
    case Report(at, true) =>
      Limiter(at, s.failures + 1, if s.failures + 1 >= cfg.maxAttempts then at + cfg.lockout else s.lockedUntil,
              s.waiting, s.trying - 1)
  }

  predicate Legal(cfg: Config, s: Limiter, events: seq<Event>)
    decreases events
  {
    events == [] || (Enabled(cfg, s, events[0]) && Legal(cfg, Apply(cfg, s, events[0]), events[1..]))
  }

  function After(cfg: Config, s: Limiter, events: seq<Event>): Limiter
    requires Legal(cfg, s, events)
    decreases events
  {
    if events == [] then s else After(cfg, Apply(cfg, s, events[0]), events[1..])
  }

  lemma {:induction false} RunsJoin(cfg: Config, s: Limiter, a: seq<Event>, b: seq<Event>)
    requires Legal(cfg, s, a)
    ensures Legal(cfg, s, a + b) <==> Legal(cfg, After(cfg, s, a), b)
    ensures Legal(cfg, s, a + b) ==> After(cfg, s, a + b) == After(cfg, After(cfg, s, a), b)
    decreases a
  {
    if a == [] {
      assert a + b == b;
    } else {
      hide Enabled, Apply;
      RunsJoin(cfg, Apply(cfg, s, a[0]), a[1..], b);
      assert (a + b)[1..] == a[1..] + b;
    }
  }

  lemma {:induction false} PrefixIsLegal(cfg: Config, s: Limiter, a: seq<Event>, b: seq<Event>)
    requires Legal(cfg, s, a + b)
    ensures Legal(cfg, s, a)
    decreases a
  {
    if a != [] {
      hide Enabled, Apply;
      assert (a + b)[1..] == a[1..] + b;
      PrefixIsLegal(cfg, Apply(cfg, s, a[0]), a[1..], b);
    }
  }

  lemma OneEvent(cfg: Config, s: Limiter, e: Event)
    requires Enabled(cfg, s, e)
    ensures Legal(cfg, s, [e]) && After(cfg, s, [e]) == Apply(cfg, s, e)
  {
    assert Legal(cfg, Apply(cfg, s, e), []) && [e][1..] == [];
  }

  /** A lock in force was set by enough failures, and nobody is in flight beyond the number of callers. */
  predicate Sound(cfg: Config, s: Limiter) {
    && s.waiting + s.trying <= cfg.callers && s.lockedUntil <= Max(s.now, s.now + cfg.lockout)
    && (s.now < s.lockedUntil ==> s.failures >= cfg.maxAttempts)
  }

  lemma SoundStep(cfg: Config, s: Limiter, e: Event)
    requires Sound(cfg, s) && Enabled(cfg, s, e) && e.at >= 0.0
    ensures Sound(cfg, Apply(cfg, s, e))
  {
  }

  lemma {:induction false} SoundRun(cfg: Config, s: Limiter, events: seq<Event>)
    requires Sound(cfg, s) && Legal(cfg, s, events) && s.now >= 0.0
    ensures Sound(cfg, After(cfg, s, events)) && After(cfg, s, events).now >= s.now
    decreases events
  {
    if events != [] {
      SoundStep(cfg, s, events[0]);
      SoundRun(cfg, Apply(cfg, s, events[0]), events[1..]);
    }
  }

  // ------------------------------------------------------------------------------------- the bound

  predicate NoSuccess(events: seq<Event>) {
    forall i :: 0 <= i < |events| ==> !(events[i].Report? && !events[i].failed)
  }

  /** Attempts, whether reported within the events or not. */
  function Attempts(events: seq<Event>): nat {
    if events == [] then 0 else (if events[0].Attempt? then 1 else 0) + Attempts(events[1..])
  }

  /** Failures that still may be reported without locking. */
  function Spare(cfg: Config, failures: nat): nat {
    if cfg.maxAttempts - 1 - failures >= 0 then cfg.maxAttempts - 1 - failures else 0
  }

  /** Whole lockouts that fit between `t` and `end`; minus one when `t` is later. */
  function Lockouts(cfg: Config, t: real, end: real): int
    requires cfg.lockout > 0.0
  {
    if t > end then -1 else ((end - t) / cfg.lockout).Floor
  }

  // Products go through `Times`, whose few laws are all the proofs use.

  function Times(callers: nat, n: int): int {
    callers * n
  }

  lemma TimesIsMonotone(callers: nat, m: int, n: int)
    requires m <= n
    ensures Times(callers, m) <= Times(callers, n)
  {
  }

  lemma OneTimeMore(callers: nat, n: int)
    ensures Times(callers, n + 1) == Times(callers, n) + callers
    ensures Times(callers, 0) == 0
  {
  }

  lemma LockoutsFall(cfg: Config, t: real, u: real, end: real)
    requires cfg.lockout > 0.0 && t <= u
    ensures -1 <= Lockouts(cfg, u, end) <= Lockouts(cfg, t, end)
    ensures t <= end ==> Lockouts(cfg, t, end) >= 0
  {
    if u <= end {
      DivisionIsMonotone(0.0, end - u, cfg.lockout);
      DivisionIsMonotone(end - u, end - t, cfg.lockout);
    } else if t <= end {
      DivisionIsMonotone(0.0, end - t, cfg.lockout);
    }
  }

  lemma OneLockoutLater(cfg: Config, t: real, end: real)
    requires cfg.lockout > 0.0 && t <= end
    ensures Lockouts(cfg, t + cfg.lockout, end) == Lockouts(cfg, t, end) - 1
  {
    var d := cfg.lockout;
    var q := (end - t) / d;
    assert (end - (t + d)) / d == q - 1.0 by {
      assert q * d == end - t;
      assert (q - 1.0) * d == end - (t + d);
      Quotient(q - 1.0, d, end - (t + d));
    }
    DivisionIsMonotone(0.0, end - t, d);
    if t + d > end {
      DivisionBelow(end - t, d);
    }
  }

  lemma DivisionBelow(x: real, d: real)
    requires d > 0.0 && x < d
    ensures x / d < 1.0
  {
  }

  /**
   Attempts still possible until `end` without a success: free slots, failures to spare, and a full house for
   every lockout that fits; while locked, those already waiting and what the end of the lock or a report brings.
   */
  function Room(cfg: Config, s: Limiter, end: real): int
    requires cfg.lockout > 0.0
  {
    var w := cfg.callers;
    if s.lockedUntil <= s.now then
      w - s.trying + Spare(cfg, s.failures) + Times(w, Lockouts(cfg, s.now, end))
    else
      var kept := w - s.waiting - s.trying + Times(w, Lockouts(cfg, s.lockedUntil, end));
      var renewed := Times(w, Lockouts(cfg, s.now, end));
      s.waiting + if kept >= renewed then kept else renewed
  }

  lemma RoomBounds(cfg: Config, s: Limiter, end: real)
    requires cfg.lockout > 0.0 && Sound(cfg, s) && s.now <= end
    ensures 0 <= Room(cfg, s, end) <= Spare(cfg, s.failures) + Times(cfg.callers, 1 + Lockouts(cfg, s.now, end))
  {
    var n := Lockouts(cfg, s.now, end);
    LockoutsFall(cfg, s.now, Max(s.now, s.lockedUntil), end);
    TimesIsMonotone(cfg.callers, 0, n);
    TimesIsMonotone(cfg.callers, Lockouts(cfg, Max(s.now, s.lockedUntil), end), n);
    OneTimeMore(cfg.callers, n);
    hide Times, Lockouts;
  }

  lemma WaitingMakesNoRoom(cfg: Config, s: Limiter, at: real, end: real)
    requires cfg.lockout > 0.0 && Sound(cfg, s) && s.now <= at <= end
    ensures Room(cfg, s.(now := at), end) <= Room(cfg, s, end)
  {
    LockoutsFall(cfg, s.now, at, end);
    TimesIsMonotone(cfg.callers, Lockouts(cfg, at, end), Lockouts(cfg, s.now, end));
    if s.now < s.lockedUntil <= at {
      LockoutsFall(cfg, s.lockedUntil, at, end);
      TimesIsMonotone(cfg.callers, Lockouts(cfg, at, end), Lockouts(cfg, s.lockedUntil, end));
    }
    hide Times, Lockouts;
  }

  /** Every attempt uses up room, and no other event makes any. */
  lemma EventUsesRoom(cfg: Config, s: Limiter, e: Event, end: real)
    requires cfg.lockout > 0.0 && Sound(cfg, s) && Enabled(cfg, s, e) && e.at == s.now <= end
    requires NoSuccess([e])
    ensures (if e.Attempt? then 1 else 0) + Room(cfg, Apply(cfg, s, e), end) <= Room(cfg, s, end)
  {
    assert [e][0] == e;
    if e.Report? && s.failures + 1 >= cfg.maxAttempts {
      OneLockoutLater(cfg, s.now, end);
      OneTimeMore(cfg.callers, Lockouts(cfg, s.now, end) - 1);
    }
    hide Times, Lockouts;
  }

  lemma {:induction false} RunUsesRoom(cfg: Config, s: Limiter, events: seq<Event>, end: real)
    requires cfg.lockout > 0.0 && Sound(cfg, s) && Legal(cfg, s, events) && NoSuccess(events)
    requires 0.0 <= s.now && After(cfg, s, events).now <= end
    ensures Attempts(events) <= Room(cfg, s, end)
    decreases events
  {
    if events == [] {
      RoomBounds(cfg, s, end);
    } else {
      var e, rest := events[0], events[1..];
      var later, next := s.(now := e.at), Apply(cfg, s, e);
      SoundStep(cfg, s, e);
      SoundRun(cfg, next, rest);
      assert Sound(cfg, later);
      assert next == Apply(cfg, later, e);
      WaitingMakesNoRoom(cfg, s, e.at, end);
      EventUsesRoom(cfg, later, e, end);
      hide Room, Apply, Enabled, Sound;
      RunUsesRoom(cfg, next, rest, end);
    }
  }

  /**
   Main result: from any state that a limiter can be in, events without a success hold at most as many attempts as
   there are failures to spare, plus one per caller, plus one per caller for every lockout that fits between the
   first and the last event. Attempts that are not yet reported count.
   */
  lemma LockoutBound(cfg: Config, s: Limiter, events: seq<Event>)
    requires cfg.lockout > 0.0 && Sound(cfg, s) && 0.0 <= s.now && Legal(cfg, s, events) && NoSuccess(events)
    requires events != []
    ensures Attempts(events) <= Spare(cfg, s.failures)
      + cfg.callers * (1 + Lockouts(cfg, events[0].at, After(cfg, s, events).now))
  {
    var later, end := s.(now := events[0].at), After(cfg, s, events).now;
    assert Apply(cfg, s, events[0]) == Apply(cfg, later, events[0]);
    assert Legal(cfg, later, events) && After(cfg, later, events) == After(cfg, s, events);
    SoundRun(cfg, later, events);
    RunUsesRoom(cfg, later, events, end);
    RoomBounds(cfg, later, end);
  }

  /** The same for a stretch of a whole history. */
  lemma StretchBound(cfg: Config, born: real, before: seq<Event>, events: seq<Event>)
    requires cfg.lockout > 0.0 && 0.0 <= born && Legal(cfg, Start(born), before + events)
    requires events != [] && NoSuccess(events)
    ensures Attempts(events) <= Spare(cfg, 0)
      + cfg.callers * (1 + Lockouts(cfg, events[0].at, events[|events| - 1].at))
  {
    var s := Start(born);
    PrefixIsLegal(cfg, s, before, events);
    RunsJoin(cfg, s, before, events);
    SoundRun(cfg, s, before);
    LockoutBound(cfg, After(cfg, s, before), events);
    LastEventIsNow(cfg, After(cfg, s, before), events);
  }

  lemma {:induction false} LastEventIsNow(cfg: Config, s: Limiter, events: seq<Event>)
    requires Legal(cfg, s, events) && events != []
    ensures After(cfg, s, events).now == events[|events| - 1].at
    decreases events
  {
    if |events| > 1 {
      LastEventIsNow(cfg, Apply(cfg, s, events[0]), events[1..]);
    } else {
      assert After(cfg, Apply(cfg, s, events[0]), events[1..]) == Apply(cfg, s, events[0]);
    }
  }

  /** The count survives the lock: from the limit on, more attempts than callers take a whole lockout. */
  lemma MoreThanCallersTakeALockout(cfg: Config, s: Limiter, events: seq<Event>)
    requires cfg.lockout > 0.0 && Sound(cfg, s) && 0.0 <= s.now && Legal(cfg, s, events) && NoSuccess(events)
    requires s.failures >= cfg.maxAttempts - 1 && Attempts(events) > cfg.callers
    ensures events != [] && After(cfg, s, events).now - events[0].at >= cfg.lockout
  {
    LockoutBound(cfg, s, events);
    var first, last := events[0].at, After(cfg, s, events).now;
    var n := 1 + Lockouts(cfg, first, last);
    if n <= 1 {
      TimesIsMonotone(cfg.callers, n, 1);
    } else if last - first < cfg.lockout {
      DivisionBelow(last - first, cfg.lockout);
    }
  }

  // ----------------------------------------------------------------------------- the bound is reached

  function Repeat(e: Event, n: nat): seq<Event> {
    if n == 0 then [] else [e] + Repeat(e, n - 1)
  }

  lemma {:induction false} AttemptsJoin(a: seq<Event>, b: seq<Event>)
    ensures Attempts(a + b) == Attempts(a) + Attempts(b)
    decreases a
  {
    if a == [] {
      assert a + b == b;
    } else {
      assert (a + b)[1..] == a[1..] + b;
      AttemptsJoin(a[1..], b);
    }
  }

  /** All callers check, or all attempt, or all report a failure, at one instant. */
  lemma {:induction false} AllAtOnce(cfg: Config, s: Limiter, e: Event, n: nat)
    requires s.now <= e.at && NoSuccess([e])
    requires e.Check? ==> s.lockedUntil <= e.at && s.waiting + s.trying + n <= cfg.callers
    requires e.Attempt? ==> n <= s.waiting
    requires e.Report? ==> n <= s.trying
    ensures Legal(cfg, s, Repeat(e, n)) && NoSuccess(Repeat(e, n)) && |Repeat(e, n)| == n
    ensures Attempts(Repeat(e, n)) == if e.Attempt? then n else 0
    ensures n > 0 ==> After(cfg, s, Repeat(e, n)) == match e
      case Check(at) => s.(now := at, waiting := s.waiting + n)
      case Attempt(at) => s.(now := at, waiting := s.waiting - n, trying := s.trying + n)
      case Report(at, _) =>
        Limiter(at, s.failures + n, if s.failures + n >= cfg.maxAttempts then at + cfg.lockout else s.lockedUntil,
                s.waiting, s.trying - n)
    decreases n
  {
    assert [e][0] == e;
    if n > 0 {
      AllAtOnce(cfg, Apply(cfg, s, e), e, n - 1);
      assert Repeat(e, n)[1..] == Repeat(e, n - 1);
    }
  }

  lemma Joined(cfg: Config, s: Limiter, a: seq<Event>, b: seq<Event>)
    requires Legal(cfg, s, a) && Legal(cfg, After(cfg, s, a), b) && NoSuccess(a) && NoSuccess(b)
    ensures Legal(cfg, s, a + b) && After(cfg, s, a + b) == After(cfg, After(cfg, s, a), b) && NoSuccess(a + b)
    ensures Attempts(a + b) == Attempts(a) + Attempts(b)
  {
    RunsJoin(cfg, s, a, b);
    AttemptsJoin(a, b);
  }

  /** One caller after the other fails, all at once, as long as that does not lock. */
  lemma {:induction false} FailuresInARow(cfg: Config, s: Limiter, n: nat) returns (events: seq<Event>)
    requires cfg.callers >= 1 && s.waiting == s.trying == 0 && s.lockedUntil <= s.now
    requires s.failures + n < cfg.maxAttempts || n == 0
    ensures Legal(cfg, s, events) && NoSuccess(events) && Attempts(events) == n && |events| == 3 * n
    ensures After(cfg, s, events) == s.(failures := s.failures + n)
    ensures if n == 0 then events == [] else events != [] && events[0].at == s.now
    decreases n
  {
    if n == 0 {
      return [];
    }
    var round := [Check(s.now), Attempt(s.now), Report(s.now, true)];
    var s1 := Apply(cfg, s, round[0]);
    var s2 := Apply(cfg, s1, round[1]);
    var s3 := Apply(cfg, s2, round[2]);
    OneEvent(cfg, s, round[0]);
    OneEvent(cfg, s1, round[1]);
    OneEvent(cfg, s2, round[2]);
    Joined(cfg, s, [round[0]], [round[1]]);
    Joined(cfg, s, [round[0]] + [round[1]], [round[2]]);
    assert round == [round[0]] + [round[1]] + [round[2]];
    var rest := FailuresInARow(cfg, s3, n - 1);
    Joined(cfg, s, round, rest);
    events := round + rest;
  }

  /** Every caller passes the check and attempts. */
  lemma FullHouse(cfg: Config, s: Limiter, at: real) returns (events: seq<Event>)
    requires cfg.callers >= 1 && s.waiting == s.trying == 0 && s.lockedUntil <= at && s.now <= at
    ensures Legal(cfg, s, events) && NoSuccess(events) && Attempts(events) == cfg.callers
    ensures After(cfg, s, events) == s.(now := at, trying := cfg.callers)
    ensures |events| == 2 * cfg.callers && events != [] && events[0].at == at
  {
    var checks := Repeat(Check(at), cfg.callers);
    AllAtOnce(cfg, s, Check(at), cfg.callers);
    AllAtOnce(cfg, After(cfg, s, checks), Attempt(at), cfg.callers);
    Joined(cfg, s, checks, Repeat(Attempt(at), cfg.callers));
    events := checks + Repeat(Attempt(at), cfg.callers);
  }

  /** All callers have attempted at `at`, none has reported, and the lock is open. */
  predicate HouseIsFull(cfg: Config, s: Limiter, at: real) {
    && s.now == at && s.lockedUntil <= at && s.waiting == 0 && s.trying == cfg.callers
    && s.failures >= Spare(cfg, 0)
  }

  /** All report, the lock runs out, and all are back. */
  lemma NextHouse(cfg: Config, s: Limiter, at: real) returns (events: seq<Event>)
    requires cfg.callers >= 1 && cfg.lockout > 0.0 && HouseIsFull(cfg, s, at)
    ensures Legal(cfg, s, events) && NoSuccess(events) && Attempts(events) == cfg.callers
    ensures |events| == 3 * cfg.callers
    ensures HouseIsFull(cfg, After(cfg, s, events), at + cfg.lockout)
  {
    var reports := Repeat(Report(at, true), cfg.callers);
    AllAtOnce(cfg, s, Report(at, true), cfg.callers);
    var house := FullHouse(cfg, After(cfg, s, reports), at + cfg.lockout);
    Joined(cfg, s, reports, house);
    events := reports + house;
  }

  /** The bound is reached for every number of lockouts, so it cannot be improved. */
  lemma {:induction false} BoundIsReached(cfg: Config, n: nat) returns (events: seq<Event>)
    requires cfg.callers >= 1 && cfg.lockout > 0.0
    ensures Legal(cfg, Start(0.0), events) && NoSuccess(events) && events != [] && events[0].at == 0.0
    ensures Attempts(events) == Spare(cfg, 0) + cfg.callers * (1 + n)
    ensures |events| == 3 * Attempts(events) - cfg.callers
    ensures HouseIsFull(cfg, After(cfg, Start(0.0), events), n as real * cfg.lockout)
    decreases n
  {
    if n == 0 {
      var first := FailuresInARow(cfg, Start(0.0), Spare(cfg, 0));
      var house := FullHouse(cfg, After(cfg, Start(0.0), first), 0.0);
      Joined(cfg, Start(0.0), first, house);
      events := first + house;
    } else {
      var earlier := BoundIsReached(cfg, n - 1);
      var at := (n - 1) as real * cfg.lockout;
      assert at + cfg.lockout == n as real * cfg.lockout;
      assert cfg.callers * (1 + n) == cfg.callers * n + cfg.callers;
      var next := NextHouse(cfg, After(cfg, Start(0.0), earlier), at);
      hide HouseIsFull;
      Joined(cfg, Start(0.0), earlier, next);
      events := earlier + next;
    }
  }

  /** The bound one would expect: the configured number of attempts, and one for every lockout that fits. */
  ghost predicate BoundedByMaxAttempts(cfg: Config)
    requires cfg.lockout > 0.0
  {
    forall events: seq<Event> | events != [] && Legal(cfg, Start(0.0), events) && NoSuccess(events) ::
      Attempts(events) <= cfg.maxAttempts + Lockouts(cfg, events[0].at, After(cfg, Start(0.0), events).now)
  }

  /** It holds exactly for a single caller and at least one attempt. */
  lemma MaxAttemptsBoundIff(cfg: Config)
    requires cfg.lockout > 0.0 && cfg.callers >= 1
    ensures BoundedByMaxAttempts(cfg) <==> cfg.callers == 1 && cfg.maxAttempts >= 1
  {
    if cfg.callers == 1 && cfg.maxAttempts >= 1 {
      forall events: seq<Event> | events != [] && Legal(cfg, Start(0.0), events) && NoSuccess(events)
        ensures Attempts(events) <= cfg.maxAttempts + Lockouts(cfg, events[0].at, After(cfg, Start(0.0), events).now)
      {
        LockoutBound(cfg, Start(0.0), events);
      }
    } else {
      var events := BoundIsReached(cfg, 0);
      assert 0.0 / cfg.lockout == 0.0;
      assert cfg.callers * (1 + 0) == cfg.callers;
    }
  }
}
