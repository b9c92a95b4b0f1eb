/**
 The token bucket behind every outgoing request, as a function of the events its lock regions perform.
 The rate may change at any moment and a refill pays the whole elapsed time at the current rate.
 */
module TokenBucket {
  import opened Common

  /** `cap` bounds every rate the bucket is ever given. */
  datatype Config = Config(burst: nat, cap: real)

  datatype Bucket = Bucket(tokens: real, lastRefill: real, rate: real)

  datatype Event =
    | TryAcquire(at: real, tokens: nat)
    | SetRate(at: real, rate: real)
    | ResetBucket(at: real, rate: real)

  predicate ValidBucket(cfg: Config, b: Bucket) {
    0.0 <= b.tokens <= cfg.burst as real && 0.0 < b.rate <= cfg.cap
  }

  predicate Allowed(cfg: Config, e: Event) {
    e.TryAcquire? || 0.0 < e.rate <= cfg.cap
  }

  // Products of a rate and a time span go through `Earned`, whose few laws are all the proofs use.

  function Earned(rate: real, span: real): real {
    rate * span
  }

  lemma EarnedIsMonotone(rate: real, cap: real, span: real, longer: real)
    requires 0.0 <= rate <= cap && 0.0 <= span <= longer
    ensures 0.0 <= Earned(rate, span) <= Earned(cap, longer)
  {
    assert rate * span <= cap * span <= cap * longer;
  }

  lemma EarnedAdds(rate: real, first: real, second: real)
    ensures Earned(rate, first + second) == Earned(rate, first) + Earned(rate, second)
  {
  }

  function Refill(cfg: Config, b: Bucket, now: real): Bucket {
    b.(tokens := Min(cfg.burst as real, b.tokens + Earned(b.rate, now - b.lastRefill)), lastRefill := now)
  }

  predicate Grants(cfg: Config, b: Bucket, e: Event) {
    e.TryAcquire? && Refill(cfg, b, e.at).tokens >= e.tokens as real
  }

  function Step(cfg: Config, b: Bucket, e: Event): Bucket {
    match e
    case TryAcquire(at, n) =>
      var full := Refill(cfg, b, at);
      if full.tokens >= n as real then full.(tokens := full.tokens - n as real) else full
    case SetRate(_, rate) => b.(rate := rate)
    case ResetBucket(at, rate) => Bucket(cfg.burst as real, at, rate)
  }

  /** A try pays the time since the last refill at the current rate, up to the burst, and takes all or nothing. */
  lemma OneTry(cfg: Config, b: Bucket, e: Event)
    requires e.TryAcquire?
    ensures var full := Min(cfg.burst as real, b.tokens + b.rate * (e.at - b.lastRefill));
      && (Grants(cfg, b, e) <==> e.tokens as real <= full)
      && Step(cfg, b, e).tokens == (if e.tokens as real <= full then full - e.tokens as real else full)
      && Step(cfg, b, e).lastRefill == e.at && Step(cfg, b, e).rate == b.rate
  {
  }

  function Run(cfg: Config, b: Bucket, events: seq<Event>): Bucket
    decreases events
  {
    if events == [] then b else Run(cfg, Step(cfg, b, events[0]), events[1..])
  }

  /** Events in clock order, none before `from`, every rate within the cap. */
  predicate InOrder(cfg: Config, from: real, events: seq<Event>)
    decreases events
  {
    events == [] || (from <= events[0].at && Allowed(cfg, events[0]) && InOrder(cfg, events[0].at, events[1..]))
  }

  /** Tokens handed out at instants between `s` and `e`. */
  function GrantedIn(cfg: Config, b: Bucket, events: seq<Event>, s: real, e: real): real
    decreases events
  {
    if events == [] then 0.0
    else
      (if Grants(cfg, b, events[0]) && s <= events[0].at <= e then events[0].tokens as real else 0.0)
      + GrantedIn(cfg, Step(cfg, b, events[0]), events[1..], s, e)
  }

  /** One full burst for every reset between `s` and `e`. */
  function ResetTokensIn(cfg: Config, events: seq<Event>, s: real, e: real): real {
    if events == [] then 0.0
    else
      (if events[0].ResetBucket? && s <= events[0].at <= e then cfg.burst as real else 0.0)
      + ResetTokensIn(cfg, events[1..], s, e)
  }

  lemma StepKeepsBounds(cfg: Config, b: Bucket, e: Event)
    requires ValidBucket(cfg, b) && b.lastRefill <= e.at && Allowed(cfg, e)
    ensures ValidBucket(cfg, Step(cfg, b, e)) && Step(cfg, b, e).lastRefill <= e.at
  {
    hide Earned;
    EarnedIsMonotone(b.rate, cfg.cap, e.at - b.lastRefill, e.at - b.lastRefill);
  }

  lemma {:induction false} NothingGrantedLater(
    cfg: Config, b: Bucket, from: real, events: seq<Event>, s: real, e: real)
    requires InOrder(cfg, from, events) && e < from
    ensures GrantedIn(cfg, b, events, s, e) == ResetTokensIn(cfg, events, s, e) == 0.0
    decreases events
  {
    hide Earned;
    if events != [] {
      NothingGrantedLater(cfg, Step(cfg, b, events[0]), events[0].at, events[1..], s, e);
    }
  }

  /** What the bucket can still pay for inside the window: its tokens plus the refill, or a full burst. */
  function Budget(cfg: Config, b: Bucket, s: real, e: real): real {
    if b.lastRefill >= s then b.tokens + Earned(cfg.cap, e - b.lastRefill)
    else cfg.burst as real + Earned(cfg.cap, e - s)
  }

  lemma BudgetBounds(cfg: Config, b: Bucket, s: real, e: real)
    requires ValidBucket(cfg, b) && s <= e && b.lastRefill <= e
    ensures 0.0 <= Budget(cfg, b, s, e) <= cfg.burst as real + Earned(cfg.cap, e - s)
  {
    hide Earned;
    EarnedIsMonotone(cfg.cap, cfg.cap, e - s, e - s);
    if b.lastRefill >= s {
      EarnedIsMonotone(cfg.cap, cfg.cap, e - b.lastRefill, e - s);
    }
  }

  /** A refill at an instant of the window only spends budget. */
  lemma RefillWithinBudget(cfg: Config, b: Bucket, at: real, s: real, e: real)
    requires ValidBucket(cfg, b) && b.lastRefill <= at && s <= at <= e
    ensures Budget(cfg, Refill(cfg, b, at), s, e) <= Budget(cfg, b, s, e)
  {
    hide Earned;
    if b.lastRefill >= s {
      EarnedIsMonotone(b.rate, cfg.cap, at - b.lastRefill, at - b.lastRefill);
      EarnedAdds(cfg.cap, e - at, at - b.lastRefill);
      assert (e - at) + (at - b.lastRefill) == e - b.lastRefill;
    } else {
      EarnedIsMonotone(cfg.cap, cfg.cap, e - at, e - s);
    }
  }

  /** One event: what it grants inside the window comes out of the budget; a reset adds one burst. */
  lemma EventWithinBudget(cfg: Config, b: Bucket, ev: Event, s: real, e: real)
    requires ValidBucket(cfg, b) && b.lastRefill <= ev.at <= e && Allowed(cfg, ev) && s <= e
    ensures (if Grants(cfg, b, ev) && s <= ev.at then ev.tokens as real else 0.0) + Budget(cfg, Step(cfg, b, ev), s, e)
              <= Budget(cfg, b, s, e) + (if ev.ResetBucket? && s <= ev.at then cfg.burst as real else 0.0)
  {
    hide Earned;
    if ev.at >= s && ev.TryAcquire? {
      RefillWithinBudget(cfg, b, ev.at, s, e);
    } else if ev.at >= s && ev.ResetBucket? {
      EarnedIsMonotone(cfg.cap, cfg.cap, e - ev.at, if b.lastRefill >= s then e - b.lastRefill else e - s);
    }
  }

  lemma {:induction false} RunWithinBudget(cfg: Config, b: Bucket, from: real, events: seq<Event>, s: real, e: real)
    requires ValidBucket(cfg, b) && b.lastRefill <= from <= e && InOrder(cfg, from, events) && s <= e
    ensures GrantedIn(cfg, b, events, s, e) <= Budget(cfg, b, s, e) + ResetTokensIn(cfg, events, s, e)
    decreases events
  {
    hide Earned, Budget;
    BudgetBounds(cfg, b, s, e);
    if events != [] {
      var next := Step(cfg, b, events[0]);
      StepKeepsBounds(cfg, b, events[0]);
      if events[0].at > e {
        NothingGrantedLater(cfg, next, events[0].at, events[1..], s, e);
      } else {
        RunWithinBudget(cfg, next, events[0].at, events[1..], s, e);
        EventWithinBudget(cfg, b, events[0], s, e);
      }
    }
  }

  /**
   Main result: over any run, in any window, however the rate moved inside the cap, the tokens granted are at
   most one burst, plus the cap times the window, plus one burst for every reset in the window.
   */
  lemma WindowBound(cfg: Config, b: Bucket, events: seq<Event>, s: real, e: real)
    requires ValidBucket(cfg, b) && InOrder(cfg, b.lastRefill, events) && s <= e
    ensures GrantedIn(cfg, b, events, s, e)
              <= cfg.burst as real + cfg.cap * (e - s) + ResetTokensIn(cfg, events, s, e)
  {
    assert cfg.cap * (e - s) == Earned(cfg.cap, e - s);
    hide Earned;
    EarnedIsMonotone(cfg.cap, cfg.cap, e - s, e - s);
    if b.lastRefill > e {
      NothingGrantedLater(cfg, b, b.lastRefill, events, s, e);
    } else {
      RunWithinBudget(cfg, b, b.lastRefill, events, s, e);
      BudgetBounds(cfg, b, s, e);
    }
  }

  lemma {:induction false} RunKeepsBounds(cfg: Config, b: Bucket, events: seq<Event>)
    requires ValidBucket(cfg, b) && InOrder(cfg, b.lastRefill, events)
    ensures ValidBucket(cfg, Run(cfg, b, events))
  {
    RunKeepsBoundsFrom(cfg, b, b.lastRefill, events);
  }

  lemma {:induction false} RunKeepsBoundsFrom(cfg: Config, b: Bucket, from: real, events: seq<Event>)
    requires ValidBucket(cfg, b) && b.lastRefill <= from && InOrder(cfg, from, events)
    ensures ValidBucket(cfg, Run(cfg, b, events))
    decreases events
  {
    if events != [] {
      StepKeepsBounds(cfg, b, events[0]);
      RunKeepsBoundsFrom(cfg, Step(cfg, b, events[0]), events[0].at, events[1..]);
    }
  }

  // ------------------------------------------------------------------------- waiting for tokens

  /** How long `acquire` sleeps after a refill that left too few tokens. */
  function WaitFor(b: Bucket, tokens: nat): real
    requires b.rate > 0.0
  {
    Max(0.01, (tokens as real - b.tokens) / b.rate)
  }

  /**
   One sleep is enough: after a failed try, any try not earlier than the wait it computed succeeds,
   exactly when the request fits in the burst. A larger request fails at every instant.
   */
  lemma OneSleepSuffices(cfg: Config, b: Bucket, tried: Event, retriedAt: real)
    requires ValidBucket(cfg, b) && tried.TryAcquire? && b.lastRefill <= tried.at && !Grants(cfg, b, tried)
    requires retriedAt >= tried.at + WaitFor(Step(cfg, b, tried), tried.tokens)
    ensures Grants(cfg, Step(cfg, b, tried), TryAcquire(retriedAt, tried.tokens)) <==> tried.tokens <= cfg.burst
  {
    hide Earned;
    var after := Step(cfg, b, tried);
    StepKeepsBounds(cfg, b, tried);
    var deficit := tried.tokens as real - after.tokens;
    WaitEarnsDeficit(after.rate, deficit, retriedAt - after.lastRefill);
  }

  /** And no shorter one is: unless it is the least sleep of a hundredth of a second, an earlier try fails again. */
  lemma NoShorterSleep(cfg: Config, b: Bucket, tried: Event, retriedAt: real)
    requires ValidBucket(cfg, b) && tried.TryAcquire? && b.lastRefill <= tried.at && !Grants(cfg, b, tried)
    requires tried.at <= retriedAt < tried.at + WaitFor(Step(cfg, b, tried), tried.tokens)
    requires retriedAt >= tried.at + 0.01
    ensures !Grants(cfg, Step(cfg, b, tried), TryAcquire(retriedAt, tried.tokens))
  {
    var after, waited := Step(cfg, b, tried), retriedAt - tried.at;
    var deficit := tried.tokens as real - after.tokens;
    assert after.lastRefill == tried.at;
    TooShort(after.rate, deficit, waited);
    hide Earned;
  }

  lemma TooShort(rate: real, deficit: real, waited: real)
    requires rate > 0.0 && waited < deficit / rate
    ensures Earned(rate, waited) < deficit
  {
    var wait := deficit / rate;
    assert rate * wait == deficit;
    assert rate * (wait - waited) > 0.0;
  }

  lemma WaitEarnsDeficit(rate: real, deficit: real, waited: real)
    requires rate > 0.0 && waited >= deficit / rate
    ensures Earned(rate, waited) >= deficit
  {
    var wait := deficit / rate;
    assert rate * wait == deficit;
    assert rate * (waited - wait) >= 0.0;
  }

  /** Turns of one `acquire` loop: the same request again and again, granted at the last turn or never. */
  predicate Tries(cfg: Config, b: Bucket, tries: seq<Event>, n: nat, granted: bool)
    decreases tries
  {
    && tries != [] && tries[0].TryAcquire? && tries[0].tokens == n
    && (if |tries| == 1 then granted == Grants(cfg, b, tries[0])
        else !Grants(cfg, b, tries[0]) && Tries(cfg, Step(cfg, b, tries[0]), tries[1..], n, granted))
  }

  lemma FirstTry(cfg: Config, b: Bucket, e: Event)
    requires e.TryAcquire?
    ensures Tries(cfg, b, [e], e.tokens, Grants(cfg, b, e)) && Run(cfg, b, [e]) == Step(cfg, b, e)
  {
    assert [e][1..] == [];
  }

  lemma {:induction false} OneMoreTry(cfg: Config, b: Bucket, tries: seq<Event>, n: nat, next: Event)
    requires Tries(cfg, b, tries, n, false) && next.TryAcquire? && next.tokens == n
    ensures Tries(cfg, b, tries + [next], n, Grants(cfg, Run(cfg, b, tries), next))
    ensures Run(cfg, b, tries + [next]) == Step(cfg, Run(cfg, b, tries), next)
    decreases tries
  {
    hide Grants, Step;
    assert (tries + [next])[1..] == tries[1..] + [next];
    if |tries| > 1 {
      OneMoreTry(cfg, Step(cfg, b, tries[0]), tries[1..], n, next);
    } else {
      FirstTry(cfg, b, tries[0]);
      FirstTry(cfg, Step(cfg, b, tries[0]), next);
      assert tries == [tries[0]] && tries[1..] + [next] == [next];
    }
  }

  // ------------------------------------------------------------------------------------ backoff

  function Pow(f: real, k: nat): real {
    if k == 0 then 1.0 else f * Pow(f, k - 1)
  }

  /** Powers as they are known. */
  lemma {:induction false} PowsMultiply(f: real, j: nat, k: nat)
    ensures Pow(f, 0) == 1.0 && Pow(f, 1) == f && Pow(f, j + k) == Pow(f, j) * Pow(f, k)
    decreases j
  {
    assert Pow(f, 1) == f * Pow(f, 0);
    if j > 0 {
      PowsMultiply(f, j - 1, k);
      assert Pow(f, j + k) == f * Pow(f, j - 1 + k);
      Associates(f, Pow(f, j - 1), Pow(f, k));
    }
  }

  lemma Associates(x: real, y: real, z: real)
    ensures x * (y * z) == (x * y) * z
  {
  }

  predicate Overloaded(code: Option<int>) {
    code == Some(429) || code == Some(503)
  }

  /** The wait after the k-th failure in a row. */
  function Backoff(factor: real, maxBackoff: real, k: nat, code: Option<int>): real {
    var plain := Min(maxBackoff, Pow(factor, k) * 0.5);
    if Overloaded(code) then Min(maxBackoff, plain * 2.0) else plain
  }

  lemma {:induction false} PowGrows(f: real, k: nat)
    requires f >= 1.0
    ensures Pow(f, k) >= 1.0 && Pow(f, k + 1) == Earned(f, Pow(f, k)) >= Pow(f, k)
  {
    if k > 0 {
      PowGrows(f, k - 1);
    }
    EarnedIsMonotone(1.0, f, Pow(f, k), Pow(f, k));
  }

  lemma {:induction false} PowAtLeastSquare(f: real, k: nat)
    requires f >= 1.0 && k >= 2
    ensures Pow(f, k) >= f * f
  {
    if k == 2 {
      assert Pow(f, 2) == f * Pow(f, 1) && Pow(f, 1) == f * Pow(f, 0);
    } else {
      hide Earned;
      PowAtLeastSquare(f, k - 1);
      PowGrows(f, k - 1);
    }
  }

  /** Between half the power and the power, both cut at the ceiling. */
  lemma BackoffRange(factor: real, maxBackoff: real, k: nat, code: Option<int>)
    requires factor >= 1.0 && maxBackoff >= 0.0
    ensures 0.0 <= Min(maxBackoff, Pow(factor, k) * 0.5) <= Backoff(factor, maxBackoff, k, code)
    ensures Backoff(factor, maxBackoff, k, code) <= Min(maxBackoff, Pow(factor, k))
  {
    PowGrows(factor, k);
  }

  ghost predicate NeverDecreases(factor: real, maxBackoff: real) {
    forall k: nat, next: nat, a, b | 1 <= k && next == k + 1 ::
      Backoff(factor, maxBackoff, k, a) <= Backoff(factor, maxBackoff, next, b)
  }

  lemma StreakStep(factor: real, maxBackoff: real, k: nat, a: Option<int>, b: Option<int>)
    requires factor >= 1.0 && maxBackoff >= 0.0 && k >= 1
    requires factor >= 2.0 || maxBackoff <= factor * factor * 0.5
    ensures Backoff(factor, maxBackoff, k, a) <= Backoff(factor, maxBackoff, k + 1, b)
  {
    BackoffRange(factor, maxBackoff, k, a);
    BackoffRange(factor, maxBackoff, k + 1, b);
    PowGrows(factor, k);
    if factor >= 2.0 {
      EarnedIsMonotone(2.0, factor, Pow(factor, k), Pow(factor, k));
      hide Backoff, Pow, Earned;
      assert Earned(2.0, Pow(factor, k)) == 2.0 * Pow(factor, k) by { DoubleIsTwice(Pow(factor, k)); }
    } else {
      PowAtLeastSquare(factor, k + 1);
      hide Backoff, Pow, Earned;
    }
  }

  lemma DoubleIsTwice(x: real)
    ensures Earned(2.0, x) == 2.0 * x
  {
  }

  lemma PositiveProduct(x: real, y: real)
    requires x > 0.0 && y > 0.0
    ensures x * y > 0.0
  {
  }

  /** A factor below two drops from 429's doubled first wait to the plain second one. */
  lemma FirstDrop(factor: real, maxBackoff: real)
    requires 1.0 <= factor < 2.0 && maxBackoff > factor * factor * 0.5
    ensures Backoff(factor, maxBackoff, 1, Some(429)) > Backoff(factor, maxBackoff, 2, None)
  {
    var square := factor * factor;
    assert Pow(factor, 1) == factor && Pow(factor, 2) == square by {
      assert Pow(factor, 1) == factor * Pow(factor, 0) && Pow(factor, 2) == factor * Pow(factor, 1);
    }
    assert factor <= square < 2.0 * factor by {
      EarnedIsMonotone(1.0, factor, factor, factor);
      PositiveProduct(factor, 2.0 - factor);
    }
    hide Pow;
  }

  lemma PowStep(f: real, k: nat)
    requires 0.0 < f < 1.0 && Pow(f, k) > 0.0
    ensures 0.0 < Pow(f, k + 1) == Pow(f, k) - Earned(1.0 - f, Pow(f, k))
  {
    PositiveProduct(f, Pow(f, k));
  }

  lemma {:induction false} PowFalls(f: real, k: nat)
    requires 0.0 < f < 1.0
    ensures 0.0 < Pow(f, k + 1) < Pow(f, k)
  {
    if k > 0 {
      PowFalls(f, k - 1);
    }
    PowStep(f, k);
    EarnedIsPositive(1.0 - f, Pow(f, k));
    hide Pow, Earned;
  }

  lemma EarnedIsPositive(rate: real, span: real)
    requires rate > 0.0 && span > 0.0
    ensures Earned(rate, span) > 0.0
  {
    PositiveProduct(rate, span);
  }

  lemma OneStepLess(p: real, q: real, d: real)
    requires d > 0.0 && q <= p - d
    ensures q / d <= p / d - 1.0
  {
    var x := p / d;
    assert x * d == p;
    assert (x - 1.0) * d == p - d;
    Quotient(x - 1.0, d, p - d);
    DivisionIsMonotone(q, p - d, d);
  }

  /** Powers of a factor below one fall below every positive bound, since each step down to it is `d` or more. */
  lemma {:induction false} PowFallsBelow(f: real, bound: real, d: real, k: nat) returns (j: nat)
    requires 0.0 < f < 1.0 && bound > 0.0 && d == Earned(1.0 - f, bound) && d > 0.0
    ensures j >= k && Pow(f, j) < bound
    decreases Ceiling(Pow(f, k) / d)
  {
    PowFalls(f, k);
    if Pow(f, k) < bound {
      j := k;
    } else {
      PowStep(f, k);
      EarnedIsMonotone(1.0 - f, 1.0 - f, bound, Pow(f, k));
      hide Earned, Pow;
      OneStepLess(Pow(f, k), Pow(f, k + 1), d);
      DivisionIsMonotone(d, Pow(f, k), d);
      j := PowFallsBelow(f, bound, d, k + 1);
    }
  }

  /** Below one the streak drops where the power first falls below the ceiling. */
  lemma {:induction false} ShrinkingFactorDrops(f: real, maxBackoff: real, k: nat) returns (j: nat)
    requires 0.0 < f < 1.0 && maxBackoff > 0.0 && k >= 1 && Pow(f, k + 1) * 0.5 < maxBackoff
    ensures j >= 1 && Backoff(f, maxBackoff, j, Some(429)) > Backoff(f, maxBackoff, j + 1, None)
    decreases k
  {
    PowFalls(f, k);
    if k > 1 && Pow(f, k) * 0.5 < maxBackoff {
      j := ShrinkingFactorDrops(f, maxBackoff, k - 1);
    } else {
      j := k;
      hide Pow;
    }
  }

  /** A negative factor alternates, and a negative ceiling doubles. */
  lemma NegativeValuesDrop(factor: real, maxBackoff: real)
    requires factor < 0.0 || maxBackoff < 0.0
    ensures Backoff(factor, maxBackoff, 2, None) > Backoff(factor, maxBackoff, 3, Some(429))
  {
    var p1, p2, p3 := Pow(factor, 1), Pow(factor, 2), Pow(factor, 3);
    assert p1 == factor && p2 == factor * p1 && p3 == factor * p2 by {
      assert Pow(factor, 0) == 1.0 && Pow(factor, 1) == factor * Pow(factor, 0);
    }
    if factor < 0.0 {
      NegativeTimes(factor, p1);
      NegativeTimes(factor, p2);
    } else {
      PowNotNegative(factor, 2);
      PowNotNegative(factor, 3);
    }
    hide Pow;
  }

  lemma NegativeTimes(x: real, y: real)
    requires x < 0.0
    ensures y < 0.0 ==> x * y > 0.0
    ensures y > 0.0 ==> x * y < 0.0
  {
  }

  lemma {:induction false} ZeroFactor(k: nat)
    requires k >= 1
    ensures Pow(0.0, k) == 0.0
  {
  }

  lemma ShrinkingDrops(f: real, maxBackoff: real) returns (j: nat)
    requires 0.0 < f < 1.0 && maxBackoff > 0.0
    ensures j >= 1 && Backoff(f, maxBackoff, j, Some(429)) > Backoff(f, maxBackoff, j + 1, None)
  {
    EarnedIsPositive(1.0 - f, maxBackoff);
    var k := PowFallsBelow(f, maxBackoff, Earned(1.0 - f, maxBackoff), 0);
    PowFalls(f, k);
    PowFalls(f, k + 1);
    hide Pow, Earned, Backoff;
    j := ShrinkingFactorDrops(f, maxBackoff, k + 1);
  }

  /** The configurations whose backoff never decreases. */
  predicate GrowingBackoff(factor: real, maxBackoff: real) {
    && factor >= 0.0 && maxBackoff >= 0.0
    && (|| factor >= 2.0 || maxBackoff == 0.0 || factor == 0.0
        || (factor >= 1.0 && maxBackoff <= factor * factor * 0.5))
  }

  lemma DropsUnlessGrowing(factor: real, maxBackoff: real)
    requires !GrowingBackoff(factor, maxBackoff)
    ensures !NeverDecreases(factor, maxBackoff)
  {
    if factor < 0.0 || maxBackoff < 0.0 {
      NegativeValuesDrop(factor, maxBackoff);
      var k: nat, next: nat := 2, 3;
      hide Backoff;
      assert Backoff(factor, maxBackoff, k, None) > Backoff(factor, maxBackoff, next, Some(429));
    } else if factor >= 1.0 {
      FirstDrop(factor, maxBackoff);
    } else {
      var j := ShrinkingDrops(factor, maxBackoff);
      var next: nat := j + 1;
      hide Backoff;
      assert Backoff(factor, maxBackoff, j, Some(429)) > Backoff(factor, maxBackoff, next, None);
    }
  }

  /**
   Along a failure streak the backoff never decreases, whatever the error codes, exactly when the factor is at
   least two, or at least one with a ceiling that the second step reaches, or factor or ceiling is zero and the other
   not negative. For a factor of at least one it never leaves 0..maxBackoff.
   */
  lemma BackoffNeverDecreasesIff(factor: real, maxBackoff: real)
    ensures NeverDecreases(factor, maxBackoff) <==> GrowingBackoff(factor, maxBackoff)
    ensures factor >= 1.0 && maxBackoff >= 0.0 ==>
      forall k: nat, code :: 0.0 <= Backoff(factor, maxBackoff, k, code) <= maxBackoff
  {
    if factor >= 1.0 && maxBackoff >= 0.0 {
      forall k: nat, code ensures 0.0 <= Backoff(factor, maxBackoff, k, code) <= maxBackoff {
        BackoffRange(factor, maxBackoff, k, code);
      }
    }
    if !GrowingBackoff(factor, maxBackoff) {
      DropsUnlessGrowing(factor, maxBackoff);
    } else {
      forall k: nat, next: nat, a, b | 1 <= k && next == k + 1
        ensures Backoff(factor, maxBackoff, k, a) <= Backoff(factor, maxBackoff, next, b)
      {
        GrowingStep(factor, maxBackoff, k, a, b);
      }
    }
  }

  lemma {:induction false} PowNotNegative(f: real, k: nat)
    requires f >= 0.0
    ensures Pow(f, k) >= 0.0
  {
    if k > 0 {
      PowNotNegative(f, k - 1);
    }
  }

  lemma GrowingStep(factor: real, maxBackoff: real, k: nat, a: Option<int>, b: Option<int>)
    requires GrowingBackoff(factor, maxBackoff) && k >= 1
    ensures Backoff(factor, maxBackoff, k, a) <= Backoff(factor, maxBackoff, k + 1, b)
  {
    if factor >= 1.0 && (factor >= 2.0 || maxBackoff <= factor * factor * 0.5) {
      StreakStep(factor, maxBackoff, k, a, b);
    } else if factor == 0.0 {
      ZeroFactor(k);
      ZeroFactor(k + 1);
    } else {
      PowNotNegative(factor, k);
      PowNotNegative(factor, k + 1);
      hide Pow;
    }
  }
}
