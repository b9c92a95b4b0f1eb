/**
 The login failure counters over the store: the first failure of a window sets its expiry, later ones only count,
 and a login is admitted while the live count is below the limit. A login checks the counter and records its failure
 in two steps; up to `logins` of them are in between.
 */
module LoginFailures {
  import opened Common

  const LOGIN_FAILURE_LIMIT := 5
  const LOGIN_LOCK_SECONDS := 900.0

  datatype Counter = Counter(count: nat, expiresAt: real)

  predicate Live(c: Option<Counter>, now: real) {
    c.Some? && now < c.value.expiresAt
  }

  predicate Locked(c: Option<Counter>, now: real) {
    Live(c, now) && c.value.count >= LOGIN_FAILURE_LIMIT
  }

  /** `increment_with_expiry`. */
  function Recorded(c: Option<Counter>, now: real): Counter {
    if Live(c, now) then c.value.(count := c.value.count + 1) else Counter(1, now + LOGIN_LOCK_SECONDS)
  }

  // -------------------------------------------------------------------------- logins on one key

  /** `inFlight` logins have passed the check and are not through. */
  datatype Key = Key(now: real, counter: Option<Counter>, inFlight: nat)

  /** A login that is through has failed, has succeeded and cleared the counter, or was cut short. */
  datatype Event = Check(at: real) | Fail(at: real) | Clear(at: real) | GiveUp(at: real)

  predicate Enabled(logins: nat, s: Key, e: Event) {
    && s.now <= e.at
    && match e
       case Check(at) => !Locked(s.counter, at) && s.inFlight < logins
       case _ => s.inFlight > 0
  }

  function Apply(logins: nat, s: Key, e: Event): Key
    requires Enabled(logins, s, e)
  {
    match e
    case Check(at) => s.(now := at, inFlight := s.inFlight + 1)
    case Fail(at) => Key(at, Some(Recorded(s.counter, at)), s.inFlight - 1)
    case Clear(at) => Key(at, None, s.inFlight - 1)
    case GiveUp(at) => s.(now := at, inFlight := s.inFlight - 1)
  }

  predicate Legal(logins: nat, s: Key, events: seq<Event>)
    decreases events
  {
    events == [] || (Enabled(logins, s, events[0]) && Legal(logins, Apply(logins, s, events[0]), events[1..]))
  }

  function After(logins: nat, s: Key, events: seq<Event>): Key
    requires Legal(logins, s, events)
    decreases events
  {
    if events == [] then s else After(logins, Apply(logins, s, events[0]), events[1..])
  }

  /** Failures one window can hold: those that lock, and those of logins admitted before the last of these. */
  function Capacity(logins: nat): nat
    requires logins >= 1
  {
    LOGIN_FAILURE_LIMIT - 1 + logins
  }

  /** What is counted and what may still be counted never exceed the capacity together. */
  predicate Sound(logins: nat, s: Key)
    requires logins >= 1
  {
    && s.inFlight <= logins && (s.counter.Some? ==> s.counter.value.count >= 1)
    && (Live(s.counter, s.now) ==> s.counter.value.count + s.inFlight <= Capacity(logins))
  }

  lemma SoundStep(logins: nat, s: Key, e: Event)
    requires logins >= 1 && Sound(logins, s) && Enabled(logins, s, e)
    ensures Sound(logins, Apply(logins, s, e))
  {
  }

  lemma {:induction false} SoundRun(logins: nat, s: Key, events: seq<Event>)
    requires logins >= 1 && Sound(logins, s) && Legal(logins, s, events)
    ensures Sound(logins, After(logins, s, events)) && After(logins, s, events).now >= s.now
    decreases events
  {
    if events != [] {
      SoundStep(logins, s, events[0]);
      SoundRun(logins, Apply(logins, s, events[0]), events[1..]);
    }
  }

  predicate NoSuccess(events: seq<Event>) {
    forall i :: 0 <= i < |events| ==> !events[i].Clear?
  }

  /** When the failures were recorded. */
  function Failures(events: seq<Event>): seq<real> {
    if events == [] then [] else (if events[0].Fail? then [events[0].at] else []) + Failures(events[1..])
  }

  // ----------------------------------------------------------- failures, with a capacity per window

  /** Failures, in clock order, none of which found its window full. */
  predicate Fit(capacity: nat, c: Option<Counter>, from: real, failures: seq<real>)
    decreases failures
  {
    failures == [] ||
    (from <= failures[0] && !(Live(c, failures[0]) && c.value.count >= capacity)
     && Fit(capacity, Some(Recorded(c, failures[0])), failures[0], failures[1..]))
  }

  lemma {:induction false} EarlierStart(capacity: nat, c: Option<Counter>, from: real, later: real, failures: seq<real>)
    requires Fit(capacity, c, later, failures) && from <= later
    ensures Fit(capacity, c, from, failures)
  {
  }

  /** The failures of any run of checks and records fit. */
  lemma {:induction false} FailuresFit(logins: nat, s: Key, events: seq<Event>)
    requires logins >= 1 && Sound(logins, s) && Legal(logins, s, events) && NoSuccess(events)
    ensures Fit(Capacity(logins), s.counter, s.now, Failures(events))
    decreases events
  {
    if events != [] {
      var e, rest := events[0], events[1..];
      SoundStep(logins, s, e);
      FailuresFit(logins, Apply(logins, s, e), rest);
      if e.Fail? {
        assert ([e.at] + Failures(rest))[1..] == Failures(rest);
      } else {
        assert [] + Failures(rest) == Failures(rest);
        EarlierStart(Capacity(logins), s.counter, s.now, e.at, Failures(rest));
      }
    }
  }

  lemma {:induction false} Ascending(capacity: nat, c: Option<Counter>, from: real, failures: seq<real>, i: nat, j: nat)
    requires Fit(capacity, c, from, failures) && i <= j < |failures|
    ensures from <= failures[i] <= failures[j]
    decreases failures
  {
    if j > 0 {
      var next := Some(Recorded(c, failures[0]));
      Ascending(capacity, next, failures[0], failures[1..], if i > 0 then i - 1 else 0, j - 1);
    }
  }

  /** A live counter leaves room for the rest of its window before it expires. */
  lemma {:induction false} WindowFills(capacity: nat, c: Counter, from: real, failures: seq<real>)
    requires Fit(capacity, Some(c), from, failures) && c.count <= capacity && |failures| > capacity - c.count
    ensures failures[capacity - c.count] >= c.expiresAt
    decreases capacity - c.count
  {
    if failures[0] >= c.expiresAt {
      Ascending(capacity, Some(c), from, failures, 0, capacity - c.count);
    } else {
      WindowFills(capacity, Recorded(Some(c), failures[0]), failures[0], failures[1..]);
    }
  }

  /** Failures a live counter still takes before its window is full. */
  function Room(capacity: nat, c: Option<Counter>, now: real): int {
    if Live(c, now) then capacity - c.value.count else 0
  }

  /** The rest of the current window and one full window, then the lock period is over. */
  lemma {:induction false} RestAndOneWindow(capacity: nat, c: Option<Counter>, from: real, failures: seq<real>)
    requires capacity >= 1 && Fit(capacity, c, from, failures) && failures != []
    requires |failures| > Room(capacity, c, failures[0]) + capacity
    ensures 0 <= Room(capacity, c, failures[0])
      && failures[Room(capacity, c, failures[0]) + capacity] >= failures[0] + LOGIN_LOCK_SECONDS
    decreases failures
  {
    if !Live(c, failures[0]) {
      WindowFills(capacity, Recorded(c, failures[0]), failures[0], failures[1..]);
    } else {
      var next, rest := Some(Recorded(c, failures[0])), failures[1..];
      var room := Room(capacity, c, failures[0]);
      RestAndOneWindow(capacity, next, failures[0], rest);
      var k := Room(capacity, next, rest[0]) + capacity;
      Ascending(capacity, next, failures[0], rest, k, room + capacity - 1);
    }
  }

  // ------------------------------------------------------------------------------------ theorems

  /** What is left of one window, and one window more. */
  lemma TwoWindowsTakeALockPeriod(capacity: nat, c: Option<Counter>, from: real, failures: seq<real>)
    requires capacity >= 1 && Fit(capacity, c, from, failures) && |failures| >= 2 * capacity
    requires c.Some? ==> c.value.count >= 1
    ensures failures[2 * capacity - 1] - failures[0] >= LOGIN_LOCK_SECONDS
  {
    RestAndOneWindow(capacity, c, from, failures);
    Ascending(capacity, c, from, failures, Room(capacity, c, failures[0]) + capacity, 2 * capacity - 1);
  }

  /**
   Main result: with up to `logins` logins between check and record, any 2 * (4 + logins) failures of one key
   without a success take at least a whole lock period.
   */
  lemma FailuresTakeALockPeriod(logins: nat, s: Key, events: seq<Event>, i: nat, j: nat)
    requires logins >= 1 && Sound(logins, s) && Legal(logins, s, events) && NoSuccess(events)
    requires j < |Failures(events)| && i + 2 * (4 + logins) - 1 <= j
    ensures Failures(events)[j] - Failures(events)[i] >= 900.0
  {
    assert s.counter.Some? ==> s.counter.value.count >= 1;
    hide Sound, Legal, NoSuccess, Failures, Fit, Counted;
    var f, k := Failures(events), Capacity(logins);
    FailuresFit(logins, s, events);
    SuffixFits(k, s.counter, s.now, f, i);
    TwoWindowsTakeALockPeriod(k, Counted(s.counter, f[..i]), if i == 0 then s.now else f[i - 1], f[i..]);
    Ascending(k, s.counter, s.now, f, i + 2 * k - 1, j);
  }

  function Counted(c: Option<Counter>, failures: seq<real>): Option<Counter>
    decreases failures
  {
    if failures == [] then c else Counted(Some(Recorded(c, failures[0])), failures[1..])
  }

  lemma {:induction false} SuffixFits(capacity: nat, c: Option<Counter>, from: real, failures: seq<real>, i: nat)
    requires Fit(capacity, c, from, failures) && i <= |failures| && (c.Some? ==> c.value.count >= 1)
    ensures Fit(capacity, Counted(c, failures[..i]), if i == 0 then from else failures[i - 1], failures[i..])
    ensures Counted(c, failures[..i]).Some? ==> Counted(c, failures[..i]).value.count >= 1
    decreases failures
  {
    if i > 0 {
      SuffixFits(capacity, Some(Recorded(c, failures[0])), failures[0], failures[1..], i - 1);
      assert failures[..i][1..] == failures[1..][..i - 1];
      assert failures[i..] == failures[1..][i - 1..];
    } else {
      assert failures[..0] == [] && failures[0..] == failures;
    }
  }

  // ----------------------------------------------------------------------------- the bound is reached

  function Repeat<T>(x: T, n: nat): seq<T> {
    if n == 0 then [] else [x] + Repeat(x, n - 1)
  }

  lemma {:induction false} RepeatJoins<T>(x: T, m: nat, n: nat)
    ensures Repeat(x, m) + Repeat(x, n) == Repeat(x, m + n)
    decreases m
  {
    if m > 0 {
      RepeatJoins(x, m - 1, n);
    }
  }

  lemma {:induction false} AllRepeat<T>(x: T, n: nat)
    ensures |Repeat(x, n)| == n && forall i :: 0 <= i < n ==> Repeat(x, n)[i] == x
  {
    if n > 0 {
      AllRepeat(x, n - 1);
    }
  }

  lemma {:induction false} RunsJoin(logins: nat, s: Key, a: seq<Event>, b: seq<Event>)
    requires Legal(logins, s, a)
    ensures Legal(logins, s, a + b) <==> Legal(logins, After(logins, s, a), b)
    ensures Legal(logins, s, a + b) ==> After(logins, s, a + b) == After(logins, After(logins, s, a), b)
    decreases a
  {
    if a == [] {
      assert a + b == b;
    } else {
      hide Enabled, Apply;
      RunsJoin(logins, Apply(logins, s, a[0]), a[1..], b);
      assert (a + b)[1..] == a[1..] + b;
    }
  }

  lemma {:induction false} PrefixIsLegal(logins: nat, s: Key, a: seq<Event>, b: seq<Event>)
    requires Legal(logins, s, a + b)
    ensures Legal(logins, s, a)
    decreases a
  {
    if a != [] {
      hide Enabled, Apply;
      assert (a + b)[1..] == a[1..] + b;
      PrefixIsLegal(logins, Apply(logins, s, a[0]), a[1..], b);
    }
  }

  lemma {:induction false} FailuresJoin(a: seq<Event>, b: seq<Event>)
    ensures Failures(a + b) == Failures(a) + Failures(b)
    decreases a
  {
    if a == [] {
      assert a + b == b;
    } else {
      FailuresJoin(a[1..], b);
      var own := if a[0].Fail? then [a[0].at] else [];
      assert (a + b)[1..] == a[1..] + b;
      assert own + (Failures(a[1..]) + Failures(b)) == (own + Failures(a[1..])) + Failures(b);
    }
  }

  lemma Joined(logins: nat, s: Key, a: seq<Event>, b: seq<Event>)
    requires Legal(logins, s, a) && Legal(logins, After(logins, s, a), b) && NoSuccess(a) && NoSuccess(b)
    ensures Legal(logins, s, a + b) && After(logins, s, a + b) == After(logins, After(logins, s, a), b)
    ensures NoSuccess(a + b) && Failures(a + b) == Failures(a) + Failures(b)
  {
    RunsJoin(logins, s, a, b);
    FailuresJoin(a, b);
  }

  function LiveCount(c: Option<Counter>, now: real): nat {
    if Live(c, now) then c.value.count else 0
  }

  /** As many logins as given check, and as many of those in flight fail, at one instant. */
  lemma {:induction false} AllCheck(logins: nat, s: Key, at: real, n: nat)
    requires s.now <= at && !Locked(s.counter, at) && s.inFlight + n <= logins
    ensures Legal(logins, s, Repeat(Check(at), n)) && NoSuccess(Repeat(Check(at), n))
    ensures Failures(Repeat(Check(at), n)) == []
    ensures n > 0 ==> After(logins, s, Repeat(Check(at), n)) == s.(now := at, inFlight := s.inFlight + n)
    decreases n
  {
    if n > 0 {
      AllCheck(logins, Apply(logins, s, Check(at)), at, n - 1);
      assert Repeat(Check(at), n)[1..] == Repeat(Check(at), n - 1);
    }
  }

  lemma {:induction false} AllFail(logins: nat, s: Key, at: real, n: nat)
    requires s.now <= at && n <= s.inFlight
    ensures Legal(logins, s, Repeat(Fail(at), n)) && NoSuccess(Repeat(Fail(at), n))
    ensures Failures(Repeat(Fail(at), n)) == Repeat(at, n)
    ensures n > 0 ==> After(logins, s, Repeat(Fail(at), n)) == Key(at, Some(Counter(LiveCount(s.counter, at) + n,
      if Live(s.counter, at) then s.counter.value.expiresAt else at + LOGIN_LOCK_SECONDS)), s.inFlight - n)
    decreases n
  {
    if n > 0 {
      AllFail(logins, Apply(logins, s, Fail(at)), at, n - 1);
      assert Repeat(Fail(at), n)[1..] == Repeat(Fail(at), n - 1);
      assert [at] + Repeat(at, n - 1) == Repeat(at, n);
    }
  }

  /** So many logins check together and then fail together. */
  lemma Burst(logins: nat, s: Key, at: real, n: nat) returns (events: seq<Event>)
    requires s.now <= at && !Locked(s.counter, at) && s.inFlight == 0 && 1 <= n <= logins
    ensures Legal(logins, s, events) && NoSuccess(events) && Failures(events) == Repeat(at, n)
    ensures After(logins, s, events) == Key(at, Some(Counter(LiveCount(s.counter, at) + n,
      if Live(s.counter, at) then s.counter.value.expiresAt else at + LOGIN_LOCK_SECONDS)), 0)
  {
    AllCheck(logins, s, at, n);
    var mid := After(logins, s, Repeat(Check(at), n));
    AllFail(logins, mid, at, n);
    Joined(logins, s, Repeat(Check(at), n), Repeat(Fail(at), n));
    events := Repeat(Check(at), n) + Repeat(Fail(at), n);
    assert [] + Repeat(at, n) == Repeat(at, n);
  }

  /** A window is filled at one instant: one by one up to the last free place, then all logins together. */
  lemma {:induction false} FillWindow(logins: nat, s: Key, at: real) returns (events: seq<Event>)
    requires logins >= 1 && s.now <= at && s.inFlight == 0 && LiveCount(s.counter, at) < LOGIN_FAILURE_LIMIT
    ensures Legal(logins, s, events) && NoSuccess(events)
    ensures Failures(events) == Repeat(at, Capacity(logins) - LiveCount(s.counter, at))
    ensures After(logins, s, events) == Key(at, Some(Counter(Capacity(logins),
      if Live(s.counter, at) then s.counter.value.expiresAt else at + LOGIN_LOCK_SECONDS)), 0)
    decreases LOGIN_FAILURE_LIMIT - LiveCount(s.counter, at)
  {
    hide Legal, After;
    if LiveCount(s.counter, at) == LOGIN_FAILURE_LIMIT - 1 {
      events := Burst(logins, s, at, logins);
    } else {
      var first := Burst(logins, s, at, 1);
      var rest := FillWindow(logins, After(logins, s, first), at);
      Joined(logins, s, first, rest);
      RepeatJoins(at, 1, Capacity(logins) - LiveCount(s.counter, at) - 1);
      events := first + rest;
    }
  }

  /** Twice the capacity, all but the first of them within half a second: the bound cannot be improved. */
  lemma BoundIsReached(logins: nat) returns (events: seq<Event>)
    requires logins >= 1
    ensures Legal(logins, Key(0.0, None, 0), events) && NoSuccess(events)
    ensures |Failures(events)| == 2 * Capacity(logins)
    ensures Failures(events)[0] == 0.0
    ensures forall i :: 1 <= i < 2 * Capacity(logins) ==> 899.5 <= Failures(events)[i] <= 900.0
  {
    var s, k := Key(0.0, None, 0), Capacity(logins);
    var first := Burst(logins, s, 0.0, 1);
    var s1 := After(logins, s, first);
    var second := FillWindow(logins, s1, 899.5);
    var s2 := After(logins, s1, second);
    var third := FillWindow(logins, s2, 900.0);
    Joined(logins, s, first, second);
    Joined(logins, s, first + second, third);
    events := first + second + third;
    AllRepeat(0.0, 1);
    AllRepeat(899.5, k - 1);
    AllRepeat(900.0, k);
    assert Failures(events) == Repeat(0.0, 1) + Repeat(899.5, k - 1) + Repeat(900.0, k);
  }

  ghost predicate TenFailuresTakeALockPeriod(logins: nat) {
    forall events: seq<Event>, i: nat | Legal(logins, Key(0.0, None, 0), events) && NoSuccess(events)
      && i + 9 < |Failures(events)| :: Failures(events)[i + 9] - Failures(events)[i] >= LOGIN_LOCK_SECONDS
  }

  /** Ten failures, twice the limit, take a lock period exactly when logins come one at a time. */
  lemma TenFailuresIff(logins: nat)
    requires logins >= 1
    ensures TenFailuresTakeALockPeriod(logins) <==> logins == 1
  {
    if logins == 1 {
      forall events: seq<Event>, i: nat | Legal(logins, Key(0.0, None, 0), events) && NoSuccess(events)
        && i + 9 < |Failures(events)|
        ensures Failures(events)[i + 9] - Failures(events)[i] >= LOGIN_LOCK_SECONDS
      {
        FailuresTakeALockPeriod(logins, Key(0.0, None, 0), events, i, i + 9);
      }
    } else {
      var events := BoundIsReached(logins);
      var i: nat := 1;
      assert Failures(events)[i + 9] - Failures(events)[i] < LOGIN_LOCK_SECONDS;
    }
  }

  // ------------------------------------------------------------------------------- the counters kept

  /** Keys hash the case-folded user name, with and without the client's address; hashes do not collide. */
  datatype LoginKey = PerClient(username: string, ip: string) | PerAccount(username: string)

  lemma OneMore(logins: nat, s: Key, events: seq<Event>, e: Event)
    requires Legal(logins, s, events) && Enabled(logins, After(logins, s, events), e)
    ensures Legal(logins, s, events + [e])
    ensures After(logins, s, events + [e]) == Apply(logins, After(logins, s, events), e)
    ensures Failures(events + [e]) == if e.Fail? then Failures(events) + [e.at] else Failures(events)
  {
    var t := After(logins, s, events);
    assert Legal(logins, Apply(logins, t, e), []) && [e][1..] == [];
    assert Legal(logins, t, [e]) && After(logins, t, [e]) == Apply(logins, t, e);
    RunsJoin(logins, s, events, [e]);
    FailuresJoin(events, [e]);
    assert Failures([e]) == if e.Fail? then [e.at] else [];
  }

  /** The counter is the count of the latest failures, from the one that opened the window. */
  predicate CountsLatest(c: Option<Counter>, failures: seq<real>) {
    c.Some? ==>
      && 1 <= c.value.count <= |failures|
      && c.value.expiresAt == failures[|failures| - c.value.count] + LOGIN_LOCK_SECONDS
  }

  predicate Sorted(failures: seq<real>, now: real) {
    && (forall i, j :: 0 <= i < j < |failures| ==> failures[i] <= failures[j])
    && forall i :: 0 <= i < |failures| ==> failures[i] <= now
  }

  /** At least as many failures as lock were recorded within one lock period before now. */
  predicate Deserved(failures: seq<real>, now: real) {
    |failures| >= 5 && failures[|failures| - 5] > now - 900.0
  }

  lemma LockIsDeserved(c: Option<Counter>, failures: seq<real>, now: real)
    requires CountsLatest(c, failures) && Sorted(failures, now) && Locked(c, now)
    ensures Deserved(failures, now)
  {
  }

  /** The state of a key after its events so far, and what it has to do with them. */
  ghost predicate Follows(logins: nat, born: real, events: seq<Event>, entry: Option<Counter>, now: real) {
    && logins >= 1 && Legal(logins, Key(born, None, 0), events)
    && var s := After(logins, Key(born, None, 0), events);
       && s.counter == entry && s.now <= now && Sound(logins, s)
       && CountsLatest(entry, Failures(events)) && Sorted(Failures(events), s.now)
  }

  lemma FollowsOn(logins: nat, born: real, events: seq<Event>, entry: Option<Counter>, now: real, e: Event)
    requires Follows(logins, born, events, entry, now) && e.at == now
    requires Enabled(logins, After(logins, Key(born, None, 0), events), e)
    ensures var s := Apply(logins, After(logins, Key(born, None, 0), events), e);
      Follows(logins, born, events + [e], s.counter, now)
      && After(logins, Key(born, None, 0), events + [e]) == s
  {
    var s := After(logins, Key(born, None, 0), events);
    OneMore(logins, Key(born, None, 0), events, e);
    SoundStep(logins, s, e);
  }

  /** One failure more in a window that is still open, or the first of a new one of fifteen minutes. */
  predicate OneFailureMore(before: Option<Counter>, after: Counter, now: real) {
    if before.Some? && now < before.value.expiresAt
    then after.count == before.value.count + 1 && after.expiresAt == before.value.expiresAt
    else after.count == 1 && after.expiresAt == now + 900.0
  }

  /** The store, and what every key has seen; `events` is history. */
  class AuthSecurity {
    const logins: nat
    var now: real
    var store: map<LoginKey, Counter>
    ghost const born: real
    ghost var events: map<LoginKey, seq<Event>>

    function Entry(key: LoginKey): Option<Counter>
      reads this
    {
      if key in store then Some(store[key]) else None
    }

    ghost function Events(key: LoginKey): seq<Event>
      reads this
    {
      if key in events then events[key] else []
    }

    ghost predicate Fine(key: LoginKey)
      reads this
    {
      Follows(logins, born, Events(key), Entry(key), now)
    }

    ghost predicate Valid()
      reads this
    {
      logins >= 1 && forall key :: Fine(key)
    }

    ghost function State(key: LoginKey): Key
      requires Fine(key)
      reads this
    {
      After(logins, Key(born, None, 0), Events(key))
    }

    constructor (now: real, logins: nat)
      requires logins >= 1
      ensures Valid() && this.now == now && this.logins == logins && events == map[]
    {
      this.now, this.logins, this.store, this.born, this.events := now, logins, map[], now, map[];
    }

    method TimePasses(seconds: real)
      requires Valid() && seconds >= 0.0
      modifies this`now
      ensures Valid() && now == old(now) + seconds
    {
      now := now + seconds;
      forall key ensures Fine(key) {
        assert old(Fine(key));
      }
    }

    /** An event of one key that touches no counter: a login passes the check, or is cut short. */
    ghost method Note(key: LoginKey, e: Event)
      requires Valid() && e.at == now && Enabled(logins, State(key), e) && (e.Check? || e.GiveUp?)
      modifies this`events
      ensures Valid() && events == old(events)[key := old(Events(key)) + [e]]
      ensures State(key) == Apply(logins, old(State(key)), e)
    {
      assert Fine(key);
      FollowsOn(logins, born, Events(key), Entry(key), now, e);
      events := events[key := Events(key) + [e]];
      forall other ensures Fine(other) {
        assert old(Fine(other));
      }
    }

    /** `increment_with_expiry`, whatever has become of the counter since the check. */
    method Increment(key: LoginKey)
      requires Valid() && State(key).inFlight > 0
      modifies this`store, this`events
      ensures Valid() && events == old(events)[key := old(Events(key)) + [Fail(now)]]
      ensures store == old(store)[key := Recorded(old(Entry(key)), now)]
      ensures OneFailureMore(if key in old(store) then Some(old(store)[key]) else None, store[key], now)
      ensures State(key).inFlight == old(State(key)).inFlight - 1
    {
      assert Fine(key);
      FollowsOn(logins, born, Events(key), Entry(key), now, Fail(now));
      events := events[key := Events(key) + [Fail(now)]];
      store := store[key := Recorded(Entry(key), now)];
      forall other ensures Fine(other) {
        assert old(Fine(other));
      }
    }

    method Delete(key: LoginKey)
      requires Valid() && State(key).inFlight > 0
      modifies this`store, this`events
      ensures Valid() && events == old(events)[key := old(Events(key)) + [Clear(now)]]
      ensures store == old(store) - {key} && State(key).inFlight == old(State(key)).inFlight - 1
    {
      assert Fine(key);
      FollowsOn(logins, born, Events(key), Entry(key), now, Clear(now));
      events := events[key := Events(key) + [Clear(now)]];
      store := store - {key};
      forall other ensures Fine(other) {
        assert old(Fine(other));
      }
    }

    /**
     The check. A refusal is deserved: on one of the two keys at least five failures were recorded within the last
     lock period. A login that is let in is in flight on both keys until it is through.
     */
    method IsLoginLocked(username: string, ip: string) returns (locked: bool)
      requires Valid() && State(PerClient(username, ip)).inFlight < logins
      requires State(PerAccount(username)).inFlight < logins
      modifies this`events
      ensures Valid()
      ensures locked <==>
        (exists key :: key in {PerClient(username, ip), PerAccount(username)} && key in store
          && now < store[key].expiresAt && store[key].count >= 5)
      ensures locked ==> events == old(events)
      ensures locked ==>
        || Deserved(Failures(Events(PerClient(username, ip))), now)
        || Deserved(Failures(Events(PerAccount(username))), now)
      ensures !locked ==> !Locked(Entry(PerClient(username, ip)), now) && !Locked(Entry(PerAccount(username)), now)
      ensures !locked ==> events == old(events)
        [PerClient(username, ip) := old(Events(PerClient(username, ip))) + [Check(now)]]
        [PerAccount(username) := old(Events(PerAccount(username))) + [Check(now)]]
    {
      var client, account := PerClient(username, ip), PerAccount(username);
      assert Fine(client) && Fine(account);
      if Locked(Entry(client), now) {
        LockIsDeserved(Entry(client), Failures(Events(client)), now);
        return true;
      }
      if Locked(Entry(account), now) {
        LockIsDeserved(Entry(account), Failures(Events(account)), now);
        return true;
      }
      Note(client, Check(now));
      Note(account, Check(now));
      locked := false;
    }

    /** A failure counts for the client and for the account, also on a counter that others have locked meanwhile. */
    method RecordLoginFailure(username: string, ip: string)
      requires Valid() && State(PerClient(username, ip)).inFlight > 0 && State(PerAccount(username)).inFlight > 0
      modifies this`store, this`events
      ensures Valid() && store.Keys == old(store).Keys + {PerClient(username, ip), PerAccount(username)}
      ensures forall key :: key in {PerClient(username, ip), PerAccount(username)} ==>
        OneFailureMore(if key in old(store) then Some(old(store)[key]) else None, store[key], now)
      ensures forall key :: key in old(store) && key !in {PerClient(username, ip), PerAccount(username)} ==>
        store[key] == old(store)[key]
      ensures events == old(events)
        [PerClient(username, ip) := old(Events(PerClient(username, ip))) + [Fail(now)]]
        [PerAccount(username) := old(Events(PerAccount(username))) + [Fail(now)]]
    {
      Increment(PerClient(username, ip));
      Increment(PerAccount(username));
    }

    method ClearLoginFailures(username: string, ip: string)
      requires Valid() && State(PerClient(username, ip)).inFlight > 0 && State(PerAccount(username)).inFlight > 0
      modifies this`store, this`events
      ensures Valid() && store == old(store) - {PerClient(username, ip), PerAccount(username)}
      ensures events == old(events)
        [PerClient(username, ip) := old(Events(PerClient(username, ip))) + [Clear(now)]]
        [PerAccount(username) := old(Events(PerAccount(username))) + [Clear(now)]]
    {
      Delete(PerClient(username, ip));
      Delete(PerAccount(username));
    }

    /**
     Whatever addresses they come from, twice the capacity of failures on one account without a success between take
     a lock period: ten with one login at a time, sixteen with four.
     */
    lemma AccountFailuresAreSpaced(username: string, before: seq<Event>, stretch: seq<Event>, i: nat)
      requires Valid() && Events(PerAccount(username)) == before + stretch && NoSuccess(stretch)
      requires i + 2 * Capacity(logins) <= |Failures(stretch)|
      ensures Failures(stretch)[i + 2 * Capacity(logins) - 1] - Failures(stretch)[i] >= 900.0
    {
      assert Fine(PerAccount(username));
      var s := Key(born, None, 0);
      PrefixIsLegal(logins, s, before, stretch);
      RunsJoin(logins, s, before, stretch);
      SoundRun(logins, s, before);
      FailuresTakeALockPeriod(logins, After(logins, s, before), stretch, i, i + 2 * Capacity(logins) - 1);
    }
  }
}
