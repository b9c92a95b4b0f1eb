/**
 Decisions about one address over a cache with a time to live. Any number of checkers, writers and invalidations
 interleave: a checker that missed the cache reads the database and stores its reading some time later. Keys and
 rows of other addresses are independent, so one address stands for all.
 */
module DecisionCache {
  import opened Common

  const CACHE_TTL := 300.0

  /** A NULL reason counts as an empty one. */
  datatype Entry = Entry(reason: string, source: string, detections: nat)

  datatype Db = Db(white: bool, entry: Option<Entry>)

  datatype Details = Details(source: string, detections: nat)

  datatype Answer = Answer(blocked: bool, reason: string, details: Option<Details>)

  /** A missing source or count has a default. */
  function DetailsOf(entry: Entry): Details {
    Details(if entry.source == "" then "unknown" else entry.source,
            if entry.detections == 0 then 1 else entry.detections)
  }

  function ListAnswer(entry: Option<Entry>): Answer {
    if entry.None? then Answer(false, "not_in_blacklist", None)
    else
      Answer(true, if entry.value.reason == "" then "blacklisted" else entry.value.reason,
             Some(DetailsOf(entry.value)))
  }

  /** What the caller is promised: every listed address is blocked, for the row's own reason if it has one. */
  predicate Tells(answer: Answer, entry: Option<Entry>) {
    && (answer.blocked <==> entry.Some?)
    && (entry.None? ==> answer == Answer(false, "not_in_blacklist", None))
    && (entry.Some? ==>
          && answer.reason == (if entry.value.reason != "" then entry.value.reason else "blacklisted")
          && answer.details.Some?
          && answer.details.value.source == (if entry.value.source != "" then entry.value.source else "unknown")
          && answer.details.value.detections == (if entry.value.detections > 0 then entry.value.detections else 1))
  }

  /** Listed is blocked, unless whitelisted, which comes first. */
  predicate Decides(answer: Answer, white: bool, entry: Option<Entry>) {
    && (answer.blocked <==> !white && entry.Some?)
    && if white then answer == Answer(false, "whitelisted", None) else Tells(answer, entry)
  }

  /** The procedure without a cache. */
  function Uncached(white: bool, entry: Option<Entry>): Answer {
    if white then Answer(false, "whitelisted", None) else ListAnswer(entry)
  }

  // --------------------------------------------------------------------------------- the system

  /** A value read from the database; `at` and `epoch` are history: no code looks at them. */
  datatype Reading<V> = Reading(value: V, at: real, epoch: nat)

  datatype Cached<V> = Cached(reading: Reading<V>, storedAt: real, storedEpoch: nat)

  datatype Epoch = Epoch(since: real, db: Db)

  /**
   `history` holds every state the rows of the address have had, the current one last; `invalidated` is the
   epoch of the last invalidation; `lag` bounds the time from a database reading to its store.
   */
  datatype System = System(
    now: real, lag: real, history: seq<Epoch>, invalidated: nat,
    whiteCache: Option<Cached<bool>>, listCache: Option<Cached<Answer>>,
    whiteReads: set<Reading<bool>>, listReads: set<Reading<Answer>>)

  datatype Step =
    | Pass(dt: real)
    | Write(db: Db)
    | Invalidate
    | ReadWhite
    | StoreWhite(w: Reading<bool>)
    | ReadList
    | StoreList(a: Reading<Answer>)

  function Last(s: System): int {
    |s.history| - 1
  }

  function Current(s: System): Db
    requires s.history != []
  {
    s.history[Last(s)].db
  }

  function WhiteNow(s: System): Reading<bool>
    requires s.history != []
  {
    Reading(Current(s).white, s.now, Last(s))
  }

  function ListNow(s: System): Reading<Answer>
    requires s.history != []
  {
    Reading(ListAnswer(Current(s).entry), s.now, Last(s))
  }

  predicate Hit<V>(s: System, c: Option<Cached<V>>) {
    c.Some? && s.now < c.value.storedAt + CACHE_TTL
  }

  predicate Enabled(s: System, step: Step) {
    && s.history != []
    && match step
       case Pass(dt) => dt >= 0.0
       case StoreWhite(w) => w in s.whiteReads && s.now - w.at <= s.lag
       case StoreList(a) => a in s.listReads && s.now - a.at <= s.lag
       case _ => true
  }

  function Apply(s: System, step: Step): System
    requires Enabled(s, step)
  {
    match step
    case Pass(dt) => s.(now := s.now + dt)
    case Write(db) => s.(history := s.history + [Epoch(s.now, db)])
    case Invalidate => s.(whiteCache := None, listCache := None, invalidated := Last(s))
    case ReadWhite => s.(whiteReads := s.whiteReads + {WhiteNow(s)})
    case ReadList => s.(listReads := s.listReads + {ListNow(s)})
    case StoreWhite(w) => s.(whiteCache := Some(Cached(w, s.now, Last(s))))
    case StoreList(a) => s.(listCache := Some(Cached(a, s.now, Last(s))))
  }

  predicate Initial(s: System) {
    && |s.history| == 1 && s.history[0].since == s.now && s.lag >= 0.0 && s.invalidated == 0
    && s.whiteCache.None? && s.listCache.None? && s.whiteReads == {} && s.listReads == {}
  }

  predicate Legal(s: System, steps: seq<Step>)
    decreases steps
  {
    steps == [] || (Enabled(s, steps[0]) && Legal(Apply(s, steps[0]), steps[1..]))
  }

  function After(s: System, steps: seq<Step>): System
    requires Legal(s, steps)
    decreases steps
  {
    if steps == [] then s else After(Apply(s, steps[0]), steps[1..])
  }

  ghost predicate Reachable(s: System) {
    exists s0, steps :: Initial(s0) && Legal(s0, steps) && After(s0, steps) == s
  }

  lemma {:induction false} RunsJoin(s: System, a: seq<Step>, b: seq<Step>)
    requires Legal(s, a) && Legal(After(s, a), b)
    ensures Legal(s, a + b) && After(s, a + b) == After(After(s, a), b)
    decreases a
  {
    if a == [] {
      assert a + b == b;
    } else {
      RunsJoin(Apply(s, a[0]), a[1..], b);
      assert (a + b)[1..] == a[1..] + b;
    }
  }

  lemma ReachableRun(s: System, steps: seq<Step>)
    requires Reachable(s) && Legal(s, steps)
    ensures Reachable(After(s, steps))
  {
    var s0, earlier :| Initial(s0) && Legal(s0, earlier) && After(s0, earlier) == s;
    RunsJoin(s0, earlier, steps);
  }

  lemma ReachableStep(s: System, step: Step)
    requires Reachable(s) && Enabled(s, step)
    ensures Reachable(Apply(s, step))
  {
    assert Legal(Apply(s, step), []) && [step][1..] == [];
    assert Legal(s, [step]) && After(s, [step]) == Apply(s, step);
    ReachableRun(s, [step]);
  }

  // ---------------------------------------------------------------------------------- invariants

  predicate InEpoch<V>(s: System, r: Reading<V>) {
    && r.epoch < |s.history| && s.history[r.epoch].since <= r.at <= s.now
    && (r.epoch + 1 < |s.history| ==> r.at <= s.history[r.epoch + 1].since)
  }

  /** The database did say this at that instant. */
  predicate TrueWhite(s: System, w: Reading<bool>) {
    InEpoch(s, w) && w.value == s.history[w.epoch].db.white
  }

  predicate TrueList(s: System, a: Reading<Answer>) {
    InEpoch(s, a) && a.value == ListAnswer(s.history[a.epoch].db.entry)
  }

  predicate WellStored<V>(s: System, c: Option<Cached<V>>) {
    c.Some? ==>
      && c.value.reading.epoch <= c.value.storedEpoch < |s.history| && s.invalidated <= c.value.storedEpoch
      && c.value.storedAt <= c.value.reading.at + s.lag
  }

  predicate Inv(s: System) {
    && s.history != [] && s.history[Last(s)].since <= s.now && s.lag >= 0.0 && s.invalidated < |s.history|
    && (forall w :: w in s.whiteReads ==> TrueWhite(s, w)) && (forall a :: a in s.listReads ==> TrueList(s, a))
    && (s.whiteCache.Some? ==> TrueWhite(s, s.whiteCache.value.reading)) && WellStored(s, s.whiteCache)
    && (s.listCache.Some? ==> TrueList(s, s.listCache.value.reading)) && WellStored(s, s.listCache)
  }

  /** What is past stays past: histories grow at their end and the clock does not go back. */
  predicate Later(s: System, t: System) {
    s.now <= t.now && s.lag == t.lag && s.history <= t.history
  }

  lemma TruthStays(s: System, step: Step)
    requires Inv(s) && Enabled(s, step)
    ensures forall w :: TrueWhite(s, w) ==> TrueWhite(Apply(s, step), w)
    ensures forall a :: TrueList(s, a) ==> TrueList(Apply(s, step), a)
  {
  }

  lemma NowIsTrue(s: System)
    requires Inv(s)
    ensures TrueWhite(s, WhiteNow(s)) && TrueList(s, ListNow(s))
  {
  }

  lemma InvStep(s: System, step: Step)
    requires Inv(s) && Enabled(s, step)
    ensures Inv(Apply(s, step)) && Later(s, Apply(s, step))
    ensures forall w :: TrueWhite(s, w) ==> TrueWhite(Apply(s, step), w)
    ensures forall a :: TrueList(s, a) ==> TrueList(Apply(s, step), a)
  {
    TruthStays(s, step);
    NowIsTrue(s);
    hide TrueWhite, TrueList;
  }

  lemma {:induction false} InvRun(s: System, steps: seq<Step>)
    requires Inv(s) && Legal(s, steps)
    ensures Inv(After(s, steps)) && Later(s, After(s, steps))
    ensures forall w :: TrueWhite(s, w) ==> TrueWhite(After(s, steps), w)
    ensures forall a :: TrueList(s, a) ==> TrueList(After(s, steps), a)
    decreases steps
  {
    if steps != [] {
      InvStep(s, steps[0]);
      hide Inv, TrueWhite, TrueList;
      InvRun(Apply(s, steps[0]), steps[1..]);
    }
  }

  lemma InvHolds(s: System)
    requires Reachable(s)
    ensures Inv(s)
  {
    var s0, steps :| Initial(s0) && Legal(s0, steps) && After(s0, steps) == s;
    InvRun(s0, steps);
  }

  // ------------------------------------------------------------------------------------ theorems

  /**
   Whatever interleaves, a hit serves what the database did say less than 300 s (and the store's own lag) ago.
   */
  lemma HitsAreRecentReadings(s: System)
    requires Reachable(s)
    ensures Hit(s, s.whiteCache) ==> var w := s.whiteCache.value.reading;
      TrueWhite(s, w) && s.now < w.at + 300.0 + s.lag
    ensures Hit(s, s.listCache) ==> var a := s.listCache.value.reading;
      TrueList(s, a) && s.now < a.at + 300.0 + s.lag
  {
    InvHolds(s);
  }

  /** Every write so far was followed by an invalidation. */
  predicate Clean(s: System) {
    s.invalidated == Last(s)
  }

  predicate Undisturbed<V>(c: Cached<V>) {
    c.reading.epoch == c.storedEpoch
  }

  /**
   Once every write has been followed by an invalidation, a cached reading is of the current rows exactly when no
   write fell between the checker's database reading and its store.
   */
  lemma CachedIsCurrentIff(s: System)
    requires Reachable(s) && Clean(s)
    ensures s.whiteCache.Some? ==>
      (s.whiteCache.value.reading.epoch == Last(s) <==> Undisturbed(s.whiteCache.value))
    ensures s.listCache.Some? ==> (s.listCache.value.reading.epoch == Last(s) <==> Undisturbed(s.listCache.value))
  {
    InvHolds(s);
  }

  /** Checks that no write interrupts: a store is of the rows as they still are. */
  predicate Atomic(s: System, steps: seq<Step>)
    requires Legal(s, steps)
    decreases steps
  {
    steps == [] || (
      && (steps[0].StoreWhite? ==> steps[0].w.epoch == Last(s))
      && (steps[0].StoreList? ==> steps[0].a.epoch == Last(s))
      && Atomic(Apply(s, steps[0]), steps[1..]))
  }

  predicate AllUndisturbed(s: System) {
    (s.whiteCache.Some? ==> Undisturbed(s.whiteCache.value)) && (s.listCache.Some? ==> Undisturbed(s.listCache.value))
  }

  lemma {:induction false} AtomicRun(s: System, steps: seq<Step>)
    requires Legal(s, steps) && Atomic(s, steps) && AllUndisturbed(s)
    ensures AllUndisturbed(After(s, steps))
    decreases steps
  {
    if steps != [] {
      AtomicRun(Apply(s, steps[0]), steps[1..]);
    }
  }

  /** What a checker finds: the cached value on a hit, else the database's. */
  function SeenWhite(s: System): bool
    requires s.history != []
  {
    if Hit(s, s.whiteCache) then s.whiteCache.value.reading.value else Current(s).white
  }

  function SeenList(s: System): Answer
    requires s.history != []
  {
    if Hit(s, s.listCache) then s.listCache.value.reading.value else ListAnswer(Current(s).entry)
  }

  function CachedAnswer(s: System): Answer
    requires s.history != []
  {
    if SeenWhite(s) then Answer(false, "whitelisted", None) else SeenList(s)
  }

  /** With atomic checks, and every write invalidated before the check, the cache makes no difference at all. */
  lemma CleanAnswerIsUncached(s0: System, steps: seq<Step>)
    requires Initial(s0) && Legal(s0, steps) && Atomic(s0, steps) && Clean(After(s0, steps))
    ensures After(s0, steps).history != []
    ensures CachedAnswer(After(s0, steps)) == Uncached(Current(After(s0, steps)).white, Current(After(s0, steps)).entry)
    ensures Decides(CachedAnswer(After(s0, steps)), Current(After(s0, steps)).white, Current(After(s0, steps)).entry)
  {
    var s := After(s0, steps);
    InvRun(s0, steps);
    AtomicRun(s0, steps);
    CachedIsCurrentIff(s);
  }

  lemma FourSteps(s: System, a: Step, b: Step, c: Step, d: Step) returns (t: System)
    requires Reachable(s) && Enabled(s, a) && Enabled(Apply(s, a), b) && Enabled(Apply(Apply(s, a), b), c)
    requires Enabled(Apply(Apply(Apply(s, a), b), c), d)
    ensures t == Apply(Apply(Apply(Apply(s, a), b), c), d) && Reachable(t)
  {
    ReachableStep(s, a);
    ReachableStep(Apply(s, a), b);
    ReachableStep(Apply(Apply(s, a), b), c);
    ReachableStep(Apply(Apply(Apply(s, a), b), c), d);
    t := Apply(Apply(Apply(Apply(s, a), b), c), d);
  }

  function Start(db: Db): System {
    System(0.0, 0.0, [Epoch(0.0, db)], 0, None, None, {}, {})
  }

  lemma StartIsReachable(db: Db)
    ensures Reachable(Start(db))
  {
    assert Initial(Start(db)) && Legal(Start(db), []) && After(Start(db), []) == Start(db);
  }

  /**
   Without atomic checks invalidation is not enough: a store that comes after it brings an old whitelisting back,
   and the block written before stays without effect for the whole time to live.
   */
  lemma LateStoreOutlivesInvalidation(e: Entry, t: real) returns (s: System)
    requires 0.0 <= t < 300.0
    ensures Reachable(s) && s.history != [] && Clean(s) && s.now == t && Current(s) == Db(false, Some(e))
    ensures CachedAnswer(s) == Answer(false, "whitelisted", None)
    ensures Decides(Uncached(Current(s).white, Current(s).entry), false, Some(e))
  {
    var s0 := Start(Db(true, None));
    StartIsReachable(s0.history[0].db);
    var w := WhiteNow(s0);
    var stored := FourSteps(s0, ReadWhite, Write(Db(false, Some(e))), Invalidate, StoreWhite(w));
    ReachableStep(stored, Pass(t));
    s := Apply(stored, Pass(t));
  }

  /**
   The two readings are of different ages, and that cannot be improved: an answer may be one that the procedure
   without a cache would have given at no moment of the whole history.
   */
  lemma AnswerOfNoMoment(e: Entry) returns (s: System)
    ensures Reachable(s) && s.history != [] && Decides(CachedAnswer(s), false, Some(e))
    ensures Current(s) == Db(true, Some(e))
    ensures forall i :: 0 <= i < |s.history| ==> !Uncached(s.history[i].db.white, s.history[i].db.entry).blocked
  {
    var s0 := Start(Db(false, None));
    StartIsReachable(s0.history[0].db);
    s := FourSteps(s0, ReadWhite, StoreWhite(WhiteNow(s0)), Write(Db(true, None)), Write(Db(true, Some(e))));
  }

  // ------------------------------------------------------------------------------------ the service

  /** `failures` counts the Redis calls of the service that raised, `errors` those of the database. */
  class World {
    var sys: System
    var failures: nat
    var errors: nat

    ghost predicate Valid()
      reads this
    {
      Reachable(sys)
    }

    method Take(step: Step)
      requires Valid() && Enabled(sys, step)
      modifies this`sys
      ensures Valid() && Inv(sys) && sys == Apply(old(sys), step) && Later(old(sys), sys)
      ensures forall w :: TrueWhite(old(sys), w) ==> TrueWhite(sys, w)
      ensures forall a :: TrueList(old(sys), a) ==> TrueList(sys, a)
    {
      InvHolds(sys);
      InvStep(sys, step);
      ReachableStep(sys, step);
      sys := Apply(sys, step);
    }

    /** Anything other checkers, writers and the clock may do, up to an instant if one is given. */
    method Others(until: Option<real>)
      requires Valid() && (until.Some? ==> sys.now <= until.value)
      modifies this`sys
      ensures Valid() && Inv(sys) && Later(old(sys), sys)
      ensures until.Some? ==> sys.now <= until.value
      ensures forall w :: TrueWhite(old(sys), w) ==> TrueWhite(sys, w)
      ensures forall a :: TrueList(old(sys), a) ==> TrueList(sys, a)
      ensures old(sys).whiteReads <= sys.whiteReads && old(sys).listReads <= sys.listReads
    {
      InvHolds(sys);
      assert Legal(sys, []) && After(sys, []) == sys;
      var steps: seq<Step> :| Legal(sys, steps) && (until.Some? ==> After(sys, steps).now <= until.value);
      InvRun(sys, steps);
      ReadsStay(sys, steps);
      ReachableRun(sys, steps);
      sys := After(sys, steps);
    }

    /** Redis calls may raise; without a client there are none. */
    method RedisAnswers(client: bool) returns (ok: bool)
      modifies this`failures
      ensures ok ==> client
      ensures failures == if client && !ok then old(failures) + 1 else old(failures)
    {
      var up: bool := *;
      ok := client && up;
      failures := if client && !up then failures + 1 else failures;
    }

    method DatabaseAnswers() returns (ok: bool)
      modifies this`errors
      ensures errors == if ok then old(errors) else old(errors) + 1
    {
      ok := *;
      errors := if ok then errors else errors + 1;
    }
  }

  lemma {:induction false} ReadsStay(s: System, steps: seq<Step>)
    requires Legal(s, steps)
    ensures s.whiteReads <= After(s, steps).whiteReads && s.listReads <= After(s, steps).listReads
    decreases steps
  {
    if steps != [] {
      ReadsStay(Apply(s, steps[0]), steps[1..]);
    }
  }

  class BlacklistService {
    const world: World
    const redisClient: bool

    constructor (world: World, redisClient: bool)
      ensures this.world == world && this.redisClient == redisClient
    {
      this.world, this.redisClient := world, redisClient;
    }

    /**
     The value is one the database had less than the time to live (and lag) before the call. As long as Redis
     answers, a live entry is used, and what is used is what the cache then holds. Without an answer of the database
     the address counts as not whitelisted, and nothing is stored.
     */
    method IsWhitelisted() returns (white: bool, ghost w: Option<Reading<bool>>)
      requires world.Valid()
      modifies world
      ensures world.Valid() && Inv(world.sys) && Later(old(world.sys), world.sys)
      ensures world.failures >= old(world.failures) && world.errors >= old(world.errors)
      ensures w.Some? <==> world.errors == old(world.errors)
      ensures if w.Some? then Recent(world.sys, old(world.sys), w.value) && white == w.value.value else !white
      ensures w.Some? && redisClient && world.failures == old(world.failures) ==>
        && Holds(world.sys.whiteCache, w.value)
        && (Live(old(world.sys), old(world.sys).whiteCache) ==> Holds(old(world.sys).whiteCache, w.value))
    {
      InvHolds(world.sys);
      var readable := world.RedisAnswers(redisClient);
      if readable && Hit(world.sys, world.sys.whiteCache) {
        HitsAreRecentReadings(world.sys);
        return world.sys.whiteCache.value.reading.value, Some(world.sys.whiteCache.value.reading);
      }
      world.Others(None);
      var read := world.DatabaseAnswers();
      if !read {
        return false, None;
      }
      var reading := ReadAndStoreWhite();
      white, w := reading.value, Some(reading);
    }

    method ReadAndStoreWhite() returns (reading: Reading<bool>)
      requires world.Valid() && Inv(world.sys)
      modifies world`sys, world`failures
      ensures world.Valid() && Inv(world.sys) && Later(old(world.sys), world.sys)
      ensures TrueWhite(world.sys, reading) && reading.at == old(world.sys).now
      ensures world.failures >= old(world.failures)
      ensures redisClient && world.failures == old(world.failures) ==> Holds(world.sys.whiteCache, reading)
    {
      NowIsTrue(world.sys);
      reading := WhiteNow(world.sys);
      hide Inv, InEpoch, TrueList;
      world.Take(ReadWhite);
      world.Others(Some(world.sys.now + world.sys.lag));
      var writable := world.RedisAnswers(redisClient);
      if writable {
        world.Take(StoreWhite(reading));
      }
    }

    /**
     Main result: when the database answers, the answer is the one the procedure without a cache gives on a whitelist
     state and a blacklist state that the database really had, each less than the time to live (and lag) before the
     call began. When it does not, a missing whitelist state counts as not listed and a missing blacklist state as
     not blocked.
     */
    method CheckBlacklist() returns (answer: Answer, ghost w: Option<Reading<bool>>, ghost a: Option<Reading<Answer>>)
      requires world.Valid()
      modifies world
      ensures world.Valid() && world.failures >= old(world.failures) && world.errors >= old(world.errors)
      ensures w.Some? ==> Recent(world.sys, old(world.sys), w.value)
      ensures a.Some? ==> RecentList(world.sys, old(world.sys), a.value)
      ensures world.errors == old(world.errors) ==> w.Some? && a.Some?
      ensures w.Some? && a.Some? ==>
        Decides(answer, world.sys.history[w.value.epoch].db.white, world.sys.history[a.value.epoch].db.entry)
      ensures w.None? && a.Some? ==> Tells(answer, world.sys.history[a.value.epoch].db.entry)
      ensures w.None? && a.None? ==> answer == Answer(false, "error", None)
      ensures w.Some? && !w.value.value && a.None? ==> answer == Answer(false, "error", None)
      ensures redisClient && world.failures == old(world.failures) && (w.Some? ==> !w.value.value) && a.Some? ==>
        Holds(world.sys.listCache, a.value)
    {
      var white;
      white, w := IsWhitelisted();
      if white {
        NowIsTrue(world.sys);
        a := Some(ListNow(world.sys));
        return Answer(false, "whitelisted", None), w, a;
      }
      world.Others(None);
      hide Inv, InEpoch, Reachable;
      answer, a := ListedAnswer();
    }

    /** The second half of the check: the blacklist, from the cache or the database. */
    method ListedAnswer() returns (answer: Answer, ghost a: Option<Reading<Answer>>)
      requires world.Valid() && Inv(world.sys)
      modifies world
      ensures world.Valid() && Later(old(world.sys), world.sys)
      ensures world.failures >= old(world.failures) && world.errors >= old(world.errors)
      ensures forall w :: TrueWhite(old(world.sys), w) ==> TrueWhite(world.sys, w)
      ensures a.Some? <==> world.errors == old(world.errors)
      ensures if a.Some? then RecentList(world.sys, old(world.sys), a.value) && answer == a.value.value
              else answer == Answer(false, "error", None)
      ensures a.Some? ==> Tells(answer, world.sys.history[a.value.epoch].db.entry)
      ensures a.Some? && redisClient && world.failures == old(world.failures) ==>
        && Holds(world.sys.listCache, a.value)
        && (Live(old(world.sys), old(world.sys).listCache) ==> Holds(old(world.sys).listCache, a.value))
    {
      var readable := world.RedisAnswers(redisClient);
      if readable && Hit(world.sys, world.sys.listCache) {
        HitsAreRecentReadings(world.sys);
        return world.sys.listCache.value.reading.value, Some(world.sys.listCache.value.reading);
      }
      world.Others(None);
      var read := world.DatabaseAnswers();
      if !read {
        return Answer(false, "error", None), None;
      }
      var reading := ReadAndStoreList();
      answer, a := reading.value, Some(reading);
    }

    method ReadAndStoreList() returns (reading: Reading<Answer>)
      requires world.Valid() && Inv(world.sys)
      modifies world`sys, world`failures
      ensures world.Valid() && Later(old(world.sys), world.sys) && world.failures >= old(world.failures)
      ensures forall w :: TrueWhite(old(world.sys), w) ==> TrueWhite(world.sys, w)
      ensures TrueList(world.sys, reading) && reading.at == old(world.sys).now
      ensures redisClient && world.failures == old(world.failures) ==> Holds(world.sys.listCache, reading)
    {
      NowIsTrue(world.sys);
      reading := ListNow(world.sys);
      hide Inv, InEpoch, TrueWhite;
      world.Take(ReadList);
      world.Others(Some(world.sys.now + world.sys.lag));
      var writable := world.RedisAnswers(redisClient);
      if writable {
        world.Take(StoreList(reading));
      }
    }

    /** `invalidate_ip_caches`: a delete that raises leaves both entries, and a write without its invalidation. */
    method InvalidateIpCaches() returns (ok: bool)
      requires world.Valid()
      modifies world`sys, world`failures
      ensures world.Valid() && Enabled(old(world.sys), Invalidate)
      ensures ok <==> world.failures == old(world.failures)
      ensures world.sys == if redisClient && ok then Apply(old(world.sys), Invalidate) else old(world.sys)
      ensures redisClient && ok ==>
        Clean(world.sys) && world.sys.whiteCache.None? && world.sys.listCache.None?
    {
      InvHolds(world.sys);
      var deleted := world.RedisAnswers(redisClient);
      ok := deleted || !redisClient;
      if deleted {
        world.Take(Invalidate);
      }
    }
  }

  /** True of the database, and less than the time to live and lag old when the call began. */
  predicate Recent(s: System, began: System, w: Reading<bool>) {
    TrueWhite(s, w) && began.now < w.at + 300.0 + s.lag
  }

  predicate RecentList(s: System, began: System, a: Reading<Answer>) {
    TrueList(s, a) && began.now < a.at + 300.0 + s.lag
  }

  /** Stored less than the time to live ago. */
  predicate Live<V>(s: System, c: Option<Cached<V>>) {
    c.Some? && s.now - c.value.storedAt < 300.0
  }

  predicate Holds<V(==)>(c: Option<Cached<V>>, r: Reading<V>) {
    c.Some? && c.value.reading == r
  }
}
