/**
 The Cloudflare list listener as a state machine.

 One `System` value holds the listener's own fields, its program counter, and the world it talks to:
 the committed tables, the two halves of the notification queue (bytes still on the socket, and the
 `notifies` list the driver has already filled), the remote list and the replacements under way to it.
 Every `Step` is one piece of listener code between two outside calls, or one move of the outside world
 (a commit, time passing, a replacement that lands or is dropped, a crash), so commits land anywhere,
 also between the fetch and the end of a push, and a replacement may land long after the listener has
 given it up. The account applies the replacements it applies in the order in which they were sent.
 */
module CloudflareSync {
  import opened Common

  const RATE_LIMIT_SECONDS := 60.0
  const RETRY_BACKOFF_SECONDS := 60.0
  const IDLE_TIMEOUT_SECONDS := 30.0
  const MAX_CHANGE_RATIO := 0.30
  const GUARD_MIN_BASELINE := 50

  // -------------------------------------------------------------------------------- the world

  /** Rows of the active view in address order (one per source), and the active whitelist. */
  datatype Tables = Tables(active: seq<string>, whitelisted: set<string>)

  function WithoutWhitelisted(rows: seq<string>, whitelisted: set<string>): seq<string> {
    if rows == [] then []
    else (if rows[0] in whitelisted then [] else [rows[0]]) + WithoutWhitelisted(rows[1..], whitelisted)
  }

  function Publishable(t: Tables): seq<string> {
    WithoutWhitelisted(t.active, t.whitelisted)
  }

  /** What the list endpoint reports: the item count, and the age of the last change when readable. */
  datatype ListState = ListState(count: int, age: Option<real>)

  /** A bulk replace that was sent, by which process, when that had read the list's age, and when it landed. */
  datatype Attempt = Attempt(at: real, process: nat, readAt: Option<real>, landedAt: Option<real>)

  /** A replacement under way. */
  datatype Operation = Operation(ips: seq<string>, attempt: nat)

  datatype Outcome =
    | NoAttempt | RateLimited | StateUnavailable | RecentlyModified | NothingToPublish
    | GuardStopped | PushFailed | Published

  /** Who called `sync_now`: the head of the loop, or the handler of a notification. */
  datatype Caller = FromLoop | FromHandler

  datatype Pc =
    | Down
    | AtTop
    | AtSelect
    | InSelect(until: real)
    | AtDrain
    | AtRateCheck(caller: Caller)
    | AtStateRead(caller: Caller)
    | AtFetch(caller: Caller, count: int, readAt: Option<real>)
    | AtRows(caller: Caller, count: int, readAt: Option<real>, ips: seq<string>)
    | AtGuard(caller: Caller, count: int, readAt: Option<real>, ips: seq<string>)
    | AtPush(caller: Caller, ips: seq<string>)

  /**
   History: `turns` of the loop, `syncs` attempted, notifications `handled`; `late`, the time spent in `select`
   since the deadline of the deferred sync, and whether that had been `missed` when `select` was entered.
   */
  datatype System = System(
    now: real, tables: Tables, socket: seq<string>, notifies: seq<string>,
    remote: seq<string>, modifiedAt: real, ops: seq<Operation>,
    pc: Pc, pending: bool, retryAt: real, lastUpdate: real,
    last: Outcome, process: nat, attempts: seq<Attempt>, turns: nat, syncs: nat, handled: nat,
    late: real, missed: bool)

  // ------------------------------------------------------------------- pure pieces of the listener

  predicate WithinChangeGuard(current: int, proposed: nat) {
    current < GUARD_MIN_BASELINE ||
    (if proposed >= current then proposed - current else current - proposed) as real / current as real
      <= MAX_CHANGE_RATIO
  }

  predicate SyncDue(pending: bool, retryAt: real, now: real) {
    pending && now >= retryAt
  }

  function SelectTimeoutFor(pending: bool, retryAt: real, now: real): real {
    if !pending then IDLE_TIMEOUT_SECONDS else Max(1.0, Min(IDLE_TIMEOUT_SECONDS, retryAt - now))
  }

  function Resume(caller: Caller): Pc {
    match caller
    case FromLoop => AtSelect
    case FromHandler => AtDrain
  }

  predicate InSync(pc: Pc) {
    pc.AtRateCheck? || pc.AtStateRead? || pc.AtFetch? || pc.AtRows? || pc.AtGuard? || pc.AtPush?
  }

  predicate Queued(s: System) {
    s.socket != [] || s.notifies != []
  }

  /** `_defer_sync`: keep the change pending; `lag` is the time until its own clock reading. */
  function Defer(s: System, lag: real, seconds: real, why: Outcome): System
    requires InSync(s.pc)
  {
    s.(now := s.now + lag, pending := true, retryAt := s.now + lag + Max(1.0, seconds),
       pc := Resume(s.pc.caller), last := why, late := 0.0, missed := false)
  }

  // ------------------------------------------------------------------------------------- steps

  datatype Step =
    | Wait(dt: real)
    | Commit(tables: Tables, payload: string)
    | Land
    | Drop(i: nat)
    | Crash
    | Start(newProcess: bool)
    | CheckDue
    | EnterSelect
    | SelectTimedOut
    | SelectReady
    | PopNotify
    | DrainDone
    | CheckRate(lag: real)
    | ReadState(reply: Option<ListState>, lag: real)
    | QueryIps(readable: bool)
    | ReceiveRows(delivered: nat, lag: real)
    | ApplyGuard
    | FinishPush(ok: bool, lag: real)

  predicate Enabled(s: System, step: Step) {
    match step
    case Wait(dt) => dt >= 0.0 && (s.pc.InSelect? ==> s.now + dt <= s.pc.until)
    case Commit(_, _) => true
    case Land => s.ops != [] && s.ops[0].attempt < |s.attempts|
    case Drop(i) => i < |s.ops|
    case Crash => s.pc != Down
    case Start(_) => s.pc == Down
    case CheckDue => s.pc == AtTop
    case EnterSelect => s.pc == AtSelect
    case SelectTimedOut => s.pc.InSelect? && s.now >= s.pc.until
    case SelectReady => s.pc.InSelect? && s.socket != []
    case PopNotify => s.pc == AtDrain && s.notifies != []
    case DrainDone => s.pc == AtDrain && s.notifies == []
    case CheckRate(lag) => s.pc.AtRateCheck? && lag >= 0.0
    case ReadState(reply, lag) =>
      && s.pc.AtStateRead? && lag >= 0.0
      && (reply.Some? && reply.value.age.Some? ==> reply.value.age.value == s.now - s.modifiedAt)
    case QueryIps(_) => s.pc.AtFetch?
    case ReceiveRows(delivered, lag) => s.pc.AtRows? && delivered <= |s.socket| && lag >= 0.0
    case ApplyGuard => s.pc.AtGuard?
    case FinishPush(ok, lag) =>
      && s.pc.AtPush? && lag >= 0.0
      && (ok ==> s.attempts != [] && s.attempts[|s.attempts| - 1].landedAt.Some?)
  }

  /** How much of the time from `now` to `later` is after the deadline. */
  function Overdue(now: real, later: real, deadline: real): real {
    Max(0.0, later - Max(now, deadline))
  }

  function Apply(s: System, step: Step): System
    requires Enabled(s, step)
  {
    match step
    case Wait(dt) =>
      s.(now := s.now + dt,
         late := s.late + if s.pc.InSelect? && s.pending then Overdue(s.now, s.now + dt, s.retryAt) else 0.0)
    case Commit(tables, payload) =>
      if s.pc == Down then s.(tables := tables)
      else s.(tables := tables, socket := s.socket + [payload])
    case Land =>
      var k := s.ops[0].attempt;
      s.(remote := s.ops[0].ips, modifiedAt := s.now, ops := s.ops[1..],
         attempts := s.attempts[k := s.attempts[k].(landedAt := Some(s.now))])
    case Drop(i) => s.(ops := s.ops[..i] + s.ops[i + 1..])
    case Crash => s.(pc := Down)
    case Start(newProcess) =>
      s.(pc := AtTop, pending := true, retryAt := 0.0, socket := [], notifies := [], late := 0.0, missed := false,
         lastUpdate := if newProcess then 0.0 else s.lastUpdate,
         process := if newProcess then s.process + 1 else s.process)
    case CheckDue =>
      s.(pc := if SyncDue(s.pending, s.retryAt, s.now) then AtRateCheck(FromLoop) else AtSelect, turns := s.turns + 1)
    case EnterSelect =>
      s.(pc := InSelect(s.now + SelectTimeoutFor(s.pending, s.retryAt, s.now)),
         missed := s.pending && s.now >= s.retryAt)
    case SelectTimedOut => s.(pc := AtTop)
    case SelectReady => s.(pc := AtDrain, notifies := s.notifies + s.socket, socket := [])
    case PopNotify =>
      s.(pc := AtRateCheck(FromHandler), notifies := s.notifies[1..], pending := true, retryAt := 0.0,
         handled := s.handled + 1, late := 0.0, missed := false)
    case DrainDone => s.(pc := AtTop)
    case CheckRate(lag) =>
      var elapsed, tried := s.now - s.lastUpdate, s.(syncs := s.syncs + 1);
      if elapsed < RATE_LIMIT_SECONDS then Defer(tried, lag, RATE_LIMIT_SECONDS - elapsed, RateLimited)
      else tried.(pc := AtStateRead(s.pc.caller))
    case ReadState(reply, lag) =>
      if reply.None? then Defer(s, lag, RETRY_BACKOFF_SECONDS, StateUnavailable)
      else if reply.value.age.Some? && reply.value.age.value < RATE_LIMIT_SECONDS then
        Defer(s, lag, RATE_LIMIT_SECONDS - reply.value.age.value, RecentlyModified)
      else s.(pc := AtFetch(s.pc.caller, reply.value.count, if reply.value.age.Some? then Some(s.now) else None))
    case QueryIps(readable) =>
      s.(pc := AtRows(s.pc.caller, s.pc.count, s.pc.readAt, if readable then Publishable(s.tables) else []))
    case ReceiveRows(delivered, lag) =>
      var read := s.(notifies := s.notifies + s.socket[..delivered], socket := s.socket[delivered..]);
      if s.pc.ips == [] then Defer(read, lag, RETRY_BACKOFF_SECONDS, NothingToPublish)
      else read.(pc := AtGuard(s.pc.caller, s.pc.count, s.pc.readAt, s.pc.ips))
    case ApplyGuard =>
      if !WithinChangeGuard(s.pc.count, |s.pc.ips|) then
        s.(pending := false, pc := Resume(s.pc.caller), last := GuardStopped, late := 0.0, missed := false)
      else
        s.(lastUpdate := s.now, pc := AtPush(s.pc.caller, s.pc.ips),
           ops := s.ops + [Operation(s.pc.ips, |s.attempts|)],
           attempts := s.attempts + [Attempt(s.now, s.process, s.pc.readAt, None)])
    case FinishPush(ok, lag) =>
      if ok then s.(pending := false, pc := Resume(s.pc.caller), last := Published, late := 0.0, missed := false)
      else Defer(s, lag, RETRY_BACKOFF_SECONDS, PushFailed)
  }

  // -------------------------------------------------------------------------------------- runs

  /** Nothing running yet; tables and remote list are arbitrary. */
  predicate Initial(s: System) {
    && s.pc == Down && !s.pending && s.lastUpdate == 0.0 && s.now >= 0.0 && s.modifiedAt <= s.now
    && s.attempts == [] && s.ops == [] && s.late == 0.0
  }

  predicate Legal(s: System, steps: seq<Step>)
    decreases steps
  {
    steps == [] || (Enabled(s, steps[0]) && Legal(Apply(s, steps[0]), steps[1..]))
  }

  function After(s: System, steps: seq<Step>): System
    requires Legal(s, steps)
    decreases steps
  {
    if steps == [] then s else After(Apply(s, steps[0]), steps[1..])
  }

  ghost predicate Reachable(s: System) {
    exists s0, steps :: Initial(s0) && Legal(s0, steps) && After(s0, steps) == s
  }

  lemma {:induction false} OneMoreStep(s0: System, steps: seq<Step>, step: Step)
    requires Legal(s0, steps) && Enabled(After(s0, steps), step)
    ensures Legal(s0, steps + [step]) && After(s0, steps + [step]) == Apply(After(s0, steps), step)
    decreases steps
  {
    if steps == [] {
      assert Legal(Apply(s0, step), []);
    } else {
      OneMoreStep(Apply(s0, steps[0]), steps[1..], step);
      assert (steps + [step])[1..] == steps[1..] + [step];
    }
  }

  lemma ReachableStep(s: System, step: Step)
    requires Reachable(s) && Enabled(s, step)
    ensures Reachable(Apply(s, step))
  {
    var s0, steps :| Initial(s0) && Legal(s0, steps) && After(s0, steps) == s;
    OneMoreStep(s0, steps, step);
  }

  // -------------------------------------------------------------------- safety: no change is lost

  /** The remote list is right, or the listener still knows it has work, or the size guard refused it. */
  predicate NoLostChange(s: System) {
    s.pc != Down ==>
      || s.remote == Publishable(s.tables)
      || s.pending
      || Queued(s)
      || s.last == GuardStopped
  }

  /** The newest replacement is the last under way, and once it has landed none is. */
  predicate NewestIsLast(s: System) {
    && (forall i :: 0 <= i < |s.ops| ==> s.ops[i].attempt < |s.attempts|)
    && (s.pc.AtPush? ==>
          && s.attempts != []
          && (s.attempts[|s.attempts| - 1].landedAt.Some? ==> s.remote == s.pc.ips && s.ops == [])
          && (forall i :: 0 <= i < |s.ops| && s.ops[i].attempt == |s.attempts| - 1 ==>
                i == |s.ops| - 1 && s.ops[i].ips == s.pc.ips))
  }

  /** A listener at rest has no replacement under way that could still spoil the list, or was stopped by the guard. */
  predicate SafetyInv(s: System) {
    && NoLostChange(s) && NewestIsLast(s)
    && (s.pc != Down && !s.pending ==> s.last == GuardStopped || s.ops == [])
    && (InSync(s.pc) ==> s.pending)
    && (s.pc.AtRows? && s.pc.ips != [] ==> s.pc.ips == Publishable(s.tables) || Queued(s))
    && (s.pc.AtGuard? || s.pc.AtPush? ==> s.pc.ips == Publishable(s.tables) || Queued(s))
  }

  predicate OutsideStep(step: Step) {
    step.Wait? || step.Commit? || step.Land? || step.Drop? || step.Crash? || step.Start?
  }

  predicate LoopStep(step: Step) {
    || step.CheckDue? || step.EnterSelect? || step.SelectTimedOut? || step.SelectReady? || step.PopNotify?
    || step.DrainDone?
  }

  lemma SafetyOutside(s: System, step: Step)
    requires SafetyInv(s) && Enabled(s, step) && OutsideStep(step)
    ensures SafetyInv(Apply(s, step))
  {
  }

  lemma SafetyLoop(s: System, step: Step)
    requires SafetyInv(s) && Enabled(s, step) && LoopStep(step)
    ensures SafetyInv(Apply(s, step))
  {
  }

  lemma SafetyFetch(s: System, step: Step)
    requires SafetyInv(s) && Enabled(s, step) && (step.CheckRate? || step.ReadState? || step.QueryIps?)
    ensures SafetyInv(Apply(s, step))
  {
    hide WithinChangeGuard, Publishable;
  }

  lemma SafetyReceive(s: System, step: Step)
    requires SafetyInv(s) && Enabled(s, step) && step.ReceiveRows?
    ensures SafetyInv(Apply(s, step))
  {
    hide WithinChangeGuard, Publishable;
    var n := step.delivered;
    assert s.notifies + s.socket[..n] == [] && s.socket[n..] == [] <==> !Queued(s);
  }

  lemma SafetyPush(s: System, step: Step)
    requires SafetyInv(s) && Enabled(s, step) && (step.ApplyGuard? || step.FinishPush?)
    ensures SafetyInv(Apply(s, step))
  {
    hide WithinChangeGuard, Publishable;
  }

  lemma SafetyStep(s: System, step: Step)
    requires SafetyInv(s) && Enabled(s, step)
    ensures SafetyInv(Apply(s, step))
  {
    if OutsideStep(step) {
      SafetyOutside(s, step);
    } else if LoopStep(step) {
      SafetyLoop(s, step);
    } else if step.ApplyGuard? || step.FinishPush? {
      SafetyPush(s, step);
    } else if step.ReceiveRows? {
      SafetyReceive(s, step);
    } else {
      SafetyFetch(s, step);
    }
  }

  lemma {:induction false} SafetyRun(s: System, steps: seq<Step>)
    requires SafetyInv(s) && Legal(s, steps)
    ensures SafetyInv(After(s, steps))
    decreases steps
  {
    if steps != [] {
      SafetyStep(s, steps[0]);
      SafetyRun(Apply(s, steps[0]), steps[1..]);
    }
  }

  /** Main result: over every run, with commits, failures and restarts anywhere, no change is lost. */
  lemma NoChangeIsEverLost(s: System)
    requires Reachable(s)
    ensures NoLostChange(s)
  {
    var s0, steps :| Initial(s0) && Legal(s0, steps) && After(s0, steps) == s;
    SafetyRun(s0, steps);
  }

  lemma {:induction false} PublishableMembers(rows: seq<string>, whitelisted: set<string>, ip: string)
    ensures ip in WithoutWhitelisted(rows, whitelisted) <==> ip in rows && ip !in whitelisted
  {
    if rows != [] {
      PublishableMembers(rows[1..], whitelisted, ip);
      assert ip in rows <==> ip == rows[0] || ip in rows[1..];
    }
  }

  /** A listener with nothing left to do and no refusal on record has published exactly the right addresses. */
  lemma SettledListIsExact(s: System, ip: string)
    requires Reachable(s) && s.pc != Down && !s.pending && !Queued(s) && s.last != GuardStopped
    ensures ip in s.remote <==> ip in s.tables.active && ip !in s.tables.whitelisted
  {
    NoChangeIsEverLost(s);
    PublishableMembers(s.tables.active, s.tables.whitelisted, ip);
  }

  /** An empty list is never sent: it is more likely a failure than the state of the tables. */
  predicate NothingEmptySent(s: System) {
    && (s.pc.AtGuard? || s.pc.AtPush? ==> s.pc.ips != [])
    && forall i :: 0 <= i < |s.ops| ==> s.ops[i].ips != []
  }

  lemma {:induction false} NothingEmptyRun(s: System, steps: seq<Step>)
    requires NothingEmptySent(s) && Legal(s, steps)
    ensures NothingEmptySent(After(s, steps))
    ensures s.remote != [] ==> After(s, steps).remote != []
    decreases steps
  {
    if steps != [] {
      NothingEmptyStep(s, steps[0]);
      NothingEmptyRun(Apply(s, steps[0]), steps[1..]);
    }
  }

  lemma NothingEmptyStep(s: System, step: Step)
    requires NothingEmptySent(s) && Enabled(s, step)
    ensures NothingEmptySent(Apply(s, step)) && (s.remote != [] ==> Apply(s, step).remote != [])
  {
    hide WithinChangeGuard, Publishable;
    if step.Land? || step.Drop? || step.ApplyGuard? {
      OperationsStayFilled(s, step);
    } else {
      assert Apply(s, step).ops == s.ops && Apply(s, step).remote == s.remote;
    }
  }

  lemma OperationsStayFilled(s: System, step: Step)
    requires NothingEmptySent(s) && Enabled(s, step) && (step.Land? || step.Drop? || step.ApplyGuard?)
    ensures NothingEmptySent(Apply(s, step)) && (s.remote != [] ==> Apply(s, step).remote != [])
  {
    hide WithinChangeGuard, Publishable;
  }

  /** So in no run does the listener replace a list that has addresses by one that has none. */
  lemma ListIsNeverEmptied(s: System, steps: seq<Step>)
    requires Reachable(s) && s.remote != [] && Legal(s, steps)
    ensures After(s, steps).remote != []
  {
    var s0, earlier :| Initial(s0) && Legal(s0, earlier) && After(s0, earlier) == s;
    NothingEmptyRun(s0, earlier);
    NothingEmptyRun(s, steps);
  }

  // -------------------------------------------------------------------- timing: spacing and retries

  /** The later process can know about the earlier attempt: it is the same process, or the list told. */
  predicate Limits(earlier: Attempt, later: Attempt) {
    || earlier.process == later.process
    || (later.readAt.Some? && LandedBefore(earlier, later.readAt.value))
  }

  predicate LandedBefore(a: Attempt, instant: real) {
    a.landedAt.Some? && a.landedAt.value < instant
  }

  predicate Spaced(attempts: seq<Attempt>) {
    forall i, j | 0 <= i < j < |attempts| && Limits(attempts[i], attempts[j]) ::
      attempts[j].at - attempts[i].at >= RATE_LIMIT_SECONDS
  }

  predicate AttemptsRecorded(s: System) {
    forall i :: 0 <= i < |s.attempts| ==>
      && s.attempts[i].process <= s.process && s.attempts[i].at <= s.now
      && (s.attempts[i].process == s.process ==> s.attempts[i].at <= s.lastUpdate)
      && (s.attempts[i].readAt.Some? ==> s.attempts[i].readAt.value <= s.attempts[i].at)
      && (s.attempts[i].landedAt.Some? ==> s.attempts[i].at <= s.attempts[i].landedAt.value <= s.modifiedAt)
  }

  /** What had landed before the list's age was read is a window old. */
  predicate ReadingHolds(s: System) {
    (s.pc.AtFetch? || s.pc.AtRows? || s.pc.AtGuard?) && s.pc.readAt.Some? ==>
      && s.pc.readAt.value <= s.now
      && forall i | 0 <= i < |s.attempts| && LandedBefore(s.attempts[i], s.pc.readAt.value) ::
           s.attempts[i].at <= s.pc.readAt.value - RATE_LIMIT_SECONDS
  }

  predicate PassedRateCheck(pc: Pc) {
    pc.AtStateRead? || pc.AtFetch? || pc.AtRows? || pc.AtGuard?
  }

  predicate ClockInv(s: System) {
    && 0.0 <= s.lastUpdate <= s.now && s.modifiedAt <= s.now
    && (PassedRateCheck(s.pc) ==> s.now - s.lastUpdate >= RATE_LIMIT_SECONDS)
    && (s.pc != Down && !InSync(s.pc) && s.pending && s.retryAt != 0.0 ==>
          s.retryAt >= s.lastUpdate + RATE_LIMIT_SECONDS)
    && (s.pc == AtRateCheck(FromLoop) && s.retryAt != 0.0 ==> s.now >= s.lastUpdate + RATE_LIMIT_SECONDS)
  }

  predicate AttemptsInv(s: System) {
    && Spaced(s.attempts) && AttemptsRecorded(s) && ReadingHolds(s)
    && forall i :: 0 <= i < |s.ops| ==> s.ops[i].attempt < |s.attempts|
  }

  predicate TimingInv(s: System) {
    ClockInv(s) && AttemptsInv(s)
  }

  lemma ClockOutside(s: System, step: Step)
    requires ClockInv(s) && Enabled(s, step) && OutsideStep(step)
    ensures ClockInv(Apply(s, step))
  {
  }

  lemma ClockLoop(s: System, step: Step)
    requires ClockInv(s) && Enabled(s, step) && LoopStep(step)
    ensures ClockInv(Apply(s, step))
  {
  }

  lemma ClockSync(s: System, step: Step)
    requires ClockInv(s) && Enabled(s, step) && !OutsideStep(step) && !LoopStep(step)
    ensures ClockInv(Apply(s, step))
  {
    hide Publishable, WithinChangeGuard;
  }

  lemma ClockStep(s: System, step: Step)
    requires ClockInv(s) && Enabled(s, step)
    ensures ClockInv(Apply(s, step))
  {
    if OutsideStep(step) {
      ClockOutside(s, step);
    } else if LoopStep(step) {
      ClockLoop(s, step);
    } else {
      ClockSync(s, step);
    }
  }

  /** Sending: the new attempt is a window away from every attempt it could know about. */
  lemma SendKeepsAttempts(s: System)
    requires TimingInv(s) && s.pc.AtGuard?
    ensures AttemptsInv(Apply(s, ApplyGuard))
  {
    hide WithinChangeGuard, Publishable;
  }

  /** Reading the age: what has landed so far is a window old, or the sync is put off. */
  lemma ReadingKeepsAttempts(s: System, step: Step)
    requires TimingInv(s) && Enabled(s, step) && step.ReadState?
    ensures AttemptsInv(Apply(s, step))
  {
    hide Spaced;
  }

  /** Landing marks an attempt with an instant that no reading so far is later than. */
  lemma LandingKeepsAttempts(s: System)
    requires TimingInv(s) && Enabled(s, Land)
    ensures AttemptsInv(Apply(s, Land))
  {
  }

  lemma AttemptsOutside(s: System, step: Step)
    requires TimingInv(s) && Enabled(s, step) && OutsideStep(step)
    ensures AttemptsInv(Apply(s, step))
  {
    if step.Land? {
      LandingKeepsAttempts(s);
    }
  }

  lemma AttemptsSync(s: System, step: Step)
    requires TimingInv(s) && Enabled(s, step) && !OutsideStep(step) && !LoopStep(step)
    ensures AttemptsInv(Apply(s, step))
  {
    hide Publishable, WithinChangeGuard;
    if step.ApplyGuard? {
      SendKeepsAttempts(s);
    } else if step.ReadState? {
      ReadingKeepsAttempts(s, step);
    } else {
      assert Apply(s, step).attempts == s.attempts;
      hide Spaced;
    }
  }

  lemma AttemptsStep(s: System, step: Step)
    requires TimingInv(s) && Enabled(s, step)
    ensures AttemptsInv(Apply(s, step))
  {
    if OutsideStep(step) {
      AttemptsOutside(s, step);
    } else if !LoopStep(step) {
      AttemptsSync(s, step);
    }
  }

  lemma {:induction false} TimingRun(s: System, steps: seq<Step>)
    requires TimingInv(s) && Legal(s, steps)
    ensures TimingInv(After(s, steps))
    decreases steps
  {
    if steps != [] {
      ClockStep(s, steps[0]);
      AttemptsStep(s, steps[0]);
      TimingRun(Apply(s, steps[0]), steps[1..]);
    }
  }

  lemma TimingHolds(s: System)
    requires Reachable(s)
    ensures TimingInv(s)
  {
    var s0, steps :| Initial(s0) && Legal(s0, steps) && After(s0, steps) == s;
    TimingRun(s0, steps);
  }

  /** Main result: the rate limit holds between any two replacements of any run, failed ones included. */
  lemma PushesAreSpaced(s: System, i: nat, j: nat)
    requires Reachable(s) && i < j < |s.attempts|
    requires Limits(s.attempts[i], s.attempts[j])
    ensures s.attempts[j].at - s.attempts[i].at >= 60.0
  {
    TimingHolds(s);
  }

  /** A retry taken because its deadline passed never meets the local rate limit again, whatever deferred it. */
  lemma DeferredRetryIsNeverRateLimited(s: System, lag: real)
    requires Reachable(s) && s.pc == AtRateCheck(FromLoop) && s.retryAt != 0.0 && lag >= 0.0
    ensures Apply(s, CheckRate(lag)).pc == AtStateRead(FromLoop)
  {
    TimingHolds(s);
  }

  /** From the head of the loop past the local rate limit. */
  lemma PassRateLimit(s: System) returns (t: System)
    requires Reachable(s) && s.pc == AtTop && SyncDue(s.pending, s.retryAt, s.now)
    requires s.now - s.lastUpdate >= RATE_LIMIT_SECONDS
    ensures Reachable(t) && t == s.(pc := AtStateRead(FromLoop), turns := s.turns + 1, syncs := s.syncs + 1)
  {
    hide Publishable, WithinChangeGuard;
    ReachableStep(s, CheckDue);
    t := Apply(s, CheckDue);
    ReachableStep(t, CheckRate(0.0));
    t := Apply(t, CheckRate(0.0));
  }

  /** One undisturbed pass from the head of the loop until the rows of the fetch have been read. */
  lemma ReadRows(s: System, ageKnown: bool) returns (t: System)
    requires Reachable(s) && s.pc == AtTop && SyncDue(s.pending, s.retryAt, s.now)
    requires s.now - s.lastUpdate >= RATE_LIMIT_SECONDS
    requires ageKnown ==> s.now - s.modifiedAt >= RATE_LIMIT_SECONDS
    ensures Reachable(t) && t ==
      s.(pc := AtRows(FromLoop, 0, if ageKnown then Some(s.now) else None, Publishable(s.tables)),
         turns := s.turns + 1, syncs := s.syncs + 1)
  {
    hide Publishable, WithinChangeGuard;
    t := PassRateLimit(s);
    var reply := Some(ListState(0, if ageKnown then Some(t.now - t.modifiedAt) else None));
    ReachableStep(t, ReadState(reply, 0.0));
    t := Apply(t, ReadState(reply, 0.0));
    ReachableStep(t, QueryIps(true));
    t := Apply(t, QueryIps(true));
  }

  /** From the rows to a replacement on its way, taking over `delivered` notifications with the rows. */
  lemma SendRows(s: System, delivered: nat) returns (t: System)
    requires Reachable(s) && s.pc.AtRows? && s.pc.count == 0 && s.pc.ips != [] && delivered <= |s.socket|
    ensures Reachable(t)
    ensures t == s.(pc := AtPush(s.pc.caller, s.pc.ips), lastUpdate := s.now,
                    notifies := s.notifies + s.socket[..delivered], socket := s.socket[delivered..],
                    ops := s.ops + [Operation(s.pc.ips, |s.attempts|)],
                    attempts := s.attempts + [Attempt(s.now, s.process, s.pc.readAt, None)])
  {
    ReachableStep(s, ReceiveRows(delivered, 0.0));
    t := Apply(s, ReceiveRows(delivered, 0.0));
    ReachableStep(t, ApplyGuard);
    t := Apply(t, ApplyGuard);
  }

  lemma FirstStart() returns (s: System)
    ensures Reachable(s) && s.pc == AtTop && s.pending && s.retryAt == 0.0 && s.now == 100.0
    ensures s.lastUpdate == 0.0 && s.modifiedAt == 0.0 && s.attempts == [] && s.ops == [] && s.process == 1
    ensures s.socket == [] && s.notifies == [] && s.tables == Tables(["198.51.100.7"], {})
    ensures Publishable(s.tables) == ["198.51.100.7"] && s.late == 0.0
  {
    var s0 := System(100.0, Tables(["198.51.100.7"], {}), [], [], [], 0.0, [], Down, false, 0.0, 0.0, NoAttempt, 0, [],
      0, 0, 0, 0.0, false);
    assert Legal(s0, []) && After(s0, []) == s0;
    ReachableStep(s0, Start(true));
    s := Apply(s0, Start(true));
    assert ["198.51.100.7"][1..] == [];
  }

  /** Crash and start of a new process. */
  lemma Restart(s: System) returns (t: System)
    requires Reachable(s) && s.pc != Down
    ensures Reachable(t)
    ensures t == s.(pc := AtTop, pending := true, retryAt := 0.0, socket := [], notifies := [], late := 0.0,
                    missed := false, lastUpdate := 0.0, process := s.process + 1)
  {
    ReachableStep(s, Crash);
    t := Apply(s, Crash);
    ReachableStep(t, Start(true));
    t := Apply(t, Start(true));
  }

  /** The first process has sent its first replacement. */
  lemma FirstSend() returns (s: System)
    ensures Reachable(s) && s.pc != Down && s.now == 100.0 && s.modifiedAt == 0.0 && |s.attempts| == |s.ops| == 1
    ensures s.attempts[0] == Attempt(100.0, 1, None, None) && s.ops[0].attempt == 0 && s.process == 1
    ensures Publishable(s.tables) == ["198.51.100.7"]
  {
    s := FirstStart();
    s := ReadRows(s, false);
    s := SendRows(s, 0);
  }

  datatype Landing = Never | BeforeTheReading | AfterTheReading

  /**
   The spacing across a restart is exactly what `Limits` grants: when the earlier replacement never reached the
   list, or did so only after the later process had read its state, or the age could not be read, two sends zero
   seconds apart are reachable.
   */
  lemma RestartBreaksSpacing(landing: Landing, ageKnown: bool) returns (s: System)
    requires !(landing == BeforeTheReading && ageKnown)
    ensures Reachable(s) && |s.attempts| == 2
    ensures s.attempts[0].process != s.attempts[1].process && s.attempts[1].at == s.attempts[0].at
    ensures s.attempts[0].landedAt.Some? <==> landing != Never
    ensures s.attempts[1].readAt.Some? <==> ageKnown
  {
    s := FirstSend();
    hide Publishable, Reachable;
    s := Restart(s);
    if landing == BeforeTheReading {
      s := Landed(s);
    }
    s := ReadRows(s, ageKnown);
    s := SendRows(s, 0);
    if landing == AfterTheReading {
      s := Landed(s);
    }
  }

  /** The replacement of the first send lands. */
  lemma Landed(s: System) returns (t: System)
    requires Reachable(s) && s.ops != [] && s.ops[0].attempt == 0 && s.attempts != []
    ensures Reachable(t)
    ensures t == s.(remote := s.ops[0].ips, modifiedAt := s.now, ops := s.ops[1..], attempts := t.attempts)
    ensures |t.attempts| == |s.attempts| && t.attempts[0] == s.attempts[0].(landedAt := Some(s.now))
    ensures t.attempts[1..] == s.attempts[1..]
  {
    ReachableStep(s, Land);
    t := Apply(s, Land);
  }

  // --------------------------------------------------------------------------- liveness of the queue

  /** Idle at the head of the loop or at `select`, with nothing on the socket to wake it. */
  predicate Quiet(s: System) {
    (s.pc == AtTop || s.pc == AtSelect || s.pc.InSelect?) && !s.pending && s.socket == []
  }

  /**
   Until the next commit, landing or restart a quiet listener does nothing but turn: only the clock and the
   program counter move. In particular `notifies` is never looked at, because the timeout branch goes straight
   back to the head of the loop.
   */
  lemma {:induction false} QuietListenerStaysQuiet(s: System, steps: seq<Step>)
    requires Quiet(s) && Legal(s, steps)
    requires forall i :: 0 <= i < |steps| ==>
      !steps[i].Commit? && !steps[i].Crash? && !steps[i].Land? && !steps[i].Drop?
    ensures Quiet(After(s, steps))
    ensures var t := After(s, steps); t == s.(now := t.now, pc := t.pc, turns := t.turns, missed := t.missed)
    decreases steps
  {
    if steps != [] {
      QuietListenerStaysQuiet(Apply(s, steps[0]), steps[1..]);
    }
  }

  /** The only row is gone after it was read, and the notification came with the rows. */
  lemma ReadTooEarly() returns (s: System)
    ensures Reachable(s) && s.pc.AtPush? && s.pc.caller == FromLoop && s.pc.ips == ["198.51.100.7"]
    ensures s.tables == Tables([], {}) && s.socket == [] && s.notifies != []
    ensures |s.ops| == 1 && |s.attempts| == 1 && s.ops[0] == Operation(s.pc.ips, 0)
  {
    s := FirstStart();
    s := ReadRows(s, false);
    hide Publishable, WithinChangeGuard;
    var change := Commit(Tables([], {}), "blacklist_ips:DELETE");
    ReachableStep(s, change);
    s := Apply(s, change);
    s := SendRows(s, 1);
  }

  /**
   So a queued notification can wait for the next commit: the driver may hand one over while the rows of
   the fetch arrive, after the rows were read. This reachable state is quiet, out of date, and queued.
   */
  lemma StrandedNotification() returns (s: System)
    ensures Reachable(s) && Quiet(s) && s.last == Published
    ensures s.notifies != [] && s.remote != Publishable(s.tables)
  {
    s := ReadTooEarly();
    assert Publishable(s.tables) == [];
    hide Publishable, WithinChangeGuard;
    ReachableStep(s, Land);
    s := Apply(s, Land);
    ReachableStep(s, FinishPush(true, 0.0));
    s := Apply(s, FinishPush(true, 0.0));
  }

  // -------------------------------------------------------------------------------- timely retries

  predicate LateBound(missed: bool, x: real) {
    x < 1.0 || (missed && x <= 1.0)
  }

  /** What `select` can still sleep away of a deadline that is over or will be. */
  function StillToSleep(s: System): real {
    if s.pc.InSelect? && s.pending then Overdue(s.now, s.pc.until, s.retryAt) else 0.0
  }

  predicate LateInv(s: System) {
    && s.late >= 0.0 && (s.pc.InSelect? ==> s.now <= s.pc.until)
    && LateBound(s.missed, s.late + StillToSleep(s))
    && (s.late > 0.0 ==> s.pending && s.now >= s.retryAt)
    && (s.pc == AtSelect ==> s.late == 0.0)
  }

  lemma LateStep(s: System, step: Step)
    requires LateInv(s) && Enabled(s, step)
    ensures LateInv(Apply(s, step))
  {
    hide Publishable, WithinChangeGuard;
  }

  lemma {:induction false} LateRun(s: System, steps: seq<Step>)
    requires LateInv(s) && Legal(s, steps)
    ensures LateInv(After(s, steps))
    decreases steps
  {
    if steps != [] {
      LateStep(s, steps[0]);
      LateRun(Apply(s, steps[0]), steps[1..]);
    }
  }

  /** A deadline counts as missed only when it had passed at the call of `select`. */
  lemma MissedExactly(s: System, step: Step)
    requires Enabled(s, step)
    ensures Apply(s, step).missed ==> s.missed || (step.EnterSelect? && s.pending && s.now >= s.retryAt)
    ensures step.EnterSelect? ==> (Apply(s, step).missed <==> s.pending && s.now >= s.retryAt)
  {
  }

  /**
   Main result: in every run, with commits, notifications and any other delays in between, `select` sleeps less than
   one second past the deadline of a deferred sync, and as soon as it has slept any of it the head of the loop
   starts the sync. Only when the deadline passes between the check and the call of `select` is it a full second.
   */
  lemma DeferredSyncIsTimely(s: System)
    requires Reachable(s)
    ensures s.late < 1.0 || (s.missed && s.late == 1.0)
    ensures s.late > 0.0 && s.pc == AtTop ==> Apply(s, CheckDue).pc == AtRateCheck(FromLoop)
    ensures s.pc == AtSelect ==> s.late == 0.0
  {
    var s0, steps :| Initial(s0) && Legal(s0, steps) && After(s0, steps) == s;
    LateRun(s0, steps);
  }

  /** A first sync that could not read the list, about to sleep. */
  lemma FirstDeferral() returns (s: System)
    ensures Reachable(s) && s.pc == AtSelect && s.pending && s.now == 100.0 && s.retryAt == 160.0 && s.late == 0.0
  {
    s := FirstStart();
    hide Publishable, WithinChangeGuard;
    s := PassRateLimit(s);
    ReachableStep(s, ReadState(None, 0.0));
    s := Apply(s, ReadState(None, 0.0));
  }

  /** That second is reachable: a deadline just over when the timeout is computed. */
  lemma DeadlineBetweenCheckAndSelect() returns (s: System)
    ensures Reachable(s) && s.pc == AtTop && s.late == 1.0
  {
    s := FirstDeferral();
    hide Publishable, WithinChangeGuard;
    ReachableStep(s, Wait(60.0));
    s := Apply(s, Wait(60.0));
    ReachableStep(s, EnterSelect);
    s := Apply(s, EnterSelect);
    ReachableStep(s, Wait(1.0));
    s := Apply(s, Wait(1.0));
    ReachableStep(s, SelectTimedOut);
    s := Apply(s, SelectTimedOut);
  }

  // ------------------------------------------------------------------------------ pure arithmetic

  lemma RatioAtMost(d: real, c: real, bound: real)
    requires c > 0.0
    ensures d / c <= bound <==> d <= bound * c
  {
    var q := d / c;
    assert q * c == d;
    if q <= bound {
      assert (bound - q) * c >= 0.0;
    } else {
      assert (q - bound) * c > 0.0;
    }
  }

  /** The guard in whole numbers: a large list may shrink or grow by at most three tenths. */
  lemma GuardMeansThreeTenths(current: int, proposed: nat)
    ensures WithinChangeGuard(current, proposed) <==>
      current < GUARD_MIN_BASELINE || (7 * current <= 10 * proposed <= 13 * current)
  {
    if current >= GUARD_MIN_BASELINE {
      var swing := if proposed >= current then proposed - current else current - proposed;
      RatioAtMost(swing as real, current as real, MAX_CHANGE_RATIO);
      assert swing as real <= 0.30 * current as real <==> (10 * swing) as real <= (3 * current) as real;
    }
  }
}
