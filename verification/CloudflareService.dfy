/**
 The listener in its own form: an object whose fields the methods update, running against a world that
 commits, lets time pass, and answers as it likes. A copy of the whole system follows every call, so
 what CloudflareSync proves of all runs holds of every state the object can be in.
 */
module CloudflareService {
  import opened Common
  import opened CloudflareSync

  /** Only time, commits and their notifications, and what becomes of the replacements under way. */
  ghost predicate OnlyOutside(before: System, after: System) {
    && after == before.(
         now := after.now, tables := after.tables, socket := after.socket, remote := after.remote,
         modifiedAt := after.modifiedAt, ops := after.ops, attempts := after.attempts, late := after.late)
    && before.now <= after.now && before.socket <= after.socket
  }

  /**
   The clock, the database connection and the Cloudflare account, as far as the listener can see them. `failures`
   counts the calls that went wrong.
   */
  class World {
    var now: real
    var tables: Tables
    var socket: seq<string>
    var notifies: seq<string>
    var remote: seq<string>
    var modifiedAt: real
    var failures: nat
    var sys: System

    ghost predicate Shows(s: System)
      reads this
    {
      && s.now == now && s.tables == tables && s.socket == socket && s.notifies == notifies
      && s.remote == remote && s.modifiedAt == modifiedAt
    }

    ghost predicate Valid()
      reads this
    {
      Shows(sys) && Reachable(sys)
    }

    method Take(step: Step)
      requires Reachable(sys) && Enabled(sys, step) && Shows(Apply(sys, step))
      modifies this`sys
      ensures Valid() && sys == Apply(old(sys), step)
    {
      ReachableStep(sys, step);
      sys := Apply(sys, step);
    }

    method Pass(seconds: real)
      requires Valid() && seconds >= 0.0 && (sys.pc.InSelect? ==> now + seconds <= sys.pc.until)
      modifies this`now, this`sys
      ensures Valid() && OnlyOutside(old(sys), sys) && now == old(now) + seconds
    {
      now := now + seconds;
      Take(Wait(seconds));
    }

    method CommitSomething()
      requires Valid() && sys.pc != Down
      modifies this`tables, this`socket, this`sys
      ensures Valid() && OnlyOutside(old(sys), sys)
    {
      var committed: Tables := *;
      var payload: string := *;
      tables := committed;
      socket := socket + [payload];
      Take(Commit(committed, payload));
    }

    /** The oldest replacement under way lands, or any is dropped. */
    method Settle()
      requires Valid()
      modifies this`remote, this`modifiedAt, this`sys
      ensures Valid() && OnlyOutside(old(sys), sys)
    {
      var lands: bool := *;
      if lands && sys.ops != [] {
        TimingHolds(sys);
        remote, modifiedAt := sys.ops[0].ips, now;
        Take(Land);
      } else if sys.ops != [] {
        var i: nat :| i < |sys.ops|;
        Take(Drop(i));
      }
    }

    /** Any number of commits and of replacements that land or are dropped, at any pace. */
    method Interfere(latest: Option<real>)
      requires Valid() && sys.pc != Down && (latest.Some? ==> now <= latest.value)
      requires sys.pc.InSelect? ==> latest == Some(sys.pc.until)
      modifies this`now, this`tables, this`socket, this`remote, this`modifiedAt, this`sys
      ensures Valid() && OnlyOutside(old(sys), sys) && (latest.Some? ==> now <= latest.value)
    {
      var rounds: nat := *;
      while rounds > 0
        invariant Valid() && OnlyOutside(old(sys), sys) && (latest.Some? ==> now <= latest.value)
      {
        var pause: real := *;
        pause := Max(0.0, pause);
        Pass(if latest.Some? then Min(pause, latest.value - now) else pause);
        var commits: bool := *;
        if commits {
          CommitSomething();
        } else {
          Settle();
        }
        rounds := rounds - 1;
      }
    }

    /** A clock reading some time later. */
    method Later() returns (t: real)
      modifies this`now
      ensures t == now >= old(now)
    {
      var pause: real := *;
      now := now + Max(0.0, pause);
      t := now;
    }

    method FetchListState() returns (reply: Option<ListState>)
      requires Valid() && sys.pc != Down && !sys.pc.InSelect?
      modifies this
      ensures Valid() && OnlyOutside(old(sys), sys)
      ensures failures == if reply.Some? then old(failures) else old(failures) + 1
      ensures reply.Some? && reply.value.age.Some? ==> reply.value.age.value == now - modifiedAt
    {
      Interfere(None);
      var readable: bool, dated: bool := *, *;
      var count: int := *;
      reply := if readable then Some(ListState(count, if dated then Some(now - modifiedAt) else None)) else None;
      failures := if readable then failures else failures + 1;
    }

    /** The rows read are those of one instant; notifications may arrive with them. */
    method FetchActiveIps() returns (ips: seq<string>, delivered: nat)
      requires Valid() && sys.pc.AtFetch?
      modifies this
      ensures old(sys).pc.AtFetch? && Reachable(sys) && sys.pc.AtRows? && sys.pc.ips == ips
      ensures sys.pc == AtRows(old(sys).pc.caller, old(sys).pc.count, old(sys).pc.readAt, ips)
      ensures OnlyOutside(old(sys).(pc := sys.pc), sys)
      ensures delivered <= |sys.socket| && failures >= old(failures)
      ensures failures == old(failures) ==> exists t: Tables :: ips == Publishable(t)
      ensures Shows(sys.(notifies := sys.notifies + sys.socket[..delivered], socket := sys.socket[delivered..]))
    {
      Interfere(None);
      var readable: bool := *;
      ips := if readable then Publishable(tables) else [];
      failures := if readable then failures else failures + 1;
      Take(QueryIps(readable));
      hide Publishable;
      delivered := Deliver();
    }

    /** Some time later the driver hands over some of the notifications on the socket. */
    method Deliver() returns (delivered: nat)
      requires Valid() && sys.pc.AtRows?
      modifies this`now, this`tables, this`socket, this`notifies, this`remote, this`modifiedAt, this`sys
      ensures Reachable(sys) && OnlyOutside(old(sys), sys) && delivered <= |sys.socket|
      ensures Shows(sys.(notifies := sys.notifies + sys.socket[..delivered], socket := sys.socket[delivered..]))
    {
      Interfere(None);
      var k: nat :| k <= |socket|;
      delivered := k;
      notifies, socket := notifies + socket[..k], socket[k..];
    }

    /**
     The bulk replace and its polling. It is reported done only when it has landed; one that is given up, because a
     call failed or the polling ran out of time, may still land later.
     */
    method PushToCloudflare() returns (ok: bool)
      requires Valid() && sys.pc.AtPush?
      modifies this
      ensures Valid() && OnlyOutside(old(sys), sys)
      ensures ok ==> sys.attempts != [] && sys.attempts[|sys.attempts| - 1].landedAt.Some?
      ensures failures == if ok then old(failures) else old(failures) + 1
    {
      Interfere(None);
      var completed: bool := *;
      ok := completed && sys.attempts != [] && sys.attempts[|sys.attempts| - 1].landedAt.Some?;
      failures := if ok then failures else failures + 1;
    }

    /** Returns when the socket is readable or, with a quiet socket, when the time is over. */
    method Select(until: real) returns (readable: bool)
      requires Valid() && sys.pc == InSelect(until) && now <= until
      modifies this`now, this`tables, this`socket, this`remote, this`modifiedAt, this`sys
      ensures Valid() && OnlyOutside(old(sys), sys)
      ensures if readable then socket != [] else now == until
    {
      Interfere(Some(until));
      var woken: bool := *;
      readable := woken && socket != [];
      if !readable {
        Pass(until - now);
      }
    }
  }

  /** One process all along, with so many turns, syncs and notifications more. */
  ghost predicate Counts(before: System, after: System, turns: nat, syncs: nat, handled: nat) {
    && after.process == before.process && after.turns == before.turns + turns
    && after.syncs == before.syncs + syncs && after.handled == before.handled + handled
  }

  /** What becomes of a sync when no call goes wrong. */
  const UNTROUBLED := {RateLimited, RecentlyModified, NothingToPublish, GuardStopped, Published}

  class CloudflarePushService {
    const world: World
    var syncPending: bool
    var retryAt: real
    var lastUpdate: real

    ghost predicate Mirrors(s: System)
      reads this
    {
      s.pending == syncPending && s.retryAt == retryAt && s.lastUpdate == lastUpdate
    }

    ghost predicate Valid()
      reads this, world
    {
      world.Valid() && Mirrors(world.sys)
    }

    /** `__init__` and the start of `run`: a new process, listening, with one reconcile owed. */
    constructor (world: World)
      requires world.Valid() && world.sys.pc == Down
      modifies world
      ensures this.world == world && Valid() && world.sys == Apply(old(world.sys), Start(true))
      ensures syncPending && retryAt == 0.0 && lastUpdate == 0.0 && world.sys.pc == AtTop
    {
      this.world := world;
      syncPending, retryAt, lastUpdate := true, 0.0, 0.0;
      new;
      world.socket, world.notifies := [], [];
      world.Take(Start(true));
    }

    /** A failed call is retried a minute later, a rate limit when it is over, though not within a second. */
    predicate RetryIsSet(last: Outcome, now: real)
      reads this
    {
      && (last in {StateUnavailable, NothingToPublish, PushFailed} ==> retryAt == now + 60.0)
      && (last in {RateLimited, RecentlyModified} ==> now + 1.0 <= retryAt <= now + 60.0)
    }

    method DeferSync(seconds: real)
      modifies this`syncPending, this`retryAt, world`now
      ensures syncPending && retryAt == world.now + Max(1.0, seconds) && world.now >= old(world.now)
    {
      var delay := Max(1.0, seconds);
      syncPending := true;
      var now := world.Later();
      retryAt := now + delay;
    }

    method SyncNow() returns (synced: bool)
      requires Valid() && world.sys.pc.AtRateCheck?
      modifies this, world
      ensures Valid() && old(world.sys).pc.AtRateCheck? && world.sys.pc == Resume(old(world.sys).pc.caller)
      ensures Counts(old(world.sys), world.sys, 0, 1, 0)
      ensures world.failures == old(world.failures) ==> world.sys.last in UNTROUBLED
      ensures old(world.now) - old(lastUpdate) >= 60.0 ==> world.sys.last != RateLimited
      ensures RetryIsSet(world.sys.last, world.now) && world.now >= old(world.now)
      ensures old(world.notifies) <= world.notifies
      ensures synced <==> world.sys.last == Published
      ensures syncPending <==> world.sys.last != Published && world.sys.last != GuardStopped
      ensures !synced && !syncPending ==> lastUpdate == old(lastUpdate)
    {
      hide Publishable, WithinChangeGuard, Reachable;
      world.Interfere(None);
      var free := CheckLocalRate();
      synced := false;
      if free {
        synced := SyncFromState();
      }
    }

    /** The local rate limit, with a retry at its end. */
    method CheckLocalRate() returns (free: bool)
      requires Valid() && world.sys.pc.AtRateCheck?
      modifies this, world
      ensures Valid() && old(world.sys).pc.AtRateCheck? && Counts(old(world.sys), world.sys, 0, 1, 0)
      ensures world.failures == old(world.failures) && lastUpdate == old(lastUpdate)
      ensures free <==> old(world.now) - lastUpdate >= 60.0
      ensures world.notifies == old(world.notifies) && world.now >= old(world.now)
      ensures free ==> world.sys.pc == AtStateRead(old(world.sys).pc.caller)
      ensures !free ==> world.sys.pc == Resume(old(world.sys).pc.caller) && world.sys.last == RateLimited
      ensures !free ==> syncPending && retryAt == world.now + Max(1.0, lastUpdate + 60.0 - old(world.now))
      ensures lastUpdate <= old(world.now)
    {
      TimingHolds(world.sys);
      hide Publishable, WithinChangeGuard, Reachable, AttemptsInv;
      var elapsed := world.now - lastUpdate;
      free := elapsed >= RATE_LIMIT_SECONDS;
      var checkedAt := world.now;
      if !free {
        DeferSync(RATE_LIMIT_SECONDS - elapsed);
      }
      world.Take(CheckRate(world.now - checkedAt));
    }

    /** The rest of `sync_now`, past the local rate limit: read the state of the list and go on from it. */
    method SyncFromState() returns (synced: bool)
      requires Valid() && world.sys.pc.AtStateRead?
      modifies this, world
      ensures Valid() && old(world.sys).pc.AtStateRead? && world.sys.pc == Resume(old(world.sys).pc.caller)
      ensures Counts(old(world.sys), world.sys, 0, 0, 0) && world.failures >= old(world.failures)
      ensures world.failures == old(world.failures) ==> world.sys.last in UNTROUBLED
      ensures world.sys.last != RateLimited
      ensures RetryIsSet(world.sys.last, world.now) && world.now >= old(world.now)
      ensures old(world.notifies) <= world.notifies
      ensures synced <==> world.sys.last == Published
      ensures syncPending <==> world.sys.last != Published && world.sys.last != GuardStopped
      ensures !synced && !syncPending ==> lastUpdate == old(lastUpdate)
    {
      hide Publishable, WithinChangeGuard, Reachable;
      var state := world.FetchListState();
      var free := CheckState(state);
      synced := false;
      if free {
        ghost var fetched;
        synced, fetched := Reconcile(state.value.count);
      }
    }

    /** The list could be read and was not changed lately; else a retry. */
    method CheckState(state: Option<ListState>) returns (free: bool)
      requires Valid() && world.sys.pc.AtStateRead?
      requires state.Some? && state.value.age.Some? ==> state.value.age.value == world.now - world.modifiedAt
      modifies this, world
      ensures Valid() && old(world.sys).pc.AtStateRead? && Counts(old(world.sys), world.sys, 0, 0, 0)
      ensures world.failures == old(world.failures) && lastUpdate == old(lastUpdate)
      ensures free <==>
        state.Some? && (state.value.age.Some? ==> state.value.age.value >= 60.0)
      ensures world.notifies == old(world.notifies) && world.now >= old(world.now)
      ensures free ==> world.sys.pc.AtFetch? && world.sys.pc.caller == old(world.sys).pc.caller
      ensures free ==> world.sys.pc.count == state.value.count
      ensures !free ==> world.sys.pc == Resume(old(world.sys).pc.caller) && syncPending
      ensures !free ==> world.sys.last == if state.None? then StateUnavailable else RecentlyModified
      ensures state.None? ==> retryAt == world.now + 60.0
      ensures state.Some? && !free ==>
        retryAt == world.now + Max(1.0, 60.0 - state.value.age.value) && state.value.age.value >= 0.0
    {
      TimingHolds(world.sys);
      hide Publishable, WithinChangeGuard, Reachable, AttemptsInv;
      var readAt := world.now;
      free := false;
      if state.None? {
        DeferSync(RETRY_BACKOFF_SECONDS);
      } else if state.value.age.Some? && state.value.age.value < RATE_LIMIT_SECONDS {
        DeferSync(RATE_LIMIT_SECONDS - state.value.age.value);
      } else {
        free := true;
      }
      world.Take(ReadState(state, world.now - readAt));
    }

    /** The last part of `sync_now`: fetch the addresses, apply the size guard, replace the list. */
    method Reconcile(count: int) returns (synced: bool, ghost fetched: seq<string>)
      requires Valid() && world.sys.pc.AtFetch? && world.sys.pc.count == count
      modifies this, world
      ensures Valid() && old(world.sys).pc.AtFetch? && world.sys.pc == Resume(old(world.sys).pc.caller)
      ensures Counts(old(world.sys), world.sys, 0, 0, 0) && world.failures >= old(world.failures)
      ensures world.failures == old(world.failures) ==> world.sys.last in UNTROUBLED
      ensures world.sys.last == NothingToPublish <==> fetched == []
      ensures fetched != [] ==> (world.sys.last == GuardStopped <==> !WithinChangeGuard(count, |fetched|))
      ensures world.failures == old(world.failures) ==> exists t: Tables :: fetched == Publishable(t)
      ensures world.sys.last != RateLimited
      ensures RetryIsSet(world.sys.last, world.now) && world.now >= old(world.now)
      ensures old(world.notifies) <= world.notifies
      ensures synced <==> world.sys.last == Published
      ensures syncPending <==> world.sys.last != Published && world.sys.last != GuardStopped
      ensures !synced && !syncPending ==> lastUpdate == old(lastUpdate)
    {
      hide Publishable, WithinChangeGuard, Reachable;
      var ips, delivered := world.FetchActiveIps();
      fetched := ips;
      var rowsAt := world.now;
      if ips == [] {
        DeferSync(RETRY_BACKOFF_SECONDS);
        world.Take(ReceiveRows(delivered, world.now - rowsAt));
        return false, fetched;
      }
      world.Take(ReceiveRows(delivered, 0.0));
      synced := GuardedPublish(count, ips);
    }

    /** The size guard, then the push and what is kept when it fails. */
    method GuardedPublish(count: int, ips: seq<string>) returns (synced: bool)
      requires Valid() && world.sys.pc.AtGuard? && world.sys.pc.count == count && world.sys.pc.ips == ips
      modifies this, world
      ensures Valid() && old(world.sys).pc.AtGuard? && world.sys.pc == Resume(old(world.sys).pc.caller)
      ensures Counts(old(world.sys), world.sys, 0, 0, 0)
      ensures world.sys.last == GuardStopped <==> !WithinChangeGuard(count, |ips|)
      ensures world.sys.last in {GuardStopped, PushFailed, Published}
      ensures RetryIsSet(world.sys.last, world.now) && world.now >= old(world.now)
      ensures old(world.notifies) <= world.notifies
      ensures synced <==> world.sys.last == Published
      ensures syncPending <==> world.sys.last == PushFailed
      ensures world.sys.last == GuardStopped ==> lastUpdate == old(lastUpdate) && world.sys.ops == old(world.sys).ops
      ensures world.sys.last != GuardStopped ==> lastUpdate == old(world.now)
      ensures world.failures == if world.sys.last == PushFailed then old(world.failures) + 1 else old(world.failures)
    {
      hide Publishable, WithinChangeGuard, Reachable;
      if !WithinChangeGuard(count, |ips|) {
        syncPending := false;
        world.Take(ApplyGuard);
        return false;
      }
      lastUpdate := world.now;
      world.Take(ApplyGuard);
      synced := Publish();
    }

    /** The push itself and what is kept when it fails. */
    method Publish() returns (synced: bool)
      requires Valid() && world.sys.pc.AtPush?
      modifies this, world
      ensures Valid() && old(world.sys).pc.AtPush? && world.sys.pc == Resume(old(world.sys).pc.caller)
      ensures Counts(old(world.sys), world.sys, 0, 0, 0) && world.sys.last == if synced then Published else PushFailed
      ensures world.failures == if synced then old(world.failures) else old(world.failures) + 1
      ensures syncPending == !synced && lastUpdate == old(lastUpdate)
      ensures RetryIsSet(world.sys.last, world.now) && world.now >= old(world.now)
      ensures old(world.notifies) <= world.notifies
    {
      hide Publishable, WithinChangeGuard, Reachable;
      synced := world.PushToCloudflare();
      var finishedAt := world.now;
      if !synced {
        DeferSync(RETRY_BACKOFF_SECONDS);
        world.Take(FinishPush(false, world.now - finishedAt));
        return false;
      }
      syncPending := false;
      world.Take(FinishPush(true, 0.0));
    }

    method HandleChangeNotification()
      requires Valid() && world.sys.pc == AtDrain && world.notifies != []
      modifies this, world
      ensures Valid() && world.sys.pc == AtDrain && Counts(old(world.sys), world.sys, 0, 1, 1)
      ensures syncPending <==> world.sys.last != Published && world.sys.last != GuardStopped
      ensures old(world.notifies)[1..] <= world.notifies && RetryIsSet(world.sys.last, world.now)
    {
      world.notifies := world.notifies[1..];
      syncPending := true;
      retryAt := 0.0;
      world.Take(PopNotify);
      var _ := SyncNow();
    }

    /** The inner loop, for at most `drains` notifications; it is done when none is left. */
    method Drain(drains: nat) returns (done: bool)
      requires Valid() && world.sys.pc == AtDrain
      modifies this, world
      ensures Valid() && world.sys.pc == if done then AtTop else AtDrain
      ensures done <==> world.notifies == []
      ensures world.sys.process == old(world.sys).process && world.sys.turns == old(world.sys).turns
      ensures world.sys.syncs - old(world.sys).syncs == world.sys.handled - old(world.sys).handled >= 0
      ensures !done ==> world.notifies != [] && world.sys.handled == old(world.sys).handled + drains
      ensures drains > 0 && old(world.notifies) != [] ==> world.sys.handled > old(world.sys).handled
    {
      var left: nat := drains;
      ghost var before := world.sys;
      while world.notifies != [] && left > 0
        decreases left
        invariant Valid() && world.sys.pc == AtDrain && left <= drains
        invariant Counts(before, world.sys, 0, drains - left, drains - left)
        invariant left == drains ==> world.notifies == old(world.notifies)
      {
        HandleChangeNotification();
        left := left - 1;
      }
      done := world.notifies == [];
      if done {
        world.Take(DrainDone);
      }
    }

    /** The head of the loop. */
    method SyncIfDue()
      requires Valid() && world.sys.pc == AtTop
      modifies this, world
      ensures Valid() && world.sys.pc == AtSelect
      ensures exists n: nat :: n <= 1 && Counts(old(world.sys), world.sys, 1, n, 0)
      ensures old(syncPending && world.now >= retryAt) ==> world.sys.syncs > old(world.sys).syncs
      ensures world.sys.syncs > old(world.sys).syncs ==> old(syncPending) && world.now >= old(retryAt)
      ensures old(world.notifies) <= world.notifies
    {
      world.Interfere(None);
      var due := SyncDue(syncPending, retryAt, world.now);
      world.Take(CheckDue);
      if due {
        var _ := SyncNow();
        assert Counts(old(world.sys), world.sys, 1, 1, 0);
      } else {
        assert Counts(old(world.sys), world.sys, 1, 0, 0);
      }
    }

    /**
     One pass of the endless loop. At most `drains` notifications are handled; when they run out the
     pass stops inside the inner loop, which is a state of the run like any other.
     */
    method RunOnce(drains: nat) returns (finished: bool)
      requires Valid() && world.sys.pc == AtTop
      modifies this, world
      ensures Valid() && world.sys.process == old(world.sys).process && NoLostChange(world.sys)
      ensures world.sys.pc == if finished then AtTop else AtDrain
      ensures !finished ==> world.notifies != [] && world.sys.handled == old(world.sys).handled + drains
      ensures world.sys.turns == old(world.sys).turns + 1
      ensures old(syncPending && world.now >= retryAt) ==> world.sys.syncs > old(world.sys).syncs
      ensures world.sys.syncs - old(world.sys).syncs >= world.sys.handled - old(world.sys).handled
    {
      SyncIfDue();
      var readable := AwaitChange();
      finished := true;
      if readable {
        finished := Drain(drains);
      }
      NoChangeIsEverLost(world.sys);
    }

    /** Some time after the check: the timeout of the moment, and the call of `select`. */
    method BeginSelect() returns (until: real)
      requires Valid() && world.sys.pc == AtSelect
      modifies world
      ensures Valid() && Counts(old(world.sys), world.sys, 0, 0, 0) && world.sys.pc == InSelect(until)
      ensures world.now >= old(world.now) && world.notifies == old(world.notifies)
      ensures !syncPending ==> until == world.now + 30.0
      ensures syncPending ==> until == Max(world.now + 1.0, Min(world.now + 30.0, retryAt))
    {
      hide Publishable, WithinChangeGuard, SyncDue, Reachable;
      world.Interfere(None);
      until := world.now + SelectTimeoutFor(syncPending, retryAt, world.now);
      world.Take(EnterSelect);
    }

    /** `select`, and the poll that takes what has come. */
    method AwaitChange() returns (readable: bool)
      requires Valid() && world.sys.pc == AtSelect
      modifies world
      ensures Valid() && Counts(old(world.sys), world.sys, 0, 0, 0)
      ensures if readable then world.sys.pc == AtDrain && world.notifies != [] else world.sys.pc == AtTop
      ensures if readable then old(world.notifies) < world.notifies && world.socket == []
              else world.notifies == old(world.notifies)
    {
      hide Publishable, WithinChangeGuard, SyncDue, Reachable;
      var until := BeginSelect();
      readable := world.Select(until);
      if !readable {
        world.Take(SelectTimedOut);
      } else {
        world.notifies, world.socket := world.notifies + world.socket, [];
        world.Take(SelectReady);
      }
    }

    /** `run`, for any number of passes; it stops early only inside the inner loop. */
    method Run(passes: nat, drains: nat)
      requires Valid() && world.sys.pc == AtTop
      modifies this, world
      ensures Valid() && world.sys.process == old(world.sys).process && NoLostChange(world.sys)
      ensures world.sys.turns == old(world.sys).turns + passes || world.sys.pc == AtDrain
    {
      NoChangeIsEverLost(world.sys);
      var n, going := 0, true;
      while n < passes && going
        invariant Valid() && world.sys.process == old(world.sys).process && NoLostChange(world.sys)
        invariant n <= passes && world.sys.turns == old(world.sys).turns + n
        invariant world.sys.pc == if going then AtTop else AtDrain
      {
        going := RunOnce(drains);
        n := n + 1;
      }
    }
  }
}
