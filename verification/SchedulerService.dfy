/** The scheduler object: one process of the Scheduler machine, its tick and its forced collections. */
module SchedulerService {
  import opened Common
  import opened Backfill
  import opened Scheduler

  datatype Credentials = Missing | Disabled | Incomplete | Usable

  /**
   The database, the clock and the other processes. `failures` counts the calls of this process that went wrong.
   The credentials, and whether there are rows, are those of the whole call.
   */
  class World {
    var sys: Scheduler.System
    var credentials: Credentials
    var hasData: bool
    var failures: nat
  }

  /** Steps of other threads and processes: `tick` tells whether the caller is the tick thread of process `pid`. */
  predicate Spares(step: Scheduler.Step, pid: nat, tick: bool, run: Option<Run>) {
    match step
    case Pass(_) => true
    case Launch(p) => p != pid
    case Kill(p) => p != pid
    case ForceStart(_, _, _) => true
    case ForceEnd(p, ended) => p == pid ==> run != Some(ended)
    case _ => step.p == pid ==> !tick
  }

  /** Nothing else is ruled out: other processes, time, and the request threads of this one do as they like. */
  lemma OthersAreFree(step: Scheduler.Step, pid: nat, tick: bool, run: Option<Run>)
    ensures Spares(step, pid, tick, run) <==>
      || step.Pass? || step.p != pid || step.ForceStart? || (step.ForceEnd? && run != Some(step.run))
      || (!tick && !step.Launch? && !step.Kill? && !step.ForceEnd?)
  {
  }

  predicate AllSpare(steps: seq<Scheduler.Step>, pid: nat, tick: bool, run: Option<Run>) {
    forall i :: 0 <= i < |steps| ==> Spares(steps[i], pid, tick, run)
  }

  /** The tick thread's run is its own; a request thread's run never is. */
  predicate Holds(s: Scheduler.System, pid: nat, tick: bool, run: Option<Run>) {
    pid in s.procs && (run.Some? ==> run.value in s.procs[pid].runs && OwnRun(s.procs[pid].tick, run.value) == tick)
  }

  predicate SameTick(a: Proc, b: Proc) {
    a.tick == b.tick && a.job == b.job && a.retryAt == b.retryAt && a.lastFailure == b.lastFailure
    && a.looks == b.looks && a.tries == b.tries
  }

  lemma SparedStep(s: Scheduler.System, step: Scheduler.Step, pid: nat, tick: bool, run: Option<Run>)
    requires Scheduler.Enabled(s, step) && Spares(step, pid, tick, run) && Holds(s, pid, tick, run)
    ensures Holds(Scheduler.Apply(s, step), pid, tick, run) && Scheduler.Apply(s, step).now >= s.now
    ensures tick ==> SameTick(Scheduler.Apply(s, step).procs[pid], s.procs[pid])
  {
  }

  lemma {:induction false} SparedRun(
      s: Scheduler.System, steps: seq<Scheduler.Step>, pid: nat, tick: bool, run: Option<Run>)
    requires Scheduler.Legal(s, steps) && AllSpare(steps, pid, tick, run) && Holds(s, pid, tick, run)
    ensures Holds(Scheduler.After(s, steps), pid, tick, run) && Scheduler.After(s, steps).now >= s.now
    ensures tick ==> SameTick(Scheduler.After(s, steps).procs[pid], s.procs[pid])
    decreases steps
  {
    if steps != [] {
      SparedStep(s, steps[0], pid, tick, run);
      hide Scheduler.Enabled, Scheduler.Apply;
      SparedRun(Scheduler.Apply(s, steps[0]), steps[1..], pid, tick, run);
    }
  }

  class CollectionScheduler {
    const world: World
    const pid: nat
    var activeCollections: set<string>
    var initialRetryAt: real

    ghost predicate Valid()
      reads this, world
    {
      && Scheduler.Reachable(world.sys) && pid in world.sys.procs
      && world.sys.procs[pid].active == activeCollections && world.sys.procs[pid].retryAt == initialRetryAt
    }

    function Me(): Proc
      requires pid in world.sys.procs
      reads this, world
    {
      world.sys.procs[pid]
    }

    constructor (world: World, pid: nat)
      requires Scheduler.Reachable(world.sys) && pid !in world.sys.procs
      modifies world
      ensures this.world == world && this.pid == pid && Valid()
      ensures activeCollections == {} && initialRetryAt == 0.0 && Me().tick == Idle && Me().job
      ensures world.sys.stored == old(world.sys).stored
    {
      this.world, this.pid := world, pid;
      activeCollections, initialRetryAt := {}, 0.0;
      new;
      OneStep(world.sys, Launch(pid));
      ReachableRun(world.sys, [Launch(pid)]);
      world.sys := Scheduler.Apply(world.sys, Launch(pid));
    }

    method Take(step: Scheduler.Step)
      requires Scheduler.Reachable(world.sys) && Scheduler.Enabled(world.sys, step)
      requires pid in Scheduler.Apply(world.sys, step).procs
      requires Scheduler.Apply(world.sys, step).procs[pid].active == activeCollections
      requires Scheduler.Apply(world.sys, step).procs[pid].retryAt == initialRetryAt
      modifies world`sys
      ensures Valid() && world.sys == Scheduler.Apply(old(world.sys), step)
    {
      OneStep(world.sys, step);
      ReachableRun(world.sys, [step]);
      world.sys := Scheduler.Apply(world.sys, step);
    }

    /** The other threads and processes do whatever they like. */
    method Others(tick: bool, run: Option<Run>)
      requires Valid() && Holds(world.sys, pid, tick, run)
      modifies this, world`sys
      ensures Valid() && Holds(world.sys, pid, tick, run) && world.sys.now >= old(world.sys.now)
      ensures tick ==> SameTick(Me(), old(Me()))
      ensures Settled(old(world.sys)) ==> Settled(world.sys) && world.sys.starts == old(world.sys.starts)
      ensures Settled(old(world.sys)) ==> world.sys.stored == old(world.sys.stored)
    {
      var s := world.sys;
      assert Scheduler.Legal(s, []) && AllSpare([], pid, tick, run);
      var steps: seq<Scheduler.Step> :| Scheduler.Legal(s, steps) && AllSpare(steps, pid, tick, run);
      ReachableRun(s, steps);
      SparedRun(s, steps, pid, tick, run);
      if Settled(s) {
        SettledRun(s, steps);
      }
      world.sys := Scheduler.After(s, steps);
      activeCollections := world.sys.procs[pid].active;
      initialRetryAt := world.sys.procs[pid].retryAt;
    }

    method NewRun(source: string) returns (run: Run)
      requires Valid()
      ensures run.source == source && NewId(Me().runs, run.id)
    {
      ghost var above := AboveAll(Me().runs);
      assert NewId(Me().runs, above);
      var id: nat :| NewId(Me().runs, id);
      run := Run(id, source);
    }

    method Raises() returns (raised: bool)
      modifies world`failures
      ensures world.failures == if raised then old(world.failures) + 1 else old(world.failures)
    {
      raised := *;
      world.failures := if raised then world.failures + 1 else world.failures;
    }

    /** What stands between taking and giving back the source; an error counts as a failed collection. */
    method Collect(source: string) returns (success: bool)
      modifies world`failures
      ensures world.failures >= old(world.failures)
      ensures success <==>
        world.failures == old(world.failures) && source == REGTECH && world.credentials == Usable
    {
      var raised := Raises();
      if raised || world.credentials != Usable || source != REGTECH {
        return false;
      }
      raised := Raises();
      success := !raised;
    }

    /**
     `force_collection` on a request thread. A source that is being collected is refused without a trace; else the
     run holds the source while it collects and gives it back on every exit.
     */
    method ForceCollection(source: string) returns (success: bool, ghost run: Option<Run>)
      requires Valid()
      modifies this, world
      ensures Valid() && world.failures >= old(world.failures)
      ensures success <==>
        run.Some? && world.failures == old(world.failures) && source == REGTECH && world.credentials == Usable
      ensures run.None? <==> source in old(activeCollections)
      ensures run.None? ==> !success && world.sys == old(world.sys) && activeCollections == old(activeCollections)
      ensures run.Some? ==> run.value.source == source && run.value !in Me().runs && source !in activeCollections
    {
      if source in activeCollections {
        return false, None;
      }
      var mine := NewRun(source);
      run := Some(mine);
      activeCollections := activeCollections + {source};
      Scheduler.InvHolds(world.sys);
      Take(ForceStart(pid, source, mine.id));
      success := CollectAndRelease(mine);
    }

    /** The collection with the source taken, up to the moment it is given back. */
    method CollectAndRelease(run: Run) returns (success: bool)
      requires Valid() && Holds(world.sys, pid, false, Some(run))
      modifies this, world
      ensures Valid() && world.failures >= old(world.failures)
      ensures success <==>
        world.failures == old(world.failures) && run.source == REGTECH && world.credentials == Usable
      ensures run !in Me().runs && run.source !in activeCollections
    {
      Others(false, Some(run));
      success := Collect(run.source);
      Others(false, Some(run));
      activeCollections := activeCollections - {run.source};
      Take(ForceEnd(pid, run));
    }

    /** The backfill as the scheduler sees it: progress, window by window, and at last the finished state. */
    method RunBackfill(run: Run) returns (success: bool)
      requires Valid() && Holds(world.sys, pid, true, Some(run)) && Me().tick == Storing(run)
      modifies this, world
      ensures Valid() && Holds(world.sys, pid, true, Some(run)) && world.sys.now >= old(world.sys.now)
      ensures SameTick(Me(), old(Me()).(tick := Me().tick)) && (Me().tick == Storing(run) || Me().tick == Ending(run))
      ensures success ==> Me().tick == Ending(run)
      ensures world.failures >= old(world.failures) && (success <==> world.failures == old(world.failures))
      ensures world.credentials == old(world.credentials)
    {
      var windows: nat :| true;
      for w := 0 to windows
        invariant Valid() && Holds(world.sys, pid, true, Some(run)) && world.sys.now >= old(world.sys.now)
        invariant SameTick(Me(), old(Me())) && world.failures == old(world.failures)
        invariant world.credentials == old(world.credentials)
      {
        Others(true, Some(run));
        var raised := Raises();
        if raised {
          return false;
        }
        var nextEnd: int := *;
        Take(StoreProgress(pid, nextEnd));
      }
      Others(true, Some(run));
      var raised := Raises();
      if raised {
        return false;
      }
      Take(StoreDone(pid));
      raised := Raises();
      success := !raised;
    }

    /** The tick while it holds the source, and what it makes of the result. */
    method FinishBackfill(run: Run) returns (success: bool)
      requires Valid() && Holds(world.sys, pid, true, Some(run)) && Me().tick == Storing(run) && Me().job
      requires run.source == REGTECH
      modifies this, world
      ensures Valid() && Me().tick == Idle && Me().job == !success && run !in Me().runs
      ensures success ==> world.sys.everFinished
      ensures initialRetryAt == old(initialRetryAt) || !success
      ensures success || old(world.sys.now) + 3600.0 <= initialRetryAt == world.sys.now + 3600.0
      ensures Me().tries == old(Me()).tries && Me().looks == old(Me()).looks
      ensures world.failures >= old(world.failures)
      ensures success <==> (world.failures == old(world.failures) && old(world.credentials) == Usable)
    {
      Others(true, Some(run));
      if world.credentials == Usable {
        success := RunBackfill(run);
      } else {
        success := false;
      }
      Others(true, Some(run));
      Conclude(run, success);
    }

    /** The source is given back; a failure puts the next attempt off. */
    method Conclude(run: Run, success: bool)
      requires Valid() && Holds(world.sys, pid, true, Some(run)) && Me().job && run.source == REGTECH
      requires if success then Me().tick == Ending(run) else Me().tick == Storing(run) || Me().tick == Ending(run)
      modifies this, world`sys
      ensures Valid() && Me().tick == Idle && Me().job == !success && run !in Me().runs
      ensures success ==> world.sys.everFinished
      ensures initialRetryAt == if success then old(initialRetryAt) else old(world.sys.now) + 3600.0
      ensures world.sys.now == old(world.sys.now)
      ensures Me().tries == old(Me()).tries && Me().looks == old(Me()).looks
    {
      activeCollections := activeCollections - {REGTECH};
      if success {
        Scheduler.InvHolds(world.sys);
        Take(TickSucceed(pid));
      } else {
        initialRetryAt := world.sys.now + RETRY_SECONDS;
        Take(TickFail(pid));
      }
    }

    /** `force_collection` with backfill: refused while the source is active. */
    method ForceBackfill() returns (success: bool)
      requires Valid() && Me().tick.Decided? && Me().job
      modifies this, world
      ensures Valid() && Me().tick == Idle && Me().job == !success
      ensures success ==> world.sys.everFinished && initialRetryAt == old(initialRetryAt)
      ensures !success ==> old(world.sys.now) + 3600.0 <= initialRetryAt == world.sys.now + 3600.0
      ensures Me().tries == old(Me()).tries + 1 && Me().looks == old(Me()).looks
      ensures world.failures >= old(world.failures)
      ensures success <==> (
        && REGTECH !in old(activeCollections)
        && world.failures == old(world.failures) && old(world.credentials) == Usable)
    {
      var run := NewRun(REGTECH);
      if REGTECH in activeCollections {
        initialRetryAt := world.sys.now + RETRY_SECONDS;
        Take(TickForce(pid, run.id));
        return false;
      }
      activeCollections := activeCollections + {REGTECH};
      Take(TickForce(pid, run.id));
      success := FinishBackfill(run);
    }

    /** A tick at `now` got past its guard, and since then no call went wrong. */
    predicate Due(now: real, retryAt: real, active: set<string>, failures: nat)
      reads this, world
    {
      now >= retryAt && REGTECH !in active && world.failures == failures
    }

    /**
     `_initial_collection`. Before its time or while REGTECH is collected it does nothing. In a settled system it
     cancels itself and changes nothing. It cancels only when a finished state has been stored, and every failure
     puts the next attempt at least an hour off. Else it looks at the stored state, `read`. It cancels itself without
     asking for a backfill exactly when that is finished, or there is none and there are rows; it asks for one exactly
     when it is neither of these and the credentials are there and enabled.
     */
    method InitialCollection() returns (cancel: bool, ghost read: Option<Stored>)
      requires Valid() && Me().tick == Idle && Me().job
      modifies this, world
      ensures Valid() && Me().tick == Idle && Me().job == !cancel
      ensures old(world.sys.now < initialRetryAt || REGTECH in activeCollections) ==>
        !cancel && world.sys == old(world.sys) && initialRetryAt == old(initialRetryAt)
      ensures Settled(old(world.sys)) ==>
        world.sys.stored == old(world.sys.stored) && world.sys.starts == old(world.sys.starts)
      ensures Settled(old(world.sys)) && !cancel ==>
        old(world.sys.now < initialRetryAt || REGTECH in activeCollections) || initialRetryAt != old(initialRetryAt)
      ensures cancel ==> world.sys.everFinished
      ensures initialRetryAt == old(initialRetryAt)
        || old(world.sys.now) + 3600.0 <= initialRetryAt == world.sys.now + 3600.0
      ensures Due(old(world.sys.now), old(initialRetryAt), old(activeCollections), old(world.failures)) ==>
        && read.Some? && Me().looks == old(Me()).looks + 1
        && (cancel && Me().tries == old(Me()).tries <==>
              read.value in {Complete, Skipped} || (read.value == NoRow && old(world.hasData)))
        && (!cancel ==> (initialRetryAt == old(initialRetryAt) <==> old(world.credentials) in {Missing, Disabled}))
        && (Me().tries == old(Me()).tries + 1 <==>
              && read.value !in {Complete, Skipped} && !(read.value == NoRow && old(world.hasData))
              && old(world.credentials) !in {Missing, Disabled})
    {
      if world.sys.now < initialRetryAt || REGTECH in activeCollections {
        return false, None;
      }
      var stored := ReadState();
      read := stored;
      if stored.None? {
        return false, read;
      }
      if FinishedState(stored.value) {
        return true, read;
      }
      cancel := Decide(stored.value.NoRow?);
    }

    /** The guard is passed and the state is read, or the reading raises. */
    method ReadState() returns (stored: Option<Stored>)
      requires Valid() && Me().tick == Idle && Me().job
      requires world.sys.now >= initialRetryAt && REGTECH !in activeCollections
      modifies this, world
      ensures Valid() && world.sys.now >= old(world.sys.now) && world.credentials == old(world.credentials)
      ensures stored.None? <==> world.failures > old(world.failures)
      ensures stored.None? ==> Me().tick == Idle && Me().job
      ensures stored.None? ==>
        old(initialRetryAt) < old(world.sys.now) + 3600.0 <= initialRetryAt == world.sys.now + 3600.0
      ensures stored.Some? ==> initialRetryAt == old(initialRetryAt) && world.failures == old(world.failures)
      ensures stored.Some? ==> Me().looks == old(Me()).looks + 1 && Me().tries == old(Me()).tries
      ensures world.hasData == old(world.hasData)
      ensures stored.Some? ==>
        if FinishedState(stored.value) then Me().tick == Idle && !Me().job && world.sys.everFinished
        else Me().tick == Decided(stored.value.NoRow?) && Me().job
      ensures Settled(old(world.sys)) ==>
        && world.sys.stored == old(world.sys.stored) && world.sys.starts == old(world.sys.starts)
        && (stored.Some? ==> FinishedState(stored.value))
    {
      Take(TickGuard(pid));
      Others(true, None);
      var raised := Raises();
      if raised {
        PutOff();
        return None;
      }
      var read := Look();
      stored := Some(read);
    }

    /** An error in the tick: the next attempt is an hour off. */
    method PutOff()
      requires Valid() && (Me().tick.Guarded? || Me().tick.Decided?)
      modifies this, world`sys
      ensures Valid() && Me().tick == Idle && Me().job == old(Me()).job
      ensures Me().looks == old(Me()).looks && Me().tries == old(Me()).tries
      ensures initialRetryAt == old(world.sys.now) + 3600.0 && world.sys.now == old(world.sys.now)
      ensures world.sys.stored == old(world.sys.stored) && world.sys.starts == old(world.sys.starts)
    {
      initialRetryAt := world.sys.now + RETRY_SECONDS;
      Take(TickRaise(pid));
    }

    /** The reading itself, at one moment. */
    method Look() returns (stored: Stored)
      requires Valid() && Me().tick == Guarded && Me().job
      modifies this, world`sys
      ensures Valid() && world.sys.now == old(world.sys.now) && initialRetryAt == old(initialRetryAt)
      ensures stored == old(world.sys.stored) == world.sys.stored && world.sys.starts == old(world.sys.starts)
      ensures Me().looks == old(Me()).looks + 1 && Me().tries == old(Me()).tries
      ensures if FinishedState(stored) then Me().tick == Idle && !Me().job && world.sys.everFinished
        else Me().tick == Decided(stored.NoRow?) && Me().job
    {
      Scheduler.InvHolds(world.sys);
      stored := world.sys.stored;
      Take(TickRead(pid));
    }

    /** The rest of the tick, once it has read an unfinished state. */
    method Decide(rowMissing: bool) returns (cancel: bool)
      requires Valid() && Me().tick == Decided(rowMissing) && Me().job && initialRetryAt <= world.sys.now
      modifies this, world
      ensures Valid() && Me().tick == Idle && Me().job == !cancel
      ensures cancel ==> world.sys.everFinished
      ensures initialRetryAt == old(initialRetryAt)
        || old(world.sys.now) + 3600.0 <= initialRetryAt == world.sys.now + 3600.0
      ensures world.failures == old(world.failures) && !cancel ==>
        (initialRetryAt == old(initialRetryAt) <==> old(world.credentials) in {Missing, Disabled})
      ensures Me().looks == old(Me()).looks && world.failures >= old(world.failures)
      ensures Me().tries == old(Me()).tries || Me().tries == old(Me()).tries + 1
      ensures world.failures == old(world.failures) ==>
        (cancel && Me().tries == old(Me()).tries <==> rowMissing && old(world.hasData))
      ensures world.failures == old(world.failures) ==>
        (Me().tries == old(Me()).tries + 1 <==>
          !(rowMissing && old(world.hasData)) && old(world.credentials) !in {Missing, Disabled})
      ensures cancel && Me().tries == old(Me()).tries ==> world.sys.stored == Skipped
      ensures cancel && Me().tries != old(Me()).tries ==> old(world.credentials) == Usable
    {
      Others(true, None);
      var raised := Raises();
      if raised {
        PutOff();
        return false;
      }
      if rowMissing && world.hasData {
        Take(TickSkip(pid));
        return true;
      }
      if world.credentials == Missing || world.credentials == Disabled {
        Take(TickGiveUp(pid));
        return false;
      }
      cancel := ForceBackfill();
    }
  }
}
