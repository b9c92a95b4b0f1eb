/**
 The scheduler's initial collection. Any number of processes may live at once; each has a tick thread, request
 threads that force collections, and memory that dies with it. What persists is the stored backfill state.
 */
module Scheduler {
  import opened Common
  import opened Backfill

  const RETRY_SECONDS := 3600.0
  const REGTECH := "REGTECH"

  predicate FinishedState(stored: Stored) {
    stored == Complete || stored == Skipped
  }

  /** A forced collection under way. */
  datatype Run = Run(id: nat, source: string)

  /** Where the tick thread is: `Decided` has read an unfinished state, `Storing` is inside the backfill. */
  datatype Tick = Idle | Guarded | Decided(rowMissing: bool) | Storing(run: Run) | Ending(run: Run)

  /** `lastFailure`, and how often a tick has read the state and asked for a backfill, are history. */
  datatype Proc = Proc(
    job: bool, retryAt: real, active: set<string>, runs: set<Run>, tick: Tick,
    lastFailure: Option<real>, looks: nat, tries: nat)

  /** `starts` counts the backfills begun by ticks, in all processes; it and `everFinished` are history. */
  datatype System = System(now: real, stored: Stored, procs: map<nat, Proc>, starts: nat, everFinished: bool)

  datatype Step =
    | Pass(dt: real)
    | Launch(p: nat)
    | Kill(p: nat)
    | TickGuard(p: nat)
    | TickRead(p: nat)
    | TickRaise(p: nat)
    | TickSkip(p: nat)
    | TickGiveUp(p: nat)
    | TickForce(p: nat, id: nat)
    | StoreProgress(p: nat, nextEnd: int)
    | StoreDone(p: nat)
    | TickSucceed(p: nat)
    | TickFail(p: nat)
    | ForceStart(p: nat, source: string, id: nat)
    | ForceEnd(p: nat, run: Run)

  predicate NewId(runs: set<Run>, id: nat) {
    forall r :: r in runs ==> r.id != id
  }

  predicate OwnRun(tick: Tick, run: Run) {
    (tick.Storing? || tick.Ending?) && tick.run == run
  }

  predicate ProcEnabled(now: real, proc: Proc, step: Step) {
    match step
    case TickGuard(_) => proc.tick.Idle? && proc.job && now >= proc.retryAt && REGTECH !in proc.active
    case TickRead(_) => proc.tick.Guarded?
    case TickRaise(_) => proc.tick.Guarded? || proc.tick.Decided?
    case TickSkip(_) => proc.tick.Decided? && proc.tick.rowMissing
    case TickGiveUp(_) => proc.tick.Decided?
    case TickForce(_, id) => proc.tick.Decided? && NewId(proc.runs, id)
    case StoreProgress(_, _) => proc.tick.Storing?
    case StoreDone(_) => proc.tick.Storing?
    case TickSucceed(_) => proc.tick.Ending?
    case TickFail(_) => proc.tick.Storing? || proc.tick.Ending?
    case ForceStart(_, _, id) => NewId(proc.runs, id)
    case ForceEnd(_, run) => run in proc.runs && !OwnRun(proc.tick, run)
    case _ => false
  }

  predicate Enabled(s: System, step: Step) {
    match step
    case Pass(dt) => dt >= 0.0
    case Launch(p) => p !in s.procs
    case Kill(p) => p in s.procs
    case _ => step.p in s.procs && ProcEnabled(s.now, s.procs[step.p], step)
  }

  function Failed(proc: Proc, now: real): Proc {
    proc.(tick := Idle, retryAt := now + RETRY_SECONDS, lastFailure := Some(now))
  }

  function Without(proc: Proc, run: Run): Proc {
    proc.(runs := proc.runs - {run}, active := proc.active - {run.source})
  }

  /** The check-and-add under the lock. */
  function With(proc: Proc, run: Run): Proc {
    if run.source in proc.active then proc
    else proc.(runs := proc.runs + {run}, active := proc.active + {run.source})
  }

  function ApplyProc(now: real, stored: Stored, proc: Proc, step: Step): Proc
    requires ProcEnabled(now, proc, step)
  {
    match step
    case TickGuard(_) => proc.(tick := Guarded)
    case TickRead(_) =>
      var read := proc.(looks := proc.looks + 1);
      if FinishedState(stored) then read.(tick := Idle, job := false) else read.(tick := Decided(stored.NoRow?))
    case TickRaise(_) => Failed(proc, now)
    case TickSkip(_) => proc.(tick := Idle, job := false)
    case TickGiveUp(_) => proc.(tick := Idle)
    case TickForce(_, id) =>
      var run, tried := Run(id, REGTECH), proc.(tries := proc.tries + 1);
      if REGTECH in proc.active then Failed(tried, now) else With(tried, run).(tick := Storing(run))
    case StoreProgress(_, _) => proc
    case StoreDone(_) => proc.(tick := Ending(proc.tick.run))
    case TickSucceed(_) => Without(proc, proc.tick.run).(tick := Idle, job := false)
    case TickFail(_) => Failed(Without(proc, proc.tick.run), now)
    case ForceStart(_, source, id) => With(proc, Run(id, source))
    case ForceEnd(_, run) => Without(proc, run)
    case _ => proc
  }

  function ApplyStored(stored: Stored, step: Step): Stored {
    match step
    case TickSkip(_) => Skipped
    case StoreProgress(_, nextEnd) => InProgress(nextEnd)
    case StoreDone(_) => Complete
    case _ => stored
  }

  predicate Begins(s: System, step: Step)
    requires Enabled(s, step)
  {
    step.TickForce? && REGTECH !in s.procs[step.p].active
  }

  function Apply(s: System, step: Step): System
    requires Enabled(s, step)
  {
    match step
    case Pass(dt) => s.(now := s.now + dt)
    case Launch(p) => s.(procs := s.procs[p := Proc(true, 0.0, {}, {}, Idle, None, 0, 0)])
    case Kill(p) => s.(procs := s.procs - {p})
    case _ =>
      s.(procs := s.procs[step.p := ApplyProc(s.now, s.stored, s.procs[step.p], step)],
         stored := ApplyStored(s.stored, step), starts := s.starts + (if Begins(s, step) then 1 else 0),
         everFinished := s.everFinished || FinishedState(ApplyStored(s.stored, step)))
  }

  /** A backfill starts when a tick's request for one gets through to it. */
  lemma StartsAreCounted(s: System, step: Step)
    requires Enabled(s, step)
    ensures Apply(s, step).starts
      == s.starts + (if step.TickForce? && Apply(s, step).procs[step.p].tick.Storing? then 1 else 0)
  {
  }

  predicate Initial(s: System) {
    s.procs == map[] && s.starts == 0 && s.everFinished == FinishedState(s.stored)
  }

  predicate Legal(s: System, steps: seq<Step>)
    decreases steps
  {
    steps == [] || (Enabled(s, steps[0]) && Legal(Apply(s, steps[0]), steps[1..]))
  }

  function After(s: System, steps: seq<Step>): System
    requires Legal(s, steps)
    decreases steps
  {
    if steps == [] then s else After(Apply(s, steps[0]), steps[1..])
  }

  ghost predicate Reachable(s: System) {
    exists s0, steps :: Initial(s0) && Legal(s0, steps) && After(s0, steps) == s
  }

  lemma {:induction false} RunsJoin(s: System, a: seq<Step>, b: seq<Step>)
    requires Legal(s, a) && Legal(After(s, a), b)
    ensures Legal(s, a + b) && After(s, a + b) == After(After(s, a), b)
    decreases a
  {
    if a == [] {
      assert a + b == b;
    } else {
      hide Enabled, Apply;
      RunsJoin(Apply(s, a[0]), a[1..], b);
      assert (a + b)[1..] == a[1..] + b;
    }
  }

  lemma ReachableRun(s: System, steps: seq<Step>)
    requires Reachable(s) && Legal(s, steps)
    ensures Reachable(After(s, steps))
  {
    var s0, earlier :| Initial(s0) && Legal(s0, earlier) && After(s0, earlier) == s;
    RunsJoin(s0, earlier, steps);
  }

  lemma OneStep(s: System, step: Step)
    requires Enabled(s, step)
    ensures Legal(s, [step]) && After(s, [step]) == Apply(s, step)
  {
    assert Legal(Apply(s, step), []) && [step][1..] == [];
  }

  // ---------------------------------------------------------------------------------- invariants

  function Sources(runs: set<Run>): set<string> {
    set r | r in runs :: r.source
  }

  predicate NoOverlap(runs: set<Run>) {
    forall r, q :: r in runs && q in runs && r.source == q.source ==> r == q
  }

  /** After a failure the next attempt gets past its guard only when the wait is over. */
  predicate Waited(proc: Proc, now: real) {
    proc.lastFailure.Some? ==>
      && proc.retryAt >= proc.lastFailure.value + RETRY_SECONDS
      && (!proc.tick.Idle? ==> now >= proc.lastFailure.value + RETRY_SECONDS)
  }

  predicate ProcInv(proc: Proc, now: real) {
    && proc.active == Sources(proc.runs) && NoOverlap(proc.runs) && Waited(proc, now)
    && (proc.tick.Storing? || proc.tick.Ending? ==> proc.tick.run in proc.runs && proc.tick.run.source == REGTECH)
  }

  /** A job ends, by a read, a skip or a completed backfill, only once a finished state has been stored. */
  predicate JobsEndRightly(s: System) {
    && (FinishedState(s.stored) ==> s.everFinished)
    && forall p :: p in s.procs && (!s.procs[p].job || s.procs[p].tick.Ending?) ==> s.everFinished
  }

  predicate Inv(s: System) {
    (forall p :: p in s.procs ==> ProcInv(s.procs[p], s.now)) && JobsEndRightly(s)
  }

  lemma RunEnds(proc: Proc, run: Run)
    requires proc.active == Sources(proc.runs) && NoOverlap(proc.runs) && run in proc.runs
    ensures Without(proc, run).active == Sources(Without(proc, run).runs) && NoOverlap(Without(proc, run).runs)
  {
  }

  lemma RunStarts(proc: Proc, run: Run)
    requires proc.active == Sources(proc.runs) && NoOverlap(proc.runs)
    ensures With(proc, run).active == Sources(With(proc, run).runs) && NoOverlap(With(proc, run).runs)
    ensures proc.runs <= With(proc, run).runs
  {
  }

  lemma ProcStep(now: real, stored: Stored, proc: Proc, step: Step)
    requires ProcInv(proc, now) && ProcEnabled(now, proc, step)
    ensures ProcInv(ApplyProc(now, stored, proc, step), now)
  {
    match step
    case TickSucceed(_) => RunEnds(proc, proc.tick.run);
    case TickFail(_) => RunEnds(proc, proc.tick.run);
    case ForceEnd(_, run) =>
      RunEnds(proc, run);
      assert !OwnRun(proc.tick, run);
    case ForceStart(_, source, id) => RunStarts(proc, Run(id, source));
    case TickForce(_, id) => RunStarts(proc.(tries := proc.tries + 1), Run(id, REGTECH));
    case _ =>
  }

  lemma JobsStep(s: System, step: Step)
    requires JobsEndRightly(s) && Enabled(s, step)
    ensures JobsEndRightly(Apply(s, step))
  {
  }

  lemma InvStep(s: System, step: Step)
    requires Inv(s) && Enabled(s, step)
    ensures Inv(Apply(s, step))
  {
    JobsStep(s, step);
    hide JobsEndRightly;
    if !step.Pass? && !step.Launch? && !step.Kill? {
      ProcStep(s.now, s.stored, s.procs[step.p], step);
      hide ApplyProc, ProcInv;
    }
  }

  lemma {:induction false} InvRun(s: System, steps: seq<Step>)
    requires Inv(s) && Legal(s, steps)
    ensures Inv(After(s, steps))
    decreases steps
  {
    if steps != [] {
      InvStep(s, steps[0]);
      InvRun(Apply(s, steps[0]), steps[1..]);
    }
  }

  lemma InvHolds(s: System)
    requires Reachable(s)
    ensures Inv(s)
  {
    var s0, steps :| Initial(s0) && Legal(s0, steps) && After(s0, steps) == s;
    InvRun(s0, steps);
  }

  // ------------------------------------------------------------------------------ forced collections

  /** The active set is exactly the sources of the runs under way, and no two runs have the same source. */
  lemma ActiveIsExactlyRunning(s: System, p: nat)
    requires Reachable(s) && p in s.procs
    ensures s.procs[p].active == Sources(s.procs[p].runs) && NoOverlap(s.procs[p].runs)
  {
    InvHolds(s);
  }

  /** A tick that starts a backfill after a failed one waited at least an hour since that failure. */
  lemma RetriesWait(s: System, p: nat, id: nat)
    requires Reachable(s) && Enabled(s, TickForce(p, id)) && s.procs[p].lastFailure.Some?
    ensures s.now >= s.procs[p].lastFailure.value + 3600.0
  {
    InvHolds(s);
  }

  // ------------------------------------------------------------------------------ finished is for good

  /** A tick that may still write an unfinished state. */
  predicate MayReopen(proc: Proc) {
    proc.tick.Decided? || proc.tick.Storing?
  }

  predicate Settled(s: System) {
    FinishedState(s.stored) && forall p :: p in s.procs ==> !MayReopen(s.procs[p])
  }

  lemma SettledStep(s: System, step: Step)
    requires Settled(s) && Enabled(s, step)
    ensures Settled(Apply(s, step)) && Apply(s, step).stored == s.stored && Apply(s, step).starts == s.starts
  {
  }

  lemma {:induction false} SettledRun(s: System, steps: seq<Step>)
    requires Settled(s) && Legal(s, steps)
    ensures Settled(After(s, steps)) && After(s, steps).stored == s.stored && After(s, steps).starts == s.starts
    decreases steps
  {
    if steps != [] {
      SettledStep(s, steps[0]);
      SettledRun(Apply(s, steps[0]), steps[1..]);
    }
  }

  ghost predicate FinishedForGood(s: System) {
    forall steps :: Legal(s, steps) ==> FinishedState(After(s, steps).stored) && After(s, steps).starts == s.starts
  }

  lemma {:induction false} FreeRegtech(s: System, p: nat) returns (steps: seq<Step>)
    requires Inv(s) && p in s.procs && s.procs[p].tick.Decided?
    ensures Legal(s, steps) && p in After(s, steps).procs && After(s, steps).procs[p].tick.Decided?
    ensures REGTECH !in After(s, steps).procs[p].active
  {
    if REGTECH in s.procs[p].active {
      var run :| run in s.procs[p].runs && run.source == REGTECH;
      OneStep(s, ForceEnd(p, run));
      steps := [ForceEnd(p, run)];
    } else {
      steps := [];
    }
  }

  lemma AboveAll(runs: set<Run>) returns (id: nat)
    ensures forall r :: r in runs ==> r.id < id
  {
    if runs == {} {
      id := 0;
    } else {
      var r :| r in runs;
      id := AboveAll(runs - {r});
      if r.id >= id {
        id := r.id + 1;
      }
    }
  }

  lemma ReopenedBy(s: System, p: nat) returns (steps: seq<Step>)
    requires Reachable(s) && p in s.procs && MayReopen(s.procs[p])
    ensures Legal(s, steps) && !FinishedState(After(s, steps).stored)
  {
    InvHolds(s);
    hide Reachable;
    if s.procs[p].tick.Storing? {
      OneStep(s, StoreProgress(p, 0));
      steps := [StoreProgress(p, 0)];
    } else {
      var free := FreeRegtech(s, p);
      var t := After(s, free);
      var id := AboveAll(t.procs[p].runs);
      OneStep(t, TickForce(p, id));
      var u := Apply(t, TickForce(p, id));
      OneStep(u, StoreProgress(p, 0));
      RunsJoin(s, free, [TickForce(p, id)]);
      RunsJoin(s, free + [TickForce(p, id)], [StoreProgress(p, 0)]);
      steps := free + [TickForce(p, id)] + [StoreProgress(p, 0)];
    }
  }

  /**
   Main result: a finished state stays finished, and no tick of any process ever starts a backfill again, exactly
   when no process is at that moment between reading an unfinished state and the end of its backfill.
   */
  lemma FinishedForGoodIff(s: System)
    requires Reachable(s) && FinishedState(s.stored)
    ensures FinishedForGood(s) <==> forall p :: p in s.procs ==> !MayReopen(s.procs[p])
  {
    if Settled(s) {
      forall steps | Legal(s, steps)
        ensures FinishedState(After(s, steps).stored) && After(s, steps).starts == s.starts
      {
        SettledRun(s, steps);
      }
    } else {
      var p :| p in s.procs && MayReopen(s.procs[p]);
      var steps := ReopenedBy(s, p);
      assert Legal(s, steps) && !FinishedState(After(s, steps).stored);
    }
  }

  lemma Next(s: System, step: Step) returns (t: System)
    requires Reachable(s) && Enabled(s, step)
    ensures Reachable(t) && t == Apply(s, step)
  {
    OneStep(s, step);
    ReachableRun(s, [step]);
    t := Apply(s, step);
  }

  /** A process in its first tick has read that no row is stored. */
  lemma LaunchAndRead(s: System, p: nat) returns (t: System)
    requires Reachable(s) && p !in s.procs && s.stored == NoRow && s.now >= 0.0
    ensures Reachable(t)
    ensures t == s.(procs := s.procs[p := Proc(true, 0.0, {}, {}, Decided(true), None, 1, 0)])
  {
    hide Reachable;
    t := Next(s, Launch(p));
    t := Next(t, TickGuard(p));
    t := Next(t, TickRead(p));
    assert t.procs == s.procs[p := t.procs[p]];
  }

  /**
   Such a process exists with two processes: both read that no row is stored, and one of them skips, which finishes
   the state. It is not finished for good: the other one may still begin its backfill.
   */
  lemma SkippedWhileAnotherDecides() returns (s: System)
    ensures Reachable(s) && s.stored == Skipped && 2 in s.procs && s.procs[2].tick == Decided(true)
    ensures !FinishedForGood(s)
  {
    var s0 := System.System(0.0, NoRow, map[], 0, false);
    assert Legal(s0, []) && After(s0, []) == s0;
    s := LaunchAndRead(s0, 1);
    s := LaunchAndRead(s, 2);
    s := Next(s, TickSkip(1));
    hide Reachable;
    FinishedForGoodIff(s);
    assert MayReopen(s.procs[2]);
  }

  /** A run in which a process is only launched when none is alive. */
  predicate OneAtATime(s: System, steps: seq<Step>)
    requires Legal(s, steps)
    decreases steps
  {
    steps == [] || ((steps[0].Launch? ==> s.procs == map[]) && OneAtATime(Apply(s, steps[0]), steps[1..]))
  }

  predicate Alone(s: System) {
    && (forall p, q :: p in s.procs && q in s.procs ==> p == q)
    && (s.everFinished <==> FinishedState(s.stored))
    && (FinishedState(s.stored) ==> forall p :: p in s.procs ==> !MayReopen(s.procs[p]))
  }

  lemma AloneStep(s: System, step: Step)
    requires Alone(s) && Enabled(s, step) && (step.Launch? ==> s.procs == map[])
    ensures Alone(Apply(s, step))
  {
  }

  lemma {:induction false} AloneRun(s: System, steps: seq<Step>)
    requires Alone(s) && Legal(s, steps) && OneAtATime(s, steps)
    ensures Alone(After(s, steps))
    decreases steps
  {
    if steps != [] {
      AloneStep(s, steps[0]);
      AloneRun(Apply(s, steps[0]), steps[1..]);
    }
  }

  /**
   With one process at a time, killed and restarted at will, finished is always for good, and a job that has
   ended means finished.
   */
  lemma OneProcessFinishesForGood(s0: System, steps: seq<Step>)
    requires Initial(s0) && Legal(s0, steps) && OneAtATime(s0, steps)
    ensures FinishedState(After(s0, steps).stored) ==> FinishedForGood(After(s0, steps))
    ensures forall p :: p in After(s0, steps).procs && !After(s0, steps).procs[p].job ==>
      FinishedState(After(s0, steps).stored)
  {
    AloneRun(s0, steps);
    assert Reachable(After(s0, steps));
    InvHolds(After(s0, steps));
    if FinishedState(After(s0, steps).stored) {
      FinishedForGoodIff(After(s0, steps));
    }
  }
}
