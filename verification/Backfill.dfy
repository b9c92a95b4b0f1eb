/**
 The 90-day backfill: newest-first windows of seven days, a checkpoint after each, resumed by later runs.
 Days are whole numbers. Runs may stop anywhere and the day moves on between and during runs; the oldest day
 of interest moves with it.
 */
module Backfill {
  import opened Common

  const BACKFILL_DAYS := 90
  const WINDOW_DAYS := 7

  datatype Window = Window(start: int, end: int)

  /** The stored row; `NoCheckpoint` is an in-progress row without a readable date. */
  datatype Stored = NoRow | NoCheckpoint | InProgress(nextEnd: int) | Complete | Skipped

  function Checkpoint(stored: Stored): Option<int> {
    if stored.InProgress? then Some(stored.nextEnd) else None
  }

  function WindowStart(oldest: int, end: int): int {
    if oldest >= end - (WINDOW_DAYS - 1) then oldest else end - (WINDOW_DAYS - 1)
  }

  /** A week that ends on that day, cut at the oldest day of interest. */
  lemma WindowStartIs(oldest: int, end: int)
    ensures oldest <= WindowStart(oldest, end) && end - 6 <= WindowStart(oldest, end)
    ensures WindowStart(oldest, end) in {oldest, end - 6}
  {
  }

  datatype Phase =
    | Stopped
    | Authenticating(today: int, end: int)
    | AtLoop(today: int, end: int)
    | Collected(today: int, end: int, hasData: bool)
    | Saved(today: int, end: int)

  /**
   `top` is the first window end ever stored since there was no checkpoint to resume from, `windows` the
   windows checkpointed since then, newest first, and `runDay` the day of the latest run.
   */
  datatype System = System(
    day: int, stored: Stored, phase: Phase, top: int, windows: seq<Window>, runDay: int)

  datatype Step =
    | DaysPass(n: nat)
    | Begin
    | AuthenticationFailed
    | StoreFirst
    | Collect(hasData: bool)
    | Save
    | StoreCheckpoint
    | StoreComplete
    | Stop

  predicate Enabled(s: System, step: Step) {
    match step
    case DaysPass(_) => true
    case Begin => s.phase.Stopped?
    case AuthenticationFailed => s.phase.Authenticating?
    case StoreFirst => s.phase.Authenticating?
    case Collect(_) => s.phase.AtLoop? && s.phase.end >= s.phase.today - BACKFILL_DAYS
    case Save => s.phase.Collected? && s.phase.hasData
    case StoreCheckpoint => s.phase.Saved? || (s.phase.Collected? && !s.phase.hasData)
    case StoreComplete => s.phase.AtLoop? && s.phase.end < s.phase.today - BACKFILL_DAYS
    case Stop => true
  }

  function Apply(s: System, step: Step): System
    requires Enabled(s, step)
  {
    match step
    case DaysPass(n) => s.(day := s.day + n)
    case Begin =>
      var resumed := Checkpoint(s.stored);
      s.(phase := Authenticating(s.day, if resumed.Some? then resumed.value else s.day), runDay := s.day)
    case AuthenticationFailed => s.(phase := Stopped)
    case StoreFirst =>
      var p := s.phase;
      var kept := if s.stored.InProgress? then s else s.(top := p.end, windows := []);
      kept.(stored := InProgress(p.end), phase := AtLoop(p.today, p.end))
    case Collect(hasData) => s.(phase := Collected(s.phase.today, s.phase.end, hasData))
    case Save => s.(phase := Saved(s.phase.today, s.phase.end))
    case StoreCheckpoint =>
      var start := WindowStart(s.phase.today - BACKFILL_DAYS, s.phase.end);
      s.(stored := InProgress(start - 1), windows := s.windows + [Window(start, s.phase.end)],
         phase := AtLoop(s.phase.today, start - 1))
    case StoreComplete => s.(stored := Complete, phase := Stopped)
    case Stop => s.(phase := Stopped)
  }

  predicate Initial(s: System) {
    s.phase == Stopped && (s.stored == NoRow || s.stored == NoCheckpoint) && s.runDay <= s.day
  }

  predicate Legal(s: System, steps: seq<Step>)
    decreases steps
  {
    steps == [] || (Enabled(s, steps[0]) && Legal(Apply(s, steps[0]), steps[1..]))
  }

  function After(s: System, steps: seq<Step>): System
    requires Legal(s, steps)
    decreases steps
  {
    if steps == [] then s else After(Apply(s, steps[0]), steps[1..])
  }

  ghost predicate Reachable(s: System) {
    exists s0, steps :: Initial(s0) && Legal(s0, steps) && After(s0, steps) == s
  }

  lemma {:induction false} OneMoreStep(s0: System, steps: seq<Step>, step: Step)
    requires Legal(s0, steps) && Enabled(After(s0, steps), step)
    ensures Legal(s0, steps + [step]) && After(s0, steps + [step]) == Apply(After(s0, steps), step)
    decreases steps
  {
    if steps == [] {
      assert Legal(Apply(s0, step), []);
    } else {
      OneMoreStep(Apply(s0, steps[0]), steps[1..], step);
      assert (steps + [step])[1..] == steps[1..] + [step];
    }
  }

  lemma ReachableStep(s: System, step: Step)
    requires Reachable(s) && Enabled(s, step)
    ensures Reachable(Apply(s, step))
  {
    var s0, steps :| Initial(s0) && Legal(s0, steps) && After(s0, steps) == s;
    OneMoreStep(s0, steps, step);
  }

  // -------------------------------------------------------------------------- the chain of windows

  /** From `top` down, window after window without a gap, to the day `next` that is still to do. */
  predicate Chain(windows: seq<Window>, top: int, next: int) {
    if windows == [] then next == top
    else
      var last := windows[|windows| - 1];
      && last.start <= last.end < last.start + WINDOW_DAYS && last.start - 1 == next
      && Chain(windows[..|windows| - 1], top, last.end)
  }

  predicate Full(w: Window) {
    w.end == w.start + WINDOW_DAYS - 1
  }

  predicate Covers(windows: seq<Window>, day: int) {
    exists i :: 0 <= i < |windows| && windows[i].start <= day <= windows[i].end
  }

  lemma {:induction false} ChainCovers(windows: seq<Window>, top: int, next: int, day: int)
    requires Chain(windows, top, next)
    ensures Covers(windows, day) <==> next < day <= top
    decreases windows
  {
    if windows != [] {
      var last, earlier := windows[|windows| - 1], windows[..|windows| - 1];
      ChainCovers(earlier, top, last.end, day);
      ChainBelow(earlier, top, last.end);
      if last.start <= day <= last.end {
        assert windows[|windows| - 1] == last;
      } else {
        if Covers(earlier, day) {
          var i :| 0 <= i < |earlier| && earlier[i].start <= day <= earlier[i].end;
          assert windows[i] == earlier[i];
        }
        if Covers(windows, day) {
          var i :| 0 <= i < |windows| && windows[i].start <= day <= windows[i].end;
          assert earlier[i] == windows[i];
        }
      }
    }
  }

  lemma {:induction false} ChainIsOrdered(windows: seq<Window>, top: int, next: int, i: nat, j: nat)
    requires Chain(windows, top, next) && i < j < |windows|
    ensures next < windows[j].start <= windows[j].end < windows[i].start <= windows[i].end <= top
    ensures j == i + 1 ==> windows[j].end == windows[i].start - 1
    ensures windows[i].end < windows[i].start + WINDOW_DAYS && windows[j].end < windows[j].start + WINDOW_DAYS
    decreases windows
  {
    var earlier := windows[..|windows| - 1];
    var last := windows[|windows| - 1];
    if j < |windows| - 1 {
      ChainIsOrdered(earlier, top, last.end, i, j);
    } else {
      ChainElement(earlier, top, last.end, i);
    }
  }

  lemma {:induction false} ChainElement(windows: seq<Window>, top: int, next: int, i: nat)
    requires Chain(windows, top, next) && i < |windows|
    ensures next < windows[i].start <= windows[i].end <= top && windows[i].end < windows[i].start + WINDOW_DAYS
    ensures i == |windows| - 1 ==> windows[i].start == next + 1
    decreases windows
  {
    var last := windows[|windows| - 1];
    ChainBelow(windows[..|windows| - 1], top, last.end);
    if i < |windows| - 1 {
      ChainElement(windows[..|windows| - 1], top, last.end, i);
    }
  }

  lemma {:induction false} ChainBelow(windows: seq<Window>, top: int, next: int)
    requires Chain(windows, top, next)
    ensures next <= top
    decreases windows
  {
    if windows != [] {
      ChainBelow(windows[..|windows| - 1], top, windows[|windows| - 1].end);
    }
  }

  // ---------------------------------------------------------------------------------- invariants

  function NextOf(windows: seq<Window>, top: int): int {
    if windows == [] then top else windows[|windows| - 1].start - 1
  }

  predicate AllButLastFull(windows: seq<Window>) {
    forall i :: 0 <= i < |windows| - 1 ==> Full(windows[i])
  }

  /** Only the last window may be short, and then the run that made it had reached its oldest day. */
  predicate Tidy(windows: seq<Window>, top: int, runDay: int) {
    && Chain(windows, top, NextOf(windows, top)) && AllButLastFull(windows) && top <= runDay
    && (windows != [] ==> windows[|windows| - 1].end >= top - BACKFILL_DAYS)
    && (windows != [] && !Full(windows[|windows| - 1]) ==> NextOf(windows, top) < runDay - BACKFILL_DAYS)
  }

  predicate Inv(s: System) {
    && s.runDay <= s.day
    && (s.phase != Stopped ==> s.phase.today == s.runDay)
    && (s.phase.Authenticating? ==>
          s.phase.end == if s.stored.InProgress? then s.stored.nextEnd else s.runDay)
    && (s.phase.AtLoop? || s.phase.Collected? || s.phase.Saved? ==> s.stored == InProgress(s.phase.end))
    && ((s.phase.Collected? || s.phase.Saved?) ==> s.phase.end >= s.runDay - BACKFILL_DAYS)
    && (s.stored.InProgress? ==> Tidy(s.windows, s.top, s.runDay) && s.stored.nextEnd == NextOf(s.windows, s.top))
    && (s.stored == Complete ==>
          Tidy(s.windows, s.top, s.runDay) && NextOf(s.windows, s.top) < s.runDay - BACKFILL_DAYS)
  }

  lemma CheckpointKeepsTidy(windows: seq<Window>, top: int, runDay: int)
    requires Tidy(windows, top, runDay) && NextOf(windows, top) >= runDay - BACKFILL_DAYS
    ensures var end := NextOf(windows, top);
      Tidy(windows + [Window(WindowStart(runDay - BACKFILL_DAYS, end), end)], top, runDay)
  {
    var end := NextOf(windows, top);
    var more := windows + [Window(WindowStart(runDay - BACKFILL_DAYS, end), end)];
    assert more[..|more| - 1] == windows;
  }

  lemma InvStep(s: System, step: Step)
    requires Inv(s) && Enabled(s, step)
    ensures Inv(Apply(s, step))
  {
    if step.StoreCheckpoint? {
      CheckpointKeepsTidy(s.windows, s.top, s.runDay);
    }
  }

  lemma {:induction false} InvRun(s: System, steps: seq<Step>)
    requires Inv(s) && Legal(s, steps)
    ensures Inv(After(s, steps))
    decreases steps
  {
    if steps != [] {
      InvStep(s, steps[0]);
      InvRun(Apply(s, steps[0]), steps[1..]);
    }
  }

  lemma InvHolds(s: System)
    requires Reachable(s)
    ensures Inv(s)
  {
    var s0, steps :| Initial(s0) && Legal(s0, steps) && After(s0, steps) == s;
    InvRun(s0, steps);
  }

  // ------------------------------------------------------------------------------------ theorems

  /**
   Main result: however many runs it took and wherever they stopped, once the state is complete every day from
   the last run's oldest day up to `top` lies in a checkpointed window, and no later day does.
   */
  lemma CompleteBackfillCovers(s: System, day: int)
    requires Reachable(s) && s.stored == Complete && day >= s.runDay - BACKFILL_DAYS
    ensures Covers(s.windows, day) <==> day <= s.top
  {
    InvHolds(s);
    ChainCovers(s.windows, s.top, NextOf(s.windows, s.top), day);
  }

  /** `top` is the day of the run that stored the first checkpoint. */
  lemma TopIsTheFirstRunsDay(s: System)
    requires Reachable(s) && s.phase.Authenticating? && !s.stored.InProgress?
    ensures Apply(s, StoreFirst).top == s.runDay && Apply(s, StoreFirst).windows == []
  {
    InvHolds(s);
  }

  /** Checkpointed windows: at most seven days each, newest first, each ending the day before the previous began. */
  lemma WindowsAreContiguousAndDisjoint(s: System, i: nat, j: nat)
    requires Reachable(s) && (s.stored.InProgress? || s.stored == Complete) && i < j < |s.windows|
    ensures s.windows[j].start <= s.windows[j].end < s.windows[i].start <= s.windows[i].end <= s.top
    ensures j == i + 1 ==> s.windows[j].end == s.windows[i].start - 1
    ensures s.windows[i].end - s.windows[i].start == WINDOW_DAYS - 1
    ensures s.windows[j].end - s.windows[j].start <= WINDOW_DAYS - 1
  {
    InvHolds(s);
    ChainIsOrdered(s.windows, s.top, NextOf(s.windows, s.top), i, j);
  }

  lemma {:induction false} FullWindowsCountDays(windows: seq<Window>, top: int, next: int)
    requires Chain(windows, top, next) && forall i :: 0 <= i < |windows| ==> Full(windows[i])
    ensures next == top - WINDOW_DAYS * |windows|
    decreases windows
  {
    if windows != [] {
      FullWindowsCountDays(windows[..|windows| - 1], top, windows[|windows| - 1].end);
    }
  }

  /** Interruptions never cost an extra window: over all runs together there are at most thirteen. */
  lemma AtMostThirteenWindows(s: System)
    requires Reachable(s) && (s.stored.InProgress? || s.stored == Complete)
    ensures |s.windows| <= 13
  {
    InvHolds(s);
    if s.windows != [] {
      var earlier, last := s.windows[..|s.windows| - 1], s.windows[|s.windows| - 1];
      FullWindowsCountDays(earlier, s.top, last.end);
    }
  }

  // ----------------------------------------------------------------------- one run without a stop

  /** The windows a run still has to make. */
  function Plan(end: int, oldest: int): seq<Window>
    decreases end - oldest
  {
    if end < oldest then []
    else [Window(WindowStart(oldest, end), end)] + Plan(WindowStart(oldest, end) - 1, oldest)
  }

  lemma {:induction false} FullPlan(end: int, oldest: int, n: nat)
    requires end - oldest + 1 == WINDOW_DAYS * n
    ensures |Plan(end, oldest)| == n
    ensures forall i | 0 <= i < n :: Full(Plan(end, oldest)[i]) && Plan(end, oldest)[i].end == end - WINDOW_DAYS * i
    decreases n
  {
    if n > 0 {
      FullPlan(end - WINDOW_DAYS, oldest, n - 1);
    }
  }

  /** An uninterrupted first run makes exactly thirteen full windows. */
  lemma FirstRunMakesThirteenFullWindows(today: int)
    ensures |Plan(today, today - BACKFILL_DAYS)| == 13
    ensures forall w :: w in Plan(today, today - BACKFILL_DAYS) ==> Full(w)
  {
    FullPlan(today, today - BACKFILL_DAYS, 13);
  }

  // ------------------------------------------------------------------------------- the run itself

  datatype Result = Finished(success: bool, collected: nat)

  function Total(counts: seq<nat>): nat {
    if counts == [] then 0 else Total(counts[..|counts| - 1]) + counts[|counts| - 1]
  }

  /**
   The database and the portal. Any call may go wrong, which ends the run; `failures` counts those that did, and
   `saves` are the totals that the saves so far have reported.
   */
  class Outside {
    var day: int
    var stored: Stored
    var failures: nat
    ghost var saves: seq<nat>
    ghost var sys: System

    ghost predicate Valid()
      reads this
    {
      Reachable(sys) && sys.day == day && sys.stored == stored
    }

    ghost method Take(step: Step)
      requires Reachable(sys) && Enabled(sys, step)
      requires Apply(sys, step).day == day && Apply(sys, step).stored == stored
      modifies this`sys
      ensures Valid() && sys == Apply(old(sys), step)
    {
      ReachableStep(sys, step);
      sys := Apply(sys, step);
    }
  }

  /** Midnight may pass while a window is collected; the run keeps the day it started on. */
  method PassDays(o: Outside)
    requires o.Valid()
    modifies o
    ensures o.Valid() && o.day >= old(o.day) && o.sys == old(o.sys).(day := o.day) && o.saves == old(o.saves)
    ensures o.stored == old(o.stored) && o.failures == old(o.failures)
  {
    var nights: nat :| true;
    o.day := o.day + nights;
    o.Take(DaysPass(nights));
  }

  method Raises(o: Outside) returns (raised: bool)
    modifies o`failures
    ensures o.failures == if raised then old(o.failures) + 1 else old(o.failures)
  {
    raised := *;
    o.failures := if raised then o.failures + 1 else o.failures;
  }

  /** One turn of the loop: collect, save when there is data, store the checkpoint; a failure ends the run. */
  method MakeWindow(o: Outside, oldest: int, windowEnd: int)
    returns (finished: bool, saved: nat, ghost hasData: bool)
    requires o.Valid() && o.sys.phase == AtLoop(oldest + BACKFILL_DAYS, windowEnd) && windowEnd >= oldest
    requires o.stored == InProgress(windowEnd)
    modifies o
    ensures o.Valid()
    ensures finished <==> o.failures == old(o.failures)
    ensures (o.saves == old(o.saves) && saved == 0) || (hasData && o.saves == old(o.saves) + [saved])
    ensures finished && hasData ==> o.saves == old(o.saves) + [saved]
    ensures !finished ==> o.sys.phase == Stopped && o.stored == old(o.stored)
    ensures finished ==> o.stored == InProgress(WindowStart(oldest, windowEnd) - 1)
    ensures finished ==> o.sys.phase == AtLoop(oldest + BACKFILL_DAYS, WindowStart(oldest, windowEnd) - 1)
    ensures finished ==> o.sys.windows == old(o.sys).windows + [Window(WindowStart(oldest, windowEnd), windowEnd)]
  {
    PassDays(o);
    saved, hasData := 0, false;
    var raised := Raises(o);
    if raised {
      o.Take(Stop);
      return false, saved, hasData;
    }
    var collected: bool := *;
    hasData := collected;
    o.Take(Collect(collected));
    if collected {
      raised := Raises(o);
      if raised {
        o.Take(Stop);
        return false, saved, hasData;
      }
      saved :| true;
      o.saves := o.saves + [saved];
      o.Take(Save);
    }
    raised := Raises(o);
    if raised {
      o.Take(Stop);
      return false, saved, hasData;
    }
    o.stored := InProgress(WindowStart(oldest, windowEnd) - 1);
    o.Take(StoreCheckpoint);
    return true, saved, hasData;
  }

  /**
   `collect_regtech_backfill`. With success the windows of the plan were made, in order, on top of those the
   checkpoint already counted, and the state is complete; that is so exactly when no call went wrong, and every
   other return leaves a resumable state.
   */
  method CollectRegtechBackfill(o: Outside) returns (r: Result)
    requires o.Valid() && o.sys.phase == Stopped
    modifies o
    ensures o.Valid() && o.sys.phase == Stopped
    ensures r.success <==> o.failures == old(o.failures)
    ensures old(o.saves) <= o.saves && r.collected == Total(o.saves) - Total(old(o.saves))
    ensures r.success ==> o.stored == Complete
    ensures r.success && old(o.stored).InProgress? ==>
      o.sys.windows == old(o.sys).windows + Plan(old(o.stored).nextEnd, old(o.day) - BACKFILL_DAYS)
    ensures r.success && !old(o.stored).InProgress? ==>
      o.sys.windows == Plan(old(o.day), old(o.day) - BACKFILL_DAYS)
    ensures !r.success ==> o.stored == old(o.stored) || o.stored.InProgress?
  {
    var today := o.day;
    var oldest := today - BACKFILL_DAYS;
    var collected;
    var checkpoint := Checkpoint(o.stored);
    var windowEnd := if checkpoint.Some? then checkpoint.value else today;
    o.Take(Begin);
    InvHolds(o.sys);
    hide Plan;
    var raised := Raises(o);
    if raised {
      o.Take(AuthenticationFailed);
      return Finished(false, 0);
    }
    o.stored := InProgress(windowEnd);
    o.Take(StoreFirst);
    assert checkpoint.None? ==> o.sys.windows + Plan(today, oldest) == Plan(today, oldest);
    var finished;
    finished, collected := MakeWindows(o, oldest, windowEnd);
    if !finished {
      return Finished(false, collected);
    }
    raised := Raises(o);
    if raised {
      o.Take(Stop);
      return Finished(false, collected);
    }
    o.stored := Complete;
    o.Take(StoreComplete);
    return Finished(true, collected);
  }

  /** The loop of the run: the windows of the plan, until one fails. */
  method MakeWindows(o: Outside, oldest: int, firstEnd: int) returns (finished: bool, collected: nat)
    requires o.Valid() && o.sys.phase == AtLoop(oldest + BACKFILL_DAYS, firstEnd) && o.stored == InProgress(firstEnd)
    modifies o
    ensures o.Valid() && (finished <==> o.failures == old(o.failures)) && o.stored.InProgress?
    ensures old(o.saves) <= o.saves && collected == Total(o.saves) - Total(old(o.saves))
    ensures finished ==> o.sys.phase.AtLoop? && o.sys.phase.end < oldest == o.sys.phase.today - BACKFILL_DAYS
    ensures finished ==> o.sys.windows == old(o.sys).windows + Plan(firstEnd, oldest)
    ensures !finished ==> o.sys.phase == Stopped
  {
    var windowEnd := firstEnd;
    collected := 0;
    while windowEnd >= oldest
      invariant o.Valid() && o.sys.phase == AtLoop(oldest + BACKFILL_DAYS, windowEnd)
      invariant o.stored == InProgress(windowEnd) && o.failures == old(o.failures)
      invariant old(o.saves) <= o.saves && collected == Total(o.saves) - Total(old(o.saves))
      invariant o.sys.windows + Plan(windowEnd, oldest) == old(o.sys).windows + Plan(firstEnd, oldest)
      decreases windowEnd - oldest
    {
      ghost var made, done, before := Window(WindowStart(oldest, windowEnd), windowEnd), o.sys.windows, o.saves;
      var saved;
      ghost var hasData;
      finished, saved, hasData := MakeWindow(o, oldest, windowEnd);
      collected := collected + saved;
      assert o.saves != before ==> o.saves[..|o.saves| - 1] == before;
      if !finished {
        return;
      }
      windowEnd := WindowStart(oldest, windowEnd) - 1;
      assert done + ([made] + Plan(windowEnd, oldest)) == (done + [made]) + Plan(windowEnd, oldest);
    }
    assert o.sys.windows + [] == o.sys.windows;
    finished := true;
  }
}
