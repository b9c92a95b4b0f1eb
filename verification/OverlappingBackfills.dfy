/**
 Any number of backfills on one stored row, in any processes. Each is at its own place in the steps of Backfill and
 sees the row as the others have left it.
 */
module OverlappingBackfills {
  import opened Common
  import B = Backfill

  /** `made` are the windows checkpointed by all runs, `first` is the day of the first of them; both are history. */
  datatype Shared = Shared(
    day: int, stored: B.Stored, runs: map<nat, B.Phase>, made: seq<B.Window>, first: Option<int>)

  datatype Move = Move(run: nat, step: B.Step)

  function PhaseOf(s: Shared, p: nat): B.Phase {
    if p in s.runs then s.runs[p] else B.Stopped
  }

  /** What one run sees, with a history of its own that starts empty at every step. */
  function View(s: Shared, p: nat): B.System {
    B.System(s.day, s.stored, PhaseOf(s, p), 0, [], s.day)
  }

  predicate Enabled(s: Shared, m: Move) {
    B.Enabled(View(s, m.run), m.step)
  }

  function Apply(s: Shared, m: Move): Shared
    requires Enabled(s, m)
  {
    var seen := B.Apply(View(s, m.run), m.step);
    Shared(seen.day, seen.stored, s.runs[m.run := seen.phase], s.made + seen.windows,
           if m.step.Begin? && s.first.None? then Some(s.day) else s.first)
  }

  predicate Initial(s: Shared) {
    s.runs == map[] && s.first.None? && (s.stored == B.NoRow || s.stored == B.NoCheckpoint)
  }

  predicate Legal(s: Shared, moves: seq<Move>)
    decreases moves
  {
    moves == [] || (Enabled(s, moves[0]) && Legal(Apply(s, moves[0]), moves[1..]))
  }

  function After(s: Shared, moves: seq<Move>): Shared
    requires Legal(s, moves)
    decreases moves
  {
    if moves == [] then s else After(Apply(s, moves[0]), moves[1..])
  }

  // ---------------------------------------------------------------------------------- invariants

  /** All days after `n`, up to the day of the first run, lie in windows that were collected and saved. */
  predicate DoneAfter(s: Shared, n: int) {
    s.first.Some? && forall day :: n < day <= s.first.value ==> B.Covers(s.made, day)
  }

  predicate RunInv(s: Shared, phase: B.Phase) {
    phase != B.Stopped ==> DoneAfter(s, phase.end)
  }

  ghost predicate Inv(s: Shared) {
    && (s.first.Some? ==> s.first.value <= s.day)
    && (s.stored.InProgress? ==> DoneAfter(s, s.stored.nextEnd))
    && forall p :: RunInv(s, PhaseOf(s, p))
  }

  lemma MoreIsCovered(made: seq<B.Window>, more: seq<B.Window>, day: int)
    requires B.Covers(made, day)
    ensures B.Covers(made + more, day)
  {
    var i :| 0 <= i < |made| && made[i].start <= day <= made[i].end;
    assert (made + more)[i] == made[i];
  }

  /** What was done stays done. */
  lemma DoneStaysDone(s: Shared, m: Move, n: int)
    requires Inv(s) && Enabled(s, m) && DoneAfter(s, n)
    ensures DoneAfter(Apply(s, m), n)
  {
    forall day | n < day <= s.first.value ensures B.Covers(Apply(s, m).made, day) {
      MoreIsCovered(s.made, B.Apply(View(s, m.run), m.step).windows, day);
    }
  }

  /** A checkpoint adds the days of its window. */
  lemma CheckpointDoesMore(s: Shared, m: Move)
    requires Inv(s) && Enabled(s, m) && m.step.StoreCheckpoint?
    ensures DoneAfter(Apply(s, m), PhaseOf(Apply(s, m), m.run).end)
  {
    var phase, t := PhaseOf(s, m.run), Apply(s, m);
    assert RunInv(s, phase);
    var start := B.WindowStart(phase.today - B.BACKFILL_DAYS, phase.end);
    assert t.made == s.made + [B.Window(start, phase.end)];
    assert t.made[|s.made|] == B.Window(start, phase.end);
    DoneStaysDone(s, m, phase.end);
    assert PhaseOf(t, m.run).end == start - 1 && t.first == s.first;
  }

  lemma OwnRunKeepsInv(s: Shared, m: Move)
    requires Inv(s) && Enabled(s, m)
    ensures RunInv(Apply(s, m), PhaseOf(Apply(s, m), m.run))
  {
    var phase := PhaseOf(s, m.run);
    assert RunInv(s, phase);
    if m.step.StoreCheckpoint? {
      CheckpointDoesMore(s, m);
    } else if phase != B.Stopped {
      DoneStaysDone(s, m, phase.end);
    } else if s.stored.InProgress? {
      DoneStaysDone(s, m, s.stored.nextEnd);
    }
    hide B.Covers;
  }

  lemma InvStep(s: Shared, m: Move)
    requires Inv(s) && Enabled(s, m)
    ensures Inv(Apply(s, m))
  {
    var t := Apply(s, m);
    OwnRunKeepsInv(s, m);
    assert t.stored.InProgress? ==> t.stored == s.stored || t.stored.nextEnd == PhaseOf(t, m.run).end;
    assert t.stored.InProgress? && t.stored != s.stored ==> PhaseOf(t, m.run) != B.Stopped;
    assert t.first.Some? ==> t.first.value <= t.day;
    if s.stored.InProgress? {
      DoneStaysDone(s, m, s.stored.nextEnd);
    }
    hide B.Covers, DoneAfter;
    forall p ensures RunInv(t, PhaseOf(t, p)) {
      var phase := PhaseOf(s, p);
      assert RunInv(s, phase);
      if p != m.run && phase != B.Stopped {
        DoneStaysDone(s, m, phase.end);
      }
    }
  }

  lemma {:induction false} InvRun(s: Shared, moves: seq<Move>)
    requires Inv(s) && Legal(s, moves)
    ensures Inv(After(s, moves))
    decreases moves
  {
    if moves != [] {
      InvStep(s, moves[0]);
      InvRun(Apply(s, moves[0]), moves[1..]);
    }
  }

  lemma {:induction false} CoveredForGood(s: Shared, moves: seq<Move>, day: int)
    requires Legal(s, moves) && B.Covers(s.made, day)
    ensures B.Covers(After(s, moves).made, day)
    decreases moves
  {
    if moves != [] {
      MoreIsCovered(s.made, B.Apply(View(s, moves[0].run), moves[0].step).windows, day);
      CoveredForGood(Apply(s, moves[0]), moves[1..], day);
    }
  }

  // ------------------------------------------------------------------------------------ theorems

  /**
   Main result: whatever other runs do to the stored row in between, once a run has stored the finished state, every
   day from its oldest day up to the day of the first run lies in a window that was collected and saved, and stays so.
   */
  lemma OverlappingBackfillsCover(s0: Shared, moves: seq<Move>, p: nat, later: seq<Move>, day: int)
    requires Initial(s0) && Legal(s0, moves)
    requires var s, m := After(s0, moves), Move(p, B.StoreComplete);
      && Enabled(s, m) && Legal(Apply(s, m), later) && PhaseOf(s, p).today - B.BACKFILL_DAYS <= day
    ensures After(s0, moves).first.Some?
    ensures day <= After(s0, moves).first.value ==>
      B.Covers(After(Apply(After(s0, moves), Move(p, B.StoreComplete)), later).made, day)
  {
    assert Inv(s0);
    InvRun(s0, moves);
    var s, m := After(s0, moves), Move(p, B.StoreComplete);
    assert RunInv(s, PhaseOf(s, p));
    if day <= s.first.value {
      assert B.Covers(s.made, day);
      assert Apply(s, m).made == s.made + [];
      assert s.made + [] == s.made;
      CoveredForGood(Apply(s, m), later, day);
    }
  }

  lemma MoveFirst(s: Shared, m: Move, rest: seq<Move>)
    requires Enabled(s, m) && Legal(Apply(s, m), rest)
    ensures Legal(s, [m] + rest) && After(s, [m] + rest) == After(Apply(s, m), rest)
  {
    assert ([m] + rest)[0] == m && ([m] + rest)[1..] == rest;
  }

  /** A run that is about to start stores its first window, which had no data, and goes on with `rest`. */
  lemma MakeOneWindow(s: Shared, p: nat, rest: seq<Move>) returns (moves: seq<Move>)
    requires PhaseOf(s, p) == B.Authenticating(s.day, s.day) && Legal(AfterWindow(s, p), rest)
    ensures Legal(s, moves) && After(s, moves) == After(AfterWindow(s, p), rest)
  {
    var s1 := Apply(s, Move(p, B.StoreFirst));
    assert s1 == s.(stored := B.InProgress(s.day), runs := s.runs[p := B.AtLoop(s.day, s.day)]) by {
      assert s.made + [] == s.made;
    }
    var s2 := Apply(s1, Move(p, B.Collect(false)));
    assert s2 == s1.(runs := s.runs[p := B.Collected(s.day, s.day, false)]) by {
      assert s.made + [] == s.made;
    }
    assert Apply(s2, Move(p, B.StoreCheckpoint)) == AfterWindow(s, p);
    hide Legal, After;
    MoveFirst(s2, Move(p, B.StoreCheckpoint), rest);
    moves := [Move(p, B.StoreCheckpoint)] + rest;
    MoveFirst(s1, Move(p, B.Collect(false)), moves);
    moves := [Move(p, B.Collect(false))] + moves;
    MoveFirst(s, Move(p, B.StoreFirst), moves);
    moves := [Move(p, B.StoreFirst)] + moves;
  }

  function AfterWindow(s: Shared, p: nat): Shared {
    var start := s.day - B.WINDOW_DAYS + 1;
    s.(stored := B.InProgress(start - 1), runs := s.runs[p := B.AtLoop(s.day, start - 1)],
       made := s.made + [B.Window(start, s.day)])
  }

  lemma BothMakeOneWindow(s: Shared) returns (moves: seq<Move>)
    requires PhaseOf(s, 1) == PhaseOf(s, 2) == B.Authenticating(s.day, s.day) && s.made == []
    ensures Legal(s, moves)
    ensures var w := B.Window(s.day - B.WINDOW_DAYS + 1, s.day); After(s, moves).made == [w, w]
  {
    var t := AfterWindow(s, 1);
    var end := AfterWindow(t, 2);
    assert Legal(end, []) && After(end, []) == end;
    hide Legal, After;
    moves := MakeOneWindow(t, 2, []);
    moves := MakeOneWindow(s, 1, moves);
  }

  /** What is lost is only economy: two runs that start together make the same window twice. */
  lemma OverlapRepeatsAWindow(day: int) returns (s0: Shared, moves: seq<Move>)
    ensures Initial(s0) && Legal(s0, moves)
    ensures var w := B.Window(day - B.WINDOW_DAYS + 1, day); After(s0, moves).made == [w, w]
  {
    hide Legal, After, B.Apply, B.Enabled;
    s0 := Shared(day, B.NoRow, map[], [], None);
    var s1 := Begun(s0, 1);
    var s2 := Begun(s1, 2);
    moves := BothMakeOneWindow(s2);
    MoveFirst(s1, Move(2, B.Begin), moves);
    moves := [Move(2, B.Begin)] + moves;
    MoveFirst(s0, Move(1, B.Begin), moves);
    moves := [Move(1, B.Begin)] + moves;
  }

  lemma Begun(s: Shared, p: nat) returns (t: Shared)
    requires PhaseOf(s, p) == B.Stopped && s.stored == B.NoRow && s.made == []
    ensures Enabled(s, Move(p, B.Begin)) && t == Apply(s, Move(p, B.Begin))
    ensures t.runs == s.runs[p := B.Authenticating(s.day, s.day)]
    ensures t.stored == B.NoRow && t.made == [] && t.day == s.day
  {
    t := Apply(s, Move(p, B.Begin));
  }
}
