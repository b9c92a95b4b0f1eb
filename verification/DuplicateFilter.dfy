/** The filter for repeated log records: per message a pruned list of times, and the set of muted messages. */
module DuplicateFilter {
  import opened Common

  // ------------------------------------------------------------------------ what a record has to meet

  /** The times less than the window before `now`. */
  function Recent(times: seq<real>, now: real, window: real): seq<real> {
    if times == [] then []
    else
      var front, last := Recent(times[..|times| - 1], now, window), times[|times| - 1];
      if now - last < window then front + [last] else front
  }

  /** A record passes when it and the records of the window before it, muted ones included, are not too many. */
  predicate Passes(earlier: seq<real>, now: real, window: real, limit: int) {
    |Recent(earlier, now, window)| + 1 <= limit
  }

  /** The earlier records that are less than the window old. */
  function Within(times: seq<real>, now: real, window: real): set<nat> {
    set i: nat | i < |times| && now - times[i] < window
  }

  /** So a record passes exactly when, itself included, no more than the limit have come within the window. */
  lemma {:induction false} PassesExactly(times: seq<real>, now: real, window: real, limit: int)
    ensures |Recent(times, now, window)| == |Within(times, now, window)|
    ensures Passes(times, now, window, limit) <==> |Within(times, now, window)| < limit
    decreases times
  {
    if times != [] {
      var front, n := times[..|times| - 1], |times| - 1;
      PassesExactly(front, now, window, limit);
      assert n !in Within(front, now, window);
      assert Within(times, now, window) == Within(front, now, window) + if now - times[n] < window then {n} else {};
    }
  }

  /** Pruning in between does no harm: what it drops could never count again. */
  lemma {:induction false} PruningIsHarmless(times: seq<real>, then_: real, now: real, window: real)
    requires then_ <= now
    ensures Recent(Recent(times, then_, window), now, window) == Recent(times, now, window)
    decreases times
  {
    if times != [] {
      var front, last := times[..|times| - 1], times[|times| - 1];
      PruningIsHarmless(front, then_, now, window);
      var pruned := Recent(front, then_, window);
      assert (pruned + [last])[..|pruned|] == pruned;
    }
  }

  // -------------------------------------------------------------------------------- bound over windows

  function CountIn(times: seq<real>, a: real, b: real): nat {
    if times == [] then 0
    else CountIn(times[..|times| - 1], a, b) + if a <= times[|times| - 1] <= b then 1 else 0
  }

  /** How many of the records between `a` and `b` passed. */
  function PassedIn(times: seq<real>, a: real, b: real, window: real, limit: int): nat {
    if times == [] then 0
    else
      var front, last := times[..|times| - 1], times[|times| - 1];
      PassedIn(front, a, b, window, limit)
        + if a <= last <= b && Passes(front, last, window, limit) then 1 else 0
  }

  lemma {:induction false} PassedAreCounted(times: seq<real>, a: real, b: real, window: real, limit: int)
    ensures PassedIn(times, a, b, window, limit) <= CountIn(times, a, b)
    decreases times
  {
    if times != [] {
      PassedAreCounted(times[..|times| - 1], a, b, window, limit);
    }
  }

  lemma {:induction false} SpanIsRecent(times: seq<real>, a: real, b: real, now: real, window: real)
    requires now - a < window
    ensures CountIn(times, a, b) <= |Recent(times, now, window)|
    decreases times
  {
    if times != [] {
      SpanIsRecent(times[..|times| - 1], a, b, now, window);
    }
  }

  /** Main result: within any span shorter than the window, however many records come, at most `limit` pass. */
  lemma {:induction false} WindowBound(times: seq<real>, a: real, b: real, window: real, limit: nat)
    requires b - a < window
    ensures PassedIn(times, a, b, window, limit) <= limit
    decreases times
  {
    if times != [] {
      var front, last := times[..|times| - 1], times[|times| - 1];
      if a <= last <= b && Passes(front, last, window, limit) {
        PassedAreCounted(front, a, b, window, limit);
        SpanIsRecent(front, a, b, last, window);
      } else {
        WindowBound(front, a, b, window, limit);
      }
    }
  }

  /** Muted records count too, so a message that keeps coming is never heard again. */
  predicate Steady(times: seq<real>, gap: real) {
    forall i :: 0 < i < |times| ==> times[i - 1] <= times[i] <= times[i - 1] + gap
  }

  lemma {:induction false} LastOnesAreRecent(times: seq<real>, now: real, window: real, gap: real, n: nat)
    requires Steady(times, gap) && n <= |times| && gap >= 0.0
    requires n > 0 ==> now - times[|times| - 1] + Span(gap, n - 1) < window
    ensures |Recent(times, now, window)| >= n
    decreases times
  {
    hide Span;
    if n > 0 {
      var front, last := times[..|times| - 1], times[|times| - 1];
      OneMoreGap(gap, n - 1);
      if n > 1 {
        OneMoreGap(gap, n - 2);
        assert front[|front| - 1] == times[|times| - 2];
        LastOnesAreRecent(front, now, window, gap, n - 1);
      }
    }
  }

  /**
   A stream with gaps so small that `limit` of them fit into the window is silent from the record after the first
   `limit` on, for as long as it lasts.
   */
  lemma SteadyStreamStaysSilent(times: seq<real>, gap: real, window: real, limit: nat, i: nat)
    requires Steady(times, gap) && gap >= 0.0 && gap * limit as real < window && limit <= i < |times|
    ensures !Passes(times[..i], times[i], window, limit)
  {
    assert Span(gap, limit) < window;
    hide Span;
    if limit > 0 {
      assert times[..i][i - 1] == times[i - 1];
      OneMoreGap(gap, limit - 1);
      LastOnesAreRecent(times[..i], times[i], window, gap, limit);
    }
  }

  // ------------------------------------------------------------------------------------- the filter

  /** What the filter remembers after some records: the list pruned at the latest, and whether it was muted. */
  predicate Remembers(times: seq<real>, counts: seq<real>, muted: bool, window: real, limit: int) {
    if times == [] then counts == [] && !muted
    else
      var earlier, latest := times[..|times| - 1], times[|times| - 1];
      counts == Recent(earlier, latest, window) + [latest] && muted == !Passes(earlier, latest, window, limit)
  }

  lemma RemembersMore(times: seq<real>, counts: seq<real>, muted: bool, window: real, limit: int, now: real)
    requires Remembers(times, counts, muted, window, limit) && (times != [] ==> times[|times| - 1] <= now)
    ensures Recent(counts, now, window) == Recent(times, now, window)
    ensures Remembers(
      times + [now], Recent(counts, now, window) + [now], !Passes(times, now, window, limit), window, limit)
  {
    if times != [] {
      var earlier, latest := times[..|times| - 1], times[|times| - 1];
      PruningIsHarmless(earlier, latest, now, window);
      var kept := Recent(earlier, latest, window);
      assert (kept + [latest])[..|kept|] == kept;
    }
    assert (times + [now])[..|times|] == times;
  }

  function Listed(m: map<string, seq<real>>, key: string): seq<real> {
    if key in m then m[key] else []
  }

  class RecordFilter {
    const maxDuplicates: int
    const timeWindow: real
    var messageCounts: map<string, seq<real>>
    var suppressedMessages: set<string>
    ghost var history: map<string, seq<real>>

    ghost predicate Valid()
      reads this
    {
      forall key :: Remembers(
        Listed(history, key), Listed(messageCounts, key), key in suppressedMessages, timeWindow, maxDuplicates)
    }

    constructor (maxDuplicates: int, timeWindow: real)
      ensures Valid() && history == map[]
      ensures this.maxDuplicates == maxDuplicates && this.timeWindow == timeWindow
    {
      this.maxDuplicates, this.timeWindow := maxDuplicates, timeWindow;
      messageCounts, suppressedMessages, history := map[], {}, map[];
    }

    /** The verdict on the pruned list is the verdict on the whole history. */
    method Filter(key: string, now: real) returns (passed: bool)
      requires Valid()
      requires var times := Listed(history, key); times != [] ==> times[|times| - 1] <= now
      modifies this
      ensures Valid() && history == old(history)[key := Listed(old(history), key) + [now]]
      ensures passed <==> Passes(Listed(old(history), key), now, timeWindow, maxDuplicates)
      ensures passed <==> |Within(Listed(old(history), key), now, timeWindow)| < maxDuplicates
      ensures passed <==> key !in suppressedMessages
    {
      PassesExactly(Listed(history, key), now, timeWindow, maxDuplicates);
      hide Passes, Within;
      ghost var times := Listed(history, key);
      var counts := Listed(messageCounts, key);
      RemembersMore(times, counts, key in suppressedMessages, timeWindow, maxDuplicates, now);
      hide Remembers;
      counts := Recent(counts, now, timeWindow) + [now];
      messageCounts := messageCounts[key := counts];
      passed := |counts| <= maxDuplicates;
      if passed {
        suppressedMessages := suppressedMessages - {key};
      } else {
        suppressedMessages := suppressedMessages + {key};
      }
      history := history[key := times + [now]];
      hide Recent;
    }
  }
}
