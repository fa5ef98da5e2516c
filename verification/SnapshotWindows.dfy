/** Which aligned windows each snapshot queries, and what a whole run of snapshots covers. */
module SnapshotWindows {
  import opened Wrappers
  import opened Instants
  import opened Collections
  import opened MetricsRetention

  /** Go's zero time, the value of lastSnapshot before the first snapshot. */
  const ZERO_TIME: Instant := 0

  function WindowAt(t: Instant, resolution: Duration): Window {
    Window(Truncate(t, resolution), Truncate(t, resolution) + resolution)
  }

  function SnapshotWindowsFor(now: Instant, lastSnapshot: Instant, resolution: Duration): seq<Window> {
    if lastSnapshot == ZERO_TIME then [WindowAt(now, resolution)]
    else if Truncate(lastSnapshot, resolution) == Truncate(now, resolution) then [WindowAt(now, resolution)]
    else [WindowAt(lastSnapshot, resolution), WindowAt(now, resolution)]
  }

  lemma TruncateNested(t: Instant, fine: Duration, coarse: Duration)
    requires fine > 0 && coarse > 0 && coarse % fine == 0
    ensures Truncate(Truncate(t, fine), coarse) == Truncate(t, coarse)
  {
    var c := Truncate(t, coarse);
    var f := Truncate(t, fine);
    var k := c / coarse * (coarse / fine);
    assert c == c / coarse * coarse && coarse == coarse / fine * fine;
    assert c == k * fine;
    ModMultiple(k, fine);
    if f < c {
      AlignedGap(f, c, fine);
    }
    TruncateUnique(f, c, coarse);
  }

  /** A window boundary of a coarse resolution is one of every finer resolution that divides it. */
  lemma BoundaryNesting(now: Instant, last: Instant, fine: Duration, coarse: Duration)
    requires fine > 0 && coarse > 0 && coarse % fine == 0
    requires |SnapshotWindowsFor(now, last, coarse)| == 2
    ensures |SnapshotWindowsFor(now, last, fine)| == 2
  {
    TruncateNested(now, fine, coarse);
    TruncateNested(last, fine, coarse);
  }

  // ---------- Runs of successful and failed snapshots ----------

  /** The times of a run of snapshots: the clock never steps back and is past the zero time. */
  ghost predicate IsRun(times: seq<Instant>, resolution: Duration) {
    && |times| > 0 && resolution > 0
    && (forall i :: 0 <= i < |times| ==> times[i] > ZERO_TIME)
    && forall i, j :: 0 <= i < j < |times| ==> times[i] <= times[j]
  }

  /** No snapshot comes so late that a whole window falls between it and the one before. */
  ghost predicate SkipsNoWindow(times: seq<Instant>, resolution: Duration) {
    forall i :: 0 < i < |times| ==>
                  Truncate(times[i], resolution) <= Truncate(times[i - 1], resolution) + resolution
  }

  function WindowsOf(times: seq<Instant>, i: nat, resolution: Duration): seq<Window>
    requires i < |times|
  {
    SnapshotWindowsFor(times[i], if i == 0 then ZERO_TIME else times[i - 1], resolution)
  }

  /** Snapshot i queries the window starting at s at or after the end of that window. */
  ghost predicate Closes(times: seq<Instant>, i: nat, s: Instant, resolution: Duration) {
    && i < |times|
    && Window(s, s + resolution) in WindowsOf(times, i, resolution)
    && s + resolution <= times[i]
  }

  ghost predicate Past(times: seq<Instant>, s: Instant, resolution: Duration)
    requires |times| > 0
  {
    && Aligned(s, resolution)
    && Truncate(times[0], resolution) <= s < Truncate(times[|times| - 1], resolution)
  }

  lemma TruncateMonotone(a: Instant, b: Instant, d: Duration)
    requires d > 0 && a <= b
    ensures Truncate(a, d) <= Truncate(b, d)
    ensures Truncate(a, d) < Truncate(b, d) ==> Truncate(a, d) + d <= Truncate(b, d)
  {
    var s, t := Truncate(a, d), Truncate(b, d);
    if s - d < t < s + d {
      AlignedGap(s, t, d);
    }
  }

  /** Snapshots at most one resolution apart never skip a window. */
  lemma CloseSnapshotsSkipNothing(times: seq<Instant>, resolution: Duration)
    requires IsRun(times, resolution)
    requires forall i :: 0 < i < |times| ==> times[i] <= times[i - 1] + resolution
    ensures SkipsNoWindow(times, resolution)
  {
    forall i | 0 < i < |times|
      ensures Truncate(times[i], resolution) <= Truncate(times[i - 1], resolution) + resolution
    {
      var s, t := Truncate(times[i - 1], resolution), Truncate(times[i], resolution);
      AlignedNeighbours(s, resolution);
      if t > s + resolution {
        AlignedGap(t, s + resolution, resolution);
      }
    }
  }

  /** A past window is closed at most once, by the snapshot that leaves it. */
  lemma ClosedByLeaving(times: seq<Instant>, i: nat, s: Instant, resolution: Duration)
    requires IsRun(times, resolution)
    ensures Closes(times, i, s, resolution) <==>
              && 0 < i < |times|
              && s == Truncate(times[i - 1], resolution) < Truncate(times[i], resolution)
  {
    if i < |times| && i > 0 {
      TruncateMonotone(times[i - 1], times[i], resolution);
    }
  }

  lemma LeavesLater(times: seq<Instant>, i: nat, j: nat, resolution: Duration)
    requires IsRun(times, resolution) && i < |times| && j < |times|
    ensures i < j ==> Truncate(times[i], resolution) <= Truncate(times[j - 1], resolution)
  {
    if i < j {
      TruncateMonotone(times[i], times[j - 1], resolution);
    }
  }

  lemma ClosedAtMostOnce(times: seq<Instant>, i: nat, j: nat, s: Instant, resolution: Duration)
    requires IsRun(times, resolution)
    requires Closes(times, i, s, resolution) && Closes(times, j, s, resolution)
    ensures i == j
  {
    ClosedByLeaving(times, i, s, resolution);
    ClosedByLeaving(times, j, s, resolution);
    LeavesLater(times, i, j, resolution);
    LeavesLater(times, j, i, resolution);
  }

  /** In a run that skips nothing every past window has its closing snapshot. */
  lemma {:induction false} ClosedAtLeastOnce(times: seq<Instant>, s: Instant, resolution: Duration) returns (i: nat)
    requires IsRun(times, resolution) && SkipsNoWindow(times, resolution)
    requires Past(times, s, resolution)
    ensures Closes(times, i, s, resolution)
    decreases |times|
  {
    i := |times| - 1;
    var before, after := Truncate(times[i - 1], resolution), Truncate(times[i], resolution);
    TruncateMonotone(times[i - 1], times[i], resolution);
    if s < before {
      i := ClosedAtLeastOnce(times[..i], s, resolution);
      ClosedByLeaving(times[..|times| - 1], i, s, resolution);
      ClosedByLeaving(times, i, s, resolution);
    } else {
      if s != before {
        AlignedGap(s, before, resolution);
      }
      ClosedByLeaving(times, i, s, resolution);
    }
  }

  lemma SkippedIsNeverClosed(times: seq<Instant>, i: nat, resolution: Duration)
    requires IsRun(times, resolution)
    requires 0 < i < |times| && Truncate(times[i], resolution) > Truncate(times[i - 1], resolution) + resolution
    ensures var s := Truncate(times[i - 1], resolution) + resolution;
            Past(times, s, resolution) && forall j: nat :: !Closes(times, j, s, resolution)
  {
    var s := Truncate(times[i - 1], resolution) + resolution;
    AlignedNeighbours(Truncate(times[i - 1], resolution), resolution);
    TruncateMonotone(times[0], times[i - 1], resolution);
    TruncateMonotone(times[i], times[|times| - 1], resolution);
    forall j: nat ensures !Closes(times, j, s, resolution) {
      ClosedByLeaving(times, j, s, resolution);
      if 0 < j < i {
        TruncateMonotone(times[j - 1], times[i - 1], resolution);
      } else if i < j < |times| {
        TruncateMonotone(times[i], times[j - 1], resolution);
      }
    }
  }

  ghost predicate IsClosed(times: seq<Instant>, s: Instant, resolution: Duration)
    requires IsRun(times, resolution)
  {
    exists i: nat :: Closes(times, i, s, resolution)
  }

  lemma PastIsClosed(times: seq<Instant>, s: Instant, resolution: Duration)
    requires IsRun(times, resolution) && SkipsNoWindow(times, resolution)
    ensures Past(times, s, resolution) ==> IsClosed(times, s, resolution)
  {
    if Past(times, s, resolution) {
      var i := ClosedAtLeastOnce(times, s, resolution);
    }
  }

  lemma SkipIsNotClosed(times: seq<Instant>, resolution: Duration)
    requires IsRun(times, resolution) && !SkipsNoWindow(times, resolution)
    ensures exists s :: Past(times, s, resolution) && !IsClosed(times, s, resolution)
  {
    var i :| 0 < i < |times| && Truncate(times[i], resolution) > Truncate(times[i - 1], resolution) + resolution;
    SkippedIsNeverClosed(times, i, resolution);
    assert !IsClosed(times, Truncate(times[i - 1], resolution) + resolution, resolution);
  }

  /** Coverage holds for exactly the runs that skip no window. */
  lemma CoverageExactly(times: seq<Instant>, resolution: Duration)
    requires IsRun(times, resolution)
    ensures (forall s :: Past(times, s, resolution) ==> IsClosed(times, s, resolution)) <==> SkipsNoWindow(times, resolution)
  {
    if SkipsNoWindow(times, resolution) {
      forall s ensures Past(times, s, resolution) ==> IsClosed(times, s, resolution) {
        PastIsClosed(times, s, resolution);
      }
    } else {
      SkipIsNotClosed(times, resolution);
    }
  }

  /** The windows of one snapshot meet end to start, so a run leaves no gap. */
  lemma WindowsAreContiguous(times: seq<Instant>, i: nat, resolution: Duration)
    requires IsRun(times, resolution) && SkipsNoWindow(times, resolution) && i < |times|
    ensures var ws := WindowsOf(times, i, resolution);
            && 1 <= |ws| <= 2
            && ws[|ws| - 1].start <= times[i] < ws[|ws| - 1].end
            && (|ws| == 2 ==> ws[0].end == ws[1].start)
            && (i > 0 ==> ws[0].start <= times[i - 1] < ws[0].end)
  {
    if i > 0 {
      TruncateMonotone(times[i - 1], times[i], resolution);
    }
  }

  // ---------- What reaches the adapter ----------

  function Batch(times: seq<Instant>, i: nat, resolution: Duration): seq<MetricsSnapshot>
    requires i < |times|
  {
    SnapshotsOf(WindowsOf(times, i, resolution), times[i])
  }

  function SnapshotsOf(windows: seq<Window>, now: Instant): seq<MetricsSnapshot> {
    seq(|windows|, k requires 0 <= k < |windows| => MetricsSnapshot(windows[k], now))
  }

  /** Every snapshot handed over by a run; a snapshot call that fails hands over nothing. */
  function History(times: seq<Instant>, ok: seq<bool>, n: nat, resolution: Duration): seq<MetricsSnapshot>
    requires n <= |times| == |ok|
  {
    if n == 0 then []
    else History(times, ok, n - 1, resolution) + (if ok[n - 1] then Batch(times, n - 1, resolution) else [])
  }

  lemma {:induction false} HistoryMembers(times: seq<Instant>, ok: seq<bool>, n: nat, resolution: Duration, x: MetricsSnapshot)
    requires n <= |times| == |ok|
    ensures x in History(times, ok, n, resolution) <==>
            exists i :: 0 <= i < n && ok[i] && x.taken == times[i] && x.window in WindowsOf(times, i, resolution)
  {
    if n > 0 {
      HistoryMembers(times, ok, n - 1, resolution, x);
      var ws := WindowsOf(times, n - 1, resolution);
      assert x in Batch(times, n - 1, resolution) <==> x.taken == times[n - 1] && x.window in ws by {
        if x.taken == times[n - 1] && x.window in ws {
          var k :| 0 <= k < |ws| && ws[k] == x.window;
          assert Batch(times, n - 1, resolution)[k] == x;
        }
      }
    }
  }

  /** lastSnapshot advances even when a snapshot fails, so nobody asks again: the final data of a
      window is handed over exactly when the one snapshot that leaves the window succeeds. */
  lemma FinalDataIffClosingSucceeds(times: seq<Instant>, ok: seq<bool>, s: Instant, resolution: Duration)
    requires IsRun(times, resolution) && |times| == |ok| && Past(times, s, resolution)
    requires SkipsNoWindow(times, resolution)
    ensures (exists x :: x in History(times, ok, |times|, resolution)
                         && x.window == Window(s, s + resolution) && s + resolution <= x.taken)
            <==> exists i: nat :: Closes(times, i, s, resolution) && ok[i]
  {
    forall x | x in History(times, ok, |times|, resolution)
               && x.window == Window(s, s + resolution) && s + resolution <= x.taken
      ensures exists i: nat :: Closes(times, i, s, resolution) && ok[i]
    {
      HistoryMembers(times, ok, |times|, resolution, x);
      var i :| 0 <= i < |times| && ok[i] && x.taken == times[i] && x.window in WindowsOf(times, i, resolution);
      assert Closes(times, i, s, resolution);
    }
    forall i: nat | Closes(times, i, s, resolution) && ok[i]
      ensures exists x :: x in History(times, ok, |times|, resolution)
                          && x.window == Window(s, s + resolution) && s + resolution <= x.taken
    {
      HistoryMembers(times, ok, |times|, resolution, MetricsSnapshot(Window(s, s + resolution), times[i]));
    }
  }

  lemma RunWithFailure(times: seq<Instant>)
    requires times == [5 * MINUTE, 12 * MINUTE, 18 * MINUTE]
    ensures IsRun(times, 10 * MINUTE) && SkipsNoWindow(times, 10 * MINUTE) && Past(times, 0, 10 * MINUTE)
  {
    TruncateUnique(5 * MINUTE, 0, 10 * MINUTE);
    TruncateUnique(12 * MINUTE, 10 * MINUTE, 10 * MINUTE);
    TruncateUnique(18 * MINUTE, 10 * MINUTE, 10 * MINUTE);
  }

  lemma ThirdStartsNext(times: seq<Instant>)
    requires times == [5 * MINUTE, 12 * MINUTE, 18 * MINUTE]
    ensures Window(0, 10 * MINUTE) !in WindowsOf(times, 2, 10 * MINUTE)
  {
  }

  /** A concrete run whose failed second snapshot loses the end of the first ten-minute window. */
  lemma FailureLosesAWindow()
    ensures var times, ok := [5 * MINUTE, 12 * MINUTE, 18 * MINUTE], [true, false, true];
            && IsRun(times, 10 * MINUTE) && SkipsNoWindow(times, 10 * MINUTE) && Past(times, 0, 10 * MINUTE)
            && forall x :: x in History(times, ok, 3, 10 * MINUTE) && x.window == Window(0, 10 * MINUTE)
                           ==> x.taken < 10 * MINUTE
  {
    var times, ok := [5 * MINUTE, 12 * MINUTE, 18 * MINUTE], [true, false, true];
    forall x | x in History(times, ok, 3, 10 * MINUTE) && x.window == Window(0, 10 * MINUTE)
      ensures x.taken < 10 * MINUTE
    {
      HistoryMembers(times, ok, 3, 10 * MINUTE, x);
      var i :| 0 <= i < 3 && ok[i] && x.taken == times[i] && x.window in WindowsOf(times, i, 10 * MINUTE);
      ThirdStartsNext(times);
      assert i == 0;
    }
    RunWithFailure(times);
  }

  // ---------- The retained windows of an uninterrupted run ----------

  /** The first snapshot taken inside the window of snapshot n - 1. */
  function Entered(times: seq<Instant>, n: nat, resolution: Duration): (c: nat)
    requires 0 < n <= |times|
    ensures c < n
  {
    if n == 1 || Truncate(times[n - 1], resolution) != Truncate(times[n - 2], resolution) then n - 1
    else Entered(times, n - 1, resolution)
  }

  lemma {:induction false} EnteredIsFirst(times: seq<Instant>, n: nat, resolution: Duration)
    requires 0 < n <= |times|
    ensures forall j :: Entered(times, n, resolution) <= j < n ==>
                          Truncate(times[j], resolution) == Truncate(times[n - 1], resolution)
    ensures var c := Entered(times, n, resolution);
            c > 0 ==> Truncate(times[c - 1], resolution) != Truncate(times[n - 1], resolution)
  {
    if n > 1 && Truncate(times[n - 1], resolution) == Truncate(times[n - 2], resolution) {
      EnteredIsFirst(times, n - 1, resolution);
    }
  }

  /** The current window as last seen, and the one before it as seen when it was left. */
  function CurrentAndPrevious(times: seq<Instant>, n: nat, resolution: Duration): Cache
    requires 0 < n <= |times|
  {
    var s := Truncate(times[n - 1], resolution);
    var c := Entered(times, n, resolution);
    var current := MetricsSnapshot(Window(s, s + resolution), times[n - 1]);
    if Truncate(times[0], resolution) == s then map[Unix(s) := current]
    else map[Unix(s - resolution) := MetricsSnapshot(Window(s - resolution, s), times[c]), Unix(s) := current]
  }

  lemma NewestOfThree(a: int, b: int, c: int)
    requires a < b < c
    ensures Newest({a, b, c}) == {b, c}
  {
    SmallestIsStale({a, b, c}, a);
    StaleDrops({a, b, c}, a);
    assert {a, b, c} - {a} == {b, c};
    SmallIsKept({b, c});
  }

  lemma LatestOfOne(x: MetricsSnapshot)
    ensures Latest([x]) == map[x.Key() := x]
  {
    LatestNext(map[], [], x);
    assert [] + [x] == [x];
  }

  lemma LatestOfTwo(x: MetricsSnapshot, y: MetricsSnapshot)
    ensures Latest([x, y]) == map[x.Key() := x][y.Key() := y]
  {
    LatestOfOne(x);
    LatestNext(map[], [x], y);
    assert [x] + [y] == [x, y];
  }

  lemma StepInsideWindow(times: seq<Instant>, n: nat, resolution: Duration)
    requires IsRun(times, resolution) && resolution % SECOND == 0 && 0 < n < |times|
    requires Truncate(times[n], resolution) == Truncate(times[n - 1], resolution)
    ensures Retain(CurrentAndPrevious(times, n, resolution) + Latest(Batch(times, n, resolution)))
            == CurrentAndPrevious(times, n + 1, resolution)
  {
    var t := Truncate(times[n], resolution);
    var now := MetricsSnapshot(Window(t, t + resolution), times[n]);
    AlignedNeighbours(t, resolution);
    UnixOrder(t - resolution, t, resolution);
    assert Batch(times, n, resolution) == [now];
    LatestOfOne(now);
    assert CurrentAndPrevious(times, n, resolution) + Latest([now]) == CurrentAndPrevious(times, n + 1, resolution);
    RetainsAllOfFew(CurrentAndPrevious(times, n + 1, resolution));
  }

  lemma StepIntoNextWindow(times: seq<Instant>, n: nat, resolution: Duration)
    requires IsRun(times, resolution) && resolution % SECOND == 0 && 0 < n < |times|
    requires Truncate(times[n], resolution) == Truncate(times[n - 1], resolution) + resolution
    ensures Retain(CurrentAndPrevious(times, n, resolution) + Latest(Batch(times, n, resolution)))
            == CurrentAndPrevious(times, n + 1, resolution)
  {
    var held, next := CurrentAndPrevious(times, n, resolution), CurrentAndPrevious(times, n + 1, resolution);
    var s := Truncate(times[n - 1], resolution);
    var t := s + resolution;
    TruncateMonotone(times[0], times[n - 1], resolution);
    AlignedNeighbours(s, resolution);
    UnixOrder(s - resolution, s, resolution);
    UnixOrder(s, t, resolution);
    var closing, now := MetricsSnapshot(Window(s, t), times[n]), MetricsSnapshot(Window(t, t + resolution), times[n]);
    assert Batch(times, n, resolution) == [closing, now];
    LatestOfTwo(closing, now);
    if Truncate(times[0], resolution) == s {
      assert held + Latest([closing, now]) == next;
      RetainsAllOfFew(next);
    } else {
      NewestOfThree(Unix(s - resolution), Unix(s), Unix(t));
      assert (held + Latest([closing, now])).Keys == {Unix(s - resolution), Unix(s), Unix(t)};
    }
  }

  /** One snapshot of a run moves the retained windows exactly one step on. */
  lemma RetainedStep(times: seq<Instant>, n: nat, resolution: Duration)
    requires IsRun(times, resolution) && SkipsNoWindow(times, resolution)
    requires resolution % SECOND == 0 && 0 < n < |times|
    ensures Retain(CurrentAndPrevious(times, n, resolution) + Latest(Batch(times, n, resolution)))
            == CurrentAndPrevious(times, n + 1, resolution)
  {
    TruncateMonotone(times[n - 1], times[n], resolution);
    if Truncate(times[n], resolution) == Truncate(times[n - 1], resolution) {
      StepInsideWindow(times, n, resolution);
    } else {
      StepIntoNextWindow(times, n, resolution);
    }
  }

  /** After any uninterrupted run the cache holds the current window and, once a boundary has been
      crossed, the window before it with its closing snapshot; nothing else. */
  lemma {:induction false} RunRetains(times: seq<Instant>, ok: seq<bool>, n: nat, resolution: Duration)
    requires IsRun(times, resolution) && SkipsNoWindow(times, resolution)
    requires resolution % SECOND == 0 && 0 < n <= |times| == |ok|
    requires forall i :: 0 <= i < n ==> ok[i]
    ensures Retain(Latest(History(times, ok, n, resolution))) == CurrentAndPrevious(times, n, resolution)
  {
    if n == 1 {
      var s := Truncate(times[0], resolution);
      var first := MetricsSnapshot(Window(s, s + resolution), times[0]);
      assert History(times, ok, 1, resolution) == [first];
      LatestOfOne(first);
      RetainsAllOfFew(CurrentAndPrevious(times, 1, resolution));
    } else {
      RunRetains(times, ok, n - 1, resolution);
      var h := History(times, ok, n - 1, resolution);
      UpdateRetains(CurrentAndPrevious(times, n - 1, resolution), h, Batch(times, n - 1, resolution)) by {
        RetainsRetained(Latest(h));
      }
      RetainedStep(times, n - 1, resolution);
    }
  }

  lemma PreviousWasClosed(times: seq<Instant>, n: nat, resolution: Duration)
    requires IsRun(times, resolution) && SkipsNoWindow(times, resolution) && 0 < n <= |times|
    requires Truncate(times[0], resolution) < Truncate(times[n - 1], resolution)
    ensures Closes(times, Entered(times, n, resolution), Truncate(times[n - 1], resolution) - resolution, resolution)
  {
    var c := Entered(times, n, resolution);
    EnteredIsFirst(times, n, resolution);
    TruncateMonotone(times[c - 1], times[c], resolution);
    ClosedByLeaving(times, c, Truncate(times[n - 1], resolution) - resolution, resolution);
  }

  /** The cache answers the current window with the last snapshot and the one before with snapshot c. */
  ghost predicate Answers(m: Cache, times: seq<Instant>, n: nat, c: nat, resolution: Duration)
    requires 0 < n <= |times| && c < |times|
  {
    var s := Truncate(times[n - 1], resolution);
    && Lookup(m, s) == Some(MetricsSnapshot(Window(s, s + resolution), times[n - 1]))
    && (Truncate(times[0], resolution) < s ==>
          Lookup(m, s - resolution) == Some(MetricsSnapshot(Window(s - resolution, s), times[c])))
  }

  lemma HeldAnswers(m: Cache, times: seq<Instant>, n: nat, resolution: Duration)
    requires IsRun(times, resolution) && resolution % SECOND == 0 && 0 < n <= |times|
    requires m == CurrentAndPrevious(times, n, resolution)
    ensures Answers(m, times, n, Entered(times, n, resolution), resolution)
  {
    var s := Truncate(times[n - 1], resolution);
    AlignedNeighbours(s, resolution);
    UnixOrder(s - resolution, s, resolution);
  }

  lemma RunHolds(times: seq<Instant>, ok: seq<bool>, resolution: Duration)
    requires IsRun(times, resolution) && SkipsNoWindow(times, resolution) && |times| == |ok|
    requires resolution % SECOND == 0
    requires forall i :: 0 <= i < |ok| ==> ok[i]
    ensures Answers(Retain(Latest(History(times, ok, |times|, resolution))), times, |times|,
                    Entered(times, |times|, resolution), resolution)
  {
    var m := Retain(Latest(History(times, ok, |times|, resolution)));
    RunRetains(times, ok, |times|, resolution);
    HeldAnswers(m, times, |times|, resolution);
  }

  /** End to end: after an uninterrupted run the cache answers the current window with the last
      snapshot, and the window just left with the one snapshot that closed it. */
  lemma RunAnswers(times: seq<Instant>, ok: seq<bool>, resolution: Duration) returns (c: nat)
    requires IsRun(times, resolution) && SkipsNoWindow(times, resolution) && |times| == |ok|
    requires resolution % SECOND == 0
    requires forall i :: 0 <= i < |ok| ==> ok[i]
    ensures c < |times|
    ensures Answers(Retain(Latest(History(times, ok, |times|, resolution))), times, |times|, c, resolution)
    ensures var s := Truncate(times[|times| - 1], resolution);
            Truncate(times[0], resolution) < s ==> Closes(times, c, s - resolution, resolution)
  {
    RunHolds(times, ok, resolution);
    c := Entered(times, |times|, resolution);
    if Truncate(times[0], resolution) < Truncate(times[|times| - 1], resolution) {
      PreviousWasClosed(times, |times|, resolution);
    }
  }
}
