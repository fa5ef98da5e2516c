/** The snapshot provider and the metrics adapter it feeds, driven by the export loop. */
module MetricsExport {
  import opened Wrappers
  import opened Instants
  import opened Collections
  import opened MetricsRetention
  import opened SnapshotWindows

  /** What one SnapshotOf call will meet: the windows whose queries fail, and whether the cluster
      info, Kubernetes and node-stats parts of the snapshot come back without an error. */
  datatype Attempt = Attempt(failing: set<Window>, clusterInfoOk: bool, kubernetesOk: bool, nodeStatsOk: bool)

  datatype MetricsSummary = MetricsSummary(
    minutely: seq<Option<MetricsSnapshot>>,
    hourly: seq<Option<MetricsSnapshot>>,
    daily: seq<Option<MetricsSnapshot>>)

  function Pointers(snapshots: seq<MetricsSnapshot>): seq<Option<MetricsSnapshot>> {
    seq(|snapshots|, i requires 0 <= i < |snapshots| => Some(snapshots[i]))
  }

  lemma {:induction false} PointersAreNonNil(snapshots: seq<MetricsSnapshot>)
    ensures NonNil(Pointers(snapshots)) == snapshots
  {
    if snapshots != [] {
      var n := |snapshots| - 1;
      assert Pointers(snapshots)[..n] == Pointers(snapshots[..n]);
      PointersAreNonNil(snapshots[..n]);
    }
  }

  ghost predicate AllQueriesSucceed(a: Attempt, now: Instant, last: Instant, resolution: Duration) {
    forall w :: w in SnapshotWindowsFor(now, last, resolution) ==> w !in a.failing
  }

  ghost predicate Succeeds(minutely: bool, a: Attempt, now: Instant, last: Instant) {
    && a.clusterInfoOk && a.kubernetesOk && a.nodeStatsOk
    && (minutely ==> AllQueriesSucceed(a, now, last, 10 * MINUTE))
    && AllQueriesSucceed(a, now, last, HOUR)
    && AllQueriesSucceed(a, now, last, DAY)
  }

  /** Any part that fails costs the whole snapshot, a query of any of its resolutions too; nothing else does. */
  lemma EveryPartCounts(minutely: bool, a: Attempt, now: Instant, last: Instant)
    ensures !a.clusterInfoOk || !a.kubernetesOk || !a.nodeStatsOk ==> !Succeeds(minutely, a, now, last)
    ensures forall resolution, w :: w in SnapshotWindowsFor(now, last, resolution) && w in a.failing ==>
              (resolution == HOUR || resolution == DAY || (minutely && resolution == 10 * MINUTE)) ==>
                !Succeeds(minutely, a, now, last)
    ensures Attempt(a.failing, true, true, true) == a && a.failing == {} ==> Succeeds(minutely, a, now, last)
    ensures !minutely && a.clusterInfoOk && a.kubernetesOk && a.nodeStatsOk
            && (forall w :: w in a.failing ==> w !in SnapshotWindowsFor(now, last, HOUR) && w !in SnapshotWindowsFor(now, last, DAY))
            ==> Succeeds(minutely, a, now, last)
  {
  }

  class SnapshotProvider {
    const minutelyMetricsEnabled: bool
    var lastSnapshot: Instant

    constructor (minutelyMetricsEnabled: bool)
      ensures this.minutelyMetricsEnabled == minutelyMetricsEnabled
      ensures lastSnapshot == ZERO_TIME
    {
      this.minutelyMetricsEnabled := minutelyMetricsEnabled;
      lastSnapshot := ZERO_TIME;
    }

    /** Queries every window of one resolution; windows whose query fails are left out. */
    static method SnapshotWindowedMetrics(a: Attempt, resolution: Duration, now: Instant, last: Instant)
      returns (snapshots: seq<MetricsSnapshot>, errors: nat)
      ensures errors == 0 <==> AllQueriesSucceed(a, now, last, resolution)
      ensures errors == 0 ==> snapshots == SnapshotsOf(SnapshotWindowsFor(now, last, resolution), now)
      ensures |snapshots| + errors == |SnapshotWindowsFor(now, last, resolution)|
      ensures forall x :: x in snapshots ==> x.window !in a.failing && x.taken == now
    {
      var windows := SnapshotWindowsFor(now, last, resolution);
      snapshots, errors := [], 0;
      for i := 0 to |windows|
        invariant |snapshots| + errors == i
        invariant errors == 0 <==> forall j :: 0 <= j < i ==> windows[j] !in a.failing
        invariant errors == 0 ==> snapshots == SnapshotsOf(windows[..i], now)
        invariant forall x :: x in snapshots ==> x.window !in a.failing && x.taken == now
      {
        if windows[i] in a.failing {
          errors := errors + 1;
        } else {
          snapshots := snapshots + [MetricsSnapshot(windows[i], now)];
        }
      }
      assert windows[..|windows|] == windows;
    }

    /** The metrics cache is off; lastSnapshot is set on success and on failure alike. */
    method SnapshotOf(a: Attempt, now: Instant) returns (r: Option<MetricsSummary>)
      modifies this
      ensures lastSnapshot == now
      ensures r.Some? <==> Succeeds(minutelyMetricsEnabled, a, now, old(lastSnapshot))
      ensures r.Some? ==>
                && r.value.hourly == Pointers(SnapshotsOf(SnapshotWindowsFor(now, old(lastSnapshot), HOUR), now))
                && r.value.daily == Pointers(SnapshotsOf(SnapshotWindowsFor(now, old(lastSnapshot), DAY), now))
                && r.value.minutely == if minutelyMetricsEnabled
                                       then Pointers(SnapshotsOf(SnapshotWindowsFor(now, old(lastSnapshot), 10 * MINUTE), now))
                                       else []
    {
      var last := lastSnapshot;
      lastSnapshot := now;
      var minutely, errors := [], 0;
      if minutelyMetricsEnabled {
        minutely, errors := SnapshotWindowedMetrics(a, 10 * MINUTE, now, last);
      }
      var hourly, hourlyErrors := SnapshotWindowedMetrics(a, HOUR, now, last);
      var daily, dailyErrors := SnapshotWindowedMetrics(a, DAY, now, last);
      if errors + hourlyErrors + dailyErrors > 0 || !a.clusterInfoOk || !a.kubernetesOk || !a.nodeStatsOk {
        return None;
      }
      r := Some(MetricsSummary(Pointers(minutely), Pointers(hourly), Pointers(daily)));
    }
  }

  class MetricsQuerierAdapter {
    const tenMinuteResolution: MetricsResolution
    const hourlyResolution: MetricsResolution
    const dailyResolution: MetricsResolution

    ghost predicate Valid()
      reads tenMinuteResolution, hourlyResolution, dailyResolution
    {
      && tenMinuteResolution != hourlyResolution
      && tenMinuteResolution != dailyResolution
      && hourlyResolution != dailyResolution
      && tenMinuteResolution.resolution == 10 * MINUTE
      && hourlyResolution.resolution == HOUR
      && dailyResolution.resolution == DAY
      && tenMinuteResolution.Valid() && hourlyResolution.Valid() && dailyResolution.Valid()
    }

    constructor (summary: MetricsSummary)
      ensures Valid()
      ensures fresh(tenMinuteResolution) && fresh(hourlyResolution) && fresh(dailyResolution)
      ensures tenMinuteResolution.history == NonNil(summary.minutely)
      ensures hourlyResolution.history == NonNil(summary.hourly)
      ensures dailyResolution.history == NonNil(summary.daily)
      ensures tenMinuteResolution.snapshots == Latest(NonNil(summary.minutely))
      ensures hourlyResolution.snapshots == Latest(NonNil(summary.hourly))
      ensures dailyResolution.snapshots == Latest(NonNil(summary.daily))
    {
      tenMinuteResolution := new MetricsResolution(10 * MINUTE, summary.minutely);
      hourlyResolution := new MetricsResolution(HOUR, summary.hourly);
      dailyResolution := new MetricsResolution(DAY, summary.daily);
    }

    /** The adapter has seen the first n snapshots of a run, as the class promises for each cache. */
    ghost predicate Tracks(minutely: bool, times: seq<Instant>, ok: seq<bool>, n: nat)
      requires n <= |times| == |ok|
      reads tenMinuteResolution, hourlyResolution, dailyResolution
    {
      && Valid()
      && Mirrors(hourlyResolution.history, hourlyResolution.snapshots, times, ok, n, HOUR)
      && Mirrors(dailyResolution.history, dailyResolution.snapshots, times, ok, n, DAY)
      && (minutely ==> Mirrors(tenMinuteResolution.history, tenMinuteResolution.snapshots, times, ok, n, 10 * MINUTE))
      && (!minutely ==> tenMinuteResolution.snapshots == map[])
    }

    /** Each eviction loop goes on reading the clock where the one before has stopped. */
    method Update(summary: MetricsSummary, clock: Clock, at: nat) returns (next: nat)
      requires Valid() && Ordered(clock)
      requires |summary.minutely| > 0 ==> EvictionCanEnd(tenMinuteResolution.snapshots, summary.minutely, clock)
      requires |summary.hourly| > 0 ==> EvictionCanEnd(hourlyResolution.snapshots, summary.hourly, clock)
      requires |summary.daily| > 0 ==> EvictionCanEnd(dailyResolution.snapshots, summary.daily, clock)
      modifies tenMinuteResolution, hourlyResolution, dailyResolution
      ensures Valid() && next >= at
      ensures tenMinuteResolution.history == old(tenMinuteResolution.history) + NonNil(summary.minutely)
      ensures hourlyResolution.history == old(hourlyResolution.history) + NonNil(summary.hourly)
      ensures dailyResolution.history == old(dailyResolution.history) + NonNil(summary.daily)
      ensures Refreshed(summary.minutely, old(tenMinuteResolution.snapshots), tenMinuteResolution.snapshots, tenMinuteResolution.history)
      ensures Refreshed(summary.hourly, old(hourlyResolution.snapshots), hourlyResolution.snapshots, hourlyResolution.history)
      ensures Refreshed(summary.daily, old(dailyResolution.snapshots), dailyResolution.snapshots, dailyResolution.history)
    {
      next := tenMinuteResolution.Update(summary.minutely, clock, at);
      next := hourlyResolution.Update(summary.hourly, clock, next);
      next := dailyResolution.Update(summary.daily, clock, next);
    }

    /** A query is answered by the resolution whose length it has, and by no other. */
    method MetricsSnapshotFor(start: Instant, end: Instant) returns (r: Option<MetricsSnapshot>)
      requires Valid()
      ensures end - start == 10 * MINUTE ==> r == Lookup(tenMinuteResolution.snapshots, Truncate(start, 10 * MINUTE))
      ensures end - start == HOUR ==> r == Lookup(hourlyResolution.snapshots, Truncate(start, HOUR))
      ensures end - start == DAY ==> r == Lookup(dailyResolution.snapshots, Truncate(start, DAY))
      ensures end - start !in {10 * MINUTE, HOUR, DAY} ==> r == None
    {
      var t := end - start;
      if t == 10 * MINUTE {
        r := tenMinuteResolution.SnapshotFor(start, end);
      } else if t == HOUR {
        r := hourlyResolution.SnapshotFor(start, end);
      } else if t == DAY {
        r := dailyResolution.SnapshotFor(start, end);
      } else {
        r := None;
      }
    }
  }

  ghost predicate Refreshed(batch: seq<Option<MetricsSnapshot>>, before: Cache, after: Cache, history: seq<MetricsSnapshot>) {
    after == if |batch| == 0 then before else Retain(Latest(history))
  }

  /** A cache and the history behind it agree with the first n snapshots of a run. */
  ghost predicate Mirrors(history: seq<MetricsSnapshot>, snapshots: Cache, times: seq<Instant>, ok: seq<bool>, n: nat, resolution: Duration)
    requires n <= |times| == |ok|
  {
    && history == History(times, ok, n, resolution)
    && snapshots == Retain(Latest(history))
  }

  // ---------- The export loop ----------

  /** Which snapshots of a run succeed. */
  ghost function Outcomes(minutely: bool, times: seq<Instant>, attempts: seq<Attempt>): (ok: seq<bool>)
    requires |times| == |attempts|
    ensures |ok| == |times|
  {
    seq(|times|, i requires 0 <= i < |times| =>
      Succeeds(minutely, attempts[i], times[i], if i == 0 then ZERO_TIME else times[i - 1]))
  }

  /** Every window start handed over so far lies at or before the last snapshot time. */
  lemma {:induction false} StartsAreNotFuture(times: seq<Instant>, ok: seq<bool>, n: nat, resolution: Duration, now: int)
    requires IsRun(times, resolution) && 0 < n <= |times| == |ok|
    requires Unix(times[n - 1]) <= now
    ensures forall x :: x in History(times, ok, n, resolution) ==> x.Key() <= now
  {
    forall x | x in History(times, ok, n, resolution) ensures x.Key() <= now {
      HistoryMembers(times, ok, n, resolution, x);
    }
  }

  lemma EvictionWillEnd(m: Cache, h: seq<MetricsSnapshot>, batch: seq<MetricsSnapshot>, clock: Clock, i: nat)
    requires m == Retain(Latest(h))
    requires forall x :: x in h + batch ==> x.Key() <= clock(i)
    ensures EvictionCanEnd(m, Pointers(batch), clock)
  {
    PointersAreNonNil(batch);
    LatestKeys(h);
    LatestKeys(batch);
    forall k | k in (m + Latest(batch)).Keys ensures k <= clock(i) {
      if k in Latest(batch) {
        var x :| x in batch && x.Key() == k;
        assert x in h + batch;
      } else {
        var x :| x in h && x.Key() == k;
        assert x in h + batch;
      }
    }
    assert Future((m + Latest(batch)).Keys, clock(i)) == {};
  }

  /** One resolution's share of a step of the loop. */
  lemma StepEvictionEnds(history: seq<MetricsSnapshot>, m: Cache, times: seq<Instant>, ok: seq<bool>, n: nat, resolution: Duration, clock: Clock)
    requires IsRun(times, resolution) && 0 < n < |times| == |ok| && ok[n]
    requires Mirrors(history, m, times, ok, n, resolution)
    requires Reaches(clock, Unix(times[n]))
    ensures EvictionCanEnd(m, Pointers(Batch(times, n, resolution)), clock)
    ensures |Pointers(Batch(times, n, resolution))| > 0
    ensures history + NonNil(Pointers(Batch(times, n, resolution))) == History(times, ok, n + 1, resolution)
  {
    var i: nat :| clock(i) >= Unix(times[n]);
    StartsAreNotFuture(times, ok, n + 1, resolution, clock(i));
    EvictionWillEnd(m, history, Batch(times, n, resolution), clock, i);
    PointersAreNonNil(Batch(times, n, resolution));
  }

  lemma FirstStep(times: seq<Instant>, ok: seq<bool>, resolution: Duration)
    requires IsRun(times, resolution) && |times| == |ok| && ok[0]
    ensures var h := NonNil(Pointers(Batch(times, 0, resolution)));
            Mirrors(h, Latest(h), times, ok, 1, resolution)
  {
    PointersAreNonNil(Batch(times, 0, resolution));
    assert History(times, ok, 1, resolution) == Batch(times, 0, resolution);
    var s := Truncate(times[0], resolution);
    var first := MetricsSnapshot(Window(s, s + resolution), times[0]);
    assert Batch(times, 0, resolution) == [first];
    LatestOfOne(first);
    RetainsAllOfFew(Latest([first]));
  }

  /** The first snapshot initialises the adapter; when it fails the exporter goroutine ends. */
  method Start(provider: SnapshotProvider, times: seq<Instant>, attempts: seq<Attempt>)
    returns (adapter: MetricsQuerierAdapter?)
    requires IsRun(times, 10 * MINUTE) && |times| == |attempts|
    requires provider.lastSnapshot == ZERO_TIME
    modifies provider
    ensures provider.lastSnapshot == times[0]
    ensures adapter != null <==> Outcomes(provider.minutelyMetricsEnabled, times, attempts)[0]
    ensures adapter != null ==>
              && fresh(adapter.tenMinuteResolution) && fresh(adapter.hourlyResolution) && fresh(adapter.dailyResolution)
              && adapter.Tracks(provider.minutelyMetricsEnabled, times,
                                Outcomes(provider.minutelyMetricsEnabled, times, attempts), 1)
  {
    ghost var ok := Outcomes(provider.minutelyMetricsEnabled, times, attempts);
    var first := provider.SnapshotOf(attempts[0], times[0]);
    if first.None? {
      return null;
    }
    FirstStep(times, ok, 10 * MINUTE);
    FirstStep(times, ok, HOUR);
    FirstStep(times, ok, DAY);
    adapter := new MetricsQuerierAdapter(first.value);
  }

  /** A failed snapshot leaves the adapter as it is. */
  lemma Unchanged(adapter: MetricsQuerierAdapter, minutely: bool, times: seq<Instant>, ok: seq<bool>, i: nat)
    requires i < |times| == |ok| && !ok[i] && adapter.Tracks(minutely, times, ok, i)
    ensures adapter.Tracks(minutely, times, ok, i + 1)
  {
  }

  lemma OutcomeAt(minutely: bool, times: seq<Instant>, attempts: seq<Attempt>, i: nat)
    requires 0 < i < |times| == |attempts|
    ensures Outcomes(minutely, times, attempts)[i] == Succeeds(minutely, attempts[i], times[i], times[i - 1])
  {
  }

  /** Snapshot i of the loop: it updates the adapter, or is skipped when it fails. */
  method Emit(provider: SnapshotProvider, adapter: MetricsQuerierAdapter,
              times: seq<Instant>, attempts: seq<Attempt>, i: nat, clock: Clock, at: nat)
    returns (next: nat)
    requires IsRun(times, 10 * MINUTE) && 0 < i < |times| == |attempts|
    requires provider.lastSnapshot == times[i - 1] && Ordered(clock) && Reaches(clock, Unix(times[i]))
    requires adapter.Tracks(provider.minutelyMetricsEnabled, times,
                            Outcomes(provider.minutelyMetricsEnabled, times, attempts), i)
    modifies provider, adapter.tenMinuteResolution, adapter.hourlyResolution, adapter.dailyResolution
    ensures provider.lastSnapshot == times[i]
    ensures adapter.Tracks(provider.minutelyMetricsEnabled, times,
                           Outcomes(provider.minutelyMetricsEnabled, times, attempts), i + 1)
  {
    ghost var ok := Outcomes(provider.minutelyMetricsEnabled, times, attempts);
    var snapshot := provider.SnapshotOf(attempts[i], times[i]);
    OutcomeAt(provider.minutelyMetricsEnabled, times, attempts, i);
    if snapshot.Some? {
      next := Follow(adapter, snapshot.value, provider.minutelyMetricsEnabled, times, ok, i, clock, at);
    } else {
      next := at;
      Unchanged(adapter, provider.minutelyMetricsEnabled, times, ok, i);
    }
  }

  /** The adapter takes in snapshot i. */
  method Follow(adapter: MetricsQuerierAdapter, summary: MetricsSummary, minutely: bool,
                times: seq<Instant>, ghost ok: seq<bool>, i: nat, clock: Clock, at: nat)
    returns (next: nat)
    requires IsRun(times, 10 * MINUTE) && 0 < i < |times| == |ok| && ok[i]
    requires Ordered(clock) && Reaches(clock, Unix(times[i]))
    requires adapter.Tracks(minutely, times, ok, i)
    requires summary.hourly == Pointers(Batch(times, i, HOUR)) && summary.daily == Pointers(Batch(times, i, DAY))
    requires summary.minutely == if minutely then Pointers(Batch(times, i, 10 * MINUTE)) else []
    modifies adapter.tenMinuteResolution, adapter.hourlyResolution, adapter.dailyResolution
    ensures adapter.Tracks(minutely, times, ok, i + 1)
  {
    var a := adapter;
    StepEvictionEnds(a.hourlyResolution.history, a.hourlyResolution.snapshots, times, ok, i, HOUR, clock);
    StepEvictionEnds(a.dailyResolution.history, a.dailyResolution.snapshots, times, ok, i, DAY, clock);
    if minutely {
      StepEvictionEnds(a.tenMinuteResolution.history, a.tenMinuteResolution.snapshots, times, ok, i, 10 * MINUTE, clock);
    }
    next := adapter.Update(summary, clock, at);
  }

  /** The exporter goroutine up to any moment. */
  method ExportLoop(provider: SnapshotProvider, times: seq<Instant>, attempts: seq<Attempt>, clock: Clock)
    returns (adapter: MetricsQuerierAdapter?)
    requires IsRun(times, 10 * MINUTE) && |times| == |attempts|
    requires Ordered(clock) && forall i :: 0 <= i < |times| ==> Reaches(clock, Unix(times[i]))
    requires provider.lastSnapshot == ZERO_TIME
    modifies provider
    ensures adapter != null <==> Outcomes(provider.minutelyMetricsEnabled, times, attempts)[0]
    ensures adapter != null ==>
              adapter.Tracks(provider.minutelyMetricsEnabled, times,
                             Outcomes(provider.minutelyMetricsEnabled, times, attempts), |times|)
  {
    adapter := Start(provider, times, attempts);
    if adapter != null {
      var i, at := 1, 0;
      while i < |times|
        invariant 1 <= i <= |times|
        invariant fresh(adapter.tenMinuteResolution) && fresh(adapter.hourlyResolution) && fresh(adapter.dailyResolution)
        invariant provider.lastSnapshot == times[i - 1]
        invariant adapter.Tracks(provider.minutelyMetricsEnabled, times,
                                 Outcomes(provider.minutelyMetricsEnabled, times, attempts), i)
      {
        at := Emit(provider, adapter, times, attempts, i, clock, at);
        i := i + 1;
      }
    }
  }
}
