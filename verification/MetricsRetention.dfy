/** The bounded cache of metric snapshots kept for one resolution. */
module MetricsRetention {
  import opened Wrappers
  import opened Instants
  import opened Collections

  const MAX_BACKFILL_SNAPSHOTS := 2

  /** A closed query window [start, end). */
  datatype Window = Window(start: Instant, end: Instant)

  /** The metrics of one window; `taken` identifies the queries that produced them. */
  datatype MetricsSnapshot = MetricsSnapshot(window: Window, taken: Instant)
  {
    function Key(): int {
      Unix(window.start)
    }
  }

  type Cache = map<int, MetricsSnapshot>

  // ---------- What the cache should hold ----------

  function NonNil(batch: seq<Option<MetricsSnapshot>>): seq<MetricsSnapshot> {
    if batch == [] then []
    else NonNil(batch[..|batch| - 1]) + (match batch[|batch| - 1] case None => [] case Some(s) => [s])
  }

  lemma NonNilNext(batch: seq<Option<MetricsSnapshot>>, i: nat)
    requires i < |batch|
    ensures batch[i].None? ==> NonNil(batch[..i + 1]) == NonNil(batch[..i])
    ensures batch[i].Some? ==> NonNil(batch[..i + 1]) == NonNil(batch[..i]) + [batch[i].value]
  {
    assert batch[..i + 1][..i] == batch[..i];
  }

  /** The latest snapshot of every window start in a history. */
  function Latest(history: seq<MetricsSnapshot>): Cache {
    if history == [] then map[]
    else
      var last := history[|history| - 1];
      Latest(history[..|history| - 1])[last.Key() := last]
  }

  function Newer(keys: set<int>, k: int): set<int> {
    set a | a in keys && a > k
  }

  /** The greatest MAX_BACKFILL_SNAPSHOTS members of a set. */
  function Newest(keys: set<int>): set<int> {
    set k | k in keys && |Newer(keys, k)| < MAX_BACKFILL_SNAPSHOTS
  }

  function Retain(m: Cache): Cache {
    map k | k in Newest(m.Keys) :: m[k]
  }

  // ---------- Facts about retention ----------

  lemma SmallIsKept(keys: set<int>)
    requires |keys| <= MAX_BACKFILL_SNAPSHOTS
    ensures Newest(keys) == keys
  {
    forall k | k in keys ensures |Newer(keys, k)| < MAX_BACKFILL_SNAPSHOTS {
      assert Newer(keys, k) <= keys - {k};
      SubsetSize(Newer(keys, k), keys - {k});
    }
  }

  /** Removing a key that has enough newer ones changes nothing that is kept. */
  lemma StaleDrops(keys: set<int>, x: int)
    requires |Newer(keys, x)| >= MAX_BACKFILL_SNAPSHOTS
    ensures Newest(keys - {x}) == Newest(keys)
  {
    forall k | k in keys && k != x
      ensures |Newer(keys - {x}, k)| < MAX_BACKFILL_SNAPSHOTS <==> |Newer(keys, k)| < MAX_BACKFILL_SNAPSHOTS
    {
      if k > x {
        assert Newer(keys - {x}, k) == Newer(keys, k);
      } else {
        assert Newer(keys, x) <= Newer(keys - {x}, k);
        SubsetSize(Newer(keys, x), Newer(keys - {x}, k));
        SubsetSize(Newer(keys, x), Newer(keys, k));
      }
    }
  }

  lemma SmallestIsStale(keys: set<int>, x: int)
    requires |keys| > MAX_BACKFILL_SNAPSHOTS
    requires x in keys && forall k :: k in keys ==> x <= k
    ensures |Newer(keys, x)| >= MAX_BACKFILL_SNAPSHOTS
  {
    assert Newer(keys, x) == keys - {x};
  }

  lemma SmallestExists(keys: set<int>) returns (x: int)
    requires keys != {}
    ensures x in keys && forall k :: k in keys ==> x <= k
  {
    var z := AnyOf(keys);
    var rest := keys - {z};
    x := z;
    if rest != {} {
      var y := SmallestExists(rest);
      x := if y < z then y else z;
    }
    assert forall k :: k in keys ==> k == z || k in rest;
  }

  /** Exactly the two greatest starts survive: no dropped start is newer than a kept one. */
  lemma {:induction false} NewestAreTheGreatest(keys: set<int>)
    ensures Newest(keys) <= keys
    ensures |Newest(keys)| == if |keys| <= MAX_BACKFILL_SNAPSHOTS then |keys| else MAX_BACKFILL_SNAPSHOTS
    ensures forall a, b :: a in keys - Newest(keys) && b in Newest(keys) ==> a < b
    decreases |keys|
  {
    if |keys| <= MAX_BACKFILL_SNAPSHOTS {
      SmallIsKept(keys);
    } else {
      var x := SmallestExists(keys);
      SmallestIsStale(keys, x);
      StaleDrops(keys, x);
      NewestAreTheGreatest(keys - {x});
      forall a, b | a in keys - Newest(keys) && b in Newest(keys) ensures a < b {
        assert b in keys - {x};
        assert a != x ==> a in (keys - {x}) - Newest(keys - {x});
      }
    }
  }

  lemma RetainDropsStale(m: Cache, x: int)
    requires |Newer(m.Keys, x)| >= MAX_BACKFILL_SNAPSHOTS
    ensures Retain(m - {x}) == Retain(m)
  {
    StaleDrops(m.Keys, x);
    assert (m - {x}).Keys == m.Keys - {x};
  }

  lemma RetainsAllOfFew(m: Cache)
    requires |m| <= MAX_BACKFILL_SNAPSHOTS
    ensures Retain(m) == m
  {
    assert |m| == |m.Keys|;
    SmallIsKept(m.Keys);
  }

  lemma UpdateDropsStale(m: Cache, n: Cache, x: int)
    requires |Newer(m.Keys, x)| >= MAX_BACKFILL_SNAPSHOTS
    ensures Retain((m - {x}) + n) == Retain(m + n)
  {
    if x in n {
      assert (m - {x}) + n == m + n;
    } else {
      assert Newer(m.Keys, x) <= Newer((m + n).Keys, x);
      SubsetSize(Newer(m.Keys, x), Newer((m + n).Keys, x));
      RetainDropsStale(m + n, x);
      assert (m - {x}) + n == (m + n) - {x};
    }
  }

  /** Forgetting what is not retained, before an update, does not change what is retained after it. */
  lemma {:induction false} RetainThenUpdate(m: Cache, n: Cache)
    ensures Retain(Retain(m) + n) == Retain(m + n)
    decreases |m.Keys|
  {
    assert |m| == |m.Keys|;
    if |m| <= MAX_BACKFILL_SNAPSHOTS {
      RetainsAllOfFew(m);
    } else {
      var x := SmallestExists(m.Keys);
      SmallestIsStale(m.Keys, x);
      RetainDropsStale(m, x);
      assert (m - {x}).Keys == m.Keys - {x};
      RetainThenUpdate(m - {x}, n);
      UpdateDropsStale(m, n, x);
    }
  }

  lemma {:induction false} LatestOfConcat(h: seq<MetricsSnapshot>, more: seq<MetricsSnapshot>)
    ensures Latest(h + more) == Latest(h) + Latest(more)
  {
    if more == [] {
      assert h + more == h;
    } else {
      var n := |more| - 1;
      assert (h + more)[..|h + more| - 1] == h + more[..n];
      LatestOfConcat(h, more[..n]);
    }
  }

  /** One Update: a cache that retains a history also retains the history with a batch added. */
  lemma UpdateRetains(m: Cache, h: seq<MetricsSnapshot>, batch: seq<MetricsSnapshot>)
    requires Retain(m) == Retain(Latest(h))
    ensures Retain(m + Latest(batch)) == Retain(Latest(h + batch))
  {
    RetainThenUpdate(m, Latest(batch));
    RetainThenUpdate(Latest(h), Latest(batch));
    LatestOfConcat(h, batch);
  }

  lemma RetainsRetained(m: Cache)
    ensures Retain(Retain(m)) == Retain(m)
  {
    NewestAreTheGreatest(m.Keys);
    assert Retain(m).Keys == Newest(m.Keys) && |Retain(m)| == |Retain(m).Keys|;
    RetainsAllOfFew(Retain(m));
  }

  lemma LatestNext(m: Cache, h: seq<MetricsSnapshot>, s: MetricsSnapshot)
    ensures Latest(h + [s]) == Latest(h)[s.Key() := s]
    ensures m + Latest(h + [s]) == (m + Latest(h))[s.Key() := s]
  {
    assert (h + [s])[..|h|] == h;
  }

  /** Latest, said directly: the entry of a key is the last element of the history with that key. */
  lemma {:induction false} LatestIsLast(h: seq<MetricsSnapshot>, i: nat)
    requires i < |h|
    requires forall j :: i < j < |h| ==> h[j].Key() != h[i].Key()
    ensures h[i].Key() in Latest(h) && Latest(h)[h[i].Key()] == h[i]
  {
    var n := |h| - 1;
    if i < n {
      assert h[n].Key() != h[i].Key();
      LatestIsLast(h[..n], i);
    }
  }

  lemma {:induction false} LatestKeys(h: seq<MetricsSnapshot>)
    ensures Latest(h).Keys == set s | s in h :: s.Key()
  {
    if h != [] {
      var n := |h| - 1;
      LatestKeys(h[..n]);
      assert h == h[..n] + [h[n]];
    }
  }

  // ---------- The eviction loop ----------

  function Future(keys: set<int>, now: int): set<int> {
    Newer(keys, now)
  }

  /** The key one pass deletes: the smallest key, or the clock reading when every key is later. */
  ghost predicate IsOldest(keys: set<int>, now: int, oldest: int) {
    && (oldest == now || oldest in keys)
    && oldest <= now
    && forall k :: k in keys ==> oldest <= k
  }

  ghost function Oldest(keys: set<int>, now: int): (oldest: int)
    ensures IsOldest(keys, now, oldest)
  {
    if keys == {} then now
    else
      var k := AnyOf(keys);
      var rest := Oldest(keys - {k}, now);
      assert forall j :: j in keys ==> j == k || j in keys - {k};
      if k < rest then k else rest
  }

  /** The readings of the clock, one a pass: the source reads it anew each time. */
  type Clock = nat -> int

  ghost predicate Ordered(clock: Clock) {
    forall i: nat, j: nat :: i <= j ==> clock(i) <= clock(j)
  }

  /** The keys left after a number of passes of the loop. */
  ghost function Evicted(keys: set<int>, clock: Clock, passes: nat): set<int> {
    if passes == 0 then keys
    else
      var rest := Evicted(keys, clock, passes - 1);
      if |rest| <= MAX_BACKFILL_SNAPSHOTS then rest else rest - {Oldest(rest, clock(passes - 1))}
  }

  lemma OldestIsStale(keys: set<int>, now: int)
    requires |keys| > MAX_BACKFILL_SNAPSHOTS
    ensures Newest(keys - {Oldest(keys, now)}) == Newest(keys)
  {
    var x := Oldest(keys, now);
    if x in keys {
      SmallestIsStale(keys, x);
      StaleDrops(keys, x);
    } else {
      assert keys - {x} == keys;
    }
  }

  /** However the clock runs, the loop takes away nothing that is to be retained. */
  lemma {:induction false} EvictedKeepsNewest(keys: set<int>, clock: Clock, passes: nat)
    ensures Evicted(keys, clock, passes) <= keys
    ensures Newest(Evicted(keys, clock, passes)) == Newest(keys)
  {
    if passes > 0 {
      EvictedKeepsNewest(keys, clock, passes - 1);
      var rest := Evicted(keys, clock, passes - 1);
      if |rest| > MAX_BACKFILL_SNAPSHOTS {
        OldestIsStale(rest, clock(passes - 1));
      }
    }
  }

  /** A key later than the last reading is still there. */
  lemma {:induction false} FutureKeysStay(keys: set<int>, clock: Clock, passes: nat)
    requires Ordered(clock) && passes > 0
    ensures Future(keys, clock(passes - 1)) <= Evicted(keys, clock, passes)
  {
    if passes > 1 {
      FutureKeysStay(keys, clock, passes - 1);
      assert clock(passes - 2) <= clock(passes - 1);
    }
  }

  lemma LaterIsFewer(rest: set<int>, keys: set<int>, earlier: int, later: int)
    requires rest <= keys && earlier <= later
    ensures |Future(rest, later)| <= |Future(keys, earlier)|
  {
    SubsetSize(Future(rest, later), Future(keys, earlier));
  }

  lemma OldestIsAKey(keys: set<int>, now: int, x: int)
    requires |keys| > MAX_BACKFILL_SNAPSHOTS && |Future(keys, now)| <= MAX_BACKFILL_SNAPSHOTS
    requires IsOldest(keys, now, x)
    ensures x in keys
  {
    if x !in keys {
      assert keys <= Future(keys, now);
      SubsetSize(keys, Future(keys, now));
    }
  }

  lemma PassDeletes(rest: set<int>, keys: set<int>, earlier: int, now: int)
    requires rest <= keys && earlier <= now && |Future(keys, earlier)| <= MAX_BACKFILL_SNAPSHOTS
    ensures |rest| > MAX_BACKFILL_SNAPSHOTS ==> |rest - {Oldest(rest, now)}| < |rest|
  {
    if |rest| > MAX_BACKFILL_SNAPSHOTS {
      LaterIsFewer(rest, keys, earlier, now);
      OldestIsAKey(rest, now, Oldest(rest, now));
    }
  }

  /** How many keys are left after a number of passes. */
  ghost function Left(keys: set<int>, clock: Clock, passes: nat): nat {
    |Evicted(keys, clock, passes)|
  }

  /** The pass after a reading that leaves at most two later keys deletes a key, if there are too many. */
  lemma PassShrinks(keys: set<int>, clock: Clock, i: nat, m: nat)
    requires Ordered(clock) && |Future(keys, clock(i))| <= MAX_BACKFILL_SNAPSHOTS && i < m
    ensures Left(keys, clock, m - 1) <= MAX_BACKFILL_SNAPSHOTS ==> Left(keys, clock, m) == Left(keys, clock, m - 1)
    ensures Left(keys, clock, m - 1) > MAX_BACKFILL_SNAPSHOTS ==> Left(keys, clock, m) < Left(keys, clock, m - 1)
  {
    EvictedKeepsNewest(keys, clock, m - 1);
    PassDeletes(Evicted(keys, clock, m - 1), keys, clock(i), clock(m - 1));
  }

  lemma NoMoreThanAtFirst(keys: set<int>, clock: Clock, i: nat)
    ensures Left(keys, clock, i) <= |keys|
  {
    EvictedKeepsNewest(keys, clock, i);
    SubsetSize(Evicted(keys, clock, i), keys);
  }

  /** Once a reading leaves at most two later keys, every pass deletes a key. */
  lemma {:induction false} PastKeysGo(keys: set<int>, clock: Clock, i: nat, m: nat)
    requires Ordered(clock) && |Future(keys, clock(i))| <= MAX_BACKFILL_SNAPSHOTS && i <= m
    ensures Left(keys, clock, m) <= MAX_BACKFILL_SNAPSHOTS || Left(keys, clock, m) + (m - i) <= |keys|
  {
    if i == m {
      NoMoreThanAtFirst(keys, clock, i);
    } else {
      PastKeysGo(keys, clock, i, m - 1);
      PassShrinks(keys, clock, i, m);
    }
  }

  /** Some reading leaves at most two later keys. */
  ghost predicate ClockPasses(keys: set<int>, clock: Clock) {
    exists i: nat :: |Future(keys, clock(i))| <= MAX_BACKFILL_SNAPSHOTS
  }

  /**
   * With a clock that never steps back the loop ends if and only if some reading leaves at most two
   * later keys; and whenever it ends, what is left are the newest keys.
   */
  lemma EvictionEnds(keys: set<int>, clock: Clock)
    requires Ordered(clock)
    ensures (exists n: nat :: |Evicted(keys, clock, n)| <= MAX_BACKFILL_SNAPSHOTS) <==> ClockPasses(keys, clock)
    ensures forall n: nat :: |Evicted(keys, clock, n)| <= MAX_BACKFILL_SNAPSHOTS ==> Evicted(keys, clock, n) == Newest(keys)
  {
    if ClockPasses(keys, clock) {
      var i: nat :| |Future(keys, clock(i))| <= MAX_BACKFILL_SNAPSHOTS;
      PastKeysGo(keys, clock, i, i + |keys|);
      assert |Evicted(keys, clock, i + |keys|)| <= MAX_BACKFILL_SNAPSHOTS;
    }
    forall n: nat | |Evicted(keys, clock, n)| <= MAX_BACKFILL_SNAPSHOTS
      ensures Evicted(keys, clock, n) == Newest(keys) && ClockPasses(keys, clock)
    {
      EvictedKeepsNewest(keys, clock, n);
      SmallIsKept(Evicted(keys, clock, n));
      if n > 0 {
        FutureKeysStay(keys, clock, n);
        SubsetSize(Future(keys, clock(n - 1)), Evicted(keys, clock, n));
      } else {
        SubsetSize(Future(keys, clock(0)), keys);
      }
    }
  }

  ghost predicate Reaches(clock: Clock, t: int) {
    exists i: nat :: clock(i) >= t
  }

  lemma UpperBound(keys: set<int>) returns (t: int)
    ensures forall k :: k in keys ==> k <= t
  {
    t := 0;
    if keys != {} {
      var z := AnyOf(keys);
      t := UpperBound(keys - {z});
      t := if t < z then z else t;
      assert forall k :: k in keys ==> k == z || k in keys - {z};
    }
  }

  /** Hence it always ends if the clock goes on. */
  lemma AdvancingClockEnds(keys: set<int>, clock: Clock)
    requires Ordered(clock) && forall t: int :: Reaches(clock, t)
    ensures exists n: nat :: |Evicted(keys, clock, n)| <= MAX_BACKFILL_SNAPSHOTS
  {
    var latest := UpperBound(keys);
    assert Reaches(clock, latest);
    var i: nat :| clock(i) >= latest;
    assert Future(keys, clock(i)) == {};
    EvictionEnds(keys, clock);
  }

  /** When the eviction loop of an update ends (EvictionEnds). */
  ghost predicate EvictionCanEnd(m: Cache, batch: seq<Option<MetricsSnapshot>>, clock: Clock) {
    ClockPasses((m + Latest(NonNil(batch))).Keys, clock)
  }

  /** One pass keeps what is retained, and deletes a key when at most two are later than the clock. */
  lemma EvictOne(m: Cache, now: int, oldest: int)
    requires |m| > MAX_BACKFILL_SNAPSHOTS && IsOldest(m.Keys, now, oldest)
    ensures Retain(m - {oldest}) == Retain(m)
    ensures |Future(m.Keys, now)| <= MAX_BACKFILL_SNAPSHOTS ==> |(m - {oldest}).Keys| < |m.Keys|
    ensures |(m - {oldest}).Keys| <= |m.Keys|
  {
    assert |m| == |m.Keys|;
    assert (m - {oldest}).Keys == m.Keys - {oldest};
    if |Future(m.Keys, now)| <= MAX_BACKFILL_SNAPSHOTS {
      OldestIsAKey(m.Keys, now, oldest);
    }
    if oldest in m {
      SmallestIsStale(m.Keys, oldest);
      RetainDropsStale(m, oldest);
    } else {
      assert m - {oldest} == m;
    }
  }

  // ---------- The cache itself ----------

  class MetricsResolution {
    const resolution: Duration
    var snapshots: Cache
    ghost var history: seq<MetricsSnapshot>

    ghost predicate Valid()
      reads this
    {
      Retain(snapshots) == Retain(Latest(history))
    }

    constructor (resolution: Duration, initSnapshots: seq<Option<MetricsSnapshot>>)
      ensures Valid() && this.resolution == resolution
      ensures history == NonNil(initSnapshots)
      ensures snapshots == Latest(history)
    {
      var m: Cache := map[];
      var i := 0;
      while i < |initSnapshots|
        invariant 0 <= i <= |initSnapshots|
        invariant m == Latest(NonNil(initSnapshots[..i]))
      {
        NonNilNext(initSnapshots, i);
        if initSnapshots[i].Some? {
          LatestNext(map[], NonNil(initSnapshots[..i]), initSnapshots[i].value);
          m := m[initSnapshots[i].value.Key() := initSnapshots[i].value];
        }
        i := i + 1;
      }
      assert initSnapshots[..i] == initSnapshots;
      this.resolution := resolution;
      snapshots := m;
      history := NonNil(initSnapshots);
    }

    /**
     * `clock` gives the readings of the clock in Unix seconds, of which the eviction loop takes one a
     * pass from the given one on; `next` is the first it has not taken. It ends exactly if some
     * reading leaves at most two later keys (EvictionEnds).
     */
    method Update(batch: seq<Option<MetricsSnapshot>>, clock: Clock, at: nat) returns (next: nat)
      requires Valid() && Ordered(clock)
      requires |batch| > 0 ==> EvictionCanEnd(snapshots, batch, clock)
      modifies this
      ensures next >= at
      ensures Valid()
      ensures history == old(history) + NonNil(batch)
      ensures |batch| == 0 ==> snapshots == old(snapshots)
      ensures |batch| > 0 ==> snapshots == Retain(Latest(history))
    {
      if |batch| == 0 {
        return at;
      }
      UpdateRetains(snapshots, history, NonNil(batch));
      InsertAll(batch);
      RetainsRetained(snapshots);
      next := EvictOldest(clock, at);
      history := history + NonNil(batch);
    }

    /** The insertion loop at the start of Update. */
    method InsertAll(batch: seq<Option<MetricsSnapshot>>)
      modifies this`snapshots
      ensures snapshots == old(snapshots) + Latest(NonNil(batch))
    {
      var i := 0;
      assert Latest(NonNil(batch[..0])) == map[];
      while i < |batch|
        invariant 0 <= i <= |batch|
        invariant snapshots == old(snapshots) + Latest(NonNil(batch[..i]))
      {
        NonNilNext(batch, i);
        ghost var before := snapshots;
        UpdateSnapshot(batch[i]);
        if batch[i].Some? {
          LatestNext(old(snapshots), NonNil(batch[..i]), batch[i].value);
          assert snapshots == before[batch[i].value.Key() := batch[i].value];
        }
        i := i + 1;
      }
      assert batch[..i] == batch;
    }

    /** The eviction loop at the end of Update. */
    method EvictOldest(clock: Clock, at: nat) returns (next: nat)
      requires Ordered(clock) && ClockPasses(snapshots.Keys, clock)
      modifies this`snapshots
      ensures snapshots == Retain(old(snapshots))
      ensures |snapshots| <= MAX_BACKFILL_SNAPSHOTS
      ensures next >= at
    {
      next := at;
      ghost var enough: nat :| |Future(snapshots.Keys, clock(enough))| <= MAX_BACKFILL_SNAPSHOTS;
      while |snapshots| > MAX_BACKFILL_SNAPSHOTS
        invariant next >= at && snapshots.Keys <= old(snapshots.Keys)
        invariant Retain(snapshots) == Retain(old(snapshots))
        decreases if next < enough then enough - next else 0, |snapshots.Keys|
      {
        var now := clock(next);
        var oldest := FindOldest(now);
        if next >= enough {
          LaterIsFewer(snapshots.Keys, old(snapshots.Keys), clock(enough), now);
        }
        EvictOne(snapshots, now, oldest);
        snapshots := snapshots - {oldest};
        next := next + 1;
      }
      RetainsAllOfFew(snapshots);
    }

    method UpdateSnapshot(snapshot: Option<MetricsSnapshot>)
      modifies this`snapshots
      ensures snapshots == match snapshot
                           case None => old(snapshots)
                           case Some(s) => old(snapshots)[s.Key() := s]
    {
      if snapshot.Some? {
        snapshots := snapshots[snapshot.value.Key() := snapshot.value];
      }
    }

    method FindOldest(now: int) returns (oldest: int)
      ensures IsOldest(snapshots.Keys, now, oldest)
    {
      oldest := now;
      var rest := snapshots.Keys;
      while rest != {}
        invariant rest <= snapshots.Keys
        invariant IsOldest(snapshots.Keys - rest, now, oldest)
        decreases rest
      {
        var t := TakeAny(rest);
        assert forall k :: k in snapshots.Keys - (rest - {t}) ==> k == t || k in snapshots.Keys - rest;
        if t < oldest {
          oldest := t;
        }
        rest := rest - {t};
      }
      assert snapshots.Keys - rest == snapshots.Keys;
    }

    /** Answers a query window from the cache; a mismatched window is only logged in the source. */
    method SnapshotFor(start: Instant, end: Instant) returns (r: Option<MetricsSnapshot>)
      ensures r == Lookup(snapshots, Truncate(start, resolution))
    {
      var s := Truncate(start, resolution);
      if Unix(s) !in snapshots {
        return None;
      }
      r := Some(snapshots[Unix(s)]);
    }
  }

  function Lookup(m: Cache, s: Instant): Option<MetricsSnapshot> {
    if Unix(s) in m then Some(m[Unix(s)]) else None
  }

  lemma {:induction false} LastWithKey(h: seq<MetricsSnapshot>, key: int) returns (i: nat)
    requires key in Latest(h)
    ensures i < |h| && h[i].Key() == key
    ensures forall j :: i < j < |h| ==> h[j].Key() != key
  {
    i := |h| - 1;
    if h[i].Key() != key {
      var last := i;
      i := LastWithKey(h[..last], key);
      forall j | i < j < |h| ensures h[j].Key() != key {
        if j < last {
          assert h[..last][j] == h[j];
        }
      }
    }
  }

  /** An answer from the bounded cache is the last snapshot of that start in the whole history,
      and it is given exactly when fewer than two later starts have ever been seen. */
  lemma LookupSearchesHistory(h: seq<MetricsSnapshot>, s: Instant)
    ensures var r := Lookup(Retain(Latest(h)), s);
            var starts := set x | x in h :: x.Key();
            && (r.Some? <==> Unix(s) in starts && |Newer(starts, Unix(s))| < MAX_BACKFILL_SNAPSHOTS)
            && (r.Some? ==> exists i :: 0 <= i < |h| && r.value == h[i] && h[i].Key() == Unix(s)
                                       && forall j :: i < j < |h| ==> h[j].Key() != Unix(s))
  {
    LatestKeys(h);
    if Unix(s) in Latest(h) {
      var i := LastWithKey(h, Unix(s));
      LatestIsLast(h, i);
    }
  }
}
