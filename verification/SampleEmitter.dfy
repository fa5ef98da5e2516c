/**
 * The emitter: it fills the current sample directory with statistics and objects, starts the next
 * one with the same statistics as its baseline, hands the current one over and moves on. Any disk
 * operation may fail, leave a file half written, or clear directories away to make space.
 */
module SampleEmitter {
  import opened Wrappers
  import opened Collections
  import opened Framing
  import opened EmissionSchedule

  type Instant = int

  /** A directory is named by the millisecond it was made in and the number of its sample. */
  datatype SamplePath = SamplePath(millis: int, count: int)

  /** Before a name has been given the path is empty: files then go to the working directory. */
  const NO_PATH := SamplePath(0, -1)

  /** Names that the clock and the counter give later. */
  predicate Earlier(a: SamplePath, b: SamplePath) {
    a.millis < b.millis || (a.millis == b.millis && a.count < b.count)
  }

  /** The files of a sample directory: two kinds of statistics by node, and objects by kind. */
  datatype Sample = Sample(
    stats: map<string, Record>,
    baseline: map<string, Record>,
    objects: map<string, Record>,
    agent: Option<Instant>)

  const EMPTY_SAMPLE := Sample(map[], map[], map[], None)

  datatype NodeStats = NodeStats(nodeName: string, data: Record)

  /** What one tick brings, with every object already encoded. */
  datatype Snapshot = Snapshot(nodes: seq<NodeStats>, objects: map<string, seq<Record>>)

  const OBJECT_FILES: set<string> :=
    {"nodes", "pods", "deployments", "replicasets", "daemonsets", "namespaces", "services",
     "replicationcontrollers", "persistentvolumes", "persistentvolumeclaims", "statefulsets", "jobs"}

  datatype Prefix = Stats | Baseline

  datatype Outcome = Downsampled | Failed | Emitted

  /** What the disk does during a call: whether there is space for statistics, which directories have been
      untouched for an hour, and whether all operations succeed. */
  datatype Conditions = Conditions(available: bool, aged: set<SamplePath>, reliable: bool)

  /** The statistics by node: the last of several entries for one node counts. */
  function ByNode(nodes: seq<NodeStats>): map<string, Record> {
    if nodes == [] then map[]
    else ByNode(nodes[..|nodes| - 1])[nodes[|nodes| - 1].nodeName := nodes[|nodes| - 1].data]
  }

  function ObjectFiles(asJson: bool, objects: map<string, seq<Record>>): map<string, Record> {
    map name | name in objects :: Stream(asJson, objects[name])
  }

  /** The current sample once a tick has been written to it. */
  function Filled(asJson: bool, sample: Sample, snapshot: Snapshot, now: Instant): Sample {
    Sample(sample.stats + ByNode(snapshot.nodes), sample.baseline,
           sample.objects + ObjectFiles(asJson, snapshot.objects), Some(now))
  }

  predicate Submap(a: map<string, Record>, b: map<string, Record>) {
    forall k :: k in a ==> k in b && b[k] == a[k]
  }

  /** The baseline of the sample that follows the given ticks, the first of which leave none. */
  function BaselineAfter(ticks: seq<Snapshot>, without: nat): map<string, Record> {
    if |ticks| <= without then map[] else ByNode(ticks[|ticks| - 1].nodes)
  }

  /**
   * Shipped sample i is what tick i found in its directory with the whole of tick i written over it,
   * and has the statistics of tick i - 1 as its baseline.
   */
  predicate Matches(asJson: bool, shipped: seq<Sample>, found: seq<Sample>, ticks: seq<Snapshot>, without: nat) {
    && |shipped| == |found| == |ticks|
    && forall i :: 0 <= i < |shipped| ==>
         && shipped[i].agent.Some?
         && shipped[i] == Filled(asJson, found[i], ticks[i], shipped[i].agent.value)
         && shipped[i].baseline == BaselineAfter(ticks[..i], without)
  }

  type Disk = map<SamplePath, Sample>

  /** Nothing but the given directories has been written to; any directory may have gone. */
  predicate WroteOnly(before: Disk, after: Disk, touched: set<SamplePath>) {
    && after.Keys <= before.Keys
    && forall p :: p in after && p !in touched ==> after[p] == before[p]
  }

  /** What writing statistics may have done when it has failed midway. */
  predicate PartlyWritten(before: Disk, after: Disk, current: SamplePath, next: SamplePath, names: set<string>) {
    && WroteOnly(before, after, {current, next})
    && (current in after ==>
          && after[current] == before[current].(stats := after[current].stats)
          && NamesAdded(before[current], after[current], names))
  }

  /** Statistics of the given nodes at most have been added, whole or not. */
  predicate NamesAdded(before: Sample, after: Sample, names: set<string>) {
    before.stats.Keys <= after.stats.Keys <= before.stats.Keys + names
  }

  function NodeNames(stats: Option<seq<NodeStats>>): set<string> {
    if stats == None then {} else set n | n in stats.value :: n.nodeName
  }

  /** What it has done when it has not: statistics in one directory and baselines in the other. */
  predicate Written(before: Disk, after: Disk, current: SamplePath, next: SamplePath,
                    stats: map<string, Record>, baselines: map<string, Record>) {
    && WroteOnly(before, after, {current, next})
    && (current in after ==> after[current] == before[current].(stats := before[current].stats + stats))
    && (next in after ==> after[next] == before[next].(baseline := before[next].baseline + baselines))
  }

  lemma PartlyWrittenNext(first: Disk, before: Disk, after: Disk, current: SamplePath, next: SamplePath,
                          some: set<string>, more: set<string>, names: set<string>)
    requires PartlyWritten(first, before, current, next, some) && PartlyWritten(before, after, current, next, more)
    requires some <= names && more <= names
    ensures PartlyWritten(first, after, current, next, names)
  {
  }

  lemma WrittenNext(first: Disk, before: Disk, after: Disk, current: SamplePath, next: SamplePath,
                    s1: map<string, Record>, b1: map<string, Record>, s2: map<string, Record>, b2: map<string, Record>)
    requires current != next
    requires Written(first, before, current, next, s1, b1) && Written(before, after, current, next, s2, b2)
    ensures Written(first, after, current, next, s1 + s2, b1 + b2)
  {
    if current in after {
      assert (first[current].stats + s1) + s2 == first[current].stats + (s1 + s2);
    }
    if next in after {
      assert (first[next].baseline + b1) + b2 == first[next].baseline + (b1 + b2);
    }
  }

  function When(condition: bool, m: map<string, Record>): map<string, Record> {
    if condition then m else map[]
  }

  function PutStats(disk: Disk, directory: SamplePath, prefix: Prefix, nodeName: string, content: Record): Disk
    requires directory in disk
  {
    var sample := disk[directory];
    disk[directory := match prefix
                      case Stats => sample.(stats := sample.stats[nodeName := content])
                      case Baseline => sample.(baseline := sample.baseline[nodeName := content])]
  }

  lemma StatsPut(first: Disk, before: Disk, current: SamplePath, next: SamplePath,
                 prefix: Prefix, nodeName: string, content: Record)
    requires current != next && WroteOnly(first, before, {})
    requires (if prefix.Stats? then current else next) in before
    ensures
      var after := PutStats(before, if prefix.Stats? then current else next, prefix, nodeName, content);
      && PartlyWritten(first, after, current, next, {nodeName})
      && Written(first, after, current, next,
                 When(prefix.Stats?, map[nodeName := content]), When(prefix.Baseline?, map[nodeName := content]))
  {
    var entry := map[nodeName := content];
    forall m: map<string, Record> ensures m + entry == m[nodeName := content] && m + map[] == m {}
  }

  lemma ByNodeNext(nodes: seq<NodeStats>, i: nat)
    requires i < |nodes|
    ensures ByNode(nodes[..i + 1]) == ByNode(nodes[..i])[nodes[i].nodeName := nodes[i].data]
  {
    assert nodes[..i + 1][..i] == nodes[..i];
  }

  lemma NodeWritten(first: Disk, before: Disk, after: Disk, current: SamplePath, next: SamplePath,
                    nodes: seq<NodeStats>, i: nat, withBaseline: bool)
    requires current != next && i < |nodes|
    requires
      var m := ByNode(nodes[..i]);
      Written(first, before, current, next, m, When(withBaseline, m))
    requires
      var entry := map[nodes[i].nodeName := nodes[i].data];
      Written(before, after, current, next, entry, When(withBaseline, entry))
    ensures
      var m := ByNode(nodes[..i + 1]);
      Written(first, after, current, next, m, When(withBaseline, m))
  {
    var m, entry := ByNode(nodes[..i]), map[nodes[i].nodeName := nodes[i].data];
    WrittenNext(first, before, after, current, next, m, When(withBaseline, m), entry, When(withBaseline, entry));
    ByNodeNext(nodes, i);
    assert ByNode(nodes[..i + 1]) == m + entry;
    assert When(withBaseline, m) + When(withBaseline, entry) == When(withBaseline, m + entry);
  }

  /** Writing objects has changed nothing but the current directory's objects and agent file. */
  predicate ObjectsOnly(before: Disk, after: Disk, current: SamplePath) {
    && (current !in before ==> after == before)
    && (current in before ==>
          && current in after
          && after == before[current := before[current].(
                               objects := after[current].objects, agent := after[current].agent)])
  }

  predicate ObjectsAdded(before: Disk, after: Disk, current: SamplePath, objects: map<string, Record>) {
    current in after ==> current in before && after[current].objects == before[current].objects + objects
  }

  lemma EntryAdded(first: Disk, before: Disk, after: Disk, current: SamplePath,
                   objects: map<string, Record>, name: string, content: Record)
    requires current in before && current in after && ObjectsAdded(first, before, current, objects)
    requires after[current].objects == before[current].objects[name := content]
    ensures ObjectsAdded(first, after, current, objects[name := content])
  {
    assert (first[current].objects + objects)[name := content] == first[current].objects + objects[name := content];
  }

  lemma ObjectsOnlyNext(first: Disk, before: Disk, after: Disk, current: SamplePath)
    requires ObjectsOnly(first, before, current) && ObjectsOnly(before, after, current)
    ensures ObjectsOnly(first, after, current)
  {
  }

  /** The last emission is as many intervals after the start as calls have been granted. */
  ghost predicate OnSchedule(schedule: Schedule, start: Instant, last: Instant, calls: seq<int>) {
    schedule.Valid() && last == start + schedule.Granted(calls) * schedule.interval
  }

  lemma OneMore(k: int, n: int)
    ensures (k + 1) * n == k * n + n
  {
  }

  lemma NextCall(schedule: Schedule, start: Instant, last: Instant, calls: seq<int>, now: Instant)
    requires OnSchedule(schedule, start, last, calls)
    ensures schedule.Granted(calls + [now - start]) == schedule.Granted(calls) + if now > last + schedule.buffer then 1 else 0
    ensures OnSchedule(schedule, start, if now > last + schedule.buffer then last + schedule.interval else last,
                       calls + [now - start])
  {
    var k := schedule.Granted(calls);
    GrantedNext(schedule, calls, now - start);
    DueExactly(schedule, now - start, k);
    OneMore(k, schedule.interval);
  }

  /** Shipped samples have earlier names, and those still on disk are as they were when shipped. */
  predicate Unchanged(disk: Disk, shipped: seq<Sample>, from: seq<SamplePath>, current: SamplePath) {
    && |shipped| == |from|
    && (forall i :: 0 <= i < |from| ==> Earlier(from[i], current))
    && (forall i :: 0 <= i < |from| && from[i] in disk ==> disk[from[i]] == shipped[i])
  }

  /** A tick has written to two directories at most, to the current one no baseline; any may have gone. */
  predicate TickOnly(before: Disk, after: Disk, current: SamplePath, next: SamplePath) {
    && after.Keys <= before.Keys + {next}
    && (forall p :: p in after && p != current && p != next ==> after[p] == before[p])
    && (current in after ==> current in before && after[current].baseline == before[current].baseline)
  }

  /** What the emitter keeps: the samples shipped so far, and the baseline of the one under way. */
  predicate Chained(asJson: bool, s: State, without: nat) {
    && Matches(asJson, s.shipped, s.found, s.ticks, without)
    && Unchanged(s.disk, s.shipped, s.from, s.current)
    && (s.current in s.disk ==> s.disk[s.current].baseline == BaselineAfter(s.ticks, without))
  }

  /** And the number of the sample under way, before the first of which there is no directory. */
  predicate Counted(asJson: bool, s: State, without: nat) {
    && s.sampleCt == |s.shipped| - without
    && (s.sampleCt >= 0 ==> s.current.count == s.sampleCt)
    && (s.sampleCt < 0 ==> s.current == NO_PATH || s.current.count == 0)
    && Chained(asJson, s, without)
  }

  /** A tick, failed or not, changes no shipped sample. */
  lemma ChainKept(asJson: bool, s: State, after: Disk, without: nat, next: SamplePath)
    requires Chained(asJson, s, without)
    requires TickOnly(s.disk, after, s.current, next) && Earlier(s.current, next)
    ensures Chained(asJson, s.(disk := after), without)
  {
  }

  lemma MatchesNext(asJson: bool, shipped: seq<Sample>, found: seq<Sample>, ticks: seq<Snapshot>, without: nat,
                    sample: Sample, snapshot: Snapshot, now: Instant)
    requires Matches(asJson, shipped, found, ticks, without) && sample.baseline == BaselineAfter(ticks, without)
    ensures Matches(asJson, shipped + [Filled(asJson, sample, snapshot, now)], found + [sample], ticks + [snapshot], without)
  {
    assert forall i :: 0 <= i <= |ticks| ==> (ticks + [snapshot])[..i] == ticks[..i];
    assert ticks[..|ticks|] == ticks;
  }

  lemma ChainNext(asJson: bool, s: State, without: nat, next: SamplePath, was: Sample, snapshot: Snapshot, now: Instant)
    requires Chained(asJson, s, without) && Earlier(s.current, next)
    requires s.current in s.disk && s.disk[s.current] == Filled(asJson, was, snapshot, now)
    requires next in s.disk ==> s.disk[next].baseline == if |s.ticks| < without then map[] else ByNode(snapshot.nodes)
    ensures Chained(asJson, Rotated(s, next, was, snapshot), without)
  {
    MatchesNext(asJson, s.shipped, s.found, s.ticks, without, was, snapshot, now);
  }

  lemma CountedNext(asJson: bool, s: State, without: nat, next: SamplePath, was: Sample, snapshot: Snapshot, now: Instant)
    requires without <= 1 && Counted(asJson, s, without) && Earlier(s.current, next) && next.count == s.sampleCt + 1
    requires s.current in s.disk && s.disk[s.current] == Filled(asJson, was, snapshot, now)
    requires next in s.disk ==> s.disk[next].baseline == if s.sampleCt < 0 then map[] else ByNode(snapshot.nodes)
    ensures Counted(asJson, Rotated(s, next, was, snapshot), without)
  {
    ChainNext(asJson, s, without, next, was, snapshot, now);
  }

  // ---------- The steps of a run ----------

  /** The disk and the emitter, with the samples handed over as they were then, and what they hold. */
  datatype State = State(
    disk: Disk,
    current: SamplePath,
    sampleCt: int,
    shipped: seq<Sample>,
    from: seq<SamplePath>,
    found: seq<Sample>,
    ticks: seq<Snapshot>)

  datatype Tick = Tick(
    stats: Option<seq<NodeStats>>,
    objects: Option<map<string, seq<Record>>>,
    now: Instant,
    millis: int)

  datatype Event = Called(tick: Tick, outcome: Outcome) | Packed(paths: set<SamplePath>)

  /** The current directory is handed over, and the next one takes its place. */
  function Rotated(s: State, next: SamplePath, was: Sample, snapshot: Snapshot): State
    requires s.current in s.disk
  {
    s.(current := next, sampleCt := s.sampleCt + 1,
       shipped := s.shipped + [s.disk[s.current]], from := s.from + [s.current],
       found := s.found + [was], ticks := s.ticks + [snapshot])
  }

  /** Nothing is handed over, and if the current directory has gone it is not made again. */
  predicate Stayed(s: State, t: State, names: set<string>) {
    && t == s.(disk := t.disk)
    && (s.current in t.disk ==> s.current in s.disk && NamesAdded(s.disk[s.current], t.disk[s.current], names))
  }

  /**
   * The current sample is handed over only when all of the tick is in it, and its successor, a new
   * directory, has the tick's statistics as its baseline.
   */
  predicate Advanced(asJson: bool, s: State, t: State, snapshot: Snapshot, now: Instant, millis: int) {
    var next := SamplePath(millis, s.sampleCt + 1);
    && s.current in s.disk && s.current in t.disk && next !in s.disk
    && t.disk[s.current] == Filled(asJson, s.disk[s.current], snapshot, now)
    && t == Rotated(s.(disk := t.disk), next, s.disk[s.current], snapshot)
    && (s.sampleCt >= 0 ==> next in t.disk)
    && (next in t.disk ==>
          t.disk[next] == EMPTY_SAMPLE.(baseline := if s.sampleCt < 0 then map[] else ByNode(snapshot.nodes)))
  }

  /** All of the tick is there, so is the current directory, and there is none of the next one's name. */
  predicate CanShip(s: State, tick: Tick) {
    tick.stats.Some? && tick.objects.Some? && s.current in s.disk && SamplePath(tick.millis, s.sampleCt + 1) !in s.disk
  }

  /** Neither the current directory nor the next one is cleared away. */
  predicate KeepsPaths(s: State, tick: Tick, at: Conditions) {
    at.available || (s.current !in at.aged && SamplePath(tick.millis, s.sampleCt + 1) !in at.aged)
  }

  predicate Ticked(asJson: bool, s: State, t: State, tick: Tick, outcome: Outcome) {
    && TickOnly(s.disk, t.disk, s.current, SamplePath(tick.millis, s.sampleCt + 1))
    && match outcome
       case Downsampled => t == s
       case Failed => Stayed(s, t, NodeNames(tick.stats))
       case Emitted =>
         && tick.stats.Some? && tick.objects.Some?
         && Advanced(asJson, s, t, Snapshot(tick.stats.value, tick.objects.value), tick.now, tick.millis)
  }

  lemma WrittenIsAdvanced(asJson: bool, s: State, after: Disk, tick: Tick)
    requires tick.stats.Some? && tick.objects.Some? && s.current in s.disk && s.current in after
    requires
      var next := SamplePath(tick.millis, s.sampleCt + 1);
      && next !in s.disk && TickOnly(s.disk, after, s.current, next)
      && (s.sampleCt >= 0 ==> next in after)
      && (next in after ==>
            after[next] == EMPTY_SAMPLE.(baseline := if s.sampleCt < 0 then map[] else ByNode(tick.stats.value)))
    requires after[s.current]
             == Filled(asJson, s.disk[s.current], Snapshot(tick.stats.value, tick.objects.value), tick.now)
    ensures
      var snapshot := Snapshot(tick.stats.value, tick.objects.value);
      Ticked(asJson, s, Rotated(s.(disk := after), SamplePath(tick.millis, s.sampleCt + 1), s.disk[s.current], snapshot),
             tick, Emitted)
  {
  }

  predicate Follows(asJson: bool, s: State, t: State, event: Event) {
    match event
    case Called(tick, outcome) => Ticked(asJson, s, t, tick, outcome)
    case Packed(paths) => t == s.(disk := s.disk - paths) && forall p :: p in paths ==> p in s.from
  }

  ghost predicate Run(asJson: bool, states: seq<State>, events: seq<Event>) {
    && |states| == |events| + 1
    && forall i :: 0 <= i < |events| ==> Follows(asJson, states[i], states[i + 1], events[i])
  }

  /** Once disk pressure has taken the current directory, nothing is emitted in the rest of the run. */
  lemma {:induction false} NoDirectoryNoEmission(asJson: bool, states: seq<State>, events: seq<Event>, m: nat, n: nat)
    requires Run(asJson, states, events) && m <= n < |states| && states[m].current !in states[m].disk
    ensures states[n].shipped == states[m].shipped && states[n].current == states[m].current
    ensures states[n].current !in states[n].disk
  {
    if m < n {
      NoDirectoryNoEmission(asJson, states, events, m, n - 1);
      assert Follows(asJson, states[n - 1], states[n], events[n - 1]);
    }
  }

  class Emitter {
    const asJson: bool
    const schedule: Schedule
    const startTime: Instant
    var disk: Disk
    var currentSamplePath: SamplePath
    var nextSamplePath: SamplePath
    var sampleCt: int
    var lastEmission: Instant
    // the samples handed over, as they were then, the ticks they hold, and the times of all calls
    ghost var shipped: seq<Sample>
    ghost var shippedFrom: seq<SamplePath>
    ghost var found: seq<Sample>
    ghost var ticks: seq<Snapshot>
    ghost var calls: seq<int>
    // whether Init has succeeded
    ghost var initialised: bool

    /** The exporter goes on with an emitter whose Init has failed: its first tick leaves no baseline. */
    ghost function Without(): nat
      reads this`initialised
    {
      if initialised then 0 else 1
    }

    ghost predicate Valid()
      reads this
    {
      OnSchedule(schedule, startTime, lastEmission, calls) && InChain()
    }

    ghost function Now(): State
      reads this`disk, this`currentSamplePath, this`sampleCt, this`shipped, this`shippedFrom, this`found, this`ticks
    {
      State(disk, currentSamplePath, sampleCt, shipped, shippedFrom, found, ticks)
    }

    ghost predicate InChain()
      reads this`initialised
      reads this`disk, this`currentSamplePath, this`sampleCt, this`shipped, this`shippedFrom, this`found, this`ticks
    {
      Counted(asJson, Now(), Without())
    }

    /**
     * The clock has not stepped back. A directory that a failed Init made has the number the next one
     * gets; in the same millisecond it is still there.
     */
    ghost predicate InTime(millis: int)
      reads this`disk, this`currentSamplePath, this`sampleCt
    {
      && currentSamplePath.millis <= millis
      && (millis == currentSamplePath.millis ==>
            sampleCt >= 0 || currentSamplePath == NO_PATH || currentSamplePath in disk)
    }

    /** The working directory, if it is to be written to, holds no baselines. */
    constructor (asJson: bool, schedule: Schedule, now: Instant, onDisk: Disk)
      requires schedule.Valid() && (NO_PATH in onDisk ==> onDisk[NO_PATH].baseline == map[])
      ensures Valid() && Now() == State(onDisk, NO_PATH, -1, [], [], [], [])
      ensures nextSamplePath == NO_PATH && !initialised && lastEmission == startTime == now
      ensures this.asJson == asJson && this.schedule == schedule && calls == []
    {
      this.asJson, this.schedule, startTime := asJson, schedule, now;
      disk, sampleCt, lastEmission, initialised := onDisk, -1, now, false;
      currentSamplePath, nextSamplePath := NO_PATH, NO_PATH;
      shipped, shippedFrom, found, ticks, calls := [], [], [], [], [];
    }

    /** Under disk pressure: directories untouched for an hour go, whichever they are. */
    method ClearOldScratchSamples(at: Conditions) returns (ok: bool)
      modifies this`disk
      ensures WroteOnly(old(disk), disk, {}) && old(disk.Keys) - at.aged <= disk.Keys
      ensures at.reliable ==> ok && disk == old(disk) - at.aged
    {
      var removed: set<SamplePath> :| removed <= at.aged && (at.reliable ==> removed == at.aged);
      disk := disk - removed;
      ok :| at.reliable ==> ok;
    }

    /** Directories have gone for space only, and old ones. */
    twostate predicate Spared(at: Conditions)
      reads this`disk
    {
      forall p :: p in old(disk) && p !in disk ==> !at.available && p in at.aged
    }

    /** What ends up in a file that is being written. */
    method WriteFile(data: Record, at: Conditions) returns (ok: bool, content: Record)
      ensures ok ==> content == data
      ensures at.reliable ==> ok
    {
      ok :| at.reliable ==> ok;
      content := *;
      if ok {
        content := data;
      }
    }

    /** Creates and writes one statistics file, in the current directory or as a baseline in the next. */
    method WriteStatsFile(prefix: Prefix, nodeName: string, data: Record, at: Conditions) returns (ok: bool)
      requires currentSamplePath != nextSamplePath
      modifies this`disk
      ensures PartlyWritten(old(disk), disk, currentSamplePath, nextSamplePath, {nodeName})
      ensures prefix.Stats? && ok ==>
                Written(old(disk), disk, currentSamplePath, nextSamplePath, map[nodeName := data], map[])
      ensures prefix.Baseline? && ok ==>
                && Written(old(disk), disk, currentSamplePath, nextSamplePath,
                           map[], When(sampleCt != -1, map[nodeName := data]))
                && (sampleCt != -1 ==> nextSamplePath in disk)
      ensures Spared(at) && (at.reliable && !at.available ==> disk.Keys !! at.aged)
      ensures at.reliable && (if prefix.Stats? then currentSamplePath in disk else sampleCt == -1 || nextSamplePath in disk) ==> ok
    {
      if !at.available {
        var cleared := ClearOldScratchSamples(at);
        if !cleared {
          return false;
        }
      }
      var directory := currentSamplePath;
      if prefix.Baseline? {
        if sampleCt == -1 {
          return true;
        }
        directory := nextSamplePath;
      }
      var created: bool :| at.reliable ==> created;
      if directory !in disk || !created {
        return false;
      }
      var content;
      ok, content := WriteFile(data, at);
      ghost var before := disk;
      disk := PutStats(disk, directory, prefix, nodeName, content);
      StatsPut(old(disk), before, currentSamplePath, nextSamplePath, prefix, nodeName, content);
    }

    method WriteNodeStats(node: NodeStats, at: Conditions) returns (ok: bool)
      requires currentSamplePath != nextSamplePath
      modifies this`disk
      ensures PartlyWritten(old(disk), disk, currentSamplePath, nextSamplePath, {node.nodeName})
      ensures ok ==>
                && Written(old(disk), disk, currentSamplePath, nextSamplePath, map[node.nodeName := node.data],
                           When(sampleCt != -1, map[node.nodeName := node.data]))
                && (sampleCt != -1 ==> nextSamplePath in disk)
      ensures Spared(at) && (ok && at.reliable && !at.available ==> disk.Keys !! at.aged)
      ensures at.reliable && currentSamplePath in disk && (sampleCt == -1 || nextSamplePath in disk) ==> ok
    {
      var marshalled: bool :| at.reliable ==> marshalled;
      if !marshalled {
        return false;
      }
      ok := WriteStatsFile(Stats, node.nodeName, node.data, at);
      if !ok {
        return;
      }
      ghost var before := disk;
      ghost var entry := map[node.nodeName := node.data];
      ghost var baselines := When(sampleCt != -1, entry);
      ok := WriteStatsFile(Baseline, node.nodeName, node.data, at);
      ghost var name := {node.nodeName};
      PartlyWrittenNext(old(disk), before, disk, currentSamplePath, nextSamplePath, name, name, name);
      if ok {
        WrittenNext(old(disk), before, disk, currentSamplePath, nextSamplePath, entry, map[], map[], baselines);
        assert entry + map[] == entry && map[] + baselines == baselines;
      }
    }

    method WriteStatsData(stats: Option<seq<NodeStats>>, at: Conditions) returns (ok: bool)
      requires currentSamplePath != nextSamplePath && (sampleCt != -1 ==> nextSamplePath in disk)
      modifies this`disk
      ensures PartlyWritten(old(disk), disk, currentSamplePath, nextSamplePath, NodeNames(stats))
      ensures ok ==>
                && stats.Some?
                && Written(old(disk), disk, currentSamplePath, nextSamplePath,
                           ByNode(stats.value), When(sampleCt != -1, ByNode(stats.value)))
                && (sampleCt != -1 ==> nextSamplePath in disk)
      ensures Spared(at)
      ensures ok && at.reliable && !at.available && stats.value != [] ==> disk.Keys !! at.aged
      ensures at.reliable && stats.Some? && currentSamplePath in disk && (sampleCt == -1 || nextSamplePath in disk) ==> ok
    {
      if stats == None {
        return false;
      }
      var nodes := stats.value;
      for i := 0 to |nodes|
        invariant PartlyWritten(old(disk), disk, currentSamplePath, nextSamplePath, NodeNames(stats))
        invariant Written(old(disk), disk, currentSamplePath, nextSamplePath,
                          ByNode(nodes[..i]), When(sampleCt != -1, ByNode(nodes[..i])))
        invariant sampleCt != -1 ==> nextSamplePath in disk
        invariant Spared(at) && (at.reliable && !at.available && i > 0 ==> disk.Keys !! at.aged)
      {
        ghost var before := disk;
        ok := WriteNodeStats(nodes[i], at);
        PartlyWrittenNext(old(disk), before, disk, currentSamplePath, nextSamplePath,
                          NodeNames(stats), {nodes[i].nodeName}, NodeNames(stats));
        if !ok {
          return;
        }
        NodeWritten(old(disk), before, disk, currentSamplePath, nextSamplePath, nodes, i, sampleCt != -1);
      }
      assert nodes[..|nodes|] == nodes;
      return true;
    }

    /** One file of objects, a record at a time. */
    method WriteObjects(name: string, objects: seq<Record>, at: Conditions) returns (ok: bool)
      modifies this`disk
      ensures ObjectsOnly(old(disk), disk, currentSamplePath)
      ensures ok ==>
                && currentSamplePath in disk
                && disk[currentSamplePath].objects == old(disk)[currentSamplePath].objects[name := Stream(asJson, objects)]
      ensures at.reliable && currentSamplePath in disk ==> ok
    {
      var created: bool :| at.reliable ==> created;
      if currentSamplePath !in disk || !created {
        assert currentSamplePath in disk ==> disk == disk[currentSamplePath := disk[currentSamplePath]];
        return false;
      }
      var written: Record := [];
      var i := 0;
      ok := true;
      while i < |objects| && ok
        invariant 0 <= i <= |objects| && disk == old(disk)
        invariant ok ==> written == Stream(asJson, objects[..i])
        invariant at.reliable ==> ok
      {
        assert objects[..i + 1][..i] == objects[..i];
        ok :| at.reliable ==> ok;
        if ok {
          var content;
          ok, content := WriteFile(Marshal(asJson, objects[i]), at);
          written := written + content;
        }
        i := i + 1;
      }
      assert ok ==> objects[..i] == objects;
      var closed: bool :| at.reliable ==> closed;
      ok := ok && closed;
      var sample := disk[currentSamplePath];
      disk := disk[currentSamplePath := sample.(objects := sample.objects[name := written])];
    }

    /** The object files in the order in which their map yields them. */
    method WriteAllObjects(files: map<string, seq<Record>>, at: Conditions) returns (ok: bool)
      modifies this`disk
      ensures ObjectsOnly(old(disk), disk, currentSamplePath)
      ensures ok && currentSamplePath in disk ==>
                disk[currentSamplePath].objects == old(disk)[currentSamplePath].objects + ObjectFiles(asJson, files)
      ensures at.reliable && currentSamplePath in disk ==> ok
    {
      var rest := files.Keys;
      ghost var written: map<string, Record> := map[];
      assert currentSamplePath in disk ==> disk == disk[currentSamplePath := disk[currentSamplePath]];
      while rest != {}
        invariant rest <= files.Keys && written.Keys == files.Keys - rest
        invariant forall n :: n in written ==> written[n] == Stream(asJson, files[n])
        invariant ObjectsOnly(old(disk), disk, currentSamplePath)
        invariant ObjectsAdded(old(disk), disk, currentSamplePath, written)
      {
        ghost var before := disk;
        var name := TakeAny(rest);
        ok := WriteObjects(name, files[name], at);
        ObjectsOnlyNext(old(disk), before, disk, currentSamplePath);
        if !ok {
          return;
        }
        EntryAdded(old(disk), before, disk, currentSamplePath, written, name, Stream(asJson, files[name]));
        written := written[name := Stream(asJson, files[name])];
        rest := rest - {name};
      }
      assert written == ObjectFiles(asJson, files);
      ok := true;
    }

    method WriteAgentFile(now: Instant, at: Conditions) returns (ok: bool)
      modifies this`disk
      ensures ObjectsOnly(old(disk), disk, currentSamplePath)
      ensures currentSamplePath in disk ==> disk[currentSamplePath].objects == old(disk)[currentSamplePath].objects
      ensures ok ==> currentSamplePath in disk && disk[currentSamplePath].agent == Some(now)
      ensures at.reliable && currentSamplePath in disk ==> ok
    {
      var created: bool :| at.reliable ==> created;
      if currentSamplePath !in disk || !created {
        assert currentSamplePath in disk ==> disk == disk[currentSamplePath := disk[currentSamplePath]];
        return false;
      }
      ok :| at.reliable ==> ok;
      disk := disk[currentSamplePath := disk[currentSamplePath].(agent := if ok then Some(now) else None)];
    }

    method WriteMetadata(objects: Option<map<string, seq<Record>>>, now: Instant, at: Conditions) returns (ok: bool)
      modifies this`disk
      ensures ObjectsOnly(old(disk), disk, currentSamplePath)
      ensures ok ==>
                && objects.Some? && currentSamplePath in disk
                && disk[currentSamplePath].agent == Some(now)
                && disk[currentSamplePath].objects
                   == old(disk)[currentSamplePath].objects + ObjectFiles(asJson, objects.value)
      ensures at.reliable && objects.Some? && currentSamplePath in disk ==> ok
    {
      if objects == None {
        assert currentSamplePath in disk ==> disk == disk[currentSamplePath := disk[currentSamplePath]];
        return false;
      }
      ok := WriteAllObjects(objects.value, at);
      if !ok {
        return;
      }
      ghost var before := disk;
      ok := WriteAgentFile(now, at);
      ObjectsOnlyNext(old(disk), before, disk, currentSamplePath);
    }

    /** The scratch directory and the first sample directory in it. */
    method MakeFirst(millis: int, at: Conditions) returns (ok: bool)
      requires Valid() && shipped == [] && !initialised
      requires currentSamplePath == NO_PATH && 0 < millis && forall p :: p in disk ==> p.millis < millis
      modifies this`disk, this`currentSamplePath
      ensures Valid()
      ensures ok ==> currentSamplePath == SamplePath(millis, sampleCt + 1) && disk == old(disk)[currentSamplePath := EMPTY_SAMPLE]
      ensures at.reliable ==> ok
    {
      var scratchMade: bool :| at.reliable ==> scratchMade;
      if !scratchMade {
        return false;
      }
      currentSamplePath := SamplePath(millis, sampleCt + 1);
      var made: bool :| at.reliable ==> made;
      if currentSamplePath in disk || !made {
        return false;
      }
      disk := disk[currentSamplePath := EMPTY_SAMPLE];
      ok := true;
    }

    method Init(stats: Option<seq<NodeStats>>, millis: int, at: Conditions) returns (ok: bool)
      requires Valid() && shipped == [] && !initialised && nextSamplePath == NO_PATH
      requires currentSamplePath == NO_PATH && 0 < millis && forall p :: p in disk ==> p.millis < millis
      modifies this`disk, this`sampleCt, this`currentSamplePath, this`initialised
      ensures Valid() && initialised == ok
      ensures ok ==> sampleCt == 0 && stats.Some? && currentSamplePath == SamplePath(millis, 0)
      ensures ok && currentSamplePath in disk ==>
                disk[currentSamplePath] == EMPTY_SAMPLE.(stats := ByNode(stats.value))
      ensures at.reliable && stats.Some? && (at.available || SamplePath(millis, old(sampleCt) + 1) !in at.aged) ==>
                ok && currentSamplePath in disk
    {
      ok := MakeFirst(millis, at);
      if !ok {
        return;
      }
      ok := WriteStatsData(stats, at);
      if !ok {
        return;
      }
      sampleCt := 0;
      initialised := true;
    }

    method ShouldDownsample(now: Instant) returns (drop: bool)
      requires OnSchedule(schedule, startTime, lastEmission, calls)
      modifies this`lastEmission, this`calls
      ensures OnSchedule(schedule, startTime, lastEmission, calls)
      ensures calls == old(calls) + [now - startTime]
      ensures drop <==> schedule.Granted(calls) == schedule.Granted(old(calls))
      ensures drop <==> now <= old(lastEmission) + schedule.buffer
      ensures lastEmission == if drop then old(lastEmission) else old(lastEmission) + schedule.interval
    {
      NextCall(schedule, startTime, lastEmission, calls, now);
      calls := calls + [now - startTime];
      if now > lastEmission + schedule.buffer {
        lastEmission := lastEmission + schedule.interval;
        return false;
      }
      return true;
    }

    /** The files of one tick, in the current directory and a new one. */
    method WriteTick(stats: Option<seq<NodeStats>>, objects: Option<map<string, seq<Record>>>, now: Instant, at: Conditions)
      returns (ok: bool)
      requires currentSamplePath != nextSamplePath && nextSamplePath !in disk
      requires sampleCt >= -1
      modifies this`disk
      ensures TickOnly(old(disk), disk, currentSamplePath, nextSamplePath)
      ensures currentSamplePath in disk ==>
                NamesAdded(old(disk)[currentSamplePath], disk[currentSamplePath], NodeNames(stats))
      ensures ok ==>
                && stats.Some? && objects.Some? && currentSamplePath in disk
                && disk[currentSamplePath]
                   == Filled(asJson, old(disk)[currentSamplePath], Snapshot(stats.value, objects.value), now)
                && (sampleCt >= 0 ==> nextSamplePath in disk)
                && (nextSamplePath in disk ==>
                      disk[nextSamplePath]
                      == EMPTY_SAMPLE.(baseline := if sampleCt < 0 then map[] else ByNode(stats.value)))
      ensures at.reliable && (at.available || {currentSamplePath, nextSamplePath} !! at.aged) ==>
                stats.Some? && objects.Some? && currentSamplePath in old(disk) ==> ok
    {
      var made: bool :| at.reliable ==> made;
      if !made {
        return false;
      }
      disk := disk[nextSamplePath := EMPTY_SAMPLE];
      ok := WriteStatsData(stats, at);
      if !ok {
        return;
      }
      ok := WriteMetadata(objects, now, at);
    }

    /**
     * One call: dropped if it comes too soon, and otherwise shipped unless a step fails, a part of the
     * tick is missing, or the current directory has gone.
     */
    method Emit(tick: Tick, at: Conditions) returns (outcome: Outcome)
      requires Valid() && InTime(tick.millis)
      modifies this
      ensures Valid() && initialised == old(initialised) && calls == old(calls) + [tick.now - startTime]
      ensures outcome.Downsampled? <==> tick.now <= old(lastEmission) + schedule.buffer
      ensures Follows(asJson, old(Now()), Now(), Called(tick, outcome))
      ensures at.reliable && !outcome.Downsampled? && KeepsPaths(old(Now()), tick, at) ==>
                (outcome.Emitted? <==> CanShip(old(Now()), tick))
    {
      var drop := ShouldDownsample(tick.now);
      if drop {
        return Downsampled;
      }
      outcome := EmitSample(tick, at);
    }

    method EmitSample(tick: Tick, at: Conditions) returns (outcome: Outcome)
      requires InChain() && InTime(tick.millis)
      modifies this`disk, this`nextSamplePath, this`currentSamplePath, this`sampleCt,
               this`shipped, this`shippedFrom, this`found, this`ticks
      ensures InChain() && !outcome.Downsampled?
      ensures Ticked(asJson, old(Now()), Now(), tick, outcome)
      ensures at.reliable && KeepsPaths(old(Now()), tick, at) ==> (outcome.Emitted? <==> CanShip(old(Now()), tick))
    {
      nextSamplePath := SamplePath(tick.millis, sampleCt + 1);
      if nextSamplePath in disk {
        return Failed;
      }
      ghost var was := disk;
      var ok := FillSample(tick, at);
      if ok {
        Rotate(was[currentSamplePath], Snapshot(tick.stats.value, tick.objects.value), tick.now);
      }
      outcome := if ok then Emitted else Failed;
    }

    /** Up to the hand-over, which is all that a successful tick still lacks. */
    method FillSample(tick: Tick, at: Conditions) returns (ok: bool)
      requires InChain() && Earlier(currentSamplePath, nextSamplePath)
      requires nextSamplePath == SamplePath(tick.millis, sampleCt + 1) && nextSamplePath !in disk
      modifies this`disk
      ensures InChain()
      ensures !ok ==> Ticked(asJson, old(Now()), Now(), tick, Failed)
      ensures ok ==>
                && tick.stats.Some? && tick.objects.Some? && currentSamplePath in old(disk) && currentSamplePath in disk
                && Ready(old(disk)[currentSamplePath], Snapshot(tick.stats.value, tick.objects.value), tick.now)
                && Ticked(asJson, old(Now()),
                          Rotated(Now(), nextSamplePath, old(disk)[currentSamplePath],
                                  Snapshot(tick.stats.value, tick.objects.value)),
                          tick, Emitted)
      ensures at.reliable && (at.available || {currentSamplePath, nextSamplePath} !! at.aged) ==>
                tick.stats.Some? && tick.objects.Some? && currentSamplePath in old(disk) ==> ok
    {
      ghost var s := Now();
      ok := WriteTick(tick.stats, tick.objects, tick.now, at);
      ChainKept(asJson, s, disk, Without(), nextSamplePath);
      if ok {
        WrittenIsAdvanced(asJson, s, disk, tick);
      }
    }

    /** The current sample is filled, and the next one has the baseline. */
    ghost predicate Ready(was: Sample, snapshot: Snapshot, now: Instant)
      reads this`disk, this`currentSamplePath, this`nextSamplePath, this`sampleCt
    {
      && currentSamplePath in disk && disk[currentSamplePath] == Filled(asJson, was, snapshot, now)
      && (nextSamplePath in disk ==>
            disk[nextSamplePath].baseline == if sampleCt < 0 then map[] else ByNode(snapshot.nodes))
    }

    /** AddSample: from here on the uploader may pack and remove the directory. */
    method Rotate(ghost was: Sample, ghost snapshot: Snapshot, ghost now: Instant)
      requires InChain() && Earlier(currentSamplePath, nextSamplePath) && nextSamplePath.count == sampleCt + 1
      requires Ready(was, snapshot, now)
      modifies this`currentSamplePath, this`sampleCt, this`shipped, this`shippedFrom, this`found, this`ticks
      ensures InChain()
      ensures Now() == Rotated(old(Now()), nextSamplePath, was, snapshot)
    {
      CountedNext(asJson, Now(), Without(), nextSamplePath, was, snapshot, now);
      ghost var next := Rotated(Now(), nextSamplePath, was, snapshot);
      shipped, shippedFrom, found, ticks := next.shipped, next.from, next.found, next.ticks;
      sampleCt := sampleCt + 1;
      currentSamplePath := nextSamplePath;
      assert Now() == next;
    }

    /** The uploader removes samples that it has packed. */
    method SamplesPacked(packed: set<SamplePath>)
      requires Valid() && forall p :: p in packed ==> p in shippedFrom
      modifies this`disk
      ensures Valid() && Follows(asJson, old(Now()), Now(), Packed(packed))
    {
      disk := disk - packed;
    }
  }

  /** The chain: a node's baseline is what the previous shipped sample has as the node's statistics. */
  lemma Chain(asJson: bool, shipped: seq<Sample>, found: seq<Sample>, ticks: seq<Snapshot>, without: nat, i: nat)
    requires Matches(asJson, shipped, found, ticks, without) && i < |shipped|
    ensures if i == 0 then shipped[i].baseline == map[] else Submap(shipped[i].baseline, shipped[i - 1].stats)
  {
    if i > without {
      assert ticks[..i][i - 1] == ticks[i - 1];
      assert shipped[i - 1].stats == found[i - 1].stats + ByNode(ticks[i - 1].nodes);
    }
  }

  /**
   * The other way round: every node of a shipped sample has a baseline in the next one if and only if
   * the directory held statistics of no other nodes before the tick it was shipped with.
   */
  lemma ChainIsWhole(asJson: bool, shipped: seq<Sample>, found: seq<Sample>, ticks: seq<Snapshot>, without: nat, i: nat)
    requires Matches(asJson, shipped, found, ticks, without) && without <= i && i + 1 < |shipped|
    ensures shipped[i].stats.Keys <= shipped[i + 1].baseline.Keys
            <==> found[i].stats.Keys <= ByNode(ticks[i].nodes).Keys
  {
    assert ticks[..i + 1][i] == ticks[i];
    assert shipped[i].stats.Keys == found[i].stats.Keys + ByNode(ticks[i].nodes).Keys;
  }

  // ---------- What a shipped sample holds ----------

  /** Of several entries for one node the last counts. */
  predicate LastOf(nodes: seq<NodeStats>, k: nat) {
    k < |nodes| && forall j :: k < j < |nodes| ==> nodes[j].nodeName != nodes[k].nodeName
  }

  lemma {:induction false} LastCounts(nodes: seq<NodeStats>, k: nat)
    requires LastOf(nodes, k)
    ensures nodes[k].nodeName in ByNode(nodes) && ByNode(nodes)[nodes[k].nodeName] == nodes[k].data
  {
    var n := |nodes| - 1;
    if k < n {
      assert nodes[..n][k] == nodes[k];
      LastCounts(nodes[..n], k);
    }
  }

  lemma {:induction false} NoOtherNodes(nodes: seq<NodeStats>, name: string)
    requires forall k :: 0 <= k < |nodes| ==> nodes[k].nodeName != name
    ensures name !in ByNode(nodes)
  {
    if nodes != [] {
      NoOtherNodes(nodes[..|nodes| - 1], name);
    }
  }

  /**
   * The object files of a shipped sample hold the tick's records, which can be read back if and only if
   * each is shorter than 4 GiB, or in JSON has no line break.
   */
  lemma ObjectsReadBack(asJson: bool, shipped: seq<Sample>, found: seq<Sample>, ticks: seq<Snapshot>, without: nat,
                        i: nat, name: string)
    requires Matches(asJson, shipped, found, ticks, without) && i < |shipped| && name in ticks[i].objects
    ensures name in shipped[i].objects
    ensures
      var file, records := shipped[i].objects[name], ticks[i].objects[name];
      if asJson then Lines(file) == records <==> forall r :: r in records ==> NEWLINE !in r
      else Decode(file) == Some(records) <==> forall r :: r in records ==> FitsWord(r)
  {
    var records := ticks[i].objects[name];
    assert shipped[i].objects == found[i].objects + ObjectFiles(asJson, ticks[i].objects);
    if asJson {
      LinesExactly(records);
    } else {
      DecodeExactly(records);
    }
  }

  /** Its statistics hold, of every node of the tick, the last entry. */
  lemma StatisticsAreLast(asJson: bool, shipped: seq<Sample>, found: seq<Sample>, ticks: seq<Snapshot>, without: nat,
                          i: nat, k: nat)
    requires Matches(asJson, shipped, found, ticks, without) && i < |shipped| && LastOf(ticks[i].nodes, k)
    ensures
      var node := ticks[i].nodes[k];
      node.nodeName in shipped[i].stats && shipped[i].stats[node.nodeName] == node.data
  {
    LastCounts(ticks[i].nodes, k);
  }

  /** And of other nodes what a failed tick has left there. */
  lemma OtherStatisticsWereFound(asJson: bool, shipped: seq<Sample>, found: seq<Sample>, ticks: seq<Snapshot>, without: nat,
                                 i: nat, name: string)
    requires Matches(asJson, shipped, found, ticks, without) && i < |shipped|
    requires forall k :: 0 <= k < |ticks[i].nodes| ==> ticks[i].nodes[k].nodeName != name
    ensures name in shipped[i].stats <==> name in found[i].stats
    ensures name in shipped[i].stats ==> shipped[i].stats[name] == found[i].stats[name]
  {
    NoOtherNodes(ticks[i].nodes, name);
  }

  /** In a run, the call that ships a sample ships the current directory, with its own time and objects. */
  lemma EmittedHolds(asJson: bool, states: seq<State>, events: seq<Event>, n: nat, tick: Tick)
    requires Run(asJson, states, events) && n < |events| && events[n] == Called(tick, Emitted)
    ensures |states[n + 1].shipped| == |states[n].shipped| + 1 && states[n + 1].shipped[..|states[n].shipped|] == states[n].shipped
    ensures states[n].current in states[n].disk && tick.stats.Some? && tick.objects.Some?
    ensures
      var sample, was := states[n + 1].shipped[|states[n].shipped|], states[n].disk[states[n].current];
      && sample.agent == Some(tick.now) && sample.baseline == was.baseline
      && states[n + 1].ticks == states[n].ticks + [Snapshot(tick.stats.value, tick.objects.value)]
      && states[n + 1].found == states[n].found + [was]
      && states[n + 1].from == states[n].from + [states[n].current]
      && states[n + 1].disk[states[n].current] == sample
  {
    assert Follows(asJson, states[n], states[n + 1], events[n]);
  }

  // ---------- A run in which a failed tick breaks the chain ----------

  const A := NodeStats("a", [])

  const B := NodeStats("b", [])

  /** The statistics of both nodes are written, but the tick has no objects; two whole ticks know one node. */
  function Ticks(objects: map<string, seq<Record>>): seq<Tick> {
    [Tick(Some([A, B]), None, 1, 1), Tick(Some([A]), Some(objects), 2, 2), Tick(Some([A]), Some(objects), 3, 3)]
  }

  function FailedTickRun(asJson: bool, objects: map<string, seq<Record>>): seq<State> {
    var p0, p1, p2, p3 := SamplePath(0, 0), SamplePath(1, 1), SamplePath(2, 1), SamplePath(3, 2);
    var a, both := map["a" := []], map["a" := [], "b" := []];
    var one := Snapshot([A], objects);
    var first := EMPTY_SAMPLE.(stats := a);
    var stale := EMPTY_SAMPLE.(stats := both);
    var next := EMPTY_SAMPLE.(baseline := a);
    var s0 := State(map[p0 := first], p0, 0, [], [], [], []);
    var s1 := s0.(disk := map[p0 := stale, p1 := EMPTY_SAMPLE.(baseline := both)]);
    var d2 := map[p0 := Filled(asJson, stale, one, 2), p1 := EMPTY_SAMPLE.(baseline := both), p2 := next];
    var s2 := Rotated(s1.(disk := d2), p2, stale, one);
    var d3 := d2[p2 := Filled(asJson, next, one, 3)][p3 := next];
    var s3 := Rotated(s2.(disk := d3), p3, next, one);
    [s0, s1, s2, s3]
  }

  lemma OneNode()
    ensures ByNode([A]) == map["a" := []]
  {
    assert [A][..0] == [];
  }

  lemma FailedTick(asJson: bool, objects: map<string, seq<Record>>)
    ensures Ticked(asJson, FailedTickRun(asJson, objects)[0], FailedTickRun(asJson, objects)[1], Ticks(objects)[0], Failed)
  {
    assert Ticks(objects)[0].stats.value[0] == A && Ticks(objects)[0].stats.value[1] == B;
    assert "a" in NodeNames(Ticks(objects)[0].stats) && "b" in NodeNames(Ticks(objects)[0].stats);
  }

  lemma FilledBy(asJson: bool, sample: Sample, objects: map<string, seq<Record>>, now: Instant)
    ensures Filled(asJson, sample, Snapshot([A], objects), now).stats == sample.stats["a" := []]
  {
    OneNode();
    assert sample.stats + map["a" := []] == sample.stats["a" := []];
  }

  lemma SecondTick(asJson: bool, objects: map<string, seq<Record>>)
    ensures Ticked(asJson, FailedTickRun(asJson, objects)[1], FailedTickRun(asJson, objects)[2], Ticks(objects)[1], Emitted)
  {
    OneNode();
    var s1, s2 := FailedTickRun(asJson, objects)[1], FailedTickRun(asJson, objects)[2];
    assert TickOnly(s1.disk, s2.disk, s1.current, SamplePath(2, 1));
    assert Advanced(asJson, s1, s2, Snapshot([A], objects), 2, 2);
  }

  lemma ThirdTick(asJson: bool, objects: map<string, seq<Record>>)
    ensures Ticked(asJson, FailedTickRun(asJson, objects)[2], FailedTickRun(asJson, objects)[3], Ticks(objects)[2], Emitted)
  {
    OneNode();
    var s2, s3 := FailedTickRun(asJson, objects)[2], FailedTickRun(asJson, objects)[3];
    assert TickOnly(s2.disk, s3.disk, s2.current, SamplePath(3, 2));
    assert Advanced(asJson, s2, s3, Snapshot([A], objects), 3, 3);
  }

  /** The node that only the failed tick knew is shipped, and has no baseline in the next sample. */
  lemma FailedTickLeavesNode(asJson: bool, objects: map<string, seq<Record>>)
    ensures
      var states := FailedTickRun(asJson, objects);
      && Run(asJson, states, [Called(Ticks(objects)[0], Failed), Called(Ticks(objects)[1], Emitted), Called(Ticks(objects)[2], Emitted)])
      && "b" in states[3].shipped[0].stats && "b" !in states[3].shipped[1].baseline
  {
    FailedTick(asJson, objects);
    SecondTick(asJson, objects);
    ThirdTick(asJson, objects);
    FilledBy(asJson, EMPTY_SAMPLE.(stats := map["a" := [], "b" := []]), objects, 2);
    FilledBy(asJson, EMPTY_SAMPLE.(baseline := map["a" := []]), objects, 3);
  }

  lemma LastNodeHasStats(nodes: seq<NodeStats>)
    requires nodes != []
    ensures nodes[|nodes| - 1].nodeName in ByNode(nodes)
  {
  }
}
