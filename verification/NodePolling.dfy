/**
 * GetNodeData: one goroutine per node behind a channel used as a limiter, two result lists behind
 * two mutexes, and a wait group. Every channel, mutex and wait-group operation is a step.
 */
module NodePolling {
  import opened Wrappers
  import opened Collections

  /** The two shared slices, each with its own mutex. */
  datatype List = Stats | Errors

  /** The collecting goroutine: at node i of its loop, past the limiter, past wg.Add, or waiting. */
  datatype Main = Loop(i: nat) | Acquired(i: nat) | Added(i: nat) | Waiting | Returned

  /** A polling goroutine, from its fetch to the end of its deferred function. */
  datatype Worker =
    | Fetching
    | WantsLock(list: List)
    | HoldsLock(list: List)
    | Appended(list: List)
    | Recorded
    | Released
    | Exited

  datatype State = State(
    main: Main,
    workers: map<int, Worker>,
    slots: nat,
    wg: nat,
    lock: map<List, int>,
    stats: seq<int>,
    errs: seq<int>)

  datatype Step =
    | SkipNil
    | SendLimiter
    | AddToGroup
    | Spawn
    | EndLoop
    | Return
    | Fetched(w: int, list: List)
    | TakeLock(w: int)
    | Append(w: int)
    | Unlock(w: int)
    | ReceiveLimiter(w: int)
    | GroupDone(w: int)

  /** The ready nodes, nil or not, and the capacity of the limiter. */
  datatype Config = Config(present: seq<bool>, pollers: nat)

  const INITIAL := State(Loop(0), map[], 0, 0, map[], [], [])

  predicate Is(s: State, w: int, p: Worker) {
    w in s.workers && s.workers[w] == p
  }

  predicate Enabled(c: Config, s: State, step: Step) {
    match step
    case SkipNil => s.main.Loop? && s.main.i < |c.present| && !c.present[s.main.i]
    case SendLimiter => s.main.Loop? && s.main.i < |c.present| && c.present[s.main.i] && s.slots < c.pollers
    case AddToGroup => s.main.Acquired?
    case Spawn => s.main.Added?
    case EndLoop => s.main.Loop? && s.main.i >= |c.present|
    case Return => s.main.Waiting? && s.wg == 0
    case Fetched(w, _) => Is(s, w, Fetching)
    case TakeLock(w) => w in s.workers && s.workers[w].WantsLock? && s.workers[w].list !in s.lock
    case Append(w) => w in s.workers && s.workers[w].HoldsLock?
    case Unlock(w) => w in s.workers && s.workers[w].Appended?
    case ReceiveLimiter(w) => Is(s, w, Recorded) && s.slots > 0
    case GroupDone(w) => Is(s, w, Released) && s.wg > 0
  }

  function Apply(c: Config, s: State, step: Step): State
    requires Enabled(c, s, step)
  {
    match step
    case SkipNil => s.(main := Loop(s.main.i + 1))
    case SendLimiter => s.(main := Acquired(s.main.i), slots := s.slots + 1)
    case AddToGroup => s.(main := Added(s.main.i), wg := s.wg + 1)
    case Spawn => s.(main := Loop(s.main.i + 1), workers := s.workers[s.main.i := Fetching])
    case EndLoop => s.(main := Waiting)
    case Return => s.(main := Returned)
    case Fetched(w, list) => s.(workers := s.workers[w := WantsLock(list)])
    case TakeLock(w) =>
      s.(workers := s.workers[w := HoldsLock(s.workers[w].list)], lock := s.lock[s.workers[w].list := w])
    case Append(w) =>
      var list := s.workers[w].list;
      s.(workers := s.workers[w := Appended(list)],
         stats := if list.Stats? then s.stats + [w] else s.stats,
         errs := if list.Errors? then s.errs + [w] else s.errs)
    case Unlock(w) => s.(workers := s.workers[w := Recorded], lock := s.lock - {s.workers[w].list})
    case ReceiveLimiter(w) => s.(workers := s.workers[w := Released], slots := s.slots - 1)
    case GroupDone(w) => s.(workers := s.workers[w := Exited], wg := s.wg - 1)
  }

  // ---------- What every step keeps ----------

  function Reached(c: Config, main: Main): nat {
    match main
    case Loop(i) => i
    case Acquired(i) => i
    case Added(i) => i
    case _ => |c.present|
  }

  /** Goroutines holding a slot of the limiter. */
  function Active(s: State): set<int> {
    set w | w in s.workers && !s.workers[w].Released? && !s.workers[w].Exited?
  }

  /** Goroutines the wait group still counts. */
  function Unfinished(s: State): set<int> {
    set w | w in s.workers && !s.workers[w].Exited?
  }

  predicate HasRecorded(s: State, w: int) {
    w in s.workers && (s.workers[w].Appended? || s.workers[w].Recorded? || s.workers[w].Released? || s.workers[w].Exited?)
  }

  predicate MainInv(c: Config, s: State) {
    && Reached(c, s.main) <= |c.present|
    && (s.main.Acquired? || s.main.Added? ==> s.main.i < |c.present| && c.present[s.main.i])
    && (forall w :: w in s.workers ==> 0 <= w < Reached(c, s.main) && c.present[w])
    && (forall w :: 0 <= w < Reached(c, s.main) && c.present[w] ==> w in s.workers)
    && (s.main.Returned? ==> s.wg == 0)
  }

  predicate CountInv(c: Config, s: State) {
    && s.slots == |Active(s)| + (if s.main.Acquired? || s.main.Added? then 1 else 0)
    && s.slots <= c.pollers
    && s.wg == |Unfinished(s)| + (if s.main.Added? then 1 else 0)
  }

  ghost predicate LockInv(s: State) {
    HoldersInv(s) && HeldInv(s)
  }

  /** How often node w occurs in the two lists together. */
  function Entries(s: State, w: int): nat {
    multiset(s.stats)[w] + multiset(s.errs)[w]
  }

  ghost predicate RecordInv(s: State) {
    forall w :: Entries(s, w) == if HasRecorded(s, w) then 1 else 0
  }

  ghost predicate Inv(c: Config, s: State) {
    MainInv(c, s) && CountInv(c, s) && LockInv(s) && RecordInv(s)
  }

  lemma MainInvKept(c: Config, s: State, step: Step)
    requires MainInv(c, s) && CountInv(c, s) && Enabled(c, s, step)
    ensures MainInv(c, Apply(c, s, step))
  {}

  /** Which steps change the two sets, and how. */
  lemma SetsChange(c: Config, s: State, step: Step)
    requires MainInv(c, s) && Enabled(c, s, step)
    ensures Active(Apply(c, s, step))
            == if step.Spawn? then Active(s) + {s.main.i} else if step.ReceiveLimiter? then Active(s) - {step.w} else Active(s)
    ensures Unfinished(Apply(c, s, step))
            == if step.Spawn? then Unfinished(s) + {s.main.i} else if step.GroupDone? then Unfinished(s) - {step.w} else Unfinished(s)
  {}

  /** The same in numbers: goroutines leave the sets one by one. */
  lemma SizesChange(c: Config, s: State, step: Step)
    requires MainInv(c, s) && Enabled(c, s, step)
    ensures |Active(Apply(c, s, step))|
            == |Active(s)| + (if step.Spawn? then 1 else if step.ReceiveLimiter? then -1 else 0)
    ensures |Unfinished(Apply(c, s, step))|
            == |Unfinished(s)| + (if step.Spawn? then 1 else if step.GroupDone? then -1 else 0)
  {
    SetsChange(c, s, step);
    assert step.Spawn? ==> s.main.i !in Active(s) && s.main.i !in Unfinished(s);
    assert step.ReceiveLimiter? ==> step.w in Active(s);
    assert step.GroupDone? ==> step.w in Unfinished(s);
  }

  lemma CountInvKept(c: Config, s: State, step: Step)
    requires MainInv(c, s) && CountInv(c, s) && Enabled(c, s, step)
    ensures CountInv(c, Apply(c, s, step))
  {
    SetsChange(c, s, step);
    SizesChange(c, s, step);
  }

  ghost predicate HoldersInv(s: State) {
    forall l :: l in s.lock ==> Is(s, s.lock[l], HoldsLock(l)) || Is(s, s.lock[l], Appended(l))
  }

  ghost predicate HeldInv(s: State) {
    forall w :: w in s.workers && (s.workers[w].HoldsLock? || s.workers[w].Appended?) ==>
                  s.workers[w].list in s.lock && s.lock[s.workers[w].list] == w
  }

  lemma HoldersInvKept(c: Config, s: State, step: Step)
    requires MainInv(c, s) && LockInv(s) && Enabled(c, s, step)
    ensures HoldersInv(Apply(c, s, step))
  {}

  lemma HeldInvKept(c: Config, s: State, step: Step)
    requires MainInv(c, s) && LockInv(s) && Enabled(c, s, step)
    ensures HeldInv(Apply(c, s, step))
  {}

  lemma LockInvKept(c: Config, s: State, step: Step)
    requires MainInv(c, s) && LockInv(s) && Enabled(c, s, step)
    ensures LockInv(Apply(c, s, step))
  {
    HoldersInvKept(c, s, step);
    HeldInvKept(c, s, step);
  }

  lemma AppendOne(s: State, s': State, v: int)
    requires v in s.workers && s.workers[v].HoldsLock? && RecordInv(s)
    requires s'.workers == s.workers[v := Appended(s.workers[v].list)]
    requires s'.stats == if s.workers[v].list.Stats? then s.stats + [v] else s.stats
    requires s'.errs == if s.workers[v].list.Errors? then s.errs + [v] else s.errs
    ensures RecordInv(s')
  {
    forall w ensures Entries(s', w) == Entries(s, w) + if w == v then 1 else 0 {}
    forall w | w != v ensures HasRecorded(s', w) <==> HasRecorded(s, w) {}
  }

  lemma RecordInvKept(c: Config, s: State, step: Step)
    requires MainInv(c, s) && RecordInv(s) && Enabled(c, s, step)
    ensures RecordInv(Apply(c, s, step))
  {
    var s' := Apply(c, s, step);
    if step.Append? {
      AppendOne(s, s', step.w);
    } else {
      assert s'.stats == s.stats && s'.errs == s.errs;
      forall w ensures Entries(s', w) == Entries(s, w) {}
      forall w ensures HasRecorded(s', w) <==> HasRecorded(s, w) {}
    }
  }

  ghost predicate Execution(c: Config, states: seq<State>, steps: seq<Step>) {
    && |states| == |steps| + 1
    && states[0] == INITIAL
    && forall i :: 0 <= i < |steps| ==> Enabled(c, states[i], steps[i]) && states[i + 1] == Apply(c, states[i], steps[i])
  }

  lemma {:induction false} InvAlways(c: Config, states: seq<State>, steps: seq<Step>, n: nat)
    requires Execution(c, states, steps) && n <= |steps|
    ensures Inv(c, states[n])
  {
    if n > 0 {
      var s, step := states[n - 1], steps[n - 1];
      InvAlways(c, states, steps, n - 1);
      MainInvKept(c, s, step);
      CountInvKept(c, s, step);
      LockInvKept(c, s, step);
      RecordInvKept(c, s, step);
    }
  }

  // ---------- Results ----------

  /** In every interleaving at most ConcurrentPollers goroutines fetch at once. */
  lemma FetchesAreBounded(c: Config, states: seq<State>, steps: seq<Step>, n: nat)
    requires Execution(c, states, steps) && n <= |steps|
    ensures |set w | w in states[n].workers && states[n].workers[w].Fetching?| <= c.pollers
  {
    InvAlways(c, states, steps, n);
    SubsetSize((set w | w in states[n].workers && states[n].workers[w].Fetching?), Active(states[n]));
  }

  /** On return every goroutine has come to its end. */
  lemma EverybodyExited(c: Config, states: seq<State>, steps: seq<Step>, n: nat, w: int)
    requires Execution(c, states, steps) && n <= |steps| && states[n].main.Returned?
    ensures w in states[n].workers ==> states[n].workers[w].Exited?
    ensures w in states[n].workers <==> 0 <= w < |c.present| && c.present[w]
  {
    InvAlways(c, states, steps, n);
    assert Unfinished(states[n]) == {};
    assert w in states[n].workers ==> w !in Unfinished(states[n]);
  }

  /** When GetNodeData returns, each node that is not nil has contributed exactly one entry to
      exactly one of the lists, and nothing else is in them. */
  lemma OneEntryPerNode(c: Config, states: seq<State>, steps: seq<Step>, n: nat, w: int)
    requires Execution(c, states, steps) && n <= |steps| && states[n].main.Returned?
    ensures Entries(states[n], w) == if 0 <= w < |c.present| && c.present[w] then 1 else 0
  {
    InvAlways(c, states, steps, n);
    var s := states[n];
    assert Unfinished(s) == {};
    if w in s.workers {
      assert w !in Unfinished(s);
    }
  }

  // ---------- Which list an entry is in ----------

  /** How node w's last fetch in the first n steps of a run has ended. */
  function FetchOf(steps: seq<Step>, n: nat, w: int): Option<List>
    requires n <= |steps|
  {
    if n == 0 then None
    else if steps[n - 1].Fetched? && steps[n - 1].w == w then Some(steps[n - 1].list)
    else FetchOf(steps, n - 1, w)
  }

  /** The list that a goroutine has chosen is that of its fetch, and there it ends up. */
  predicate ChoiceInv(s: State, w: int, fetch: Option<List>) {
    && (fetch == None <==> w !in s.workers || s.workers[w].Fetching?)
    && (w in s.workers && (s.workers[w].WantsLock? || s.workers[w].HoldsLock? || s.workers[w].Appended?) ==>
          fetch == Some(s.workers[w].list))
    && (w in s.stats <==> HasRecorded(s, w) && fetch == Some(Stats))
    && (w in s.errs <==> HasRecorded(s, w) && fetch == Some(Errors))
  }

  lemma ChoiceInvKept(c: Config, s: State, step: Step, w: int, fetch: Option<List>)
    requires MainInv(c, s) && Enabled(c, s, step) && ChoiceInv(s, w, fetch)
    ensures ChoiceInv(Apply(c, s, step), w, if step.Fetched? && step.w == w then Some(step.list) else fetch)
  {
  }

  lemma {:induction false} ChoiceAlways(c: Config, states: seq<State>, steps: seq<Step>, n: nat, w: int)
    requires Execution(c, states, steps) && n <= |steps|
    ensures ChoiceInv(states[n], w, FetchOf(steps, n, w))
  {
    if n > 0 {
      ChoiceAlways(c, states, steps, n - 1, w);
      InvAlways(c, states, steps, n - 1);
      ChoiceInvKept(c, states[n - 1], steps[n - 1], w, FetchOf(steps, n - 1, w));
    }
  }

  /** A node is fetched once: its fetch is the one that counts from then on. */
  lemma {:induction false} FetchedOnce(c: Config, states: seq<State>, steps: seq<Step>, n: nat, i: nat, w: int)
    requires Execution(c, states, steps) && i < n <= |steps| && steps[i].Fetched? && steps[i].w == w
    ensures FetchOf(steps, n, w) == Some(steps[i].list)
    ensures forall j :: 0 <= j < n && steps[j].Fetched? && steps[j].w == w ==> j == i
  {
    if i < n - 1 {
      FetchedOnce(c, states, steps, n - 1, i, w);
      ChoiceAlways(c, states, steps, n - 1, w);
    } else {
      ChoiceAlways(c, states, steps, i, w);
      forall j | 0 <= j < i && steps[j].Fetched? && steps[j].w == w ensures false {
        FetchedOnce(c, states, steps, i, j, w);
      }
    }
  }

  lemma {:induction false} FetchHappened(steps: seq<Step>, n: nat, w: int)
    requires n <= |steps| && FetchOf(steps, n, w).Some?
    ensures exists i :: 0 <= i < n && steps[i] == Fetched(w, FetchOf(steps, n, w).value)
  {
    if !(steps[n - 1].Fetched? && steps[n - 1].w == w) {
      FetchHappened(steps, n - 1, w);
    } else {
      assert steps[n - 1] == Fetched(w, FetchOf(steps, n, w).value);
    }
  }

  /**
   * On return the statistics are of exactly the nodes whose fetch has succeeded, and the errors of exactly
   * those whose fetch has failed; each node that is not nil has been fetched, and once.
   */
  lemma ResultsByOutcome(c: Config, states: seq<State>, steps: seq<Step>, n: nat, w: int)
    requires Execution(c, states, steps) && n <= |steps| && states[n].main.Returned?
    ensures w in states[n].stats <==> exists i :: 0 <= i < n && steps[i] == Fetched(w, Stats)
    ensures w in states[n].errs <==> exists i :: 0 <= i < n && steps[i] == Fetched(w, Errors)
    ensures 0 <= w < |c.present| && c.present[w] ==> exists i :: 0 <= i < n && steps[i].Fetched? && steps[i].w == w
    ensures forall i, j :: 0 <= i < n && 0 <= j < n && steps[i].Fetched? && steps[j].Fetched? && steps[i].w == w == steps[j].w ==>
                             i == j
  {
    OneEntryPerNode(c, states, steps, n, w);
    ChoiceAlways(c, states, steps, n, w);
    var s, fetch := states[n], FetchOf(steps, n, w);
    assert w in s.stats || w in s.errs <==> Entries(s, w) > 0;
    if fetch.Some? {
      FetchHappened(steps, n, w);
      EverybodyExited(c, states, steps, n, w);
    }
    forall i | 0 <= i < n && steps[i].Fetched? && steps[i].w == w
      ensures fetch == Some(steps[i].list)
      ensures forall j :: 0 <= j < n && steps[j].Fetched? && steps[j].w == w ==> j == i
    {
      FetchedOnce(c, states, steps, n, i, w);
    }
  }

  /** Somebody can go on. */
  ghost predicate CanStep(c: Config, s: State) {
    exists step :: Enabled(c, s, step)
  }

  lemma WorkerCanStep(c: Config, s: State, w: int)
    requires Inv(c, s) && w in Unfinished(s)
    ensures CanStep(c, s)
  {
    match s.workers[w] {
      case Fetching => assert Enabled(c, s, Fetched(w, Stats));
      case WantsLock(l) =>
        if l in s.lock {
          var h := s.lock[l];
          assert Enabled(c, s, Append(h)) || Enabled(c, s, Unlock(h));
        } else {
          assert Enabled(c, s, TakeLock(w));
        }
      case HoldsLock(_) => assert Enabled(c, s, Append(w));
      case Appended(_) => assert Enabled(c, s, Unlock(w));
      case Recorded =>
        assert w in Active(s);
        assert Enabled(c, s, ReceiveLimiter(w));
      case Released => assert Enabled(c, s, GroupDone(w));
      case Exited =>
    }
  }

  /** There is a poller, or there is nothing to poll. */
  predicate CanPoll(c: Config) {
    c.pollers > 0 || forall k :: 0 <= k < |c.present| ==> !c.present[k]
  }

  lemma NoDeadlock(c: Config, s: State)
    requires Inv(c, s) && !s.main.Returned? && CanPoll(c)
    ensures CanStep(c, s)
  {
    match s.main {
      case Loop(i) =>
        if i >= |c.present| {
          assert Enabled(c, s, EndLoop);
        } else if !c.present[i] {
          assert Enabled(c, s, SkipNil);
        } else if s.slots < c.pollers {
          assert Enabled(c, s, SendLimiter);
        } else {
          var w := AnyOf(Active(s));
          WorkerCanStep(c, s, w);
        }
      case Acquired(_) => assert Enabled(c, s, AddToGroup);
      case Added(_) => assert Enabled(c, s, Spawn);
      case Waiting =>
        if s.wg == 0 {
          assert Enabled(c, s, Return);
        } else {
          var w := AnyOf(Unfinished(s));
          WorkerCanStep(c, s, w);
        }
      case Returned =>
    }
  }

  // ---------- Every run ends ----------

  function MainLeft(c: Config, main: Main): int {
    match main
    case Loop(i) => 3 * (|c.present| - i) + 2
    case Acquired(i) => 3 * (|c.present| - i) + 1
    case Added(i) => 3 * (|c.present| - i)
    case Waiting => 1
    case Returned => 0
  }

  function WorkerLeft(s: State, w: int): nat {
    if w !in s.workers then 7 else
    match s.workers[w]
    case Fetching => 6
    case WantsLock(_) => 5
    case HoldsLock(_) => 4
    case Appended(_) => 3
    case Recorded => 2
    case Released => 1
    case Exited => 0
  }

  function WorkersLeft(s: State, n: nat): nat {
    if n == 0 then 0 else WorkersLeft(s, n - 1) + WorkerLeft(s, n - 1)
  }

  /** An upper bound on the steps still to come. */
  function StepsLeft(c: Config, s: State): int {
    MainLeft(c, s.main) + WorkersLeft(s, |c.present|)
  }

  lemma {:induction false} WorkersLeftDrops(s: State, s': State, w: int, n: nat)
    requires forall v :: v != w ==> WorkerLeft(s', v) == WorkerLeft(s, v)
    requires WorkerLeft(s', w) <= WorkerLeft(s, w)
    ensures WorkersLeft(s', n) <= WorkersLeft(s, n)
    ensures 0 <= w < n && WorkerLeft(s', w) < WorkerLeft(s, w) ==> WorkersLeft(s', n) < WorkersLeft(s, n)
  {
    if n > 0 {
      WorkersLeftDrops(s, s', w, n - 1);
    }
  }

  /** The goroutine a step moves, if it moves one. */
  function Moved(s: State, step: Step): int {
    match step
    case Spawn => if s.main.Added? then s.main.i else -1
    case SkipNil => -1
    case SendLimiter => -1
    case AddToGroup => -1
    case EndLoop => -1
    case Return => -1
    case _ => step.w
  }

  lemma OneWorkerMoves(c: Config, s: State, step: Step)
    requires MainInv(c, s) && Enabled(c, s, step)
    ensures var s', w := Apply(c, s, step), Moved(s, step);
            && (forall v :: v != w ==> WorkerLeft(s', v) == WorkerLeft(s, v))
            && WorkerLeft(s', w) <= WorkerLeft(s, w)
            && MainLeft(c, s'.main) <= MainLeft(c, s.main) + (if step.Spawn? then -1 else 0)
            && (w >= 0 ==> w < |c.present| && WorkerLeft(s', w) < WorkerLeft(s, w))
            && (w < 0 ==> MainLeft(c, s'.main) < MainLeft(c, s.main))
  {}

  lemma EveryStepCounts(c: Config, s: State, step: Step)
    requires Inv(c, s) && Enabled(c, s, step)
    ensures 0 <= StepsLeft(c, Apply(c, s, step)) < StepsLeft(c, s)
  {
    MainInvKept(c, s, step);
    OneWorkerMoves(c, s, step);
    WorkersLeftDrops(s, Apply(c, s, step), Moved(s, step), |c.present|);
  }

  lemma {:induction false} AllLeft(n: nat)
    ensures WorkersLeft(INITIAL, n) == 7 * n
  {
    if n > 0 {
      AllLeft(n - 1);
    }
  }

  /** No run is longer than ten steps a node and two more. */
  lemma {:induction false} RunsEnd(c: Config, states: seq<State>, steps: seq<Step>, n: nat)
    requires Execution(c, states, steps) && n <= |steps|
    ensures n + StepsLeft(c, states[n]) <= 10 * |c.present| + 2
    ensures StepsLeft(c, states[n]) >= 0
  {
    InvAlways(c, states, steps, n);
    if n == 0 {
      AllLeft(|c.present|);
    } else {
      RunsEnd(c, states, steps, n - 1);
      InvAlways(c, states, steps, n - 1);
      EveryStepCounts(c, states[n - 1], steps[n - 1]);
    }
  }

  /** Runs that cannot go on. */
  ghost predicate Stuck(c: Config, states: seq<State>, steps: seq<Step>) {
    Execution(c, states, steps) && !CanStep(c, states[|steps|])
  }

  /** Without a poller the first node that is not nil blocks the loop for ever. */
  lemma {:induction false} NoPollerNoProgress(c: Config, states: seq<State>, steps: seq<Step>, n: nat, k: nat)
    requires Execution(c, states, steps) && n <= |steps|
    requires c.pollers == 0 && k < |c.present| && c.present[k]
    ensures states[n].main.Loop? && states[n].main.i <= k && states[n].workers == map[]
  {
    if n > 0 {
      NoPollerNoProgress(c, states, steps, n - 1, k);
    }
  }

  lemma {:induction false} SkipsAllNil(c: Config, n: nat)
    returns (states: seq<State>, steps: seq<Step>)
    requires n <= |c.present| && forall k :: 0 <= k < n ==> !c.present[k]
    ensures Execution(c, states, steps) && states[|steps|] == INITIAL.(main := Loop(n))
  {
    if n == 0 {
      states, steps := [INITIAL], [];
    } else {
      states, steps := SkipsAllNil(c, n - 1);
      states, steps := states + [INITIAL.(main := Loop(n))], steps + [SkipNil];
    }
  }

  lemma FirstPresent(c: Config, from: nat) returns (k: nat)
    requires exists j :: from <= j < |c.present| && c.present[j]
    ensures from <= k < |c.present| && c.present[k]
    ensures forall j :: from <= j < k ==> !c.present[j]
    decreases |c.present| - from
  {
    if c.present[from] {
      k := from;
    } else {
      k := FirstPresent(c, from + 1);
    }
  }

  /** Every run that cannot go on has returned, exactly when there is a poller or nothing to poll. */
  lemma ReturnsExactly(c: Config)
    ensures (forall states: seq<State>, steps: seq<Step> :: Stuck(c, states, steps) ==> states[|steps|].main.Returned?)
            <==> CanPoll(c)
  {
    if CanPoll(c) {
      forall states: seq<State>, steps: seq<Step> | Stuck(c, states, steps) ensures states[|steps|].main.Returned? {
        InvAlways(c, states, steps, |steps|);
        if !states[|steps|].main.Returned? {
          NoDeadlock(c, states[|steps|]);
        }
      }
    } else {
      var k := FirstPresent(c, 0);
      var states, steps := SkipsAllNil(c, k);
      var s := states[|steps|];
      forall step ensures !Enabled(c, s, step) {}
      assert Stuck(c, states, steps);
    }
  }
}
