/** ensureStorageServices: any number of callers rebuilding the services behind a double-checked lock. */
module StorageServices {
  import opened Wrappers
  import opened Instants
  import opened Collections

  type Caller = int

  /** Where a caller stands in the function. */
  datatype Place =
    | Outside
    | HoldsReadLock
    | WantsWriteLock
    | HoldsWriteLock
    | Building(since: Instant)

  /** One call of buildStorageServices, and how many services it returned. */
  datatype Build = Build(start: Instant, finish: Instant, made: nat)

  datatype State = State(
    now: Instant,
    services: nat,
    lastServiceBuild: Option<Instant>,
    readers: set<Caller>,
    writer: Option<Caller>,
    place: map<Caller, Place>,
    builds: seq<Build>)

  datatype Step =
    | Tick(t: Instant)
    | RLock(c: Caller)
    | FastCheck(c: Caller)
    | Lock(c: Caller)
    | SlowCheck(c: Caller)
    | FinishBuild(c: Caller, made: nat)

  function At(s: State, c: Caller): Place {
    if c in s.place then s.place[c] else Outside
  }

  function Initial(now: Instant): State {
    State(now, 0, None, {}, None, map[], [])
  }

  predicate Enabled(s: State, step: Step) {
    match step
    case Tick(t) => t >= s.now
    case RLock(c) => At(s, c).Outside? && s.writer.None?
    case FastCheck(c) => At(s, c).HoldsReadLock?
    case Lock(c) => At(s, c).WantsWriteLock? && s.writer.None? && s.readers == {}
    case SlowCheck(c) => At(s, c).HoldsWriteLock?
    case FinishBuild(c, _) => At(s, c).Building?
  }

  function Apply(s: State, step: Step, uploadFrequency: Duration): State
    requires Enabled(s, step)
  {
    match step
    case Tick(t) => s.(now := t)
    case RLock(c) => s.(readers := s.readers + {c}, place := s.place[c := HoldsReadLock])
    case FastCheck(c) =>
      s.(readers := s.readers - {c}, place := s.place[c := if s.services > 0 then Outside else WantsWriteLock])
    case Lock(c) => s.(writer := Some(c), place := s.place[c := HoldsWriteLock])
    case SlowCheck(c) =>
      if s.services > 0 || (s.lastServiceBuild.Some? && s.now - s.lastServiceBuild.value < uploadFrequency)
      then s.(writer := None, place := s.place[c := Outside])
      else s.(place := s.place[c := Building(s.now)])
    case FinishBuild(c, made) =>
      s.(services := made, lastServiceBuild := Some(s.now), writer := None, place := s.place[c := Outside],
         builds := s.builds + [Build(At(s, c).since, s.now, made)])
  }

  /** The lock is held by at most one caller, which is the only one past it. */
  ghost predicate LockInv(s: State) {
    && (forall c :: At(s, c).HoldsWriteLock? || At(s, c).Building? <==> s.writer == Some(c))
    && (forall c :: At(s, c).HoldsReadLock? <==> c in s.readers)
    && (s.writer.Some? ==> s.readers == {})
  }

  /** Finished builds lie one after the other, a cooldown apart, and only the last made anything. */
  predicate Spaced(builds: seq<Build>, uploadFrequency: Duration) {
    && (forall b :: b in builds ==> b.start <= b.finish)
    && (forall i :: 0 <= i < |builds| - 1 ==>
                      && builds[i].made == 0
                      && builds[i].finish + uploadFrequency <= builds[i + 1].start
                      && builds[i].finish <= builds[i + 1].start)
  }

  /** What the fields say about the builds so far. */
  predicate HistoryInv(s: State, uploadFrequency: Duration) {
    && Spaced(s.builds, uploadFrequency)
    && if s.builds == [] then s.lastServiceBuild == None && s.services == 0
       else
         var last := s.builds[|s.builds| - 1];
         s.lastServiceBuild == Some(last.finish) && s.services == last.made && last.finish <= s.now
  }

  /** A build in progress started with nothing there, a cooldown after the last one. */
  predicate MayBuild(s: State, since: Instant, uploadFrequency: Duration) {
    && s.services == 0 && since <= s.now
    && (s.lastServiceBuild.Some? ==>
          && s.lastServiceBuild.value <= since
          && s.lastServiceBuild.value + uploadFrequency <= since)
  }

  ghost predicate Inv(s: State, uploadFrequency: Duration) {
    && LockInv(s)
    && HistoryInv(s, uploadFrequency)
    && forall c :: At(s, c).Building? ==> MayBuild(s, At(s, c).since, uploadFrequency)
  }

  lemma OthersStay(s: State, step: Step, uploadFrequency: Duration)
    requires Enabled(s, step)
    ensures forall c :: step.Tick? || c != step.c ==> At(Apply(s, step, uploadFrequency), c) == At(s, c)
  {}

  lemma LockInvKept(s: State, step: Step, uploadFrequency: Duration)
    requires LockInv(s) && Enabled(s, step)
    ensures LockInv(Apply(s, step, uploadFrequency))
  {
    OthersStay(s, step, uploadFrequency);
  }

  lemma SpacedNext(builds: seq<Build>, b: Build, uploadFrequency: Duration)
    requires Spaced(builds, uploadFrequency) && b.start <= b.finish
    requires builds != [] ==>
               var last := builds[|builds| - 1];
               last.made == 0 && last.finish + uploadFrequency <= b.start && last.finish <= b.start
    ensures Spaced(builds + [b], uploadFrequency)
  {}

  lemma HistoryInvKept(s: State, step: Step, uploadFrequency: Duration)
    requires Inv(s, uploadFrequency) && Enabled(s, step)
    ensures HistoryInv(Apply(s, step, uploadFrequency), uploadFrequency)
  {
    if step.FinishBuild? {
      SpacedNext(s.builds, Build(At(s, step.c).since, s.now, step.made), uploadFrequency);
    }
  }

  lemma MayBuildKept(s: State, step: Step, uploadFrequency: Duration)
    requires Inv(s, uploadFrequency) && Enabled(s, step)
    ensures
      var s' := Apply(s, step, uploadFrequency);
      forall c :: At(s', c).Building? ==> MayBuild(s', At(s', c).since, uploadFrequency)
  {
    OthersStay(s, step, uploadFrequency);
    LockInvKept(s, step, uploadFrequency);
  }

  lemma InvKept(s: State, step: Step, uploadFrequency: Duration)
    requires Inv(s, uploadFrequency) && Enabled(s, step)
    ensures Inv(Apply(s, step, uploadFrequency), uploadFrequency)
  {
    LockInvKept(s, step, uploadFrequency);
    HistoryInvKept(s, step, uploadFrequency);
    MayBuildKept(s, step, uploadFrequency);
  }

  ghost predicate Execution(states: seq<State>, steps: seq<Step>, uploadFrequency: Duration) {
    && |states| == |steps| + 1
    && (exists now :: states[0] == Initial(now))
    && forall i :: 0 <= i < |steps| ==>
                     Enabled(states[i], steps[i]) && states[i + 1] == Apply(states[i], steps[i], uploadFrequency)
  }

  lemma {:induction false} InvAlways(states: seq<State>, steps: seq<Step>, uploadFrequency: Duration, n: nat)
    requires Execution(states, steps, uploadFrequency) && n <= |steps|
    ensures Inv(states[n], uploadFrequency)
  {
    if n > 0 {
      InvAlways(states, steps, uploadFrequency, n - 1);
      InvKept(states[n - 1], steps[n - 1], uploadFrequency);
    }
  }

  /** In no interleaving are two callers building at once, and whoever builds holds the lock alone. */
  lemma BuildsNeverOverlap(states: seq<State>, steps: seq<Step>, uploadFrequency: Duration, n: nat, c: Caller, d: Caller)
    requires Execution(states, steps, uploadFrequency) && n <= |steps|
    requires At(states[n], c).Building? && At(states[n], d).Building?
    ensures c == d && states[n].readers == {}
  {
    InvAlways(states, steps, uploadFrequency, n);
  }

  /** A result that was not empty is there for good. */
  lemma {:induction false} NeverRebuilt(states: seq<State>, steps: seq<Step>, uploadFrequency: Duration, m: nat, n: nat)
    requires Execution(states, steps, uploadFrequency) && m <= n <= |steps|
    requires states[m].services > 0
    ensures states[n].services == states[m].services && states[n].builds == states[m].builds
  {
    if m < n {
      NeverRebuilt(states, steps, uploadFrequency, m, n - 1);
      InvAlways(states, steps, uploadFrequency, n - 1);
    }
  }

  /**
   * A check under the lock starts a build if and only if no build has made anything yet, and none has
   * been made or a cooldown has passed since the last one ended. Otherwise it ends the call.
   */
  lemma ChecksStartBuilds(states: seq<State>, steps: seq<Step>, uploadFrequency: Duration, n: nat, c: Caller)
    requires Execution(states, steps, uploadFrequency) && n < |steps| && steps[n] == SlowCheck(c)
    ensures
      var builds := states[n].builds;
      && (At(states[n + 1], c).Building? <==>
            builds == [] || (builds[|builds| - 1].made == 0 && builds[|builds| - 1].finish + uploadFrequency <= states[n].now))
      && (!At(states[n + 1], c).Building? ==> At(states[n + 1], c).Outside? && states[n + 1].writer == None)
  {
    InvAlways(states, steps, uploadFrequency, n);
  }

  /** The first check ends the call exactly if there are services; otherwise it goes on to the lock. */
  lemma ReadersReturn(states: seq<State>, steps: seq<Step>, uploadFrequency: Duration, n: nat, c: Caller)
    requires Execution(states, steps, uploadFrequency) && n < |steps| && steps[n] == FastCheck(c)
    ensures
      var builds := states[n].builds;
      At(states[n + 1], c) == if builds != [] && builds[|builds| - 1].made > 0 then Outside else WantsWriteLock
  {
    InvAlways(states, steps, uploadFrequency, n);
  }

  /** How far a call has come; outside it has come to its end. */
  function Stage(p: Place): nat {
    match p
    case HoldsReadLock => 1
    case WantsWriteLock => 2
    case HoldsWriteLock => 3
    case Building(_) => 4
    case Outside => 5
  }

  /** A call begins at the first stage, every step of it leads on, and time passes: it ends after five steps at most. */
  lemma CallsGoOn(s: State, step: Step, uploadFrequency: Duration)
    requires Enabled(s, step)
    ensures
      var s' := Apply(s, step, uploadFrequency);
      match step
      case Tick(t) => s'.now == t && s'.place == s.place
      case RLock(c) => Stage(At(s', c)) == 1
      case _ => Stage(At(s', step.c)) > Stage(At(s, step.c))
    ensures step.FinishBuild? ==>
              var s' := Apply(s, step, uploadFrequency);
              && At(s', step.c).Outside? && s'.services == step.made
              && s'.builds == s.builds + [Build(At(s, step.c).since, s.now, step.made)]
  {
  }

  /** Whoever is inside, one of the callers inside can go on. */
  lemma NoDeadlock(states: seq<State>, steps: seq<Step>, uploadFrequency: Duration, n: nat, c: Caller)
    requires Execution(states, steps, uploadFrequency) && n <= |steps| && !At(states[n], c).Outside?
    ensures exists step :: Enabled(states[n], step) && !step.Tick? && !step.RLock?
  {
    InvAlways(states, steps, uploadFrequency, n);
    var s := states[n];
    match At(s, c) {
      case HoldsReadLock => assert Enabled(s, FastCheck(c));
      case HoldsWriteLock => assert Enabled(s, SlowCheck(c));
      case Building(_) => assert Enabled(s, FinishBuild(c, 0));
      case WantsWriteLock =>
        if s.writer.Some? {
          var w := s.writer.value;
          assert Enabled(s, SlowCheck(w)) || Enabled(s, FinishBuild(w, 0));
        } else if s.readers != {} {
          assert Enabled(s, FastCheck(AnyOf(s.readers)));
        } else {
          assert Enabled(s, Lock(c));
        }
    }
  }

  lemma {:induction false} BuildsSpread(builds: seq<Build>, uploadFrequency: Duration, i: nat, j: nat)
    requires Spaced(builds, uploadFrequency) && i <= j < |builds|
    ensures builds[j].start >= builds[i].start + (j - i) * uploadFrequency
    decreases j
  {
    if i < j {
      BuildsSpread(builds, uploadFrequency, i, j - 1);
      assert builds[j - 1] in builds;
      assert (j - i) * uploadFrequency == (j - 1 - i) * uploadFrequency + uploadFrequency;
    }
  }

  lemma MultipleFits(k: nat, span: int, d: int)
    requires d > 0 && span >= k * d
    ensures k <= span / d
  {
    var q, r := span / d, span % d;
    assert span == q * d + r;
    assert (q + 1) * d == q * d + d;
    MultiplesInOrder(k, q + 1, d);
  }

  /** Every retry waits a full cooldown after the end of the build before it, so the builds that
      start within any time span are at most one more than the cooldowns that fit into it. */
  lemma BuildsAreBounded(states: seq<State>, steps: seq<Step>, uploadFrequency: Duration, n: nat, i: nat, j: nat)
    requires Execution(states, steps, uploadFrequency) && n <= |steps| && uploadFrequency > 0
    requires i <= j < |states[n].builds|
    ensures var span := states[n].builds[j].start - states[n].builds[i].start;
            j - i + 1 <= span / uploadFrequency + 1
  {
    InvAlways(states, steps, uploadFrequency, n);
    var builds := states[n].builds;
    BuildsSpread(builds, uploadFrequency, i, j);
    MultipleFits(j - i, builds[j].start - builds[i].start, uploadFrequency);
  }
}
