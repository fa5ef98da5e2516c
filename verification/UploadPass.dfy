/**
 * One pass of the upload queue over the payloads: what becomes of each of them, given what the clock, the
 * disk and the storage services do.
 */
module UploadPass {
  import opened Instants
  import opened UploadPipeline
  import Q = UploadQueue

  /** What a pass meets: the clock, whether services can be built, and what becomes of each payload. */
  datatype World = World(
    clock: nat -> Instant,
    rebuilds: bool,
    readable: set<Path>,
    accepting: set<(Service, Path)>,
    removable: set<Path>)
  {
    /** The payload can be read, is accepted by every service, and can be removed. */
    predicate Ships(services: seq<Service>, t: Path) {
      t in readable && t in removable && forall v :: v in services ==> (v, t) in accepting
    }
  }

  /** The readings of the clock that a pass over n entries may take. */
  function Readings(clock: nat -> Instant, n: nat): (readings: seq<Instant>)
    ensures |readings| == n + 1 && forall i :: 0 <= i <= n ==> readings[i] == clock(i)
  {
    seq(n + 1, i requires 0 <= i => clock(i))
  }

  /** The services after some attempts of a pass: they are built at the first one, if at all. */
  function ServicesAfter(world: World, services: seq<Service>, had: seq<Service>, attempted: nat): seq<Service> {
    if had == [] && world.rebuilds && attempted > 0 then services else had
  }

  // ---------- The outcomes so far ----------

  ghost predicate Succeeds(keys: seq<Path>, outcomes: seq<Q.Outcome>, t: Path)
    requires |outcomes| <= |keys|
  {
    exists k :: 0 <= k < |outcomes| && outcomes[k].Succeeded? && keys[k] == t
  }

  lemma SucceedsNext(keys: seq<Path>, outcomes: seq<Q.Outcome>, next: Q.Outcome)
    requires |outcomes| < |keys|
    ensures forall t :: Succeeds(keys, outcomes + [next], t)
                        <==> Succeeds(keys, outcomes, t) || (next.Succeeded? && keys[|outcomes|] == t)
  {
    var all := outcomes + [next];
    forall t | Succeeds(keys, outcomes, t) ensures Succeeds(keys, all, t) {
      var k :| 0 <= k < |outcomes| && outcomes[k].Succeeded? && keys[k] == t;
      assert all[k].Succeeded?;
    }
    assert all[|outcomes|] == next;
  }

  /**
   * The outcome of one entry, given the services there are when it is tried: it makes the rest pointless
   * if and only if there are none, and it succeeds if and only if there are some and its payload is not
   * on disk or can be shipped.
   */
  predicate Meets(world: World, services: seq<Service>, has: seq<Service>, tars: map<Path, Tar>, t: Path, outcome: Q.Outcome) {
    && (outcome == Q.Failed(true) <==> has == [])
    && (outcome == Q.Succeeded <==> has != [] && (t !in tars || world.Ships(services, t)))
  }

  /** The loop of a pass has come as far as these outcomes. */
  ghost predicate Under(world: World, services: seq<Service>, had: seq<Service>, has: seq<Service>, tars: map<Path, Tar>,
                        keys: seq<Path>, outcomes: seq<Q.Outcome>, budget: Duration)
  {
    && Q.Reached(keys, outcomes, Readings(world.clock, |keys|), budget)
    && has == ServicesAfter(world, services, had, |outcomes|)
    && forall k :: 0 <= k < |outcomes| ==> Meets(world, services, has, tars, keys[k], outcomes[k])
  }

  lemma UnderNext(world: World, services: seq<Service>, had: seq<Service>, was: seq<Service>, has: seq<Service>,
                  tars: map<Path, Tar>, keys: seq<Path>, outcomes: seq<Q.Outcome>, budget: Duration, next: Q.Outcome)
    requires Under(world, services, had, was, tars, keys, outcomes, budget)
    requires |outcomes| < |keys| && !Q.Abandoned(outcomes) && Q.ReadInTime(Readings(world.clock, |keys|), budget, |outcomes|)
    requires has == (if was == [] && world.rebuilds then services else was)
    requires Meets(world, services, has, tars, keys[|outcomes|], next)
    ensures Under(world, services, had, has, tars, keys, outcomes + [next], budget)
    ensures Q.Failures(keys, outcomes + [next]) == Q.Failures(keys, outcomes) + if next.Failed? then [keys[|outcomes|]] else []
  {
    Q.ReachedNext(keys, outcomes, Readings(world.clock, |keys|), budget, next);
    var all, n := outcomes + [next], |outcomes|;
    assert n > 0 ==> Meets(world, services, was, tars, keys[n - 1], outcomes[n - 1]);
    assert n > 0 ==> was != [] && has == was;
    forall k | 0 <= k < |all| ensures Meets(world, services, has, tars, keys[k], all[k]) {
      assert all[k] == if k < n then outcomes[k] else next;
    }
  }

  /** The payloads on disk after these outcomes. */
  ghost function Remaining(tars: map<Path, Tar>, keys: seq<Path>, outcomes: seq<Q.Outcome>): map<Path, Tar>
    requires |outcomes| <= |keys|
  {
    map t | t in tars && !Succeeds(keys, outcomes, t) :: tars[t]
  }

  lemma RemainingNext(tars: map<Path, Tar>, keys: seq<Path>, outcomes: seq<Q.Outcome>, next: Q.Outcome)
    requires |outcomes| < |keys| && forall i, j :: 0 <= i < j < |keys| ==> keys[i] != keys[j]
    ensures !Succeeds(keys, outcomes, keys[|outcomes|])
    ensures Remaining(tars, keys, outcomes + [next])
            == Remaining(tars, keys, outcomes) - if next.Succeeded? then {keys[|outcomes|]} else {}
  {
    SucceedsNext(keys, outcomes, next);
  }

  /** What was in the payloads shipped is with every service. */
  ghost predicate AllDelivered(services: set<Service>, tars: map<Path, Tar>, keys: seq<Path>, outcomes: seq<Q.Outcome>, s: State)
    requires |outcomes| <= |keys|
  {
    forall t, x :: Succeeds(keys, outcomes, t) && HoldsIn(tars, t, x) ==> Delivered(services, s, x)
  }

  lemma AllDeliveredNext(services: set<Service>, tars: map<Path, Tar>, keys: seq<Path>, outcomes: seq<Q.Outcome>, was: State,
                         next: Q.Outcome, s: State)
    requires |outcomes| < |keys| && AllDelivered(services, tars, keys, outcomes, was) && was.accepted <= s.accepted
    requires next.Succeeded? ==> forall x :: HoldsIn(tars, keys[|outcomes|], x) ==> Delivered(services, s, x)
    ensures AllDelivered(services, tars, keys, outcomes + [next], s)
  {
    SucceedsNext(keys, outcomes, next);
    assert forall x :: Delivered(services, was, x) ==> Delivered(services, s, x);
  }

  // ---------- A whole pass ----------

  /**
   * A drain of the queue from one state to another, with the services configured, those there were and
   * those there are. `pass` has the order in which the entries come up, and their outcomes.
   */
  datatype Drain = Drain(
    world: World,
    services: seq<Service>,
    budget: Duration,
    had: seq<Service>,
    has: seq<Service>,
    before: State,
    after: State,
    errors: seq<Path>,
    attempted: nat,
    pass: Q.Pass)
  {
    /**
     * An entry leaves the queue exactly if its attempt succeeds, and then its payload is off the disk and
     * with every service, or was not on disk. Only the lack of services abandons the pass.
     */
    ghost predicate Valid() {
      && pass.Over(before.uploadSet) && pass.clock == Readings(world.clock, |pass.order|)
      && pass.Attempts(budget, attempted)
      && has == ServicesAfter(world, services, had, attempted)
      && (forall k :: 0 <= k < attempted ==> Meets(world, services, has, before.uploads, pass.order[k], pass.outcomes[k]))
      && errors == pass.FailedKeys(attempted)
      && after.uploadSet == before.uploadSet - pass.SucceededKeys(attempted)
      && after.uploads == before.uploads - pass.SucceededKeys(attempted)
      && forall t, x :: t in pass.SucceededKeys(attempted) && InTar(before, t, x) ==>
                          Delivered((set v | v in services), after, x)
    }

    /**
     * A queued payload that the pass reaches, with services there and all of them accepting it, is off
     * the disk and out of the queue, and all its samples are delivered.
     */
    lemma ReachedIsShipped(k: nat)
      requires Valid() && k < attempted && has != []
      requires
        var t := pass.order[k];
        t in world.readable && t in world.removable && forall v :: v in services ==> (v, t) in world.accepting
      ensures
        var t := pass.order[k];
        && t !in after.uploads && t !in after.uploadSet && t !in errors
        && forall x :: InTar(before, t, x) ==> Delivered((set v | v in services), after, x)
    {
      assert Meets(world, services, has, before.uploads, pass.order[k], pass.outcomes[k]);
      assert pass.order[k] in pass.SucceededKeys(attempted);
      Q.AttemptsAddUp(pass, attempted);
    }

    /** With services there from the start only a spent budget leaves entries untried. */
    lemma OnlyBudgetEndsIt()
      requires Valid() && had != [] && attempted < |pass.order|
      ensures !pass.InTime(budget, attempted)
    {
      pass.AttemptsExactly(budget, attempted);
      assert attempted > 0 ==>
        Meets(world, services, has, before.uploads, pass.order[attempted - 1], pass.outcomes[attempted - 1]);
    }

    /**
     * Within its budget such a pass leaves in the queue exactly the payloads on disk that cannot be
     * shipped: none of them holds up another.
     */
    lemma NoneStarves()
      requires Valid() && had != [] && forall i :: 0 <= i < |pass.order| ==> pass.InTime(budget, i)
      ensures after.uploadSet
              == set t | t in before.uploadSet && t in before.uploads
                         && (t !in world.readable || t !in world.removable || exists v :: v in services && (v, t) !in world.accepting)
    {
      if attempted < |pass.order| {
        OnlyBudgetEndsIt();
      }
      forall t | t in before.uploadSet
        ensures t in pass.SucceededKeys(attempted) <==> t !in before.uploads || world.Ships(services, t)
      {
        var k :| 0 <= k < |pass.order| && pass.order[k] == t;
        assert Meets(world, services, has, before.uploads, pass.order[k], pass.outcomes[k]);
      }
    }

    /** Without services, and without any to be had, one entry at most is tried and nothing changes. */
    lemma NoServicesNoPass()
      requires Valid() && has == []
      ensures attempted <= 1 && after.uploadSet == before.uploadSet && after.uploads == before.uploads
    {
      forall k | 0 <= k < attempted ensures pass.outcomes[k] == Q.Failed(true) {
        assert Meets(world, services, has, before.uploads, pass.order[k], pass.outcomes[k]);
      }
      if attempted > 0 {
        pass.AbandonsAtTheEnd(budget, attempted, 0);
      }
      assert pass.SucceededKeys(attempted) == {} && before.uploads - {} == before.uploads;
    }
  }

  lemma PassOfKeys(keys: seq<Path>, outcomes: seq<Q.Outcome>, clock: seq<Instant>, finish: Instant)
    requires |outcomes| <= |keys|
    ensures
      var pass := Q.PassOf(keys, outcomes, clock, finish);
      && (forall k :: 0 <= k < |outcomes| ==> pass.outcomes[k] == outcomes[k])
      && forall t :: t in pass.SucceededKeys(|outcomes|) <==> Succeeds(keys, outcomes, t)
  {
  }

  /** The loop's outcomes make a drain. */
  lemma OutcomesDrain(d: Drain, keys: seq<Path>, outcomes: seq<Q.Outcome>)
    requires Under(d.world, d.services, d.had, d.has, d.before.uploads, keys, outcomes, d.budget)
    requires Q.Stops(keys, outcomes, Readings(d.world.clock, |keys|), d.budget)
    requires (forall k :: k in keys <==> k in d.before.uploadSet) && forall i, j :: 0 <= i < j < |keys| ==> keys[i] != keys[j]
    requires d.after.uploads == Remaining(d.before.uploads, keys, outcomes)
    requires forall t :: t in d.after.uploadSet <==> t in d.before.uploadSet && !Succeeds(keys, outcomes, t)
    requires AllDelivered((set v | v in d.services), d.before.uploads, keys, outcomes, d.after)
    requires d.errors == Q.Failures(keys, outcomes) && d.attempted == |outcomes|
    requires d.pass == Q.PassOf(keys, outcomes, Readings(d.world.clock, |keys|), d.pass.finish)
    ensures d.Valid()
  {
    Q.PassOfOutcomes(keys, outcomes, d.pass.clock, d.pass.finish, d.budget, d.before.uploadSet);
    PassOfKeys(keys, outcomes, d.pass.clock, d.pass.finish);
    var gone := d.pass.SucceededKeys(d.attempted);
    assert d.after.uploadSet == d.before.uploadSet - gone;
    assert d.after.uploads == d.before.uploads - gone;
  }
}
