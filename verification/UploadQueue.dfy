/** The concurrent string set and its operateAndRemove pass, for any order, outcomes and clock. */
module UploadQueue {
  import opened Instants
  import opened Collections

  /** What f returned for an entry; `abandons` marks an error every further entry would meet too. */
  datatype Outcome = Succeeded | Failed(abandons: bool)

  const DRAIN_BUDGET_DIVISOR := 2

  /** Half an upload cycle; without a cycle of two nanoseconds at least there is no bound. */
  function DrainBudget(uploadFrequency: Duration): (b: Duration)
    ensures b > 0 <==> uploadFrequency >= DRAIN_BUDGET_DIVISOR
    ensures b > 0 ==> 2 * b <= uploadFrequency < 2 * (b + 1)
    ensures b >= 0
  {
    if uploadFrequency <= 0 then 0 else uploadFrequency / DRAIN_BUDGET_DIVISOR
  }

  /** An error that every further entry would meet too has come up. */
  predicate Abandoned(outcomes: seq<Outcome>) {
    outcomes != [] && outcomes[|outcomes| - 1] == Failed(true)
  }

  predicate ReadInTime(clock: seq<Instant>, budget: Duration, i: nat)
    requires i + 1 < |clock|
  {
    budget <= 0 || clock[i + 1] < clock[0] + budget
  }

  /** The loop may have come as far as these outcomes. */
  predicate Reached(keys: seq<string>, outcomes: seq<Outcome>, clock: seq<Instant>, budget: Duration) {
    && |outcomes| <= |keys| && |clock| == |keys| + 1
    && (forall i :: 0 <= i < |outcomes| ==> ReadInTime(clock, budget, i))
    && (forall i :: 0 <= i < |outcomes| - 1 ==> outcomes[i] != Failed(true))
  }

  /** And it stops there. */
  predicate Stops(keys: seq<string>, outcomes: seq<Outcome>, clock: seq<Instant>, budget: Duration) {
    && Reached(keys, outcomes, clock, budget)
    && (|outcomes| < |keys| ==>
          Abandoned(outcomes) || !ReadInTime(clock, budget, |outcomes|))
  }

  /** The entries that failed, in order. */
  function Failures(keys: seq<string>, outcomes: seq<Outcome>): seq<string>
    requires |outcomes| <= |keys|
  {
    if outcomes == [] then []
    else
      var n := |outcomes| - 1;
      Failures(keys, outcomes[..n]) + if outcomes[n].Failed? then [keys[n]] else []
  }

  lemma ReachedNext(keys: seq<string>, outcomes: seq<Outcome>, clock: seq<Instant>, budget: Duration, next: Outcome)
    requires Reached(keys, outcomes, clock, budget) && |outcomes| < |keys| && !Abandoned(outcomes)
    requires ReadInTime(clock, budget, |outcomes|)
    ensures Reached(keys, outcomes + [next], clock, budget)
    ensures Failures(keys, outcomes + [next])
            == Failures(keys, outcomes) + if next.Failed? then [keys[|outcomes|]] else []
  {
    assert (outcomes + [next])[..|outcomes|] == outcomes;
  }

  lemma CeilingBound(k: nat, budget: Duration, least: Duration)
    requires least > 0 && k * least < budget
    ensures k + 1 <= (budget + least - 1) / least
  {
    var q, r := (budget + least - 1) / least, (budget + least - 1) % least;
    assert budget + least - 1 == q * least + r;
    MultiplesInOrder(k, q, least);
  }

  /**
   * Everything a pass cannot choose: the order in which the map yields its keys, what f returns,
   * the clock (reading 0 sets the deadline, reading i + 1 is taken before entry i, and `finish` is
   * the moment at which the loop is left), and the keys other goroutines add while f works on entry i.
   */
  datatype Pass = Pass(
    order: seq<string>,
    outcomes: seq<Outcome>,
    clock: seq<Instant>,
    finish: Instant,
    others: seq<set<string>>)
  {
    ghost predicate Over(data: set<string>) {
      && |outcomes| == |order| == |others| && |clock| == |order| + 1
      && (forall k :: k in order <==> k in data)
      && (forall i, j :: 0 <= i < j < |order| ==> order[i] != order[j])
    }

    predicate InTime(budget: Duration, i: nat)
      requires i + 1 < |clock|
    {
      ReadInTime(clock, budget, i)
    }

    /** The pass attempted exactly the first n entries. */
    ghost predicate Attempts(budget: Duration, n: nat)
      requires |outcomes| == |order| && |clock| == |order| + 1
    {
      n <= |order| && Stops(order, outcomes[..n], clock, budget)
    }

    ghost function SucceededKeys(n: nat): set<string>
      requires n <= |order| == |outcomes|
    {
      set i | 0 <= i < n && outcomes[i].Succeeded? :: order[i]
    }

    function FailedKeys(n: nat): seq<string>
      requires n <= |order| == |outcomes|
    {
      Failures(order, outcomes[..n])
    }

    function AddedByOthers(n: nat): set<string>
      requires n <= |others|
    {
      if n == 0 then {} else AddedByOthers(n - 1) + others[n - 1]
    }

    lemma {:induction false} AddedMembers(n: nat)
      requires n <= |others|
      ensures forall k :: k in AddedByOthers(n) <==> exists i :: 0 <= i < n && k in others[i]
    {
      if n > 0 {
        AddedMembers(n - 1);
      }
    }

    lemma AttemptsExactly(budget: Duration, n: nat)
      requires |outcomes| == |order| && |clock| == |order| + 1
      ensures Attempts(budget, n) <==>
                && n <= |order|
                && (forall i :: 0 <= i < n ==> InTime(budget, i))
                && (forall i :: 0 <= i < n - 1 ==> outcomes[i] != Failed(true))
                && (n < |order| ==> !InTime(budget, n) || (n > 0 && outcomes[n - 1] == Failed(true)))
    {
      if n <= |order| {
        var made := outcomes[..n];
        assert forall i :: 0 <= i < n ==> made[i] == outcomes[i];
        assert forall i :: 0 <= i < |order| ==> (InTime(budget, i) <==> ReadInTime(clock, budget, i));
        assert (forall i :: 0 <= i < n - 1 ==> outcomes[i] != Failed(true))
          <==> (forall i :: 0 <= i < |made| - 1 ==> made[i] != Failed(true));
      }
    }

    /** Only the last attempt can have abandoned the pass. */
    lemma AbandonsAtTheEnd(budget: Duration, n: nat, k: nat)
      requires |outcomes| == |order| && |clock| == |order| + 1 && Attempts(budget, n) && k < n
      ensures outcomes[k] == Failed(true) ==> k == n - 1
    {
      AttemptsExactly(budget, n);
    }

    /** Without a budget that runs out and without an abandoning error, every entry is attempted. */
    lemma FullPass(budget: Duration, n: nat)
      requires |outcomes| == |order| && |clock| == |order| + 1 && Attempts(budget, n)
      requires forall i :: 0 <= i < |order| ==> InTime(budget, i) && outcomes[i] != Failed(true)
      ensures n == |order|
    {
      AttemptsExactly(budget, n);
    }

    /** How far a pass gets is determined by the outcomes and the clock. */
    lemma AttemptsUnique(budget: Duration, m: nat, n: nat)
      requires |outcomes| == |order| && |clock| == |order| + 1
      requires Attempts(budget, m) && Attempts(budget, n)
      ensures m == n
    {
      AttemptsExactly(budget, m);
      AttemptsExactly(budget, n);
    }

    /** The moment before entry i, or that of leaving the loop after n entries. */
    function After(n: nat, i: nat): Instant
      requires i <= n && n <= |order| && |clock| == |order| + 1
    {
      if i < n then clock[i + 1] else finish
    }

    /** Each of the n attempted entries takes its cost from one moment to the next. */
    ghost predicate Takes(costs: seq<Duration>, n: nat) {
      && n <= |order| && |clock| == |order| + 1 && |costs| == n
      && (n > 0 ==> clock[0] <= clock[1])
      && forall i :: 0 <= i < n ==> costs[i] >= 0 && After(n, i + 1) == After(n, i) + costs[i]
    }

    /** A pass lasts less than its budget and its last upload. */
    lemma PassDuration(budget: Duration, n: nat, costs: seq<Duration>)
      requires |outcomes| == |order| && |clock| == |order| + 1 && Attempts(budget, n) && Takes(costs, n)
      requires budget > 0 && n > 0
      ensures finish - clock[0] < budget + costs[n - 1]
    {
      assert InTime(budget, n - 1);
      assert After(n, n) == After(n, n - 1) + costs[n - 1];
    }

    lemma {:induction false} StartTimes(costs: seq<Duration>, n: nat, least: Duration, i: nat)
      requires Takes(costs, n) && i < n
      requires forall j :: 0 <= j < n ==> costs[j] >= least
      ensures After(n, i) >= clock[0] + i * least
    {
      if i > 0 {
        StartTimes(costs, n, least, i - 1);
        assert After(n, (i - 1) + 1) == After(n, i - 1) + costs[i - 1];
        assert i * least == (i - 1) * least + least;
      }
    }

    /** If every upload costs at least `least`, a pass attempts at most budget / least entries,
        rounded up, however long the queue is. */
    lemma AttemptBound(budget: Duration, n: nat, costs: seq<Duration>, least: Duration)
      requires |outcomes| == |order| && |clock| == |order| + 1 && Attempts(budget, n) && Takes(costs, n)
      requires budget > 0 && least > 0
      requires forall j :: 0 <= j < n ==> costs[j] >= least
      ensures n <= (budget + least - 1) / least
    {
      if n > 0 {
        StartTimes(costs, n, least, n - 1);
        assert InTime(budget, n - 1);
        assert (n - 1) * least < budget;
        CeilingBound(n - 1, budget, least);
      }
    }
  }

  /** The pass that these outcomes are the beginning of. */
  ghost function PassOf(keys: seq<string>, outcomes: seq<Outcome>, clock: seq<Instant>, finish: Instant): Pass
    requires |outcomes| <= |keys|
  {
    Pass(keys, outcomes + seq(|keys| - |outcomes|, _ => Failed(false)), clock, finish, seq(|keys|, _ => {}))
  }

  lemma PassOfOutcomes(keys: seq<string>, outcomes: seq<Outcome>, clock: seq<Instant>, finish: Instant, budget: Duration,
                       data: set<string>)
    requires Stops(keys, outcomes, clock, budget)
    requires (forall k :: k in keys <==> k in data) && forall i, j :: 0 <= i < j < |keys| ==> keys[i] != keys[j]
    ensures PassOf(keys, outcomes, clock, finish).Over(data)
    ensures PassOf(keys, outcomes, clock, finish).Attempts(budget, |outcomes|)
    ensures PassOf(keys, outcomes, clock, finish).FailedKeys(|outcomes|) == Failures(keys, outcomes)
    ensures forall t :: t in PassOf(keys, outcomes, clock, finish).SucceededKeys(|outcomes|)
                        <==> exists k :: 0 <= k < |outcomes| && outcomes[k].Succeeded? && keys[k] == t
  {
    var pass := PassOf(keys, outcomes, clock, finish);
    forall i | 0 <= i < |outcomes| ensures pass.outcomes[i] == outcomes[i] && pass.InTime(budget, i) {}
    assert pass.outcomes[..|outcomes|] == outcomes;
  }

  lemma AttemptNext(pass: Pass, n: nat)
    requires 0 < n <= |pass.order| == |pass.outcomes|
    ensures pass.SucceededKeys(n)
            == pass.SucceededKeys(n - 1) + if pass.outcomes[n - 1].Succeeded? then {pass.order[n - 1]} else {}
    ensures pass.FailedKeys(n)
            == pass.FailedKeys(n - 1) + if pass.outcomes[n - 1].Succeeded? then [] else [pass.order[n - 1]]
  {
    assert pass.outcomes[..n][..n - 1] == pass.outcomes[..n - 1];
    if pass.outcomes[n - 1].Succeeded? {
      assert pass.SucceededKeys(n) == pass.SucceededKeys(n - 1) + {pass.order[n - 1]};
    } else {
      assert pass.SucceededKeys(n) == pass.SucceededKeys(n - 1);
    }
  }

  class StringSet {
    var data: set<string>

    constructor ()
      ensures data == {}
    {
      data := {};
    }

    method Add(k: string)
      modifies this
      ensures data == old(data) + {k}
    {
      data := data + {k};
    }

    method Remove(k: string)
      modifies this
      ensures data == old(data) - {k}
    {
      data := data - {k};
    }

    /**
     * Applies f to a snapshot of the set and removes every entry it succeeded on; errs lists the
     * entries it failed on. A key that another goroutine re-adds while the pass runs is removed
     * all the same when f had succeeded on it.
     */
    method OperateAndRemove(pass: Pass, budget: Duration) returns (attempted: nat, errs: seq<string>)
      requires pass.Over(data)
      modifies this
      ensures pass.Attempts(budget, attempted)
      ensures errs == pass.FailedKeys(attempted)
      ensures data == (old(data) + pass.AddedByOthers(attempted)) - pass.SucceededKeys(attempted)
    {
      var keys := pass.order;
      var deadline := pass.clock[0] + budget;
      var toRemove: seq<string> := [];
      errs := [];
      var i := 0;
      var abandoned := false;
      while i < |keys| && !abandoned && (budget <= 0 || pass.clock[i + 1] < deadline)
        invariant 0 <= i <= |keys|
        invariant forall j :: 0 <= j < i ==> pass.InTime(budget, j)
        invariant forall j :: 0 <= j < i - 1 ==> pass.outcomes[j] != Failed(true)
        invariant abandoned <==> i > 0 && pass.outcomes[i - 1] == Failed(true)
        invariant errs == pass.FailedKeys(i)
        invariant forall k :: k in toRemove <==> k in pass.SucceededKeys(i)
        invariant data == old(data) + pass.AddedByOthers(i)
        decreases |keys| - i
      {
        data := data + pass.others[i];
        AttemptNext(pass, i + 1);
        match pass.outcomes[i] {
          case Failed(abandons) =>
            errs := errs + [keys[i]];
            abandoned := abandons;
          case Succeeded =>
            toRemove := toRemove + [keys[i]];
        }
        i := i + 1;
      }
      attempted := i;
      pass.AttemptsExactly(budget, i);
      RemoveAll(toRemove);
    }

    method RemoveAll(keys: seq<string>)
      modifies this
      ensures forall k :: k in data <==> k in old(data) && k !in keys
    {
      for j := 0 to |keys|
        invariant forall k :: k in data <==> k in old(data) && k !in keys[..j]
      {
        assert keys[..j + 1] == keys[..j] + [keys[j]];
        Remove(keys[j]);
      }
      assert keys[..|keys|] == keys;
    }
  }

  /**
   * "The old set minus the succeeded entries plus concurrent additions" is what a pass leaves exactly
   * when nobody re-added an entry that the pass had shipped or was to ship.
   */
  lemma ReAddedEntriesAreLost(pass: Pass, before: set<string>, n: nat)
    requires n <= |pass.order| == |pass.outcomes| == |pass.others|
    ensures (before + pass.AddedByOthers(n)) - pass.SucceededKeys(n)
            == (before - pass.SucceededKeys(n)) + pass.AddedByOthers(n)
            <==> forall i, j :: 0 <= i < n && 0 <= j < n && pass.outcomes[j].Succeeded? ==>
                                  pass.order[j] !in pass.others[i]
  {
    var added, succeeded := pass.AddedByOthers(n), pass.SucceededKeys(n);
    pass.AddedMembers(n);
    if (before + added) - succeeded == (before - succeeded) + added {
      forall k | k in added ensures k !in succeeded {
        assert k in (before - succeeded) + added;
      }
      forall i, j | 0 <= i < n && 0 <= j < n && pass.outcomes[j].Succeeded? ensures pass.order[j] !in pass.others[i] {
        assert pass.order[j] in succeeded;
      }
    }
  }

  /** Every attempted entry succeeded or is one of the joined errors. */
  lemma {:induction false} AttemptsSplit(pass: Pass, n: nat)
    requires n <= |pass.order| == |pass.outcomes|
    ensures forall k :: k in pass.order[..n] <==> k in pass.SucceededKeys(n) || k in pass.FailedKeys(n)
  {
    if n > 0 {
      AttemptsSplit(pass, n - 1);
      AttemptNext(pass, n);
      assert pass.order[..n] == pass.order[..n - 1] + [pass.order[n - 1]];
    }
  }

  lemma OneMore(succeeded: set<string>, failed: seq<string>, k: string, success: bool)
    requires k !in succeeded && k !in failed && forall j :: j in succeeded ==> j !in failed
    ensures
      var s, f := succeeded + (if success then {k} else {}), failed + (if success then [] else [k]);
      |s| + |f| == |succeeded| + |failed| + 1 && forall j :: j in s ==> j !in f
  {
  }

  /** And it counts once. */
  lemma {:induction false} AttemptsAddUp(pass: Pass, n: nat)
    requires n <= |pass.order| == |pass.outcomes|
    requires forall i, j :: 0 <= i < j < |pass.order| ==> pass.order[i] != pass.order[j]
    ensures |pass.SucceededKeys(n)| + |pass.FailedKeys(n)| == n
    ensures forall k :: k in pass.SucceededKeys(n) ==> k !in pass.FailedKeys(n)
  {
    if n == 0 {
      assert pass.SucceededKeys(0) == {};
    } else {
      var k := pass.order[n - 1];
      AttemptsAddUp(pass, n - 1);
      AttemptsSplit(pass, n - 1);
      AttemptNext(pass, n);
      assert k !in pass.order[..n - 1];
      OneMore(pass.SucceededKeys(n - 1), pass.FailedKeys(n - 1), k, pass.outcomes[n - 1].Succeeded?);
    }
  }
}
