/**
 * Start-up with the real walk: what the recovery walk finds in scratch decides what the uploader packs
 * and what it deletes.
 */
module StartUp {
  import opened Wrappers
  import W = RecoveryWalk
  import O = RecoveryOrders
  import P = UploadPipeline
  import U = CldyUploader
  import T = TarNames

  /** The uploader's view of the sample directories after a restart: none is being filled. */
  ghost predicate Holds(scratch: map<string, P.Directory>, samples: seq<W.Node>) {
    && W.Flat(samples)
    && (forall p :: p in scratch <==> exists d :: d in samples && d.name == p)
    && (forall d :: d in samples ==> !scratch[d.name].Filling?)
  }

  /** In a flat scratch tree an intact one is complete exactly if it misses no required file; a damaged
      one may look either way. */
  ghost predicate Reads(scratch: map<string, P.Directory>, c: W.Context, tree: seq<W.Node>) {
    && Holds(scratch, tree)
    && forall d :: d in tree && scratch[d.name].Whole? ==>
         (scratch[d.name].complete <==> W.Missing(c, [d.name], d.children) == {})
  }

  function NamesOf(tree: seq<W.Node>): seq<string> {
    seq(|tree|, i requires 0 <= i < |tree| => tree[i].name)
  }

  /** The directories that a walk has packed. */
  function Verdict(packed: seq<W.Sample>): set<string> {
    set x | x in packed && |x.dir| == 1 :: x.dir[0]
  }

  lemma VerdictIsSound(scratch: map<string, P.Directory>, c: W.Context, tree: seq<W.Node>)
    requires c.Valid() && Reads(scratch, c, tree)
    ensures forall p :: p in Verdict(W.Recovered(c, tree).packed) && p in scratch ==> scratch[p] != P.Whole(false)
  {
    W.PackedSamplesAreComplete(c, tree);
    var s := W.Recovered(c, tree);
    forall p | p in Verdict(s.packed) && p in scratch ensures scratch[p] != P.Whole(false) {
      var x :| x in s.packed && |x.dir| == 1 && x.dir[0] == p;
      assert x.dir == [p];
      assert W.IsComplete(c, tree, x.dir);
    }
  }

  /** The directories that the walk gets as far as. */
  function Reached(c: W.Context, tree: seq<W.Node>): nat
    requires W.Flat(tree)
  {
    var n := W.FirstBlocked(c, tree, 0);
    if n < |tree| then n + 1 else n
  }

  /** Those among them that it does not pack. */
  function Unpacked(c: W.Context, tree: seq<W.Node>): set<string>
    requires W.Flat(tree)
  {
    set k | 0 <= k < Reached(c, tree) && W.PackedOf(c, tree[k]) == [] :: tree[k].name
  }

  lemma ListedIsInVerdict(packed: seq<W.Sample>, p: string)
    ensures p in Verdict(packed) <==> W.Lists(packed, [p])
  {
    if p in Verdict(packed) {
      var x :| x in packed && |x.dir| == 1 && x.dir[0] == p;
      var k :| 0 <= k < |packed| && packed[k] == x;
      assert packed[k].dir == [p];
    }
    if W.Lists(packed, [p]) {
      var k :| 0 <= k < |packed| && packed[k].dir == [p];
      assert packed[k] in packed;
    }
  }

  lemma PackedBefore(c: W.Context, tree: seq<W.Node>, n: nat, k: nat)
    requires c.Valid() && W.Flat(tree) && k < |tree| && n <= |tree|
    ensures W.Flat(tree[..n])
    ensures W.Lists(W.PackedSamples(c, tree[..n]), [tree[k].name]) <==> k < n && W.PackedOf(c, tree[k]) != []
  {
    var before, d := tree[..n], tree[k];
    if k < n {
      assert before[k] == d;
      W.PackedSamplesExactly(c, before, d);
    } else {
      W.PackedSamplesNames(c, before, [d.name]);
      forall i | 0 <= i < n ensures before[i].name != d.name {
        assert before[i] == tree[i];
      }
    }
  }

  /** Directory k is in the verdict exactly if the walk gets as far as it and packs it. */
  lemma VerdictAt(c: W.Context, tree: seq<W.Node>, k: nat)
    requires c.Valid() && W.Flat(tree) && k < |tree|
    ensures tree[k].name in Verdict(W.Recovered(c, tree).packed) <==> k < Reached(c, tree) && W.PackedOf(c, tree[k]) != []
  {
    var n, dir := W.FirstBlocked(c, tree, 0), [tree[k].name];
    W.FlatTreeWalked(c, tree);
    PackedBefore(c, tree, n, k);
    ListedIsInVerdict(W.Recovered(c, tree).packed, tree[k].name);
    if n < |tree| {
      W.ListsSum(W.PackedSamples(c, tree[..n]), W.PackedOf(c, tree[n]), dir);
      W.PackedOfNames(c, tree[n], dir);
      assert k != n ==> dir != [tree[n].name];
    }
  }

  /**
   * With names that hide nothing the verdict is exact before the directory in which the walk stops; of
   * that one it is whether nothing is needed any more by then.
   */
  lemma VerdictIsExact(scratch: map<string, P.Directory>, c: W.Context, tree: seq<W.Node>, k: nat)
    requires c.Valid() && Reads(scratch, c, tree) && O.NoneHidden(c.base, c.required, tree)
    requires k < |tree| && tree[k].name in scratch && scratch[tree[k].name].Whole?
    ensures
      var packs, n := tree[k].name in Verdict(W.Recovered(c, tree).packed), W.FirstBlocked(c, tree, 0);
      && (k < n ==> (packs <==> scratch[tree[k].name].complete))
      && (k == n ==> (packs <==> W.Needed(c, [tree[k].name], W.FilesRead(c, tree[k])) == {}))
      && (k > n ==> !packs)
  {
    VerdictAt(c, tree, k);
    var d, n := tree[k], W.FirstBlocked(c, tree, 0);
    assert d in tree;
    if k < n {
      O.NotMissed(c, tree, d);
      W.OnePacked(c, d);
    }
  }

  // ---------- The names of the payloads ----------

  type WallTime = t: T.Time | t.Valid() witness T.Time(0, 1, 1, 0, 0, 0)

  /** How a payload is named: in which directory, of which cluster, and what the wall clock shows at a time. */
  datatype Naming = Naming(dir: string, clusterID: string, clock: int -> WallTime)
  {
    function Name(time: int): string {
      dir + "/" + T.TarName(clusterID, clock(time))
    }

    /** Two names are the same exactly if the wall clock shows the same second. */
    lemma NamesOfSeconds(a: int, b: int)
      ensures Name(a) == Name(b) <==> clock(a) == clock(b)
    {
      T.TarNameRoundTrip(dir, clusterID, clock(a));
      T.TarNameRoundTrip(dir, clusterID, clock(b));
    }
  }

  /** The time that the walk has read for a directory it packs. */
  function TimeIn(packed: seq<W.Sample>, p: string): int {
    if packed == [] then 0
    else if packed[|packed| - 1].dir == [p] then packed[|packed| - 1].time
    else TimeIn(packed[..|packed| - 1], p)
  }

  lemma {:induction false} TimeInSum(a: seq<W.Sample>, b: seq<W.Sample>, p: string)
    ensures TimeIn(a + b, p) == if W.Lists(b, [p]) then TimeIn(b, p) else TimeIn(a, p)
  {
    if b == [] {
      assert a + b == a;
    } else {
      var front, last := b[..|b| - 1], b[|b| - 1];
      assert (a + b)[..|a + b| - 1] == a + front && b == front + [last];
      TimeInSum(a, front, p);
      W.ListsSum(front, [last], [p]);
      assert W.Lists([last], [p]) <==> last.dir == [p] by {
        assert [last][0] == last;
      }
    }
  }

  /** The time of a sample is that of its agent measurement, as the walk has read it. */
  function TimeOf(c: W.Context, d: W.Node): int
    requires d.Dir? && W.AllFiles(d.children)
  {
    W.SampleTime(c, [d.name], W.FilesRead(c, d), 0)
  }

  lemma TimeInPacked(c: W.Context, d: W.Node, p: string)
    requires d.Dir? && W.AllFiles(d.children)
    ensures W.Lists(W.PackedOf(c, d), [p]) <==> p == d.name && W.PackedOf(c, d) != []
    ensures W.PackedOf(c, d) != [] ==> TimeIn(W.PackedOf(c, d), d.name) == TimeOf(c, d)
  {
    W.PackedOfNames(c, d, [p]);
  }

  lemma {:induction false} TimeBefore(c: W.Context, tree: seq<W.Node>, n: nat, k: nat)
    requires W.Flat(tree) && k < n <= |tree|
    ensures W.Flat(tree[..n]) && tree[k].Dir? && W.AllFiles(tree[k].children)
    ensures W.PackedOf(c, tree[k]) != [] ==> TimeIn(W.PackedSamples(c, tree[..n]), tree[k].name) == TimeOf(c, tree[k])
  {
    W.PackedNext(c, tree, n);
    TimeInSum(W.PackedSamples(c, tree[..n - 1]), W.PackedOf(c, tree[n - 1]), tree[k].name);
    TimeInPacked(c, tree[n - 1], tree[k].name);
    if k < n - 1 {
      assert tree[k].name != tree[n - 1].name;
      TimeBefore(c, tree, n - 1, k);
    }
  }

  /** What the walk packs are the directories it gets as far as, if nothing is needed any more. */
  lemma PackedAsReached(c: W.Context, tree: seq<W.Node>)
    requires c.Valid() && W.Flat(tree)
    ensures W.Flat(tree[..Reached(c, tree)])
    ensures W.Recovered(c, tree).packed == W.PackedSamples(c, tree[..Reached(c, tree)])
  {
    W.FlatTreeWalked(c, tree);
    var n := W.FirstBlocked(c, tree, 0);
    if n < |tree| {
      W.PackedNext(c, tree, n + 1);
    }
  }

  lemma VerdictHasTimes(c: W.Context, tree: seq<W.Node>, k: nat)
    requires c.Valid() && W.Flat(tree) && k < Reached(c, tree) && W.PackedOf(c, tree[k]) != []
    ensures tree[k].Dir? && W.AllFiles(tree[k].children)
    ensures TimeIn(W.Recovered(c, tree).packed, tree[k].name) == TimeOf(c, tree[k])
  {
    PackedAsReached(c, tree);
    TimeBefore(c, tree, Reached(c, tree), k);
  }

  /** The names of the payloads that the walk's samples are packed into. */
  function PayloadNames(naming: Naming, packed: seq<W.Sample>): map<string, string> {
    map p | p in Verdict(packed) :: naming.Name(TimeIn(packed, p))
  }

  /** No two of the samples that the walk packs are of one second, and no payload of theirs is there already. */
  ghost predicate OwnSeconds(naming: Naming, tars: map<string, P.Tar>, c: W.Context, tree: seq<W.Node>)
    requires W.Flat(tree)
  {
    && (forall j, k :: 0 <= j < k < Reached(c, tree) && W.PackedOf(c, tree[j]) != [] && W.PackedOf(c, tree[k]) != [] ==>
          naming.clock(TimeOf(c, tree[j])) != naming.clock(TimeOf(c, tree[k])))
    && forall k :: 0 <= k < Reached(c, tree) && W.PackedOf(c, tree[k]) != [] ==> naming.Name(TimeOf(c, tree[k])) !in tars
  }

  lemma VerdictCanBeUsed(u: U.Uploader, c: W.Context, tree: seq<W.Node>, names: seq<string>, nameOf: map<string, string>)
    requires c.Valid() && Reads(u.scratch, c, tree) && Verdict(W.Recovered(c, tree).packed) <= nameOf.Keys
    requires names == NamesOf(tree[..Reached(c, tree)])
    ensures U.Uploader.SoundVerdict(u.scratch, names, Verdict(W.Recovered(c, tree).packed), nameOf)
    ensures U.Uploader.Unread(names, Verdict(W.Recovered(c, tree).packed)) == Unpacked(c, tree)
  {
    VerdictIsSound(u.scratch, c, tree);
    var verdict := Verdict(W.Recovered(c, tree).packed);
    forall k | 0 <= k < |names|
      ensures names[k] == tree[k].name && tree[k] in tree && (names[k] in verdict <==> W.PackedOf(c, tree[k]) != [])
    {
      VerdictAt(c, tree, k);
    }
  }

  lemma NameOfDirectory(naming: Naming, c: W.Context, tree: seq<W.Node>, k: nat)
    requires c.Valid() && W.Flat(tree) && k < Reached(c, tree)
    ensures tree[k].Dir? && W.AllFiles(tree[k].children)
    ensures
      var packed := W.Recovered(c, tree).packed;
      && (tree[k].name in Verdict(packed) <==> W.PackedOf(c, tree[k]) != [])
      && (tree[k].name in Verdict(packed) ==> PayloadNames(naming, packed)[tree[k].name] == naming.Name(TimeOf(c, tree[k])))
  {
    VerdictAt(c, tree, k);
    assert tree[k] in tree;
    if W.PackedOf(c, tree[k]) != [] {
      VerdictHasTimes(c, tree, k);
    }
  }

  lemma OwnSecondsDiffer(naming: Naming, tars: map<string, P.Tar>, c: W.Context, tree: seq<W.Node>, j: nat, k: nat)
    requires c.Valid() && W.Flat(tree) && OwnSeconds(naming, tars, c, tree) && j != k
    requires j < Reached(c, tree) && k < Reached(c, tree) && W.PackedOf(c, tree[j]) != [] && W.PackedOf(c, tree[k]) != []
    ensures naming.Name(TimeOf(c, tree[j])) != naming.Name(TimeOf(c, tree[k]))
  {
    naming.NamesOfSeconds(TimeOf(c, tree[j]), TimeOf(c, tree[k]));
    if k < j {
      OwnSecondsDiffer(naming, tars, c, tree, k, j);
    }
  }

  lemma IndexOfName(tree: seq<W.Node>, m: nat, p: string) returns (k: nat)
    requires m <= |tree| && p in NamesOf(tree[..m])
    ensures k < m && tree[k].name == p
  {
    var names := NamesOf(tree[..m]);
    k :| 0 <= k < |names| && names[k] == p;
  }

  lemma OwnNameIsFree(naming: Naming, tars: map<string, P.Tar>, c: W.Context, tree: seq<W.Node>, p: string)
    requires c.Valid() && W.Flat(tree) && OwnSeconds(naming, tars, c, tree) && p in NamesOf(tree[..Reached(c, tree)])
    ensures
      var packed := W.Recovered(c, tree).packed;
      p in Verdict(packed) ==> PayloadNames(naming, packed)[p] !in tars
  {
    var k := IndexOfName(tree, Reached(c, tree), p);
    NameOfDirectory(naming, c, tree, k);
  }

  lemma OwnNamesDiffer(naming: Naming, tars: map<string, P.Tar>, c: W.Context, tree: seq<W.Node>, p: string, q: string)
    requires c.Valid() && W.Flat(tree) && OwnSeconds(naming, tars, c, tree) && p != q
    requires p in NamesOf(tree[..Reached(c, tree)]) && q in NamesOf(tree[..Reached(c, tree)])
    ensures
      var packed := W.Recovered(c, tree).packed;
      p in Verdict(packed) && q in Verdict(packed) ==> PayloadNames(naming, packed)[p] != PayloadNames(naming, packed)[q]
  {
    var j := IndexOfName(tree, Reached(c, tree), p);
    var k := IndexOfName(tree, Reached(c, tree), q);
    NameOfDirectory(naming, c, tree, j);
    NameOfDirectory(naming, c, tree, k);
    if W.PackedOf(c, tree[j]) != [] && W.PackedOf(c, tree[k]) != [] {
      OwnSecondsDiffer(naming, tars, c, tree, j, k);
    }
  }

  /** Then the names are different, and free. */
  lemma OwnSecondsAreFresh(naming: Naming, tars: map<string, P.Tar>, c: W.Context, tree: seq<W.Node>, names: seq<string>)
    requires c.Valid() && W.Flat(tree) && OwnSeconds(naming, tars, c, tree)
    requires names == NamesOf(tree[..Reached(c, tree)])
    ensures
      var packed := W.Recovered(c, tree).packed;
      U.Uploader.FreshNames(tars, names, Verdict(packed), PayloadNames(naming, packed))
  {
    forall p | p in names {
      OwnNameIsFree(naming, tars, c, tree, p);
    }
    forall p, q | p in names && q in names && p != q {
      OwnNamesDiffer(naming, tars, c, tree, p, q);
    }
  }

  /** The samples packed among the first directories are each in the payload named by their time, or that
      may have been cleared for room. */
  ghost predicate PackedByTime(tars: map<string, P.Tar>, disk: U.Disk, limit: int, naming: Naming,
                               before: map<string, P.Directory>, c: W.Context, tree: seq<W.Node>, m: nat)
    requires W.Flat(tree) && forall d :: d in tree ==> d.name in before
  {
    forall k :: 0 <= k < m && k < |tree| && W.PackedOf(c, tree[k]) != [] && before[tree[k].name].Whole? ==>
      var t := naming.Name(TimeOf(c, tree[k]));
      P.HoldsIn(tars, t, tree[k].name) || disk.Clears(limit, t)
  }

  lemma VerdictIsNamed(tars: map<string, P.Tar>, disk: U.Disk, limit: int, naming: Naming, before: map<string, P.Directory>,
                       c: W.Context, tree: seq<W.Node>, names: seq<string>, handled: nat)
    requires c.Valid() && W.Flat(tree) && forall d :: d in tree ==> d.name in before
    requires names == NamesOf(tree[..Reached(c, tree)]) && handled <= |names|
    requires
      var packed := W.Recovered(c, tree).packed;
      U.Uploader.AllPackedAs(tars, disk, limit, names[..handled], Verdict(packed), before, PayloadNames(naming, packed))
    ensures PackedByTime(tars, disk, limit, naming, before, c, tree, handled)
  {
    forall k | 0 <= k < handled && W.PackedOf(c, tree[k]) != [] && before[tree[k].name].Whole?
      ensures
        var t := naming.Name(TimeOf(c, tree[k]));
        P.HoldsIn(tars, t, tree[k].name) || disk.Clears(limit, t)
    {
      NameOfDirectory(naming, c, tree, k);
      assert names[..handled][k] == tree[k].name;
    }
  }

  /** A directory the walk packs, or has not come to. */
  ghost predicate NotDeleted(c: W.Context, tree: seq<W.Node>, k: nat)
    requires W.Flat(tree) && k < |tree|
  {
    k < Reached(c, tree) ==> W.PackedOf(c, tree[k]) != []
  }

  /** Every complete sample but that of the directory in which the walk stops is spared by start-up. */
  lemma CompleteIsNotDeleted(scratch: map<string, P.Directory>, c: W.Context, tree: seq<W.Node>, k: nat)
    requires c.Valid() && Reads(scratch, c, tree) && O.NoneHidden(c.base, c.required, tree)
    requires k < |tree| && tree[k].name in scratch && scratch[tree[k].name] == P.Whole(true)
    requires k != W.FirstBlocked(c, tree, 0)
    ensures NotDeleted(c, tree, k)
  {
    VerdictIsExact(scratch, c, tree, k);
    VerdictAt(c, tree, k);
  }

  /** The first m directories are gone, and those from n on are as they were. */
  ghost predicate Leaves(before: map<string, P.Directory>, scratch: map<string, P.Directory>, tree: seq<W.Node>, m: nat, n: nat)
    requires forall d :: d in tree ==> d.name in before
  {
    && (forall k :: 0 <= k < m && k < |tree| ==> tree[k].name !in scratch)
    && (forall k :: n <= k < |tree| ==> tree[k].name in scratch && scratch[tree[k].name] == before[tree[k].name])
  }

  lemma PassedLeaves(before: map<string, P.Directory>, scratch: map<string, P.Directory>, tree: seq<W.Node>, m: nat)
    requires W.Flat(tree) && m <= |tree| && U.Uploader.Passed(before, scratch, NamesOf(tree[..m]))
    requires forall d :: d in tree ==> d.name in before
    ensures Leaves(before, scratch, tree, m, m)
  {
    var names := NamesOf(tree[..m]);
    forall k | 0 <= k < |tree| ensures tree[k].name in names <==> k < m {
      assert k < m ==> names[k] == tree[k].name;
      assert k >= m ==> forall i :: 0 <= i < m ==> names[i] == tree[i].name;
    }
  }

  /** What the pass over directories leaves, whether or not it comes through. */
  lemma PassLeaves(before: map<string, P.Directory>, scratch: map<string, P.Directory>, tree: seq<W.Node>, m: nat,
                   handled: nat, ok: bool)
    requires W.Flat(tree) && m <= |tree| && handled <= m && (ok <==> handled == m) && forall d :: d in tree ==> d.name in before
    requires ok ==> U.Uploader.Passed(before, scratch, NamesOf(tree[..m]))
    requires !ok ==> U.Uploader.Passed(before, scratch - {tree[handled].name}, NamesOf(tree[..m])[..handled + 1])
    ensures Leaves(before, scratch, tree, handled, if ok then handled else handled + 1)
  {
    if ok {
      PassedLeaves(before, scratch, tree, m);
    } else {
      assert NamesOf(tree[..m])[..handled + 1] == NamesOf(tree[..handled + 1]);
      PassedLeaves(before, scratch - {tree[handled].name}, tree, handled + 1);
    }
  }

  /** The samples packed among the first directories are safe, or were given up with their payload. */
  ghost predicate PackedAreHeld(u: U.Uploader, before: map<string, P.Directory>, from: nat, c: W.Context, tree: seq<W.Node>, m: nat)
    reads u
    requires u.Valid() && W.Flat(tree) && forall d :: d in tree ==> d.name in before
  {
    forall k :: 0 <= k < m && k < |tree| && W.PackedOf(c, tree[k]) != [] && before[tree[k].name].Whole? ==>
                  P.HeldAsPayload(u.Services(), u.states, u.steps, |u.steps|, from, tree[k].name)
  }

  lemma VerdictIsHeld(u: U.Uploader, before: map<string, P.Directory>, from: nat, c: W.Context, tree: seq<W.Node>,
                      names: seq<string>, handled: nat)
    requires u.Valid() && c.Valid() && W.Flat(tree) && forall d :: d in tree ==> d.name in before
    requires names == NamesOf(tree[..Reached(c, tree)]) && handled <= |names|
    requires forall p :: p in names[..handled] && p in Verdict(W.Recovered(c, tree).packed) && p in before && before[p].Whole? ==>
                           P.HeldAsPayload(u.Services(), u.states, u.steps, |u.steps|, from, p)
    ensures PackedAreHeld(u, before, from, c, tree, handled)
  {
    forall k | 0 <= k < handled && W.PackedOf(c, tree[k]) != [] && before[tree[k].name].Whole?
      ensures P.HeldAsPayload(u.Services(), u.states, u.steps, |u.steps|, from, tree[k].name)
    {
      VerdictAt(c, tree, k);
      assert names[..handled][k] == tree[k].name;
    }
  }

  /** A complete sample that the walk packs or does not come to has not been deleted by start-up. */
  ghost predicate CompleteAreSpared(u: U.Uploader, before: map<string, P.Directory>, from: nat, c: W.Context, tree: seq<W.Node>)
    reads u
    requires u.Valid() && W.Flat(tree) && forall d :: d in tree ==> d.name in before
  {
    forall k :: 0 <= k < |tree| && NotDeleted(c, tree, k) && before[tree[k].name] == P.Whole(true) ==>
                  P.Spared(u.Services(), u.states, u.steps, |u.steps|, from, tree[k].name)
  }

  lemma UnreadIsUnpacked(u: U.Uploader, was: seq<P.State>, earlier: seq<P.Step>, before: map<string, P.Directory>,
                         c: W.Context, tree: seq<W.Node>)
    requires u.Valid() && W.Flat(tree) && forall d :: d in tree ==> d.name in before
    requires P.Execution(u.Services(), was, earlier) && was[|earlier|].scratch == before && earlier <= u.steps
    requires forall i :: |earlier| <= i < |u.steps| && u.steps[i].DiscardUnread? ==> u.steps[i].p in Unpacked(c, tree)
    ensures CompleteAreSpared(u, before, |earlier|, c, tree)
  {
    u.AllSpared(was, earlier, before, Unpacked(c, tree));
    forall k | 0 <= k < |tree| && NotDeleted(c, tree, k) ensures tree[k] in tree && tree[k].name !in Unpacked(c, tree) {
      forall i | 0 <= i < Reached(c, tree) && tree[i].name == tree[k].name ensures i == k {}
    }
  }

  /** Start-up has deleted no complete sample but that of the directory in which the walk stops. */
  ghost predicate NoneLost(u: U.Uploader, before: map<string, P.Directory>, from: nat, c: W.Context, tree: seq<W.Node>)
    reads u
    requires u.Valid() && W.Flat(tree) && forall d :: d in tree ==> d.name in before
  {
    forall k :: 0 <= k < |tree| && k != W.FirstBlocked(c, tree, 0) && before[tree[k].name] == P.Whole(true) ==>
                  P.Spared(u.Services(), u.states, u.steps, |u.steps|, from, tree[k].name)
  }

  lemma SparedAreNotLost(u: U.Uploader, before: map<string, P.Directory>, from: nat, c: W.Context, tree: seq<W.Node>)
    requires u.Valid() && c.Valid() && Reads(before, c, tree) && CompleteAreSpared(u, before, from, c, tree)
    ensures O.NoneHidden(c.base, c.required, tree) ==> NoneLost(u, before, from, c, tree)
  {
    if O.NoneHidden(c.base, c.required, tree) {
      forall k | 0 <= k < |tree| && k != W.FirstBlocked(c, tree, 0) && before[tree[k].name] == P.Whole(true)
        ensures NotDeleted(c, tree, k)
      {
        CompleteIsNotDeleted(before, c, tree, k);
      }
    }
  }

  /**
   * recoverCompleteSamples on a flat scratch tree, in any order of the map of needed names; `handled`
   * directories are packed or deleted before it ends. If it comes through, these are the ones that the
   * walk gets as far as, and an error is returned exactly if the walk stops in a directory that it has
   * packed. Otherwise it ends in the next directory, and without an error only if that was not packed
   * and has been deleted in the second attempt. The directories behind stay as they are. However it
   * ends, what it packs is safe once it is handled, or is given up with its payload, and it deletes no
   * complete sample of a directory that the walk packs or does not come to: with names that hide
   * nothing none at all, but for the directory in which the walk stops. If no two of the samples are of
   * one second and their payloads are not there already, no payload is written over, and each sample is
   * in the payload of its own time.
   */
  method RecoverFlat(u: U.Uploader, c: W.Context, tree: seq<W.Node>, naming: Naming, disk: U.Disk)
    returns (ok: bool, error: bool, handled: nat)
    requires u.Valid() && u.build.NoBuild? && !u.emitterStarted && u.sampleSet == {}
    requires c.Valid() && Reads(u.scratch, c, tree)
    modifies u
    ensures u.WentOnBut(Unpacked(c, tree), PayloadNames(naming, W.Recovered(c, tree).packed).Values)
    ensures u.build.NoBuild? && u.uploadSet <= old(u.uploadSet)
    ensures disk.reliable && disk.HasRoom() ==> ok
    ensures handled <= Reached(c, tree) && (ok <==> handled == Reached(c, tree))
    ensures ok ==> u.sampleSet == {} && (error <==> W.Recovered(c, tree).failed && W.Recovered(c, tree).hasShipped)
    ensures !ok && !error ==> W.PackedOf(c, tree[handled]) == [] && tree[handled].name !in u.scratch && handled + 1 < Reached(c, tree)
    ensures Leaves(old(u.scratch), u.scratch, tree, handled, if ok then handled else handled + 1)
    ensures PackedAreHeld(u, old(u.scratch), |old(u.steps)|, c, tree, handled)
    ensures CompleteAreSpared(u, old(u.scratch), |old(u.steps)|, c, tree)
    ensures O.NoneHidden(c.base, c.required, tree) ==> NoneLost(u, old(u.scratch), |old(u.steps)|, c, tree)
    ensures OwnSeconds(naming, old(u.uploads), c, tree) ==>
              && P.NoneOverwritten(u.states, u.steps, |old(u.steps)|)
              && PackedByTime(u.uploads, disk, u.recoveryPeriod / 2, naming, old(u.scratch), c, tree, handled)
  {
    ghost var scratch, tars, from := u.scratch, u.uploads, |u.steps|;
    var walk := new W.Recovery(c);
    var walkError := walk.RecoverCompleteSamples(tree);
    var names := NamesOf(tree[..Reached(c, tree)]);
    var nameOf := PayloadNames(naming, walk.s.packed);
    VerdictCanBeUsed(u, c, tree, names, nameOf);
    if OwnSeconds(naming, tars, c, tree) {
      OwnSecondsAreFresh(naming, tars, c, tree, names);
    }
    ok, error, handled := u.RecoverCompleteSamples(names, Verdict(walk.s.packed), nameOf, disk);
    if OwnSeconds(naming, tars, c, tree) {
      VerdictIsNamed(u.uploads, disk, u.recoveryPeriod / 2, naming, scratch, c, tree, names, handled);
    }
    PassLeaves(scratch, u.scratch, tree, Reached(c, tree), handled, ok);
    VerdictIsHeld(u, scratch, from, c, tree, names, handled);
    UnreadIsUnpacked(u, old(u.states), old(u.steps), scratch, c, tree);
    SparedAreNotLost(u, scratch, from, c, tree);
    if ok {
      error := walkError;
    } else {
      VerdictAt(c, tree, handled);
    }
  }

  const SECOND := 1_000_000_000

  /** The age that a payload's name gives, for those whose names parse. */
  function Ages(tars: set<string>, now: int): map<string, int> {
    map t | t in tars && T.RecoveredInstant(t).Some? :: now - T.RecoveredInstant(t).value * SECOND
  }

  /** Complete and not older than the recovery period by its name. */
  predicate Unexpired(u: U.Uploader, tars: map<string, P.Tar>, now: int, t: string) {
    && t in tars && tars[t].complete
    && T.RecoveredInstant(t).Some? && now - T.RecoveredInstant(t).value * SECOND <= u.recoveryPeriod
  }

  /**
   * recoverUploadFiles over the upload directory: it comes through unless a name does not parse or a
   * removal fails, and then directory and queue hold exactly the complete unexpired payloads.
   */
  method RecoverUploads(u: U.Uploader, now: int, reliable: bool) returns (ok: bool)
    requires u.Valid() && u.build.NoBuild? && u.uploadSet == {}
    modifies u
    ensures u.WentOn() && u.build.NoBuild? && u.scratch == old(u.scratch) && u.sampleSet == old(u.sampleSet)
    ensures forall t :: t in u.uploads ==> t in old(u.uploads) && u.uploads[t] == old(u.uploads[t])
    ensures forall t :: t in u.uploadSet ==> Unexpired(u, u.uploads, now, t)
    ensures forall t :: Unexpired(u, old(u.uploads), now, t) ==> t in u.uploads
    ensures ok ==> u.uploadSet == u.uploads.Keys && forall t :: t in u.uploads <==> Unexpired(u, old(u.uploads), now, t)
    ensures ok ==> forall t :: t in old(u.uploads) ==> T.RecoveredInstant(t).Some?
    ensures reliable && (forall t :: t in old(u.uploads) ==> T.RecoveredInstant(t).Some?) ==> ok
  {
    var files := u.Contents(u.uploads.Keys);
    ok := u.RecoverUploadFiles(files, Ages(u.uploads.Keys, now), reliable);
  }

  /** recoverDataOnStartup: samples, then payloads, those of the samples among them. */
  method RecoverData(u: U.Uploader, c: W.Context, tree: seq<W.Node>, naming: Naming, disk: U.Disk, now: int)
    returns (samplesOk: bool, error: bool, uploadsOk: bool)
    requires u.Valid() && u.build.NoBuild? && !u.emitterStarted && u.sampleSet == {} && u.uploadSet == {}
    requires c.Valid() && Reads(u.scratch, c, tree)
    modifies u
    ensures u.WentOnBut(Unpacked(c, tree), PayloadNames(naming, W.Recovered(c, tree).packed).Values) && u.build.NoBuild?
    ensures disk.reliable && disk.HasRoom() ==> samplesOk
    ensures samplesOk ==> u.sampleSet == {} && Leaves(old(u.scratch), u.scratch, tree, Reached(c, tree), Reached(c, tree))
    ensures samplesOk && uploadsOk ==> (error <==> W.Recovered(c, tree).failed && W.Recovered(c, tree).hasShipped)
    ensures !uploadsOk ==> error
    ensures forall t :: t in u.uploadSet ==> Unexpired(u, u.uploads, now, t)
    ensures uploadsOk ==> u.uploadSet == u.uploads.Keys
  {
    var handled;
    ghost var from := |u.steps|;
    ghost var unread, names := Unpacked(c, tree), PayloadNames(naming, W.Recovered(c, tree).packed).Values;
    samplesOk, error, handled := RecoverFlat(u, c, tree, naming, disk);
    ghost var mid := u.steps;
    uploadsOk := RecoverUploads(u, now, disk.reliable);
    U.Uploader.AllowedJoin(u.emitterStarted, unread, names, mid, u.steps, from);
    error := error || !uploadsOk;
  }

  /**
   * The start of an uploader that has just been made or restarted: it recovers its data and then,
   * whether or not an error has come up, starts the emitter.
   */
  method Start(u: U.Uploader, c: W.Context, tree: seq<W.Node>, naming: Naming, disk: U.Disk, now: int)
    returns (samplesOk: bool, error: bool, uploadsOk: bool)
    requires u.Valid() && u.build.NoBuild? && !u.emitterStarted && u.sampleSet == {} && u.uploadSet == {}
    requires c.Valid() && Reads(u.scratch, c, tree)
    modifies u
    ensures u.Valid() && u.emitterStarted && u.build.NoBuild?
    ensures disk.reliable && disk.HasRoom() ==> samplesOk
    ensures samplesOk ==> u.sampleSet == {} && Leaves(old(u.scratch), u.scratch, tree, Reached(c, tree), Reached(c, tree))
    ensures samplesOk && uploadsOk ==> (error <==> W.Recovered(c, tree).failed && W.Recovered(c, tree).hasShipped)
    ensures !uploadsOk ==> error
    ensures forall t :: t in u.uploadSet ==> Unexpired(u, u.uploads, now, t)
    ensures uploadsOk ==> u.uploadSet == u.uploads.Keys
    ensures CompleteAreSpared(u, old(u.scratch), |old(u.steps)|, c, tree)
    ensures O.NoneHidden(c.base, c.required, tree) ==> NoneLost(u, old(u.scratch), |old(u.steps)|, c, tree)
  {
    ghost var was, earlier, before := u.states, u.steps, u.scratch;
    samplesOk, error, uploadsOk := RecoverData(u, c, tree, naming, disk, now);
    u.StartEmitter();
    UnreadIsUnpacked(u, was, earlier, before, c, tree);
    SparedAreNotLost(u, before, |earlier|, c, tree);
  }

  /**
   * recoverCompleteSamples with the samples below a cluster's directory: the walk packs nothing and
   * deletes that directory, so that start-up deletes every sample, and reports an error only if some of
   * it is left after a second attempt.
   */
  method RecoverNested(u: U.Uploader, c: W.Context, cluster: W.Node, disk: U.Disk) returns (error: bool)
    requires u.Valid() && u.build.NoBuild? && !u.emitterStarted && u.sampleSet == {}
    requires c.Valid() && cluster.Dir? && cluster.children != [] && Holds(u.scratch, cluster.children)
    modifies u
    ensures u.WentOnBut(old(u.scratch.Keys), {}) && u.sampleSet == {}
    ensures u.uploads == old(u.uploads) && u.accepted == old(u.accepted)
    ensures !error <==> u.scratch == map[]
    ensures disk.reliable ==> !error
  {
    var tree := [cluster];
    assert cluster.children[0] in cluster.children;
    var walk := new W.Recovery(c);
    error := walk.RecoverCompleteSamples(tree);
    W.NestedLayoutRecoversNothing(c, tree);
    var ok := u.DiscardAll(disk.reliable);
    if !ok {
      ok := u.DiscardAll(disk.reliable);
      error := error || !ok;
    }
  }
}
