/**
 * When the recovery walk packs a complete directory in every order in which the map of needed names
 * may yield them. A file crosses off one name, so one whose path contains several may use itself up on
 * the wrong one.
 */
module RecoveryOrders {
  import opened Wrappers
  import opened Collections
  import opened RecoveryWalk

  /** The required names that the path of a file contains. */
  function Matched(base: string, required: set<string>, path: Path): set<string> {
    set w | w in required && Matches(base, path, w)
  }

  function PathOf(dir: Path, files: seq<Node>, i: nat): Path
    requires i < |files|
  {
    dir + [files[i].name]
  }

  /** An account of which name each file crosses off, if any: the names gone before file n. */
  function Crossed(account: seq<Option<string>>, n: nat): set<string>
    requires n <= |account|
  {
    if n == 0 then {}
    else Crossed(account, n - 1) + if account[n - 1].Some? then {account[n - 1].value} else {}
  }

  /** The names that file i could cross off. */
  function Left(base: string, required: set<string>, dir: Path, files: seq<Node>,
                account: seq<Option<string>>, i: nat): set<string>
    requires i < |files| && i <= |account|
  {
    Matched(base, required, PathOf(dir, files, i)) - Crossed(account, i)
  }

  predicate Takes(left: set<string>, entry: Option<string>) {
    match entry
    case Some(v) => v in left
    case None => left == {}
  }

  /** Every file crosses off a name of its own that is still there, or has none left. */
  predicate Possible(base: string, required: set<string>, dir: Path, files: seq<Node>, account: seq<Option<string>>) {
    && |account| == |files|
    && forall i :: 0 <= i < |files| ==> Takes(Left(base, required, dir, files, account, i), account[i])
  }

  /** Some account leaves nothing needed: the names can be given files of their own that contain them. */
  ghost predicate Exhausted(base: string, required: set<string>, dir: Path, files: seq<Node>) {
    exists account :: Possible(base, required, dir, files, account) && Crossed(account, |account|) == required
  }

  predicate LeavesOut(left: set<string>, entry: Option<string>, w: string) {
    match entry
    case Some(v) => v in left && v != w
    case None => left == {}
  }

  /**
   * An account that leaves w out: every file crosses off a name of its own that is still there and is
   * not w, or has none left.
   */
  predicate Hides(base: string, required: set<string>, dir: Path, files: seq<Node>,
                  w: string, account: seq<Option<string>>) {
    && w in required && |account| == |files|
    && forall i :: 0 <= i < |files| ==> LeavesOut(Left(base, required, dir, files, account, i), account[i], w)
  }

  /** The directory can be missed: a condition on its names and their order, without any walk. */
  ghost predicate Hidden(base: string, required: set<string>, dir: Path, files: seq<Node>) {
    exists w, account :: Hides(base, required, dir, files, w, account)
  }

  function NextEntry(c: Context, path: Path, left: set<string>): Option<string> {
    if left == {} then None else Some(c.first(path, left))
  }

  /** The account is the one that a walk gives. */
  ghost predicate Follows(c: Context, dir: Path, files: seq<Node>, account: seq<Option<string>>) {
    && |account| == |files|
    && forall i :: 0 <= i < |files| ==>
         account[i] == NextEntry(c, PathOf(dir, files, i), Left(c.base, c.required, dir, files, account, i))
  }

  lemma {:induction false} NeededIsRest(c: Context, dir: Path, files: seq<Node>, account: seq<Option<string>>, n: nat)
    requires Follows(c, dir, files, account) && n <= |files|
    ensures Needed(c, dir, files[..n]) == c.required - Crossed(account, n)
  {
    if n > 0 {
      NeededIsRest(c, dir, files, account, n - 1);
      assert files[..n][..n - 1] == files[..n - 1];
      var path := PathOf(dir, files, n - 1);
      var needed := Needed(c, dir, files[..n - 1]);
      var left := Left(c.base, c.required, dir, files, account, n - 1);
      assert Candidates(c, needed, path) == left;
      assert account[n - 1] == NextEntry(c, path, left);
      assert Needed(c, dir, files[..n]) == CrossOff(c, needed, path);
    } else {
      assert files[..0] == [];
    }
  }

  lemma {:induction false} CrossedPrefix(a: seq<Option<string>>, b: seq<Option<string>>, n: nat)
    requires n <= |a| <= |b| && a == b[..|a|]
    ensures Crossed(b, n) == Crossed(a, n)
  {
    if n > 0 {
      CrossedPrefix(a, b, n - 1);
    }
  }

  lemma LeftOfPrefix(base: string, required: set<string>, dir: Path, files: seq<Node>,
                     before: seq<Option<string>>, account: seq<Option<string>>, i: nat)
    requires i < |files| && |files| - 1 == |before| <= |account| && before == account[..|before|] && i <= |before|
    ensures Left(base, required, dir, files, account, i) == Left(base, required, dir, files, before, i)
    ensures i < |before| ==>
              && PathOf(dir, files[..|before|], i) == PathOf(dir, files, i)
              && Left(base, required, dir, files[..|before|], before, i) == Left(base, required, dir, files, before, i)
  {
    CrossedPrefix(before, account, i);
  }

  /** Every walk gives an account. */
  lemma {:induction false} AccountOf(c: Context, dir: Path, files: seq<Node>) returns (account: seq<Option<string>>)
    ensures Follows(c, dir, files, account)
  {
    if files == [] {
      account := [];
    } else {
      var n := |files| - 1;
      var before := AccountOf(c, dir, files[..n]);
      var next := NextEntry(c, PathOf(dir, files, n), Left(c.base, c.required, dir, files, before, n));
      account := before + [next];
      forall i | 0 <= i < |files|
        ensures account[i] == NextEntry(c, PathOf(dir, files, i), Left(c.base, c.required, dir, files, account, i))
      {
        LeftOfPrefix(c.base, c.required, dir, files, before, account, i);
      }
    }
  }

  lemma NotCrossedHere(left: set<string>, entry: Option<string>, w: string)
    ensures LeavesOut(left, entry, w) ==> entry != Some(w)
    ensures !LeavesOut({w}, entry, w)
  {
  }

  lemma {:induction false} NotCrossed(account: seq<Option<string>>, w: string, n: nat)
    requires n <= |account| && forall i :: 0 <= i < n ==> account[i] != Some(w)
    ensures w !in Crossed(account, n)
  {
    if n > 0 {
      NotCrossed(account, w, n - 1);
    }
  }

  /** The name that an account leaves out is never crossed off. */
  lemma NeverCrossed(base: string, required: set<string>, dir: Path, files: seq<Node>,
                     w: string, account: seq<Option<string>>, n: nat)
    requires Hides(base, required, dir, files, w, account) && n <= |files|
    ensures w !in Crossed(account, n)
  {
    forall i | 0 <= i < n ensures account[i] != Some(w) {
      NotCrossedHere(Left(base, required, dir, files, account, i), account[i], w);
    }
    NotCrossed(account, w, n);
  }

  /** The order of the map that follows an account where it can. */
  ghost function Pick(dir: Path, files: seq<Node>, account: seq<Option<string>>, path: Path, words: set<string>): string
    requires |account| == |files|
  {
    if exists i :: Entry(dir, files, account, path, words, i) then
      var i :| Entry(dir, files, account, path, words, i);
      account[i].value
    else if words != {} then AnyOf(words)
    else ""
  }

  predicate Entry(dir: Path, files: seq<Node>, account: seq<Option<string>>, path: Path, words: set<string>, i: int)
    requires |account| == |files|
  {
    0 <= i < |files| && path == PathOf(dir, files, i) && account[i].Some? && account[i].value in words
  }

  predicate DifferentlyNamed(files: seq<Node>) {
    forall i, j :: 0 <= i < j < |files| ==> files[i].name != files[j].name
  }

  ghost function Picking(base: string, required: set<string>, dir: Path, files: seq<Node>,
                         account: seq<Option<string>>): (c: Context)
    requires |account| == |files|
    ensures c.base == base && c.required == required
  {
    Context(base, required, (path, words) => Pick(dir, files, account, path, words))
  }

  lemma PickFollows(dir: Path, files: seq<Node>, account: seq<Option<string>>, left: set<string>, i: nat)
    requires |account| == |files| && DifferentlyNamed(files) && i < |files|
    requires account[i].Some? && account[i].value in left
    ensures Pick(dir, files, account, PathOf(dir, files, i), left) == account[i].value
  {
    var path := PathOf(dir, files, i);
    assert Entry(dir, files, account, path, left, i);
    forall k | Entry(dir, files, account, path, left, k) ensures k == i {
      assert path[|dir|] == files[k].name && path[|dir|] == files[i].name;
    }
  }

  lemma AccountCanHappen(base: string, required: set<string>, dir: Path, files: seq<Node>, account: seq<Option<string>>)
    requires AGENT_FILE in required && DifferentlyNamed(files)
    requires Possible(base, required, dir, files, account)
    ensures Picking(base, required, dir, files, account).Valid()
    ensures Follows(Picking(base, required, dir, files, account), dir, files, account)
  {
    var c := Picking(base, required, dir, files, account);
    forall i | 0 <= i < |files|
      ensures account[i] == NextEntry(c, PathOf(dir, files, i), Left(base, required, dir, files, account, i))
    {
      var path, left := PathOf(dir, files, i), Left(base, required, dir, files, account, i);
      assert Takes(left, account[i]);
      if account[i].Some? {
        PickFollows(dir, files, account, left, i);
      }
    }
  }

  /** What leaves a name out is an account. */
  lemma HidingIsPossible(base: string, required: set<string>, dir: Path, files: seq<Node>,
                         w: string, account: seq<Option<string>>)
    requires Hides(base, required, dir, files, w, account)
    ensures Possible(base, required, dir, files, account)
  {
    forall i | 0 <= i < |files| ensures Takes(Left(base, required, dir, files, account, i), account[i]) {
      assert LeavesOut(Left(base, required, dir, files, account, i), account[i], w);
    }
  }

  lemma {:induction false} CrossedGrows(account: seq<Option<string>>, m: nat, n: nat)
    requires m <= n <= |account|
    ensures Crossed(account, m) <= Crossed(account, n)
  {
    if m < n {
      CrossedGrows(account, m, n - 1);
    }
  }

  lemma EntryLeavesOut(c: Context, path: Path, left: set<string>, w: string)
    requires c.Valid()
    ensures NextEntry(c, path, left) != Some(w) ==> LeavesOut(left, NextEntry(c, path, left), w)
  {
    if left != {} {
      assert c.first(path, left) in left;
    }
  }

  lemma WalkHides(c: Context, dir: Path, files: seq<Node>)
    requires c.Valid() && Needed(c, dir, files) != {}
    ensures Hidden(c.base, c.required, dir, files)
  {
    var account := AccountOf(c, dir, files);
    NeededIsRest(c, dir, files, account, |files|);
    assert files[..|files|] == files;
    var w :| w in c.required && w !in Crossed(account, |files|);
    forall i | 0 <= i < |files| ensures LeavesOut(Left(c.base, c.required, dir, files, account, i), account[i], w) {
      CrossedGrows(account, i + 1, |files|);
      EntryLeavesOut(c, PathOf(dir, files, i), Left(c.base, c.required, dir, files, account, i), w);
    }
    assert Hides(c.base, c.required, dir, files, w, account);
  }

  lemma MissingOrder(base: string, required: set<string>, dir: Path, files: seq<Node>) returns (c: Context)
    requires AGENT_FILE in required && DifferentlyNamed(files) && Hidden(base, required, dir, files)
    ensures c.base == base && c.required == required && c.Valid() && Needed(c, dir, files) != {}
  {
    var w, account :| Hides(base, required, dir, files, w, account);
    c := Picking(base, required, dir, files, account);
    HidingIsPossible(base, required, dir, files, w, account);
    AccountCanHappen(base, required, dir, files, account);
    NeededIsRest(c, dir, files, account, |files|);
    assert files[..|files|] == files;
    NeverCrossed(base, required, dir, files, w, account, |files|);
    assert w in Needed(c, dir, files);
  }

  /** Some order of the map leaves a name needed if and only if the directory is hidden. */
  lemma MissedExactly(base: string, required: set<string>, dir: Path, files: seq<Node>)
    requires AGENT_FILE in required && DifferentlyNamed(files)
    ensures (exists c: Context :: c.base == base && c.required == required && c.Valid() && Needed(c, dir, files) != {})
            <==> Hidden(base, required, dir, files)
  {
    assert files[..|files|] == files;
    if Hidden(base, required, dir, files) {
      var c := MissingOrder(base, required, dir, files);
    }
    forall c: Context | c.base == base && c.required == required && c.Valid() && Needed(c, dir, files) != {}
      ensures Hidden(base, required, dir, files)
    {
      WalkHides(c, dir, files);
    }
  }

  lemma ExhaustingOrder(base: string, required: set<string>, dir: Path, files: seq<Node>) returns (c: Context)
    requires AGENT_FILE in required && DifferentlyNamed(files) && Exhausted(base, required, dir, files)
    ensures c.base == base && c.required == required && c.Valid() && Needed(c, dir, files) == {}
  {
    var account :| Possible(base, required, dir, files, account) && Crossed(account, |account|) == required;
    c := Picking(base, required, dir, files, account);
    AccountCanHappen(base, required, dir, files, account);
    NeededIsRest(c, dir, files, account, |files|);
    assert files[..|files|] == files;
  }

  lemma EntryTakes(c: Context, path: Path, left: set<string>)
    requires c.Valid()
    ensures Takes(left, NextEntry(c, path, left))
  {
    if left != {} {
      assert c.first(path, left) in left;
    }
  }

  lemma {:induction false} CrossedWithin(account: seq<Option<string>>, names: set<string>, n: nat)
    requires n <= |account| && forall i :: 0 <= i < n && account[i].Some? ==> account[i].value in names
    ensures Crossed(account, n) <= names
  {
    if n > 0 {
      CrossedWithin(account, names, n - 1);
    }
  }

  lemma WalkExhausts(c: Context, dir: Path, files: seq<Node>)
    requires c.Valid() && Needed(c, dir, files) == {}
    ensures Exhausted(c.base, c.required, dir, files)
  {
    var account := AccountOf(c, dir, files);
    NeededIsRest(c, dir, files, account, |files|);
    assert files[..|files|] == files;
    forall i | 0 <= i < |files|
      ensures Takes(Left(c.base, c.required, dir, files, account, i), account[i])
      ensures account[i].Some? ==> account[i].value in c.required
    {
      EntryTakes(c, PathOf(dir, files, i), Left(c.base, c.required, dir, files, account, i));
    }
    CrossedWithin(account, c.required, |files|);
    assert Possible(c.base, c.required, dir, files, account) && Crossed(account, |account|) == c.required;
  }

  /** Some order of the map leaves nothing needed if and only if the names can be used up. */
  lemma DoneExactly(base: string, required: set<string>, dir: Path, files: seq<Node>)
    requires AGENT_FILE in required && DifferentlyNamed(files)
    ensures (exists c: Context :: c.base == base && c.required == required && c.Valid() && Needed(c, dir, files) == {})
            <==> Exhausted(base, required, dir, files)
  {
    if Exhausted(base, required, dir, files) {
      var c := ExhaustingOrder(base, required, dir, files);
    }
    forall c: Context | c.base == base && c.required == required && c.Valid() && Needed(c, dir, files) == {}
      ensures Exhausted(base, required, dir, files)
    {
      WalkExhausts(c, dir, files);
    }
  }

  /** No directory that misses nothing can be missed. */
  ghost predicate NoneHidden(base: string, required: set<string>, tree: seq<Node>)
    requires Flat(tree)
  {
    forall d :: d in tree && Unaccounted(base, required, [d.name], d.children) == {} ==>
                  !Hidden(base, required, [d.name], d.children)
  }

  lemma NotMissed(c: Context, tree: seq<Node>, d: Node)
    requires c.Valid() && Flat(tree) && NoneHidden(c.base, c.required, tree) && d in tree
    ensures MissesNone(c, d)
  {
    if Missing(c, [d.name], d.children) == {} && Needed(c, [d.name], d.children) != {} {
      WalkHides(c, [d.name], d.children);
    }
  }

  /**
   * With names that hide nothing: the walk packs exactly the complete samples among the directories
   * before the one in which it stops. That one, complete or not, is packed if nothing is needed any more
   * by then, and those behind are left as they are; without such a directory all of the tree is gone.
   */
  lemma FlatTreeRecovered(c: Context, tree: seq<Node>)
    requires c.Valid() && Flat(tree) && NoneHidden(c.base, c.required, tree)
    ensures
      var s, n := Recovered(c, tree), FirstBlocked(c, tree, 0);
      && (s.failed <==> n < |tree|)
      && Flat(tree[..n])
      && s.packed == CompleteSamples(c, tree[..n]) + (if n < |tree| then PackedOf(c, tree[n]) else [])
      && forall k :: 0 <= k < |tree| ==> (Exists(s.removed, [tree[k].name]) <==> n < k)
  {
    FlatTreeWalked(c, tree);
    var n := FirstBlocked(c, tree, 0);
    forall d | d in tree[..n] ensures ReadThrough(c, d) && MissesNone(c, d) {
      var k :| 0 <= k < n && tree[k] == d;
      NotMissed(c, tree, d);
    }
    PackedIsComplete(c, tree[..n]);
  }

  /** No file ends the walk in any order: agent measurements are readable, and come up while something is needed. */
  ghost predicate NeverStops(base: string, required: set<string>, d: Node)
    requires d.Dir? && AllFiles(d.children)
  {
    forall i :: 0 <= i < |d.children| && Matches(base, [d.name] + [d.children[i].name], AGENT_FILE) ==>
      d.children[i].timestamp.Some? && !Exhausted(base, required, [d.name], d.children[..i])
  }

  ghost predicate Asks(c: Context, base: string, required: set<string>) {
    c.base == base && c.required == required && c.Valid()
  }

  lemma NeverStopsIsSound(c: Context, base: string, required: set<string>, d: Node)
    requires Asks(c, base, required) && d.Dir? && AllFiles(d.children) && NeverStops(base, required, d)
    ensures NoneStops(c, d)
  {
    forall i | 0 <= i < |d.children| && Matches(base, [d.name] + [d.children[i].name], AGENT_FILE)
      ensures Needed(c, [d.name], d.children[..i]) != {}
    {
      if Needed(c, [d.name], d.children[..i]) == {} {
        WalkExhausts(c, [d.name], d.children[..i]);
      }
    }
  }

  lemma StoppingOrder(base: string, required: set<string>, d: Node) returns (c: Context)
    requires AGENT_FILE in required && d.Dir? && AllFiles(d.children) && DifferentlyNamed(d.children)
    requires !NeverStops(base, required, d)
    ensures Asks(c, base, required) && !NoneStops(c, d)
  {
    var i :| 0 <= i < |d.children| && Matches(base, [d.name] + [d.children[i].name], AGENT_FILE)
             && (d.children[i].timestamp.None? || Exhausted(base, required, [d.name], d.children[..i]));
    if Exhausted(base, required, [d.name], d.children[..i]) {
      c := ExhaustingOrder(base, required, [d.name], d.children[..i]);
    } else {
      c := Picking(base, required, [], [], []);
    }
  }

  /** A single readable agent measurement does not end it. */
  lemma ReadableNeverStops(base: string, required: set<string>, d: Node)
    requires AGENT_FILE in required && d.Dir? && AllFiles(d.children) && DifferentlyNamed(d.children)
    requires AgentReadable(base, [d.name], d.children)
    ensures NeverStops(base, required, d)
  {
    if !NeverStops(base, required, d) {
      var c := StoppingOrder(base, required, d);
      ReadableIsReadThrough(c, d);
      ReadThroughExactly(c, d);
    }
  }

  /** The walk comes through in every order of the map if and only if no directory has a file that ends it in some order. */
  lemma EndsInEveryOrder(base: string, required: set<string>, tree: seq<Node>)
    requires AGENT_FILE in required && Flat(tree)
    requires forall d :: d in tree ==> DifferentlyNamed(d.children)
    ensures (forall c: Context :: Asks(c, base, required) ==> !Recovered(c, tree).failed)
            <==> forall d :: d in tree ==> NeverStops(base, required, d)
  {
    if forall d :: d in tree ==> NeverStops(base, required, d) {
      forall c: Context | Asks(c, base, required) ensures !Recovered(c, tree).failed {
        WalkEndsExactly(c, tree);
        forall d | d in tree ensures NoneStops(c, d) {
          NeverStopsIsSound(c, base, required, d);
        }
      }
    } else {
      var d :| d in tree && !NeverStops(base, required, d);
      var c := StoppingOrder(base, required, d);
      WalkEndsExactly(c, tree);
    }
  }

  lemma AllRead(c: Context, tree: seq<Node>)
    requires c.Valid() && Flat(tree) && !Recovered(c, tree).failed
    ensures Recovered(c, tree).packed == PackedSamples(c, tree)
    ensures forall d :: d in tree ==> ReadThrough(c, d)
  {
    FlatTreeWalked(c, tree);
    assert tree[..|tree|] == tree;
    forall d | d in tree ensures ReadThrough(c, d) {
      var k :| 0 <= k < |tree| && tree[k] == d;
    }
  }

  /** The order that hides a complete directory fails, or does not pack it. */
  lemma OrderThatMisses(base: string, required: set<string>, tree: seq<Node>) returns (c: Context)
    requires AGENT_FILE in required && Flat(tree) && !NoneHidden(base, required, tree)
    requires forall d :: d in tree ==> DifferentlyNamed(d.children)
    ensures Asks(c, base, required)
    ensures Recovered(c, tree).failed || Recovered(c, tree).packed != CompleteSamples(c, tree)
  {
    var d :| d in tree && Unaccounted(base, required, [d.name], d.children) == {}
             && Hidden(base, required, [d.name], d.children);
    c := MissingOrder(base, required, [d.name], d.children);
    if !Recovered(c, tree).failed {
      AllRead(c, tree);
      PackedIsComplete(c, tree);
      assert Missing(c, [d.name], d.children) == {} && !MissesNone(c, d);
    }
  }

  /**
   * In every order of the map the walk comes through and packs exactly the complete samples, if and only
   * if no directory is hidden and none has a file that ends the walk.
   */
  lemma FlatTreeRecoveredExactly(base: string, required: set<string>, tree: seq<Node>)
    requires AGENT_FILE in required && Flat(tree)
    requires forall d :: d in tree ==> DifferentlyNamed(d.children)
    ensures (forall c: Context :: Asks(c, base, required) ==>
               !Recovered(c, tree).failed && Recovered(c, tree).packed == CompleteSamples(c, tree))
            <==> NoneHidden(base, required, tree) && forall d :: d in tree ==> NeverStops(base, required, d)
  {
    EndsInEveryOrder(base, required, tree);
    if NoneHidden(base, required, tree) {
      forall c: Context | Asks(c, base, required) && !Recovered(c, tree).failed
        ensures Recovered(c, tree).packed == CompleteSamples(c, tree)
      {
        FlatTreeRecovered(c, tree);
        assert tree[..|tree|] == tree;
      }
    } else {
      var c := OrderThatMisses(base, required, tree);
    }
  }

  ghost function Preferring(base: string, required: set<string>, w: string): (c: Context)
    requires AGENT_FILE in required
    ensures c.Valid() && c.base == base && c.required == required
  {
    Context(base, required, (path, words) => if w in words then w else if words != {} then AnyOf(words) else "")
  }

  lemma {:induction false} StaysNeeded(c: Context, dir: Path, files: seq<Node>, a: string, w: string, n: nat)
    requires AGENT_FILE in c.required && {a, w} <= c.required && a != w && 1 <= n <= |files|
    requires Matches(c.base, PathOf(dir, files, 0), w)
    requires forall i :: 1 <= i < |files| ==> !Matches(c.base, PathOf(dir, files, i), a)
    requires c.Valid() && forall path: Path, words: set<string> :: w in words ==> c.first(path, words) == w
    ensures a in Needed(c, dir, files[..n])
  {
    var before, path := files[..n - 1], PathOf(dir, files, n - 1);
    assert files[..n][..n - 1] == before && files[..n][n - 1] == files[n - 1];
    var needed := Needed(c, dir, before);
    assert Needed(c, dir, files[..n]) == CrossOff(c, needed, path);
    if n == 1 {
      assert before == [] && w in Candidates(c, needed, path);
    } else {
      StaysNeeded(c, dir, files, a, w, n - 1);
      var words := Candidates(c, needed, path);
      assert words != {} ==> c.first(path, words) in words;
    }
  }

  /** If the only file for a name also contains another one and comes first, the directory is hidden. */
  lemma SharedFileHides(base: string, required: set<string>, dir: Path, files: seq<Node>, a: string, w: string)
    requires AGENT_FILE in required && {a, w} <= required && a != w && files != []
    requires Matches(base, PathOf(dir, files, 0), w)
    requires forall i :: 1 <= i < |files| ==> !Matches(base, PathOf(dir, files, i), a)
    ensures Hidden(base, required, dir, files)
  {
    var c := Preferring(base, required, w);
    StaysNeeded(c, dir, files, a, w, |files|);
    assert files[..|files|] == files;
    WalkHides(c, dir, files);
  }

  /** A name with a file to itself is crossed off in every order. */
  lemma OwnFileIsCrossed(base: string, required: set<string>, dir: Path, files: seq<Node>,
                         w: string, account: seq<Option<string>>)
    requires HasOwnFile(base, required, dir, files, w)
    ensures !Hides(base, required, dir, files, w, account)
  {
    if Hides(base, required, dir, files, w, account) {
      var i :| 0 <= i < |files| && Matched(base, required, PathOf(dir, files, i)) == {w};
      NotCrossedHere({}, account[i], w);
      NeverCrossed(base, required, dir, files, w, account, i);
    }
  }

  /** It is enough that each required name has a file to itself. */
  lemma OwnFilesSuffice(base: string, required: set<string>, dir: Path, files: seq<Node>)
    requires forall w :: w in required ==> HasOwnFile(base, required, dir, files, w)
    ensures !Hidden(base, required, dir, files)
  {
    forall w, account | Hides(base, required, dir, files, w, account) ensures false {
      OwnFileIsCrossed(base, required, dir, files, w, account);
    }
  }

  ghost predicate HasOwnFile(base: string, required: set<string>, dir: Path, files: seq<Node>, w: string) {
    exists i :: 0 <= i < |files| && Matched(base, required, PathOf(dir, files, i)) == {w}
  }
}
