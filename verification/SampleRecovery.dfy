/**
 * The emitter's sample directories meet the recovery walk: which files a shipped sample has, and when
 * the walk packs such a directory in every order of its map.
 */
module SampleRecovery {
  import opened Wrappers
  import opened Collections
  import opened Substrings
  import opened RecoveryWalk
  import opened RecoveryOrders
  import opened EmitterFiles
  import E = SampleEmitter

  function NodeFiles(prefix: string, nodes: seq<string>): seq<Node> {
    seq(|nodes|, i requires 0 <= i < |nodes| => File(NodeFile(prefix, nodes[i]), None))
  }

  function KindFiles(asJson: bool, kinds: seq<string>): seq<Node> {
    seq(|kinds|, i requires 0 <= i < |kinds| => File(KindFile(asJson, kinds[i]), None))
  }

  /** A sample directory in lexical order: its own file, baselines, objects, statistics. */
  function Listing(asJson: bool, baselines: seq<string>, stats: seq<string>, time: int): seq<Node> {
    Sorted(asJson, baselines, KINDS, stats, time)
  }

  function Sorted(asJson: bool, baselines: seq<string>, kinds: seq<string>, stats: seq<string>, time: int): seq<Node> {
    [File(AGENT_FILE_NAME, Some(time))] + NodeFiles(BASELINE, baselines) + KindFiles(asJson, kinds) + NodeFiles(STATS, stats)
  }

  /** The kinds that a node's name contains. */
  function Words(node: string): set<string> {
    set w | w in KINDS && Contains(node, w)
  }

  /** The directory's own path contains no required name. */
  ghost predicate PlainPath(base: string, dir: Path) {
    forall w :: w in REQUIRED_FILES ==> !Contains(FullName(base, dir), w)
  }

  predicate PlainNodes(nodes: seq<string>) {
    forall n :: n in nodes ==> PlainNode(n)
  }

  lemma MatchesName(base: string, dir: Path, name: string, w: string)
    requires w in REQUIRED_FILES
    ensures Matches(base, dir + [name], w) <==> Contains(FullName(base, dir), w) || Contains(name, w)
  {
    var path := dir + [name];
    assert path[..|path| - 1] == dir;
    RequiredHaveNoSeparators(w);
    ContainsAcross(FullName(base, dir), '/', name, w);
    assert FullName(base, path) == FullName(base, dir) + "/" + name;
  }

  /** What file i of a listing may cross off. */
  function Expected(baselines: seq<string>, stats: seq<string>, i: nat): set<string>
    requires i < 1 + |baselines| + |KINDS| + |stats|
  {
    if i == 0 then {AGENT_FILE}
    else if i - 1 < |baselines| then {BASELINE} + Words(baselines[i - 1])
    else if i - 1 - |baselines| < |KINDS| then {KINDS[i - 1 - |baselines|]}
    else {STATS} + Words(stats[i - 1 - |baselines| - |KINDS|])
  }

  function NameAt(asJson: bool, baselines: seq<string>, kinds: seq<string>, stats: seq<string>, i: nat): string
    requires i < 1 + |baselines| + |kinds| + |stats|
  {
    if i == 0 then AGENT_FILE_NAME
    else if i - 1 < |baselines| then NodeFile(BASELINE, baselines[i - 1])
    else if i - 1 - |baselines| < |kinds| then KindFile(asJson, kinds[i - 1 - |baselines|])
    else NodeFile(STATS, stats[i - 1 - |baselines| - |kinds|])
  }

  lemma SumAt(a: seq<Node>, b: seq<Node>, c: seq<Node>, d: seq<Node>, i: nat)
    requires |a| == 1 && i < |a| + |b| + |c| + |d|
    ensures (a + b + c + d)[i] == if i == 0 then a[0] else if i - 1 < |b| then b[i - 1]
                                  else if i - 1 - |b| < |c| then c[i - 1 - |b|] else d[i - 1 - |b| - |c|]
  {
  }

  lemma SortedAt(asJson: bool, baselines: seq<string>, kinds: seq<string>, stats: seq<string>, time: int, i: nat)
    requires i < 1 + |baselines| + |kinds| + |stats|
    ensures |Sorted(asJson, baselines, kinds, stats, time)| == 1 + |baselines| + |kinds| + |stats|
    ensures Sorted(asJson, baselines, kinds, stats, time)[i]
            == File(NameAt(asJson, baselines, kinds, stats, i), if i == 0 then Some(time) else None)
  {
    var a, b, c, d := [File(AGENT_FILE_NAME, Some(time))], NodeFiles(BASELINE, baselines),
                      KindFiles(asJson, kinds), NodeFiles(STATS, stats);
    SumAt(a, b, c, d, i);
    if i == 0 {
    } else if i - 1 < |b| {
      assert b[i - 1] == File(NodeFile(BASELINE, baselines[i - 1]), None);
    } else if i - 1 - |b| < |c| {
      assert c[i - 1 - |b|] == File(KindFile(asJson, kinds[i - 1 - |b|]), None);
    } else {
      assert d[i - 1 - |b| - |c|] == File(NodeFile(STATS, stats[i - 1 - |b| - |c|]), None);
    }
  }

  lemma KindsAreNotDashed(w: string)
    requires w in KINDS
    ensures w != BASELINE && w != STATS && w != AGENT_FILE
  {
    KindsHaveNoDash(w);
    assert BASELINE[8] == '-' && STATS[5] == '-' && AGENT_FILE[5] == '-';
  }

  lemma NodeNameContains(prefix: string, node: string, w: string)
    requires prefix in {BASELINE, STATS} && PlainNode(node) && w in REQUIRED_FILES
    ensures Contains(NodeFile(prefix, node), w) <==> w in {prefix} + Words(node)
  {
    RequiredFilesByKind(w);
    if w in KINDS {
      KindsAreNotDashed(w);
      NodeFileContainsKind(prefix, node, w);
    } else {
      NodeFileContainsDashed(prefix, node, w);
    }
  }

  lemma NameContains(asJson: bool, baselines: seq<string>, stats: seq<string>, i: nat, w: string)
    requires i < 1 + |baselines| + |KINDS| + |stats| && PlainNodes(baselines) && PlainNodes(stats)
    requires w in REQUIRED_FILES
    ensures Contains(NameAt(asJson, baselines, KINDS, stats, i), w) <==> w in Expected(baselines, stats, i)
  {
    RequiredFilesByKind(w);
    if i == 0 {
      AgentFileContains(w);
    } else if i - 1 < |baselines| {
      NodeNameContains(BASELINE, baselines[i - 1], w);
    } else if i - 1 - |baselines| < |KINDS| {
      KindFileContains(asJson, KINDS[i - 1 - |baselines|], w);
    } else {
      NodeNameContains(STATS, stats[i - 1 - |baselines| - |KINDS|], w);
    }
  }

  lemma StatsIsNoKind()
    ensures STATS !in KINDS && BASELINE !in KINDS && AGENT_FILE !in KINDS
  {
    forall k | k in KINDS ensures k != STATS && k != BASELINE && k != AGENT_FILE {
      KindsAreNotDashed(k);
    }
  }

  lemma ExpectedAreRequired(baselines: seq<string>, stats: seq<string>, i: nat)
    requires i < 1 + |baselines| + |KINDS| + |stats|
    ensures Expected(baselines, stats, i) <= REQUIRED_FILES
  {
    forall w | w in Expected(baselines, stats, i) ensures w in REQUIRED_FILES {
      RequiredFilesByKind(w);
    }
  }

  lemma ListingMatches(base: string, dir: Path, asJson: bool, baselines: seq<string>, stats: seq<string>, time: int)
    requires PlainPath(base, dir) && PlainNodes(baselines) && PlainNodes(stats)
    ensures
      var files := Listing(asJson, baselines, stats, time);
      && |files| == 1 + |baselines| + |KINDS| + |stats|
      && forall i :: 0 <= i < |files| ==>
           Matched(base, REQUIRED_FILES, PathOf(dir, files, i)) == Expected(baselines, stats, i)
  {
    var files := Listing(asJson, baselines, stats, time);
    forall i | 0 <= i < |files|
      ensures Matched(base, REQUIRED_FILES, PathOf(dir, files, i)) == Expected(baselines, stats, i)
    {
      SortedAt(asJson, baselines, KINDS, stats, time, i);
      forall w | w in REQUIRED_FILES
        ensures Matches(base, PathOf(dir, files, i), w) <==> w in Expected(baselines, stats, i)
      {
        MatchesName(base, dir, files[i].name, w);
        NameContains(asJson, baselines, stats, i, w);
      }
      ExpectedAreRequired(baselines, stats, i);
    }
  }

  // ---------- When such a directory is missed ----------

  /** Every node can be given a kind of its own that its name contains. */
  predicate Assignment(nodes: seq<string>, kinds: seq<string>) {
    && |kinds| == |nodes|
    && (forall i :: 0 <= i < |nodes| ==> kinds[i] in Words(nodes[i]))
    && (forall i, j :: 0 <= i < j < |kinds| ==> kinds[i] != kinds[j])
  }

  ghost predicate Assignable(nodes: seq<string>) {
    exists kinds :: Assignment(nodes, kinds)
  }

  /** A listing as its matches see it. */
  ghost predicate Listed(base: string, dir: Path, files: seq<Node>, baselines: seq<string>, stats: seq<string>) {
    && |files| == 1 + |baselines| + |KINDS| + |stats|
    && forall i :: 0 <= i < |files| ==> Matched(base, REQUIRED_FILES, PathOf(dir, files, i)) == Expected(baselines, stats, i)
  }

  lemma EntryAt(base: string, dir: Path, files: seq<Node>, baselines: seq<string>, stats: seq<string>,
                w: string, account: seq<Option<string>>, i: nat)
    requires Listed(base, dir, files, baselines, stats) && i < |files|
    requires Hides(base, REQUIRED_FILES, dir, files, w, account)
    ensures LeavesOut(Expected(baselines, stats, i) - Crossed(account, i), account[i], w)
    ensures w !in Crossed(account, i)
  {
    NeverCrossed(base, REQUIRED_FILES, dir, files, w, account, i);
    assert Left(base, REQUIRED_FILES, dir, files, account, i) == Expected(baselines, stats, i) - Crossed(account, i);
  }

  lemma LeftIsStats(node: string, crossed: set<string>)
    requires STATS !in crossed && forall k :: k in KINDS ==> k in crossed
    ensures ({STATS} + Words(node)) - crossed == {STATS}
  {
  }

  /** A file that matches one name sees it crossed off, by itself or by an earlier one. */
  lemma OwnIsCrossed(base: string, dir: Path, files: seq<Node>, baselines: seq<string>, stats: seq<string>,
                     w: string, account: seq<Option<string>>, i: nat, k: string)
    requires Listed(base, dir, files, baselines, stats) && i < |files| && k != w
    requires Hides(base, REQUIRED_FILES, dir, files, w, account) && Expected(baselines, stats, i) == {k}
    ensures k in Crossed(account, i + 1)
  {
    EntryAt(base, dir, files, baselines, stats, w, account, i);
  }

  lemma StaysCrossed(base: string, dir: Path, files: seq<Node>, baselines: seq<string>, stats: seq<string>,
                     w: string, account: seq<Option<string>>, i: nat, k: string, q: nat)
    requires Listed(base, dir, files, baselines, stats) && i < q <= |files| && k != w
    requires Hides(base, REQUIRED_FILES, dir, files, w, account) && Expected(baselines, stats, i) == {k}
    ensures k in Crossed(account, q)
  {
    OwnIsCrossed(base, dir, files, baselines, stats, w, account, i, k);
    CrossedGrows(account, i + 1, q);
  }

  lemma ExpectedKind(baselines: seq<string>, stats: seq<string>, k: string) returns (i: nat)
    requires k in KINDS
    ensures i < 1 + |baselines| + |KINDS| && Expected(baselines, stats, i) == {k}
  {
    var j :| 0 <= j < |KINDS| && KINDS[j] == k;
    i := 1 + |baselines| + j;
  }

  lemma KindsAreCrossed(base: string, dir: Path, files: seq<Node>, baselines: seq<string>, stats: seq<string>,
                        w: string, account: seq<Option<string>>)
    requires Listed(base, dir, files, baselines, stats) && w !in KINDS
    requires Hides(base, REQUIRED_FILES, dir, files, w, account)
    ensures forall k :: k in KINDS ==> k in Crossed(account, 1 + |baselines| + |KINDS|)
  {
    forall k | k in KINDS ensures k in Crossed(account, 1 + |baselines| + |KINDS|) {
      var i := ExpectedKind(baselines, stats, k);
      StaysCrossed(base, dir, files, baselines, stats, w, account, i, k, 1 + |baselines| + |KINDS|);
    }
  }

  /** When the first statistics come up, all kinds are gone, and their own name is what is left. */
  lemma StatsAreCrossed(base: string, dir: Path, files: seq<Node>, baselines: seq<string>, stats: seq<string>,
                        w: string, account: seq<Option<string>>)
    requires Listed(base, dir, files, baselines, stats) && stats != []
    requires Hides(base, REQUIRED_FILES, dir, files, w, account)
    ensures w != STATS
  {
    var q := 1 + |baselines| + |KINDS|;
    if w == STATS {
      StatsIsNoKind();
      KindsAreCrossed(base, dir, files, baselines, stats, w, account);
      NotCrossedHere({}, account[q], w);
      EntryAt(base, dir, files, baselines, stats, w, account, q);
      LeftIsStats(stats[0], Crossed(account, q));
    }
  }

  /** Only the baselines' name can be left out: everything else has a file to itself, or comes last. */
  lemma OnlyBaselineIsLeftOut(base: string, dir: Path, files: seq<Node>, baselines: seq<string>, stats: seq<string>,
                              w: string, account: seq<Option<string>>)
    requires Listed(base, dir, files, baselines, stats) && stats != []
    requires Hides(base, REQUIRED_FILES, dir, files, w, account)
    ensures w == BASELINE
  {
    RequiredFilesByKind(w);
    if w == AGENT_FILE {
      assert Matched(base, REQUIRED_FILES, PathOf(dir, files, 0)) == {w};
      OwnFileIsCrossed(base, REQUIRED_FILES, dir, files, w, account);
    } else if w in KINDS {
      var k :| 0 <= k < |KINDS| && KINDS[k] == w;
      assert Matched(base, REQUIRED_FILES, PathOf(dir, files, 1 + |baselines| + k)) == {w};
      OwnFileIsCrossed(base, REQUIRED_FILES, dir, files, w, account);
    } else {
      StatsAreCrossed(base, dir, files, baselines, stats, w, account);
    }
  }

  lemma AssignmentNext(nodes: seq<string>, kinds: seq<string>, kind: string, n: nat)
    requires n < |nodes| && Assignment(nodes[..n], kinds) && kind !in kinds && kind in Words(nodes[n])
    ensures Assignment(nodes[..n + 1], kinds + [kind])
  {
    assert forall i :: 0 <= i < n ==> nodes[..n][i] == nodes[..n + 1][i];
  }

  lemma BaselineEntry(base: string, dir: Path, files: seq<Node>, baselines: seq<string>, stats: seq<string>,
                      account: seq<Option<string>>, i: nat) returns (kind: string)
    requires Listed(base, dir, files, baselines, stats) && i < |baselines|
    requires Hides(base, REQUIRED_FILES, dir, files, BASELINE, account)
    ensures kind in Words(baselines[i]) && kind !in Crossed(account, 1 + i)
    ensures Crossed(account, 2 + i) == Crossed(account, 1 + i) + {kind}
  {
    EntryAt(base, dir, files, baselines, stats, BASELINE, account, 1 + i);
    var words := Expected(baselines, stats, 1 + i);
    assert words == {BASELINE} + Words(baselines[i]);
    assert BASELINE in words - Crossed(account, 1 + i);
    kind := account[1 + i].value;
  }

  /** Leaving the baselines out takes a kind of its own for each of their nodes. */
  lemma {:induction false} HiddenIsAssigned(base: string, dir: Path, files: seq<Node>,
                                            baselines: seq<string>, stats: seq<string>,
                                            account: seq<Option<string>>, n: nat) returns (kinds: seq<string>)
    requires Listed(base, dir, files, baselines, stats) && n <= |baselines|
    requires Hides(base, REQUIRED_FILES, dir, files, BASELINE, account)
    ensures Assignment(baselines[..n], kinds)
    ensures forall k :: k in kinds ==> k in Crossed(account, 1 + n)
  {
    kinds := [];
    if n > 0 {
      var before := HiddenIsAssigned(base, dir, files, baselines, stats, account, n - 1);
      var kind := BaselineEntry(base, dir, files, baselines, stats, account, n - 1);
      kinds := before + [kind];
      AssignmentNext(baselines, before, kind, n - 1);
    }
  }

  function Members(words: seq<string>): set<string> {
    set w | w in words
  }

  function OwnEntries(words: seq<string>): seq<Option<string>> {
    seq(|words|, i requires 0 <= i < |words| => Some(words[i]))
  }

  /** Files of kinds that are gone already cross off nothing. */
  function KindEntries(kinds: seq<string>, gone: seq<string>): seq<Option<string>> {
    seq(|kinds|, i requires 0 <= i < |kinds| => if kinds[i] in gone then None else Some(kinds[i]))
  }

  function StatsEntries(n: nat): seq<Option<string>> {
    seq(n, i => if i == 0 then Some(STATS) else None)
  }

  /** The account of a directory in which every baseline file crosses off the kind given to its node. */
  function AssignedAccount(given: seq<string>, n: nat): seq<Option<string>> {
    [Some(AGENT_FILE)] + OwnEntries(given) + KindEntries(KINDS, given) + StatsEntries(n)
  }

  lemma {:induction false} CrossedSum(a: seq<Option<string>>, b: seq<Option<string>>, n: nat)
    requires n <= |b|
    ensures Crossed(a + b, |a| + n) == Crossed(a, |a|) + Crossed(b, n)
  {
    if n == 0 {
      CrossedPrefix(a, a + b, |a|);
    } else {
      CrossedSum(a, b, n - 1);
    }
  }

  lemma {:induction false} CrossedByOwn(words: seq<string>, n: nat)
    requires n <= |words|
    ensures Crossed(OwnEntries(words), n) == Members(words[..n])
  {
    if n > 0 {
      CrossedByOwn(words, n - 1);
      assert words[..n] == words[..n - 1] + [words[n - 1]];
    }
  }

  lemma {:induction false} CrossedByKinds(kinds: seq<string>, gone: seq<string>, n: nat)
    requires n <= |kinds|
    ensures Crossed(KindEntries(kinds, gone), n) == Members(kinds[..n]) - Members(gone)
  {
    if n > 0 {
      CrossedByKinds(kinds, gone, n - 1);
      assert kinds[..n] == kinds[..n - 1] + [kinds[n - 1]];
    }
  }

  lemma {:induction false} CrossedByStats(m: nat, n: nat)
    requires n <= m
    ensures Crossed(StatsEntries(m), n) == if n == 0 then {} else {STATS}
  {
    if n > 0 {
      CrossedByStats(m, n - 1);
    }
  }

  /** What is gone before file i. */
  function Gone(given: seq<string>, kinds: seq<string>, i: nat): set<string>
  {
    if i == 0 then {}
    else if i - 1 <= |given| then {AGENT_FILE} + Members(given[..i - 1])
    else if i - 1 - |given| <= |kinds| then
      {AGENT_FILE} + Members(given) + (Members(kinds[..i - 1 - |given|]) - Members(given))
    else {AGENT_FILE} + Members(given) + (Members(kinds) - Members(given)) + {STATS}
  }

  lemma AssignedCrosses(given: seq<string>, kinds: seq<string>, m: nat, i: nat)
    requires i <= 1 + |given| + |kinds| + m
    ensures
      var account := [Some(AGENT_FILE)] + OwnEntries(given) + KindEntries(kinds, given) + StatsEntries(m);
      Crossed(account, i) == Gone(given, kinds, i)
  {
    var a, b, c, d := [Some(AGENT_FILE)], OwnEntries(given), KindEntries(kinds, given), StatsEntries(m);
    var n := |given|;
    assert Crossed(a, 1) == {AGENT_FILE};
    assert given[..n] == given && kinds[..|kinds|] == kinds;
    if i == 0 {
    } else if i - 1 <= n {
      CrossedSum(a, b, i - 1);
      CrossedByOwn(given, i - 1);
      CrossedPrefix(a + b, a + b + c + d, i);
    } else if i - 1 - n <= |kinds| {
      CrossedSum(a, b, n);
      CrossedByOwn(given, n);
      CrossedSum(a + b, c, i - 1 - n);
      CrossedByKinds(kinds, given, i - 1 - n);
      CrossedPrefix(a + b + c, a + b + c + d, i);
    } else {
      CrossedSum(a, b, n);
      CrossedByOwn(given, n);
      CrossedSum(a + b, c, |kinds|);
      CrossedByKinds(kinds, given, |kinds|);
      CrossedSum(a + b + c, d, i - 1 - n - |kinds|);
      CrossedByStats(m, i - 1 - n - |kinds|);
    }
  }

  lemma KindsDiffer()
    ensures forall i, j :: 0 <= i < j < |KINDS| ==> KINDS[i] != KINDS[j]
  {
  }

  lemma EntrySumAt(a: seq<Option<string>>, b: seq<Option<string>>, c: seq<Option<string>>, d: seq<Option<string>>, i: nat)
    requires |a| == 1 && i < |a| + |b| + |c| + |d|
    ensures (a + b + c + d)[i] == if i == 0 then a[0] else if i - 1 < |b| then b[i - 1]
                                  else if i - 1 - |b| < |c| then c[i - 1 - |b|] else d[i - 1 - |b| - |c|]
  {
  }

  lemma AccountAt(given: seq<string>, m: nat, i: nat)
    requires i < 1 + |given| + |KINDS| + m
    ensures |AssignedAccount(given, m)| == 1 + |given| + |KINDS| + m
    ensures AssignedAccount(given, m)[i]
            == if i == 0 then Some(AGENT_FILE) else if i - 1 < |given| then Some(given[i - 1])
               else if i - 1 - |given| < |KINDS| then KindEntries(KINDS, given)[i - 1 - |given|]
               else if i - 1 - |given| - |KINDS| == 0 then Some(STATS) else None
  {
    EntrySumAt([Some(AGENT_FILE)], OwnEntries(given), KindEntries(KINDS, given), StatsEntries(m), i);
  }

  lemma KindEntry(kinds: seq<string>, given: seq<string>, j: nat)
    requires kinds == KINDS && j < |kinds|
    ensures
      var gone := {AGENT_FILE} + Members(given) + (Members(kinds[..j]) - Members(given));
      LeavesOut({kinds[j]} - gone, KindEntries(kinds, given)[j], BASELINE)
  {
    StatsIsNoKind();
    KindsDiffer();
    assert kinds[j] in KINDS && kinds[j] !in kinds[..j];
  }

  lemma StatsEntry(node: string, given: seq<string>, i: nat)
    requires i >= 1 + |given| + |KINDS| && forall k :: k in given ==> k in KINDS
    ensures
      var left := ({STATS} + Words(node)) - Gone(given, KINDS, i);
      left == if i == 1 + |given| + |KINDS| then {STATS} else {}
  {
    StatsIsNoKind();
    assert KINDS[..|KINDS|] == KINDS;
  }

  /** Entry i of that account takes what it may. */
  lemma GivenEntry(baselines: seq<string>, stats: seq<string>, given: seq<string>, i: nat)
    requires Assignment(baselines, given) && i < 1 + |baselines| + |KINDS| + |stats|
    ensures |AssignedAccount(given, |stats|)| == 1 + |baselines| + |KINDS| + |stats|
    ensures LeavesOut(Expected(baselines, stats, i) - Gone(given, KINDS, i), AssignedAccount(given, |stats|)[i], BASELINE)
  {
    StatsIsNoKind();
    var n := |baselines|;
    AccountAt(given, |stats|, i);
    if i == 0 {
    } else if i - 1 < n {
      assert given[i - 1] in Words(baselines[i - 1]);
      assert given[i - 1] !in Members(given[..i - 1]);
    } else if i - 1 - n < |KINDS| {
      KindEntry(KINDS, given, i - 1 - n);
      if i - 1 == n {
        assert given[..n] == given && KINDS[..0] == [];
      }
    } else {
      StatsEntry(stats[i - 1 - n - |KINDS|], given, i);
    }
  }

  lemma AssignedIsHidden(base: string, dir: Path, files: seq<Node>, baselines: seq<string>, stats: seq<string>,
                         given: seq<string>)
    requires Listed(base, dir, files, baselines, stats) && Assignment(baselines, given)
    ensures Hides(base, REQUIRED_FILES, dir, files, BASELINE, AssignedAccount(given, |stats|))
  {
    var account := AssignedAccount(given, |stats|);
    RequiredFilesByKind(BASELINE);
    assert |account| == |files| by {
      AccountAt(given, |stats|, 0);
    }
    forall i | 0 <= i < |files|
      ensures LeavesOut(Left(base, REQUIRED_FILES, dir, files, account, i), account[i], BASELINE)
    {
      AssignedCrosses(given, KINDS, |stats|, i);
      GivenEntry(baselines, stats, given, i);
      assert Left(base, REQUIRED_FILES, dir, files, account, i) == Expected(baselines, stats, i) - Gone(given, KINDS, i);
    }
  }

  lemma HiddenOnPlainPath(base: string, dir: Path, asJson: bool, baselines: seq<string>, stats: seq<string>, time: int)
    requires PlainPath(base, dir) && PlainNodes(baselines) && PlainNodes(stats) && stats != []
    ensures Hidden(base, REQUIRED_FILES, dir, Listing(asJson, baselines, stats, time)) <==> Assignable(baselines)
  {
    var files := Listing(asJson, baselines, stats, time);
    ListingMatches(base, dir, asJson, baselines, stats, time);
    if Hidden(base, REQUIRED_FILES, dir, files) {
      var w, account :| Hides(base, REQUIRED_FILES, dir, files, w, account);
      OnlyBaselineIsLeftOut(base, dir, files, baselines, stats, w, account);
      var kinds := HiddenIsAssigned(base, dir, files, baselines, stats, account, |baselines|);
      assert baselines[..|baselines|] == baselines;
    }
    if Assignable(baselines) {
      var given :| Assignment(baselines, given);
      AssignedIsHidden(base, dir, files, baselines, stats, given);
    }
  }

  lemma AgentOnlyFirst(baselines: seq<string>, stats: seq<string>, i: nat)
    requires i < 1 + |baselines| + |KINDS| + |stats|
    ensures AGENT_FILE in Expected(baselines, stats, i) <==> i == 0
  {
    StatsIsNoKind();
    assert BASELINE[0] == 'b' && STATS[0] == 's' && AGENT_FILE[0] == 'a';
  }

  ghost predicate NoAgentPath(base: string, dir: Path) {
    !Contains(FullName(base, dir), AGENT_FILE)
  }

  /** Under such a path only the first file is taken for the agent measurement. */
  lemma AgentMatches(base: string, dir: Path, asJson: bool, baselines: seq<string>, stats: seq<string>, time: int, i: nat)
    requires NoAgentPath(base, dir) && PlainNodes(baselines) && PlainNodes(stats)
    requires i < |Listing(asJson, baselines, stats, time)|
    ensures |Listing(asJson, baselines, stats, time)| == 1 + |baselines| + |KINDS| + |stats|
    ensures
      var f := Listing(asJson, baselines, stats, time)[i];
      && f == File(NameAt(asJson, baselines, KINDS, stats, i), if i == 0 then Some(time) else None)
      && (Matches(base, dir + [f.name], AGENT_FILE) <==> i == 0)
  {
    assert |Listing(asJson, baselines, stats, time)| == 1 + |baselines| + |KINDS| + |stats|;
    RequiredFilesByKind(AGENT_FILE);
    SortedAt(asJson, baselines, KINDS, stats, time, i);
    NameContains(asJson, baselines, stats, i, AGENT_FILE);
    AgentOnlyFirst(baselines, stats, i);
    MatchesName(base, dir, NameAt(asJson, baselines, KINDS, stats, i), AGENT_FILE);
  }

  lemma ListingIsReadable(base: string, dir: Path, asJson: bool, baselines: seq<string>, stats: seq<string>, time: int)
    requires NoAgentPath(base, dir) && PlainNodes(baselines) && PlainNodes(stats)
    ensures AgentReadable(base, dir, Listing(asJson, baselines, stats, time))
  {
    var files := Listing(asJson, baselines, stats, time);
    forall i | 0 <= i < |files|
      ensures files[i] == File(NameAt(asJson, baselines, KINDS, stats, i), if i == 0 then Some(time) else None)
      ensures Matches(base, dir + [files[i].name], AGENT_FILE) <==> i == 0
    {
      AgentMatches(base, dir, asJson, baselines, stats, time, i);
    }
  }

  /** With a required name in the path of the directory, the agent's file can cross that off instead of its own. */
  lemma NamedPathHides(base: string, dir: Path, asJson: bool, baselines: seq<string>, stats: seq<string>, time: int)
    requires NoAgentPath(base, dir) && !PlainPath(base, dir) && PlainNodes(baselines) && PlainNodes(stats)
    ensures Hidden(base, REQUIRED_FILES, dir, Listing(asJson, baselines, stats, time))
  {
    var files := Listing(asJson, baselines, stats, time);
    var w :| w in REQUIRED_FILES && Contains(FullName(base, dir), w);
    MatchesName(base, dir, files[0].name, w);
    forall i | 1 <= i < |files| ensures !Matches(base, PathOf(dir, files, i), AGENT_FILE) {
      AgentMatches(base, dir, asJson, baselines, stats, time, i);
    }
    RequiredFilesByKind(AGENT_FILE);
    SharedFileHides(base, REQUIRED_FILES, dir, files, AGENT_FILE, w);
  }

  /**
   * A sample directory can be missed if and only if its own path contains a required name, or each node
   * that has a baseline can be given a kind of its own that its name contains.
   */
  lemma HiddenExactly(base: string, dir: Path, asJson: bool, baselines: seq<string>, stats: seq<string>, time: int)
    requires NoAgentPath(base, dir) && PlainNodes(baselines) && PlainNodes(stats) && stats != []
    ensures Hidden(base, REQUIRED_FILES, dir, Listing(asJson, baselines, stats, time))
            <==> !PlainPath(base, dir) || Assignable(baselines)
  {
    if PlainPath(base, dir) {
      HiddenOnPlainPath(base, dir, asJson, baselines, stats, time);
    } else {
      NamedPathHides(base, dir, asJson, baselines, stats, time);
    }
  }

  // ---------- What becomes of such a directory ----------

  lemma NamesStart(asJson: bool, w: string)
    ensures Contains(KindFile(asJson, w), w) && Contains(AGENT_FILE_NAME, AGENT_FILE)
  {
    ContainsPrefix(w, "." + Extension(asJson));
    assert w + ("." + Extension(asJson)) == KindFile(asJson, w);
    ContainsPrefix(AGENT_FILE, "." + "json");
    assert AGENT_FILE + ("." + "json") == AGENT_FILE_NAME;
  }

  lemma NodeFileStarts(prefix: string, node: string)
    ensures Contains(NodeFile(prefix, node), prefix)
  {
    ContainsPrefix(prefix, "-" + node + "." + "json");
    assert prefix + ("-" + node + "." + "json") == NodeFile(prefix, node);
  }

  lemma ListingHas(base: string, dir: Path, asJson: bool, baselines: seq<string>, stats: seq<string>, time: int,
                   i: nat, w: string)
    requires i < 1 + |baselines| + |KINDS| + |stats| && w in REQUIRED_FILES
    requires Contains(NameAt(asJson, baselines, KINDS, stats, i), w)
    ensures exists f :: f in Listing(asJson, baselines, stats, time) && Matches(base, dir + [f.name], w)
  {
    var files := Listing(asJson, baselines, stats, time);
    SortedAt(asJson, baselines, KINDS, stats, time, i);
    MatchesName(base, dir, files[i].name, w);
    assert files[i] in files;
  }

  /** With a node in either list the directory misses nothing. */
  lemma ListingIsComplete(base: string, dir: Path, asJson: bool, baselines: seq<string>, stats: seq<string>, time: int)
    requires baselines != [] && stats != []
    ensures Unaccounted(base, REQUIRED_FILES, dir, Listing(asJson, baselines, stats, time)) == {}
  {
    var files := Listing(asJson, baselines, stats, time);
    forall w | w in REQUIRED_FILES ensures exists f :: f in files && Matches(base, dir + [f.name], w) {
      RequiredFilesByKind(w);
      NamesStart(asJson, w);
      if w == AGENT_FILE {
        ListingHas(base, dir, asJson, baselines, stats, time, 0, w);
      } else if w == BASELINE {
        NodeFileStarts(BASELINE, baselines[0]);
        ListingHas(base, dir, asJson, baselines, stats, time, 1, w);
      } else if w == STATS {
        NodeFileStarts(STATS, stats[0]);
        ListingHas(base, dir, asJson, baselines, stats, time, 1 + |baselines| + |KINDS|, w);
      } else {
        var k :| 0 <= k < |KINDS| && KINDS[k] == w;
        ListingHas(base, dir, asJson, baselines, stats, time, 1 + |baselines| + k, w);
      }
    }
  }

  predicate Distinct(nodes: seq<string>) {
    forall i, j :: 0 <= i < j < |nodes| ==> nodes[i] != nodes[j]
  }

  lemma NodeFileIsInjective(prefix: string, a: string, b: string)
    requires NodeFile(prefix, a) == NodeFile(prefix, b)
    ensures a == b
  {
    var x, y := NodeFile(prefix, a), NodeFile(prefix, b);
    var k := |prefix| + 1;
    assert x[k..|x| - 5] == a && y[k..|y| - 5] == b;
  }

  datatype Kind = Agent | Baselines | Objects | Statistics

  function KindAt(b: nat, k: nat, i: nat): Kind {
    if i == 0 then Agent else if i - 1 < b then Baselines else if i - 1 - b < k then Objects else Statistics
  }

  predicate Looks(name: string, kind: Kind) {
    name != "" && match kind
                  case Agent => name[0] == 'a' && '-' in name
                  case Baselines => name[0] == 'b' && '-' in name
                  case Objects => '-' !in name
                  case Statistics => name[0] == 's' && '-' in name
  }

  lemma NameLooks(asJson: bool, baselines: seq<string>, stats: seq<string>, i: nat)
    requires i < 1 + |baselines| + |KINDS| + |stats|
    ensures Looks(NameAt(asJson, baselines, KINDS, stats, i), KindAt(|baselines|, |KINDS|, i))
  {
    var name := NameAt(asJson, baselines, KINDS, stats, i);
    match KindAt(|baselines|, |KINDS|, i)
    case Agent => assert name[0] == 'a' && name[5] == '-';
    case Baselines => assert name[0] == 'b' && name[|BASELINE|] == '-';
    case Objects => KindsHaveNoDash(KINDS[i - 1 - |baselines|]);
    case Statistics => assert name[0] == 's' && name[|STATS|] == '-';
  }

  lemma KindFileIsInjective(asJson: bool, a: string, b: string)
    requires KindFile(asJson, a) == KindFile(asJson, b)
    ensures a == b
  {
    var x, y, n := KindFile(asJson, a), KindFile(asJson, b), |Extension(asJson)| + 1;
    assert x[..|x| - n] == a && y[..|y| - n] == b;
  }

  lemma NamesDiffer(asJson: bool, baselines: seq<string>, stats: seq<string>, i: nat, j: nat)
    requires Distinct(baselines) && Distinct(stats) && i < j < 1 + |baselines| + |KINDS| + |stats|
    ensures NameAt(asJson, baselines, KINDS, stats, i) != NameAt(asJson, baselines, KINDS, stats, j)
  {
    NameLooks(asJson, baselines, stats, i);
    NameLooks(asJson, baselines, stats, j);
    if NameAt(asJson, baselines, KINDS, stats, i) == NameAt(asJson, baselines, KINDS, stats, j) {
      var b, k := |baselines|, |KINDS|;
      if j - 1 < b {
        NodeFileIsInjective(BASELINE, baselines[i - 1], baselines[j - 1]);
      } else if j - 1 - b < k {
        KindsDiffer();
        KindFileIsInjective(asJson, KINDS[i - 1 - b], KINDS[j - 1 - b]);
      } else {
        NodeFileIsInjective(STATS, stats[i - 1 - b - k], stats[j - 1 - b - k]);
      }
    }
  }

  lemma ListingIsNamed(asJson: bool, baselines: seq<string>, stats: seq<string>, time: int)
    requires Distinct(baselines) && Distinct(stats)
    ensures AllFiles(Listing(asJson, baselines, stats, time)) && DifferentlyNamed(Listing(asJson, baselines, stats, time))
  {
    var files := Listing(asJson, baselines, stats, time);
    forall i | 0 <= i < |files|
      ensures i < 1 + |baselines| + |KINDS| + |stats| && files[i].File?
      ensures files[i].name == NameAt(asJson, baselines, KINDS, stats, i)
    {
      SortedAt(asJson, baselines, KINDS, stats, time, i);
    }
    forall i, j | 0 <= i < j < |files| ensures files[i].name != files[j].name {
      NamesDiffer(asJson, baselines, stats, i, j);
    }
  }

  /** Its time is that of the agent's file, the only one that is read for it. */
  lemma {:induction false} ListingTime(c: Context, dir: Path, files: seq<Node>, time: int, n: nat)
    requires AllFiles(files) && 0 < n <= |files| && files[0].timestamp == Some(time)
    requires forall i :: 0 <= i < |files| ==> (Matches(c.base, dir + [files[i].name], AGENT_FILE) <==> i == 0)
    ensures SampleTime(c, dir, files[..n], 0) == time
  {
    assert files[..n][..n - 1] == files[..n - 1];
    if n > 1 {
      ListingTime(c, dir, files, time, n - 1);
    }
  }

  lemma ListingTimeIs(c: Context, dir: Path, asJson: bool, baselines: seq<string>, stats: seq<string>, time: int)
    requires NoAgentPath(c.base, dir) && PlainNodes(baselines) && PlainNodes(stats)
    ensures AllFiles(Listing(asJson, baselines, stats, time))
    ensures SampleTime(c, dir, Listing(asJson, baselines, stats, time), 0) == time
  {
    var files := Listing(asJson, baselines, stats, time);
    forall i | 0 <= i < |files|
      ensures files[i] == File(NameAt(asJson, baselines, KINDS, stats, i), if i == 0 then Some(time) else None)
      ensures Matches(c.base, dir + [files[i].name], AGENT_FILE) <==> i == 0
    {
      AgentMatches(c.base, dir, asJson, baselines, stats, time, i);
    }
    ListingTime(c, dir, files, time, |files|);
    assert files[..|files|] == files;
  }

  lemma NodeWithoutWords(nodes: seq<string>)
    requires exists n :: n in nodes && Words(n) == {}
    ensures !Assignable(nodes)
  {
    var i :| 0 <= i < |nodes| && Words(nodes[i]) == {};
    forall kinds ensures !Assignment(nodes, kinds) {
      assert |kinds| == |nodes| ==> kinds[i] !in Words(nodes[i]);
    }
  }

  lemma OneComplete(c: Context, d: Node)
    requires d.Dir? && AllFiles(d.children) && Missing(c, [d.name], d.children) == {}
    ensures Flat([d]) && CompleteSamples(c, [d]) == [Sample([d.name], SampleTime(c, [d.name], d.children, 0))]
  {
    assert [d][..0] == [];
    assert CompleteSamples(c, []) == [];
  }

  lemma OneMissed(c: Context, d: Node)
    requires c.Valid() && d.Dir? && AgentReadable(c.base, [d.name], d.children)
    requires Needed(c, [d.name], d.children) != {}
    ensures Recovered(c, [d]).packed == [] && !Recovered(c, [d]).failed && !Exists(Recovered(c, [d]).removed, [d.name])
  {
    assert d in [d] && [d][..0] == [] && PackedSamples(c, []) == [] && [d][..1] == [d];
    ReadableIsReadThrough(c, d);
    FlatTreeWalked(c, [d]);
  }

  lemma HiddenIsMissed(base: string, name: string, asJson: bool, baselines: seq<string>, stats: seq<string>, time: int)
    returns (c: Context)
    requires NoAgentPath(base, [name]) && PlainNodes(baselines) && PlainNodes(stats)
    requires stats != [] && Distinct(baselines) && Distinct(stats)
    requires !PlainPath(base, [name]) || Assignable(baselines)
    ensures Asks(c, base, REQUIRED_FILES)
    ensures
      var d := Dir(name, Listing(asJson, baselines, stats, time));
      && Recovered(c, [d]).packed == [] && !Recovered(c, [d]).failed && !Exists(Recovered(c, [d]).removed, [name])
  {
    var files := Listing(asJson, baselines, stats, time);
    ListingIsReadable(base, [name], asJson, baselines, stats, time);
    ListingIsNamed(asJson, baselines, stats, time);
    HiddenExactly(base, [name], asJson, baselines, stats, time);
    RequiredFilesByKind(AGENT_FILE);
    c := MissingOrder(base, REQUIRED_FILES, [name], files);
    OneMissed(c, Dir(name, files));
  }

  lemma OneIsLeft(c: Context, path: Path, a: string, b: string)
    requires {a, b} <= c.required && a != b
    ensures CrossOff(c, c.required, path) != {}
  {
    var left := CrossOff(c, c.required, path);
    assert a in left || b in left;
  }

  lemma OneFileIsNotEnough(c: Context, dir: Path, files: seq<Node>, n: nat)
    requires Asks(c, c.base, REQUIRED_FILES) && n <= |files| && n <= 1
    ensures Needed(c, dir, files[..n]) != {}
  {
    RequiredFilesByKind(BASELINE);
    RequiredFilesByKind(AGENT_FILE);
    assert BASELINE[0] != AGENT_FILE[0];
    if n == 1 {
      var path := dir + [files[0].name];
      assert files[..1][..0] == [] && Needed(c, dir, files[..1]) == CrossOff(c, c.required, path);
      OneIsLeft(c, path, BASELINE, AGENT_FILE);
    }
  }

  /** Where the path is taken for an agent measurement, every file is, and the walk ends at the second. */
  lemma AgentPathStops(c: Context, name: string, asJson: bool, baselines: seq<string>, stats: seq<string>, time: int)
    requires Asks(c, c.base, REQUIRED_FILES) && !NoAgentPath(c.base, [name])
    ensures
      var s := Recovered(c, [Dir(name, Listing(asJson, baselines, stats, time))]);
      s.failed && s.packed == [] && !s.hasShipped
  {
    var files, dir := Listing(asJson, baselines, stats, time), [name];
    var d := Dir(name, files);
    SortedAt(asJson, baselines, KINDS, stats, time, 1);
    RequiredFilesByKind(AGENT_FILE);
    RequiredFilesByKind(STATS);
    MatchesName(c.base, dir, files[1].name, AGENT_FILE);
    assert AllFiles(files) by {
      forall i | 0 <= i < |files| ensures files[i].File? {
        SortedAt(asJson, baselines, KINDS, stats, time, i);
      }
    }
    assert Stops(c, dir, files, 1);
    OneFileIsNotEnough(c, dir, files, FirstStop(c, dir, files, 0));
    assert [d][..0] == [] && d in [d] && PackedSamples(c, []) == [];
    FlatTreeWalked(c, [d]);
  }

  /**
   * With any path and any node names: a sample directory is complete, and in every order of the map it is
   * packed by a walk that comes through, if and only if it is not hidden and no file of it ends the walk.
   */
  lemma ListingRecoveredExactly(base: string, name: string, asJson: bool,
                                baselines: seq<string>, stats: seq<string>, time: int)
    requires baselines != [] && stats != [] && Distinct(baselines) && Distinct(stats)
    ensures
      var d := Dir(name, Listing(asJson, baselines, stats, time));
      && Flat([d]) && Unaccounted(base, REQUIRED_FILES, [name], d.children) == {}
      && ((forall c: Context :: Asks(c, base, REQUIRED_FILES) ==>
             !Recovered(c, [d]).failed && Recovered(c, [d]).packed == [Sample([name], SampleTime(c, [name], d.children, 0))])
          <==> !Hidden(base, REQUIRED_FILES, [name], d.children) && NeverStops(base, REQUIRED_FILES, d))
  {
    var d := Dir(name, Listing(asJson, baselines, stats, time));
    ListingIsComplete(base, [name], asJson, baselines, stats, time);
    ListingIsNamed(asJson, baselines, stats, time);
    RequiredFilesByKind(AGENT_FILE);
    FlatTreeRecoveredExactly(base, REQUIRED_FILES, [d]);
    forall c: Context | Asks(c, base, REQUIRED_FILES)
      ensures CompleteSamples(c, [d]) == [Sample([name], SampleTime(c, [name], d.children, 0))]
    {
      OneComplete(c, d);
    }
  }

  lemma NotHiddenIsRecovered(base: string, name: string, asJson: bool, baselines: seq<string>, stats: seq<string>, time: int)
    requires PlainPath(base, [name]) && PlainNodes(baselines) && PlainNodes(stats) && NoAgentPath(base, [name])
    requires baselines != [] && stats != [] && Distinct(baselines) && Distinct(stats) && !Assignable(baselines)
    ensures
      var d := Dir(name, Listing(asJson, baselines, stats, time));
      forall c: Context :: Asks(c, base, REQUIRED_FILES) ==> Recovered(c, [d]).packed == [Sample([name], time)]
  {
    var d := Dir(name, Listing(asJson, baselines, stats, time));
    ListingIsReadable(base, [name], asJson, baselines, stats, time);
    ListingIsNamed(asJson, baselines, stats, time);
    HiddenExactly(base, [name], asJson, baselines, stats, time);
    RequiredFilesByKind(AGENT_FILE);
    ReadableNeverStops(base, REQUIRED_FILES, d);
    ListingRecoveredExactly(base, name, asJson, baselines, stats, time);
    forall c: Context | Asks(c, base, REQUIRED_FILES) ensures SampleTime(c, [name], d.children, 0) == time {
      ListingTimeIs(c, [name], asJson, baselines, stats, time);
    }
  }

  /**
   * A complete sample directory is packed in every order of the map if and only if its own path contains
   * no required name, and its nodes cannot each be given a kind of its own that its name contains. One
   * node whose name contains none will do.
   */
  lemma RecoveredInEveryOrder(base: string, name: string, asJson: bool,
                              baselines: seq<string>, stats: seq<string>, time: int)
    requires PlainNodes(baselines) && PlainNodes(stats)
    requires baselines != [] && stats != [] && Distinct(baselines) && Distinct(stats)
    ensures
      var d := Dir(name, Listing(asJson, baselines, stats, time));
      && Unaccounted(base, REQUIRED_FILES, [name], d.children) == {}
      && ((forall c: Context :: Asks(c, base, REQUIRED_FILES) ==> Recovered(c, [d]).packed == [Sample([name], time)])
          <==> PlainPath(base, [name]) && !Assignable(baselines))
    ensures (exists n :: n in baselines && Words(n) == {}) ==> !Assignable(baselines)
  {
    var d := Dir(name, Listing(asJson, baselines, stats, time));
    ListingIsComplete(base, [name], asJson, baselines, stats, time);
    RequiredFilesByKind(AGENT_FILE);
    if !NoAgentPath(base, [name]) {
      var c := Preferring(base, REQUIRED_FILES, AGENT_FILE);
      AgentPathStops(c, name, asJson, baselines, stats, time);
    } else if !PlainPath(base, [name]) || Assignable(baselines) {
      var c := HiddenIsMissed(base, name, asJson, baselines, stats, time);
    } else {
      NotHiddenIsRecovered(base, name, asJson, baselines, stats, time);
    }
    if exists n :: n in baselines && Words(n) == {} {
      NodeWithoutWords(baselines);
    }
  }

  /**
   * A crash between creating the agent's file and writing it leaves it empty: start-up stops at this
   * directory and deletes it, whatever else it holds, does not look at those behind it, and reports no
   * error.
   */
  lemma HalfWrittenAgentStops(c: Context, name: string, others: seq<Node>, later: seq<Node>)
    requires Asks(c, c.base, REQUIRED_FILES) && Flat([Dir(name, [File(AGENT_FILE_NAME, None)] + others)] + later)
    ensures
      var s := Recovered(c, [Dir(name, [File(AGENT_FILE_NAME, None)] + others)] + later);
      && s.failed && s.packed == [] && !s.hasShipped
      && !Exists(s.removed, [name])
      && forall d :: d in later ==> Exists(s.removed, [d.name])
  {
    RequiredFilesByKind(AGENT_FILE);
    AgentFileContains(AGENT_FILE);
    MatchesName(c.base, [name], AGENT_FILE_NAME, AGENT_FILE);
    UnreadableAgentStops(c, Dir(name, [File(AGENT_FILE_NAME, None)] + others), later);
  }

  // ---------- One node called "nodes-1" ----------

  lemma PathMarks(w: string)
    requires w in REQUIRED_FILES
    ensures Unmarked("/s/d", w)
  {
  }

  lemma NodesOneNames()
    ensures PlainPath("/s", ["d"]) && PlainNode("nodes-1") && "nodes" in Words("nodes-1")
  {
    assert FullName("/s", ["d"]) == "/s" + "/" + "d" == "/s/d";
    forall w | w in REQUIRED_FILES ensures !Contains("/s/d", w) {
      PathMarks(w);
      UnmarkedAbsent("/s/d", w);
    }
    assert PairAt(BASELINE, 0, 'b', 'a') && PairAt(STATS, 0, 's', 't') && PairAt(AGENT_FILE, 0, 'a', 'g');
    PairMissing("nodes-1", BASELINE, 'b', 'a');
    PairMissing("nodes-1", STATS, 's', 't');
    PairMissing("nodes-1", AGENT_FILE, 'a', 'g');
    ContainsPrefix("nodes", "-1");
    assert "nodes" + "-1" == "nodes-1";
    assert KINDS[4] == "nodes";
  }

  /** A complete sample of a cluster with this node alone, as the emitter writes it, may be deleted. */
  lemma NodesOneIsMissed(asJson: bool, time: int) returns (c: Context)
    ensures Asks(c, "/s", REQUIRED_FILES)
    ensures
      var d := Dir("d", Listing(asJson, ["nodes-1"], ["nodes-1"], time));
      && Missing(c, ["d"], d.children) == {}
      && Recovered(c, [d]).packed == [] && !Recovered(c, [d]).failed && !Exists(Recovered(c, [d]).removed, ["d"])
  {
    NodesOneNames();
    var nodes := ["nodes-1"];
    assert nodes[0] == "nodes-1" && PlainNodes(nodes);
    assert Assignment(nodes, ["nodes"]);
    RequiredFilesByKind(AGENT_FILE);
    ListingIsComplete("/s", ["d"], asJson, nodes, nodes, time);
    c := HiddenIsMissed("/s", "d", asJson, nodes, nodes, time);
  }

  // ---------- The samples that the emitter ships ----------

  /** The names of a directory's entries, each once. */
  predicate Enumerates(nodes: seq<string>, keys: set<string>) {
    Distinct(nodes) && Members(nodes) == keys
  }

  function FileNames(asJson: bool, sample: E.Sample): set<string> {
    (set kind | kind in sample.objects :: KindFile(asJson, kind))
    + (set node | node in sample.stats :: NodeFile(STATS, node))
    + (set node | node in sample.baseline :: NodeFile(BASELINE, node))
    + (if sample.agent.Some? then {AGENT_FILE_NAME} else {})
  }

  /**
   * After a crash between hand-over and packing: a shipped sample that is not among the first of its
   * process, with some node in its tick and in the one before, is recovered in every order of the map
   * if and only if the path of its directory contains no required name and the nodes of the tick before
   * cannot each be given a kind of its own that its name contains.
   */
  lemma ShippedIsRecovered(base: string, name: string, asJson: bool, shipped: seq<E.Sample>, found: seq<E.Sample>,
                           ticks: seq<E.Snapshot>, without: nat, i: nat, baselines: seq<string>, stats: seq<string>)
    requires E.Matches(asJson, shipped, found, ticks, without) && without < i < |shipped|
    requires ticks[i].nodes != [] && ticks[i - 1].nodes != []
    requires Enumerates(baselines, shipped[i].baseline.Keys) && Enumerates(stats, shipped[i].stats.Keys)
    requires PlainNodes(baselines) && PlainNodes(stats)
    ensures shipped[i].agent.Some?
    ensures
      var d := Dir(name, Listing(asJson, baselines, stats, shipped[i].agent.value));
      (forall c: Context :: Asks(c, base, REQUIRED_FILES) ==>
         Recovered(c, [d]).packed == [Sample([name], shipped[i].agent.value)])
      <==> PlainPath(base, [name]) && !Assignable(baselines)
    ensures Members(baselines) == E.ByNode(ticks[i - 1].nodes).Keys
  {
    assert ticks[..i][i - 1] == ticks[i - 1];
    E.LastNodeHasStats(ticks[i].nodes);
    E.LastNodeHasStats(ticks[i - 1].nodes);
    RecoveredInEveryOrder(base, name, asJson, baselines, stats, shipped[i].agent.value);
  }

  lemma SameMembers(nodes: seq<string>, keys: set<string>)
    requires Enumerates(nodes, keys)
    ensures forall n :: n in nodes <==> n in keys
  {
    assert forall n :: n in Members(nodes) <==> n in nodes;
  }

  lemma KindsAreObjects(keys: set<string>)
    requires keys == E.OBJECT_FILES
    ensures forall k :: k in KINDS <==> k in keys
  {
    forall k ensures k in E.OBJECT_FILES <==> k in KINDS {
      RequiredFilesByKind(k);
    }
  }

  lemma NamesOfSample(asJson: bool, sample: E.Sample, baselines: seq<string>, kinds: seq<string>, stats: seq<string>, x: string)
    requires sample.agent.Some?
    requires forall n :: n in baselines <==> n in sample.baseline.Keys
    requires forall n :: n in stats <==> n in sample.stats.Keys
    requires forall k :: k in kinds <==> k in sample.objects.Keys
    ensures x in FileNames(asJson, sample)
            <==> || x == AGENT_FILE_NAME
                 || (exists n :: n in baselines && x == NodeFile(BASELINE, n))
                 || (exists k :: k in kinds && x == KindFile(asJson, k))
                 || (exists n :: n in stats && x == NodeFile(STATS, n))
  {
  }

  lemma NamesOfNodes(prefix: string, nodes: seq<string>, x: string)
    ensures (exists f :: f in NodeFiles(prefix, nodes) && f.name == x) <==> exists n :: n in nodes && x == NodeFile(prefix, n)
  {
    var files := NodeFiles(prefix, nodes);
    if n :| n in nodes && x == NodeFile(prefix, n) {
      var i :| 0 <= i < |nodes| && nodes[i] == n;
      assert files[i] in files;
    }
  }

  lemma NamesOfKinds(asJson: bool, kinds: seq<string>, x: string)
    ensures (exists f :: f in KindFiles(asJson, kinds) && f.name == x) <==> exists k :: k in kinds && x == KindFile(asJson, k)
  {
    var files := KindFiles(asJson, kinds);
    if k :| k in kinds && x == KindFile(asJson, k) {
      var i :| 0 <= i < |kinds| && kinds[i] == k;
      assert files[i] in files;
    }
  }

  lemma NamesOfSorted(asJson: bool, baselines: seq<string>, kinds: seq<string>, stats: seq<string>, time: int, x: string)
    ensures x in (set f | f in Sorted(asJson, baselines, kinds, stats, time) :: f.name)
            <==> || x == AGENT_FILE_NAME
                 || (exists n :: n in baselines && x == NodeFile(BASELINE, n))
                 || (exists k :: k in kinds && x == KindFile(asJson, k))
                 || (exists n :: n in stats && x == NodeFile(STATS, n))
  {
    var a, b, c, d := [File(AGENT_FILE_NAME, Some(time))], NodeFiles(BASELINE, baselines),
                      KindFiles(asJson, kinds), NodeFiles(STATS, stats);
    NamesOfNodes(BASELINE, baselines, x);
    NamesOfNodes(STATS, stats, x);
    NamesOfKinds(asJson, kinds, x);
    assert forall f :: f in a + b + c + d <==> f in a || f in b || f in c || f in d;
    assert x == AGENT_FILE_NAME ==> a[0] in a + b + c + d;
  }

  /** The files of that directory are those of the listing. */
  lemma ListingNames(asJson: bool, sample: E.Sample, baselines: seq<string>, stats: seq<string>, time: int, x: string)
    requires sample.objects.Keys == E.OBJECT_FILES && sample.agent == Some(time)
    requires Enumerates(baselines, sample.baseline.Keys) && Enumerates(stats, sample.stats.Keys)
    ensures x in (set f | f in Listing(asJson, baselines, stats, time) :: f.name) <==> x in FileNames(asJson, sample)
  {
    NamesOfSorted(asJson, baselines, KINDS, stats, time, x);
    SameMembers(baselines, sample.baseline.Keys);
    SameMembers(stats, sample.stats.Keys);
    KindsAreObjects(sample.objects.Keys);
    NamesOfSample(asJson, sample, baselines, KINDS, stats, x);
  }

  lemma FileFor(asJson: bool, sample: E.Sample, w: string) returns (name: string)
    requires w in REQUIRED_FILES
    requires E.OBJECT_FILES <= sample.objects.Keys && sample.agent.Some?
    requires sample.stats != map[] && sample.baseline != map[]
    ensures name in FileNames(asJson, sample) && Contains(name, w)
  {
    RequiredFilesByKind(w);
    NamesStart(asJson, w);
    if w in E.OBJECT_FILES {
      name := KindFile(asJson, w);
    } else if w == AGENT_FILE {
      name := AGENT_FILE_NAME;
    } else if w == STATS {
      var node :| node in sample.stats;
      NodeFileStarts(STATS, node);
      name := NodeFile(STATS, node);
    } else {
      var node :| node in sample.baseline;
      NodeFileStarts(BASELINE, node);
      name := NodeFile(BASELINE, node);
    }
  }

  /** Whatever other files are beside them, those of a shipped sample are all that recovery asks for. */
  lemma ShippedIsComplete(c: Context, dir: Path, files: seq<Node>, asJson: bool, shipped: seq<E.Sample>,
                          found: seq<E.Sample>, ticks: seq<E.Snapshot>, without: nat, i: nat)
    requires c.required == REQUIRED_FILES
    requires E.Matches(asJson, shipped, found, ticks, without) && without < i < |shipped|
    requires ticks[i].nodes != [] && ticks[i - 1].nodes != [] && ticks[i].objects.Keys == E.OBJECT_FILES
    requires forall name :: name in FileNames(asJson, shipped[i]) ==> exists f :: f in files && f.name == name
    ensures Missing(c, dir, files) == {}
  {
    var sample := shipped[i];
    assert ticks[..i][i - 1] == ticks[i - 1];
    E.LastNodeHasStats(ticks[i].nodes);
    E.LastNodeHasStats(ticks[i - 1].nodes);
    assert E.ObjectFiles(asJson, ticks[i].objects).Keys == E.OBJECT_FILES;
    forall w | w in REQUIRED_FILES ensures exists f :: f in files && Matches(c.base, dir + [f.name], w) {
      var name := FileFor(asJson, sample, w);
      var f :| f in files && f.name == name;
      MatchesName(c.base, dir, name, w);
    }
  }
}
