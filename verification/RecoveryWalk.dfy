/** The one-pass walk over the scratch tree that recovers complete samples at start-up. */
module RecoveryWalk {
  import opened Wrappers
  import opened Collections
  import opened Substrings

  type Path = seq<string>

  const AGENT_FILE := "agent-measurement"

  const REQUIRED_FILES: set<string> :=
    {"baseline-summary", "stats-summary", "statefulsets", "services", "replicationcontrollers", "replicasets",
     "pods", "persistentvolumes", "persistentvolumeclaims", "nodes", "namespaces", "jobs", "deployments",
     "daemonsets", AGENT_FILE}

  /** A scratch entry. `timestamp` is what parsing a file as an agent measurement would give. */
  datatype Node =
    | File(name: string, timestamp: Option<int>)
    | Dir(name: string, children: seq<Node>)

  datatype Sample = Sample(dir: Path, time: int)

  /** The variables the walk captures, what it has removed from disk and what it has packed. */
  datatype WalkState = WalkState(
    currentDir: Option<Path>,
    sampleTime: int,
    hasShipped: bool,
    filesNeeded: set<string>,
    removed: set<Path>,
    packed: seq<Sample>,
    failed: bool)

  function FullName(base: string, path: Path): string {
    if path == [] then base else FullName(base, path[..|path| - 1]) + "/" + path[|path| - 1]
  }

  /** strings.Contains on the whole path of the entry. */
  predicate Matches(base: string, path: Path, word: string) {
    Contains(FullName(base, path), word)
  }

  /** RemoveAll takes everything below a path with it. */
  ghost predicate Exists(removed: set<Path>, path: Path) {
    forall r :: r in removed ==> !(r <= path)
  }

  /**
   * Where the walk runs, the names it asks for, and which of several needed names that the path of a
   * file contains their map yields first, which may be another one for every file.
   */
  datatype Context = Context(base: string, required: set<string>, first: (Path, set<string>) -> string)
  {
    ghost predicate Valid() {
      && AGENT_FILE in required
      && forall path: Path, words: set<string> :: words != {} ==> first(path, words) in words
    }
  }

  /** The walk of the source asks for REQUIRED_FILES. */
  lemma SourceContext(base: string, first: (Path, set<string>) -> string)
    requires forall path: Path, words: set<string> :: words != {} ==> first(path, words) in words
    ensures Context(base, REQUIRED_FILES, first).Valid()
  {
    assert AGENT_FILE[0] == 'a';
  }

  function Start(c: Context): WalkState {
    WalkState(None, 0, false, c.required, {}, [], false)
  }

  function Candidates(c: Context, needed: set<string>, path: Path): set<string> {
    set w | w in needed && Matches(c.base, path, w)
  }

  /** At most one needed name is crossed off for a file, the first that its path contains. */
  function CrossOff(c: Context, needed: set<string>, path: Path): set<string> {
    var words := Candidates(c, needed, path);
    if words == {} then needed else needed - {c.first(path, words)}
  }

  // ---------- The callback, and the walk over it ----------

  ghost function VisitFile(c: Context, s: WalkState, path: Path, timestamp: Option<int>): WalkState {
    var agent := Matches(c.base, path, AGENT_FILE);
    if agent && (timestamp.None? || !Exists(s.removed, path)) then s.(failed := true)
    else
      Ship(s.(sampleTime := if agent then timestamp.value else s.sampleTime,
              filesNeeded := CrossOff(c, s.filesNeeded, path)))
  }

  /**
   * Packs the current directory, and with it deletes it, once nothing is needed any more. With no
   * current directory the empty path is cleaned to ".", which cannot be deleted: the walk fails.
   */
  function Ship(s: WalkState): WalkState {
    if s.filesNeeded != {} || s.hasShipped then s
    else if s.currentDir == None then s.(hasShipped := true, failed := true)
    else
      s.(hasShipped := true,
         packed := s.packed + [Sample(s.currentDir.value, s.sampleTime)],
         removed := s.removed + {s.currentDir.value})
  }

  function VisitDir(c: Context, s: WalkState, path: Path): WalkState {
    if s.filesNeeded == {} && !s.hasShipped then Ship(s)
    else if s.currentDir == None then s.(currentDir := Some(path))
    else if s.currentDir.value != path then
      s.(removed := s.removed + {s.currentDir.value}, filesNeeded := c.required,
         currentDir := Some(path), hasShipped := false)
    else s
  }

  /** filepath.WalkDir below one entry: a directory that is gone when it is to be read ends the walk. */
  ghost function Walk(c: Context, s: WalkState, path: Path, node: Node): WalkState
    decreases node, 1
  {
    if s.failed then s else
    match node
    case File(name, timestamp) => VisitFile(c, s, path + [name], timestamp)
    case Dir(name, children) =>
      var visited := VisitDir(c, s, path + [name]);
      if visited.failed || !Exists(visited.removed, path + [name]) then visited.(failed := true)
      else WalkAll(c, visited, path + [name], children)
  }

  ghost function WalkAll(c: Context, s: WalkState, path: Path, nodes: seq<Node>): WalkState
    decreases nodes, 0
  {
    if nodes == [] then s
    else Walk(c, WalkAll(c, s, path, nodes[..|nodes| - 1]), path, nodes[|nodes| - 1])
  }

  /** After the walk, failed or not, a directory that was not packed is deleted. */
  function Finish(s: WalkState): WalkState {
    if !s.hasShipped && s.currentDir.Some? then s.(removed := s.removed + {s.currentDir.value}) else s
  }

  ghost function Recovered(c: Context, tree: seq<Node>): WalkState {
    Finish(WalkAll(c, Start(c), [], tree))
  }

  // ---------- The walk as the source runs it ----------

  class Recovery {
    const c: Context
    var s: WalkState

    constructor (c: Context)
      ensures this.c == c && s == Start(c)
    {
      this.c := c;
      s := Start(c);
    }

    method Visit(path: Path, node: Node, present: bool)
      requires !s.failed && (present <==> Exists(s.removed, path))
      modifies this
      ensures s == match node
                   case File(_, timestamp) => VisitFile(c, old(s), path, timestamp)
                   case Dir(_, _) => VisitDir(c, old(s), path)
    {
      if node.File? {
        if Matches(c.base, path, AGENT_FILE) {
          if !present || node.timestamp.None? {
            s := s.(failed := true);
            return;
          }
          s := s.(sampleTime := node.timestamp.value);
        }
        s := s.(filesNeeded := CrossOff(c, s.filesNeeded, path));
      }
      if s.filesNeeded == {} && !s.hasShipped {
        s := s.(hasShipped := true);
        if s.currentDir == None {
          s := s.(failed := true);
          return;
        }
        s := s.(packed := s.packed + [Sample(s.currentDir.value, s.sampleTime)],
                removed := s.removed + {s.currentDir.value});
        return;
      }
      if node.Dir? {
        if s.currentDir == None {
          s := s.(currentDir := Some(path));
        }
        if s.currentDir.value != path {
          s := s.(removed := s.removed + {s.currentDir.value});
          s := s.(filesNeeded := c.required, currentDir := Some(path), hasShipped := false);
        }
      }
    }

    method StillThere(path: Path) returns (present: bool)
      ensures present <==> Exists(s.removed, path)
    {
      present := true;
      for i := 0 to |path| + 1
        invariant present <==> forall j :: 0 <= j < i ==> path[..j] !in s.removed
      {
        if path[..i] in s.removed {
          present := false;
        }
      }
      forall r | r in s.removed && r <= path ensures !present {
        assert r == path[..|r|];
      }
      if !present {
        var j :| 0 <= j < |path| + 1 && path[..j] in s.removed;
        assert path[..j] <= path;
      }
    }

    method WalkDir(path: Path, node: Node)
      modifies this
      ensures s == Walk(c, old(s), path, node)
      decreases node, 1
    {
      if s.failed {
        return;
      }
      var here := path + [node.name];
      var present := StillThere(here);
      Visit(here, node, present);
      if node.Dir? && !s.failed {
        present := StillThere(here);
        if !present {
          s := s.(failed := true);
        } else {
          WalkChildren(here, node.children);
        }
      }
    }

    method WalkChildren(path: Path, nodes: seq<Node>)
      modifies this
      ensures s == WalkAll(c, old(s), path, nodes)
      decreases nodes, 0
    {
      for i := 0 to |nodes|
        invariant s == WalkAll(c, old(s), path, nodes[..i])
      {
        assert nodes[..i + 1][..i] == nodes[..i];
        WalkDir(path, nodes[i]);
      }
      assert nodes[..|nodes|] == nodes;
    }

    /**
     * The outcome of the final deletion, of nothing if there is no directory, takes the place of the
     * walk's error: a failed walk is reported if and only if its last directory was packed.
     */
    method RecoverCompleteSamples(tree: seq<Node>) returns (error: bool)
      requires s == Start(c)
      modifies this
      ensures s == Recovered(c, tree)
      ensures error <==> s.failed && s.hasShipped
    {
      WalkChildren([], tree);
      error := s.failed;
      if !s.hasShipped {
        if s.currentDir.Some? {
          s := s.(removed := s.removed + {s.currentDir.value});
        }
        error := false;
      }
    }
  }

  // ---------- What it recovers from a flat tree ----------

  predicate AllFiles(nodes: seq<Node>) {
    forall n :: n in nodes ==> n.File?
  }

  /** The required names that no file of a directory accounts for. */
  function Missing(c: Context, dir: Path, files: seq<Node>): set<string> {
    Unaccounted(c.base, c.required, dir, files)
  }

  function Unaccounted(base: string, required: set<string>, dir: Path, files: seq<Node>): set<string> {
    set w | w in required && !exists f :: f in files && Matches(base, dir + [f.name], w)
  }

  /** What is still needed after the files of a directory. */
  function Needed(c: Context, dir: Path, files: seq<Node>): set<string> {
    if files == [] then c.required
    else CrossOff(c, Needed(c, dir, files[..|files| - 1]), dir + [files[|files| - 1].name])
  }

  /**
   * File i ends the walk in an error: it is taken for an agent measurement and cannot be read as one, or
   * its directory has by then been packed, and with that deleted.
   */
  predicate Stops(c: Context, dir: Path, files: seq<Node>, i: nat)
    requires AllFiles(files) && i < |files|
  {
    && Matches(c.base, dir + [files[i].name], AGENT_FILE)
    && (files[i].timestamp.None? || Needed(c, dir, files[..i]) == {})
  }

  /** The first file from the given one on that ends the walk, or the end of the directory. */
  function FirstStop(c: Context, dir: Path, files: seq<Node>, from: nat): (n: nat)
    requires AllFiles(files) && from <= |files|
    ensures from <= n <= |files|
    ensures forall i :: from <= i < n ==> !Stops(c, dir, files, i)
    ensures n < |files| ==> Stops(c, dir, files, n)
    decreases |files| - from
  {
    if from == |files| || Stops(c, dir, files, from) then from else FirstStop(c, dir, files, from + 1)
  }

  predicate ReadThrough(c: Context, d: Node)
    requires d.Dir? && AllFiles(d.children)
  {
    FirstStop(c, [d.name], d.children, 0) == |d.children|
  }

  /** The files of a directory that the walk gets through. */
  function FilesRead(c: Context, d: Node): (files: seq<Node>)
    requires d.Dir? && AllFiles(d.children)
    ensures AllFiles(files)
  {
    d.children[..FirstStop(c, [d.name], d.children, 0)]
  }

  /** A tree of differently named directories that hold files only. */
  predicate Flat(tree: seq<Node>) {
    && (forall d :: d in tree ==> d.Dir? && AllFiles(d.children))
    && (forall i, j :: 0 <= i < j < |tree| ==> tree[i].name != tree[j].name)
  }

  /** The first directory from the given one on in which the walk stops, or the end of the tree. */
  function FirstBlocked(c: Context, tree: seq<Node>, from: nat): (n: nat)
    requires Flat(tree) && from <= |tree|
    ensures from <= n <= |tree|
    ensures forall i :: from <= i < n ==> ReadThrough(c, tree[i])
    ensures n < |tree| ==> !ReadThrough(c, tree[n])
    decreases |tree| - from
  {
    if from == |tree| || !ReadThrough(c, tree[from]) then from else FirstBlocked(c, tree, from + 1)
  }

  /** The time of a directory's agent measurement, if it has one. */
  function SampleTime(c: Context, dir: Path, files: seq<Node>, before: int): int
    requires AllFiles(files)
  {
    if files == [] then before
    else
      var last := files[|files| - 1];
      if Matches(c.base, dir + [last.name], AGENT_FILE) && last.timestamp.Some? then last.timestamp.value
      else SampleTime(c, dir, files[..|files| - 1], before)
  }

  /** The simple specification: the directories with every required file, in order. */
  function CompleteSamples(c: Context, tree: seq<Node>): seq<Sample>
    requires Flat(tree)
  {
    if tree == [] then []
    else
      var d := tree[|tree| - 1];
      CompleteSamples(c, tree[..|tree| - 1])
      + if Missing(c, [d.name], d.children) == {} then [Sample([d.name], SampleTime(c, [d.name], d.children, 0))] else []
  }

  /** What becomes of a directory that the walk gets as far as: packed once nothing is needed any more. */
  function PackedOf(c: Context, d: Node): seq<Sample>
    requires d.Dir? && AllFiles(d.children)
  {
    if Needed(c, [d.name], FilesRead(c, d)) == {}
    then [Sample([d.name], SampleTime(c, [d.name], FilesRead(c, d), 0))] else []
  }

  /** The same of directories in order. */
  function PackedSamples(c: Context, tree: seq<Node>): seq<Sample>
    requires Flat(tree)
  {
    if tree == [] then [] else PackedSamples(c, tree[..|tree| - 1]) + PackedOf(c, tree[|tree| - 1])
  }

  lemma CrossOffIsCautious(c: Context, needed: set<string>, dir: Path, files: seq<Node>, i: nat)
    requires c.Valid() && i < |files| && Missing(c, dir, files[..i]) <= needed
    ensures Missing(c, dir, files[..i + 1]) <= CrossOff(c, needed, dir + [files[i].name])
    ensures |needed| <= |CrossOff(c, needed, dir + [files[i].name])| + 1
  {
    assert files[..i + 1] == files[..i] + [files[i]];
    var words := Candidates(c, needed, dir + [files[i].name]);
    if words != {} {
      assert c.first(dir + [files[i].name], words) in words;
    }
  }

  /** A name that no file accounts for is needed. */
  lemma {:induction false} MissingIsNeeded(c: Context, dir: Path, files: seq<Node>)
    requires c.Valid()
    ensures Missing(c, dir, files) <= Needed(c, dir, files)
  {
    if files != [] {
      var n := |files| - 1;
      MissingIsNeeded(c, dir, files[..n]);
      assert files[..n + 1] == files;
      CrossOffIsCautious(c, Needed(c, dir, files[..n]), dir, files, n);
    }
  }

  /** Under way inside one directory of a flat tree. */
  ghost predicate Inside(c: Context, s0: WalkState, s: WalkState, dir: Path, seen: seq<Node>)
    requires AllFiles(seen)
  {
    var done := Needed(c, dir, seen) == {};
    && !s.failed && s.currentDir == Some(dir)
    && s.filesNeeded == Needed(c, dir, seen)
    && s.hasShipped == done
    && s.sampleTime == SampleTime(c, dir, seen, s0.sampleTime)
    && s.removed == s0.removed + (if done then {dir} else {})
    && (!done ==> s.packed == s0.packed)
  }

  ghost predicate Packed(c: Context, s0: WalkState, s: WalkState, dir: Path, files: seq<Node>)
    requires AllFiles(files)
  {
    Needed(c, dir, files) == {} ==> s.packed == s0.packed + [Sample(dir, SampleTime(c, dir, files, s0.sampleTime))]
  }

  lemma SampleTimeNext(c: Context, dir: Path, files: seq<Node>, i: nat, before: int)
    requires AllFiles(files) && i < |files|
    requires Matches(c.base, dir + [files[i].name], AGENT_FILE) ==> files[i].timestamp.Some?
    ensures AllFiles(files[..i]) && AllFiles(files[..i + 1])
    ensures SampleTime(c, dir, files[..i + 1], before)
            == if Matches(c.base, dir + [files[i].name], AGENT_FILE) then files[i].timestamp.value
               else SampleTime(c, dir, files[..i], before)
  {
    assert files[..i + 1] == files[..i] + [files[i]];
    assert files[..i + 1][..i] == files[..i];
    assert files[i] in files;
  }

  lemma FileWalked(c: Context, s0: WalkState, s: WalkState, dir: Path, files: seq<Node>, i: nat)
    requires c.Valid() && AllFiles(files) && i < |files| && !Stops(c, dir, files, i)
    requires Inside(c, s0, s, dir, files[..i]) && Packed(c, s0, s, dir, files[..i])
    requires Exists(s0.removed, dir + [files[i].name])
    ensures AllFiles(files[..i + 1])
    ensures Inside(c, s0, Walk(c, s, dir, files[i]), dir, files[..i + 1])
    ensures Packed(c, s0, Walk(c, s, dir, files[i]), dir, files[..i + 1])
  {
    assert files[..i + 1][..i] == files[..i] && files[i] in files;
    assert Matches(c.base, dir + [files[i].name], AGENT_FILE) ==> files[i].timestamp.Some?;
    SampleTimeNext(c, dir, files, i, s0.sampleTime);
  }

  lemma {:induction false} FilesWalked(c: Context, s0: WalkState, dir: Path, files: seq<Node>, i: nat)
    requires c.Valid() && AllFiles(files) && i <= FirstStop(c, dir, files, 0)
    requires Inside(c, s0, s0, dir, []) && Exists(s0.removed, dir)
    requires forall f :: f in files ==> Exists(s0.removed, dir + [f.name])
    ensures AllFiles(files[..i])
    ensures Inside(c, s0, WalkAll(c, s0, dir, files[..i]), dir, files[..i])
    ensures Packed(c, s0, WalkAll(c, s0, dir, files[..i]), dir, files[..i])
  {
    if i == 0 {
      assert files[..0] == [];
    } else {
      FilesWalked(c, s0, dir, files, i - 1);
      assert files[..i][..i - 1] == files[..i - 1];
      FileWalked(c, s0, WalkAll(c, s0, dir, files[..i - 1]), dir, files, i - 1);
    }
  }

  lemma {:induction false} FailureStays(c: Context, s: WalkState, path: Path, nodes: seq<Node>, i: nat)
    requires i <= |nodes| && WalkAll(c, s, path, nodes[..i]).failed
    ensures WalkAll(c, s, path, nodes) == WalkAll(c, s, path, nodes[..i])
    decreases |nodes| - i
  {
    if i < |nodes| {
      assert nodes[..i + 1][..i] == nodes[..i];
      FailureStays(c, s, path, nodes, i + 1);
    } else {
      assert nodes[..i] == nodes;
    }
  }

  /** A file that ends the walk does nothing else. */
  lemma FileStops(c: Context, s0: WalkState, s: WalkState, dir: Path, files: seq<Node>, i: nat)
    requires AllFiles(files) && i < |files| && Stops(c, dir, files, i)
    requires AllFiles(files[..i]) && Inside(c, s0, s, dir, files[..i])
    ensures Walk(c, s, dir, files[i]) == s.(failed := true)
  {
    assert files[i] in files;
    if Needed(c, dir, files[..i]) == {} {
      assert dir in s.removed && dir <= dir + [files[i].name];
    }
  }

  /** All files of a directory from a state in which it has just been entered. */
  lemma FilesWalkedToStop(c: Context, s0: WalkState, d: Node)
    requires c.Valid() && d.Dir? && AllFiles(d.children)
    requires Inside(c, s0, s0, [d.name], []) && Exists(s0.removed, [d.name])
    requires forall f :: f in d.children ==> Exists(s0.removed, [d.name] + [f.name])
    ensures
      var s := WalkAll(c, s0, [d.name], FilesRead(c, d));
      && Inside(c, s0, s, [d.name], FilesRead(c, d)) && Packed(c, s0, s, [d.name], FilesRead(c, d))
      && WalkAll(c, s0, [d.name], d.children) == if ReadThrough(c, d) then s else s.(failed := true)
  {
    var dir, files := [d.name], d.children;
    var n := FirstStop(c, dir, files, 0);
    FilesWalked(c, s0, dir, files, n);
    var s := WalkAll(c, s0, dir, files[..n]);
    if n < |files| {
      FileStops(c, s0, s, dir, files, n);
      assert files[..n + 1][..n] == files[..n];
      assert WalkAll(c, s0, dir, files[..n + 1]) == Walk(c, s, dir, files[n]);
      FailureStays(c, s0, dir, files, n + 1);
    } else {
      assert files[..n] == files;
    }
  }

  /** Without a needed name left an agent measurement has been read, whatever was read before. */
  lemma {:induction false} SampleTimeIsOwn(c: Context, dir: Path, files: seq<Node>, before: int)
    requires AllFiles(files)
    requires forall f :: f in files && Matches(c.base, dir + [f.name], AGENT_FILE) ==> f.timestamp.Some?
    requires AGENT_FILE in c.required && AGENT_FILE !in Missing(c, dir, files)
    ensures SampleTime(c, dir, files, before) == SampleTime(c, dir, files, 0)
  {
    if files != [] {
      var i := |files| - 1;
      assert files[..i + 1] == files && files[i] in files;
      SampleTimeNext(c, dir, files, i, before);
      SampleTimeNext(c, dir, files, i, 0);
      if !Matches(c.base, dir + [files[i].name], AGENT_FILE) {
        assert forall f :: f in files ==> f in files[..i] || f == files[i];
        SampleTimeIsOwn(c, dir, files[..i], before);
      }
    }
  }

  function Names(tree: seq<Node>): set<Path> {
    set d | d in tree :: [d.name]
  }

  /** Between two directories of a flat tree: everything before is gone, except a last incomplete one. */
  ghost predicate Between(c: Context, done: seq<Node>, s: WalkState)
    requires Flat(done)
  {
    if done == [] then s == Start(c)
    else
      var d := done[|done| - 1];
      && !s.failed && s.currentDir == Some([d.name])
      && s.filesNeeded == Needed(c, [d.name], d.children)
      && (s.hasShipped <==> s.filesNeeded == {})
      && s.packed == PackedSamples(c, done)
      && Finish(s).removed == Names(done)
      && s.removed <= Names(done)
  }

  /** Ended in the directory after these: it is deleted, or packed and with that deleted. */
  ghost predicate EndedIn(c: Context, done: seq<Node>, d: Node, s: WalkState)
    requires Flat(done) && d.Dir? && AllFiles(d.children)
  {
    && s.failed && s.currentDir == Some([d.name])
    && (s.hasShipped <==> PackedOf(c, d) != [])
    && s.packed == PackedSamples(c, done) + PackedOf(c, d)
    && Finish(s).removed == Names(done) + {[d.name]}
  }

  lemma DirectoryEntered(c: Context, done: seq<Node>, s: WalkState, d: Node)
    requires c.Valid() && Flat(done) && Flat(done + [d]) && Between(c, done, s)
    ensures
      var s1 := VisitDir(c, s, [d.name]);
      && Inside(c, s1, s1, [d.name], [])
      && s1.removed == Names(done) && s1.packed == PackedSamples(c, done)
      && Exists(s1.removed, [d.name])
      && (forall f :: f in d.children ==> Exists(s1.removed, [d.name] + [f.name]))
  {
    var s1 := VisitDir(c, s, [d.name]);
    assert Needed(c, [d.name], []) == c.required;
    forall e | e in done ensures e.name != d.name {
      var i :| 0 <= i < |done| && done[i] == e;
      assert (done + [d])[i] == e && (done + [d])[|done|] == d;
    }
    if done != [] {
      assert done[|done| - 1] in done;
      assert s.currentDir.value != [d.name];
    } else {
      assert Names(done) == {};
    }
    assert s1.removed == Names(done);
    forall r | r in Names(done) ensures |r| == 1 && r[0] != d.name {}
  }

  /** The time of what is packed is its own. */
  lemma PackedAsRead(c: Context, s0: WalkState, s: WalkState, d: Node)
    requires c.Valid() && d.Dir? && AllFiles(d.children)
    requires Inside(c, s0, s, [d.name], FilesRead(c, d)) && Packed(c, s0, s, [d.name], FilesRead(c, d))
    ensures s.packed == s0.packed + PackedOf(c, d)
    ensures s.hasShipped <==> PackedOf(c, d) != []
    ensures Finish(s).removed == s0.removed + {[d.name]}
  {
    var dir, read := [d.name], FilesRead(c, d);
    MissingIsNeeded(c, dir, read);
    if Needed(c, dir, read) == {} {
      forall f | f in read && Matches(c.base, dir + [f.name], AGENT_FILE) ensures f.timestamp.Some? {
        var i :| 0 <= i < |read| && read[i] == f;
        assert !Stops(c, dir, d.children, i);
      }
      SampleTimeIsOwn(c, dir, read, s0.sampleTime);
    }
  }

  lemma NextIsBetween(c: Context, done: seq<Node>, s1: WalkState, s: WalkState, d: Node)
    requires Flat(done) && Flat(done + [d]) && d.Dir? && AllFiles(d.children) && ReadThrough(c, d)
    requires Inside(c, s1, s, [d.name], FilesRead(c, d)) && s.packed == s1.packed + PackedOf(c, d)
    requires s1.removed == Names(done) && s1.packed == PackedSamples(c, done)
    ensures Between(c, done + [d], s)
  {
    var next := done + [d];
    assert next[..|done|] == done && next[|done|] == d && FilesRead(c, d) == d.children;
    assert Names(next) == Names(done) + {[d.name]};
  }

  lemma DirectoryWalked(c: Context, done: seq<Node>, s: WalkState, d: Node)
    requires c.Valid() && Flat(done) && Flat(done + [d]) && Between(c, done, s)
    ensures d.Dir? && AllFiles(d.children)
    ensures if ReadThrough(c, d) then Between(c, done + [d], Walk(c, s, [], d)) else EndedIn(c, done, d, Walk(c, s, [], d))
  {
    var dir, next := [d.name], done + [d];
    assert next[|done|] == d && d in next && [] + [d.name] == dir;
    DirectoryEntered(c, done, s, d);
    var s1 := VisitDir(c, s, dir);
    FilesWalkedToStop(c, s1, d);
    var s2 := WalkAll(c, s1, dir, FilesRead(c, d));
    PackedAsRead(c, s1, s2, d);
    assert Walk(c, s, [], d) == WalkAll(c, s1, dir, d.children);
    if ReadThrough(c, d) {
      NextIsBetween(c, done, s1, s2, d);
    }
  }

  lemma {:induction false} DirectoriesWalked(c: Context, tree: seq<Node>, n: nat)
    requires c.Valid() && Flat(tree) && n <= FirstBlocked(c, tree, 0)
    ensures Flat(tree[..n])
    ensures Between(c, tree[..n], WalkAll(c, Start(c), [], tree[..n]))
  {
    if n == 0 {
      assert tree[..0] == [];
    } else {
      DirectoriesWalked(c, tree, n - 1);
      assert tree[..n] == tree[..n - 1] + [tree[n - 1]];
      assert tree[..n][..n - 1] == tree[..n - 1];
      DirectoryWalked(c, tree[..n - 1], WalkAll(c, Start(c), [], tree[..n - 1]), tree[n - 1]);
    }
  }

  lemma DirectoriesWalkedTo(c: Context, tree: seq<Node>, n: nat)
    requires c.Valid() && Flat(tree) && n == FirstBlocked(c, tree, 0) < |tree|
    ensures Flat(tree[..n]) && EndedIn(c, tree[..n], tree[n], WalkAll(c, Start(c), [], tree))
  {
    DirectoriesWalked(c, tree, n);
    assert tree[..n + 1] == tree[..n] + [tree[n]];
    assert tree[..n + 1][..n] == tree[..n];
    DirectoryWalked(c, tree[..n], WalkAll(c, Start(c), [], tree[..n]), tree[n]);
    FailureStays(c, Start(c), [], tree, n + 1);
  }

  /** Removed are the directories up to the given number, and no others. */
  lemma RemovedUpTo(tree: seq<Node>, removed: set<Path>, n: nat, k: nat)
    requires Flat(tree) && n <= |tree| && k < |tree| && removed == Names(tree[..n])
    ensures Exists(removed, [tree[k].name]) <==> n <= k
  {
    if k < n {
      assert tree[k] in tree[..n] && [tree[k].name] in removed;
      assert [tree[k].name] <= [tree[k].name];
    } else {
      forall r | r in removed ensures !(r <= [tree[k].name]) {
        var i :| 0 <= i < n && r == [tree[i].name];
        assert r[0] != tree[k].name;
      }
    }
  }

  lemma NamesNext(tree: seq<Node>, n: nat)
    requires n < |tree|
    ensures Names(tree[..n + 1]) == Names(tree[..n]) + {[tree[n].name]}
  {
    assert tree[..n + 1] == tree[..n] + [tree[n]];
  }

  /** How the walk over a flat tree ends, and the names of the directories that it has removed. */
  lemma FlatTreeEnds(c: Context, tree: seq<Node>)
    requires c.Valid() && Flat(tree)
    ensures
      var s, n := Recovered(c, tree), FirstBlocked(c, tree, 0);
      && Flat(tree[..n])
      && (s.failed <==> n < |tree|)
      && s.packed == PackedSamples(c, tree[..n]) + (if n < |tree| then PackedOf(c, tree[n]) else [])
      && (s.failed && s.hasShipped <==> n < |tree| && PackedOf(c, tree[n]) != [])
      && s.removed == Names(tree[..if n < |tree| then n + 1 else n])
  {
    var n := FirstBlocked(c, tree, 0);
    if n < |tree| {
      DirectoriesWalkedTo(c, tree, n);
      NamesNext(tree, n);
    } else {
      DirectoriesWalked(c, tree, n);
      assert tree[..n] == tree;
    }
  }

  /**
   * The walk over any flat scratch tree. It fails if and only if it stops in some directory. Those
   * before are packed as far as nothing is needed after them, the one in which it stops if nothing is
   * needed any more by then; all of these are gone, and those behind are as they were.
   */
  lemma FlatTreeWalked(c: Context, tree: seq<Node>)
    requires c.Valid() && Flat(tree)
    ensures
      var s, n := Recovered(c, tree), FirstBlocked(c, tree, 0);
      && Flat(tree[..n])
      && (s.failed <==> n < |tree|)
      && s.packed == PackedSamples(c, tree[..n]) + (if n < |tree| then PackedOf(c, tree[n]) else [])
      && (s.failed && s.hasShipped <==> n < |tree| && PackedOf(c, tree[n]) != [])
      && forall k :: 0 <= k < |tree| ==> (Exists(s.removed, [tree[k].name]) <==> n < k)
  {
    FlatTreeEnds(c, tree);
    var removed, n := Recovered(c, tree).removed, FirstBlocked(c, tree, 0);
    forall k | 0 <= k < |tree| ensures Exists(removed, [tree[k].name]) <==> n < k {
      RemovedUpTo(tree, removed, if n < |tree| then n + 1 else n, k);
    }
  }

  /** No file of the directory ends the walk. */
  ghost predicate NoneStops(c: Context, d: Node)
    requires d.Dir? && AllFiles(d.children)
  {
    forall i :: 0 <= i < |d.children| && Matches(c.base, [d.name] + [d.children[i].name], AGENT_FILE) ==>
      d.children[i].timestamp.Some? && Needed(c, [d.name], d.children[..i]) != {}
  }

  lemma ReadThroughExactly(c: Context, d: Node)
    requires d.Dir? && AllFiles(d.children)
    ensures ReadThrough(c, d) <==> NoneStops(c, d)
  {
    var n := FirstStop(c, [d.name], d.children, 0);
    if n < |d.children| {
      assert Stops(c, [d.name], d.children, n);
    }
    forall i | 0 <= i < |d.children| && Matches(c.base, [d.name] + [d.children[i].name], AGENT_FILE)
      ensures n == |d.children| ==> d.children[i].timestamp.Some? && Needed(c, [d.name], d.children[..i]) != {}
    {
      assert n == |d.children| ==> !Stops(c, [d.name], d.children, i);
    }
  }

  /** It comes through if and only if no file of any directory ends it. */
  lemma WalkEndsExactly(c: Context, tree: seq<Node>)
    requires c.Valid() && Flat(tree)
    ensures !Recovered(c, tree).failed <==> forall d :: d in tree ==> NoneStops(c, d)
  {
    FlatTreeWalked(c, tree);
    forall d | d in tree ensures ReadThrough(c, d) <==> NoneStops(c, d) {
      ReadThroughExactly(c, d);
    }
    var n := FirstBlocked(c, tree, 0);
    if n < |tree| {
      assert tree[n] in tree;
    } else {
      assert forall k :: 0 <= k < |tree| ==> ReadThrough(c, tree[k]);
    }
  }

  lemma StopsAtOnce(c: Context, d: Node)
    requires c.Valid() && d.Dir? && AllFiles(d.children) && d.children != [] && d.children[0].timestamp.None?
    requires Matches(c.base, [d.name] + [d.children[0].name], AGENT_FILE)
    ensures !ReadThrough(c, d) && PackedOf(c, d) == []
  {
    assert Stops(c, [d.name], d.children, 0) && FirstStop(c, [d.name], d.children, 0) == 0;
    assert FilesRead(c, d) == [] && Needed(c, [d.name], []) == c.required;
  }

  /**
   * After a crash that has left an empty agent measurement, first in its directory: the walk fails there
   * and packs nothing, later samples are not looked at, complete or not, and no error is reported.
   */
  lemma UnreadableAgentStops(c: Context, bad: Node, later: seq<Node>)
    requires c.Valid() && Flat([bad] + later) && bad.Dir? && bad.children != []
    requires Matches(c.base, [bad.name] + [bad.children[0].name], AGENT_FILE) && bad.children[0] == File(bad.children[0].name, None)
    ensures
      var s := Recovered(c, [bad] + later);
      && s.failed && s.packed == [] && !s.hasShipped
      && !Exists(s.removed, [bad.name])
      && forall d :: d in later ==> Exists(s.removed, [d.name])
  {
    var tree := [bad] + later;
    assert tree[0] == bad && bad in tree && bad.children[0] in bad.children;
    StopsAtOnce(c, bad);
    FlatTreeWalked(c, tree);
    assert FirstBlocked(c, tree, 0) == 0 && tree[..0] == [] && PackedSamples(c, []) == [];
    forall d | d in later ensures Exists(Recovered(c, tree).removed, [d.name]) {
      var k :| 0 <= k < |later| && later[k] == d;
      assert tree[k + 1] == d;
    }
  }

  /** One file at most matches the agent measurement's name, and it can be read as one. */
  ghost predicate AgentReadable(base: string, dir: Path, files: seq<Node>) {
    && AllFiles(files)
    && (forall i, j :: 0 <= i < j < |files| && Matches(base, dir + [files[i].name], AGENT_FILE) ==>
                         !Matches(base, dir + [files[j].name], AGENT_FILE))
    && (forall f :: f in files && Matches(base, dir + [f.name], AGENT_FILE) ==> f.timestamp.Some?)
  }

  /** Then it comes up while its directory is still needed, hence still there. */
  lemma ReadableDoesNotStop(c: Context, dir: Path, files: seq<Node>, i: nat)
    requires c.Valid() && AgentReadable(c.base, dir, files) && i < |files|
    ensures !Stops(c, dir, files, i)
  {
    assert files[i] in files;
    if Matches(c.base, dir + [files[i].name], AGENT_FILE) {
      forall f | f in files[..i] ensures !Matches(c.base, dir + [f.name], AGENT_FILE) {}
      assert AGENT_FILE in Missing(c, dir, files[..i]);
      MissingIsNeeded(c, dir, files[..i]);
    }
  }

  lemma ReadableIsReadThrough(c: Context, d: Node)
    requires c.Valid() && d.Dir? && AgentReadable(c.base, [d.name], d.children)
    ensures ReadThrough(c, d) && FilesRead(c, d) == d.children
  {
    var n := FirstStop(c, [d.name], d.children, 0);
    if n < |d.children| {
      ReadableDoesNotStop(c, [d.name], d.children, n);
    }
  }

  ghost predicate Lists(samples: seq<Sample>, dir: Path) {
    exists k :: 0 <= k < |samples| && samples[k].dir == dir
  }

  lemma FlatPrefix(tree: seq<Node>)
    requires Flat(tree) && tree != []
    ensures
      var before, last := tree[..|tree| - 1], tree[|tree| - 1];
      && last in tree && last.Dir? && AllFiles(last.children)
      && Flat(before) && [last.name] !in Names(before) && Names(tree) == Names(before) + {[last.name]}
      && forall d :: d in tree <==> d in before || d == last
  {
    assert tree == tree[..|tree| - 1] + [tree[|tree| - 1]];
  }

  lemma ListsSum(a: seq<Sample>, b: seq<Sample>, dir: Path)
    ensures Lists(a + b, dir) <==> Lists(a, dir) || Lists(b, dir)
  {
    if k :| 0 <= k < |a| && a[k].dir == dir {
      assert (a + b)[k] == a[k];
    }
    if k :| 0 <= k < |b| && b[k].dir == dir {
      assert (a + b)[|a| + k] == b[k];
    }
  }

  /** The specification lists no directory twice. */
  lemma {:induction false} CompleteSamplesOnce(c: Context, tree: seq<Node>)
    requires Flat(tree)
    ensures forall k, l :: 0 <= k < l < |CompleteSamples(c, tree)| ==>
      CompleteSamples(c, tree)[k].dir != CompleteSamples(c, tree)[l].dir
    ensures forall x :: x in CompleteSamples(c, tree) ==> x.dir in Names(tree)
  {
    if tree != [] {
      FlatPrefix(tree);
      CompleteSamplesOnce(c, tree[..|tree| - 1]);
    }
  }

  /** The specification itself: a directory is in it if and only if it misses nothing. */
  lemma {:induction false} CompleteSamplesExactly(c: Context, tree: seq<Node>, d: Node)
    requires Flat(tree) && d in tree
    ensures Lists(CompleteSamples(c, tree), [d.name]) <==> Missing(c, [d.name], d.children) == {}
  {
    FlatPrefix(tree);
    var before, last := tree[..|tree| - 1], tree[|tree| - 1];
    var added := if Missing(c, [last.name], last.children) == {}
                then [Sample([last.name], SampleTime(c, [last.name], last.children, 0))] else [];
    assert CompleteSamples(c, tree) == CompleteSamples(c, before) + added;
    ListsSum(CompleteSamples(c, before), added, [d.name]);
    if d == last {
      CompleteSamplesOnce(c, before);
      assert !Lists(CompleteSamples(c, before), [d.name]);
      assert added != [] ==> added[0].dir == [d.name];
    } else {
      CompleteSamplesExactly(c, before, d);
      assert [d.name] in Names(before);
    }
  }

  lemma PackedNext(c: Context, tree: seq<Node>, n: nat)
    requires Flat(tree) && 0 < n <= |tree|
    ensures Flat(tree[..n]) && Flat(tree[..n - 1]) && tree[n - 1].Dir? && AllFiles(tree[n - 1].children)
    ensures PackedSamples(c, tree[..n]) == PackedSamples(c, tree[..n - 1]) + PackedOf(c, tree[n - 1])
  {
    assert tree[..n][..n - 1] == tree[..n - 1] && tree[n - 1] in tree;
  }

  lemma PackedOfNames(c: Context, d: Node, dir: Path)
    requires d.Dir? && AllFiles(d.children)
    ensures Lists(PackedOf(c, d), dir) <==> dir == [d.name] && PackedOf(c, d) != []
  {
    if PackedOf(c, d) != [] {
      assert PackedOf(c, d)[0].dir == [d.name];
    }
  }

  lemma {:induction false} PackedSamplesNames(c: Context, tree: seq<Node>, dir: Path)
    requires Flat(tree)
    ensures Lists(PackedSamples(c, tree), dir) ==> dir in Names(tree)
  {
    if tree != [] {
      FlatPrefix(tree);
      var before, last := tree[..|tree| - 1], tree[|tree| - 1];
      PackedSamplesNames(c, before, dir);
      ListsSum(PackedSamples(c, before), PackedOf(c, last), dir);
      PackedOfNames(c, last, dir);
    }
  }

  /** The same of what is packed. */
  lemma {:induction false} PackedSamplesExactly(c: Context, tree: seq<Node>, d: Node)
    requires c.Valid() && Flat(tree) && d in tree
    ensures Lists(PackedSamples(c, tree), [d.name]) <==> PackedOf(c, d) != []
  {
    FlatPrefix(tree);
    var before, last := tree[..|tree| - 1], tree[|tree| - 1];
    ListsSum(PackedSamples(c, before), PackedOf(c, last), [d.name]);
    PackedOfNames(c, last, [d.name]);
    if d == last {
      PackedSamplesNames(c, before, [d.name]);
    } else {
      PackedSamplesExactly(c, before, d);
      assert [d.name] in Names(before);
    }
  }

  ghost predicate MissesNone(c: Context, d: Node)
    requires d.Dir? && AllFiles(d.children)
  {
    Missing(c, [d.name], d.children) == {} ==> Needed(c, [d.name], d.children) == {}
  }

  lemma PackedMissesNone(c: Context, tree: seq<Node>, d: Node)
    requires c.Valid() && Flat(tree) && d in tree && ReadThrough(c, d)
    ensures PackedSamples(c, tree) == CompleteSamples(c, tree) ==> MissesNone(c, d)
  {
    CompleteSamplesExactly(c, tree, d);
    PackedSamplesExactly(c, tree, d);
    assert FilesRead(c, d) == d.children;
  }

  lemma OnePacked(c: Context, d: Node)
    requires c.Valid() && d.Dir? && AllFiles(d.children) && ReadThrough(c, d) && MissesNone(c, d)
    ensures PackedOf(c, d) == if Missing(c, [d.name], d.children) == {}
                              then [Sample([d.name], SampleTime(c, [d.name], d.children, 0))] else []
  {
    assert FilesRead(c, d) == d.children;
    MissingIsNeeded(c, [d.name], d.children);
  }

  lemma {:induction false} AllPacked(c: Context, tree: seq<Node>)
    requires c.Valid() && Flat(tree) && forall d :: d in tree ==> ReadThrough(c, d) && MissesNone(c, d)
    ensures PackedSamples(c, tree) == CompleteSamples(c, tree)
  {
    if tree != [] {
      FlatPrefix(tree);
      AllPacked(c, tree[..|tree| - 1]);
      OnePacked(c, tree[|tree| - 1]);
    }
  }

  /** Of directories read through, every complete one is packed if and only if nothing is needed after any of them. */
  lemma PackedIsComplete(c: Context, tree: seq<Node>)
    requires c.Valid() && Flat(tree) && forall d :: d in tree ==> ReadThrough(c, d)
    ensures PackedSamples(c, tree) == CompleteSamples(c, tree) <==> forall d :: d in tree ==> MissesNone(c, d)
  {
    if forall d :: d in tree ==> MissesNone(c, d) {
      AllPacked(c, tree);
    }
    forall d | d in tree ensures PackedSamples(c, tree) == CompleteSamples(c, tree) ==> MissesNone(c, d) {
      PackedMissesNone(c, tree, d);
    }
  }

  // ---------- With any file names ----------

  ghost predicate IsComplete(c: Context, tree: seq<Node>, dir: Path) {
    exists d :: d in tree && d.Dir? && dir == [d.name] && Missing(c, dir, d.children) == {}
  }

  ghost predicate PackedComplete(c: Context, tree: seq<Node>, s: WalkState) {
    forall x :: x in s.packed ==> IsComplete(c, tree, x.dir)
  }

  /** Under way in a directory whose names may be ambiguous: more may be needed than is missing, never less. */
  ghost predicate Cautious(c: Context, s: WalkState, dir: Path, seen: seq<Node>) {
    s.failed
    || (&& s.currentDir == Some(dir)
        && (s.hasShipped || (&& Missing(c, dir, seen) <= s.filesNeeded
                             && |c.required| <= |s.filesNeeded| + |seen|))
        && (s.hasShipped <==> s.filesNeeded == {})
        && (s.hasShipped ==> Missing(c, dir, seen) == {} && |c.required| <= |seen|))
  }

  lemma MissingShrinks(c: Context, dir: Path, files: seq<Node>, i: nat)
    requires i < |files|
    ensures Missing(c, dir, files[..i + 1]) <= Missing(c, dir, files[..i])
  {
    assert files[..i + 1] == files[..i] + [files[i]];
  }

  lemma FileKeepsCautious(c: Context, s: WalkState, dir: Path, files: seq<Node>, i: nat)
    requires c.Valid() && AllFiles(files) && i < |files| && Cautious(c, s, dir, files[..i])
    ensures
      var s' := Walk(c, s, dir, files[i]);
      && Cautious(c, s', dir, files[..i + 1])
      && (s'.packed == s.packed || (s'.packed == s.packed + [Sample(dir, s'.sampleTime)] && s'.hasShipped && !s'.failed))
  {
    if !s.failed {
      var path := dir + [files[i].name];
      if s.hasShipped {
        MissingShrinks(c, dir, files, i);
        assert CrossOff(c, {}, path) == {};
      } else {
        CrossOffIsCautious(c, s.filesNeeded, dir, files, i);
      }
    }
  }

  lemma {:induction false} FilesKeepCautious(c: Context, tree: seq<Node>, s: WalkState, d: Node, i: nat)
    requires c.Valid() && Flat(tree) && d in tree && i <= |d.children|
    requires Cautious(c, s, [d.name], []) && PackedComplete(c, tree, s)
    ensures Cautious(c, WalkAll(c, s, [d.name], d.children[..i]), [d.name], d.children[..i])
    ensures PackedComplete(c, tree, WalkAll(c, s, [d.name], d.children[..i]))
  {
    var dir, files := [d.name], d.children;
    if i == 0 {
      assert files[..0] == [];
    } else {
      FilesKeepCautious(c, tree, s, d, i - 1);
      var s1 := WalkAll(c, s, dir, files[..i - 1]);
      FileKeepsCautious(c, s1, dir, files, i - 1);
      assert files[..i][..i - 1] == files[..i - 1];
      var s2 := WalkAll(c, s, dir, files[..i]);
      if s2.packed != s1.packed {
        assert Missing(c, dir, files) <= Missing(c, dir, files[..i]);
        assert IsComplete(c, tree, dir);
      }
    }
  }

  ghost predicate Consistent(c: Context, tree: seq<Node>, done: seq<Node>, s: WalkState) {
    && PackedComplete(c, tree, s)
    && (s.failed
        || (if done == [] then s == Start(c)
            else Steady(c, s) && s.currentDir.Some? && s.currentDir.value in Names(done)))
  }

  lemma {:induction false} PrefixPacksSoundly(c: Context, tree: seq<Node>, i: nat)
    requires c.Valid() && Flat(tree) && i <= |tree|
    ensures Consistent(c, tree, tree[..i], WalkAll(c, Start(c), [], tree[..i]))
  {
    if i == 0 {
      assert tree[..0] == [];
    } else {
      PrefixPacksSoundly(c, tree, i - 1);
      assert tree[..i][..i - 1] == tree[..i - 1];
      var s, d := WalkAll(c, Start(c), [], tree[..i - 1]), tree[i - 1];
      assert [] + [d.name] == [d.name] && d in tree[..i] && d in tree;
      if !s.failed {
        assert [d.name] !in Names(tree[..i - 1]);
        var s1 := VisitDir(c, s, [d.name]);
        assert Missing(c, [d.name], []) == c.required;
        FilesKeepCautious(c, tree, s1, d, |d.children|);
        assert d.children[..|d.children|] == d.children;
      }
    }
  }

  /**
   * Whatever the files are called and in whatever state the walk ends, a packed directory misses no
   * required file.
   */
  lemma PackedSamplesAreComplete(c: Context, tree: seq<Node>)
    requires c.Valid() && Flat(tree)
    ensures PackedComplete(c, tree, Recovered(c, tree))
  {
    PrefixPacksSoundly(c, tree, |tree|);
    assert tree[..|tree|] == tree;
  }

  lemma {:induction false} NotPackedBefore(c: Context, s: WalkState, d: Node, i: nat)
    requires c.Valid() && d.Dir? && AllFiles(d.children) && i <= |d.children| < |c.required|
    requires Cautious(c, s, [d.name], []) && s.packed == []
    ensures Cautious(c, WalkAll(c, s, [d.name], d.children[..i]), [d.name], d.children[..i])
    ensures WalkAll(c, s, [d.name], d.children[..i]).packed == []
  {
    if i == 0 {
      assert d.children[..0] == [];
    } else {
      NotPackedBefore(c, s, d, i - 1);
      FileKeepsCautious(c, WalkAll(c, s, [d.name], d.children[..i - 1]), [d.name], d.children, i - 1);
      assert d.children[..i][..i - 1] == d.children[..i - 1];
    }
  }

  /**
   * The converse does not hold: a file accounts for one required name at most, so with fewer
   * files than required names a directory is not packed even if it misses nothing.
   */
  lemma EachFileCountsOnce(c: Context, d: Node)
    requires c.Valid() && d.Dir? && AllFiles(d.children) && |d.children| < |c.required|
    ensures Recovered(c, [d]).packed == []
  {
    var tree, dir := [d], [d.name];
    assert tree[..0] == [] && [] + dir == dir && Missing(c, dir, []) == c.required;
    NotPackedBefore(c, VisitDir(c, Start(c), dir), d, |d.children|);
    assert d.children[..|d.children|] == d.children;
    assert WalkAll(c, Start(c), [], tree) == Walk(c, Start(c), [], d);
  }

  // ---------- Directories inside sample directories ----------

  /** What holds between two entries of any tree: a sample is packed as soon as it is complete. */
  ghost predicate Steady(c: Context, s: WalkState) {
    s.failed || (s.hasShipped <==> s.filesNeeded == {})
  }

  lemma {:induction false} FilesKeepDirectory(c: Context, s: WalkState, path: Path, files: seq<Node>)
    requires AllFiles(files) && Steady(c, s)
    ensures Steady(c, WalkAll(c, s, path, files))
    ensures WalkAll(c, s, path, files).failed || WalkAll(c, s, path, files).currentDir == s.currentDir
  {
    if files != [] {
      assert files[|files| - 1] in files;
      FilesKeepDirectory(c, s, path, files[..|files| - 1]);
    }
  }

  lemma FirstDirectory(nodes: seq<Node>, k: nat) returns (j: nat)
    requires k < |nodes| && nodes[k].Dir?
    ensures j <= k && nodes[j].Dir? && AllFiles(nodes[..j])
  {
    j := 0;
    while !nodes[j].Dir?
      invariant j <= k && AllFiles(nodes[..j])
      decreases k - j
    {
      assert nodes[..j + 1] == nodes[..j] + [nodes[j]];
      j := j + 1;
    }
  }

  /** Entering a directory of a directory deletes the latter, so that the former cannot be read. */
  lemma NestingFails(c: Context, s: WalkState, path: Path, d: Node, k: nat)
    requires c.Valid() && Steady(c, s) && d.Dir? && k < |d.children| && d.children[k].Dir?
    ensures Walk(c, s, path, d).failed
  {
    if !s.failed {
      var j := FirstDirectory(d.children, k);
      var dir := path + [d.name];
      var s1 := VisitDir(c, s, dir);
      if Exists(s1.removed, dir) {
        var files, inner := d.children[..j], dir + [d.children[j].name];
        FilesKeepDirectory(c, s1, dir, files);
        var s2 := WalkAll(c, s1, dir, files);
        assert d.children[..j + 1][..j] == files;
        if !s2.failed {
          assert dir in VisitDir(c, s2, inner).removed;
          assert dir <= inner;
        }
        FailureStays(c, s1, dir, d.children, j + 1);
      }
    }
  }

  lemma NodeIsSteady(c: Context, s: WalkState, path: Path, node: Node)
    requires c.Valid() && Steady(c, s)
    ensures Steady(c, Walk(c, s, path, node))
  {
    if !s.failed && node.Dir? {
      if k: nat :| k < |node.children| && node.children[k].Dir? {
        NestingFails(c, s, path, node, k);
      } else {
        FilesKeepDirectory(c, VisitDir(c, s, path + [node.name]), path + [node.name], node.children);
      }
    }
  }

  lemma {:induction false} PrefixIsSteady(c: Context, tree: seq<Node>, i: nat)
    requires c.Valid() && i <= |tree|
    ensures Steady(c, WalkAll(c, Start(c), [], tree[..i]))
  {
    if i > 0 {
      PrefixIsSteady(c, tree, i - 1);
      assert tree[..i][..i - 1] == tree[..i - 1];
      NodeIsSteady(c, WalkAll(c, Start(c), [], tree[..i - 1]), [], tree[i - 1]);
    }
  }

  /** A tree of directories and loose files is walked to the end only if no directory holds another. */
  lemma {:induction false} NestedTreeFails(c: Context, tree: seq<Node>, i: nat, k: nat)
    requires c.Valid() && i < |tree| && tree[i].Dir? && k < |tree[i].children| && tree[i].children[k].Dir?
    ensures Recovered(c, tree).failed
  {
    PrefixIsSteady(c, tree, i);
    NestingFails(c, WalkAll(c, Start(c), [], tree[..i]), [], tree[i], k);
    assert tree[..i + 1][..i] == tree[..i];
    FailureStays(c, Start(c), [], tree, i + 1);
  }

  /**
   * The layout the emitter uses when it has a cluster ID, its samples one level down: nothing is
   * recovered, every sample is deleted, complete or not, and no error is reported.
   */
  lemma NestedLayoutRecoversNothing(c: Context, tree: seq<Node>)
    requires c.Valid() && |tree| == 1 && tree[0].Dir?
    requires |tree[0].children| > 0 && tree[0].children[0].Dir?
    ensures
      var s := Recovered(c, tree);
      && s.failed && s.packed == [] && !s.hasShipped
      && forall path :: [tree[0].name] <= path ==> !Exists(s.removed, path)
  {
    var id, samples := [tree[0].name], tree[0].children;
    assert tree[..0] == [] && samples[..1][..0] == [] && [] + id == id;
    var s1 := VisitDir(c, Start(c), id);
    assert s1 == Start(c).(currentDir := Some(id));
    assert WalkAll(c, s1, id, samples[..1]) == Walk(c, s1, id, samples[0]);
    assert id in VisitDir(c, s1, id + [samples[0].name]).removed && id <= id + [samples[0].name];
    FailureStays(c, s1, id, samples, 1);
    assert WalkAll(c, Start(c), [], tree) == Walk(c, Start(c), [], tree[0]);
  }
}
