/** The file names of a sample directory, and which required names each of them contains. */
module EmitterFiles {
  import opened Wrappers
  import opened Substrings
  import opened RecoveryWalk
  import opened RecoveryOrders
  import E = SampleEmitter

  /** Go's walk is in lexical order, which puts the object files in this one. */
  const KINDS: seq<string> :=
    ["daemonsets", "deployments", "jobs", "namespaces", "nodes", "persistentvolumeclaims", "persistentvolumes",
     "pods", "replicasets", "replicationcontrollers", "services", "statefulsets"]

  const BASELINE := "baseline-summary"

  const STATS := "stats-summary"

  lemma RequiredFilesByKind(w: string)
    ensures w in REQUIRED_FILES <==> w in E.OBJECT_FILES || w == STATS || w == BASELINE || w == AGENT_FILE
    ensures w in E.OBJECT_FILES <==> w in KINDS
  {
  }

  function Extension(asJson: bool): string {
    if asJson then "jsonl" else "proto"
  }

  function KindFile(asJson: bool, kind: string): string {
    kind + "." + Extension(asJson)
  }

  function NodeFile(prefix: string, node: string): string {
    prefix + "-" + node + "." + "json"
  }

  const AGENT_FILE_NAME := AGENT_FILE + "." + "json"

  // ---------- Each required name has a pair of letters that gives it away ----------

  function Mark(w: string): (char, char) {
    if w == "nodes" then ('n', 'o')
    else if w == "pods" then ('p', 'o')
    else if w == "deployments" then ('o', 'y')
    else if w == "replicasets" then ('a', 's')
    else if w == "daemonsets" then ('a', 'e')
    else if w == "namespaces" then ('n', 'a')
    else if w == "services" then ('v', 'i')
    else if w == "replicationcontrollers" then ('l', 'l')
    else if w == "persistentvolumes" then ('t', 'v')
    else if w == "persistentvolumeclaims" then ('c', 'l')
    else if w == "statefulsets" then ('f', 'u')
    else if w == "jobs" then ('j', 'o')
    else if w == AGENT_FILE then ('t', '-')
    else if w == BASELINE then ('e', '-')
    else ('s', '-')
  }

  lemma MarkIsThere(w: string)
    requires w in REQUIRED_FILES
    ensures HasPair(w, Mark(w).0, Mark(w).1)
  {
    assert w == "nodes" ==> PairAt(w, 0, 'n', 'o');
    assert w == "pods" ==> PairAt(w, 0, 'p', 'o');
    assert w == "deployments" ==> PairAt(w, 4, 'o', 'y');
    assert w == "replicasets" ==> PairAt(w, 6, 'a', 's');
    assert w == "daemonsets" ==> PairAt(w, 1, 'a', 'e');
    assert w == "namespaces" ==> PairAt(w, 0, 'n', 'a');
    assert w == "services" ==> PairAt(w, 3, 'v', 'i');
    assert w == "replicationcontrollers" ==> PairAt(w, 17, 'l', 'l');
    assert w == "persistentvolumes" ==> PairAt(w, 9, 't', 'v');
    assert w == "persistentvolumeclaims" ==> PairAt(w, 16, 'c', 'l');
    assert w == "statefulsets" ==> PairAt(w, 5, 'f', 'u');
    assert w == "jobs" ==> PairAt(w, 0, 'j', 'o');
    assert w == AGENT_FILE ==> PairAt(w, 4, 't', '-');
    assert w == BASELINE ==> PairAt(w, 7, 'e', '-');
    assert w == STATS ==> PairAt(w, 4, 's', '-');
  }

  /** The pair of w is not in s. */
  predicate Unmarked(s: string, w: string) {
    !HasPair(s, Mark(w).0, Mark(w).1)
  }

  lemma UnmarkedAbsent(s: string, w: string)
    requires w in REQUIRED_FILES && Unmarked(s, w)
    ensures !Contains(s, w)
  {
    MarkIsThere(w);
    PairMissing(s, w, Mark(w).0, Mark(w).1);
  }

  lemma DaemonsetsMarks(w: string)
    requires w in REQUIRED_FILES && w != "daemonsets"
    ensures Unmarked("daemonsets", w)
  {
  }

  lemma DeploymentsMarks(w: string)
    requires w in REQUIRED_FILES && w != "deployments"
    ensures Unmarked("deployments", w)
  {
  }

  lemma JobsMarks(w: string)
    requires w in REQUIRED_FILES && w != "jobs"
    ensures Unmarked("jobs", w)
  {
  }

  lemma NamespacesMarks(w: string)
    requires w in REQUIRED_FILES && w != "namespaces"
    ensures Unmarked("namespaces", w)
  {
  }

  lemma NodesMarks(w: string)
    requires w in REQUIRED_FILES && w != "nodes"
    ensures Unmarked("nodes", w)
  {
  }

  lemma ClaimsMarks(w: string)
    requires w in REQUIRED_FILES && w != "persistentvolumeclaims" && w != "persistentvolumes"
    ensures Unmarked("persistentvolumeclaims", w)
  {
  }

  lemma VolumesMarks(w: string)
    requires w in REQUIRED_FILES && w != "persistentvolumes"
    ensures Unmarked("persistentvolumes", w)
  {
  }

  lemma PodsMarks(w: string)
    requires w in REQUIRED_FILES && w != "pods"
    ensures Unmarked("pods", w)
  {
  }

  lemma ReplicasetsMarks(w: string)
    requires w in REQUIRED_FILES && w != "replicasets"
    ensures Unmarked("replicasets", w)
  {
  }

  lemma ControllersMarks(w: string)
    requires w in REQUIRED_FILES && w != "replicationcontrollers"
    ensures Unmarked("replicationcontrollers", w)
  {
  }

  lemma ServicesMarks(w: string)
    requires w in REQUIRED_FILES && w != "services"
    ensures Unmarked("services", w)
  {
  }

  lemma StatefulsetsMarks(w: string)
    requires w in REQUIRED_FILES && w != "statefulsets"
    ensures Unmarked("statefulsets", w)
  {
  }

  lemma ExtensionMarks(asJson: bool, w: string)
    requires w in REQUIRED_FILES
    ensures Unmarked(Extension(asJson), w) && Unmarked("json", w)
  {
  }

  /** A volume's name is no part of a claim's: the letters after the shared ones differ. */
  lemma VolumeInClaim()
    ensures !Contains("persistentvolumeclaims", "persistentvolumes")
  {
    assert PairAt("persistentvolumes", 15, 'e', 's');
    PairMissing("persistentvolumeclaims", "persistentvolumes", 'e', 's');
  }

  lemma KindMarks(kind: string, w: string)
    requires kind in KINDS && w in REQUIRED_FILES && w != kind
    requires !(kind == "persistentvolumeclaims" && w == "persistentvolumes")
    ensures Unmarked(kind, w)
  {
    if kind == "daemonsets" { DaemonsetsMarks(w); }
    else if kind == "deployments" { DeploymentsMarks(w); }
    else if kind == "jobs" { JobsMarks(w); }
    else if kind == "namespaces" { NamespacesMarks(w); }
    else if kind == "nodes" { NodesMarks(w); }
    else if kind == "persistentvolumeclaims" { ClaimsMarks(w); }
    else if kind == "persistentvolumes" { VolumesMarks(w); }
    else if kind == "pods" { PodsMarks(w); }
    else if kind == "replicasets" { ReplicasetsMarks(w); }
    else if kind == "replicationcontrollers" { ControllersMarks(w); }
    else if kind == "services" { ServicesMarks(w); }
    else { StatefulsetsMarks(w); }
  }

  /** No kind contains another required name. */
  lemma KindContains(kind: string, w: string)
    requires kind in KINDS && w in REQUIRED_FILES
    ensures Contains(kind, w) <==> w == kind
  {
    if w == kind {
      ContainsPrefix(w, "");
      assert w + "" == w;
    } else if kind == "persistentvolumeclaims" && w == "persistentvolumes" {
      VolumeInClaim();
    } else {
      KindMarks(kind, w);
      UnmarkedAbsent(kind, w);
    }
  }

  /** Where the mark of replica sets does not tell, another pair does. */
  lemma AgentMarks(w: string)
    requires w in REQUIRED_FILES && w != AGENT_FILE && w != "replicasets"
    ensures Unmarked(AGENT_FILE, w)
  {
  }

  lemma BaselineMarks(w: string)
    requires w in KINDS && w != "replicasets"
    ensures Unmarked("baseline", w)
  {
  }

  lemma StatsMarks(w: string)
    requires w in KINDS
    ensures Unmarked("stats", w) && Unmarked("summary", w)
  {
  }

  lemma ReplicasetsElsewhere()
    ensures !Contains(AGENT_FILE, "replicasets") && !Contains("baseline", "replicasets")
  {
    assert PairAt("replicasets", 1, 'e', 'p');
    PairMissing(AGENT_FILE, "replicasets", 'e', 'p');
    PairMissing("baseline", "replicasets", 'e', 'p');
  }

  // ---------- What a file name contains ----------

  predicate NoSeparators(w: string) {
    '.' !in w && '/' !in w && w != ""
  }

  lemma KindsHaveNoDot(w: string)
    requires w in KINDS
    ensures '.' !in w
  {
  }

  lemma KindsHaveNoSlash(w: string)
    requires w in KINDS
    ensures '/' !in w && w != ""
  {
  }

  lemma KindsHaveNoDash(w: string)
    requires w in KINDS
    ensures '-' !in w
  {
  }

  lemma DashedHaveNoSeparators()
    ensures NoSeparators(STATS) && NoSeparators(BASELINE) && NoSeparators(AGENT_FILE)
  {
  }

  lemma RequiredHaveNoSeparators(w: string)
    requires w in REQUIRED_FILES
    ensures NoSeparators(w)
  {
    RequiredFilesByKind(w);
    DashedHaveNoSeparators();
    if w in KINDS {
      KindsHaveNoDot(w);
      KindsHaveNoSlash(w);
    }
  }

  lemma KindFileContains(asJson: bool, kind: string, w: string)
    requires kind in KINDS && w in REQUIRED_FILES
    ensures Contains(KindFile(asJson, kind), w) <==> w == kind
  {
    RequiredHaveNoSeparators(w);
    ContainsAcross(kind, '.', Extension(asJson), w);
    KindContains(kind, w);
    ExtensionMarks(asJson, w);
    UnmarkedAbsent(Extension(asJson), w);
  }

  lemma AgentFileContains(w: string)
    requires w in REQUIRED_FILES
    ensures Contains(AGENT_FILE_NAME, w) <==> w == AGENT_FILE
  {
    RequiredHaveNoSeparators(w);
    ContainsAcross(AGENT_FILE, '.', "json", w);
    ExtensionMarks(true, w);
    UnmarkedAbsent("json", w);
    if w == AGENT_FILE {
      ContainsPrefix(w, "");
      assert w + "" == w;
    } else if w == "replicasets" {
      ReplicasetsElsewhere();
    } else {
      AgentMarks(w);
      UnmarkedAbsent(AGENT_FILE, w);
    }
  }

  /** A kind in the name of a node's file is in the node's own name. */
  lemma NodeFileContainsKind(prefix: string, node: string, w: string)
    requires prefix in {BASELINE, STATS} && w in KINDS && w in REQUIRED_FILES
    ensures Contains(NodeFile(prefix, node), w) <==> Contains(node, w)
  {
    RequiredHaveNoSeparators(w);
    KindsHaveNoDash(w);
    var head := if prefix == BASELINE then "baseline" else "stats";
    assert prefix == head + "-" + "summary";
    ContainsAcross(prefix + "-" + node, '.', "json", w);
    ContainsAcross(prefix, '-', node, w);
    ContainsAcross(head, '-', "summary", w);
    ExtensionMarks(true, w);
    UnmarkedAbsent("json", w);
    StatsMarks(w);
    UnmarkedAbsent("summary", w);
    if prefix == STATS {
      UnmarkedAbsent("stats", w);
    } else if w == "replicasets" {
      ReplicasetsElsewhere();
    } else {
      BaselineMarks(w);
      UnmarkedAbsent("baseline", w);
    }
  }

  /** Node names that contain none of the names with a dash in them. */
  predicate PlainNode(node: string) {
    !Contains(node, BASELINE) && !Contains(node, STATS) && !Contains(node, AGENT_FILE)
  }

  lemma StartsNowhereIn(prefix: string, w: string)
    requires prefix in {BASELINE, STATS} && w in {BASELINE, STATS, AGENT_FILE} && w != prefix
    ensures |w| >= 2 && w[0] != '-' && !HasPair(prefix + "-", w[0], w[1])
  {
    assert BASELINE + "-" == "baseline-summary-" && STATS + "-" == "stats-summary-";
  }

  lemma NodeFileContainsDashed(prefix: string, node: string, w: string)
    requires prefix in {BASELINE, STATS} && w in {BASELINE, STATS, AGENT_FILE} && PlainNode(node)
    ensures Contains(NodeFile(prefix, node), w) <==> w == prefix
  {
    RequiredFilesByKind(w);
    if w == prefix {
      ContainsPrefix(w, "-" + node + "." + "json");
      assert w + ("-" + node + "." + "json") == NodeFile(prefix, node);
    } else {
      RequiredHaveNoSeparators(w);
      ContainsAcross(prefix + "-" + node, '.', "json", w);
      ExtensionMarks(true, w);
      UnmarkedAbsent("json", w);
      StartsNowhereIn(prefix, w);
      ContainsInRest(prefix + "-", node, w);
    }
  }
}
