/** The transform that trims and sanitises resources before they enter the informers' caches. */
module ResourceCleaning {
  import opened Wrappers
  import opened ResourcePruning

  datatype GroupVersionKind = GroupVersionKind(group: string, version: string, kind: string)

  const ANNOTATIONS := ["metadata", "annotations"]

  const LAST_APPLIED := "kubectl.kubernetes.io/last-applied-configuration"

  const CONTAINER := GroupVersionKind("", "v1", "Container")

  // ---------- The configured paths ----------

  function Under(key: string, names: seq<string>): seq<seq<string>> {
    seq(|names|, i requires 0 <= i < |names| => [key, names[i]])
  }

  function Alone(names: seq<string>): seq<seq<string>> {
    seq(|names|, i requires 0 <= i < |names| => [names[i]])
  }

  const CONTAINER_SANITIZE :=
    ["command", "args", "imagePullPolicy", "livenessProbe", "readinessProbe", "startupProbe",
     "terminationMessagePath", "terminationMessagePolicy", "securityContext"]

  const CONTAINER_TRIM := ["env"]

  /** The kinds "Daemonset" and "Cronjob" are written as they are in the table. */
  function SanitizePaths(gvk: GroupVersionKind): seq<seq<string>> {
    if gvk == GroupVersionKind("apps", "v1", "Deployment") then Under("spec", ["progressDeadlineSeconds"])
    else if gvk == GroupVersionKind("apps", "v1", "Daemonset") then Under("spec", ["updateStrategy"])
    else if gvk == GroupVersionKind("batch", "v1", "Job") then
      Under("spec", ["parallelism", "completions", "activeDeadlineSeconds", "backoffLimit", "manualSelector",
                     "ttlSecondsAfterFinished", "completionMode", "suspend"])
    else if gvk == GroupVersionKind("batch", "v1", "Cronjob") then [["spec"]]
    else if gvk == CONTAINER then Alone(CONTAINER_SANITIZE)
    else if gvk == GroupVersionKind("", "v1", "Service") then
      Under("spec", ["ports", "clusterIPs", "externalIPs", "sessionAffinity", "loadBalancerIP",
                     "loadBalancerSourceRanges", "externalName", "externalTrafficPolicy", "healthCheckNodePort",
                     "sessionAffinityConfig", "ipFamilies", "ipFamilyPolicy", "allocatedLoadBalancerNodePorts",
                     "loadBalancerClass", "internalTrafficPolicy"])
    else []
  }

  const COMMON_SANITIZE := [["spec", "revisionHistoryLimit"], ["spec", "minReadySeconds"], ["metadata", "finalizers"]]

  function TrimPaths(gvk: GroupVersionKind): seq<seq<string>> {
    if gvk == CONTAINER then Alone(CONTAINER_TRIM) else []
  }

  const COMMON_TRIM := [["metadata", "managedFields"]]

  function PathSet(paths: seq<seq<string>>): set<Path> {
    set p | p in paths :: Keys(p)
  }

  predicate HasContainers(gvk: GroupVersionKind) {
    gvk.group == "apps" || gvk.kind == "Pod" || gvk.kind == "Job"
  }

  function ContainerLists(gvk: GroupVersionKind): seq<seq<string>> {
    if gvk.kind == "Pod" then [["spec", "containers"], ["spec", "initContainers"]]
    else [["spec", "template", "spec", "containers"], ["spec", "template", "spec", "initContainers"]]
  }

  function ContainerFields(sanitize: bool): seq<string> {
    (if sanitize then CONTAINER_SANITIZE else []) + CONTAINER_TRIM
  }

  function FieldSet(names: seq<string>): set<Path> {
    set n | n in names :: [Key(n)]
  }

  function InEach(paths: set<Path>): set<Path> {
    set p | p in paths :: [Each] + p
  }

  function ContainerPaths(gvk: GroupVersionKind, sanitize: bool): set<Path> {
    if !HasContainers(gvk) then {}
    else
      Prefixed(Keys(ContainerLists(gvk)[0]), InEach(FieldSet(ContainerFields(sanitize))))
      + Prefixed(Keys(ContainerLists(gvk)[1]), InEach(FieldSet(ContainerFields(sanitize))))
  }

  /** Everything that the tables say of a kind. */
  function Configured(gvk: GroupVersionKind, sanitize: bool): set<Path> {
    ContainerPaths(gvk, sanitize) + PathSet(TrimPaths(gvk)) + PathSet(COMMON_TRIM)
    + if sanitize then PathSet(SanitizePaths(gvk)) + PathSet(COMMON_SANITIZE) else {}
  }

  // ---------- Annotations ----------

  /**
   * They are read only as a whole: an annotation that is no text hides all of them. A null counts as an
   * empty text or as no text, as the version of the library has it.
   */
  function GetAnnotations(v: Value, nullIsEmpty: bool): Option<map<string, Value>> {
    match Lookup(v, Fields(ANNOTATIONS))
    case Some(Object(fields)) =>
      if forall k :: k in fields ==> fields[k].Text? || (nullIsEmpty && fields[k].Null?)
      then Some(map k | k in fields :: AsText(fields[k]))
      else None
    case _ => None
  }

  function AsText(v: Value): Value {
    if v.Null? then Text("") else v
  }

  /** Without annotations to set, the field is removed. */
  function SetAnnotations(v: Value, annotations: Option<map<string, Value>>): Value {
    match annotations
    case None => RemoveNestedField(v, ANNOTATIONS)
    case Some(fields) => Replace(v, ANNOTATIONS, Object(fields))
  }

  function AnnotationPaths(v: Value, nullIsEmpty: bool): set<Path> {
    if GetAnnotations(v, nullIsEmpty).Some? then {Keys(ANNOTATIONS + [LAST_APPLIED])} else {Keys(ANNOTATIONS)}
  }

  /** The tree with its annotations as they are read. */
  function AsRead(v: Value, nullIsEmpty: bool): Value {
    match GetAnnotations(v, nullIsEmpty)
    case None => v
    case Some(fields) => Replace(v, ANNOTATIONS, Object(fields))
  }

  /** What cleaning means: one pruning, by paths that depend on the kind and on the annotations. */
  function Cleaned(v: Value, gvk: GroupVersionKind, sanitize: bool, nullIsEmpty: bool): Value {
    Prune(AsRead(v, nullIsEmpty), AnnotationPaths(v, nullIsEmpty) + Configured(gvk, sanitize))
  }

  lemma LastAppliedPath()
    ensures Prefixed(Keys(ANNOTATIONS), {[Key(LAST_APPLIED)]}) == {Keys(ANNOTATIONS + [LAST_APPLIED])}
  {
    assert Keys(ANNOTATIONS) + [Key(LAST_APPLIED)] == Keys(ANNOTATIONS + [LAST_APPLIED]);
  }

  /** Reading, deleting from and setting the annotations is one pruning of the tree as it is read. */
  lemma AnnotationsPruned(v: Value, nullIsEmpty: bool)
    ensures Prune(AsRead(v, nullIsEmpty), AnnotationPaths(v, nullIsEmpty))
            == match GetAnnotations(v, nullIsEmpty)
               case None => SetAnnotations(v, None)
               case Some(fields) => SetAnnotations(v, Some(fields - {LAST_APPLIED}))
  {
    match GetAnnotations(v, nullIsEmpty)
    case None => RemovePrunes(v, ANNOTATIONS);
    case Some(fields) =>
      var w := AsRead(v, nullIsEmpty);
      LastAppliedPath();
      LookupReplaced(v, ANNOTATIONS, Object(fields));
      PruneBelow(w, ANNOTATIONS, {[Key(LAST_APPLIED)]});
      PruneField(Object(fields), LAST_APPLIED);
      ReplaceTwice(v, ANNOTATIONS, Object(fields), Object(fields - {LAST_APPLIED}));
  }

  /** Paths that lead neither to the annotations nor into them. */
  predicate Spares(paths: set<Path>) {
    forall p :: p in paths ==> Apart(p, Keys(ANNOTATIONS))
  }

  /** Before any cleaning of annotations: reading them and pruning elsewhere commute. */
  lemma SparedAnnotations(v: Value, paths: set<Path>, nullIsEmpty: bool)
    requires Spares(paths)
    ensures GetAnnotations(Prune(v, paths), nullIsEmpty) == GetAnnotations(v, nullIsEmpty)
    ensures AsRead(Prune(v, paths), nullIsEmpty) == Prune(AsRead(v, nullIsEmpty), paths)
  {
    assert PathOf(Fields(ANNOTATIONS)) == Keys(ANNOTATIONS);
    LookupUntouched(v, paths, Fields(ANNOTATIONS));
    match GetAnnotations(v, nullIsEmpty)
    case None =>
    case Some(fields) => PruneReplaced(v, ANNOTATIONS, Object(fields), paths);
  }

  /** Annotations of text alone read as they are. */
  lemma TextsReadAsTheyAre(v: Value, nullIsEmpty: bool, fields: map<string, Value>)
    requires Lookup(v, Fields(ANNOTATIONS)) == Some(Object(fields)) && forall k :: k in fields ==> fields[k].Text?
    ensures GetAnnotations(v, nullIsEmpty) == Some(fields) && AsRead(v, nullIsEmpty) == v
  {
    assert (map k | k in fields :: AsText(fields[k])) == fields;
    ReplaceBySame(v, ANNOTATIONS);
  }

  lemma NoAnnotationsLeft(v: Value)
    ensures Lookup(Prune(v, {Keys(ANNOTATIONS)}), Fields(ANNOTATIONS)) == None
  {
    WhatSurvives(v, {Keys(ANNOTATIONS)}, Fields(ANNOTATIONS));
    assert Fields(ANNOTATIONS)[..2] == Fields(ANNOTATIONS);
    assert PathOf(Fields(ANNOTATIONS)[..2]) == Keys(ANNOTATIONS);
    assert Cut({Keys(ANNOTATIONS)}, Fields(ANNOTATIONS));
  }

  /** After it: they read as they are and call for the same. */
  lemma CleanedAnnotations(v: Value, paths: set<Path>, nullIsEmpty: bool)
    requires Spares(paths)
    ensures
      var x := Prune(AsRead(v, nullIsEmpty), AnnotationPaths(v, nullIsEmpty) + paths);
      AsRead(x, nullIsEmpty) == x && AnnotationPaths(x, nullIsEmpty) == AnnotationPaths(v, nullIsEmpty)
  {
    var w, a := AsRead(v, nullIsEmpty), AnnotationPaths(v, nullIsEmpty);
    var y := Prune(w, a);
    AnnotationsPruned(v, nullIsEmpty);
    PruneTwice(w, a, paths);
    assert PathOf(Fields(ANNOTATIONS)) == Keys(ANNOTATIONS);
    LookupUntouched(y, paths, Fields(ANNOTATIONS));
    match GetAnnotations(v, nullIsEmpty)
    case None => NoAnnotationsLeft(v);
    case Some(fields) =>
      LookupReplaced(v, ANNOTATIONS, Object(fields - {LAST_APPLIED}));
      TextsReadAsTheyAre(Prune(y, paths), nullIsEmpty, fields - {LAST_APPLIED});
  }

  predicate BesideAnnotations(path: seq<string>) {
    path != [] && (path[0] != "metadata" || (|path| > 1 && path[1] != "annotations"))
  }

  lemma BesideIsApart(path: seq<string>, below: Path)
    requires BesideAnnotations(path)
    ensures Apart(Keys(path) + below, Keys(ANNOTATIONS))
  {
    var p := Keys(path) + below;
    assert p[0] == Key(path[0]) && Keys(ANNOTATIONS)[0] == Key("metadata");
    assert |path| > 1 ==> p[1] == Key(path[1]) && Keys(ANNOTATIONS)[1] == Key("annotations");
  }

  lemma TablesAreBeside(gvk: GroupVersionKind)
    ensures forall p :: p in SanitizePaths(gvk) ==> BesideAnnotations(p)
    ensures forall p :: p in TrimPaths(gvk) ==> BesideAnnotations(p)
    ensures forall p :: p in COMMON_SANITIZE ==> BesideAnnotations(p)
    ensures forall p :: p in COMMON_TRIM ==> BesideAnnotations(p)
    ensures forall l :: l in ContainerLists(gvk) ==> BesideAnnotations(l)
  {
    assert |"metadata"| == 8 && |"spec"| == 4 && |"annotations"| == 11;
    assert forall n :: n in CONTAINER_SANITIZE ==> n != "metadata";
  }

  lemma TableSpares(paths: seq<seq<string>>)
    requires forall p :: p in paths ==> BesideAnnotations(p)
    ensures Spares(PathSet(paths))
  {
    forall p | p in paths ensures Apart(Keys(p), Keys(ANNOTATIONS)) {
      BesideIsApart(p, []);
      assert Keys(p) + [] == Keys(p);
    }
  }

  lemma ContainersSpare(gvk: GroupVersionKind, sanitize: bool)
    ensures Spares(ContainerPaths(gvk, sanitize))
  {
    TablesAreBeside(gvk);
    var inner := InEach(FieldSet(ContainerFields(sanitize)));
    forall l, q | l in ContainerLists(gvk) && q in inner ensures Apart(Keys(l) + q, Keys(ANNOTATIONS)) {
      BesideIsApart(l, q);
    }
    assert ContainerLists(gvk)[0] in ContainerLists(gvk) && ContainerLists(gvk)[1] in ContainerLists(gvk);
  }

  lemma ConfiguredSpares(gvk: GroupVersionKind, sanitize: bool)
    ensures Spares(Configured(gvk, sanitize))
  {
    TablesAreBeside(gvk);
    ContainersSpare(gvk, sanitize);
    TableSpares(TrimPaths(gvk));
    TableSpares(COMMON_TRIM);
    TableSpares(SanitizePaths(gvk));
    TableSpares(COMMON_SANITIZE);
  }

  // ---------- Cleaning step by step ----------

  /** A container that is no object makes the source panic. */
  predicate HasBadContainer(v: Value, list: seq<string>) {
    match Lookup(v, Fields(list))
    case Some(List(items)) => exists c :: c in items && !c.Object?
    case _ => false
  }

  predicate Panics(v: Value, gvk: GroupVersionKind) {
    HasContainers(gvk) && (HasBadContainer(v, ContainerLists(gvk)[0]) || HasBadContainer(v, ContainerLists(gvk)[1]))
  }

  lemma FieldRemoved(v: Value, names: seq<string>, i: nat)
    requires i < |names|
    ensures RemoveNestedField(Prune(v, FieldSet(names[..i])), [names[i]]) == Prune(v, FieldSet(names[..i + 1]))
  {
    assert Keys([names[i]]) == [Key(names[i])];
    RemovePrunes(Prune(v, FieldSet(names[..i])), [names[i]]);
    PruneTwice(v, FieldSet(names[..i]), {[Key(names[i])]});
    assert names[..i + 1] == names[..i] + [names[i]];
    assert FieldSet(names[..i + 1]) == FieldSet(names[..i]) + {[Key(names[i])]};
  }

  lemma PathSetNext(first: set<Path>, paths: seq<seq<string>>, i: nat)
    requires i < |paths|
    ensures first + PathSet(paths[..i + 1]) == (first + PathSet(paths[..i])) + {Keys(paths[i])}
  {
    assert paths[..i + 1] == paths[..i] + [paths[i]];
  }

  lemma TailsInEach(paths: set<Path>)
    ensures Tails(InEach(paths), Each) == paths
  {
    forall p ensures ([Each] + p)[1..] == p {}
    forall p | p in paths ensures p in Tails(InEach(paths), Each) {
      assert [Each] + p in InEach(paths);
    }
  }

  lemma PruneInEachElsewhere(v: Value, paths: set<Path>)
    requires !v.List?
    ensures Prune(v, InEach(paths)) == v
  {
    if v.Object? {
      forall k | k in v.fields ensures Tails(InEach(paths), Key(k)) == {} && Prune(v.fields[k], {}) == v.fields[k] {
        PruneNothing(v.fields[k]);
      }
    }
  }

  /** Cleaning one list of containers leaves the other alone. */
  lemma ListsAreApart(v: Value, gvk: GroupVersionKind, inner: set<Path>)
    ensures
      var lists := ContainerLists(gvk);
      HasBadContainer(Prune(v, Prefixed(Keys(lists[0]), inner)), lists[1]) <==> HasBadContainer(v, lists[1])
  {
    var lists := ContainerLists(gvk);
    var last := |lists[0]| - 1;
    assert |"containers"| != |"initContainers"|;
    assert PathOf(Fields(lists[1])) == Keys(lists[1]);
    forall p | p in Prefixed(Keys(lists[0]), inner) ensures Apart(p, Keys(lists[1])) {
      assert p[last] == Key("containers") && Keys(lists[1])[last] == Key("initContainers");
    }
    LookupUntouched(v, Prefixed(Keys(lists[0]), inner), Fields(lists[1]));
  }

  /** The first table comes after the containers alone. */
  lemma FirstTable(v: Value, nullIsEmpty: bool, done: set<Path>, table: seq<seq<string>>)
    requires Spares(done) && forall p :: p in table ==> BesideAnnotations(p)
    ensures Spares(done + PathSet(table))
    ensures
      var x := Prune(v, done);
      Prune(AsRead(x, nullIsEmpty), AnnotationPaths(x, nullIsEmpty) + PathSet(table))
      == After(v, nullIsEmpty, done + PathSet(table))
  {
    TableSpares(table);
    SparedAnnotations(v, done, nullIsEmpty);
    var a, t := AnnotationPaths(v, nullIsEmpty), PathSet(table);
    PruneTwice(AsRead(v, nullIsEmpty), done, a + t);
    assert done + (a + t) == a + (done + t);
  }

  /** One more table after others, each of which calls for the same annotation paths. */
  lemma NextTable(v: Value, nullIsEmpty: bool, done: set<Path>, table: seq<seq<string>>)
    requires Spares(done) && forall p :: p in table ==> BesideAnnotations(p)
    ensures Spares(done + PathSet(table))
    ensures
      var x := After(v, nullIsEmpty, done);
      Prune(AsRead(x, nullIsEmpty), AnnotationPaths(x, nullIsEmpty) + PathSet(table))
      == After(v, nullIsEmpty, done + PathSet(table))
  {
    TableSpares(table);
    CleanedAnnotations(v, done, nullIsEmpty);
    var a, t := AnnotationPaths(v, nullIsEmpty), PathSet(table);
    PruneTwice(AsRead(v, nullIsEmpty), a + done, a + t);
    assert (a + done) + (a + t) == a + (done + t);
  }

  class Resource {
    const gvk: GroupVersionKind
    const nullIsEmpty: bool
    var tree: Value

    constructor (gvk: GroupVersionKind, nullIsEmpty: bool, tree: Value)
      ensures this.gvk == gvk && this.nullIsEmpty == nullIsEmpty && this.tree == tree
    {
      this.gvk, this.nullIsEmpty, this.tree := gvk, nullIsEmpty, tree;
    }

    method CleanResourceFieldsFromPath(paths: seq<seq<string>>)
      requires forall p :: p in paths ==> p != []
      modifies this
      ensures tree == Prune(AsRead(old(tree), nullIsEmpty), AnnotationPaths(old(tree), nullIsEmpty) + PathSet(paths))
    {
      AnnotationsPruned(tree, nullIsEmpty);
      ghost var w := AsRead(tree, nullIsEmpty);
      var annotations := GetAnnotations(tree, nullIsEmpty);
      if annotations.Some? {
        annotations := Some(annotations.value - {LAST_APPLIED});
      }
      tree := SetAnnotations(tree, annotations);
      ghost var first := AnnotationPaths(old(tree), nullIsEmpty);
      assert first + PathSet([]) == first;
      for i := 0 to |paths|
        invariant tree == Prune(w, first + PathSet(paths[..i]))
      {
        assert paths[i] in paths;
        RemovePrunes(tree, paths[i]);
        PruneTwice(w, first + PathSet(paths[..i]), {Keys(paths[i])});
        PathSetNext(first, paths, i);
        tree := RemoveNestedField(tree, paths[i]);
      }
      assert paths[..|paths|] == paths;
    }

    /** The fields of one container of a list. */
    method CleanContainer(container: Value, names: seq<string>) returns (cleaned: Value)
      ensures cleaned == Prune(container, FieldSet(names))
    {
      cleaned := container;
      PruneNothing(container);
      assert FieldSet(names[..0]) == {};
      for i := 0 to |names|
        invariant cleaned == Prune(container, FieldSet(names[..i]))
      {
        FieldRemoved(container, names, i);
        cleaned := RemoveNestedField(cleaned, [names[i]]);
      }
      assert names[..|names|] == names;
    }

    method CleanItems(items: seq<Value>, sanitize: bool) returns (ok: bool, cleaned: seq<Value>)
      ensures ok <==> forall c :: c in items ==> c.Object?
      ensures ok ==>
                && |cleaned| == |items|
                && forall j :: 0 <= j < |items| ==> cleaned[j] == Prune(items[j], FieldSet(ContainerFields(sanitize)))
    {
      cleaned := items;
      for i := 0 to |items|
        invariant |cleaned| == |items|
        invariant forall j :: 0 <= j < i ==>
                    items[j].Object? && cleaned[j] == Prune(items[j], FieldSet(ContainerFields(sanitize)))
        invariant forall j :: i <= j < |items| ==> cleaned[j] == items[j]
      {
        if !cleaned[i].Object? {
          assert items[i] in items;
          return false, [];
        }
        var container := CleanContainer(cleaned[i], ContainerFields(sanitize));
        cleaned := cleaned[i := container];
      }
      ok := true;
    }

    method CleanContainerList(list: seq<string>, sanitize: bool) returns (ok: bool)
      modifies this
      ensures ok <==> !HasBadContainer(old(tree), list)
      ensures ok ==> tree == Prune(old(tree), Prefixed(Keys(list), InEach(FieldSet(ContainerFields(sanitize)))))
    {
      ghost var fields := FieldSet(ContainerFields(sanitize));
      PruneBelow(tree, list, InEach(fields));
      var found := Lookup(tree, Fields(list));
      if found == None {
        return true;
      }
      if !found.value.List? {
        PruneInEachElsewhere(found.value, fields);
        ReplaceBySame(tree, list);
        return true;
      }
      var cleaned;
      ok, cleaned := CleanItems(found.value.items, sanitize);
      if ok {
        TailsInEach(fields);
        assert List(cleaned) == Prune(found.value, InEach(fields));
        tree := Replace(tree, list, List(cleaned));
      }
    }

    method CleanContainers(sanitize: bool) returns (ok: bool)
      requires HasContainers(gvk)
      modifies this
      ensures ok <==> !Panics(old(tree), gvk)
      ensures ok ==> tree == Prune(old(tree), ContainerPaths(gvk, sanitize))
    {
      var lists := ContainerLists(gvk);
      ghost var inner := InEach(FieldSet(ContainerFields(sanitize)));
      ok := CleanContainerList(lists[0], sanitize);
      if !ok {
        return;
      }
      ListsAreApart(old(tree), gvk, inner);
      PruneTwice(old(tree), Prefixed(Keys(lists[0]), inner), Prefixed(Keys(lists[1]), inner));
      ok := CleanContainerList(lists[1], sanitize);
    }

    method CleanResource(sanitize: bool) returns (ok: bool)
      modifies this
      ensures ok <==> !Panics(old(tree), gvk)
      ensures ok ==> tree == Cleaned(old(tree), gvk, sanitize, nullIsEmpty)
    {
      ghost var v, n := tree, nullIsEmpty;
      TablesAreBeside(gvk);
      PruneNothing(v);
      ContainersSpare(gvk, sanitize);
      if HasContainers(gvk) {
        ok := CleanContainers(sanitize);
        if !ok {
          return;
        }
      }
      ghost var done := ContainerPaths(gvk, sanitize);
      CleanResourceFieldsFromPath(TrimPaths(gvk));
      FirstTable(v, n, done, TrimPaths(gvk));
      done := done + PathSet(TrimPaths(gvk));
      CleanResourceFieldsFromPath(COMMON_TRIM);
      NextTable(v, n, done, COMMON_TRIM);
      done := done + PathSet(COMMON_TRIM);
      if sanitize {
        CleanResourceFieldsFromPath(SanitizePaths(gvk));
        NextTable(v, n, done, SanitizePaths(gvk));
        done := done + PathSet(SanitizePaths(gvk));
        CleanResourceFieldsFromPath(COMMON_SANITIZE);
        NextTable(v, n, done, COMMON_SANITIZE);
        done := done + PathSet(COMMON_SANITIZE);
      }
      assert done == Configured(gvk, sanitize);
      return true;
    }
  }

  /** The tree after some tables, the annotations cleaned with them. */
  function After(v: Value, nullIsEmpty: bool, done: set<Path>): Value {
    Prune(AsRead(v, nullIsEmpty), AnnotationPaths(v, nullIsEmpty) + done)
  }

  // ---------- What cleaning promises ----------

  lemma ConfiguredGrows(gvk: GroupVersionKind)
    ensures Configured(gvk, false) <= Configured(gvk, true)
  {
    assert forall n :: n in ContainerFields(false) ==> n in ContainerFields(true);
    assert InEach(FieldSet(ContainerFields(false))) <= InEach(FieldSet(ContainerFields(true)));
  }

  /**
   * Cleaning twice is cleaning once, with the sanitising of either: it is idempotent, and cleaning
   * with sanitising after cleaning without, or the other way round, is sanitising at once.
   */
  lemma CleanedTwice(v: Value, gvk: GroupVersionKind, first: bool, second: bool, nullIsEmpty: bool)
    ensures Cleaned(Cleaned(v, gvk, first, nullIsEmpty), gvk, second, nullIsEmpty)
            == Cleaned(v, gvk, first || second, nullIsEmpty)
  {
    var a, p, q := AnnotationPaths(v, nullIsEmpty), Configured(gvk, first), Configured(gvk, second);
    ConfiguredSpares(gvk, first);
    CleanedAnnotations(v, p, nullIsEmpty);
    PruneTwice(AsRead(v, nullIsEmpty), a + p, a + q);
    ConfiguredGrows(gvk);
    assert (a + p) + (a + q) == a + Configured(gvk, first || second);
  }

  /** How annotations are read makes no difference elsewhere. */
  lemma ReadElsewhere(v: Value, nullIsEmpty: bool, path: seq<string>)
    requires BesideAnnotations(path) && (path[0] != "metadata" || path[1] != "annotations")
    ensures Lookup(AsRead(v, nullIsEmpty), Fields(path)) == Lookup(v, Fields(path))
  {
    BesideIsApart(path, []);
    assert Keys(path) + [] == Keys(path) == PathOf(Fields(path));
    match GetAnnotations(v, nullIsEmpty)
    case None =>
    case Some(fields) => LookupElsewhere(v, ANNOTATIONS, Object(fields), Fields(path));
  }

  lemma ItemsStayObjects(list: Value, paths: set<Path>)
    requires Prune(list, paths).List?
    ensures list.List?
    ensures (forall c :: c in list.items ==> c.Object?) ==> forall c :: c in Prune(list, paths).items ==> c.Object?
  {
    var items, after := list.items, Prune(list, paths).items;
    forall i | 0 <= i < |items| ensures after[i].Object? <==> items[i].Object? {
      assert after[i] == Prune(items[i], Tails(paths, Each));
    }
  }

  lemma GoodContainersStay(v: Value, paths: set<Path>, list: seq<string>)
    requires !HasBadContainer(v, list)
    ensures !HasBadContainer(Prune(v, paths), list)
  {
    WhatSurvives(v, paths, Fields(list));
    var now := Lookup(Prune(v, paths), Fields(list));
    if now.Some? && now.value.List? {
      ItemsStayObjects(Lookup(v, Fields(list)).value, Rest(paths, Fields(list)));
    }
  }

  /** A resource that could be cleaned can be cleaned again. */
  lemma CleanedDoesNotPanic(v: Value, gvk: GroupVersionKind, sanitize: bool, nullIsEmpty: bool)
    requires !Panics(v, gvk)
    ensures !Panics(Cleaned(v, gvk, sanitize, nullIsEmpty), gvk)
  {
    if HasContainers(gvk) {
      var paths := AnnotationPaths(v, nullIsEmpty) + Configured(gvk, sanitize);
      TablesAreBeside(gvk);
      assert ContainerLists(gvk)[0] in ContainerLists(gvk) && ContainerLists(gvk)[1] in ContainerLists(gvk);
      ReadElsewhere(v, nullIsEmpty, ContainerLists(gvk)[0]);
      ReadElsewhere(v, nullIsEmpty, ContainerLists(gvk)[1]);
      GoodContainersStay(AsRead(v, nullIsEmpty), paths, ContainerLists(gvk)[0]);
      GoodContainersStay(AsRead(v, nullIsEmpty), paths, ContainerLists(gvk)[1]);
    }
  }

  /** A leaf as its resource is read: a null among readable annotations is an empty text. */
  function LeafAsRead(v: Value, nullIsEmpty: bool, places: seq<Place>): Option<Value> {
    if GetAnnotations(v, nullIsEmpty).Some? && |places| == 3 && places[..2] == Fields(ANNOTATIONS) then
      match Lookup(v, places) case None => None case Some(leaf) => Some(AsText(leaf))
    else Lookup(v, places)
  }

  lemma AnnotationsAreInside(places: seq<Place>)
    ensures |places| == 3 && places[..2] == Fields(ANNOTATIONS) ==> !Apart(PathOf(places), Keys(ANNOTATIONS))
  {
    if |places| == 3 && places[..2] == Fields(ANNOTATIONS) {
      assert PathOf(places)[0] == StepOf(places[..2][0]) && PathOf(places)[1] == StepOf(places[..2][1]);
      assert PathOf(places)[..2] == Keys(ANNOTATIONS);
    }
  }

  lemma {:induction false} LookupSum(v: Value, a: seq<Place>, b: seq<Place>)
    ensures Lookup(v, a + b) == match Lookup(v, a) case None => None case Some(x) => Lookup(x, b)
    decreases |a|
  {
    if a == [] {
      assert a + b == b;
    } else {
      assert (a + b)[1..] == a[1..] + b;
      match (v, a[0])
      case (Object(fields), Field(k)) =>
        if k in fields {
          LookupSum(fields[k], a[1..], b);
        }
      case (List(items), Item(i)) =>
        if i < |items| {
          LookupSum(items[i], a[1..], b);
        }
      case _ =>
    }
  }

  lemma LeafAmongAnnotations(v: Value, fields: map<string, Value>, nullIsEmpty: bool, places: seq<Place>)
    requires GetAnnotations(v, nullIsEmpty) == Some(fields) && !Apart(PathOf(places), Keys(ANNOTATIONS))
    requires Lookup(v, places).Some? && IsLeaf(Lookup(v, places).value)
    ensures |places| == 3 && places[..2] == Fields(ANNOTATIONS)
    ensures Lookup(Replace(v, ANNOTATIONS, Object(fields)), places) == Some(AsText(Lookup(v, places).value))
  {
    var at := Fields(ANNOTATIONS);
    var n := if |places| <= 2 then |places| else 2;
    forall i | 0 <= i < n ensures places[i] == at[i] {
      assert PathOf(places)[i] == Keys(ANNOTATIONS)[i];
    }
    if |places| <= 2 {
      assert at == places + at[|places|..];
      LookupSum(v, places, at[|places|..]);
    } else {
      assert places == at + places[2..];
      LookupSum(v, at, places[2..]);
      LookupReplaced(v, ANNOTATIONS, Object(fields));
      LookupSum(Replace(v, ANNOTATIONS, Object(fields)), at, places[2..]);
    }
  }

  lemma LeafIsRead(v: Value, nullIsEmpty: bool, places: seq<Place>)
    requires Lookup(v, places).Some? && IsLeaf(Lookup(v, places).value)
    ensures Lookup(AsRead(v, nullIsEmpty), places) == LeafAsRead(v, nullIsEmpty, places)
  {
    match GetAnnotations(v, nullIsEmpty)
    case None =>
    case Some(fields) =>
      AnnotationsAreInside(places);
      if Apart(PathOf(places), Keys(ANNOTATIONS)) {
        LookupElsewhere(v, ANNOTATIONS, Object(fields), places);
      } else {
        LeafAmongAnnotations(v, fields, nullIsEmpty, places);
      }
  }

  /**
   * A leaf is as it is read, or gone if and only if a path for its kind or its annotations leads to it.
   * Text is read as it is.
   */
  lemma LeafOfCleaned(v: Value, gvk: GroupVersionKind, sanitize: bool, nullIsEmpty: bool, places: seq<Place>)
    requires Lookup(v, places).Some? && IsLeaf(Lookup(v, places).value)
    ensures Lookup(Cleaned(v, gvk, sanitize, nullIsEmpty), places)
            == if Cut(AnnotationPaths(v, nullIsEmpty) + Configured(gvk, sanitize), places) then None
               else LeafAsRead(v, nullIsEmpty, places)
    ensures !Lookup(v, places).value.Null? ==> LeafAsRead(v, nullIsEmpty, places) == Lookup(v, places)
  {
    LeafIsRead(v, nullIsEmpty, places);
    LeafSurvives(AsRead(v, nullIsEmpty), AnnotationPaths(v, nullIsEmpty) + Configured(gvk, sanitize), places);
  }

  /** Nothing is left at a configured path. */
  lemma ConfiguredAreGone(v: Value, gvk: GroupVersionKind, sanitize: bool, nullIsEmpty: bool, path: seq<string>)
    requires path != [] && Keys(path) in AnnotationPaths(v, nullIsEmpty) + Configured(gvk, sanitize)
    ensures Lookup(Cleaned(v, gvk, sanitize, nullIsEmpty), Fields(path)) == None
  {
    var places := Fields(path);
    var paths := AnnotationPaths(v, nullIsEmpty) + Configured(gvk, sanitize);
    assert places[..|path|] == places && PathOf(places) == Keys(path);
    assert Cut(paths, places);
    WhatSurvives(AsRead(v, nullIsEmpty), paths, places);
  }

  /** A field of container i of a list of containers. */
  function ContainerField(list: seq<string>, i: nat, field: string): seq<Place> {
    Fields(list) + [Item(i), Field(field)]
  }

  lemma ContainerFieldGone(v: Value, gvk: GroupVersionKind, sanitize: bool, nullIsEmpty: bool, list: seq<string>, i: nat,
                           field: string)
    requires HasContainers(gvk) && list in ContainerLists(gvk) && field in ContainerFields(sanitize)
    ensures Lookup(Cleaned(v, gvk, sanitize, nullIsEmpty), ContainerField(list, i, field)) == None
  {
    var places := ContainerField(list, i, field);
    var paths := AnnotationPaths(v, nullIsEmpty) + Configured(gvk, sanitize);
    assert PathOf(places) == Keys(list) + ([Each] + [Key(field)]);
    assert [Each] + [Key(field)] in InEach(FieldSet(ContainerFields(sanitize))) by {
      assert [Key(field)] in FieldSet(ContainerFields(sanitize));
    }
    assert PathOf(places) in ContainerPaths(gvk, sanitize);
    assert places[..|places|] == places && places[|places| - 1].Field?;
    assert Cut(paths, places);
    WhatSurvives(AsRead(v, nullIsEmpty), paths, places);
  }

  lemma ListPath(gvk: GroupVersionKind, list: string)
    requires list in {"containers", "initContainers"}
    ensures (if gvk.kind == "Pod" then ["spec"] else ["spec", "template", "spec"]) + [list] in ContainerLists(gvk)
  {
    var lists := ContainerLists(gvk);
    assert lists[0] in lists && lists[1] in lists;
    assert ["spec"] + [list] == ["spec", list];
    assert ["spec", "template", "spec"] + [list] == ["spec", "template", "spec", list];
  }

  lemma FieldIsNamed(sanitize: bool, field: string)
    ensures "env" in ContainerFields(sanitize)
    ensures field in {"command", "args", "livenessProbe", "securityContext"} ==> field in ContainerFields(true)
  {
    assert CONTAINER_TRIM[0] == "env";
    assert CONTAINER_SANITIZE[0] == "command" && CONTAINER_SANITIZE[1] == "args" && CONTAINER_SANITIZE[3] == "livenessProbe"
           && CONTAINER_SANITIZE[8] == "securityContext";
  }

  /** The spec that has the containers: that of a pod is its own, that of other kinds in their template. */
  function PodSpec(gvk: GroupVersionKind): seq<Place> {
    if gvk.kind == "Pod" then [Field("spec")] else [Field("spec"), Field("template"), Field("spec")]
  }

  lemma ListPlaces(gvk: GroupVersionKind, list: string, i: nat, field: string)
    ensures ContainerField((if gvk.kind == "Pod" then ["spec"] else ["spec", "template", "spec"]) + [list], i, field)
            == PodSpec(gvk) + [Field(list), Item(i), Field(field)]
  {
  }

  /** No container keeps its environment, nor, when sanitised, its command and the other fields named. */
  lemma ContainersLoseFields(v: Value, gvk: GroupVersionKind, sanitize: bool, nullIsEmpty: bool, list: string, i: nat, field: string)
    requires gvk.kind == "Pod" || gvk.kind == "Job" || gvk.group == "apps"
    requires list in {"containers", "initContainers"}
    requires field == "env" || (sanitize && field in {"command", "args", "livenessProbe", "securityContext"})
    ensures Lookup(Cleaned(v, gvk, sanitize, nullIsEmpty), PodSpec(gvk) + [Field(list), Item(i), Field(field)]) == None
  {
    ListPath(gvk, list);
    FieldIsNamed(sanitize, field);
    ListPlaces(gvk, list, i, field);
    ContainerFieldGone(v, gvk, sanitize, nullIsEmpty,
                       (if gvk.kind == "Pod" then ["spec"] else ["spec", "template", "spec"]) + [list], i, field);
  }

  /** One annotation that does not read as text costs the resource all of them, and only that. */
  lemma OddAnnotationRemovesAll(v: Value, gvk: GroupVersionKind, sanitize: bool, nullIsEmpty: bool)
    ensures Lookup(Cleaned(v, gvk, sanitize, nullIsEmpty), Fields(ANNOTATIONS)).Some?
            <==> GetAnnotations(v, nullIsEmpty).Some?
  {
    ConfiguredSpares(gvk, sanitize);
    CleanedAnnotations(v, Configured(gvk, sanitize), nullIsEmpty);
    if GetAnnotations(v, nullIsEmpty) == None {
      ConfiguredAreGone(v, gvk, sanitize, nullIsEmpty, ANNOTATIONS);
    }
  }

  predicate BesideStrategy(path: seq<string>) {
    |path| >= 2 && (path[0] != "spec" || path[1] != "updateStrategy")
  }

  lemma BesideStrategyIsApart(path: seq<string>, below: Path)
    requires BesideStrategy(path)
    ensures Apart(Keys(path) + below, Keys(["spec", "updateStrategy"]))
  {
    var p, q := Keys(path) + below, Keys(["spec", "updateStrategy"]);
    assert p[0] == Key(path[0]) && p[1] == Key(path[1]);
    assert q[0] == Key("spec") && q[1] == Key("updateStrategy");
  }

  lemma DaemonSetTables(version: string)
    ensures forall p :: p in COMMON_SANITIZE ==> BesideStrategy(p)
    ensures forall p :: p in COMMON_TRIM ==> BesideStrategy(p)
    ensures forall l :: l in ContainerLists(GroupVersionKind("apps", version, "DaemonSet")) ==> BesideStrategy(l)
    ensures BesideStrategy(ANNOTATIONS) && BesideStrategy(ANNOTATIONS + [LAST_APPLIED])
  {
    assert |"metadata"| == 8 && |"spec"| == 4 && |"updateStrategy"| == 14 && |"template"| == 8;
    assert |"revisionHistoryLimit"| == 20 && |"minReadySeconds"| == 15 && |"DaemonSet"| == 9 && |"Pod"| == 3;
  }

  lemma MisspeltKinds(version: string)
    ensures SanitizePaths(GroupVersionKind("apps", version, "DaemonSet")) == []
    ensures SanitizePaths(GroupVersionKind("batch", version, "CronJob")) == []
    ensures TrimPaths(GroupVersionKind("apps", version, "DaemonSet")) == []
  {
    assert "DaemonSet"[6] == 'S' && "CronJob"[4] == 'J';
  }

  /** Where a path of the tables comes from. */
  lemma ConfiguredFrom(v: Value, gvk: GroupVersionKind, nullIsEmpty: bool, p: Path) returns (path: seq<string>, below: Path)
    requires p in AnnotationPaths(v, nullIsEmpty) + Configured(gvk, true)
    ensures p == Keys(path) + below
    ensures || path == ANNOTATIONS || path == ANNOTATIONS + [LAST_APPLIED] || path in ContainerLists(gvk)
            || path in TrimPaths(gvk) || path in COMMON_TRIM || path in SanitizePaths(gvk) || path in COMMON_SANITIZE
  {
    below := [];
    if p in AnnotationPaths(v, nullIsEmpty) {
      path := if GetAnnotations(v, nullIsEmpty).Some? then ANNOTATIONS + [LAST_APPLIED] else ANNOTATIONS;
    } else if p in ContainerPaths(gvk, true) {
      var inner := InEach(FieldSet(ContainerFields(true)));
      var l := if p in Prefixed(Keys(ContainerLists(gvk)[0]), inner) then 0 else 1;
      path := ContainerLists(gvk)[l];
      below :| below in inner && p == Keys(path) + below;
    } else {
      path :| (path in TrimPaths(gvk) || path in COMMON_TRIM || path in SanitizePaths(gvk) || path in COMMON_SANITIZE)
              && p == Keys(path);
    }
    assert below == [] ==> Keys(path) + below == Keys(path);
  }

  /** The tables name no kind "DaemonSet", so that the field meant for it stays even when sanitising. */
  lemma DaemonSetKeepsStrategy(v: Value, version: string, nullIsEmpty: bool)
    ensures Lookup(Cleaned(v, GroupVersionKind("apps", version, "DaemonSet"), true, nullIsEmpty),
                   Fields(["spec", "updateStrategy"]))
            == Lookup(v, Fields(["spec", "updateStrategy"]))
  {
    var gvk := GroupVersionKind("apps", version, "DaemonSet");
    var strategy := ["spec", "updateStrategy"];
    MisspeltKinds(version);
    DaemonSetTables(version);
    assert PathOf(Fields(strategy)) == Keys(strategy);
    var paths := AnnotationPaths(v, nullIsEmpty) + Configured(gvk, true);
    forall p | p in paths ensures Apart(p, Keys(strategy)) {
      var path, below := ConfiguredFrom(v, gvk, nullIsEmpty, p);
      BesideStrategyIsApart(path, below);
    }
    assert |"spec"| == 4 && |"metadata"| == 8;
    ReadElsewhere(v, nullIsEmpty, strategy);
    LookupUntouched(AsRead(v, nullIsEmpty), paths, Fields(strategy));
  }

  // ---------- What is never removed ----------

  predicate IsConfigured(gvk: GroupVersionKind, path: seq<string>) {
    || path == ANNOTATIONS || path == ANNOTATIONS + [LAST_APPLIED] || path in ContainerLists(gvk)
    || path in TrimPaths(gvk) || path in COMMON_TRIM || path in SanitizePaths(gvk) || path in COMMON_SANITIZE
  }

  /** Everything configured is in the spec, or among three fields of the metadata. */
  predicate InSpecOrMetadata(path: seq<string>) {
    path != [] && (path[0] == "spec"
                   || (|path| > 1 && path[0] == "metadata" && path[1] in {"annotations", "managedFields", "finalizers"}))
  }

  lemma TablesInSpec(gvk: GroupVersionKind)
    requires gvk != CONTAINER
    ensures forall p :: p in SanitizePaths(gvk) ==> p != [] && p[0] == "spec"
    ensures TrimPaths(gvk) == []
  {
  }

  lemma CommonInSpecOrMetadata(gvk: GroupVersionKind)
    ensures forall p :: p in COMMON_SANITIZE || p in COMMON_TRIM || p in ContainerLists(gvk) ==> InSpecOrMetadata(p)
  {
    assert COMMON_TRIM[0][0] == "metadata" && COMMON_TRIM[0][1] == "managedFields";
  }

  lemma ConfiguredInSpecOrMetadata(gvk: GroupVersionKind, path: seq<string>)
    requires gvk != CONTAINER && IsConfigured(gvk, path)
    ensures InSpecOrMetadata(path)
  {
    TablesInSpec(gvk);
    CommonInSpecOrMetadata(gvk);
    assert ANNOTATIONS[0] == "metadata" && ANNOTATIONS[1] == "annotations";
  }

  lemma DifferIsApart(from: seq<string>, below: Path, path: seq<string>)
    requires InSpecOrMetadata(from)
    requires (|path| == 1 && path[0] !in {"spec", "metadata"})
             || (|path| == 2 && path[0] == "metadata" && path[1] !in {"annotations", "managedFields", "finalizers"})
    ensures Apart(Keys(from) + below, Keys(path))
  {
    var p, q := Keys(from) + below, Keys(path);
    assert p[0] == Key(from[0]) && q[0] == Key(path[0]);
    assert |from| > 1 ==> p[1] == Key(from[1]);
    assert |path| > 1 ==> q[1] == Key(path[1]);
    assert "spec" != "metadata" by {
      assert |"spec"| == 4 && |"metadata"| == 8;
    }
  }

  /** Nothing else of a resource is changed: its status, its kind, its name, labels and owners are as they were. */
  lemma IdentityStays(v: Value, gvk: GroupVersionKind, sanitize: bool, nullIsEmpty: bool, path: seq<string>)
    requires gvk != CONTAINER
    requires (|path| == 1 && path[0] !in {"spec", "metadata"})
             || (|path| == 2 && path[0] == "metadata" && path[1] !in {"annotations", "managedFields", "finalizers"})
    ensures Lookup(Cleaned(v, gvk, sanitize, nullIsEmpty), Fields(path)) == Lookup(v, Fields(path))
  {
    var paths := AnnotationPaths(v, nullIsEmpty) + Configured(gvk, sanitize);
    ConfiguredGrows(gvk);
    assert PathOf(Fields(path)) == Keys(path);
    forall p | p in paths ensures Apart(p, Keys(path)) {
      var from, below := ConfiguredFrom(v, gvk, nullIsEmpty, p);
      ConfiguredInSpecOrMetadata(gvk, from);
      DifferIsApart(from, below, path);
    }
    ReadElsewhere(v, nullIsEmpty, path);
    LookupUntouched(AsRead(v, nullIsEmpty), paths, Fields(path));
  }
}
