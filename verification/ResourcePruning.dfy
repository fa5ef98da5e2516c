/** Removing fields from nested resource trees by their paths. */
module ResourcePruning {
  import opened Wrappers

  datatype Value =
    | Null
    | Text(text: string)
    | Scalar(literal: string)
    | List(items: seq<Value>)
    | Object(fields: map<string, Value>)

  /** A step of a path that is configured: into a field, or into every element of a list. */
  datatype Step = Key(key: string) | Each

  type Path = seq<Step>

  function Tails(paths: set<Path>, step: Step): set<Path> {
    set p | p in paths && p != [] && p[0] == step :: p[1..]
  }

  /** The simple specification: without every field that a path leads to. */
  function Prune(v: Value, paths: set<Path>): Value
    decreases v
  {
    match v
    case Null => v
    case Text(_) => v
    case Scalar(_) => v
    case List(items) => List(seq(|items|, i requires 0 <= i < |items| => Prune(items[i], Tails(paths, Each))))
    case Object(fields) =>
      Object(map k | k in fields && [Key(k)] !in paths :: Prune(fields[k], Tails(paths, Key(k))))
  }

  lemma TailsSum(p: set<Path>, q: set<Path>, step: Step)
    ensures Tails(p + q, step) == Tails(p, step) + Tails(q, step)
  {
  }

  /** Two prunings are one: order does not matter, and pruning again changes nothing. */
  lemma {:induction false} PruneTwice(v: Value, p: set<Path>, q: set<Path>)
    ensures Prune(Prune(v, p), q) == Prune(v, p + q)
    decreases v
  {
    match v
    case Null =>
    case Text(_) =>
    case Scalar(_) =>
    case List(items) =>
      TailsSum(p, q, Each);
      forall i | 0 <= i < |items|
        ensures Prune(Prune(items[i], Tails(p, Each)), Tails(q, Each)) == Prune(items[i], Tails(p + q, Each))
      {
        PruneTwice(items[i], Tails(p, Each), Tails(q, Each));
      }
    case Object(fields) =>
      forall k | k in fields
        ensures Prune(Prune(fields[k], Tails(p, Key(k))), Tails(q, Key(k))) == Prune(fields[k], Tails(p + q, Key(k)))
      {
        TailsSum(p, q, Key(k));
        PruneTwice(fields[k], Tails(p, Key(k)), Tails(q, Key(k)));
      }
  }

  lemma {:induction false} PruneNothing(v: Value)
    ensures Prune(v, {}) == v
    decreases v
  {
    match v
    case Null =>
    case Text(_) =>
    case Scalar(_) =>
    case List(items) =>
      assert Tails({}, Each) == {};
      forall i | 0 <= i < |items| ensures Prune(items[i], {}) == items[i] {
        PruneNothing(items[i]);
      }
    case Object(fields) =>
      forall k | k in fields ensures Tails({}, Key(k)) == {} && Prune(fields[k], {}) == fields[k] {
        PruneNothing(fields[k]);
      }
  }

  // ---------- What survives ----------

  /** A step to one place of one tree. */
  datatype Place = Field(key: string) | Item(index: nat)

  function StepOf(place: Place): Step {
    match place
    case Field(key) => Key(key)
    case Item(_) => Each
  }

  function PathOf(places: seq<Place>): Path {
    seq(|places|, i requires 0 <= i < |places| => StepOf(places[i]))
  }

  function Lookup(v: Value, places: seq<Place>): Option<Value> {
    if places == [] then Some(v)
    else
      match (v, places[0])
      case (Object(fields), Field(k)) => if k in fields then Lookup(fields[k], places[1..]) else None
      case (List(items), Item(i)) => if i < |items| then Lookup(items[i], places[1..]) else None
      case _ => None
  }

  /** A configured path that ends in a field leads to the place or to something around it. */
  ghost predicate Cut(paths: set<Path>, places: seq<Place>) {
    exists i :: 0 < i <= |places| && places[i - 1].Field? && PathOf(places[..i]) in paths
  }

  /** What the configured paths say about the inside of a place. */
  function Rest(paths: set<Path>, places: seq<Place>): set<Path>
    decreases |places|
  {
    if places == [] then paths else Rest(Tails(paths, StepOf(places[0])), places[1..])
  }

  lemma CutFront(paths: set<Path>, places: seq<Place>)
    requires places != []
    ensures Cut(paths, places) <==>
      ((places[0].Field? && [StepOf(places[0])] in paths) || Cut(Tails(paths, StepOf(places[0])), places[1..]))
  {
    var step, rest := StepOf(places[0]), places[1..];
    assert PathOf(places[..1]) == [step];
    forall i | 0 < i <= |rest|
      ensures places[i] == rest[i - 1]
      ensures PathOf(places[..i + 1]) in paths <==> PathOf(rest[..i]) in Tails(paths, step)
    {
      assert PathOf(places[..i + 1]) == [step] + PathOf(rest[..i]);
      assert PathOf(places[..i + 1])[1..] == PathOf(rest[..i]);
      forall p | p in paths && p != [] && p[0] == step && p[1..] == PathOf(rest[..i])
        ensures p == PathOf(places[..i + 1])
      {
        assert p == [step] + p[1..];
      }
    }
    if Cut(paths, places) {
      var i :| 0 < i <= |places| && places[i - 1].Field? && PathOf(places[..i]) in paths;
      if i > 1 {
        assert PathOf(rest[..i - 1]) in Tails(paths, step);
        assert rest[i - 2].Field?;
      }
    }
    if Cut(Tails(paths, step), rest) {
      var i :| 0 < i <= |rest| && rest[i - 1].Field? && PathOf(rest[..i]) in Tails(paths, step);
      assert places[(i + 1) - 1].Field? && PathOf(places[..i + 1]) in paths;
    }
  }

  /** Whatever is not cut off is still at its place, pruned by what the paths say of its inside. */
  lemma {:induction false} WhatSurvives(v: Value, paths: set<Path>, places: seq<Place>)
    ensures Lookup(Prune(v, paths), places)
            == if Cut(paths, places) || Lookup(v, places) == None then None
               else Some(Prune(Lookup(v, places).value, Rest(paths, places)))
  {
    if places != [] {
      CutFront(paths, places);
      match (v, places[0])
      case (Object(fields), Field(k)) =>
        if k in fields {
          WhatSurvives(fields[k], Tails(paths, Key(k)), places[1..]);
        }
      case (List(items), Item(i)) =>
        if i < |items| {
          WhatSurvives(items[i], Tails(paths, Each), places[1..]);
        }
      case _ =>
    }
  }

  predicate IsLeaf(v: Value) {
    v.Null? || v.Text? || v.Scalar?
  }

  /** A leaf survives, unchanged, if and only if no configured path is a prefix of its own. */
  lemma LeafSurvives(v: Value, paths: set<Path>, places: seq<Place>)
    requires Lookup(v, places).Some? && IsLeaf(Lookup(v, places).value)
    ensures Lookup(Prune(v, paths), places) == if Cut(paths, places) then None else Lookup(v, places)
  {
    WhatSurvives(v, paths, places);
  }

  /** Neither path leads through the other. */
  predicate Apart(p: Path, q: Path) {
    !(p <= q) && !(q <= p)
  }

  lemma ApartTail(step: Step, p: Path, q: Path)
    ensures Apart([step] + p, [step] + q) ==> Apart(p, q)
  {
    assert p <= q ==> [step] + p <= [step] + q by {
      assert p <= q ==> ([step] + q)[..1 + |p|] == [step] + q[..|p|];
    }
    assert q <= p ==> [step] + q <= [step] + p by {
      assert q <= p ==> ([step] + p)[..1 + |q|] == [step] + p[..|q|];
    }
  }

  lemma {:induction false} RestOfApart(paths: set<Path>, places: seq<Place>)
    requires forall p :: p in paths ==> Apart(p, PathOf(places))
    ensures Rest(paths, places) == {} && !Cut(paths, places)
    decreases |places|
  {
    if places == [] {
      assert PathOf(places) == [];
    } else {
      CutFront(paths, places);
      var step, rest := StepOf(places[0]), places[1..];
      assert PathOf(places) == [step] + PathOf(rest);
      forall p | p in Tails(paths, step) ensures Apart(p, PathOf(rest)) {
        assert [step] + p in paths by {
          var q :| q in paths && q != [] && q[0] == step && q[1..] == p;
          assert q == [step] + p;
        }
        ApartTail(step, p, PathOf(rest));
      }
      RestOfApart(Tails(paths, step), rest);
      assert [step] in paths ==> Apart([step], PathOf(places));
    }
  }

  /** A place that the paths keep apart from is not touched at all. */
  lemma LookupUntouched(v: Value, paths: set<Path>, places: seq<Place>)
    requires forall p :: p in paths ==> Apart(p, PathOf(places))
    ensures Lookup(Prune(v, paths), places) == Lookup(v, places)
  {
    RestOfApart(paths, places);
    WhatSurvives(v, paths, places);
    if Lookup(v, places).Some? {
      PruneNothing(Lookup(v, places).value);
    }
  }

  // ---------- The operations on a tree ----------

  function Keys(path: seq<string>): Path {
    seq(|path|, i requires 0 <= i < |path| => Key(path[i]))
  }

  function Fields(path: seq<string>): seq<Place> {
    seq(|path|, i requires 0 <= i < |path| => Field(path[i]))
  }

  /** RemoveNestedField: it gives up where the tree has no object to go on into. */
  function RemoveNestedField(v: Value, path: seq<string>): Value
    requires path != []
  {
    match v
    case Object(fields) =>
      if path[0] !in fields then v
      else if |path| == 1 then Object(fields - {path[0]})
      else Object(fields[path[0] := RemoveNestedField(fields[path[0]], path[1..])])
    case _ => v
  }

  /** Puts a value where there is one. */
  function Replace(v: Value, path: seq<string>, value: Value): Value {
    if path == [] then value
    else if v.Object? && path[0] in v.fields then Object(v.fields[path[0] := Replace(v.fields[path[0]], path[1..], value)])
    else v
  }

  // ---------- Replacing ----------

  lemma {:induction false} LookupReplaced(v: Value, path: seq<string>, value: Value)
    requires Lookup(v, Fields(path)).Some?
    ensures Lookup(Replace(v, path, value), Fields(path)) == Some(value)
  {
    if path != [] {
      assert Fields(path)[1..] == Fields(path[1..]);
      LookupReplaced(v.fields[path[0]], path[1..], value);
    }
  }

  lemma {:induction false} ReplaceTwice(v: Value, path: seq<string>, a: Value, b: Value)
    ensures Replace(Replace(v, path, a), path, b) == Replace(v, path, b)
  {
    if path != [] && v.Object? && path[0] in v.fields {
      ReplaceTwice(v.fields[path[0]], path[1..], a, b);
    }
  }

  lemma {:induction false} ReplaceBySame(v: Value, path: seq<string>)
    requires Lookup(v, Fields(path)).Some?
    ensures Replace(v, path, Lookup(v, Fields(path)).value) == v
  {
    if path != [] {
      assert Fields(path)[1..] == Fields(path[1..]);
      ReplaceBySame(v.fields[path[0]], path[1..]);
    }
  }

  lemma TailsApart(path: seq<string>, paths: set<Path>)
    requires path != [] && forall p :: p in paths ==> Apart(p, Keys(path))
    ensures forall p :: p in Tails(paths, Key(path[0])) ==> Apart(p, Keys(path[1..]))
    ensures [Key(path[0])] !in paths
  {
    var step := Key(path[0]);
    assert Keys(path) == [step] + Keys(path[1..]);
    forall p | p in Tails(paths, step) ensures Apart(p, Keys(path[1..])) {
      var q :| q in paths && q != [] && q[0] == step && q[1..] == p;
      assert q == [step] + p;
      ApartTail(step, p, Keys(path[1..]));
    }
    assert [step] <= Keys(path);
  }

  lemma PruneOneReplaced(fields: map<string, Value>, key: string, value: Value, paths: set<Path>)
    requires key in fields && [Key(key)] !in paths
    ensures Prune(Object(fields[key := value]), paths)
            == Object(Prune(Object(fields), paths).fields[key := Prune(value, Tails(paths, Key(key)))])
  {
  }

  /** Replacing commutes with pruning elsewhere. */
  lemma {:induction false} PruneReplaced(v: Value, path: seq<string>, value: Value, paths: set<Path>)
    requires forall p :: p in paths ==> Apart(p, Keys(path))
    requires Lookup(v, Fields(path)).Some?
    ensures Prune(Replace(v, path, value), paths) == Replace(Prune(v, paths), path, value)
  {
    if path == [] {
      assert paths == {} by {
        assert Keys(path) == [];
        forall p ensures p !in paths {
          assert Keys(path) <= p;
        }
      }
      PruneNothing(value);
    } else {
      assert Fields(path)[1..] == Fields(path[1..]);
      var key := path[0];
      TailsApart(path, paths);
      PruneReplaced(v.fields[key], path[1..], value, Tails(paths, Key(key)));
      PruneOneReplaced(v.fields, key, Replace(v.fields[key], path[1..], value), paths);
    }
  }

  /** And leaves every place that does not lead into the path or through it. */
  lemma {:induction false} LookupElsewhere(v: Value, path: seq<string>, value: Value, places: seq<Place>)
    requires Apart(PathOf(places), Keys(path))
    ensures Lookup(Replace(v, path, value), places) == Lookup(v, places)
    decreases |path|
  {
    assert Keys([]) == [] && PathOf([]) == [];
    if path != [] && places != [] && v.Object? && path[0] in v.fields {
      assert PathOf(places) == [StepOf(places[0])] + PathOf(places[1..]);
      assert Keys(path) == [Key(path[0])] + Keys(path[1..]);
      if places[0] == Field(path[0]) {
        ApartTail(Key(path[0]), PathOf(places[1..]), Keys(path[1..]));
        LookupElsewhere(v.fields[path[0]], path[1..], value, places[1..]);
      }
    }
  }

  function Prefixed(front: Path, paths: set<Path>): set<Path> {
    set p | p in paths :: front + p
  }

  lemma TailsOfPrefixed(path: seq<string>, paths: set<Path>, key: string)
    requires path != []
    ensures Tails(Prefixed(Keys(path), paths), Key(key))
            == if key == path[0] then Prefixed(Keys(path[1..]), paths) else {}
  {
    assert Keys(path) == [Key(path[0])] + Keys(path[1..]);
    forall p ensures (Keys(path) + p)[1..] == Keys(path[1..]) + p && (Keys(path) + p)[0] == Key(path[0]) {}
    if key == path[0] {
      forall p | p in paths ensures Keys(path[1..]) + p in Tails(Prefixed(Keys(path), paths), Key(key)) {
        assert Keys(path) + p in Prefixed(Keys(path), paths);
      }
    }
  }

  /** Paths into fields say nothing of what is not an object. */
  lemma PruneNoObject(v: Value, paths: set<Path>)
    requires !v.Object? && forall p: Path :: p in paths ==> p != [] && p[0].Key?
    ensures Prune(v, paths) == v
  {
    if v.List? {
      assert Tails(paths, Each) == {};
      forall i | 0 <= i < |v.items| ensures Prune(v.items[i], {}) == v.items[i] {
        PruneNothing(v.items[i]);
      }
    }
  }

  lemma PruneFields(fields: map<string, Value>, path: seq<string>, paths: set<Path>)
    requires path != [] && forall p :: p in Prefixed(Keys(path), paths) ==> |p| > 1
    ensures Prune(Object(fields), Prefixed(Keys(path), paths))
            == if path[0] in fields
               then Object(fields[path[0] := Prune(fields[path[0]], Prefixed(Keys(path[1..]), paths))])
               else Object(fields)
  {
    forall k | k in fields
      ensures Prune(fields[k], Tails(Prefixed(Keys(path), paths), Key(k)))
              == if k == path[0] then Prune(fields[k], Prefixed(Keys(path[1..]), paths)) else fields[k]
    {
      TailsOfPrefixed(path, paths, k);
      PruneNothing(fields[k]);
    }
  }

  lemma PruneOneField(v: Value, path: seq<string>, paths: set<Path>)
    requires path != [] && [] !in paths
    ensures Prune(v, Prefixed(Keys(path), paths))
            == if v.Object? && path[0] in v.fields
               then Object(v.fields[path[0] := Prune(v.fields[path[0]], Prefixed(Keys(path[1..]), paths))])
               else v
  {
    var below := Prefixed(Keys(path), paths);
    forall p | p in below ensures |p| > 1 && p[0] == Key(path[0]) {}
    if v.Object? {
      PruneFields(v.fields, path, paths);
    } else {
      PruneNoObject(v, below);
    }
  }

  /** Pruning below a path is pruning what is there, and nothing when nothing is. */
  lemma {:induction false} PruneBelow(v: Value, path: seq<string>, paths: set<Path>)
    requires [] !in paths
    ensures Prune(v, Prefixed(Keys(path), paths))
            == match Lookup(v, Fields(path))
               case None => v
               case Some(inner) => Replace(v, path, Prune(inner, paths))
  {
    if path == [] {
      assert Prefixed([], paths) == paths by {
        assert forall p: Path :: [] + p == p;
      }
      assert Keys(path) == [];
    } else {
      assert Fields(path)[1..] == Fields(path[1..]);
      PruneOneField(v, path, paths);
      if v.Object? && path[0] in v.fields {
        PruneBelow(v.fields[path[0]], path[1..], paths);
      }
    }
  }

  lemma PruneField(v: Value, key: string)
    ensures Prune(v, {[Key(key)]}) == if v.Object? then Object(v.fields - {key}) else v
  {
    if v.Object? {
      forall k | k in v.fields && k != key ensures Prune(v.fields[k], Tails({[Key(key)]}, Key(k))) == v.fields[k] {
        assert Tails({[Key(key)]}, Key(k)) == {};
        PruneNothing(v.fields[k]);
      }
    } else {
      PruneNoObject(v, {[Key(key)]});
    }
  }

  lemma {:induction false} RemoveReplaces(v: Value, path: seq<string>, key: string)
    ensures RemoveNestedField(v, path + [key])
            == match Lookup(v, Fields(path))
               case None => v
               case Some(inner) => Replace(v, path, Prune(inner, {[Key(key)]}))
  {
    if path == [] {
      assert Fields(path) == [];
      PruneField(v, key);
      assert (path + [key]) == [key];
    } else {
      assert Fields(path)[1..] == Fields(path[1..]);
      assert (path + [key])[1..] == path[1..] + [key];
      if v.Object? && path[0] in v.fields {
        RemoveReplaces(v.fields[path[0]], path[1..], key);
      }
    }
  }

  lemma {:induction false} RemovePrunes(v: Value, path: seq<string>)
    requires path != []
    ensures RemoveNestedField(v, path) == Prune(v, {Keys(path)})
  {
    var last := |path| - 1;
    assert path == path[..last] + [path[last]];
    assert Keys(path) == Keys(path[..last]) + [Key(path[last])];
    assert Prefixed(Keys(path[..last]), {[Key(path[last])]}) == {Keys(path)};
    PruneBelow(v, path[..last], {[Key(path[last])]});
    RemoveReplaces(v, path[..last], path[last]);
  }
}
