/** The paths that serve as keys of the sample and upload sets. */
module SafePaths {
  import opened Strings

  // ---------- filepath.Clean and filepath.Join ----------

  /** One more element after those that are left so far. */
  function Push(rooted: bool, out: seq<string>, element: string): seq<string> {
    if element == "" || element == "." then out
    else if element != ".." then out + [element]
    else if out != [] && out[|out| - 1] != ".." then out[..|out| - 1]
    else if rooted then out
    else out + [element]
  }

  function Fold(rooted: bool, elements: seq<string>): seq<string> {
    if elements == [] then []
    else Push(rooted, Fold(rooted, elements[..|elements| - 1]), elements[|elements| - 1])
  }

  predicate IsRooted(path: string) {
    path != "" && path[0] == '/'
  }

  function Render(rooted: bool, out: seq<string>): string {
    if rooted then "/" + Join(out, '/')
    else if out == [] then "."
    else Join(out, '/')
  }

  function Clean(path: string): string {
    Render(IsRooted(path), Fold(IsRooted(path), Split(path, '/')))
  }

  function FilepathJoin(dir: string, name: string): string {
    if dir == "" && name == "" then ""
    else if dir == "" then Clean(name)
    else Clean(dir + "/" + name)
  }

  // ---------- SafePath ----------

  /** strings.ReplaceAll(s, "..", "") */
  function RemoveDots(s: string): string {
    if |s| < 2 then s
    else if s[0] == '.' && s[1] == '.' then RemoveDots(s[2..])
    else [s[0]] + RemoveDots(s[1..])
  }

  predicate EndsInSlash(s: string) {
    s != "" && s[|s| - 1] == '/'
  }

  function SafePath(elements: seq<string>): string {
    var path := Clean(RemoveDots(Join(elements, '/')));
    if elements != [] && EndsInSlash(elements[|elements| - 1]) then path + "/" else path
  }

  // ---------- No dots ----------

  predicate NoDots(s: string) {
    forall i :: 0 <= i < |s| - 1 ==> !(s[i] == '.' && s[i + 1] == '.')
  }

  lemma {:induction false} DotsRemoved(s: string)
    ensures NoDots(RemoveDots(s))
    ensures s != "" && s[0] != '.' ==> RemoveDots(s) != "" && RemoveDots(s)[0] == s[0]
  {
    if |s| >= 2 {
      if s[0] == '.' && s[1] == '.' {
        DotsRemoved(s[2..]);
      } else {
        DotsRemoved(s[1..]);
        var rest := RemoveDots(s[1..]);
        assert s[0] == '.' ==> s[1] != '.' && rest[0] == s[1];
        assert forall i :: 1 <= i < |rest| ==> ([s[0]] + rest)[i] == rest[i - 1];
      }
    }
  }

  lemma {:induction false} NothingToRemove(s: string)
    requires NoDots(s)
    ensures RemoveDots(s) == s
  {
    if |s| >= 2 {
      assert !(s[0] == '.' && s[0 + 1] == '.');
      assert forall i :: 0 <= i < |s[1..]| ==> s[1..][i] == s[i + 1];
      NothingToRemove(s[1..]);
      assert s == [s[0]] + s[1..];
    }
  }

  lemma {:induction false} RemoveDotsAround(a: string, b: string)
    ensures RemoveDots(a + "/" + b) == RemoveDots(a) + "/" + RemoveDots(b)
    decreases |a|
  {
    var s := a + "/" + b;
    if a == "" {
      assert s == "/" + b && s[1..] == b;
      assert b == "" ==> s == "/";
    } else if |a| == 1 {
      assert s[1..] == "/" + b;
      RemoveDotsAround("", b);
      assert "" + "/" + b == "/" + b;
    } else if a[0] == '.' && a[1] == '.' {
      assert s[2..] == a[2..] + "/" + b;
      RemoveDotsAround(a[2..], b);
    } else {
      assert s[1..] == a[1..] + "/" + b;
      RemoveDotsAround(a[1..], b);
    }
  }

  /** The elements that cleaning leaves when none of them is "..". */
  function Plain(elements: seq<string>): seq<string> {
    if elements == [] then []
    else
      var last := elements[|elements| - 1];
      Plain(elements[..|elements| - 1]) + if last == "" || last == "." then [] else [last]
  }

  lemma {:induction false} PlainSum(a: seq<string>, b: seq<string>)
    ensures Plain(a + b) == Plain(a) + Plain(b)
  {
    if b == [] {
      assert a + b == a;
    } else {
      assert (a + b)[..|a + b| - 1] == a + b[..|b| - 1];
      PlainSum(a, b[..|b| - 1]);
    }
  }

  lemma {:induction false} FoldIsPlain(rooted: bool, elements: seq<string>)
    requires ".." !in elements
    ensures Fold(rooted, elements) == Plain(elements)
  {
    if elements != [] {
      FoldIsPlain(rooted, elements[..|elements| - 1]);
    }
  }

  /** Elements as they stand in a clean path. */
  predicate Tidy(out: seq<string>) {
    forall e :: e in out ==> IsName(e)
  }

  predicate IsName(name: string) {
    IsElement(name) && NoDots(name)
  }

  /** Elements as cleaning leaves them, ".." among them. */
  predicate Parts(out: seq<string>) {
    forall e :: e in out ==> IsElement(e)
  }

  predicate IsElement(e: string) {
    e != "" && e != "." && '/' !in e
  }

  lemma {:induction false} PlainIsTidy(elements: seq<string>)
    requires forall e :: e in elements ==> '/' !in e && NoDots(e)
    ensures Tidy(Plain(elements))
  {
    if elements != [] {
      PlainIsTidy(elements[..|elements| - 1]);
    }
  }

  lemma {:induction false} PartsArePlain(out: seq<string>)
    requires Parts(out)
    ensures Plain(out) == out
  {
    if out != [] {
      var front, last := out[..|out| - 1], out[|out| - 1];
      assert out == front + [last] && last in out;
      forall e | e in front ensures IsElement(e) {
        assert e in out;
      }
      PartsArePlain(front);
    }
  }

  /** The elements of a path without "..", as cleaning leaves them. */
  function Elements(path: string): seq<string> {
    Plain(Split(path, '/'))
  }

  lemma {:induction false} PartsHaveNoDots(path: string)
    requires NoDots(path)
    ensures forall e :: e in Split(path, '/') ==> '/' !in e && NoDots(e)
  {
    if '/' in path {
      var i := IndexOf(path, '/');
      var rest := path[i + 1..];
      assert forall k :: 0 <= k < |rest| ==> rest[k] == path[i + 1 + k];
      PartsHaveNoDots(rest);
    }
  }

  lemma CleanOfPlain(path: string)
    requires NoDots(path)
    ensures Clean(path) == Render(IsRooted(path), Elements(path)) && Tidy(Elements(path))
  {
    PartsHaveNoDots(path);
    assert !NoDots("..") by {
      assert ".."[0] == '.' && ".."[0 + 1] == '.';
    }
    FoldIsPlain(IsRooted(path), Split(path, '/'));
    PlainIsTidy(Split(path, '/'));
  }

  lemma {:induction false} JoinOfParts(out: seq<string>)
    requires Parts(out)
    ensures out != [] ==> Join(out, '/') != "" && Join(out, '/')[0] != '/' && !EndsInSlash(Join(out, '/'))
  {
    if out != [] {
      var first := out[0];
      assert first in out && first[0] in first && first[|first| - 1] in first;
      if |out| > 1 {
        JoinOfParts(out[1..]);
        var rest := Join(out[1..], '/');
        var s := first + "/" + rest;
        assert Join(out, '/') == s;
        assert s[|s| - 1] == rest[|rest| - 1];
      }
    }
  }

  lemma {:induction false} JoinOfTidy(out: seq<string>)
    requires Tidy(out)
    ensures NoDots(Join(out, '/'))
  {
    if out != [] {
      var first := out[0];
      assert first in out;
      if |out| > 1 {
        JoinOfTidy(out[1..]);
        var rest := Join(out[1..], '/');
        var s := first + "/" + rest;
        assert Join(out, '/') == s;
        forall i | 0 <= i < |s| - 1 ensures !(s[i] == '.' && s[i + 1] == '.') {
          if i < |first| - 1 {
            assert s[i] == first[i] && s[i + 1] == first[i + 1];
          } else if i > |first| {
            var k := i - |first| - 1;
            assert s[i] == rest[k] && s[i + 1] == rest[k + 1];
          }
        }
      }
    }
  }

  lemma RenderedEnds(rooted: bool, out: seq<string>)
    requires Parts(out)
    ensures Render(rooted, out) != "" && IsRooted(Render(rooted, out)) == rooted
    ensures EndsInSlash(Render(rooted, out)) <==> rooted && out == []
    ensures rooted && out == [] <==> Render(rooted, out) == "/"
  {
    var r, rest := Render(rooted, out), Join(out, '/');
    JoinOfParts(out);
    if rooted {
      assert |r| == 1 + |rest| && forall i :: 1 <= i < |r| ==> r[i] == rest[i - 1];
    }
  }

  lemma ElementsOfName(name: string)
    requires '/' !in name
    ensures Elements(name) == if name == "" || name == "." then [] else [name]
  {
    var elements := [name];
    assert Split(name, '/') == elements && elements[..|elements| - 1] == [];
    assert Plain(elements) == Plain([]) + if name == "" || name == "." then [] else [name];
  }

  lemma ElementsOfJoin(out: seq<string>)
    requires Parts(out)
    ensures Elements(Join(out, '/')) == out
  {
    if out == [] {
      ElementsOfName("");
    } else {
      SplitOfJoin(out, '/');
      PartsArePlain(out);
    }
  }

  lemma ElementsSum(a: string, b: string)
    ensures Elements(a + "/" + b) == Elements(a) + Elements(b)
  {
    SplitSum(a, '/', b);
    PlainSum(Split(a, '/'), Split(b, '/'));
  }

  /** A clean path, with ".." left in it or not, says by itself what it was rendered from. */
  lemma ElementsRendered(rooted: bool, out: seq<string>)
    requires Parts(out)
    ensures Elements(Render(rooted, out)) == out && IsRooted(Render(rooted, out)) == rooted
    ensures EndsInSlash(Render(rooted, out)) ==> out == []
  {
    RenderedEnds(rooted, out);
    ElementsOfJoin(out);
    if rooted {
      ElementsOfName("");
      ElementsSum("", Join(out, '/'));
      assert "" + "/" + Join(out, '/') == Render(rooted, out);
    } else if out == [] {
      ElementsOfName(".");
    }
  }

  lemma SlashAndNoDots(s: string)
    requires NoDots(s)
    ensures NoDots("/" + s)
  {
    assert forall i :: 1 <= i < |"/" + s| ==> ("/" + s)[i] == s[i - 1];
  }

  lemma RenderedParts(rooted: bool, out: seq<string>)
    requires Tidy(out)
    ensures
      var r := Render(rooted, out);
      && r != "" && NoDots(r) && IsRooted(r) == rooted && Elements(r) == out
      && (EndsInSlash(r) <==> r == "/")
      && (r == "/" <==> rooted && out == [])
  {
    ElementsRendered(rooted, out);
    RenderedEnds(rooted, out);
    JoinOfTidy(out);
    if rooted {
      SlashAndNoDots(Join(out, '/'));
    }
  }

  lemma ElementsSlash(path: string)
    ensures Elements(path + "/") == Elements(path)
  {
    assert path + "/" == path + "/" + "";
    ElementsSum(path, "");
    ElementsOfName("");
  }

  lemma CleanSlash(path: string)
    requires path != "" && NoDots(path)
    ensures NoDots(path + "/") && Clean(path + "/") == Clean(path)
  {
    var s := path + "/";
    assert forall i :: 0 <= i < |path| ==> s[i] == path[i];
    CleanOfPlain(path);
    CleanOfPlain(s);
    ElementsSlash(path);
  }

  /** What a safe path is: a clean path, with a slash if the last element had one. */
  lemma SafePathIs(elements: seq<string>) returns (rooted: bool, out: seq<string>)
    ensures Tidy(out)
    ensures SafePath(elements)
            == Render(rooted, out) + if elements != [] && EndsInSlash(elements[|elements| - 1]) then "/" else ""
    ensures rooted == IsRooted(RemoveDots(Join(elements, '/'))) && out == Elements(RemoveDots(Join(elements, '/')))
  {
    var path := RemoveDots(Join(elements, '/'));
    DotsRemoved(Join(elements, '/'));
    CleanOfPlain(path);
    rooted, out := IsRooted(path), Elements(path);
    assert Render(rooted, out) + "" == Render(rooted, out);
  }

  lemma SafePathOfTwo(dir: string, x: string)
    ensures SafePath([dir, x]) == Clean(RemoveDots(dir + "/" + x)) + if EndsInSlash(x) then "/" else ""
  {
    assert [dir, x][1..] == [x];
    assert Join([dir, x], '/') == dir + "/" + x;
    var path := Clean(RemoveDots(dir + "/" + x));
    assert path + "" == path;
  }

  // ---------- What it promises ----------

  /** Whatever goes in, no ".." comes out. */
  lemma NoTraversal(elements: seq<string>)
    ensures NoDots(SafePath(elements))
  {
    var rooted, out := SafePathIs(elements);
    RenderedParts(rooted, out);
    CleanSlash(Render(rooted, out));
  }

  /** A safe path is its own safe path, with one exception: the root gains a second slash. */
  lemma IdempotentUnlessRoot(elements: seq<string>)
    ensures SafePath([SafePath(elements)]) == SafePath(elements) <==> SafePath(elements) != "/"
  {
    var rooted, out := SafePathIs(elements);
    var r, c := SafePath(elements), Render(rooted, out);
    NoTraversal(elements);
    NothingToRemove(r);
    RenderedParts(rooted, out);
    CleanOfPlain(c);
    CleanSlash(c);
    assert r == c || r == c + "/";
    assert Clean(r) == c;
    assert EndsInSlash(c + "/");
    assert SafePath([r]) == if EndsInSlash(r) then c + "/" else c;
    assert |c + "/"| == |c| + 1;
  }

  /** For instance, for two dots at the root. */
  lemma RootOfDots()
    ensures SafePath(["/.."]) == "/" && SafePath(["/"]) == "//"
  {
    assert "/.."[1..] == "..";
    assert RemoveDots("..") == RemoveDots("");
    assert RemoveDots("/..") == "/";
    assert Split("/", '/') == ["", ""] by {
      SplitSum("", '/', "");
      assert "/" == "" + "/" + "";
    }
    CleanOfPlain("/");
    assert Plain(["", ""]) == [] by {
      assert ["", ""][..1] == [""] && [""][..0] == [];
    }
  }

  lemma BelowBase(base: string, x: string) returns (path: string)
    requires base != "" && NoDots(base)
    ensures path == base + "/" + RemoveDots(x) && NoDots(path)
    ensures SafePath([base, x]) == Clean(path) + if EndsInSlash(x) then "/" else ""
  {
    SafePathOfTwo(base, x);
    RemoveDotsAround(base, x);
    NothingToRemove(base);
    DotsRemoved(base + "/" + x);
    path := RemoveDots(base + "/" + x);
  }

  lemma ElementsOfClean(path: string)
    requires NoDots(path)
    ensures Elements(Clean(path)) == Elements(Clean(path) + "/") == Elements(path)
    ensures Clean(path) != "" && IsRooted(Clean(path)) == IsRooted(path)
  {
    CleanOfPlain(path);
    RenderedParts(IsRooted(path), Elements(path));
    ElementsSlash(Clean(path));
  }

  /**
   * Below a base without "..", a safe path consists of the base's elements and then of whatever the
   * rest has once its dots are gone: nothing leads out of the base.
   */
  lemma StaysBelowBase(base: string, x: string)
    requires base != "" && NoDots(base)
    ensures Elements(SafePath([base, x])) == Elements(base) + Elements(RemoveDots(x))
    ensures IsRooted(SafePath([base, x])) == IsRooted(base)
  {
    var path := BelowBase(base, x);
    ElementsOfClean(path);
    ElementsSum(base, RemoveDots(x));
    assert path[0] == base[0];
    assert Clean(path) + "" == Clean(path);
  }

  // ---------- The keys of the sets ----------

  lemma {:induction false} FoldedParts(rooted: bool, elements: seq<string>)
    requires forall e :: e in elements ==> '/' !in e
    ensures Parts(Fold(rooted, elements))
  {
    if elements != [] {
      FoldedParts(rooted, elements[..|elements| - 1]);
    }
  }

  /** What filepath.Clean leaves of a path, ".." resolved as far as it goes. */
  function CleanElements(path: string): seq<string> {
    Fold(IsRooted(path), Split(path, '/'))
  }

  lemma CleanedParts(path: string)
    ensures Parts(CleanElements(path)) && Clean(path) == Render(IsRooted(path), CleanElements(path))
  {
    SplitWithout(path, '/');
    FoldedParts(IsRooted(path), Split(path, '/'));
  }

  lemma RenderIsInjective(rooted: bool, out: seq<string>, rooted': bool, out': seq<string>)
    requires Parts(out) && Parts(out') && Render(rooted, out) == Render(rooted', out')
    ensures rooted == rooted' && out == out'
  {
    ElementsRendered(rooted, out);
    ElementsRendered(rooted', out');
  }

  lemma TwoDots()
    ensures !NoDots("..") && RemoveDots("..") == ""
  {
    assert ".."[0] == '.' && ".."[0 + 1] == '.' && ".."[2..] == "";
  }

  /** A name behind a directory is one more element of the clean path. */
  lemma NameAdded(dir: string, name: string)
    requires dir != "" && IsName(name)
    ensures Clean(dir + "/" + name) == Render(IsRooted(dir), CleanElements(dir) + [name])
    ensures Parts(CleanElements(dir) + [name])
  {
    SplitSum(dir, '/', name);
    var elements := Split(dir, '/') + [name];
    assert Split(dir + "/" + name, '/') == elements && elements[..|elements| - 1] == Split(dir, '/');
    TwoDots();
    CleanedParts(dir);
  }

  lemma NameAlone(name: string)
    requires IsName(name)
    ensures Clean(name) == name && Clean("" + "/" + name) == "/" + name
  {
    NothingToRemove(name);
    ElementsOfName(name);
    ElementsOfName("");
    ElementsSum("", name);
    DotsRemoved("" + "/" + name);
    RemoveDotsAround("", name);
    CleanOfPlain(name);
    CleanOfPlain("" + "/" + name);
    assert name[0] in name;
  }

  /** Deleting the dots of a directory comes to the same as resolving them. */
  predicate DotsResolve(dir: string) {
    dir != "" && Clean(dir) == Clean(RemoveDots(dir))
  }

  lemma SlashStays(dir: string)
    ensures '/' in dir ==> RemoveDots(dir) != ""
  {
    if '/' in dir {
      var i := IndexOf(dir, '/');
      assert dir == dir[..i] + "/" + dir[i + 1..];
      RemoveDotsAround(dir[..i], dir[i + 1..]);
    }
  }

  lemma EmptyIsClean()
    ensures Clean("") == "."
  {
    var elements := [""];
    assert Split("", '/') == elements && elements[..|elements| - 1] == [];
    assert Fold(false, elements) == Push(false, Fold(false, []), "");
  }

  /** A directory of dots alone is one element, not resolved, where deleting leaves none. */
  lemma OnlyDots(dir: string)
    requires dir != "" && RemoveDots(dir) == ""
    ensures !IsRooted(dir) && Clean(dir) == dir && Clean("") == "." && dir != "."
  {
    SlashStays(dir);
    var elements := [dir];
    assert Split(dir, '/') == elements && elements[..|elements| - 1] == [];
    assert Fold(false, elements) == Push(false, Fold(false, []), dir);
    EmptyIsClean();
  }

  /** SafePath and filepath.Join agree on the entry of a directory, before SafePath's slash. */
  lemma PathsAgree(dir: string, name: string)
    requires IsName(name)
    ensures Clean(RemoveDots(dir + "/" + name)) == FilepathJoin(dir, name) <==> DotsResolve(dir)
  {
    var safe := RemoveDots(dir);
    RemoveDotsAround(dir, name);
    NothingToRemove(name);
    assert RemoveDots(dir + "/" + name) == safe + "/" + name;
    NameAlone(name);
    if dir != "" {
      NameAdded(dir, name);
      CleanedParts(dir);
      if safe == "" {
        OnlyDots(dir);
        assert Clean(safe + "/" + name)[0] == '/';
        ElementsRendered(false, CleanElements(dir) + [name]);
      } else {
        NameAdded(safe, name);
        CleanedParts(safe);
        if Clean(dir) == Clean(safe) {
          RenderIsInjective(IsRooted(dir), CleanElements(dir), IsRooted(safe), CleanElements(safe));
        }
        if Clean(dir + "/" + name) == Clean(safe + "/" + name) {
          RenderIsInjective(IsRooted(dir), CleanElements(dir) + [name], IsRooted(safe), CleanElements(safe) + [name]);
          assert (CleanElements(dir) + [name])[..|CleanElements(dir)|] == CleanElements(dir);
          assert (CleanElements(safe) + [name])[..|CleanElements(safe)|] == CleanElements(safe);
        }
      }
    }
  }

  /**
   * A tar is queued under SafePath and cleared away under filepath.Join: for every name the same
   * entry if and only if the directory's dots resolve.
   */
  lemma UploadKeysAgree(dir: string, name: string)
    requires IsName(name)
    ensures SafePath([dir, name]) == FilepathJoin(dir, name) <==> DotsResolve(dir)
  {
    SafePathOfTwo(dir, name);
    PathsAgree(dir, name);
    assert name[|name| - 1] in name;
    var path := Clean(RemoveDots(dir + "/" + name));
    assert path + "" == path;
  }

  lemma SameBeforeSlash(a: string, b: string)
    ensures a + "/" == b + "/" <==> a == b
  {
    assert (a + "/")[..|a + "/"| - 1] == a && (b + "/")[..|b + "/"| - 1] == b;
  }

  /**
   * A sample is added under SafePath with a slash, opened and so removed after packing under the
   * safe path of that, which is the same, and forgotten by the emitter under filepath.Join with a
   * slash, which is the same if and only if the directory's dots resolve.
   */
  lemma SampleKeysAgree(dir: string, name: string)
    requires IsName(name)
    ensures SafePath([SafePath([dir, name + "/"])]) == SafePath([dir, name + "/"])
    ensures SafePath([dir, name + "/"]) == FilepathJoin(dir, name) + "/" <==> DotsResolve(dir)
  {
    var s := dir + "/" + name;
    var safe := RemoveDots(s);
    assert dir + "/" + (name + "/") == s + "/" + "" && s + "/" == s + "/" + "";
    RemoveDotsAround(s, "");
    RemoveDotsAround(dir, name);
    DotsRemoved(s);
    assert safe + "/" + "" == safe + "/";
    CleanSlash(safe);
    SafePathOfTwo(dir, name + "/");
    assert EndsInSlash(name + "/");
    PathsAgree(dir, name);
    var key := SafePath([dir, name + "/"]);
    assert key == Clean(safe) + "/";
    SameBeforeSlash(Clean(safe), FilepathJoin(dir, name));
    ElementsOfClean(safe);
    assert |key| > 1;
    IdempotentUnlessRoot([dir, name + "/"]);
  }

  lemma CleanOfRoot(last: string, path: string)
    requires last in {"", ".."} && path == "" + "/" + last
    ensures Clean(path) == "/"
  {
    var elements := ["", last];
    SplitFront("", '/', last);
    assert Split(path, '/') == elements && elements[..1] == [""] && [""][..0] == [];
    assert Fold(true, [""]) == [];
    assert Fold(true, elements) == [];
  }

  lemma DotsAboveRoot()
    ensures DotsResolve("/..")
  {
    CleanOfRoot("", "/");
    CleanOfRoot("..", "/..");
    TwoDots();
    RemoveDotsAround("", "..");
    assert "" + "/" + ".." == "/.." && "" + "/" + "" == "/";
    assert RemoveDots("") == "";
  }

  /** For instance, for every directory without two dots in a row, and for some others. */
  lemma DirectoriesThatAgree(dir: string)
    ensures dir != "" && NoDots(dir) ==> DotsResolve(dir)
    ensures DotsResolve("/..")
  {
    if NoDots(dir) {
      NothingToRemove(dir);
    }
    DotsAboveRoot();
  }

  lemma {:induction false} PlainMembers(elements: seq<string>)
    ensures forall e :: e in Plain(elements) ==> e in elements
  {
    if elements != [] {
      PlainMembers(elements[..|elements| - 1]);
    }
  }

  lemma NoDotsRendered(rooted: bool, out: seq<string>)
    requires Parts(out)
    ensures NoDots(Render(rooted, out)) <==> Tidy(out)
  {
    if Tidy(out) {
      RenderedParts(rooted, out);
    }
    if NoDots(Render(rooted, out)) {
      ElementsRendered(rooted, out);
      PartsHaveNoDots(Render(rooted, out));
      PlainMembers(Split(Render(rooted, out), '/'));
    }
  }

  /**
   * A directory that recovery finds is added as the walk names it, with dots resolved, and removed
   * under the safe path of that: the same if and only if no dots are left.
   */
  lemma RecoveredKeysAgree(dir: string, name: string)
    requires IsName(name)
    ensures SafePath([FilepathJoin(dir, name)]) == FilepathJoin(dir, name) <==> NoDots(Clean(dir))
  {
    var p := FilepathJoin(dir, name);
    var rooted, out := IsRooted(dir), CleanElements(dir);
    CleanedParts(dir);
    NameAlone(name);
    EmptyIsClean();
    if dir == "" {
      assert Render(false, [name]) == name && rooted == false && out == [] by {
        RenderIsInjective(false, [], false, out);
      }
      assert p == Render(rooted, out + [name]) && Parts(out + [name]);
    } else {
      NameAdded(dir, name);
    }
    NoDotsRendered(rooted, out);
    NoDotsRendered(rooted, out + [name]);
    assert NoDots(p) <==> NoDots(Clean(dir));
    ElementsRendered(rooted, out + [name]);
    NoTraversal([p]);
    if NoDots(p) {
      NothingToRemove(p);
      CleanOfPlain(p);
      assert Join([p], '/') == p && !EndsInSlash(p);
    }
  }

  /** With no directory configured the two disagree: one is at the root, the other is relative. */
  lemma EmptyDirectoryDisagrees(name: string)
    requires IsName(name)
    ensures SafePath(["", name]) == "/" + name && FilepathJoin("", name) == name
  {
    SafePathOfTwo("", name);
    RemoveDotsAround("", name);
    NothingToRemove(name);
    DotsRemoved("" + "/" + name);
    ElementsSum("", name);
    ElementsOfName("");
    ElementsOfName(name);
    CleanOfPlain("" + "/" + name);
    CleanOfPlain(name);
    assert name[0] in name && name[|name| - 1] in name;
  }

  lemma FoldOfDots(dir: string, name: string)
    requires IsName(dir) && IsName(name)
    ensures Fold(false, [dir, "..", name]) == [name]
  {
    var elements := [dir, "..", name];
    assert elements[..2] == [dir, ".."] && [dir, ".."][..1] == [dir] && [dir][..0] == [];
    TwoDots();
    assert Fold(false, [dir]) == [dir];
    assert Fold(false, [dir, ".."]) == [];
  }

  lemma DotsResolved(dir: string, name: string)
    requires IsName(dir) && IsName(name)
    ensures Clean(dir + "/.." + "/" + name) == name
  {
    var s, elements := dir + "/.." + "/" + name, [dir, "..", name];
    assert s == dir + "/" + (".." + "/" + name);
    SplitFront(dir, '/', ".." + "/" + name);
    SplitFront("..", '/', name);
    assert Split(s, '/') == elements;
    assert dir[0] in dir && s[0] == dir[0];
    FoldOfDots(dir, name);
  }

  lemma ElementsOfGap(dir: string, name: string)
    requires IsName(dir) && IsName(name)
    ensures Elements(dir + "/" + "" + "/" + name) == [dir, name]
  {
    ElementsSum(dir + "/" + "", name);
    ElementsSum(dir, "");
    ElementsOfName(dir);
    ElementsOfName("");
    ElementsOfName(name);
  }

  lemma GapCleaned(dir: string, name: string)
    requires IsName(dir) && IsName(name) && NoDots(dir + "/" + "" + "/" + name)
    ensures Clean(dir + "/" + "" + "/" + name) == dir + "/" + name
  {
    var path, out := dir + "/" + "" + "/" + name, [dir, name];
    CleanOfPlain(path);
    assert path[0] == dir[0] && dir[0] in dir;
    assert Elements(path) == out by {
      ElementsOfGap(dir, name);
    }
    assert out[1..] == [name];
    assert Join(out, '/') == dir + "/" + name;
  }

  lemma DotsDeleted(dir: string, name: string)
    requires IsName(dir) && IsName(name)
    ensures SafePath([dir + "/..", name]) == dir + "/" + name
  {
    SafePathOfTwo(dir + "/..", name);
    RemoveDotsAround(dir + "/..", name);
    RemoveDotsAround(dir, "..");
    assert dir + "/" + ".." == dir + "/..";
    TwoDots();
    NothingToRemove(dir);
    NothingToRemove(name);
    DotsRemoved(dir + "/.." + "/" + name);
    GapCleaned(dir, name);
    assert name[|name| - 1] in name;
  }

  /** With ".." in the configured directory too: one resolves the dots, the other deletes them. */
  lemma DotsDisagree(dir: string, name: string)
    requires IsName(dir) && IsName(name)
    ensures FilepathJoin(dir + "/..", name) == name
    ensures SafePath([dir + "/..", name]) == dir + "/" + name
  {
    DotsResolved(dir, name);
    DotsDeleted(dir, name);
  }
}
