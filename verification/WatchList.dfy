/**
 What the watch list of a configuration is good for (src/config/config_merge.cpp, src/config/store.h). An include is
 looked up under the name its directive gives but noted under its canonical name, so a link in between goes unwatched.
 */
module WatchList {
  import opened Lists
  import opened TableMerge
  import opened Includes

  // ---------------------------------------------------------------- the names that are looked up

  ghost function TargetsOf(file: File): (targets: set<Path>)
    requires file.Text?
    ensures forall target :: target in targets <==> target in file.includes || target in file.optional
  {
    Members(file.includes) + Members(file.optional)
  }

  /** Every include target of the files of an order, as its directive names it. */
  ghost function Targets(fs: FileSystem, order: seq<Path>): set<Path>
    requires fs.AllText(order)
  {
    if order == [] then {}
    else Targets(fs, order[..|order| - 1]) + TargetsOf(fs.files[order[|order| - 1]])
  }

  lemma UnionAssociates<T>(a: set<T>, b: set<T>, c: set<T>)
    ensures a + b + c == a + (b + c)
  {
  }

  lemma TargetsStep(fs: FileSystem, order: seq<Path>)
    requires fs.AllText(order) && order != []
    ensures Targets(fs, order) == Targets(fs, order[..|order| - 1]) + TargetsOf(fs.files[order[|order| - 1]])
  {
  }

  lemma {:induction false} TargetsConcat(fs: FileSystem, front: seq<Path>, back: seq<Path>)
    requires fs.AllText(front) && fs.AllText(back)
    ensures fs.AllText(front + back) && Targets(fs, front + back) == Targets(fs, front) + Targets(fs, back)
  {
    hide TargetsOf;
    assert Targets(fs, []) == {};
    hide Targets;
    if back == [] {
      assert front + back == front;
    } else {
      var all, backFront := front + back, back[..|back| - 1];
      assert all[..|all| - 1] == front + backFront && all[|all| - 1] == back[|back| - 1];
      TargetsConcat(fs, front, backFront);
      TargetsStep(fs, all);
      TargetsStep(fs, back);
      UnionAssociates(Targets(fs, front), Targets(fs, backFront), TargetsOf(fs.files[back[|back| - 1]]));
    }
  }

  lemma TargetsOfOne(fs: FileSystem, path: Path)
    requires fs.IsText(path)
    ensures fs.AllText([path])
    ensures Targets(fs, [path]) == Members(fs.files[path].includes) + Members(fs.files[path].optional)
  {
    assert [path][..0] == [] && [path][0] == path;
    assert Targets(fs, []) == {};
  }

  ghost function FileTargets(fs: FileSystem, path: Path, visited: set<Key>): set<Path> {
    Targets(fs, VisitFile(fs, path, visited).order)
  }

  ghost function AllTargets(fs: FileSystem, paths: seq<Path>, visited: set<Key>): set<Path> {
    Members(paths) + Targets(fs, VisitAll(fs, paths, visited).order)
  }

  /** Expanding a file that was not visited: required files, then optional ones, then its own table. */
  lemma ExpandStep(fs: FileSystem, path: Path, visited: set<Key>)
    requires fs.IsText(path) && fs.canonical(path) !in visited
    ensures var here, file := visited + {fs.canonical(path)}, fs.files[path];
      var required := VisitAll(fs, file.includes, here);
      var optional := VisitAll(fs, file.optional, required.visited);
      var first := ExpandedAll(fs, file.includes, here, map[]);
      && VisitFile(fs, path, visited) == Visit(required.order + optional.order + [path], optional.visited)
      && Expanded(fs, path, visited) == Merge(ExpandedAll(fs, file.optional, required.visited, first), file.own)
  {
    var here, file := visited + {fs.canonical(path)}, fs.files[path];
    OneFewer(fs, path, visited);
    NoMore(fs, here, VisitAll(fs, file.includes, here).visited);
  }

  /** The targets of an expanded file: its own lists and what expanding them looks up. */
  lemma FileTargetsStep(fs: FileSystem, path: Path, visited: set<Key>)
    requires fs.IsText(path) && fs.canonical(path) !in visited
    ensures var here, file := visited + {fs.canonical(path)}, fs.files[path];
      FileTargets(fs, path, visited)
      == AllTargets(fs, file.includes, here)
       + AllTargets(fs, file.optional, VisitAll(fs, file.includes, here).visited)
  {
    var here, file := visited + {fs.canonical(path)}, fs.files[path];
    ExpandStep(fs, path, visited);
    hide VisitFile, VisitAll, TargetsOf, Members;
    var required := VisitAll(fs, file.includes, here);
    var optional := VisitAll(fs, file.optional, required.visited);
    TargetsConcat(fs, required.order, optional.order);
    TargetsConcat(fs, required.order + optional.order, [path]);
    TargetsOfOne(fs, path);
  }

  lemma MembersStep(paths: seq<Path>)
    requires paths != []
    ensures Members(paths) == {paths[0]} + Members(paths[1..])
  {
    assert paths == [paths[0]] + paths[1..];
  }

  lemma AllTargetsStep(fs: FileSystem, paths: seq<Path>, visited: set<Key>)
    requires paths != []
    ensures var first := VisitFile(fs, paths[0], visited);
      AllTargets(fs, paths, visited)
      == {paths[0]} + FileTargets(fs, paths[0], visited) + AllTargets(fs, paths[1..], first.visited)
  {
    var first := VisitFile(fs, paths[0], visited);
    NoMore(fs, visited, first.visited);
    MembersStep(paths);
    hide Members, Targets;
    TargetsConcat(fs, first.order, VisitAll(fs, paths[1..], first.visited).order);
  }

  // ---------------------------------------------------------------- enough: agreeing on every name looked up

  predicate SameFile(one: FileSystem, two: FileSystem, path: Path) {
    && (path in one.files <==> path in two.files)
    && (path in one.files ==> one.files[path] == two.files[path])
  }

  /** Two states of the disk in which these names lead to the same place and find the same there, if anything. */
  ghost predicate AgreeAt(one: FileSystem, two: FileSystem, names: set<Path>) {
    forall path | path in names :: SameFile(one, two, path) && one.canonical(path) == two.canonical(path)
  }

  lemma AgreeAtFewer(one: FileSystem, two: FileSystem, fewer: set<Path>, names: set<Path>)
    requires AgreeAt(one, two, names) && fewer <= names
    ensures AgreeAt(one, two, fewer)
  {
  }

  /** An expansion depends only on the names it looks up. */
  lemma {:induction false} SameExpansion(one: FileSystem, two: FileSystem, path: Path, visited: set<Key>)
    requires AgreeAt(one, two, {path} + FileTargets(one, path, visited))
    ensures VisitFile(two, path, visited) == VisitFile(one, path, visited)
    ensures Expanded(two, path, visited) == Expanded(one, path, visited)
    decreases |one.Keys() - visited|, 0, 0
  {
    assert path in {path} + FileTargets(one, path, visited);
    assert SameFile(one, two, path) && one.canonical(path) == two.canonical(path);
    if !one.IsText(path) || one.canonical(path) in visited {
    } else {
      OneFewer(one, path, visited);
      var here, file := visited + {one.canonical(path)}, one.files[path];
      var required := VisitAll(one, file.includes, here);
      NoMore(one, here, required.visited);
      FileTargetsStep(one, path, visited);
      hide AgreeAt, AllTargets, FileTargets;
      AgreeAtFewer(one, two, AllTargets(one, file.includes, here), {path} + FileTargets(one, path, visited));
      AgreeAtFewer(one, two, AllTargets(one, file.optional, required.visited),
                   {path} + FileTargets(one, path, visited));
      SameExpansions(one, two, file.includes, here, map[]);
      SameExpansions(one, two, file.optional, required.visited, ExpandedAll(one, file.includes, here, map[]));
    }
  }

  lemma {:induction false} SameExpansions(one: FileSystem, two: FileSystem, paths: seq<Path>, visited: set<Key>,
                                          base: Document)
    requires AgreeAt(one, two, AllTargets(one, paths, visited))
    ensures VisitAll(two, paths, visited) == VisitAll(one, paths, visited)
    ensures ExpandedAll(two, paths, visited, base) == ExpandedAll(one, paths, visited, base)
    decreases |one.Keys() - visited|, 1, |paths|
  {
    if paths == [] {
    } else {
      var first := VisitFile(one, paths[0], visited);
      NoMore(one, visited, first.visited);
      AllTargetsStep(one, paths, visited);
      hide AgreeAt, AllTargets, FileTargets;
      var names := AllTargets(one, paths, visited);
      AgreeAtFewer(one, two, {paths[0]} + FileTargets(one, paths[0], visited), names);
      AgreeAtFewer(one, two, AllTargets(one, paths[1..], first.visited), names);
      SameExpansion(one, two, paths[0], visited);
      SameExpansions(one, two, paths[1..], first.visited, Merge(base, Expanded(one, paths[0], visited)));
    }
  }

  // ---------------------------------------------------------------- needed: another file behind an unwatched name

  lemma {:induction false} LongerThanAll(names: set<string>) returns (name: string)
    ensures name !in names && name != "effects"
    ensures forall other <- names :: |other| < |name|
    decreases |names|
  {
    if names == {} {
      name := "unused";
    } else {
      var some :| some in names;
      var longest := LongerThanAll(names - {some});
      name := longest + some + "s";
      assert |name| > 7 ==> name != "effects";
      forall other | other in names ensures |other| < |name| {
        assert other == some || other in names - {some};
      }
      if name == "effects" {
        name := name + "s";
      }
    }
  }

  /** A file of its own that declares one new key and includes nothing. */
  function Leaf(name: string): (file: File)
    requires name != "effects"
    ensures file.Text? && file.own.Keys == {name} && file.includes == [] && file.optional == []
  {
    var own: Document := map[name := Scalar("")];
    assert EffectNames(own, "preset") == {} && EffectNames(own, "pool") == {};
    Text(own, [], [], false, [], [])
  }

  /** The same disk, except that `target` now leads to a new file. */
  function Repointed(fs: FileSystem, target: Path, key: Key, name: string): FileSystem
    requires name != "effects"
  {
    FileSystem(fs.files[target := Leaf(name)], path => if path == target then key else fs.canonical(path))
  }

  lemma RepointedElsewhere(fs: FileSystem, target: Path, key: Key, name: string, names: set<Path>)
    requires name != "effects" && target !in names
    ensures AgreeAt(fs, Repointed(fs, target, key, name), names)
  {
  }

  /** The keys that a walk adds are those of files on the disk. */
  lemma VisitsKeys(fs: FileSystem, path: Path, visited: set<Key>)
    ensures VisitFile(fs, path, visited).visited <= visited + fs.Keys()
  {
    var v := VisitFile(fs, path, visited);
    FilesVisitedOnce(fs, path, visited);
    forall key | key in v.visited && key !in visited ensures key in fs.Keys() {
      assert key in v.visited - visited;
      var p :| p in v.order && fs.canonical(p) == key;
      var i :| 0 <= i < |v.order| && v.order[i] == p;
      assert fs.IsText(v.order[i]);
    }
  }

  /** Expanding the repointed name itself brings in the new key. */
  lemma LeafExpands(fs: FileSystem, target: Path, key: Key, name: string, visited: set<Key>)
    requires name != "effects" && key !in visited
    ensures name in Expanded(Repointed(fs, target, key, name), target, visited)
  {
  }

  /** Until the repointed name is looked up the walk is the same; once it is, the new key is in the result. */
  lemma {:induction false} FileReaches(fs: FileSystem, target: Path, key: Key, name: string, path: Path,
                                       visited: set<Key>)
    requires name != "effects" && key !in fs.Keys() && key !in visited && path != target
    ensures var two := Repointed(fs, target, key, name);
      if target in FileTargets(fs, path, visited) then name in Expanded(two, path, visited)
      else VisitFile(two, path, visited) == VisitFile(fs, path, visited)
    decreases |fs.Keys() - visited|, 0, 0
  {
    var two := Repointed(fs, target, key, name);
    if !fs.IsText(path) || fs.canonical(path) in visited {
    } else {
      OneFewer(fs, path, visited);
      var here, file := visited + {fs.canonical(path)}, fs.files[path];
      var required := VisitAll(fs, file.includes, here);
      NoMore(fs, here, required.visited);
      FileTargetsStep(fs, path, visited);
      ExpandStep(fs, path, visited);
      ExpandStep(two, path, visited);
      assert two.files[path] == file && two.canonical(path) == fs.canonical(path);
      hide Repointed, VisitFile, VisitAll, Expanded, ExpandedAll, FileTargets, AllTargets;
      ListReaches(fs, target, key, name, file.includes, here, map[]);
      var first := ExpandedAll(two, file.includes, here, map[]);
      if target in AllTargets(fs, file.includes, here) {
        KeepsKey(two, file.optional, VisitAll(two, file.includes, here).visited, first, name);
      } else {
        AllVisitsKeys(fs, file.includes, here);
        ListReaches(fs, target, key, name, file.optional, required.visited, first);
      }
    }
  }

  lemma {:induction false} ListReaches(fs: FileSystem, target: Path, key: Key, name: string, paths: seq<Path>,
                                       visited: set<Key>, base: Document)
    requires name != "effects" && key !in fs.Keys() && key !in visited
    ensures var two := Repointed(fs, target, key, name);
      if target in AllTargets(fs, paths, visited) then name in ExpandedAll(two, paths, visited, base)
      else VisitAll(two, paths, visited) == VisitAll(fs, paths, visited)
    decreases |fs.Keys() - visited|, 1, |paths|
  {
    var two := Repointed(fs, target, key, name);
    if paths == [] {
    } else {
      var first, next := VisitFile(fs, paths[0], visited), Merge(base, Expanded(two, paths[0], visited));
      NoMore(fs, visited, first.visited);
      AllTargetsStep(fs, paths, visited);
      if paths[0] == target {
        LeafExpands(fs, target, key, name, visited);
        KeepsKey(two, paths[1..], VisitFile(two, paths[0], visited).visited, next, name);
      } else {
        FileReaches(fs, target, key, name, paths[0], visited);
        if target in FileTargets(fs, paths[0], visited) {
          KeepsKey(two, paths[1..], VisitFile(two, paths[0], visited).visited, next, name);
        } else {
          VisitsKeys(fs, paths[0], visited);
          ListReaches(fs, target, key, name, paths[1..], first.visited, next);
        }
      }
    }
  }

  lemma {:induction false} AllVisitsKeys(fs: FileSystem, paths: seq<Path>, visited: set<Key>)
    ensures VisitAll(fs, paths, visited).visited <= visited + fs.Keys()
    decreases |paths|
  {
    if paths == [] {
    } else {
      var first := VisitFile(fs, paths[0], visited);
      NoMore(fs, visited, first.visited);
      VisitsKeys(fs, paths[0], visited);
      AllVisitsKeys(fs, paths[1..], first.visited);
    }
  }

  /** Merging never drops a key. */
  lemma {:induction false} KeepsKey(fs: FileSystem, paths: seq<Path>, visited: set<Key>, base: Document, name: string)
    requires name in base
    ensures name in ExpandedAll(fs, paths, visited, base)
    decreases |paths|
  {
    if paths == [] {
    } else {
      var first := VisitFile(fs, paths[0], visited);
      NoMore(fs, visited, first.visited);
      KeepsKey(fs, paths[1..], first.visited, Merge(base, Expanded(fs, paths[0], visited)), name);
    }
  }

  // ---------------------------------------------------------------- exactly when watching suffices

  /** Whatever else happens to the disk, the root expands as it did. */
  ghost predicate Decides(one: FileSystem, root: Path, names: set<Path>) {
    forall two | AgreeAt(one, two, names) :: Expanded(two, root, {}) == Expanded(one, root, {})
  }

  /** Watching these names suffices exactly when every include target is among them as its directive names it. */
  lemma DecidesExactly(one: FileSystem, root: Path, names: set<Path>)
    requires root in names
    ensures Decides(one, root, names) <==> FileTargets(one, root, {}) <= names
  {
    if FileTargets(one, root, {}) <= names {
      forall two | AgreeAt(one, two, names) ensures Expanded(two, root, {}) == Expanded(one, root, {}) {
        AgreeAtFewer(one, two, {root} + FileTargets(one, root, {}), names);
        SameExpansion(one, two, root, {});
      }
    } else {
      var target :| target in FileTargets(one, root, {}) && target !in names;
      var two := UnwatchedChange(one, root, names, target);
      assert !Decides(one, root, names);
    }
  }

  /** Behind a name that is looked up but not watched, something can change that matters. */
  lemma UnwatchedChange(one: FileSystem, root: Path, names: set<Path>, target: Path) returns (two: FileSystem)
    requires root in names && target in FileTargets(one, root, {}) && target !in names
    ensures AgreeAt(one, two, names) && Expanded(two, root, {}) != Expanded(one, root, {})
  {
    var key := LongerThanAll(one.Keys());
    var name := LongerThanAll(Expanded(one, root, {}).Keys);
    two := Repointed(one, target, key, name);
    RepointedElsewhere(one, target, key, name, names);
    FileReaches(one, target, key, name, root, {});
  }

  // ---------------------------------------------------------------- what is recorded

  /** A run over `root` recorded this. */
  ghost predicate Merges(fs: FileSystem, root: Path, result: MergeResult) {
    Recorded(fs, NOTHING_MERGED, VisitFile(fs, root, {}).order, [root], [], result)
  }

  /** There, but not a file with a document in it. */
  predicate Unusable(fs: FileSystem, path: Path) {
    path in fs.files && (fs.files[path] == Broken || fs.files[path] == Irregular)
  }

  ghost predicate SomeUnusable(fs: FileSystem, targets: seq<Path>) {
    exists i :: 0 <= i < |targets| && Unusable(fs, targets[i])
  }

  ghost predicate SomeAbsent(fs: FileSystem, targets: seq<Path>) {
    exists i :: 0 <= i < |targets| && targets[i] !in fs.files
  }

  lemma TargetsByKind(fs: FileSystem, targets: seq<Path>)
    ensures AnyBad(fs, targets) <==> SomeUnusable(fs, targets)
    ensures AnyAbsent(fs, targets) <==> SomeAbsent(fs, targets)
  {
    if i :| 0 <= i < |targets| && fs.IsBad(targets[i]) {
      assert Unusable(fs, targets[i]);
    }
    if i :| 0 <= i < |targets| && Unusable(fs, targets[i]) {
      assert fs.IsBad(targets[i]);
    }
  }

  /** What a merge has to say of its files: whether some are broken, and whether includes are not there. */
  lemma MergeReports(fs: FileSystem, root: Path, result: MergeResult)
    requires Merges(fs, root, result)
    ensures var order := VisitFile(fs, root, {}).order;
      && (result.hadError <==>
            || Unusable(fs, root)
            || exists i :: && 0 <= i < |order|
                           && (|| fs.files[order[i]].malformed
                               || SomeUnusable(fs, fs.files[order[i]].includes)
                               || SomeUnusable(fs, fs.files[order[i]].optional)))
      && (result.missingIncludes <==>
            root !in fs.files || exists i :: 0 <= i < |order| && SomeAbsent(fs, fs.files[order[i]].includes))
      && (result.missingOptionalIncludes <==>
            exists i :: 0 <= i < |order| && SomeAbsent(fs, fs.files[order[i]].optional))
  {
    var order := VisitFile(fs, root, {}).order;
    hide VisitFile, AnyBad, AnyAbsent, SomeUnusable, SomeAbsent, Declares, Watches;
    JustOne(fs, root);
    forall i | 0 <= i < |order|
      ensures AnyBad(fs, fs.files[order[i]].includes) <==> SomeUnusable(fs, fs.files[order[i]].includes)
      ensures AnyBad(fs, fs.files[order[i]].optional) <==> SomeUnusable(fs, fs.files[order[i]].optional)
      ensures AnyAbsent(fs, fs.files[order[i]].includes) <==> SomeAbsent(fs, fs.files[order[i]].includes)
      ensures AnyAbsent(fs, fs.files[order[i]].optional) <==> SomeAbsent(fs, fs.files[order[i]].optional)
    {
      TargetsByKind(fs, fs.files[order[i]].includes);
      TargetsByKind(fs, fs.files[order[i]].optional);
    }
  }

  lemma JustOne(fs: FileSystem, root: Path)
    ensures AnyBad(fs, [root]) <==> Unusable(fs, root)
    ensures AnyAbsent(fs, [root]) <==> root !in fs.files
    ensures !AnyBad(fs, []) && !AnyAbsent(fs, [])
  {
    assert [root][0] == root;
  }

  ghost function Canonical(fs: FileSystem, names: set<Path>): set<Key> {
    set name | name in names :: fs.canonical(name)
  }

  /** Only what is looked up is ever expanded. */
  lemma {:induction false} VisitedIsLookedUp(fs: FileSystem, path: Path, visited: set<Key>)
    ensures Members(VisitFile(fs, path, visited).order) <= {path} + FileTargets(fs, path, visited)
    decreases |fs.Keys() - visited|, 0, 0
  {
    if !fs.IsText(path) || fs.canonical(path) in visited {
    } else {
      OneFewer(fs, path, visited);
      var here, file := visited + {fs.canonical(path)}, fs.files[path];
      var required := VisitAll(fs, file.includes, here);
      NoMore(fs, here, required.visited);
      ExpandStep(fs, path, visited);
      FileTargetsStep(fs, path, visited);
      hide VisitFile, VisitAll, FileTargets, AllTargets;
      AllVisitedAreLookedUp(fs, file.includes, here);
      AllVisitedAreLookedUp(fs, file.optional, required.visited);
    }
  }

  lemma {:induction false} AllVisitedAreLookedUp(fs: FileSystem, paths: seq<Path>, visited: set<Key>)
    ensures Members(VisitAll(fs, paths, visited).order) <= AllTargets(fs, paths, visited)
    decreases |fs.Keys() - visited|, 1, |paths|
  {
    if paths == [] {
    } else {
      var first := VisitFile(fs, paths[0], visited);
      NoMore(fs, visited, first.visited);
      AllTargetsStep(fs, paths, visited);
      hide FileTargets, AllTargets;
      VisitedIsLookedUp(fs, paths[0], visited);
      AllVisitedAreLookedUp(fs, paths[1..], first.visited);
    }
  }

  lemma CanonicalOne(fs: FileSystem, name: Path)
    ensures Canonical(fs, {name}) == {fs.canonical(name)}
  {
  }

  lemma CanonicalUnion(fs: FileSystem, a: set<Path>, b: set<Path>)
    ensures Canonical(fs, a + b) == Canonical(fs, a) + Canonical(fs, b)
  {
  }

  lemma CanonicalLists(fs: FileSystem, includes: seq<Path>, optional: seq<Path>)
    ensures Canonical(fs, Members(includes) + Members(optional)) == KeysOf(fs, includes) + KeysOf(fs, optional)
  {
    CanonicalUnion(fs, Members(includes), Members(optional));
    assert Canonical(fs, Members(includes)) == KeysOf(fs, includes);
    assert Canonical(fs, Members(optional)) == KeysOf(fs, optional);
  }

  lemma {:induction false} NotesAreCanonical(fs: FileSystem, order: seq<Path>)
    requires fs.AllText(order)
    ensures Notes(fs, order) == Canonical(fs, Members(order) + Targets(fs, order))
  {
    if order == [] {
    } else {
      var front, last := order[..|order| - 1], order[|order| - 1];
      NotesAreCanonical(fs, front);
      assert order == front + [last];
      OneMore(front, last);
      NotedFile(fs, last, Members(front), Targets(fs, front));
      hide Canonical, KeysOf, TargetsOf, Members;
    }
  }

  lemma NotedFile(fs: FileSystem, path: Path, order: set<Path>, targets: set<Path>)
    requires fs.IsText(path)
    ensures var file := fs.files[path];
      Canonical(fs, (order + {path}) + (targets + TargetsOf(file)))
      == Canonical(fs, order + targets) + {fs.canonical(path)} + KeysOf(fs, file.includes) + KeysOf(fs, file.optional)
  {
    var own := TargetsOf(fs.files[path]);
    CanonicalLists(fs, fs.files[path].includes, fs.files[path].optional);
    CanonicalUnion(fs, order + targets, {path} + own);
    CanonicalUnion(fs, {path}, own);
    CanonicalOne(fs, path);
    assert own == Members(fs.files[path].includes) + Members(fs.files[path].optional);
    hide Canonical, KeysOf, TargetsOf, Members;
    assert (order + {path}) + (targets + own) == (order + targets) + ({path} + own);
  }

  /** The recorded files are exactly the canonical names of the root and of every include target. */
  lemma LoadedFilesExactly(fs: FileSystem, root: Path, result: MergeResult)
    requires Merges(fs, root, result)
    ensures Members(result.loadedFiles) == Canonical(fs, {root} + FileTargets(fs, root, {}))
  {
    var order := VisitFile(fs, root, {}).order;
    VisitedIsLookedUp(fs, root, {});
    NotesAreCanonical(fs, order);
    assert KeysOf(fs, [root]) == {fs.canonical(root)};
    CanonicalUnion(fs, Members(order) + Targets(fs, order), {root});
    CanonicalOne(fs, root);
    assert Members(result.loadedFiles) == Notes(fs, order) + {fs.canonical(root)} by {
      hide Notes, Declares, Flags;
      NoTargets(fs);
      assert Members(NOTHING_MERGED.loadedFiles) == {};
    }
    hide Members, Targets, Notes, Canonical, Merges;
    assert (Members(order) + Targets(fs, order)) + {root} == {root} + FileTargets(fs, root, {});
  }

  lemma SameFlags(one: FileSystem, two: FileSystem, paths: seq<Path>)
    requires AgreeAt(one, two, Members(paths))
    ensures AnyBad(one, paths) == AnyBad(two, paths) && AnyAbsent(one, paths) == AnyAbsent(two, paths)
  {
    assert forall i :: 0 <= i < |paths| ==> SameFile(one, two, paths[i]);
  }

  lemma {:induction false} SameReports(one: FileSystem, two: FileSystem, order: seq<Path>)
    requires one.AllText(order) && two.AllText(order) && AgreeAt(one, two, Members(order) + Targets(one, order))
    ensures PresetsOf(one, order) == PresetsOf(two, order) && PoolsOf(one, order) == PoolsOf(two, order)
    ensures AnyTrouble(one, order) == AnyTrouble(two, order)
    ensures AnyMissing(one, order, false) == AnyMissing(two, order, false)
    ensures AnyMissing(one, order, true) == AnyMissing(two, order, true)
  {
    if order == [] {
    } else {
      var front, last := order[..|order| - 1], order[|order| - 1];
      assert order == front + [last];
      SameReports(one, two, front);
      assert SameFile(one, two, last);
      SameFlags(one, two, one.files[last].includes);
      SameFlags(one, two, one.files[last].optional);
      hide AgreeAt, Targets, AnyBad, AnyAbsent, AnyTrouble, AnyMissing;
      FileFlagsConcat(one, front, [last]);
      FileFlagsConcat(two, front, [last]);
      OneFile(one, last);
      OneFile(two, last);
    }
  }

  /** All that a merge yields and reports depends on nothing but the names it looks up. */
  lemma SameMerge(one: FileSystem, two: FileSystem, root: Path, a: MergeResult, b: MergeResult)
    requires Merges(one, root, a) && Merges(two, root, b)
    requires AgreeAt(one, two, {root} + FileTargets(one, root, {}))
    ensures Expanded(two, root, {}) == Expanded(one, root, {})
    ensures b.(loadedFiles := []) == a.(loadedFiles := [])
  {
    var order := VisitFile(one, root, {}).order;
    SameExpansion(one, two, root, {});
    VisitedIsLookedUp(one, root, {});
    AgreeAtFewer(one, two, Members(order) + Targets(one, order), {root} + FileTargets(one, root, {}));
    AgreeAtFewer(one, two, Members([root]), {root} + FileTargets(one, root, {}));
    SameReports(one, two, order);
    SameFlags(one, two, [root]);
    hide AgreeAt, AnyBad, AnyAbsent, AnyTrouble, AnyMissing, Watches;
  }

  // ---------------------------------------------------------------- links

  /** As long as no link changes, it is enough that every path with a recorded canonical name is the same. */
  lemma FixedLinksSuffice(one: FileSystem, two: FileSystem, root: Path, a: MergeResult)
    requires Merges(one, root, a) && one.canonical == two.canonical
    requires forall path | one.canonical(path) in a.loadedFiles :: SameFile(one, two, path)
    ensures AgreeAt(one, two, {root} + FileTargets(one, root, {}))
  {
    LoadedFilesExactly(one, root, a);
    forall path | path in {root} + FileTargets(one, root, {}) ensures SameFile(one, two, path) {
      assert one.canonical(path) in Members(a.loadedFiles);
    }
  }

  /** A canonical name is its own canonical name. */
  ghost predicate Idempotent(fs: FileSystem) {
    forall path :: fs.canonical(fs.canonical(path)) == fs.canonical(path)
  }

  /** The root and the recorded files decide a merge exactly when no include is looked up through a link. */
  lemma DecidedExactlyWithoutLinks(one: FileSystem, root: Path, a: MergeResult)
    requires Merges(one, root, a)
    ensures Decides(one, root, {root} + Members(a.loadedFiles))
        <==> FileTargets(one, root, {}) <= {root} + Canonical(one, {root} + FileTargets(one, root, {}))
    ensures Idempotent(one) ==>
      (Decides(one, root, {root} + Members(a.loadedFiles))
       <==> forall target <- FileTargets(one, root, {}) :: target == root || one.canonical(target) == target)
  {
    var names := {root} + Members(a.loadedFiles);
    LoadedFilesExactly(one, root, a);
    DecidesExactly(one, root, names);
    forall target | target in FileTargets(one, root, {}) && Idempotent(one)
      ensures target in names <==> target == root || one.canonical(target) == target
    {
      assert one.canonical(target) in Members(a.loadedFiles);
    }
    hide Decides;
  }

  // ---------------------------------------------------------------- a repointed link

  function Plain(key: string, includes: seq<Path>): (file: File)
    requires key != "effects"
    ensures file.Text? && file.own == map[key := Scalar("")] && file.includes == includes && file.optional == []
  {
    var own: Document := map[key := Scalar("")];
    assert EffectNames(own, "preset") == {} && EffectNames(own, "pool") == {};
    Text(own, includes, [], false, [], [])
  }

  /** A root "r" that includes "l", a link to "a" or to "b". */
  function Linked(toB: bool): FileSystem {
    var a, b := Plain("a", []), Plain("b", []);
    FileSystem(map["r" := Plain("r", ["l"]), "l" := if toB then b else a, "a" := a, "b" := b],
               path => if path != "l" then path else if toB then "b" else "a")
  }

  lemma NothingToExpand(fs: FileSystem, visited: set<Key>, base: Document)
    ensures AllTargets(fs, [], visited) == {}
    ensures ExpandedAll(fs, [], visited, base) == base
    ensures VisitAll(fs, [], visited) == Visit([], visited)
  {
  }

  /** A file without includes stands for its own table. */
  lemma LeafFile(fs: FileSystem, path: Path, visited: set<Key>)
    requires fs.IsText(path) && fs.canonical(path) !in visited
    requires fs.files[path].includes == [] && fs.files[path].optional == []
    ensures Expanded(fs, path, visited) == fs.files[path].own && FileTargets(fs, path, visited) == {}
  {
    var here := visited + {fs.canonical(path)};
    NothingToExpand(fs, here, map[]);
    ExpandStep(fs, path, visited);
    FileTargetsStep(fs, path, visited);
    hide VisitFile, VisitAll, Expanded, ExpandedAll, FileTargets, AllTargets;
    EmptyIsIdentity(fs.files[path].own);
  }

  lemma OneEntry(fs: FileSystem, path: Path, visited: set<Key>)
    ensures ExpandedAll(fs, [path], visited, map[]) == Expanded(fs, path, visited)
    ensures AllTargets(fs, [path], visited) == {path} + FileTargets(fs, path, visited)
  {
    var first, expanded := VisitFile(fs, path, visited), Expanded(fs, path, visited);
    assert [path][1..] == [];
    NoMore(fs, visited, first.visited);
    assert ExpandedAll(fs, [path], visited, map[]) == ExpandedAll(fs, [], first.visited, Merge(map[], expanded));
    AllTargetsStep(fs, [path], visited);
    hide VisitFile, VisitAll, Expanded, ExpandedAll, FileTargets, AllTargets;
    NothingToExpand(fs, first.visited, expanded);
    EmptyIsIdentity(expanded);
  }

  /** A root with one include that includes nothing. */
  lemma OneInclude(fs: FileSystem, root: Path, target: Path)
    requires fs.IsText(root) && fs.IsText(target) && fs.canonical(root) != fs.canonical(target)
    requires fs.files[root].includes == [target] && fs.files[root].optional == []
    requires fs.files[target].includes == [] && fs.files[target].optional == []
    ensures Expanded(fs, root, {}) == Merge(fs.files[target].own, fs.files[root].own)
    ensures FileTargets(fs, root, {}) == {target}
  {
    var none: set<Key> := {};
    var here := none + {fs.canonical(root)};
    LeafFile(fs, target, here);
    OneEntry(fs, target, here);
    ExpandStep(fs, root, none);
    FileTargetsStep(fs, root, none);
    hide VisitFile, VisitAll, Expanded, ExpandedAll, FileTargets, AllTargets;
    NothingToExpand(fs, VisitAll(fs, [target], here).visited, ExpandedAll(fs, [target], here, map[]));
  }

  /** With two such files nothing is missing, malformed or declared. */
  lemma NothingReported(fs: FileSystem, root: Path, target: Path, result: MergeResult)
    requires fs.IsText(root) && fs.IsText(target) && fs.canonical(root) != fs.canonical(target)
    requires fs.files[root].includes == [target] && fs.files[root].optional == []
    requires fs.files[target].includes == [] && fs.files[target].optional == []
    requires !fs.files[root].malformed && fs.files[root].presets == [] && fs.files[root].pools == []
    requires !fs.files[target].malformed && fs.files[target].presets == [] && fs.files[target].pools == []
    requires Merges(fs, root, result)
    ensures result == NOTHING_MERGED.(loadedFiles := result.loadedFiles)
  {
    OneIncludeOrder(fs, root, target);
    assert [target] + [root] == [target, root];
    OneFile(fs, root);
    OneFile(fs, target);
    TextTarget(fs, target);
    TextTarget(fs, root);
    NoTargets(fs);
    hide VisitFile, AnyBad, AnyAbsent, AnyTrouble, AnyMissing, PresetsOf, PoolsOf, Watches;
    PresetsConcat(fs, [target], [root]);
    PoolsConcat(fs, [target], [root]);
    FileFlagsConcat(fs, [target], [root]);
    assert Unique<string>([]) == [];
  }

  lemma OneIncludeOrder(fs: FileSystem, root: Path, target: Path)
    requires fs.IsText(root) && fs.IsText(target) && fs.canonical(root) != fs.canonical(target)
    requires fs.files[root].includes == [target] && fs.files[root].optional == []
    requires fs.files[target].includes == [] && fs.files[target].optional == []
    ensures VisitFile(fs, root, {}).order == [target, root]
  {
    var none: set<Key> := {};
    var here := none + {fs.canonical(root)};
    ExpandStep(fs, root, none);
    ExpandStep(fs, target, here);
    var first := VisitFile(fs, target, here);
    assert [target][1..] == [];
    NoMore(fs, here, first.visited);
    assert VisitAll(fs, [target], here) == Visit(first.order + VisitAll(fs, [], first.visited).order, first.visited);
  }

  lemma LinkedFiles(toB: bool)
    ensures var fs := Linked(toB);
      && fs.IsText("r") && fs.IsText("l") && fs.canonical("r") == "r" && fs.canonical("a") == "a"
      && fs.canonical("l") == if toB then "b" else "a"
    ensures Linked(toB).files["r"] == Plain("r", ["l"])
    ensures Linked(toB).files["l"] == Plain(if toB then "b" else "a", [])
    ensures AgreeAt(Linked(false), Linked(true), {"r", "a"})
  {
  }

  lemma LinkedIsPlain(toB: bool)
    ensures var r, l := Linked(toB).files["r"], Linked(toB).files["l"];
      && !r.malformed && r.presets == [] && r.pools == [] && !l.malformed && l.presets == [] && l.pools == []
  {
  }

  lemma LinkedNotes(toB: bool, result: MergeResult)
    requires Merges(Linked(toB), "r", result)
    ensures Members(result.loadedFiles) == {"r", if toB then "b" else "a"}
  {
    var fs := Linked(toB);
    LinkedFiles(toB);
    hide Linked, FileTargets, Merges, Members;
    OneInclude(fs, "r", "l");
    LoadedFilesExactly(fs, "r", result);
    CanonicalUnion(fs, {"r"}, {"l"});
    CanonicalOne(fs, "r");
    CanonicalOne(fs, "l");
  }

  /** The list names "r" and "a" only, so pointing the link elsewhere changes the merge and no watched file. */
  lemma RepointedLinkGoesUnnoticed(a: MergeResult)
    requires Merges(Linked(false), "r", a)
    ensures Members(a.loadedFiles) == {"r", "a"}
    ensures AgreeAt(Linked(false), Linked(true), {"r"} + Members(a.loadedFiles))
    ensures Expanded(Linked(true), "r", {}) != Expanded(Linked(false), "r", {})
  {
    var one, two := Linked(false), Linked(true);
    LinkedFiles(false);
    LinkedFiles(true);
    hide Linked, AgreeAt, Expanded, FileTargets, Merges, Members;
    OneInclude(one, "r", "l");
    OneInclude(two, "r", "l");
    LinkedNotes(false, a);
    assert {"r"} + {"a"} == {"r", "a"} == {"r"} + {"r", "a"};
    assert "a" in Expanded(one, "r", {}).Keys && "a" !in Expanded(two, "r", {}).Keys;
  }
}
