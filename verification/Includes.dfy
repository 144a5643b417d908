/**
 Expanding a configuration file and everything it includes (src/config/config_merge.cpp). Files
 may include each other in any shape; a file that was already expanded contributes nothing more.
 */
module Includes {
  import opened Lists
  import opened TableMerge

  type Path = string
  type Key = string

  /** The names declared in a table of [effects]. */
  function EffectNames(document: Document, table: string): set<string> {
    if "effects" !in document || !document["effects"].Table? then {}
    else
      var effects := document["effects"].entries;
      if table in effects && effects[table].Table? then effects[table].entries.Keys else {}
  }

  /** `names` are the keys of a table of [effects], each once; the order is that of the file. */
  predicate IsListing(names: seq<string>, own: Document, table: string) {
    (set name | name in names) == EffectNames(own, table) && Unique(names) == names
  }

  /** A parsed file keeps its own tables apart from its include directive. */
  datatype FileData =
    | Text(own: Document, includes: seq<Path>, optional: seq<Path>, malformed: bool,
           presets: seq<string>, pools: seq<string>)
    | Broken
    | Irregular

  type File = f: FileData |
    f.Text? ==> IsListing(f.presets, f.own, "preset") && IsListing(f.pools, f.own, "pool")
    witness Broken

  /** Paths as the directives of a file resolve them; a path without a file is missing. */
  datatype FileSystem = FileSystem(files: map<Path, File>, canonical: Path -> Key)
  {
    ghost function Keys(): set<Key> {
      set path | path in files :: canonical(path)
    }

    predicate IsText(path: Path) {
      path in files && files[path].Text?
    }

    ghost predicate AllText(paths: seq<Path>) {
      forall i :: 0 <= i < |paths| ==> IsText(paths[i])
    }

    predicate IsBad(path: Path) {
      path in files && !files[path].Text?
    }
  }

  // ---------------------------------------------------------------- first visits, in post-order

  datatype Visit = Visit(order: seq<Path>, visited: set<Key>)

  lemma OneFewer(fs: FileSystem, path: Path, visited: set<Key>)
    requires path in fs.files && fs.canonical(path) !in visited
    ensures |fs.Keys() - (visited + {fs.canonical(path)})| < |fs.Keys() - visited|
  {
    assert fs.Keys() - (visited + {fs.canonical(path)}) == fs.Keys() - visited - {fs.canonical(path)};
  }

  lemma NoMore(fs: FileSystem, fewer: set<Key>, more: set<Key>)
    requires fewer <= more
    ensures |fs.Keys() - more| <= |fs.Keys() - fewer|
  {
    var a, b := fs.Keys() - more, fs.Keys() - fewer;
    assert b == a + (b - a);
  }

  ghost function VisitFile(fs: FileSystem, path: Path, visited: set<Key>): (v: Visit)
    ensures visited <= v.visited
    ensures fs.AllText(v.order)
    decreases |fs.Keys() - visited|, 0, 0
  {
    if !fs.IsText(path) || fs.canonical(path) in visited then Visit([], visited)
    else
      OneFewer(fs, path, visited);
      var required := VisitAll(fs, fs.files[path].includes, visited + {fs.canonical(path)});
      NoMore(fs, visited + {fs.canonical(path)}, required.visited);
      var optional := VisitAll(fs, fs.files[path].optional, required.visited);
      Visit(required.order + optional.order + [path], optional.visited)
  }

  ghost function VisitAll(fs: FileSystem, paths: seq<Path>, visited: set<Key>): (v: Visit)
    ensures visited <= v.visited
    ensures fs.AllText(v.order)
    decreases |fs.Keys() - visited|, 1, |paths|
  {
    if paths == [] then Visit([], visited)
    else
      var first := VisitFile(fs, paths[0], visited);
      NoMore(fs, visited, first.visited);
      var rest := VisitAll(fs, paths[1..], first.visited);
      Visit(first.order + rest.order, rest.visited)
  }

  /** Everything a file includes, required files first. */
  ghost function VisitIncludes(fs: FileSystem, file: File, visited: set<Key>): (v: Visit)
    requires file.Text?
    ensures fs.AllText(v.order)
  {
    var required := VisitAll(fs, file.includes, visited);
    var optional := VisitAll(fs, file.optional, required.visited);
    Visit(required.order + optional.order, optional.visited)
  }

  /** The new keys are those of the files in the order, each of which contributes once. */
  ghost predicate VisitsOnce(fs: FileSystem, visited: set<Key>, v: Visit) {
    && (forall p <- v.order :: fs.canonical(p) in v.visited - visited)
    && (forall key <- v.visited - visited :: exists p <- v.order :: fs.canonical(p) == key)
    && (forall i, j :: 0 <= i < j < |v.order| ==> fs.canonical(v.order[i]) != fs.canonical(v.order[j]))
  }

  lemma VisitsOnceThen(fs: FileSystem, visited: set<Key>, first: Visit, second: Visit)
    requires visited <= first.visited <= second.visited
    requires VisitsOnce(fs, visited, first) && VisitsOnce(fs, first.visited, second)
    ensures VisitsOnce(fs, visited, Visit(first.order + second.order, second.visited))
  {
    var all := Visit(first.order + second.order, second.visited);
    forall key <- all.visited - visited ensures exists p <- all.order :: fs.canonical(p) == key {
      if key in first.visited {
        assert key in first.visited - visited;
        var p :| p in first.order && fs.canonical(p) == key;
        assert p in all.order;
      } else {
        assert key in second.visited - first.visited;
        var p :| p in second.order && fs.canonical(p) == key;
        assert p in all.order;
      }
    }
  }

  lemma VisitsOnceAround(fs: FileSystem, visited: set<Key>, path: Path, inner: Visit)
    requires fs.canonical(path) !in visited && visited + {fs.canonical(path)} <= inner.visited
    requires VisitsOnce(fs, visited + {fs.canonical(path)}, inner)
    ensures VisitsOnce(fs, visited, Visit(inner.order + [path], inner.visited))
  {
    var all := inner.order + [path];
    assert all[|inner.order|] == path;
    forall key <- inner.visited - visited ensures exists p <- all :: fs.canonical(p) == key {
      if key == fs.canonical(path) {
        assert path in all;
      } else {
        assert key in inner.visited - (visited + {fs.canonical(path)});
        var p :| p in inner.order && fs.canonical(p) == key;
        assert p in all;
      }
    }
  }

  lemma {:induction false} FilesVisitedOnce(fs: FileSystem, path: Path, visited: set<Key>)
    ensures VisitsOnce(fs, visited, VisitFile(fs, path, visited))
    decreases |fs.Keys() - visited|, 0, 0
  {
    if !fs.IsText(path) || fs.canonical(path) in visited {
    } else {
      var here := visited + {fs.canonical(path)};
      OneFewer(fs, path, visited);
      var required := VisitAll(fs, fs.files[path].includes, here);
      NoMore(fs, here, required.visited);
      var optional := VisitAll(fs, fs.files[path].optional, required.visited);
      AllVisitedOnce(fs, fs.files[path].includes, here);
      AllVisitedOnce(fs, fs.files[path].optional, required.visited);
      VisitsOnceThen(fs, here, required, optional);
      VisitsOnceAround(fs, visited, path, Visit(required.order + optional.order, optional.visited));
    }
  }

  lemma {:induction false} AllVisitedOnce(fs: FileSystem, paths: seq<Path>, visited: set<Key>)
    ensures VisitsOnce(fs, visited, VisitAll(fs, paths, visited))
    decreases |fs.Keys() - visited|, 1, |paths|
  {
    if paths == [] {
    } else {
      var first := VisitFile(fs, paths[0], visited);
      NoMore(fs, visited, first.visited);
      FilesVisitedOnce(fs, paths[0], visited);
      AllVisitedOnce(fs, paths[1..], first.visited);
      VisitsOnceThen(fs, visited, first, VisitAll(fs, paths[1..], first.visited));
    }
  }

  // ---------------------------------------------------------------- expansion as it nests

  ghost function Expanded(fs: FileSystem, path: Path, visited: set<Key>): Document
    decreases |fs.Keys() - visited|, 0, 0
  {
    if !fs.IsText(path) || fs.canonical(path) in visited then map[]
    else
      OneFewer(fs, path, visited);
      var here, file := visited + {fs.canonical(path)}, fs.files[path];
      var required := VisitAll(fs, file.includes, here);
      NoMore(fs, here, required.visited);
      Merge(ExpandedAll(fs, file.optional, required.visited, ExpandedAll(fs, file.includes, here, map[])), file.own)
  }

  ghost function ExpandedAll(fs: FileSystem, paths: seq<Path>, visited: set<Key>, base: Document): Document
    decreases |fs.Keys() - visited|, 1, |paths|
  {
    if paths == [] then base
    else
      var after := VisitFile(fs, paths[0], visited).visited;
      NoMore(fs, visited, after);
      ExpandedAll(fs, paths[1..], after, Merge(base, Expanded(fs, paths[0], visited)))
  }

  ghost function Owns(fs: FileSystem, order: seq<Path>): (documents: seq<Document>)
    requires fs.AllText(order)
    ensures |documents| == |order|
    ensures forall i :: 0 <= i < |order| ==> documents[i] == fs.files[order[i]].own
  {
    seq(|order|, i requires 0 <= i < |order| => fs.files[order[i]].own)
  }

  lemma OwnsConcat(fs: FileSystem, front: seq<Path>, back: seq<Path>)
    requires fs.AllText(front) && fs.AllText(back)
    ensures fs.AllText(front + back) && Owns(fs, front + back) == Owns(fs, front) + Owns(fs, back)
  {
  }

  /** Nested expansion of kind-stable files is one left-to-right merge in post-order of first visit. */
  lemma {:induction false} ExpansionIsFold(fs: FileSystem, path: Path, visited: set<Key>)
    requires KindStable(Owns(fs, VisitFile(fs, path, visited).order))
    ensures Expanded(fs, path, visited) == Fold(Owns(fs, VisitFile(fs, path, visited).order))
    decreases |fs.Keys() - visited|, 0, 0
  {
    if !fs.IsText(path) || fs.canonical(path) in visited {
    } else {
      OneFewer(fs, path, visited);
      var here, file := visited + {fs.canonical(path)}, fs.files[path];
      var required := VisitAll(fs, file.includes, here);
      NoMore(fs, here, required.visited);
      var optional := VisitAll(fs, file.optional, required.visited);
      OwnsOfFile(fs, required.order, optional.order, path);
      var r, o := Owns(fs, required.order), Owns(fs, optional.order);
      FoldOntoOwn(r, o, file.own);
      ExpansionOfAll(fs, file.includes, here, []);
      ExpansionOfAll(fs, file.optional, required.visited, r);
    }
  }

  lemma OwnsOfFile(fs: FileSystem, required: seq<Path>, optional: seq<Path>, path: Path)
    requires fs.AllText(required) && fs.AllText(optional) && fs.IsText(path)
    ensures fs.AllText(required + optional + [path])
    ensures Owns(fs, required + optional + [path]) == Owns(fs, required) + Owns(fs, optional) + [fs.files[path].own]
  {
    OwnsConcat(fs, required, optional);
    OwnsConcat(fs, required + optional, [path]);
    assert Owns(fs, [path]) == [fs.files[path].own];
  }

  lemma FoldOntoOwn(required: seq<Document>, optional: seq<Document>, own: Document)
    requires KindStable(required + optional + [own])
    ensures [] + required == required && KindStable(required) && KindStable(required + optional)
    ensures Fold([]) == map[]
    ensures Fold(required + optional + [own]) == Merge(Fold(required + optional), own)
  {
    var both := required + optional;
    assert (both + [own])[..|both|] == both;
    KindStableParts(both, [own]);
    KindStableParts(required, optional);
  }

  lemma {:induction false} ExpansionOfAll(fs: FileSystem, paths: seq<Path>, visited: set<Key>, before: seq<Document>)
    requires KindStable(before + Owns(fs, VisitAll(fs, paths, visited).order))
    ensures ExpandedAll(fs, paths, visited, Fold(before)) == Fold(before + Owns(fs, VisitAll(fs, paths, visited).order))
    decreases |fs.Keys() - visited|, 1, |paths|
  {
    if paths == [] {
      assert before + Owns(fs, []) == before;
    } else {
      var first := VisitFile(fs, paths[0], visited);
      NoMore(fs, visited, first.visited);
      var rest := VisitAll(fs, paths[1..], first.visited);
      OwnsConcat(fs, first.order, rest.order);
      var f, r := Owns(fs, first.order), Owns(fs, rest.order);
      FoldInThree(before, f, r);
      ExpansionIsFold(fs, paths[0], visited);
      ExpansionOfAll(fs, paths[1..], first.visited, before + f);
    }
  }

  lemma FoldInThree(a: seq<Document>, b: seq<Document>, c: seq<Document>)
    requires KindStable(a + (b + c))
    ensures a + b + c == a + (b + c)
    ensures KindStable(a + b + c) && KindStable(b)
    ensures Fold(a + b) == Merge(Fold(a), Fold(b))
  {
    assert a + b + c == a + (b + c);
    KindStableParts(a + b, c);
    KindStableParts(a, b);
    FoldSplit(a, b);
  }

  // ---------------------------------------------------------------- whose word is last

  /** Files that include nothing, none of them there twice. */
  ghost predicate Leaves(fs: FileSystem, paths: seq<Path>, visited: set<Key>) {
    && (forall i :: 0 <= i < |paths| ==>
          && fs.IsText(paths[i]) && fs.files[paths[i]].includes == [] && fs.files[paths[i]].optional == []
          && fs.canonical(paths[i]) !in visited)
    && (forall i, j :: 0 <= i < j < |paths| ==> fs.canonical(paths[i]) != fs.canonical(paths[j]))
  }

  lemma LeafExpands(fs: FileSystem, path: Path, visited: set<Key>)
    requires fs.IsText(path) && fs.files[path].includes == [] && fs.files[path].optional == []
    requires fs.canonical(path) !in visited
    ensures VisitFile(fs, path, visited) == Visit([path], visited + {fs.canonical(path)})
    ensures Expanded(fs, path, visited) == fs.files[path].own
  {
    EmptyIsIdentity(fs.files[path].own);
  }

  lemma LeavesStep(fs: FileSystem, paths: seq<Path>, visited: set<Key>)
    requires Leaves(fs, paths, visited) && paths != []
    ensures Leaves(fs, paths[1..], visited + {fs.canonical(paths[0])})
  {
  }

  lemma AllStep(fs: FileSystem, paths: seq<Path>, visited: set<Key>, base: Document)
    ensures paths == [] ==> VisitAll(fs, paths, visited) == Visit([], visited)
    ensures paths == [] ==> ExpandedAll(fs, paths, visited, base) == base
    ensures paths != [] ==>
      var first := VisitFile(fs, paths[0], visited);
      var rest := VisitAll(fs, paths[1..], first.visited);
      VisitAll(fs, paths, visited) == Visit(first.order + rest.order, rest.visited)
    ensures paths != [] ==>
      ExpandedAll(fs, paths, visited, base)
      == ExpandedAll(fs, paths[1..], VisitFile(fs, paths[0], visited).visited,
                     Merge(base, Expanded(fs, paths[0], visited)))
  {
    hide VisitFile, Expanded;
  }

  lemma {:induction false} LeavesVisited(fs: FileSystem, paths: seq<Path>, visited: set<Key>)
    requires Leaves(fs, paths, visited)
    ensures VisitAll(fs, paths, visited) == Visit(paths, visited + KeysOf(fs, paths))
    decreases |paths|
  {
    hide VisitAll, VisitFile, Expanded, ExpandedAll;
    AllStep(fs, paths, visited, map[]);
    if paths == [] {
      assert visited + KeysOf(fs, paths) == visited;
    } else {
      var first, rest, here := paths[0], paths[1..], visited + {fs.canonical(paths[0])};
      LeafExpands(fs, first, visited);
      LeavesStep(fs, paths, visited);
      LeavesVisited(fs, rest, here);
      assert paths == [first] + rest;
      assert KeysOf(fs, paths) == {fs.canonical(first)} + KeysOf(fs, rest);
      assert here + KeysOf(fs, rest) == visited + KeysOf(fs, paths);
    }
  }

  lemma FoldOne(before: seq<Document>, own: Document)
    ensures Fold(before + [own]) == Merge(Fold(before), own)
  {
    hide Merge;
    assert (before + [own])[..|before|] == before;
  }

  lemma FirstOwn(fs: FileSystem, paths: seq<Path>)
    requires fs.AllText(paths) && paths != []
    ensures Owns(fs, paths) == [fs.files[paths[0]].own] + Owns(fs, paths[1..])
  {
  }

  lemma OwnsStep(fs: FileSystem, paths: seq<Path>, before: seq<Document>)
    requires fs.AllText(paths)
    ensures paths == [] ==> before + Owns(fs, paths) == before
    ensures paths != [] ==>
      var own, rest := fs.files[paths[0]].own, paths[1..];
      && before + Owns(fs, paths) == before + [own] + Owns(fs, rest)
      && Fold(before + [own]) == Merge(Fold(before), own)
  {
    hide Merge;
    if paths != [] {
      var own := fs.files[paths[0]].own;
      FoldOne(before, own);
      FirstOwn(fs, paths);
      Regroup(before, [own], Owns(fs, paths[1..]));
    }
  }

  lemma {:induction false} LeavesFold(fs: FileSystem, paths: seq<Path>, visited: set<Key>, before: seq<Document>)
    requires Leaves(fs, paths, visited) && fs.AllText(paths)
    ensures ExpandedAll(fs, paths, visited, Fold(before)) == Fold(before + Owns(fs, paths))
    decreases |paths|
  {
    hide VisitAll, VisitFile, Expanded, ExpandedAll, Merge, Fold, Owns;
    AllStep(fs, paths, visited, Fold(before));
    OwnsStep(fs, paths, before);
    if paths == [] {
    } else {
      var first := paths[0];
      LeafExpands(fs, first, visited);
      LeavesStep(fs, paths, visited);
      LeavesFold(fs, paths[1..], visited + {fs.canonical(first)}, before + [fs.files[first].own]);
    }
  }

  lemma LeavesOfParts(fs: FileSystem, required: seq<Path>, optional: seq<Path>, visited: set<Key>)
    requires Leaves(fs, required + optional, visited)
    ensures Leaves(fs, required, visited) && Leaves(fs, optional, visited + KeysOf(fs, required))
    ensures fs.AllText(required) && fs.AllText(optional)
  {
    var all := required + optional;
    assert forall i :: 0 <= i < |required| ==> all[i] == required[i];
    assert forall i :: 0 <= i < |optional| ==> all[|required| + i] == optional[i];
  }

  /** Of files that include no others the required ones come first, then the optional ones, in order, then the root. */
  lemma FlatExpansion(fs: FileSystem, root: Path)
    requires fs.IsText(root)
    requires Leaves(fs, fs.files[root].includes + fs.files[root].optional, {fs.canonical(root)})
    ensures var order := fs.files[root].includes + fs.files[root].optional + [root];
      && VisitFile(fs, root, {}).order == order && fs.AllText(order)
      && Expanded(fs, root, {}) == Fold(Owns(fs, order))
  {
    hide VisitAll, VisitFile, Expanded, ExpandedAll, Leaves, KeysOf;
    var file, here := fs.files[root], {fs.canonical(root)};
    LeavesOfParts(fs, file.includes, file.optional, here);
    LeavesVisited(fs, file.includes, here);
    LeavesFold(fs, file.includes, here, []);
    var then' := here + KeysOf(fs, file.includes);
    LeavesVisited(fs, file.optional, then');
    LeavesFold(fs, file.optional, then', Owns(fs, file.includes));
    OwnsOfFile(fs, file.includes, file.optional, root);
    var both := Owns(fs, file.includes) + Owns(fs, file.optional);
    assert (both + [file.own])[..|both|] == both && [] + Owns(fs, file.includes) == Owns(fs, file.includes);
    RootLast(fs, root);
  }

  lemma RootLast(fs: FileSystem, root: Path)
    requires fs.IsText(root)
    ensures var file, here := fs.files[root], {fs.canonical(root)};
      var required := VisitAll(fs, file.includes, here);
      && VisitFile(fs, root, {}).order == required.order + VisitAll(fs, file.optional, required.visited).order + [root]
      && Expanded(fs, root, {})
         == Merge(ExpandedAll(fs, file.optional, required.visited, ExpandedAll(fs, file.includes, here, map[])),
                  file.own)
  {
    assert {} + {fs.canonical(root)} == {fs.canonical(root)};
  }

  /** Whatever a file includes, its own plain values stand. */
  lemma OwnPlainValueStands(fs: FileSystem, path: Path, key: string)
    requires fs.IsText(path) && key in fs.files[path].own && KindOf(fs.files[path].own[key]).PlainKind?
    ensures key in Expanded(fs, path, {}) && Expanded(fs, path, {})[key] == fs.files[path].own[key]
  {
    RootLast(fs, path);
    var file, here := fs.files[path], {fs.canonical(path)};
    var required := VisitAll(fs, file.includes, here);
    var included := ExpandedAll(fs, file.optional, required.visited, ExpandedAll(fs, file.includes, here, map[]));
    if key in included {
      MergeByKind(included[key], file.own[key]);
    }
    hide Expanded, ExpandedAll;
  }

  // ---------------------------------------------------------------- what a run records

  ghost function PresetsOf(fs: FileSystem, order: seq<Path>): seq<string>
    requires fs.AllText(order)
  {
    if order == [] then []
    else PresetsOf(fs, order[..|order| - 1]) + fs.files[order[|order| - 1]].presets
  }

  ghost function PoolsOf(fs: FileSystem, order: seq<Path>): seq<string>
    requires fs.AllText(order)
  {
    if order == [] then []
    else PoolsOf(fs, order[..|order| - 1]) + fs.files[order[|order| - 1]].pools
  }

  lemma {:induction false} PresetsConcat(fs: FileSystem, front: seq<Path>, back: seq<Path>)
    requires fs.AllText(front) && fs.AllText(back)
    ensures PresetsOf(fs, front + back) == PresetsOf(fs, front) + PresetsOf(fs, back)
  {
    if back == [] {
      assert front + back == front;
    } else {
      var backFront, last := back[..|back| - 1], fs.files[back[|back| - 1]].presets;
      assert (front + back)[..|front + back| - 1] == front + backFront;
      PresetsConcat(fs, front, backFront);
      Regroup(PresetsOf(fs, front), PresetsOf(fs, backFront), last);
    }
  }

  lemma {:induction false} PoolsConcat(fs: FileSystem, front: seq<Path>, back: seq<Path>)
    requires fs.AllText(front) && fs.AllText(back)
    ensures PoolsOf(fs, front + back) == PoolsOf(fs, front) + PoolsOf(fs, back)
  {
    if back == [] {
      assert front + back == front;
    } else {
      var backFront, last := back[..|back| - 1], fs.files[back[|back| - 1]].pools;
      assert (front + back)[..|front + back| - 1] == front + backFront;
      PoolsConcat(fs, front, backFront);
      Regroup(PoolsOf(fs, front), PoolsOf(fs, backFront), last);
    }
  }

  datatype MergeResult = MergeResult(
    loadedFiles: seq<Key>, hadError: bool, missingIncludes: bool, missingOptionalIncludes: bool,
    presets: seq<string>, pools: seq<string>, redeclared: bool)

  const NOTHING_MERGED := MergeResult([], false, false, false, [], [], false)

  ghost predicate AnyBad(fs: FileSystem, paths: seq<Path>) {
    exists i :: 0 <= i < |paths| && fs.IsBad(paths[i])
  }

  ghost predicate AnyAbsent(fs: FileSystem, paths: seq<Path>) {
    exists i :: 0 <= i < |paths| && paths[i] !in fs.files
  }

  ghost predicate AnyTrouble(fs: FileSystem, order: seq<Path>)
    requires fs.AllText(order)
  {
    exists i :: 0 <= i < |order| && Trouble(fs, order[i])
  }

  ghost predicate Trouble(fs: FileSystem, path: Path)
    requires fs.IsText(path)
  {
    fs.files[path].malformed || AnyBad(fs, fs.files[path].includes) || AnyBad(fs, fs.files[path].optional)
  }

  ghost predicate AnyMissing(fs: FileSystem, order: seq<Path>, optional: bool)
    requires fs.AllText(order)
  {
    exists i :: 0 <= i < |order|
             && AnyAbsent(fs, if optional then fs.files[order[i]].optional else fs.files[order[i]].includes)
  }

  ghost function KeysOf(fs: FileSystem, paths: seq<Path>): set<Key> {
    set path | path in paths :: fs.canonical(path)
  }

  /** Every file of the order and everything it includes, under canonical names. */
  ghost function Notes(fs: FileSystem, order: seq<Path>): set<Key>
    requires fs.AllText(order)
  {
    if order == [] then {}
    else
      var file := fs.files[order[|order| - 1]];
      Notes(fs, order[..|order| - 1]) + {fs.canonical(order[|order| - 1])}
      + KeysOf(fs, file.includes) + KeysOf(fs, file.optional)
  }

  /** Declarations follow the order of the files, each name where it first appears; a second one is an error. */
  ghost predicate Declares(fs: FileSystem, a: MergeResult, order: seq<Path>, b: MergeResult)
    requires fs.AllText(order)
  {
    && b.presets == Unique(a.presets + PresetsOf(fs, order))
    && b.pools == Unique(a.pools + PoolsOf(fs, order))
    && b.redeclared
       == (a.redeclared || Repeats(a.presets + PresetsOf(fs, order)) || Repeats(a.pools + PoolsOf(fs, order)))
  }

  /** Exactly which files make the merge fail or count as missing. */
  ghost predicate Flags(fs: FileSystem, a: MergeResult, order: seq<Path>, required: seq<Path>, optional: seq<Path>,
                        b: MergeResult)
    requires fs.AllText(order)
  {
    && b.hadError == (a.hadError || AnyTrouble(fs, order) || AnyBad(fs, required) || AnyBad(fs, optional))
    && b.missingIncludes == (a.missingIncludes || AnyMissing(fs, order, false) || AnyAbsent(fs, required))
    && b.missingOptionalIncludes
       == (a.missingOptionalIncludes || AnyMissing(fs, order, true) || AnyAbsent(fs, optional))
  }

  ghost function Members(keys: seq<Key>): set<Key> {
    set key | key in keys
  }

  /** Exactly what is noted as read or looked up. */
  ghost predicate Watches(fs: FileSystem, a: MergeResult, order: seq<Path>, required: seq<Path>, optional: seq<Path>,
                          b: MergeResult)
    requires fs.AllText(order)
  {
    && a.loadedFiles <= b.loadedFiles
    && Members(b.loadedFiles)
       == Members(a.loadedFiles) + Notes(fs, order) + KeysOf(fs, required) + KeysOf(fs, optional)
  }

  /** What expanding the files of `order`, and looking up further targets, adds to a result. */
  ghost predicate Recorded(fs: FileSystem, a: MergeResult, order: seq<Path>, required: seq<Path>, optional: seq<Path>,
                           b: MergeResult)
    requires fs.AllText(order)
  {
    && Declares(fs, a, order, b)
    && Flags(fs, a, order, required, optional, b)
    && Watches(fs, a, order, required, optional, b)
  }

  lemma PathFlagsConcat(fs: FileSystem, front: seq<Path>, back: seq<Path>)
    ensures AnyBad(fs, front + back) == (AnyBad(fs, front) || AnyBad(fs, back))
    ensures AnyAbsent(fs, front + back) == (AnyAbsent(fs, front) || AnyAbsent(fs, back))
  {
    var all := front + back;
    assert forall i :: 0 <= i < |front| ==> all[i] == front[i];
    assert forall i :: 0 <= i < |back| ==> all[|front| + i] == back[i];
  }

  lemma FileFlagsConcat(fs: FileSystem, front: seq<Path>, back: seq<Path>)
    requires fs.AllText(front) && fs.AllText(back)
    ensures fs.AllText(front + back)
    ensures AnyTrouble(fs, front + back) == (AnyTrouble(fs, front) || AnyTrouble(fs, back))
    ensures forall optional ::
              AnyMissing(fs, front + back, optional)
              == (AnyMissing(fs, front, optional) || AnyMissing(fs, back, optional))
  {
    var all := front + back;
    assert forall i :: 0 <= i < |front| ==> all[i] == front[i];
    assert forall i :: 0 <= i < |back| ==> all[|front| + i] == back[i];
  }

  lemma UniqueStages(a: seq<string>, x: seq<string>, y: seq<string>)
    ensures Unique(Unique(a + x) + y) == Unique(a + (x + y))
    ensures Repeats(a + (x + y)) <==> Repeats(a + x) || Repeats(Unique(a + x) + y)
  {
    Regroup(a, x, y);
    UniqueAppend(a + x, y);
    RepeatsInStages(a + x, y);
  }

  lemma DeclaresThen(fs: FileSystem, a: MergeResult, first: seq<Path>, b: MergeResult, second: seq<Path>,
                     c: MergeResult)
    requires fs.AllText(first) && fs.AllText(second)
    requires Declares(fs, a, first, b) && Declares(fs, b, second, c)
    ensures fs.AllText(first + second) && Declares(fs, a, first + second, c)
  {
    PresetsConcat(fs, first, second);
    PoolsConcat(fs, first, second);
    UniqueStages(a.presets, PresetsOf(fs, first), PresetsOf(fs, second));
    UniqueStages(a.pools, PoolsOf(fs, first), PoolsOf(fs, second));
  }

  lemma KeysConcat(fs: FileSystem, front: seq<Path>, back: seq<Path>)
    ensures KeysOf(fs, front + back) == KeysOf(fs, front) + KeysOf(fs, back)
  {
    assert forall path :: path in front + back <==> path in front || path in back;
    forall path | path in front + back
      ensures fs.canonical(path) in KeysOf(fs, front) + KeysOf(fs, back)
    {
    }
    forall path | path in front || path in back ensures fs.canonical(path) in KeysOf(fs, front + back) {
      assert path in front + back;
    }
  }

  lemma {:induction false} NotesConcat(fs: FileSystem, front: seq<Path>, back: seq<Path>)
    requires fs.AllText(front) && fs.AllText(back)
    ensures fs.AllText(front + back) && Notes(fs, front + back) == Notes(fs, front) + Notes(fs, back)
  {
    if back == [] {
      assert front + back == front;
    } else {
      assert (front + back)[..|front + back| - 1] == front + back[..|back| - 1];
      NotesConcat(fs, front, back[..|back| - 1]);
    }
  }

  lemma OneMore(keys: seq<Key>, key: Key)
    ensures Members(keys + [key]) == Members(keys) + {key}
  {
    assert forall k :: k in keys + [key] <==> k in keys || k == key;
  }

  lemma FlagsThen(fs: FileSystem,
                  a: MergeResult, first: seq<Path>, firstRequired: seq<Path>, firstOptional: seq<Path>,
                  b: MergeResult, second: seq<Path>, secondRequired: seq<Path>, secondOptional: seq<Path>,
                  c: MergeResult)
    requires fs.AllText(first) && fs.AllText(second) && fs.AllText(first + second)
    requires Flags(fs, a, first, firstRequired, firstOptional, b)
    requires Flags(fs, b, second, secondRequired, secondOptional, c)
    ensures Flags(fs, a, first + second, firstRequired + secondRequired, firstOptional + secondOptional, c)
  {
    hide AnyTrouble, AnyMissing, AnyBad, AnyAbsent;
    FileFlagsConcat(fs, first, second);
    PathFlagsConcat(fs, firstRequired, secondRequired);
    PathFlagsConcat(fs, firstOptional, secondOptional);
  }

  lemma WatchesThen(fs: FileSystem,
                    a: MergeResult, first: seq<Path>, firstRequired: seq<Path>, firstOptional: seq<Path>,
                    b: MergeResult, second: seq<Path>, secondRequired: seq<Path>, secondOptional: seq<Path>,
                    c: MergeResult)
    requires fs.AllText(first) && fs.AllText(second) && fs.AllText(first + second)
    requires Watches(fs, a, first, firstRequired, firstOptional, b)
    requires Watches(fs, b, second, secondRequired, secondOptional, c)
    ensures Watches(fs, a, first + second, firstRequired + secondRequired, firstOptional + secondOptional, c)
  {
    hide Notes, KeysOf, Members;
    NotesConcat(fs, first, second);
    KeysConcat(fs, firstRequired, secondRequired);
    KeysConcat(fs, firstOptional, secondOptional);
  }

  lemma RecordedThen(fs: FileSystem,
                     a: MergeResult, first: seq<Path>, firstRequired: seq<Path>, firstOptional: seq<Path>,
                     b: MergeResult, second: seq<Path>, secondRequired: seq<Path>, secondOptional: seq<Path>,
                     c: MergeResult)
    requires fs.AllText(first) && fs.AllText(second)
    requires Recorded(fs, a, first, firstRequired, firstOptional, b)
    requires Recorded(fs, b, second, secondRequired, secondOptional, c)
    ensures fs.AllText(first + second)
    ensures Recorded(fs, a, first + second, firstRequired + secondRequired, firstOptional + secondOptional, c)
  {
    hide Declares, Flags, Watches;
    DeclaresThen(fs, a, first, b, second, c);
    FlagsThen(fs, a, first, firstRequired, firstOptional, b, second, secondRequired, secondOptional, c);
    WatchesThen(fs, a, first, firstRequired, firstOptional, b, second, secondRequired, secondOptional, c);
  }

  lemma OneFile(fs: FileSystem, path: Path)
    requires fs.IsText(path)
    ensures fs.AllText([path])
    ensures PresetsOf(fs, [path]) == fs.files[path].presets && PoolsOf(fs, [path]) == fs.files[path].pools
    ensures AnyTrouble(fs, [path]) == Trouble(fs, path)
    ensures AnyMissing(fs, [path], false) == AnyAbsent(fs, fs.files[path].includes)
    ensures AnyMissing(fs, [path], true) == AnyAbsent(fs, fs.files[path].optional)
    ensures Notes(fs, [path])
         == {fs.canonical(path)} + KeysOf(fs, fs.files[path].includes) + KeysOf(fs, fs.files[path].optional)
  {
    assert [path][..0] == [] && [path][0] == path;
  }

  lemma NoTargets(fs: FileSystem)
    ensures !AnyBad(fs, []) && !AnyAbsent(fs, []) && KeysOf(fs, []) == {}
  {
  }

  lemma DeclaresFile(fs: FileSystem, path: Path, a: MergeResult, started: MergeResult, inner: seq<Path>,
                     b: MergeResult, c: MergeResult)
    requires fs.IsText(path) && fs.AllText(inner) && Declares(fs, started, inner, b)
    requires a.presets == started.presets && a.pools == started.pools && a.redeclared == started.redeclared
    requires c == WithDeclarations(b, fs.files[path])
    ensures fs.AllText(inner + [path]) && Declares(fs, a, inner + [path], c)
  {
    hide Unique, Repeats;
    OneFile(fs, path);
    hide PresetsOf, PoolsOf;
    assert Declares(fs, b, [path], c) && Declares(fs, a, inner, b);
    DeclaresThen(fs, a, inner, b, [path], c);
  }

  lemma FlagsFile(fs: FileSystem, path: Path, a: MergeResult, started: MergeResult, inner: seq<Path>,
                  b: MergeResult, c: MergeResult)
    requires fs.IsText(path) && fs.AllText(inner) && fs.AllText(inner + [path])
    requires started == a.(loadedFiles := started.loadedFiles, hadError := a.hadError || fs.files[path].malformed)
    requires Flags(fs, started, inner, fs.files[path].includes, fs.files[path].optional, b)
    requires c == b.(presets := c.presets, pools := c.pools, redeclared := c.redeclared)
    ensures Flags(fs, a, inner + [path], [], [], c)
  {
    OneFile(fs, path);
    FileFlagsConcat(fs, inner, [path]);
    NoTargets(fs);
    hide AnyBad, AnyAbsent, AnyTrouble, AnyMissing;
  }

  lemma WatchesFile(fs: FileSystem, path: Path, a: MergeResult, started: MergeResult, inner: seq<Path>,
                    b: MergeResult, c: MergeResult)
    requires fs.IsText(path) && fs.AllText(inner) && fs.AllText(inner + [path])
    requires started.loadedFiles == a.loadedFiles + [fs.canonical(path)] && c.loadedFiles == b.loadedFiles
    requires Watches(fs, started, inner, fs.files[path].includes, fs.files[path].optional, b)
    ensures Watches(fs, a, inner + [path], [], [], c)
  {
    hide KeysOf, Notes, Members;
    OneFile(fs, path);
    OneMore(a.loadedFiles, fs.canonical(path));
    NotesConcat(fs, inner, [path]);
    NoTargets(fs);
  }

  /** Adding the file itself turns its targets into its own business. */
  lemma RecordedFile(fs: FileSystem, path: Path, a: MergeResult, started: MergeResult, inner: seq<Path>,
                     b: MergeResult, c: MergeResult)
    requires fs.IsText(path) && fs.AllText(inner)
    requires started == a.(loadedFiles := a.loadedFiles + [fs.canonical(path)],
                           hadError := a.hadError || fs.files[path].malformed)
    requires Recorded(fs, started, inner, fs.files[path].includes, fs.files[path].optional, b)
    requires c == WithDeclarations(b, fs.files[path])
    ensures fs.AllText(inner + [path]) && Recorded(fs, a, inner + [path], [], [], c)
  {
    hide Declares, Flags, Watches;
    DeclaresFile(fs, path, a, started, inner, b, c);
    FlagsFile(fs, path, a, started, inner, b, c);
    WatchesFile(fs, path, a, started, inner, b, c);
  }

  /** Looking up a path that is not expanded (again) records the path alone. */
  lemma UnreadExpandsToNothing(fs: FileSystem, path: Path, visited: set<Key>)
    ensures !fs.IsText(path) ==>
      VisitFile(fs, path, visited) == Visit([], visited) && Expanded(fs, path, visited) == map[]
  {
  }

  lemma RecordedLookup(fs: FileSystem, path: Path, a: MergeResult, optional: bool, b: MergeResult)
    requires Unique(a.presets) == a.presets && Unique(a.pools) == a.pools
    requires a.loadedFiles <= b.loadedFiles && Members(b.loadedFiles) == Members(a.loadedFiles) + {fs.canonical(path)}
    requires b == a.(loadedFiles := b.loadedFiles, hadError := a.hadError || fs.IsBad(path),
                     missingIncludes := a.missingIncludes || (!optional && path !in fs.files),
                     missingOptionalIncludes := a.missingOptionalIncludes || (optional && path !in fs.files))
    ensures Recorded(fs, a, [], if optional then [] else [path], if optional then [path] else [], b)
  {
    assert a.presets + [] == a.presets && a.pools + [] == a.pools;
    assert [path][0] == path;
    assert AnyBad(fs, [path]) == fs.IsBad(path) && AnyAbsent(fs, [path]) == (path !in fs.files);
    assert KeysOf(fs, [path]) == {fs.canonical(path)};
  }

  // ---------------------------------------------------------------- the run

  function WithDeclarations(result: MergeResult, file: File): MergeResult
    requires file.Text?
  {
    var presets, pools := result.presets + file.presets, result.pools + file.pools;
    result.(presets := Unique(presets), pools := Unique(pools),
            redeclared := result.redeclared || Repeats(presets) || Repeats(pools))
  }

  method Record(declarations: seq<string>, local: seq<string>) returns (recorded: seq<string>, redeclared: bool)
    requires Unique(declarations) == declarations
    ensures recorded == Unique(declarations + local)
    ensures redeclared == Repeats(declarations + local)
  {
    recorded, redeclared := declarations, false;
    assert declarations + local[..0] == declarations;
    for i := 0 to |local|
      invariant recorded == Unique(declarations + local[..i])
      invariant redeclared == Repeats(declarations + local[..i])
      invariant |recorded| <= |declarations| + i
    {
      UniqueNext(declarations, local, i);
      if local[i] in recorded {
        redeclared := true;
      } else {
        recorded := recorded + [local[i]];
      }
    }
    assert local[..|local|] == local;
  }

  class IncludeMerge {
    const fs: FileSystem
    var visited: set<Key>
    var result: MergeResult

    ghost predicate Valid()
      reads this
    {
      && (forall key <- visited :: key in result.loadedFiles)
      && Unique(result.presets) == result.presets && Unique(result.pools) == result.pools
    }

    constructor (fs: FileSystem)
      ensures this.fs == fs && visited == {} && result == NOTHING_MERGED && Valid()
    {
      this.fs := fs;
      visited := {};
      result := NOTHING_MERGED;
    }

    method RecordEffectOrigins(file: File)
      requires Valid() && file.Text?
      modifies this`result
      ensures Valid() && result == WithDeclarations(old(result), file)
    {
      var presets, presetAgain := Record(result.presets, file.presets);
      var pools, poolAgain := Record(result.pools, file.pools);
      UniqueMembers(result.presets + file.presets);
      UniqueMembers(result.pools + file.pools);
      UniqueOfDistinct(presets);
      UniqueOfDistinct(pools);
      result := result.(presets := presets, pools := pools,
                        redeclared := result.redeclared || presetAgain || poolAgain);
    }

    /** Reads a file known to exist; one that does not parse contributes nothing but its error. */
    method LoadAndExpand(path: Path, ghost optional: bool) returns (merged: Document)
      requires Valid() && path in fs.files && !fs.files[path].Irregular?
      modifies this
      ensures Valid() && merged == Expanded(fs, path, old(visited))
      ensures visited == VisitFile(fs, path, old(visited)).visited
      ensures Recorded(fs, old(result), VisitFile(fs, path, old(visited)).order,
                       if optional then [] else [path], if optional then [path] else [], result)
      decreases |fs.Keys() - visited|, 1, 0
    {
      UnreadExpandsToNothing(fs, path, visited);
      hide VisitFile, Expanded, Recorded;
      if fs.files[path].Broken? {
        ghost var before := result;
        var key := fs.canonical(path);
        OneMore(result.loadedFiles, key);
        if key !in result.loadedFiles {
          result := result.(loadedFiles := result.loadedFiles + [key]);
        }
        result := result.(hadError := true);
        RecordedLookup(fs, path, before, optional, result);
        return map[];
      }
      merged := ExpandFile(path, optional);
    }

    method ExpandFile(path: Path, ghost optional: bool) returns (merged: Document)
      requires Valid() && fs.IsText(path)
      modifies this
      ensures Valid() && merged == Expanded(fs, path, old(visited))
      ensures visited == VisitFile(fs, path, old(visited)).visited
      ensures Recorded(fs, old(result), VisitFile(fs, path, old(visited)).order,
                       if optional then [] else [path], if optional then [path] else [], result)
      decreases |fs.Keys() - visited|, 0, 0
    {
      hide Recorded;
      var key, file := fs.canonical(path), fs.files[path];
      ghost var before := result;
      if key in visited {
        RecordedLookup(fs, path, before, optional, result);
        return map[];
      }
      ghost var here := visited + {key};
      visited := visited + {key};
      result := result.(loadedFiles := result.loadedFiles + [key], hadError := result.hadError || file.malformed);
      ghost var started := result;
      OneFewer(fs, path, old(visited));
      if file.includes == [] && file.optional == [] {
        RecordEffectOrigins(file);
        LeafFile(fs, path, old(visited), before, started, optional, result);
        return file.own;
      }
      ghost var order := VisitIncludes(fs, file, here).order;
      var base := MergeDirective(file);
      ghost var end := result;
      RecordEffectOrigins(file);
      FileWithIncludes(fs, path, before, started, order, end, optional, result);
      merged := DeepMerge(base, file.own);
    }

    method MergeDirective(file: File) returns (merged: Document)
      requires Valid() && file.Text?
      modifies this
      ensures Valid()
      ensures var required := VisitAll(fs, file.includes, old(visited)).visited;
        merged == ExpandedAll(fs, file.optional, required, ExpandedAll(fs, file.includes, old(visited), map[]))
      ensures visited == VisitIncludes(fs, file, old(visited)).visited
      ensures Recorded(fs, old(result), VisitIncludes(fs, file, old(visited)).order,
                       file.includes, file.optional, result)
      decreases |fs.Keys() - visited|, 4, 0
    {
      hide Recorded;
      ghost var here := visited;
      ghost var required := VisitAll(fs, file.includes, here);
      NoMore(fs, here, required.visited);
      ghost var both := VisitAll(fs, file.optional, required.visited);
      merged := MergeEntries(file.includes, false, map[]);
      ghost var middle := result;
      merged := MergeEntries(file.optional, true, merged);
      RecordedThen(fs, old(result), required.order, file.includes, [], middle, both.order, [], file.optional, result);
      assert file.includes + [] == file.includes && [] + file.optional == file.optional;
    }

    method MergeEntry(target: Path, optional: bool, base: Document) returns (merged: Document)
      requires Valid()
      modifies this
      ensures Valid() && merged == Merge(base, Expanded(fs, target, old(visited)))
      ensures visited == VisitFile(fs, target, old(visited)).visited
      ensures Recorded(fs, old(result), VisitFile(fs, target, old(visited)).order,
                       if optional then [] else [target], if optional then [target] else [], result)
      decreases |fs.Keys() - visited|, 2, 0
    {
      if target in fs.files && !fs.files[target].Irregular? {
        var expanded := LoadAndExpand(target, optional);
        merged := DeepMerge(base, expanded);
        return;
      }
      ghost var before := result;
      EmptyIsIdentity(base);
      merged := base;
      result := result.(loadedFiles := result.loadedFiles + [fs.canonical(target)]);
      if target in fs.files {
        result := result.(hadError := true);
      } else if optional {
        result := result.(missingOptionalIncludes := true);
      } else {
        result := result.(missingIncludes := true);
      }
      OneMore(before.loadedFiles, fs.canonical(target));
      RecordedLookup(fs, target, before, optional, result);
    }

    method MergeEntries(entries: seq<Path>, optional: bool, base: Document) returns (merged: Document)
      requires Valid()
      modifies this
      ensures Valid() && merged == ExpandedAll(fs, entries, old(visited), base)
      ensures visited == VisitAll(fs, entries, old(visited)).visited
      ensures Recorded(fs, old(result), VisitAll(fs, entries, old(visited)).order,
                       if optional then [] else entries, if optional then entries else [], result)
      decreases |fs.Keys() - visited|, 3, 0
    {
      hide Recorded;
      merged := base;
      ghost var start, done := visited, [];
      NothingRecorded(fs, result);
      assert entries[..0] == [] && entries[0..] == entries;
      assert [] + VisitAll(fs, entries, start).order == VisitAll(fs, entries, start).order;
      for i := 0 to |entries|
        invariant Valid() && start <= visited && fs.AllText(done)
        invariant ExpandedAll(fs, entries, start, base) == ExpandedAll(fs, entries[i..], visited, merged)
        invariant VisitAll(fs, entries, start)
               == Visit(done + VisitAll(fs, entries[i..], visited).order, VisitAll(fs, entries[i..], visited).visited)
        invariant Recorded(fs, old(result), done, if optional then [] else entries[..i],
                           if optional then entries[..i] else [], result)
      {
        var target := entries[i];
        ghost var first, before := VisitFile(fs, target, visited), result;
        assert entries[i..][0] == target && entries[i..][1..] == entries[i + 1..];
        NoMore(fs, start, visited);
        merged := MergeEntry(target, optional, merged);
        EntryThen(fs, old(result), done, entries, i, optional, before, first.order, result);
        Regroup(done, first.order, VisitAll(fs, entries[i + 1..], visited).order);
        done := done + first.order;
      }
      assert entries[..|entries|] == entries && entries[|entries|..] == [];
      assert done + [] == done;
    }
  }

  lemma EntryThen(fs: FileSystem, a: MergeResult, done: seq<Path>, entries: seq<Path>, i: nat, optional: bool,
                  b: MergeResult, order: seq<Path>, c: MergeResult)
    requires i < |entries| && fs.AllText(done) && fs.AllText(order)
    requires Recorded(fs, a, done, if optional then [] else entries[..i], if optional then entries[..i] else [], b)
    requires Recorded(fs, b, order, if optional then [] else [entries[i]], if optional then [entries[i]] else [], c)
    ensures fs.AllText(done + order)
    ensures Recorded(fs, a, done + order, if optional then [] else entries[..i + 1],
                     if optional then entries[..i + 1] else [], c)
  {
    hide Recorded;
    var none: seq<Path>, some := [], entries[..i] + [entries[i]];
    assert entries[..i + 1] == some && none + none == none;
    if optional {
      RecordedThen(fs, a, done, none, entries[..i], b, order, none, [entries[i]], c);
      assert Recorded(fs, a, done + order, none, some, c);
    } else {
      RecordedThen(fs, a, done, entries[..i], none, b, order, [entries[i]], none, c);
      assert Recorded(fs, a, done + order, some, none, c);
    }
  }

  lemma LeafFile(fs: FileSystem, path: Path, visited: set<Key>, before: MergeResult, started: MergeResult,
                 optional: bool, after: MergeResult)
    requires fs.IsText(path) && fs.canonical(path) !in visited
    requires fs.files[path].includes == [] && fs.files[path].optional == []
    requires Unique(before.presets) == before.presets && Unique(before.pools) == before.pools
    requires started == before.(loadedFiles := before.loadedFiles + [fs.canonical(path)],
                                hadError := before.hadError || fs.files[path].malformed)
    requires after == WithDeclarations(started, fs.files[path])
    ensures VisitFile(fs, path, visited) == Visit([path], visited + {fs.canonical(path)})
    ensures Expanded(fs, path, visited) == fs.files[path].own
    ensures fs.AllText([path])
    ensures Recorded(fs, before, [path], if optional then [] else [path], if optional then [path] else [], after)
  {
    EmptyIsIdentity(fs.files[path].own);
    Regroup([], [], [path]);
    NothingRecorded(fs, started);
    RecordedFile(fs, path, before, started, [], started, after);
    assert [] + [path] == [path];
    TargetToo(fs, path, before, [path], optional, after);
  }

  lemma FileWithIncludes(fs: FileSystem, path: Path, before: MergeResult, started: MergeResult, order: seq<Path>,
                         end: MergeResult, optional: bool, after: MergeResult)
    requires fs.IsText(path) && fs.AllText(order)
    requires started == before.(loadedFiles := before.loadedFiles + [fs.canonical(path)],
                                hadError := before.hadError || fs.files[path].malformed)
    requires Recorded(fs, started, order, fs.files[path].includes, fs.files[path].optional, end)
    requires after == WithDeclarations(end, fs.files[path])
    ensures fs.AllText(order + [path])
    ensures Recorded(fs, before, order + [path],
                     if optional then [] else [path], if optional then [path] else [], after)
  {
    RecordedFile(fs, path, before, started, order, end, after);
    TargetToo(fs, path, before, order + [path], optional, after);
  }

  lemma NothingRecorded(fs: FileSystem, a: MergeResult)
    requires Unique(a.presets) == a.presets && Unique(a.pools) == a.pools
    ensures Recorded(fs, a, [], [], [], a)
  {
    assert a.presets + [] == a.presets && a.pools + [] == a.pools;
  }

  lemma LastIsNoted(fs: FileSystem, order: seq<Path>)
    requires fs.AllText(order) && order != []
    ensures fs.canonical(order[|order| - 1]) in Notes(fs, order)
  {
  }

  lemma TextTarget(fs: FileSystem, path: Path)
    requires fs.IsText(path)
    ensures !AnyBad(fs, [path]) && !AnyAbsent(fs, [path]) && KeysOf(fs, [path]) == {fs.canonical(path)}
  {
    assert [path][0] == path;
  }

  /** A text file that ends up noted may be listed as a target as well. */
  lemma TargetToo(fs: FileSystem, path: Path, a: MergeResult, order: seq<Path>, optional: bool, b: MergeResult)
    requires fs.IsText(path) && fs.AllText(order) && order != [] && order[|order| - 1] == path
    requires Recorded(fs, a, order, [], [], b)
    ensures Recorded(fs, a, order, if optional then [] else [path], if optional then [path] else [], b)
  {
    hide AnyBad, AnyAbsent, AnyTrouble, AnyMissing, KeysOf, Notes, Members, Declares;
    TextTarget(fs, path);
    NoTargets(fs);
    LastIsNoted(fs, order);
  }

  // ---------------------------------------------------------------- the whole merge

  /** Drops one entry of [effects.pool]. */
  function WithoutPool(document: Document, name: string): Document {
    if "effects" !in document || !document["effects"].Table? then document
    else
      var effects := document["effects"].entries;
      if "pool" !in effects || !effects["pool"].Table? then document
      else document["effects" := Table(effects["pool" := Table(effects["pool"].entries - {name})])]
  }

  /** Drops every pool whose name a preset has. */
  function WithoutShadowed(document: Document, pools: seq<string>, presets: seq<string>): Document {
    if pools == [] then document
    else
      var earlier, last := WithoutShadowed(document, pools[..|pools| - 1], presets), pools[|pools| - 1];
      if last in presets then WithoutPool(earlier, last) else earlier
  }

  predicate HasPool(document: Document, name: string) {
    name in EffectNames(document, "pool")
  }

  /** A declared pool survives exactly when no preset shares its name; other pools are not touched. */
  lemma {:induction false} ShadowedPoolsAreGone(document: Document, pools: seq<string>, presets: seq<string>,
                                                name: string)
    ensures HasPool(WithoutShadowed(document, pools, presets), name)
        <==> HasPool(document, name) && !(name in pools && name in presets)
    ensures EffectNames(WithoutShadowed(document, pools, presets), "preset") == EffectNames(document, "preset")
  {
    if pools == [] {
    } else {
      var front, last := pools[..|pools| - 1], pools[|pools| - 1];
      assert pools == front + [last];
      ShadowedPoolsAreGone(document, front, presets, name);
      ShadowedPoolsAreGone(document, front, presets, last);
    }
  }

  ghost predicate KeepsPools(before: Node, after: Node, gone: set<string>) {
    if !before.Table? then after == before
    else after.Table? && forall name ::
      && (name in after.entries <==> name in before.entries && name !in gone)
      && (name in after.entries ==> after.entries[name] == before.entries[name])
  }

  ghost predicate KeepsEffects(before: Node, after: Node, gone: set<string>) {
    if !before.Table? then after == before
    else
      && after.Table? && after.entries.Keys == before.entries.Keys
      && (forall key <- before.entries :: key != "pool" ==> after.entries[key] == before.entries[key])
      && ("pool" in before.entries ==> KeepsPools(before.entries["pool"], after.entries["pool"], gone))
  }

  /** Everything is as it was, except that these entries of [effects.pool] are gone. */
  ghost predicate KeepsAllBut(before: Document, after: Document, gone: set<string>) {
    && after.Keys == before.Keys
    && (forall key <- before :: key != "effects" ==> after[key] == before[key])
    && ("effects" in before ==> KeepsEffects(before["effects"], after["effects"], gone))
  }

  lemma WithoutPoolKeeps(document: Document, name: string)
    ensures KeepsAllBut(document, WithoutPool(document, name), {name})
  {
  }

  lemma KeepsThen(a: Document, b: Document, c: Document, first: set<string>, second: set<string>)
    requires KeepsAllBut(a, b, first) && KeepsAllBut(b, c, second)
    ensures KeepsAllBut(a, c, first + second)
  {
    if "effects" in a && a["effects"].Table? && "pool" in a["effects"].entries {
      var x, y, z := a["effects"].entries["pool"], b["effects"].entries["pool"], c["effects"].entries["pool"];
      PoolsThen(x, y, z, first, second);
    }
    hide KeepsPools;
  }

  lemma PoolsThen(a: Node, b: Node, c: Node, first: set<string>, second: set<string>)
    requires KeepsPools(a, b, first) && KeepsPools(b, c, second)
    ensures KeepsPools(a, c, first + second)
  {
  }

  ghost function Shadowed(pools: seq<string>, presets: seq<string>): set<string> {
    set name | name in pools && name in presets
  }

  /** Removing the shadowed pools changes nothing else. */
  lemma {:induction false} OnlyShadowedPoolsGo(document: Document, pools: seq<string>, presets: seq<string>)
    ensures KeepsAllBut(document, WithoutShadowed(document, pools, presets), Shadowed(pools, presets))
  {
    if pools == [] {
    } else {
      var front, last := pools[..|pools| - 1], pools[|pools| - 1];
      assert pools == front + [last];
      OnlyShadowedPoolsGo(document, front, presets);
      var earlier := WithoutShadowed(document, front, presets);
      assert Shadowed(pools, presets) == Shadowed(front, presets) + if last in presets then {last} else {};
      if last in presets {
        WithoutPoolKeeps(earlier, last);
        KeepsThen(document, earlier, WithoutPool(earlier, last), Shadowed(front, presets), {last});
      } else {
        assert Shadowed(pools, presets) == Shadowed(front, presets);
      }
    }
  }

  // ---------------------------------------------------------------- every declared name is recorded

  /** Merging declares nothing that neither document declares. */
  lemma NamesOfMerge(base: Document, overlay: Document, table: string)
    ensures EffectNames(Merge(base, overlay), table) <= EffectNames(base, table) + EffectNames(overlay, table)
  {
    if "effects" in base && "effects" in overlay {
      MergeByKind(base["effects"], overlay["effects"]);
      if base["effects"].Table? && overlay["effects"].Table? {
        var b, o := base["effects"].entries, overlay["effects"].entries;
        if table in b && table in o {
          MergeByKind(b[table], o[table]);
        }
      }
    }
  }

  /** The names of either table that the files of an order declare. */
  ghost function NamesOf(fs: FileSystem, order: seq<Path>, table: string): set<string>
    requires fs.AllText(order)
  {
    if order == [] then {}
    else NamesOf(fs, order[..|order| - 1], table) + EffectNames(fs.files[order[|order| - 1]].own, table)
  }

  lemma {:induction false} NamesOfConcat(fs: FileSystem, front: seq<Path>, back: seq<Path>, table: string)
    requires fs.AllText(front) && fs.AllText(back)
    ensures fs.AllText(front + back)
    ensures NamesOf(fs, front + back, table) == NamesOf(fs, front, table) + NamesOf(fs, back, table)
  {
    if back == [] {
      assert front + back == front;
    } else {
      var backFront := back[..|back| - 1];
      assert (front + back)[..|front + back| - 1] == front + backFront;
      NamesOfConcat(fs, front, backFront, table);
    }
  }

  lemma {:induction false} ExpandedNames(fs: FileSystem, path: Path, visited: set<Key>, table: string)
    ensures EffectNames(Expanded(fs, path, visited), table) <= NamesOf(fs, VisitFile(fs, path, visited).order, table)
    decreases |fs.Keys() - visited|, 0, 0
  {
    if !fs.IsText(path) || fs.canonical(path) in visited {
    } else {
      OneFewer(fs, path, visited);
      var here, file := visited + {fs.canonical(path)}, fs.files[path];
      var required := VisitAll(fs, file.includes, here);
      NoMore(fs, here, required.visited);
      var optional := VisitAll(fs, file.optional, required.visited);
      var first := ExpandedAll(fs, file.includes, here, map[]);
      ExpandedAllNames(fs, file.includes, here, map[], table);
      ExpandedAllNames(fs, file.optional, required.visited, first, table);
      NamesOfMerge(ExpandedAll(fs, file.optional, required.visited, first), file.own, table);
      NamesOfFile(fs, required.order, optional.order, path, table);
    }
  }

  lemma NamesOfFile(fs: FileSystem, required: seq<Path>, optional: seq<Path>, path: Path, table: string)
    requires fs.AllText(required) && fs.AllText(optional) && fs.IsText(path)
    ensures fs.AllText(required + optional + [path])
    ensures NamesOf(fs, required + optional + [path], table)
         == NamesOf(fs, required, table) + NamesOf(fs, optional, table) + EffectNames(fs.files[path].own, table)
  {
    NamesOfConcat(fs, required, optional, table);
    assert (required + optional + [path])[..|required + optional|] == required + optional;
  }

  lemma {:induction false} ExpandedAllNames(fs: FileSystem, paths: seq<Path>, visited: set<Key>, base: Document,
                                            table: string)
    ensures EffectNames(ExpandedAll(fs, paths, visited, base), table)
         <= EffectNames(base, table) + NamesOf(fs, VisitAll(fs, paths, visited).order, table)
    decreases |fs.Keys() - visited|, 1, |paths|
  {
    if paths == [] {
    } else {
      var first, expanded := VisitFile(fs, paths[0], visited), Expanded(fs, paths[0], visited);
      NoMore(fs, visited, first.visited);
      ExpandedNames(fs, paths[0], visited, table);
      NamesOfMerge(base, expanded, table);
      ExpandedAllNames(fs, paths[1..], first.visited, Merge(base, expanded), table);
      NamesOfConcat(fs, first.order, VisitAll(fs, paths[1..], first.visited).order, table);
    }
  }

  lemma {:induction false} ListedNames(fs: FileSystem, order: seq<Path>, name: string)
    requires fs.AllText(order)
    ensures name in NamesOf(fs, order, "preset") <==> name in PresetsOf(fs, order)
    ensures name in NamesOf(fs, order, "pool") <==> name in PoolsOf(fs, order)
  {
    if order == [] {
    } else {
      ListedNames(fs, order[..|order| - 1], name);
      var file: File := fs.files[order[|order| - 1]];
      assert name in EffectNames(file.own, "preset") <==> name in file.presets;
      assert name in EffectNames(file.own, "pool") <==> name in file.pools;
    }
  }

  /** After a merge no name is both a preset and a pool. */
  lemma NoSharedName(fs: FileSystem, root: Path, result: MergeResult, name: string)
    requires Recorded(fs, NOTHING_MERGED, VisitFile(fs, root, {}).order, [root], [], result)
    ensures var merged := WithoutShadowed(Expanded(fs, root, {}), result.pools, result.presets);
      !(name in EffectNames(merged, "preset") && name in EffectNames(merged, "pool"))
  {
    var expanded, order := Expanded(fs, root, {}), VisitFile(fs, root, {}).order;
    ShadowedPoolsAreGone(expanded, result.pools, result.presets, name);
    ExpandedNames(fs, root, {}, "preset");
    ExpandedNames(fs, root, {}, "pool");
    ListedNames(fs, order, name);
    assert [] + PresetsOf(fs, order) == PresetsOf(fs, order) && [] + PoolsOf(fs, order) == PoolsOf(fs, order);
    UniqueMembers(PresetsOf(fs, order));
    UniqueMembers(PoolsOf(fs, order));
  }

  method MergeWithIncludes(fs: FileSystem, root: Path) returns (merged: Document, result: MergeResult)
    requires root in fs.files && !fs.files[root].Irregular?
    ensures Recorded(fs, NOTHING_MERGED, VisitFile(fs, root, {}).order, [root], [], result)
    ensures merged == WithoutShadowed(Expanded(fs, root, {}), result.pools, result.presets)
    ensures forall name :: !(name in EffectNames(merged, "preset") && name in EffectNames(merged, "pool"))
    ensures KeepsAllBut(Expanded(fs, root, {}), merged, Shadowed(result.pools, result.presets))
  {
    hide Recorded, WithoutPool, EffectNames, KeepsAllBut, Shadowed;
    var run := new IncludeMerge(fs);
    merged := run.LoadAndExpand(root, false);
    result := run.result;
    OnlyShadowedPoolsGo(merged, result.pools, result.presets);
    merged := RemoveShadowed(merged, result.pools, result.presets);
    forall name ensures !(name in EffectNames(merged, "preset") && name in EffectNames(merged, "pool")) {
      NoSharedName(fs, root, result, name);
    }
  }

  method RemoveShadowed(expanded: Document, pools: seq<string>, presets: seq<string>) returns (merged: Document)
    ensures merged == WithoutShadowed(expanded, pools, presets)
  {
    merged := expanded;
    for i := 0 to |pools|
      invariant merged == WithoutShadowed(expanded, pools[..i], presets)
    {
      assert pools[..i + 1][..i] == pools[..i];
      if pools[i] in presets {
        merged := WithoutPool(merged, pools[i]);
      }
    }
    assert pools[..|pools|] == pools;
  }
}
