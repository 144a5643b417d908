/**
 The loaded configuration and its generations (src/config/store.cpp). Consumers cache what they
 derived and compare generations; the class keeps, as ghost history, the configuration of every
 generation, and its invariant says that the layout generation is an honest cache key.
 */
module Store {
  import opened Options
  import opened Lists
  import opened ConfigModel
  import opened Change
  import opened Resolve
  import opened Invalidation
  import opened Refreshes

  type Path = string

  datatype Diagnostic = Diagnostic(isError: bool, message: string)

  datatype PathKind = MissingPath | RegularFile | Unavailable

  /** What merging and reading one root file yields. `parsed` is absent when that failed outright. */
  datatype Reading = Reading(diagnostics: seq<Diagnostic>, loadedFiles: seq<Path>, missingIncludes: bool,
                             parsed: Option<Config>)

  /** The file system and environment during one call. */
  datatype World = World(candidates: seq<Path>, kind: Path -> PathKind, read: Path -> Reading, userPath: Path)

  datatype Outcome = Loaded | Missing | Failed

  datatype ReloadResult = ReloadResult(success: bool, effects: ConfigEffects)

  const REJECTED := ReloadResult(false, NOTHING)

  const NOT_FOUND := Diagnostic(true, "config file not found")

  /** A file that was read without any error; one that was not may hold anything. */
  predicate Accepted(reading: Reading) {
    reading.parsed.Some? && !HasErrors(reading.diagnostics)
  }

  /** What the readers guarantee of a file they accept (see ConfigParse.ReadersDischarge). */
  ghost predicate AcceptsOnlyWellFormed(world: World) {
    forall path :: Readable(path, world) ==> WellFormed(world.read(path).parsed.value)
  }

  /** A regular file that was read without any error. */
  predicate Readable(path: Path, world: World) {
    world.kind(path) == RegularFile && Accepted(world.read(path))
  }

  predicate HasErrors(diagnostics: seq<Diagnostic>) {
    exists d <- diagnostics :: d.isError
  }

  /** The first candidate that is there at all, or the first candidate. */
  function Selected(candidates: seq<Path>, world: World): (Path, bool) {
    if candidates == [] then (world.userPath, false)
    else if world.kind(candidates[0]) != MissingPath then (candidates[0], true)
    else
      var rest := Selected(candidates[1..], world);
      (if rest.1 then rest.0 else candidates[0], rest.1)
  }

  /** The file that a reload reads. */
  function Root(explicitPath: bool, rootPath: Path, candidates: seq<Path>, world: World): Path {
    if explicitPath then rootPath else Selected(candidates, world).0
  }

  /** What a reload commits; None when it is rejected. */
  function Reloaded(explicitPath: bool, rootPath: Path, candidates: seq<Path>, defaults: Config, world: World):
    Option<Config>
  {
    var root := Root(explicitPath, rootPath, candidates, world);
    if Readable(root, world) then world.read(root).parsed
    else if !explicitPath && world.kind(root) == MissingPath && !Selected(candidates, world).1 then Some(defaults)
    else None
  }

  /** Where a load looks for its root file. */
  function SearchPaths(explicitPath: bool, candidates: seq<Path>, root: Path): seq<Path> {
    if explicitPath || candidates == [] then [root] else candidates
  }

  lemma {:induction false} SameSelection(candidates: seq<Path>, before: World, after: World)
    requires before.userPath == after.userPath
    requires forall path <- candidates :: before.kind(path) == after.kind(path)
    ensures Selected(candidates, before) == Selected(candidates, after)
  {
    if candidates == [] {
    } else {
      SameSelection(candidates[1..], before, after);
    }
  }

  /** The first candidate that is there at all is selected, whatever it is. */
  lemma {:induction false} FirstThereIsSelected(candidates: seq<Path>, world: World, i: nat)
    requires i < |candidates| && world.kind(candidates[i]) != MissingPath
    requires forall j | 0 <= j < i :: world.kind(candidates[j]) == MissingPath
    ensures Selected(candidates, world) == (candidates[i], true)
    decreases i
  {
    if i == 0 {
    } else {
      assert world.kind(candidates[0]) == MissingPath;
      FirstThereIsSelected(candidates[1..], world, i - 1);
    }
  }

  /** With none there the first candidate is where a file would be looked for, or the user's own path. */
  lemma {:induction false} NoneThere(candidates: seq<Path>, world: World)
    requires forall path <- candidates :: world.kind(path) == MissingPath
    ensures Selected(candidates, world) == (if candidates == [] then world.userPath else candidates[0], false)
  {
    if candidates == [] {
    } else {
      NoneThere(candidates[1..], world);
    }
  }

  lemma {:induction false} SelectedIsSearched(candidates: seq<Path>, world: World)
    ensures Selected(candidates, world).0 in SearchPaths(false, candidates, Selected(candidates, world).0)
  {
    if candidates == [] {
    } else {
      SelectedIsSearched(candidates[1..], world);
    }
  }

  /** A reload takes what the root says, or the defaults when nothing is where an implicit one might be, or nothing. */
  lemma ReloadedExactly(explicitPath: bool, rootPath: Path, candidates: seq<Path>, defaults: Config, world: World)
    ensures var root := Root(explicitPath, rootPath, candidates, world);
      var reloaded := Reloaded(explicitPath, rootPath, candidates, defaults, world);
      var nothing := && !explicitPath && world.kind(root) == MissingPath
                     && forall candidate <- candidates :: world.kind(candidate) == MissingPath;
      && (explicitPath ==> root == rootPath)
      && (Readable(root, world) ==> reloaded == world.read(root).parsed)
      && (nothing ==> reloaded == Some(defaults))
      && (reloaded == None <==> !Readable(root, world) && !nothing)
  {
    if forall candidate <- candidates :: world.kind(candidate) == MissingPath {
      NoneThere(candidates, world);
    } else {
      SomeThere(candidates, world);
    }
  }

  lemma {:induction false} SomeThere(candidates: seq<Path>, world: World)
    requires exists candidate <- candidates :: world.kind(candidate) != MissingPath
    ensures Selected(candidates, world).1
  {
    if world.kind(candidates[0]) != MissingPath {
    } else {
      SomeThere(candidates[1..], world);
    }
  }

  /** Where it looks, and every file it read or missed. */
  function PathsToWatch(searched: seq<Path>, root: Path, world: World): seq<Path> {
    Unique(searched + if world.kind(root) == RegularFile then world.read(root).loadedFiles else [])
  }

  /** Whether the root file was read and misses an include. */
  predicate LacksInclude(root: Path, world: World) {
    world.kind(root) == RegularFile && world.read(root).missingIncludes
  }

  class ConfigStore {
    var config: Config
    var diagnostics: seq<Diagnostic>
    var watchPaths: seq<Path>
    var implicitCandidates: seq<Path>
    var rootPath: Path
    var explicitPath: bool
    var fileMissing: bool
    var missingIncludes: bool
    var generation: nat
    var workspaceLayoutGeneration: nat
    ghost var history: seq<Config>  // history[g] was the configuration of generation g
    const defaults: Config

    ghost predicate Valid()
      reads this
    {
      && |history| == generation + 1
      && history[generation] == config
      && WellFormed(defaults)
      && (forall past <- history :: WellFormed(past))
      && workspaceLayoutGeneration == LayoutGeneration(Refreshed(history))
      && (forall i, j :: 0 <= i < j < |watchPaths| ==> watchPaths[i] != watchPaths[j])
    }

    constructor (defaults: Config)
      requires WellFormed(defaults)
      ensures Valid() && history == [defaults] && this.defaults == defaults
    {
      this.defaults := defaults;
      config, history := defaults, [defaults];
      diagnostics, watchPaths, implicitCandidates, rootPath := [], [], [], "";
      explicitPath, fileMissing, missingIncludes := false, false, false;
      generation, workspaceLayoutGeneration := 0, 0;
    }

    method AddWatchPath(path: Path)
      requires Valid()
      modifies this`watchPaths
      ensures Valid()
      ensures watchPaths == if path in old(watchPaths) then old(watchPaths) else old(watchPaths) + [path]
    {
      if path !in watchPaths {
        watchPaths := watchPaths + [path];
      }
    }

    method AddWatchPaths(paths: seq<Path>, ghost before: seq<Path>)
      requires Valid() && watchPaths == Unique(before)
      modifies this`watchPaths
      ensures Valid() && watchPaths == Unique(before + paths)
    {
      hide WellFormed, LayoutGeneration, Refreshed;
      assert before + [] == before;
      for i := 0 to |paths|
        invariant Valid() && watchPaths == Unique(before + paths[..i])
      {
        UniqueNext(before, paths, i);
        AddWatchPath(paths[i]);
      }
      assert paths[..|paths|] == paths;
    }

    method BeginLoad(paths: seq<Path>)
      requires Valid()
      modifies this`diagnostics, this`missingIncludes, this`watchPaths
      ensures Valid() && diagnostics == [] && !missingIncludes && watchPaths == Unique(paths)
    {
      diagnostics, missingIncludes, watchPaths := [], false, [];
      AddWatchPaths(paths, []);
      assert [] + paths == paths;
    }

    /** Reads a root file; on Loaded no error was reported and the result is well formed. */
    method ParseInto(root: Path, paths: seq<Path>, world: World) returns (outcome: Outcome, loaded: Config)
      requires Valid() && AcceptsOnlyWellFormed(world)
      modifies this`diagnostics, this`missingIncludes, this`watchPaths
      ensures Valid() && WellFormed(loaded)
      ensures outcome == Missing <==> world.kind(root) == MissingPath
      ensures outcome == Loaded <==> Readable(root, world)
      ensures loaded == if outcome == Loaded then world.read(root).parsed.value else defaults
      ensures diagnostics == match world.kind(root)
                             case MissingPath => []
                             case Unavailable => [Diagnostic(true, "cannot inspect config file")]
                             case RegularFile => world.read(root).diagnostics
      ensures missingIncludes == LacksInclude(root, world) && watchPaths == PathsToWatch(paths, root, world)
    {
      loaded := defaults;
      BeginLoad(paths);
      assert paths + [] == paths;
      match world.kind(root)
      case MissingPath => outcome := Missing;
      case Unavailable =>
        diagnostics := diagnostics + [Diagnostic(true, "cannot inspect config file")];
        outcome := Failed;
      case RegularFile =>
        var reading := world.read(root);
        missingIncludes := reading.missingIncludes;
        diagnostics := diagnostics + reading.diagnostics;
        AddWatchPaths(reading.loadedFiles, paths);
        if reading.parsed.None? || HasErrors(diagnostics) {
          outcome := Failed;
        } else {
          outcome, loaded := Loaded, reading.parsed.value;
        }
    }

    method Commit(next: Config, root: Path, missing: bool) returns (result: ReloadResult)
      requires Valid() && WellFormed(next)
      modifies this`config, this`history, this`rootPath, this`fileMissing
      modifies this`generation, this`workspaceLayoutGeneration
      ensures Valid() && config == next && rootPath == root && fileMissing == missing
      ensures generation == old(generation) + 1 && history == old(history) + [next]
      ensures result.success
      ensures result.effects == if old(generation) == 0 then EVERYTHING else Effects(old(config), next)
      ensures workspaceLayoutGeneration
           == if result.effects.workspaceLayout then generation else old(workspaceLayoutGeneration)
      ensures workspaceLayoutGeneration
           == if old(generation) == 0 || LayoutInputsDiffer(old(config), next) then generation
              else old(workspaceLayoutGeneration)
    {
      hide Effects, WellFormed, LayoutGeneration, Refreshed, LayoutInputsDiffer;
      LayoutExactly(config, next);
      var effects := EVERYTHING;
      if generation != 0 {
        effects := Between(config, next);
      }
      result := ReloadResult(true, effects);
      RefreshedStep(history, next);
      config, rootPath, fileMissing, generation := next, root, missing, generation + 1;
      history := history + [next];
      if effects.workspaceLayout {
        workspaceLayoutGeneration := generation;
      }
    }

    /** A cache filled at the layout generation or later holds what resolving again would yield. */
    lemma CachesAreHonest(g: nat)
      requires Valid() && workspaceLayoutGeneration <= g <= generation
      ensures SameWorkspaces(history[g], config)
    {
      CacheKeyIsHonest(history, g);
    }

    /** Startup always commits something: the file's settings, or the defaults after any error. */
    method Load(explicitRoot: Option<Path>, world: World)
      requires Valid() && AcceptsOnlyWellFormed(world)
      modifies this
      ensures Valid() && generation == old(generation) + 1 && history == old(history) + [config]
      ensures explicitPath == explicitRoot.Some?
      ensures rootPath == if explicitRoot.Some? then explicitRoot.value else Selected(world.candidates, world).0
      ensures config == if Readable(rootPath, world) then world.read(rootPath).parsed.value else defaults
      ensures diagnostics == DiagnosticsOf(explicitPath, rootPath, world)
      ensures fileMissing <==> world.kind(rootPath) == MissingPath
      ensures implicitCandidates == if explicitPath then [] else world.candidates
      ensures watchPaths == PathsToWatch(SearchPaths(explicitPath, implicitCandidates, rootPath), rootPath, world)
      ensures missingIncludes == LacksInclude(rootPath, world)
    {
      hide WellFormed, LayoutGeneration, Refreshed, Effects;
      var root, paths;
      if explicitRoot.Some? {
        implicitCandidates := [];
        root, paths := explicitRoot.value, [explicitRoot.value];
      } else {
        implicitCandidates := world.candidates;
        root := Selected(implicitCandidates, world).0;
        paths := if implicitCandidates == [] then [root] else implicitCandidates;
      }
      rootPath, explicitPath := root, explicitRoot.Some?;
      var outcome, loaded := ParseInto(root, paths, world);
      var missing := outcome == Missing;
      if missing && explicitPath {
        diagnostics := diagnostics + [NOT_FOUND];
      }
      var _ := Commit(loaded, root, missing);
    }

    /** Switches to another root file, or leaves the store exactly as it was. */
    method Replace(newRoot: Path, world: World) returns (result: ReloadResult, errors: seq<string>)
      requires Valid() && AcceptsOnlyWellFormed(world)
      modifies this
      ensures Valid()
      ensures result.success <==> Readable(newRoot, world)
      ensures result.success ==>
                && generation == old(generation) + 1 && history == old(history) + [config]
                && Some(config) == world.read(newRoot).parsed && diagnostics == world.read(newRoot).diagnostics
                && watchPaths == PathsToWatch([newRoot], newRoot, world)
                && missingIncludes == LacksInclude(newRoot, world)
                && rootPath == newRoot && explicitPath && !fileMissing && implicitCandidates == []
      ensures !result.success ==>
                && result == REJECTED && errors == Messages(DiagnosticsOf(true, newRoot, world))
                && unchanged(this)
    {
      hide WellFormed, LayoutGeneration, Refreshed, Effects, Messages, Unique, HasErrors;
      var missingIncludesBefore, diagnosticsBefore, watchPathsBefore := missingIncludes, diagnostics, watchPaths;
      errors := [];
      var outcome, loaded := ParseInto(newRoot, [newRoot], world);
      if outcome == Missing {
        diagnostics := diagnostics + [NOT_FOUND];
      }
      if outcome != Loaded {
        assert diagnostics == DiagnosticsOf(true, newRoot, world);
        errors := Messages(diagnostics);
        diagnostics, missingIncludes, watchPaths := diagnosticsBefore, missingIncludesBefore, watchPathsBefore;
        return REJECTED, errors;
      }
      implicitCandidates := [];
      rootPath, explicitPath := newRoot, true;
      result := Commit(loaded, newRoot, false);
    }

    /** Reads the configuration again; a broken file changes neither settings nor generations. */
    method Reload(world: World) returns (result: ReloadResult)
      requires Valid() && AcceptsOnlyWellFormed(world)
      modifies this
      ensures Valid()
      ensures implicitCandidates == old(implicitCandidates) && explicitPath == old(explicitPath)
      ensures var next := Reloaded(explicitPath, old(rootPath), implicitCandidates, defaults, world);
        && result.success == next.Some?
        && (result.success ==>
              && Some(config) == next && generation == old(generation) + 1 && history == old(history) + [config]
              && rootPath == Root(explicitPath, old(rootPath), implicitCandidates, world)
              && fileMissing == (world.kind(rootPath) == MissingPath))
      ensures var root := Root(explicitPath, old(rootPath), implicitCandidates, world);
        && watchPaths == PathsToWatch(SearchPaths(explicitPath, implicitCandidates, root), root, world)
        && missingIncludes == LacksInclude(root, world) && diagnostics == DiagnosticsOf(explicitPath, root, world)
      ensures !result.success ==>
                && config == old(config) && generation == old(generation) && history == old(history)
                && workspaceLayoutGeneration == old(workspaceLayoutGeneration)
                && rootPath == old(rootPath) && fileMissing == old(fileMissing)
    {
      hide WellFormed, LayoutGeneration, Refreshed, Effects;
      var root, paths, found := rootPath, [rootPath], true;
      if !explicitPath {
        var selection := Selected(implicitCandidates, world);
        root, found := selection.0, selection.1;
        paths := if implicitCandidates == [] then [root] else implicitCandidates;
      }
      var outcome, loaded := ParseInto(root, paths, world);
      var missing := outcome == Missing;
      if explicitPath && missing {
        diagnostics := diagnostics + [NOT_FOUND];
      }
      if outcome != Loaded {
        if !explicitPath && !found && missing {
          result := Commit(loaded, root, true);
          return;
        }
        return REJECTED;
      }
      result := Commit(loaded, root, false);
    }
  }

  lemma MessagesOf(diagnostic: Diagnostic)
    ensures Messages([diagnostic]) == if diagnostic.isError then [diagnostic.message] else []
  {
  }

  /** The messages of errors, in order, and of nothing else. */
  lemma {:induction false} MessagesConcat(a: seq<Diagnostic>, b: seq<Diagnostic>)
    ensures Messages(a + b) == Messages(a) + Messages(b)
  {
    if a == [] {
      assert a + b == b;
    } else {
      assert (a + b)[1..] == a[1..] + b;
      MessagesConcat(a[1..], b);
    }
  }

  /** Errors are reported of a root that cannot be inspected, that was asked for and is missing, or that has some. */
  lemma ReportedExactly(explicitPath: bool, root: Path, world: World)
    ensures HasErrors(DiagnosticsOf(explicitPath, root, world)) <==>
      || world.kind(root) == Unavailable
      || (world.kind(root) == MissingPath && explicitPath)
      || (world.kind(root) == RegularFile && exists d <- world.read(root).diagnostics :: d.isError)
    ensures world.kind(root) == RegularFile ==> DiagnosticsOf(explicitPath, root, world) == world.read(root).diagnostics
    ensures world.kind(root) != RegularFile ==> !LacksInclude(root, world)
  {
  }

  function Messages(diagnostics: seq<Diagnostic>): seq<string> {
    if diagnostics == [] then []
    else
      var rest := Messages(diagnostics[1..]);
      if diagnostics[0].isError then [diagnostics[0].message] + rest else rest
  }

  /** What a load reports: a missing file is an error only when it was asked for by name. */
  function DiagnosticsOf(explicitPath: bool, root: Path, world: World): seq<Diagnostic> {
    match world.kind(root)
    case MissingPath => if explicitPath then [NOT_FOUND] else []
    case Unavailable => [Diagnostic(true, "cannot inspect config file")]
    case RegularFile => world.read(root).diagnostics
  }

  // ---------------------------------------------------------------- the generations as a whole run

  /** The layout generation after a run, given which of its commits refreshed layouts. */
  function LayoutGeneration(refreshed: seq<bool>): (generation: nat)
    requires refreshed != []
    ensures generation < |refreshed|
  {
    var latest := |refreshed| - 1;
    if latest == 0 || refreshed[latest] then latest else LayoutGeneration(refreshed[..latest])
  }

  predicate RefreshesAt(run: seq<Config>, i: nat)
    requires i < |run|
  {
    i <= 1 || Effects(run[i - 1], run[i]).workspaceLayout
  }

  /** Which commits of a run refresh layouts: the first always does. */
  function Refreshed(run: seq<Config>): (refreshed: seq<bool>)
    ensures |refreshed| == |run|
    ensures forall i :: 0 <= i < |run| ==> refreshed[i] == RefreshesAt(run, i)
  {
    seq(|run|, i requires 0 <= i < |run| => RefreshesAt(run, i))
  }

  lemma LayoutGenerationStep(refreshed: seq<bool>, last: bool)
    requires refreshed != []
    ensures LayoutGeneration(refreshed + [last]) == if last then |refreshed| else LayoutGeneration(refreshed)
  {
    assert (refreshed + [last])[..|refreshed|] == refreshed;
  }

  /** What one more commit does to the layout generation. */
  lemma RefreshedStep(run: seq<Config>, next: Config)
    requires run != []
    ensures LayoutGeneration(Refreshed(run + [next]))
         == if |run| == 1 || Effects(run[|run| - 1], next).workspaceLayout then |run|
            else LayoutGeneration(Refreshed(run))
  {
    hide Effects;
    var all := run + [next];
    var last := RefreshesAt(all, |run|);
    forall i | 0 <= i < |run| ensures RefreshesAt(all, i) == RefreshesAt(run, i) {
      assert all[i] == run[i] && (i > 0 ==> all[i - 1] == run[i - 1]);
    }
    assert all[|run|] == next && all[|run| - 1] == run[|run| - 1];
    assert Refreshed(all) == Refreshed(run) + [last];
    LayoutGenerationStep(Refreshed(run), last);
  }

  lemma SameWorkspacesTransitive(a: Config, b: Config, c: Config)
    requires SameWorkspaces(a, b) && SameWorkspaces(b, c)
    ensures SameWorkspaces(a, c)
  {
    forall identity ensures WorkspacesOf(a, identity) == WorkspacesOf(c, identity) {
      assert WorkspacesOf(a, identity) == WorkspacesOf(b, identity);
      assert WorkspacesOf(b, identity) == WorkspacesOf(c, identity);
    }
  }

  lemma SameWorkspacesReflexive(a: Config)
    ensures SameWorkspaces(a, a)
  {
  }

  lemma {:induction false} ConstantSinceRefresh(run: seq<Config>, refreshed: seq<bool>, g: nat)
    requires |run| == |refreshed| > 0
    requires forall i :: 0 < i < |run| && !refreshed[i] ==> SameWorkspaces(run[i - 1], run[i])
    requires LayoutGeneration(refreshed) <= g < |run|
    ensures SameWorkspaces(run[g], run[|run| - 1])
  {
    hide SameWorkspaces;
    var latest := |run| - 1;
    if g == latest {
      SameWorkspacesReflexive(run[g]);
    } else {
      ConstantSinceRefresh(run[..latest], refreshed[..latest], g);
      SameWorkspacesTransitive(run[g], run[latest - 1], run[latest]);
    }
  }

  /** In any run of commits, resolution is constant from the layout generation on. */
  lemma CacheKeyIsHonest(run: seq<Config>, g: nat)
    requires run != [] && forall past <- run :: WellFormed(past)
    requires LayoutGeneration(Refreshed(run)) <= g < |run|
    ensures SameWorkspaces(run[g], run[|run| - 1])
  {
    var refreshed := Refreshed(run);
    forall i | 0 < i < |run| && !refreshed[i] ensures SameWorkspaces(run[i - 1], run[i]) {
      WorkspacesSafe(run[i - 1], run[i]);
    }
    ConstantSinceRefresh(run, refreshed, g);
  }
}
