/**
 Reading one configuration file from end to end (src/config/config.cpp): the includes are merged, the tables are
 read in order, bad effect selectors are cleared, and any error rejects the whole. What the store assumes of the
 files it accepts is proved here, and so is when its watch list names everything a reload depends on.
 */
module ConfigParse {
  import opened Options
  import opened Lists
  import opened TableMerge
  import opened ConfigModel
  import opened EffectReferences
  import opened EffectLoad
  import Inventories
  import WorkspaceRules
  import opened Invalidation
  import opened Includes
  import opened WatchList
  import opened Store

  /**
   What the generic field readers hand over for one document. `others` is everything that is not modelled, the
   sections that hold effect selectors included, and `fieldErrors` tells whether any of those readers reported an error.
   */
  datatype Tables = Tables(
    fields: map<Field, string>, presets: seq<PresetEntry>, pools: seq<PoolEntry>,
    outputs: seq<OutputSection>, windowRules: seq<RuleEntry>, workspace: WorkspaceRules.WorkspaceNode,
    emptyAbove: bool, others: Settings -> Config, fieldErrors: bool)

  /**
   The declared presets and pools are read in the order in which the files declare them; None stands for an exception.
   */
  type Reader = (Document, seq<string>, seq<string>) -> Option<Tables>

  function SettingsFrom(t: Tables): Settings {
    Settings(AcceptedPresets(t.presets), AcceptedPools(t.pools), t.fields, AcceptedRules(t.windowRules),
             AcceptedOutputs(t.outputs))
  }

  function RulesFrom(node: WorkspaceRules.WorkspaceNode): seq<WorkspaceRule> {
    if node.Entries? then WorkspaceRules.Tables(node.entries) else []
  }

  function Assembled(t: Tables, s: Settings): Config {
    t.others(s).(outputs := s.outputs, windowRules := s.windowRules, workspaceRules := RulesFrom(t.workspace),
                 emptyAbove := t.emptyAbove)
  }

  /** The settings of a document, every selector screened and the pools compacted. */
  function ConfigFrom(t: Tables): Config {
    Assembled(t, Compacted(Cleaned(SettingsFrom(t))))
  }

  ghost predicate WorkspaceErrors(t: Tables) {
    match t.workspace
    case NoNode => false
    case NotAnArray => true
    case Entries(entries) =>
      || (exists entry <- entries :: WorkspaceRules.Unreadable(entry))
      || WorkspaceRules.Reported(AcceptedOutputs(t.outputs), t.emptyAbove, WorkspaceRules.Tables(entries))
  }

  ghost predicate TableErrors(t: Tables) {
    t.fieldErrors || (exists section <- t.outputs :: MinimumOnFixed(section)) || WorkspaceErrors(t)
  }

  // ---------------------------------------------------------------- what one parse yields

  /** Merging failed, or a driver policy may be incomplete. */
  predicate Refused(merged: Document, result: MergeResult) {
    result.hadError || ((result.missingIncludes || result.missingOptionalIncludes) && "drm" in merged)
  }

  ghost predicate ParsedTo(merged: Document, result: MergeResult, readTables: Reader, reading: Reading) {
    && reading.loadedFiles == result.loadedFiles && reading.missingIncludes == result.missingIncludes
    && if Refused(merged, result) then reading.parsed == None && HasErrors(reading.diagnostics)
       else
         match readTables(merged, result.presets, result.pools)
         case None => reading.parsed == None && HasErrors(reading.diagnostics)
         case Some(t) =>
           && reading.parsed == Some(ConfigFrom(t))
           && (HasErrors(reading.diagnostics) <==> result.redeclared || TableErrors(t))
  }

  ghost function MergedDocument(fs: FileSystem, root: string, result: MergeResult): Document {
    WithoutShadowed(Expanded(fs, root, {}), result.pools, result.presets)
  }

  ghost predicate Parses(fs: FileSystem, readTables: Reader, root: string, reading: Reading) {
    exists result :: Merges(fs, root, result) && ParsedTo(MergedDocument(fs, root, result), result, readTables, reading)
  }

  const MERGE_FAILED := Diagnostic(true, "config merge error")
  const UNSAFE_POLICY := Diagnostic(true, "cannot safely load DRM policy while an include is missing")
  const EXCEPTION := Diagnostic(true, "config load error")
  const TABLE_ERROR := Diagnostic(true, "config table error")

  function ErrorIf(condition: bool, error: Diagnostic): (reported: seq<Diagnostic>)
    ensures HasErrors(reported) <==> condition && error.isError
  {
    if condition then [error] else []
  }

  lemma ErrorsConcat(a: seq<Diagnostic>, b: seq<Diagnostic>)
    ensures HasErrors(a + b) <==> HasErrors(a) || HasErrors(b)
  {
    assert forall d :: d in a + b <==> d in a || d in b;
  }

  /** The settings hold the screened sections and rules, the tables of the workspace array, and the rest as read. */
  lemma ConfigHolds(t: Tables)
    ensures var config, screened := ConfigFrom(t), Cleaned(SettingsFrom(t));
      && config.outputs == screened.outputs && config.windowRules == screened.windowRules
      && config.emptyAbove == t.emptyAbove
      && (t.workspace.Entries? ==> config.workspaceRules == WorkspaceRules.Tables(t.workspace.entries))
      && (!t.workspace.Entries? ==> config.workspaceRules == [])
      && config == t.others(Compacted(screened)).(
           outputs := config.outputs, windowRules := config.windowRules, workspaceRules := config.workspaceRules,
           emptyAbove := config.emptyAbove)
  {
    hide Cleaned, SettingsFrom;
  }

  /** Tables report no error exactly when every part of them reads cleanly. */
  lemma TablesReadClean(t: Tables)
    ensures !TableErrors(t) <==>
      && !t.fieldErrors && t.workspace != WorkspaceRules.NotAnArray
      && (forall section <- t.outputs :: !(section.hasMinimum && section.rule.workspaces.Some?))
      && (t.workspace.Entries? ==>
            && (forall entry <- t.workspace.entries :: entry != WorkspaceRules.NotATable && !entry.keyErrors)
            && !WorkspaceRules.Reported(AcceptedOutputs(t.outputs), t.emptyAbove, RulesFrom(t.workspace)))
  {
    hide WorkspaceRules.Reported, AcceptedOutputs;
  }

  /** A DRM policy is never read while some include is missing, optional or not; without one that refuses nothing. */
  lemma MissingIncludeRefuses(merged: Document, result: MergeResult, readTables: Reader, reading: Reading)
    requires ParsedTo(merged, result, readTables, reading)
    ensures "drm" in merged && (result.missingIncludes || result.missingOptionalIncludes) ==>
      reading.parsed == None && exists d <- reading.diagnostics :: d.isError
    ensures result.hadError ==> reading.parsed == None && exists d <- reading.diagnostics :: d.isError
    ensures !result.hadError && !("drm" in merged && (result.missingIncludes || result.missingOptionalIncludes)) ==>
      (reading.parsed == None <==> readTables(merged, result.presets, result.pools) == None)
    ensures result.redeclared && reading.parsed.Some? ==> exists d <- reading.diagnostics :: d.isError
  {
  }

  /** Reads a file; `settings` is where its effect selectors end up. */
  method ParseConfig(fs: FileSystem, root: string, readTables: Reader) returns (reading: Reading, settings: Settings)
    requires root in fs.files && !fs.files[root].Irregular?
    ensures Parses(fs, readTables, root, reading)
    ensures Accepted(reading) ==> WellFormed(reading.parsed.value)
    ensures forall place | Exists(settings, place) :: Sound(settings, place)
    ensures reading.parsed.Some? ==> && reading.parsed.value.outputs == settings.outputs
                                     && reading.parsed.value.windowRules == settings.windowRules
  {
    hide Recorded, Expanded, WithoutShadowed, HasErrors, WellFormed;
    var merged, result := MergeWithIncludes(fs, root);
    settings := Settings([], [], map[], [], []);
    var diagnostics := ErrorIf(result.hadError || result.redeclared, MERGE_FAILED);
    var loadedFiles, missing := result.loadedFiles, result.missingIncludes;
    if (result.missingIncludes || result.missingOptionalIncludes) && "drm" in merged {
      ErrorsConcat(diagnostics, ErrorIf(true, UNSAFE_POLICY));
      reading := Reading(diagnostics + [UNSAFE_POLICY], loadedFiles, missing, None);
    } else if result.hadError {
      reading := Reading(diagnostics, loadedFiles, missing, None);
    } else {
      match readTables(merged, result.presets, result.pools)
      case None =>
        ErrorsConcat(diagnostics, ErrorIf(true, EXCEPTION));
        reading := Reading(diagnostics + [EXCEPTION], loadedFiles, missing, None);
      case Some(t) =>
        var config, errors;
        config, settings, errors := ReadTables(t);
        ErrorsConcat(diagnostics, ErrorIf(errors, TABLE_ERROR));
        reading := Reading(diagnostics + ErrorIf(errors, TABLE_ERROR), loadedFiles, missing, Some(config));
    }
    assert Merges(fs, root, result) && ParsedTo(MergedDocument(fs, root, result), result, readTables, reading);
    ParsedIsWellFormed(merged, result, readTables, reading);
  }

  /** The tables in reading order, and the validation that ends it. */
  method ReadTables(t: Tables) returns (config: Config, settings: Settings, errors: bool)
    ensures config == ConfigFrom(t) && settings == Compacted(Cleaned(SettingsFrom(t)))
    ensures forall place | Exists(settings, place) :: Sound(settings, place)
    ensures errors <==> TableErrors(t)
  {
    hide Cleaned, Compacted, AcceptedPresets, AcceptedPools, AcceptedRules, AcceptedOutputs, Tracked, Sound;
    hide WorkspaceRules.Reported, WorkspaceRules.Tables, WorkspaceRules.Unreadable, MinimumOnFixed;
    var load := new ConfigLoad();
    load.ReadFields(t.fields);
    load.ReadEffectPresets(t.presets);
    load.ReadEffectPools(t.pools);
    var outputErrors := load.ReadOutputs(t.outputs);
    load.ReadWindowRules(t.windowRules);
    assert load.loaded == SettingsFrom(t);
    var loaded := Assembled(t, load.loaded).(workspaceRules := []);
    var workspaceErrors;
    loaded, workspaceErrors := WorkspaceRules.ReadWorkspaces(loaded, t.workspace);
    assert loaded.workspaceRules == RulesFrom(t.workspace);
    load.ValidateEffectReferences();
    settings := load.loaded;
    config := t.others(settings).(outputs := settings.outputs, windowRules := settings.windowRules,
                                  workspaceRules := loaded.workspaceRules, emptyAbove := loaded.emptyAbove);
    errors := t.fieldErrors || outputErrors || workspaceErrors;
  }

  // ---------------------------------------------------------------- what the store may assume

  lemma {:induction false} AcceptedNamesDiffer(sections: seq<OutputSection>)
    ensures DistinctNames(AcceptedOutputs(sections))
  {
    if sections == [] {
    } else {
      var earlier, rule := AcceptedOutputs(sections[..|sections| - 1]), sections[|sections| - 1].rule;
      AcceptedNamesDiffer(sections[..|sections| - 1]);
      OtherOutputsDistinct(earlier, rule.name);
      OtherOutputsMembers(earlier, rule.name);
    }
  }

  /** What is read without an error has distinct output names and rules with one selector. */
  lemma ReadWithoutErrors(t: Tables)
    requires !TableErrors(t)
    ensures WellFormed(ConfigFrom(t))
  {
    AcceptedNamesDiffer(t.outputs);
    if t.workspace.Entries? {
      var rules := WorkspaceRules.Tables(t.workspace.entries);
      WorkspaceRules.AcceptedRulesHaveOneSelector(AcceptedOutputs(t.outputs), t.emptyAbove, rules);
    }
  }

  lemma ParsedIsWellFormed(merged: Document, result: MergeResult, readTables: Reader, reading: Reading)
    requires ParsedTo(merged, result, readTables, reading)
    ensures Accepted(reading) ==> WellFormed(reading.parsed.value)
  {
    hide WellFormed, ConfigFrom;
    if Accepted(reading) {
      ReadWithoutErrors(readTables(merged, result.presets, result.pools).value);
    }
  }

  /** The store's world, made of a state of the disk and the field readers. */
  ghost predicate WorldOf(fs: FileSystem, readTables: Reader, world: World) {
    forall path :: && world.kind(path) == KindOf(fs, path)
                   && (world.kind(path) == RegularFile ==> Parses(fs, readTables, path, world.read(path)))
  }

  /** A file that cannot be parsed is a file all the same; what is there but no file cannot be inspected. */
  lemma KindExactly(fs: FileSystem, path: string)
    ensures KindOf(fs, path) == MissingPath <==> path !in fs.files
    ensures KindOf(fs, path) == Unavailable <==> path in fs.files && fs.files[path] == Irregular
    ensures KindOf(fs, path) == RegularFile <==> path in fs.files && (fs.files[path] == Broken || fs.files[path].Text?)
  {
  }

  function KindOf(fs: FileSystem, path: string): PathKind {
    if path !in fs.files then MissingPath else if fs.files[path].Irregular? then Unavailable else RegularFile
  }

  /** The store's assumption holds of every state of the disk. */
  lemma ReadersDischarge(fs: FileSystem, readTables: Reader, world: World)
    requires WorldOf(fs, readTables, world)
    ensures AcceptsOnlyWellFormed(world)
  {
    forall path | Readable(path, world) ensures WellFormed(world.read(path).parsed.value) {
      var result :| && Merges(fs, path, result)
                    && ParsedTo(MergedDocument(fs, path, result), result, readTables, world.read(path));
      ParsedIsWellFormed(MergedDocument(fs, path, result), result, readTables, world.read(path));
    }
  }

  // ---------------------------------------------------------------- what a reload depends on

  /** What a reload makes of a reading. */
  function Usable(reading: Reading): Option<Config> {
    if Accepted(reading) then reading.parsed else None
  }

  /** A parse depends on nothing but the names its includes are looked up by. */
  lemma ParseDependsOnLookups(one: FileSystem, two: FileSystem, readTables: Reader, root: string,
                              a: Reading, b: Reading)
    requires Parses(one, readTables, root, a) && Parses(two, readTables, root, b)
    requires AgreeAt(one, two, {root} + FileTargets(one, root, {}))
    ensures Usable(a) == Usable(b) && a.missingIncludes == b.missingIncludes
  {
    hide Recorded, Expanded, WithoutShadowed, HasErrors, ConfigFrom, TableErrors;
    var x :| Merges(one, root, x) && ParsedTo(MergedDocument(one, root, x), x, readTables, a);
    var y :| Merges(two, root, y) && ParsedTo(MergedDocument(two, root, y), y, readTables, b);
    SameMerge(one, two, root, x, y);
    assert x.(loadedFiles := []).presets == y.presets && x.(loadedFiles := []).pools == y.pools;
  }

  lemma UsableIsAccepted(reading: Reading)
    ensures Accepted(reading) <==> Usable(reading).Some?
    ensures Accepted(reading) ==> Usable(reading) == reading.parsed
  {
  }

  lemma SameKind(one: FileSystem, two: FileSystem, path: string)
    requires SameFile(one, two, path)
    ensures KindOf(one, path) == KindOf(two, path)
  {
  }

  lemma WatchedAre(searched: seq<string>, root: string, world: World)
    requires world.kind(root) == RegularFile
    ensures Members(PathsToWatch(searched, root, world)) == Members(searched) + Members(world.read(root).loadedFiles)
  {
    var all := searched + world.read(root).loadedFiles;
    UniqueMembers(all);
    assert forall path :: path in all <==> path in Unique(all);
  }

  lemma WatchesAll(searched: seq<string>, root: string, world: World)
    ensures forall path <- searched :: path in PathsToWatch(searched, root, world)
    ensures world.kind(root) == RegularFile ==>
              forall key <- world.read(root).loadedFiles :: key in PathsToWatch(searched, root, world)
  {
    var all := searched + if world.kind(root) == RegularFile then world.read(root).loadedFiles else [];
    UniqueMembers(all);
    assert forall path :: path in all ==> path in Unique(all);
  }

  /** Everything a reload reads is watched under the name it is looked up by. */
  ghost predicate WatchesLookups(fs: FileSystem, root: string, watched: seq<string>) {
    FileTargets(fs, root, {}) <= Members(watched)
  }

  /** With every watched name leading where it did and finding what it did, a reload yields what it did. */
  lemma ReloadDependsOnWatchedFiles(one: FileSystem, two: FileSystem, readTables: Reader, before: World, after: World,
                                    explicitPath: bool, rootPath: string, candidates: seq<string>, defaults: Config)
    requires WorldOf(one, readTables, before) && WorldOf(two, readTables, after) && before.userPath == after.userPath
    requires var root := Root(explicitPath, rootPath, candidates, before);
             var watched := PathsToWatch(SearchPaths(explicitPath, candidates, root), root, before);
             AgreeAt(one, two, Members(watched)) && WatchesLookups(one, root, watched)
    ensures Root(explicitPath, rootPath, candidates, after) == Root(explicitPath, rootPath, candidates, before)
    ensures Reloaded(explicitPath, rootPath, candidates, defaults, after)
         == Reloaded(explicitPath, rootPath, candidates, defaults, before)
  {
    var root := Root(explicitPath, rootPath, candidates, before);
    var searched := SearchPaths(explicitPath, candidates, root);
    var watched := PathsToWatch(searched, root, before);
    WatchesAll(searched, root, before);
    forall path <- searched ensures SameFile(one, two, path) {
      assert path in Members(watched);
    }
    hide PathsToWatch, Parses, Accepted, SameFile, FileTargets;
    forall path <- searched ensures before.kind(path) == after.kind(path) {
      SameKind(one, two, path);
    }
    if !explicitPath {
      SameSelection(candidates, before, after);
      SelectedIsSearched(candidates, before);
    }
    assert root in Members(watched);
    AgreeAtFewer(one, two, {root} + FileTargets(one, root, {}), Members(watched));
    if before.kind(root) == RegularFile {
      ParseDependsOnLookups(one, two, readTables, root, before.read(root), after.read(root));
      UsableIsAccepted(before.read(root));
      UsableIsAccepted(after.read(root));
    }
  }

  /** The store's watch list decides what the root expands to exactly when no include is looked up through a link. */
  lemma WatchListDecidesExactly(fs: FileSystem, readTables: Reader, world: World, explicitPath: bool, rootPath: string,
                                candidates: seq<string>)
    requires WorldOf(fs, readTables, world)
    requires world.kind(Root(explicitPath, rootPath, candidates, world)) == RegularFile
    ensures var root := Root(explicitPath, rootPath, candidates, world);
      var searched := SearchPaths(explicitPath, candidates, root);
      var watched := PathsToWatch(searched, root, world);
      && (Decides(fs, root, Members(watched)) <==> WatchesLookups(fs, root, watched))
      && (Idempotent(fs) ==>
            (WatchesLookups(fs, root, watched)
             <==> forall target <- FileTargets(fs, root, {}) :: target in searched || fs.canonical(target) == target))
  {
    var root := Root(explicitPath, rootPath, candidates, world);
    var searched := SearchPaths(explicitPath, candidates, root);
    var watched := PathsToWatch(searched, root, world);
    if !explicitPath {
      SelectedIsSearched(candidates, world);
    }
    WatchedAre(searched, root, world);
    var result :| && Merges(fs, root, result)
                  && ParsedTo(MergedDocument(fs, root, result), result, readTables, world.read(root));
    LoadedFilesExactly(fs, root, result);
    hide PathsToWatch, Merges, ParsedTo, Decides, Root, FileTargets;
    assert root in Members(watched);
    DecidesExactly(fs, root, Members(watched));
    forall target | target in FileTargets(fs, root, {}) && Idempotent(fs)
      ensures target in Members(watched) <==> target in searched || fs.canonical(target) == target
    {
      assert fs.canonical(target) in Members(result.loadedFiles);
    }
  }

  // ---------------------------------------------------------------- a reload that nobody asked for

  /** Settings that tell whether the document has the key "a". */
  function Telling(document: Document, presets: seq<string>, pools: seq<string>): Option<Tables> {
    var colors := if "a" in document then 1 else 0;
    Some(Tables(map[], [], [], [], [], WorkspaceRules.NoNode, false,
                _ => Inventories.OnlyRules(false, []).(colors := colors), false))
  }

  /** A merge that reports nothing, read without an error. */
  lemma CleanReading(document: Document, result: MergeResult, readTables: Reader, t: Tables, reading: Reading)
    requires ParsedTo(document, result, readTables, reading)
    requires result == NOTHING_MERGED.(loadedFiles := result.loadedFiles)
    requires readTables(document, [], []) == Some(t) && !TableErrors(t)
    ensures Usable(reading) == Some(ConfigFrom(t)) && reading.loadedFiles == result.loadedFiles
  {
    hide TableErrors, ConfigFrom, HasErrors;
  }

  lemma TellingTables(document: Document, presets: seq<string>, pools: seq<string>)
    ensures var t := Telling(document, presets, pools);
      && t.Some? && !TableErrors(t.value)
      && ConfigFrom(t.value).colors == if "a" in document then 1 else 0
  {
    hide Compacted, Cleaned;
  }

  lemma NothingShadowed(fs: FileSystem, root: string, result: MergeResult)
    requires result.pools == []
    ensures MergedDocument(fs, root, result) == Expanded(fs, root, {})
  {
    hide Expanded;
  }

  lemma LinkedMerge(toB: bool, result: MergeResult)
    requires Merges(Linked(toB), "r", result)
    ensures result == NOTHING_MERGED.(loadedFiles := result.loadedFiles)
    ensures "a" in Expanded(Linked(toB), "r", {}) <==> !toB
  {
    var fs := Linked(toB);
    LinkedFiles(toB);
    LinkedIsPlain(toB);
    hide Linked, Merges, Expanded, FileTargets;
    NothingReported(fs, "r", "l", result);
    OneInclude(fs, "r", "l");
  }

  lemma LinkedReading(toB: bool, reading: Reading)
    requires Parses(Linked(toB), Telling, "r", reading)
    ensures Usable(reading).Some? && Usable(reading).value.colors == if toB then 0 else 1
    ensures Members(reading.loadedFiles) == {"r", if toB then "b" else "a"}
  {
    hide Linked, Merges, ParsedTo, MergedDocument, Members, Expanded, Telling, TableErrors, ConfigFrom, Usable;
    var fs := Linked(toB);
    var result :| Merges(fs, "r", result) && ParsedTo(MergedDocument(fs, "r", result), result, Telling, reading);
    LinkedMerge(toB, result);
    LinkedNotes(toB, result);
    NothingShadowed(fs, "r", result);
    var document := Expanded(fs, "r", {});
    TellingTables(document, [], []);
    CleanReading(document, result, Telling, Telling(document, [], []).value, reading);
  }

  /** Pointing a link elsewhere changes what a reload yields and leaves every watched path as it was. */
  lemma RepointedLinkIsMissed(before: World, after: World, defaults: Config)
    requires WorldOf(Linked(false), Telling, before) && WorldOf(Linked(true), Telling, after)
    ensures AgreeAt(Linked(false), Linked(true), Members(PathsToWatch(["r"], "r", before)))
    ensures Reloaded(true, "r", [], defaults, before) != Reloaded(true, "r", [], defaults, after)
  {
    LinkedFiles(false);
    LinkedFiles(true);
    assert before.kind("r") == RegularFile && after.kind("r") == RegularFile;
    LinkedReading(false, before.read("r"));
    LinkedReading(true, after.read("r"));
    WatchedAre(["r"], "r", before);
    UsableIsAccepted(before.read("r"));
    UsableIsAccepted(after.read("r"));
    hide Linked, Parses, Usable, Accepted;
    assert Members(PathsToWatch(["r"], "r", before)) <= {"r", "a"};
    AgreeAtFewer(Linked(false), Linked(true), Members(PathsToWatch(["r"], "r", before)), {"r", "a"});
  }
}
