/**
 A refresh that `ConfigEffects::between` skips is safe to skip: what the flag's consumer resolves
 from the new configuration is what it already had, for every output and every window.
 */
module Invalidation {
  import opened Options
  import opened OutputNames
  import opened ConfigModel
  import opened Resolve
  import opened Change

  /** What every accepted configuration satisfies (see EffectLoad and WorkspaceRules). */
  ghost predicate WellFormed(config: Config) {
    && DistinctNames(config.outputs)
    && forall rule <- config.workspaceRules :: rule.index.Some? ==> rule.name == ""
  }

  // ---------------------------------------------------------------- output names

  ghost function NameClasses(outputs: seq<OutputRule>): set<string> {
    set rule | rule in outputs :: Folded(rule.name)
  }

  lemma NameClassesStep(front: seq<OutputRule>, last: OutputRule)
    ensures NameClasses(front + [last]) == NameClasses(front) + {Folded(last.name)}
  {
    forall rule | rule in front + [last] ensures rule in front || rule == last {
    }
    assert last in front + [last];
    assert forall rule <- front :: rule in front + [last];
  }

  lemma {:induction false} DistinctNamesCount(outputs: seq<OutputRule>)
    requires DistinctNames(outputs)
    ensures |NameClasses(outputs)| == |outputs|
  {
    if outputs == [] {
    } else {
      var front, last := outputs[..|outputs| - 1], outputs[|outputs| - 1];
      DistinctNamesCount(front);
      assert outputs == front + [last];
      NameClassesStep(front, last);
      assert Folded(last.name) !in NameClasses(front);
    }
  }

  lemma SubsetOfSameSize<T>(a: set<T>, b: set<T>)
    requires a <= b && |a| == |b|
    ensures a == b
  {
    assert |b - a| == |b| - |a|;
  }

  /** Equal counts and one inclusion are enough: the name lists differ exactly when their classes do. */
  lemma NamesChangedExactly(before: seq<OutputRule>, after: seq<OutputRule>)
    requires DistinctNames(before) && DistinctNames(after)
    ensures RuleNamesChanged(before, after) <==> NameClasses(before) != NameClasses(after)
  {
    DistinctNamesCount(before);
    DistinctNamesCount(after);
    if !RuleNamesChanged(before, after) {
      forall name | name in NameClasses(before) ensures name in NameClasses(after) {
        var rule :| rule in before && Folded(rule.name) == name;
        assert FindByName(after, rule.name).value in after;
      }
      SubsetOfSameSize(NameClasses(before), NameClasses(after));
    }
    if NameClasses(before) == NameClasses(after) {
      forall rule <- before ensures FindByName(after, rule.name).Some? {
        assert Folded(rule.name) in NameClasses(after);
      }
    }
  }

  // ---------------------------------------------------------------- output projections

  /** With the same names configured, an output is governed by the same section, however spelled. */
  lemma SameGoverningName(before: seq<OutputRule>, after: seq<OutputRule>, identity: Identity)
    requires DistinctNames(before) && DistinctNames(after) && !RuleNamesChanged(before, after)
    ensures var old', new' := MatchingRule(before, identity), MatchingRule(after, identity);
            && old'.Some? == new'.Some?
            && (old'.Some? ==> FindByName(after, old'.value.name) == new' && old'.value in before)
  {
    NamesChangedExactly(before, after);
    NamesChangedExactly(after, before);
    Counterpart(before, after, identity);
    Counterpart(after, before, identity);
    var old', new' := MatchingRule(before, identity), MatchingRule(after, identity);
    if old'.Some? && new'.Some? {
      var twin := FindByName(after, old'.value.name).value;
      MatchRespectsNames(identity, twin.name, old'.value.name);
      MatchIsUnique(identity, twin.name, new'.value.name);
      RuleByName(after, twin, new'.value);
    }
  }

  /** A section that matches in one form has a counterpart that matches in the same form. */
  lemma Counterpart(from: seq<OutputRule>, to: seq<OutputRule>, identity: Identity)
    requires !RuleNamesChanged(from, to)
    ensures DescriptorRule(from, identity).Some? ==> DescriptorRule(to, identity).Some?
    ensures ConnectorRule(from, identity).Some? ==> ConnectorRule(to, identity).Some?
  {
    forall rule <- from
      ensures exists twin :: twin in to && OutputNameMatch(identity, twin.name) == OutputNameMatch(identity, rule.name)
    {
      var twin := FindByName(to, rule.name).value;
      MatchRespectsNames(identity, twin.name, rule.name);
      assert twin in to;
    }
  }

  /** The shape every output flag has: names unchanged and one projection unchanged. */
  lemma ProjectionSafe<P(!new)>(before: seq<OutputRule>, after: seq<OutputRule>, identity: Identity,
                                project: OutputRule -> P)
    requires DistinctNames(before) && DistinctNames(after)
    requires !RuleNamesChanged(before, after) && !ProjectionChanged(before, after, project)
    ensures MatchingRule(before, identity).Some? == MatchingRule(after, identity).Some?
    ensures project(RuleFor(before, identity)) == project(RuleFor(after, identity))
  {
    SameGoverningName(before, after, identity);
  }

  /** No flag, no difference: modes, tearing permission and direct scanout of every output stand. */
  lemma OutputPoliciesSafe(before: Config, after: Config, identity: Identity)
    requires WellFormed(before) && WellFormed(after)
    ensures var olds, news, flags := RuleFor(before.outputs, identity), RuleFor(after.outputs, identity),
                                     Effects(before, after);
            && (!flags.outputState ==> olds.state == news.state)
            && (!flags.tearingPolicy ==> olds.allowTearing == news.allowTearing)
            && (!flags.directScanoutPolicy ==> olds.directScanout == news.directScanout)
  {
    var flags := Effects(before, after);
    if !flags.outputState {
      ProjectionSafe(before.outputs, after.outputs, identity, STATE);
    }
    if !flags.tearingPolicy {
      ProjectionSafe(before.outputs, after.outputs, identity, TEARING_PERMISSION);
    }
    if !flags.directScanoutPolicy {
      ProjectionSafe(before.outputs, after.outputs, identity, DIRECT_SCANOUT);
    }
  }

  // ---------------------------------------------------------------- window policies

  function LastTearing(rules: seq<(Selector, bool)>, w: Window): Option<bool> {
    if rules == [] then None
    else
      var last := rules[|rules| - 1];
      if Selects(last.0, w) then Some(last.1) else LastTearing(rules[..|rules| - 1], w)
  }

  /** Rules that leave tearing alone do not influence it. */
  lemma {:induction false} TearingDependsOnTearingRules(rules: seq<WindowRule>, w: Window)
    ensures LastSet(rules, w, TEARING) == LastTearing(TearingRules(rules), w)
  {
    if rules == [] {
    } else {
      TearingDependsOnTearingRules(rules[..|rules| - 1], w);
    }
  }

  lemma TearingSafe(before: Config, after: Config, w: Window)
    requires !Effects(before, after).tearingPolicy
    ensures WindowSettings(before.windowRules, w).allowTearing == WindowSettings(after.windowRules, w).allowTearing
  {
    TearingDependsOnTearingRules(before.windowRules, w);
    TearingDependsOnTearingRules(after.windowRules, w);
  }

  lemma {:induction false} NoneSet<T>(rules: seq<WindowRule>, w: Window, field: WindowRule -> Option<T>)
    requires forall rule <- rules :: field(rule).None?
    ensures LastSet(rules, w, field).None?
  {
    if rules == [] {
    } else {
      NoneSet(rules[..|rules| - 1], w, field);
    }
  }

  /** Unless window chrome is refreshed, every setting of every window stands. */
  lemma ViewChromeSafe(before: Config, after: Config, w: Window)
    requires !Effects(before, after).viewChrome
    ensures WindowSettings(before.windowRules, w) == WindowSettings(after.windowRules, w)
    ensures before.appearance == after.appearance && before.colors == after.colors
    ensures before.animation.(timing := 0, effects := 0) == after.animation.(timing := 0, effects := 0)
  {
  }

  /** The flags that watch whole sections: unset, the sections their consumers read are the same. */
  lemma SectionsSafe(before: Config, after: Config)
    ensures var flags := Effects(before, after);
      && (!flags.sceneBlur ==> && before.appearance.blur == after.appearance.blur
                               && before.OptimizedBlurNeeded() == after.OptimizedBlurNeeded())
      && (!flags.layerEffects ==> !flags.sceneBlur && before.layerRules == after.layerRules)
      && (!flags.animation ==> before.animation == after.animation)
      && (!flags.input ==> before.input == after.input && before.hotCorners == after.hotCorners)
      && (!flags.overviewPresentation ==> before.overview == after.overview && before.colors == after.colors)
      && (!flags.internalUi ==> before.colors == after.colors && before.modKey == after.modKey)
  {
  }

  lemma DialogAttachmentSafe(before: Config, after: Config, w: Window)
    requires !Effects(before, after).dialogAttachment
    ensures before.attachModalDialogs == after.attachModalDialogs
    ensures WindowSettings(before.windowRules, w).attachToParent == WindowSettings(after.windowRules, w).attachToParent
  {
    if before.windowRules != after.windowRules {
      NoneSet(before.windowRules, w, ATTACH);
      NoneSet(after.windowRules, w, ATTACH);
    }
  }

  /** An unset effects flag covers window effects and, through two different routes, screen effects. */
  lemma EffectsSafe(before: Config, after: Config, w: Window, identity: Identity)
    requires WellFormed(before) && WellFormed(after)
    requires !Effects(before, after).effects
    ensures var olds, news := WindowSettings(before.windowRules, w), WindowSettings(after.windowRules, w);
            olds.borderEffect == news.borderEffect && olds.windowEffect == news.windowEffect
    ensures var olds, news := RuleFor(before.outputs, identity), RuleFor(after.outputs, identity);
            olds.screenEffect == news.screenEffect && olds.screenCastEffect == news.screenCastEffect
  {
    if before.windowRules != after.windowRules {
      NoneSet(before.windowRules, w, BORDER);
      NoneSet(after.windowRules, w, BORDER);
      NoneSet(before.windowRules, w, EFFECT);
      NoneSet(after.windowRules, w, EFFECT);
    }
    if !RuleNamesChanged(before.outputs, after.outputs) {
      ProjectionSafe(before.outputs, after.outputs, identity, SCREEN_EFFECT);
    }
  }

  // ---------------------------------------------------------------- workspaces

  ghost predicate SameWorkspaces(before: Config, after: Config) {
    forall identity :: WorkspacesOf(before, identity) == WorkspacesOf(after, identity)
  }

  lemma {:induction false} SameApplied(before: Config, after: Config, start: ResolvedLayout, all: seq<Overrides>)
    requires before.appearance.TotalBorderWidth() == after.appearance.TotalBorderWidth()
    requires before.appearance.tabBar == after.appearance.tabBar
    ensures ApplyAll(before, start, all) == ApplyAll(after, start, all)
  {
    if all == [] {
    } else {
      SameApplied(before, after, start, all[..|all| - 1]);
    }
  }

  /** Everything an unset layout flag promises about the two configurations. */
  lemma LayoutUnchanged(before: Config, after: Config)
    requires !Effects(before, after).workspaceLayout
    ensures !Effects(before, after).workspaceInventory
    ensures !RuleNamesChanged(before.outputs, after.outputs)
    ensures !ProjectionChanged(before.outputs, after.outputs, OUTPUT_LAYOUT)
    ensures !ProjectionChanged(before.outputs, after.outputs, INVENTORY)
    ensures before.layout == after.layout && before.workspaceRules == after.workspaceRules
    ensures before.emptyAbove == after.emptyAbove
    ensures before.appearance.TotalBorderWidth() == after.appearance.TotalBorderWidth()
    ensures before.appearance.tabBar == after.appearance.tabBar
  {
    hide RuleNamesChanged, ProjectionChanged, Declarations;
  }

  lemma LayoutSafe(before: Config, after: Config, identity: Identity, name: Option<string>, index: nat)
    requires WellFormed(before) && WellFormed(after)
    requires !Effects(before, after).workspaceLayout
    ensures WorkspaceLayout(before, identity, name, index) == WorkspaceLayout(after, identity, name, index)
  {
    hide Effects, RuleNamesChanged, ProjectionChanged, RuleApplies;
    LayoutUnchanged(before, after);
    ProjectionSafe(before.outputs, after.outputs, identity, OUTPUT_LAYOUT);
    SameOutputLayout(before, after, identity);
    SameApplied(before, after, OutputLayout(before, identity), AllOverrides(before, identity, name, index));
  }

  lemma SameOutputLayout(before: Config, after: Config, identity: Identity)
    requires before.layout == after.layout && before.appearance.tabBar == after.appearance.tabBar
    requires before.appearance.TotalBorderWidth() == after.appearance.TotalBorderWidth()
    requires MatchingRule(before.outputs, identity).Some? == MatchingRule(after.outputs, identity).Some?
    requires OUTPUT_LAYOUT(RuleFor(before.outputs, identity)) == OUTPUT_LAYOUT(RuleFor(after.outputs, identity))
    ensures OutputLayout(before, identity) == OutputLayout(after, identity)
  {
    hide MatchingRule;
  }

  lemma MembersSafe(before: Config, after: Config, identity: Identity)
    requires WellFormed(before) && WellFormed(after)
    requires !Effects(before, after).workspaceLayout
    ensures forall i: nat :: Unnamed(before, identity, i) == Unnamed(after, identity, i)
    ensures forall name, i: nat :: Named(before, identity, name, i) == Named(after, identity, name, i)
  {
    forall i: nat ensures Unnamed(before, identity, i) == Unnamed(after, identity, i) {
      LayoutSafe(before, after, identity, None, i);
    }
    forall name, i: nat ensures Named(before, identity, name, i) == Named(after, identity, name, i) {
      LayoutSafe(before, after, identity, Some(name), i);
    }
  }

  /** The number of members and the kept names need only names, minimum and sentinel to stand. */
  lemma DynamicShapeSafe(before: Config, after: Config, identity: Identity)
    requires DynamicNames(before.workspaceRules, identity) == DynamicNames(after.workspaceRules, identity)
    requires before.emptyAbove == after.emptyAbove
    requires MatchingRule(before.outputs, identity).Some? == MatchingRule(after.outputs, identity).Some?
    requires RuleFor(before.outputs, identity).minWorkspaces == RuleFor(after.outputs, identity).minWorkspaces
    ensures KeptNames(before, identity) == KeptNames(after, identity)
    ensures DynamicCount(before, identity) == DynamicCount(after, identity)
  {
    assert DynamicMinimum(before, identity) == DynamicMinimum(after, identity);
  }

  lemma SetFromMembers(before: Config, after: Config, identity: Identity)
    requires RuleFor(before.outputs, identity).workspaces == RuleFor(after.outputs, identity).workspaces
    requires |DynamicNames(before.workspaceRules, identity)| == |DynamicNames(after.workspaceRules, identity)|
    requires KeptNames(before, identity) == KeptNames(after, identity)
    requires DynamicCount(before, identity) == DynamicCount(after, identity)
    requires before.emptyAbove == after.emptyAbove
    requires forall i: nat :: Unnamed(before, identity, i) == Unnamed(after, identity, i)
    requires forall name, i: nat :: Named(before, identity, name, i) == Named(after, identity, name, i)
    ensures WorkspacesOf(before, identity) == WorkspacesOf(after, identity)
  {
    hide WorkspaceLayout;
    match RuleFor(before.outputs, identity).workspaces
    case None =>
      forall i: nat ensures DynamicMember(before, identity, i) == DynamicMember(after, identity, i) {
        var names, lead := KeptNames(before, identity), Sentinels(before) - 1;
        if lead <= i < lead + |names| {
          assert Named(before, identity, names[i - lead], i) == Named(after, identity, names[i - lead], i);
        } else {
          assert Unnamed(before, identity, i) == Unnamed(after, identity, i);
        }
      }
      assert seq(DynamicCount(before, identity), (i: nat) => DynamicMember(before, identity, i))
          == seq(DynamicCount(after, identity), (i: nat) => DynamicMember(after, identity, i));
    case Some(Count(count)) =>
      assert seq(count, (i: nat) => Unnamed(before, identity, i))
          == seq(count, (i: nat) => Unnamed(after, identity, i));
    case Some(Names(names)) =>
      assert seq(|names|, i requires 0 <= i < |names| => Named(before, identity, names[i], i))
          == seq(|names|, i requires 0 <= i < |names| => Named(after, identity, names[i], i));
  }

  /** Skipping a workspace refresh loses nothing: same members, same names, same layouts. */
  lemma WorkspacesSafe(before: Config, after: Config)
    requires WellFormed(before) && WellFormed(after)
    requires !Effects(before, after).workspaceLayout
    ensures SameWorkspaces(before, after)
  {
    hide Effects, RuleNamesChanged, ProjectionChanged, WorkspacesOf, MatchingRule, DynamicCount, KeptNames;
    LayoutUnchanged(before, after);
    forall identity ensures WorkspacesOf(before, identity) == WorkspacesOf(after, identity) {
      ProjectionSafe(before.outputs, after.outputs, identity, INVENTORY);
      MembersSafe(before, after, identity);
      DynamicShapeSafe(before, after, identity);
      SetFromMembers(before, after, identity);
    }
  }

  /** The dynamic names depend on the declarations alone. */
  function DeclaredNames(declarations: seq<(string, string)>, identity: Identity): seq<string> {
    if declarations == [] then []
    else
      var last := declarations[|declarations| - 1];
      var earlier := DeclaredNames(declarations[..|declarations| - 1], identity);
      if last.0 != "" && (last.1 == "" || !OutputNameMatch(identity, last.1).NoMatch?) && last.0 !in earlier
      then earlier + [last.0] else earlier
  }

  lemma {:induction false} FoldedTwice(name: string)
    ensures NamesEqual(Folded(name), name)
  {
    if name == "" {
    } else {
      FoldedTwice(name[1..]);
    }
  }

  lemma {:induction false} NamesFromDeclarations(rules: seq<WorkspaceRule>, identity: Identity)
    requires forall rule <- rules :: rule.index.Some? ==> rule.name == ""
    ensures DynamicNames(rules, identity) == DeclaredNames(Declarations(rules), identity)
  {
    if rules == [] {
    } else {
      var last := rules[|rules| - 1];
      NamesFromDeclarations(rules[..|rules| - 1], identity);
      FoldedTwice(last.output);
      MatchRespectsNames(identity, Folded(last.output), last.output);
    }
  }

  /** What a member is called, and whether it carries a name of its own. */
  type Label = (string, bool)

  ghost function Labels(workspaces: WorkspaceSet): (labels: seq<Label>)
    ensures |labels| == |workspaces.workspaces|
    ensures forall i :: 0 <= i < |labels| ==>
      labels[i] == (workspaces.workspaces[i].name, workspaces.workspaces[i].named)
  {
    seq(|workspaces.workspaces|, i requires 0 <= i < |workspaces.workspaces| =>
      (workspaces.workspaces[i].name, workspaces.workspaces[i].named))
  }

  ghost function DynamicLabels(names: seq<string>, lead: nat, count: nat): seq<Label> {
    seq(count, (i: nat) => if lead <= i < lead + |names| then (names[i - lead], true) else (Decimal(i + 1), false))
  }

  /** The labels of an output, from its inventory, its kept names and its size alone. */
  ghost function LabelsOf(config: Config, identity: Identity): seq<Label> {
    match RuleFor(config.outputs, identity).workspaces
    case None => DynamicLabels(KeptNames(config, identity), Sentinels(config) - 1, DynamicCount(config, identity))
    case Some(Count(count)) => DynamicLabels([], 0, count)
    case Some(Names(names)) => DynamicLabels(names, 0, |names|)
  }

  lemma LabelsAreThose(config: Config, identity: Identity)
    ensures Labels(WorkspacesOf(config, identity)) == LabelsOf(config, identity)
  {
    hide WorkspaceLayout, KeptNames, DynamicCount, RuleFor, Decimal;
    var labels, expected := Labels(WorkspacesOf(config, identity)), LabelsOf(config, identity);
    assert |labels| == |expected|;
    forall i | 0 <= i < |labels| ensures labels[i] == expected[i] {
    }
  }

  /** Two outputs with the same members, whatever their layouts. */
  ghost predicate SameMembers(a: WorkspaceSet, b: WorkspaceSet) {
    a.dynamic == b.dynamic && a.omittedNamed == b.omittedNamed && Labels(a) == Labels(b)
  }

  lemma MembersFromShape(before: Config, after: Config, identity: Identity)
    requires RuleFor(before.outputs, identity).workspaces == RuleFor(after.outputs, identity).workspaces
    requires |DynamicNames(before.workspaceRules, identity)| == |DynamicNames(after.workspaceRules, identity)|
    requires KeptNames(before, identity) == KeptNames(after, identity)
    requires DynamicCount(before, identity) == DynamicCount(after, identity)
    requires before.emptyAbove == after.emptyAbove
    ensures SameMembers(WorkspacesOf(before, identity), WorkspacesOf(after, identity))
  {
    hide KeptNames, DynamicCount, DynamicNames, RuleFor, Labels, DynamicLabels, DynamicMember, Unnamed, Named;
    LabelsAreThose(before, identity);
    LabelsAreThose(after, identity);
  }

  /** An unset inventory flag keeps every output's members, whatever happens to their layouts. */
  lemma InventorySafe(before: Config, after: Config, identity: Identity)
    requires WellFormed(before) && WellFormed(after)
    requires !Effects(before, after).workspaceInventory
    ensures SameMembers(WorkspacesOf(before, identity), WorkspacesOf(after, identity))
  {
    ProjectionSafe(before.outputs, after.outputs, identity, INVENTORY);
    NamesFromDeclarations(before.workspaceRules, identity);
    NamesFromDeclarations(after.workspaceRules, identity);
    DynamicShapeSafe(before, after, identity);
    MembersFromShape(before, after, identity);
  }
}
