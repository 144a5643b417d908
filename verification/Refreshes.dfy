/**
 When each refresh happens (src/config/change.cpp), stated by what its consumers read: nothing is refreshed for a change
 that concerns something else. The converse, that skipping loses nothing, is in Invalidation.
 */
module Refreshes {
  import opened Options
  import opened OutputNames
  import opened ConfigModel
  import opened Change
  import opened Invalidation

  // ---------------------------------------------------------------- sections by name

  /** What the configuration says of the output section of this name, the defaults where it says nothing. */
  function SectionOf(outputs: seq<OutputRule>, name: string): OutputRule {
    FindByName(outputs, name).GetOr(DEFAULT_OUTPUT)
  }

  /** Some section, present or not, differs in what the projection shows. */
  ghost predicate SectionsDiffer<P>(before: seq<OutputRule>, after: seq<OutputRule>, project: OutputRule -> P) {
    exists name :: project(SectionOf(before, name)) != project(SectionOf(after, name))
  }

  lemma SectionIsIt(outputs: seq<OutputRule>, rule: OutputRule, name: string)
    requires DistinctNames(outputs) && rule in outputs && NamesEqual(rule.name, name)
    ensures FindByName(outputs, name) == Some(rule)
  {
    RuleByName(outputs, FindByName(outputs, name).value, rule);
  }

  lemma ProjectionChangedExactly<P>(before: seq<OutputRule>, after: seq<OutputRule>, project: OutputRule -> P)
    requires DistinctNames(before) && DistinctNames(after)
    ensures ProjectionChanged(before, after, project) <==> SectionsDiffer(before, after, project)
  {
    if ProjectionChanged(before, after, project) {
      if rule :| rule in before && project(rule) != project(FindByName(after, rule.name).GetOr(DEFAULT_OUTPUT)) {
        SectionIsIt(before, rule, rule.name);
        assert project(SectionOf(before, rule.name)) != project(SectionOf(after, rule.name));
      } else {
        var rule :| rule in after && FindByName(before, rule.name).None? && project(DEFAULT_OUTPUT) != project(rule);
        SectionIsIt(after, rule, rule.name);
        assert project(SectionOf(before, rule.name)) != project(SectionOf(after, rule.name));
      }
    }
    if name :| project(SectionOf(before, name)) != project(SectionOf(after, name)) {
      DifferenceIsFound(before, after, project, name);
    }
  }

  lemma DifferenceIsFound<P>(before: seq<OutputRule>, after: seq<OutputRule>, project: OutputRule -> P, name: string)
    requires DistinctNames(before) && DistinctNames(after)
    requires project(SectionOf(before, name)) != project(SectionOf(after, name))
    ensures ProjectionChanged(before, after, project)
  {
    var old', new' := FindByName(before, name), FindByName(after, name);
    if old'.Some? {
      if new'.Some? {
        SectionIsIt(after, new'.value, old'.value.name);
      } else {
        assert FindByName(after, old'.value.name).None?;
      }
      assert old'.value in before;
    } else {
      assert FindByName(before, new'.value.name).None?;
      assert new'.value in after;
    }
  }

  ghost predicate StatesDiffer(before: seq<OutputRule>, after: seq<OutputRule>) {
    exists name :: SectionOf(before, name).state != SectionOf(after, name).state
  }

  ghost predicate TearingPermissionsDiffer(before: seq<OutputRule>, after: seq<OutputRule>) {
    exists name :: SectionOf(before, name).allowTearing != SectionOf(after, name).allowTearing
  }

  ghost predicate DirectScanoutsDiffer(before: seq<OutputRule>, after: seq<OutputRule>) {
    exists name :: SectionOf(before, name).directScanout != SectionOf(after, name).directScanout
  }

  ghost predicate ScreenEffectsDiffer(before: seq<OutputRule>, after: seq<OutputRule>) {
    exists name :: || SectionOf(before, name).screenEffect != SectionOf(after, name).screenEffect
                   || SectionOf(before, name).screenCastEffect != SectionOf(after, name).screenCastEffect
  }

  ghost predicate OutputLayoutsDiffer(before: seq<OutputRule>, after: seq<OutputRule>) {
    exists name :: || SectionOf(before, name).extentFraction != SectionOf(after, name).extentFraction
                   || SectionOf(before, name).axis != SectionOf(after, name).axis
  }

  ghost predicate InventoriesDiffer(before: seq<OutputRule>, after: seq<OutputRule>) {
    exists name :: || SectionOf(before, name).workspaces != SectionOf(after, name).workspaces
                   || SectionOf(before, name).minWorkspaces != SectionOf(after, name).minWorkspaces
  }

  /** Each projection is compared by the settings its consumers read, section by section. */
  lemma ProjectionsExactly(before: seq<OutputRule>, after: seq<OutputRule>)
    requires DistinctNames(before) && DistinctNames(after)
    ensures ProjectionChanged(before, after, STATE) <==> StatesDiffer(before, after)
    ensures ProjectionChanged(before, after, TEARING_PERMISSION) <==> TearingPermissionsDiffer(before, after)
    ensures ProjectionChanged(before, after, DIRECT_SCANOUT) <==> DirectScanoutsDiffer(before, after)
    ensures ProjectionChanged(before, after, SCREEN_EFFECT) <==> ScreenEffectsDiffer(before, after)
    ensures ProjectionChanged(before, after, OUTPUT_LAYOUT) <==> OutputLayoutsDiffer(before, after)
    ensures ProjectionChanged(before, after, INVENTORY) <==> InventoriesDiffer(before, after)
  {
    ProjectionChangedExactly(before, after, STATE);
    ProjectionChangedExactly(before, after, TEARING_PERMISSION);
    ProjectionChangedExactly(before, after, DIRECT_SCANOUT);
    ProjectionChangedExactly(before, after, SCREEN_EFFECT);
    ProjectionChangedExactly(before, after, OUTPUT_LAYOUT);
    ProjectionChangedExactly(before, after, INVENTORY);
    hide ProjectionChanged, SectionOf;
  }

  // ---------------------------------------------------------------- rules compared through what they say

  /** The rules that set tearing at all, in order. */
  function SettingTearing(rules: seq<WindowRule>): seq<WindowRule> {
    if rules == [] then []
    else
      var earlier, last := SettingTearing(rules[..|rules| - 1]), rules[|rules| - 1];
      if last.allowTearing.None? then earlier else earlier + [last]
  }

  /** The rules that may declare a dynamic name, in order. */
  function WithoutIndex(rules: seq<WorkspaceRule>): seq<WorkspaceRule> {
    if rules == [] then []
    else
      var earlier, last := WithoutIndex(rules[..|rules| - 1]), rules[|rules| - 1];
      if last.index.Some? then earlier else earlier + [last]
  }

  /** What rules say about tearing, one by one. */
  ghost predicate TearingRulesDiffer(before: seq<WindowRule>, after: seq<WindowRule>) {
    var olds, news := SettingTearing(before), SettingTearing(after);
    || |olds| != |news|
    || exists i :: && 0 <= i < |olds|
                   && (olds[i].selector != news[i].selector || olds[i].allowTearing != news[i].allowTearing)
  }

  /** What rules declare, one by one; how an output is spelled does not matter. */
  ghost predicate DeclarationsDiffer(before: seq<WorkspaceRule>, after: seq<WorkspaceRule>) {
    var olds, news := WithoutIndex(before), WithoutIndex(after);
    || |olds| != |news|
    || exists i :: 0 <= i < |olds| && (olds[i].name != news[i].name || !NamesEqual(olds[i].output, news[i].output))
  }

  lemma {:induction false} TearingRulesByRule(rules: seq<WindowRule>)
    ensures |TearingRules(rules)| == |SettingTearing(rules)|
    ensures forall i :: 0 <= i < |SettingTearing(rules)| ==>
      var rule := SettingTearing(rules)[i];
      rule.allowTearing.Some? && TearingRules(rules)[i] == (rule.selector, rule.allowTearing.value)
  {
    if rules == [] {
    } else {
      TearingRulesByRule(rules[..|rules| - 1]);
    }
  }

  lemma {:induction false} DeclarationsByRule(rules: seq<WorkspaceRule>)
    ensures |Declarations(rules)| == |WithoutIndex(rules)|
    ensures forall i :: 0 <= i < |WithoutIndex(rules)| ==>
      var rule := WithoutIndex(rules)[i];
      Declarations(rules)[i] == (rule.name, Folded(rule.output))
  {
    if rules == [] {
    } else {
      DeclarationsByRule(rules[..|rules| - 1]);
    }
  }

  lemma TearingRulesExactly(before: seq<WindowRule>, after: seq<WindowRule>)
    ensures TearingRules(before) != TearingRules(after) <==> TearingRulesDiffer(before, after)
  {
    TearingRulesByRule(before);
    TearingRulesByRule(after);
  }

  lemma DeclarationsExactly(before: seq<WorkspaceRule>, after: seq<WorkspaceRule>)
    ensures Declarations(before) != Declarations(after) <==> DeclarationsDiffer(before, after)
  {
    DeclarationsByRule(before);
    DeclarationsByRule(after);
  }

  ghost predicate NamesDiffer(before: Config, after: Config) {
    NameClasses(before.outputs) != NameClasses(after.outputs)
  }

  // ---------------------------------------------------------------- the flags of outputs and workspaces

  /** Modes are applied again exactly when some output is configured that was not, or no longer, or differently. */
  lemma OutputStateExactly(before: Config, after: Config)
    requires WellFormed(before) && WellFormed(after)
    ensures Effects(before, after).outputState <==>
      NamesDiffer(before, after) || StatesDiffer(before.outputs, after.outputs)
    ensures Effects(before, after).directScanoutPolicy <==>
      NamesDiffer(before, after) || DirectScanoutsDiffer(before.outputs, after.outputs)
    ensures Effects(before, after).tearingPolicy <==>
      || NamesDiffer(before, after) || TearingPermissionsDiffer(before.outputs, after.outputs)
      || TearingRulesDiffer(before.windowRules, after.windowRules)
  {
    NamesChangedExactly(before.outputs, after.outputs);
    ProjectionsExactly(before.outputs, after.outputs);
    TearingRulesExactly(before.windowRules, after.windowRules);
    hide StatesDiffer, TearingPermissionsDiffer, DirectScanoutsDiffer, ScreenEffectsDiffer,
         OutputLayoutsDiffer, InventoriesDiffer, TearingRulesDiffer, DeclarationsDiffer,
         ProjectionChanged, RuleNamesChanged, InventoryChanged, LayoutChanged,
         SceneBlurChanged, FocusAppearanceChanged, EffectsChanged, DecidesAttachment, TearingRules;
  }

  /** Members are looked at again exactly when their number, their names or where dynamic names may come from differ. */
  lemma InventoryExactly(before: Config, after: Config)
    requires WellFormed(before) && WellFormed(after)
    ensures Effects(before, after).workspaceInventory <==>
      || NamesDiffer(before, after) || InventoriesDiffer(before.outputs, after.outputs)
      || before.emptyAbove != after.emptyAbove
      || DeclarationsDiffer(before.workspaceRules, after.workspaceRules)
  {
    NamesChangedExactly(before.outputs, after.outputs);
    ProjectionsExactly(before.outputs, after.outputs);
    DeclarationsExactly(before.workspaceRules, after.workspaceRules);
    hide StatesDiffer, TearingPermissionsDiffer, DirectScanoutsDiffer, ScreenEffectsDiffer,
         OutputLayoutsDiffer, InventoriesDiffer, TearingRulesDiffer, DeclarationsDiffer,
         ProjectionChanged, RuleNamesChanged, LayoutChanged, SceneBlurChanged, FocusAppearanceChanged,
         EffectsChanged, DecidesAttachment, TearingRules, Declarations;
  }

  /** What the layouts of workspaces are resolved from. */
  ghost predicate LayoutInputsDiffer(before: Config, after: Config) {
    || NamesDiffer(before, after)
    || InventoriesDiffer(before.outputs, after.outputs)
    || OutputLayoutsDiffer(before.outputs, after.outputs)
    || before.emptyAbove != after.emptyAbove
    || before.workspaceRules != after.workspaceRules
    || before.layout != after.layout
    || before.appearance.borderWidth + before.appearance.outerBorderWidth
       != after.appearance.borderWidth + after.appearance.outerBorderWidth
    || before.appearance.tabBar != after.appearance.tabBar
    || before.appearance.titleBar != after.appearance.titleBar
  }

  /** Layouts are resolved again exactly when something they are resolved from differs. */
  lemma LayoutExactly(before: Config, after: Config)
    requires WellFormed(before) && WellFormed(after)
    ensures Effects(before, after).workspaceLayout <==> LayoutInputsDiffer(before, after)
  {
    InventoryExactly(before, after);
    ProjectionsExactly(before.outputs, after.outputs);
    hide StatesDiffer, TearingPermissionsDiffer, DirectScanoutsDiffer, ScreenEffectsDiffer,
         OutputLayoutsDiffer, InventoriesDiffer, TearingRulesDiffer, DeclarationsDiffer,
         ProjectionChanged, RuleNamesChanged, SceneBlurChanged, FocusAppearanceChanged,
         EffectsChanged, DecidesAttachment, TearingRules, Declarations, NamesDiffer, InventoryChanged;
  }

  /** Effects are loaded again exactly when their tables, the names bound to them or a selection of them may differ. */
  lemma EffectsExactly(before: Config, after: Config)
    requires WellFormed(before) && WellFormed(after)
    ensures Effects(before, after).effects <==>
      || before.effects != after.effects || before.animation.effects != after.animation.effects
      || (exists name :: (name in before.effectActions) != (name in after.effectActions))
      || ScreenEffectsDiffer(before.outputs, after.outputs)
      || (NamesDiffer(before, after) && exists rule :: (rule in before.outputs || rule in after.outputs)
                                                       && (rule.screenEffect.Some? || rule.screenCastEffect.Some?))
      || (before.windowRules != after.windowRules
          && exists rule :: (rule in before.windowRules || rule in after.windowRules)
                            && (rule.borderEffect.Some? || rule.windowEffect.Some?))
  {
    NamesChangedExactly(before.outputs, after.outputs);
    ProjectionsExactly(before.outputs, after.outputs);
    if EffectActionRoots(before) == EffectActionRoots(after) {
      assert forall name :: name in before.effectActions <==> name in EffectActionRoots(before);
      assert forall name :: name in after.effectActions <==> name in EffectActionRoots(after);
    }
    hide StatesDiffer, TearingPermissionsDiffer, DirectScanoutsDiffer, ScreenEffectsDiffer,
         OutputLayoutsDiffer, InventoriesDiffer, TearingRulesDiffer, DeclarationsDiffer,
         ProjectionChanged, RuleNamesChanged, InventoryChanged, LayoutChanged, SceneBlurChanged,
         FocusAppearanceChanged, TearingRules, Declarations;
  }

  /** The remaining refreshes follow whole sections. */
  lemma SectionsExactly(before: Config, after: Config)
    ensures var flags, old', new' := Effects(before, after), before.appearance, after.appearance;
      var blur := old'.blur != new'.blur || before.OptimizedBlurNeeded() != after.OptimizedBlurNeeded();
      && (flags.sceneBlur <==> blur)
      && (flags.layerEffects <==> blur || before.layerRules != after.layerRules)
      && (flags.viewChrome <==>
            || old' != new' || before.colors != after.colors || before.windowRules != after.windowRules
            || before.animation.enabled != after.animation.enabled
            || before.animation.dimUnfocused != after.animation.dimUnfocused
            || before.animation.windowsOpacity != after.animation.windowsOpacity)
      && (flags.animation <==> before.animation != after.animation)
      && (flags.input <==> before.input != after.input || before.hotCorners != after.hotCorners)
      && (flags.overviewPresentation <==> before.overview != after.overview || before.colors != after.colors)
      && (flags.internalUi <==> before.colors != after.colors || before.modKey != after.modKey)
      && (flags.dialogAttachment <==>
            || before.attachModalDialogs != after.attachModalDialogs
            || (before.windowRules != after.windowRules
                && exists rule :: (rule in before.windowRules || rule in after.windowRules)
                                  && rule.attachToParent.Some?))
  {
    hide ProjectionChanged, RuleNamesChanged, InventoryChanged, LayoutChanged, EffectsChanged, TearingRules;
  }

  /** The cached blur is needed by the appearance, or by a window or layer rule that asks for it. */
  lemma BlurNeededExactly(config: Config)
    ensures config.OptimizedBlurNeeded() <==>
      || config.appearance.blur.optimized
      || (exists i :: 0 <= i < |config.windowRules|
                   && Lookup(config.windowRules[i].settings, BlurOptimized) == Some(Toggle(true)))
      || exists i :: 0 <= i < |config.layerRules| && config.layerRules[i].optimized == Some(true)
  {
  }

  // ---------------------------------------------------------------- changes confined to one section

  lemma NothingDiffers(config: Config)
    ensures && !StatesDiffer(config.outputs, config.outputs)
            && !TearingPermissionsDiffer(config.outputs, config.outputs)
            && !DirectScanoutsDiffer(config.outputs, config.outputs)
            && !ScreenEffectsDiffer(config.outputs, config.outputs)
            && !OutputLayoutsDiffer(config.outputs, config.outputs)
            && !InventoriesDiffer(config.outputs, config.outputs)
  {
  }

  /** Setting a configuration to what it already is refreshes nothing. */
  lemma NothingForTheSame(config: Config)
    requires WellFormed(config)
    ensures Effects(config, config) == NOTHING
  {
    NothingDiffers(config);
    NamesChangedExactly(config.outputs, config.outputs);
    ProjectionsExactly(config.outputs, config.outputs);
    hide StatesDiffer, TearingPermissionsDiffer, DirectScanoutsDiffer, ScreenEffectsDiffer, OutputLayoutsDiffer,
         InventoriesDiffer, RuleNamesChanged, ProjectionChanged, Declarations, TearingRules, NameClasses;
  }

  /** Input settings concern the input alone. */
  lemma OnlyInput(config: Config, input: nat, hotCorners: nat)
    requires WellFormed(config) && (input != config.input || hotCorners != config.hotCorners)
    ensures Effects(config, config.(input := input, hotCorners := hotCorners)) == NOTHING.(input := true)
  {
    NothingForTheSame(config);
    hide RuleNamesChanged, ProjectionChanged, Declarations, TearingRules, DeclarationsDiffer, TearingRulesDiffer;
  }

  lemma OnlyOverview(config: Config, overview: nat)
    requires WellFormed(config) && overview != config.overview
    ensures Effects(config, config.(overview := overview)) == NOTHING.(overviewPresentation := true)
  {
    NothingForTheSame(config);
    hide RuleNamesChanged, ProjectionChanged, Declarations, TearingRules, DeclarationsDiffer, TearingRulesDiffer;
  }

  /** Colours are those of window chrome, of the overview and of the compositor's own surfaces. */
  lemma OnlyColors(config: Config, colors: nat)
    requires WellFormed(config) && colors != config.colors
    ensures Effects(config, config.(colors := colors))
         == NOTHING.(viewChrome := true, overviewPresentation := true, internalUi := true)
  {
    NothingForTheSame(config);
    hide RuleNamesChanged, ProjectionChanged, Declarations, TearingRules, DeclarationsDiffer, TearingRulesDiffer;
  }

  lemma OnlyModKey(config: Config, modKey: nat)
    requires WellFormed(config) && modKey != config.modKey
    ensures Effects(config, config.(modKey := modKey)) == NOTHING.(internalUi := true)
  {
    NothingForTheSame(config);
    hide RuleNamesChanged, ProjectionChanged, Declarations, TearingRules, DeclarationsDiffer, TearingRulesDiffer;
  }

  /** Layer rules reach layer surfaces, and the scene when the cached blur comes to be needed or no longer is. */
  lemma OnlyLayerRules(config: Config, layerRules: seq<LayerRule>)
    requires WellFormed(config) && layerRules != config.layerRules
    ensures var after := config.(layerRules := layerRules);
      Effects(config, after)
      == NOTHING.(layerEffects := true, sceneBlur := config.OptimizedBlurNeeded() != after.OptimizedBlurNeeded())
  {
    NothingForTheSame(config);
    hide RuleNamesChanged, ProjectionChanged, Declarations, TearingRules, DeclarationsDiffer, TearingRulesDiffer;
  }

  /** Animations reach window chrome through the looks of unfocused windows, and effects through what events play. */
  lemma OnlyAnimation(config: Config, animation: Animations)
    requires WellFormed(config) && animation != config.animation
    ensures var old' := config.animation;
      Effects(config, config.(animation := animation))
      == NOTHING.(animation := true,
                  viewChrome := (old'.enabled, old'.dimUnfocused, old'.windowsOpacity)
                             != (animation.enabled, animation.dimUnfocused, animation.windowsOpacity),
                  effects := old'.effects != animation.effects)
  {
    NothingForTheSame(config);
    hide RuleNamesChanged, ProjectionChanged, Declarations, TearingRules, DeclarationsDiffer, TearingRulesDiffer;
  }

  /** The effect tables and the names bound to keys and corners concern effects alone. */
  lemma OnlyEffects(config: Config, effects: nat, actions: seq<string>)
    requires WellFormed(config)
    ensures Effects(config, config.(effects := effects, effectActions := actions))
         == NOTHING.(effects := effects != config.effects
                                || exists name :: (name in actions) != (name in config.effectActions))
  {
    NothingForTheSame(config);
    hide RuleNamesChanged, ProjectionChanged, Declarations, TearingRules, DeclarationsDiffer, TearingRulesDiffer;
    if name :| (name in actions) != (name in config.effectActions) {
      assert (name in EffectActionRoots(config.(effectActions := actions))) == (name in actions);
      assert (name in EffectActionRoots(config)) == (name in config.effectActions);
    } else {
      assert EffectActionRoots(config.(effectActions := actions)) == EffectActionRoots(config);
    }
  }

  lemma OnlyAttachment(config: Config, attach: bool)
    requires WellFormed(config)
    ensures Effects(config, config.(attachModalDialogs := attach))
         == NOTHING.(dialogAttachment := attach != config.attachModalDialogs)
  {
    NothingForTheSame(config);
    hide RuleNamesChanged, ProjectionChanged, Declarations, TearingRules, DeclarationsDiffer, TearingRulesDiffer;
  }

  /** The layout section concerns workspaces alone, and not which there are. */
  lemma OnlyLayout(config: Config, layout: Layout)
    requires WellFormed(config)
    ensures Effects(config, config.(layout := layout)) == NOTHING.(workspaceLayout := layout != config.layout)
  {
    NothingForTheSame(config);
    hide RuleNamesChanged, ProjectionChanged, Declarations, TearingRules, DeclarationsDiffer, TearingRulesDiffer;
  }

  /** Of the appearance, blur reaches the scene and its layers, and widths and bars the layouts. */
  lemma OnlyAppearance(config: Config, appearance: Appearance)
    requires WellFormed(config) && appearance != config.appearance
    ensures var old', after := config.appearance, config.(appearance := appearance);
      var blur := old'.blur != appearance.blur || config.OptimizedBlurNeeded() != after.OptimizedBlurNeeded();
      Effects(config, after)
      == NOTHING.(viewChrome := true, sceneBlur := blur, layerEffects := blur,
                  workspaceLayout := (old'.borderWidth + old'.outerBorderWidth, old'.tabBar, old'.titleBar)
                                  != (appearance.borderWidth + appearance.outerBorderWidth, appearance.tabBar,
                                      appearance.titleBar))
  {
    NothingForTheSame(config);
    hide RuleNamesChanged, ProjectionChanged, Declarations, TearingRules, DeclarationsDiffer, TearingRulesDiffer;
  }

  /** Window rules reach chrome always, and each other consumer exactly through the settings it reads. */
  lemma OnlyWindowRules(config: Config, rules: seq<WindowRule>)
    requires WellFormed(config) && rules != config.windowRules
    ensures var after := config.(windowRules := rules);
      var blur := config.OptimizedBlurNeeded() != after.OptimizedBlurNeeded();
      Effects(config, after)
      == NOTHING.(viewChrome := true, sceneBlur := blur, layerEffects := blur,
                  tearingPolicy := TearingRulesDiffer(config.windowRules, rules),
                  effects := exists rule :: (rule in config.windowRules || rule in rules)
                                            && (rule.borderEffect.Some? || rule.windowEffect.Some?),
                  dialogAttachment := exists rule :: (rule in config.windowRules || rule in rules)
                                                     && rule.attachToParent.Some?)
  {
    NothingForTheSame(config);
    TearingRulesExactly(config.windowRules, rules);
    hide RuleNamesChanged, ProjectionChanged, Declarations, TearingRules, DeclarationsDiffer, TearingRulesDiffer;
  }

  /** Workspace rules reach layouts always, and inventories exactly through the names they declare. */
  lemma OnlyWorkspaceRules(config: Config, rules: seq<WorkspaceRule>)
    requires WellFormed(config) && rules != config.workspaceRules
    ensures Effects(config, config.(workspaceRules := rules))
         == NOTHING.(workspaceLayout := true,
                     workspaceInventory := DeclarationsDiffer(config.workspaceRules, rules))
  {
    NothingForTheSame(config);
    DeclarationsExactly(config.workspaceRules, rules);
    hide RuleNamesChanged, ProjectionChanged, Declarations, TearingRules, DeclarationsDiffer, TearingRulesDiffer;
  }

  /** The leading empty workspace is part of the inventory. */
  lemma OnlyEmptyAbove(config: Config, emptyAbove: bool)
    requires WellFormed(config) && emptyAbove != config.emptyAbove
    ensures Effects(config, config.(emptyAbove := emptyAbove))
         == NOTHING.(workspaceInventory := true, workspaceLayout := true)
  {
    NothingForTheSame(config);
    hide RuleNamesChanged, ProjectionChanged, Declarations, TearingRules, DeclarationsDiffer, TearingRulesDiffer;
  }

  /** Sections of outputs reach each consumer through what it reads of them. */
  lemma OnlyOutputs(config: Config, outputs: seq<OutputRule>)
    requires WellFormed(config) && DistinctNames(outputs)
    ensures var names := NameClasses(config.outputs) != NameClasses(outputs);
      var inventory := names || InventoriesDiffer(config.outputs, outputs);
      Effects(config, config.(outputs := outputs))
      == NOTHING.(outputState := names || StatesDiffer(config.outputs, outputs),
                  tearingPolicy := names || TearingPermissionsDiffer(config.outputs, outputs),
                  directScanoutPolicy := names || DirectScanoutsDiffer(config.outputs, outputs),
                  workspaceInventory := inventory,
                  workspaceLayout := inventory || OutputLayoutsDiffer(config.outputs, outputs),
                  effects := (names && (SelectsScreenEffect(config.outputs) || SelectsScreenEffect(outputs)))
                             || ScreenEffectsDiffer(config.outputs, outputs))
  {
    var after := config.(outputs := outputs);
    NamesChangedExactly(config.outputs, outputs);
    OutputStateExactly(config, after);
    LayoutExactly(config, after);
    InventoryExactly(config, after);
    ProjectionsExactly(config.outputs, outputs);
    hide RuleNamesChanged, ProjectionChanged, Declarations, TearingRules, SectionsDiffer, NameClasses,
         SelectsScreenEffect;
  }
}
