/** Which consumers a reload must refresh (src/config/change.cpp). */
module Change {
  import opened Options
  import opened OutputNames
  import opened ConfigModel

  function FindByName(outputs: seq<OutputRule>, name: string): (rule: Option<OutputRule>)
    ensures rule.Some? ==> rule.value in outputs && NamesEqual(rule.value.name, name)
    ensures rule.None? ==> forall r <- outputs :: !NamesEqual(r.name, name)
  {
    if outputs == [] then None
    else if NamesEqual(outputs[0].name, name) then Some(outputs[0])
    else FindByName(outputs[1..], name)
  }

  predicate RuleNamesChanged(before: seq<OutputRule>, after: seq<OutputRule>) {
    |before| != |after| || exists rule <- before :: FindByName(after, rule.name).None?
  }

  /** An absent section counts as one holding only defaults. */
  predicate ProjectionChanged<P(==)>(before: seq<OutputRule>, after: seq<OutputRule>, project: OutputRule -> P) {
    || (exists rule <- before :: project(rule) != project(FindByName(after, rule.name).GetOr(DEFAULT_OUTPUT)))
    || (exists rule <- after :: FindByName(before, rule.name).None? && project(DEFAULT_OUTPUT) != project(rule))
  }

  const STATE := (rule: OutputRule) => rule.state
  const TEARING_PERMISSION := (rule: OutputRule) => rule.allowTearing
  const DIRECT_SCANOUT := (rule: OutputRule) => rule.directScanout
  const SCREEN_EFFECT := (rule: OutputRule) => (rule.screenEffect, rule.screenCastEffect)
  const OUTPUT_LAYOUT := (rule: OutputRule) => (rule.extentFraction, rule.axis)
  const INVENTORY := (rule: OutputRule) => (rule.workspaces, rule.minWorkspaces)

  predicate SelectsScreenEffect(outputs: seq<OutputRule>) {
    exists rule <- outputs :: rule.screenEffect.Some? || rule.screenCastEffect.Some?
  }

  predicate SelectsEffect(rules: seq<WindowRule>) {
    exists rule <- rules :: rule.borderEffect.Some? || rule.windowEffect.Some?
  }

  predicate DecidesAttachment(rules: seq<WindowRule>) {
    exists rule <- rules :: rule.attachToParent.Some?
  }

  // ---------------------------------------------------------------- two lists compared through a filter

  /** The keys of the elements that have one, in order. */
  function Filtered<T, K>(elements: seq<T>, key: T -> Option<K>): seq<K> {
    if elements == [] then []
    else
      var last, earlier := key(elements[|elements| - 1]), Filtered(elements[..|elements| - 1], key);
      if last.Some? then earlier + [last.value] else earlier
  }

  lemma FilteredStep<T, K>(elements: seq<T>, key: T -> Option<K>, i: nat)
    requires i < |elements|
    ensures Filtered(elements[..i + 1], key)
         == Filtered(elements[..i], key) + (if key(elements[i]).Some? then [key(elements[i]).value] else [])
  {
    assert elements[..i + 1][..i] == elements[..i];
  }

  lemma {:induction false} FilteredGrows<T, K>(elements: seq<T>, key: T -> Option<K>, i: nat)
    requires i <= |elements|
    ensures Filtered(elements[..i], key) <= Filtered(elements, key)
    decreases |elements| - i
  {
    if i == |elements| {
      assert elements[..i] == elements;
    } else {
      FilteredStep(elements, key, i);
      FilteredGrows(elements, key, i + 1);
    }
  }

  /** Two scans that agree so far: what has been kept on both sides is the same. */
  ghost predicate Agree<T, K>(olds: seq<T>, i: nat, news: seq<T>, j: nat, key: T -> Option<K>) {
    i <= |olds| && j <= |news| && Filtered(olds[..i], key) == Filtered(news[..j], key)
  }

  lemma AgreeAtStart<T, K>(olds: seq<T>, news: seq<T>, key: T -> Option<K>)
    ensures Agree(olds, 0, news, 0, key)
  {
  }

  lemma Skip<T, K>(olds: seq<T>, i: nat, news: seq<T>, j: nat, key: T -> Option<K>)
    requires Agree(olds, i, news, j, key)
    ensures i < |olds| && key(olds[i]).None? ==> Agree(olds, i + 1, news, j, key)
    ensures j < |news| && key(news[j]).None? ==> Agree(olds, i, news, j + 1, key)
  {
    if i < |olds| {
      FilteredStep(olds, key, i);
    }
    if j < |news| {
      FilteredStep(news, key, j);
    }
  }

  /** The next kept element on each side decides whether the scans go on agreeing or the lists differ. */
  lemma Compare<T, K>(olds: seq<T>, i: nat, news: seq<T>, j: nat, key: T -> Option<K>)
    requires Agree(olds, i, news, j, key) && i < |olds| && j < |news| && key(olds[i]).Some? && key(news[j]).Some?
    ensures key(olds[i]) == key(news[j]) ==> Agree(olds, i + 1, news, j + 1, key)
    ensures key(olds[i]) != key(news[j]) ==> Filtered(olds, key) != Filtered(news, key)
  {
    var done := |Filtered(olds[..i], key)|;
    FilteredStep(olds, key, i);
    FilteredStep(news, key, j);
    FilteredGrows(olds, key, i + 1);
    FilteredGrows(news, key, j + 1);
    assert Filtered(olds, key)[done] == key(olds[i]).value && Filtered(news, key)[done] == key(news[j]).value;
  }

  /** Once one list is exhausted, the lists are the same if and only if the other is too. */
  lemma Exhausted<T, K>(olds: seq<T>, i: nat, news: seq<T>, j: nat, key: T -> Option<K>)
    requires Agree(olds, i, news, j, key) && (i == |olds| || j == |news|)
    requires (i < |olds| ==> key(olds[i]).Some?) && (j < |news| ==> key(news[j]).Some?)
    ensures (i == |olds| && j == |news|) <==> Filtered(olds, key) == Filtered(news, key)
  {
    assert olds[..|olds|] == olds && news[..|news|] == news;
    if i < |olds| {
      FilteredStep(olds, key, i);
      FilteredGrows(olds, key, i + 1);
    }
    if j < |news| {
      FilteredStep(news, key, j);
      FilteredGrows(news, key, j + 1);
    }
  }

  /** What a rule that sets tearing selects, and what it sets. */
  function TearingKey(rule: WindowRule): Option<(Selector, bool)> {
    if rule.allowTearing.Some? then Some((rule.selector, rule.allowTearing.value)) else None
  }

  /** The name a rule without an index declares, and the class of its output. */
  function DeclarationKey(rule: WorkspaceRule): Option<(string, string)> {
    if rule.index.None? then Some((rule.name, Folded(rule.output))) else None
  }

  function TearingRules(rules: seq<WindowRule>): seq<(Selector, bool)> {
    Filtered(rules, TearingKey)
  }

  function Declarations(rules: seq<WorkspaceRule>): seq<(string, string)> {
    Filtered(rules, DeclarationKey)
  }

  method SameWindowTearingPolicy(before: Config, after: Config) returns (same: bool)
    ensures same == (TearingRules(before.windowRules) == TearingRules(after.windowRules))
  {
    var olds, news := before.windowRules, after.windowRules;
    var beforeIndex, afterIndex := 0, 0;
    AgreeAtStart(olds, news, TearingKey);
    hide Agree;
    while true
      invariant beforeIndex <= |olds| && afterIndex <= |news|
      invariant Agree(olds, beforeIndex, news, afterIndex, TearingKey)
      decreases |olds| - beforeIndex
    {
      while beforeIndex < |olds| && olds[beforeIndex].allowTearing.None?
        invariant beforeIndex <= |olds|
        invariant Agree(olds, beforeIndex, news, afterIndex, TearingKey)
      {
        Skip(olds, beforeIndex, news, afterIndex, TearingKey);
        beforeIndex := beforeIndex + 1;
      }
      while afterIndex < |news| && news[afterIndex].allowTearing.None?
        invariant afterIndex <= |news|
        invariant Agree(olds, beforeIndex, news, afterIndex, TearingKey)
      {
        Skip(olds, beforeIndex, news, afterIndex, TearingKey);
        afterIndex := afterIndex + 1;
      }
      var beforeEnd, afterEnd := beforeIndex == |olds|, afterIndex == |news|;
      if beforeEnd || afterEnd {
        Exhausted(olds, beforeIndex, news, afterIndex, TearingKey);
        return beforeEnd && afterEnd;
      }
      Compare(olds, beforeIndex, news, afterIndex, TearingKey);
      var lhs, rhs := olds[beforeIndex], news[afterIndex];
      beforeIndex, afterIndex := beforeIndex + 1, afterIndex + 1;
      if lhs.selector != rhs.selector || lhs.allowTearing != rhs.allowTearing {
        return false;
      }
    }
  }

  method SameDynamicWorkspaceDeclarations(before: Config, after: Config) returns (same: bool)
    ensures same == (Declarations(before.workspaceRules) == Declarations(after.workspaceRules))
  {
    var olds, news := before.workspaceRules, after.workspaceRules;
    var beforeIndex, afterIndex := 0, 0;
    AgreeAtStart(olds, news, DeclarationKey);
    hide Agree;
    while true
      invariant beforeIndex <= |olds| && afterIndex <= |news|
      invariant Agree(olds, beforeIndex, news, afterIndex, DeclarationKey)
      decreases |olds| - beforeIndex
    {
      while beforeIndex < |olds| && olds[beforeIndex].index.Some?
        invariant beforeIndex <= |olds|
        invariant Agree(olds, beforeIndex, news, afterIndex, DeclarationKey)
      {
        Skip(olds, beforeIndex, news, afterIndex, DeclarationKey);
        beforeIndex := beforeIndex + 1;
      }
      while afterIndex < |news| && news[afterIndex].index.Some?
        invariant afterIndex <= |news|
        invariant Agree(olds, beforeIndex, news, afterIndex, DeclarationKey)
      {
        Skip(olds, beforeIndex, news, afterIndex, DeclarationKey);
        afterIndex := afterIndex + 1;
      }
      var beforeEnd, afterEnd := beforeIndex == |olds|, afterIndex == |news|;
      if beforeEnd || afterEnd {
        Exhausted(olds, beforeIndex, news, afterIndex, DeclarationKey);
        return beforeEnd && afterEnd;
      }
      Compare(olds, beforeIndex, news, afterIndex, DeclarationKey);
      var lhs, rhs := olds[beforeIndex], news[afterIndex];
      beforeIndex, afterIndex := beforeIndex + 1, afterIndex + 1;
      var sameOutput := OutputNamesEqual(lhs.output, rhs.output);
      if lhs.name != rhs.name || !sameOutput {
        return false;
      }
    }
  }

  // ---------------------------------------------------------------- the decisions

  datatype ConfigEffects = ConfigEffects(
    outputState: bool, tearingPolicy: bool, directScanoutPolicy: bool, workspaceInventory: bool,
    workspaceLayout: bool, sceneBlur: bool, viewChrome: bool, layerEffects: bool, animation: bool, input: bool,
    overviewPresentation: bool, internalUi: bool, effects: bool, dialogAttachment: bool)

  const EVERYTHING :=
    ConfigEffects(true, true, true, true, true, true, true, true, true, true, true, true, true, true)

  const NOTHING :=
    ConfigEffects(false, false, false, false, false, false, false, false, false, false, false, false, false, false)

  /** The names keybinds and corners reach; the source compares them sorted and without repeats. */
  function EffectActionRoots(config: Config): set<string> {
    set name | name in config.effectActions
  }

  predicate SceneBlurChanged(before: Config, after: Config) {
    before.appearance.blur != after.appearance.blur || before.OptimizedBlurNeeded() != after.OptimizedBlurNeeded()
  }

  predicate FocusAppearanceChanged(before: Config, after: Config) {
    || before.animation.enabled != after.animation.enabled
    || before.animation.dimUnfocused != after.animation.dimUnfocused
    || before.animation.windowsOpacity != after.animation.windowsOpacity
  }

  predicate InventoryChanged(before: Config, after: Config) {
    || RuleNamesChanged(before.outputs, after.outputs)
    || ProjectionChanged(before.outputs, after.outputs, INVENTORY)
    || before.emptyAbove != after.emptyAbove
    || Declarations(before.workspaceRules) != Declarations(after.workspaceRules)
  }

  predicate LayoutChanged(before: Config, after: Config) {
    || InventoryChanged(before, after)
    || ProjectionChanged(before.outputs, after.outputs, OUTPUT_LAYOUT)
    || before.layout != after.layout
    || before.workspaceRules != after.workspaceRules
    || before.appearance.TotalBorderWidth() != after.appearance.TotalBorderWidth()
    || before.appearance.tabBar != after.appearance.tabBar
    || before.appearance.titleBar != after.appearance.titleBar
  }

  predicate EffectsChanged(before: Config, after: Config) {
    || before.effects != after.effects
    || EffectActionRoots(before) != EffectActionRoots(after)
    || (RuleNamesChanged(before.outputs, after.outputs)
        && (SelectsScreenEffect(before.outputs) || SelectsScreenEffect(after.outputs)))
    || ProjectionChanged(before.outputs, after.outputs, SCREEN_EFFECT)
    || before.animation.effects != after.animation.effects
    || (before.windowRules != after.windowRules
        && (SelectsEffect(before.windowRules) || SelectsEffect(after.windowRules)))
  }

  function Effects(before: Config, after: Config): ConfigEffects {
    var olds, news := before.outputs, after.outputs;
    var names := RuleNamesChanged(olds, news);
    ConfigEffects(
      names || ProjectionChanged(olds, news, STATE),
      names || ProjectionChanged(olds, news, TEARING_PERMISSION)
        || TearingRules(before.windowRules) != TearingRules(after.windowRules),
      names || ProjectionChanged(olds, news, DIRECT_SCANOUT),
      InventoryChanged(before, after),
      LayoutChanged(before, after),
      SceneBlurChanged(before, after),
      before.appearance != after.appearance || before.colors != after.colors
        || before.windowRules != after.windowRules || FocusAppearanceChanged(before, after),
      SceneBlurChanged(before, after) || before.layerRules != after.layerRules,
      before.animation != after.animation,
      before.input != after.input || before.hotCorners != after.hotCorners,
      before.overview != after.overview || before.colors != after.colors,
      before.colors != after.colors || before.modKey != after.modKey,
      EffectsChanged(before, after),
      before.attachModalDialogs != after.attachModalDialogs
        || (before.windowRules != after.windowRules
            && (DecidesAttachment(before.windowRules) || DecidesAttachment(after.windowRules))))
  }

  method WorkspaceInventoryChanged(before: Config, after: Config, outputNamesChanged: bool) returns (changed: bool)
    requires outputNamesChanged == RuleNamesChanged(before.outputs, after.outputs)
    ensures changed == InventoryChanged(before, after) && (outputNamesChanged ==> changed)
  {
    hide RuleNamesChanged, ProjectionChanged, Declarations;
    var sameDeclarations := SameDynamicWorkspaceDeclarations(before, after);
    changed := outputNamesChanged || ProjectionChanged(before.outputs, after.outputs, INVENTORY)
      || before.emptyAbove != after.emptyAbove || !sameDeclarations;
  }

  method WorkspaceLayoutChanged(before: Config, after: Config, outputNamesChanged: bool, workspaceInventory: bool)
    returns (changed: bool)
    requires outputNamesChanged == RuleNamesChanged(before.outputs, after.outputs)
    requires workspaceInventory == InventoryChanged(before, after)
    ensures changed == LayoutChanged(before, after)
  {
    assert outputNamesChanged ==> workspaceInventory;
    hide RuleNamesChanged, ProjectionChanged, InventoryChanged;
    var outputLayout := outputNamesChanged || ProjectionChanged(before.outputs, after.outputs, OUTPUT_LAYOUT);
    changed := workspaceInventory || outputLayout || before.layout != after.layout
      || before.workspaceRules != after.workspaceRules
      || before.appearance.TotalBorderWidth() != after.appearance.TotalBorderWidth()
      || before.appearance.tabBar != after.appearance.tabBar
      || before.appearance.titleBar != after.appearance.titleBar;
  }

  method Between(before: Config, after: Config) returns (effects: ConfigEffects)
    ensures effects == Effects(before, after)
  {
    hide RuleNamesChanged, ProjectionChanged, InventoryChanged, LayoutChanged, SceneBlurChanged, FocusAppearanceChanged,
         EffectsChanged, DecidesAttachment, TearingRules, Declarations;
    var olds, news := before.outputs, after.outputs;
    var outputNamesChanged := RuleNamesChanged(olds, news);
    var sameTearing := SameWindowTearingPolicy(before, after);
    var tearingPolicy := outputNamesChanged || ProjectionChanged(olds, news, TEARING_PERMISSION) || !sameTearing;
    var workspaceInventory := WorkspaceInventoryChanged(before, after, outputNamesChanged);
    var workspaceLayout := WorkspaceLayoutChanged(before, after, outputNamesChanged, workspaceInventory);
    var sceneBlur := SceneBlurChanged(before, after);
    var viewChrome := before.appearance != after.appearance || before.colors != after.colors
      || before.windowRules != after.windowRules || FocusAppearanceChanged(before, after);
    var dialogAttachment := before.attachModalDialogs != after.attachModalDialogs
      || (before.windowRules != after.windowRules
          && (DecidesAttachment(before.windowRules) || DecidesAttachment(after.windowRules)));
    effects := ConfigEffects(
      outputNamesChanged || ProjectionChanged(olds, news, STATE),
      tearingPolicy,
      outputNamesChanged || ProjectionChanged(olds, news, DIRECT_SCANOUT),
      workspaceInventory,
      workspaceLayout,
      sceneBlur,
      viewChrome,
      sceneBlur || before.layerRules != after.layerRules,
      before.animation != after.animation,
      before.input != after.input || before.hotCorners != after.hotCorners,
      before.overview != after.overview || before.colors != after.colors,
      before.colors != after.colors || before.modKey != after.modKey,
      EffectsChanged(before, after),
      dialogAttachment);
  }
}
