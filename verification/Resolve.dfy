/**
 What consumers see of a configuration: the rule of an output, the settings of a window and the
 workspaces of an output (src/config/resolve.cpp).
 */
module Resolve {
  import opened Options
  import opened OutputNames
  import opened ConfigModel

  // ---------------------------------------------------------------- output rules

  function DescriptorRule(outputs: seq<OutputRule>, identity: Identity): (rule: Option<OutputRule>)
    ensures rule.Some? ==> rule.value in outputs && OutputNameMatch(identity, rule.value.name).Descriptor?
    ensures rule.None? ==> forall r <- outputs :: !OutputNameMatch(identity, r.name).Descriptor?
  {
    if outputs == [] then None
    else if OutputNameMatch(identity, outputs[0].name).Descriptor? then Some(outputs[0])
    else DescriptorRule(outputs[1..], identity)
  }

  function ConnectorRule(outputs: seq<OutputRule>, identity: Identity): (rule: Option<OutputRule>)
    ensures rule.Some? ==> rule.value in outputs && OutputNameMatch(identity, rule.value.name).Connector?
    ensures rule.None? ==> forall r <- outputs :: !OutputNameMatch(identity, r.name).Connector?
  {
    if outputs == [] then None
    else
      var last := outputs[|outputs| - 1];
      if OutputNameMatch(identity, last.name).Connector? then Some(last)
      else ConnectorRule(outputs[..|outputs| - 1], identity)
  }

  /** The first section naming the output by its descriptor, or else the last naming its connector. */
  function MatchingRule(outputs: seq<OutputRule>, identity: Identity): Option<OutputRule> {
    var descriptor := DescriptorRule(outputs, identity);
    if descriptor.Some? then descriptor else ConnectorRule(outputs, identity)
  }

  method MatchingOutputRule(config: Config, identity: Identity) returns (rule: Option<OutputRule>)
    ensures rule == MatchingRule(config.outputs, identity)
  {
    rule := None;
    var outputs := config.outputs;
    for i := 0 to |outputs|
      invariant rule == ConnectorRule(outputs[..i], identity)
      invariant DescriptorRule(outputs, identity) == DescriptorRule(outputs[i..], identity)
    {
      assert outputs[..i + 1][..i] == outputs[..i] && outputs[i..][1..] == outputs[i + 1..];
      match OutputNameMatch(identity, outputs[i].name)
      case Descriptor => return Some(outputs[i]);
      case Connector => rule := Some(outputs[i]);
      case NoMatch =>
    }
    assert outputs[..|outputs|] == outputs;
  }

  /** The rule that governs an output, or the defaults when no section names it. */
  function RuleFor(outputs: seq<OutputRule>, identity: Identity): OutputRule {
    MatchingRule(outputs, identity).GetOr(DEFAULT_OUTPUT)
  }

  // ---------------------------------------------------------------- window rules

  const STARTUP_RULE_DURATION_MS: nat := 60000

  datatype WindowState = WindowState(
    focused: bool, floating: bool, maximizedToEdges: bool, pinned: bool, scratchpad: bool,
    alone: bool, onlyWindow: bool, dialog: bool, castTarget: bool, layout: Option<nat>)

  /** A window as the rules see it; `search` is the regular-expression engine, pattern first. */
  datatype Window = Window(
    appId: Option<string>, title: Option<string>, xdgTag: Option<string>, contentType: nat,
    state: WindowState, uptimeMs: nat, search: (string, string) -> bool)

  predicate Constrains(patterns: seq<string>) {
    exists pattern <- patterns :: pattern != ""
  }

  predicate PatternMatches(patterns: seq<string>, value: Option<string>, search: (string, string) -> bool) {
    Constrains(patterns) ==> value.Some? && exists pattern <- patterns :: search(pattern, value.value)
  }

  predicate Allows(constraint: Option<bool>, actual: bool) {
    constraint.Some? ==> constraint.value == actual
  }

  predicate Selects(s: Selector, w: Window) {
    && PatternMatches(s.appId, w.appId, w.search)
    && PatternMatches(s.title, w.title, w.search)
    && PatternMatches(s.xdgTag, w.xdgTag, w.search)
    && (s.contentType.Some? ==> s.contentType.value == w.contentType)
    && (s.layouts != [] ==> w.state.layout.Some? && w.state.layout.value in s.layouts)
    && Allows(s.focused, w.state.focused)
    && Allows(s.floating, w.state.floating)
    && Allows(s.maximizedToEdges, w.state.maximizedToEdges)
    && Allows(s.pinned, w.state.pinned)
    && Allows(s.scratchpad, w.state.scratchpad)
    && Allows(s.alone, w.state.alone)
    && Allows(s.onlyWindow, w.state.onlyWindow)
    && Allows(s.dialog, w.state.dialog)
    && Allows(s.castTarget, w.state.castTarget)
    && Allows(s.atStartup, w.uptimeMs < STARTUP_RULE_DURATION_MS)
  }

  datatype ResolvedWindowRule = ResolvedWindowRule(
    allowTearing: Option<bool>, attachToParent: Option<bool>,
    borderEffect: Option<string>, windowEffect: Option<string>, settings: RuleSettings)

  /** The value of the last rule that selects the window and sets the field. */
  function LastSet<T>(rules: seq<WindowRule>, w: Window, field: WindowRule -> Option<T>): Option<T> {
    if rules == [] then None
    else
      var last := rules[|rules| - 1];
      if Selects(last.selector, w) && field(last).Some? then field(last)
      else LastSet(rules[..|rules| - 1], w, field)
  }

  const TEARING := (rule: WindowRule) => rule.allowTearing
  const ATTACH := (rule: WindowRule) => rule.attachToParent
  const BORDER := (rule: WindowRule) => rule.borderEffect
  const EFFECT := (rule: WindowRule) => rule.windowEffect

  /** The other settings of every rule that selects the window, later rules on top. */
  function SettingsOf(rules: seq<WindowRule>, w: Window): RuleSettings {
    if rules == [] then map[]
    else
      var last, earlier := rules[|rules| - 1], SettingsOf(rules[..|rules| - 1], w);
      if Selects(last.selector, w) then earlier + last.settings else earlier
  }

  function WindowSettings(rules: seq<WindowRule>, w: Window): ResolvedWindowRule {
    ResolvedWindowRule(LastSet(rules, w, TEARING), LastSet(rules, w, ATTACH),
                       LastSet(rules, w, BORDER), LastSet(rules, w, EFFECT), SettingsOf(rules, w))
  }

  method ResolveWindowRules(config: Config, w: Window) returns (resolved: ResolvedWindowRule)
    ensures resolved == WindowSettings(config.windowRules, w)
  {
    resolved := ResolvedWindowRule(None, None, None, None, map[]);
    var rules := config.windowRules;
    for i := 0 to |rules|
      invariant resolved == WindowSettings(rules[..i], w)
    {
      assert rules[..i + 1][..i] == rules[..i];
      var rule := rules[i];
      if Selects(rule.selector, w) {
        resolved := resolved.(settings := resolved.settings + rule.settings);
        if rule.attachToParent.Some? {
          resolved := resolved.(attachToParent := rule.attachToParent);
        }
        if rule.allowTearing.Some? {
          resolved := resolved.(allowTearing := rule.allowTearing);
        }
        if rule.borderEffect.Some? {
          resolved := resolved.(borderEffect := rule.borderEffect);
        }
        if rule.windowEffect.Some? {
          resolved := resolved.(windowEffect := rule.windowEffect);
        }
      }
    }
    assert rules[..|rules|] == rules;
  }

  // ---------------------------------------------------------------- layout of one workspace

  datatype ResolvedLayout = ResolvedLayout(
    gap: int, settings: LayoutSettings, direction: Axis,
    barHeight: int, barPosition: nat, hideWhenSingle: bool, barVisible: bool,
    barGap: int, totalGap: int, edgePad: int)

  /** The gap-derived lengths agree with the gap and the configured decorations. */
  predicate Derived(appearance: Appearance, resolved: ResolvedLayout) {
    && resolved.barGap == (if appearance.tabBar.gap < 0 then resolved.gap else appearance.tabBar.gap)
    && resolved.totalGap == resolved.gap + 2 * appearance.TotalBorderWidth()
    && resolved.edgePad == resolved.gap + appearance.TotalBorderWidth()
  }

  function GlobalLayout(config: Config): ResolvedLayout {
    var gap, bar, border := config.layout.gap, config.appearance.tabBar, config.appearance.TotalBorderWidth();
    ResolvedLayout(gap, config.layout.settings, Horizontal, bar.height, bar.position, bar.hideWhenSingle,
                   bar.visible, if bar.gap < 0 then gap else bar.gap, gap + 2 * border, gap + border)
  }

  function ApplyOverrides(config: Config, resolved: ResolvedLayout, overrides: Overrides): ResolvedLayout {
    var gap := overrides.gap.GetOr(resolved.gap);
    var bar, border := config.appearance.tabBar, config.appearance.TotalBorderWidth();
    resolved.(gap := gap, settings := resolved.settings + overrides.settings,
              barGap := if bar.gap < 0 then gap else bar.gap,
              totalGap := gap + 2 * border, edgePad := gap + border)
  }

  function ApplyAll(config: Config, resolved: ResolvedLayout, all: seq<Overrides>): ResolvedLayout {
    if all == [] then resolved
    else ApplyOverrides(config, ApplyAll(config, resolved, all[..|all| - 1]), all[|all| - 1])
  }

  predicate RuleApplies(rule: WorkspaceRule, identity: Identity, name: Option<string>, index: nat, outputScoped: bool) {
    && (if outputScoped then rule.output != "" && !OutputNameMatch(identity, rule.output).NoMatch?
        else rule.output == "")
    && (if rule.index.Some? then rule.index.value - 1 == index
        else name.Some? && rule.name == name.value)
  }

  function MatchingOverrides(rules: seq<WorkspaceRule>, identity: Identity, name: Option<string>, index: nat,
                             outputScoped: bool): seq<Overrides> {
    if rules == [] then []
    else
      var last := rules[|rules| - 1];
      var rest := MatchingOverrides(rules[..|rules| - 1], identity, name, index, outputScoped);
      if RuleApplies(last, identity, name, index, outputScoped) then rest + [last.layout] else rest
  }

  /** The layout before any [[workspace]] rule: the globals, then the output's own section. */
  function OutputLayout(config: Config, identity: Identity): ResolvedLayout {
    var resolved, output := GlobalLayout(config), MatchingRule(config.outputs, identity);
    if output.None? then resolved
    else
      var fraction := output.value.extentFraction;
      resolved.(settings := if fraction.Some? then resolved.settings[DefaultExtentFraction := fraction.value]
                            else resolved.settings,
                direction := if output.value.axis.Horizontal? then Vertical else Horizontal)
  }

  /** Rules for every output apply first, then the rules scoped to this one. */
  function AllOverrides(config: Config, identity: Identity, name: Option<string>, index: nat): seq<Overrides> {
    MatchingOverrides(config.workspaceRules, identity, name, index, false)
    + MatchingOverrides(config.workspaceRules, identity, name, index, true)
  }

  function WorkspaceLayout(config: Config, identity: Identity, name: Option<string>, index: nat): ResolvedLayout {
    ApplyAll(config, OutputLayout(config, identity), AllOverrides(config, identity, name, index))
  }

  method ResolveWorkspaceLayout(config: Config, identity: Identity, name: Option<string>, index: nat)
    returns (resolved: ResolvedLayout)
    ensures resolved == WorkspaceLayout(config, identity, name, index)
  {
    resolved := GlobalLayout(config);
    var output := MatchingOutputRule(config, identity);
    if output.Some? {
      if output.value.extentFraction.Some? {
        var fraction := output.value.extentFraction.value;
        resolved := resolved.(settings := resolved.settings[DefaultExtentFraction := fraction]);
      }
      resolved := resolved.(direction := if output.value.axis.Horizontal? then Vertical else Horizontal);
    }
    ghost var start := resolved;
    ghost var unscoped := MatchingOverrides(config.workspaceRules, identity, name, index, false);
    resolved := ApplyMatchingRules(config, resolved, identity, name, index, false, start, []);
    assert [] + unscoped == unscoped;
    resolved := ApplyMatchingRules(config, resolved, identity, name, index, true, start, unscoped);
  }

  method ApplyMatchingRules(config: Config, initial: ResolvedLayout, identity: Identity, name: Option<string>,
                            index: nat, outputScoped: bool, ghost start: ResolvedLayout, ghost applied: seq<Overrides>)
    returns (resolved: ResolvedLayout)
    requires initial == ApplyAll(config, start, applied)
    ensures resolved == ApplyAll(config, start,
                          applied + MatchingOverrides(config.workspaceRules, identity, name, index, outputScoped))
  {
    hide RuleApplies, ApplyOverrides;
    resolved := initial;
    var rules := config.workspaceRules;
    assert applied + [] == applied;
    for i := 0 to |rules|
      invariant resolved == ApplyAll(config, start,
                              applied + MatchingOverrides(rules[..i], identity, name, index, outputScoped))
    {
      NextRule(config, start, applied, rules, i, identity, name, index, outputScoped);
      if RuleApplies(rules[i], identity, name, index, outputScoped) {
        resolved := ApplyOverrides(config, resolved, rules[i].layout);
      }
    }
    assert rules[..|rules|] == rules;
  }

  /** What one more rule does to the overrides applied so far. */
  lemma NextRule(config: Config, start: ResolvedLayout, applied: seq<Overrides>, rules: seq<WorkspaceRule>, i: nat,
                 identity: Identity, name: Option<string>, index: nat, outputScoped: bool)
    requires i < |rules|
    ensures var before := applied + MatchingOverrides(rules[..i], identity, name, index, outputScoped);
            var after := applied + MatchingOverrides(rules[..i + 1], identity, name, index, outputScoped);
            ApplyAll(config, start, after) ==
            if RuleApplies(rules[i], identity, name, index, outputScoped)
            then ApplyOverrides(config, ApplyAll(config, start, before), rules[i].layout)
            else ApplyAll(config, start, before)
  {
    var matching := MatchingOverrides(rules[..i], identity, name, index, outputScoped);
    assert rules[..i + 1][..i] == rules[..i];
    if RuleApplies(rules[i], identity, name, index, outputScoped) {
      var after := applied + matching + [rules[i].layout];
      assert after == applied + MatchingOverrides(rules[..i + 1], identity, name, index, outputScoped);
      assert after[..|after| - 1] == applied + matching;
    }
  }

  // ---------------------------------------------------------------- workspaces of one output

  datatype ResolvedWorkspace = ResolvedWorkspace(name: string, named: bool, layout: ResolvedLayout)

  datatype WorkspaceSet = WorkspaceSet(dynamic: bool, omittedNamed: nat, workspaces: seq<ResolvedWorkspace>)

  function Decimal(n: nat): string {
    var digit := [(n % 10 + '0' as int) as char];
    if n < 10 then digit else Decimal(n / 10) + digit
  }

  /** Digits read from left to right. */
  function ReadDecimal(digits: string): int
    decreases |digits|
  {
    if digits == "" then 0
    else 10 * ReadDecimal(digits[..|digits| - 1]) + (digits[|digits| - 1] as int - '0' as int)
  }

  /** The numeral of a number is made of digits, has no leading zero and reads as that number. */
  lemma {:induction false} DecimalReads(n: nat)
    ensures Decimal(n) != "" && forall i :: 0 <= i < |Decimal(n)| ==> '0' <= Decimal(n)[i] <= '9'
    ensures |Decimal(n)| > 1 ==> Decimal(n)[0] != '0'
    ensures n > 0 ==> Decimal(n)[0] != '0'
    ensures ReadDecimal(Decimal(n)) == n
  {
    var digit := [(n % 10 + '0' as int) as char];
    if n < 10 {
      assert digit[..0] == "";
    } else {
      DecimalReads(n / 10);
      assert Decimal(n) == Decimal(n / 10) + digit;
      assert Decimal(n)[..|Decimal(n)| - 1] == Decimal(n / 10);
    }
  }

  lemma DecimalsDiffer(m: nat, n: nat)
    ensures Decimal(m) == Decimal(n) <==> m == n
  {
    DecimalReads(m);
    DecimalReads(n);
  }

  predicate DeclaresName(rule: WorkspaceRule, identity: Identity) {
    rule.name != "" && (rule.output == "" || !OutputNameMatch(identity, rule.output).NoMatch?)
  }

  /** Distinct names that rules declare for a dynamic output, in order of first declaration. */
  function DynamicNames(rules: seq<WorkspaceRule>, identity: Identity): (names: seq<string>)
    ensures forall i, j :: 0 <= i < j < |names| ==> names[i] != names[j]
    ensures forall name :: name in names <==> exists rule <- rules :: DeclaresName(rule, identity) && rule.name == name
  {
    if rules == [] then []
    else
      var last, earlier := rules[|rules| - 1], DynamicNames(rules[..|rules| - 1], identity);
      assert forall rule :: rule in rules <==> rule in rules[..|rules| - 1] || rule == last;
      if DeclaresName(last, identity) && last.name !in earlier then earlier + [last.name] else earlier
  }

  method DynamicWorkspaceNames(config: Config, identity: Identity) returns (names: seq<string>)
    ensures names == DynamicNames(config.workspaceRules, identity)
  {
    names := [];
    var rules := config.workspaceRules;
    hide OutputNameMatch;
    for i := 0 to |rules|
      invariant names == DynamicNames(rules[..i], identity)
    {
      assert rules[..i + 1][..i] == rules[..i];
      var rule := rules[i];
      var elsewhere := rule.output != "" && OutputNameMatch(identity, rule.output).NoMatch?;
      if rule.name == "" || elsewhere || rule.name in names {
        continue;
      }
      names := names + [rule.name];
    }
    assert rules[..|rules|] == rules;
  }

  function Sentinels(config: Config): nat {
    if config.emptyAbove then 2 else 1
  }

  function DynamicMinimum(config: Config, identity: Identity): (minimum: nat)
    ensures minimum >= 1 && minimum >= RuleFor(config.outputs, identity).minWorkspaces
    ensures minimum == 1 || minimum == RuleFor(config.outputs, identity).minWorkspaces
  {
    var rule := MatchingRule(config.outputs, identity);
    if rule.Some? && rule.value.minWorkspaces > 1 then rule.value.minWorkspaces else 1
  }

  function KeptNames(config: Config, identity: Identity): seq<string> {
    var names, capacity := DynamicNames(config.workspaceRules, identity), MAX_WORKSPACES - Sentinels(config);
    if |names| > capacity then names[..capacity] else names
  }

  function DynamicCount(config: Config, identity: Identity): nat {
    var minimum, needed := DynamicMinimum(config, identity), |KeptNames(config, identity)| + Sentinels(config);
    if minimum > needed then minimum else needed
  }

  function Unnamed(config: Config, identity: Identity, index: nat): ResolvedWorkspace {
    ResolvedWorkspace(Decimal(index + 1), false, WorkspaceLayout(config, identity, None, index))
  }

  function Named(config: Config, identity: Identity, name: string, index: nat): ResolvedWorkspace {
    ResolvedWorkspace(name, true, WorkspaceLayout(config, identity, Some(name), index))
  }

  /** Member `index` of a dynamic output: leading sentinel, then the named members, then empties. */
  function DynamicMember(config: Config, identity: Identity, index: nat): ResolvedWorkspace {
    var names, lead := KeptNames(config, identity), Sentinels(config) - 1;
    if lead <= index < lead + |names| then Named(config, identity, names[index - lead], index)
    else Unnamed(config, identity, index)
  }

  function WorkspacesOf(config: Config, identity: Identity): WorkspaceSet {
    match RuleFor(config.outputs, identity).workspaces
    case None =>
      WorkspaceSet(true, |DynamicNames(config.workspaceRules, identity)| - |KeptNames(config, identity)|,
                   seq(DynamicCount(config, identity), (i: nat) => DynamicMember(config, identity, i)))
    case Some(Count(count)) => WorkspaceSet(false, 0, seq(count, (i: nat) => Unnamed(config, identity, i)))
    case Some(Names(names)) =>
      WorkspaceSet(false, 0, seq(|names|, i requires 0 <= i < |names| => Named(config, identity, names[i], i)))
  }

  method ResolveWorkspacesForOutput(config: Config, identity: Identity) returns (result: WorkspaceSet)
    ensures result == WorkspacesOf(config, identity)
  {
    hide WorkspaceLayout, MatchingRule, DynamicMember, DynamicCount, KeptNames;
    var rule := MatchingOutputRule(config, identity);
    if rule.None? || rule.value.workspaces.None? {
      result := ResolveDynamic(config, identity, rule);
      return;
    }
    var workspaces: seq<ResolvedWorkspace> := [];
    match rule.value.workspaces.value
    case Count(count) =>
      for index := 0 to count
        invariant workspaces == seq(index, (i: nat) => Unnamed(config, identity, i))
      {
        var layout := ResolveWorkspaceLayout(config, identity, None, index);
        workspaces := workspaces + [ResolvedWorkspace(Decimal(index + 1), false, layout)];
      }
      result := WorkspaceSet(false, 0, workspaces);
    case Names(names) =>
      for index := 0 to |names|
        invariant workspaces == seq(index, i requires 0 <= i < index => Named(config, identity, names[i], i))
      {
        var layout := ResolveWorkspaceLayout(config, identity, Some(names[index]), index);
        workspaces := workspaces + [ResolvedWorkspace(names[index], true, layout)];
      }
      result := WorkspaceSet(false, 0, workspaces);
  }

  method ResolveDynamic(config: Config, identity: Identity, rule: Option<OutputRule>) returns (result: WorkspaceSet)
    requires rule == MatchingRule(config.outputs, identity)
    requires rule.Some? ==> rule.value.workspaces.None?
    ensures result == WorkspacesOf(config, identity)
  {
    var named := DynamicWorkspaceNames(config, identity);
    var sentinels := if config.emptyAbove then 2 else 1;
    var omitted := 0;
    if |named| > MAX_WORKSPACES - sentinels {
      omitted := |named| - (MAX_WORKSPACES - sentinels);
      named := named[..MAX_WORKSPACES - sentinels];
    }
    var minimum := if rule.Some? && rule.value.minWorkspaces > 1 then rule.value.minWorkspaces else 1;
    var count := if minimum > |named| + sentinels then minimum else |named| + sentinels;
    var workspaces := DynamicMembers(config, identity, named, count);
    result := WorkspaceSet(true, omitted, workspaces);
  }

  method AppendUnnamed(config: Config, identity: Identity, workspaces: seq<ResolvedWorkspace>)
    returns (more: seq<ResolvedWorkspace>)
    ensures more == workspaces + [Unnamed(config, identity, |workspaces|)]
  {
    var layout := ResolveWorkspaceLayout(config, identity, None, |workspaces|);
    more := workspaces + [ResolvedWorkspace(Decimal(|workspaces| + 1), false, layout)];
  }

  method AppendNamed(config: Config, identity: Identity, workspaces: seq<ResolvedWorkspace>, name: string)
    returns (more: seq<ResolvedWorkspace>)
    ensures more == workspaces + [Named(config, identity, name, |workspaces|)]
  {
    var layout := ResolveWorkspaceLayout(config, identity, Some(name), |workspaces|);
    more := workspaces + [ResolvedWorkspace(name, true, layout)];
  }

  /** The leading members of a dynamic output. */
  ghost predicate IsPrefix(config: Config, identity: Identity, workspaces: seq<ResolvedWorkspace>) {
    forall k :: 0 <= k < |workspaces| ==> workspaces[k] == DynamicMember(config, identity, k)
  }

  lemma PrefixGrows(config: Config, identity: Identity, workspaces: seq<ResolvedWorkspace>)
    requires IsPrefix(config, identity, workspaces)
    ensures var names, lead, n := KeptNames(config, identity), Sentinels(config) - 1, |workspaces|;
      if lead <= n < lead + |names|
      then IsPrefix(config, identity, workspaces + [Named(config, identity, names[n - lead], n)])
      else IsPrefix(config, identity, workspaces + [Unnamed(config, identity, n)])
  {
    hide Named, Unnamed, KeptNames;
  }

  method DynamicMembers(config: Config, identity: Identity, named: seq<string>, count: nat)
    returns (workspaces: seq<ResolvedWorkspace>)
    requires named == KeptNames(config, identity) && count == DynamicCount(config, identity)
    ensures workspaces == seq(count, (i: nat) => DynamicMember(config, identity, i))
  {
    assert count >= |named| + Sentinels(config);
    hide DynamicMember, KeptNames, DynamicCount;
    workspaces := [];
    if config.emptyAbove {
      PrefixGrows(config, identity, workspaces);
      workspaces := AppendUnnamed(config, identity, workspaces);
    }
    for i := 0 to |named|
      invariant |workspaces| == Sentinels(config) - 1 + i
      invariant IsPrefix(config, identity, workspaces)
    {
      PrefixGrows(config, identity, workspaces);
      workspaces := AppendNamed(config, identity, workspaces, named[i]);
    }
    while |workspaces| < count
      invariant Sentinels(config) - 1 + |named| <= |workspaces| <= count
      invariant IsPrefix(config, identity, workspaces)
    {
      PrefixGrows(config, identity, workspaces);
      workspaces := AppendUnnamed(config, identity, workspaces);
    }
  }
}
