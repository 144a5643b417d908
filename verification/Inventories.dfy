/**
 The shape of a resolved workspace set, and where every layout setting in it comes from
 (src/config/resolve.cpp).
 */
module Inventories {
  import opened Options
  import opened OutputNames
  import opened ConfigModel
  import opened Resolve
  import opened Change
  import opened WorkspaceRules

  // ---------------------------------------------------------------- dynamic outputs

  /** As many members as are needed or asked for, and never more than the limit; names beyond it are counted. */
  lemma DynamicSize(config: Config, identity: Identity)
    requires RuleFor(config.outputs, identity).workspaces.None?
    requires RuleFor(config.outputs, identity).minWorkspaces <= 64
    ensures var result, names := WorkspacesOf(config, identity), KeptNames(config, identity);
            var size, needed := |result.workspaces|, |names| + Sentinels(config);
            && result.dynamic
            && size <= 64 && size >= needed && size >= RuleFor(config.outputs, identity).minWorkspaces
            && (size == needed || size == RuleFor(config.outputs, identity).minWorkspaces)
            && names <= DynamicNames(config.workspaceRules, identity)
            && (result.omittedNamed == 0 || needed == 64)
            && |names| + result.omittedNamed == |DynamicNames(config.workspaceRules, identity)|
  {
    hide DynamicMember;
  }

  lemma DynamicAt(config: Config, identity: Identity, k: nat)
    requires RuleFor(config.outputs, identity).workspaces.None? && k < |WorkspacesOf(config, identity).workspaces|
    ensures var member, names := WorkspacesOf(config, identity).workspaces[k], KeptNames(config, identity);
            var lead := Sentinels(config) - 1;
            && (member.named <==> lead <= k < lead + |names|)
            && member.name == if member.named then names[k - lead] else Decimal(k + 1)
  {
    hide WorkspaceLayout, KeptNames, DynamicCount, Decimal, RuleFor;
    assert WorkspacesOf(config, identity).workspaces[k] == DynamicMember(config, identity, k);
  }

  lemma KeptNamesDiffer(config: Config, identity: Identity)
    ensures forall j, k :: 0 <= j < k < |KeptNames(config, identity)| ==>
      KeptNames(config, identity)[j] != KeptNames(config, identity)[k]
  {
    assert KeptNames(config, identity) <= DynamicNames(config.workspaceRules, identity);
  }

  lemma RoomForAll(config: Config, identity: Identity)
    requires RuleFor(config.outputs, identity).workspaces.None?
    ensures |WorkspacesOf(config, identity).workspaces| >= |KeptNames(config, identity)| + Sentinels(config)
  {
    hide DynamicMember, KeptNames;
  }

  /** Leading sentinel if configured, then the declared names, each once and in order, then empties. */
  lemma DynamicOrder(config: Config, identity: Identity)
    requires RuleFor(config.outputs, identity).workspaces.None?
    ensures var members, names := WorkspacesOf(config, identity).workspaces, KeptNames(config, identity);
            var lead := Sentinels(config) - 1;
            && |members| >= |names| + Sentinels(config)
            && (forall k :: 0 <= k < |members| ==> (members[k].named <==> lead <= k < lead + |names|))
            && (forall k :: 0 <= k < |names| ==> members[lead + k].name == names[k])
            && (forall k :: 0 <= k < |members| && !members[k].named ==> members[k].name == Decimal(k + 1))
            && (forall j, k :: 0 <= j < k < |names| ==> names[j] != names[k])
  {
    hide WorkspacesOf, KeptNames, Decimal, RuleFor;
    RoomForAll(config, identity);
    KeptNamesDiffer(config, identity);
    forall k | 0 <= k < |WorkspacesOf(config, identity).workspaces|
      ensures var member, names := WorkspacesOf(config, identity).workspaces[k], KeptNames(config, identity);
              var lead := Sentinels(config) - 1;
              && (member.named <==> lead <= k < lead + |names|)
              && member.name == if member.named then names[k - lead] else Decimal(k + 1)
    {
      DynamicAt(config, identity, k);
    }
  }

  /** The two ends of a dynamic output: there is always an empty workspace below, and above if configured. */
  lemma DynamicEnds(config: Config, identity: Identity)
    requires RuleFor(config.outputs, identity).workspaces.None?
    ensures var members := WorkspacesOf(config, identity).workspaces;
            && members != [] && !members[|members| - 1].named
            && (config.emptyAbove ==> |members| >= 2 && !members[0].named)
  {
    DynamicOrder(config, identity);
    hide WorkspacesOf, KeptNames;
  }

  /** Unnamed members are numbered by their position from one, so no two of them share a name. */
  lemma NumbersDiffer(config: Config, identity: Identity, j: nat, k: nat)
    requires var members := WorkspacesOf(config, identity).workspaces;
      j < k < |members| && !members[j].named && !members[k].named
    ensures var members := WorkspacesOf(config, identity).workspaces;
      ReadDecimal(members[j].name) == j + 1 && ReadDecimal(members[k].name) == k + 1
      && members[j].name != members[k].name
  {
    UnnamedName(config, identity, j);
    UnnamedName(config, identity, k);
    DecimalReads(j + 1);
    DecimalReads(k + 1);
    hide WorkspacesOf, Decimal;
  }

  lemma UnnamedName(config: Config, identity: Identity, k: nat)
    requires k < |WorkspacesOf(config, identity).workspaces|
    requires !WorkspacesOf(config, identity).workspaces[k].named
    ensures WorkspacesOf(config, identity).workspaces[k].name == Decimal(k + 1)
  {
    hide WorkspaceLayout, KeptNames, DynamicCount, Decimal, RuleFor;
  }

  // ---------------------------------------------------------------- layout settings

  lemma {:induction false} DerivedThroughout(config: Config, start: ResolvedLayout, all: seq<Overrides>)
    requires Derived(config.appearance, start)
    ensures Derived(config.appearance, ApplyAll(config, start, all))
  {
    if all == [] {
    } else {
      DerivedThroughout(config, start, all[..|all| - 1]);
    }
  }

  /** Bar gap, total gap and edge padding of every workspace follow its final gap. */
  lemma LayoutIsDerived(config: Config, identity: Identity, name: Option<string>, index: nat)
    ensures Derived(config.appearance, WorkspaceLayout(config, identity, name, index))
  {
    DerivedThroughout(config, OutputLayout(config, identity), AllOverrides(config, identity, name, index));
  }

  /** The last override that sets the gap, if any. */
  function LastGap(all: seq<Overrides>): Option<int> {
    if all == [] then None
    else if all[|all| - 1].gap.Some? then all[|all| - 1].gap
    else LastGap(all[..|all| - 1])
  }

  /** The last override that sets a key, if any. */
  function LastSetting(all: seq<Overrides>, key: LayoutKey): Option<LayoutValue> {
    if all == [] then None
    else if key in all[|all| - 1].settings then Some(all[|all| - 1].settings[key])
    else LastSetting(all[..|all| - 1], key)
  }

  lemma {:induction false} LastOverrideWins(config: Config, start: ResolvedLayout, all: seq<Overrides>, key: LayoutKey)
    ensures var end := ApplyAll(config, start, all);
            && end.gap == LastGap(all).GetOr(start.gap)
            && Lookup(end.settings, key)
               == (if LastSetting(all, key).Some? then LastSetting(all, key) else Lookup(start.settings, key))
            && end.direction == start.direction
  {
    if all == [] {
    } else {
      LastOverrideWins(config, start, all[..|all| - 1], key);
    }
  }

  lemma {:induction false} ScopedOverridesLast(a: seq<Overrides>, b: seq<Overrides>, key: LayoutKey)
    ensures LastGap(a + b) == if LastGap(b).Some? then LastGap(b) else LastGap(a)
    ensures LastSetting(a + b, key) == if LastSetting(b, key).Some? then LastSetting(b, key) else LastSetting(a, key)
  {
    if b == [] {
      assert a + b == a;
    } else {
      assert (a + b)[..|a + b| - 1] == a + b[..|b| - 1];
      ScopedOverridesLast(a, b[..|b| - 1], key);
    }
  }

  /** Where a setting comes from: output-scoped rules, then other rules, then the output, then [layout]. */
  lemma SettingPrecedence(config: Config, identity: Identity, name: Option<string>, index: nat, key: LayoutKey)
    ensures var layout := WorkspaceLayout(config, identity, name, index);
            var scoped := MatchingOverrides(config.workspaceRules, identity, name, index, true);
            var unscoped := MatchingOverrides(config.workspaceRules, identity, name, index, false);
            && layout.gap == LastGap(scoped).GetOr(LastGap(unscoped).GetOr(config.layout.gap))
            && Lookup(layout.settings, key) ==
               (if LastSetting(scoped, key).Some? then LastSetting(scoped, key)
                else if LastSetting(unscoped, key).Some? then LastSetting(unscoped, key)
                else if key == DefaultExtentFraction && RuleFor(config.outputs, identity).extentFraction.Some?
                then RuleFor(config.outputs, identity).extentFraction
                else Lookup(config.layout.settings, key))
  {
    var unscoped := MatchingOverrides(config.workspaceRules, identity, name, index, false);
    var scoped := MatchingOverrides(config.workspaceRules, identity, name, index, true);
    LastOverrideWins(config, OutputLayout(config, identity), unscoped + scoped, key);
    ScopedOverridesLast(unscoped, scoped, key);
  }

  // ---------------------------------------------------------------- two names for one output

  function Letters(n: nat): (letters: string)
    ensures |letters| == n
  {
    seq(n, _ => 'w')
  }

  function RuleNamed(n: nat, output: string): WorkspaceRule {
    WorkspaceRule(Letters(n), output, None, Overrides(None, map[]))
  }

  /** `n` differently named rules for one output. */
  function ScopedRules(n: nat, output: string): (rules: seq<WorkspaceRule>)
    ensures |rules| == n
    ensures forall i :: 0 <= i < n ==> rules[i] == RuleNamed(i + 1, output)
  {
    seq(n, i requires 0 <= i => RuleNamed(i + 1, output))
  }

  /** As many names as fit under one name of an output, and one more under another. */
  function TwoNameRules(n: nat, a: string, b: string): seq<WorkspaceRule> {
    ScopedRules(n, a) + [RuleNamed(n + 1, b)]
  }

  lemma {:induction false} AllDistinctNames(rules: seq<WorkspaceRule>, identity: Identity)
    requires forall rule <- rules :: DeclaresName(rule, identity)
    requires forall i, j :: 0 <= i < j < |rules| ==> rules[i].name != rules[j].name
    ensures |DynamicNames(rules, identity)| == |rules|
  {
    if rules == [] {
    } else {
      var front := rules[..|rules| - 1];
      AllDistinctNames(front, identity);
      assert forall rule <- front :: rule.name != rules[|front|].name;
    }
  }

  lemma {:induction false} NoContribution(rules: seq<WorkspaceRule>, output: string)
    requires forall rule <- rules :: !Contributes(rule, output)
    ensures ContributedNames(rules, output) == []
  {
    if rules == [] {
    } else {
      NoContribution(rules[..|rules| - 1], output);
    }
  }

  lemma TwoNameLimits(n: nat, a: string, b: string)
    requires n > 0 && a != "" && b != "" && !NamesEqual(a, b)
    ensures |ContributedNames(TwoNameRules(n, a, b), "")| <= n
    ensures |ContributedNames(TwoNameRules(n, a, b), a)| <= n
    ensures |ContributedNames(TwoNameRules(n, a, b), b)| <= n
  {
    var rules, front := TwoNameRules(n, a, b), ScopedRules(n, a);
    assert rules[..|rules| - 1] == front;
    NoContribution(rules, "");
    NoContribution(front, b);
  }

  lemma RuleOfTwoNames(n: nat, a: string, b: string, i: nat)
    requires i <= n
    ensures var rules := TwoNameRules(n, a, b);
      |rules| == n + 1 && rules[i] == RuleNamed(i + 1, if i < n then a else b) && |rules[i].name| == i + 1
  {
  }

  lemma TwoNamesAreAccepted(outputs: seq<OutputRule>, emptyAbove: bool, a: string, b: string)
    requires a != "" && b != "" && !NamesEqual(a, b)
    requires IsDynamicSection(outputs, a) && IsDynamicSection(outputs, b)
    ensures !Reported(outputs, emptyAbove, TwoNameRules(NamedCapacity(emptyAbove), a, b))
  {
    var n := NamedCapacity(emptyAbove);
    var rules := TwoNameRules(n, a, b);
    TwoNameLimits(n, a, b);
    forall i | 0 <= i < |rules|
      ensures OneSelector(rules[i]) && TargetExists(outputs, rules[i]) && !Repeats(rules, i)
      ensures !ScopedOverflow(outputs, rules, n, rules[i])
    {
      RuleOfTwoNames(n, a, b, i);
      forall j | 0 <= j < i ensures !SameSelector(rules[j], rules[i]) {
        RuleOfTwoNames(n, a, b, j);
      }
    }
    hide TwoNameRules, ContributedNames, Repeats, TargetExists, ScopedOverflow;
  }

  lemma TwoNamesDeclare(n: nat, identity: Identity, a: string, b: string)
    requires a != "" && b != ""
    requires !OutputNameMatch(identity, a).NoMatch? && !OutputNameMatch(identity, b).NoMatch?
    ensures |DynamicNames(TwoNameRules(n, a, b), identity)| == n + 1
  {
    var rules := TwoNameRules(n, a, b);
    forall i | 0 <= i < |rules| ensures DeclaresName(rules[i], identity) && |rules[i].name| == i + 1 {
      RuleOfTwoNames(n, a, b, i);
    }
    forall i, j | 0 <= i < j < |rules| ensures rules[i].name != rules[j].name {
      assert |rules[i].name| == i + 1 && |rules[j].name| == j + 1;
    }
    AllDistinctNames(rules, identity);
  }

  /** With two names for one dynamic output, rules that read without an error can still lose a name. */
  lemma TwoNamesCanOmit(config: Config, identity: Identity, a: string, b: string)
    requires a != "" && b != "" && !NamesEqual(a, b)
    requires !OutputNameMatch(identity, a).NoMatch? && !OutputNameMatch(identity, b).NoMatch?
    requires IsDynamicSection(config.outputs, a) && IsDynamicSection(config.outputs, b)
    requires RuleFor(config.outputs, identity).workspaces.None?
    requires config.workspaceRules == TwoNameRules(NamedCapacity(config.emptyAbove), a, b)
    ensures !Reported(config.outputs, config.emptyAbove, config.workspaceRules)
    ensures WorkspacesOf(config, identity).omittedNamed == 1
  {
    var n := NamedCapacity(config.emptyAbove);
    TwoNamesAreAccepted(config.outputs, config.emptyAbove, a, b);
    TwoNamesDeclare(n, identity, a, b);
    assert |KeptNames(config, identity)| == n;
    hide TwoNameRules, Reported, KeptNames, DynamicNames, DynamicCount, DynamicMember;
  }

  // ---------------------------------------------------------------- exactly which outputs can lose a name

  predicate HasDescriptor(identity: Identity) {
    identity.make != "" || identity.model != "" || identity.serial != ""
  }

  /** The output answers to its connector and to a descriptor that is not a spelling of it. */
  predicate HasTwoNames(identity: Identity) {
    identity.connector != "" && HasDescriptor(identity) && !NamesEqual(OutputDescriptor(identity), identity.connector)
  }

  /** No configuration that loads without an error makes this output lose a declared name. */
  ghost predicate NeverOmits(identity: Identity, emptyAbove: bool) {
    forall config: Config |
      && config.emptyAbove == emptyAbove && DistinctNames(config.outputs)
      && !Reported(config.outputs, config.emptyAbove, config.workspaceRules) ::
      WorkspacesOf(config, identity).omittedNamed == 0
  }

  function OnlyName(identity: Identity): string {
    if identity.connector != "" then identity.connector else OutputDescriptor(identity)
  }

  lemma MatchedNameIsIt(identity: Identity, name: string)
    requires !HasTwoNames(identity) && !OutputNameMatch(identity, name).NoMatch?
    ensures NamesEqual(name, OnlyName(identity))
  {
    DescriptorSpelling(identity, name);
  }

  /** A configuration without sections, holding only these rules. */
  function OnlyRules(emptyAbove: bool, rules: seq<WorkspaceRule>): Config {
    Config([], [], [], rules, emptyAbove, Layout(0, map[]),
           Appearance(0, 0, TabBar(0, 0, false, false, 0, 0), 0, BlurLook(false, 0), 0), 0,
           Animations(false, 0, 0, 0, 0), false, 0, 0, 0, 0, 0, [])
  }

  /** An output can lose a name to an accepted configuration exactly when it answers to two different names. */
  lemma OmitsExactly(identity: Identity, emptyAbove: bool)
    ensures NeverOmits(identity, emptyAbove) <==> !HasTwoNames(identity)
  {
    if HasTwoNames(identity) {
      var a, b := identity.connector, OutputDescriptor(identity);
      DescriptorSpelling(identity, b);
      var config := OnlyRules(emptyAbove, TwoNameRules(NamedCapacity(emptyAbove), a, b));
      TwoNamesCanOmit(config, identity, a, b);
      assert DistinctNames(config.outputs);
    } else {
      forall config: Config |
        && config.emptyAbove == emptyAbove && DistinctNames(config.outputs)
        && !Reported(config.outputs, config.emptyAbove, config.workspaceRules)
        ensures WorkspacesOf(config, identity).omittedNamed == 0
      {
        forall name | !OutputNameMatch(identity, name).NoMatch? ensures NamesEqual(name, OnlyName(identity)) {
          MatchedNameIsIt(identity, name);
        }
        NoNameIsOmitted(config, identity, OnlyName(identity));
      }
    }
    hide Reported, WorkspacesOf, OutputNameMatch, TwoNameRules, OnlyName;
  }

  // ---------------------------------------------------------------- accepted targets and rules that apply

  /** A scoped rule is checked against the section it names but applied on the section that governs the output. */
  lemma AppliesExactly(config: Config, identity: Identity, rule: WorkspaceRule)
    requires OneSelector(rule) && (rule.index.Some? ==> rule.index.value >= 1)
    requires rule.output != "" && !OutputNameMatch(identity, rule.output).NoMatch?
    ensures var members := WorkspacesOf(config, identity).workspaces;
      AppliesSomewhere(rule, identity, members) <==>
        match RuleFor(config.outputs, identity).workspaces
        case Some(inventory) => RuleMatchesInventory(rule, inventory)
        case None =>
          if rule.index.Some? then rule.index.value <= |members| else rule.name in KeptNames(config, identity)
  {
    var members := WorkspacesOf(config, identity).workspaces;
    if rule.index.Some? {
      IndexApplies(rule, identity, members);
      assert RuleFor(config.outputs, identity).workspaces.Some? ==>
        |members| == InventorySize(RuleFor(config.outputs, identity).workspaces.value);
    } else {
      NameApplies(rule, identity, members);
      hide AppliesSomewhere;
      match RuleFor(config.outputs, identity).workspaces
      case None => NamedMembers(config, identity, rule.name);
      case Some(_) => FixedMembers(config, identity, rule.name);
    }
  }

  lemma IndexApplies(rule: WorkspaceRule, identity: Identity, members: seq<ResolvedWorkspace>)
    requires rule.output != "" && !OutputNameMatch(identity, rule.output).NoMatch?
    requires rule.index.Some? && rule.index.value >= 1
    ensures AppliesSomewhere(rule, identity, members) <==> rule.index.value <= |members|
  {
    if rule.index.value <= |members| {
      assert AppliesToMember(rule, identity, members, rule.index.value - 1);
    }
  }

  predicate HasMember(members: seq<ResolvedWorkspace>, name: string) {
    exists k :: 0 <= k < |members| && members[k].named && members[k].name == name
  }

  lemma NameApplies(rule: WorkspaceRule, identity: Identity, members: seq<ResolvedWorkspace>)
    requires rule.output != "" && !OutputNameMatch(identity, rule.output).NoMatch?
    requires rule.index.None?
    ensures AppliesSomewhere(rule, identity, members) <==> HasMember(members, rule.name)
  {
    if k :| 0 <= k < |members| && members[k].named && members[k].name == rule.name {
      assert AppliesToMember(rule, identity, members, k);
    }
    if k :| 0 <= k < |members| && AppliesToMember(rule, identity, members, k) {
      assert members[k].named && members[k].name == rule.name;
    }
  }

  lemma NamedMembers(config: Config, identity: Identity, name: string)
    requires RuleFor(config.outputs, identity).workspaces.None?
    ensures HasMember(WorkspacesOf(config, identity).workspaces, name) <==> name in KeptNames(config, identity)
  {
    hide WorkspacesOf, KeptNames, RuleFor, Decimal;
    var members, names := WorkspacesOf(config, identity).workspaces, KeptNames(config, identity);
    RoomForAll(config, identity);
    if i :| 0 <= i < |names| && names[i] == name {
      DynamicAt(config, identity, Sentinels(config) - 1 + i);
    }
    if k :| 0 <= k < |members| && members[k].named && members[k].name == name {
      DynamicAt(config, identity, k);
    }
  }

  lemma FixedMembers(config: Config, identity: Identity, name: string)
    requires RuleFor(config.outputs, identity).workspaces.Some?
    ensures var inventory := RuleFor(config.outputs, identity).workspaces.value;
      HasMember(WorkspacesOf(config, identity).workspaces, name) <==> inventory.Names? && name in inventory.names
  {
    var inventory, members := RuleFor(config.outputs, identity).workspaces.value,
                              WorkspacesOf(config, identity).workspaces;
    if inventory.Names? {
      assert forall k :: 0 <= k < |members| ==> members[k] == Named(config, identity, inventory.names[k], k);
    } else {
      assert forall k: nat :: k < |members| ==> members[k] == Unnamed(config, identity, k);
    }
  }

  /** When the section a rule names governs the output, acceptance on a fixed inventory means it applies. */
  lemma TargetMeansMember(config: Config, identity: Identity, rule: WorkspaceRule)
    requires OneSelector(rule) && (rule.index.Some? ==> rule.index.value >= 1)
    requires rule.output != "" && !OutputNameMatch(identity, rule.output).NoMatch?
    requires MatchingRule(config.outputs, identity) == FindByName(config.outputs, rule.output)
    requires InventoryOf(config.outputs, rule.output).Some?
    ensures TargetExists(config.outputs, rule)
        <==> AppliesSomewhere(rule, identity, WorkspacesOf(config, identity).workspaces)
  {
    AppliesExactly(config, identity, rule);
    hide AppliesSomewhere, WorkspacesOf;
  }

  /** An output with one name is governed by the section of any of its spellings. */
  lemma Governed(outputs: seq<OutputRule>, identity: Identity, name: string)
    requires DistinctNames(outputs) && !HasTwoNames(identity) && !OutputNameMatch(identity, name).NoMatch?
    ensures MatchingRule(outputs, identity) == FindByName(outputs, name)
  {
    var found, governing := FindByName(outputs, name), MatchingRule(outputs, identity);
    MatchedNameIsIt(identity, name);
    if found.Some? {
      MatchRespectsNames(identity, found.value.name, name);
    }
    if governing.Some? {
      MatchedNameIsIt(identity, governing.value.name);
    }
    hide OnlyName;
    if found.Some? && governing.Some? {
      RuleByName(outputs, found.value, governing.value);
    }
  }

  /** On fixed inventories, a rule for this output is accepted exactly when it applies, whatever is configured. */
  ghost predicate TargetsAgree(identity: Identity) {
    forall config: Config, rule: WorkspaceRule |
      && DistinctNames(config.outputs) && OneSelector(rule) && (rule.index.Some? ==> rule.index.value >= 1)
      && rule.output != "" && !OutputNameMatch(identity, rule.output).NoMatch?
      && InventoryOf(config.outputs, rule.output).Some? ::
      TargetExists(config.outputs, rule)
      <==> AppliesSomewhere(rule, identity, WorkspacesOf(config, identity).workspaces)
  }

  function Counted(name: string, count: nat): OutputRule {
    DEFAULT_OUTPUT.(name := name, workspaces := Some(Count(count)))
  }

  function IndexRule(output: string, index: nat): WorkspaceRule {
    WorkspaceRule("", output, Some(index), Overrides(None, map[]))
  }

  /** `m` workspaces under the connector's name, `n` under the descriptor's, and a rule under the connector's. */
  function TwoSections(identity: Identity, m: nat, n: nat, index: nat): Config {
    OnlyRules(false, [IndexRule(identity.connector, index)])
    .(outputs := [Counted(identity.connector, m), Counted(OutputDescriptor(identity), n)])
  }

  /** The first section decides what is accepted, the second what applies. */
  lemma TwoSectionsDisagree(identity: Identity, m: nat, n: nat, index: nat)
    requires HasTwoNames(identity) && index >= 1
    ensures var config, rule := TwoSections(identity, m, n, index), IndexRule(identity.connector, index);
      && DistinctNames(config.outputs) && !OutputNameMatch(identity, rule.output).NoMatch?
      && InventoryOf(config.outputs, rule.output) == Some(Count(m))
      && (TargetExists(config.outputs, rule) <==> index <= m)
      && (AppliesSomewhere(rule, identity, WorkspacesOf(config, identity).workspaces) <==> index <= n)
  {
    var config, rule := TwoSections(identity, m, n, index), IndexRule(identity.connector, index);
    var a, b := config.outputs[0], config.outputs[1];
    DescriptorSpelling(identity, b.name);
    DescriptorSpelling(identity, a.name);
    assert config.outputs[1..] == [b] && FindByName(config.outputs, rule.output) == Some(a);
    assert MatchingRule(config.outputs, identity) == Some(b);
    AppliesExactly(config, identity, rule);
  }

  /** Acceptance and application agree exactly on the outputs that do not answer to two different names. */
  lemma TargetsAgreeExactly(identity: Identity)
    ensures TargetsAgree(identity) <==> !HasTwoNames(identity)
  {
    if HasTwoNames(identity) {
      TwoSectionsDisagree(identity, 1, 2, 2);
      var config, rule := TwoSections(identity, 1, 2, 2), IndexRule(identity.connector, 2);
      assert OneSelector(rule);
    } else {
      forall config: Config, rule: WorkspaceRule |
        && DistinctNames(config.outputs) && OneSelector(rule) && (rule.index.Some? ==> rule.index.value >= 1)
        && rule.output != "" && !OutputNameMatch(identity, rule.output).NoMatch?
        && InventoryOf(config.outputs, rule.output).Some?
        ensures TargetExists(config.outputs, rule)
            <==> AppliesSomewhere(rule, identity, WorkspacesOf(config, identity).workspaces)
      {
        Governed(config.outputs, identity, rule.output);
        TargetMeansMember(config, identity, rule);
      }
    }
    hide TargetExists, AppliesSomewhere, WorkspacesOf, OutputNameMatch, TwoSections, HasTwoNames;
  }

  /** On an output with one name an accepted rule always applies, unless it waits for a workspace not yet there. */
  lemma AcceptedRuleApplies(config: Config, identity: Identity, rule: WorkspaceRule)
    requires DistinctNames(config.outputs) && !HasTwoNames(identity)
    requires !Reported(config.outputs, config.emptyAbove, config.workspaceRules)
    requires rule in config.workspaceRules && (rule.index.Some? ==> rule.index.value >= 1)
    requires rule.output != "" && !OutputNameMatch(identity, rule.output).NoMatch?
    ensures var resolved := WorkspacesOf(config, identity);
      AppliesSomewhere(rule, identity, resolved.workspaces) <==>
        (rule.index.Some? && resolved.dynamic ==> rule.index.value <= |resolved.workspaces|)
  {
    assert OneSelector(rule) && TargetExists(config.outputs, rule) by {
      assert !Untargeted(config.outputs, rule);
    }
    Governed(config.outputs, identity, rule.output);
    AppliesExactly(config, identity, rule);
    if RuleFor(config.outputs, identity).workspaces.None? && rule.index.None? {
      assert DeclaresName(rule, identity);
      forall name | !OutputNameMatch(identity, name).NoMatch? ensures NamesEqual(name, OnlyName(identity)) {
        MatchedNameIsIt(identity, name);
      }
      NoNameIsOmitted(config, identity, OnlyName(identity));
      assert KeptNames(config, identity) == DynamicNames(config.workspaceRules, identity);
    }
  }

  /** The configuration reads without an error and holds this rule for the output. */
  ghost predicate AcceptedFor(config: Config, identity: Identity, rule: WorkspaceRule) {
    && DistinctNames(config.outputs) && !Reported(config.outputs, config.emptyAbove, config.workspaceRules)
    && rule in config.workspaceRules && (rule.index.Some? ==> rule.index.value >= 1)
    && rule.output != "" && !OutputNameMatch(identity, rule.output).NoMatch?
  }

  /** It applies to some member, unless it is an index beyond the current size of a dynamic output. */
  predicate AppliesInTime(config: Config, identity: Identity, rule: WorkspaceRule) {
    var resolved := WorkspacesOf(config, identity);
    || AppliesSomewhere(rule, identity, resolved.workspaces)
    || (rule.index.Some? && resolved.dynamic && rule.index.value > |resolved.workspaces|)
  }

  ghost predicate AcceptedRulesApply(identity: Identity) {
    forall config: Config, rule: WorkspaceRule | AcceptedFor(config, identity, rule) ::
      AppliesInTime(config, identity, rule)
  }

  lemma TwoSectionsAreAccepted(identity: Identity, m: nat, n: nat, index: nat)
    requires HasTwoNames(identity) && 1 <= index <= m
    ensures AcceptedFor(TwoSections(identity, m, n, index), identity, IndexRule(identity.connector, index))
  {
    var config, rule := TwoSections(identity, m, n, index), IndexRule(identity.connector, index);
    TwoSectionsDisagree(identity, m, n, index);
    NoContribution(config.workspaceRules, "");
    hide TargetExists, WorkspacesOf, OutputNameMatch, HasTwoNames;
    assert config.workspaceRules == [rule];
    forall other <- config.workspaceRules ensures OneSelector(other) && !Untargeted(config.outputs, other) {
    }
  }

  lemma TwoSectionsAreFixed(identity: Identity, m: nat, n: nat, index: nat)
    requires HasTwoNames(identity)
    ensures !WorkspacesOf(TwoSections(identity, m, n, index), identity).dynamic
  {
    var config := TwoSections(identity, m, n, index);
    var a, b := config.outputs[0], config.outputs[1];
    DescriptorSpelling(identity, b.name);
    DescriptorSpelling(identity, a.name);
    assert config.outputs[1..] == [b];
    assert MatchingRule(config.outputs, identity) == Some(b);
  }

  /** Accepted rules apply exactly on the outputs that do not answer to two different names. */
  lemma AcceptedRulesApplyExactly(identity: Identity)
    ensures AcceptedRulesApply(identity) <==> !HasTwoNames(identity)
  {
    if HasTwoNames(identity) {
      TwoSectionsDisagree(identity, 2, 1, 2);
      TwoSectionsAreAccepted(identity, 2, 1, 2);
      var config, rule := TwoSections(identity, 2, 1, 2), IndexRule(identity.connector, 2);
      assert !AppliesInTime(config, identity, rule) by {
        TwoSectionsAreFixed(identity, 2, 1, 2);
      }
    } else {
      forall config: Config, rule: WorkspaceRule | AcceptedFor(config, identity, rule)
        ensures AppliesInTime(config, identity, rule)
      {
        AcceptedRuleApplies(config, identity, rule);
      }
    }
    hide AcceptedFor, AppliesInTime, TwoSections, HasTwoNames;
  }
}
