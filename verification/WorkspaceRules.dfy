/**
 Reading [[workspace]] rules (src/config/fields_layout.cpp) and how the limits it enforces agree
 with the workspaces an output gets at run time (src/config/resolve.cpp).
 */
module WorkspaceRules {
  import opened Options
  import opened OutputNames
  import opened ConfigModel
  import opened Resolve
  import opened Change

  // ---------------------------------------------------------------- targets

  function InventorySize(inventory: Inventory): nat {
    match inventory
    case Count(count) => count
    case Names(names) => |names|
  }

  predicate RuleMatchesInventory(rule: WorkspaceRule, inventory: Inventory) {
    if rule.index.Some? then 0 <= rule.index.value <= InventorySize(inventory)
    else inventory.Names? && rule.name in inventory.names
  }

  predicate DynamicRuleMatches(rule: WorkspaceRule) {
    if rule.index.Some? then 1 <= rule.index.value <= MAX_WORKSPACES else rule.name != ""
  }

  function InventoryOf(outputs: seq<OutputRule>, name: string): Option<Inventory> {
    var rule := FindByName(outputs, name);
    if rule.Some? then rule.value.workspaces else None
  }

  predicate TargetExists(outputs: seq<OutputRule>, rule: WorkspaceRule) {
    if rule.output != "" then
      var inventory := InventoryOf(outputs, rule.output);
      if inventory.Some? then RuleMatchesInventory(rule, inventory.value) else DynamicRuleMatches(rule)
    else
      || DynamicRuleMatches(rule)
      || exists output <- outputs ::
           var inventory := InventoryOf(outputs, output.name);
           inventory.Some? && RuleMatchesInventory(rule, inventory.value)
  }

  /** What a fixed inventory has: so many places, or the names it gives. */
  predicate HasPlace(inventory: Inventory, rule: WorkspaceRule) {
    match (inventory, rule.index)
    case (Count(count), Some(position)) => 0 <= position <= count
    case (Names(names), Some(position)) => 0 <= position <= |names|
    case (Count(_), None) => false
    case (Names(names), None) => exists i :: 0 <= i < |names| && names[i] == rule.name
  }

  /** Up to 64 members may come to be on a dynamic output, and any name. */
  predicate MayComeToBe(rule: WorkspaceRule) {
    if rule.index.Some? then 1 <= rule.index.value <= 64 else rule.name != ""
  }

  /** A target exists on the section the rule names, or for a rule for all outputs on a dynamic one or some section. */
  lemma TargetExactly(outputs: seq<OutputRule>, rule: WorkspaceRule)
    ensures rule.output != "" && InventoryOf(outputs, rule.output).None? ==>
      (TargetExists(outputs, rule) <==> MayComeToBe(rule))
    ensures rule.output != "" && InventoryOf(outputs, rule.output).Some? ==>
      (TargetExists(outputs, rule) <==> HasPlace(InventoryOf(outputs, rule.output).value, rule))
    ensures rule.output == "" ==>
      (TargetExists(outputs, rule) <==>
         || MayComeToBe(rule)
         || exists output <- outputs :: InventoryOf(outputs, output.name).Some?
                                        && HasPlace(InventoryOf(outputs, output.name).value, rule))
  {
    forall inventory ensures RuleMatchesInventory(rule, inventory) <==> HasPlace(inventory, rule) {
    }
    hide RuleMatchesInventory, HasPlace, InventoryOf;
  }

  predicate OneSelector(rule: WorkspaceRule) {
    (rule.name != "") != rule.index.Some?
  }

  predicate SameSelector(left: WorkspaceRule, right: WorkspaceRule) {
    && NamesEqual(left.output, right.output)
    && left.index.Some? == right.index.Some?
    && (if left.index.Some? then left.index == right.index else left.name == right.name)
  }

  // ---------------------------------------------------------------- limits

  /** Whether a rule declares a name that a dynamic output of this name would carry. */
  predicate Contributes(rule: WorkspaceRule, output: string) {
    && rule.name != "" && rule.index.None?
    && (rule.output == "" || (output != "" && NamesEqual(rule.output, output)))
  }

  function ContributedNames(rules: seq<WorkspaceRule>, output: string): (names: seq<string>)
    ensures |names| <= |rules|
  {
    if rules == [] then []
    else
      var last, earlier := rules[|rules| - 1], ContributedNames(rules[..|rules| - 1], output);
      if Contributes(last, output) && last.name !in earlier then earlier + [last.name] else earlier
  }

  lemma {:induction false} ContributedNamesGrow(rules: seq<WorkspaceRule>, output: string, i: nat)
    requires i <= |rules|
    ensures |ContributedNames(rules[..i], output)| <= |ContributedNames(rules, output)|
    decreases |rules| - i
  {
    if i == |rules| {
      assert rules[..i] == rules;
    } else {
      assert rules[..i + 1][..i] == rules[..i];
      ContributedNamesGrow(rules, output, i + 1);
    }
  }

  function NamedCapacity(emptyAbove: bool): nat {
    MAX_WORKSPACES - if emptyAbove then 2 else 1
  }

  method ReportDynamicNameOverflow(rules: seq<WorkspaceRule>, output: string, namedCapacity: nat)
    returns (overflow: bool)
    ensures overflow <==> |ContributedNames(rules, output)| > namedCapacity
  {
    var names: seq<string> := [];
    for i := 0 to |rules|
      invariant names == ContributedNames(rules[..i], output)
      invariant |names| <= namedCapacity
    {
      assert rules[..i + 1][..i] == rules[..i];
      var rule := rules[i];
      if rule.name == "" || rule.index.Some? {
        continue;
      }
      var sameOutput := OutputNamesEqual(rule.output, output);
      var applies := if output == "" then rule.output == "" else rule.output == "" || sameOutput;
      if !applies || rule.name in names {
        continue;
      }
      names := names + [rule.name];
      if |names| <= namedCapacity {
        continue;
      }
      ContributedNamesGrow(rules, output, i + 1);
      return true;
    }
    assert rules[..|rules|] == rules;
    return false;
  }

  predicate IsDynamicSection(outputs: seq<OutputRule>, output: string) {
    InventoryOf(outputs, output).None?
  }

  predicate ScopedOverflow(outputs: seq<OutputRule>, rules: seq<WorkspaceRule>, capacity: nat, rule: WorkspaceRule) {
    && rule.name != "" && rule.output != "" && IsDynamicSection(outputs, rule.output)
    && |ContributedNames(rules, rule.output)| > capacity
  }

  /** Whether reading the rules reports an error, which rejects the whole configuration. */
  ghost predicate Reported(outputs: seq<OutputRule>, emptyAbove: bool, rules: seq<WorkspaceRule>) {
    var capacity := NamedCapacity(emptyAbove);
    || (exists rule <- rules :: !OneSelector(rule))
    || (exists i :: 0 <= i < |rules| && Repeats(rules, i))
    || (exists rule <- rules :: Untargeted(outputs, rule))
    || |ContributedNames(rules, "")| > capacity
    || exists rule <- rules :: ScopedOverflow(outputs, rules, capacity, rule)
  }

  // ---------------------------------------------------------------- reading

  /** One element of the array; reading the keys of a table may itself report errors. */
  datatype Entry = NotATable | RuleTable(rule: WorkspaceRule, keyErrors: bool)

  datatype WorkspaceNode = NoNode | NotAnArray | Entries(entries: seq<Entry>)

  function Tables(entries: seq<Entry>): seq<WorkspaceRule> {
    if entries == [] then []
    else
      var rest, last := Tables(entries[..|entries| - 1]), entries[|entries| - 1];
      if last.RuleTable? then rest + [last.rule] else rest
  }

  // ---------------------------------------------------------------- what reads without an error

  lemma {:induction false} SameSection(outputs: seq<OutputRule>, left: string, right: string)
    requires NamesEqual(left, right)
    ensures FindByName(outputs, left) == FindByName(outputs, right)
  {
    if outputs == [] {
    } else {
      SameSection(outputs[1..], left, right);
    }
  }

  lemma {:induction false} SameContributors(rules: seq<WorkspaceRule>, left: string, right: string)
    requires forall rule <- rules :: Contributes(rule, left) <==> Contributes(rule, right)
    ensures ContributedNames(rules, left) == ContributedNames(rules, right)
  {
    if rules == [] {
    } else {
      SameContributors(rules[..|rules| - 1], left, right);
      assert rules[|rules| - 1] in rules;
    }
  }

  /** The names an output gets: those of rules without an index that are for all outputs or for its name, each once. */
  lemma {:induction false} ContributedExactly(rules: seq<WorkspaceRule>, output: string, name: string)
    ensures var names := ContributedNames(rules, output);
      && (forall i, j :: 0 <= i < j < |names| ==> names[i] != names[j])
      && (name in names <==>
            exists i :: 0 <= i < |rules| && rules[i].name == name && GivesName(rules[i], output))
  {
    if rules == [] {
    } else {
      var front, last := rules[..|rules| - 1], rules[|rules| - 1];
      ContributedExactly(front, output, name);
      assert Contributes(last, output) == GivesName(last, output);
      hide Contributes, GivesName;
    }
  }

  predicate GivesName(rule: WorkspaceRule, output: string) {
    rule.name != "" && rule.index == None && (rule.output == "" || (output != "" && NamesEqual(rule.output, output)))
  }

  /** No output would get more names than fit it, neither one without a section nor one with a dynamic section. */
  ghost predicate AllFit(outputs: seq<OutputRule>, emptyAbove: bool, rules: seq<WorkspaceRule>) {
    var capacity := if emptyAbove then 62 else 63;
    forall output :: output == "" || IsDynamicSection(outputs, output) ==>
      |ContributedNames(rules, output)| <= capacity
  }

  /** Checking the outputs that rules name is enough: nothing is reported exactly when every output's names fit. */
  lemma ReadsCleanExactly(outputs: seq<OutputRule>, emptyAbove: bool, rules: seq<WorkspaceRule>)
    ensures !Reported(outputs, emptyAbove, rules) <==>
      && (forall rule <- rules :: (rule.name != "") != rule.index.Some?)
      && (forall i, j :: 0 <= i < j < |rules| ==> !SameSelector(rules[i], rules[j]))
      && (forall rule <- rules :: TargetExists(outputs, rule))
      && AllFit(outputs, emptyAbove, rules)
  {
    var capacity := NamedCapacity(emptyAbove);
    if !Reported(outputs, emptyAbove, rules) {
      forall output | output == "" || IsDynamicSection(outputs, output)
        ensures |ContributedNames(rules, output)| <= capacity
      {
        if scoped :| scoped in rules && Contributes(scoped, output) && scoped.output != "" {
          SameSection(outputs, scoped.output, output);
          SameContributors(rules, scoped.output, output);
          assert !ScopedOverflow(outputs, rules, capacity, scoped);
        } else {
          SameContributors(rules, output, "");
        }
      }
      forall i, j | 0 <= i < j < |rules| ensures !SameSelector(rules[i], rules[j]) {
        assert !Repeats(rules, j);
      }
      forall rule <- rules ensures TargetExists(outputs, rule) {
        assert !Untargeted(outputs, rule);
      }
    }
    hide ContributedNames, TargetExists, SameSelector, IsDynamicSection;
  }

  lemma OneTable(entry: Entry)
    ensures Tables([entry]) == match entry
                               case NotATable => []
                               case RuleTable(rule, _) => [rule]
    ensures Unreadable(entry) <==> entry == NotATable || entry.keyErrors
  {
    assert [entry][..0] == [];
  }

  /** Every table becomes a rule, in order, even if some of its keys cannot be read. */
  lemma {:induction false} TablesConcat(a: seq<Entry>, b: seq<Entry>)
    ensures Tables(a + b) == Tables(a) + Tables(b)
  {
    if b == [] {
      assert a + b == a;
    } else {
      assert (a + b)[..|a + b| - 1] == a + b[..|b| - 1];
      TablesConcat(a, b[..|b| - 1]);
    }
  }

  predicate Unreadable(entry: Entry) {
    entry.NotATable? || entry.keyErrors
  }

  method ReadWorkspaces(loaded: Config, node: WorkspaceNode) returns (result: Config, errors: bool)
    ensures match node
      case NoNode => result == loaded && !errors
      case NotAnArray => result == loaded && errors
      case Entries(entries) =>
        && result == loaded.(workspaceRules := loaded.workspaceRules + Tables(entries))
        && (errors <==> || (exists entry <- entries :: Unreadable(entry))
                        || Reported(loaded.outputs, loaded.emptyAbove, Tables(entries)))
  {
    match node
    case NoNode => return loaded, false;
    case NotAnArray => return loaded, true;
    case Entries(entries) =>
      var rules, entryErrors := ReadEntries(entries);
      var selectorErrors := CheckSelectors(loaded.outputs, rules);
      var namedCapacity := MAX_WORKSPACES - if loaded.emptyAbove then 2 else 1;
      var overflow := ReportDynamicNameOverflow(rules, "", namedCapacity);
      if !overflow {
        overflow := CheckScopedNames(loaded.outputs, rules, namedCapacity);
      }
      errors := entryErrors || selectorErrors || overflow;
      result := loaded.(workspaceRules := loaded.workspaceRules + rules);
  }

  method ReadEntries(entries: seq<Entry>) returns (rules: seq<WorkspaceRule>, errors: bool)
    ensures rules == Tables(entries)
    ensures errors <==> || (exists entry <- entries :: Unreadable(entry))
                        || exists rule <- rules :: !OneSelector(rule)
  {
    rules, errors := [], false;
    for i := 0 to |entries|
      invariant rules == Tables(entries[..i])
      invariant errors <==> || (exists entry <- entries[..i] :: Unreadable(entry))
                            || exists rule <- rules :: !OneSelector(rule)
    {
      assert entries[..i + 1][..i] == entries[..i];
      assert entries[..i + 1] == entries[..i] + [entries[i]];
      errors := errors || Unreadable(entries[i]);
      if entries[i].NotATable? {
        continue;
      }
      var ws := entries[i].rule;
      if (ws.name != "") == ws.index.Some? {
        errors := true;
      }
      ghost var before := rules;
      rules := rules + [ws];
      assert ws in rules && forall rule <- before :: rule in rules;
      assert forall rule <- rules :: rule in before || rule == ws;
    }
    assert entries[..|entries|] == entries;
  }

  /** The rule at `i` repeats an earlier selector. */
  predicate Repeats(rules: seq<WorkspaceRule>, i: nat)
    requires i < |rules|
  {
    OneSelector(rules[i]) && exists j :: 0 <= j < i && SameSelector(rules[j], rules[i])
  }

  predicate Untargeted(outputs: seq<OutputRule>, rule: WorkspaceRule) {
    OneSelector(rule) && !TargetExists(outputs, rule)
  }

  method CheckSelectors(outputs: seq<OutputRule>, rules: seq<WorkspaceRule>) returns (errors: bool)
    ensures errors <==> || (exists i :: 0 <= i < |rules| && Repeats(rules, i))
                        || exists rule <- rules :: Untargeted(outputs, rule)
  {
    errors := false;
    for i := 0 to |rules|
      invariant errors <==> exists k :: 0 <= k < i && (Repeats(rules, k) || Untargeted(outputs, rules[k]))
    {
      var ws := rules[i];
      if (ws.name == "") != ws.index.Some? {
        continue;
      }
      var duplicate := false;
      for j := 0 to i
        invariant !duplicate && forall k :: 0 <= k < j ==> !SameSelector(rules[k], ws)
      {
        if SameSelector(rules[j], ws) {
          duplicate := true;
          break;
        }
      }
      assert duplicate == Repeats(rules, i);
      errors := errors || duplicate;
      if !TargetExists(outputs, ws) {
        errors := true;
      }
    }
  }

  lemma {:induction false} NamesByClass(rules: seq<WorkspaceRule>, a: string, b: string)
    requires NamesEqual(a, b)
    ensures ContributedNames(rules, a) == ContributedNames(rules, b)
  {
    if rules == [] {
    } else {
      NamesByClass(rules[..|rules| - 1], a, b);
    }
  }

  lemma {:induction false} SectionByClass(outputs: seq<OutputRule>, a: string, b: string)
    requires NamesEqual(a, b)
    ensures FindByName(outputs, a) == FindByName(outputs, b)
  {
    if outputs == [] {
    } else {
      SectionByClass(outputs[1..], a, b);
    }
  }

  predicate OutputOverflow(outputs: seq<OutputRule>, rules: seq<WorkspaceRule>, capacity: nat, output: string) {
    IsDynamicSection(outputs, output) && |ContributedNames(rules, output)| > capacity
  }

  method CheckScopedNames(outputs: seq<OutputRule>, rules: seq<WorkspaceRule>, capacity: nat) returns (errors: bool)
    ensures errors <==> exists rule <- rules :: ScopedOverflow(outputs, rules, capacity, rule)
  {
    errors := false;
    var checkedOutputs: seq<string> := [];
    for i := 0 to |rules|
      invariant errors <==> exists k :: 0 <= k < i && ScopedOverflow(outputs, rules, capacity, rules[k])
      invariant forall output <- checkedOutputs :: OutputOverflow(outputs, rules, capacity, output) ==> errors
    {
      var rule := rules[i];
      if rule.name == "" || rule.output == "" {
        continue;
      }
      if exists output <- checkedOutputs :: NamesEqual(output, rule.output) {
        ghost var output :| output in checkedOutputs && NamesEqual(output, rule.output);
        NamesByClass(rules, output, rule.output);
        SectionByClass(outputs, output, rule.output);
        continue;
      }
      checkedOutputs := checkedOutputs + [rule.output];
      var configured := FindByName(outputs, rule.output);
      if configured.None? || configured.value.workspaces.None? {
        var overflow := ReportDynamicNameOverflow(rules, rule.output, capacity);
        errors := errors || overflow;
      }
    }
  }

  // ---------------------------------------------------------------- agreement with the run time

  /** Reading without an error leaves every rule with one selector, as a well-formed configuration needs. */
  lemma AcceptedRulesHaveOneSelector(outputs: seq<OutputRule>, emptyAbove: bool, rules: seq<WorkspaceRule>)
    requires !Reported(outputs, emptyAbove, rules)
    ensures forall rule <- rules :: rule.index.Some? <==> rule.name == ""
  {
    assert forall rule <- rules :: OneSelector(rule);
  }

  /** Whether a rule scoped to an output applies to the member at position `k`. */
  predicate AppliesToMember(rule: WorkspaceRule, identity: Identity, members: seq<ResolvedWorkspace>, k: nat)
    requires k < |members|
  {
    RuleApplies(rule, identity, if members[k].named then Some(members[k].name) else None, k, true)
  }

  predicate AppliesSomewhere(rule: WorkspaceRule, identity: Identity, members: seq<ResolvedWorkspace>) {
    exists k :: 0 <= k < |members| && AppliesToMember(rule, identity, members, k)
  }

  /** All names by which the configuration can address this output are spellings of one name. */
  ghost predicate OneNameMatches(config: Config, identity: Identity, name: string) {
    && (forall output <- config.outputs ::
          !OutputNameMatch(identity, output.name).NoMatch? ==> NamesEqual(output.name, name))
    && (forall rule <- config.workspaceRules ::
          rule.output != "" && !OutputNameMatch(identity, rule.output).NoMatch? ==> NamesEqual(rule.output, name))
  }

  lemma {:induction false} SameContributions(rules: seq<WorkspaceRule>, identity: Identity, output: string)
    requires forall rule <- rules :: DeclaresName(rule, identity) <==> Contributes(rule, output)
    ensures DynamicNames(rules, identity) == ContributedNames(rules, output)
  {
    if rules == [] {
    } else {
      SameContributions(rules[..|rules| - 1], identity, output);
      assert rules[|rules| - 1] in rules;
    }
  }

  /** The limits checked while reading are enough at run time when only one name addresses the output. */
  lemma NoNameIsOmitted(config: Config, identity: Identity, name: string)
    requires DistinctNames(config.outputs)
    requires !Reported(config.outputs, config.emptyAbove, config.workspaceRules)
    requires OneNameMatches(config, identity, name)
    ensures WorkspacesOf(config, identity).omittedNamed == 0
  {
    var rules := config.workspaceRules;
    if RuleFor(config.outputs, identity).workspaces.None? {
      if scoped :| scoped in rules && scoped.output != "" && DeclaresName(scoped, identity) {
        DeclaredMeansContributed(config, identity, name, scoped.output);
        SameContributions(rules, identity, scoped.output);
        ScopedSectionIsDynamic(config, identity, name, scoped.output);
        assert !ScopedOverflow(config.outputs, rules, NamedCapacity(config.emptyAbove), scoped);
      } else {
        SameContributions(rules, identity, "");
      }
      FewNamesMeansNoneOmitted(config, identity);
    }
  }

  lemma FewNamesMeansNoneOmitted(config: Config, identity: Identity)
    requires RuleFor(config.outputs, identity).workspaces.None?
    ensures WorkspacesOf(config, identity).omittedNamed == 0
        <==> |DynamicNames(config.workspaceRules, identity)| <= NamedCapacity(config.emptyAbove)
  {
  }

  lemma DeclaredMeansContributed(config: Config, identity: Identity, name: string, output: string)
    requires OneNameMatches(config, identity, name) && NamesEqual(output, name)
    requires output != "" && !OutputNameMatch(identity, output).NoMatch?
    requires forall rule <- config.workspaceRules :: rule.index.Some? ==> rule.name == ""
    ensures forall rule <- config.workspaceRules :: DeclaresName(rule, identity) <==> Contributes(rule, output)
  {
    forall rule <- config.workspaceRules ensures DeclaresName(rule, identity) <==> Contributes(rule, output) {
      if rule.output != "" && NamesEqual(rule.output, output) {
        MatchRespectsNames(identity, rule.output, output);
      }
    }
  }

  lemma ScopedSectionIsDynamic(config: Config, identity: Identity, name: string, output: string)
    requires DistinctNames(config.outputs)
    requires OneNameMatches(config, identity, name) && NamesEqual(output, name)
    requires output != "" && !OutputNameMatch(identity, output).NoMatch?
    requires RuleFor(config.outputs, identity).workspaces.None?
    ensures IsDynamicSection(config.outputs, output)
  {
    var section := FindByName(config.outputs, output);
    if section.Some? {
      MatchRespectsNames(identity, section.value.name, output);
      var governing := MatchingRule(config.outputs, identity).value;
      var i :| 0 <= i < |config.outputs| && config.outputs[i] == section.value;
      var j :| 0 <= j < |config.outputs| && config.outputs[j] == governing;
      assert !(i < j) && !(j < i);
    }
  }
}
