/**
 Where the members of an output and everything in their layouts come from (src/config/resolve.cpp), stated by the rules
 of the configuration and their positions in it.
 */
module LayoutSources {
  import opened Options
  import opened OutputNames
  import opened ConfigModel
  import opened Resolve
  import opened Inventories
  import opened WorkspaceRules

  // ---------------------------------------------------------------- which rule decides

  /**
   The rule is for this workspace: positions are counted from one, a name is of use to named workspaces only, and a
   rule is either for every output or for those that answer to the name it has.
   */
  predicate Concerns(rule: WorkspaceRule, identity: Identity, name: Option<string>, index: nat, scoped: bool) {
    && (rule.output != "") == scoped
    && (scoped ==> OutputNameMatch(identity, rule.output) != NoMatch)
    && match rule.index
       case Some(position) => position == index + 1
       case None => name == Some(rule.name)
  }

  predicate Says<T>(rule: WorkspaceRule, identity: Identity, name: Option<string>, index: nat, scoped: bool,
                    field: Overrides -> Option<T>) {
    Concerns(rule, identity, name, index, scoped) && field(rule.layout).Some?
  }

  /** The last word on a setting among the rules of one sort. */
  ghost predicate SaysLast<T>(rules: seq<WorkspaceRule>, identity: Identity, name: Option<string>, index: nat,
                              scoped: bool, field: Overrides -> Option<T>, i: int) {
    && 0 <= i < |rules| && Says(rules[i], identity, name, index, scoped, field)
    && forall j :: i < j < |rules| ==> !Says(rules[j], identity, name, index, scoped, field)
  }

  ghost predicate SaysNothing<T>(rules: seq<WorkspaceRule>, identity: Identity, name: Option<string>, index: nat,
                                 scoped: bool, field: Overrides -> Option<T>) {
    forall j :: 0 <= j < |rules| ==> !Says(rules[j], identity, name, index, scoped, field)
  }

  const GAP := (overrides: Overrides) => overrides.gap

  function SettingAt(key: LayoutKey): Overrides -> Option<LayoutValue> {
    (overrides: Overrides) => Lookup(overrides.settings, key)
  }

  lemma AppliesIsConcerns(rule: WorkspaceRule, identity: Identity, name: Option<string>, index: nat, scoped: bool)
    ensures RuleApplies(rule, identity, name, index, scoped) <==> Concerns(rule, identity, name, index, scoped)
  {
  }

  /** The last word of the rules without their last one. */
  lemma SaidBefore<T>(rules: seq<WorkspaceRule>, identity: Identity, name: Option<string>, index: nat, scoped: bool,
                      field: Overrides -> Option<T>)
    requires rules != []
    ensures var front, last := rules[..|rules| - 1], |rules| - 1;
      if Says(rules[last], identity, name, index, scoped, field) then
        && !SaysNothing(rules, identity, name, index, scoped, field)
        && forall i :: SaysLast(rules, identity, name, index, scoped, field, i) ==> i == last
      else
        && (SaysNothing(rules, identity, name, index, scoped, field)
            ==> SaysNothing(front, identity, name, index, scoped, field))
        && forall i :: SaysLast(rules, identity, name, index, scoped, field, i)
                       ==> SaysLast(front, identity, name, index, scoped, field, i) && rules[i] == front[i]
  {
    hide Says;
  }

  lemma {:induction false} LastGapIs(rules: seq<WorkspaceRule>, identity: Identity, name: Option<string>, index: nat,
                                     scoped: bool)
    ensures var last := LastGap(MatchingOverrides(rules, identity, name, index, scoped));
      && (SaysNothing(rules, identity, name, index, scoped, GAP) ==> last == None)
      && forall i :: SaysLast(rules, identity, name, index, scoped, GAP, i) ==> last == rules[i].layout.gap
  {
    if rules == [] {
    } else {
      SaidBefore(rules, identity, name, index, scoped, GAP);
      LastGapIs(rules[..|rules| - 1], identity, name, index, scoped);
      AppliesIsConcerns(rules[|rules| - 1], identity, name, index, scoped);
      hide SaysLast, SaysNothing, Concerns, RuleApplies;
    }
  }

  lemma LastSettingStep(rules: seq<WorkspaceRule>, identity: Identity, name: Option<string>, index: nat, scoped: bool,
                        key: LayoutKey)
    requires rules != []
    ensures var front, last := rules[..|rules| - 1], rules[|rules| - 1];
      LastSetting(MatchingOverrides(rules, identity, name, index, scoped), key)
      == if Says(last, identity, name, index, scoped, SettingAt(key)) then Lookup(last.layout.settings, key)
         else LastSetting(MatchingOverrides(front, identity, name, index, scoped), key)
  {
    AppliesIsConcerns(rules[|rules| - 1], identity, name, index, scoped);
    hide Concerns, RuleApplies;
    var earlier := MatchingOverrides(rules[..|rules| - 1], identity, name, index, scoped);
    assert (earlier + [rules[|rules| - 1].layout])[..|earlier|] == earlier;
  }

  lemma {:induction false} LastSettingIs(rules: seq<WorkspaceRule>, identity: Identity, name: Option<string>,
                                         index: nat, scoped: bool, key: LayoutKey)
    ensures var last := LastSetting(MatchingOverrides(rules, identity, name, index, scoped), key);
      && (SaysNothing(rules, identity, name, index, scoped, SettingAt(key)) ==> last == None)
      && forall i :: SaysLast(rules, identity, name, index, scoped, SettingAt(key), i)
                     ==> last == Lookup(rules[i].layout.settings, key)
  {
    if rules == [] {
    } else {
      SaidBefore(rules, identity, name, index, scoped, SettingAt(key));
      LastSettingIs(rules[..|rules| - 1], identity, name, index, scoped, key);
      LastSettingStep(rules, identity, name, index, scoped, key);
      hide SaysLast, SaysNothing, Says, LastSetting, MatchingOverrides;
    }
  }

  /** The gap is the word of the last rule scoped to the output, else of the last rule for all outputs, else global. */
  lemma GapComesFrom(config: Config, identity: Identity, name: Option<string>, index: nat)
    ensures var rules, gap := config.workspaceRules, WorkspaceLayout(config, identity, name, index).gap;
      && (forall i :: SaysLast(rules, identity, name, index, true, GAP, i) ==> Some(gap) == rules[i].layout.gap)
      && (SaysNothing(rules, identity, name, index, true, GAP) ==>
            && (forall i :: SaysLast(rules, identity, name, index, false, GAP, i) ==> Some(gap) == rules[i].layout.gap)
            && (SaysNothing(rules, identity, name, index, false, GAP) ==> gap == config.layout.gap))
  {
    LastGapIs(config.workspaceRules, identity, name, index, true);
    LastGapIs(config.workspaceRules, identity, name, index, false);
    SettingPrecedence(config, identity, name, index, Mode);
    hide Concerns, WorkspaceLayout, LastGap, LastSetting, MatchingOverrides, SaysNothing;
  }

  /** So is every other setting, with the extent of the output's own section before the global one. */
  lemma SettingComesFrom(config: Config, identity: Identity, name: Option<string>, index: nat, key: LayoutKey)
    ensures var rules := config.workspaceRules;
      var value := Lookup(WorkspaceLayout(config, identity, name, index).settings, key);
      var section, field := RuleFor(config.outputs, identity), SettingAt(key);
      && (forall i :: SaysLast(rules, identity, name, index, true, field, i)
                      ==> value == Lookup(rules[i].layout.settings, key))
      && (SaysNothing(rules, identity, name, index, true, field) ==>
            && (forall i :: SaysLast(rules, identity, name, index, false, field, i)
                            ==> value == Lookup(rules[i].layout.settings, key))
            && (SaysNothing(rules, identity, name, index, false, field) ==>
                  value == if key == DefaultExtentFraction && section.extentFraction.Some? then section.extentFraction
                           else Lookup(config.layout.settings, key)))
  {
    LastSettingIs(config.workspaceRules, identity, name, index, true, key);
    LastSettingIs(config.workspaceRules, identity, name, index, false, key);
    SettingPrecedence(config, identity, name, index, key);
    hide Concerns, WorkspaceLayout, LastGap, LastSetting, MatchingOverrides, SaysNothing, RuleFor;
  }

  lemma {:induction false} OverridesKeepLook(config: Config, start: ResolvedLayout, all: seq<Overrides>)
    ensures var end := ApplyAll(config, start, all);
      && end.direction == start.direction && end.barHeight == start.barHeight && end.barPosition == start.barPosition
      && end.hideWhenSingle == start.hideWhenSingle && end.barVisible == start.barVisible
  {
    if all == [] {
    } else {
      OverridesKeepLook(config, start, all[..|all| - 1]);
    }
  }

  /** Strips run across the axis workspaces are laid out on, and bars look the same on every workspace. */
  lemma LookIsShared(config: Config, identity: Identity, name: Option<string>, index: nat)
    ensures var layout, bar := WorkspaceLayout(config, identity, name, index), config.appearance.tabBar;
      && layout.direction != RuleFor(config.outputs, identity).axis
      && layout.barHeight == bar.height && layout.barPosition == bar.position
      && layout.hideWhenSingle == bar.hideWhenSingle && layout.barVisible == bar.visible
  {
    OverridesKeepLook(config, OutputLayout(config, identity), AllOverrides(config, identity, name, index));
  }

  // ---------------------------------------------------------------- rules that repeat one another

  ghost predicate ConcernTheSame(left: WorkspaceRule, right: WorkspaceRule) {
    forall identity, name, index, scoped ::
      Concerns(left, identity, name, index, scoped) <==> Concerns(right, identity, name, index, scoped)
  }

  /** A rule is reported as a repetition exactly when it concerns the same workspaces of every output as another. */
  lemma SameSelectorExactly(left: WorkspaceRule, right: WorkspaceRule)
    requires OneSelector(left) && OneSelector(right)
    requires (left.index.Some? ==> left.index.value >= 1) && (right.index.Some? ==> right.index.value >= 1)
    ensures SameSelector(left, right) <==> ConcernTheSame(left, right)
  {
    if SameSelector(left, right) {
      forall identity, name, index, scoped
        ensures Concerns(left, identity, name, index, scoped) <==> Concerns(right, identity, name, index, scoped)
      {
        EmptyIsItsOwnName(left.output, right.output);
        MatchRespectsNames(identity, left.output, right.output);
      }
    } else {
      var identity, name, index := OutputNamed(left), NameFor(left), PositionFor(left, right);
      if left.output != "" {
        NamedAnswers(left.output, right.output);
      }
      assert Concerns(left, identity, name, index, left.output != "");
      assert !Concerns(right, identity, name, index, left.output != "");
    }
  }

  /** An output that answers to the name of a rule and to no other. */
  function OutputNamed(rule: WorkspaceRule): Identity {
    Identity(rule.output, "", "", "")
  }

  function NameFor(rule: WorkspaceRule): Option<string> {
    if rule.index.Some? then None else Some(rule.name)
  }

  /** A place that a rule concerns and, if it can be helped, another does not. */
  function PositionFor(rule: WorkspaceRule, other: WorkspaceRule): nat {
    match rule.index
    case Some(position) => if position >= 1 then position - 1 else 0
    case None => if other.index.Some? && other.index.value >= 1 then other.index.value else 0
  }

  lemma NamedAnswers(output: string, other: string)
    requires output != ""
    ensures OutputNameMatch(Identity(output, "", "", ""), output) == Connector
    ensures OutputNameMatch(Identity(output, "", "", ""), other) != NoMatch <==> NamesEqual(output, other)
  {
  }

  lemma EmptyIsItsOwnName(left: string, right: string)
    requires NamesEqual(left, right)
    ensures left == "" <==> right == ""
  {
    assert |Folded(left)| == |left| && |Folded(right)| == |right|;
  }

  // ---------------------------------------------------------------- the members

  /** Every member has the layout of its own position, and of its name if it has one. */
  lemma MembersHaveTheirLayouts(config: Config, identity: Identity, k: nat)
    requires k < |WorkspacesOf(config, identity).workspaces|
    ensures var member := WorkspacesOf(config, identity).workspaces[k];
      member.layout == WorkspaceLayout(config, identity, if member.named then Some(member.name) else None, k)
  {
    hide WorkspaceLayout, KeptNames, DynamicCount, Decimal, RuleFor;
  }

  /** A fixed output has as many members as its section says, with the names it gives, in order. */
  lemma FixedMembers(config: Config, identity: Identity)
    requires RuleFor(config.outputs, identity).workspaces.Some?
    ensures var set', inventory := WorkspacesOf(config, identity), RuleFor(config.outputs, identity).workspaces.value;
      && !set'.dynamic && set'.omittedNamed == 0
      && match inventory
         case Count(count) => |set'.workspaces| == count && forall k :: 0 <= k < count ==> !set'.workspaces[k].named
         case Names(names) =>
           && |set'.workspaces| == |names|
           && forall k :: 0 <= k < |names| ==> set'.workspaces[k].named && set'.workspaces[k].name == names[k]
  {
    hide WorkspaceLayout, Decimal, RuleFor;
  }

  /** The rule at `k` is the first to declare the name for a dynamic output. */
  ghost predicate FirstDeclares(rules: seq<WorkspaceRule>, identity: Identity, name: string, k: int) {
    && 0 <= k < |rules| && DeclaresFor(rules[k], identity, name)
    && forall j :: 0 <= j < k ==> !DeclaresFor(rules[j], identity, name)
  }

  /** A name is declared even by a rule that has an index too. */
  predicate DeclaresFor(rule: WorkspaceRule, identity: Identity, name: string) {
    && name != "" && rule.name == name
    && (rule.output == "" || OutputNameMatch(identity, rule.output) != NoMatch)
  }

  lemma Earliest(rules: seq<WorkspaceRule>, identity: Identity, name: string, j: nat) returns (k: nat)
    requires j < |rules| && DeclaresFor(rules[j], identity, name)
    ensures FirstDeclares(rules, identity, name, k)
    decreases j
  {
    hide DeclaresFor;
    if i :| 0 <= i < j && DeclaresFor(rules[i], identity, name) {
      k := Earliest(rules, identity, name, i);
    } else {
      k := j;
    }
  }

  /** A name is there exactly when some rule is the first to declare it. */
  lemma FirstDeclaration(rules: seq<WorkspaceRule>, identity: Identity, name: string)
    ensures name in DynamicNames(rules, identity) <==> exists k :: FirstDeclares(rules, identity, name, k)
  {
    if name in DynamicNames(rules, identity) {
      var rule :| rule in rules && DeclaresName(rule, identity) && rule.name == name;
      var j :| 0 <= j < |rules| && rules[j] == rule;
      var k := Earliest(rules, identity, name, j);
    }
    if k :| FirstDeclares(rules, identity, name, k) {
      assert rules[k] in rules && DeclaresName(rules[k], identity);
    }
  }

  /** Names come in the order in which they are first declared. */
  lemma {:induction false} NamesInOrder(rules: seq<WorkspaceRule>, identity: Identity, i: nat, j: nat, k: int, l: int)
    requires i < j < |DynamicNames(rules, identity)|
    requires FirstDeclares(rules, identity, DynamicNames(rules, identity)[i], k)
    requires FirstDeclares(rules, identity, DynamicNames(rules, identity)[j], l)
    ensures k < l
  {
    if rules == [] {
    } else {
      var front, last, names := rules[..|rules| - 1], rules[|rules| - 1], DynamicNames(rules, identity);
      var earlier := DynamicNames(front, identity);
      assert names[i] in earlier;
      FirstDeclaration(front, identity, names[i]);
      if j < |earlier| {
        assert names[j] in earlier;
        FirstDeclaration(front, identity, names[j]);
        NamesInOrder(front, identity, i, j, k, l);
      } else {
        FirstDeclaration(front, identity, names[j]);
        assert l == |front|;
      }
    }
  }
}
