/** Which of several rules decides, stated without following the search for it (src/config/resolve.cpp). */
module Precedence {
  import opened Options
  import opened OutputNames
  import opened ConfigModel
  import opened Resolve

  /** A section governs an output exactly when it names the descriptor, or the connector with no such section about. */
  lemma GovernsExactly(outputs: seq<OutputRule>, identity: Identity, rule: OutputRule)
    requires DistinctNames(outputs) && rule in outputs
    ensures MatchingRule(outputs, identity) == Some(rule) <==>
      || OutputNameMatch(identity, rule.name).Descriptor?
      || (&& OutputNameMatch(identity, rule.name).Connector?
          && forall other <- outputs :: !OutputNameMatch(identity, other.name).Descriptor?)
  {
    var found := MatchingRule(outputs, identity);
    if found.Some? && OutputNameMatch(identity, found.value.name) == OutputNameMatch(identity, rule.name) {
      MatchIsUnique(identity, found.value.name, rule.name);
      RuleByName(outputs, found.value, rule);
    }
  }

  /** Of several sections the first that names the descriptor governs. */
  lemma {:induction false} FirstDescriptorGoverns(outputs: seq<OutputRule>, identity: Identity, i: nat)
    requires i < |outputs| && OutputNameMatch(identity, outputs[i].name) == Descriptor
    requires forall j | 0 <= j < i :: OutputNameMatch(identity, outputs[j].name) != Descriptor
    ensures MatchingRule(outputs, identity) == Some(outputs[i])
  {
    if i == 0 {
    } else {
      assert OutputNameMatch(identity, outputs[0].name) != Descriptor;
      FirstDescriptorGoverns(outputs[1..], identity, i - 1);
      assert DescriptorRule(outputs, identity) == DescriptorRule(outputs[1..], identity);
    }
  }

  /** Without one it is the last that names the connector, and without that none. */
  lemma {:induction false} LastConnectorGoverns(outputs: seq<OutputRule>, identity: Identity, i: int)
    requires -1 <= i < |outputs| && (i >= 0 ==> OutputNameMatch(identity, outputs[i].name) == Connector)
    requires forall j | i < j < |outputs| :: OutputNameMatch(identity, outputs[j].name) == NoMatch
    requires forall j | 0 <= j < |outputs| :: OutputNameMatch(identity, outputs[j].name) != Descriptor
    ensures MatchingRule(outputs, identity) == if i < 0 then None else Some(outputs[i])
  {
    assert DescriptorRule(outputs, identity).None?;
    if outputs == [] {
    } else if i == |outputs| - 1 {
    } else {
      LastConnectorGoverns(outputs[..|outputs| - 1], identity, i);
      assert DescriptorRule(outputs[..|outputs| - 1], identity).None?;
    }
  }

  /** What holds of an output that no section names. */
  lemma UnconfiguredOutput(outputs: seq<OutputRule>, identity: Identity)
    requires forall rule <- outputs :: OutputNameMatch(identity, rule.name) == NoMatch
    ensures var rule := RuleFor(outputs, identity);
      && rule.state == OutputState(true, None, None, None, None, 0, 0, 203.0, 0, 8)
      && !rule.focusAtStartup && !rule.allowTearing && rule.directScanout
      && rule.screenEffect == None && rule.screenCastEffect == None
      && rule.workspaces == None && rule.minWorkspaces == 1 && !rule.cyclicWorkspaces
      && rule.axis == Vertical && rule.extentFraction == None
  {
    LastConnectorGoverns(outputs, identity, -1);
  }

  predicate Sets<T>(rule: WindowRule, w: Window, field: WindowRule -> Option<T>) {
    Selects(rule.selector, w) && field(rule).Some?
  }

  /** The last rule that selects the window and sets a field decides it. */
  lemma {:induction false} LastWriterWins<T>(rules: seq<WindowRule>, w: Window, field: WindowRule -> Option<T>, i: nat)
    requires i < |rules| && Sets(rules[i], w, field)
    requires forall j | i < j < |rules| :: !Sets(rules[j], w, field)
    ensures LastSet(rules, w, field) == field(rules[i])
    decreases |rules|
  {
    if i == |rules| - 1 {
    } else {
      assert !Sets(rules[|rules| - 1], w, field);
      LastWriterWins(rules[..|rules| - 1], w, field, i);
    }
  }

  /** Without such a rule the field stays unset. */
  lemma {:induction false} NoWriterNoValue<T>(rules: seq<WindowRule>, w: Window, field: WindowRule -> Option<T>)
    requires forall i | 0 <= i < |rules| :: !Sets(rules[i], w, field)
    ensures LastSet(rules, w, field) == None
  {
    if rules == [] {
    } else {
      assert !Sets(rules[|rules| - 1], w, field);
      NoWriterNoValue(rules[..|rules| - 1], w, field);
    }
  }

  function Setting(key: WindowKey): WindowRule -> Option<WindowValue> {
    (rule: WindowRule) => Lookup(rule.settings, key)
  }

  /** Every other setting is decided in the same way, one key at a time. */
  lemma {:induction false} SettingsByKey(rules: seq<WindowRule>, w: Window, key: WindowKey)
    ensures Lookup(WindowSettings(rules, w).settings, key) == LastSet(rules, w, Setting(key))
  {
    if rules == [] {
    } else {
      SettingsByKey(rules[..|rules| - 1], w, key);
    }
  }

  // ---------------------------------------------------------------- which windows a rule selects

  const ANYTHING := Selector([], [], [], None, [], None, None, None, None, None, None, None, None, None, None)

  /** Some pattern is found in the text; empty patterns match but by themselves ask for nothing. */
  ghost predicate Finds(patterns: seq<string>, text: Option<string>, search: (string, string) -> bool) {
    text.Some? && exists i :: 0 <= i < |patterns| && search(patterns[i], text.value)
  }

  ghost predicate AsksForSome(patterns: seq<string>) {
    exists i :: 0 <= i < |patterns| && patterns[i] != ""
  }

  predicate Asks<T(==)>(constraint: Option<T>, actual: T) {
    constraint == None || constraint == Some(actual)
  }

  lemma EverythingIsSelected(w: Window)
    ensures Selects(ANYTHING, w)
  {
  }

  /** A list of patterns narrows what a rule selects by exactly what it asks: one found, if any is not empty. */
  lemma SelectsByPattern(s: Selector, w: Window)
    ensures Selects(s, w)
         == (Selects(s.(appId := []), w) && (AsksForSome(s.appId) ==> Finds(s.appId, w.appId, w.search)))
    ensures Selects(s, w)
         == (Selects(s.(title := []), w) && (AsksForSome(s.title) ==> Finds(s.title, w.title, w.search)))
    ensures Selects(s, w)
         == (Selects(s.(xdgTag := []), w) && (AsksForSome(s.xdgTag) ==> Finds(s.xdgTag, w.xdgTag, w.search)))
  {
    hide PatternMatches, Finds, AsksForSome, Allows;
    PatternsByIndex(s.appId, w.appId, w.search);
    PatternsByIndex(s.title, w.title, w.search);
    PatternsByIndex(s.xdgTag, w.xdgTag, w.search);
    NoPatterns(w.appId, w.search);
    NoPatterns(w.title, w.search);
    NoPatterns(w.xdgTag, w.search);
  }

  /** So does every other constraint, each on its own aspect of the window. */
  lemma SelectsByContent(s: Selector, w: Window)
    ensures Selects(s, w) == (Selects(s.(contentType := None), w) && Asks(s.contentType, w.contentType))
    ensures Selects(s, w) == (Selects(s.(layouts := []), w) && (s.layouts == [] || LayoutIn(w.state.layout, s.layouts)))
    ensures Selects(s, w)
         == (Selects(s.(atStartup := None), w) && Asks(s.atStartup, w.uptimeMs < 60000))
  {
    hide PatternMatches;
  }

  lemma SelectsByPlacement(s: Selector, w: Window)
    ensures Selects(s, w) == (Selects(s.(floating := None), w) && Asks(s.floating, w.state.floating))
    ensures Selects(s, w)
         == (Selects(s.(maximizedToEdges := None), w) && Asks(s.maximizedToEdges, w.state.maximizedToEdges))
    ensures Selects(s, w) == (Selects(s.(pinned := None), w) && Asks(s.pinned, w.state.pinned))
  {
    hide PatternMatches;
  }

  lemma SelectsByCompany(s: Selector, w: Window)
    ensures Selects(s, w) == (Selects(s.(scratchpad := None), w) && Asks(s.scratchpad, w.state.scratchpad))
    ensures Selects(s, w) == (Selects(s.(alone := None), w) && Asks(s.alone, w.state.alone))
    ensures Selects(s, w) == (Selects(s.(onlyWindow := None), w) && Asks(s.onlyWindow, w.state.onlyWindow))
  {
    hide PatternMatches;
  }

  lemma SelectsByRole(s: Selector, w: Window)
    ensures Selects(s, w) == (Selects(s.(focused := None), w) && Asks(s.focused, w.state.focused))
    ensures Selects(s, w) == (Selects(s.(dialog := None), w) && Asks(s.dialog, w.state.dialog))
    ensures Selects(s, w) == (Selects(s.(castTarget := None), w) && Asks(s.castTarget, w.state.castTarget))
  {
    hide PatternMatches;
  }

  predicate LayoutIn(layout: Option<nat>, layouts: seq<nat>) {
    exists i :: 0 <= i < |layouts| && layout == Some(layouts[i])
  }

  lemma PatternsByIndex(patterns: seq<string>, text: Option<string>, search: (string, string) -> bool)
    ensures PatternMatches(patterns, text, search) == (AsksForSome(patterns) ==> Finds(patterns, text, search))
  {
    assert Constrains(patterns) == AsksForSome(patterns) by {
      if pattern :| pattern in patterns && pattern != "" {
        var i :| 0 <= i < |patterns| && patterns[i] == pattern;
      }
      if i :| 0 <= i < |patterns| && patterns[i] != "" {
        assert patterns[i] in patterns;
      }
    }
    if text.Some? {
      assert (exists pattern <- patterns :: search(pattern, text.value)) == Finds(patterns, text, search) by {
        if pattern :| pattern in patterns && search(pattern, text.value) {
          var i :| 0 <= i < |patterns| && patterns[i] == pattern;
        }
      }
    }
  }

  lemma NoPatterns(text: Option<string>, search: (string, string) -> bool)
    ensures PatternMatches([], text, search)
  {
  }

  /** What a single rule sets for a window it selects is what the window gets, setting for setting. */
  lemma OneRule(rule: WindowRule, w: Window)
    ensures WindowSettings([], w) == ResolvedWindowRule(None, None, None, None, map[])
    ensures WindowSettings([rule], w) ==
      if Selects(rule.selector, w)
      then ResolvedWindowRule(rule.allowTearing, rule.attachToParent, rule.borderEffect, rule.windowEffect,
                              rule.settings)
      else WindowSettings([], w)
  {
    assert [rule][..0] == [];
    assert map[] + rule.settings == rule.settings;
    hide Selects;
  }
}
