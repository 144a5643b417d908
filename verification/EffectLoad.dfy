/**
 Reading the tables that hold effect selectors, and the validation that ends the load
 (src/config/fields_effects.cpp, fields_rules.cpp, fields_output.cpp).
 */
module EffectLoad {
  import opened Options
  import opened Lists
  import opened OutputNames
  import opened ConfigModel
  import opened EffectReferences

  /** One declared entry of [effects.preset]; `overlay` is absent unless it is a string. */
  datatype PresetEntry =
    PresetEntry(name: string, isTable: bool, kind: Option<Kind>, overlay: Option<string>, settings: nat)

  /** One declared entry of [effects.pool]; an element of `choose` is absent unless it is a string. */
  datatype PoolEntry =
    PoolEntry(name: string, isTable: bool, kind: Option<Kind>, choose: Option<seq<Option<string>>>,
              selectionValid: bool)

  /** One [[window_rule]] or [output.<name>] entry, with the verdict of its own fields. */
  datatype RuleEntry = RuleEntry(rule: WindowRule, fieldsAccepted: bool)

  predicate ValidEffectName(name: string) {
    name != "" && name != OFF && '/' !in name
  }

  predicate PresetAccepted(e: PresetEntry) {
    e.isTable && ValidEffectName(e.name) && e.kind.Some?
  }

  predicate HasOverlay(e: PresetEntry) {
    PresetAccepted(e) && e.kind.value.Border? && e.overlay.Some?
  }

  function AcceptedPresets(entries: seq<PresetEntry>): seq<Preset> {
    if entries == [] then []
    else
      var rest, last := AcceptedPresets(entries[..|entries| - 1]), entries[|entries| - 1];
      if PresetAccepted(last)
      then
        var overlay := if HasOverlay(last) then last.overlay.value else "";
        rest + [Preset(last.name, last.kind.value, overlay, last.settings)]
      else rest
  }

  predicate PoolAccepted(e: PoolEntry) {
    && ValidEffectName(e.name) && e.isTable
    && e.kind.Some? && !e.kind.value.Animation? && e.choose.Some? && e.selectionValid
  }

  /** The usable elements of `choose`, each kept where it first appears. */
  function ChosenMembers(choose: seq<Option<string>>): (members: seq<string>)
    ensures forall i, j :: 0 <= i < j < |members| ==> members[i] != members[j]
    ensures forall name :: name in members <==> Some(name) in choose && name != "" && name != OFF
  {
    if choose == [] then []
    else
      var rest, last := ChosenMembers(choose[..|choose| - 1]), choose[|choose| - 1];
      assert choose == choose[..|choose| - 1] + [last];
      if last.Some? && last.value != "" && last.value != OFF && last.value !in rest then rest + [last.value] else rest
  }

  function AcceptedPools(entries: seq<PoolEntry>): seq<Pool> {
    if entries == [] then []
    else
      var rest, last := AcceptedPools(entries[..|entries| - 1]), entries[|entries| - 1];
      if PoolAccepted(last) then rest + [Pool(last.name, last.kind.value, ChosenMembers(last.choose.value))] else rest
  }

  function AcceptedRules(entries: seq<RuleEntry>): seq<WindowRule> {
    if entries == [] then []
    else
      var rest, last := AcceptedRules(entries[..|entries| - 1]), entries[|entries| - 1];
      if last.fieldsAccepted then rest + [last.rule] else rest
  }

  /** The sections that do not name the given output. */
  function OtherOutputs(outputs: seq<OutputRule>, name: string): seq<OutputRule> {
    if outputs == [] then []
    else
      var rest, last := OtherOutputs(outputs[..|outputs| - 1], name), outputs[|outputs| - 1];
      if NamesEqual(last.name, name) then rest else rest + [last]
  }

  /** One [output.<name>] table; `hasMinimum` tells whether it has min_workspaces. */
  datatype OutputSection = OutputSection(rule: OutputRule, hasMinimum: bool)

  /** A section replaces every earlier one for the same output. */
  function AcceptedOutputs(sections: seq<OutputSection>): seq<OutputRule> {
    if sections == [] then []
    else
      var earlier, rule := AcceptedOutputs(sections[..|sections| - 1]), sections[|sections| - 1].rule;
      OtherOutputs(earlier, rule.name) + [rule]
  }

  lemma NoOutputs()
    ensures AcceptedOutputs([]) == []
  {
  }

  lemma NextOutput(sections: seq<OutputSection>, i: nat)
    requires i < |sections|
    ensures AcceptedOutputs(sections[..i + 1])
         == OtherOutputs(AcceptedOutputs(sections[..i]), sections[i].rule.name) + [sections[i].rule]
    ensures MinimumOnFixed(sections[i]) <==> sections[i].hasMinimum && sections[i].rule.workspaces.Some?
  {
    assert sections[..i + 1][..i] == sections[..i];
  }

  // ---------------------------------------------------------------- what tables yield, one by one

  lemma {:induction false} PresetsConcat(a: seq<PresetEntry>, b: seq<PresetEntry>)
    ensures AcceptedPresets(a + b) == AcceptedPresets(a) + AcceptedPresets(b)
  {
    if b == [] {
      assert a + b == a;
    } else {
      assert (a + b)[..|a + b| - 1] == a + b[..|b| - 1];
      PresetsConcat(a, b[..|b| - 1]);
    }
  }

  /** A preset is a table with a name that can be referred to and a kind; only one for borders has an overlay. */
  lemma OnePreset(e: PresetEntry)
    ensures AcceptedPresets([e])
         == if e.isTable && e.name != "" && e.name != "off" && (forall c <- e.name :: c != '/') && e.kind.Some?
            then [Preset(e.name, e.kind.value, if e.kind.value == Border then e.overlay.GetOr("") else "", e.settings)]
            else []
  {
    assert [e][..0] == [];
  }

  lemma {:induction false} PoolsConcat(a: seq<PoolEntry>, b: seq<PoolEntry>)
    ensures AcceptedPools(a + b) == AcceptedPools(a) + AcceptedPools(b)
  {
    if b == [] {
      assert a + b == a;
    } else {
      assert (a + b)[..|a + b| - 1] == a + b[..|b| - 1];
      PoolsConcat(a, b[..|b| - 1]);
    }
  }

  /** A pool is likewise a table, of any kind but animations, whose members are listed. */
  lemma OnePool(e: PoolEntry)
    ensures AcceptedPools([e])
         == if && e.isTable && e.name != "" && e.name != "off" && (forall c <- e.name :: c != '/')
               && e.kind.Some? && e.kind.value != Animation && e.choose.Some? && e.selectionValid
            then [Pool(e.name, e.kind.value, Unique(Eligible(e.choose.value)))]
            else []
  {
    assert [e][..0] == [];
    if e.choose.Some? {
      ChosenExactly(e.choose.value);
    }
  }

  /** The entries of a list of members that are strings and may name a preset. */
  function Eligible(choose: seq<Option<string>>): seq<string> {
    if choose == [] then []
    else
      var earlier := Eligible(choose[..|choose| - 1]);
      match choose[|choose| - 1]
      case None => earlier
      case Some(name) => if name == "" || name == "off" then earlier else earlier + [name]
  }

  lemma {:induction false} ChosenExactly(choose: seq<Option<string>>)
    ensures ChosenMembers(choose) == Unique(Eligible(choose))
  {
    if choose == [] {
    } else {
      var front := choose[..|choose| - 1];
      ChosenExactly(front);
      match choose[|choose| - 1]
      case None =>
      case Some(name) =>
        assert (Eligible(front) + [name])[..|Eligible(front)|] == Eligible(front);
    }
  }

  /** The rules of the entries all of whose fields could be read, in order. */
  lemma {:induction false} RulesConcat(a: seq<RuleEntry>, b: seq<RuleEntry>)
    ensures AcceptedRules(a + b) == AcceptedRules(a) + AcceptedRules(b)
    ensures forall e: RuleEntry :: AcceptedRules([e]) == if e.fieldsAccepted then [e.rule] else []
  {
    forall e: RuleEntry ensures AcceptedRules([e]) == if e.fieldsAccepted then [e.rule] else [] {
      assert [e][..0] == [];
    }
    if b == [] {
      assert a + b == a;
    } else {
      assert (a + b)[..|a + b| - 1] == a + b[..|b| - 1];
      RulesConcat(a, b[..|b| - 1]);
    }
  }

  predicate NamedLater(sections: seq<OutputSection>, name: string) {
    exists i :: 0 <= i < |sections| && NamesEqual(sections[i].rule.name, name)
  }

  /** Every section but those that a later one of the same name replaces. */
  function LastSections(sections: seq<OutputSection>): seq<OutputRule> {
    if sections == [] then []
    else
      var first, rest := sections[0].rule, sections[1..];
      (if NamedLater(rest, first.name) then [] else [first]) + LastSections(rest)
  }

  lemma {:induction false} OthersFromFront(outputs: seq<OutputRule>, name: string)
    ensures outputs != [] ==>
      OtherOutputs(outputs, name)
      == (if NamesEqual(outputs[0].name, name) then [] else [outputs[0]]) + OtherOutputs(outputs[1..], name)
  {
    if |outputs| <= 1 {
    } else {
      var front := outputs[..|outputs| - 1];
      OthersFromFront(front, name);
      assert front[1..] == outputs[1..][..|outputs| - 2] && front[0] == outputs[0];
    }
  }

  lemma {:induction false} OneMoreSection(sections: seq<OutputSection>, last: OutputSection)
    ensures LastSections(sections + [last]) == OtherOutputs(LastSections(sections), last.rule.name) + [last.rule]
  {
    var all := sections + [last];
    if sections == [] {
      assert all[1..] == [];
    } else {
      var rest, first := sections[1..], sections[0].rule;
      assert all[1..] == rest + [last];
      OneMoreSection(rest, last);
      LaterOrLast(rest, last, first.name);
      var stays := if NamesEqual(first.name, last.rule.name) then [] else [first];
      assert [] + LastSections(rest) == LastSections(rest) && [] + LastSections(all[1..]) == LastSections(all[1..]);
      if !NamedLater(rest, first.name) {
        OthersFromFront([first] + LastSections(rest), last.rule.name);
        assert ([first] + LastSections(rest))[1..] == LastSections(rest);
        Regroup(stays, OtherOutputs(LastSections(rest), last.rule.name), [last.rule]);
      }
    }
  }

  lemma LaterOrLast(sections: seq<OutputSection>, last: OutputSection, name: string)
    ensures NamedLater(sections + [last], name) <==> NamedLater(sections, name) || NamesEqual(last.rule.name, name)
  {
    var all := sections + [last];
    if i :| 0 <= i < |sections| && NamesEqual(sections[i].rule.name, name) {
      assert all[i] == sections[i];
    }
    if i :| 0 <= i < |all| && NamesEqual(all[i].rule.name, name) {
      assert all[i] == if i < |sections| then sections[i] else last;
    }
    assert all[|sections|] == last;
  }

  /** Of the sections for one output the last stands, where it stands. */
  lemma {:induction false} LastSectionStands(sections: seq<OutputSection>)
    ensures AcceptedOutputs(sections) == LastSections(sections)
  {
    if sections == [] {
    } else {
      var front := sections[..|sections| - 1];
      LastSectionStands(front);
      OneMoreSection(front, sections[|sections| - 1]);
      assert sections == front + [sections[|sections| - 1]];
    }
  }

  /** A minimum says nothing about an inventory that is fixed. */
  predicate MinimumOnFixed(section: OutputSection) {
    section.hasMinimum && section.rule.workspaces.Some?
  }

  predicate NamesSection(outputs: seq<OutputRule>, name: string, t: Target) {
    exists existing <- outputs :: NamesEqual(existing.name, name)
                               && (t == OutputScreen(existing.name) || t == OutputCast(existing.name))
  }

  /** The references that do not belong to a section naming the given output. */
  function OtherReferences(outputs: seq<OutputRule>, name: string, references: seq<Reference>): (kept: seq<Reference>)
    ensures forall r :: r in kept <==> r in references && !NamesSection(outputs, name, r.target)
  {
    if references == [] then []
    else
      var rest, last := OtherReferences(outputs, name, references[..|references| - 1]), references[|references| - 1];
      assert references == references[..|references| - 1] + [last];
      if NamesSection(outputs, name, last.target) then rest else rest + [last]
  }

  // ---------------------------------------------------------------- recording keeps selectors tracked

  /** Settings that only gained places keep every old place and its value. */
  ghost predicate Extends(a: Settings, b: Settings) {
    && a.presets <= b.presets && a.windowRules <= b.windowRules && a.outputs <= b.outputs
    && |a.pools| <= |b.pools|
    && (forall p :: 0 <= p < |a.pools| ==>
          a.pools[p].kind == b.pools[p].kind && a.pools[p].members <= b.pools[p].members)
    && (forall field <- a.fields :: field in b.fields && a.fields[field] == b.fields[field])
  }

  lemma ExtendsKeeps(a: Settings, b: Settings, t: Target)
    requires Extends(a, b) && Exists(a, t)
    ensures Exists(b, t) && Value(a, t) == Value(b, t) && RequirementAt(a, t) == RequirementAt(b, t)
  {
    if t.OutputScreen? || t.OutputCast? {
      IndexInPrefix(a.outputs, b.outputs, t.output);
    }
  }

  lemma IndexInPrefix(a: seq<OutputRule>, b: seq<OutputRule>, name: string)
    requires a <= b && IndexOfOutput(a, name) < |a|
    ensures IndexOfOutput(b, name) == IndexOfOutput(a, name)
  {
    assert forall i :: 0 <= i < |a| ==> b[i] == a[i];
  }

  /** New places are fine when the added references say exactly what was written there. */
  lemma TrackedAfterGrowth(a: Settings, references: seq<Reference>, b: Settings, added: seq<Reference>)
    requires Tracked(a, references) && Extends(a, b) && DistinctNames(b.outputs)
    requires forall r <- added ::
      && Exists(b, r.target) && Value(b, r.target) == Some(r.name) && r.requirement == RequirementAt(b, r.target)
      && (r.target.OutputScreen? || r.target.OutputCast? ==> exists rule <- b.outputs :: rule.name == r.target.output)
    requires forall t | Exists(b, t) && !Exists(a, t) ::
               (Value(b, t).Some? && Value(b, t).value != "" ==> exists r <- added :: SamePlace(r.target, t))
    ensures Tracked(b, references + added)
  {
    var all := references + added;
    forall r <- all
      ensures Exists(b, r.target) && Value(b, r.target) == Some(r.name) && r.requirement == RequirementAt(b, r.target)
    {
      if r in references {
        ExtendsKeeps(a, b, r.target);
      }
    }
    assert OutputsNamedLiterally(b, all) by {
      forall r | r in all && (r.target.OutputScreen? || r.target.OutputCast?)
        ensures exists rule <- b.outputs :: rule.name == r.target.output
      {
        if r in references {
          var rule :| rule in a.outputs && rule.name == r.target.output;
          assert rule in b.outputs;
        }
      }
    }
    forall t | Exists(b, t) && Value(b, t).Some? && Value(b, t).value != ""
      ensures exists r <- all :: SamePlace(r.target, t)
    {
      if Exists(a, t) {
        ExtendsKeeps(a, b, t);
        var r :| r in references && SamePlace(r.target, t);
        assert r in all;
      } else {
        var r :| r in added && SamePlace(r.target, t);
        assert r in all;
      }
    }
  }

  lemma {:induction false} OtherOutputsMembers(outputs: seq<OutputRule>, name: string)
    ensures forall rule :: rule in OtherOutputs(outputs, name) <==> rule in outputs && !NamesEqual(rule.name, name)
  {
    if outputs == [] {
    } else {
      OtherOutputsMembers(outputs[..|outputs| - 1], name);
      assert outputs == outputs[..|outputs| - 1] + [outputs[|outputs| - 1]];
    }
  }

  lemma {:induction false} OtherOutputsDistinct(outputs: seq<OutputRule>, name: string)
    requires DistinctNames(outputs)
    ensures DistinctNames(OtherOutputs(outputs, name))
  {
    if outputs == [] {
    } else {
      var front, last := outputs[..|outputs| - 1], outputs[|outputs| - 1];
      OtherOutputsDistinct(front, name);
      OtherOutputsMembers(front, name);
      forall rule <- OtherOutputs(front, name) ensures !NamesEqual(rule.name, last.name) {
        var i :| 0 <= i < |front| && front[i] == rule;
        assert outputs[i] == rule && outputs[|front|] == last;
      }
    }
  }

  /** A name that is not the replaced one finds the same section in what remains. */
  lemma {:induction false} OtherOutputsFind(outputs: seq<OutputRule>, name: string, sought: string)
    requires DistinctNames(outputs) && !NamesEqual(sought, name)
    ensures var i, j := IndexOfOutput(outputs, sought), IndexOfOutput(OtherOutputs(outputs, name), sought);
            && (i < |outputs| <==> j < |OtherOutputs(outputs, name)|)
            && (i < |outputs| ==> outputs[i] == OtherOutputs(outputs, name)[j])
  {
    var kept := OtherOutputs(outputs, name);
    OtherOutputsMembers(outputs, name);
    OtherOutputsDistinct(outputs, name);
    var i, j := IndexOfOutput(outputs, sought), IndexOfOutput(kept, sought);
    if i < |outputs| {
      assert outputs[i] in kept;
      var k :| 0 <= k < |kept| && kept[k] == outputs[i];
      assert j <= k;
      assert !(j < k);
    }
    if j < |kept| {
      assert kept[j] in outputs;
      var k :| 0 <= k < |outputs| && outputs[k] == kept[j];
      assert i <= k;
      assert !(i < k);
    }
  }

  /** Dropping a section together with its references leaves everything else tracked. */
  lemma TrackedAfterRemoval(s: Settings, references: seq<Reference>, name: string)
    requires Tracked(s, references)
    ensures Tracked(s.(outputs := OtherOutputs(s.outputs, name)), OtherReferences(s.outputs, name, references))
    ensures forall rule <- OtherOutputs(s.outputs, name) :: !NamesEqual(rule.name, name)
  {
    var after, kept := s.(outputs := OtherOutputs(s.outputs, name)), OtherReferences(s.outputs, name, references);
    OtherOutputsMembers(s.outputs, name);
    OtherOutputsDistinct(s.outputs, name);
    forall r <- kept
      ensures Exists(after, r.target) && Value(after, r.target) == Some(r.name)
      ensures r.requirement == RequirementAt(after, r.target)
    {
      KeptReferenceIsElsewhere(s, references, name, r);
    }
    assert OutputsNamedLiterally(after, kept) by {
      forall r | r in kept && (r.target.OutputScreen? || r.target.OutputCast?)
        ensures exists rule <- after.outputs :: rule.name == r.target.output
      {
        var rule :| rule in s.outputs && rule.name == r.target.output;
        KeptReferenceIsElsewhere(s, references, name, r);
        assert rule in after.outputs;
      }
    }
    forall t | Exists(after, t) && Value(after, t).Some? && Value(after, t).value != ""
      ensures exists r <- kept :: SamePlace(r.target, t)
    {
      WrittenStaysTracked(s, references, name, t);
    }
  }

  lemma RemovalKeepsValue(s: Settings, name: string, t: Target)
    requires DistinctNames(s.outputs) && Exists(s.(outputs := OtherOutputs(s.outputs, name)), t)
    ensures t.OutputScreen? || t.OutputCast? ==> !NamesEqual(t.output, name)
    ensures Exists(s, t) && Value(s, t) == Value(s.(outputs := OtherOutputs(s.outputs, name)), t)
  {
    if t.OutputScreen? || t.OutputCast? {
      var kept := OtherOutputs(s.outputs, name);
      OtherOutputsMembers(s.outputs, name);
      assert kept[IndexOfOutput(kept, t.output)] in kept;
      OtherOutputsFind(s.outputs, name, t.output);
    }
  }

  lemma ElsewhereIsKept(outputs: seq<OutputRule>, references: seq<Reference>, name: string, r: Reference, t: Target)
    requires r in references && SamePlace(r.target, t)
    requires t.OutputScreen? || t.OutputCast? ==> !NamesEqual(t.output, name)
    ensures r in OtherReferences(outputs, name, references)
  {
  }

  lemma WrittenStaysTracked(s: Settings, references: seq<Reference>, name: string, t: Target)
    requires Tracked(s, references) && Exists(s.(outputs := OtherOutputs(s.outputs, name)), t)
    requires var value := Value(s.(outputs := OtherOutputs(s.outputs, name)), t); value.Some? && value.value != ""
    ensures exists r <- OtherReferences(s.outputs, name, references) :: SamePlace(r.target, t)
  {
    RemovalKeepsValue(s, name, t);
    var r :| r in references && SamePlace(r.target, t);
    ElsewhereIsKept(s.outputs, references, name, r, t);
  }

  lemma KeptReferenceIsElsewhere(s: Settings, references: seq<Reference>, name: string, r: Reference)
    requires Tracked(s, references) && r in OtherReferences(s.outputs, name, references)
    ensures r.target.OutputScreen? || r.target.OutputCast? ==> !NamesEqual(r.target.output, name)
    ensures Exists(s.(outputs := OtherOutputs(s.outputs, name)), r.target)
    ensures Value(s.(outputs := OtherOutputs(s.outputs, name)), r.target) == Some(r.name)
    ensures RequirementAt(s.(outputs := OtherOutputs(s.outputs, name)), r.target) == r.requirement
  {
    if r.target.OutputScreen? || r.target.OutputCast? {
      var rule :| rule in s.outputs && rule.name == r.target.output;
      assert !NamesEqual(rule.name, name);
      OtherOutputsFind(s.outputs, name, r.target.output);
    }
  }

  // ---------------------------------------------------------------- the loader

  class ConfigLoad {
    var loaded: Settings
    var references: seq<Reference>

    ghost predicate Valid()
      reads this
    {
      Tracked(loaded, references)
    }

    constructor ()
      ensures Valid() && loaded == Settings([], [], map[], [], []) && references == []
    {
      loaded := Settings([], [], map[], [], []);
      references := [];
    }

    method AddEffectReference(target: Target, name: string, requirement: Requirement)
      modifies this`references
      ensures references == old(references) + [Reference(target, name, requirement)]
    {
      references := references + [Reference(target, name, requirement)];
    }

    /** A selector of [effects] or [animation]; a table holds each key once. */
    method ReadField(field: Field, value: string)
      requires Valid() && field !in loaded.fields
      modifies this
      ensures Valid() && loaded == old(loaded).(fields := old(loaded).fields[field := value])
    {
      var before := loaded;
      loaded := loaded.(fields := loaded.fields[field := value]);
      var need := Requirement(field.kind, false, if field.kind.Animation? then PresetOnly else PresetOrPool);
      TrackedAfterGrowth(before, references, loaded, [Reference(Global(field), value, need)]);
      AddEffectReference(Global(field), value, need);
    }

    /** The keys of a table, in any order. */
    method ReadFields(fields: map<Field, string>)
      requires Valid() && loaded.fields.Keys !! fields.Keys
      modifies this
      ensures Valid() && loaded == old(loaded).(fields := old(loaded).fields + fields)
    {
      hide Tracked;
      ghost var start := loaded;
      var left := fields.Keys;
      while left != {}
        invariant left <= fields.Keys
        invariant Valid() && loaded == start.(fields := start.fields + (fields - left))
      {
        var field :| field in left;
        ReadField(field, fields[field]);
        assert start.fields + (fields - (left - {field})) == (start.fields + (fields - left))[field := fields[field]];
        left := left - {field};
      }
      assert fields - left == fields;
    }

    method ReadEffectPresets(entries: seq<PresetEntry>)
      requires Valid()
      modifies this
      ensures Valid() && loaded == old(loaded).(presets := old(loaded).presets + AcceptedPresets(entries))
    {
      ghost var start := loaded;
      for i := 0 to |entries|
        invariant Valid() && loaded == start.(presets := start.presets + AcceptedPresets(entries[..i]))
      {
        assert entries[..i + 1][..i] == entries[..i];
        var entry := entries[i];
        if !entry.isTable || !ValidEffectName(entry.name) || entry.kind.None? {
          continue;
        }
        var before, index := loaded, |loaded.presets|;
        var overlay := if entry.kind.value.Border? then entry.overlay else None;
        var preset := Preset(entry.name, entry.kind.value, overlay.GetOr(""), entry.settings);
        loaded := loaded.(presets := loaded.presets + [preset]);
        if overlay.Some? {
          var need := Requirement(Window, false, PresetOnly);
          TrackedAfterGrowth(before, references, loaded, [Reference(Overlay(index), overlay.value, need)]);
          AddEffectReference(Overlay(index), overlay.value, need);
        } else {
          TrackedAfterGrowth(before, references, loaded, []);
          assert references + [] == references;
        }
      }
      assert entries[..|entries|] == entries;
    }

    method ReadEffectPools(entries: seq<PoolEntry>)
      requires Valid()
      modifies this
      ensures Valid() && loaded == old(loaded).(pools := old(loaded).pools + AcceptedPools(entries))
    {
      ghost var start := loaded;
      for i := 0 to |entries|
        invariant Valid() && loaded == start.(pools := start.pools + AcceptedPools(entries[..i]))
      {
        assert entries[..i + 1][..i] == entries[..i];
        var entry := entries[i];
        if !ValidEffectName(entry.name) || !entry.isTable || entry.kind.None? || entry.kind.value.Animation?
           || entry.choose.None? || !entry.selectionValid {
          continue;
        }
        ReadPool(entry);
      }
      assert entries[..|entries|] == entries;
    }

    method ReadPool(entry: PoolEntry)
      requires Valid() && PoolAccepted(entry)
      modifies this
      ensures Valid()
      ensures loaded == old(loaded).(pools := old(loaded).pools
                          + [Pool(entry.name, entry.kind.value, ChosenMembers(entry.choose.value))])
    {
      hide Tracked;
      ghost var start := loaded;
      var kind, choose, poolIndex := entry.kind.value, entry.choose.value, |loaded.pools|;
      EmptyPoolAppended(loaded, references, entry.name, kind);
      loaded := loaded.(pools := loaded.pools + [Pool(entry.name, kind, [])]);
      var seen: set<string> := {};
      for i := 0 to |choose|
        invariant Valid()
        invariant loaded == start.(pools := start.pools + [Pool(entry.name, kind, ChosenMembers(choose[..i]))])
        invariant forall name :: name in seen <==> name in ChosenMembers(choose[..i])
      {
        assert choose[..i + 1][..i] == choose[..i];
        var value := choose[i];
        if value.None? || value.value == "" || value.value == OFF || value.value in seen {
          continue;
        }
        seen := seen + {value.value};
        var memberIndex := |loaded.pools[poolIndex].members|;
        MemberAppended(loaded, references, poolIndex, value.value);
        loaded := WithMember(loaded, poolIndex, value.value);
        AddEffectReference(Member(poolIndex, memberIndex), value.value, Requirement(kind, false, PresetOnly));
      }
      assert choose[..|choose|] == choose;
    }

    /** Records the effects of a rule under the index it is about to take. */
    method AcceptWindowRule(entry: RuleEntry) returns (accepted: bool)
      modifies this`references
      ensures accepted == entry.fieldsAccepted
      ensures references == old(references) + if accepted then RuleReferences(|loaded.windowRules|, entry.rule) else []
    {
      if !entry.fieldsAccepted {
        assert references + [] == references;
        return false;
      }
      var index := |loaded.windowRules|;
      if entry.rule.borderEffect.Some? {
        AddEffectReference(RuleBorder(index), entry.rule.borderEffect.value, Requirement(Border, true, PresetOrPool));
      }
      if entry.rule.windowEffect.Some? {
        AddEffectReference(RuleWindow(index), entry.rule.windowEffect.value, Requirement(Window, true, PresetOrPool));
      }
      return true;
    }

    method ReadWindowRules(entries: seq<RuleEntry>)
      requires Valid()
      modifies this
      ensures Valid() && loaded == old(loaded).(windowRules := old(loaded).windowRules + AcceptedRules(entries))
    {
      hide Tracked, RuleReferences;
      ghost var start := loaded;
      for i := 0 to |entries|
        invariant Valid() && loaded == start.(windowRules := start.windowRules + AcceptedRules(entries[..i]))
      {
        assert entries[..i + 1][..i] == entries[..i];
        ghost var before, tracked := loaded, references;
        var accepted := AcceptWindowRule(entries[i]);
        if accepted {
          loaded := loaded.(windowRules := loaded.windowRules + [entries[i].rule]);
          RuleAppended(before, tracked, entries[i].rule);
        } else {
          assert tracked + [] == tracked;
        }
      }
      assert entries[..|entries|] == entries;
    }

    /** Accepts a section; whatever an earlier one for that output had recorded is forgotten with it. */
    method AcceptOutput(rule: OutputRule, hasMinimum: bool) returns (duplicate: bool, error: bool)
      requires Valid()
      modifies this
      ensures Valid()
      ensures duplicate <==> exists existing <- old(loaded).outputs :: NamesEqual(existing.name, rule.name)
      ensures error <==> hasMinimum && rule.workspaces.Some?
      ensures loaded == old(loaded).(outputs := OtherOutputs(old(loaded).outputs, rule.name) + [rule])
      ensures references == OtherReferences(old(loaded).outputs, rule.name, old(references)) + OutputReferences(rule)
    {
      hide Tracked;
      duplicate := DropReplaced(rule.name);
      error := hasMinimum && rule.workspaces.Some?;
      OutputAppended(loaded, references, rule);
      loaded := loaded.(outputs := loaded.outputs + [rule]);
      ghost var tracked := references;
      if rule.screenEffect.Some? {
        AddEffectReference(OutputScreen(rule.name), rule.screenEffect.value, Requirement(Screen, true, PresetOrPool));
      }
      if rule.screenCastEffect.Some? {
        AddEffectReference(OutputCast(rule.name), rule.screenCastEffect.value, Requirement(Screen, true, PresetOrPool));
      }
      assert references == tracked + OutputReferences(rule);
    }

    /** Every section in order; whether one of them reported an error. */
    method ReadOutputs(sections: seq<OutputSection>) returns (errors: bool)
      requires Valid() && loaded.outputs == []
      modifies this
      ensures Valid() && loaded == old(loaded).(outputs := AcceptedOutputs(sections))
      ensures errors <==> exists section <- sections :: MinimumOnFixed(section)
    {
      hide Tracked, OtherOutputs, OtherReferences, OutputReferences, AcceptedOutputs, MinimumOnFixed;
      ghost var start := loaded;
      errors := false;
      NoOutputs();
      for i := 0 to |sections|
        invariant Valid() && loaded == start.(outputs := AcceptedOutputs(sections[..i]))
        invariant errors <==> exists k :: 0 <= k < i && MinimumOnFixed(sections[k])
      {
        NextOutput(sections, i);
        var _, error := AcceptOutput(sections[i].rule, sections[i].hasMinimum);
        errors := errors || error;
      }
      assert sections[..|sections|] == sections;
    }

    method DropReplaced(name: string) returns (duplicate: bool)
      requires Valid()
      modifies this
      ensures Valid() && forall rule <- loaded.outputs :: !NamesEqual(rule.name, name)
      ensures loaded == old(loaded).(outputs := OtherOutputs(old(loaded).outputs, name))
      ensures references == OtherReferences(old(loaded).outputs, name, old(references))
      ensures duplicate <==> exists existing <- old(loaded).outputs :: NamesEqual(existing.name, name)
    {
      duplicate := exists existing <- loaded.outputs :: NamesEqual(existing.name, name);
      if duplicate {
        TrackedAfterRemoval(loaded, references, name);
        references := OtherReferences(loaded.outputs, name, references);
        loaded := loaded.(outputs := OtherOutputs(loaded.outputs, name));
      } else {
        NothingToReplace(loaded, references, name);
      }
    }

    /** The end of the load: reject, clear, and only then compact the pools. */
    method ValidateEffectReferences()
      requires Valid()
      modifies this`loaded
      ensures loaded == Compacted(AfterRejections(old(loaded), references)) == Compacted(Cleaned(old(loaded)))
      ensures forall t | Exists(loaded, t) :: Sound(loaded, t)
    {
      hide Cleaned, Compacted, Exists, Sound;
      ghost var start := loaded;
      RejectAll();
      CompactPools();
      RejectionsScreen(start, references);
      EveryPlaceEndsSound(start, references);
    }

    /** Runs the callback of every reference that names nothing suitable. */
    method RejectAll()
      requires Valid()
      modifies this`loaded
      ensures loaded == AfterRejections(old(loaded), references)
    {
      assert AllExist(loaded, references);
      hide ReferenceError, Clear, Exists, Tracked;
      ghost var start := loaded;
      for i := 0 to |references|
        invariant loaded == AfterRejections(start, references[..i])
      {
        var reference := references[i];
        NextRejection(start, references, i);
        if ReferenceError(loaded, reference.name, reference.requirement) {
          loaded := Clear(loaded, reference.target);
        }
      }
      assert references[..|references|] == references;
    }

    method CompactPools()
      modifies this`loaded
      ensures loaded == Compacted(old(loaded))
    {
      ghost var cleared := loaded;
      for p := 0 to |loaded.pools|
        invariant |loaded.pools| == |cleared.pools|
        invariant loaded == cleared.(pools := loaded.pools)
        invariant forall q :: 0 <= q < |cleared.pools| ==>
          loaded.pools[q] == if q < p then cleared.pools[q].(members := NonEmpty(cleared.pools[q].members))
                             else cleared.pools[q]
      {
        loaded := loaded.(pools := loaded.pools[p := loaded.pools[p].(members := NonEmpty(loaded.pools[p].members))]);
      }
      assert loaded.pools == Compacted(cleared).pools;
    }
  }

  function RuleReferences(index: nat, rule: WindowRule): seq<Reference> {
    (if rule.borderEffect.Some?
     then [Reference(RuleBorder(index), rule.borderEffect.value, Requirement(Border, true, PresetOrPool))] else [])
    + (if rule.windowEffect.Some?
       then [Reference(RuleWindow(index), rule.windowEffect.value, Requirement(Window, true, PresetOrPool))] else [])
  }

  function OutputReferences(rule: OutputRule): seq<Reference> {
    (if rule.screenEffect.Some?
     then [Reference(OutputScreen(rule.name), rule.screenEffect.value, Requirement(Screen, true, PresetOrPool))]
     else [])
    + (if rule.screenCastEffect.Some?
       then [Reference(OutputCast(rule.name), rule.screenCastEffect.value, Requirement(Screen, true, PresetOrPool))]
       else [])
  }

  lemma {:induction false} NoneNamed(outputs: seq<OutputRule>, name: string)
    requires forall rule <- outputs :: !NamesEqual(rule.name, name)
    ensures OtherOutputs(outputs, name) == outputs
  {
    if outputs == [] {
    } else {
      NoneNamed(outputs[..|outputs| - 1], name);
    }
  }

  lemma {:induction false} NoReferenceNamed(outputs: seq<OutputRule>, name: string, references: seq<Reference>)
    requires forall rule <- outputs :: !NamesEqual(rule.name, name)
    ensures OtherReferences(outputs, name, references) == references
  {
    if references == [] {
    } else {
      NoReferenceNamed(outputs, name, references[..|references| - 1]);
    }
  }

  lemma NothingToReplace(s: Settings, references: seq<Reference>, name: string)
    requires forall rule <- s.outputs :: !NamesEqual(rule.name, name)
    ensures OtherOutputs(s.outputs, name) == s.outputs
    ensures OtherReferences(s.outputs, name, references) == references
  {
    NoneNamed(s.outputs, name);
    NoReferenceNamed(s.outputs, name, references);
  }

  lemma {:induction false} IndexOfLast(outputs: seq<OutputRule>, rule: OutputRule, name: string)
    requires forall o <- outputs :: !NamesEqual(o.name, rule.name)
    requires NamesEqual(name, rule.name)
    ensures IndexOfOutput(outputs + [rule], name) == |outputs|
  {
    var all := outputs + [rule];
    assert all[|outputs|] == rule;
    forall i | 0 <= i < |outputs| ensures !NamesEqual(all[i].name, name) {
      assert all[i] in outputs;
    }
  }

  function WithMember(s: Settings, pool: nat, name: string): Settings
    requires pool < |s.pools|
  {
    s.(pools := s.pools[pool := s.pools[pool].(members := s.pools[pool].members + [name])])
  }

  lemma EmptyPoolAppended(s: Settings, references: seq<Reference>, name: string, kind: Kind)
    requires Tracked(s, references)
    ensures Tracked(s.(pools := s.pools + [Pool(name, kind, [])]), references)
  {
    TrackedAfterGrowth(s, references, s.(pools := s.pools + [Pool(name, kind, [])]), []);
    assert references + [] == references;
  }

  lemma MemberAppended(s: Settings, references: seq<Reference>, pool: nat, name: string)
    requires Tracked(s, references) && pool < |s.pools|
    ensures var added := Reference(Member(pool, |s.pools[pool].members|), name,
                                   Requirement(s.pools[pool].kind, false, PresetOnly));
      Tracked(WithMember(s, pool, name), references + [added])
  {
    var target, need := Member(pool, |s.pools[pool].members|), Requirement(s.pools[pool].kind, false, PresetOnly);
    var added := [Reference(target, name, need)];
    forall t | Exists(WithMember(s, pool, name), t) && !Exists(s, t) ensures SamePlace(added[0].target, t) {
    }
    TrackedAfterGrowth(s, references, WithMember(s, pool, name), added);
  }

  /** The places an accepted section brings are its own two selectors. */
  lemma PlacesOfNewOutput(s: Settings, rule: OutputRule, t: Target)
    requires forall o <- s.outputs :: !NamesEqual(o.name, rule.name)
    requires Exists(s.(outputs := s.outputs + [rule]), t) && !Exists(s, t)
    ensures t.OutputScreen? || t.OutputCast?
    ensures NamesEqual(t.output, rule.name)
    ensures Value(s.(outputs := s.outputs + [rule]), t)
         == if t.OutputScreen? then rule.screenEffect else rule.screenCastEffect
  {
    var name := t.output;
    if IndexOfOutput(s.outputs + [rule], name) < |s.outputs| {
      IndexInPrefixBack(s.outputs, rule, name);
    }
  }

  lemma IndexInPrefixBack(outputs: seq<OutputRule>, rule: OutputRule, name: string)
    requires IndexOfOutput(outputs + [rule], name) < |outputs|
    ensures IndexOfOutput(outputs, name) < |outputs|
  {
    var i := IndexOfOutput(outputs + [rule], name);
    assert (outputs + [rule])[i] == outputs[i];
  }

  /** What is recorded for a section says exactly what the section holds. */
  lemma RecordedOfNewOutput(s: Settings, rule: OutputRule, r: Reference)
    requires forall o <- s.outputs :: !NamesEqual(o.name, rule.name)
    requires r in OutputReferences(rule)
    ensures var after := s.(outputs := s.outputs + [rule]);
      && Exists(after, r.target) && Value(after, r.target) == Some(r.name)
      && r.requirement == RequirementAt(after, r.target)
    ensures (r.target.OutputScreen? || r.target.OutputCast?) && r.target.output == rule.name
  {
    IndexOfLast(s.outputs, rule, rule.name);
  }

  lemma OutputAppended(s: Settings, references: seq<Reference>, rule: OutputRule)
    requires Tracked(s, references) && forall o <- s.outputs :: !NamesEqual(o.name, rule.name)
    ensures Tracked(s.(outputs := s.outputs + [rule]), references + OutputReferences(rule))
  {
    var after, added := s.(outputs := s.outputs + [rule]), OutputReferences(rule);
    forall t | Exists(after, t) && !Exists(s, t) && Value(after, t).Some?
      ensures exists r <- added :: SamePlace(r.target, t)
    {
      PlacesOfNewOutput(s, rule, t);
      var need := Requirement(Screen, true, PresetOrPool);
      var place := if t.OutputScreen? then OutputScreen(rule.name) else OutputCast(rule.name);
      assert Reference(place, Value(after, t).value, need) in added;
    }
    assert rule in after.outputs;
    forall r <- added
      ensures Exists(after, r.target) && Value(after, r.target) == Some(r.name)
      ensures r.requirement == RequirementAt(after, r.target)
      ensures r.target.OutputScreen? || r.target.OutputCast? ==> exists o <- after.outputs :: o.name == r.target.output
    {
      RecordedOfNewOutput(s, rule, r);
    }
    hide OutputReferences, IndexOfOutput;
    TrackedAfterGrowth(s, references, after, added);
  }

  lemma RuleAppended(s: Settings, references: seq<Reference>, rule: WindowRule)
    requires Tracked(s, references)
    ensures Tracked(s.(windowRules := s.windowRules + [rule]), references + RuleReferences(|s.windowRules|, rule))
  {
    var after, added := s.(windowRules := s.windowRules + [rule]), RuleReferences(|s.windowRules|, rule);
    forall t | Exists(after, t) && !Exists(s, t) && Value(after, t).Some?
      ensures exists r <- added :: SamePlace(r.target, t)
    {
      if t.RuleBorder? {
        assert Reference(t, rule.borderEffect.value, Requirement(Border, true, PresetOrPool)) in added;
      } else {
        assert Reference(t, rule.windowEffect.value, Requirement(Window, true, PresetOrPool)) in added;
      }
    }
    TrackedAfterGrowth(s, references, after, added);
  }

  /** After replacing a section, the surviving one keeps each of its effects unless that effect's own name is bad. */
  lemma ReplacedSectionCannotClear(s: Settings, references: seq<Reference>, rule: OutputRule)
    requires Tracked(s, references) && rule in s.outputs
    ensures Exists(s, OutputScreen(rule.name)) && Exists(s, OutputCast(rule.name))
    ensures Value(AfterRejections(s, references), OutputScreen(rule.name)) == Kept(s, rule.screenEffect, Screen)
    ensures Value(AfterRejections(s, references), OutputCast(rule.name)) == Kept(s, rule.screenCastEffect, Screen)
  {
    var i :| 0 <= i < |s.outputs| && s.outputs[i] == rule;
    assert IndexOfOutput(s.outputs, rule.name) == i;
    NothingDangles(s, references, OutputScreen(rule.name));
    NothingDangles(s, references, OutputCast(rule.name));
  }
}
