/**
 Effect selectors and their deferred validation (src/config/effects.cpp, fields_effects.cpp,
 fields_rules.cpp, fields_output.cpp, fields.cpp).

 Reading a selector records a reference holding a callback that empties the selector's place. The
 callbacks name places by index or by output name, so they are data here: a `Target`. Once every
 table is read, the references that name nothing suitable are cleared and only then are the pools
 compacted. The section texts the source stores beside the callbacks serve one purpose, dropping
 the references of a replaced output section, and identify the same place the target does.
 */
module EffectReferences {
  import opened Options
  import opened OutputNames
  import opened ConfigModel

  datatype Kind = Animation | Border | Window | Screen | Cursor

  datatype Constraint = PresetOnly | PresetOrPool | PoolRequired

  const OFF := "off"

  /** `settings` is everything else a preset holds: its shader, its palette and its numbers. */
  datatype Preset = Preset(name: string, kind: Kind, overlay: string, settings: nat)

  datatype Pool = Pool(name: string, kind: Kind, members: seq<string>)

  /** A selector of [effects] or [animation]: where it is and what kind of effect it takes. */
  datatype Field = Field(path: string, kind: Kind)

  datatype Settings = Settings(
    presets: seq<Preset>, pools: seq<Pool>, fields: map<Field, string>,
    windowRules: seq<WindowRule>, outputs: seq<OutputRule>)

  datatype Target =
    | Overlay(preset: nat)
    | Member(pool: nat, member: nat)
    | Global(field: Field)
    | RuleBorder(rule: nat)
    | RuleWindow(rule: nat)
    | OutputScreen(output: string)
    | OutputCast(output: string)

  datatype Requirement = Requirement(kind: Kind, allowOff: bool, constraint: Constraint)

  datatype Reference = Reference(target: Target, name: string, requirement: Requirement)

  // ---------------------------------------------------------------- what a name may refer to

  function FindPreset(presets: seq<Preset>, name: string): Option<Preset> {
    if presets == [] then None
    else if presets[0].name == name then Some(presets[0])
    else FindPreset(presets[1..], name)
  }

  function FindPool(pools: seq<Pool>, name: string): Option<Pool> {
    if pools == [] then None
    else if pools[0].name == name then Some(pools[0])
    else FindPool(pools[1..], name)
  }

  /** Whether `effectReferenceError` reports something. */
  predicate ReferenceError(s: Settings, name: string, need: Requirement) {
    if name == "" || (need.allowOff && name == OFF) then false
    else
      match FindPreset(s.presets, name)
      case None =>
        (match FindPool(s.pools, name)
         case Some(pool) => need.constraint.PresetOnly? || pool.kind != need.kind
         case None => true)
      case Some(preset) => preset.kind != need.kind || need.constraint.PoolRequired?
  }

  /** The first preset of that name. */
  predicate IsPreset(presets: seq<Preset>, i: int, name: string) {
    0 <= i < |presets| && presets[i].name == name && forall j | 0 <= j < i :: presets[j].name != name
  }

  predicate IsPool(pools: seq<Pool>, i: int, name: string) {
    0 <= i < |pools| && pools[i].name == name && forall j | 0 <= j < i :: pools[j].name != name
  }

  lemma {:induction false} FindsFirstPreset(presets: seq<Preset>, name: string)
    ensures FindPreset(presets, name).None? <==> forall i | 0 <= i < |presets| :: presets[i].name != name
    ensures forall i | IsPreset(presets, i, name) :: FindPreset(presets, name) == Some(presets[i])
    ensures FindPreset(presets, name).Some? ==> exists i :: IsPreset(presets, i, name)
  {
    if presets == [] {
    } else if presets[0].name == name {
      assert IsPreset(presets, 0, name);
    } else {
      FindsFirstPreset(presets[1..], name);
      forall i | IsPreset(presets, i, name) ensures FindPreset(presets, name) == Some(presets[i]) {
        assert IsPreset(presets[1..], i - 1, name);
      }
      if k :| IsPreset(presets[1..], k, name) {
        assert IsPreset(presets, k + 1, name);
      }
    }
  }

  lemma {:induction false} FindsFirstPool(pools: seq<Pool>, name: string)
    ensures FindPool(pools, name).None? <==> forall i | 0 <= i < |pools| :: pools[i].name != name
    ensures forall i | IsPool(pools, i, name) :: FindPool(pools, name) == Some(pools[i])
    ensures FindPool(pools, name).Some? ==> exists i :: IsPool(pools, i, name)
  {
    if pools == [] {
    } else if pools[0].name == name {
      assert IsPool(pools, 0, name);
    } else {
      FindsFirstPool(pools[1..], name);
      forall i | IsPool(pools, i, name) ensures FindPool(pools, name) == Some(pools[i]) {
        assert IsPool(pools[1..], i - 1, name);
      }
      if k :| IsPool(pools[1..], k, name) {
        assert IsPool(pools, k + 1, name);
      }
    }
  }

  /** A name fits a place when it is empty, a permitted "off", or names something of the right kind and constraint. */
  lemma AcceptableExactly(s: Settings, name: string, need: Requirement)
    ensures !ReferenceError(s, name, need) <==>
      || name == ""
      || (need.allowOff && name == OFF)
      || (!need.constraint.PoolRequired? && exists i :: IsPreset(s.presets, i, name) && s.presets[i].kind == need.kind)
      || (&& !need.constraint.PresetOnly?
          && (forall i | 0 <= i < |s.presets| :: s.presets[i].name != name)
          && exists i :: IsPool(s.pools, i, name) && s.pools[i].kind == need.kind)
  {
    FindsFirstPreset(s.presets, name);
    FindsFirstPool(s.pools, name);
  }

  // ---------------------------------------------------------------- places a selector can live

  function IndexOfOutput(outputs: seq<OutputRule>, name: string): (index: nat)
    ensures index <= |outputs|
    ensures index < |outputs| ==> NamesEqual(outputs[index].name, name)
    ensures forall i :: 0 <= i < index ==> !NamesEqual(outputs[i].name, name)
  {
    if outputs == [] || NamesEqual(outputs[0].name, name) then 0
    else 1 + IndexOfOutput(outputs[1..], name)
  }

  predicate Exists(s: Settings, t: Target) {
    match t
    case Overlay(i) => i < |s.presets|
    case Member(p, m) => p < |s.pools| && m < |s.pools[p].members|
    case Global(field) => field in s.fields
    case RuleBorder(i) => i < |s.windowRules|
    case RuleWindow(i) => i < |s.windowRules|
    case OutputScreen(name) => IndexOfOutput(s.outputs, name) < |s.outputs|
    case OutputCast(name) => IndexOfOutput(s.outputs, name) < |s.outputs|
  }

  /** What is written at a place; None where an optional selector is not set. */
  function Value(s: Settings, t: Target): Option<string>
    requires Exists(s, t)
  {
    match t
    case Overlay(i) => Some(s.presets[i].overlay)
    case Member(p, m) => Some(s.pools[p].members[m])
    case Global(field) => Some(s.fields[field])
    case RuleBorder(i) => s.windowRules[i].borderEffect
    case RuleWindow(i) => s.windowRules[i].windowEffect
    case OutputScreen(name) => s.outputs[IndexOfOutput(s.outputs, name)].screenEffect
    case OutputCast(name) => s.outputs[IndexOfOutput(s.outputs, name)].screenCastEffect
  }

  function RequirementAt(s: Settings, t: Target): Requirement
    requires Exists(s, t)
  {
    match t
    case Overlay(_) => Requirement(Window, false, PresetOnly)
    case Member(p, _) => Requirement(s.pools[p].kind, false, PresetOnly)
    case Global(field) => Requirement(field.kind, false, if field.kind.Animation? then PresetOnly else PresetOrPool)
    case RuleBorder(_) => Requirement(Border, true, PresetOrPool)
    case RuleWindow(_) => Requirement(Window, true, PresetOrPool)
    case OutputScreen(_) => Requirement(Screen, true, PresetOrPool)
    case OutputCast(_) => Requirement(Screen, true, PresetOrPool)
  }

  function Emptied(t: Target): Option<string> {
    if t.Overlay? || t.Member? || t.Global? then Some("") else None
  }

  /** Runs the callback of a reference. */
  function Clear(s: Settings, t: Target): Settings
    requires Exists(s, t)
  {
    match t
    case Overlay(i) => s.(presets := s.presets[i := s.presets[i].(overlay := "")])
    case Member(p, m) => s.(pools := s.pools[p := s.pools[p].(members := s.pools[p].members[m := ""])])
    case Global(field) => s.(fields := s.fields[field := ""])
    case RuleBorder(i) => s.(windowRules := s.windowRules[i := s.windowRules[i].(borderEffect := None)])
    case RuleWindow(i) => s.(windowRules := s.windowRules[i := s.windowRules[i].(windowEffect := None)])
    case OutputScreen(name) =>
      var i := IndexOfOutput(s.outputs, name);
      s.(outputs := s.outputs[i := s.outputs[i].(screenEffect := None)])
    case OutputCast(name) =>
      var i := IndexOfOutput(s.outputs, name);
      s.(outputs := s.outputs[i := s.outputs[i].(screenCastEffect := None)])
  }

  /** Spellings of one output name are one place. */
  predicate SamePlace(t: Target, u: Target) {
    match (t, u)
    case (OutputScreen(a), OutputScreen(b)) => NamesEqual(a, b)
    case (OutputCast(a), OutputCast(b)) => NamesEqual(a, b)
    case _ => t == u
  }

  // ---------------------------------------------------------------- clearing leaves the rest alone

  /** Everything about the settings that clearing cannot change. */
  ghost predicate SameShape(a: Settings, b: Settings) {
    && |a.presets| == |b.presets|
    && (forall i :: 0 <= i < |a.presets| ==>
          && a.presets[i].name == b.presets[i].name && a.presets[i].kind == b.presets[i].kind
          && a.presets[i].settings == b.presets[i].settings)
    && |a.pools| == |b.pools|
    && (forall i :: 0 <= i < |a.pools| ==>
          && a.pools[i].name == b.pools[i].name && a.pools[i].kind == b.pools[i].kind
          && |a.pools[i].members| == |b.pools[i].members|)
    && a.fields.Keys == b.fields.Keys
    && |a.windowRules| == |b.windowRules|
    && (forall i :: 0 <= i < |a.windowRules| ==>
          a.windowRules[i] == b.windowRules[i].(borderEffect := a.windowRules[i].borderEffect,
                                                windowEffect := a.windowRules[i].windowEffect))
    && |a.outputs| == |b.outputs|
    && (forall i :: 0 <= i < |a.outputs| ==>
          a.outputs[i] == b.outputs[i].(screenEffect := a.outputs[i].screenEffect,
                                        screenCastEffect := a.outputs[i].screenCastEffect))
  }

  lemma {:induction false} SameIndex(a: seq<OutputRule>, b: seq<OutputRule>, name: string)
    requires |a| == |b| && forall i :: 0 <= i < |a| ==> a[i].name == b[i].name
    ensures IndexOfOutput(a, name) == IndexOfOutput(b, name)
  {
    if a == [] {
    } else {
      SameIndex(a[1..], b[1..], name);
    }
  }

  lemma SamePlaceSameIndex(outputs: seq<OutputRule>, a: string, b: string)
    requires NamesEqual(a, b)
    ensures IndexOfOutput(outputs, a) == IndexOfOutput(outputs, b)
  {
  }

  lemma ClearKeepsShape(s: Settings, t: Target)
    requires Exists(s, t)
    ensures SameShape(s, Clear(s, t))
  {
  }

  lemma ShapeKeepsPlaces(a: Settings, b: Settings, t: Target)
    requires SameShape(a, b) && Exists(a, t)
    ensures Exists(b, t) && RequirementAt(a, t) == RequirementAt(b, t)
  {
    if t.OutputScreen? || t.OutputCast? {
      SameIndex(a.outputs, b.outputs, t.output);
    }
  }

  lemma ClearValue(s: Settings, t: Target, u: Target)
    requires Exists(s, t) && Exists(s, u)
    ensures Exists(Clear(s, t), u)
    ensures Value(Clear(s, t), u) == if SamePlace(t, u) then Emptied(u) else Value(s, u)
  {
    ClearKeepsShape(s, t);
    ShapeKeepsPlaces(s, Clear(s, t), u);
    if (t.OutputScreen? || t.OutputCast?) && (u.OutputScreen? || u.OutputCast?) {
      SameIndex(s.outputs, Clear(s, t).outputs, u.output);
      if NamesEqual(t.output, u.output) {
        SamePlaceSameIndex(s.outputs, t.output, u.output);
      }
    }
  }

  lemma {:induction false} FindPresetByShape(a: seq<Preset>, b: seq<Preset>, name: string)
    requires |a| == |b| && forall i :: 0 <= i < |a| ==> a[i].name == b[i].name && a[i].kind == b[i].kind
    ensures FindPreset(a, name).Some? == FindPreset(b, name).Some?
    ensures FindPreset(a, name).Some? ==> FindPreset(a, name).value.kind == FindPreset(b, name).value.kind
  {
    if a == [] {
    } else {
      FindPresetByShape(a[1..], b[1..], name);
    }
  }

  lemma {:induction false} FindPoolByShape(a: seq<Pool>, b: seq<Pool>, name: string)
    requires |a| == |b| && forall i :: 0 <= i < |a| ==> a[i].name == b[i].name && a[i].kind == b[i].kind
    ensures FindPool(a, name).Some? == FindPool(b, name).Some?
    ensures FindPool(a, name).Some? ==> FindPool(a, name).value.kind == FindPool(b, name).value.kind
  {
    if a == [] {
    } else {
      FindPoolByShape(a[1..], b[1..], name);
    }
  }

  /** Whether a name is acceptable does not depend on which other selectors were cleared. */
  lemma ErrorByShape(a: Settings, b: Settings, name: string, need: Requirement)
    requires SameShape(a, b)
    ensures ReferenceError(a, name, need) == ReferenceError(b, name, need)
  {
    FindPresetByShape(a.presets, b.presets, name);
    FindPoolByShape(a.pools, b.pools, name);
  }

  lemma ShapeIsTransitive(a: Settings, b: Settings, c: Settings)
    requires SameShape(a, b) && SameShape(b, c)
    ensures SameShape(a, c)
  {
  }

  // ---------------------------------------------------------------- running every rejected callback

  ghost predicate AllExist(s: Settings, references: seq<Reference>) {
    forall r <- references :: Exists(s, r.target)
  }

  predicate Rejected(s: Settings, r: Reference) {
    ReferenceError(s, r.name, r.requirement)
  }

  function AfterRejections(s: Settings, references: seq<Reference>): (result: Settings)
    requires AllExist(s, references)
    ensures SameShape(s, result)
  {
    if references == [] then s
    else
      var earlier := AfterRejections(s, references[..|references| - 1]);
      var last := references[|references| - 1];
      ShapeKeepsPlaces(s, earlier, last.target);
      if Rejected(earlier, last) then
        ClearKeepsShape(earlier, last.target);
        ShapeIsTransitive(s, earlier, Clear(earlier, last.target));
        Clear(earlier, last.target)
      else earlier
  }

  /** What one more reference does. */
  lemma NextRejection(s: Settings, references: seq<Reference>, i: nat)
    requires AllExist(s, references) && i < |references|
    ensures var before, r := AfterRejections(s, references[..i]), references[i];
      && Exists(before, r.target)
      && AfterRejections(s, references[..i + 1])
         == if ReferenceError(before, r.name, r.requirement) then Clear(before, r.target) else before
  {
    assert references[..i + 1][..i] == references[..i];
    ShapeKeepsPlaces(s, AfterRejections(s, references[..i]), references[i].target);
  }

  ghost predicate RejectedAt(s: Settings, references: seq<Reference>, t: Target) {
    exists r <- references :: SamePlace(r.target, t) && Rejected(s, r)
  }

  /** Each place ends empty exactly when a reference to it is rejected by the settings as read. */
  lemma {:induction false} ValueAfterRejections(s: Settings, references: seq<Reference>, t: Target)
    requires AllExist(s, references) && Exists(s, t)
    ensures Exists(AfterRejections(s, references), t)
    ensures Value(AfterRejections(s, references), t)
         == if RejectedAt(s, references, t) then Emptied(t) else Value(s, t)
  {
    ShapeKeepsPlaces(s, AfterRejections(s, references), t);
    if references == [] {
    } else {
      var front, last := references[..|references| - 1], references[|references| - 1];
      var earlier := AfterRejections(s, front);
      ValueAfterRejections(s, front, t);
      ShapeKeepsPlaces(s, earlier, last.target);
      ErrorByShape(s, earlier, last.name, last.requirement);
      assert forall r :: r in references <==> r in front || r == last;
      if Rejected(earlier, last) {
        ClearValue(earlier, last.target, t);
      }
    }
  }

  lemma MembersByValue(a: Settings, b: Settings, p: nat)
    requires SameShape(a, b) && p < |a.pools|
    requires forall t | Exists(a, t) && Exists(b, t) :: Value(a, t) == Value(b, t)
    ensures a.pools[p].members == b.pools[p].members
  {
    forall m | 0 <= m < |a.pools[p].members| ensures a.pools[p].members[m] == b.pools[p].members[m] {
      var t := Member(p, m);
      assert Exists(a, t) && Exists(b, t) && Value(a, t) == Value(b, t);
    }
  }

  lemma OutputByValue(a: Settings, b: Settings, i: nat)
    requires SameShape(a, b) && i < |a.outputs|
    requires DistinctNames(a.outputs)
    requires forall t | Exists(a, t) && Exists(b, t) :: Value(a, t) == Value(b, t)
    ensures a.outputs[i] == b.outputs[i]
  {
    var name := a.outputs[i].name;
    SameIndex(a.outputs, b.outputs, name);
    assert IndexOfOutput(a.outputs, name) == i;
    assert Exists(a, OutputScreen(name)) && Exists(b, OutputScreen(name));
    assert Value(a, OutputScreen(name)) == Value(b, OutputScreen(name));
    assert Exists(a, OutputCast(name)) && Exists(b, OutputCast(name));
    assert Value(a, OutputCast(name)) == Value(b, OutputCast(name));
  }

  lemma RuleByValue(a: Settings, b: Settings, i: nat)
    requires SameShape(a, b) && i < |a.windowRules|
    requires forall t | Exists(a, t) && Exists(b, t) :: Value(a, t) == Value(b, t)
    ensures a.windowRules[i] == b.windowRules[i]
  {
    assert Exists(a, RuleBorder(i)) && Exists(b, RuleBorder(i)) && Value(a, RuleBorder(i)) == Value(b, RuleBorder(i));
    assert Exists(a, RuleWindow(i)) && Exists(b, RuleWindow(i)) && Value(a, RuleWindow(i)) == Value(b, RuleWindow(i));
  }

  lemma FieldByValue(a: Settings, b: Settings, field: Field)
    requires SameShape(a, b) && field in a.fields
    requires forall t | Exists(a, t) && Exists(b, t) :: Value(a, t) == Value(b, t)
    ensures field in b.fields && a.fields[field] == b.fields[field]
  {
    assert Exists(a, Global(field)) && Exists(b, Global(field)) && Value(a, Global(field)) == Value(b, Global(field));
  }

  lemma PresetByValue(a: Settings, b: Settings, i: nat)
    requires SameShape(a, b) && i < |a.presets|
    requires forall t | Exists(a, t) && Exists(b, t) :: Value(a, t) == Value(b, t)
    ensures a.presets[i] == b.presets[i]
  {
    assert Exists(a, Overlay(i)) && Exists(b, Overlay(i)) && Value(a, Overlay(i)) == Value(b, Overlay(i));
  }

  /** Settings are determined by their shape and the value at every place. */
  lemma SettingsByValue(a: Settings, b: Settings)
    requires SameShape(a, b)
    requires DistinctNames(a.outputs)
    requires forall t | Exists(a, t) && Exists(b, t) :: Value(a, t) == Value(b, t)
    ensures a == b
  {
    forall i | 0 <= i < |a.presets| ensures a.presets[i] == b.presets[i] { PresetByValue(a, b, i); }
    forall p | 0 <= p < |a.pools| ensures a.pools[p] == b.pools[p] { MembersByValue(a, b, p); }
    forall i | 0 <= i < |a.windowRules| ensures a.windowRules[i] == b.windowRules[i] { RuleByValue(a, b, i); }
    forall i | 0 <= i < |a.outputs| ensures a.outputs[i] == b.outputs[i] { OutputByValue(a, b, i); }
    forall field <- a.fields ensures field in b.fields && a.fields[field] == b.fields[field] {
      FieldByValue(a, b, field);
    }
    assert a.presets == b.presets && a.pools == b.pools && a.windowRules == b.windowRules;
    assert a.outputs == b.outputs && a.fields == b.fields;
  }

  /** The order in which references are checked makes no difference. */
  lemma OrderIsIrrelevant(s: Settings, one: seq<Reference>, other: seq<Reference>)
    requires AllExist(s, one) && AllExist(s, other)
    requires forall r :: r in one <==> r in other
    requires DistinctNames(s.outputs)
    ensures AfterRejections(s, one) == AfterRejections(s, other)
  {
    var a, b := AfterRejections(s, one), AfterRejections(s, other);
    forall t | Exists(a, t) && Exists(b, t) ensures Value(a, t) == Value(b, t) {
      ShapeKeepsPlaces(a, s, t);
      ValueAfterRejections(s, one, t);
      ValueAfterRejections(s, other, t);
    }
    SettingsByValue(a, b);
  }

  // ---------------------------------------------------------------- compaction

  function NonEmpty(members: seq<string>): seq<string> {
    if members == [] then []
    else
      var rest := NonEmpty(members[..|members| - 1]);
      if members[|members| - 1] == "" then rest else rest + [members[|members| - 1]]
  }

  function Compacted(s: Settings): Settings {
    s.(pools := seq(|s.pools|, p requires 0 <= p < |s.pools| => s.pools[p].(members := NonEmpty(s.pools[p].members))))
  }

  // ---------------------------------------------------------------- the load

  /** A reference to an output spells the name as the section does. */
  ghost predicate OutputsNamedLiterally(s: Settings, references: seq<Reference>) {
    forall r <- references :: r.target.OutputScreen? || r.target.OutputCast?
      ==> exists rule <- s.outputs :: rule.name == r.target.output
  }

  /** Every written selector is tracked by a reference, and every reference tracks what is written. */
  ghost predicate Tracked(s: Settings, references: seq<Reference>) {
    && DistinctNames(s.outputs)
    && OutputsNamedLiterally(s, references)
    && (forall r <- references ::
          Exists(s, r.target) && Value(s, r.target) == Some(r.name) && r.requirement == RequirementAt(s, r.target))
    && (forall t | Exists(s, t) :: Value(s, t).Some? && Value(s, t).value != ""
          ==> exists r <- references :: SamePlace(r.target, t))
  }

  /** Place `t` holds nothing, a permitted "off", or the name of something that fits there. */
  ghost predicate Sound(s: Settings, t: Target)
    requires Exists(s, t)
  {
    Value(s, t).Some? ==> !ReferenceError(s, Value(s, t).value, RequirementAt(s, t))
  }

  /** The name is that of a preset of this kind. */
  ghost predicate NamesPreset(s: Settings, name: string, kind: Kind) {
    exists i :: IsPreset(s.presets, i, name) && s.presets[i].kind == kind
  }

  /** The name is that of no preset and of a pool of this kind. */
  ghost predicate NamesPool(s: Settings, name: string, kind: Kind) {
    && (forall i | 0 <= i < |s.presets| :: s.presets[i].name != name)
    && exists i :: IsPool(s.pools, i, name) && s.pools[i].kind == kind
  }

  /** What each place may hold: overlays and pool members presets only, animations too, and rules and outputs "off". */
  lemma SoundExactly(s: Settings, t: Target)
    requires Exists(s, t) && Value(s, t).Some? && Value(s, t).value != ""
    ensures var name := Value(s, t).value;
      Sound(s, t) <==>
        match t
        case Overlay(_) => NamesPreset(s, name, Window)
        case Member(p, _) => NamesPreset(s, name, s.pools[p].kind)
        case Global(field) =>
          NamesPreset(s, name, field.kind) || (field.kind != Animation && NamesPool(s, name, field.kind))
        case RuleBorder(_) => name == "off" || NamesPreset(s, name, Border) || NamesPool(s, name, Border)
        case RuleWindow(_) => name == "off" || NamesPreset(s, name, Window) || NamesPool(s, name, Window)
        case OutputScreen(_) => name == "off" || NamesPreset(s, name, Screen) || NamesPool(s, name, Screen)
        case OutputCast(_) => name == "off" || NamesPreset(s, name, Screen) || NamesPool(s, name, Screen)
  {
    AcceptableExactly(s, Value(s, t).value, RequirementAt(s, t));
    hide ReferenceError, IsPreset, IsPool, Value;
  }

  lemma SamePlaceSameMeaning(s: Settings, t: Target, u: Target)
    requires Exists(s, t) && Exists(s, u) && SamePlace(t, u)
    ensures Value(s, t) == Value(s, u) && RequirementAt(s, t) == RequirementAt(s, u)
  {
    if t != u {
      SamePlaceSameIndex(s.outputs, t.output, u.output);
    }
  }

  /** A rejected place is one whose written name is unacceptable there. */
  lemma RejectedExactly(s: Settings, references: seq<Reference>, t: Target)
    requires Tracked(s, references) && Exists(s, t)
    ensures RejectedAt(s, references, t)
        <==> Value(s, t).Some? && ReferenceError(s, Value(s, t).value, RequirementAt(s, t))
  {
    forall r | r in references && SamePlace(r.target, t)
      ensures Value(s, t) == Some(r.name) && r.requirement == RequirementAt(s, t)
    {
      SamePlaceSameMeaning(s, r.target, t);
    }
  }

  /** No selector dangles once every rejection has run. */
  lemma NothingDangles(s: Settings, references: seq<Reference>, t: Target)
    requires Tracked(s, references) && Exists(s, t)
    ensures Exists(AfterRejections(s, references), t) && Sound(AfterRejections(s, references), t)
    ensures Sound(s, t) ==> Value(AfterRejections(s, references), t) == Value(s, t)
    ensures !Sound(s, t) ==> Value(AfterRejections(s, references), t) == Emptied(t)
  {
    var after := AfterRejections(s, references);
    ValueAfterRejections(s, references, t);
    RejectedExactly(s, references, t);
    ShapeKeepsPlaces(s, after, t);
    if Value(after, t).Some? {
      ErrorByShape(s, after, Value(after, t).value, RequirementAt(s, t));
    }
  }

  predicate IsMemberPreset(s: Settings, kind: Kind, name: string) {
    var preset := FindPreset(s.presets, name);
    preset.Some? && preset.value.kind == kind
  }

  function MemberPresets(s: Settings, kind: Kind, members: seq<string>): seq<string> {
    if members == [] then []
    else
      var rest, last := MemberPresets(s, kind, members[..|members| - 1]), members[|members| - 1];
      if last != "" && IsMemberPreset(s, kind, last) then rest + [last] else rest
  }

  lemma {:induction false} CompactedMembers(s: Settings, kind: Kind, members: seq<string>, after: seq<string>)
    requires |after| == |members|
    requires forall m :: 0 <= m < |members| ==>
               after[m] ==
               if ReferenceError(s, members[m], Requirement(kind, false, PresetOnly)) then "" else members[m]
    ensures NonEmpty(after) == MemberPresets(s, kind, members)
  {
    if members == [] {
    } else {
      CompactedMembers(s, kind, members[..|members| - 1], after[..|members| - 1]);
      var last := members[|members| - 1];
      assert last != "" ==>
        (ReferenceError(s, last, Requirement(kind, false, PresetOnly)) <==> !IsMemberPreset(s, kind, last));
    }
  }

  /** A pool keeps, in order, exactly the members that name a preset of its kind. */
  lemma PoolMembersExact(s: Settings, references: seq<Reference>, p: nat)
    requires Tracked(s, references) && p < |s.pools|
    ensures Compacted(AfterRejections(s, references)).pools[p]
         == s.pools[p].(members := MemberPresets(s, s.pools[p].kind, s.pools[p].members))
  {
    var after, members := AfterRejections(s, references), s.pools[p].members;
    forall m | 0 <= m < |members|
      ensures after.pools[p].members[m]
           == if ReferenceError(s, members[m], Requirement(s.pools[p].kind, false, PresetOnly)) then "" else members[m]
    {
      assert Exists(s, Member(p, m));
      NothingDangles(s, references, Member(p, m));
    }
    CompactedMembers(s, s.pools[p].kind, members, after.pools[p].members);
  }

  // ---------------------------------------------------------------- the state a load ends in

  /** Each member that compaction keeps is a non-empty one from before. */
  lemma {:induction false} KeptMember(members: seq<string>, m: nat) returns (k: nat)
    requires m < |NonEmpty(members)|
    ensures k < |members| && NonEmpty(members)[m] == members[k] != ""
  {
    var front := members[..|members| - 1];
    if m < |NonEmpty(front)| {
      k := KeptMember(front, m);
    } else {
      k := |members| - 1;
    }
  }

  lemma CompactionKeepsErrors(s: Settings, name: string, need: Requirement)
    ensures ReferenceError(Compacted(s), name, need) == ReferenceError(s, name, need)
  {
    FindPoolByShape(s.pools, Compacted(s).pools, name);
  }

  /** Once a load has ended, no selector dangles anywhere, pool members included. */
  lemma LoadEndsSound(s: Settings, references: seq<Reference>, t: Target)
    requires Tracked(s, references) && Exists(Compacted(AfterRejections(s, references)), t)
    ensures Sound(Compacted(AfterRejections(s, references)), t)
  {
    var after := AfterRejections(s, references);
    var end := Compacted(after);
    var source := t;
    if t.Member? {
      var k := KeptMember(after.pools[t.pool].members, t.member);
      source := Member(t.pool, k);
    }
    assert Exists(after, source) && Value(end, t) == Value(after, source);
    ShapeKeepsPlaces(after, s, source);
    NothingDangles(s, references, source);
    assert RequirementAt(end, t) == RequirementAt(after, source);
    if Value(end, t).Some? {
      CompactionKeepsErrors(after, Value(end, t).value, RequirementAt(end, t));
    }
  }

  lemma EveryPlaceEndsSound(s: Settings, references: seq<Reference>)
    requires Tracked(s, references)
    ensures var end := Compacted(AfterRejections(s, references)); forall t | Exists(end, t) :: Sound(end, t)
  {
    var end := Compacted(AfterRejections(s, references));
    hide Exists, Sound, Compacted;
    forall t | Exists(end, t) ensures Sound(end, t) {
      LoadEndsSound(s, references, t);
    }
  }

  // ---------------------------------------------------------------- the same outcome without callbacks

  /** A selector by itself: emptied when it names nothing suitable, otherwise left alone. */
  function Screened(s: Settings, name: string, need: Requirement): string {
    if ReferenceError(s, name, need) then "" else name
  }

  /** Likewise for an optional selector. */
  function Kept(s: Settings, effect: Option<string>, kind: Kind): Option<string> {
    if effect.Some? && ReferenceError(s, effect.value, Requirement(kind, true, PresetOrPool)) then None else effect
  }

  function CleanPreset(s: Settings, preset: Preset): Preset {
    preset.(overlay := Screened(s, preset.overlay, Requirement(Window, false, PresetOnly)))
  }

  function CleanPool(s: Settings, pool: Pool): Pool {
    var need := Requirement(pool.kind, false, PresetOnly);
    pool.(members := seq(|pool.members|, m requires 0 <= m < |pool.members| => Screened(s, pool.members[m], need)))
  }

  function CleanRule(s: Settings, rule: WindowRule): WindowRule {
    rule.(borderEffect := Kept(s, rule.borderEffect, Border), windowEffect := Kept(s, rule.windowEffect, Window))
  }

  function CleanOutput(s: Settings, rule: OutputRule): OutputRule {
    rule.(screenEffect := Kept(s, rule.screenEffect, Screen),
          screenCastEffect := Kept(s, rule.screenCastEffect, Screen))
  }

  /** Every selector looked at where it stands, in the settings as they were read. */
  function Cleaned(s: Settings): (result: Settings)
    ensures |result.presets| == |s.presets| && |result.pools| == |s.pools|
    ensures |result.windowRules| == |s.windowRules| && |result.outputs| == |s.outputs|
  {
    Settings(
      seq(|s.presets|, i requires 0 <= i < |s.presets| => CleanPreset(s, s.presets[i])),
      seq(|s.pools|, i requires 0 <= i < |s.pools| => CleanPool(s, s.pools[i])),
      map field | field in s.fields :: Screened(s, s.fields[field], RequirementAt(s, Global(field))),
      seq(|s.windowRules|, i requires 0 <= i < |s.windowRules| => CleanRule(s, s.windowRules[i])),
      seq(|s.outputs|, i requires 0 <= i < |s.outputs| => CleanOutput(s, s.outputs[i])))
  }

  lemma OutputsCleaned(s: Settings, references: seq<Reference>, i: nat)
    requires Tracked(s, references) && i < |s.outputs|
    ensures AfterRejections(s, references).outputs[i] == CleanOutput(s, s.outputs[i])
  {
    var after, name := AfterRejections(s, references), s.outputs[i].name;
    assert IndexOfOutput(s.outputs, name) == i;
    SameIndex(s.outputs, after.outputs, name);
    NothingDangles(s, references, OutputScreen(name));
    NothingDangles(s, references, OutputCast(name));
  }

  lemma PoolsCleaned(s: Settings, references: seq<Reference>, p: nat)
    requires Tracked(s, references) && p < |s.pools|
    ensures AfterRejections(s, references).pools[p] == CleanPool(s, s.pools[p])
  {
    var after, clean := AfterRejections(s, references).pools[p], CleanPool(s, s.pools[p]);
    forall m | 0 <= m < |clean.members| ensures after.members[m] == clean.members[m] {
      assert Exists(s, Member(p, m));
      NothingDangles(s, references, Member(p, m));
    }
    assert after.members == clean.members;
  }

  lemma FieldsCleaned(s: Settings, references: seq<Reference>)
    requires Tracked(s, references)
    ensures AfterRejections(s, references).fields == Cleaned(s).fields
  {
    forall field <- s.fields ensures AfterRejections(s, references).fields[field] == Cleaned(s).fields[field] {
      assert Exists(s, Global(field));
      NothingDangles(s, references, Global(field));
    }
  }

  /** Whatever was recorded and in whatever order, the callbacks amount to screening each selector by itself. */
  lemma RejectionsScreen(s: Settings, references: seq<Reference>)
    requires Tracked(s, references)
    ensures AfterRejections(s, references) == Cleaned(s)
  {
    var after, clean := AfterRejections(s, references), Cleaned(s);
    forall i | 0 <= i < |s.presets| ensures after.presets[i] == clean.presets[i] {
      assert Exists(s, Overlay(i));
      NothingDangles(s, references, Overlay(i));
    }
    forall p | 0 <= p < |s.pools| ensures after.pools[p] == clean.pools[p] {
      PoolsCleaned(s, references, p);
    }
    forall i | 0 <= i < |s.windowRules| ensures after.windowRules[i] == clean.windowRules[i] {
      assert Exists(s, RuleBorder(i)) && Exists(s, RuleWindow(i));
      NothingDangles(s, references, RuleBorder(i));
      NothingDangles(s, references, RuleWindow(i));
    }
    forall i | 0 <= i < |s.outputs| ensures after.outputs[i] == clean.outputs[i] {
      OutputsCleaned(s, references, i);
    }
    FieldsCleaned(s, references);
    assert after.presets == clean.presets && after.pools == clean.pools;
    assert after.windowRules == clean.windowRules && after.outputs == clean.outputs;
  }
}
