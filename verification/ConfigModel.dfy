/**
 The parts of a loaded configuration that output matching, workspace resolution, window rules and
 reload invalidation read (src/config/config.h). Sections that are only ever compared as a whole
 are one opaque number.
 */
module ConfigModel {
  import opened Options
  import opened OutputNames

  const MAX_WORKSPACES: nat := 64

  /** Everything a [[workspace]] rule may override, apart from the gap. */
  datatype LayoutKey =
    | Mode | StrutLeft | StrutRight | StrutTop | StrutBottom
    | DefaultExtentFraction | CenterUnderfullStrip | CenterFocused | CenterOnOverviewSelect
    | PreserveSplit | NewTowardCursor
    | DefaultWidthFraction | NewOnTop | NewBecomesMaster | MasterPosition
    | DropZones | ExtentPresets | NewExitsFullscreen | ClientMaximize
    | DefaultDisplay | NewTabPosition | WrapFocus | ScrollSwitchesTabs | MiddleClickCloses

  datatype LayoutValue =
    Flag(bool) | Number(int) | Fraction(real) | Fractions(seq<real>) | Choice(nat)

  /** An absent key is an optional that is not set. */
  type LayoutSettings = map<LayoutKey, LayoutValue>

  datatype Overrides = Overrides(gap: Option<int>, settings: LayoutSettings)

  datatype WorkspaceRule =
    WorkspaceRule(name: string, output: string, index: Option<int>, layout: Overrides)

  datatype Inventory = Count(count: nat) | Names(names: seq<string>)

  datatype Axis = Vertical | Horizontal

  datatype OutputState = OutputState(
    enabled: bool, mode: Option<string>, position: Option<(int, int)>, scale: Option<real>,
    transform: Option<int>, vrr: nat, hdr: nat, sdrWhite: real, sdrTransfer: nat, bitDepth: int)

  datatype OutputRule = OutputRule(
    name: string, state: OutputState, focusAtStartup: bool, allowTearing: bool, directScanout: bool,
    screenEffect: Option<string>, screenCastEffect: Option<string>,
    workspaces: Option<Inventory>, minWorkspaces: int, cyclicWorkspaces: bool, axis: Axis,
    extentFraction: Option<LayoutValue>)

  const DEFAULT_OUTPUT := OutputRule(
    "", OutputState(true, None, None, None, None, 0, 0, 203.0, 0, 8), false, false, true,
    None, None, None, 1, false, Vertical, None)

  /** What a window rule selects on; an empty pattern list or absent flag places no constraint. */
  datatype Selector = Selector(
    appId: seq<string>, title: seq<string>, xdgTag: seq<string>, contentType: Option<nat>,
    layouts: seq<nat>, focused: Option<bool>, floating: Option<bool>, maximizedToEdges: Option<bool>,
    pinned: Option<bool>, scratchpad: Option<bool>, alone: Option<bool>, onlyWindow: Option<bool>,
    dialog: Option<bool>, castTarget: Option<bool>, atStartup: Option<bool>)

  /** Every setting of a window rule that no reload decision looks at by itself. */
  datatype WindowKey =
    | DefaultOutput | DefaultFloating | DefaultFloatingWidth | DefaultFloatingHeight | DefaultPosition
    | DefaultScrollingExtent | DefaultWorkspace | DefaultScratchpad | DefaultScrollingColumn
    | DefaultScrollingColumnOrder | DefaultColumnDisplay | DefaultFullscreen | DefaultMaximizeToEdges
    | DefaultMaximize | DefaultFocused | DefaultPinned
    | ConfinePointer | TouchpadScrollFactor | AllowShortcutsInhibit | BlockCapture | BackgroundRender
    | FocusOnActivate | VrrPolicy | HdrPolicy
    | Opacity | DimBehind | Blur | BlurPopups | BlurIgnoreAlpha | BlurOptimized
    | WindowTitleBar | TitleBarButtons | BorderColorFocused | BorderColorUnfocused | BorderColorOuter
    | BorderWidth | OuterBorderWidth | CornerRadius | Shadow

  /** An extent has two spellings, and a rule that sets one of them sets the pair. */
  datatype WindowValue =
    | Toggle(on: bool) | Amount(amount: real) | Text(text: string) | Extent(px: Option<int>, fraction: Option<real>)

  type RuleSettings = map<WindowKey, WindowValue>

  datatype WindowRule = WindowRule(
    selector: Selector, allowTearing: Option<bool>, attachToParent: Option<bool>,
    borderEffect: Option<string>, windowEffect: Option<string>, settings: RuleSettings)

  datatype LayerRule = LayerRule(optimized: Option<bool>, settings: nat)

  datatype Layout = Layout(gap: int, settings: LayoutSettings)

  datatype TabBar =
    TabBar(height: int, position: nat, hideWhenSingle: bool, visible: bool, gap: int, look: nat)

  datatype BlurLook = BlurLook(optimized: bool, look: nat)

  datatype Appearance =
    Appearance(borderWidth: int, outerBorderWidth: int, tabBar: TabBar, titleBar: nat, blur: BlurLook, look: nat)
  {
    function TotalBorderWidth(): int { borderWidth + outerBorderWidth }
  }

  /** `effects` is what each event plays; the source compares it apart from the section as a whole. */
  datatype Animations =
    Animations(enabled: bool, dimUnfocused: nat, windowsOpacity: nat, effects: nat, timing: nat)

  datatype Config = Config(
    outputs: seq<OutputRule>, windowRules: seq<WindowRule>, layerRules: seq<LayerRule>,
    workspaceRules: seq<WorkspaceRule>, emptyAbove: bool, layout: Layout, appearance: Appearance, colors: nat,
    animation: Animations, attachModalDialogs: bool, modKey: nat, input: nat, hotCorners: nat, overview: nat,
    effects: nat, effectActions: seq<string>)
  {
    /** Whether some surface may sample the cached background blur. */
    predicate OptimizedBlurNeeded() {
      || appearance.blur.optimized
      || (exists rule <- windowRules :: BlurOptimized in rule.settings && rule.settings[BlurOptimized] == Toggle(true))
      || exists rule <- layerRules :: rule.optimized == Some(true)
    }
  }

  /** No two sections name the same output; every load establishes this (see EffectLoad). */
  ghost predicate DistinctNames(outputs: seq<OutputRule>) {
    forall i, j :: 0 <= i < j < |outputs| ==> !NamesEqual(outputs[i].name, outputs[j].name)
  }

  lemma RuleByName(outputs: seq<OutputRule>, a: OutputRule, b: OutputRule)
    requires DistinctNames(outputs) && a in outputs && b in outputs && NamesEqual(a.name, b.name)
    ensures a == b
  {
    var i :| 0 <= i < |outputs| && outputs[i] == a;
    var j :| 0 <= j < |outputs| && outputs[j] == b;
    assert !(i < j) && !(j < i);
  }
}
