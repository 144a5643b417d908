# Verified model of umbriel's configuration, relay and motion logic

umbriel is a tiling Wayland compositor written in C++. This project restates its most intricate logic in Dafny, in the
source's own shape (objects that change are classes, loops are loops, expressions are functions), and proves what the
rest of the compositor relies on:

- **Input-emulation relay** (`Relay.dfy`): each direction of the socket relay is a FIFO pipe for bytes and descriptors
  in every run, whatever the kernel answers; a relay that survives a dispatch can always be woken again, and one that
  dies had a reason.
- **Configuration resolution, invalidation and the store** (`OutputNames.dfy`, `ConfigModel.dfy`, `Resolve.dfy`,
  `Precedence.dfy`, `LayoutSources.dfy`, `Change.dfy`, `Refreshes.dfy`, `Invalidation.dfy`, `Store.dfy`,
  `ConfigParse.dfy`): which rule decides each setting; every refresh happens exactly when what it is for may have changed,
  and one that a reload skips is safe to skip; the layout generation is an honest cache key over every history of loads,
  replacements and reloads; and the exact condition under which nothing outside the watch list can change what a reload
  expands.
- **Include expansion and table merging** (`TableMerge.dfy`, `Includes.dfy`, `WatchList.dfy`, `Lists.dfy`): the exact
  condition under which merging is associative, expansion of any include graph as one left-to-right merge that leaves no
  name both a preset and a pool, and the exact condition under which watching a set of names is enough.
- **Deferred effect references and workspace inventories** (`EffectReferences.dfy`, `EffectLoad.dfy`,
  `WorkspaceRules.dfy`, `Inventories.dfy`): no selector dangles in the state a load ends in, the deferred callbacks amount
  to screening every selector where it stands, and the limits and targets checked while loading agree with what an
  output gets at run time, except for exactly the outputs that answer to two names.
- **Pointer barriers, easing, springs and gestures** (`Barriers.dfy`, `Bezier.dfy`, `SpringDuration.dfy`,
  `MonotonicEasing.dfy`, `AnimatedValues.dfy`, `Gestures.dfy`, with `Reals.dfy`): exterior-edge geometry in pixels,
  polynomial monotonicity and bracketing, interpolation, motion under renumbered coordinates, rubber-band bounds.
- **Action strings and edge scrolling** (`ActionWords.dfy`, `EdgeScroll.dfy`): the splitter inverts every quoting, and
  the scroll timer is armed exactly while there is something to scroll.

Check it with `dafny verify dfyconfig.toml` (Dafny 4.11).

## How the source is modelled

- Floating point is `real`; transcendental functions (the spring solution, the easing shapes) are arbitrary functions.
  Checks for NaN and infinity have no counterpart.
- System calls, the clock, the file system, the environment and the regular-expression engine are parameters. The relay's
  kernel is an arbitrary script of answers, given in order to whoever asks next. Diagnostics are kept only as far as a
  decision depends on them.
- `AnimatedValue` keeps time zero for a clock that has not started; times are otherwise any real number.
- A callback that clears a selector is data (`Target`): the place it names, applied later by `Clear`.
- Path resolution in `Includes` is part of the file system's description: `files` maps each path to its parsed text with
  the targets its directives name, and `canonical` gives the identity two paths may share.
- A method proved against a function (`ensures x == F(...)`) refines it; what the source promises is then proved of the
  function. Members that read or change objects are specified by their whole new state.

## What is not as one might expect

- `inputCaptureCrossing` can miss a crossing. A single-point barrier at an inner corner may have an exterior horizontal
  edge and an exterior vertical one; if the zone that proposes the vertical edge is listed first, the first pass stops
  there and the second pass looks at vertical edges only. `Barriers.NeverMissedExactly` gives the exact condition and
  `Barriers.InnerCornerDependsOnOrder` a layout of two outputs where listing order decides.
- `GesturePhysics::release` scales the carried speed by the derivative at the damped position, while its comment speaks
  of the speed that was visible. `Gestures.CarriesVisibleSpeedExactly`: the two agree exactly inside the range or at
  rest; past an end the factor is always too large.
- `deepMerge` is not associative. `TableMerge.AssociativeExactly` gives the exact condition and
  `TableMerge.EmptyArrayResets` a counterexample with a middle `[]`.
- Rules that load without an error can still lose a named workspace when one output answers to two names.
  `Inventories.OmitsExactly`: that can happen to an output if and only if it has both a connector name and a descriptor
  and they are different names.
- A rule scoped to an output is checked against the section it names, but applied on the section that governs the output.
  Take `[output.DP-1] workspaces = 1`, a section for the same output's descriptor with `workspaces = 2`, and a rule for
  index 2 of DP-1: it is rejected, and with it the whole configuration, although it would apply; with the counts swapped
  it is accepted and applies nowhere (`Inventories.TwoSectionsDisagree`). `Inventories.TargetsAgreeExactly`: that can
  happen to exactly the outputs that answer to two different names.
- The watch list promises every path whose change can affect the next reload, but an include is noted under its canonical
  name only. Take a root that includes a link: the list holds the file the link leads to, and pointing the link at another
  file changes what a reload yields while every watched path is as it was (`WatchList.RepointedLinkGoesUnnoticed`,
  `ConfigParse.RepointedLinkIsMissed`). `WatchList.DecidesExactly`: watching suffices if and only if every include target
  is watched as its directive names it; for the list the store keeps, if and only if no include is looked up through a
  link (`ConfigParse.WatchListDecidesExactly`).
- `MonotonicEasing::reset` falls back to a straight line when the travelled distance is below the machine epsilon. Over
  the reals that never happens: the distance is at least as long as any excursion of the curve.

## Model

| member | source | states |
|---|---|---|
| Relay.Offer | src/input/eis_socket.cpp:125 | the receive buffer is never empty, and is 8192 bytes or what is left of the 65536 allowed, so a zero count can only mean end of stream |
| Relay.EveryRunIsAPipe | src/input/eis_socket.cpp:120-211 | in every run, bytes sent followed by bytes queued are the bytes received, descriptors leave once and in order at the stream offset they arrived with, and the counters are the queue's true totals within the limits |
| Relay.StepKeepsPipe | src/input/eis_socket.cpp:154-209 | each arrival, end, partial send and half-close keeps the pipe |
| Relay.HalfCloseIsFinal | src/input/eis_socket.cpp:204-209 | a half-close happens at most once, nothing follows it on its channel, and it comes after end of stream and a full drain |
| Relay.FrontIsUnsent | src/input/eis_socket.cpp:169-202 | a queued front packet always has bytes left to send and the counters cover it, so no subtraction underflows |
| Relay.PausedExactly | src/input/eis_socket.cpp:52-53 | in every run a channel takes no more exactly after its end or when 65536 bytes, 64 descriptors or 128 packets are received but not sent, and none of these is ever exceeded |
| Relay.InterestIsRight | src/input/eis_socket.cpp:98-99 | an endpoint has to be watched for reading exactly while one more byte could arrive from it, and for writing exactly while something received for it was not sent |
| Relay.ReadingHears | src/input/eis_socket.cpp:120-164 | a surviving read adds to the stream exactly the bytes and descriptors of the messages it heard, in order, and ends it exactly on an empty one; it stops after 32 answers, or for want of room or of more to read |
| Relay.RefusedExactly | src/input/eis_socket.cpp:138-153 | a message is refused exactly when it is malformed or its descriptors and those not yet sent are more than 64 |
| Relay.WritingSends | src/input/eis_socket.cpp:166-211 | a surviving write passes on the next bytes received, as many as the kernel took, and closes the stream exactly when its end and all before it have been passed on; it stops after 32 answers, or with nothing left or a full socket |
| Relay.SomethingIsWatched | src/input/eis_socket.cpp:95-118 | while either direction is open at a dispatch boundary, at least one endpoint has to be watched |
| Relay.Channel.Read | src/input/eis_socket.cpp:120-164 | every answer of the kernel becomes its step, reading stops only at the budget, the limits, end of stream or an empty socket, and it fails only when the kernel's own answer was an error or an invalid or oversized control message |
| Relay.Channel.ReadOnce | src/input/eis_socket.cpp:126-163 | one receive extends the run by its own step and nothing else, and says truly whether the loop goes on, stops or fails |
| Relay.Channel.EndOfStream | src/input/eis_socket.cpp:154-157 | an empty message ends the stream and changes nothing else |
| Relay.Channel.Write | src/input/eis_socket.cpp:166-211 | every accepted count leaves from the front, sending stops only at the budget, an empty queue or a full socket, success leaves no finished channel open, and it fails exactly when the kernel refused something |
| Relay.Channel.WriteOnce | src/input/eis_socket.cpp:168-202 | one send extends the run by its own step and nothing else, and says truly whether the loop goes on, stops or fails |
| Relay.Channel.CloseIfFinished | src/input/eis_socket.cpp:204-210 | half-closes exactly a finished channel, and fails exactly when one stays open |
| Relay.Channel.SendAccepted | src/input/eis_socket.cpp:194-202 | a partial send takes the front packet's descriptors with it and exactly the accepted bytes |
| Relay.Channel.Enqueue | src/input/eis_socket.cpp:158-161 | a received message joins the end of the queue with its descriptors |
| Relay.Relay.Watch | src/input/eis_socket.cpp:95-118 | succeeds exactly when the event loop refused nothing; on success each endpoint is watched for reading exactly while its channel takes more and for writing exactly while something received for it was not sent, and settled channels make the relay live |
| Relay.Relay.UpdateSource | src/input/eis_socket.cpp:101-114 | asks the event loop exactly when a changed mask watches something, and fails exactly when it refuses |
| Relay.Relay.Forward | src/input/eis_socket.cpp:213-228 | one exchange drains the other direction if writable, reads if readable, then writes what was read, in that order and on nothing but the kernel's answers; it fails only after a refusal or an oversized control message |
| Relay.Relay.Dispatch | src/input/eis_socket.cpp:213-227 | a relay that survives an event exchanged in the right direction, was refused nothing, is not finished, has honest masks, and has an endpoint that can wake it; it dies only of an error event, both directions being finished, a refusal or an oversized control message |
| Relay.Connect | src/input/eis_socket.cpp:345-348 | a new relay is kept exactly when the event loop refused nothing, and then has empty queues and an endpoint that can wake it |
| OutputNames.OutputNamesEqual | src/output/identity.cpp:31-41 | equality of names up to ASCII case, an equivalence |
| OutputNames.EqualLetterByLetter | src/output/identity.cpp:31-41 | names are equal exactly when they are equally long and every two letters are the same or the two cases of one ASCII letter |
| OutputNames.DescriptorSpelling | src/output/identity.cpp:13-27 | the field-by-field comparison accepts exactly the spellings of the printed descriptor |
| OutputNames.MatchRespectsNames | src/output/identity.cpp:68-76 | spellings of one name match an output alike |
| OutputNames.MatchIsUnique | src/output/identity.cpp:68-76 | one output answers to at most one name as connector and at most one as descriptor |
| OutputNames.MatchExactly | src/output/identity.cpp:68-76 | a name matches as connector exactly when it spells a connector there is; as descriptor exactly when it does not, something was reported and it spells make, model and serial with spaces between and "Unknown" for a missing one |
| Resolve.MatchingOutputRule | src/config/resolve.cpp:13-27 | the first section naming the descriptor, else the last naming the connector |
| Resolve.DescriptorRule | src/config/resolve.cpp:13-27 | finds a section naming the descriptor exactly when there is one |
| Resolve.ConnectorRule | src/config/resolve.cpp:13-27 | finds a section naming the connector exactly when there is one |
| Precedence.LastWriterWins | src/config/resolve.cpp:292-425 | a field is decided by the last rule that selects the window and sets it |
| Precedence.NoWriterNoValue | src/config/resolve.cpp:247-291 | a field that no selecting rule sets stays unset |
| Precedence.SelectsByPattern | src/config/resolve.cpp:171-178 | each list of patterns narrows what a rule selects to the windows in whose text one is found, and by nothing if every pattern is empty |
| Precedence.SelectsByContent | src/config/resolve.cpp:250-263 | so does a content type, a set of layouts, or startup, the first 60000 milliseconds of a window |
| Precedence.SelectsByPlacement | src/config/resolve.cpp:264-275 | so does each of floating, maximised and pinned, on its own aspect of the window |
| Precedence.SelectsByCompany | src/config/resolve.cpp:270-290 | so does each of scratchpad, alone and only window |
| Precedence.SelectsByRole | src/config/resolve.cpp:261-291 | so does each of focused, dialog and cast target |
| Precedence.EverythingIsSelected | src/config/resolve.cpp:247-291 | a rule without constraints selects every window |
| Precedence.OneRule | src/config/resolve.cpp:292-425 | a window takes from a single rule that selects it exactly what the rule sets, setting for setting |
| Precedence.SettingsByKey | src/config/resolve.cpp:292-425 | the settings gathered rule by rule agree, key by key, with the last rule that selects the window and sets the key |
| Resolve.ResolveWindowRules | src/config/resolve.cpp:243-425 | every setting comes from the last rule that selects the window and sets it, together with `Precedence.LastWriterWins` and `Precedence.SettingsByKey` |
| Resolve.ResolveWorkspaceLayout | src/config/resolve.cpp:489-564 | the loops apply, over the global layout and the output's section, the matching unscoped rules and then the scoped ones |
| Resolve.ApplyMatchingRules | src/config/resolve.cpp:538-549 | one pass applies exactly the matching rules in order on top of what was applied before |
| Resolve.DynamicNames | src/config/resolve.cpp:71-82 | the declared names, each once |
| Resolve.DynamicWorkspaceNames | src/config/resolve.cpp:71-82 | the loop collects the declared names in order of first declaration |
| Resolve.DynamicMinimum | src/config/resolve.cpp:566-569 | a dynamic output has at least the larger of one and its configured minimum, and no more than that |
| Resolve.ResolveWorkspacesForOutput | src/config/resolve.cpp:571-621 | the members of every output, dynamic, counted or named, with their layouts |
| Resolve.ResolveDynamic | src/config/resolve.cpp:574-602 | the dynamic case, names kept and omitted included |
| Resolve.DynamicMembers | src/config/resolve.cpp:585-600 | the three appending stages give each position its member |
| Resolve.AppendUnnamed | src/config/resolve.cpp:585-589 | an empty workspace joins the end with its number and the layout of that position |
| Resolve.DecimalReads | src/config/resolve.cpp:587 | the number of a workspace is written in digits without a leading zero and reads back as itself, so different positions have different numbers |
| Resolve.AppendNamed | src/config/resolve.cpp:591-597 | a named workspace joins the end with the layout of its name and position |
| Change.SameWindowTearingPolicy | src/config/change.cpp:113-150 | the two-index loop compares the sequences of tearing rules and nothing else |
| Change.SameDynamicWorkspaceDeclarations | src/config/change.cpp:159-181 | the two-index loop compares the declared names with their output classes |
| Refreshes.TearingRulesExactly | src/config/change.cpp:113-150 | the compared sequences differ exactly when the rules that set tearing, taken in order, differ in number, in a selector or in what they set |
| Refreshes.DeclarationsExactly | src/config/change.cpp:159-181 | the compared declarations differ exactly when the rules without an index, taken in order, differ in number, in a name or in their output, however it is spelled |
| Change.FindByName | src/config/change.cpp:11-16 | finds a section of that name exactly when there is one |
| Change.Between | src/config/change.cpp:205-262 | all fourteen refresh decisions |
| Change.WorkspaceInventoryChanged | src/config/change.cpp:216-219 | the inventory decision; changed names always count |
| Change.WorkspaceLayoutChanged | src/config/change.cpp:220-244 | the layout decision, which an inventory change implies |
| Refreshes.ProjectionsExactly | src/config/change.cpp:27-110 | each comparison of output sections finds a change exactly when the section of some name, the defaults if absent, differs in one of the settings its consumers read |
| Refreshes.OutputStateExactly | src/config/change.cpp:209-215 | modes, direct scanout and tearing are refreshed exactly when the names differ, some section does in that setting, or for tearing the rules that set it |
| Refreshes.InventoryExactly | src/config/change.cpp:216-219 | inventories are refreshed exactly when names, some section's members or minimum, the leading sentinel or the declarations differ |
| Refreshes.LayoutExactly | src/config/change.cpp:238-244 | layouts are refreshed exactly when something they are resolved from differs |
| Refreshes.EffectsExactly | src/config/change.cpp:226-232 | effects are refreshed exactly when their tables, the names bound to them, or a selection of them may differ |
| Refreshes.SectionsExactly | src/config/change.cpp:245-261 | the other refreshes follow exactly the sections they show |
| Refreshes.NothingForTheSame | src/config/change.cpp:205-262 | a configuration set to what it is refreshes nothing |
| Refreshes.OnlyInput | src/config/change.cpp:254 | a change of input or hot corners alone sets the input flag and no other |
| Refreshes.OnlyOverview | src/config/change.cpp:255 | likewise the overview |
| Refreshes.OnlyColors | src/config/change.cpp:246-256 | colours alone refresh chrome, the overview and internal surfaces, nothing else |
| Refreshes.OnlyModKey | src/config/change.cpp:256 | the modifier key alone refreshes internal surfaces |
| Refreshes.OnlyLayerRules | src/config/change.cpp:252 | layer rules alone refresh layers, and the scene exactly when the cached blur comes to be needed or no longer is |
| Refreshes.OnlyAnimation | src/config/change.cpp:223-253 | animations alone refresh animation, chrome exactly through the looks of unfocused windows, and effects exactly through what events play |
| Refreshes.OnlyEffects | src/config/change.cpp:226-232 | effect tables and the names bound to actions refresh effects exactly when they differ, and nothing else |
| Refreshes.OnlyAttachment | src/config/change.cpp:258 | the default attachment alone refreshes attachment |
| Refreshes.OnlyLayout | src/config/change.cpp:240 | the layout section alone refreshes layouts and not inventories |
| Refreshes.OnlyAppearance | src/config/change.cpp:221-252 | the appearance alone refreshes chrome, the scene and layers exactly through blur, and layouts exactly through widths and bars |
| Refreshes.OnlyWindowRules | src/config/change.cpp:209-261 | window rules alone refresh chrome, and blur, tearing, effects and attachment exactly through what they say of them |
| Refreshes.OnlyWorkspaceRules | src/config/change.cpp:216-241 | workspace rules alone refresh layouts, and inventories exactly through what they declare |
| Refreshes.OnlyEmptyAbove | src/config/change.cpp:218 | the leading sentinel alone refreshes inventories and layouts |
| Refreshes.OnlyOutputs | src/config/change.cpp:209-232 | output sections alone refresh each consumer exactly through the names and what it reads of them |
| Refreshes.BlurNeededExactly | src/config/config.h:1306-1316 | the cached blur is needed exactly when the appearance or some window or layer rule asks for it |
| Invalidation.NamesChangedExactly | src/config/change.cpp:18-25 | equal counts and one inclusion suffice: names changed exactly when the sets of name classes differ |
| Precedence.GovernsExactly | src/config/resolve.cpp:13-27 | among distinctly named sections, one governs an output exactly when it names the descriptor, or the connector while none names the descriptor |
| Precedence.FirstDescriptorGoverns | src/config/resolve.cpp:13-27 | of any sections the first that names the descriptor governs |
| Precedence.LastConnectorGoverns | src/config/resolve.cpp:13-27 | without one the last that names the connector governs, and without that none |
| Precedence.UnconfiguredOutput | src/config/resolve.cpp:13-27 | an output that no section names has the defaults: enabled, no tearing, direct scanout, dynamic members from one on, stacked vertically |
| Invalidation.SameGoverningName | src/config/change.cpp:205-209 | with the names unchanged an output is governed by the section of the same name |
| Invalidation.ProjectionSafe | src/config/change.cpp:27-39 | an unchanged projection is unchanged for every physical output |
| Invalidation.OutputPoliciesSafe | src/config/change.cpp:209-215 | unset flags mean the same modes, tearing permission and direct scanout for every output |
| Invalidation.TearingDependsOnTearingRules | src/config/resolve.cpp:243-370 | the resolved tearing setting depends only on the rules that set it |
| Invalidation.TearingSafe | src/config/change.cpp:211-213 | an unset tearing flag means the same tearing setting for every window, state and uptime |
| Invalidation.DialogAttachmentSafe | src/config/change.cpp:258-260 | an unset attachment flag means the same attachment for every window |
| Invalidation.EffectsSafe | src/config/change.cpp:226-232 | an unset effects flag means the same window and screen effects for every window and output |
| Invalidation.LayoutSafe | src/config/change.cpp:238-244 | an unset layout flag means the same layout for every member of every output |
| Invalidation.WorkspacesSafe | src/config/change.cpp:238-244 | an unset layout flag means the same resolved workspaces for every output |
| Invalidation.NamesFromDeclarations | src/config/change.cpp:159-181 | the dynamic names depend on the compared declarations alone |
| Invalidation.InventorySafe | src/config/change.cpp:216-219 | an unset inventory flag means the same number of members, named alike and as many names omitted, on every output, whatever happens to their layouts |
| Store.ConfigStore.constructor | src/config/store.h:61-74 | the store starts valid on the defaults |
| Store.ConfigStore.AddWatchPath | src/config/store.cpp:144-148 | each path is watched once |
| Store.ConfigStore.BeginLoad | src/config/store.cpp:133-140 | a load starts without diagnostics and with its own watch list |
| Store.ConfigStore.ParseInto | src/config/store.cpp:112-129 | loaded exactly when the root is a regular file that was read without error, and which diagnostics and watch paths result |
| Store.FirstThereIsSelected | src/config/store.cpp:94-103 | the root is the first candidate that is not missing |
| Store.NoneThere | src/config/store.cpp:104-109 | with every candidate missing it is the first of them, or the user's path if there are none |
| Store.ReloadedExactly | src/config/store.cpp:272-300 | a reload takes what its root says if that can be read; the defaults exactly if the root is implicit and it and every candidate are missing; else nothing |
| Store.ReportedExactly | src/config/store.cpp:112-129 | an error is reported exactly for a root that cannot be inspected, that was asked for and is missing, or that has one |
| Store.MessagesConcat | src/config/store.cpp:249-256 | a replacement answers with the messages of the errors, in order, and of nothing else |
| Store.ConfigStore.Commit | src/config/store.cpp:158-174 | the generation advances, and the layout generation follows exactly when something layouts are resolved from differs, so that it stays the one the history determines |
| Store.ConfigStore.CachesAreHonest | src/config/store.cpp:169-172 | a cache filled at the layout generation or later holds what resolving again would yield |
| Store.ConfigStore.Load | src/config/store.cpp:196-224 | startup commits the file's settings exactly when it was read without an error, and the defaults otherwise; what is watched and reported afterwards |
| Store.ConfigStore.Replace | src/config/store.cpp:226-270 | succeeds exactly for a readable file without errors, watching it and what it read, and otherwise leaves every field as it was |
| Store.ConfigStore.Reload | src/config/store.cpp:272-300 | succeeds exactly for a file read without errors or a vanished implicit one, which falls back to the defaults; a failed reload moves neither settings nor generations, and either way everything that was searched or read is watched |
| Store.LayoutGeneration | src/config/store.cpp:169-172 | the layout generation of a run is one of its generations |
| Store.CacheKeyIsHonest | src/config/store.cpp:158-174 | in any run of commits, resolution is the same for every output at every generation from the layout generation on |
| Store.ConstantSinceRefresh | src/config/store.cpp:158-174 | safe single skips chain into safety since the last refresh |
| ConfigParse.ParseConfig | src/config/config.cpp:71-144 | merging, reading and validating a file yields the settings its tables hold with every selector screened, an exception among the readers rejects it, and an accepted file is well formed with no selector dangling |
| ConfigParse.ReadTables | src/config/config.cpp:92-126 | the tables in reading order; an error is reported exactly for one of the fields, a minimum on a fixed inventory or the workspace rules |
| ConfigParse.ReadWithoutErrors | src/config/config.cpp:128-137 | tables read without an error give distinct output names and rules with one selector |
| ConfigParse.TablesReadClean | src/config/config.cpp:92-126 | tables report no error exactly when the fields, the minimums, the workspace array, its entries and its rules all read cleanly |
| ConfigParse.ConfigHolds | src/config/config.cpp:92-137 | the configuration holds the screened output sections and window rules, the tables of the workspace array and everything else as its reader has it |
| ConfigParse.MissingIncludeRefuses | src/config/config.cpp:74-90 | a DRM policy is never accepted while an include is missing, optional ones included; without one nothing but a failed merge or reader refuses a file |
| ConfigParse.KindExactly | src/config/store.cpp:112-129 | a file that cannot be parsed is a file all the same; what is there but no file cannot be inspected |
| ConfigParse.ReadersDischarge | src/config/config.cpp:71-144 | what the store assumes of accepted files holds for every state of the disk and any field readers |
| ConfigParse.ReloadDependsOnWatchedFiles | src/config/store.h:33-35 | if every include is watched under the name it is looked up by, and every watched name leads where it did and finds what it did, absent files included, then a reload finds the same root and makes the same of it |
| ConfigParse.WatchListDecidesExactly | src/config/store.h:33-35 | the watch list after a load decides what the root expands to, whatever else changes on the disk, if and only if it holds every include target as its directive names it; as canonical names are their own canonical names, if and only if no include is looked up through a link other than under a name searched for the root |
| ConfigParse.RepointedLinkIsMissed | src/config/config_merge.cpp:328-359 | pointing an included link at another file changes what a reload yields and leaves every watched path as it was |
| ConfigParse.ParseDependsOnLookups | src/config/config.cpp:74-90 | a parse depends on nothing but the root and the names its includes are looked up by |
| TableMerge.DeepMerge | src/config/config_merge.cpp:419-449 | the key-by-key loop, in any key order, gives the same merge |
| TableMerge.MergeByKind | src/config/config_merge.cpp:410-449 | tables merge, non-empty rule collections concatenate, everything else is replaced; the kind is the overlay's |
| TableMerge.EmptyIsIdentity | src/config/config_merge.cpp:419-449 | the empty document is a two-sided identity |
| TableMerge.AbsorbedExactly | src/config/config_merge.cpp:419-449 | when merging over a value changes nothing |
| TableMerge.AssociativeExactly | src/config/config_merge.cpp:419-449 | the two groupings agree if and only if no reset comes between values that would combine |
| TableMerge.EmptyArrayResets | src/config/config_merge.cpp:429-431 | a middle empty array drops earlier rules in one grouping only |
| TableMerge.CompatibleMeansNoReset | src/config/config_merge.cpp:410-449 | documents that keep one kind per key path never reset |
| TableMerge.FoldSplit | src/config/config_merge.cpp:356-386 | a kind-stable run of documents may be merged in any grouping |
| TableMerge.MergeConcatenatesRules | src/config/config_merge.cpp:429-440 | rules of both documents survive in order at every depth |
| TableMerge.FoldConcatenatesRules | src/config/config_merge.cpp:429-440 | at every depth the rules of a run of documents appear in merge order and none is lost |
| TableMerge.LastPlainWins | src/config/config_merge.cpp:441-447 | a plain value stands as the last document to have its key has it |
| Includes.FilesVisitedOnce | src/config/config_merge.cpp:328-337 | in any include graph each canonical file contributes exactly once |
| Includes.ExpansionIsFold | src/config/config_merge.cpp:324-388 | nested expansion of kind-stable files is one left-to-right merge in post-order of first visit |
| Includes.ExpansionOfAll | src/config/config_merge.cpp:350-384 | likewise for a list of includes merged onto what came before |
| Includes.FlatExpansion | src/config/config_merge.cpp:349-386 | of files that include no others the required ones are merged first, then the optional ones, each in order, then the root, whatever kinds their values have |
| Includes.OwnPlainValueStands | src/config/config_merge.cpp:384-386 | whatever a file includes, its own plain values stand |
| Includes.IncludeMerge.RecordEffectOrigins | src/config/config_merge.cpp:288-322 | the names of the file's own effect tables are recorded in order, each where it first appears, and a repeated one is flagged |
| Includes.IncludeMerge.LoadAndExpand | src/config/config_merge.cpp:390-408 | a file that does not parse contributes only its error and its watch path |
| Includes.IncludeMerge.ExpandFile | src/config/config_merge.cpp:324-388 | terminates on unvisited files and yields the nested expansion, with exactly the flags, declarations and watched files of what it visited |
| Includes.IncludeMerge.MergeDirective | src/config/config_merge.cpp:349-384 | required includes are merged first, then optional ones |
| Includes.IncludeMerge.MergeEntry | src/config/config_merge.cpp:351-381 | one include: expanded, missing (required or optional) or unusable, always watched |
| Includes.IncludeMerge.MergeEntries | src/config/config_merge.cpp:350-382 | the entries in order, each onto the result so far |
| Includes.ShadowedPoolsAreGone | src/config/config_merge.cpp:455-474 | a declared pool survives exactly when no preset shares its name, and every preset does |
| Includes.OnlyShadowedPoolsGo | src/config/config_merge.cpp:455-474 | removing shadowed pools keeps everything else as it was: every other top-level value, every other effect table, every surviving pool |
| Includes.MergeWithIncludes | src/config/config_merge.cpp:451-476 | the whole merge of a root file and what it records; no name is left both a preset and a pool, and nothing of the expansion is gone but the pools a preset shadows |
| Includes.NoSharedName | src/config/config_merge.cpp:455-474 | whatever was included, no name is both a preset and a pool after the merge |
| Includes.ExpandedNames | src/config/config_merge.cpp:288-388 | every preset or pool of an expanded document is declared by some file that was visited |
| Includes.Record | src/config/config_merge.cpp:293-319 | new names are appended once, and a repetition is flagged exactly when there is one |
| WatchList.DecidesExactly | src/config/config_merge.cpp:324-388 | for any names to watch, the root among them: they decide its expansion on every other state of the disk if and only if every include target of every visited file is among them as its directive names it |
| WatchList.UnwatchedChange | src/config/config_merge.cpp:351-359 | behind any other name something can appear that changes the expansion and no watched name |
| WatchList.SameExpansion | src/config/config_merge.cpp:324-388 | an expansion depends on nothing but the names it looks up |
| WatchList.SameMerge | src/config/config_merge.cpp:324-408 | so does everything a merge reports |
| WatchList.MergeReports | src/config/config_merge.cpp:324-408 | in any include graph a merge fails exactly when the root or an include target is there but not a readable file, or a visited file's include table is malformed; it reports missing includes exactly when some target of its sort is absent |
| WatchList.LoadedFilesExactly | src/config/config_merge.cpp:328-359 | the recorded files are exactly the canonical names of the root and of every include target |
| WatchList.DecidedExactlyWithoutLinks | src/config/config_merge.cpp:328-359 | the root and the recorded files decide the expansion if and only if every include target is the canonical name of something looked up, that is (canonical names being their own canonical names) of itself |
| WatchList.RepointedLinkGoesUnnoticed | src/config/config_merge.cpp:328-359 | a root that includes a link: the list holds the root and what the link leads to, and repointing the link changes the merge but nothing on the list |
| WatchList.VisitedIsLookedUp | src/config/config_merge.cpp:351-359 | no file is expanded that was not looked up |
| Includes.RemoveShadowed | src/config/config_merge.cpp:455-474 | the loop removes exactly the shadowed pools |
| EffectReferences.IndexOfOutput | src/config/fields_output.cpp:202-211 | a callback that names an output finds its first section |
| EffectReferences.AcceptableExactly | src/config/effects.cpp:170-209 | a name is acceptable exactly when it is empty, a permitted "off", the first preset of that name has the right kind and may stand there, or no preset has it and the first pool of that name does |
| EffectReferences.ErrorByShape | src/config/effects.cpp:180-209 | whether a name is acceptable does not depend on which selectors were cleared |
| EffectReferences.ClearValue | src/config/fields_effects.cpp:128-134 | running a callback empties exactly its place |
| EffectReferences.ValueAfterRejections | src/config/fields_effects.cpp:275-283 | each place ends empty exactly when a reference to it is rejected |
| EffectReferences.OrderIsIrrelevant | src/config/fields_effects.cpp:275-283 | the outcome does not depend on the order of the callbacks |
| EffectReferences.NothingDangles | src/config/fields_effects.cpp:275-283 | once the rejections have run every selector is empty, a permitted "off", or names something of the right kind and constraint, and acceptable ones are untouched |
| EffectReferences.SoundExactly | src/config/effects.cpp:180-209 | what each place may hold: overlays and pool members presets only, animations too, rules and outputs "off" as well, everything else a preset or a pool of its kind |
| EffectReferences.LoadEndsSound | src/config/fields_effects.cpp:275-288 | in the state the load ends in, pools compacted, no selector dangles, pool members included |
| EffectReferences.RejectionsScreen | src/config/fields_effects.cpp:275-283 | callbacks by index and by name, in any order, amount to screening each selector by itself where it stands |
| EffectReferences.PoolMembersExact | src/config/fields_effects.cpp:275-288 | a pool keeps, in order, exactly the members that name presets of its kind |
| EffectLoad.ChosenMembers | src/config/fields_effects.cpp:195-215 | the usable elements of a choice, each once |
| EffectLoad.ChosenExactly | src/config/fields_effects.cpp:195-215 | the members are the eligible names, each where it first appears |
| EffectLoad.OnePreset | src/config/fields_effects.cpp:37-137 | which preset tables are accepted, and that only a border's has an overlay |
| EffectLoad.PresetsConcat | src/config/fields_effects.cpp:52-137 | presets are read one by one, in order |
| EffectLoad.OnePool | src/config/fields_effects.cpp:139-217 | which pool tables are accepted, and with which members |
| EffectLoad.PoolsConcat | src/config/fields_effects.cpp:139-217 | pools are read one by one, in order |
| EffectLoad.RulesConcat | src/config/fields_rules.cpp:333-348 | window rules are the tables all of whose fields were accepted, in order |
| EffectLoad.LastSectionStands | src/config/fields_output.cpp:176-212 | of the sections for one output the last stands, where it stands |
| EffectLoad.OtherReferences | src/config/fields_output.cpp:187-193 | exactly the references of the replaced section go |
| EffectLoad.TrackedAfterGrowth | src/config/fields.cpp:124-138 | recording what was written keeps every selector tracked |
| EffectLoad.TrackedAfterRemoval | src/config/fields_output.cpp:182-197 | dropping a section together with its references keeps the rest tracked |
| EffectLoad.ConfigLoad.AddEffectReference | src/config/fields.cpp:124-138 | references are kept in order |
| EffectLoad.ConfigLoad.ReadField | src/config/fields.h:94-113 | a global selector is stored and tracked |
| EffectLoad.ConfigLoad.ReadEffectPresets | src/config/fields_effects.cpp:52-137 | accepted presets are appended and overlays tracked under the index they take |
| EffectLoad.ConfigLoad.ReadEffectPools | src/config/fields_effects.cpp:139-217 | accepted pools are appended and members tracked |
| EffectLoad.ConfigLoad.ReadPool | src/config/fields_effects.cpp:193-215 | a pool's distinct members are tracked under the indices they take |
| EffectLoad.ConfigLoad.AcceptWindowRule | src/config/fields_rules.cpp:333-348 | a rule's effects are recorded under the index the rule is about to take |
| EffectLoad.ConfigLoad.ReadWindowRules | src/config/fields_rules.cpp:333-348 | after reading, every recorded index is the rule's index |
| EffectLoad.ConfigLoad.AcceptOutput | src/config/fields_output.cpp:176-212 | a later section replaces the earlier one together with its references, and names stay distinct; a repeated section and a minimum on a fixed inventory are reported |
| EffectLoad.ConfigLoad.DropReplaced | src/config/fields_output.cpp:182-197 | nothing that names the output is left, and whether there was anything is reported |
| EffectLoad.ConfigLoad.ReadOutputs | src/config/config_registry.h:557-573 | the sections in order, each replacing the earlier ones for its output; an error exactly for a minimum on a fixed inventory |
| EffectLoad.ConfigLoad.ValidateEffectReferences | src/config/fields_effects.cpp:275-288 | every rejection runs before any pool is compacted, the outcome is each selector screened by itself, and none dangles |
| EffectLoad.ReplacedSectionCannotClear | src/config/fields_output.cpp:186-193 | the surviving section loses its screen or cast effect only if that very name is bad |
| WorkspaceRules.ReportDynamicNameOverflow | src/config/fields_layout.cpp:356-385 | reports exactly when an output would carry more distinct names than fit |
| WorkspaceRules.ReadWorkspaces | src/config/fields_layout.cpp:276-411 | every table becomes a rule, and an error is reported exactly for a node that is no array, a non-table, an error among its keys, a double or missing selector, a repeated selector, a missing target or an overflow |
| WorkspaceRules.ReadEntries | src/config/fields_layout.cpp:296-318 | the tables in order, and an error exactly for a non-table, an error among its keys or a double or missing selector |
| WorkspaceRules.CheckSelectors | src/config/fields_layout.cpp:327-352 | the nested loops find exactly the repeated selectors and missing targets |
| WorkspaceRules.CheckScopedNames | src/config/fields_layout.cpp:389-405 | skipping spellings already checked misses no overflow |
| WorkspaceRules.AcceptedRulesHaveOneSelector | src/config/fields_layout.cpp:310-314 | an accepted rule has an index exactly when it has no name |
| WorkspaceRules.ReadsCleanExactly | src/config/fields_layout.cpp:276-411 | rules read without an error exactly when each has one selector, none repeats another, every target exists and no output, with a dynamic section or none, gets more names than fit; checking only the outputs that rules name misses none |
| WorkspaceRules.TargetExactly | src/config/resolve.cpp:228-241 | a target exists exactly when the section a rule names has the place or the name; on a dynamic one, or for a rule for all outputs, places 1 to 64 and any name do |
| WorkspaceRules.ContributedExactly | src/config/fields_layout.cpp:356-380 | the names an output gets are those of the rules without an index for all outputs or for its name, each once |
| WorkspaceRules.TablesConcat | src/config/fields_layout.cpp:296-318 | every table becomes a rule, in order, even one with unreadable keys |
| WorkspaceRules.NoNameIsOmitted | src/config/fields_layout.cpp:354-406 | rules read without error lose no name on an output addressed by one name |
| WorkspaceRules.FewNamesMeansNoneOmitted | src/config/resolve.cpp:578-581 | names are omitted exactly beyond the load-time capacity |
| Inventories.DynamicSize | src/config/resolve.cpp:571-584 | the size is the larger of the configured minimum and what names and sentinels need, at most 64; kept and omitted names are the declared ones |
| Inventories.DynamicOrder | src/config/resolve.cpp:585-602 | leading sentinel if configured, then the kept names, each once and in order, then numbered empties |
| Inventories.DynamicEnds | src/config/resolve.cpp:585-602 | the last member is unnamed, and so is the first if a leading sentinel is configured |
| Inventories.NumbersDiffer | src/config/resolve.cpp:585-612 | every unnamed member is called by its position, counted from one, so no two of them share a name |
| LayoutSources.NamesInOrder | src/config/resolve.cpp:71-82 | declared names come in the order in which a rule first declares them |
| LayoutSources.FirstDeclaration | src/config/resolve.cpp:71-82 | a name is there exactly when a rule for all outputs or for this one has it, with an index or without |
| LayoutSources.MembersHaveTheirLayouts | src/config/resolve.cpp:585-621 | every member has the layout of its own position, and of its name if it has one |
| LayoutSources.FixedMembers | src/config/resolve.cpp:604-621 | a fixed output has as many members as its section says, with the names it gives, in order |
| Inventories.LayoutIsDerived | src/config/resolve.cpp:162-165 | bar gap, total gap and edge padding follow the final gap of every workspace |
| Inventories.LastOverrideWins | src/config/resolve.cpp:84-168 | each key comes from the last override that sets it |
| Inventories.SettingPrecedence | src/config/resolve.cpp:525-553 | scoped rules beat unscoped ones, which beat the output's section, which beats the global layout |
| LayoutSources.GapComesFrom | src/config/resolve.cpp:525-553 | the gap is what the last rule scoped to the output and for this workspace says, else the last such rule for all outputs, else the global one |
| LayoutSources.SettingComesFrom | src/config/resolve.cpp:525-553 | so is every other setting, the extent of the output's own section coming before the global one |
| LayoutSources.LookIsShared | src/config/resolve.cpp:512-537 | strips run across the axis of the output's workspaces, and bars look the same on every workspace |
| LayoutSources.SameSelectorExactly | src/config/fields_layout.cpp:320-325 | a rule is reported as a repetition exactly when it concerns the same workspaces of every output as an earlier one |
| Inventories.TwoNamesCanOmit | src/config/fields_layout.cpp:387-406 | with two names for one dynamic output, rules that read without error lose a name |
| Inventories.OmitsExactly | src/config/fields_layout.cpp:354-406 | an output can lose a name to some configuration that reads without error if and only if it answers to a connector and to a descriptor that is not a spelling of it |
| Inventories.AppliesExactly | src/config/resolve.cpp:538-549 | a scoped rule applies to some member exactly when the inventory of the section that governs the output, or the dynamic members, have its target |
| Inventories.TargetsAgreeExactly | src/config/resolve.cpp:228-232 | whatever is configured, rules scoped to a fixed section are accepted exactly when they apply to some member of the output, if and only if the output does not answer to two different names |
| Inventories.TwoSectionsDisagree | src/config/resolve.cpp:228-232 | with a section under each of two names, the size of one decides what is accepted and the size of the other what applies, either way round |
| Inventories.AcceptedRuleApplies | src/config/fields_layout.cpp:327-352 | on an output with one name every accepted scoped rule applies to some member, except an index beyond the current size of a dynamic output |
| Inventories.AcceptedRulesApplyExactly | src/config/fields_layout.cpp:327-352 | in every configuration that reads without an error, every rule scoped to the output applies to some member or waits for a larger dynamic size, if and only if the output does not answer to two different names |
| Barriers.ExteriorEdge | src/input/input_capture_geometry.cpp:19-80 | the scan over zones finds the first uncovered candidate |
| Barriers.AcceptedExactly | src/input/input_capture_geometry.cpp:83-86 | accepted exactly when, in some orientation, one zone has every pixel just inside and no zone any pixel just outside |
| Barriers.ExteriorByPixels | src/input/input_capture_geometry.cpp:19-80 | an edge is exterior exactly when one zone covers every pixel just inside the barrier's ends and none covers a pixel just outside |
| Barriers.HoldsByPixel | src/input/input_capture_geometry.cpp:88-94 | a point is inside a zone exactly when the pixel it lies on is |
| Barriers.OrderIsIrrelevant | src/input/input_capture_geometry.cpp:83-86 | acceptance does not depend on zone order |
| Barriers.DirectionIsUnique | src/input/input_capture_geometry.cpp:36-57 | an orientation has at most one outward direction |
| Barriers.TriedIsExterior | src/input/input_capture_geometry.cpp:105-109 | every edge a motion is checked against is exterior |
| Barriers.TriedExactly | src/input/input_capture_geometry.cpp:105-109 | all exterior edges are checked exactly when no horizontal one is hidden |
| Barriers.InputCaptureCrossing | src/input/input_capture_geometry.cpp:88-137 | a reported crossing is the point where a motion from inside a zone meets the barrier of a checked edge on its way out; none is earlier, and some is reported whenever there is one |
| Barriers.CrossingGeometry | src/input/input_capture_geometry.cpp:114-130 | the crossing point lies on the barrier's half-open span, moving out into a pixel no zone covers |
| Barriers.CrossesExactly | src/input/input_capture_geometry.cpp:114-130 | an edge is crossed exactly when the motion ends beyond the barrier's line, strictly so upwards or to the left, and on the way some point of it lies on the line within the half-open span |
| Barriers.NeverMissedExactly | src/input/input_capture_geometry.cpp:88-137 | every motion from inside that passes out through an exterior edge, point by point, is reported if and only if no horizontal edge is hidden |
| Barriers.InnerCornerDependsOnOrder | src/input/input_capture_geometry.cpp:105-109 | at an inner corner the listing order decides |
| Bezier.AbscissaIsMonotonic | src/core/animation.cpp:299-310 | with clamped control abscissas the curve never runs backwards |
| Bezier.SlopeIsTheCurves | src/core/animation.cpp:312 | the slope Newton's method divides by is the curve's: what is left of a small step is of second order |
| Bezier.SolveCubicBezier | src/core/animation.cpp:288-349 | Newton's method stays in [0, 1], and the result is the curve at a parameter that meets x closely or sits in the middle of a bracket no wider than 2^-11 |
| Bezier.Bisect | src/core/animation.cpp:333-348 | the bracket always encloses x and halves each time |
| Bezier.NearEveryRoot | src/core/animation.cpp:333-348 | an answer without a close residual is within 2^-12 of every exact solution |
| SpringDuration.SpringDurationMs | src/core/animation.cpp:351-389 | the duration is the rounded-up end of a bracket between motion and rest, or the cap if the spring is never at rest |
| SpringDuration.FirstSettled | src/core/animation.cpp:367-371 | doubling from any positive timescale ends at rest or at the cap |
| SpringDuration.DurationIsTight | src/core/animation.cpp:360-388 | with decaying energy the spring is at rest from the reported duration on, and in motion until little over a millisecond before it |
| MonotonicEasing.Travel | src/core/animation.cpp:712-716 | distance covered is never negative |
| MonotonicEasing.TravelCoversEverySample | src/core/animation.cpp:708-722 | the distance is at least one and at least any excursion |
| MonotonicEasing.ShareBounds | src/core/animation.cpp:712-727 | the table rises within [0, 1] |
| MonotonicEasing.SettledCurvesAreKept | src/core/animation.cpp:712-727 | projecting a curve that already rises changes none of its samples |
| MonotonicEasing.InterpolationRises | src/core/animation.cpp:742-745 | interpolation in a rising table never falls |
| MonotonicEasing.TakeSamples | src/core/animation.cpp:680-702 | direct mode exactly for samples that rise within [0, 1] |
| MonotonicEasing.Scale | src/core/animation.cpp:708-711 | the scale bounds every sample and never exceeds the distance |
| MonotonicEasing.Easing.Reset | src/core/animation.cpp:678-728 | the table holds each sample's share of the whole distance, the scaling notwithstanding |
| MonotonicEasing.Easing.Accumulate | src/core/animation.cpp:712-717 | the running sum is the scaled distance |
| MonotonicEasing.Easing.Normalize | src/core/animation.cpp:723-727 | dividing in place gives a rising table from 0 to 1 |
| MonotonicEasing.Easing.Value | src/core/animation.cpp:730-746 | the progress stays in [0, 1] in both modes |
| MonotonicEasing.ValueNeverFalls | src/core/animation.cpp:730-746 | in projected mode the progress never falls over all inputs and is exact at both ends, whatever the curve |
| MonotonicEasing.ValueIsShareOfTravel | src/core/animation.cpp:730-746 | at a sample the progress is that sample's share of the distance |
| MonotonicEasing.StraightBetweenSamples | src/core/animation.cpp:742-745 | between two of the 512 samples it goes straight from one to the other |
| MonotonicEasing.DirectCurvesAreUsed | src/core/animation.cpp:738-740 | in direct mode the progress is the curve's, cut off at the unit interval |
| AnimatedValues.Step | src/core/animation.cpp:782-925 | every operation keeps: not animating means at the target, at rest, with progress one |
| AnimatedValues.Run | src/core/animation.cpp:782-925 | so does every run |
| AnimatedValues.TranslationCommutes | src/core/animation.cpp:872-925 | moving the coordinates commutes with every later run of ticks, retargets, springs, snaps and pixel-aligned finishes: the same trace, shifted |
| AnimatedValues.FinishesOnTime | src/core/animation.cpp:880-911 | a curve has arrived by the first tick a full duration after its first one |
| AnimatedValues.ClockStartsUnlessAtZero | src/core/animation.cpp:884-888 | zero stands for a clock that has not started, so a first tick starts it exactly at any other time |
| AnimatedValues.CurveFollowsItsEase | src/core/animation.cpp:798-911 | from the first tick on a curve is that share of the way from where the value was to its target which the easing gives for the share of the duration that has passed, however it is ticked in between |
| AnimatedValues.NoJumpAtTheStart | src/core/animation.cpp:884-908 | an easing that starts at zero makes no jump |
| AnimatedValues.SpringFollowsItsSolution | src/core/animation.cpp:839-903 | a spring leaves from where the value was at the speed it is given and moves as the spring equation says, at rest once within 0.0001 |
| AnimatedValues.SpringTickIs | src/core/animation.cpp:892-903 | its progress is the share of the way it has come, between zero and one |
| AnimatedValues.InFlightSpringBends | src/core/animation.cpp:799-804 | a retargeted spring keeps its speed exactly when it is in flight and moving |
| AnimatedValues.UntickedSpringKeepsItsSpeed | src/core/animation.cpp:799-852 | a spring retargeted before it is ticked sets out at the speed it was given |
| AnimatedValues.VelocityAtTheStart | src/core/animation.cpp:916-922 | in the first millisecond the reported speed is what the value moved since it started, over the time it took |
| AnimatedValues.VelocityIsTheLastMillisecond | src/core/animation.cpp:916-922 | the reported speed of a curve is what the value moved over the last millisecond |
| AnimatedValues.FinishedTailIsInvisible | src/core/animation.cpp:854-870 | a spring is finished early only if everything its energy still reaches rounds to the target's pixel |
| AnimatedValues.BoundIsEnergy | src/core/animation.cpp:455-462 | the reach that is compared has in the spring all the energy that is left |
| AnimatedValues.StrongerTailMightShow | src/core/animation.cpp:862-867 | with more energy than the margin takes, some position in reach rounds to another pixel |
| AnimatedValues.AnimatedValue.constructor | src/core/animation.h:171-173 | a new value is at rest |
| AnimatedValues.AnimatedValue.Snap | src/core/animation.cpp:782-792 | the value is at rest where it was put |
| AnimatedValues.AnimatedValue.Retarget | src/core/animation.cpp:798-819 | a new target never makes the value jump, and a spring in flight keeps its speed |
| AnimatedValues.AnimatedValue.SettleSpring | src/core/animation.cpp:839-852 | a spring starts from the current value with the given speed |
| AnimatedValues.AnimatedValue.FinishSpringTail | src/core/animation.cpp:854-870 | finishing leaves the drawn pixel as it was |
| AnimatedValues.AnimatedValue.Translate | src/core/animation.cpp:872-876 | start, target and current move together |
| AnimatedValues.AnimatedValue.Tick | src/core/animation.cpp:880-925 | one tick of either mode, and whether the value was animating |
| Gestures.BandStaysNearRange | src/input/gesture_physics.h:24-28 | inside the range exactly the identity, outside strictly within the limit of the nearest end |
| Gestures.BandIncreases | src/input/gesture_physics.h:24-28 | more travel always moves the content further and never by more than the fingers |
| Gestures.SlopeBetweenDerivatives | src/input/gesture_physics.h:30-39 | past one end the average slope lies between the two derivatives |
| Gestures.GrowthBetweenSlopes | src/input/gesture_physics.h:81-84 | the overscroll grows, at most half as fast as the travel, between the two slopes |
| Gestures.BandExactly | src/input/gesture_physics.h:24-28 | past an end an excess e is shown as the b with b (limit + e/2) = limit e/2 |
| Gestures.DerivativeExactly | src/input/gesture_physics.h:30-39 | and its slope is the s with s (limit + e/2)^2 = limit^2/2 |
| Gestures.StepTarget | src/input/gesture_physics.h:41-46 | the landing step exists |
| Gestures.TargetIsNearest | src/input/gesture_physics.h:41-46 | no existing step is nearer to the projection, and of two as near it is the one further from zero |
| Gestures.DampingKeepsTheTarget | src/input/gesture_physics.h:64-78 | damping the projection does not change the step it lands on |
| Gestures.ReleaseExactly | src/input/gesture_physics.h:64-78 | a release is at the damped place of the travel, with the tracker's speed in steps times the slope there |
| Gestures.CarriesVisibleSpeedExactly | src/input/gesture_physics.h:64-78 | the carried speed is the visible one exactly inside the range or at rest, and never smaller |
| ActionWords.SplitActionString | src/config/keybind_parse.cpp:802-852 | the index-based scanner agrees with the grammar read one character at a time |
| ActionWords.SplitDouble | src/config/keybind_parse.cpp:826-841 | likewise inside double quotes |
| ActionWords.FailsExactly | src/config/keybind_parse.h:438-440 | splitting fails exactly on an unterminated quote or a trailing lone backslash |
| ActionWords.RoundTrip | src/config/keybind_parse.h:438-440 | however each word is quoted, in any mixture of styles, lone backslashes inside double quotes included, and whatever blanks lie between, splitting gives the words back |
| ActionWords.SplitActionWords | src/config/keybind_parse.cpp:141-165 | the loop sorts the words as the recursion over them does |
| ActionWords.AcceptedExactly | src/config/keybind_parse.cpp:139-165 | words are accepted exactly when some positional words and distinct allowed flags with values are typed that way, and then they mean just those |
| ActionWords.MeaningExactly | src/config/keybind_parse.cpp:139-165 | they mean the words that stand alone, in order, and for each flag the value it was given, if any |
| EdgeScroll.Elapsed | src/input/cursor.cpp:673 | the elapsed time is capped across the wrap of the 32-bit clock |
| EdgeScroll.ElapsedExactly | src/input/cursor.cpp:673 | the elapsed time is the least that takes the wrapping clock to its new value, or fifty milliseconds at most |
| EdgeScroll.StartingMovesNothing | src/input/cursor.cpp:598-624 | a call in which a sink appears or reverses moves nothing and arms the fresh delay, through either entry point |
| EdgeScroll.DelayMovesNothing | src/input/cursor.cpp:666-671 | the first firing after the delay only starts the clock |
| EdgeScroll.DroppingOneSinkKeepsTheOther | src/input/cursor.cpp:596-610 | the timeline restarts exactly when a remaining sink does not go on as it was |
| EdgeScroll.FiringMovesOnlySinks | src/input/cursor.cpp:673-721 | only the sinks move, in their direction, within [0, maximum] and by at most fifty milliseconds of their speed |
| EdgeScroll.SinkLastsWhileThereIsRoom | src/input/cursor.cpp:680-703 | a tick keeps the workspace sink, strictly moving its strip, exactly while there is room in its direction |
| EdgeScroll.TickMovesExactly | src/input/cursor.cpp:680-715 | a tick moves each strip by its speed times the elapsed time, stopped at the end it runs into |
| EdgeScroll.NoTimeNoMove | src/input/cursor.cpp:673-678 | a firing in the millisecond of the last only waits for the next |
| EdgeScroll.ScrollsAtItsSpeed | src/input/cursor.cpp:643-721 | over any run of prompt firings a strip moves at its speed from the first to the last, however they are spaced |
| EdgeScroll.FilmstripLastsWhileThereIsRoom | src/input/cursor.cpp:704-715 | likewise for the filmstrip sink and its row |
| EdgeScroll.EveryRunArmsForSinks | src/input/cursor.cpp:588-722 | in every event sequence the timer is armed exactly when there is a sink |
| EdgeScroll.EveryRunStaysInRange | src/input/cursor.cpp:680-715 | in every event sequence positions stay within [0, maximum] |
| EdgeScroll.EdgeScroller.constructor | src/input/cursor.h:506-515 | idle at first |
| EdgeScroll.EdgeScroller.Cancel | src/input/cursor.cpp:627-637 | disarms and forgets both sinks |
| EdgeScroll.EdgeScroller.Update | src/input/cursor.cpp:588-625 | the new state after a pointer update; the mutual recursion with the timer ends |
| EdgeScroll.EdgeScroller.Handle | src/input/cursor.cpp:643-722 | the new state after the timer fires |
| EdgeScroll.EdgeScroller.ScrollWorkspace | src/input/cursor.cpp:680-703 | moves the strip or drops the sink |
| EdgeScroll.EdgeScroller.ScrollFilmstrip | src/input/cursor.cpp:704-715 | moves the filmstrip or drops the sink |

## Left out

- Relay.Channel.Read: descriptors of a rejected message are closed by the packet's destructor; closing descriptors is not modelled.
- The listener, authentication, connection limit and `accept` loop of the input-emulation socket.
- Change.Between: the names of the changed sections, which are only logged. Sections that are compared as a whole and feed no resolution of this model (colours, input, overview and the like) are one opaque number each.
- Resolve.ResolveWindowRules: settings other than the four that reload decisions single out are one map from keys to values; a width or extent that is written in pixels or as a fraction is one key, as the source always copies the pair.
- Store.ConfigStore.Load: diagnostics are not sorted, and their texts are placeholders; what reading a file yields is the function `World.read`, about whose accepted results it assumes what `ConfigParse.ReadersDischarge` proves.
- ConfigParse.ParseConfig: the TOML parser, the generic field readers and the tables outside this model, the adjustments of title bar and reveal style included, are the arbitrary function `Reader` of the merged document and what it makes of the validated settings; warnings, and exceptions thrown while merging, are not part of it.
- ConfigParse.ReloadDependsOnWatchedFiles: the environment and the working directory, which decide what names the directives mean, are taken to stay as they are, and shader sources, which their reader adds to the watch list, are not files of this model.
- TableMerge.DeepMerge: documents are values, so moving nodes out of the overlay and source regions are not captured.
- Includes.IncludeMerge.RecordEffectOrigins: of the diagnostic for a repeated declaration only the fact is kept, not its text or location.
- Expansion of `~` and environment variables in include paths, and the well-formedness rules of the include table, which appear only as a file's `malformed` flag.
- EffectLoad.ConfigLoad.ReadEffectPresets: the shader, the numeric ranges and the other keys of a preset are one opaque number, which no reference depends on.
- EffectLoad.ConfigLoad.AcceptOutput: of its two diagnostics only the fact is kept.
- Inventories.DynamicSize: takes the configured minimum to be at most 64, the range its reader accepts (src/config/fields_output.cpp:92).
- WorkspaceRules.ReadWorkspaces: the keys of one table are read by the generic field readers, which are not part of this model; it takes the rule they yield and whether they reported an error.
- MonotonicEasing.ValueNeverFalls: says nothing of direct mode, whose progress between two of the 512 samples is only as monotone as the curve.
- SpringDuration.SpringDurationMs: the cache of the last result, and the spring solution itself, which is any function of time.
- AnimatedValues.AnimatedValue.Tick: the spring solution is any pair of functions of displacement, speed and time; transition identifiers and shader seeds are dropped.
- AnimatedValues.AnimatedValue.FinishSpringTail: compares squared lengths, since a square root is not available.
- EdgeScroll.ScrollsAtItsSpeed: of a workspace scrolled without a filmstrip, by firings no more than fifty milliseconds apart; later ones lose the time beyond that, as `EdgeScroll.TickMovesExactly` says.
- EdgeScroll.EdgeScroller.Update: which sinks the pointer's place allows is an argument, the same throughout one call; creating the timer is assumed to succeed.
- Floating-point rounding, everywhere.
- Key chords, the action table, colours, process spawning, shaders, IPC and the rest of the cursor: tables or bindings without properties of this kind.
