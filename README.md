# aerospace-utils gap sizing, modelled in Dafny

aerospace-utils sizes the workspace of the AeroSpace tiling window manager. A percentage (1 to 100) says how wide the
workspace should be. The tool turns that percentage into outer left and right gaps in pixels, writes them into
`aerospace.toml`, remembers the percentage in a state file, and asks AeroSpace to reload. The repository holds
two implementations of this:

- a Go one: `internal/gaps`, `internal/config`, `internal/display`, and the commands under `cmd/gaps` and `cmd/workspace`;
- a Rust one: `src/gaps`, `src/config.rs`, `src/state.rs`, `src/handlers.rs` and `src/util.rs`.

This project models both, module by module:

| module | file | models |
|---|---|---|
| `Gaps` | gaps.dfy | the percentage range check and the side-gap formula, shared by both implementations |
| `Decimal` | decimal.dfy | `strconv.ParseInt` / `FormatInt` and `i64::from_str`, the way percentages and amounts are read |
| `Text` | text.dfy | white space, trimming, prefixes, ASCII case folding |
| `Toml` | toml.dfy | a parsed TOML document as a tree of entries, with first-match lookup and assignment |
| `Paths` | paths.dfy | `~` expansion: Go's `ExpandPath` (with `filepath.Join`/`Clean`) and Rust's `expand_tilde` |
| `Display` | display.dfy | Linux display detection: the xrandr line pattern, `Enumerate` and `MainWidth` |
| `GoState` | go_state.dfy | the per-monitor state service `WorkspaceService` (a class whose map is updated in place) |
| `GoConfig` | go_config.dfy | `AerospaceService`: reading gaps out of the config and updating a monitor's gap (a class) |
| `GoWorkspace` | go_workspace.dfy | the `workspace use`, `shift` and `adjust` commands, and `resolveMonitorWidth` |
| `GoGaps` | go_gaps.dfy | the `gaps use` and `gaps adjust` commands |
| `RustConfig` | rust_config.dfy | `read_config_summary` and `update_gaps` on the toml_edit tree (`ConfigDocument` is a class) |
| `RustState` | rust_state.dfy | the `[workspace]` state file, the legacy bare-integer migration, `write_state` |
| `RustCommands` | rust_commands.dfy | `handle_size`/`handle_adjust` (handlers.rs) and `handle_use`/`handle_adjust` (src/gaps) |

Each command is a function from its inputs to a `Run`: a result and the ordered list of files written (or, in
Rust, effects: config written, state written, reload). The commands' loops and in-place service updates are
methods, proved equal to those functions. The lemmas state what the source promises: the error cases, the order in
which they are checked, what is written, and what can be read back.

## Model

| member | source | states |
|---|---|---|
| Gaps.ValidatePercentage | internal/gaps/gaps.go:13-18 | no error exactly when 1 <= p <= 100, otherwise `ErrInvalidPercentage` |
| Gaps.CheckPercentage | src/gaps/mod.rs:9-17 | accepts exactly the percentages the Go check accepts |
| Gaps.CheckPercentageNamesValue | src/gaps/mod.rs:13-15 | the rejected value can be parsed back out of the Rust error message |
| Gaps.GapIsNearest | internal/gaps/gaps.go:23-27 | the gap is `w*(100-p)/200` rounded to the nearest integer: within half a pixel of the exact value |
| Gaps.GapAtFullWidth | internal/gaps/gaps.go:20-22 | at 100 per cent the gap is 0 |
| Gaps.GapBounds | src/gaps/mod.rs:19-23 | for a valid percentage the gap lies between 0 and half the width |
| Gaps.GapMonotone | internal/gaps/gaps.go:21-22 | a larger percentage never gives a larger gap |
| Gaps.GapComplement | src/gaps/mod.rs:20-22 | the gaps of p and 100-p add up to half the width, within a pixel |
| Gaps.GapExamples | internal/gaps/gaps_test.go:13-42 | the unit-test table: 1000/40 gives 300, 1920/50 gives 480, 2560/80 gives 256, 2560/100 gives 0, 1000/1 gives 495; 0, -10 and 101 are invalid; 1, 50 and 100 are valid |
| Decimal.ParseFormat | cmd/gaps/gaps_use.go:184-186 | `FormatInt` followed by `ParseInt` gives back every 64-bit integer |
| Decimal.ParseRejectsNonDigit | cmd/gaps/gaps_use.go:48-52 | a string with a non-digit after the optional sign fails to parse |
| Decimal.ParseExamples | cmd/gaps/gaps_adjust.go:44-50 | "abc", "" and "-" are rejected; "-10", "+5" and "150" are read with their sign |
| Text.TrimEmptyIffAllSpace | internal/config/state.go:76-77 | a string trims to empty exactly when it is all white space |
| Text.TrimKeepsFirst | src/state.rs:49 | trimming keeps a leading non-space character at the front |
| Paths.ExpandPathCases | internal/config/aerospace.go:382-391 | only a `~/` prefix is expanded; `~` alone and a failed home lookup leave the path as it is; an absolute home gives an absolute path |
| Paths.ExpandTildeCases | src/util.rs:7-26 | paths without `~` are returned untouched without consulting home; `~` is home; `~/x` is home joined with x; `~user` is an error; with no home every `~` path is an error |
| Paths.ExpansionsAgree | src/util.rs:25 | for a normal home and rest, Go's cleaned join and Rust's join give the same path |
| Paths.ExpansionsDiffer | internal/config/aerospace.go:388 | with `..` in the rest, Go's join cleans it away and Rust's keeps it |
| Display.LinesOneTerminated | internal/display/display_linux.go:29-31 | a final newline does not produce an empty extra line |
| Display.LinesCarriageReturn | internal/display/display_linux.go:29-31 | the scanner drops the carriage return before a newline |
| Display.CutLineComplete | internal/display/display_linux.go:16 | every way of fitting a line to the xrandr pattern is the cut the matcher finds |
| Display.CutLineSound | internal/display/display_linux.go:16 | a cut the matcher finds fits the pattern |
| Display.MatchLineIff | internal/display/display_linux.go:32-39 | a line yields a display exactly when it fits the pattern, and then name, primary flag and width come from that fit |
| Display.MatchPrimaryExample | internal/display/display_linux.go:15 | `DP-1 connected primary 2560x1440` gives display DP-1, primary, width 2560 |
| Display.MatchDisconnectedExample | internal/display/display_linux.go:32-35 | a disconnected output is skipped |
| Display.MatchHeaderExample | internal/display/display_linux.go:32-35 | the `Screen 0:` header is skipped |
| Display.NotConnected | internal/display/display_linux.go:16 | a first word followed by anything but `connected` does not match |
| Display.Enumerate | internal/display/display_linux.go:19-63 | the scanning loop with its `primaryFound` flag and first-display patch computes `EnumerateOf` |
| Display.EnumerateProperties | internal/display/display_linux.go:37-56 | on success: one display per matching line, in order, with ID = index mod 2^32, name and width from the line, main exactly when primary or (first and no primary); some display is main |
| Display.EnumerateNeedsAMatch | internal/display/display_linux.go:58-60 | output without a matching line is the "no displays found" error |
| Display.MainWidth | internal/display/display_linux.go:66-79 | the search loop computes `MainWidthOf` |
| Display.MainWidthProperties | internal/display/display_linux.go:66-79 | `MainWidth` fails exactly when `Enumerate` does; it returns the width of the first primary line, or of the first line when none is primary |
| GoState.LoadCases | internal/config/state.go:57-90 | a missing file or one that trims to nothing loads as no monitors; a decodable file with at least one monitor loads as those monitors; everything else is a format error |
| GoState.WithMonitorKeeps | internal/config/state.go:101-109 | `getOrCreateMonitor` adds an empty record only when there is none and changes no other record |
| GoState.ResolvePriority | internal/config/state.go:111-131 | explicit, then current, then default; none exactly when all three are absent |
| GoState.UpdateEffect | internal/config/state.go:134-147 | `Update` sets current; it sets default exactly when asked or when there was none; other monitors are untouched; the monitor then resolves to the new percentage |
| GoState.WorkspaceService.constructor | internal/config/state.go:27-37 | a fresh service holds no state and has written nothing |
| GoState.WorkspaceService.LoadState | internal/config/state.go:57-90 | loads once; a failed load leaves the service unloaded and returns the error |
| GoState.WorkspaceService.GetOrCreateMonitor | internal/config/state.go:101-109 | the held map gains the monitor's empty record when absent, and the record is returned |
| GoState.WorkspaceService.GetMonitorState | internal/config/state.go:93-98 | loads, then returns the monitor's record, inserting an empty one |
| GoState.WorkspaceService.ResolvePercentage | internal/config/state.go:113-131 | loads, then resolves by priority without inserting a record |
| GoState.WorkspaceService.Update | internal/config/state.go:134-147 | loads, updates the record in place and writes the whole map once; a failed load writes nothing |
| GoConfig.Truncate | internal/config/aerospace.go:251-253 | Go's float-to-int64 conversion rounds toward zero |
| GoConfig.ExtractInt64 | internal/config/aerospace.go:244-256 | integers and floats are read, everything else is nil; an integer is read as itself |
| GoConfig.LastScalarGapIsLast | internal/config/aerospace.go:259-275 | a scalar gap of an array is the last element that has one |
| GoConfig.AsAnySlice | internal/config/aerospace.go:313-326 | arrays of values and arrays of tables are slices, nothing else is |
| GoConfig.MonitorGapsMembers | internal/config/aerospace.go:278-311 | the gaps read from a side are exactly the `monitor.<name>` integers of its table elements |
| GoConfig.EntryGapsMembers | internal/config/aerospace.go:296-307 | the gaps read from one `monitor` table are exactly its numeric entries |
| GoConfig.ExtractMonitorGaps | internal/config/aerospace.go:278-311 | the loop over the side computes `MonitorGapsIn` |
| GoConfig.AppendEntryGaps | internal/config/aerospace.go:296-307 | the loop over one monitor table appends its gaps in order |
| GoConfig.SummaryOf | internal/config/aerospace.go:99-124 | without a `gaps` table the summary is empty |
| GoConfig.DedupSound | internal/config/aerospace.go:127-150 | the monitor names are distinct and are exactly the names seen |
| GoConfig.DedupPrefix | internal/config/aerospace.go:127-150 | the names of the left side come first, in order; later names are new ones from the right side |
| GoConfig.MonitorNamesOf | internal/config/aerospace.go:127-150 | the loops with their `seen` set compute the deduplicated left-then-right names |
| GoConfig.AddUnseenNames | internal/config/aerospace.go:136-147 | one loop appends the names not yet seen and keeps `seen` equal to the names so far |
| GoConfig.MonitorNamesProperties | internal/config/aerospace.go:127-150 | distinct; exactly the names of either side; the left side's names first, then only right-side names not on the left |
| GoConfig.UpdateMonitorGapInConfig | internal/config/aerospace.go:182-218 | the nested loops compute `UpdatedConfig` |
| GoConfig.UpdateSideItems | internal/config/aerospace.go:197-217 | every element is updated; `updated` exactly when some element has the monitor's key |
| GoConfig.UpdateOneItem | internal/config/aerospace.go:199-214 | one element: updated and reported exactly when its `monitor` table has the key |
| GoConfig.UpdateItems | internal/config/aerospace.go:198-215 | the side keeps its length and each element is updated on its own |
| GoConfig.UpdateNeedsPath | internal/config/aerospace.go:183-195 | without `gaps.outer.<side>` as a slice nothing changes and nothing is reported updated |
| GoConfig.UpdateEffect | internal/config/aerospace.go:182-218 | updated exactly when some element names the monitor; otherwise the config is unchanged; otherwise the side holds the updated elements, and the other top-level keys, the other keys of `gaps` and the other keys of `gaps.outer` are unchanged |
| GoConfig.WithSideItemsSides | internal/config/aerospace.go:192-195 | replacing one side's elements leaves the other sides, the other keys of `gaps` and the other top-level keys as they were |
| GoConfig.UpdateItemOverwrites | internal/config/aerospace.go:209-214 | the monitor's key gets the new gap in place; no other key of that table changes; the element stays a table of the same kind and its keys other than `monitor` are kept |
| GoConfig.UpdateKeepsOtherSide | internal/config/aerospace.go:182-218 | updating one side never changes the other |
| GoConfig.SetMonitorGapsFailsIff | internal/config/aerospace.go:153-165 | `SetMonitorGaps` fails exactly when neither side names the monitor |
| GoConfig.SetAsymmetricGapsFailsIff | internal/config/aerospace.go:168-180 | `SetMonitorAsymmetricGaps` fails exactly when either side does not name the monitor |
| GoConfig.AerospaceService.constructor | internal/config/aerospace.go:29-39 | a fresh service holds no config and has written nothing |
| GoConfig.AerospaceService.LoadConfig | internal/config/aerospace.go:47-68 | loads once; a failure leaves the service unloaded and returns the error |
| GoConfig.AerospaceService.Summary | internal/config/aerospace.go:99-124 | loads, then returns the summary of the held config |
| GoConfig.AerospaceService.MonitorNames | internal/config/aerospace.go:127-150 | loads, then returns the deduplicated left-then-right monitor names |
| GoConfig.AerospaceService.SetMonitorGaps | internal/config/aerospace.go:153-165 | loads, then updates both sides in the held config; the error exactly as `SetMonitorGapsOn` says |
| GoConfig.AerospaceService.SetMonitorAsymmetricGaps | internal/config/aerospace.go:168-180 | loads, then updates left and right with their own gaps; the error exactly as `SetAsymmetricGapsOn` says |
| GoConfig.AerospaceService.Write | internal/config/aerospace.go:221-235 | fails when nothing is loaded; otherwise writes the held config once |
| GoWorkspace.FirstNamed | cmd/workspace/use.go:208-212 | the first display whose name equals the monitor ignoring ASCII case, or none |
| GoWorkspace.NamesOf | cmd/workspace/use.go:215-218 | the display names, in order, for the not-found message |
| GoWorkspace.ResolveMonitorWidth | cmd/workspace/use.go:185-222 | the method with its search loop computes `MonitorWidthOf` |
| GoWorkspace.MonitorWidthRules | cmd/workspace/use.go:185-222 | a positive override wins; no detection is an error; `main` asks for the main width; otherwise success exactly when some display matches by name, with the width of the first match |
| GoWorkspace.MonitorWidthIgnoresDryRun | cmd/gaps/gaps_use.go:144-181 | the width does not depend on `--dry-run` |
| GoWorkspace.WrapI64 | cmd/workspace/adjust.go:64 | Go's int64 addition wraps: the result is in the 64-bit range, congruent to the exact value modulo 2^64, and equal to it when it is in range |
| GoWorkspace.ShiftMessageDirection | cmd/workspace/shift.go:132-139 | 0 is "centered", positive "shifted n% right", negative "shifted n% left" with the magnitude printed |
| GoWorkspace.ApplyPercentage | cmd/workspace/use.go:64-182 | the method over the two services computes `ApplyOf` |
| GoWorkspace.SetChoice | cmd/workspace/use.go:134-142 | symmetric or asymmetric update of the freshly loaded config, or the load error |
| GoWorkspace.WriteApplied | cmd/workspace/use.go:125-159 | config check, update, write, state update and shift reset compute `ApplyWrites` |
| GoWorkspace.ApplyWritesShape | cmd/workspace/use.go:125-159 | success exactly when the config exists, loads and names the monitor; then the config is written before the state, and the state holds the updated record |
| GoWorkspace.ApplyStages | cmd/workspace/use.go:68-123 | a failure writes nothing; success needs a loaded state, a resolved valid percentage, a width and a stored shift, and a dry run writes nothing |
| GoWorkspace.ApplyWritesInOrder | cmd/workspace/use.go:144-159 | writes are config, state and, only when the shift was reset, a zero shift |
| GoWorkspace.ApplyChecksPercentageFirst | cmd/workspace/use.go:69-80 | a bad state, missing percentage or out-of-range percentage fails the same way whatever the displays or config |
| GoWorkspace.ApplyPercentageSource | cmd/workspace/use.go:69-75 | the percentage used is the explicit one, else current, else default; with none the command fails and writes nothing |
| GoWorkspace.ApplyShiftHandling | cmd/workspace/use.go:88-116 | a zero or no-longer-valid shift gives symmetric gaps; a valid one gives the shifted gaps; the shift is reset exactly when it was invalid |
| GoWorkspace.ApplyWritesContent | cmd/workspace/use.go:134-152 | the written config is the updated one, and the written state has the new current percentage |
| GoWorkspace.UseArgument | cmd/workspace/use.go:47-62 | an unparsable argument fails before anything is read; a parsed one is the explicit percentage |
| GoWorkspace.SavedCurrent | cmd/workspace/shift.go:59-65 | the monitor's current percentage, none when the monitor has no record |
| GoWorkspace.RunShift | cmd/workspace/shift.go:48-148 | the method computes `ShiftOf` |
| GoWorkspace.WriteShifted | cmd/workspace/shift.go:95-116 | config check, asymmetric update, write and shift record compute `ShiftWrites` |
| GoWorkspace.ShiftNeedsCurrent | cmd/workspace/shift.go:63-65 | without a current percentage the shift fails and writes nothing |
| GoWorkspace.ShiftChecks | cmd/workspace/shift.go:59-116 | a failure or dry run writes nothing; otherwise config then shift are written; success needs the saved current, a width and a valid shift, and sets the shifted gaps |
| GoWorkspace.Adjusted | cmd/gaps/gaps_adjust.go:71-77 | the adjusted percentage is accepted exactly when current+amount is in 1..100 |
| GoWorkspace.AdjustedAgreesWithoutOverflow | cmd/workspace/adjust.go:64-69 | when current+amount fits in int64, the wrapping sum of the code and the corrected exact sum accept the same adjustments and give the same percentage |
| GoWorkspace.AdjustWrapAccepted | cmd/workspace/adjust.go:64-69 | as written, a wrapped sum of two 64-bit values can pass the range check although the true sum is out of range |
| GoWorkspace.RunAdjust | cmd/workspace/adjust.go:46-73 | the method computes `AdjustOf` |
| GoWorkspace.AdjustRules | cmd/workspace/adjust.go:55-72 | no current percentage fails; an in-range target delegates to use with that target and no `--set-default`; an out-of-range one fails writing nothing |
| GoWorkspace.AdjustUsesTarget | cmd/workspace/adjust.go:72 | whenever the target resolves, the command is use with that target |
| GoWorkspace.RunAdjustCobra | cmd/workspace/workspace_adjust.go:41-68 | the cobra variant resolves the same target |
| GoWorkspace.AdjustExamples | cmd/workspace/workspace_adjust.go:37-38 | 50 by the default 5 is 55, by 10 is 60, by -10 is 40; 95+10 and 5-10 are refused |
| GoGaps.RunUse | cmd/gaps/gaps_use.go:42-141 | the method computes `UseOf` |
| GoGaps.UseResolved | cmd/gaps/gaps_use.go:69-101 | resolution, validation and width compute `UseWith` |
| GoGaps.UseWritten | cmd/gaps/gaps_use.go:104-123 | config load, update, write and state update compute `UseWrites` |
| GoGaps.RunWithPercent | cmd/gaps/gaps_use.go:184-186 | delegation formats the percentage and runs use on it |
| GoGaps.WithPercentIsExplicit | cmd/gaps/gaps_use.go:184-186 | formatting and re-parsing makes the delegated percentage the explicit one |
| GoGaps.UseRules | cmd/gaps/gaps_use.go:42-141 | a failure or dry run writes nothing; a bad argument fails first; success has a resolved valid percentage and the gap of the resolved width; writes are config then state with the new current |
| GoGaps.UseStages | cmd/gaps/gaps_use.go:69-123 | when state, percentage and width are all good the run is exactly the writes; when one is not the run fails |
| GoGaps.DryRunAgrees | cmd/gaps/gaps_use.go:95-104 | a dry run reports the same percentage and gap and writes nothing |
| GoGaps.RunAdjust | cmd/gaps/gaps_adjust.go:39-81 | the method computes `AdjustOf` |
| GoGaps.AdjustRefusals | cmd/gaps/gaps_adjust.go:44-77 | a bad amount, no current percentage or an out-of-range target each fail writing nothing |
| GoGaps.AdjustRules | cmd/gaps/gaps_adjust.go:71-80 | an in-range target delegates to use with that explicit percentage |
| GoGaps.AdjustUsesTarget | cmd/gaps/gaps_adjust.go:80 | whenever the target resolves, the command is use with that target |
| RustConfig.CollectMembers | src/config.rs:81-88 | a list reads without error exactly when each element does; the gaps read are exactly those of the elements |
| RustConfig.CollectStopsAtError | src/config.rs:84 | once a prefix fails, the whole read fails with the same error |
| RustConfig.KeyGivesIff | src/config.rs:95-122 | a key of an element yields a gap exactly when it is `monitor.<name>` or a key of a `monitor` table |
| RustConfig.MonitorGapsMembers | src/config.rs:71-89 | a side that reads yields exactly the gaps its inline-table elements record |
| RustConfig.AppendMonitorEntries | src/config.rs:91-125 | the loop appends the element's gaps in order or stops at the first non-integer |
| RustConfig.AppendInlineMonitors | src/config.rs:112-120 | the inner loop over a `monitor` table appends its gaps or stops at the first non-integer |
| RustConfig.ReadMonitorGaps | src/config.rs:71-89 | the loop over the array computes `MonitorGapsOf` |
| RustConfig.ReadOptionalInteger | src/config.rs:60-69 | an absent key is none; a present key reads exactly when it is an integer, as that integer |
| RustConfig.SummaryNeedsTables | src/config.rs:23-58 | without `[gaps]` it fails; on success both side arrays read and give the summary's gaps; no inner table gives no inner gaps |
| RustConfig.SummaryTestExample | src/config.rs:273-319 | the unit test's document reads as inner 12/14, outer 8/6, left main 250 and Studio Display 40, right main 300 and DeskPad Display 0 |
| RustConfig.UpdateMonitorEntryCases | src/config.rs:188-211 | a `monitor` inline table gets `main`, a non-table `monitor` is an error, otherwise `monitor.main` is overwritten in place or appended; no other key changes |
| RustConfig.UpdateMonitorEntryReadsBack | src/config.rs:188-211 | after the edit the table reads back with gap `main` equal to the new size |
| RustConfig.FirstInlineTable | src/config.rs:176-177 | the first inline table of an array, by position |
| RustConfig.UpdatedSideFails | src/config.rs:150-186 | fails exactly when `[gaps]`, `[gaps.outer]` or the side array is missing or mistyped, there is no inline table, or the chosen table's `monitor` is not a table |
| RustConfig.UpdatedSideEffect | src/config.rs:150-186 | exactly the chosen element changes: index 1 when it is an inline table, else the first inline table; the other keys of `[gaps.outer]`, of `[gaps]` and of the document are kept |
| RustConfig.WithSideReads | src/config.rs:163-170 | the rewritten side reads back as the new array; every other key of `[gaps.outer]`, of `[gaps]` and of the document is unchanged |
| RustConfig.ConfigDocument.constructor | src/config.rs:130-132 | the document holds the parsed tree |
| RustConfig.ConfigDocument.UpdateGapSide | src/config.rs:150-186 | the in-place edit gives `UpdatedSide`, or leaves the document unchanged with the error |
| RustConfig.ConfigDocument.UpdateGaps | src/config.rs:144-148 | right side, then left side, with the error of the first failure |
| RustConfig.ChooseTable | src/config.rs:172-183 | the `find_map` search loop picks the same element as `ChosenTable` |
| RustConfig.UpdateConfig | src/config.rs:127-142 | for a parsed file, what is written is the document after `update_gaps` |
| RustConfig.UpdateTestExample | src/config.rs:221-270 | both sides get `main = 111` in their second element, and no `monitor.main` key is added |
| RustState.ParseOptionalInteger | src/state.rs:37-46 | an absent key is none, an integer is itself, anything else an error naming the key |
| RustState.ParseStateLegacy | src/state.rs:48-62 | blank contents are an error; contents migrate exactly when they trim to a 64-bit integer, which becomes both current and default |
| RustState.ParseStateTable | src/state.rs:64-80 | other contents read exactly when they parse, have a `[workspace]` table and both keys are absent or integers; then current and default are those keys |
| RustState.ResolveAgreesWithGo | src/state.rs:83-96 | the Rust resolution is the Go priority chain for a single monitor |
| RustState.ResolveExamples | src/state.rs:171-197 | the unit test: explicit 10 wins, then current 25, then default 40, and nothing gives none |
| RustState.WriteStateRule | src/state.rs:98-118 | current becomes the percentage; default is set when asked or absent, otherwise kept; the same rule as Go's `Update` |
| RustState.Render | src/state.rs:131-135 | the persisted text starts with `[` and ends with a newline |
| RustState.RenderIsNotLegacy | src/state.rs:120-137 | persisted text is never mistaken for the legacy bare integer |
| RustState.PersistDocumentReads | src/state.rs:120-131 | the persisted document reads back as the state, not migrated |
| RustState.PersistRoundTrip | src/state.rs:120-137 | parsing what `persist_state` writes gives back the state |
| RustState.WriteStateExamples | src/state.rs:199-231 | the unit tests: 40 over (55, 70) reads back as (40, 70); 35 over (30, none) as (35, 35) |
| RustState.ReadStateFileWrites | src/state.rs:20-35 | a missing file is none; the file is rewritten exactly when it was legacy and not a dry run, and the rewrite reads back as the loaded state |
| RustState.ReadPersisted | src/state.rs:20-35 | reading a file `persist_state` wrote gives the state, not migrated, and rewrites nothing |
| RustCommands.ResolveMonitorWidth | src/gaps/size.rs:39-50 | an override is used exactly when positive; otherwise the main width, with the hint added to its error |
| RustCommands.MonitorWidthExamples | src/gaps/size.rs:191-216 | 1800 is used; 0 and -1200 give an error mentioning "positive" |
| RustCommands.PlanRules | src/gaps/size.rs:52-85 | a plan has a valid percentage, the resolved width and its gap, and the existing or a new state; no percentage is `MissingPercentage`; a bad percentage fails before the width is asked |
| RustCommands.ExecutePlan | src/gaps/size.rs:100-146 | the method computes `ExecuteOf` |
| RustCommands.HandleUse | src/gaps/size.rs:148-173 | the method computes `UseOf` |
| RustCommands.UseEffects | src/gaps/size.rs:114-136 | a dry run has no effects; otherwise config then state are written, reload follows exactly when enabled and the binary is found, and the run fails exactly when the binary is not |
| RustCommands.UseMissingAndDryRun | src/gaps/size.rs:158-163 | no state and no percentage is the "no saved percentage" error; a dry run reports what the real run does |
| RustCommands.AdjustTargetRules | src/gaps/adjust.rs:8-22 | the target is current+amount exactly when the state exists, has a current and the sum is in range; a missing file and a missing current give their messages |
| RustCommands.SizeAdjust | src/gaps/adjust.rs:8-26 | the method computes `SizeAdjustOf` |
| RustCommands.SizeAdjustDelegates | src/gaps/adjust.rs:21-25 | a valid target runs use with it after the migration write; otherwise it fails with only the migration write; a dry run has no effects |
| RustCommands.HandleSize | src/handlers.rs:9-66 | the method computes `SizeOf` |
| RustCommands.SizeWrites | src/handlers.rs:49-65 | config update, state write and reload compute `SizeWritten` |
| RustCommands.AfterReadOutcome | src/handlers.rs:19-34 | nothing to do exactly when no percentage resolves; planned exactly on a dry run; otherwise a valid percentage and the gap of the main width |
| RustCommands.AfterReadEffects | src/handlers.rs:37-62 | only an applied run writes: migration, config, state, and reload unless disabled; a warning exactly when reload fails |
| RustCommands.SizeRules | src/handlers.rs:9-24 | failing to find the binary or a path writes nothing; a dry run writes nothing; no percentage and no state is nothing to do |
| RustCommands.SizeChecksPercentageFirst | src/handlers.rs:19-27 | an out-of-range percentage fails whatever the width or config |
| RustCommands.HandleAdjust | src/handlers.rs:68-84 | the method computes `AdjustOf` |
| RustCommands.RereadAfterPersist | src/handlers.rs:70-83 | after a migration, reading again gives the same state, not migrated, and no second rewrite |
| RustCommands.AdjustRules | src/handlers.rs:68-84 | a missing state or current fails after the migration write; otherwise size runs with current+amount on the rewritten file, which reads as the same state |

## Left out

- Floating point: `CalculateGapSize` and `calculate_gap_size` compute in float64 and round half away from zero. The model uses exact rational arithmetic with the same rounding, on unbounded integers. The results can differ in four ways. (1) On ties: width 100 at 71 per cent is 14.5 exactly, rounded to 15 here, while Go's float64 arithmetic gives 14.499… and rounds to 14. (2) Off ties, once w·(100−p) is large (from about 2^46): each float64 step rounds, so a value just below a half can become exactly the half and round up. For example, width 129222116193489 at 9 per cent is exactly 58796062868037.495, rounded to …037 here, while the float64 products in both programs come to …037.5 and round to …038. (3) On widths above 2^53, which float64 cannot hold exactly: a positive `--monitor-width` override is used as given, and an over-long xrandr width saturates to the largest int64. (4) On results beyond int64: Go's `int(math.Round(…))` conversion is then implementation-defined and Rust's `as i64` saturates, while the model keeps the exact value.
- TOML text: parsing and printing are not modelled. A decoded document is an input to the model, and `Render` gives only the shape `persist_state` produces.
- File I/O: reads are inputs (missing, unreadable, or contents). `write_atomic`, `WriteAtomic` and `os.Stat` are assumed to succeed, and every write is recorded in order.
- Processes: `exec.LookPath` and `xrandr` are inputs (a found flag, the command output). In the Rust commands the aerospace binary lookup and the reload are inputs too (a found flag, a reload result) and appear in the effect log. The Go commands' reload after writing, unless `--no-reload` (cmd/workspace/use.go:163-172, cmd/workspace/shift.go:120-129, cmd/gaps/gaps_use.go:126-137), is left out: it changes only the printed status, not the config or state writes.
- Display detection on macOS (display_darwin.go uses cgo) and on other systems is left out. Only the Linux provider is modelled.
- Output: printed messages, colours and verbose lines are left out. Error messages are kept where the source's tests inspect them.
- CLI wiring: flag parsing and option structs are inputs. Default config and state paths are inputs, as are home directory lookups.
- Shift arithmetic: `gaps.ValidateShift`, `gaps.CalculateShiftedGaps`, `GetShift` and `SetShift` are not part of this model. They appear as abstract functions and as an input shift.
- `config.LoadState`, `LoadAerospaceConfig` and the `State` type used by `cmd/gaps` are not part of this model. The model assumes they behave like `WorkspaceService` and `AerospaceService` (a loaded monitor map, `SetMonitorGaps`, `Write`).
- The Rust `crate::config` API used by src/gaps (`WorkspaceState::resolve`, `::new`, `::update`, `::from_options`, `::resolve_path`, `AerospaceConfig::set_main_gaps`, `::from_options`) is not part of this model. It is taken as abstract functions, and only the order of calls and writes is proved.
- Both src/gaps resolvers (`WorkspaceState::resolve_path` in `build_plan` and `resolve_state_path` in `adjust.rs`) read one state-path input.
- Map order: Go iterates maps in random order. The model iterates in entry order, and only order-independent properties are stated about monitor names within one table.
- Go `float64` values in the config: `extractInt64` truncates them toward zero, and that is modelled for every finite float, which is all a TOML decoder can produce (`Toml.Float` holds a `real`, so there is no inf or nan). A float beyond the int64 range is truncated exactly by `GoConfig.Truncate`, where Go's `int64(val)` conversion (internal/config/aerospace.go:251) gives an implementation-defined value. Floats in the state file are not modelled.
- RustCommands.AdjustTarget: Rust's `current + amount` on i64 panics on overflow in debug builds and wraps in release builds. Neither is modelled; the sum is exact.
- GoWorkspace.FirstNamed, GoWorkspace.ResolveMonitorWidth and `GoGaps.UseWith` compare monitor names with `Text.EqualFold`, which folds ASCII letters only. Go's `strings.EqualFold` (cmd/workspace/use.go:209, cmd/gaps/gaps_use.go:168) also applies Unicode simple case folding, so a name that matches only through a non-ASCII fold is found by Go and reported not found by the model. Examples are `ſ` for `s`, the Kelvin sign for `k`, and `É` for `é`. The Unicode case tables are not part of this model.
- GoWorkspace.MonitorWidthRules: "matches ignoring case" means the ASCII-only `Text.EqualFold`, for the reason above; names equal under Unicode folding alone are not covered.
- GoWorkspace.NotFoundMessage: Go formats the monitor name with `%q`, which escapes quotes, backslashes and non-printable characters. The model writes the name between plain double quotes without escaping.
- Display.Lines: `bufio.Scanner` stops at a line longer than 64 KiB, and `Enumerate` never checks `scanner.Err()`, so Go silently drops that line and every display after it. The model splits every line, whatever its length.
- GoWorkspace.AdjustTarget, GoWorkspace.AdjustOf, GoGaps.AdjustOf and the members built on them (`RunAdjust`, `RunAdjustCobra`, `AdjustRules`, `AdjustRefusals`) use the corrected exact sum `GoWorkspace.Adjusted`, not the int64 addition of the code (see Findings). Their `AdjustedOutOfRange` error carries the exact sum, where Go prints the wrapped value. `GoWorkspace.AdjustedAgreesWithoutOverflow` proves that the two rules accept the same adjustments, with the same result, whenever current + amount fits in int64.
- RustCommands.HandleSize and RustCommands.HandleAdjust: src/handlers.rs imports `calculate_gap_size`, `validate_percentage`, `resolve_config_path` and `resolve_state_path` from `crate::util`, but the src/util.rs of this revision defines only `expand_tilde` and `write_atomic`. The model uses the src/gaps versions of the first two (`Gaps.CalculateGapSize`, `Gaps.CheckPercentage`) and takes the results of `resolve_config_path` and `resolve_state_path`, whose bodies are not part of this model, as the inputs `configPath` and `statePath`.
- The `workspace use` documentation mentions a 60 per cent fallback that the code does not have. The model follows the code.

## Findings

| source | as written | input that shows it | evidently intended | confidence | as-written member | corrected member |
|---|---|---|---|---|---|---|
| cmd/workspace/adjust.go:64 | `newPercent := *monState.Current + amount` wraps in int64 before `ValidatePercentage` checks it (the same line is at cmd/workspace/workspace_adjust.go:59 and cmd/gaps/gaps_adjust.go:72) | a stored current of -9223372036854775808 and an amount of -9223372036854775758 wrap to 50 and are accepted | refuse any adjustment whose true sum is outside 1..100 | not executed; needs a hand-edited state file | GoWorkspace.AdjustWrapAccepted | GoWorkspace.Adjusted |
