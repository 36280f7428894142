/** The Rust gap commands: `use`/`size` and `adjust`, in the two shapes the program has them
    (src/gaps/size.rs with src/gaps/adjust.rs, and src/handlers.rs). Each command is a function from
    its inputs to a `Run`: the outcome, and the effects it had on the outside world in order (files
    written, `aerospace reload-config` started). Finding the executable, reading the display width,
    resolving paths and the result of the reload are inputs. */
module RustCommands {
  import opened Wrappers
  import opened Toml
  import Text
  import Gaps
  import RustState
  import RustConfig

  /** An effect a command has: a file written, or the reload command started. */
  datatype Effect =
    | WriteConfig(doc: seq<Entry>)
    | WriteState(state: RustState.WorkspaceState)
    | Reload

  // ---- src/gaps/size.rs ----

  const NonPositiveWidthMessage := "Monitor width must be positive."
  const WidthHint := "\nHint: use --monitor-width to override detection."

  /** `resolve_monitor_width`: an override must be positive and wins; without one the main display's
      width is used, and a detection error gets a hint appended. */
  function ResolveMonitorWidth(monitorWidth: Option<int>, mainWidth: Result<int, string>): (r: Result<int, string>)
    ensures monitorWidth.Some? ==> (r.Ok? <==> monitorWidth.value > 0)
    ensures r.Ok? ==> if monitorWidth.Some? then r.value == monitorWidth.value else mainWidth == Ok(r.value)
    ensures monitorWidth.None? && mainWidth.Err? ==> r == Err(mainWidth.error + WidthHint)
  {
    match monitorWidth
    case Some(w) => if w <= 0 then Err(NonPositiveWidthMessage) else Ok(w)
    case None => if mainWidth.Err? then Err(mainWidth.error + WidthHint) else mainWidth
  }

  predicate Contains(s: string, part: string) {
    exists i :: 0 <= i <= |s| && Text.HasPrefix(s[i..], part)
  }

  /** The unit tests of `resolve_monitor_width`: 1800 is used; 0 and -1200 are refused with a message
      that says the width must be positive. */
  lemma MonitorWidthExamples(mainWidth: Result<int, string>)
    ensures ResolveMonitorWidth(Some(1800), mainWidth) == Ok(1800)
    ensures ResolveMonitorWidth(Some(0), mainWidth).Err? && Contains(ResolveMonitorWidth(Some(0), mainWidth).error, "positive")
    ensures ResolveMonitorWidth(Some(-1200), mainWidth).Err? && Contains(ResolveMonitorWidth(Some(-1200), mainWidth).error, "positive")
  {
    assert Text.HasPrefix(NonPositiveWidthMessage[22..], "positive");
  }

  /** The state and config API size.rs is written against (`crate::config::WorkspaceState` and
      `AerospaceConfig`), whose code is not part of this model. */
  datatype SizeApi = SizeApi(
    resolve: (RustState.WorkspaceState, Option<int>) -> Option<int>,               // `WorkspaceState::resolve_percentage`
    created: int -> RustState.WorkspaceState,                                      // `WorkspaceState::new(path, percentage, None)`
    update: (RustState.WorkspaceState, int, bool) -> RustState.WorkspaceState,     // `WorkspaceState::update`
    setMainGaps: (seq<Entry>, int) -> Result<seq<Entry>, string>)                  // `AerospaceConfig::set_main_gaps`

  /** What the size.rs commands read besides their arguments. */
  datatype SizeEnv = SizeEnv(
    monitorWidth: Option<int>,                                 // `--monitor-width`
    dryRun: bool,
    noReload: bool,
    existing: Result<Option<RustState.WorkspaceState>, string>,  // `WorkspaceState::from_options`
    config: Result<seq<Entry>, string>,                         // `AerospaceConfig::from_options`
    statePath: Result<string, string>,                          // the resolved state path
    mainWidth: Result<int, string>,                             // `main_display_width`
    binary: Result<string, string>,                             // `resolve_binary`
    reload: Result<(), string>)                                 // what `reload-config` reports

  datatype SizePlan = SizePlan(config: seq<Entry>, state: RustState.WorkspaceState, percentage: int, monitorWidth: int, gapSize: int)

  datatype SizePlanResult = MissingPercentage(statePath: string) | Ready(plan: SizePlan)

  datatype ReloadStatus = Skipped | ReloadOk | ReloadFailed

  /** How a size.rs run ended well: `reload` is `None` on a dry run. */
  datatype Report = Report(percentage: int, monitorWidth: int, gapSize: int, reload: Option<ReloadStatus>)

  datatype SizeRun = SizeRun(result: Result<Report, string>, effects: seq<Effect>)

  /** `build_plan`. */
  function BuildPlan(api: SizeApi, env: SizeEnv, percent: Option<int>, existing: Option<RustState.WorkspaceState>): Result<SizePlanResult, string> {
    if env.config.Err? then Err(env.config.error)
    else if env.statePath.Err? then Err(env.statePath.error)
    else
      var percentage := if existing.Some? then api.resolve(existing.value, percent) else percent;
      if percentage.None? then Ok(MissingPercentage(env.statePath.value))
      else
        var p := percentage.value;
        var check := Gaps.CheckPercentage(p);
        if check.Err? then Err(check.error)
        else
          var width := ResolveMonitorWidth(env.monitorWidth, env.mainWidth);
          if width.Err? then Err(width.error)
          else
            var state := if existing.Some? then existing.value else api.created(p);
            Ok(Ready(SizePlan(env.config.value, state, p, width.value, Gaps.CalculateGapSize(width.value, p))))
  }

  /** A plan is ready only for a percentage in 1..100 and the width `resolve_monitor_width` gives, and
      its gap is the gap for them; without an existing state the percentage is the explicit one, and
      without either there is no percentage. The percentage is checked before the width is looked at. */
  lemma PlanRules(api: SizeApi, env: SizeEnv, percent: Option<int>, existing: Option<RustState.WorkspaceState>)
    ensures var r := BuildPlan(api, env, percent, existing);
      r.Ok? && r.value.Ready? ==>
        var plan := r.value.plan;
        && 1 <= plan.percentage <= 100
        && ResolveMonitorWidth(env.monitorWidth, env.mainWidth) == Ok(plan.monitorWidth)
        && plan.gapSize == Gaps.CalculateGapSize(plan.monitorWidth, plan.percentage)
        && plan.config == env.config.value
        && (existing.None? ==> percent == Some(plan.percentage) && plan.state == api.created(plan.percentage))
        && (existing.Some? ==> api.resolve(existing.value, percent) == Some(plan.percentage) && plan.state == existing.value)
    ensures existing.None? && percent.None? && env.config.Ok? && env.statePath.Ok? ==>
      BuildPlan(api, env, percent, existing) == Ok(MissingPercentage(env.statePath.value))
    ensures var percentage := if existing.Some? then api.resolve(existing.value, percent) else percent;
      env.config.Ok? && env.statePath.Ok? && percentage.Some? && !(1 <= percentage.value <= 100) ==>
        forall w :: BuildPlan(api, env.(mainWidth := w), percent, existing) == Err(Gaps.CheckPercentage(percentage.value).error)
  {
  }

  /** What `execute_plan` does. */
  function ExecuteOf(api: SizeApi, env: SizeEnv, plan: SizePlan, setDefault: bool): SizeRun {
    var report := Report(plan.percentage, plan.monitorWidth, plan.gapSize, None);
    if env.dryRun then SizeRun(Ok(report), [])
    else
      var config := api.setMainGaps(plan.config, plan.gapSize);
      if config.Err? then SizeRun(Err(config.error), [])
      else
        var written := [WriteConfig(config.value), WriteState(api.update(plan.state, plan.percentage, setDefault))];
        if env.noReload then SizeRun(Ok(report.(reload := Some(Skipped))), written)
        else if env.binary.Err? then SizeRun(Err(env.binary.error), written)
        else
          var status := if env.reload.Ok? then ReloadOk else ReloadFailed;
          SizeRun(Ok(report.(reload := Some(status))), written + [Reload])
  }

  /** `execute_plan`: on a dry run nothing happens; otherwise the plan's config gets the gap and is
      written, then its state is updated and written, then the reload runs unless it is skipped. */
  method ExecutePlan(api: SizeApi, env: SizeEnv, plan: SizePlan, setDefault: bool) returns (r: SizeRun)
    ensures r == ExecuteOf(api, env, plan, setDefault)
  {
    var report := Report(plan.percentage, plan.monitorWidth, plan.gapSize, None);
    if env.dryRun {
      return SizeRun(Ok(report), []);
    }
    var effects: seq<Effect> := [];
    var config := api.setMainGaps(plan.config, plan.gapSize);
    if config.Err? {
      return SizeRun(Err(config.error), effects);
    }
    effects := effects + [WriteConfig(config.value)];
    var state := api.update(plan.state, plan.percentage, setDefault);
    effects := effects + [WriteState(state)];
    var status := Skipped;
    if !env.noReload {
      if env.binary.Err? {
        return SizeRun(Err(env.binary.error), effects);
      }
      effects := effects + [Reload];
      status := if env.reload.Ok? then ReloadOk else ReloadFailed;
    }
    r := SizeRun(Ok(report.(reload := Some(status))), effects);
  }

  function MissingPercentageMessage(statePath: string): string {
    "No percentage provided and no saved percentage found at " + statePath
  }

  /** What `handle_use` does. */
  function UseOf(api: SizeApi, env: SizeEnv, percent: Option<int>, setDefault: bool): SizeRun {
    if env.existing.Err? then SizeRun(Err(env.existing.error), [])
    else
      var plan := BuildPlan(api, env, percent, env.existing.value);
      if plan.Err? then SizeRun(Err(plan.error), [])
      else if plan.value.MissingPercentage? then SizeRun(Err(MissingPercentageMessage(plan.value.statePath)), [])
      else ExecuteOf(api, env, plan.value.plan, setDefault)
  }

  /** `handle_use`: the existing state is loaded, the plan built, and a missing percentage turned into
      an error; a ready plan is executed. */
  method HandleUse(api: SizeApi, env: SizeEnv, percent: Option<int>, setDefault: bool) returns (r: SizeRun)
    ensures r == UseOf(api, env, percent, setDefault)
  {
    if env.existing.Err? {
      return SizeRun(Err(env.existing.error), []);
    }
    var plan := BuildPlan(api, env, percent, env.existing.value);
    if plan.Err? {
      return SizeRun(Err(plan.error), []);
    }
    match plan.value
    case MissingPercentage(statePath) =>
      r := SizeRun(Err(MissingPercentageMessage(statePath)), []);
    case Ready(p) =>
      r := ExecutePlan(api, env, p, setDefault);
  }

  /** `use` has effects only past every check of the plan and outside a dry run; then the config with
      the plan's gap is written first and the updated state second, and the reload, if any, comes last.
      A missing executable fails the command after both writes; a failed reload does not fail it. */
  lemma UseEffects(api: SizeApi, env: SizeEnv, percent: Option<int>, setDefault: bool)
    ensures var run := UseOf(api, env, percent, setDefault);
      && (env.dryRun ==> run.effects == [])
      && (run.effects != [] ==>
            && env.existing.Ok?
            && var plan := BuildPlan(api, env, percent, env.existing.value);
            plan.Ok? && plan.value.Ready?
            && var p := plan.value.plan;
            && api.setMainGaps(p.config, p.gapSize).Ok?
            && run.effects[..2] == [WriteConfig(api.setMainGaps(p.config, p.gapSize).value), WriteState(api.update(p.state, p.percentage, setDefault))]
            && (run.result.Err? <==> !env.noReload && env.binary.Err?)
            && (|run.effects| == 3 <==> !env.noReload && env.binary.Ok?)
            && |run.effects| <= 3 && (|run.effects| == 3 ==> run.effects[2] == Reload))
      && (run.result.Ok? && !env.dryRun && !env.noReload ==> run.result.value.reload.Some? && run.result.value.reload.value != Skipped)
  {
  }

  /** With no percentage given and no existing state, `use` fails with the state path in its message
      once the config and the path resolve; a dry run that would succeed reports what the real run
      reports, without effects. */
  lemma UseMissingAndDryRun(api: SizeApi, env: SizeEnv, percent: Option<int>, setDefault: bool)
    ensures env.existing == Ok(None) && percent.None? && env.config.Ok? && env.statePath.Ok? ==>
      UseOf(api, env, percent, setDefault) == SizeRun(Err(MissingPercentageMessage(env.statePath.value)), [])
    ensures UseOf(api, env, percent, setDefault).result.Ok? && env.dryRun ==>
      var actual := UseOf(api, env.(dryRun := false), percent, setDefault);
      actual.result.Ok? ==> actual.result.value.(reload := None) == UseOf(api, env, percent, setDefault).result.value
  {
  }

  // ---- src/gaps/adjust.rs ----

  function MissingStateFileMessage(statePath: string): string {
    "State file not found at " + statePath + ".\nRun `aerospace-utils gaps use <percentage>` first."
  }

  /** The effect of `read_state_file`: a migrated legacy file rewritten in the new format. */
  function Persisted(out: RustState.ReadOutcome): seq<Effect> {
    if out.persisted.Some? then [WriteState(out.persisted.value)] else []
  }

  /** The percentage `adjust` moves to, or why it will not: the state file must exist and hold a
      current percentage, and the moved one must be in 1..100. `missingCurrent` is the message for a
      state without a current percentage, which the two versions word differently. */
  function AdjustTarget(out: RustState.ReadOutcome, statePath: string, amount: int, missingCurrent: string): Result<int, string> {
    if out.result.Err? then Err(out.result.error)
    else if out.result.value.None? then Err(MissingStateFileMessage(statePath))
    else if out.result.value.value.state.current.None? then Err(missingCurrent)
    else
      var target := out.result.value.value.state.current.value + amount;
      var check := Gaps.CheckPercentage(target);
      if check.Err? then Err(check.error) else Ok(target)
  }

  /** A target exists exactly when the file was read, holds a current percentage, and moving it by the
      amount lands in 1..100; the target is then that sum. */
  lemma AdjustTargetRules(out: RustState.ReadOutcome, statePath: string, amount: int, missingCurrent: string)
    ensures var t := AdjustTarget(out, statePath, amount, missingCurrent);
      t.Ok? <==> out.result.Ok? && out.result.value.Some? && out.result.value.value.state.current.Some?
                 && 1 <= out.result.value.value.state.current.value + amount <= 100
    ensures var t := AdjustTarget(out, statePath, amount, missingCurrent);
      t.Ok? ==> t.value == out.result.value.value.state.current.value + amount
    ensures out.result == Ok(None) ==> AdjustTarget(out, statePath, amount, missingCurrent) == Err(MissingStateFileMessage(statePath))
    ensures out.result.Ok? && out.result.value.Some? && out.result.value.value.state.current.None? ==>
      AdjustTarget(out, statePath, amount, missingCurrent) == Err(missingCurrent)
  {
  }

  function CurrentMissingAt(statePath: string): string {
    "State file at " + statePath + " is missing current percentage"
  }

  /** What size.rs's `handle_adjust` does with the state file it finds. */
  function SizeAdjustOf(api: SizeApi, env: SizeEnv, stateFile: RustState.StateFileInput, amount: int): SizeRun {
    if env.statePath.Err? then SizeRun(Err(env.statePath.error), [])
    else
      var path := env.statePath.value;
      var out := RustState.ReadStateFile(path, stateFile, env.dryRun);
      var target := AdjustTarget(out, path, amount, CurrentMissingAt(path));
      if target.Err? then SizeRun(Err(target.error), Persisted(out))
      else
        var rest := UseOf(api, env, Some(target.value), false);
        SizeRun(rest.result, Persisted(out) + rest.effects)
  }

  /** `handle_adjust` of src/gaps/adjust.rs: the state file is read (which may rewrite a legacy one),
      its current percentage moved by the amount and checked, and `use` run with the result. */
  method SizeAdjust(api: SizeApi, env: SizeEnv, stateFile: RustState.StateFileInput, amount: int) returns (r: SizeRun)
    ensures r == SizeAdjustOf(api, env, stateFile, amount)
  {
    if env.statePath.Err? {
      return SizeRun(Err(env.statePath.error), []);
    }
    var path := env.statePath.value;
    var out := RustState.ReadStateFile(path, stateFile, env.dryRun);
    var effects := Persisted(out);
    var newPercentage := AdjustTarget(out, path, amount, CurrentMissingAt(path));
    if newPercentage.Err? {
      return SizeRun(Err(newPercentage.error), effects);
    }
    var rest := HandleUse(api, env, Some(newPercentage.value), false);
    r := SizeRun(rest.result, effects + rest.effects);
  }

  /** `adjust` needs a state file holding a current percentage, and current + amount in 1..100; it
      then runs `use` with that sum as the explicit percentage and `set_default` off, after the rewrite
      of a legacy file if there was one. Otherwise it fails with no effect but that rewrite. A dry run
      has no effect at all. */
  lemma SizeAdjustDelegates(api: SizeApi, env: SizeEnv, stateFile: RustState.StateFileInput, amount: int)
    requires env.statePath.Ok?
    ensures var out := RustState.ReadStateFile(env.statePath.value, stateFile, env.dryRun);
      var run := SizeAdjustOf(api, env, stateFile, amount);
      if out.result.Ok? && out.result.value.Some? && out.result.value.value.state.current.Some?
         && 1 <= out.result.value.value.state.current.value + amount <= 100
      then
        var rest := UseOf(api, env, Some(out.result.value.value.state.current.value + amount), false);
        run == SizeRun(rest.result, Persisted(out) + rest.effects)
      else run.result.Err? && run.effects == Persisted(out)
    ensures env.dryRun ==> SizeAdjustOf(api, env, stateFile, amount).effects == []
  {
    var out := RustState.ReadStateFile(env.statePath.value, stateFile, env.dryRun);
    AdjustTargetRules(out, env.statePath.value, amount, CurrentMissingAt(env.statePath.value));
    RustState.ReadStateFileWrites(env.statePath.value, stateFile, env.dryRun);
    var target := AdjustTarget(out, env.statePath.value, amount, CurrentMissingAt(env.statePath.value));
    if env.dryRun && target.Ok? {
      UseEffects(api, env, Some(target.value), false);
    }
  }

  // ---- src/handlers.rs ----

  /** What the handlers.rs commands read besides their arguments. */
  datatype HandlerEnv = HandlerEnv(
    dryRun: bool,
    noReload: bool,
    binary: Result<string, string>,          // `require_aerospace_executable`
    configPath: Result<string, string>,      // `resolve_config_path`
    statePath: Result<string, string>,       // `resolve_state_path`
    stateFile: RustState.StateFileInput,     // what is at the state path
    configFile: RustConfig.ConfigFile,       // what is at the config path
    mainWidth: Result<int, string>,          // `main_display_width`
    reload: Result<(), string>)              // what `reload_aerospace_config` reports

  /** How a handlers.rs run ended well: nothing to do, a dry run's plan, or the applied percentage and
      gap with the reload warning, if the reload failed. */
  datatype Outcome = NothingToDo | Planned(percentage: int, gapSize: int) | Applied(percentage: int, gapSize: int, warning: Option<string>)

  datatype Run = Run(result: Result<Outcome, string>, effects: seq<Effect>)

  /** The state `write_state` is given: the loaded one, if any. */
  function LoadedState(load: Option<RustState.StateLoad>): Option<RustState.WorkspaceState> {
    if load.Some? then Some(load.value.state) else None
  }

  /** The part of `handle_size` once the state is read. */
  function SizeAfterRead(env: HandlerEnv, out: RustState.ReadOutcome, percent: Option<int>, setDefault: bool): Run
    requires env.configPath.Ok? && out.result.Ok?
  {
    var load := out.result.value;
    var percentage := RustState.ResolvePercentage(percent, load);
    if percentage.None? then Run(Ok(NothingToDo), Persisted(out))
    else
      var p := percentage.value;
      var check := Gaps.CheckPercentage(p);
      if check.Err? then Run(Err(check.error), Persisted(out))
      else if env.mainWidth.Err? then Run(Err(env.mainWidth.error), Persisted(out))
      else
        var gap := Gaps.CalculateGapSize(env.mainWidth.value, p);
        if env.dryRun then Run(Ok(Planned(p, gap)), Persisted(out))
        else SizeWritten(env, out, p, gap, setDefault)
  }

  /** The end of `handle_size` on a real run: `update_config`, `write_state` and the reload. */
  function SizeWritten(env: HandlerEnv, out: RustState.ReadOutcome, p: int, gap: int, setDefault: bool): Run
    requires env.configPath.Ok? && out.result.Ok?
  {
    var doc := RustConfig.UpdateConfig(env.configPath.value, env.configFile, gap);
    if doc.Err? then Run(Err(doc.error), Persisted(out))
    else
      var written := Persisted(out) + [WriteConfig(doc.value), WriteState(RustState.WriteStateValue(p, LoadedState(out.result.value), setDefault))];
      if env.noReload then Run(Ok(Applied(p, gap, None)), written)
      else
        var warning := if env.reload.Err? then Some(env.reload.error) else None;
        Run(Ok(Applied(p, gap, warning)), written + [Reload])
  }

  /** What `handle_size` does. */
  function SizeOf(env: HandlerEnv, percent: Option<int>, setDefault: bool): Run {
    if env.binary.Err? then Run(Err(env.binary.error), [])
    else if env.configPath.Err? then Run(Err(env.configPath.error), [])
    else if env.statePath.Err? then Run(Err(env.statePath.error), [])
    else
      var out := RustState.ReadStateFile(env.statePath.value, env.stateFile, env.dryRun);
      if out.result.Err? then Run(Err(out.result.error), Persisted(out))
      else SizeAfterRead(env, out, percent, setDefault)
  }

  /** `handle_size`: the executable and both paths are found, the state file read and the percentage
      resolved; with none there is nothing to do. The percentage is checked, the width read and the gap
      computed; outside a dry run the config is updated and written, the state written, and the
      configuration reloaded unless that is turned off. */
  method HandleSize(env: HandlerEnv, percent: Option<int>, setDefault: bool) returns (r: Run)
    ensures r == SizeOf(env, percent, setDefault)
  {
    if env.binary.Err? {
      return Run(Err(env.binary.error), []);
    }
    if env.configPath.Err? {
      return Run(Err(env.configPath.error), []);
    }
    if env.statePath.Err? {
      return Run(Err(env.statePath.error), []);
    }
    var out := RustState.ReadStateFile(env.statePath.value, env.stateFile, env.dryRun);
    var effects := Persisted(out);
    if out.result.Err? {
      return Run(Err(out.result.error), effects);
    }
    var percentage := RustState.ResolvePercentage(percent, out.result.value);
    if percentage.None? {
      return Run(Ok(NothingToDo), effects);
    }
    var p := percentage.value;
    var check := Gaps.CheckPercentage(p);
    if check.Err? {
      return Run(Err(check.error), effects);
    }
    if env.mainWidth.Err? {
      return Run(Err(env.mainWidth.error), effects);
    }
    var gapSize := Gaps.CalculateGapSize(env.mainWidth.value, p);
    if env.dryRun {
      return Run(Ok(Planned(p, gapSize)), effects);
    }
    r := SizeWrites(env, out, p, gapSize, setDefault);
  }

  /** The end of `handle_size`: `update_config`, `write_state`, and the reload. */
  method SizeWrites(env: HandlerEnv, out: RustState.ReadOutcome, p: int, gapSize: int, setDefault: bool) returns (r: Run)
    requires env.configPath.Ok? && out.result.Ok?
    ensures r == SizeWritten(env, out, p, gapSize, setDefault)
  {
    var effects := Persisted(out);
    var doc := RustConfig.UpdateConfig(env.configPath.value, env.configFile, gapSize);
    if doc.Err? {
      return Run(Err(doc.error), effects);
    }
    var state := RustState.WriteStateValue(p, LoadedState(out.result.value), setDefault);
    effects := effects + [WriteConfig(doc.value), WriteState(state)];
    if env.noReload {
      return Run(Ok(Applied(p, gapSize, None)), effects);
    }
    var warning: Option<string> := None;
    if env.reload.Err? {
      warning := Some(env.reload.error);
    }
    r := Run(Ok(Applied(p, gapSize, warning)), effects + [Reload]);
  }

  /** Once the state is read, `handle_size` does nothing for an unresolved percentage, and otherwise
      applies (or plans, on a dry run) the resolved percentage, which is in 1..100, with the gap for
      the main display's width. */
  lemma AfterReadOutcome(env: HandlerEnv, out: RustState.ReadOutcome, percent: Option<int>, setDefault: bool)
    requires env.configPath.Ok? && out.result.Ok?
    ensures var run := SizeAfterRead(env, out, percent, setDefault);
      var resolved := RustState.ResolvePercentage(percent, out.result.value);
      run.result.Ok? ==>
        && (run.result.value.NothingToDo? <==> resolved.None?)
        && (run.result.value.Planned? <==> resolved.Some? && env.dryRun)
        && (!run.result.value.NothingToDo? ==>
              && resolved == Some(run.result.value.percentage)
              && 1 <= run.result.value.percentage <= 100
              && env.mainWidth.Ok?
              && run.result.value.gapSize == Gaps.CalculateGapSize(env.mainWidth.value, run.result.value.percentage))
  {
  }

  /** Once the state is read, `handle_size` has no effect but the rewrite of a legacy file unless it
      applies a percentage; then it writes the updated config, then the state, then reloads unless
      that is turned off, and only a failed reload gives a warning. */
  lemma AfterReadEffects(env: HandlerEnv, out: RustState.ReadOutcome, percent: Option<int>, setDefault: bool)
    requires env.configPath.Ok? && out.result.Ok?
    ensures var run := SizeAfterRead(env, out, percent, setDefault);
      && (!(run.result.Ok? && run.result.value.Applied?) ==> run.effects == Persisted(out))
      && (run.result.Ok? && run.result.value.Applied? ==>
            var p := run.result.value.percentage;
            var doc := RustConfig.UpdateConfig(env.configPath.value, env.configFile, run.result.value.gapSize);
            && !env.dryRun
            && doc.Ok?
            && run.effects[..|Persisted(out)| + 2] == Persisted(out) + [WriteConfig(doc.value), WriteState(RustState.WriteStateValue(p, LoadedState(out.result.value), setDefault))]
            && |run.effects| == |Persisted(out)| + (if env.noReload then 2 else 3)
            && (!env.noReload ==> run.effects[|Persisted(out)| + 2] == Reload)
            && (run.result.value.warning.Some? <==> !env.noReload && env.reload.Err?))
  {
    var run := SizeAfterRead(env, out, percent, setDefault);
    if run.result.Ok? && run.result.value.Applied? {
      var written := Persisted(out) + [WriteConfig(RustConfig.UpdateConfig(env.configPath.value, env.configFile, run.result.value.gapSize).value),
        WriteState(RustState.WriteStateValue(run.result.value.percentage, LoadedState(out.result.value), setDefault))];
      assert run.effects[..|written|] == written;
    }
  }

  /** `handle_size` refuses to start without the executable or either path, and fails when the state
      file cannot be read, without effects; a dry run has no effects at all, and with no percentage
      given and no state file there is nothing to do, which is not an error. Past those checks it
      behaves as `AfterReadOutcome` and `AfterReadEffects` state. */
  lemma SizeRules(env: HandlerEnv, percent: Option<int>, setDefault: bool)
    ensures var run := SizeOf(env, percent, setDefault);
      && (env.binary.Err? || env.configPath.Err? || env.statePath.Err? ==> run.effects == [] && run.result.Err?)
      && (env.dryRun ==> run.effects == [])
      && (env.binary.Ok? && env.configPath.Ok? && env.statePath.Ok? && percent.None?
          && RustState.ReadStateFile(env.statePath.value, env.stateFile, env.dryRun).result == Ok(None) ==>
            run == Run(Ok(NothingToDo), []))
      && (run.result.Ok? ==>
            && env.binary.Ok? && env.configPath.Ok? && env.statePath.Ok?
            && var out := RustState.ReadStateFile(env.statePath.value, env.stateFile, env.dryRun);
            out.result.Ok? && run == SizeAfterRead(env, out, percent, setDefault))
  {
    if env.binary.Ok? && env.configPath.Ok? && env.statePath.Ok? {
      var out := RustState.ReadStateFile(env.statePath.value, env.stateFile, env.dryRun);
      RustState.ReadStateFileWrites(env.statePath.value, env.stateFile, env.dryRun);
      if out.result.Ok? {
        AfterReadEffects(env, out, percent, setDefault);
      }
    }
  }

  /** The percentage is checked before the display width is read or the config file looked at: an
      out-of-range percentage gives the range error whatever the width and the config are. */
  lemma SizeChecksPercentageFirst(env: HandlerEnv, percent: Option<int>, setDefault: bool, width: Result<int, string>, config: RustConfig.ConfigFile)
    requires env.binary.Ok? && env.configPath.Ok? && env.statePath.Ok?
    requires var out := RustState.ReadStateFile(env.statePath.value, env.stateFile, env.dryRun);
      out.result.Ok? && RustState.ResolvePercentage(percent, out.result.value).Some?
      && !(1 <= RustState.ResolvePercentage(percent, out.result.value).value <= 100)
    ensures var out := RustState.ReadStateFile(env.statePath.value, env.stateFile, env.dryRun);
      var p := RustState.ResolvePercentage(percent, out.result.value).value;
      SizeOf(env.(mainWidth := width, configFile := config), percent, setDefault) == Run(Err(Gaps.CheckPercentage(p).error), Persisted(out))
  {
  }

  /** The state file as `persist_state` leaves it, as the loader would see it. */
  function AfterPersist(file: RustState.StateFileInput, out: RustState.ReadOutcome): RustState.StateFileInput {
    if out.persisted.Some? then RustState.Present(RustState.Render(out.persisted.value), Ok(RustState.PersistDocument(out.persisted.value)))
    else file
  }

  /** What handlers.rs's `handle_adjust` does; the `handle_size` it delegates to reads the state file
      again, as the first read left it. */
  function AdjustOf(env: HandlerEnv, amount: int): Run {
    if env.statePath.Err? then Run(Err(env.statePath.error), [])
    else
      var path := env.statePath.value;
      var out := RustState.ReadStateFile(path, env.stateFile, env.dryRun);
      var target := AdjustTarget(out, path, amount, CurrentMissing);
      if target.Err? then Run(Err(target.error), Persisted(out))
      else
        var rest := SizeOf(env.(stateFile := AfterPersist(env.stateFile, out)), Some(target.value), false);
        Run(rest.result, Persisted(out) + rest.effects)
  }

  const CurrentMissing := "State file is missing current percentage"

  /** `handle_adjust` of src/handlers.rs. */
  method HandleAdjust(env: HandlerEnv, amount: int) returns (r: Run)
    ensures r == AdjustOf(env, amount)
  {
    if env.statePath.Err? {
      return Run(Err(env.statePath.error), []);
    }
    var path := env.statePath.value;
    var out := RustState.ReadStateFile(path, env.stateFile, env.dryRun);
    var effects := Persisted(out);
    var target := AdjustTarget(out, path, amount, CurrentMissing);
    if target.Err? {
      return Run(Err(target.error), effects);
    }
    var rest := HandleSize(env.(stateFile := AfterPersist(env.stateFile, out)), Some(target.value), false);
    r := Run(rest.result, effects + rest.effects);
  }

  /** A legacy file is rewritten at most once: reading the rewritten file back gives the same state,
      no longer marked migrated, and rewrites nothing. */
  lemma RereadAfterPersist(path: string, file: RustState.StateFileInput, dryRun: bool, dryRun2: bool)
    ensures var out := RustState.ReadStateFile(path, file, dryRun);
      var again := RustState.ReadStateFile(path, AfterPersist(file, out), dryRun2);
      out.persisted.Some? ==>
        && out.result == Ok(Some(RustState.StateLoad(out.persisted.value, true)))
        && again == RustState.ReadOutcome(Ok(Some(RustState.StateLoad(out.persisted.value, false))), None)
  {
    var out := RustState.ReadStateFile(path, file, dryRun);
    if out.persisted.Some? {
      assert file.Present?;
      RustState.ReadPersisted(path, out.persisted.value, dryRun2);
    }
  }

  /** `adjust` needs a state file holding a current percentage and a moved percentage in 1..100, and
      otherwise has no effect but the rewrite of a legacy file. It then applies current + amount as the
      explicit percentage with `set_default` off: the delegated run's state file reads back to the same
      state, so it keeps that state's default, and the legacy file is rewritten once at most. */
  lemma AdjustRules(env: HandlerEnv, amount: int)
    requires env.statePath.Ok?
    ensures var out := RustState.ReadStateFile(env.statePath.value, env.stateFile, env.dryRun);
      var target := AdjustTarget(out, env.statePath.value, amount, CurrentMissing);
      && (target.Err? ==> AdjustOf(env, amount) == Run(Err(target.error), Persisted(out)))
      && (target.Ok? ==>
            && target.value == out.result.value.value.state.current.value + amount
            && var env2 := env.(stateFile := AfterPersist(env.stateFile, out));
            && AdjustOf(env, amount) == Run(SizeOf(env2, Some(target.value), false).result, Persisted(out) + SizeOf(env2, Some(target.value), false).effects)
            && var again := RustState.ReadStateFile(env.statePath.value, env2.stateFile, env.dryRun);
            again.persisted.None? && again.result.Ok? && again.result.value.Some?
            && again.result.value.value.state == out.result.value.value.state)
    ensures var out := RustState.ReadStateFile(env.statePath.value, env.stateFile, env.dryRun);
      |AdjustOf(env, amount).effects| >= |Persisted(out)| && AdjustOf(env, amount).effects[..|Persisted(out)|] == Persisted(out)
  {
    var out := RustState.ReadStateFile(env.statePath.value, env.stateFile, env.dryRun);
    AdjustTargetRules(out, env.statePath.value, amount, CurrentMissing);
    RereadAfterPersist(env.statePath.value, env.stateFile, env.dryRun, env.dryRun);
  }
}
