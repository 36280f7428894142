/** The `gaps` commands of the Go program (cmd/gaps): `use` and `adjust`. This package is written against
    a state and config API whose code is not part of this model (`config.LoadState`,
    `config.LoadAerospaceConfig` and the methods of what they return): what loading gives is an input,
    and the state and config updates are taken to be those of internal/config. */
module GoGaps {
  import opened Wrappers
  import opened Toml
  import Decimal
  import Gaps
  import Display
  import GoState
  import GoConfig
  import GoWorkspace

  /** Everything `gaps use` reads besides its arguments: the options, the displays, and what loading
      the state and the config gives (a monitor map, or the loader's error message). */
  datatype Env = Env(
    opts: GoWorkspace.Options,
    displays: Display.DisplayProvider,
    stateLoad: Result<GoState.Monitors, string>,
    configLoad: Result<seq<Entry>, string>)

  datatype Write = ConfigWrite(doc: seq<Entry>) | StateWrite(monitors: GoState.Monitors)

  datatype Failure =
    | InvalidArgument(arg: string)
    | LoadState(message: string)
    | NoPercentage
    | OutOfRange(percentage: int)
    | Width(message: string)
    | LoadConfig(message: string)
    | UpdateConfig(configError: GoConfig.ConfigError)
    | NoCurrent
    | AdjustedOutOfRange(percentage: int)

  /** The applied percentage and gap size, or why the command stopped; and the writes in order. */
  datatype Run = Run(result: Result<(int, int), Failure>, writes: seq<Write>)

  /** What `runUse` does with the given arguments: an argument must parse as a 64-bit integer. */
  function UseOf(env: Env, args: seq<string>, setDefault: bool): Run {
    if args == [] then UseWith(env, None, setDefault)
    else
      var explicit := Decimal.ParseI64(args[0]);
      if explicit.None? then Run(Err(InvalidArgument(args[0])), []) else UseWith(env, explicit, setDefault)
  }

  /** `runUse` once the argument is parsed into the explicit percentage, if any. */
  function UseWith(env: Env, explicit: Option<int>, setDefault: bool): Run {
    if env.stateLoad.Err? then Run(Err(LoadState(env.stateLoad.error)), [])
    else
      var monitors := env.stateLoad.value;
      var percentage := GoState.Resolve(monitors, env.opts.monitor, explicit);
      if percentage.None? then Run(Err(NoPercentage), [])
      else if Gaps.ValidatePercentage(percentage.value).Some? then Run(Err(OutOfRange(percentage.value)), [])
      else
        var p := percentage.value;
        var width := GoWorkspace.MonitorWidthOf(env.opts, env.displays);
        if width.Err? then Run(Err(Width(width.error)), [])
        else UseWrites(env, monitors, p, Gaps.CalculateGapSize(width.value, p), setDefault)
  }

  /** The part of `runUse` after the gap size is known. */
  function UseWrites(env: Env, monitors: GoState.Monitors, p: int, gap: int, setDefault: bool): Run {
    if env.opts.dryRun then Run(Ok((p, gap)), [])
    else if env.configLoad.Err? then Run(Err(LoadConfig(env.configLoad.error)), [])
    else
      var updated := GoConfig.SetMonitorGapsOn(env.configLoad.value, env.opts.monitor, gap);
      if updated.1.Some? then Run(Err(UpdateConfig(updated.1.value)), [])
      else Run(Ok((p, gap)), [ConfigWrite(updated.0), StateWrite(GoState.UpdatedMonitors(monitors, env.opts.monitor, p, setDefault))])
  }

  /** `runUse`: the optional argument is parsed, then the state is loaded and resolved, the
      percentage checked, the width found and the gap computed; outside a dry run the config is
      loaded, changed and written before the state is updated and written. */
  method RunUse(env: Env, args: seq<string>, setDefault: bool) returns (r: Run)
    ensures r == UseOf(env, args, setDefault)
  {
    var explicit: Option<int> := None;
    if |args| > 0 {
      var parsed := Decimal.ParseI64(args[0]);
      if parsed.None? {
        return Run(Err(InvalidArgument(args[0])), []);
      }
      explicit := parsed;
    }
    r := UseResolved(env, explicit, setDefault);
  }

  /** `runUse` from the loading of the state on. */
  method UseResolved(env: Env, explicit: Option<int>, setDefault: bool) returns (r: Run)
    ensures r == UseWith(env, explicit, setDefault)
  {
    if env.stateLoad.Err? {
      return Run(Err(LoadState(env.stateLoad.error)), []);
    }
    var state := env.stateLoad.value;
    var percentage := GoState.Resolve(state, env.opts.monitor, explicit);
    if percentage.None? {
      return Run(Err(NoPercentage), []);
    }
    var p := percentage.value;
    if Gaps.ValidatePercentage(p).Some? {
      return Run(Err(OutOfRange(p)), []);
    }
    var width := GoWorkspace.ResolveMonitorWidth(env.opts, env.displays);
    if width.Err? {
      return Run(Err(Width(width.error)), []);
    }
    var gapSize := Gaps.CalculateGapSize(width.value, p);
    r := UseWritten(env, state, p, gapSize, setDefault);
  }

  /** The end of `runUse`: outside a dry run the config is loaded, changed and written, then the state
      is updated and written. */
  method UseWritten(env: Env, state: GoState.Monitors, p: int, gapSize: int, setDefault: bool) returns (r: Run)
    ensures r == UseWrites(env, state, p, gapSize, setDefault)
  {
    var writes: seq<Write> := [];
    if !env.opts.dryRun {
      if env.configLoad.Err? {
        return Run(Err(LoadConfig(env.configLoad.error)), []);
      }
      var cfg := env.configLoad.value;
      var updated := GoConfig.SetMonitorGapsOn(cfg, env.opts.monitor, gapSize);
      if updated.1.Some? {
        return Run(Err(UpdateConfig(updated.1.value)), []);
      }
      cfg := updated.0;
      var after := GoState.UpdatedMonitors(state, env.opts.monitor, p, setDefault);
      writes := [ConfigWrite(cfg), StateWrite(after)];
    }
    r := Run(Ok((p, gapSize)), writes);
  }

  /** `RunWithPercent`: the percentage is formatted and handed to `runUse` as its argument, with the
      `set-default` flag unset. */
  method RunWithPercent(env: Env, percentage: int) returns (r: Run)
    ensures r == UseOf(env, [Decimal.Format(percentage)], false)
  {
    r := RunUse(env, [Decimal.Format(percentage)], false);
  }

  /** The formatted argument parses back: `RunWithPercent(p)` for a 64-bit `p` is `use` with the
      explicit percentage `p`. */
  lemma WithPercentIsExplicit(env: Env, percentage: int)
    requires Decimal.IsI64(percentage)
    ensures UseOf(env, [Decimal.Format(percentage)], false) == UseWith(env, Some(percentage), false)
  {
    Decimal.ParseFormat(percentage);
  }

  /** A non-numeric argument, a state that does not load, no resolvable percentage and one outside
      1..100 are errors that write nothing; a dry run writes nothing; otherwise the config is written
      first, then the state, whose monitor now has the applied percentage as current. */
  lemma UseRules(env: Env, args: seq<string>, setDefault: bool)
    ensures var run := UseOf(env, args, setDefault);
      && (run.result.Err? || env.opts.dryRun ==> run.writes == [])
      && (args != [] && Decimal.ParseI64(args[0]).None? ==> run == Run(Err(InvalidArgument(args[0])), []))
      && (run.result.Ok? ==>
            && env.stateLoad.Ok?
            && var explicit := if args == [] then None else Decimal.ParseI64(args[0]);
            GoState.Resolve(env.stateLoad.value, env.opts.monitor, explicit) == Some(run.result.value.0)
            && 1 <= run.result.value.0 <= 100
            && GoWorkspace.MonitorWidthOf(env.opts, env.displays).Ok?
            && run.result.value.1 == Gaps.CalculateGapSize(GoWorkspace.MonitorWidthOf(env.opts, env.displays).value, run.result.value.0))
      && (run.writes != [] ==>
            && |run.writes| == 2 && run.writes[0].ConfigWrite? && run.writes[1].StateWrite?
            && run.writes[1].monitors[env.opts.monitor].current == Some(run.result.value.0))
  {
    var run := UseOf(env, args, setDefault);
    if run.writes != [] {
      GoState.UpdateEffect(env.stateLoad.value, env.opts.monitor, run.result.value.0, setDefault);
    }
  }

  /** `runUse` reaches its writes only past every check, and the dry-run flag is read nowhere before. */
  lemma UseStages(env: Env, explicit: Option<int>, setDefault: bool)
    ensures UseWith(env, explicit, setDefault).result.Ok? || UseWith(env, explicit, setDefault).writes == []
    ensures var width := GoWorkspace.MonitorWidthOf(env.opts, env.displays);
      env.stateLoad.Ok? && GoState.Resolve(env.stateLoad.value, env.opts.monitor, explicit).Some?
      && Gaps.ValidatePercentage(GoState.Resolve(env.stateLoad.value, env.opts.monitor, explicit).value).None?
      && width.Ok? ==>
        var p := GoState.Resolve(env.stateLoad.value, env.opts.monitor, explicit).value;
        UseWith(env, explicit, setDefault) == UseWrites(env, env.stateLoad.value, p, Gaps.CalculateGapSize(width.value, p), setDefault)
    ensures !(&& env.stateLoad.Ok? && GoState.Resolve(env.stateLoad.value, env.opts.monitor, explicit).Some?
              && Gaps.ValidatePercentage(GoState.Resolve(env.stateLoad.value, env.opts.monitor, explicit).value).None?
              && GoWorkspace.MonitorWidthOf(env.opts, env.displays).Ok?)
      ==> UseWith(env, explicit, setDefault).result.Err?
  {
  }

  /** A dry run on an input that would succeed gives the same percentage and gap as the real run, and
      writes nothing. */
  lemma DryRunAgrees(env: Env, explicit: Option<int>, setDefault: bool)
    requires UseWith(env, explicit, setDefault).result.Ok?
    ensures var dry := UseWith(env.(opts := env.opts.(dryRun := true)), explicit, setDefault);
      dry == Run(Ok(UseWith(env, explicit, setDefault).result.value), [])
  {
    UseStages(env, explicit, setDefault);
    UseStages(env.(opts := env.opts.(dryRun := true)), explicit, setDefault);
    GoWorkspace.MonitorWidthIgnoresDryRun(env.opts, env.displays);
  }

  // ---- adjust ----

  /** What `runAdjust` does: the amount (5 unless an argument gives another), then the guard on the
      loaded state, then `RunWithPercent` with the moved percentage. */
  function AdjustOf(env: Env, args: seq<string>): Run {
    var amount := if args == [] then Some(GoWorkspace.DefaultAdjustAmount) else Decimal.ParseI64(args[0]);
    if amount.None? then Run(Err(InvalidArgument(args[0])), [])
    else if env.stateLoad.Err? then Run(Err(LoadState(env.stateLoad.error)), [])
    else
      var current := GoWorkspace.SavedCurrent(env.stateLoad.value, env.opts.monitor);
      if current.None? then Run(Err(NoCurrent), [])
      else
        var newPercent := GoWorkspace.Adjusted(current.value, amount.value);
        if newPercent.None? then Run(Err(AdjustedOutOfRange(current.value + amount.value)), [])
        else UseOf(env, [Decimal.Format(newPercent.value)], false)
  }

  method RunAdjust(env: Env, args: seq<string>) returns (r: Run)
    ensures r == AdjustOf(env, args)
  {
    var amount := GoWorkspace.DefaultAdjustAmount;
    if |args| > 0 {
      var a := Decimal.ParseI64(args[0]);
      if a.None? {
        return Run(Err(InvalidArgument(args[0])), []);
      }
      amount := a.value;
    }
    if env.stateLoad.Err? {
      return Run(Err(LoadState(env.stateLoad.error)), []);
    }
    var monitors := env.stateLoad.value;
    if env.opts.monitor !in monitors || monitors[env.opts.monitor].current.None? {
      return Run(Err(NoCurrent), []);
    }
    var current := monitors[env.opts.monitor].current.value;
    var newPercent := GoWorkspace.Adjusted(current, amount);
    if newPercent.None? {
      return Run(Err(AdjustedOutOfRange(current + amount)), []);
    }
    r := RunWithPercent(env, newPercent.value);
  }

  /** `gaps adjust` refuses a non-numeric amount, a monitor without a record or without a current
      percentage, and a moved percentage outside 1..100, writing nothing. */
  lemma AdjustRefusals(env: Env, args: seq<string>)
    requires env.stateLoad.Ok?
    ensures var current := GoWorkspace.SavedCurrent(env.stateLoad.value, env.opts.monitor);
      var amount := if args == [] then Some(GoWorkspace.DefaultAdjustAmount) else Decimal.ParseI64(args[0]);
      && (amount.None? ==> AdjustOf(env, args) == Run(Err(InvalidArgument(args[0])), []))
      && (amount.Some? && current.None? ==> AdjustOf(env, args) == Run(Err(NoCurrent), []))
      && (amount.Some? && current.Some? && !(1 <= current.value + amount.value <= 100) ==>
            AdjustOf(env, args) == Run(Err(AdjustedOutOfRange(current.value + amount.value)), []))
  {
  }

  /** Otherwise it moves the current percentage by the amount (5 by default) and behaves as `gaps use`
      with the result as the explicit percentage and without `--set-default`. */
  lemma AdjustRules(env: Env, args: seq<string>)
    requires env.stateLoad.Ok?
    ensures var current := GoWorkspace.SavedCurrent(env.stateLoad.value, env.opts.monitor);
      var amount := if args == [] then Some(GoWorkspace.DefaultAdjustAmount) else Decimal.ParseI64(args[0]);
      amount.Some? && current.Some? && 1 <= current.value + amount.value <= 100 ==>
        AdjustOf(env, args) == UseWith(env, Some(current.value + amount.value), false)
  {
    var current := GoWorkspace.SavedCurrent(env.stateLoad.value, env.opts.monitor);
    var amount := if args == [] then Some(GoWorkspace.DefaultAdjustAmount) else Decimal.ParseI64(args[0]);
    if amount.Some? && current.Some? && 1 <= current.value + amount.value <= 100 {
      AdjustUsesTarget(env, args, current.value + amount.value);
    }
  }

  lemma AdjustUsesTarget(env: Env, args: seq<string>, target: int)
    requires env.stateLoad.Ok?
    requires var amount := if args == [] then Some(GoWorkspace.DefaultAdjustAmount) else Decimal.ParseI64(args[0]);
      var current := GoWorkspace.SavedCurrent(env.stateLoad.value, env.opts.monitor);
      amount.Some? && current.Some? && target == current.value + amount.value && 1 <= target <= 100
    ensures AdjustOf(env, args) == UseWith(env, Some(target), false)
  {
    WithPercentIsExplicit(env, target);
  }
}
