/** The `workspace` commands of the Go program (cmd/workspace): `use`, `shift` and `adjust`, each run as
    an ordered sequence of calls on a fresh `AerospaceService` and `WorkspaceService`. What the commands
    write is recorded in a log, so that the order of the writes is part of what is proved. The displays,
    whether the config file exists, the stored shift and the shift arithmetic are inputs. */
module GoWorkspace {
  import opened Wrappers
  import opened Toml
  import Text
  import Decimal
  import Gaps
  import Display
  import GoState
  import GoConfig

  /** The global options the commands read. */
  datatype Options = Options(monitor: string, monitorWidth: int, dryRun: bool)

  // ---- monitor width ----

  /** The index of the first display at or after `i` whose name equals `name` ignoring case. */
  function FirstNamedFrom(ds: seq<Display.Info>, name: string, i: nat): (r: Option<nat>)
    requires i <= |ds|
    ensures r.Some? ==> i <= r.value < |ds| && Text.EqualFold(ds[r.value].name, name)
    ensures r.Some? ==> forall j :: i <= j < r.value ==> !Text.EqualFold(ds[j].name, name)
    ensures r.None? ==> forall j :: i <= j < |ds| ==> !Text.EqualFold(ds[j].name, name)
    decreases |ds| - i
  {
    if i == |ds| then None
    else if Text.EqualFold(ds[i].name, name) then Some(i)
    else FirstNamedFrom(ds, name, i + 1)
  }

  /** The index of the first display whose name equals `name` ignoring case. */
  function FirstNamed(ds: seq<Display.Info>, name: string): (r: Option<nat>)
    ensures r.Some? ==> r.value < |ds| && Text.EqualFold(ds[r.value].name, name)
    ensures r.Some? ==> forall j :: 0 <= j < r.value ==> !Text.EqualFold(ds[j].name, name)
    ensures r.None? ==> forall j :: 0 <= j < |ds| ==> !Text.EqualFold(ds[j].name, name)
  {
    FirstNamedFrom(ds, name, 0)
  }

  function NamesOf(ds: seq<Display.Info>): (names: seq<string>)
    ensures |names| == |ds| && forall i :: 0 <= i < |ds| ==> names[i] == ds[i].name
  {
    if ds == [] then [] else NamesOf(ds[..|ds| - 1]) + [ds[|ds| - 1].name]
  }

  /** `strings.Join(names, ", ")`. */
  function JoinComma(names: seq<string>): string {
    if names == [] then ""
    else if |names| == 1 then names[0]
    else names[0] + ", " + JoinComma(names[1..])
  }

  const NoDetectionMessage := "display detection not available; use --monitor-width"

  /** The error for a monitor name no display has (`%q` is written as plain double quotes). */
  function NotFoundMessage(monitor: string, ds: seq<Display.Info>): string {
    "monitor \"" + monitor + "\" not found; available: " + JoinComma(NamesOf(ds)) + " (use --monitor-width to specify)"
  }

  /** What `resolveMonitorWidth` returns. */
  function MonitorWidthOf(opts: Options, displays: Display.DisplayProvider): Result<int, string> {
    if opts.monitorWidth > 0 then Ok(opts.monitorWidth)
    else if !displays.available then Err(NoDetectionMessage)
    else if opts.monitor == "main" then displays.mainWidth
    else if displays.displays.Err? then Err("enumerate displays: " + displays.displays.error)
    else
      var ds := displays.displays.value;
      var i := FirstNamed(ds, opts.monitor);
      if i.Some? then Ok(ds[i.value].width) else Err(NotFoundMessage(opts.monitor, ds))
  }

  /** `resolveMonitorWidth`, with its search loop and the loop collecting the names for the error. */
  method ResolveMonitorWidth(opts: Options, displays: Display.DisplayProvider) returns (r: Result<int, string>)
    ensures r == MonitorWidthOf(opts, displays)
  {
    if opts.monitorWidth > 0 {
      return Ok(opts.monitorWidth);
    }
    if !displays.available {
      return Err(NoDetectionMessage);
    }
    if opts.monitor == "main" {
      return displays.mainWidth;
    }
    if displays.displays.Err? {
      return Err("enumerate displays: " + displays.displays.error);
    }
    var ds := displays.displays.value;
    for i := 0 to |ds|
      invariant forall j :: 0 <= j < i ==> !Text.EqualFold(ds[j].name, opts.monitor)
    {
      if Text.EqualFold(ds[i].name, opts.monitor) {
        return Ok(ds[i].width);
      }
    }
    var names: seq<string> := [];
    for i := 0 to |ds|
      invariant names == NamesOf(ds[..i])
    {
      assert ds[..i + 1][..i] == ds[..i];
      names := names + [ds[i].name];
    }
    assert ds[..|ds|] == ds;
    r := Err(NotFoundMessage(opts.monitor, ds));
  }

  /** A positive override wins over detection; without one, unavailable detection is an error; `main`
      takes the main display's width; any other name takes the width of the first display whose name
      matches it ignoring case, and is an error when none does. */
  lemma MonitorWidthRules(opts: Options, displays: Display.DisplayProvider)
    ensures opts.monitorWidth > 0 ==> MonitorWidthOf(opts, displays) == Ok(opts.monitorWidth)
    ensures opts.monitorWidth <= 0 && !displays.available ==> MonitorWidthOf(opts, displays).Err?
    ensures opts.monitorWidth <= 0 && displays.available && opts.monitor == "main" ==>
      MonitorWidthOf(opts, displays) == displays.mainWidth
    ensures opts.monitorWidth <= 0 && displays.available && opts.monitor != "main" && displays.displays.Ok? ==>
      var ds := displays.displays.value;
      (MonitorWidthOf(opts, displays).Ok? <==> exists i :: 0 <= i < |ds| && Text.EqualFold(ds[i].name, opts.monitor))
      && (MonitorWidthOf(opts, displays).Ok? ==>
            exists i :: && 0 <= i < |ds| && Text.EqualFold(ds[i].name, opts.monitor)
                        && MonitorWidthOf(opts, displays).value == ds[i].width
                        && forall j :: 0 <= j < i ==> !Text.EqualFold(ds[j].name, opts.monitor))
  {
    if opts.monitorWidth <= 0 && displays.available && opts.monitor != "main" && displays.displays.Ok? {
      var ds := displays.displays.value;
      var i := FirstNamed(ds, opts.monitor);
      if i.Some? {
        assert Text.EqualFold(ds[i.value].name, opts.monitor);
      }
    }
  }

  /** The width does not depend on whether the run is a dry run. */
  lemma MonitorWidthIgnoresDryRun(opts: Options, displays: Display.DisplayProvider)
    ensures MonitorWidthOf(opts.(dryRun := true), displays) == MonitorWidthOf(opts, displays)
  {
  }

  // ---- shift ----

  /** `gaps.ShiftedGaps`: the two side gaps in pixels and in percent. */
  datatype ShiftedGaps = ShiftedGaps(leftPixels: int, leftPercent: int, rightPixels: int, rightPercent: int)

  /** The shift arithmetic, whose code is not part of this model: `valid(w, p, s)` stands for
      `ValidateShift(w, p, s)` returning nil and `gaps(w, p, s)` for `CalculateShiftedGaps(w, p, s)`. */
  datatype ShiftRules = ShiftRules(valid: (int, int, int) -> bool, gaps: (int, int, int) -> ShiftedGaps)

  /** The default of `shift --by`: no shift, the workspace centred. */
  const DefaultShift := 0

  /** Two's complement 64-bit wrap-around of Go's `int64` arithmetic. */
  function WrapI64(n: int): (r: int)
    ensures Decimal.IsI64(r) && (Decimal.IsI64(n) ==> r == n)
    ensures (r - n) % 0x1_0000_0000_0000_0000 == 0
  {
    (n - Decimal.MinI64) % 0x1_0000_0000_0000_0000 + Decimal.MinI64
  }

  /** The suffix of `shift`'s success message; `-shift` is computed in 64 bits. */
  function ShiftMessage(shift: int): string {
    if shift == 0 then " (centered)"
    else if shift > 0 then " (shifted " + Decimal.Format(shift) + "% right)"
    else " (shifted " + Decimal.Format(WrapI64(-shift)) + "% left)"
  }

  /** Zero reads as centred, a positive shift as that many percent to the right and a negative one as
      its magnitude to the left. */
  lemma ShiftMessageDirection(shift: int)
    requires Decimal.IsI64(shift) && shift != Decimal.MinI64
    ensures shift == 0 ==> ShiftMessage(shift) == " (centered)"
    ensures shift > 0 ==> ShiftMessage(shift) == " (shifted " + Decimal.Format(shift) + "% right)"
    ensures shift < 0 ==> ShiftMessage(shift) == " (shifted " + Decimal.Format(-shift) + "% left)"
    ensures shift != 0 ==> Decimal.ParseI64(Decimal.Format(if shift > 0 then shift else -shift)) == Some(if shift > 0 then shift else -shift)
  {
    if shift != 0 {
      Decimal.ParseFormat(if shift > 0 then shift else -shift);
    }
  }

  // ---- writes and outcomes ----

  /** A write a command makes: the config file, the state file, or `SetShift` on a monitor. */
  datatype Write = ConfigWrite(doc: seq<Entry>) | StateWrite(monitors: GoState.Monitors) | ShiftWrite(monitor: string, shift: int)

  /** The gaps a command applies. */
  datatype GapChoice = Symmetric(size: int) | Asymmetric(shifted: ShiftedGaps)

  datatype Failure =
    | InvalidArgument(arg: string)              // a percentage or amount argument that is not an integer
    | LoadState(stateError: GoState.StateError)
    | NoPercentage
    | OutOfRange(percentage: int)              // `ValidatePercentage` refused the percentage
    | Width(message: string)
    | LoadShift(message: string)
    | InvalidShift(shift: int)
    | CheckConfig(message: string)
    | ConfigNotFound
    | UpdateConfig(configError: GoConfig.ConfigError)
    | NoCurrent
    | AdjustedOutOfRange(percentage: int)

  /** What a command did: the percentage and gaps it applied (or would apply, on a dry run), or why it
      stopped; and the writes it made, in order. */
  datatype Run = Run(result: Result<(int, GapChoice), Failure>, writes: seq<Write>)

  /** Everything the commands read besides their arguments. */
  datatype Env = Env(
    opts: Options,
    displays: Display.DisplayProvider,
    stateFile: GoState.StateFile,
    configFile: GoConfig.ConfigFile,
    configExists: Result<bool, string>,
    storedShift: Result<int, string>,
    rules: ShiftRules)

  // ---- use ----

  /** The config change `applyPercentage` makes: symmetric gaps through `SetMonitorGaps`, shifted ones
      through `SetMonitorAsymmetricGaps`. */
  function SetGaps(doc: seq<Entry>, monitor: string, choice: GapChoice): (seq<Entry>, Option<GoConfig.ConfigError>) {
    match choice
    case Symmetric(size) => GoConfig.SetMonitorGapsOn(doc, monitor, size)
    case Asymmetric(g) => GoConfig.SetAsymmetricGapsOn(doc, monitor, g.leftPixels, g.rightPixels)
  }

  /** The writes of a successful `applyPercentage`: config, state, and a cleared shift when `reset`. */
  function Written(config: seq<Entry>, monitors: GoState.Monitors, monitor: string, reset: bool): seq<Write> {
    [ConfigWrite(config), StateWrite(monitors)] + if reset then [ShiftWrite(monitor, 0)] else []
  }

  /** The part of `applyPercentage` after the dry-run check: the config must exist, is updated and
      written, then the state is updated, then a reset shift is cleared. */
  function ApplyWrites(env: Env, monitors: GoState.Monitors, p: int, choice: GapChoice, reset: bool, setDefault: bool): Run {
    var monitor := env.opts.monitor;
    if env.configExists.Err? then Run(Err(CheckConfig(env.configExists.error)), [])
    else if !env.configExists.value then Run(Err(ConfigNotFound), [])
    else
      var doc := GoConfig.LoadedConfig(env.configFile);
      if doc.Err? then Run(Err(UpdateConfig(doc.error)), [])
      else
        var updated := SetGaps(doc.value, monitor, choice);
        if updated.1.Some? then Run(Err(UpdateConfig(updated.1.value)), [])
        else Run(Ok((p, choice)), Written(updated.0, GoState.UpdatedMonitors(monitors, monitor, p, setDefault), monitor, reset))
  }

  /** The gaps for width `w`, percentage `p` and stored shift `shift`: shifted when the shift is not zero
      and still valid, symmetric otherwise. */
  function ShiftChoice(rules: ShiftRules, w: int, p: int, shift: int): GapChoice {
    if shift != 0 && rules.valid(w, p, shift) then Asymmetric(rules.gaps(w, p, shift))
    else Symmetric(Gaps.CalculateGapSize(w, p))
  }

  /** The part of `applyPercentage` once the percentage `p` is settled. */
  function ApplyResolved(env: Env, monitors: GoState.Monitors, p: int, setDefault: bool): Run {
    var width := MonitorWidthOf(env.opts, env.displays);
    if width.Err? then Run(Err(Width(width.error)), [])
    else if env.storedShift.Err? then Run(Err(LoadShift(env.storedShift.error)), [])
    else
      var w, shift := width.value, env.storedShift.value;
      var choice := ShiftChoice(env.rules, w, p, shift);
      if env.opts.dryRun then Run(Ok((p, choice)), [])
      else ApplyWrites(env, monitors, p, choice, shift != 0 && !env.rules.valid(w, p, shift), setDefault)
  }

  /** What `applyPercentage` does. */
  function ApplyOf(env: Env, explicit: Option<int>, setDefault: bool): Run {
    var loaded := GoState.Load(env.stateFile);
    if loaded.Err? then Run(Err(LoadState(loaded.error)), [])
    else
      var percentage := GoState.Resolve(loaded.value, env.opts.monitor, explicit);
      if percentage.None? then Run(Err(NoPercentage), [])
      else if Gaps.ValidatePercentage(percentage.value).Some? then Run(Err(OutOfRange(percentage.value)), [])
      else ApplyResolved(env, loaded.value, percentage.value, setDefault)
  }

  /** `applyPercentage`: the services are created here, as in the source, and called in its order; the
      shift handling updates `shift`, `useAsymmetric` and the gaps step by step. */
  method ApplyPercentage(env: Env, explicit: Option<int>, setDefault: bool) returns (r: Run)
    ensures r == ApplyOf(env, explicit, setDefault)
  {
    var monitor := env.opts.monitor;
    var configSvc := new GoConfig.AerospaceService(env.configFile);
    var stateSvc := new GoState.WorkspaceService(env.stateFile);
    var writes: seq<Write> := [];

    var percentage := stateSvc.ResolvePercentage(monitor, explicit);
    if percentage.Err? {
      return Run(Err(LoadState(percentage.error)), writes);
    }
    ghost var monitors := stateSvc.state.value;
    if percentage.value.None? {
      return Run(Err(NoPercentage), writes);
    }
    var p := percentage.value.value;
    if Gaps.ValidatePercentage(p).Some? {
      return Run(Err(OutOfRange(p)), writes);
    }
    assert ApplyOf(env, explicit, setDefault) == ApplyResolved(env, monitors, p, setDefault);
    var width := ResolveMonitorWidth(env.opts, env.displays);
    if width.Err? {
      return Run(Err(Width(width.error)), writes);
    }
    var w := width.value;
    if env.storedShift.Err? {
      return Run(Err(LoadShift(env.storedShift.error)), writes);
    }
    var originalShift := env.storedShift.value;
    var shift := originalShift;
    var useAsymmetric := false;
    var choice := Symmetric(0);
    if shift != 0 {
      if !env.rules.valid(w, p, shift) {
        shift := 0;
      } else {
        useAsymmetric := true;
        choice := Asymmetric(env.rules.gaps(w, p, shift));
      }
    }
    if !useAsymmetric {
      choice := Symmetric(Gaps.CalculateGapSize(w, p));
    }
    assert choice == ShiftChoice(env.rules, w, p, originalShift);
    if env.opts.dryRun {
      return Run(Ok((p, choice)), writes);
    }
    assert ApplyResolved(env, monitors, p, setDefault) == ApplyWrites(env, monitors, p, choice, originalShift != shift, setDefault);

    r := WriteApplied(env, configSvc, stateSvc, p, choice, originalShift != shift, setDefault);
  }

  /** The config edit of `applyPercentage`: the gaps of the choice, for `monitor`, on a service that
      has not loaded the config yet. */
  method SetChoice(configSvc: GoConfig.AerospaceService, monitor: string, choice: GapChoice)
    returns (err: Option<GoConfig.ConfigError>)
    requires configSvc.config == None
    modifies configSvc`config
    ensures var doc := GoConfig.LoadedConfig(configSvc.file);
      && (doc.Err? ==> configSvc.config == None && err == Some(doc.error))
      && (doc.Ok? ==> configSvc.config == Some(SetGaps(doc.value, monitor, choice).0) && err == SetGaps(doc.value, monitor, choice).1)
  {
    if choice.Asymmetric? {
      err := configSvc.SetMonitorAsymmetricGaps(monitor, choice.shifted.leftPixels, choice.shifted.rightPixels);
    } else {
      err := configSvc.SetMonitorGaps(monitor, choice.size);
    }
  }

  /** The writing half of `applyPercentage`: the config must exist; the gaps are set and the config
      written, then the state is updated and written, then a dropped shift is cleared. */
  method WriteApplied(env: Env, configSvc: GoConfig.AerospaceService, stateSvc: GoState.WorkspaceService,
                      p: int, choice: GapChoice, reset: bool, setDefault: bool) returns (r: Run)
    requires configSvc.file == env.configFile && configSvc.config == None && stateSvc.state.Some?
    modifies configSvc, stateSvc
    ensures r == ApplyWrites(env, old(stateSvc.state.value), p, choice, reset, setDefault)
  {
    var monitor := env.opts.monitor;
    ghost var monitors := stateSvc.state.value;
    ghost var expected := ApplyWrites(env, monitors, p, choice, reset, setDefault);
    if env.configExists.Err? {
      r := Run(Err(CheckConfig(env.configExists.error)), []);
      assert r == expected;
      return;
    }
    if !env.configExists.value {
      r := Run(Err(ConfigNotFound), []);
      assert r == expected;
      return;
    }
    ghost var doc := GoConfig.LoadedConfig(env.configFile);
    var err := SetChoice(configSvc, monitor, choice);
    if err.Some? {
      r := Run(Err(UpdateConfig(err.value)), []);
      assert r == expected;
      return;
    }
    ghost var updated := SetGaps(doc.value, monitor, choice);
    assert configSvc.config == Some(updated.0) && updated.1.None?;
    ghost var after := GoState.UpdatedMonitors(monitors, monitor, p, setDefault);
    assert expected == Run(Ok((p, choice)), Written(updated.0, after, monitor, reset));
    err := configSvc.Write();
    var writes := [ConfigWrite(configSvc.config.value)];
    assert writes == [ConfigWrite(updated.0)];

    var stateErr := stateSvc.Update(monitor, p, setDefault);
    assert stateSvc.state == Some(after);
    writes := writes + [StateWrite(stateSvc.state.value)];

    assert writes == [ConfigWrite(updated.0), StateWrite(after)];
    if reset {
      writes := writes + [ShiftWrite(monitor, 0)];
    }
    assert writes == Written(updated.0, after, monitor, reset);
    r := Run(Ok((p, choice)), writes);
    assert r == expected;
  }

  /** `runUse`: an argument must parse as a 64-bit integer and is then the explicit percentage. */
  function UseOf(env: Env, args: seq<string>, setDefault: bool): Run {
    if args == [] then ApplyOf(env, None, setDefault)
    else
      var p := Decimal.ParseI64(args[0]);
      if p.None? then Run(Err(InvalidArgument(args[0])), [])
      else ApplyOf(env, p, setDefault)
  }

  // ---- properties of use ----

  /** The writing half fails, writing nothing, unless the config exists, loads and has the monitor;
      otherwise it writes the changed config, then the updated state, then a cleared shift if `reset`. */
  lemma ApplyWritesShape(env: Env, monitors: GoState.Monitors, p: int, choice: GapChoice, reset: bool, setDefault: bool)
    ensures var run := ApplyWrites(env, monitors, p, choice, reset, setDefault);
      var doc := GoConfig.LoadedConfig(env.configFile);
      && (run.result.Err? ==> run.writes == [])
      && (run.result.Ok? <==> env.configExists == Ok(true) && doc.Ok? && SetGaps(doc.value, env.opts.monitor, choice).1.None?)
      && (run.result.Ok? ==>
            && run.result.value == (p, choice)
            && run.writes == Written(SetGaps(doc.value, env.opts.monitor, choice).0,
                                     GoState.UpdatedMonitors(monitors, env.opts.monitor, p, setDefault), env.opts.monitor, reset))
  {
  }

  /** `applyPercentage` succeeds only when the state loads, a percentage resolves and is in range, the
      width is known and the shift loads; it then applies `ShiftChoice`, writing nothing on a dry run.
      Every failure writes nothing. */
  lemma ApplyStages(env: Env, explicit: Option<int>, setDefault: bool)
    ensures ApplyOf(env, explicit, setDefault).result.Err? ==> ApplyOf(env, explicit, setDefault).writes == []
    ensures ApplyOf(env, explicit, setDefault).result.Ok? ==>
      var loaded := GoState.Load(env.stateFile);
      && loaded.Ok? && GoState.Resolve(loaded.value, env.opts.monitor, explicit).Some?
      && var p := GoState.Resolve(loaded.value, env.opts.monitor, explicit).value;
      && Gaps.ValidatePercentage(p).None?
      && MonitorWidthOf(env.opts, env.displays).Ok? && env.storedShift.Ok?
      && var w, shift := MonitorWidthOf(env.opts, env.displays).value, env.storedShift.value;
      ApplyOf(env, explicit, setDefault) ==
        if env.opts.dryRun then Run(Ok((p, ShiftChoice(env.rules, w, p, shift))), [])
        else ApplyWrites(env, loaded.value, p, ShiftChoice(env.rules, w, p, shift), shift != 0 && !env.rules.valid(w, p, shift), setDefault)
  {
    var loaded := GoState.Load(env.stateFile);
    if loaded.Ok? && GoState.Resolve(loaded.value, env.opts.monitor, explicit).Some? {
      var p := GoState.Resolve(loaded.value, env.opts.monitor, explicit).value;
      var width := MonitorWidthOf(env.opts, env.displays);
      if Gaps.ValidatePercentage(p).None? && width.Ok? && env.storedShift.Ok? {
        var w, shift := width.value, env.storedShift.value;
        ApplyWritesShape(env, loaded.value, p, ShiftChoice(env.rules, w, p, shift), shift != 0 && !env.rules.valid(w, p, shift), setDefault);
      }
    }
  }

  /** A dry run writes nothing, and so does every failure; a successful run writes the config, then the
      state, then, only when a stored shift was dropped, a zero shift. */
  lemma ApplyWritesInOrder(env: Env, explicit: Option<int>, setDefault: bool)
    ensures var run := ApplyOf(env, explicit, setDefault);
      && (env.opts.dryRun ==> run.writes == [])
      && (run.result.Err? ==> run.writes == [])
      && (run.writes != [] ==>
            && 2 <= |run.writes| <= 3 && run.writes[0].ConfigWrite? && run.writes[1].StateWrite?
            && (|run.writes| == 3 ==> run.writes[2] == ShiftWrite(env.opts.monitor, 0)))
  {
    ApplyStages(env, explicit, setDefault);
    var run := ApplyOf(env, explicit, setDefault);
    if run.result.Ok? && !env.opts.dryRun {
      var loaded := GoState.Load(env.stateFile);
      var p := GoState.Resolve(loaded.value, env.opts.monitor, explicit).value;
      var w, shift := MonitorWidthOf(env.opts, env.displays).value, env.storedShift.value;
      ApplyWritesShape(env, loaded.value, p, ShiftChoice(env.rules, w, p, shift), shift != 0 && !env.rules.valid(w, p, shift), setDefault);
    }
  }

  /** The percentage comes first: a failed load, a missing percentage and an out-of-range one stop the
      command before the displays, the shift or the config are looked at. */
  lemma ApplyChecksPercentageFirst(env: Env, env2: Env, explicit: Option<int>, setDefault: bool)
    requires env2.stateFile == env.stateFile && env2.opts.monitor == env.opts.monitor
    requires var loaded := GoState.Load(env.stateFile);
      loaded.Err? || GoState.Resolve(loaded.value, env.opts.monitor, explicit).None?
      || Gaps.ValidatePercentage(GoState.Resolve(loaded.value, env.opts.monitor, explicit).value).Some?
    ensures ApplyOf(env, explicit, setDefault) == ApplyOf(env2, explicit, setDefault)
    ensures ApplyOf(env, explicit, setDefault).result.Err? && ApplyOf(env, explicit, setDefault).writes == []
  {
  }

  /** An explicit percentage is used as given; the state decides only without one, through
      explicit > current > default, and a monitor without any saved percentage is an error (there is
      no 60% fallback). */
  lemma ApplyPercentageSource(env: Env, explicit: Option<int>, setDefault: bool)
    requires GoState.Load(env.stateFile).Ok?
    ensures var monitors := GoState.Load(env.stateFile).value;
      var run := ApplyOf(env, explicit, setDefault);
      && (run.result.Ok? ==> run.result.value.0 == if explicit.Some? then explicit.value
            else if monitors[env.opts.monitor].current.Some? then monitors[env.opts.monitor].current.value
            else monitors[env.opts.monitor].default.value)
      && (explicit.None? && (env.opts.monitor !in monitors
            || (monitors[env.opts.monitor].current.None? && monitors[env.opts.monitor].default.None?))
          ==> run == Run(Err(NoPercentage), []))
  {
    ApplyStages(env, explicit, setDefault);
  }

  /** The shift stored for the monitor decides the gaps: none gives symmetric gaps of
      `CalculateGapSize`; one that still passes `ValidateShift` gives the shifted gaps and is kept; one
      that no longer does gives symmetric gaps and is cleared after the state update. */
  lemma ApplyShiftHandling(env: Env, explicit: Option<int>, setDefault: bool)
    requires ApplyOf(env, explicit, setDefault).result.Ok?
    ensures var run := ApplyOf(env, explicit, setDefault);
      var p := run.result.value.0;
      var w := MonitorWidthOf(env.opts, env.displays).value;
      var shift := env.storedShift.value;
      && (shift == 0 || !env.rules.valid(w, p, shift) ==> run.result.value.1 == Symmetric(Gaps.CalculateGapSize(w, p)))
      && (shift != 0 && env.rules.valid(w, p, shift) ==> run.result.value.1 == Asymmetric(env.rules.gaps(w, p, shift)))
      && (!env.opts.dryRun ==> (|run.writes| == 3 <==> shift != 0 && !env.rules.valid(w, p, shift)))
  {
    ApplyStages(env, explicit, setDefault);
    var loaded := GoState.Load(env.stateFile);
    var p := GoState.Resolve(loaded.value, env.opts.monitor, explicit).value;
    var w, shift := MonitorWidthOf(env.opts, env.displays).value, env.storedShift.value;
    ApplyWritesShape(env, loaded.value, p, ShiftChoice(env.rules, w, p, shift), shift != 0 && !env.rules.valid(w, p, shift), setDefault);
  }

  /** A successful run writes the config as the `SetMonitor*Gaps` rule changes it and the state as
      `Update` changes it: the monitor's current percentage becomes the applied one. */
  lemma ApplyWritesContent(env: Env, explicit: Option<int>, setDefault: bool)
    requires ApplyOf(env, explicit, setDefault).writes != []
    ensures var run := ApplyOf(env, explicit, setDefault);
      var monitors := GoState.Load(env.stateFile).value;
      var (p, choice) := run.result.value;
      && env.configExists == Ok(true)
      && GoConfig.LoadedConfig(env.configFile).Ok?
      && SetGaps(GoConfig.LoadedConfig(env.configFile).value, env.opts.monitor, choice).1 == None
      && run.writes[0] == ConfigWrite(SetGaps(GoConfig.LoadedConfig(env.configFile).value, env.opts.monitor, choice).0)
      && run.writes[1] == StateWrite(GoState.UpdatedMonitors(monitors, env.opts.monitor, p, setDefault))
      && run.writes[1].monitors[env.opts.monitor].current == Some(p)
  {
    ApplyStages(env, explicit, setDefault);
    var loaded := GoState.Load(env.stateFile);
    var p := GoState.Resolve(loaded.value, env.opts.monitor, explicit).value;
    var w, shift := MonitorWidthOf(env.opts, env.displays).value, env.storedShift.value;
    ApplyWritesShape(env, loaded.value, p, ShiftChoice(env.rules, w, p, shift), shift != 0 && !env.rules.valid(w, p, shift), setDefault);
    GoState.UpdateEffect(loaded.value, env.opts.monitor, p, setDefault);
  }

  /** An argument that is not a 64-bit integer is an error with no writes; a valid one is used as the
      explicit percentage. */
  lemma UseArgument(env: Env, args: seq<string>, setDefault: bool)
    ensures args != [] && Decimal.ParseI64(args[0]).None? ==> UseOf(env, args, setDefault) == Run(Err(InvalidArgument(args[0])), [])
    ensures args != [] && Decimal.ParseI64(args[0]).Some? ==>
      UseOf(env, args, setDefault) == ApplyOf(env, Decimal.ParseI64(args[0]), setDefault)
  {
  }

  // ---- shift ----

  /** The current percentage `GetMonitorState` reports for a monitor: none for a monitor without a
      record, as the record it inserts is empty. */
  function SavedCurrent(monitors: GoState.Monitors, monitor: string): (r: Option<int>)
    ensures r == if monitor in monitors then monitors[monitor].current else None
  {
    GoState.WithMonitorKeeps(monitors, monitor);
    GoState.WithMonitor(monitors, monitor)[monitor].current
  }

  /** The writing part of `runShift`: the config must exist, gets the shifted gaps and is written,
      then the shift is saved. */
  function ShiftWrites(env: Env, p: int, g: ShiftedGaps, shift: int): Run {
    var monitor := env.opts.monitor;
    if env.configExists.Err? then Run(Err(CheckConfig(env.configExists.error)), [])
    else if !env.configExists.value then Run(Err(ConfigNotFound), [])
    else
      var doc := GoConfig.LoadedConfig(env.configFile);
      if doc.Err? then Run(Err(UpdateConfig(doc.error)), [])
      else
        var updated := GoConfig.SetAsymmetricGapsOn(doc.value, monitor, g.leftPixels, g.rightPixels);
        if updated.1.Some? then Run(Err(UpdateConfig(updated.1.value)), [])
        else Run(Ok((p, Asymmetric(g))), [ConfigWrite(updated.0), ShiftWrite(monitor, shift)])
  }

  /** The part of `runShift` once the current percentage `p` is known to be in range. */
  function ShiftResolved(env: Env, p: int, shift: int): Run {
    var width := MonitorWidthOf(env.opts, env.displays);
    if width.Err? then Run(Err(Width(width.error)), [])
    else if !env.rules.valid(width.value, p, shift) then Run(Err(InvalidShift(shift)), [])
    else
      var g := env.rules.gaps(width.value, p, shift);
      if env.opts.dryRun then Run(Ok((p, Asymmetric(g))), []) else ShiftWrites(env, p, g, shift)
  }

  /** What `runShift` does with `--by shift`. */
  function ShiftOf(env: Env, shift: int): Run {
    var loaded := GoState.Load(env.stateFile);
    if loaded.Err? then Run(Err(LoadState(loaded.error)), [])
    else
      var current := SavedCurrent(loaded.value, env.opts.monitor);
      if current.None? then Run(Err(NoCurrent), [])
      else if Gaps.ValidatePercentage(current.value).Some? then Run(Err(OutOfRange(current.value)), [])
      else ShiftResolved(env, current.value, shift)
  }

  /** `runShift`: its guard chain and its ordered writes. */
  method RunShift(env: Env, shift: int) returns (r: Run)
    ensures r == ShiftOf(env, shift)
  {
    var monitor := env.opts.monitor;
    var configSvc := new GoConfig.AerospaceService(env.configFile);
    var stateSvc := new GoState.WorkspaceService(env.stateFile);

    var monState := stateSvc.GetMonitorState(monitor);
    if monState.Err? {
      return Run(Err(LoadState(monState.error)), []);
    }
    assert monState.value.current == SavedCurrent(GoState.Load(env.stateFile).value, monitor);
    if monState.value.current.None? {
      return Run(Err(NoCurrent), []);
    }
    var p := monState.value.current.value;
    if Gaps.ValidatePercentage(p).Some? {
      return Run(Err(OutOfRange(p)), []);
    }
    assert ShiftOf(env, shift) == ShiftResolved(env, p, shift);
    var width := ResolveMonitorWidth(env.opts, env.displays);
    if width.Err? {
      return Run(Err(Width(width.error)), []);
    }
    if !env.rules.valid(width.value, p, shift) {
      return Run(Err(InvalidShift(shift)), []);
    }
    var g := env.rules.gaps(width.value, p, shift);
    if env.opts.dryRun {
      return Run(Ok((p, Asymmetric(g))), []);
    }
    r := WriteShifted(env, configSvc, p, g, shift);
  }

  /** The writing half of `runShift`. */
  method WriteShifted(env: Env, configSvc: GoConfig.AerospaceService, p: int, g: ShiftedGaps, shift: int) returns (r: Run)
    requires configSvc.file == env.configFile && configSvc.config == None
    modifies configSvc
    ensures r == ShiftWrites(env, p, g, shift)
  {
    var monitor := env.opts.monitor;
    if env.configExists.Err? {
      return Run(Err(CheckConfig(env.configExists.error)), []);
    }
    if !env.configExists.value {
      return Run(Err(ConfigNotFound), []);
    }
    ghost var doc := GoConfig.LoadedConfig(env.configFile);
    var err := configSvc.SetMonitorAsymmetricGaps(monitor, g.leftPixels, g.rightPixels);
    if err.Some? {
      assert doc.Err? ==> err == Some(doc.error);
      assert doc.Ok? ==> err == GoConfig.SetAsymmetricGapsOn(doc.value, monitor, g.leftPixels, g.rightPixels).1;
      return Run(Err(UpdateConfig(err.value)), []);
    }
    assert doc.Ok?;
    ghost var updated := GoConfig.SetAsymmetricGapsOn(doc.value, monitor, g.leftPixels, g.rightPixels);
    var text := configSvc.config.value;
    assert text == updated.0 && updated.1.None?;
    err := configSvc.Write();
    r := Run(Ok((p, Asymmetric(g))), [ConfigWrite(text), ShiftWrite(monitor, shift)]);
  }

  /** `shift` needs a saved current percentage: a monitor without one, even with a default, is an
      error that writes nothing. */
  lemma ShiftNeedsCurrent(env: Env, shift: int)
    requires GoState.Load(env.stateFile).Ok?
    requires SavedCurrent(GoState.Load(env.stateFile).value, env.opts.monitor).None?
    ensures ShiftOf(env, shift) == Run(Err(NoCurrent), [])
  {
  }

  /** `shift` applies the current percentage, refuses a shift `ValidateShift` rejects, and writes
      nothing on a dry run or a failure; otherwise it writes the config before it saves the shift. */
  lemma ShiftChecks(env: Env, shift: int)
    ensures var run := ShiftOf(env, shift);
      && (run.result.Err? || env.opts.dryRun ==> run.writes == [])
      && (run.writes != [] ==> |run.writes| == 2 && run.writes[0].ConfigWrite? && run.writes[1] == ShiftWrite(env.opts.monitor, shift))
      && (run.result.Ok? ==>
            && GoState.Load(env.stateFile).Ok?
            && SavedCurrent(GoState.Load(env.stateFile).value, env.opts.monitor) == Some(run.result.value.0)
            && MonitorWidthOf(env.opts, env.displays).Ok?
            && env.rules.valid(MonitorWidthOf(env.opts, env.displays).value, run.result.value.0, shift)
            && run.result.value.1 == Asymmetric(env.rules.gaps(MonitorWidthOf(env.opts, env.displays).value, run.result.value.0, shift)))
  {
  }

  // ---- adjust ----

  /** The default of `adjust --by`. */
  const DefaultAdjustAmount := 5

  /** `*monState.Current + amount` as written: Go's `int64` addition wraps around. */
  function AdjustedAsWritten(current: int, amount: int): int {
    WrapI64(current + amount)
  }

  /** The wrapped sum can land in range although the true sum is far outside it: the command would then
      apply 50% to a monitor whose saved percentage is the smallest `int64`. */
  lemma AdjustWrapAccepted()
    ensures var current, amount := Decimal.MinI64, -0x7FFF_FFFF_FFFF_FFCE;
      && Decimal.IsI64(current) && Decimal.IsI64(amount)
      && AdjustedAsWritten(current, amount) == 50
      && Gaps.ValidatePercentage(AdjustedAsWritten(current, amount)).None?
      && Gaps.ValidatePercentage(current + amount).Some?
      && Adjusted(current, amount).None?
  {
  }

  /** Whenever the true sum fits in an `int64`, the code as written and the corrected rule accept the same
      adjustments and produce the same percentage: they differ only on sums that overflow. */
  lemma AdjustedAgreesWithoutOverflow(current: int, amount: int)
    requires Decimal.IsI64(current + amount)
    ensures Adjusted(current, amount).Some? <==> Gaps.ValidatePercentage(AdjustedAsWritten(current, amount)).None?
    ensures Adjusted(current, amount).Some? ==> Adjusted(current, amount).value == AdjustedAsWritten(current, amount)
  {
  }

  /** The adjusted percentage as intended: the exact sum, kept only when the range check accepts it. */
  function Adjusted(current: int, amount: int): (r: Option<int>)
    ensures r.Some? <==> 1 <= current + amount <= 100
    ensures r.Some? ==> r.value == current + amount
  {
    var newPercent := current + amount;
    if Gaps.ValidatePercentage(newPercent).Some? then None else Some(newPercent)
  }

  /** The guard shared by both `adjust` commands: a saved current percentage, moved by the amount. */
  function AdjustTarget(stateFile: GoState.StateFile, monitor: string, amount: int): Result<int, Failure> {
    var loaded := GoState.Load(stateFile);
    if loaded.Err? then Err(LoadState(loaded.error))
    else
      var current := SavedCurrent(loaded.value, monitor);
      if current.None? then Err(NoCurrent)
      else if Adjusted(current.value, amount).None? then Err(AdjustedOutOfRange(current.value + amount))
      else Ok(current.value + amount)
  }

  /** What `runAdjust` of cmd/workspace/adjust.go does: the new percentage goes to `RunWithPercent`,
      which runs `applyPercentage` on fresh services (and `set-default` is not a flag of `adjust`). */
  function AdjustOf(env: Env, amount: int): Run {
    var target := AdjustTarget(env.stateFile, env.opts.monitor, amount);
    if target.Err? then Run(Err(target.error), []) else ApplyOf(env, Some(target.value), false)
  }

  method RunAdjust(env: Env, amount: int) returns (r: Run)
    ensures r == AdjustOf(env, amount)
  {
    var stateSvc := new GoState.WorkspaceService(env.stateFile);
    var monState := stateSvc.GetMonitorState(env.opts.monitor);
    if monState.Err? {
      return Run(Err(LoadState(monState.error)), []);
    }
    if monState.value.current.None? {
      return Run(Err(NoCurrent), []);
    }
    assert monState.value.current == SavedCurrent(GoState.Load(env.stateFile).value, env.opts.monitor);
    var newPercent := Adjusted(monState.value.current.value, amount);
    if newPercent.None? {
      return Run(Err(AdjustedOutOfRange(monState.value.current.value + amount)), []);
    }
    assert AdjustTarget(env.stateFile, env.opts.monitor, amount) == Ok(newPercent.value);
    r := ApplyPercentage(env, Some(newPercent.value), false);
  }

  /** `adjust` moves the saved current percentage by the amount and applies the result exactly as
      `use` with that explicit percentage and without `--set-default` would; a missing current
      percentage or a result outside 1..100 is an error before anything is written. */
  lemma AdjustRules(env: Env, amount: int)
    requires GoState.Load(env.stateFile).Ok?
    ensures var current := SavedCurrent(GoState.Load(env.stateFile).value, env.opts.monitor);
      && (current.None? ==> AdjustOf(env, amount) == Run(Err(NoCurrent), []))
      && (current.Some? && 1 <= current.value + amount <= 100 ==>
            AdjustOf(env, amount) == ApplyOf(env, Some(current.value + amount), false))
      && (current.Some? && !(1 <= current.value + amount <= 100) ==>
            AdjustOf(env, amount) == Run(Err(AdjustedOutOfRange(current.value + amount)), []))
  {
    var current := SavedCurrent(GoState.Load(env.stateFile).value, env.opts.monitor);
    if current.Some? && 1 <= current.value + amount <= 100 {
      AdjustUsesTarget(env, amount, current.value + amount);
    }
  }

  lemma AdjustUsesTarget(env: Env, amount: int, target: int)
    requires AdjustTarget(env.stateFile, env.opts.monitor, amount) == Ok(target)
    ensures AdjustOf(env, amount) == ApplyOf(env, Some(target), false)
  {
  }

  /** What `runAdjust` of cmd/workspace/workspace_adjust.go decides: the percentage it hands to
      `RunWithPercent`, whose body in that revision is not part of this model. */
  method RunAdjustCobra(stateFile: GoState.StateFile, monitor: string, amount: int) returns (r: Result<int, Failure>)
    ensures r == AdjustTarget(stateFile, monitor, amount)
  {
    var stateSvc := new GoState.WorkspaceService(stateFile);
    var monState := stateSvc.GetMonitorState(monitor);
    if monState.Err? {
      return Err(LoadState(monState.error));
    }
    if monState.value.current.None? {
      return Err(NoCurrent);
    }
    var newPercent := Adjusted(monState.value.current.value, amount);
    if newPercent.None? {
      return Err(AdjustedOutOfRange(monState.value.current.value + amount));
    }
    r := Ok(newPercent.value);
  }

  /** Adjusting 50 by 5, 10 and -10 gives 55, 60 and 40; 95 + 10 and 5 - 10 are refused. */
  lemma AdjustExamples()
    ensures Adjusted(50, DefaultAdjustAmount) == Some(55) && Adjusted(50, 10) == Some(60) && Adjusted(50, -10) == Some(40)
    ensures Adjusted(95, 10) == None && Adjusted(5, -10) == None
  {
  }
}
