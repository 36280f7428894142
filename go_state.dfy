/** The Go workspace-percentage state (internal/config/state.go): a per-monitor map of current and
    default percentages, loaded lazily from the state file and updated in place. */
module GoState {
  import opened Wrappers
  import Text

  /** `MonitorState`: both percentages are optional. */
  datatype MonitorState = MonitorState(current: Option<int>, default: Option<int>)

  const EmptyMonitor: MonitorState := MonitorState(None, None)

  type Monitors = map<string, MonitorState>

  /** What reading the state file gives: missing, unreadable, or its text together with what decoding
      that text as TOML yields (`None` when it does not decode; decoding itself is not modelled). */
  datatype StateFile = Missing | Unreadable | Present(data: string, decoded: Option<Monitors>)

  datatype StateError = ReadFailed | FormatError

  /** What `loadState` adopts. `strings.TrimSpace(data) == ""` is written as "every character is white
      space", which `Text.TrimEmptyIffAllSpace` shows to be the same test. */
  function Load(file: StateFile): Result<Monitors, StateError> {
    match file
    case Missing => Ok(map[])
    case Unreadable => Err(ReadFailed)
    case Present(data, decoded) =>
      if Text.AllSpace(data) then Ok(map[])
      else if decoded.Some? && |decoded.value| > 0 then Ok(decoded.value)
      else Err(FormatError)
  }

  /** A missing file and a file that trims to nothing load as no monitors; a file whose decoding
      names at least one monitor loads as those monitors; anything else, a decodable file without
      monitors included, is a format error. */
  lemma LoadCases(file: StateFile)
    ensures file.Missing? ==> Load(file) == Ok(map[])
    ensures file.Unreadable? ==> Load(file) == Err(ReadFailed)
    ensures file.Present? && Text.Trim(file.data) == [] ==> Load(file) == Ok(map[])
    ensures file.Present? && Text.Trim(file.data) != [] ==>
      (Load(file).Ok? <==> file.decoded.Some? && |file.decoded.value| > 0)
      && (Load(file).Ok? ==> Load(file) == Ok(file.decoded.value))
      && (Load(file).Err? ==> Load(file) == Err(FormatError))
  {
    if file.Present? {
      Text.TrimEmptyIffAllSpace(file.data);
    }
  }

  /** The map after `getOrCreateMonitor(name)`. */
  function WithMonitor(monitors: Monitors, name: string): Monitors {
    if name in monitors then monitors else monitors[name := EmptyMonitor]
  }

  /** `getOrCreateMonitor` adds an empty record only when there is none, and changes no other record. */
  lemma WithMonitorKeeps(monitors: Monitors, name: string)
    ensures name in WithMonitor(monitors, name)
    ensures name in monitors ==> WithMonitor(monitors, name) == monitors
    ensures name !in monitors ==> WithMonitor(monitors, name)[name] == EmptyMonitor
    ensures WithMonitor(monitors, name).Keys == monitors.Keys + {name}
    ensures forall k :: k in monitors ==> WithMonitor(monitors, name)[k] == monitors[k]
  {
  }

  /** `ResolvePercentage` once the state is loaded. */
  function Resolve(monitors: Monitors, name: string, explicit: Option<int>): Option<int> {
    if explicit.Some? then explicit
    else if name !in monitors then None
    else if monitors[name].current.Some? then monitors[name].current
    else monitors[name].default
  }

  /** The priority chain explicit > current > default > none; an explicit value is taken as it is,
      whatever its range. */
  lemma ResolvePriority(monitors: Monitors, name: string, explicit: Option<int>)
    ensures var stored := if name in monitors then monitors[name].current.Or(monitors[name].default) else None;
      Resolve(monitors, name, explicit) == explicit.Or(stored)
    ensures Resolve(monitors, name, explicit).None? <==>
      explicit.None? && (name !in monitors || (monitors[name].current.None? && monitors[name].default.None?))
  {
  }

  /** A record after `Update(…, percentage, setDefault)`. */
  function Updated(m: MonitorState, percentage: int, setDefault: bool): MonitorState {
    var withCurrent := m.(current := Some(percentage));
    if setDefault || m.default.None? then withCurrent.(default := Some(percentage)) else withCurrent
  }

  /** The map after `Update`. */
  function UpdatedMonitors(monitors: Monitors, name: string, percentage: int, setDefault: bool): Monitors {
    var ms := WithMonitor(monitors, name);
    ms[name := Updated(ms[name], percentage, setDefault)]
  }

  /** `Update` always sets the current percentage; it sets the default exactly when asked to or when
      there was none, and otherwise keeps it; other monitors are untouched. Afterwards the monitor
      resolves to the new percentage and always has a default. */
  lemma UpdateEffect(monitors: Monitors, name: string, percentage: int, setDefault: bool)
    ensures var after := UpdatedMonitors(monitors, name, percentage, setDefault);
      var before := if name in monitors then monitors[name] else EmptyMonitor;
      && name in after
      && after[name].current == Some(percentage)
      && (setDefault || before.default.None? ==> after[name].default == Some(percentage))
      && (!setDefault && before.default.Some? ==> after[name].default == before.default)
      && after[name].default.Some?
      && Resolve(after, name, None) == Some(percentage)
      && (forall k :: k in monitors && k != name ==> k in after && after[k] == monitors[k])
      && after.Keys == monitors.Keys + {name}
  {
  }

  /** `WorkspaceService`: `state` is `None` until the first successful load, and then holds the monitor
      map that `getOrCreateMonitor` and `Update` change in place. `written` records each map `write`
      persisted. */
  class WorkspaceService {
    const file: StateFile
    var state: Option<Monitors>
    var written: seq<Monitors>

    constructor (file: StateFile)
      ensures this.file == file && state == None && written == []
    {
      this.file := file;
      state := None;
      written := [];
    }

    /** `loadState`: does nothing once a state is held; otherwise adopts what `Load` gives. */
    method LoadState() returns (err: Option<StateError>)
      modifies this`state
      ensures old(state).Some? ==> state == old(state) && err == None
      ensures old(state).None? && Load(file).Ok? ==> state == Some(Load(file).value) && err == None
      ensures old(state).None? && Load(file).Err? ==> state == None && err == Some(Load(file).error)
    {
      if state.Some? {
        return None;
      }
      var loaded := Load(file);
      if loaded.Err? {
        return Some(loaded.error);
      }
      state := Some(loaded.value);
      err := None;
    }

    method GetOrCreateMonitor(name: string) returns (m: MonitorState)
      requires state.Some?
      modifies this`state
      ensures state == Some(WithMonitor(old(state).value, name)) && name in state.value && m == state.value[name]
    {
      var monitors := state.value;
      if name !in monitors {
        monitors := monitors[name := EmptyMonitor];
      }
      state := Some(monitors);
      m := monitors[name];
    }

    /** `GetMonitorState`: loads, then returns the monitor's record, inserting an empty one if needed. */
    method GetMonitorState(name: string) returns (r: Result<MonitorState, StateError>)
      modifies this`state
      ensures old(state).None? && Load(file).Err? ==> state == None && r == Err(Load(file).error)
      ensures old(state).Some? || Load(file).Ok? ==>
        var loaded := if old(state).Some? then old(state).value else Load(file).value;
        state == Some(WithMonitor(loaded, name)) && r == Ok(WithMonitor(loaded, name)[name])
    {
      var err := LoadState();
      if err.Some? {
        return Err(err.value);
      }
      var m := GetOrCreateMonitor(name);
      r := Ok(m);
    }

    /** `ResolvePercentage`: loads, then resolves without inserting a record. */
    method ResolvePercentage(name: string, explicit: Option<int>) returns (r: Result<Option<int>, StateError>)
      modifies this`state
      ensures old(state).None? && Load(file).Err? ==> state == None && r == Err(Load(file).error)
      ensures old(state).Some? || Load(file).Ok? ==>
        state.Some? && state == (if old(state).Some? then old(state) else Some(Load(file).value))
        && r == Ok(Resolve(state.value, name, explicit))
    {
      var err := LoadState();
      if err.Some? {
        return Err(err.value);
      }
      if explicit.Some? {
        return Ok(explicit);
      }
      var monitors := state.value;
      if name !in monitors {
        return Ok(None);
      }
      var mon := monitors[name];
      if mon.current.Some? {
        return Ok(mon.current);
      }
      r := Ok(mon.default);
    }

    /** `Update`: loads, updates the record in place and writes the whole map. */
    method Update(name: string, percentage: int, setDefault: bool) returns (err: Option<StateError>)
      modifies this`state, this`written
      ensures old(state).None? && Load(file).Err? ==>
        state == None && written == old(written) && err == Some(Load(file).error)
      ensures old(state).Some? || Load(file).Ok? ==>
        var loaded := if old(state).Some? then old(state).value else Load(file).value;
        state == Some(UpdatedMonitors(loaded, name, percentage, setDefault))
        && written == old(written) + [state.value] && err == None
    {
      err := LoadState();
      if err.Some? {
        return;
      }
      var mon := GetOrCreateMonitor(name);
      mon := mon.(current := Some(percentage));
      if setDefault || mon.default.None? {
        mon := mon.(default := Some(percentage));
      }
      state := Some(state.value[name := mon]);
      written := written + [state.value];
    }
  }
}
