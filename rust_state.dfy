/** The Rust single-workspace state (src/state.rs): a `[workspace]` table with optional `current` and
    `default` percentages, and the migration of a legacy file holding one bare integer. */
module RustState {
  import opened Wrappers
  import opened Toml
  import Text
  import Decimal
  import GoState

  datatype WorkspaceState = WorkspaceState(current: Option<int>, defaultPercentage: Option<int>)

  /** A parsed state and whether it came from the legacy format. */
  datatype StateLoad = StateLoad(state: WorkspaceState, migrated: bool)

  /** `Item::as_value`: plain values and inline tables, but not `[table]`s or arrays of tables. */
  predicate IsValue(n: Node) {
    !n.TableArray? && !(n.Table? && !n.inline)
  }

  function NotIntegerMessage(key: string): string {
    "State file key '" + key + "' is not an integer"
  }

  /** `parse_optional_integer`: an absent key is `None`, an integer value is itself, anything else is
      an error naming the key. */
  function ParseOptionalInteger(table: seq<Entry>, key: string): (r: Result<Option<int>, string>)
    ensures Get(table, key).None? ==> r == Ok(None)
    ensures Get(table, key).Some? && Get(table, key).value.Int? ==> r == Ok(Some(Get(table, key).value.i))
    ensures Get(table, key).Some? && !Get(table, key).value.Int? ==> r == Err(NotIntegerMessage(key))
  {
    var item := Get(table, key);
    if item.None? then Ok(None)
    else if IsValue(item.value) && item.value.Int? then Ok(Some(item.value.i))
    else Err(NotIntegerMessage(key))
  }

  const EmptyMessage := "State file is empty"
  const MissingTableMessage := "State file missing [workspace] table"
  const TomlErrorPrefix := "Failed to parse TOML state file: "

  /** `parse_state_contents`. `document` is what parsing the trimmed text as a TOML document gives;
      the parser is not modelled. */
  function ParseStateContents(contents: string, document: Result<seq<Entry>, string>): Result<StateLoad, string> {
    var trimmed := Text.Trim(contents);
    if trimmed == [] then Err(EmptyMessage)
    else if Decimal.ParseI64(trimmed).Some? then
      var v := Decimal.ParseI64(trimmed).value;
      Ok(StateLoad(WorkspaceState(Some(v), Some(v)), true))
    else ReadDocument(document)
  }

  /** The non-legacy branch of `parse_state_contents`: the `[workspace]` table of the parsed document. */
  function ReadDocument(document: Result<seq<Entry>, string>): Result<StateLoad, string> {
    if document.Err? then Err(TomlErrorPrefix + document.error)
    else
      var workspace := AsTable(Get(document.value, "workspace"));
      if workspace.None? then Err(MissingTableMessage)
      else
        var current := ParseOptionalInteger(workspace.value, "current");
        if current.Err? then Err(current.error)
        else
          var default := ParseOptionalInteger(workspace.value, "default");
          if default.Err? then Err(default.error)
          else Ok(StateLoad(WorkspaceState(current.value, default.value), false))
  }

  /** Blank contents are an error; a trimmed bare integer is a legacy file whose value becomes both
      percentages and which is marked migrated; nothing else is marked migrated. */
  lemma ParseStateLegacy(contents: string, document: Result<seq<Entry>, string>)
    ensures Text.AllSpace(contents) ==> ParseStateContents(contents, document) == Err(EmptyMessage)
    ensures var r := ParseStateContents(contents, document);
      r.Ok? && r.value.migrated <==> !Text.AllSpace(contents) && Decimal.ParseI64(Text.Trim(contents)).Some?
    ensures var r := ParseStateContents(contents, document);
      r.Ok? && r.value.migrated ==> r.value.state.current == r.value.state.defaultPercentage
    ensures var n := Decimal.ParseI64(Text.Trim(contents));
      !Text.AllSpace(contents) && n.Some? ==>
        ParseStateContents(contents, document) == Ok(StateLoad(WorkspaceState(n, n), true))
  {
    Text.TrimEmptyIffAllSpace(contents);
  }

  /** Any other contents need a `[workspace]` table (an inline table will not do); each of its two keys
      is optional, and present ones must be integers. */
  lemma ParseStateTable(contents: string, document: Result<seq<Entry>, string>)
    requires !Text.AllSpace(contents) && Decimal.ParseI64(Text.Trim(contents)).None?
    ensures var r := ParseStateContents(contents, document);
      r.Ok? <==> (document.Ok? && AsTable(Get(document.value, "workspace")).Some?
        && !ParseOptionalInteger(AsTable(Get(document.value, "workspace")).value, "current").Err?
        && !ParseOptionalInteger(AsTable(Get(document.value, "workspace")).value, "default").Err?)
    ensures var r := ParseStateContents(contents, document);
      r.Ok? ==>
        var w := AsTable(Get(document.value, "workspace")).value;
        !r.value.migrated
        && r.value.state.current == ParseOptionalInteger(w, "current").value
        && r.value.state.defaultPercentage == ParseOptionalInteger(w, "default").value
  {
    Text.TrimEmptyIffAllSpace(contents);
  }

  /** `resolve_percentage`, which never fails: explicit, else the state's current, else its default. */
  function ResolvePercentage(percent: Option<int>, state: Option<StateLoad>): Option<int> {
    if percent.Some? then percent
    else if state.None? then None
    else state.value.state.current.Or(state.value.state.defaultPercentage)
  }

  /** The single-workspace priority chain is the Go per-monitor one for a map holding one record. */
  lemma ResolveAgreesWithGo(percent: Option<int>, s: StateLoad, name: string)
    ensures var monitors := map[name := GoState.MonitorState(s.state.current, s.state.defaultPercentage)];
      ResolvePercentage(percent, Some(s)) == GoState.Resolve(monitors, name, percent)
    ensures ResolvePercentage(percent, None) == GoState.Resolve(map[], name, percent)
  {
    GoState.ResolvePriority(map[name := GoState.MonitorState(s.state.current, s.state.defaultPercentage)], name, percent);
  }

  /** The examples of the unit tests. */
  lemma ResolveExamples()
    ensures var s := StateLoad(WorkspaceState(Some(25), Some(50)), false);
      ResolvePercentage(Some(10), Some(s)) == Some(10) && ResolvePercentage(None, Some(s)) == Some(25)
    ensures ResolvePercentage(None, Some(StateLoad(WorkspaceState(None, Some(40)), false))) == Some(40)
    ensures ResolvePercentage(None, None) == None
  {
  }

  /** The state `write_state` persists. */
  function WriteStateValue(percentage: int, existing: Option<WorkspaceState>, setDefault: bool): WorkspaceState {
    var default := if setDefault then Some(percentage)
      else if existing.Some? then existing.value.defaultPercentage.Or(Some(percentage))
      else Some(percentage);
    WorkspaceState(Some(percentage), default)
  }

  /** `write_state` always records the percentage as current; the default becomes the percentage when
      asked to or when there was none, and is kept otherwise. This is the Go `Update` rule. */
  lemma WriteStateRule(percentage: int, existing: Option<WorkspaceState>, setDefault: bool, name: string)
    ensures var w := WriteStateValue(percentage, existing, setDefault);
      var oldDefault := if existing.Some? then existing.value.defaultPercentage else None;
      && w.current == Some(percentage)
      && (setDefault || oldDefault.None? ==> w.defaultPercentage == Some(percentage))
      && (!setDefault && oldDefault.Some? ==> w.defaultPercentage == oldDefault)
    ensures var w := WriteStateValue(percentage, existing, setDefault);
      var before := if existing.Some? then GoState.MonitorState(existing.value.current, existing.value.defaultPercentage)
        else GoState.EmptyMonitor;
      GoState.Updated(before, percentage, setDefault) == GoState.MonitorState(w.current, w.defaultPercentage)
  {
  }

  /** The fields `persist_state` inserts into the `[workspace]` table: only the present ones. */
  function PersistFields(state: WorkspaceState): seq<Entry> {
    (if state.current.Some? then [Entry("current", Int(state.current.value))] else [])
    + (if state.defaultPercentage.Some? then [Entry("default", Int(state.defaultPercentage.value))] else [])
  }

  /** The document `persist_state` builds. */
  function PersistDocument(state: WorkspaceState): seq<Entry> {
    [Entry("workspace", Table(PersistFields(state), false))]
  }

  function FieldLine(key: string, v: Option<int>): string {
    if v.Some? then key + " = " + Decimal.Format(v.value) + "\n" else ""
  }

  /** The text `persist_state` writes for that document, as toml_edit prints it. */
  function Render(state: WorkspaceState): (text: string)
    ensures text != [] && text[|text| - 1] == '\n' && text[0] == '['
  {
    "[workspace]\n" + FieldLine("current", state.current) + FieldLine("default", state.defaultPercentage)
  }

  /** The printed state is neither blank nor a bare integer: it starts with `[`. */
  lemma RenderIsNotLegacy(state: WorkspaceState)
    ensures Text.Trim(Render(state)) != [] && Decimal.ParseI64(Text.Trim(Render(state))).None?
  {
    var text := Render(state);
    Text.TrimKeepsFirst(text);
    Decimal.ParseRejectsNonDigit(Text.Trim(text), 0);
  }

  /** The `[workspace]` table `persist_state` builds reads back as the state. */
  lemma PersistDocumentReads(state: WorkspaceState)
    ensures ReadDocument(Ok(PersistDocument(state))) == Ok(StateLoad(state, false))
  {
    var fields := PersistFields(state);
    assert AsTable(Get(PersistDocument(state), "workspace")) == Some(fields);
    match (state.current, state.defaultPercentage)
    case (Some(c), Some(d)) =>
      assert fields == [Entry("current", Int(c)), Entry("default", Int(d))];
      assert Get(fields, "current") == Some(Int(c));
      assert fields[0].key != "default" && fields[1].key == "default";
      assert Get(fields, "default") == Some(Int(d));
    case (Some(c), None) =>
      assert fields == [Entry("current", Int(c))];
    case (None, Some(d)) =>
      assert fields == [Entry("default", Int(d))];
    case (None, None) =>
  }

  /** Reading back what `persist_state` wrote restores the state, unmigrated, given that the TOML parser
      reads the printed document back as that document. */
  lemma PersistRoundTrip(state: WorkspaceState)
    ensures ParseStateContents(Render(state), Ok(PersistDocument(state))) == Ok(StateLoad(state, false))
  {
    RenderIsNotLegacy(state);
    PersistDocumentReads(state);
  }

  /** The unit tests of `write_state`: the default is kept (70) or filled in (35) and reads back. */
  lemma WriteStateExamples()
    ensures var s := WriteStateValue(40, Some(WorkspaceState(Some(55), Some(70))), false);
      ParseStateContents(Render(s), Ok(PersistDocument(s))) == Ok(StateLoad(WorkspaceState(Some(40), Some(70)), false))
    ensures var s := WriteStateValue(35, Some(WorkspaceState(Some(30), None)), false);
      ParseStateContents(Render(s), Ok(PersistDocument(s))) == Ok(StateLoad(WorkspaceState(Some(35), Some(35)), false))
  {
    PersistRoundTrip(WorkspaceState(Some(40), Some(70)));
    PersistRoundTrip(WorkspaceState(Some(35), Some(35)));
  }

  /** What `read_state_file` finds at the path. */
  datatype StateFileInput = Absent | Unreadable(reason: string) | Present(contents: string, document: Result<seq<Entry>, string>)

  /** The result of `read_state_file`, and the state it persists on the way (a migrated legacy file). */
  datatype ReadOutcome = ReadOutcome(result: Result<Option<StateLoad>, string>, persisted: Option<WorkspaceState>)

  function ReadStateFile(path: string, file: StateFileInput, dryRun: bool): ReadOutcome {
    match file
    case Absent => ReadOutcome(Ok(None), None)
    case Unreadable(reason) => ReadOutcome(Err("Failed to read state file " + path + ": " + reason), None)
    case Present(contents, document) =>
      var parsed := ParseStateContents(contents, document);
      if parsed.Err? then ReadOutcome(Err("Failed to parse state file " + path + ": " + parsed.error), None)
      else if parsed.value.migrated && !dryRun then ReadOutcome(Ok(Some(parsed.value)), Some(parsed.value.state))
      else ReadOutcome(Ok(Some(parsed.value)), None)
  }

  /** A missing file is no state and no error; a legacy file is rewritten in the new format exactly when
      it parsed, was migrated and this is not a dry run, and what is written reads back as the loaded
      state; nothing else writes. */
  lemma ReadStateFileWrites(path: string, file: StateFileInput, dryRun: bool)
    ensures file.Absent? ==> ReadStateFile(path, file, dryRun) == ReadOutcome(Ok(None), None)
    ensures var out := ReadStateFile(path, file, dryRun);
      out.persisted.Some? <==> out.result.Ok? && out.result.value.Some? && out.result.value.value.migrated && !dryRun
    ensures var out := ReadStateFile(path, file, dryRun);
      out.persisted.Some? ==>
        out.persisted.value.current == out.persisted.value.defaultPercentage
        && ParseStateContents(Render(out.persisted.value), Ok(PersistDocument(out.persisted.value)))
          == Ok(StateLoad(out.result.value.value.state, false))
  {
    if file.Present? {
      ParseStateLegacy(file.contents, file.document);
      var parsed := ParseStateContents(file.contents, file.document);
      if parsed.Ok? && parsed.value.migrated && !dryRun {
        assert ReadStateFile(path, file, dryRun).persisted == Some(parsed.value.state);
        PersistRoundTrip(parsed.value.state);
      }
    }
  }

  /** A file as `persist_state` writes it reads back as the state it holds, unmigrated, and is not
      rewritten. */
  lemma ReadPersisted(path: string, state: WorkspaceState, dryRun: bool)
    ensures ReadStateFile(path, Present(Render(state), Ok(PersistDocument(state))), dryRun)
      == ReadOutcome(Ok(Some(StateLoad(state, false))), None)
  {
    PersistRoundTrip(state);
  }
}
