/** The Rust side of the gap configuration (src/config.rs), on the toml_edit document tree: reading the
    gap summary, and pointing `monitor.main` of one inline table per side at a new gap. */
module RustConfig {
  import opened Wrappers
  import opened Toml
  import Text
  import GoConfig

  type MonitorGap = GoConfig.MonitorGap

  /** Reading the first `n` items of a list in order, stopping at the first element that is an error. */
  function CollectTo<T>(xs: seq<T>, f: T -> Result<seq<MonitorGap>, string>, n: nat): Result<seq<MonitorGap>, string>
    requires n <= |xs|
  {
    if n == 0 then Ok([])
    else
      match CollectTo(xs, f, n - 1)
      case Err(e) => Err(e)
      case Ok(gs) =>
        match f(xs[n - 1])
        case Err(e) => Err(e)
        case Ok(hs) => Ok(gs + hs)
  }

  /** Reading a whole item list in order, stopping at the first element that is an error. */
  function Collect<T>(xs: seq<T>, f: T -> Result<seq<MonitorGap>, string>): Result<seq<MonitorGap>, string> {
    CollectTo(xs, f, |xs|)
  }

  /** Reading a prefix depends only on the prefix. */
  lemma {:induction false} CollectToSame<T>(xs: seq<T>, ys: seq<T>, f: T -> Result<seq<MonitorGap>, string>, n: nat)
    requires n <= |xs| && n <= |ys| && forall i :: 0 <= i < n ==> xs[i] == ys[i]
    ensures CollectTo(xs, f, n) == CollectTo(ys, f, n)
  {
    if n > 0 {
      CollectToSame(xs, ys, f, n - 1);
    }
  }

  lemma CollectOne<T>(x: T, f: T -> Result<seq<MonitorGap>, string>)
    ensures Collect([x], f) == f(x)
  {
    assert CollectTo([x], f, 0) == Ok([]) && [x][0] == x;
    if f(x).Ok? {
      assert [] + f(x).value == f(x).value;
    }
  }

  /** Reading one more element appends what it gives, unless something failed. */
  lemma CollectSnoc<T>(xs: seq<T>, x: T, f: T -> Result<seq<MonitorGap>, string>)
    ensures Collect(xs + [x], f) == match Collect(xs, f)
      case Err(e) => Err(e)
      case Ok(gs) => (match f(x) case Err(e) => Err(e) case Ok(hs) => Ok(gs + hs))
  {
    CollectToSame(xs + [x], xs, f, |xs|);
  }

  /** Once a prefix has failed, the whole list fails with the same error. */
  lemma {:induction false} CollectStopsAtError<T>(xs: seq<T>, f: T -> Result<seq<MonitorGap>, string>, k: nat)
    requires k <= |xs| && CollectTo(xs, f, k).Err?
    ensures Collect(xs, f) == CollectTo(xs, f, k)
    decreases |xs| - k
  {
    if k < |xs| {
      CollectStopsAtError(xs, f, k + 1);
    }
  }

  /** The first `n` items are read without error exactly when each is, and then the result holds what
      they give and nothing else. */
  lemma {:induction false} CollectToMembers<T>(xs: seq<T>, f: T -> Result<seq<MonitorGap>, string>, g: MonitorGap, n: nat)
    requires n <= |xs|
    ensures CollectTo(xs, f, n).Ok? <==> forall i :: 0 <= i < n ==> f(xs[i]).Ok?
    ensures CollectTo(xs, f, n).Ok? ==>
      (g in CollectTo(xs, f, n).value <==> exists i :: 0 <= i < n && f(xs[i]).Ok? && g in f(xs[i]).value)
  {
    if n > 0 {
      CollectToMembers(xs, f, g, n - 1);
    }
  }

  /** A list is read without error exactly when each element is, and then the result holds what the
      elements give and nothing else. */
  lemma CollectMembers<T>(xs: seq<T>, f: T -> Result<seq<MonitorGap>, string>, g: MonitorGap)
    ensures Collect(xs, f).Ok? <==> forall i :: 0 <= i < |xs| ==> f(xs[i]).Ok?
    ensures Collect(xs, f).Ok? ==>
      (g in Collect(xs, f).value <==> exists i :: 0 <= i < |xs| && f(xs[i]).Ok? && g in f(xs[i]).value)
  {
    CollectToMembers(xs, f, g, |xs|);
  }

  /** A key of a `monitor` inline table: its integer value is that monitor's gap. */
  function InnerGap(e: Entry): Result<seq<MonitorGap>, string> {
    if e.value.Int? then Ok([GoConfig.MonitorGap(e.key, e.value.i)])
    else Err("monitor." + e.key + " gap is not an integer")
  }

  const MonitorPrefix := "monitor."

  /** One key of an array element (the body of the loop of `append_monitor_entries`). */
  function TableEntryGaps(e: Entry): Result<seq<MonitorGap>, string> {
    if Text.HasPrefix(e.key, MonitorPrefix) then
      var name := e.key[|MonitorPrefix|..];
      if e.value.Int? then Ok([GoConfig.MonitorGap(name, e.value.i)])
      else Err("monitor." + name + " gap is not an integer")
    else if e.key == "monitor" then
      if AsInlineTable(e.value).Some? then Collect(AsInlineTable(e.value).value, InnerGap)
      else Err("monitor entry is not an inline table")
    else Ok([])
  }

  /** One element of a side array: inline tables are read, everything else is skipped. */
  function ElementGaps(v: Node): Result<seq<MonitorGap>, string> {
    if AsInlineTable(v).Some? then Collect(AsInlineTable(v).value, TableEntryGaps) else Ok([])
  }

  function MissingSideMessage(side: string): string {
    "Missing gaps.outer." + side + " entry in config"
  }

  function NotArrayMessage(side: string): string {
    "gaps.outer." + side + " is not an array in config"
  }

  /** The array `gaps.outer.<side>` as `read_monitor_gaps` and `update_gap_side` demand it. */
  function SideArray(outer: seq<Entry>, side: string): Result<seq<Node>, string> {
    var item := Get(outer, side);
    if item.None? then Err(MissingSideMessage(side))
    else if item.value.Array? then Ok(item.value.items)
    else Err(NotArrayMessage(side))
  }

  /** What `read_monitor_gaps` returns. */
  function MonitorGapsOf(outer: seq<Entry>, side: string): Result<seq<MonitorGap>, string> {
    var arr := SideArray(outer, side);
    if arr.Err? then Err(arr.error) else Collect(arr.value, ElementGaps)
  }

  /** An array element records the gap `g`: it is an inline table with a `monitor.<name>` key, or with a
      `monitor` inline table holding `name`, whose value is the gap. */
  predicate ElementGives(v: Node, g: MonitorGap) {
    AsInlineTable(v).Some? &&
    exists j :: 0 <= j < |AsInlineTable(v).value| && KeyGives(AsInlineTable(v).value[j], g)
  }

  predicate KeyGives(e: Entry, g: MonitorGap) {
    || (e.key == MonitorPrefix + g.name && e.value == Int(g.value))
    || (e.key == "monitor" && AsInlineTable(e.value).Some? &&
        exists k :: 0 <= k < |AsInlineTable(e.value).value| && AsInlineTable(e.value).value[k] == Entry(g.name, Int(g.value)))
  }

  lemma KeyGivesIff(e: Entry, g: MonitorGap)
    requires TableEntryGaps(e).Ok?
    ensures g in TableEntryGaps(e).value <==> KeyGives(e, g)
  {
    if Text.HasPrefix(e.key, MonitorPrefix) {
      assert e.key == MonitorPrefix + e.key[|MonitorPrefix|..];
      assert e.key != "monitor";
      if e.key == MonitorPrefix + g.name {
        assert g.name == e.key[|MonitorPrefix|..];
      }
    } else if e.key == "monitor" {
      var inner := AsInlineTable(e.value).value;
      CollectMembers(inner, InnerGap, g);
      if g in TableEntryGaps(e).value {
        var k :| 0 <= k < |inner| && InnerGap(inner[k]).Ok? && g in InnerGap(inner[k]).value;
        assert inner[k] == Entry(g.name, Int(g.value));
      }
      if KeyGives(e, g) {
        var k :| 0 <= k < |inner| && inner[k] == Entry(g.name, Int(g.value));
        assert g in InnerGap(inner[k]).value;
      }
    }
  }

  /** A side array that reads without error yields exactly the gaps its inline-table elements record;
      scalars and other elements contribute nothing. */
  lemma MonitorGapsMembers(outer: seq<Entry>, side: string, g: MonitorGap)
    requires MonitorGapsOf(outer, side).Ok?
    ensures var items := SideArray(outer, side).value;
      g in MonitorGapsOf(outer, side).value <==> exists i :: 0 <= i < |items| && ElementGives(items[i], g)
  {
    var items := SideArray(outer, side).value;
    CollectMembers(items, ElementGaps, g);
    forall i | 0 <= i < |items|
      ensures g in ElementGaps(items[i]).value <==> ElementGives(items[i], g)
    {
      var t := AsInlineTable(items[i]);
      if t.Some? {
        CollectMembers(t.value, TableEntryGaps, g);
        forall j | 0 <= j < |t.value|
          ensures g in TableEntryGaps(t.value[j]).value <==> KeyGives(t.value[j], g)
        {
          KeyGivesIff(t.value[j], g);
        }
      }
    }
  }

  /** `append_monitor_entries`: pushes the table's gaps onto `entries`, or fails at the first bad value. */
  method AppendMonitorEntries(entries: seq<MonitorGap>, table: seq<Entry>) returns (r: Result<seq<MonitorGap>, string>)
    ensures r == match Collect(table, TableEntryGaps)
      case Ok(gs) => Ok(entries + gs)
      case Err(e) => Err(e)
  {
    var acc := entries;
    for i := 0 to |table|
      invariant CollectTo(table, TableEntryGaps, i).Ok?
      invariant acc == entries + CollectTo(table, TableEntryGaps, i).value
    {
      var key := table[i].key;
      var value := table[i].value;
      if Text.HasPrefix(key, MonitorPrefix) {
        var name := key[|MonitorPrefix|..];
        if !value.Int? {
          CollectStopsAtError(table, TableEntryGaps, i + 1);
          return Err("monitor." + name + " gap is not an integer");
        }
        acc := acc + [GoConfig.MonitorGap(name, value.i)];
      } else if key == "monitor" {
        var inner := AsInlineTable(value);
        if inner.None? {
          CollectStopsAtError(table, TableEntryGaps, i + 1);
          return Err("monitor entry is not an inline table");
        }
        var appended := AppendInlineMonitors(acc, inner.value);
        if appended.Err? {
          CollectStopsAtError(table, TableEntryGaps, i + 1);
          return appended;
        }
        acc := appended.value;
      }
    }
    r := Ok(acc);
  }

  /** The inner loop of `append_monitor_entries`, over the keys of a `monitor` inline table. */
  method AppendInlineMonitors(entries: seq<MonitorGap>, inner: seq<Entry>) returns (r: Result<seq<MonitorGap>, string>)
    ensures r == match Collect(inner, InnerGap)
      case Ok(gs) => Ok(entries + gs)
      case Err(e) => Err(e)
  {
    var acc := entries;
    for j := 0 to |inner|
      invariant CollectTo(inner, InnerGap, j).Ok?
      invariant acc == entries + CollectTo(inner, InnerGap, j).value
    {
      var e := inner[j];
      if !e.value.Int? {
        CollectStopsAtError(inner, InnerGap, j + 1);
        return Err("monitor." + e.key + " gap is not an integer");
      }
      acc := acc + [GoConfig.MonitorGap(e.key, e.value.i)];
    }
    r := Ok(acc);
  }

  /** `read_monitor_gaps`, with its loop over the array. */
  method ReadMonitorGaps(outer: seq<Entry>, side: string) returns (r: Result<seq<MonitorGap>, string>)
    ensures r == MonitorGapsOf(outer, side)
  {
    var arr := SideArray(outer, side);
    if arr.Err? {
      return Err(arr.error);
    }
    var items := arr.value;
    var entries: seq<MonitorGap> := [];
    for i := 0 to |items|
      invariant CollectTo(items, ElementGaps, i) == Ok(entries)
    {
      var table := AsInlineTable(items[i]);
      if table.Some? {
        var appended := AppendMonitorEntries(entries, table.value);
        if appended.Err? {
          CollectStopsAtError(items, ElementGaps, i + 1);
          return Err(appended.error);
        }
        entries := appended.value;
      } else {
        assert entries + [] == entries;
      }
    }
    r := Ok(entries);
  }

  /** `read_optional_integer`: an absent key is `None`; a present one must be an integer value. */
  function ReadOptionalInteger(table: seq<Entry>, key: string, name: string): (r: Result<Option<int>, string>)
    ensures Get(table, key).None? ==> r == Ok(None)
    ensures Get(table, key).Some? ==> (r.Ok? <==> Get(table, key).value.Int?)
    ensures r.Ok? && Get(table, key).Some? ==> r.value == Some(Get(table, key).value.i)
  {
    var item := Get(table, key);
    if item.None? then Ok(None)
    else if item.value.Int? then Ok(Some(item.value.i))
    else Err(name + " is not an integer")
  }

  /** The checks of `read_config_summary` on the parsed document, in the order the code makes them. */
  function ReadConfigSummary(document: seq<Entry>): Result<GoConfig.Summary, string> {
    var gaps := AsTable(Get(document, "gaps"));
    if gaps.None? then Err("Missing [gaps] table")
    else
      var outer := AsTable(Get(gaps.value, "outer"));
      if outer.None? then Err("Missing [gaps.outer] table")
      else
        var inner := AsTable(Get(gaps.value, "inner"));
        var horizontal := if inner.Some? then ReadOptionalInteger(inner.value, "horizontal", "gaps.inner.horizontal") else Ok(None);
        var vertical := if inner.Some? then ReadOptionalInteger(inner.value, "vertical", "gaps.inner.vertical") else Ok(None);
        var top := ReadOptionalInteger(outer.value, "top", "gaps.outer.top");
        var bottom := ReadOptionalInteger(outer.value, "bottom", "gaps.outer.bottom");
        var left := MonitorGapsOf(outer.value, "left");
        var right := MonitorGapsOf(outer.value, "right");
        if horizontal.Err? then Err(horizontal.error)
        else if vertical.Err? then Err(vertical.error)
        else if top.Err? then Err(top.error)
        else if bottom.Err? then Err(bottom.error)
        else if left.Err? then Err(left.error)
        else if right.Err? then Err(right.error)
        else Ok(GoConfig.Summary(horizontal.value, vertical.value, top.value, bottom.value, left.value, right.value))
  }

  /** Unlike the Go reader, which falls back to an empty summary, the Rust reader insists on `[gaps]`,
      `[gaps.outer]` and both side arrays; `[gaps.inner]` is optional. */
  lemma SummaryNeedsTables(document: seq<Entry>)
    ensures AsTable(Get(document, "gaps")).None? ==> ReadConfigSummary(document) == Err("Missing [gaps] table")
    ensures ReadConfigSummary(document).Ok? ==>
      var gaps := AsTable(Get(document, "gaps")).value;
      var outer := AsTable(Get(gaps, "outer")).value;
      && SideArray(outer, "left").Ok? && SideArray(outer, "right").Ok?
      && ReadConfigSummary(document).value.leftGaps == MonitorGapsOf(outer, "left").value
      && ReadConfigSummary(document).value.rightGaps == MonitorGapsOf(outer, "right").value
      && (AsTable(Get(gaps, "inner")).None? ==>
          ReadConfigSummary(document).value.innerHorizontal.None? && ReadConfigSummary(document).value.innerVertical.None?)
  {
    var r := ReadConfigSummary(document);
    var gaps := AsTable(Get(document, "gaps"));
    if r.Ok? {
      var outer := AsTable(Get(gaps.value, "outer"));
      assert outer.Some?;
      var left := MonitorGapsOf(outer.value, "left");
      var right := MonitorGapsOf(outer.value, "right");
      assert left.Ok? && right.Ok? && r.value.leftGaps == left.value && r.value.rightGaps == right.value;
    }
  }

  /** The document of the `read_config_summary_includes_gaps` unit test, as toml_edit reads it. */
  function SummaryTestDocument(): seq<Entry> {
    var inner := Table([Entry("horizontal", Int(12)), Entry("vertical", Int(14))], false);
    var outer := Table([Entry("top", Int(8)), Entry("bottom", Int(6)),
      Entry("right", Array(SummaryTestRight())), Entry("left", Array(SummaryTestLeft()))], false);
    [Entry("gaps", Table([Entry("inner", inner), Entry("outer", outer)], false))]
  }

  /** `outer.left  = [{ monitor = { main = 250, "Studio Display" = 40 } }, 24]` */
  function SummaryTestLeft(): seq<Node> {
    [Table([Entry("monitor", Table([Entry("main", Int(250)), Entry("Studio Display", Int(40))], true))], true), Int(24)]
  }

  /** `outer.right = [{ monitor.main = 300 }, { monitor."DeskPad Display" = 0 }, 24]` */
  function SummaryTestRight(): seq<Node> {
    [ Table([Entry("monitor", Table([Entry("main", Int(300))], true))], true),
      Table([Entry("monitor", Table([Entry("DeskPad Display", Int(0))], true))], true),
      Int(24)]
  }

  lemma SummaryTestLeftReads()
    ensures Collect(SummaryTestLeft(), ElementGaps) ==
      Ok([GoConfig.MonitorGap("main", 250), GoConfig.MonitorGap("Studio Display", 40)])
  {
    assert !Text.HasPrefix("monitor", MonitorPrefix);
    var ms := [Entry("main", Int(250)), Entry("Studio Display", Int(40))];
    CollectOne(ms[0], InnerGap);
    CollectSnoc([ms[0]], ms[1], InnerGap);
    assert [ms[0]] + [ms[1]] == ms;
    var lt := [Entry("monitor", Table(ms, true))];
    CollectOne(lt[0], TableEntryGaps);
    var left := SummaryTestLeft();
    CollectOne(left[0], ElementGaps);
    CollectSnoc([left[0]], left[1], ElementGaps);
    assert [left[0]] + [left[1]] == left;
    assert [GoConfig.MonitorGap("main", 250)] + [GoConfig.MonitorGap("Studio Display", 40)] ==
      [GoConfig.MonitorGap("main", 250), GoConfig.MonitorGap("Studio Display", 40)];
    assert [GoConfig.MonitorGap("main", 250), GoConfig.MonitorGap("Studio Display", 40)] + [] ==
      [GoConfig.MonitorGap("main", 250), GoConfig.MonitorGap("Studio Display", 40)];
  }

  lemma SummaryTestRightReads()
    ensures Collect(SummaryTestRight(), ElementGaps) ==
      Ok([GoConfig.MonitorGap("main", 300), GoConfig.MonitorGap("DeskPad Display", 0)])
  {
    assert !Text.HasPrefix("monitor", MonitorPrefix);
    var m1 := [Entry("main", Int(300))];
    var m2 := [Entry("DeskPad Display", Int(0))];
    CollectOne(m1[0], InnerGap);
    CollectOne(m2[0], InnerGap);
    var r1 := [Entry("monitor", Table(m1, true))];
    var r2 := [Entry("monitor", Table(m2, true))];
    CollectOne(r1[0], TableEntryGaps);
    CollectOne(r2[0], TableEntryGaps);
    var right := SummaryTestRight();
    CollectOne(right[0], ElementGaps);
    CollectSnoc([right[0]], right[1], ElementGaps);
    CollectSnoc([right[0], right[1]], right[2], ElementGaps);
    assert [right[0]] + [right[1]] == [right[0], right[1]];
    assert [right[0], right[1]] + [right[2]] == right;
    assert [GoConfig.MonitorGap("main", 300)] + [GoConfig.MonitorGap("DeskPad Display", 0)] + [] ==
      [GoConfig.MonitorGap("main", 300), GoConfig.MonitorGap("DeskPad Display", 0)];
  }

  /** The summary the unit test expects. */
  lemma SummaryTestExample()
    ensures ReadConfigSummary(SummaryTestDocument()) == Ok(GoConfig.Summary(Some(12), Some(14), Some(8), Some(6),
      [GoConfig.MonitorGap("main", 250), GoConfig.MonitorGap("Studio Display", 40)],
      [GoConfig.MonitorGap("main", 300), GoConfig.MonitorGap("DeskPad Display", 0)]))
  {
    SummaryTestLeftReads();
    SummaryTestRightReads();
    var outer := AsTable(Get(AsTable(Get(SummaryTestDocument(), "gaps")).value, "outer")).value;
    assert SideArray(outer, "left") == Ok(SummaryTestLeft());
    assert SideArray(outer, "right") == Ok(SummaryTestRight());
  }

  // ---- editing ----

  /** `update_monitor_entry` on one inline table. (Its loop over the keys looking for `monitor.main`
      runs only when the lookup just before it found no such key, so it never matches.) */
  function UpdateMonitorEntry(table: seq<Entry>, gap: int): Result<seq<Entry>, string> {
    var monitor := Get(table, "monitor");
    if monitor.Some? then
      if AsInlineTable(monitor.value).Some? then
        Ok(Set(table, "monitor", Table(Set(AsInlineTable(monitor.value).value, "main", Int(gap)), true)))
      else Err("monitor entry is not an inline table")
    else if Get(table, "monitor.main").Some? then Ok(Set(table, "monitor.main", Int(gap)))
    else Ok(Set(table, "monitor.main", Int(gap)))
  }

  /** The first matching case wins: a `monitor` inline table gets `main`, inserted or overwritten, and
      nothing else of the table changes; a `monitor` that is not an inline table is an error; otherwise
      the literal key `monitor.main` is overwritten when present and appended when not. */
  lemma UpdateMonitorEntryCases(table: seq<Entry>, gap: int)
    ensures var monitor := Get(table, "monitor");
      monitor.Some? && AsInlineTable(monitor.value).Some? ==>
        var r := UpdateMonitorEntry(table, gap);
        && r.Ok?
        && AsInlineTable(Get(r.value, "monitor").value) ==
           Some(Set(AsInlineTable(monitor.value).value, "main", Int(gap)))
        && Get(AsInlineTable(Get(r.value, "monitor").value).value, "main") == Some(Int(gap))
        && (forall k :: k != "monitor" ==> Get(r.value, k) == Get(table, k))
    ensures var monitor := Get(table, "monitor");
      monitor.Some? && AsInlineTable(monitor.value).None? ==> UpdateMonitorEntry(table, gap).Err?
    ensures Get(table, "monitor").None? ==>
      var r := UpdateMonitorEntry(table, gap).value;
      && Get(r, "monitor.main") == Some(Int(gap))
      && (forall k :: k != "monitor.main" ==> Get(r, k) == Get(table, k))
      && (Get(table, "monitor.main").Some? ==> |r| == |table|)
      && (Get(table, "monitor.main").None? ==> r == table + [Entry("monitor.main", Int(gap))])
  {
  }

  /** After a successful edit, reading the table back (when it reads) reports the new gap for `main`. */
  lemma UpdateMonitorEntryReadsBack(table: seq<Entry>, gap: int)
    requires UpdateMonitorEntry(table, gap).Ok?
    ensures var t := UpdateMonitorEntry(table, gap).value;
      Collect(t, TableEntryGaps).Ok? ==> GoConfig.MonitorGap("main", gap) in Collect(t, TableEntryGaps).value
  {
    var t := UpdateMonitorEntry(table, gap).value;
    var g := GoConfig.MonitorGap("main", gap);
    if Collect(t, TableEntryGaps).Ok? {
      CollectMembers(t, TableEntryGaps, g);
      if Get(table, "monitor").Some? {
        var inner := AsInlineTable(Get(t, "monitor").value).value;
        var j := GetIndex(t, "monitor");
        var k := GetIndex(inner, "main");
        KeyGivesIff(t[j], g);
        assert KeyGives(t[j], g);
      } else {
        var j := GetIndex(t, "monitor.main");
        KeyGivesIff(t[j], g);
        assert KeyGives(t[j], g);
      }
    }
  }

  /** The position of the entry `Get` finds. */
  lemma GetIndex(entries: seq<Entry>, key: string) returns (j: nat)
    requires Get(entries, key).Some?
    ensures j < |entries| && entries[j] == Entry(key, Get(entries, key).value)
  {
    j := Find(entries, key).value;
  }

  /** The first inline table of an array at or after position `i`. */
  function FirstInlineTableFrom(items: seq<Node>, i: nat): (r: Option<nat>)
    requires i <= |items|
    ensures r.Some? ==>
      i <= r.value < |items| && AsInlineTable(items[r.value]).Some?
      && forall j :: i <= j < r.value ==> AsInlineTable(items[j]).None?
    ensures r.None? ==> forall j :: i <= j < |items| ==> AsInlineTable(items[j]).None?
    decreases |items| - i
  {
    if i == |items| then None
    else if AsInlineTable(items[i]).Some? then Some(i)
    else FirstInlineTableFrom(items, i + 1)
  }

  /** The first inline table of an array, by position. */
  function FirstInlineTable(items: seq<Node>): (r: Option<nat>)
    ensures r.Some? ==>
      r.value < |items| && AsInlineTable(items[r.value]).Some?
      && forall j :: 0 <= j < r.value ==> AsInlineTable(items[j]).None?
    ensures r.None? ==> forall j :: 0 <= j < |items| ==> AsInlineTable(items[j]).None?
  {
    FirstInlineTableFrom(items, 0)
  }

  /** The element `update_gap_side` edits: index 1 when it is an inline table, else the first inline table. */
  function ChosenTable(items: seq<Node>): Option<nat> {
    if |items| > 1 && AsInlineTable(items[1]).Some? then Some(1) else FirstInlineTable(items)
  }

  function NoInlineTableMessage(side: string): string {
    "gaps.outer." + side + " has no inline tables; expected entries like { monitor.main = 0 }"
  }

  /** The `[gaps.outer]` table of a document, with the errors of `update_gap_side`. */
  function OuterTable(document: seq<Entry>): Result<seq<Entry>, string> {
    var gaps := AsTable(Get(document, "gaps"));
    if gaps.None? then Err("Missing [gaps] table")
    else
      var outer := AsTable(Get(gaps.value, "outer"));
      if outer.None? then Err("Missing [gaps.outer] table") else Ok(outer.value)
  }

  /** The document with the array `gaps.outer.<side>` holding `items`. */
  function WithSide(document: seq<Entry>, side: string, items: seq<Node>): seq<Entry>
    requires OuterTable(document).Ok?
  {
    var gaps := AsTable(Get(document, "gaps")).value;
    var outer := OuterTable(document).value;
    Set(document, "gaps", Table(Set(gaps, "outer", Table(Set(outer, side, Array(items)), false)), false))
  }

  /** The document after `update_gap_side`, or its error. */
  function UpdatedSide(document: seq<Entry>, side: string, gap: int): Result<seq<Entry>, string> {
    var outer := OuterTable(document);
    if outer.Err? then Err(outer.error)
    else
      var arr := SideArray(outer.value, side);
      if arr.Err? then Err(arr.error)
      else
        var items := arr.value;
        var index := ChosenTable(items);
        if index.None? then Err(NoInlineTableMessage(side))
        else
          var edited := UpdateMonitorEntry(AsInlineTable(items[index.value]).value, gap);
          if edited.Err? then Err(edited.error)
          else Ok(WithSide(document, side, items[index.value := Table(edited.value, true)]))
  }

  /** `update_gap_side` fails exactly when `[gaps]`, `[gaps.outer]` or the side array is missing or of
      the wrong kind, when the array has no inline table, or when the chosen table has a `monitor` key
      that is not an inline table. */
  lemma UpdatedSideFails(document: seq<Entry>, side: string, gap: int)
    ensures UpdatedSide(document, side, gap).Err? <==>
      || OuterTable(document).Err?
      || SideArray(OuterTable(document).value, side).Err?
      || (forall j :: 0 <= j < |SideArray(OuterTable(document).value, side).value| ==>
            AsInlineTable(SideArray(OuterTable(document).value, side).value[j]).None?)
      || (var items := SideArray(OuterTable(document).value, side).value;
          var t := AsInlineTable(items[ChosenTable(items).value]).value;
          Get(t, "monitor").Some? && AsInlineTable(Get(t, "monitor").value).None?)
  {
    if OuterTable(document).Ok? && SideArray(OuterTable(document).value, side).Ok? {
      var items := SideArray(OuterTable(document).value, side).value;
      if ChosenTable(items).None? {
        if |items| > 1 {
          assert AsInlineTable(items[1]).None?;
        }
      } else {
        assert AsInlineTable(items[ChosenTable(items).value]).Some?;
      }
    }
  }

  /** On success exactly one element of the side array is replaced, the chosen one (index 1 when it is an
      inline table, otherwise the first inline table), by its edited form; every other element, every
      other key of `[gaps.outer]`, every other key of `[gaps]` and every other top-level key is as it was. */
  lemma UpdatedSideEffect(document: seq<Entry>, side: string, gap: int)
    requires UpdatedSide(document, side, gap).Ok?
    ensures var items := SideArray(OuterTable(document).value, side).value;
      var after := UpdatedSide(document, side, gap).value;
      var i := ChosenTable(items).value;
      && OuterTable(after).Ok?
      && SideArray(OuterTable(after).value, side) == Ok(items[i := Table(UpdateMonitorEntry(AsInlineTable(items[i]).value, gap).value, true)])
      && (|items| > 1 && AsInlineTable(items[1]).Some? ==> i == 1)
      && (!(|items| > 1 && AsInlineTable(items[1]).Some?) ==>
            forall j :: 0 <= j < i ==> AsInlineTable(items[j]).None?)
      && (forall k :: k != side ==> Get(OuterTable(after).value, k) == Get(OuterTable(document).value, k))
      && (forall k :: k != "outer" ==> Get(AsTable(Get(after, "gaps")).value, k) == Get(AsTable(Get(document, "gaps")).value, k))
      && (forall k :: k != "gaps" ==> Get(after, k) == Get(document, k))
  {
    var items := SideArray(OuterTable(document).value, side).value;
    var i := ChosenTable(items).value;
    WithSideReads(document, side, items[i := Table(UpdateMonitorEntry(AsInlineTable(items[i]).value, gap).value, true)]);
  }

  lemma WithSideReads(document: seq<Entry>, side: string, items: seq<Node>)
    requires OuterTable(document).Ok?
    ensures OuterTable(WithSide(document, side, items)).Ok?
    ensures var outer := OuterTable(WithSide(document, side, items)).value;
      Get(outer, side) == Some(Array(items))
      && forall k :: k != side ==> Get(outer, k) == Get(OuterTable(document).value, k)
    ensures var after := WithSide(document, side, items);
      && AsTable(Get(after, "gaps")).Some?
      && (forall k :: k != "outer" ==> Get(AsTable(Get(after, "gaps")).value, k) == Get(AsTable(Get(document, "gaps")).value, k))
      && (forall k :: k != "gaps" ==> Get(after, k) == Get(document, k))
  {
    var gaps := AsTable(Get(document, "gaps")).value;
    var outer := OuterTable(document).value;
    var newOuter := Set(outer, side, Array(items));
    var newGaps := Set(gaps, "outer", Table(newOuter, false));
    assert AsTable(Get(WithSide(document, side, items), "gaps")) == Some(newGaps);
    assert AsTable(Get(newGaps, "outer")) == Some(newOuter);
  }

  /** The document after `update_gaps`: right side, then left side, with the same gap. */
  function UpdatedGaps(document: seq<Entry>, gap: int): Result<seq<Entry>, string> {
    var right := UpdatedSide(document, "right", gap);
    if right.Err? then Err(right.error) else UpdatedSide(right.value, "left", gap)
  }

  /** A document being edited in place (toml_edit's `DocumentMut`). */
  class ConfigDocument {
    var root: seq<Entry>

    constructor (root: seq<Entry>)
      ensures this.root == root
    {
      this.root := root;
    }

    /** `update_gap_side`. */
    method UpdateGapSide(side: string, gap: int) returns (err: Option<string>)
      modifies this
      ensures var r := UpdatedSide(old(root), side, gap);
        (r.Ok? ==> err == None && root == r.value) && (r.Err? ==> err == Some(r.error) && root == old(root))
    {
      var document := root;
      var outer := OuterTable(document);
      if outer.Err? {
        return Some(outer.error);
      }
      var arr := SideArray(outer.value, side);
      if arr.Err? {
        return Some(arr.error);
      }
      var items := arr.value;
      var chosen := ChooseTable(items);
      if chosen.None? {
        return Some(NoInlineTableMessage(side));
      }
      var index := chosen.value;
      var edited := UpdateMonitorEntry(AsInlineTable(items[index]).value, gap);
      if edited.Err? {
        return Some(edited.error);
      }
      root := WithSide(document, side, items[index := Table(edited.value, true)]);
      err := None;
    }

    /** `update_gaps`: the right side first; a failure there leaves the left side alone, and a failure on
      the left leaves the right side edited in this in-memory document (which is then not written). */
    method UpdateGaps(gap: int) returns (err: Option<string>)
      modifies this
      ensures var r := UpdatedGaps(old(root), gap);
        (r.Ok? ==> err == None && root == r.value) && (r.Err? ==> err == Some(r.error))
    {
      err := UpdateGapSide("right", gap);
      if err.Some? {
        return;
      }
      err := UpdateGapSide("left", gap);
    }
  }

  /** The element `update_gap_side` edits, with the `find_map` search for the first inline table as a loop. */
  method ChooseTable(items: seq<Node>) returns (index: Option<nat>)
    ensures index == ChosenTable(items)
  {
    if |items| > 1 && AsInlineTable(items[1]).Some? {
      return Some(1);
    }
    var k := 0;
    while k < |items| && AsInlineTable(items[k]).None?
      invariant k <= |items|
      invariant forall j :: 0 <= j < k ==> AsInlineTable(items[j]).None?
    {
      k := k + 1;
    }
    if k == |items| {
      return None;
    }
    index := Some(k);
  }

  /** What `update_config` reads. */
  datatype ConfigFile = Unreadable(reason: string) | Unparsable(reason: string) | Parsed(document: seq<Entry>)

  /** `update_config`: the document to write, or the error. */
  function UpdateConfig(path: string, file: ConfigFile, gap: int): (r: Result<seq<Entry>, string>)
    ensures file.Parsed? && r.Ok? ==> r == UpdatedGaps(file.document, gap)
  {
    match file
    case Unreadable(reason) => Err("Failed to read config " + path + ": " + reason)
    case Unparsable(reason) => Err("Failed to parse TOML: " + reason)
    case Parsed(document) =>
      var updated := UpdatedGaps(document, gap);
      if updated.Err? then Err("Failed to update gaps in " + path + ": " + updated.error) else updated
  }

  /** The document of the `update_gaps_only_updates_index_one` unit test, as toml_edit reads it. */
  function UpdateTestDocument(): seq<Entry> {
    var side := Array(UpdateTestSideBefore());
    var inner := Table([Entry("horizontal", Int(20)), Entry("vertical", Int(20))], false);
    var outer := Table([Entry("right", side), Entry("left", side), Entry("bottom", Int(10)), Entry("top", Int(10))], false);
    [Entry("gaps", Table([Entry("inner", inner), Entry("outer", outer)], false))]
  }

  /** Both sides end up with `main = 111` in their second element, with no `monitor.main` key added, and
      the first and last elements as they were. */
  lemma UpdateTestExample()
    ensures var after := UpdatedGaps(UpdateTestDocument(), 111);
      && after.Ok?
      && OuterTable(after.value).Ok?
      && var outer := OuterTable(after.value).value;
      && SideArray(outer, "right") == Ok(UpdateTestSide())
      && SideArray(outer, "left") == Ok(UpdateTestSide())
  {
    var doc := UpdateTestDocument();
    TestSideStep(doc, "right");
    var mid := UpdatedSide(doc, "right", 111).value;
    TestSideStep(mid, "left");
  }

  /** One side of the unit test: the side holds the test's array, and is edited into the expected one. */
  lemma TestSideStep(document: seq<Entry>, side: string)
    requires OuterTable(document).Ok? && SideArray(OuterTable(document).value, side) == Ok(UpdateTestSideBefore())
    ensures UpdatedSide(document, side, 111).Ok?
    ensures var after := UpdatedSide(document, side, 111).value;
      && OuterTable(after).Ok?
      && SideArray(OuterTable(after).value, side) == Ok(UpdateTestSide())
      && forall k :: k != side ==> Get(OuterTable(after).value, k) == Get(OuterTable(document).value, k)
  {
    var items := UpdateTestSideBefore();
    assert ChosenTable(items) == Some(1);
    var t := AsInlineTable(items[1]).value;
    var m := [Entry("main", Int(300))];
    assert t == [Entry("monitor", Table(m, true))] && t[1..] == [] && m[1..] == [];
    assert [Entry("main", Int(111))] + m[1..] == [Entry("main", Int(111))];
    assert Set(m, "main", Int(111)) == [Entry("main", Int(111))];
    var e := Entry("monitor", Table([Entry("main", Int(111))], true));
    assert [e] + t[1..] == [e];
    assert Set(t, "monitor", e.value) == [e];
    assert UpdateMonitorEntry(t, 111) == Ok([Entry("monitor", Table([Entry("main", Int(111))], true))]);
    assert items[1 := Table([Entry("monitor", Table([Entry("main", Int(111))], true))], true)] == UpdateTestSide();
    UpdatedSideEffect(document, side, 111);
  }

  /** The side array of the unit test's document. */
  function UpdateTestSideBefore(): seq<Node> {
    [ Table([Entry("monitor", Table([Entry("DeskPad Display", Int(0))], true))], true),
      Table([Entry("monitor", Table([Entry("main", Int(300))], true))], true),
      Int(24)]
  }

  /** The expected side array after the test's edit. */
  function UpdateTestSide(): seq<Node> {
    [ Table([Entry("monitor", Table([Entry("DeskPad Display", Int(0))], true))], true),
      Table([Entry("monitor", Table([Entry("main", Int(111))], true))], true),
      Int(24)]
  }
}
