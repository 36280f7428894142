/** The Go side of the gap configuration (internal/config/aerospace.go): reading the gap summary out of
    the decoded aerospace.toml tree and rewriting one monitor's entries in `gaps.outer.left/right`. */
module GoConfig {
  import opened Wrappers
  import opened Toml

  /** A gap value configured for one monitor. */
  datatype MonitorGap = MonitorGap(name: string, value: int)

  /** The gap settings a config holds (Go's `Summary`). */
  datatype Summary = Summary(
    innerHorizontal: Option<int>, innerVertical: Option<int>,
    outerTop: Option<int>, outerBottom: Option<int>,
    leftGaps: seq<MonitorGap>, rightGaps: seq<MonitorGap>)

  const EmptySummary: Summary := Summary(None, None, None, None, [], [])

  /** Go's conversion `int64(f)` of a float: truncation toward zero. */
  function Truncate(x: real): (r: int)
    ensures x >= 0.0 ==> r as real <= x < r as real + 1.0
    ensures x < 0.0 ==> r as real - 1.0 < x <= r as real
  {
    if x >= 0.0 then x.Floor else -((-x).Floor)
  }

  /** The integer a numeric value stands for (the `int64` and `float64` cases of the type switches). */
  function Numeric(v: Node): Option<int> {
    match v
    case Int(i) => Some(i)
    case Float(x) => Some(Truncate(x))
    case _ => None
  }

  /** `extractInt64`: a missing key and a non-numeric value give nil. */
  function ExtractInt64(v: Option<Node>): (r: Option<int>)
    ensures r.Some? <==> v.Some? && (v.value.Int? || v.value.Float?)
    ensures v.Some? && v.value.Int? ==> r == Some(v.value.i)
  {
    if v.None? then None else Numeric(v.value)
  }

  /** `extractScalarGap`: a number is itself; an array gives the scalar gap of its last element that
      has one, looking into nested arrays. */
  function ExtractScalarGap(v: Node): Option<int>
    decreases v, 1
  {
    match v
    case Array(items) => LastScalarGap(items)
    case _ => Numeric(v)
  }

  function LastScalarGap(items: seq<Node>): Option<int>
    decreases items, 0
  {
    if items == [] then None
    else
      var last := ExtractScalarGap(items[|items| - 1]);
      if last.Some? then last else LastScalarGap(items[..|items| - 1])
  }

  /** The scalar gap of an array is that of its last element having one, and every later element has none. */
  lemma {:induction false} LastScalarGapIsLast(items: seq<Node>)
    ensures LastScalarGap(items).None? <==> forall j :: 0 <= j < |items| ==> ExtractScalarGap(items[j]).None?
    ensures LastScalarGap(items).Some? ==>
      exists i :: 0 <= i < |items| && ExtractScalarGap(items[i]) == LastScalarGap(items)
        && forall j :: i < j < |items| ==> ExtractScalarGap(items[j]).None?
  {
    if items != [] {
      var init := items[..|items| - 1];
      LastScalarGapIsLast(init);
      assert forall j :: 0 <= j < |init| ==> init[j] == items[j];
      if ExtractScalarGap(items[|items| - 1]).None? && LastScalarGap(init).Some? {
        var i :| 0 <= i < |init| && ExtractScalarGap(init[i]) == LastScalarGap(init)
          && forall j :: i < j < |init| ==> ExtractScalarGap(init[j]).None?;
        assert ExtractScalarGap(items[i]) == LastScalarGap(items);
      }
    }
  }

  /** `asAnySlice`: both kinds of array, anything else refused. */
  function AsAnySlice(v: Option<Node>): (r: Option<seq<Node>>)
    ensures r.Some? <==> v.Some? && (v.value.Array? || v.value.TableArray?)
  {
    match v
    case Some(Array(items)) => Some(items)
    case Some(TableArray(tables)) => Some(tables)
    case _ => None
  }

  /** The `monitor` table of an array element that is a table and has one. */
  function ItemMonitor(item: Node): Option<seq<Entry>> {
    if item.Table? then AnyTable(Get(item.entries, "monitor")) else None
  }

  /** The numeric entries among the first `n` of a `monitor` table, in entry order. */
  function EntryGapsTo(m: seq<Entry>, n: nat): seq<MonitorGap>
    requires n <= |m|
  {
    if n == 0 then []
    else
      var e := m[n - 1];
      EntryGapsTo(m, n - 1) + if Numeric(e.value).Some? then [MonitorGap(e.key, Numeric(e.value).value)] else []
  }

  /** The numeric entries of a `monitor` table, in entry order. */
  function EntryGaps(m: seq<Entry>): seq<MonitorGap> {
    EntryGapsTo(m, |m|)
  }

  function ItemGaps(item: Node): seq<MonitorGap> {
    if ItemMonitor(item).Some? then EntryGaps(ItemMonitor(item).value) else []
  }

  /** The gaps of the first `n` elements of a side array, in order. */
  function MonitorGapsTo(items: seq<Node>, n: nat): seq<MonitorGap>
    requires n <= |items|
  {
    if n == 0 then [] else MonitorGapsTo(items, n - 1) + ItemGaps(items[n - 1])
  }

  function MonitorGapsOf(items: seq<Node>): seq<MonitorGap> {
    MonitorGapsTo(items, |items|)
  }

  /** What `extractMonitorGaps` collects from an optional side value. */
  function MonitorGapsIn(v: Option<Node>): seq<MonitorGap> {
    if AsAnySlice(v).Some? then MonitorGapsOf(AsAnySlice(v).value) else []
  }

  /** The entry `e` of a `monitor` table records the gap `g`. */
  predicate EntryGives(e: Entry, g: MonitorGap) {
    e.key == g.name && Numeric(e.value) == Some(g.value)
  }

  /** The element `item` of a side array records the gap `g`. */
  predicate ItemGives(item: Node, g: MonitorGap) {
    ItemMonitor(item).Some? && exists j :: 0 <= j < |ItemMonitor(item).value| && EntryGives(ItemMonitor(item).value[j], g)
  }

  lemma {:induction false} EntryGapsToMembers(m: seq<Entry>, g: MonitorGap, n: nat)
    requires n <= |m|
    ensures g in EntryGapsTo(m, n) <==> exists j :: 0 <= j < n && EntryGives(m[j], g)
  {
    if n > 0 {
      EntryGapsToMembers(m, g, n - 1);
    }
  }

  lemma EntryGapsMembers(m: seq<Entry>, g: MonitorGap)
    ensures g in EntryGaps(m) <==> exists j :: 0 <= j < |m| && EntryGives(m[j], g)
  {
    EntryGapsToMembers(m, g, |m|);
  }

  lemma {:induction false} MonitorGapsToMembers(items: seq<Node>, g: MonitorGap, n: nat)
    requires n <= |items|
    ensures g in MonitorGapsTo(items, n) <==> exists i :: 0 <= i < n && ItemGives(items[i], g)
  {
    if n > 0 {
      var last := items[n - 1];
      MonitorGapsToMembers(items, g, n - 1);
      if ItemMonitor(last).Some? {
        EntryGapsMembers(ItemMonitor(last).value, g);
      }
      assert g in ItemGaps(last) <==> ItemGives(last, g);
    }
  }

  /** `extractMonitorGaps` reports exactly the numeric entries of the `monitor` tables of the array's
      table elements: other elements, elements without a `monitor` table and non-numeric values are skipped. */
  lemma MonitorGapsMembers(items: seq<Node>, g: MonitorGap)
    ensures g in MonitorGapsOf(items) <==> exists i :: 0 <= i < |items| && ItemGives(items[i], g)
  {
    MonitorGapsToMembers(items, g, |items|);
  }

  /** `extractMonitorGaps`, with its loops. Go visits a `monitor` map in an unspecified order; here the
      table's entry order stands for it, and `MonitorGapsMembers` holds whatever the order. */
  method ExtractMonitorGaps(v: Option<Node>) returns (gaps: seq<MonitorGap>)
    ensures gaps == MonitorGapsIn(v)
  {
    var arr := AsAnySlice(v);
    if arr.None? {
      return [];
    }
    var items := arr.value;
    gaps := [];
    for i := 0 to |items|
      invariant gaps == MonitorGapsTo(items, i)
    {
      var item := items[i];
      if !item.Table? {
        continue;
      }
      var monitor := AnyTable(Get(item.entries, "monitor"));
      if monitor.None? {
        continue;
      }
      gaps := AppendEntryGaps(gaps, monitor.value);
    }
  }

  /** The inner loop of `extractMonitorGaps`, over the entries of one `monitor` table. */
  method AppendEntryGaps(gaps: seq<MonitorGap>, m: seq<Entry>) returns (r: seq<MonitorGap>)
    ensures r == gaps + EntryGaps(m)
  {
    r := gaps;
    for j := 0 to |m|
      invariant r == gaps + EntryGapsTo(m, j)
    {
      var value := Numeric(m[j].value);
      if value.None? {
        continue;
      }
      r := r + [MonitorGap(m[j].key, value.value)];
    }
  }

  /** The gap summary of a decoded config (what `Summary` computes once the config is loaded). */
  function SummaryOf(parsed: seq<Entry>): (s: Summary)
    ensures AnyTable(Get(parsed, "gaps")).None? ==> s == EmptySummary
  {
    var gaps := AnyTable(Get(parsed, "gaps"));
    if gaps.None? then EmptySummary
    else
      var inner := AnyTable(Get(gaps.value, "inner"));
      var outer := AnyTable(Get(gaps.value, "outer"));
      Summary(
        if inner.Some? then ExtractInt64(Get(inner.value, "horizontal")) else None,
        if inner.Some? then ExtractInt64(Get(inner.value, "vertical")) else None,
        if outer.Some? && Get(outer.value, "top").Some? then ExtractScalarGap(Get(outer.value, "top").value) else None,
        if outer.Some? && Get(outer.value, "bottom").Some? then ExtractScalarGap(Get(outer.value, "bottom").value) else None,
        if outer.Some? then MonitorGapsIn(Get(outer.value, "left")) else [],
        if outer.Some? then MonitorGapsIn(Get(outer.value, "right")) else [])
  }

  // ---- monitor names ----

  function Names(gs: seq<MonitorGap>): (r: seq<string>)
    ensures |r| == |gs| && forall i :: 0 <= i < |gs| ==> r[i] == gs[i].name
  {
    if gs == [] then [] else Names(gs[..|gs| - 1]) + [gs[|gs| - 1].name]
  }

  /** The first occurrence of each name, in order. */
  function Dedup(s: seq<string>): seq<string> {
    if s == [] then []
    else
      var d := Dedup(s[..|s| - 1]);
      if s[|s| - 1] in d then d else d + [s[|s| - 1]]
  }

  /** One more name is kept exactly when it is new. */
  lemma DedupSnoc(s: seq<string>, x: string)
    ensures Dedup(s + [x]) == if x in Dedup(s) then Dedup(s) else Dedup(s) + [x]
  {
    assert (s + [x])[..|s|] == s;
  }

  /** The same, for one more name of a list after a fixed prefix. */
  lemma DedupStep(prefix: seq<string>, ns: seq<string>, i: nat)
    requires i < |ns|
    ensures var d := Dedup(prefix + ns[..i]);
      Dedup(prefix + ns[..i + 1]) == if ns[i] in d then d else d + [ns[i]]
  {
    assert prefix + ns[..i + 1] == (prefix + ns[..i]) + [ns[i]];
    DedupSnoc(prefix + ns[..i], ns[i]);
  }

  predicate Distinct(s: seq<string>) {
    forall i, j :: 0 <= i < j < |s| ==> s[i] != s[j]
  }

  /** `Dedup` keeps every name once and invents none. */
  lemma {:induction false} DedupSound(s: seq<string>)
    ensures Distinct(Dedup(s))
    ensures forall x :: x in Dedup(s) <==> x in s
  {
    if s != [] {
      var init := s[..|s| - 1];
      DedupSound(init);
      assert forall x :: x in init ==> x in s;
      assert s == init + [s[|s| - 1]];
    }
  }

  /** Names from the first list come first: the names of `a` are a prefix of the names of `a + b`,
      and what follows names only items of `b` missing from `a`. */
  lemma {:induction false} DedupPrefix(a: seq<string>, b: seq<string>)
    ensures |Dedup(a)| <= |Dedup(a + b)| && Dedup(a + b)[..|Dedup(a)|] == Dedup(a)
    ensures forall k :: |Dedup(a)| <= k < |Dedup(a + b)| ==> Dedup(a + b)[k] in b && Dedup(a + b)[k] !in a
  {
    if b == [] {
      assert a + b == a;
    } else {
      var b' := b[..|b| - 1];
      assert (a + b)[..|a + b| - 1] == a + b';
      DedupPrefix(a, b');
      DedupSound(a);
      DedupSound(a + b');
    }
  }

  /** `MonitorNames` once the summary is computed: each name once, left names first, then the right
      names not seen on the left. */
  method MonitorNamesOf(summary: Summary) returns (names: seq<string>)
    ensures names == Dedup(Names(summary.leftGaps) + Names(summary.rightGaps))
  {
    var seen: set<string> := {};
    names := [];
    names, seen := AddUnseenNames([], names, seen, summary.leftGaps);
    assert [] + Names(summary.leftGaps) == Names(summary.leftGaps);
    names, seen := AddUnseenNames(Names(summary.leftGaps), names, seen, summary.rightGaps);
  }

  /** One of the two loops of `MonitorNames`: each name not yet in `seen` is added to both. */
  method AddUnseenNames(ghost prefix: seq<string>, names: seq<string>, seen: set<string>, gs: seq<MonitorGap>)
    returns (names': seq<string>, seen': set<string>)
    requires names == Dedup(prefix) && forall x :: x in seen <==> x in names
    ensures names' == Dedup(prefix + Names(gs)) && forall x :: x in seen' <==> x in names'
  {
    names', seen' := names, seen;
    assert prefix + Names(gs)[..0] == prefix;
    for i := 0 to |gs|
      invariant names' == Dedup(prefix + Names(gs)[..i])
      invariant forall x :: x in seen' <==> x in names'
    {
      var g := gs[i];
      DedupStep(prefix, Names(gs), i);
      if g.name !in seen' {
        seen' := seen' + {g.name};
        names' := names' + [g.name];
      }
    }
    assert Names(gs)[..|gs|] == Names(gs);
  }

  /** The names listed are distinct and are exactly the names on either side, left ones first. */
  lemma MonitorNamesProperties(summary: Summary)
    ensures var l, r := Names(summary.leftGaps), Names(summary.rightGaps);
      var names := Dedup(l + r);
      && Distinct(names)
      && (forall x :: x in names <==> x in l || x in r)
      && |Dedup(l)| <= |names| && names[..|Dedup(l)|] == Dedup(l)
      && (forall k :: |Dedup(l)| <= k < |names| ==> names[k] !in l)
  {
    var l, r := Names(summary.leftGaps), Names(summary.rightGaps);
    DedupSound(l + r);
    DedupPrefix(l, r);
  }

  // ---- rewriting one monitor's gap ----

  /** The element is a table whose `monitor` table has an entry named `name`. */
  predicate HasMonitorKey(item: Node, name: string) {
    ItemMonitor(item).Some? && Get(ItemMonitor(item).value, name).Some?
  }

  /** An element after `monitor[name] = gap` has been applied to it where it has such an entry. */
  function UpdateItem(item: Node, name: string, gap: int): Node {
    if HasMonitorKey(item, name) then
      var mon := Get(item.entries, "monitor").value;
      Table(Set(item.entries, "monitor", Table(Set(mon.entries, name, Int(gap)), mon.inline)), item.inline)
    else item
  }

  /** The array elements of `gaps.outer.<side>`, when the path exists with the types the code asserts. */
  function SideItems(config: seq<Entry>, side: string): Option<seq<Node>> {
    var gaps := AnyTable(Get(config, "gaps"));
    if gaps.None? then None
    else
      var outer := AnyTable(Get(gaps.value, "outer"));
      if outer.None? then None else AsAnySlice(Get(outer.value, side))
  }

  /** The config with `gaps.outer.<side>` replaced by an array of the same kind holding `items`. */
  function WithSideItems(config: seq<Entry>, side: string, items: seq<Node>): seq<Entry>
    requires SideItems(config, side).Some?
  {
    var gapsNode := Get(config, "gaps").value;
    var outerNode := Get(gapsNode.entries, "outer").value;
    var sideNode := Get(outerNode.entries, side).value;
    var newSide := if sideNode.Array? then Array(items) else TableArray(items);
    Set(config, "gaps", Table(Set(gapsNode.entries, "outer", Table(Set(outerNode.entries, side, newSide), outerNode.inline)), gapsNode.inline))
  }

  function UpdateItems(items: seq<Node>, name: string, gap: int): (r: seq<Node>)
    ensures |r| == |items| && forall i :: 0 <= i < |items| ==> r[i] == UpdateItem(items[i], name, gap)
  {
    seq(|items|, i requires 0 <= i < |items| => UpdateItem(items[i], name, gap))
  }

  /** The config after `updateMonitorGapInConfig`, and its boolean result. */
  function UpdatedConfig(config: seq<Entry>, side: string, name: string, gap: int): (seq<Entry>, bool) {
    var items := SideItems(config, side);
    if items.None? then (config, false)
    else
      var updated := exists i :: 0 <= i < |items.value| && HasMonitorKey(items.value[i], name);
      (if updated then WithSideItems(config, side, UpdateItems(items.value, name, gap)) else config, updated)
  }

  /** `updateMonitorGapInConfig`, with its loop and `updated` flag. */
  method UpdateMonitorGapInConfig(config: seq<Entry>, side: string, name: string, gap: int)
    returns (result: seq<Entry>, updated: bool)
    ensures (result, updated) == UpdatedConfig(config, side, name, gap)
  {
    var gaps := AnyTable(Get(config, "gaps"));
    if gaps.None? {
      return config, false;
    }
    var outer := AnyTable(Get(gaps.value, "outer"));
    if outer.None? {
      return config, false;
    }
    var sideArray := AsAnySlice(Get(outer.value, side));
    if sideArray.None? {
      return config, false;
    }
    var newItems;
    newItems, updated := UpdateSideItems(sideArray.value, name, gap);
    result := if updated then WithSideItems(config, side, newItems) else config;
  }

  /** The loop of `updateMonitorGapInConfig` over the side array's elements. */
  method UpdateSideItems(items: seq<Node>, name: string, gap: int) returns (newItems: seq<Node>, updated: bool)
    ensures newItems == UpdateItems(items, name, gap)
    ensures updated <==> exists k :: 0 <= k < |items| && HasMonitorKey(items[k], name)
  {
    newItems := [];
    updated := false;
    for i := 0 to |items|
      invariant |newItems| == i && forall k :: 0 <= k < i ==> newItems[k] == UpdateItem(items[k], name, gap)
      invariant updated <==> exists k :: 0 <= k < i && HasMonitorKey(items[k], name)
    {
      var newItem, hit := UpdateOneItem(items[i], name, gap);
      newItems := newItems + [newItem];
      updated := updated || hit;
    }
    assert newItems == UpdateItems(items, name, gap);
  }

  /** One pass of that loop: an element that is a table with a `monitor` table naming `name` gets the gap. */
  method UpdateOneItem(item: Node, name: string, gap: int) returns (newItem: Node, hit: bool)
    ensures newItem == UpdateItem(item, name, gap) && hit == HasMonitorKey(item, name)
  {
    if !item.Table? {
      return item, false;
    }
    var monitor := AnyTable(Get(item.entries, "monitor"));
    if monitor.None? || Get(monitor.value, name).None? {
      return item, false;
    }
    var mon := Get(item.entries, "monitor").value;
    newItem := Table(Set(item.entries, "monitor", Table(Set(monitor.value, name, Int(gap)), mon.inline)), item.inline);
    hit := true;
  }

  /** Without `gaps`, `gaps.outer` as tables or `gaps.outer.<side>` as an array nothing is updated and
      the config is left as it was. */
  lemma UpdateNeedsPath(config: seq<Entry>, side: string, name: string, gap: int)
    requires SideItems(config, side).None?
    ensures UpdatedConfig(config, side, name, gap) == (config, false)
  {
  }

  /** The update reports success exactly when some element of the side array has a `monitor` table with
      the name; every such element then has the new gap under that name, with no key added, and every
      other element is as it was. Nothing outside `gaps.outer.<side>` changes: not the other top-level
      keys, not the other keys of `gaps`, not the other keys of `gaps.outer`. A failed update changes
      nothing. */
  lemma UpdateEffect(config: seq<Entry>, side: string, name: string, gap: int)
    requires SideItems(config, side).Some?
    ensures var items := SideItems(config, side).value;
      var (result, updated) := UpdatedConfig(config, side, name, gap);
      && (updated <==> exists i :: 0 <= i < |items| && HasMonitorKey(items[i], name))
      && (!updated ==> result == config)
      && (updated ==> SideItems(result, side) == Some(UpdateItems(items, name, gap)))
      && (updated ==>
            && (forall k :: k != "gaps" ==> Get(result, k) == Get(config, k))
            && AnyTable(Get(result, "gaps")).Some?
            && (forall k :: k != "outer" ==> Get(AnyTable(Get(result, "gaps")).value, k) == Get(AnyTable(Get(config, "gaps")).value, k))
            && AnyTable(Get(AnyTable(Get(result, "gaps")).value, "outer")).Some?
            && (forall k :: k != side ==>
                  Get(AnyTable(Get(AnyTable(Get(result, "gaps")).value, "outer")).value, k) ==
                  Get(AnyTable(Get(AnyTable(Get(config, "gaps")).value, "outer")).value, k)))
  {
    var items := SideItems(config, side).value;
    if exists i :: 0 <= i < |items| && HasMonitorKey(items[i], name) {
      WithSideItemsSides(config, side, side, UpdateItems(items, name, gap));
    }
  }

  /** Replacing the elements of one side gives that side the new elements and leaves every other side, every
      other key of `gaps` and every other top-level key alone. */
  lemma WithSideItemsSides(config: seq<Entry>, side: string, other: string, items: seq<Node>)
    requires SideItems(config, side).Some?
    ensures SideItems(WithSideItems(config, side, items), other) ==
      if other == side then Some(items) else SideItems(config, other)
    ensures var result := WithSideItems(config, side, items);
      (forall k :: k != "gaps" ==> Get(result, k) == Get(config, k))
      && AnyTable(Get(result, "gaps")).Some?
      && (forall k :: k != "outer" ==> Get(AnyTable(Get(result, "gaps")).value, k) == Get(AnyTable(Get(config, "gaps")).value, k))
      && AnyTable(Get(AnyTable(Get(result, "gaps")).value, "outer")).Some?
      && (forall k :: k != side ==>
            Get(AnyTable(Get(AnyTable(Get(result, "gaps")).value, "outer")).value, k) ==
            Get(AnyTable(Get(AnyTable(Get(config, "gaps")).value, "outer")).value, k))
  {
    var gapsNode := Get(config, "gaps").value;
    var outerNode := Get(gapsNode.entries, "outer").value;
    var sideNode := Get(outerNode.entries, side).value;
    var newSide := if sideNode.Array? then Array(items) else TableArray(items);
    var newOuter := Set(outerNode.entries, side, newSide);
    var newGaps := Set(gapsNode.entries, "outer", Table(newOuter, outerNode.inline));
    var result := Set(config, "gaps", Table(newGaps, gapsNode.inline));
    assert result == WithSideItems(config, side, items);
    assert AnyTable(Get(result, "gaps")) == Some(newGaps);
    assert AnyTable(Get(newGaps, "outer")) == Some(newOuter);
    if other == side {
      assert AsAnySlice(Get(newOuter, side)) == Some(items);
    } else {
      assert Get(newOuter, other) == Get(outerNode.entries, other);
    }
  }

  /** In an element that has the name, the name now maps to the gap and the `monitor` table has the
      same keys as before: the update overwrites, it never inserts. The element stays a table of the same
      kind, and its entries other than `monitor` are kept. */
  lemma UpdateItemOverwrites(item: Node, name: string, gap: int)
    requires HasMonitorKey(item, name)
    ensures var m, m' := ItemMonitor(item).value, ItemMonitor(UpdateItem(item, name, gap)).value;
      Get(m', name) == Some(Int(gap))
      && |m'| == |m| && (forall i :: 0 <= i < |m| ==> m'[i].key == m[i].key)
      && (forall k :: k != name ==> Get(m', k) == Get(m, k))
    ensures var item' := UpdateItem(item, name, gap);
      item'.Table? && item'.inline == item.inline
      && forall k :: k != "monitor" ==> Get(item'.entries, k) == Get(item.entries, k)
  {
  }

  /** Updating one side leaves the other side's elements as they were. */
  lemma UpdateKeepsOtherSide(config: seq<Entry>, side: string, other: string, name: string, gap: int)
    requires side != other
    ensures SideItems(UpdatedConfig(config, side, name, gap).0, other) == SideItems(config, other)
  {
    var items := SideItems(config, side);
    if items.Some? && exists i :: 0 <= i < |items.value| && HasMonitorKey(items.value[i], name) {
      WithSideItemsSides(config, side, other, UpdateItems(items.value, name, gap));
    }
  }

  // ---- the service object ----

  /** What reading and decoding the config file gives. */
  datatype ConfigFile = Unreadable | Undecodable | Decoded(doc: seq<Entry>)

  datatype ConfigError = ReadFailed | ParseFailed | MonitorNotFound(name: string) | NotLoaded

  function LoadedConfig(file: ConfigFile): Result<seq<Entry>, ConfigError> {
    match file
    case Unreadable => Err(ReadFailed)
    case Undecodable => Err(ParseFailed)
    case Decoded(doc) => Ok(doc)
  }

  /** `SetMonitorGaps` on a loaded config: left, then right; an error only when neither side was updated. */
  function SetMonitorGapsOn(doc: seq<Entry>, name: string, gap: int): (seq<Entry>, Option<ConfigError>) {
    var (afterLeft, left) := UpdatedConfig(doc, "left", name, gap);
    var (afterRight, right) := UpdatedConfig(afterLeft, "right", name, gap);
    (afterRight, if !left && !right then Some(MonitorNotFound(name)) else None)
  }

  /** `SetMonitorAsymmetricGaps` on a loaded config: left, then right; an error when either side was not
      updated, and the left side stays rewritten even then. */
  function SetAsymmetricGapsOn(doc: seq<Entry>, name: string, leftGap: int, rightGap: int): (seq<Entry>, Option<ConfigError>) {
    var (afterLeft, left) := UpdatedConfig(doc, "left", name, leftGap);
    var (afterRight, right) := UpdatedConfig(afterLeft, "right", name, rightGap);
    (afterRight, if !left || !right then Some(MonitorNotFound(name)) else None)
  }

  /** The symmetric update fails exactly when neither side array has an entry for the monitor. */
  lemma SetMonitorGapsFailsIff(doc: seq<Entry>, name: string, gap: int)
    ensures SetMonitorGapsOn(doc, name, gap).1.Some? <==>
      !UpdatedConfig(doc, "left", name, gap).1 && !UpdatedConfig(doc, "right", name, gap).1
  {
    UpdateKeepsOtherSide(doc, "left", "right", name, gap);
    var afterLeft := UpdatedConfig(doc, "left", name, gap).0;
    if SideItems(doc, "right").Some? {
      UpdateEffect(doc, "right", name, gap);
      UpdateEffect(afterLeft, "right", name, gap);
    }
  }

  /** The asymmetric update fails exactly when one of the side arrays has no entry for the monitor. */
  lemma SetAsymmetricGapsFailsIff(doc: seq<Entry>, name: string, leftGap: int, rightGap: int)
    ensures SetAsymmetricGapsOn(doc, name, leftGap, rightGap).1.Some? <==>
      !UpdatedConfig(doc, "left", name, leftGap).1 || !UpdatedConfig(doc, "right", name, rightGap).1
  {
    UpdateKeepsOtherSide(doc, "left", "right", name, leftGap);
    var afterLeft := UpdatedConfig(doc, "left", name, leftGap).0;
    if SideItems(doc, "right").Some? {
      UpdateEffect(doc, "right", name, rightGap);
      UpdateEffect(afterLeft, "right", name, rightGap);
    }
  }

  /** `AerospaceService`: the config is read and decoded on first use and then kept, and every
      `Set*` call rewrites the kept tree in place. `written` records what each `Write` persisted. */
  class AerospaceService {
    const file: ConfigFile
    var config: Option<seq<Entry>>
    var written: seq<seq<Entry>>

    constructor (file: ConfigFile)
      ensures this.file == file && config == None && written == []
    {
      this.file := file;
      config := None;
      written := [];
    }

    /** `loadConfig`: reads the file only while nothing is loaded. */
    method LoadConfig() returns (err: Option<ConfigError>)
      modifies this`config
      ensures old(config).Some? ==> config == old(config) && err == None
      ensures old(config).None? ==> match LoadedConfig(file)
        case Ok(doc) => config == Some(doc) && err == None
        case Err(e) => config == None && err == Some(e)
    {
      if config.Some? {
        return None;
      }
      match LoadedConfig(file)
      case Ok(doc) =>
        config := Some(doc);
        err := None;
      case Err(e) =>
        err := Some(e);
    }

    method Summary() returns (r: Result<Summary, ConfigError>)
      modifies this`config
      ensures old(config).Some? || LoadedConfig(file).Ok? ==> config.Some? && r == Ok(SummaryOf(config.value))
      ensures old(config).None? && LoadedConfig(file).Err? ==> config == None && r == Err(LoadedConfig(file).error)
    {
      var err := LoadConfig();
      if err.Some? {
        return Err(err.value);
      }
      var parsed := config.value;
      var gaps := AnyTable(Get(parsed, "gaps"));
      if gaps.None? {
        return Ok(EmptySummary);
      }
      var s := EmptySummary;
      var inner := AnyTable(Get(gaps.value, "inner"));
      if inner.Some? {
        s := s.(innerHorizontal := ExtractInt64(Get(inner.value, "horizontal")),
                innerVertical := ExtractInt64(Get(inner.value, "vertical")));
      }
      var outer := AnyTable(Get(gaps.value, "outer"));
      if outer.Some? {
        var left := ExtractMonitorGaps(Get(outer.value, "left"));
        var right := ExtractMonitorGaps(Get(outer.value, "right"));
        var top := Get(outer.value, "top");
        var bottom := Get(outer.value, "bottom");
        s := s.(outerTop := if top.Some? then ExtractScalarGap(top.value) else None,
                outerBottom := if bottom.Some? then ExtractScalarGap(bottom.value) else None,
                leftGaps := left, rightGaps := right);
      }
      r := Ok(s);
    }

    method MonitorNames() returns (r: Result<seq<string>, ConfigError>)
      modifies this`config
      ensures old(config).Some? || LoadedConfig(file).Ok? ==>
        config.Some? && r == Ok(Dedup(Names(SummaryOf(config.value).leftGaps) + Names(SummaryOf(config.value).rightGaps)))
      ensures old(config).None? && LoadedConfig(file).Err? ==> config == None && r == Err(LoadedConfig(file).error)
    {
      var s := Summary();
      if s.Err? {
        return Err(s.error);
      }
      var names := MonitorNamesOf(s.value);
      r := Ok(names);
    }

    method SetMonitorGaps(name: string, gap: int) returns (err: Option<ConfigError>)
      modifies this`config
      ensures old(config).None? && LoadedConfig(file).Err? ==> config == None && err == Some(LoadedConfig(file).error)
      ensures old(config).Some? || LoadedConfig(file).Ok? ==>
        var doc := if old(config).Some? then old(config).value else LoadedConfig(file).value;
        config == Some(SetMonitorGapsOn(doc, name, gap).0) && err == SetMonitorGapsOn(doc, name, gap).1
    {
      err := LoadConfig();
      if err.Some? {
        return;
      }
      var afterLeft, leftUpdated := UpdateMonitorGapInConfig(config.value, "left", name, gap);
      var afterRight, rightUpdated := UpdateMonitorGapInConfig(afterLeft, "right", name, gap);
      config := Some(afterRight);
      if !leftUpdated && !rightUpdated {
        return Some(MonitorNotFound(name));
      }
    }

    method SetMonitorAsymmetricGaps(name: string, leftGap: int, rightGap: int) returns (err: Option<ConfigError>)
      modifies this`config
      ensures old(config).None? && LoadedConfig(file).Err? ==> config == None && err == Some(LoadedConfig(file).error)
      ensures old(config).Some? || LoadedConfig(file).Ok? ==>
        var doc := if old(config).Some? then old(config).value else LoadedConfig(file).value;
        config == Some(SetAsymmetricGapsOn(doc, name, leftGap, rightGap).0)
        && err == SetAsymmetricGapsOn(doc, name, leftGap, rightGap).1
    {
      err := LoadConfig();
      if err.Some? {
        return;
      }
      var afterLeft, leftUpdated := UpdateMonitorGapInConfig(config.value, "left", name, leftGap);
      var afterRight, rightUpdated := UpdateMonitorGapInConfig(afterLeft, "right", name, rightGap);
      config := Some(afterRight);
      if !leftUpdated || !rightUpdated {
        return Some(MonitorNotFound(name));
      }
    }

    /** `Write`: persists the kept tree; refused when nothing was loaded. */
    method Write() returns (err: Option<ConfigError>)
      modifies this`written
      ensures config.None? ==> err == Some(NotLoaded) && written == old(written)
      ensures config.Some? ==> err == None && written == old(written) + [config.value]
    {
      if config.None? {
        return Some(NotLoaded);
      }
      written := written + [config.value];
      err := None;
    }
  }
}
