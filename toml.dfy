/** A parsed TOML document as a tree. Parsing and printing TOML text are not part of this model:
    the decoders' output is taken as given. Keys are literal strings; how a decoder splits dotted keys
    such as `monitor.main` into nested tables is the decoder's business. */
module Toml {
  import opened Wrappers

  datatype Node =
    | Int(i: int)                            // an integer value
    | Float(x: real)                         // a floating-point value
    | Scalar                                 // a string, boolean or date-time: values the core never reads
    | Array(items: seq<Node>)                // an array value `[a, b]` (Go `[]any`, toml_edit `Value::Array`)
    | TableArray(tables: seq<Node>)          // an array of tables `[[t]]` (Go `[]map[string]any`, toml_edit `Item::ArrayOfTables`)
    | Table(entries: seq<Entry>, inline: bool)  // a table; `inline` for `{ ... }` (toml_edit `Value::InlineTable`)

  datatype Entry = Entry(key: string, value: Node)

  /** The position of the first entry named `key`, searching from position `i` on. */
  function FindFrom(entries: seq<Entry>, key: string, i: nat): (r: Option<nat>)
    requires i <= |entries|
    ensures r.Some? ==> i <= r.value < |entries| && entries[r.value].key == key
    ensures r.Some? ==> forall j :: i <= j < r.value ==> entries[j].key != key
    ensures r.None? ==> forall j :: i <= j < |entries| ==> entries[j].key != key
    decreases |entries| - i
  {
    if i == |entries| then None
    else if entries[i].key == key then Some(i)
    else FindFrom(entries, key, i + 1)
  }

  /** The position of the first entry named `key`. */
  function Find(entries: seq<Entry>, key: string): (r: Option<nat>)
    ensures r.Some? ==> r.value < |entries| && entries[r.value].key == key
    ensures r.Some? ==> forall j :: 0 <= j < r.value ==> entries[j].key != key
    ensures r.None? ==> forall j :: 0 <= j < |entries| ==> entries[j].key != key
  {
    FindFrom(entries, key, 0)
  }

  /** Two entry lists with the same keys, position by position, find every key at the same place. */
  lemma FindSameKeys(a: seq<Entry>, b: seq<Entry>)
    requires |a| == |b| && forall j :: 0 <= j < |a| ==> a[j].key == b[j].key
    ensures forall k :: Find(a, k) == Find(b, k)
  {
    forall k
      ensures Find(a, k) == Find(b, k)
    {
      var x, y := Find(a, k), Find(b, k);
      if x.Some? {
        assert b[x.value].key == k;
      }
    }
  }

  /** Appending an entry does not move any key already present, and finds its own key last when it was absent. */
  lemma FindAppend(a: seq<Entry>, e: Entry)
    ensures forall k :: k != e.key ==> Find(a + [e], k) == Find(a, k)
    ensures Find(a, e.key).None? ==> Find(a + [e], e.key) == Some(|a|)
  {
    var b := a + [e];
    forall k | k != e.key
      ensures Find(b, k) == Find(a, k)
    {
      var x, y := Find(b, k), Find(a, k);
      if y.Some? {
        assert b[y.value] == a[y.value];
      }
    }
    if Find(a, e.key).None? {
      assert b[|a|] == e;
    }
  }

  /** The value of the first entry named `key`. */
  function Get(entries: seq<Entry>, key: string): (r: Option<Node>)
    ensures r.Some? <==> exists i :: 0 <= i < |entries| && entries[i].key == key
  {
    var i := Find(entries, key);
    if i.Some? then Some(entries[i.value].value) else None
  }

  /** Assigns `v` to `key`: the first entry of that name gets the new value in place, otherwise the entry
      is appended (a Go map assignment; toml_edit's `insert`). */
  function Set(entries: seq<Entry>, key: string, v: Node): (r: seq<Entry>)
    ensures Get(r, key) == Some(v)
    ensures forall k :: k != key ==> Get(r, k) == Get(entries, k)
    ensures Get(entries, key).Some? ==> |r| == |entries| && forall i :: 0 <= i < |r| ==> r[i].key == entries[i].key
    ensures Get(entries, key).None? ==> r == entries + [Entry(key, v)]
  {
    var i := Find(entries, key);
    if i.Some? then
      var r := entries[i.value := Entry(key, v)];
      FindSameKeys(r, entries);
      r
    else
      FindAppend(entries, Entry(key, v));
      entries + [Entry(key, v)]
  }

  /** Assigning a key the value it already has changes nothing. */
  lemma SetSame(entries: seq<Entry>, key: string, v: Node)
    requires Get(entries, key) == Some(v)
    ensures Set(entries, key, v) == entries
  {
    var i := Find(entries, key).value;
    assert entries[i] == Entry(key, v);
  }

  /** The entries of a table, of either kind (a Go `.(map[string]any)` assertion). */
  function AnyTable(v: Option<Node>): Option<seq<Entry>> {
    if v.Some? && v.value.Table? then Some(v.value.entries) else None
  }

  /** The entries of a `[table]`, not an inline one (toml_edit's `Item::as_table`). */
  function AsTable(v: Option<Node>): Option<seq<Entry>> {
    if v.Some? && v.value.Table? && !v.value.inline then Some(v.value.entries) else None
  }

  /** The entries of an inline table `{ ... }` (toml_edit's `Value::as_inline_table`). */
  function AsInlineTable(v: Node): Option<seq<Entry>> {
    if v.Table? && v.inline then Some(v.entries) else None
  }
}
