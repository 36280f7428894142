/** Expanding `~` in the configured file paths: Go's `ExpandPath` (internal/config/aerospace.go) and
    Rust's `expand_tilde` (src/util.rs). The home directory is a parameter; `None` stands for a failed
    lookup. Paths are strings with `/` as the separator. */
module Paths {
  import opened Wrappers
  import Text

  /** The `/`-separated elements of a path; a leading `/` gives a first element `""`. */
  function Split(s: string): (r: seq<string>)
    ensures |r| >= 1
  {
    if s == [] then [""]
    else if s[0] == '/' then [""] + Split(s[1..])
    else
      var rest := Split(s[1..]);
      [[s[0]] + rest[0]] + rest[1..]
  }

  /** Elements joined with `/`. */
  function JoinSlash(es: seq<string>): string {
    if es == [] then ""
    else if |es| == 1 then es[0]
    else es[0] + "/" + JoinSlash(es[1..])
  }

  /** An element that Go's `Clean` keeps as it is. */
  predicate Normal(e: string) {
    e != "" && e != "." && e != ".." && '/' !in e
  }

  /** One element of the lexical processing in Go's `path/filepath.Clean`: empty and `.` elements
      vanish, `..` removes the previous real element, is dropped at the root, and is kept otherwise. */
  function CleanStep(rooted: bool, stack: seq<string>, e: string): seq<string> {
    if e == "" || e == "." then stack
    else if e == ".." then
      if |stack| > 0 && stack[|stack| - 1] != ".." then stack[..|stack| - 1]
      else if rooted then stack
      else stack + [".."]
    else stack + [e]
  }

  function CleanElements(rooted: bool, stack: seq<string>, es: seq<string>): seq<string>
    decreases |es|
  {
    if es == [] then stack else CleanElements(rooted, CleanStep(rooted, stack, es[0]), es[1..])
  }

  /** Go's `filepath.Clean` on a Unix system. */
  function Clean(p: string): (r: string)
    ensures r != []
    ensures p != [] && p[0] == '/' ==> r[0] == '/'
  {
    if p == [] then "."
    else
      var rooted := p[0] == '/';
      var s := (if rooted then "/" else "") + JoinSlash(CleanElements(rooted, [], Split(p)));
      if s == [] then "." else s
  }

  /** Go's `filepath.Join(a, b)`: the first non-empty argument onwards, joined with `/` and cleaned;
      `""` when both are empty. */
  function GoJoin(a: string, b: string): string {
    if a != [] then Clean(a + "/" + b)
    else if b != [] then Clean(b)
    else ""
  }

  /** `ExpandPath`: only a `~/` prefix is expanded, and a failed home lookup leaves the path as it is. */
  function ExpandPath(path: string, home: Option<string>): string {
    if Text.HasPrefix(path, "~/") then
      if home.None? then path else GoJoin(home.value, path[2..])
    else path
  }

  /** Every path without the `~/` prefix, `"~"` itself included, is returned unchanged, and so is every
      path when the home directory is unknown. */
  lemma ExpandPathCases(path: string, home: Option<string>)
    ensures !Text.HasPrefix(path, "~/") || home.None? ==> ExpandPath(path, home) == path
    ensures ExpandPath("~", home) == "~"
    ensures Text.HasPrefix(path, "~/") && home.Some? && home.value != [] && home.value[0] == '/' ==>
      var r := ExpandPath(path, home);
      r != [] && r[0] == '/'
  {
  }

  /** Rust's `PathBuf::join`: an absolute argument replaces the base; otherwise a `/` is put between
      them unless the base is empty or already ends with one. */
  function RustJoin(base: string, rest: string): string {
    if rest != [] && rest[0] == '/' then rest
    else if base == [] || base[|base| - 1] == '/' then base + rest
    else base + "/" + rest
  }

  const UnableMessage := "Unable to expand ~"

  /** `expand_tilde`. */
  function ExpandTilde(path: string, home: Option<string>): Result<string, string> {
    if !Text.HasPrefix(path, "~") then Ok(path)
    else if home.None? then Err(UnableMessage)
    else if path == "~" then Ok(home.value)
    else if Text.HasPrefix(path, "~/") then Ok(RustJoin(home.value, path[2..]))
    else Err("Unsupported path expansion for '" + path + "'; use ~/ or absolute paths")
  }

  /** A path not starting with `~` is returned as it is and the home directory is not consulted; `~` is
      the home directory; `~/rest` is the home directory joined with `rest`; `~user` forms are refused;
      a failed home lookup is an error only for paths starting with `~`. */
  lemma ExpandTildeCases(path: string, home: Option<string>, other: Option<string>)
    ensures !Text.HasPrefix(path, "~") ==> ExpandTilde(path, home) == Ok(path) == ExpandTilde(path, other)
    ensures home.Some? ==> ExpandTilde("~", home) == Ok(home.value)
    ensures home.Some? && Text.HasPrefix(path, "~/") ==> ExpandTilde(path, home) == Ok(RustJoin(home.value, path[2..]))
    ensures home.Some? && |path| >= 2 && path[0] == '~' && path[1] != '/' ==> ExpandTilde(path, home).Err?
    ensures ExpandTilde(path, None).Err? <==> Text.HasPrefix(path, "~")
  {
  }

  // ---- Go and Rust agree on normal paths ----

  lemma {:induction false} SplitJoin(es: seq<string>)
    requires |es| >= 1 && forall i :: 0 <= i < |es| ==> '/' !in es[i]
    ensures Split(JoinSlash(es)) == es
    decreases |JoinSlash(es)|, |es|
  {
    if |es| > 1 {
      SplitJoin(es[1..]);
      SplitPrefix(es[0], JoinSlash(es[1..]));
    } else {
      SplitNoSlash(es[0]);
    }
  }

  lemma {:induction false} SplitNoSlash(e: string)
    requires '/' !in e
    ensures Split(e) == [e]
  {
    if e != [] {
      SplitNoSlash(e[1..]);
      assert [e[0]] + e[1..] == e;
    }
  }

  /** Splitting `e/rest` gives `e` and then the elements of `rest`. */
  lemma {:induction false} SplitPrefix(e: string, rest: string)
    requires '/' !in e
    ensures Split(e + "/" + rest) == [e] + Split(rest)
  {
    if e == [] {
      assert e + "/" + rest == "/" + rest;
      assert ("/" + rest)[1..] == rest;
    } else {
      SplitPrefix(e[1..], rest);
      assert (e + "/" + rest)[1..] == e[1..] + "/" + rest;
      assert [e[0]] + e[1..] == e;
    }
  }

  /** A leading `/` gives the empty first element. */
  lemma SplitRooted(rest: string)
    ensures Split("/" + rest) == [""] + Split(rest)
  {
    assert ("/" + rest)[1..] == rest;
  }

  lemma {:induction false} CleanNormal(stack: seq<string>, es: seq<string>)
    requires forall i :: 0 <= i < |es| ==> Normal(es[i])
    ensures CleanElements(true, stack, es) == stack + es
    decreases |es|
  {
    if es != [] {
      CleanNormal(stack + [es[0]], es[1..]);
      assert stack + [es[0]] + es[1..] == stack + es;
    }
  }

  lemma {:induction false} JoinAppend(hs: seq<string>, rs: seq<string>)
    requires |hs| >= 1 && |rs| >= 1
    ensures JoinSlash(hs) + "/" + JoinSlash(rs) == JoinSlash(hs + rs)
  {
    if |hs| > 1 {
      JoinAppend(hs[1..], rs);
      assert (hs + rs)[1..] == hs[1..] + rs;
    } else {
      assert (hs + rs)[1..] == rs;
    }
  }

  /** `Clean` leaves an absolute path made of normal elements as it is. */
  lemma CleanKeepsNormal(es: seq<string>)
    requires |es| >= 1 && forall i :: 0 <= i < |es| ==> Normal(es[i])
    ensures Clean("/" + JoinSlash(es)) == "/" + JoinSlash(es)
  {
    var p := "/" + JoinSlash(es);
    assert p != [] && p[0] == '/';
    SplitJoin(es);
    SplitRooted(JoinSlash(es));
    CleanKept(es);
    assert CleanElements(true, [], Split(p)) == es;
  }

  lemma CleanKept(es: seq<string>)
    requires forall i :: 0 <= i < |es| ==> Normal(es[i])
    ensures CleanElements(true, [], [""] + es) == es
  {
    assert ([""] + es)[1..] == es;
    CleanNormal([], es);
    assert [] + es == es;
  }

  /** For a home directory and a rest made of normal elements, Go's `ExpandPath` and Rust's
      `expand_tilde` give the same path; they differ only where Go's cleaning rewrites `.`, `..` or
      repeated separators. */
  lemma ExpansionsAgree(hs: seq<string>, rs: seq<string>)
    requires |hs| >= 1 && forall i :: 0 <= i < |hs| ==> Normal(hs[i])
    requires |rs| >= 1 && forall i :: 0 <= i < |rs| ==> Normal(rs[i])
    ensures var home := "/" + JoinSlash(hs);
      var path := "~/" + JoinSlash(rs);
      ExpandTilde(path, Some(home)) == Ok(ExpandPath(path, Some(home)))
  {
    var home := "/" + JoinSlash(hs);
    var rest := JoinSlash(rs);
    var path := "~/" + rest;
    assert path[2..] == rest;
    assert Text.HasPrefix(path, "~/") && Text.HasPrefix(path, "~");
    GoJoinNormal(hs, rs);
    RustJoinNormal(hs, rs);
  }

  /** Go's join of such a home and rest only puts a `/` between them. */
  lemma GoJoinNormal(hs: seq<string>, rs: seq<string>)
    requires |hs| >= 1 && forall i :: 0 <= i < |hs| ==> Normal(hs[i])
    requires |rs| >= 1 && forall i :: 0 <= i < |rs| ==> Normal(rs[i])
    ensures GoJoin("/" + JoinSlash(hs), JoinSlash(rs)) == "/" + JoinSlash(hs) + "/" + JoinSlash(rs)
  {
    JoinAppend(hs, rs);
    CleanKeepsNormal(hs + rs);
    ConcatAssoc("/", JoinSlash(hs), "/", JoinSlash(rs));
  }

  /** So does Rust's. */
  lemma RustJoinNormal(hs: seq<string>, rs: seq<string>)
    requires |hs| >= 1 && forall i :: 0 <= i < |hs| ==> Normal(hs[i])
    requires |rs| >= 1 && forall i :: 0 <= i < |rs| ==> Normal(rs[i])
    ensures RustJoin("/" + JoinSlash(hs), JoinSlash(rs)) == "/" + JoinSlash(hs) + "/" + JoinSlash(rs)
  {
    NormalNotSlash(rs[0]);
    NormalLast(hs);
    var home := "/" + JoinSlash(hs);
    assert home[|home| - 1] == JoinSlash(hs)[|JoinSlash(hs)| - 1];
  }

  lemma ConcatAssoc(a: string, b: string, c: string, d: string)
    ensures a + b + c + d == a + (b + c + d)
  {
  }

  lemma NormalNotSlash(e: string)
    requires Normal(e)
    ensures e != [] && e[0] != '/'
  {
  }

  lemma {:induction false} NormalLast(es: seq<string>)
    requires |es| >= 1 && forall i :: 0 <= i < |es| ==> Normal(es[i])
    ensures var j := JoinSlash(es); j != [] && j[|j| - 1] != '/' && j[0] != '/'
  {
    if |es| > 1 {
      NormalLast(es[1..]);
    }
  }

  /** The two disagree once the rest is not normal: Go cleans `~/a/../b` to `<home>/b`, Rust keeps
      `<home>/a/../b`. */
  lemma ExpansionsDiffer(h: string, a: string, b: string)
    requires Normal(h) && Normal(a) && Normal(b)
    ensures var rest := JoinSlash([a, "..", b]);
      && ExpandPath("~/" + rest, Some("/" + h)) == "/" + JoinSlash([h, b])
      && ExpandTilde("~/" + rest, Some("/" + h)) == Ok("/" + h + "/" + rest)
  {
    var rest := JoinSlash([a, "..", b]);
    var path := "~/" + rest;
    assert path[2..] == rest;
    assert Text.HasPrefix(path, "~/") && Text.HasPrefix(path, "~");
    GoJoinDotDot(h, a, b);
    NormalNotSlash(a);
    assert rest[0] == a[0];
    assert ("/" + h)[|"/" + h| - 1] == h[|h| - 1];
  }

  /** Go's side of that example: the joined path is cleaned. */
  lemma GoJoinDotDot(h: string, a: string, b: string)
    requires Normal(h) && Normal(a) && Normal(b)
    ensures GoJoin("/" + h, JoinSlash([a, "..", b])) == "/" + JoinSlash([h, b])
  {
    var rest := JoinSlash([a, "..", b]);
    var es := [h, a, "..", b];
    JoinAppend([h], [a, "..", b]);
    assert [h] + [a, "..", b] == es;
    ConcatAssoc("/", h, "/", rest);
    SplitJoin(es);
    SplitRooted(JoinSlash(es));
    CleanDotDot(h, a, b);
  }

  /** The element steps of that example. */
  lemma CleanDotDot(h: string, a: string, b: string)
    requires Normal(h) && Normal(a) && Normal(b)
    ensures CleanElements(true, [], ["", h, a, "..", b]) == [h, b]
  {
    var es: seq<string> := ["", h, a, "..", b];
    assert es[1..] == [h, a, "..", b] && CleanStep(true, [], "") == [];
    assert CleanElements(true, [], es) == CleanElements(true, [], [h, a, "..", b]);
    assert [h, a, "..", b][1..] == [a, "..", b] && CleanStep(true, [], h) == [h];
    assert CleanElements(true, [], [h, a, "..", b]) == CleanElements(true, [h], [a, "..", b]);
    assert [a, "..", b][1..] == ["..", b] && CleanStep(true, [h], a) == [h, a];
    assert CleanElements(true, [h], [a, "..", b]) == CleanElements(true, [h, a], ["..", b]);
    assert [h, a][..1] == [h] && CleanStep(true, [h, a], "..") == [h];
    assert ["..", b][1..] == [b];
    assert CleanElements(true, [h, a], ["..", b]) == CleanElements(true, [h], [b]);
    assert CleanStep(true, [h], b) == [h, b];
  }
}
