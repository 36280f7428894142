/** Display enumeration on Linux (internal/display/display_linux.go): the lines of `xrandr --query`
    output matched against `^(\S+)\s+connected\s+(primary\s+)?(\d+)x(\d+)`. Running xrandr is not
    modelled; its output, or its failure, is an input. */
module Display {
  import opened Wrappers
  import Decimal

  /** Go's `display.Info`. */
  datatype Info = Info(id: int, name: string, width: int, main: bool)

  /** Where the commands get display information from: whether detection is available, what
      `MainWidth` returns and what `Enumerate` returns. */
  datatype DisplayProvider = DisplayProvider(available: bool, mainWidth: Result<int, string>, displays: Result<seq<Info>, string>)

  // ---- lines ----

  /** The index of the first newline, or the length when there is none. */
  function NewlineIndex(s: string): (i: nat)
    ensures i <= |s| && (i < |s| ==> s[i] == '\n') && forall j :: 0 <= j < i ==> s[j] != '\n'
  {
    if s == [] || s[0] == '\n' then 0 else 1 + NewlineIndex(s[1..])
  }

  function DropCR(s: string): string {
    if s != [] && s[|s| - 1] == '\r' then s[..|s| - 1] else s
  }

  /** The tokens of a `bufio.Scanner` with `ScanLines`: split at each newline, a carriage return
      before it dropped, and a last line without newline kept when it is not empty. */
  function Lines(s: string): seq<string>
    decreases |s|
  {
    if s == [] then []
    else
      var i := NewlineIndex(s);
      if i == |s| then [DropCR(s)] else [DropCR(s[..i])] + Lines(s[i + 1..])
  }

  lemma LinesOneTerminated()
    ensures Lines("a\n") == ["a"]
  {
    assert NewlineIndex("a\n") == 1;
    assert "a\n"[..1] == "a" && "a\n"[2..] == [];
    assert Lines("a\n") == [DropCR("a")] + Lines([]);
  }

  lemma LinesCarriageReturn()
    ensures Lines("a\r\nb") == ["a", "b"]
  {
    var s := "a\r\nb";
    assert NewlineIndex(s) == 2 by {
      assert NewlineIndex(s[1..]) == 1 by { assert s[1..][1..] == "\nb"; }
    }
    assert s[..2] == "a\r" && s[3..] == "b";
    assert DropCR("a\r") == "a" by { assert "a\r"[..1] == "a"; }
    assert NewlineIndex("b") == 1;
    assert Lines("b") == ["b"];
    assert Lines(s) == [DropCR("a\r")] + Lines("b");
  }

  // ---- the line pattern ----

  /** RE2's `\s`: tab, newline, form feed, carriage return and space. */
  predicate IsReSpace(c: char) {
    c == '\t' || c == '\n' || c == '\U{000C}' || c == '\r' || c == ' '
  }

  predicate IsReDigit(c: char) {
    '0' <= c <= '9'
  }

  /** The end of the run of characters from `i` on that are (or, with `space` false, are not) white space. */
  function SpaceEnd(s: string, i: nat, space: bool): (k: nat)
    requires i <= |s|
    ensures i <= k <= |s| && (k < |s| ==> IsReSpace(s[k]) != space)
    decreases |s| - i
  {
    if i == |s| || IsReSpace(s[i]) != space then i else SpaceEnd(s, i + 1, space)
  }

  function DigitEnd(s: string, i: nat): (k: nat)
    requires i <= |s|
    ensures i <= k <= |s| && DigitRun(s, i, k)
    ensures k < |s| ==> !IsReDigit(s[k])
    decreases |s| - i
  {
    if i == |s| || !IsReDigit(s[i]) then i else DigitEnd(s, i + 1)
  }

  /** `p` occurs in `s` at position `i`. */
  predicate At(s: string, i: nat, p: string) {
    i + |p| <= |s| && forall j :: 0 <= j < |p| ==> s[i + j] == p[j]
  }

  /** What a matching line contributes: the name, whether `primary` matched, and the width. */
  datatype Match = Match(name: string, primary: bool, width: int)

  /** `strconv.ParseInt` of a digit string with its error ignored: a value beyond 64 bits comes back as
      the largest 64-bit integer. */
  function Width(digits: string): int
    requires Decimal.AllDigits(digits)
  {
    var v := Decimal.DigitsValue(digits);
    if v > Decimal.MaxI64 then Decimal.MaxI64 else v
  }

  /** Where `connectedPattern` matches `line` (the submatch positions of `FindStringSubmatchIndex`).
      Every quantifier of the pattern is followed by something its own characters cannot match, so
      the greedy runs below are the only way to match. */
  function CutLine(line: string): Option<Cut> {
    var a := SpaceEnd(line, 0, false);
    var b := SpaceEnd(line, a, true);
    if a == 0 || b == a || !At(line, b, "connected") then None
    else
      var d := SpaceEnd(line, b + 9, true);
      var e := PrimaryEnd(line, d);
      var f := DigitEnd(line, e);
      if d == b + 9 || f == e || f == |line| || line[f] != 'x' then None
      else
        var g := DigitEnd(line, f + 1);
        if g == f + 1 then None else Some(Cut(a, b, b + 9, d, e, f, g))
  }

  /** `connectedPattern.FindStringSubmatch(line)`, read as the name, whether `primary` matched, and
      the width. */
  function MatchLine(line: string): Option<Match> {
    var t := CutLine(line);
    if t.None? then None
    else
      CutLineSound(line);
      Some(MatchOf(line, t.value))
  }

  /** Where the optional group `(primary\s+)` starting at `d` ends (`d` itself when it does not match). */
  function PrimaryEnd(line: string, d: nat): (e: nat)
    requires d <= |line|
    ensures d <= e <= |line|
  {
    if At(line, d, "primary") && SpaceEnd(line, d + 7, true) > d + 7 then SpaceEnd(line, d + 7, true) else d
  }

  function WidthOf(line: string, e: nat, f: nat): int
    requires e <= f <= |line| && DigitRun(line, e, f)
  {
    DigitsOfRun(line, e, f);
    Width(line[e..f])
  }

  lemma DigitsOfRun(line: string, e: nat, f: nat)
    requires e <= f <= |line| && DigitRun(line, e, f)
    ensures Decimal.AllDigits(line[e..f])
  {
    forall j | 0 <= j < f - e
      ensures Decimal.IsDigit(line[e..f][j])
    {
      DigitRunAt(line, e, f, e + j);
    }
  }

  /** Every character of `line[i..k]` is (or, with `space` false, is not) white space. */
  predicate SpaceRun(line: string, i: nat, k: nat, space: bool)
    requires i <= k <= |line|
    decreases k - i
  {
    i == k || (IsReSpace(line[i]) == space && SpaceRun(line, i + 1, k, space))
  }

  /** Every character of `line[i..k]` is a digit. */
  predicate DigitRun(line: string, i: nat, k: nat)
    requires i <= k <= |line|
    decreases k - i
  {
    i == k || (IsReDigit(line[i]) && DigitRun(line, i + 1, k))
  }

  lemma DigitRunAt(line: string, i: nat, k: nat, j: nat)
    requires i <= j < k <= |line| && DigitRun(line, i, k)
    ensures IsReDigit(line[j])
    decreases j - i
  {
    if i < j {
      DigitRunAt(line, i + 1, k, j);
    }
  }

  /** Where a line is cut along the pattern: the name is `line[..a]`, white space runs to `b`,
      `connected` to `c`, white space to `d`, the optional `primary` group to `e`, the width digits to
      `f`, then `x` and the height digits to `g`, as far as they go; whatever follows is not looked at. */
  datatype Cut = Cut(a: nat, b: nat, c: nat, d: nat, e: nat, f: nat, g: nat)

  predicate Fits(line: string, t: Cut) {
    && 0 < t.a < t.b && t.c == t.b + 9 < t.d <= t.e < t.f && t.f + 1 < t.g <= |line|
    && SpaceRun(line, 0, t.a, false)
    && SpaceRun(line, t.a, t.b, true)
    && At(line, t.b, "connected")
    && SpaceRun(line, t.c, t.d, true)
    && (t.e == t.d || (t.d + 7 < t.e && At(line, t.d, "primary") && SpaceRun(line, t.d + 7, t.e, true)))
    && DigitRun(line, t.e, t.f)
    && line[t.f] == 'x'
    && DigitRun(line, t.f + 1, t.g)
    && (t.g < |line| ==> !IsReDigit(line[t.g]))
  }

  /** The display a cut line describes. */
  function MatchOf(line: string, t: Cut): Match
    requires Fits(line, t)
  {
    Match(line[..t.a], t.e != t.d, WidthOf(line, t.e, t.f))
  }

  lemma SpaceEndIs(s: string, i: nat, k: nat, space: bool)
    requires i <= k <= |s| && SpaceRun(s, i, k, space)
    requires k < |s| ==> IsReSpace(s[k]) != space
    ensures SpaceEnd(s, i, space) == k
    decreases k - i
  {
    if i < k {
      SpaceEndIs(s, i + 1, k, space);
    }
  }

  lemma SpaceEndRun(s: string, i: nat, space: bool)
    requires i <= |s|
    ensures SpaceRun(s, i, SpaceEnd(s, i, space), space)
    decreases |s| - i
  {
    if i < |s| && IsReSpace(s[i]) == space {
      SpaceEndRun(s, i + 1, space);
    }
  }

  lemma DigitEndIs(s: string, i: nat, k: nat)
    requires i <= k <= |s| && DigitRun(s, i, k)
    requires k < |s| ==> !IsReDigit(s[k])
    ensures DigitEnd(s, i) == k
    decreases k - i
  {
    if i < k {
      DigitEndIs(s, i + 1, k);
    }
  }

  /** A line that can be cut along the pattern is cut there. Every run of the pattern ends at a
      character the run cannot take, so the cut is the one the matcher finds. */
  lemma CutLineComplete(line: string, t: Cut)
    requires Fits(line, t)
    ensures CutLine(line) == Some(t)
  {
    assert IsReSpace(line[t.a]);
    SpaceEndIs(line, 0, t.a, false);
    AtFirst(line, t.b, "connected");
    SpaceEndIs(line, t.a, t.b, true);
    assert IsReDigit(line[t.e]);
    if t.e != t.d {
      AtFirst(line, t.d, "primary");
    }
    SpaceEndIs(line, t.b + 9, t.d, true);
    CutPrimary(line, t.d, t.e);
    DigitEndIs(line, t.e, t.f);
    assert IsReDigit(line[t.f + 1]);
    DigitEndIs(line, t.f + 1, t.g);
  }

  /** Conversely, where the matcher cuts a line, the line fits the pattern. */
  lemma CutLineSound(line: string)
    requires CutLine(line).Some?
    ensures Fits(line, CutLine(line).value)
  {
    var a := SpaceEnd(line, 0, false);
    var b := SpaceEnd(line, a, true);
    var d := SpaceEnd(line, b + 9, true);
    SpaceEndRun(line, 0, false);
    SpaceEndRun(line, a, true);
    SpaceEndRun(line, b + 9, true);
    PrimaryEndCut(line, d);
  }

  /** A line yields a display exactly when it fits the pattern, and the display is the one the cut
      describes. */
  lemma MatchLineIff(line: string)
    ensures MatchLine(line).Some? <==> exists t :: Fits(line, t)
    ensures forall t :: Fits(line, t) ==> MatchLine(line) == Some(MatchOf(line, t))
  {
    forall t | Fits(line, t)
      ensures MatchLine(line) == Some(MatchOf(line, t))
    {
      CutLineComplete(line, t);
    }
    if MatchLine(line).Some? {
      CutLineSound(line);
      assert Fits(line, CutLine(line).value);
    }
  }

  lemma AtFirst(s: string, i: nat, p: string)
    requires At(s, i, p) && p != []
    ensures s[i] == p[0]
  {
    assert s[i + 0] == p[0];
  }

  /** The optional group ends at `e` when the width digits start there. */
  lemma CutPrimary(line: string, d: nat, e: nat)
    requires d <= e < |line| && IsReDigit(line[e])
    requires e == d || (d + 7 < e && At(line, d, "primary") && SpaceRun(line, d + 7, e, true))
    ensures PrimaryEnd(line, d) == e
  {
    if e == d {
      assert line[d + 0] != "primary"[0];
    } else {
      SpaceEndIs(line, d + 7, e, true);
    }
  }

  /** The optional `primary` group either matches nothing or `primary` and white space. */
  lemma PrimaryEndCut(line: string, d: nat)
    requires d <= |line|
    ensures var e := PrimaryEnd(line, d);
      e == d || (d + 7 < e && At(line, d, "primary") && SpaceRun(line, d + 7, e, true))
  {
    if At(line, d, "primary") {
      SpaceEndRun(line, d + 7, true);
    }
  }

  /** `s[i..i + |p|]` spelled out character by character. */
  lemma SliceIs(s: string, i: nat, p: string)
    requires i + |p| <= |s| && forall j :: 0 <= j < |p| ==> s[i + j] == p[j]
    ensures s[i..i + |p|] == p
  {
  }

  /** A line of real xrandr output for a primary output. */
  lemma MatchPrimaryExample(l: string)
    requires l == "DP-1 connected primary 2560x1440"
    ensures MatchLine(l) == Some(Match("DP-1", true, 2560))
  {
    var t := Cut(4, 5, 14, 15, 23, 27, 32);
    PrimaryExampleFits(l);
    MatchLineIff(l);
    PrimaryExampleMatch(l, t);
  }

  lemma PrimaryExampleMatch(l: string, t: Cut)
    requires l == "DP-1 connected primary 2560x1440" && t == Cut(4, 5, 14, 15, 23, 27, 32) && Fits(l, t)
    ensures MatchOf(l, t) == Match("DP-1", true, 2560)
  {
    SliceIs(l, 0, "DP-1");
    SliceIs(l, 23, "2560");
    WidthExample(l);
  }

  lemma PrimaryExampleFits(l: string)
    requires l == "DP-1 connected primary 2560x1440"
    ensures Fits(l, Cut(4, 5, 14, 15, 23, 27, 32))
  {
    PrimaryExampleWords(l);
    PrimaryExampleRuns(l);
  }

  lemma PrimaryExampleWords(l: string)
    requires l == "DP-1 connected primary 2560x1440"
    ensures At(l, 5, "connected") && At(l, 15, "primary") && l[27] == 'x'
  {
  }

  lemma PrimaryExampleRuns(l: string)
    requires l == "DP-1 connected primary 2560x1440"
    ensures SpaceRun(l, 0, 4, false) && SpaceRun(l, 4, 5, true) && SpaceRun(l, 14, 15, true) && SpaceRun(l, 22, 23, true)
    ensures DigitRun(l, 23, 27) && DigitRun(l, 28, 32)
  {
  }

  lemma WidthExample(l: string)
    requires 27 <= |l| && l[23..27] == "2560"
    ensures DigitRun(l, 23, 27) && WidthOf(l, 23, 27) == 2560
  {
    DigitsExample();
    assert forall j :: 23 <= j < 27 ==> l[j] == l[23..27][j - 23];
  }

  lemma DigitsExample()
    ensures Decimal.DigitsValue("2560") == 2560
  {
    assert "2560"[..3] == "256" && "256"[..2] == "25" && "25"[..1] == "2";
  }

  /** A line whose name is followed by white space and a word other than `connected` does not match. */
  lemma NotConnected(line: string, a: nat)
    requires 0 < a && a + 1 < |line| && SpaceRun(line, 0, a, false)
    requires IsReSpace(line[a]) && !IsReSpace(line[a + 1]) && line[a + 1] != 'c'
    ensures MatchLine(line) == None
  {
    SpaceEndIs(line, 0, a, false);
    SpaceEndIs(line, a, a + 1, true);
    assert line[a + 1 + 0] != "connected"[0];
  }

  /** A disconnected output does not match. */
  lemma MatchDisconnectedExample()
    ensures MatchLine("HDMI-1 disconnected") == None
  {
    var h := "HDMI-1 disconnected";
    assert SpaceRun(h, 0, 6, false);
    NotConnected(h, 6);
  }

  /** The screen header does not match. */
  lemma MatchHeaderExample()
    ensures MatchLine("Screen 0: minimum 8 x 8") == None
  {
    var s := "Screen 0: minimum 8 x 8";
    assert SpaceRun(s, 0, 6, false);
    NotConnected(s, 6);
  }

  // ---- enumeration ----

  /** The matches of the lines, in order. */
  function Matches(lines: seq<string>): seq<Match> {
    if lines == [] then []
    else
      var last := MatchLine(lines[|lines| - 1]);
      Matches(lines[..|lines| - 1]) + if last.Some? then [last.value] else []
  }

  predicate AnyPrimary(ms: seq<Match>) {
    exists i :: 0 <= i < |ms| && ms[i].primary
  }

  const IdModulus := 0x1_0000_0000

  /** One display per match: `ID` is the match's index as a `uint32`, `Main` whether it was primary. */
  function Unpatched(ms: seq<Match>): (ds: seq<Info>)
    ensures |ds| == |ms| && forall i :: 0 <= i < |ms| ==> ds[i] == Info(i % IdModulus, ms[i].name, ms[i].width, ms[i].primary)
  {
    if ms == [] then []
    else
      var n := |ms| - 1;
      Unpatched(ms[..n]) + [Info(n % IdModulus, ms[n].name, ms[n].width, ms[n].primary)]
  }

  const NoDisplaysMessage := "no displays found via xrandr"

  /** What `Enumerate` returns for the output of `xrandr --query` (or the reason it failed). */
  function EnumerateOf(output: Result<string, string>): Result<seq<Info>, string> {
    if output.Err? then Err("xrandr failed: " + output.error + " (is xrandr installed?)")
    else
      var ms := Matches(Lines(output.value));
      if ms == [] then Err(NoDisplaysMessage)
      else if AnyPrimary(ms) then Ok(Unpatched(ms))
      else Ok(Unpatched(ms)[0 := Unpatched(ms)[0].(main := true)])
  }

  lemma MatchesSnoc(lines: seq<string>, k: nat)
    requires k < |lines|
    ensures Matches(lines[..k + 1]) == Matches(lines[..k]) + if MatchLine(lines[k]).Some? then [MatchLine(lines[k]).value] else []
  {
    assert lines[..k + 1][..k] == lines[..k];
  }

  lemma AnyPrimarySnoc(ms: seq<Match>, m: Match)
    ensures AnyPrimary(ms + [m]) <==> AnyPrimary(ms) || m.primary
  {
    if AnyPrimary(ms) {
      var i :| 0 <= i < |ms| && ms[i].primary;
      assert (ms + [m])[i] == ms[i];
    }
    if m.primary {
      assert (ms + [m])[|ms|].primary;
    }
  }

  lemma UnpatchedSnoc(ms: seq<Match>, m: Match)
    ensures Unpatched(ms + [m]) == Unpatched(ms) + [Info(|ms| % IdModulus, m.name, m.width, m.primary)]
  {
    assert (ms + [m])[..|ms|] == ms;
  }

  /** `Enumerate`, with its scanning loop, `primaryFound` flag and the patch of the first display. */
  method Enumerate(output: Result<string, string>) returns (r: Result<seq<Info>, string>)
    ensures r == EnumerateOf(output)
  {
    if output.Err? {
      return Err("xrandr failed: " + output.error + " (is xrandr installed?)");
    }
    var lines := Lines(output.value);
    var displays: seq<Info> := [];
    var primaryFound := false;
    for k := 0 to |lines|
      invariant displays == Unpatched(Matches(lines[..k]))
      invariant primaryFound <==> AnyPrimary(Matches(lines[..k]))
    {
      MatchesSnoc(lines, k);
      var m := MatchLine(lines[k]);
      if m.None? {
        continue;
      }
      AnyPrimarySnoc(Matches(lines[..k]), m.value);
      UnpatchedSnoc(Matches(lines[..k]), m.value);
      if m.value.primary {
        primaryFound := true;
      }
      displays := displays + [Info(|displays| % IdModulus, m.value.name, m.value.width, m.value.primary)];
    }
    assert lines[..|lines|] == lines;
    if !primaryFound && |displays| > 0 {
      displays := displays[0 := displays[0].(main := true)];
    }
    if |displays| == 0 {
      return Err(NoDisplaysMessage);
    }
    r := Ok(displays);
  }

  /** A successful enumeration has one display per matching line, numbered by position modulo 2^32,
      with the line's name and width; a display is main exactly when its line said `primary`, except
      that without any primary line the first display is main. So some display is always main. */
  lemma EnumerateProperties(output: Result<string, string>)
    requires EnumerateOf(output).Ok?
    ensures var ms := Matches(Lines(output.value));
      var ds := EnumerateOf(output).value;
      && |ds| == |ms| >= 1
      && (forall i :: 0 <= i < |ds| ==>
            ds[i].id == i % IdModulus && ds[i].name == ms[i].name && ds[i].width == ms[i].width
            && (ds[i].main <==> ms[i].primary || (i == 0 && !AnyPrimary(ms))))
      && exists i :: 0 <= i < |ds| && ds[i].main
  {
    var ms := Matches(Lines(output.value));
    var ds := EnumerateOf(output).value;
    if AnyPrimary(ms) {
      var i :| 0 <= i < |ms| && ms[i].primary;
      assert ds[i].main;
    } else {
      assert ds[0].main;
    }
  }

  /** Output without any matching line is an error. */
  lemma EnumerateNeedsAMatch(output: Result<string, string>)
    requires output.Ok? && Matches(Lines(output.value)) == []
    ensures EnumerateOf(output) == Err(NoDisplaysMessage)
  {
  }

  /** The index of the first main display at or after `i`. */
  function FirstMainFrom(ds: seq<Info>, i: nat): (r: Option<nat>)
    requires i <= |ds|
    ensures r.Some? ==> i <= r.value < |ds| && ds[r.value].main && forall j :: i <= j < r.value ==> !ds[j].main
    ensures r.None? ==> forall j :: i <= j < |ds| ==> !ds[j].main
    decreases |ds| - i
  {
    if i == |ds| then None
    else if ds[i].main then Some(i)
    else FirstMainFrom(ds, i + 1)
  }

  /** The index of the first main display. */
  function FirstMain(ds: seq<Info>): (r: Option<nat>)
    ensures r.Some? ==> r.value < |ds| && ds[r.value].main && forall j :: 0 <= j < r.value ==> !ds[j].main
    ensures r.None? ==> forall j :: 0 <= j < |ds| ==> !ds[j].main
  {
    FirstMainFrom(ds, 0)
  }

  const NoPrimaryMessage := "no primary display found"

  /** What `MainWidth` returns. */
  function MainWidthOf(output: Result<string, string>): Result<int, string> {
    var displays := EnumerateOf(output);
    if displays.Err? then Err(displays.error)
    else
      var i := FirstMain(displays.value);
      if i.None? then Err(NoPrimaryMessage) else Ok(displays.value[i.value].width)
  }

  /** `MainWidth`, with its search loop. */
  method MainWidth(output: Result<string, string>) returns (r: Result<int, string>)
    ensures r == MainWidthOf(output)
  {
    var displays := Enumerate(output);
    if displays.Err? {
      return Err(displays.error);
    }
    var ds := displays.value;
    for i := 0 to |ds|
      invariant forall j :: 0 <= j < i ==> !ds[j].main
    {
      if ds[i].main {
        return Ok(ds[i].width);
      }
    }
    r := Err(NoPrimaryMessage);
  }

  /** On Linux `MainWidth` fails only when `Enumerate` does; it gives the width of the first primary
      line, or of the first matching line when none is primary. */
  lemma MainWidthProperties(output: Result<string, string>)
    ensures MainWidthOf(output).Ok? <==> EnumerateOf(output).Ok?
    ensures MainWidthOf(output).Ok? ==>
      var ms := Matches(Lines(output.value));
      exists i :: 0 <= i < |ms| && MainWidthOf(output).value == ms[i].width
        && (ms[i].primary || (i == 0 && !AnyPrimary(ms)))
        && forall j :: 0 <= j < i ==> !ms[j].primary
  {
    if EnumerateOf(output).Ok? {
      EnumerateProperties(output);
      var ds := EnumerateOf(output).value;
      var ms := Matches(Lines(output.value));
      var i := FirstMain(ds).value;
      assert ds[i].main;
      forall j | 0 <= j < i
        ensures !ms[j].primary
      {
        assert !ds[j].main;
      }
    }
  }

  /** The Linux provider: detection is available when xrandr is on the PATH, and both queries read
      the same xrandr output. */
  function LinuxDisplays(xrandrOnPath: bool, output: Result<string, string>): DisplayProvider {
    DisplayProvider(xrandrOnPath, MainWidthOf(output), EnumerateOf(output))
  }
}
