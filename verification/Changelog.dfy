/** Rewriting a changelog for a release, and the guard that no released heading is lost. */
module Changelog {
  import opened Common
  import opened Splitting

  // ---------------------------------------------------------------------- text

  predicate IsSpace(c: char) {
    var n := c as int;
    9 <= n <= 13 || n == 32 || n == 0xA0 || n == 0x1680 || 0x2000 <= n <= 0x200A || n == 0x2028 || n == 0x2029 ||
    n == 0x202F || n == 0x205F || n == 0x3000 || n == 0xFEFF
  }

  /** The white space and line terminators of ECMAScript. */
  lemma {:induction false} SpaceIff(c: char)
    ensures IsSpace(c) <==>
      c as int in {9, 10, 11, 12, 13, 32, 160, 5760, 8192, 8193, 8194, 8195, 8196, 8197, 8198, 8199, 8200, 8201, 8202} ||
      c as int in {8232, 8233, 8239, 8287, 12288, 65279}
  {
    var n := c as int;
    assert 8192 <= n <= 8202 ==> n in {8192, 8193, 8194, 8195, 8196, 8197, 8198, 8199, 8200, 8201, 8202};
  }

  function TrimStart(s: string): (r: string) {
    if s != "" && IsSpace(s[0]) then TrimStart(s[1..]) else s
  }

  function TrimEnd(s: string): (r: string) {
    if s != "" && IsSpace(s[|s| - 1]) then TrimEnd(s[..|s| - 1]) else s
  }

  function Trim(s: string): (r: string) {
    TrimEnd(TrimStart(s))
  }

  ghost predicate AllSpace(s: string) {
    forall i :: 0 <= i < |s| ==> IsSpace(s[i])
  }

  /** `t` is `s` without the spaces at both ends. */
  ghost predicate IsTrimmed(s: string, t: string) {
    (exists a, b :: AllSpace(a) && AllSpace(b) && s == a + t + b) &&
    (t == "" || (!IsSpace(t[0]) && !IsSpace(t[|t| - 1])))
  }

  lemma {:induction false} TrimEndIs(s: string) returns (b: string)
    ensures AllSpace(b) && s == TrimEnd(s) + b && (TrimEnd(s) == "" || !IsSpace(TrimEnd(s)[|TrimEnd(s)| - 1]))
  {
    hide IsSpace;
    if s != "" && IsSpace(s[|s| - 1]) {
      var rest := TrimEndIs(s[..|s| - 1]);
      b := rest + [s[|s| - 1]];
      assert s == s[..|s| - 1] + [s[|s| - 1]];
    } else {
      b := "";
      assert s + "" == s;
    }
  }

  lemma {:induction false} TrimStartIs(s: string) returns (a: string)
    ensures AllSpace(a) && s == a + TrimStart(s) && (TrimStart(s) == "" || !IsSpace(TrimStart(s)[0]))
  {
    hide IsSpace;
    if s != "" && IsSpace(s[0]) {
      var rest := TrimStartIs(s[1..]);
      a := [s[0]] + rest;
      assert s == [s[0]] + s[1..];
    } else {
      a := "";
      assert "" + s == s;
    }
  }

  lemma {:induction false} TrimIs(s: string)
    ensures IsTrimmed(s, Trim(s))
  {
    hide IsSpace, TrimStart, TrimEnd, AllSpace;
    var a := TrimStartIs(s);
    var mid := TrimStart(s);
    var b := TrimEndIs(mid);
    assert s == a + Trim(s) + b;
    if Trim(s) != "" { assert mid[0] == Trim(s)[0]; }
  }

  function LowerCase(s: string): (r: string) {
    seq(|s|, i requires 0 <= i < |s| => if 'A' <= s[i] <= 'Z' then (s[i] as int + 32) as char else s[i])
  }

  predicate OccursAt(s: string, part: string, k: nat) {
    k + |part| <= |s| && s[k..k + |part|] == part
  }

  /** The first place from `k` on where `part` occurs, or -1. */
  function FindFrom(s: string, part: string, k: nat): (r: int)
    requires k <= |s|
    ensures r == -1 ==> forall j: nat :: k <= j ==> !OccursAt(s, part, j)
    ensures r != -1 ==> k <= r && OccursAt(s, part, r) && forall j: nat :: k <= j < r ==> !OccursAt(s, part, j)
    decreases |s| - k
  {
    if OccursAt(s, part, k) then k
    else if k == |s| then -1
    else FindFrom(s, part, k + 1)
  }

  function ReplaceFirst(s: string, part: string, put: string): (r: string) {
    var k := FindFrom(s, part, 0);
    if k == -1 then s else s[..k] + put + s[k + |part|..]
  }

  /** The lines of a text; a newline ends a line and starts another. */
  function Lines(s: string): (r: seq<string>)
    ensures |r| > 0
  {
    Split(s, '\n')
  }

  lemma {:induction false} LinesJoin(s: string, t: string)
    ensures Lines(s + t) == Join(Lines(s), Lines(t))
  {
    SplitJoin(s, '\n', t);
  }

  lemma {:induction false} LinesNewline(a: string, b: string)
    ensures Lines(a + "\n" + b) == Lines(a) + Lines(b)
  {
    SplitCut(a, '\n', b);
  }

  lemma {:induction false} OneLine(s: string)
    requires '\n' !in s
    ensures Lines(s) == [s]
  {
    OnePart(s, '\n');
  }

  // ---------------------------------------------------------------------- headings

  /** The first place from `k` on that is not a space. */
  function SkipSpaces(s: string, k: nat): (r: nat)
    requires k <= |s|
    ensures k <= r <= |s| && (r < |s| ==> !IsSpace(s[r])) && forall j :: k <= j < r ==> IsSpace(s[j])
    decreases |s| - k
  {
    if k < |s| && IsSpace(s[k]) then SkipSpaces(s, k + 1) else k
  }

  /** Two number signs, at least one space and a bracket: the place of the bracket. */
  function OpenBracket(line: string): (r: Option<nat>)
    ensures r.Some? ==> 2 < r.value < |line| && line[r.value] == '['
  {
    if |line| < 2 || line[..2] != "##" then None
    else
      var i := SkipSpaces(line, 2);
      if i == 2 || i == |line| || line[i] != '[' then None else Some(i)
  }

  /** The text between the brackets of a heading. */
  function HeadingText(line: string): (r: Option<string>) {
    var open := OpenBracket(line);
    if open.None? then None
    else
      var j := IndexOf(line[open.value + 1..], ']');
      if j <= 0 then None else Some(line[open.value + 1..][..j])
  }

  predicate IsUnreleased(text: string) {
    LowerCase(Trim(text)) == "unreleased"
  }

  /** The version of a released heading, as a list of at most one. */
  function Released(line: string): (r: seq<string>) {
    var text := HeadingText(line);
    if text.None? || IsUnreleased(text.value) then [] else [Trim(text.value)]
  }

  function ReleasedIn(lines: seq<string>): (r: seq<string>) {
    if lines == [] then [] else Released(lines[0]) + ReleasedIn(lines[1..])
  }

  lemma {:induction false} ReleasedInConcat(a: seq<string>, b: seq<string>)
    ensures ReleasedIn(a + b) == ReleasedIn(a) + ReleasedIn(b)
  {
    if a == [] {
      assert a + b == b;
    } else {
      assert (a + b)[1..] == a[1..] + b;
      ReleasedInConcat(a[1..], b);
    }
  }

  lemma {:induction false} ReleasedFrom(lines: seq<string>, i: nat)
    requires i < |lines|
    ensures ReleasedIn(lines[i..]) == Released(lines[i]) + ReleasedIn(lines[i + 1..])
  {
    hide Released;
    assert lines[i..][1..] == lines[i + 1..] && lines[i..][0] == lines[i];
  }

  /** Released versions in file order. */
  method ReleaseHeadings(text: string) returns (headings: seq<string>)
    ensures headings == ReleasedIn(Lines(text))
  {
    hide HeadingText, IsUnreleased, Trim, Lines, ReleasedIn;
    headings := [];
    var lines := Lines(text);
    assert lines[0..] == lines;
    for i := 0 to |lines|
      invariant ReleasedIn(lines) == headings + ReleasedIn(lines[i..])
    {
      ReleasedFrom(lines, i);
      var heading := HeadingText(lines[i]);
      if heading.Some? && !IsUnreleased(heading.value) {
        headings := headings + [Trim(heading.value)];
      }
    }
    assert lines[|lines|..] == [] && headings + [] == headings;
    NoLines();
  }

  lemma {:induction false} NoLines()
    ensures ReleasedIn([]) == []
  {
  }

  datatype Violation = Violation(removed: seq<string>, baseHeadingCount: nat, headHeadingCount: nat)

  function Missing(before: seq<string>, after: set<string>): (r: seq<string>)
    ensures r == [] <==> forall v :: v in before ==> v in after
    ensures forall v :: v in r <==> v in before && v !in after
  {
    if before == [] then []
    else (if before[0] in after then [] else [before[0]]) + Missing(before[1..], after)
  }

  /** A file that is new lost nothing; a file that is deleted lost every released heading. */
  function CompareHistory(base: Option<string>, head: Option<string>): (r: Option<Violation>) {
    if base.None? then None
    else
      var before := ReleasedIn(Lines(base.value));
      if head.None? then
        if before == [] then None else Some(Violation(before, |before|, 0))
      else
        var after := set v | v in ReleasedIn(Lines(head.value));
        var removed := Missing(before, after);
        if removed == [] then None else Some(Violation(removed, |before|, |after|))
  }

  /** What the guard reports: the headings that are missing, in order, and how many there were and are. */
  lemma {:induction false} ViolationIs(base: string, head: Option<string>, after: set<string>)
    requires head.Some? ==> forall v :: v in after <==> v in ReleasedIn(Lines(head.value))
    requires head.None? ==> after == {}
    ensures var before := ReleasedIn(Lines(base));
      CompareHistory(Some(base), head) ==
      if Missing(before, after) == [] then None else Some(Violation(Missing(before, after), |before|, |after|))
    ensures CompareHistory(None, head) == None
  {
    hide Lines, ReleasedIn;
    if head.Some? {
      assert after == set v | v in ReleasedIn(Lines(head.value));
    } else {
      NoneKept(ReleasedIn(Lines(base)));
    }
  }

  lemma {:induction false} NoneKept(before: seq<string>)
    ensures Missing(before, {}) == before
  {
    if before != [] {
      NoneKept(before[1..]);
      assert before == [before[0]] + before[1..];
    }
  }

  /** What is missing of a list, one heading after the other. */
  lemma {:induction false} MissingInOrder(before: seq<string>, v: string, after: set<string>)
    ensures Missing(before + [v], after) == Missing(before, after) + (if v in after then [] else [v])
  {
    hide Missing;
    var all := before + [v];
    MissingFirst(all, after);
    if before == [] {
      assert all[1..] == [];
      NoneMissing(after);
    } else {
      MissingInOrder(before[1..], v, after);
      MissingFirst(before, after);
      assert all[1..] == before[1..] + [v] && all[0] == before[0];
      Regroup(if all[0] in after then [] else [all[0]], Missing(before[1..], after), if v in after then [] else [v]);
    }
  }

  lemma {:induction false} Regroup(a: seq<string>, b: seq<string>, c: seq<string>)
    ensures a + (b + c) == a + b + c
  {
  }

  lemma {:induction false} NoneMissing(after: set<string>)
    ensures Missing([], after) == []
  {
  }

  lemma {:induction false} MissingFirst(before: seq<string>, after: set<string>)
    requires before != []
    ensures Missing(before, after) == (if before[0] in after then [] else [before[0]]) + Missing(before[1..], after)
  {
  }

  /** The guard is silent exactly if every released heading of the base is still there. */
  lemma {:induction false} GuardIsSilentIff(base: string, head: string)
    ensures CompareHistory(Some(base), Some(head)).None? <==>
      forall v :: v in ReleasedIn(Lines(base)) ==> v in ReleasedIn(Lines(head))
  {
    var after := set v | v in ReleasedIn(Lines(head));
    assert forall v :: v in after <==> v in ReleasedIn(Lines(head));
  }

  // ---------------------------------------------------------------------- the rewrite

  const MARKER := "## [Unreleased]"
  const HEADER := "# Changelog\n"
  const FRESH := "# Changelog\n\n## [Unreleased]\n\n"

  function LastNewline(s: string): (k: int)
    ensures -1 <= k < |s| && (k >= 0 ==> s[k] == '\n')
  {
    if s == "" then -1 else if s[|s| - 1] == '\n' then |s| - 1 else LastNewline(s[..|s| - 1])
  }

  /** Where the text of the unreleased section starts: after the last newline of the spaces behind a marker. */
  function SectionStart(content: string, k: nat): (r: Option<nat>)
    requires k <= |content|
    ensures r.Some? ==> r.value <= |content|
    decreases |content| - k
  {
    if OccursAt(content, MARKER, k) &&
       LastNewline(content[k + |MARKER|..SkipSpaces(content, k + |MARKER|)]) >= 0
    then Some(k + |MARKER| + LastNewline(content[k + |MARKER|..SkipSpaces(content, k + |MARKER|)]) + 1)
    else if k == |content| then None
    else SectionStart(content, k + 1)
  }

  /** Where it ends: at the next heading whose text starts with a digit, or at the end. */
  function SectionEnd(content: string, k: nat): (r: nat)
    requires k <= |content|
    ensures k <= r <= |content|
    decreases |content| - k
  {
    if k == |content| || (OccursAt(content, "## [", k) && k + 4 < |content| && '0' <= content[k + 4] <= '9') then k
    else SectionEnd(content, k + 1)
  }

  predicate HasUnreleasedContent(content: string) {
    var start := SectionStart(content, 0);
    start.Some? && Trim(content[start.value..SectionEnd(content, start.value)]) != ""
  }

  function SkipNewlines(s: string, k: nat): (r: nat)
    requires k <= |s|
    ensures k <= r <= |s| && forall j :: k <= j < r ==> s[j] == '\n'
    decreases |s| - k
  {
    if k < |s| && s[k] == '\n' then SkipNewlines(s, k + 1) else k
  }

  /** Puts an empty unreleased section behind the title, if the text starts with it. */
  function RestoreMarker(s: string): (r: string) {
    if HEADER <= s then FRESH + s[SkipNewlines(s, |HEADER|)..] else s
  }

  function VersionHeading(version: string, date: string): (r: string) {
    "## [" + version + "] - " + date
  }

  function Rewritten(content: string, version: string, date: string): (r: Option<string>) {
    if HasUnreleasedContent(content) then
      var next := RestoreMarker(ReplaceFirst(content, MARKER, VersionHeading(version, date)));
      if FindFrom(next, MARKER, 0) == -1 then None else Some(next)
    else Some(ReplaceFirst(content, MARKER, MARKER + "\n\n" + VersionHeading(version, date)))
  }

  // ---------------------------------------------------------------------- what the rewrite does to the lines

  /** The lines before the marker's line, that line on both sides of the marker, and the lines after it. */
  datatype Cut = Cut(before: seq<string>, left: string, right: string, after: seq<string>)

  ghost function CutAt(content: string, k: nat): (c: Cut)
    requires OccursAt(content, MARKER, k)
  {
    var x, y := Lines(content[..k]), Lines(content[k + |MARKER|..]);
    Cut(x[..|x| - 1], x[|x| - 1], y[0], y[1..])
  }

  lemma {:induction false} CutLines(content: string, k: nat, put: string)
    requires OccursAt(content, MARKER, k)
    ensures var c := CutAt(content, k);
      Lines(content[..k] + put + content[k + |MARKER|..]) ==
      Join(Join(c.before + [c.left], Lines(put)), [c.right] + c.after)
  {
    LinesJoin(content[..k], put);
    LinesJoin(content[..k] + put, content[k + |MARKER|..]);
    var x, y := Lines(content[..k]), Lines(content[k + |MARKER|..]);
    assert x == x[..|x| - 1] + [x[|x| - 1]] && y == [y[0]] + y[1..];
  }

  lemma {:induction false} OneLineInside(c: Cut, line: string)
    ensures Join(Join(c.before + [c.left], [line]), [c.right] + c.after) == c.before + [c.left + line + c.right] + c.after
  {
  }

  lemma {:induction false} ThreeLinesInside(c: Cut, a: string, b: string)
    ensures Join(Join(c.before + [c.left], [a, "", b]), [c.right] + c.after) ==
      c.before + [c.left + a, "", b + c.right] + c.after
  {
  }

  lemma {:induction false} ContentLines(content: string, k: nat)
    requires OccursAt(content, MARKER, k)
    ensures var c := CutAt(content, k); Lines(content) == c.before + [c.left + MARKER + c.right] + c.after
  {
    hide Lines, Join;
    assert content == content[..k] + MARKER + content[k + |MARKER|..];
    CutLines(content, k, MARKER);
    OneLine(MARKER);
    OneLineInside(CutAt(content, k), MARKER);
  }

  // ---------------------------------------------------------------------- what it does to the headings

  const BRACKET := "## ["

  lemma {:induction false} SkipSame(s: string, rest: string, k: nat)
    requires k < |s| && !IsSpace(s[|s| - 1])
    ensures SkipSpaces(s + rest, k) == SkipSpaces(s, k) < |s|
    decreases |s| - k
  {
    if IsSpace(s[k]) { SkipSame(s, rest, k + 1); }
  }

  /** Whether a line opens a heading is settled by a part of it that ends in a bracket. */
  lemma {:induction false} OpenSame(s: string, rest: string)
    requires |s| >= 4 && s[|s| - 1] == '['
    ensures OpenBracket(s + rest) == OpenBracket(s)
  {
    SkipSame(s, rest, 2);
    assert (s + rest)[..2] == s[..2];
  }

  /** What a line that starts with `s` opens and leaves open. */
  ghost predicate LeavesOpen(s: string) {
    OpenBracket(s).Some? && ']' !in s[OpenBracket(s).value + 1..]
  }

  ghost function Opened(s: string): (r: string)
    requires LeavesOpen(s)
  {
    s[OpenBracket(s).value + 1..]
  }

  /** The heading of a line `s text ] rest`, for a part `s` that ends in a bracket. */
  lemma {:induction false} HeadingOf(s: string, text: string, rest: string)
    requires |s| >= 4 && s[|s| - 1] == '[' && text != "" && ']' !in text
    ensures HeadingText(s + text + "]" + rest) == if LeavesOpen(s) then Some(Opened(s) + text) else HeadingText(s)
  {
    hide OpenBracket, IndexOf, IsSpace;
    var line := s + text + "]" + rest;
    var tail := text + "]" + rest;
    assert line == s + tail;
    OpenSame(s, tail);
    if OpenBracket(s).Some? {
      var i := OpenBracket(s).value;
      var inside := s[i + 1..];
      assert line[i + 1..] == inside + tail;
      if ']' in inside {
        var j := IndexOf(inside, ']');
        assert (inside + tail)[..j] == inside[..j];
        FirstAt(inside + tail, ']', j);
      } else {
        var j := |inside + text|;
        assert (inside + tail)[..j] == inside + text;
        FirstAt(inside + tail, ']', j);
      }
    }
  }

  /** A version as it stands in a heading; a date. */
  predicate PlainVersion(version: string) {
    version != "" && '$' !in version && ']' !in version && '\n' !in version && (forall c :: c in version ==> !IsSpace(c)) &&
    LowerCase(version) != "unreleased"
  }

  predicate PlainDate(date: string) {
    '$' !in date && '\n' !in date
  }

  lemma {:induction false} TrimBefore(x: string, text: string)
    requires text != "" && forall c :: c in text ==> !IsSpace(c)
    ensures Trim(x + text) == TrimStart(x) + text
  {
    if x != "" && IsSpace(x[0]) {
      assert (x + text)[1..] == x[1..] + text;
      TrimBefore(x[1..], text);
    } else {
      assert (x + text)[|x + text| - 1] in text;
      assert x == "" ==> x + text == text;
    }
  }

  lemma {:induction false} TrimKeepsSign(x: string)
    requires '#' in x
    ensures '#' in TrimStart(x)
  {
    if IsSpace(x[0]) {
      assert x == [x[0]] + x[1..];
      TrimKeepsSign(x[1..]);
    }
  }

  lemma {:induction false} SignIsReleased(x: string, text: string)
    requires '#' in x && text != "" && forall c :: c in text ==> !IsSpace(c)
    ensures !IsUnreleased(x + text)
  {
    TrimBefore(x, text);
    TrimKeepsSign(x);
    var s := TrimStart(x) + text;
    assert '#' in s;
    var k :| 0 <= k < |s| && s[k] == '#';
    assert LowerCase(s)[k] == '#';
  }

  lemma {:induction false} LeftIsEmptyOrSigned(left: string)
    requires LeavesOpen(left + BRACKET)
    ensures if left == "" then Opened(left + BRACKET) == "" else '#' in Opened(left + BRACKET)
  {
    var s := left + BRACKET;
    var i := OpenBracket(s).value;
    assert s[|left|] == '#' && s[|left| + 1] == '#' && s[|left| + 2] == ' ';
    if left != "" {
      assert i == SkipSpaces(s, 2);
      assert !IsSpace('#');
      assert i < |left|;
      assert s[i + 1..][|left| - i - 1] == '#';
    } else {
      assert s[2..] == " [";
    }
  }

  lemma {:induction false} BracketOpens()
    ensures LeavesOpen("" + BRACKET)
  {
    assert "" + BRACKET == BRACKET;
    assert SkipSpaces(BRACKET, 3) == 3;
  }

  /** The text a line opens before `## [`, up to the end of it. */
  ghost function Lead(left: string): (r: string)
    requires LeavesOpen(left + BRACKET)
  {
    TrimStart(Opened(left + BRACKET))
  }

  lemma {:induction false} ReleasedOnLine(left: string, text: string, rest: string)
    requires text != "" && ']' !in text && (forall c :: c in text ==> !IsSpace(c))
    ensures Released(left + BRACKET + text + "]" + rest) ==
      if !LeavesOpen(left + BRACKET) then Released(left + BRACKET)
      else if left == "" then (if LowerCase(text) == "unreleased" then [] else [text])
      else [Lead(left) + text]
  {
    hide LeavesOpen, OpenBracket, IndexOf, IsSpace;
    var s := left + BRACKET;
    HeadingOf(s, text, rest);
    if LeavesOpen(s) {
      LeftIsEmptyOrSigned(left);
      TrimBefore(Opened(s), text);
      if left == "" {
        assert Opened(s) + text == text;
      } else {
        SignIsReleased(Opened(s), text);
      }
    }
  }

  lemma {:induction false} NoneReleased(lines: seq<string>)
    requires forall line :: line in lines ==> Released(line) == []
    ensures ReleasedIn(lines) == []
  {
    hide Released;
    if lines != [] { NoneReleased(lines[1..]); }
  }

  lemma {:induction false} BlankLines(s: string, k: nat)
    requires k <= |s|
    ensures ReleasedIn(Lines(s[k..])) == ReleasedIn(Lines(s[SkipNewlines(s, k)..]))
    decreases |s| - k
  {
    if k < |s| && s[k] == '\n' {
      assert s[k..] == "" + "\n" + s[k + 1..];
      LinesNewline("", s[k + 1..]);
      NoHeading();
      assert ([""] + Lines(s[k + 1..]))[1..] == Lines(s[k + 1..]);
      BlankLines(s, k + 1);
    }
  }

  const TITLE := "# Changelog"

  lemma {:induction false} NoHeading()
    ensures Released("") == [] && Released(TITLE) == []
  {
    assert TITLE[..2] == "# ";
  }

  lemma {:induction false} UnreleasedText()
    ensures ']' !in "Unreleased" && (forall c :: c in "Unreleased" ==> !IsSpace(c)) && LowerCase("Unreleased") == "unreleased"
    ensures IsUnreleased("Unreleased")
  {
    hide IsSpace, Trim, LowerCase;
    UnreleasedHasNoSpace();
    UnreleasedLower();
    TrimBefore("", "Unreleased");
    assert "" + "Unreleased" == "Unreleased";
  }

  lemma {:induction false} UnreleasedHasNoSpace()
    ensures forall c :: c in "Unreleased" ==> !IsSpace(c)
  {
  }

  lemma {:induction false} UnreleasedLower()
    ensures LowerCase("Unreleased") == "unreleased"
  {
  }

  lemma {:induction false} MarkerIsUnreleased()
    ensures Released(MARKER) == [] && HeadingText(MARKER) == Some("Unreleased") && IsUnreleased("Unreleased")
  {
    hide LeavesOpen, OpenBracket, IsSpace, HeadingText, LowerCase, Trim, IsUnreleased;
    assert "" + BRACKET + "Unreleased" + "]" + "" == MARKER;
    UnreleasedText();
    BracketOpens();
    HeadingOf("" + BRACKET, "Unreleased", "");
    LeftIsEmptyOrSigned("");
    assert "" + "Unreleased" == "Unreleased";
  }

  lemma {:induction false} TitledReleased(s: string)
    requires HEADER <= s
    ensures ReleasedIn(Lines(s)) == ReleasedIn(Lines(s[|HEADER|..]))
  {
    hide Lines, Released;
    var rest := s[|HEADER|..];
    assert HEADER == TITLE + "\n";
    assert s == TITLE + "\n" + rest;
    LinesNewline(TITLE, rest);
    NoHeading();
    TitleLine();
    assert ([TITLE] + Lines(rest))[1..] == Lines(rest);
  }

  lemma {:induction false} FourNone(a: string, b: string, c: string, d: string)
    requires Released(a) == [] && Released(b) == [] && Released(c) == [] && Released(d) == []
    ensures ReleasedIn([a, b, c, d]) == []
  {
    hide Released;
    NoneReleased([a, b, c, d]);
  }

  lemma {:induction false} FreshReleased(rest: string)
    ensures ReleasedIn(Lines(FRESH + rest)) == ReleasedIn(Lines(rest))
  {
    hide Lines, Released, ReleasedIn;
    FreshLines(rest);
    NoHeading();
    MarkerIsUnreleased();
    FourNone(TITLE, "", MARKER, "");
    ReleasedInConcat([TITLE, "", MARKER, ""], Lines(rest));
  }

  /** Putting the empty unreleased section back does not touch a released heading. */
  lemma {:induction false} RestoreKeeps(s: string)
    ensures ReleasedIn(Lines(RestoreMarker(s))) == ReleasedIn(Lines(s))
  {
    hide Lines, ReleasedIn;
    if HEADER <= s {
      TitledReleased(s);
      BlankLines(s, |HEADER|);
      FreshReleased(s[SkipNewlines(s, |HEADER|)..]);
    }
  }

  lemma {:induction false} TitleLine()
    ensures Lines(TITLE) == [TITLE] && Lines(MARKER) == [MARKER] && Lines("") == [""]
  {
    hide Lines;
    OneLine("");
    OneLine(TITLE);
    OneLine(MARKER);
  }

  lemma {:induction false} FreshLines(rest: string)
    ensures Lines(FRESH + rest) == [TITLE, "", MARKER, ""] + Lines(rest)
  {
    hide Lines;
    TitleLine();
    var a := "" + "\n" + rest;
    var b := MARKER + "\n" + a;
    var c := "" + "\n" + b;
    assert FRESH + rest == TITLE + "\n" + c;
    LinesNewline(TITLE, c);
    LinesNewline("", b);
    LinesNewline(MARKER, a);
    LinesNewline("", rest);
  }

  // ---------------------------------------------------------------------- the guard accepts the rewrite

  ghost function MarkerCut(content: string): (c: Cut)
    requires FindFrom(content, MARKER, 0) != -1
  {
    CutAt(content, FindFrom(content, MARKER, 0))
  }

  lemma {:induction false} ReleasedInThree(a: seq<string>, mid: seq<string>, b: seq<string>)
    ensures ReleasedIn(a + mid + b) == ReleasedIn(a) + ReleasedIn(mid) + ReleasedIn(b)
  {
    ReleasedInConcat(a + mid, b);
    ReleasedInConcat(a, mid);
  }

  lemma {:induction false} ReleasedBefore(content: string)
    requires FindFrom(content, MARKER, 0) != -1
    ensures var c := MarkerCut(content);
      ReleasedIn(Lines(content)) == ReleasedIn(c.before) + Released(c.left + MARKER + c.right) + ReleasedIn(c.after)
  {
    hide Lines, Released, CutAt;
    var c := MarkerCut(content);
    ContentLines(content, FindFrom(content, MARKER, 0));
    ReleasedInThree(c.before, [c.left + MARKER + c.right], c.after);
  }

  lemma {:induction false} ReleasedReplaced(content: string, line: string)
    requires FindFrom(content, MARKER, 0) != -1 && '\n' !in line
    ensures var c := MarkerCut(content);
      ReleasedIn(Lines(ReplaceFirst(content, MARKER, line))) ==
      ReleasedIn(c.before) + Released(c.left + line + c.right) + ReleasedIn(c.after)
  {
    hide Lines, Released, CutAt, Join;
    var c := MarkerCut(content);
    CutLines(content, FindFrom(content, MARKER, 0), line);
    OneLine(line);
    OneLineInside(c, line);
    ReleasedInThree(c.before, [c.left + line + c.right], c.after);
  }

  lemma {:induction false} ReleasedInserted(content: string, line: string)
    requires FindFrom(content, MARKER, 0) != -1 && '\n' !in line
    ensures var c := MarkerCut(content);
      ReleasedIn(Lines(ReplaceFirst(content, MARKER, MARKER + "\n\n" + line))) ==
      ReleasedIn(c.before) + (Released(c.left + MARKER) + Released(line + c.right)) + ReleasedIn(c.after)
  {
    hide Lines, Released, CutAt, Join;
    var c := MarkerCut(content);
    CutLines(content, FindFrom(content, MARKER, 0), MARKER + "\n\n" + line);
    InsertedLines(line);
    ThreeLinesInside(c, MARKER, line);
    hide ReleasedIn;
    ReleasedInThree(c.before, [c.left + MARKER, "", line + c.right], c.after);
    TwoHeadings(c.left + MARKER, line + c.right);
  }

  lemma {:induction false} TwoHeadings(a: string, b: string)
    ensures ReleasedIn([a, "", b]) == Released(a) + Released(b)
  {
    hide Released;
    assert [a, "", b] == [a] + [""] + [b];
    ReleasedInThree([a], [""], [b]);
    NoHeading();
  }

  lemma {:induction false} InsertedLines(line: string)
    requires '\n' !in line
    ensures Lines(MARKER + "\n\n" + line) == [MARKER, "", line]
  {
    hide Lines;
    TitleLine();
    OneLine(line);
    var rest := "" + "\n" + line;
    assert MARKER + "\n\n" + line == MARKER + "\n" + rest;
    LinesNewline(MARKER, rest);
    LinesNewline("", line);
  }

  lemma {:induction false} MarkerOnLine(left: string, right: string)
    ensures Released(left + MARKER + right) ==
      if !LeavesOpen(left + BRACKET) then Released(left + BRACKET) else if left == "" then [] else [Lead(left) + "Unreleased"]
  {
    hide Released, LeavesOpen, IsSpace, LowerCase, Lead;
    UnreleasedText();
    ReleasedOnLine(left, "Unreleased", right);
    assert left + MARKER + right == left + BRACKET + "Unreleased" + "]" + right;
  }

  lemma {:induction false} VersionOnLine(left: string, version: string, date: string, right: string)
    requires PlainVersion(version)
    ensures Released(left + VersionHeading(version, date) + right) ==
      if !LeavesOpen(left + BRACKET) then Released(left + BRACKET) else if left == "" then [version] else [Lead(left) + version]
  {
    hide Released, LeavesOpen, IsSpace, LowerCase, Lead;
    ReleasedOnLine(left, version, " - " + date + right);
    assert left + VersionHeading(version, date) + right == left + BRACKET + version + "]" + (" - " + date + right);
  }

  /** A changelog with a marker, and a version and a date as releases have them. */
  ghost predicate Releasable(content: string, version: string, date: string) {
    FindFrom(content, MARKER, 0) != -1 && PlainVersion(version) && PlainDate(date)
  }

  ghost predicate Release(content: string, version: string, date: string) {
    Releasable(content, version, date) && Rewritten(content, version, date).Some?
  }

  ghost predicate MarkerStartsLine(content: string)
    requires FindFrom(content, MARKER, 0) != -1
  {
    var k := FindFrom(content, MARKER, 0);
    k == 0 || content[k - 1] == '\n'
  }

  /** The released headings after the rewrite: those of the other lines, with what the marker's line comes to between. */
  lemma {:induction false} RewrittenHeadings(content: string, version: string, date: string)
    requires Release(content, version, date)
    ensures var c := MarkerCut(content);
      ReleasedIn(Lines(Rewritten(content, version, date).value)) ==
      ReleasedIn(c.before) + (if HasUnreleasedContent(content) then Released(c.left + VersionHeading(version, date) + c.right)
                              else Released(c.left + MARKER + c.right) + [version]) + ReleasedIn(c.after)
  {
    hide Lines, Released, MarkerCut, HasUnreleasedContent, LeavesOpen, FindFrom, RestoreMarker, ReleasedIn, ReplaceFirst, LowerCase;
    var c := MarkerCut(content);
    var line := VersionHeading(version, date);
    if HasUnreleasedContent(content) {
      ReleasedReplaced(content, line);
      RestoreKeeps(ReplaceFirst(content, MARKER, line));
    } else {
      ReleasedInserted(content, line);
      MarkerOnLine(c.left, c.right);
      MarkerOnLine(c.left, "");
      assert c.left + MARKER + "" == c.left + MARKER;
      BracketOpens();
      VersionOnLine("", version, date, c.right);
      assert "" + line + c.right == line + c.right;
    }
  }

  lemma {:induction false} LastLine(s: string)
    ensures Lines(s)[|Lines(s)| - 1] == "" <==> s == "" || s[|s| - 1] == '\n'
  {
    if s != "" {
      var init, last := s[..|s| - 1], s[|s| - 1];
      assert s == init + [last];
      LinesJoin(init, [last]);
      if last == '\n' {
        OneLine("");
        LinesNewline("", "");
        assert [last] == "" + "\n" + "";
      } else {
        OneLine([last]);
      }
    }
  }

  /** The released headings of `next` are those of `content`, with the version where the marker was. */
  ghost predicate KeepsHistory(content: string, version: string, next: string)
    requires FindFrom(content, MARKER, 0) != -1
  {
    var c := MarkerCut(content);
    ReleasedIn(Lines(content)) == ReleasedIn(c.before) + ReleasedIn(c.after) &&
    ReleasedIn(Lines(next)) == ReleasedIn(c.before) + [version] + ReleasedIn(c.after) &&
    CompareHistory(Some(content), Some(next)).None?
  }

  /**
   * If the first marker starts a line, a rewrite that succeeds keeps all released headings in their order, puts the
   * new version between them where the marker was, and the guard is silent.
   */
  lemma {:induction false} HistoryIsKept(content: string, version: string, date: string)
    requires Release(content, version, date) && MarkerStartsLine(content)
    ensures KeepsHistory(content, version, Rewritten(content, version, date).value)
  {
    hide Lines, Released, HasUnreleasedContent, LeavesOpen, Rewritten, ReleasedIn, CompareHistory, LowerCase, IsSpace;
    var c := MarkerCut(content);
    LastLine(content[..FindFrom(content, MARKER, 0)]);
    assert c.left == "";
    BracketOpens();
    ReleasedBefore(content);
    RewrittenHeadings(content, version, date);
    MarkerOnLine("", c.right);
    VersionOnLine("", version, date, c.right);
    GuardIsSilentIff(content, Rewritten(content, version, date).value);
  }

  lemma {:induction false} ExchangedIff(h: seq<string>, t: seq<string>, a: string, b: string)
    requires a != b
    ensures (forall v :: v in h + [a] + t ==> v in h + [b] + t) <==> a in h + t
  {
    assert a in h + [a] + t;
    assert a in h + t ==> a in h + [b] + t;
  }

  /** The section has content, and the marker stands inside the brackets of a heading that the line opens before it. */
  ghost predicate SplitsHeading(content: string)
    requires FindFrom(content, MARKER, 0) != -1
  {
    var left := MarkerCut(content).left;
    HasUnreleasedContent(content) && left != "" && LeavesOpen(left + BRACKET)
  }

  /** A heading that the marker splits is on another line too. */
  ghost predicate LosesNoHeading(content: string)
    requires FindFrom(content, MARKER, 0) != -1
  {
    var c := MarkerCut(content);
    SplitsHeading(content) ==> Lead(c.left) + "Unreleased" in ReleasedIn(c.before) + ReleasedIn(c.after)
  }

  /**
   * Wherever the first marker stands, the guard is silent about a rewrite exactly if the marker did not split a
   * heading, or another line carries the heading that was split.
   */
  lemma {:induction false} GuardAcceptsIff(content: string, version: string, date: string)
    requires Release(content, version, date)
    ensures CompareHistory(Some(content), Some(Rewritten(content, version, date).value)).None? <==> LosesNoHeading(content)
  {
    hide Lines, Released, HasUnreleasedContent, LeavesOpen, Rewritten, ReleasedIn, CompareHistory, IsSpace, MarkerCut, Lead;
    var c := MarkerCut(content);
    var next := Rewritten(content, version, date).value;
    ReleasedBefore(content);
    RewrittenHeadings(content, version, date);
    MarkerOnLine(c.left, c.right);
    VersionOnLine(c.left, version, date, c.right);
    GuardIsSilentIff(content, next);
    UnreleasedText();
    if SplitsHeading(content) {
      assert Lead(c.left) + "Unreleased" != Lead(c.left) + version by {
        assert (Lead(c.left) + "Unreleased")[|Lead(c.left)|..] == "Unreleased";
        assert (Lead(c.left) + version)[|Lead(c.left)|..] == version;
      }
      ExchangedIff(ReleasedIn(c.before), ReleasedIn(c.after), Lead(c.left) + "Unreleased", Lead(c.left) + version);
    }
  }

  // ---------------------------------------------------------------------- the unreleased heading

  ghost predicate UnreleasedLine(line: string) {
    HeadingText(line).Some? && IsUnreleased(HeadingText(line).value)
  }

  ghost predicate HasUnreleased(lines: seq<string>) {
    exists i :: 0 <= i < |lines| && UnreleasedLine(lines[i])
  }

  lemma {:induction false} HasUnreleasedIn(a: seq<string>, b: seq<string>)
    ensures HasUnreleased(a + b) <==> HasUnreleased(a) || HasUnreleased(b)
  {
    hide UnreleasedLine;
    forall i | 0 <= i < |a| ensures (a + b)[i] == a[i] {}
    forall i | 0 <= i < |b| ensures (a + b)[|a| + i] == b[i] {}
    if i :| 0 <= i < |a + b| && UnreleasedLine((a + b)[i]) {
      assert i >= |a| ==> UnreleasedLine(b[i - |a|]);
    }
  }

  lemma {:induction false} VersionLine(version: string, date: string, right: string)
    requires PlainVersion(version)
    ensures !UnreleasedLine(VersionHeading(version, date) + right)
  {
    hide LeavesOpen, LowerCase, IsSpace;
    BracketOpens();
    VersionOnLine("", version, date, right);
    assert "" + VersionHeading(version, date) + right == VersionHeading(version, date) + right;
  }

  /** A text with two number signs at `k` has its title, if at all, before them. */
  lemma {:induction false} SignsBelowTitle(s: string, k: nat)
    requires HEADER <= s && k + 1 < |s| && s[k] == '#' && s[k + 1] == '#'
    ensures |HEADER| <= k
  {
    assert forall j :: 0 <= j < |HEADER| ==> s[j] == HEADER[j];
  }

  /** Putting a heading for the marker changes nothing about the text starting with the title. */
  lemma {:induction false} TitleSame(content: string, line: string)
    requires FindFrom(content, MARKER, 0) != -1 && BRACKET <= line
    ensures HEADER <= ReplaceFirst(content, MARKER, line) <==> HEADER <= content
  {
    var k := FindFrom(content, MARKER, 0);
    var next := ReplaceFirst(content, MARKER, line);
    assert content[k] == content[k..k + |MARKER|][0] && content[k + 1] == content[k..k + |MARKER|][1];
    assert next[k] == line[0] && next[k + 1] == line[1];
    if HEADER <= content { SignsBelowTitle(content, k); }
    if HEADER <= next { SignsBelowTitle(next, k); }
  }

  lemma {:induction false} ReplacedLeft(content: string, version: string, date: string)
    requires FindFrom(content, MARKER, 0) != -1 && MarkerCut(content).left == "" && PlainVersion(version) && PlainDate(date)
    ensures var c := MarkerCut(content);
      HasUnreleased(Lines(ReplaceFirst(content, MARKER, VersionHeading(version, date)))) <==> HasUnreleased(c.before + c.after)
  {
    hide Lines, IsSpace, UnreleasedLine, HasUnreleased, LowerCase, Join, CutAt;
    var c := MarkerCut(content);
    var line := VersionHeading(version, date);
    OneLine(line);
    CutLines(content, FindFrom(content, MARKER, 0), line);
    OneLineInside(c, line);
    VersionLine(version, date, c.right);
    assert c.left + line + c.right == line + c.right;
    LeftOf(c.before, line + c.right, c.after);
    HasUnreleasedIn(c.before, c.after);
  }

  lemma {:induction false} InsertedLeft(content: string, line: string)
    requires FindFrom(content, MARKER, 0) != -1 && MarkerCut(content).left == "" && '\n' !in line
    ensures HasUnreleased(Lines(ReplaceFirst(content, MARKER, MARKER + "\n\n" + line)))
  {
    hide Lines, UnreleasedLine, HasUnreleased, Join, CutAt;
    var c := MarkerCut(content);
    CutLines(content, FindFrom(content, MARKER, 0), MARKER + "\n\n" + line);
    InsertedLines(line);
    ThreeLinesInside(c, MARKER, line);
    assert c.left + MARKER == MARKER;
    MarkerLine();
    LeftOf(c.before, MARKER, ["", line + c.right] + c.after);
    assert c.before + [MARKER, "", line + c.right] + c.after == c.before + [MARKER] + (["", line + c.right] + c.after);
  }

  /** There is nothing to release, the title comes first, or a line besides the marker's is an unreleased heading. */
  ghost predicate LeavesUnreleased(content: string)
    requires FindFrom(content, MARKER, 0) != -1
  {
    var c := MarkerCut(content);
    !HasUnreleasedContent(content) || HEADER <= content || HasUnreleased(c.before + c.after)
  }

  /**
   * If the first marker starts a line, a successful rewrite leaves an unreleased heading exactly if there was nothing
   * to release, or the changelog starts with its title, or another line is an unreleased heading.
   */
  lemma {:induction false} UnreleasedIsLeftIff(content: string, version: string, date: string)
    requires Release(content, version, date) && MarkerStartsLine(content)
    ensures HasUnreleased(Lines(Rewritten(content, version, date).value)) <==> LeavesUnreleased(content)
  {
    hide Lines, HasUnreleasedContent, HasUnreleased, ReplaceFirst, FindFrom, PlainVersion;
    LastLine(content[..FindFrom(content, MARKER, 0)]);
    var line := VersionHeading(version, date);
    PlainHeading(version, date);
    if HasUnreleasedContent(content) {
      var next := ReplaceFirst(content, MARKER, line);
      TitleSame(content, line);
      ReplacedLeft(content, version, date);
      if HEADER <= next { FreshLeft(next[SkipNewlines(next, |HEADER|)..]); }
    } else {
      InsertedLeft(content, line);
    }
  }

  lemma {:induction false} PlainHeading(version: string, date: string)
    requires PlainVersion(version) && PlainDate(date)
    ensures '\n' !in VersionHeading(version, date) && BRACKET <= VersionHeading(version, date)
  {
    hide IsSpace, LowerCase;
    assert VersionHeading(version, date) == BRACKET + version + "] - " + date;
  }

  lemma {:induction false} MarkerLine()
    ensures UnreleasedLine(MARKER)
  {
    MarkerIsUnreleased();
  }

  lemma {:induction false} LeftOf(a: seq<string>, line: string, b: seq<string>)
    ensures HasUnreleased(a + [line] + b) <==> HasUnreleased(a) || UnreleasedLine(line) || HasUnreleased(b)
  {
    hide UnreleasedLine;
    HasUnreleasedIn(a + [line], b);
    HasUnreleasedIn(a, [line]);
    assert HasUnreleased([line]) <==> UnreleasedLine([line][0]);
  }

  lemma {:induction false} FreshLeft(rest: string)
    ensures HasUnreleased(Lines(FRESH + rest))
  {
    hide Lines, UnreleasedLine;
    FreshLines(rest);
    MarkerLine();
    assert Lines(FRESH + rest)[2] == MARKER;
  }

  // ---------------------------------------------------------------------- the operation

  lemma {:induction false} NoSection(content: string, k: nat)
    requires k <= |content| && forall j: nat :: k <= j ==> !OccursAt(content, MARKER, j)
    ensures SectionStart(content, k).None?
    decreases |content| - k
  {
    if k < |content| { NoSection(content, k + 1); }
  }

  lemma {:induction false} UnmarkedStays(content: string, version: string, date: string)
    requires FindFrom(content, MARKER, 0) == -1
    ensures Rewritten(content, version, date) == Some(content)
  {
    NoSection(content, 0);
  }

  /** Below its title, the marker is put back. */
  lemma {:induction false} RestoredHasMarker(s: string)
    requires HEADER <= s
    ensures FindFrom(RestoreMarker(s), MARKER, 0) != -1
  {
    hide FindFrom;
    var rest := s[SkipNewlines(s, |HEADER|)..];
    assert FRESH[13..28] == MARKER;
    assert (FRESH + rest)[13..28] == MARKER;
    assert OccursAt(FRESH + rest, MARKER, 13);
  }

  /** There is something to release, no title comes first, and the marker stands nowhere else. */
  ghost predicate LosesMarker(content: string, version: string, date: string) {
    HasUnreleasedContent(content) && !(HEADER <= content) &&
    FindFrom(ReplaceFirst(content, MARKER, VersionHeading(version, date)), MARKER, 0) == -1
  }

  /** That is exactly when the rewrite throws. */
  lemma {:induction false} ThrowsIff(content: string, version: string, date: string)
    ensures Rewritten(content, version, date).None? <==> LosesMarker(content, version, date)
  {
    hide HasUnreleasedContent, FindFrom, ReplaceFirst;
    if FindFrom(content, MARKER, 0) == -1 {
      UnmarkedStays(content, version, date);
      NothingToRelease(content);
    } else {
      var line := VersionHeading(version, date);
      var next := ReplaceFirst(content, MARKER, line);
      assert line[..4] == BRACKET;
      TitleSame(content, line);
      if HEADER <= next { RestoredHasMarker(next); }
    }
  }

  lemma {:induction false} NothingToRelease(content: string)
    requires FindFrom(content, MARKER, 0) == -1
    ensures !HasUnreleasedContent(content)
  {
    NoSection(content, 0);
  }

  // ---------------------------------------------------------------------- when there is something to release

  lemma {:induction false} TrimEmpty(s: string)
    ensures Trim(s) == "" <==> forall i :: 0 <= i < |s| ==> IsSpace(s[i])
  {
    hide IsSpace, Trim;
    TrimIs(s);
    var a, b :| AllSpace(a) && AllSpace(b) && s == a + Trim(s) + b;
    if Trim(s) != "" {
      assert s[|a|] == Trim(s)[0];
    } else {
      forall i | 0 <= i < |s| ensures IsSpace(s[i]) { assert s[i] == if i < |a| then a[i] else b[i - |a|]; }
    }
  }

  lemma {:induction false} LastNewlineIff(s: string)
    ensures LastNewline(s) >= 0 <==> '\n' in s
  {
    if s != "" { LastNewlineIff(s[..|s| - 1]); }
  }

  /** A marker with nothing but spaces between it and the end of its line. */
  ghost predicate Opens(content: string, k: nat) {
    OccursAt(content, "## [Unreleased]", k) &&
    exists j :: k + 15 <= j < |content| && content[j] == '\n' && forall i :: k + 15 <= i < j ==> IsSpace(content[i])
  }

  /** A heading whose text starts with a digit. */
  ghost predicate Closes(content: string, j: nat) {
    OccursAt(content, "## [", j) && j + 4 < |content| && '0' <= content[j + 4] <= '9'
  }

  /** A text before the next such heading that is not a space. */
  ghost predicate Noted(content: string, k: nat, n: nat) {
    k + 15 <= n < |content| && !IsSpace(content[n]) && forall j: nat :: k + 15 <= j <= n ==> !Closes(content, j)
  }

  lemma {:induction false} OpensIff(content: string, k: nat)
    requires OccursAt(content, MARKER, k)
    ensures Opens(content, k) <==> '\n' in content[k + 15..SkipSpaces(content, k + 15)]
  {
    hide IsSpace;
    var end := SkipSpaces(content, k + 15);
    var spaces := content[k + 15..end];
    NewlineIsSpace();
    if Opens(content, k) {
      var j :| k + 15 <= j < |content| && content[j] == '\n' && forall i :: k + 15 <= i < j ==> IsSpace(content[i]);
      assert spaces[j - k - 15] == '\n';
    }
    if '\n' in spaces {
      var j :| 0 <= j < |spaces| && spaces[j] == '\n';
      assert content[k + 15 + j] == '\n';
    }
  }

  lemma {:induction false} NewlineIsSpace()
    ensures IsSpace('\n') && !IsSpace('#')
  {
  }

  /** The marker at `j` opens a section, there are only spaces before `start`, and no marker from `k` on opens one before. */
  ghost predicate StartsAt(content: string, k: nat, j: nat, start: nat) {
    k <= j && j + 15 <= start <= |content| && Opens(content, j) && NoneOpens(content, k, j) &&
    forall i :: j + 15 <= i < start ==> IsSpace(content[i])
  }

  ghost predicate NoneOpens(content: string, k: nat, j: nat) {
    forall i: nat :: k <= i < j ==> !Opens(content, i)
  }

  lemma {:induction false} SectionHere(content: string, k: nat)
    requires k <= |content|
    ensures var r := SectionStart(content, k);
      if Opens(content, k) then r.Some? && StartsAt(content, k, k, r.value)
      else r == if k == |content| then None else SectionStart(content, k + 1)
  {
    hide IsSpace, LastNewline, SkipSpaces;
    if OccursAt(content, MARKER, k) {
      OpensIff(content, k);
      LastNewlineIff(content[k + 15..SkipSpaces(content, k + 15)]);
    }
  }

  /** The section starts behind the first marker that opens one, after spaces only. */
  lemma {:induction false} SectionStartIs(content: string, k: nat)
    requires k <= |content|
    ensures var r := SectionStart(content, k);
      if r.None? then NoneOpens(content, k, |content| + 1) else exists j: nat :: StartsAt(content, k, j, r.value)
    decreases |content| - k
  {
    hide SectionStart, Opens, IsSpace;
    SectionHere(content, k);
    var r := SectionStart(content, k);
    if !Opens(content, k) && k < |content| {
      SectionStartIs(content, k + 1);
      if r.Some? {
        var j: nat :| StartsAt(content, k + 1, j, r.value);
        assert StartsAt(content, k, j, r.value);
      }
    }
  }

  lemma {:induction false} SectionEndIs(content: string, k: nat)
    requires k <= |content|
    ensures var r := SectionEnd(content, k);
      (forall j: nat :: k <= j < r ==> !Closes(content, j)) && (r < |content| ==> Closes(content, r))
    decreases |content| - k
  {
    if SectionEnd(content, k) != k { SectionEndIs(content, k + 1); }
  }

  /** The first marker that opens a section is followed by some text before the next version. */
  ghost predicate HasNotes(content: string) {
    exists k: nat, n: nat :: FirstOpens(content, k) && Noted(content, k, n)
  }

  ghost predicate FirstOpens(content: string, k: nat) {
    Opens(content, k) && forall i: nat :: i < k ==> !Opens(content, i)
  }

  /** That is exactly when there is something to release. */
  lemma {:induction false} HasNotesIff(content: string)
    ensures HasUnreleasedContent(content) <==> HasNotes(content)
  {
    hide IsSpace, Opens, Closes, SectionStart, SectionEnd, Trim;
    SectionStartIs(content, 0);
    var start := SectionStart(content, 0);
    if start.None? {
      forall k: nat ensures !Opens(content, k) { OpensInside(content, k); }
    } else {
      var k: nat :| StartsAt(content, 0, k, start.value);
      assert FirstOpens(content, k);
      SectionIsNoted(content, k, start.value);
      if HasNotes(content) {
        var k', n :| FirstOpens(content, k') && Noted(content, k', n);
        assert k' == k;
      }
    }
  }

  lemma {:induction false} OpensInside(content: string, k: nat)
    ensures Opens(content, k) ==> k < |content|
  {
  }

  lemma {:induction false} SectionIsNoted(content: string, k: nat, start: nat)
    requires k + 15 <= start <= |content| && forall i :: k + 15 <= i < start ==> IsSpace(content[i])
    ensures Trim(content[start..SectionEnd(content, start)]) != "" <==> exists n: nat :: Noted(content, k, n)
  {
    hide IsSpace, SectionEnd, Trim, Closes;
    var end := SectionEnd(content, start);
    var section := content[start..end];
    SectionEndIs(content, start);
    TrimEmpty(section);
    assert forall i :: 0 <= i < |section| ==> section[i] == content[start + i];
    forall j: nat | k + 15 <= j < start ensures !Closes(content, j) { SpaceDoesNotClose(content, j); }
    if Trim(section) != "" {
      var i :| 0 <= i < |section| && !IsSpace(section[i]);
      assert Noted(content, k, start + i);
    }
    if n: nat :| Noted(content, k, n) {
      assert n >= start && (end < |content| ==> n < end);
      assert section[n - start] == content[n];
    }
  }

  lemma {:induction false} SpaceDoesNotClose(content: string, j: nat)
    requires j < |content| && IsSpace(content[j])
    ensures !Closes(content, j)
  {
    NewlineIsSpace();
    if j + 4 <= |content| { assert content[j] == content[j..j + 4][0]; }
  }

  // ---------------------------------------------------------------------- the text that is written

  /** `next` is `text` with an empty unreleased section, in place of the blank lines below the title. */
  ghost predicate Reopens(text: string, next: string) {
    exists blank: nat :: ReopensAfter(text, blank, next)
  }

  ghost predicate ReopensAfter(text: string, blank: nat, next: string) {
    12 + blank <= |text| && text[..12] == "# Changelog\n" && (forall i :: 12 <= i < 12 + blank ==> text[i] == '\n') &&
    (12 + blank < |text| ==> text[12 + blank] != '\n') &&
    next == "# Changelog\n\n## [Unreleased]\n\n" + text[12 + blank..]
  }

  /**
   * The first marker gives way to the heading of the version and its date, with an empty section above it below the title;
   * if there are no notes, it stays, and the heading goes below it.
   */
  ghost predicate IsRewriteOf(content: string, version: string, date: string, next: string)
    requires FindFrom(content, MARKER, 0) != -1
  {
    var k := FindFrom(content, MARKER, 0);
    var released := content[..k] + "## [" + version + "] - " + date + content[k + 15..];
    if !HasNotes(content) then
      next == content[..k] + "## [Unreleased]\n\n## [" + version + "] - " + date + content[k + 15..]
    else if content[..k][..if k < 12 then k else 12] == "# Changelog\n" then Reopens(released, next)
    else next == released
  }

  lemma {:induction false} SkipNewlinesStops(s: string, k: nat)
    requires k <= |s|
    ensures var r := SkipNewlines(s, k); r < |s| ==> s[r] != '\n'
    decreases |s| - k
  {
    if k < |s| && s[k] == '\n' { SkipNewlinesStops(s, k + 1); }
  }

  lemma {:induction false} RestoreReopens(s: string)
    requires HEADER <= s
    ensures Reopens(s, RestoreMarker(s))
  {
    SkipNewlinesStops(s, |HEADER|);
    assert ReopensAfter(s, SkipNewlines(s, |HEADER|) - 12, RestoreMarker(s));
  }

  /** The rewritten text, character by character. */
  lemma {:induction false} RewrittenText(content: string, version: string, date: string)
    requires FindFrom(content, MARKER, 0) != -1 && Rewritten(content, version, date).Some?
    ensures IsRewriteOf(content, version, date, Rewritten(content, version, date).value)
  {
    hide FindFrom, HasUnreleasedContent, HasNotes, RestoreMarker, Reopens, ReplaceFirst, VersionHeading;
    HasNotesIff(content);
    var k := FindFrom(content, MARKER, 0);
    var line := VersionHeading(version, date);
    var next := ReplaceFirst(content, MARKER, line);
    PutText(content[..k], version, date, content[k + 15..]);
    Put(content, line);
    Put(content, MARKER + "\n\n" + line);
    TitleSame(content, line);
    TitleBefore(content, k);
    if HEADER <= next { RestoreReopens(next); } else { NotRestored(next); }
  }

  lemma {:induction false} Put(content: string, line: string)
    requires FindFrom(content, MARKER, 0) != -1
    ensures var k := FindFrom(content, MARKER, 0); ReplaceFirst(content, MARKER, line) == content[..k] + line + content[k + 15..]
  {
    hide FindFrom;
  }

  lemma {:induction false} PutText(left: string, version: string, date: string, right: string)
    ensures var line := VersionHeading(version, date);
      BRACKET <= line && left + line + right == left + "## [" + version + "] - " + date + right &&
      left + (MARKER + "\n\n" + line) + right == left + "## [Unreleased]\n\n## [" + version + "] - " + date + right
  {
    var line := VersionHeading(version, date);
    assert line[..4] == BRACKET;
    assert MARKER + "\n\n" + line == "## [Unreleased]\n\n## [" + version + "] - " + date;
  }

  lemma {:induction false} NotRestored(s: string)
    requires !(HEADER <= s)
    ensures RestoreMarker(s) == s
  {
  }

  lemma {:induction false} TitleBefore(content: string, k: nat)
    requires OccursAt(content, MARKER, k)
    ensures HEADER <= content <==> content[..k][..if k < 12 then k else 12] == "# Changelog\n"
  {
    assert content[k] == content[k..k + |MARKER|][0] && content[k + 1] == content[k..k + |MARKER|][1];
    if HEADER <= content { SignsBelowTitle(content, k); }
  }

  /**
   * The release rewrite. It throws exactly if it would leave no marker. What it
   * returns keeps the released headings, in the guard's eyes exactly if the marker splits none that is nowhere else;
   * a changelog without a marker stays as it is.
   */
  method ReleasedChangelogContent(content: string, version: string, date: string) returns (r: Option<string>)
    ensures r.None? <==> LosesMarker(content, version, date)
    ensures r.Some? && FindFrom(content, MARKER, 0) != -1 ==> IsRewriteOf(content, version, date, r.value)
    ensures FindFrom(content, MARKER, 0) == -1 ==> r == Some(content)
    ensures r.Some? && Releasable(content, version, date) ==>
      (CompareHistory(Some(content), Some(r.value)).None? <==> LosesNoHeading(content))
    ensures r.Some? && Releasable(content, version, date) && MarkerStartsLine(content) ==>
      KeepsHistory(content, version, r.value) && (HasUnreleased(Lines(r.value)) <==> LeavesUnreleased(content))
    ensures r == Rewritten(content, version, date)
  {
    hide HasUnreleasedContent, CompareHistory, IsRewriteOf, LosesMarker, LosesNoHeading, KeepsHistory, LeavesUnreleased, HasUnreleased, RestoreMarker,
      ReplaceFirst, VersionHeading, FindFrom, PlainVersion, MarkerStartsLine, Lines;
    if FindFrom(content, MARKER, 0) == -1 { UnmarkedStays(content, version, date); }
    ThrowsIff(content, version, date);
    if FindFrom(content, MARKER, 0) != -1 && Rewritten(content, version, date).Some? { RewrittenText(content, version, date); }
    if Release(content, version, date) {
      GuardAcceptsIff(content, version, date);
      if MarkerStartsLine(content) {
        HistoryIsKept(content, version, date);
        UnreleasedIsLeftIff(content, version, date);
      }
    }
    var next := content;
    if HasUnreleasedContent(content) {
      next := ReplaceFirst(next, MARKER, VersionHeading(version, date));
      next := RestoreMarker(next);
      if FindFrom(next, MARKER, 0) == -1 {
        return None;
      }
    } else {
      next := ReplaceFirst(next, MARKER, MARKER + "\n\n" + VersionHeading(version, date));
    }
    return Some(next);
  }
}
