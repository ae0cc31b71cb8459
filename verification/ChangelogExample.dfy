/** Changelogs whose rewrite loses a heading: a released one the guard misses, and the unreleased one. */
module ChangelogExample {
  import opened Common
  import opened Changelog

  const LEFT := "# Changelog\n## [a"
  const RIGHT := "\nx"

  function Content(): (r: string) {
    LEFT + MARKER + RIGHT
  }

  lemma {:induction false} MarkerIsFirst()
    ensures |LEFT| == 17 && OccursAt(Content(), MARKER, 17) && forall j: nat :: j < 17 ==> !OccursAt(Content(), MARKER, j)
  {
    var s := Content();
    assert s[17..32] == MARKER;
    forall j: nat | j < 17 ensures !OccursAt(s, MARKER, j) {
      assert LEFT[..4] == "# Ch" && s[..17] == LEFT;
      assert s[j + 4] != 'U';
      assert MARKER[4] == 'U';
      assert j + 15 <= |s| ==> s[j..j + 15][4] == s[j + 4];
    }
  }

  lemma {:induction false} SectionSkip(s: string, j: nat, k: nat)
    requires j <= k <= |s| && forall i: nat :: j <= i < k ==> !OccursAt(s, MARKER, i)
    ensures SectionStart(s, j) == SectionStart(s, k)
    decreases k - j
  {
    hide OccursAt;
    if j < k { SectionSkip(s, j + 1, k); }
  }

  lemma {:induction false} TrimNotEmpty(s: string)
    requires s != "" && !IsSpace(s[0])
    ensures TrimEnd(s) != ""
  {
    hide IsSpace;
    if IsSpace(s[|s| - 1]) { TrimNotEmpty(s[..|s| - 1]); }
  }

  /** Text on the line after the first marker is content. */
  lemma {:induction false} TextIsContent(s: string, k: nat)
    requires k + 16 < |s| && OccursAt(s, MARKER, k) && forall j: nat :: j < k ==> !OccursAt(s, MARKER, j)
    requires s[k + 15] == '\n' && !IsSpace(s[k + 16]) && s[k + 16] != '#'
    ensures HasUnreleasedContent(s)
  {
    SectionSkip(s, 0, k);
    assert SkipSpaces(s, k + 16) == k + 16;
    assert SkipSpaces(s, k + 15) == k + 16;
    assert s[k + 15..k + 16] == "\n";
    assert SectionStart(s, k) == Some(k + 16);
    NotAHeading(s, k + 16);
    var end := SectionEnd(s, k + 16);
    assert s[k + 16..end][0] == s[k + 16];
    TrimNotEmpty(s[k + 16..end]);
  }

  lemma {:induction false} NotAHeading(s: string, k: nat)
    requires k < |s| && s[k] != '#'
    ensures SectionEnd(s, k) > k
  {
    if OccursAt(s, "## [", k) { assert s[k..k + 4][0] == '#'; }
  }

  lemma {:induction false} ContentIsThere()
    ensures HasUnreleasedContent(Content())
  {
    hide HasUnreleasedContent, OccursAt;
    MarkerIsFirst();
    var s := Content();
    assert s[32] == '\n' && s[33] == 'x' && |s| == 34;
    TextIsContent(s, 17);
  }

  lemma {:induction false} LeftLine()
    ensures MarkerFound() && MarkerCut(Content()).before == ["# Changelog"] && MarkerCut(Content()).left == "## [a"
    ensures MarkerCut(Content()).after == ["x"]
  {
    hide Lines, OccursAt;
    MarkerIsFirst();
    var s := Content();
    assert s[..17] == "# Changelog" + "\n" + "## [a";
    LinesNewline("# Changelog", "## [a");
    OneLine("# Changelog");
    OneLine("## [a");
    assert s[32..] == "" + "\n" + "x";
    LinesNewline("", "x");
    OneLine("");
    OneLine("x");
  }

  ghost predicate MarkerFound() {
    FindFrom(Content(), MARKER, 0) != -1
  }

  lemma {:induction false} HeadingIsOpen()
    ensures LeavesOpen("## [a" + BRACKET) && Lead("## [a") == "a## ["
  {
    var s := "## [a" + BRACKET;
    assert s[..2] == "##" && s[2] == ' ' && s[3] == '[' && !IsSpace('[') && IsSpace(' ');
    assert SkipSpaces(s, 3) == 3;
    assert s[4..] == "a## [";
  }

  lemma {:induction false} VersionIsPlain()
    ensures PlainVersion("1.0.0") && PlainDate("2026-01-01")
  {
    assert LowerCase("1.0.0")[0] == '1';
  }

  lemma {:induction false} ContentStarts()
    ensures |Content()| > 17 && Content()[..12] == HEADER && |HEADER| == 12
  {
    assert LEFT[..12] == HEADER;
  }

  lemma {:induction false} IsRewritten()
    ensures Release(Content(), "1.0.0", "2026-01-01")
  {
    hide HasUnreleasedContent, PlainVersion, FindFrom, RestoreMarker, OccursAt, VersionHeading, Content;
    ContentIsThere();
    VersionIsPlain();
    LeftLine();
    MarkerIsFirst();
    ContentStarts();
    var next := ReplaceFirst(Content(), MARKER, VersionHeading("1.0.0", "2026-01-01"));
    assert next[..12] == Content()[..12];
    RestoredHasMarker(next);
  }

  /** The heading `a## [Unreleased` is lost, and the guard says so. */
  lemma {:induction false} SplitHeadingIsRefused()
    ensures Release(Content(), "1.0.0", "2026-01-01")
    ensures CompareHistory(Some(Content()), Some(Rewritten(Content(), "1.0.0", "2026-01-01").value)).Some?
  {
    hide Rewritten, CompareHistory, HasUnreleasedContent, LeavesOpen, MarkerCut, Content, Lines;
    IsRewritten();
    LeftLine();
    HeadingIsOpen();
    ContentIsThere();
    assert ReleasedIn(["# Changelog"]) == [] && ReleasedIn(["x"]) == [] by {
      NoHeading();
    }
    GuardAcceptsIff(Content(), "1.0.0", "2026-01-01");
  }

  // ---------------------------------------------------------------------- the unreleased heading is not left

  const MENTION := "x " + MARKER

  /** A changelog without a title that also mentions the marker in its text. */
  function Untitled(): (r: string) {
    MARKER + "\n" + MENTION
  }

  lemma {:induction false} UntitledLines()
    ensures FindFrom(Untitled(), MARKER, 0) == 0
    ensures MarkerCut(Untitled()).before == [] && MarkerCut(Untitled()).after == [MENTION]
  {
    hide Lines;
    var s := Untitled();
    assert OccursAt(s, MARKER, 0) by { assert s[0..15] == MARKER; }
    assert s[..0] == "" && s[15..] == "" + "\n" + MENTION;
    LinesNewline("", MENTION);
    OneLine("");
    OneLine(MENTION);
  }

  lemma {:induction false} UntitledIsRewritten()
    ensures Release(Untitled(), "1.0.0", "2026-01-01") && HasUnreleasedContent(Untitled())
  {
    hide HasUnreleasedContent, PlainVersion, FindFrom, VersionHeading, RestoreMarker, Untitled;
    UntitledLines();
    UntitledHasContent();
    VersionIsPlain();
    PlainHeading("1.0.0", "2026-01-01");
    StillMentioned(VersionHeading("1.0.0", "2026-01-01"));
  }

  lemma {:induction false} UntitledHasContent()
    ensures HasUnreleasedContent(Untitled())
  {
    hide HasUnreleasedContent;
    var s := Untitled();
    assert s[0..15] == MARKER && s[15] == '\n' && s[16] == 'x' && !IsSpace('x');
    TextIsContent(s, 0);
  }

  lemma {:induction false} StillMentioned(heading: string)
    requires BRACKET <= heading
    ensures FindFrom(RestoreMarker(ReplaceFirst(Untitled(), MARKER, heading)), MARKER, 0) != -1
  {
    hide FindFrom;
    UntitledLines();
    var next := heading + "\n" + MENTION;
    assert ReplaceFirst(Untitled(), MARKER, heading) == next;
    assert next[1] == '#' && HEADER[1] == ' ';
    assert OccursAt(next, MARKER, |heading| + 3) by { assert next[|heading| + 3..] == MARKER; }
  }

  /** The rewrite succeeds because the text still mentions the marker, but no line is an unreleased heading. */
  lemma {:induction false} UnreleasedIsNotLeft()
    ensures Release(Untitled(), "1.0.0", "2026-01-01")
    ensures !HasUnreleased(Lines(Rewritten(Untitled(), "1.0.0", "2026-01-01").value))
  {
    hide Rewritten, HasUnreleasedContent, MarkerCut, Lines, FindFrom;
    UntitledLines();
    UntitledIsRewritten();
    UnreleasedIsLeftIff(Untitled(), "1.0.0", "2026-01-01");
    assert [] + [MENTION] == [MENTION] && MENTION[..2] == "x ";
    assert Untitled()[1] == '#' && HEADER[1] == ' ';
  }
}
