/** Release versions compared as text, without ever converting an identifier to a machine number. */
module Versions {
  import opened Common
  import opened Splitting

  // ---------------------------------------------------------------------- decimal identifiers

  predicate IsDigit(c: char) {
    '0' <= c <= '9'
  }

  predicate AllDigits(s: string) {
    forall i :: 0 <= i < |s| ==> IsDigit(s[i])
  }

  /** `0` or a digit string without a leading zero. */
  predicate IsNumericIdentifier(s: string) {
    |s| > 0 && AllDigits(s) && (s[0] == '0' ==> |s| == 1)
  }

  function DigitValue(c: char): (d: nat)
    requires IsDigit(c)
    ensures d < 10
  {
    c as int - '0' as int
  }

  /** The number a digit string denotes. */
  ghost function Value(s: string): (n: nat)
    requires AllDigits(s)
  {
    if s == [] then 0 else 10 * Value(s[..|s| - 1]) + DigitValue(s[|s| - 1])
  }

  /** The decimal text of a number, without leading zeros. */
  function Decimal(n: nat): (s: string) {
    if n < 10 then [('0' as int + n) as char] else Decimal(n / 10) + [('0' as int + n % 10) as char]
  }

  lemma {:induction false} DecimalValue(n: nat)
    ensures IsNumericIdentifier(Decimal(n)) && Value(Decimal(n)) == n
    ensures n > 0 ==> Decimal(n)[0] != '0'
  {
    if n >= 10 {
      DecimalValue(n / 10);
      assert Decimal(n)[..|Decimal(n)| - 1] == Decimal(n / 10);
    } else {
      assert Decimal(n)[..0] == [];
    }
  }

  ghost function Power10(k: nat): (p: nat)
    ensures p >= 1
  {
    if k == 0 then 1 else 10 * Power10(k - 1)
  }

  lemma {:induction false} ValueBelow(s: string)
    requires AllDigits(s)
    ensures Value(s) < Power10(|s|)
  {
    if s != [] { ValueBelow(s[..|s| - 1]); }
  }

  lemma {:induction false} ValueAbove(s: string)
    requires AllDigits(s) && |s| > 0 && s[0] != '0'
    ensures Value(s) >= Power10(|s| - 1)
  {
    if |s| == 1 {
      assert s[..0] == [];
    } else {
      ValueAbove(s[..|s| - 1]);
    }
  }

  lemma {:induction false} Power10Grows(j: nat, k: nat)
    requires j <= k
    ensures Power10(j) <= Power10(k)
  {
    if j < k { Power10Grows(j, k - 1); }
  }

  // ---------------------------------------------------------------------- comparison

  /** String order, as the language compares two strings. */
  predicate TextLess(a: string, b: string) {
    if a == [] then b != []
    else b != [] && (a[0] < b[0] || (a[0] == b[0] && TextLess(a[1..], b[1..])))
  }

  /** Shorter first, then string order: `-1`, `0` or `1`. */
  function CompareNumericIdentifiers(left: string, right: string): (r: int) {
    if |left| != |right| then (if |left| < |right| then -1 else 1)
    else if TextLess(left, right) then -1
    else if TextLess(right, left) then 1
    else 0
  }

  function Sign(x: int): (r: int) {
    if x < 0 then -1 else if x > 0 then 1 else 0
  }

  /** Texts of one length compare by their last digit once the rest is equal. */
  lemma {:induction false} TextLessLast(a: string, b: string)
    requires |a| == |b| > 0
    ensures var a', b' := a[..|a| - 1], b[..|b| - 1];
            TextLess(a, b) <==> TextLess(a', b') || (a' == b' && a[|a| - 1] < b[|b| - 1])
  {
    var a', b' := a[..|a| - 1], b[..|b| - 1];
    if |a| == 1 {
      assert a' == [] && b' == [];
    } else {
      TextLessLast(a[1..], b[1..]);
      assert a[1..][..|a| - 2] == a'[1..] && b[1..][..|b| - 2] == b'[1..];
      assert a' == [a[0]] + a'[1..] && b' == [b[0]] + b'[1..];
    }
  }

  lemma {:induction false} SameLength(a: string, b: string)
    requires |a| == |b| && AllDigits(a) && AllDigits(b)
    ensures TextLess(a, b) <==> Value(a) < Value(b)
    ensures a == b <==> Value(a) == Value(b)
  {
    if a != [] {
      var a', b' := a[..|a| - 1], b[..|b| - 1];
      SameLength(a', b');
      TextLessLast(a, b);
      assert a == a' + [a[|a| - 1]] && b == b' + [b[|b| - 1]];
    }
  }

  lemma {:induction false} ShorterIsSmaller(a: string, b: string)
    requires IsNumericIdentifier(a) && IsNumericIdentifier(b) && |a| < |b|
    ensures Value(a) < Value(b)
  {
    ValueBelow(a);
    ValueAbove(b);
    Power10Grows(|a|, |b| - 1);
  }

  /** Length-then-text comparison is numeric comparison, at every size. */
  lemma {:induction false} ComparesNumerically(left: string, right: string)
    requires IsNumericIdentifier(left) && IsNumericIdentifier(right)
    ensures CompareNumericIdentifiers(left, right) == Sign(Value(left) - Value(right))
    ensures CompareNumericIdentifiers(left, right) == 0 <==> left == right
  {
    if |left| < |right| {
      ShorterIsSmaller(left, right);
    } else if |right| < |left| {
      ShorterIsSmaller(right, left);
    } else {
      SameLength(left, right);
      SameLength(right, left);
    }
  }

  // ---------------------------------------------------------------------- versions

  /** The parts of `s` between the dots. */
  function SplitDots(s: string): (parts: seq<string>)
    ensures |parts| > 0
  {
    Split(s, '.')
  }

  function JoinDots(parts: seq<string>): (s: string) {
    if parts == [] then []
    else if |parts| == 1 then parts[0]
    else parts[0] + "." + JoinDots(parts[1..])
  }

  predicate NoDot(s: string) {
    forall i :: 0 <= i < |s| ==> s[i] != '.'
  }

  lemma {:induction false} JoinSplit(s: string)
    ensures JoinDots(SplitDots(s)) == s
  {
    if s != [] {
      JoinSplit(s[1..]);
      var rest := SplitDots(s[1..]);
      if s[0] == '.' {
        assert ([[]] + rest)[1..] == rest;
        assert s == "." + s[1..];
      } else {
        var parts := [[s[0]] + rest[0]] + rest[1..];
        assert parts[1..] == rest[1..];
        assert s == [s[0]] + s[1..];
      }
    }
  }

  lemma {:induction false} SplitPart(p: string, s: string)
    requires NoDot(p)
    ensures SplitDots(p) == [p]
    ensures SplitDots(p + "." + s) == [p] + SplitDots(s)
  {
    OnePart(p, '.');
    SplitCut(p, '.', s);
  }

  /** An exact `X.Y.Z` version. */
  predicate IsStable(v: string) {
    var parts := SplitDots(v);
    |parts| == 3 && IsNumericIdentifier(parts[0]) && IsNumericIdentifier(parts[1]) && IsNumericIdentifier(parts[2])
  }

  predicate IsHexDigit(c: char) {
    IsDigit(c) || 'a' <= c <= 'f'
  }

  /** An exact `X.Y.Z-nightly.<utc>.<run>.g<sha>` version. */
  predicate IsNightly(v: string) {
    var parts := SplitDots(v);
    && |parts| == 6
    && IsNumericIdentifier(parts[0]) && IsNumericIdentifier(parts[1])
    && |parts[2]| > 8 && parts[2][|parts[2]| - 8..] == "-nightly" && IsNumericIdentifier(parts[2][..|parts[2]| - 8])
    && IsNumericIdentifier(parts[3]) && IsNumericIdentifier(parts[4])
    && |parts[5]| == 13 && parts[5][0] == 'g' && forall i :: 1 <= i < 13 ==> IsHexDigit(parts[5][i])
  }

  predicate IsReleaseVersion(v: string) {
    IsStable(v) || IsNightly(v)
  }

  /** The three numbers of a stable version. */
  ghost function Core(v: string): (c: (nat, nat, nat))
    requires IsStable(v)
  {
    var parts := SplitDots(v);
    (Value(parts[0]), Value(parts[1]), Value(parts[2]))
  }

  /** Precedence of two versions without pre-release, by item 11 of Semantic Versioning 2.0.0. */
  ghost function CoreOrder(a: (nat, nat, nat), b: (nat, nat, nat)): (r: int) {
    if a.0 != b.0 then Sign(a.0 - b.0) else if a.1 != b.1 then Sign(a.1 - b.1) else Sign(a.2 - b.2)
  }

  datatype VersionError = NotStable | NoVersions | BadRunId | BadSha | MixedLines

  method CompareStableVersions(left: string, right: string) returns (r: Result<int, VersionError>)
    ensures r.Ok? <==> IsStable(left) && IsStable(right)
    ensures r.Ok? ==> r.value == CoreOrder(Core(left), Core(right))
    ensures r.Ok? ==> (r.value == 0 <==> left == right)
  {
    hide SplitDots, IsNumericIdentifier, Value, CompareNumericIdentifiers;
    if !IsStable(left) || !IsStable(right) {
      return Err(NotStable);
    }
    var leftParts, rightParts := SplitDots(left), SplitDots(right);
    for index := 0 to 3
      invariant forall k :: 0 <= k < index ==> leftParts[k] == rightParts[k]
    {
      var comparison := CompareNumericIdentifiers(leftParts[index], rightParts[index]);
      ComparesNumerically(leftParts[index], rightParts[index]);
      if comparison != 0 {
        return Ok(comparison);
      }
    }
    JoinSplit(left);
    JoinSplit(right);
    assert leftParts == rightParts;
    return Ok(0);
  }

  /** The comparison is a total order: antisymmetric, transitive, and equal only on equal text. */
  lemma {:induction false} StableOrder(a: string, b: string, c: string)
    requires IsStable(a) && IsStable(b) && IsStable(c)
    ensures CoreOrder(Core(a), Core(b)) == -CoreOrder(Core(b), Core(a))
    ensures CoreOrder(Core(a), Core(b)) <= 0 && CoreOrder(Core(b), Core(c)) <= 0 ==> CoreOrder(Core(a), Core(c)) <= 0
    ensures CoreOrder(Core(a), Core(b)) == 0 <==> a == b
  {
    JoinSplit(a);
    JoinSplit(b);
    var p, q := SplitDots(a), SplitDots(b);
    ComparesNumerically(p[0], q[0]);
    ComparesNumerically(p[1], q[1]);
    ComparesNumerically(p[2], q[2]);
    if CoreOrder(Core(a), Core(b)) == 0 {
      assert p == q;
    }
  }

  // ---------------------------------------------------------------------- which texts are versions

  ghost function StableText(a: nat, b: nat, c: nat): (v: string) {
    Decimal(a) + "." + Decimal(b) + "." + Decimal(c)
  }

  /** The text of a nightly version: a stable one, a time, a run and twelve digits of a commit. */
  ghost function NightlyText(a: nat, b: nat, c: nat, utc: nat, run: nat, sha: string): (v: string) {
    StableText(a, b, c) + "-nightly." + Decimal(utc) + "." + Decimal(run) + ".g" + sha
  }

  ghost predicate IsSha(sha: string, n: nat) {
    |sha| == n && forall i :: 0 <= i < n ==> sha[i] in "0123456789abcdef"
  }

  lemma {:induction false} HexDigits(c: char)
    ensures IsHexDigit(c) <==> c in "0123456789abcdef"
  {
    if IsHexDigit(c) {
      var hex := "0123456789abcdef";
      var k := if IsDigit(c) then c as int - '0' as int else c as int - 'a' as int + 10;
      assert hex[k] == c;
    }
  }

  /** An identifier is the decimal text of its value. */
  lemma {:induction false} NumericIs(s: string)
    requires IsNumericIdentifier(s)
    ensures s == Decimal(Value(s))
  {
    DecimalValue(Value(s));
    ComparesNumerically(s, Decimal(Value(s)));
  }

  /** The stable versions are three numbers with dots between them, and these are their core. */
  lemma {:induction false} StableIff(v: string)
    ensures IsStable(v) <==> exists a, b, c :: v == StableText(a, b, c)
    ensures IsStable(v) ==> v == StableText(Core(v).0, Core(v).1, Core(v).2)
  {
    hide Decimal, Value;
    if IsStable(v) {
      var parts := SplitDots(v);
      NumericIs(parts[0]);
      NumericIs(parts[1]);
      NumericIs(parts[2]);
      JoinThree(v);
      assert v == StableText(Core(v).0, Core(v).1, Core(v).2);
    }
    forall a, b, c ensures IsStable(StableText(a, b, c)) { StableTextIs(a, b, c); }
  }

  lemma {:induction false} JoinThree(v: string)
    requires |SplitDots(v)| == 3
    ensures var parts := SplitDots(v); v == parts[0] + "." + parts[1] + "." + parts[2]
  {
    hide SplitDots;
    JoinSplit(v);
    var parts := SplitDots(v);
    assert parts == [parts[0], parts[1], parts[2]];
    JoinedThree(parts[0], parts[1], parts[2]);
  }

  lemma {:induction false} StableTextIs(a: nat, b: nat, c: nat)
    ensures IsStable(StableText(a, b, c)) && Core(StableText(a, b, c)) == (a, b, c)
  {
    hide Decimal, Value, SplitDots;
    DecimalValue(a);
    DecimalValue(b);
    DecimalValue(c);
    CoreText(Decimal(a), Decimal(b), Decimal(c));
  }

  lemma {:induction false} JoinSix(v: string)
    requires |SplitDots(v)| == 6
    ensures var p := SplitDots(v); v == p[0] + "." + p[1] + "." + p[2] + "." + (p[3] + "." + p[4] + "." + p[5])
  {
    hide SplitDots;
    JoinSplit(v);
    var p := SplitDots(v);
    var rest := [p[3], p[4], p[5]];
    JoinedThree(p[3], p[4], p[5]);
    assert p[1..] == [p[1], p[2]] + rest && p[1..][1..] == [p[2]] + rest && ([p[2]] + rest)[1..] == rest;
    JoinedFirst(p[2], rest);
    JoinedFirst(p[1], [p[2]] + rest);
    assert [p[1]] + ([p[2]] + rest) == p[1..];
    JoinedFirst(p[0], p[1..]);
    assert [p[0]] + p[1..] == p;
  }

  lemma {:induction false} JoinedThree(a: string, b: string, c: string)
    ensures JoinDots([a, b, c]) == a + "." + b + "." + c
  {
    JoinedFirst(b, [c]);
    JoinedFirst(a, [b] + [c]);
    assert [b] + [c] == [b, c] && [a] + [b, c] == [a, b, c] && JoinDots([c]) == c;
  }

  lemma {:induction false} JoinedFirst(a: string, rest: seq<string>)
    requires rest != []
    ensures JoinDots([a] + rest) == a + "." + JoinDots(rest)
  {
    assert ([a] + rest)[1..] == rest;
  }

  /** The nightly versions are exactly these texts. */
  lemma {:induction false} NightlyIff(v: string)
    ensures IsNightly(v) <==> exists a, b, c, utc, run, sha :: IsSha(sha, 12) && v == NightlyText(a, b, c, utc, run, sha)
  {
    if IsNightly(v) { NightlyHasText(v); }
    forall a, b, c, utc, run, sha | IsSha(sha, 12) ensures IsNightly(NightlyText(a, b, c, utc, run, sha)) {
      NightlyTextIs(a, b, c, utc, run, sha);
    }
  }

  lemma {:induction false} NightlyHasText(v: string)
    requires IsNightly(v)
    ensures exists a, b, c, utc, run, sha :: IsSha(sha, 12) && v == NightlyText(a, b, c, utc, run, sha)
  {
    hide Decimal, Value, SplitDots;
    var p := SplitDots(v);
    var patch, sha := p[2][..|p[2]| - 8], p[5][1..];
    NumericIs(p[0]);
    NumericIs(p[1]);
    NumericIs(patch);
    NumericIs(p[3]);
    NumericIs(p[4]);
    forall i | 0 <= i < 12 ensures sha[i] in "0123456789abcdef" { HexDigits(p[5][i + 1]); }
    JoinSix(v);
    assert p[2] == patch + "-nightly" && p[5] == "g" + sha;
    assert v == NightlyText(Value(p[0]), Value(p[1]), Value(patch), Value(p[3]), Value(p[4]), sha);
  }

  lemma {:induction false} NightlyTextIs(a: nat, b: nat, c: nat, utc: nat, run: nat, sha: string)
    requires IsSha(sha, 12)
    ensures IsNightly(NightlyText(a, b, c, utc, run, sha))
  {
    hide Decimal, Value;
    DecimalValue(a);
    DecimalValue(b);
    DecimalValue(c);
    DecimalValue(utc);
    DecimalValue(run);
    forall i | 0 <= i < 12 ensures IsHexDigit(sha[i]) { HexDigits(sha[i]); }
    NightlyParts(Decimal(a), Decimal(b), Decimal(c), Decimal(utc), Decimal(run), sha);
    assert NightlyText(a, b, c, utc, run, sha) ==
      Decimal(a) + "." + Decimal(b) + "." + Decimal(c) + "-nightly." + Decimal(utc) + "." + Decimal(run) + ".g" + sha;
  }

  lemma {:induction false} NightlyParts(a: string, b: string, c: string, utc: string, run: string, sha: string)
    requires IsNumericIdentifier(a) && IsNumericIdentifier(b) && IsNumericIdentifier(c)
    requires IsNumericIdentifier(utc) && IsNumericIdentifier(run) && |sha| == 12 && forall i :: 0 <= i < 12 ==> IsHexDigit(sha[i])
    ensures IsNightly(a + "." + b + "." + c + "-nightly." + utc + "." + run + ".g" + sha)
  {
    var v := a + "." + b + "." + c + "-nightly." + utc + "." + run + ".g" + sha;
    var last := "g" + sha;
    var patch := c + "-nightly";
    NoDots(patch, last, c, sha);
    SplitSix(a, b, patch, utc, run, last);
    assert v == a + "." + (b + "." + (patch + "." + (utc + "." + (run + "." + last))));
    assert patch[|patch| - 8..] == "-nightly" && patch[..|patch| - 8] == c;
    assert forall i :: 1 <= i < 13 ==> last[i] == sha[i - 1];
  }

  lemma {:induction false} NoDots(patch: string, last: string, c: string, sha: string)
    requires patch == c + "-nightly" && last == "g" + sha && IsNumericIdentifier(c) && forall i :: 0 <= i < |sha| ==> IsHexDigit(sha[i])
    ensures NoDot(patch) && NoDot(last)
  {
    assert NoDot("-nightly");
  }

  lemma {:induction false} SplitSix(a: string, b: string, c: string, d: string, e: string, f: string)
    requires NoDot(a) && NoDot(b) && NoDot(c) && NoDot(d) && NoDot(e) && NoDot(f)
    ensures SplitDots(a + "." + (b + "." + (c + "." + (d + "." + (e + "." + f))))) == [a, b, c, d, e, f]
  {
    hide SplitDots, NoDot;
    SplitPart(a, b + "." + (c + "." + (d + "." + (e + "." + f))));
    SplitPart(b, c + "." + (d + "." + (e + "." + f)));
    SplitPart(c, d + "." + (e + "." + f));
    SplitPart(d, e + "." + f);
    SplitPart(e, f);
    SplitPart(f, []);
  }

  /** A release version is a stable or a nightly one. */
  lemma {:induction false} ReleaseVersionIff(v: string)
    ensures IsReleaseVersion(v) <==>
      (exists a, b, c :: v == StableText(a, b, c)) ||
      exists a, b, c, utc, run, sha :: IsSha(sha, 12) && v == NightlyText(a, b, c, utc, run, sha)
  {
    hide IsStable, IsNightly, StableText, NightlyText, IsSha;
    StableIff(v);
    NightlyIff(v);
  }

  // ---------------------------------------------------------------------- nightly versions

  /** The positive integers are the decimal texts of the positive numbers. */
  lemma {:induction false} PositiveIff(s: string)
    ensures IsPositiveInteger(s) <==> exists n: nat :: n > 0 && s == Decimal(n)
  {
    if IsPositiveInteger(s) {
      NumericIs(s);
      PositiveValue(s);
    }
    forall n: nat | n > 0 ensures IsPositiveInteger(Decimal(n)) { DecimalValue(n); }
  }

  lemma {:induction false} PositiveValue(s: string)
    requires IsNumericIdentifier(s) && s[0] != '0'
    ensures Value(s) > 0
  {
    if |s| > 1 { PositiveValue(s[..|s| - 1]); }
  }

  predicate IsPositiveInteger(s: string) {
    IsNumericIdentifier(s) && s[0] != '0'
  }

  predicate IsSourceSha(s: string) {
    |s| == 40 && forall i :: 0 <= i < 40 ==> IsHexDigit(s[i])
  }

  predicate AllStable(vs: seq<string>) {
    forall i :: 0 <= i < |vs| ==> IsStable(vs[i])
  }

  predicate OneLine(vs: seq<string>)
    requires AllStable(vs)
  {
    forall i :: 0 <= i < |vs| ==> SplitDots(vs[i])[0] == SplitDots(vs[0])[0] && SplitDots(vs[i])[1] == SplitDots(vs[0])[1]
  }

  /** All versions have the same major and the same minor number. */
  ghost predicate SameLine(vs: seq<string>)
    requires AllStable(vs)
  {
    forall i, j :: 0 <= i < |vs| && 0 <= j < |vs| ==> Core(vs[i]).0 == Core(vs[j]).0 && Core(vs[i]).1 == Core(vs[j]).1
  }

  lemma {:induction false} OneLineIff(vs: seq<string>)
    requires AllStable(vs)
    ensures OneLine(vs) <==> SameLine(vs)
  {
    hide SplitDots, Value, CompareNumericIdentifiers;
    forall i, j | 0 <= i < |vs| && 0 <= j < |vs|
      ensures Core(vs[i]).0 == Core(vs[j]).0 <==> SplitDots(vs[i])[0] == SplitDots(vs[j])[0]
      ensures Core(vs[i]).1 == Core(vs[j]).1 <==> SplitDots(vs[i])[1] == SplitDots(vs[j])[1]
    {
      ComparesNumerically(SplitDots(vs[i])[0], SplitDots(vs[j])[0]);
      ComparesNumerically(SplitDots(vs[i])[1], SplitDots(vs[j])[1]);
    }
  }

  lemma {:induction false} CoreText(major: string, minor: string, patch: string)
    requires IsNumericIdentifier(major) && IsNumericIdentifier(minor) && IsNumericIdentifier(patch)
    ensures SplitDots(major + "." + minor + "." + patch) == [major, minor, patch]
    ensures IsStable(major + "." + minor + "." + patch)
  {
    SplitPart(major, minor + "." + patch);
    SplitPart(minor, patch);
    SplitPart(patch, []);
    assert major + "." + minor + "." + patch == major + "." + (minor + "." + patch);
  }

  /**
   * The nightly version `core + suffix`: it succeeds exactly on a non-empty list of stable versions
   * of one major/minor line, and its core is on that line and has precedence over every one of them.
   */
  method DeriveNightlyVersion(stableVersions: seq<string>, utc: string, runId: string, sourceSha: string)
    returns (r: Result<string, VersionError>, core: string)
    ensures r.Ok? <==> && stableVersions != [] && IsPositiveInteger(runId) && IsSourceSha(sourceSha)
                       && AllStable(stableVersions) && SameLine(stableVersions)
    ensures r.Ok? ==> IsStable(core) && r.value == core + "-nightly." + utc + "." + runId + ".g" + sourceSha[..12]
    ensures r.Ok? && IsNumericIdentifier(utc) ==> IsNightly(r.value)
    ensures r.Ok? ==> forall i :: 0 <= i < |stableVersions| ==> CoreOrder(Core(core), Core(stableVersions[i])) == 1
    ensures r.Ok? ==> forall i :: 0 <= i < |stableVersions| ==>
      Core(core).0 == Core(stableVersions[i]).0 && Core(core).1 == Core(stableVersions[i]).1
    ensures r.Ok? ==> exists i :: 0 <= i < |stableVersions| && Core(core).2 == Core(stableVersions[i]).2 + 1
  {
    hide SplitDots, Value, CompareNumericIdentifiers, IsHexDigit;
    core := [];
    if stableVersions == [] { return Err(NoVersions), core; }
    if !IsPositiveInteger(runId) { return Err(BadRunId), core; }
    if !IsSourceSha(sourceSha) { return Err(BadSha), core; }
    if !AllStable(stableVersions) { return Err(NotStable), core; }
    var major, minor := SplitDots(stableVersions[0])[0], SplitDots(stableVersions[0])[1];
    OneLineIff(stableVersions);
    if !OneLine(stableVersions) { return Err(MixedLines), core; }
    var highest := SplitDots(stableVersions[0])[2];
    for i := 1 to |stableVersions|
      invariant IsNumericIdentifier(highest)
      invariant exists k :: 0 <= k < i && highest == SplitDots(stableVersions[k])[2]
      invariant forall k :: 0 <= k < i ==> Value(SplitDots(stableVersions[k])[2]) <= Value(highest)
    {
      var candidate := SplitDots(stableVersions[i])[2];
      ComparesNumerically(candidate, highest);
      if CompareNumericIdentifiers(candidate, highest) > 0 {
        highest := candidate;
      }
    }
    var nextPatch := Increment(highest);
    CoreText(major, minor, nextPatch);
    core := major + "." + minor + "." + nextPatch;
    if IsNumericIdentifier(utc) { NightlyParts(major, minor, nextPatch, utc, runId, sourceSha[..12]); }
    return Ok(core + "-nightly." + utc + "." + runId + ".g" + sourceSha[..12]), core;
  }

  /** Arbitrary-precision `+ 1` on decimal text. */
  method Increment(s: string) returns (r: string)
    requires IsNumericIdentifier(s)
    ensures IsNumericIdentifier(r) && Value(r) == Value(s) + 1
  {
    var n := 0;
    for i := 0 to |s|
      invariant n == Value(s[..i])
    {
      assert s[..i + 1][..i] == s[..i];
      n := 10 * n + DigitValue(s[i]);
    }
    assert s[..|s|] == s;
    DecimalValue(n + 1);
    r := Decimal(n + 1);
  }
}
