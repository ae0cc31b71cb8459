/** Which texts, numbers, paths and modes a tar header may hold, said without the tests that decide it. */
module TarText {
  import opened Common
  import opened Splitting
  import opened TarFields
  import opened TarPaths

  // ---------------------------------------------------------------------- UTF-8

  /** The code points that can be encoded: all but the surrogates. */
  ghost predicate IsScalar(c: int) {
    0 <= c <= 0x10FFFF && !(0xD800 <= c <= 0xDFFF)
  }

  /** The bytes of a code point, by section 3 of RFC 3629. */
  ghost function Encode(c: int): (s: Data)
    requires IsScalar(c)
  {
    if c < 0x80 then [c]
    else if c < 0x800 then [0xC0 + c / 64, 0x80 + c % 64]
    else if c < 0x10000 then [0xE0 + c / 64 / 64, 0x80 + c / 64 % 64, 0x80 + c % 64]
    else [0xF0 + c / 64 / 64 / 64, 0x80 + c / 64 / 64 % 64, 0x80 + c / 64 % 64, 0x80 + c % 64]
  }

  ghost predicate AllScalar(cs: seq<int>) {
    forall i :: 0 <= i < |cs| ==> IsScalar(cs[i])
  }

  ghost function EncodeAll(cs: seq<int>): (s: Data)
    requires AllScalar(cs)
  {
    if cs == [] then [] else Encode(cs[0]) + EncodeAll(cs[1..])
  }

  lemma {:induction false} EncodedIsRead(c: int, rest: Data)
    requires IsScalar(c)
    ensures CharLength(Encode(c) + rest) == |Encode(c)|
  {
    var s := Encode(c) + rest;
    assert |s| >= |Encode(c)| && forall i :: 0 <= i < |Encode(c)| ==> s[i] == Encode(c)[i];
  }

  lemma {:induction false} Digits64(high: int, low: int)
    requires 0 <= low < 64
    ensures (64 * high + low) / 64 == high && (64 * high + low) % 64 == low
  {
  }

  /** The character at the front of a text is the encoding of a code point. */
  lemma {:induction false} FrontIsEncoded(s: Data) returns (c: int)
    requires CharLength(s) > 0
    ensures IsScalar(c) && s[..CharLength(s)] == Encode(c)
  {
    var n := CharLength(s);
    if n == 1 {
      c := s[0];
    } else if n == 2 {
      c := TwoBytes(s);
    } else if n == 3 {
      c := ThreeBytes(s);
    } else {
      c := FourBytes(s);
    }
  }

  lemma {:induction false} TwoBytes(s: Data) returns (c: int)
    requires CharLength(s) == 2
    ensures IsScalar(c) && s[..2] == Encode(c)
  {
    c := 64 * (s[0] - 0xC0) + (s[1] - 0x80);
    Digits64(s[0] - 0xC0, s[1] - 0x80);
  }

  lemma {:induction false} ThreeBytes(s: Data) returns (c: int)
    requires CharLength(s) == 3
    ensures IsScalar(c) && s[..3] == Encode(c)
  {
    var high := 64 * (s[0] - 0xE0) + (s[1] - 0x80);
    c := 64 * high + (s[2] - 0x80);
    Digits64(s[0] - 0xE0, s[1] - 0x80);
    Digits64(high, s[2] - 0x80);
  }

  lemma {:induction false} FourBytes(s: Data) returns (c: int)
    requires CharLength(s) > 3
    ensures CharLength(s) == 4 && IsScalar(c) && s[..4] == Encode(c)
  {
    var top := 64 * (s[0] - 0xF0) + (s[1] - 0x80);
    var high := 64 * top + (s[2] - 0x80);
    c := 64 * high + (s[3] - 0x80);
    Digits64(s[0] - 0xF0, s[1] - 0x80);
    Digits64(top, s[2] - 0x80);
    Digits64(high, s[3] - 0x80);
  }

  lemma {:induction false} ValidIsEncoded(s: Data) returns (cs: seq<int>)
    requires ValidUtf8(s)
    ensures AllScalar(cs) && s == EncodeAll(cs)
    decreases |s|
  {
    hide CharLength, Encode, IsScalar;
    if s == [] {
      cs := [];
    } else {
      var n := CharLength(s);
      var c := FrontIsEncoded(s);
      var rest := ValidIsEncoded(s[n..]);
      cs := [c] + rest;
      assert cs[1..] == rest && s == s[..n] + s[n..];
    }
  }

  lemma {:induction false} EncodedIsValid(cs: seq<int>)
    requires AllScalar(cs)
    ensures ValidUtf8(EncodeAll(cs))
  {
    hide CharLength, Encode, IsScalar;
    if cs != [] {
      EncodedIsRead(cs[0], EncodeAll(cs[1..]));
      EncodedIsSome(cs[0]);
      EncodedIsValid(cs[1..]);
      var s := EncodeAll(cs);
      assert s[|Encode(cs[0])|..] == EncodeAll(cs[1..]);
    }
  }

  lemma {:induction false} EncodedIsSome(c: int)
    requires IsScalar(c)
    ensures Encode(c) != []
  {
  }

  /** A text is valid exactly if it encodes some code points. */
  lemma {:induction false} ValidIff(s: Data)
    ensures ValidUtf8(s) <==> exists cs :: AllScalar(cs) && s == EncodeAll(cs)
  {
    hide ValidUtf8, EncodeAll, AllScalar;
    if ValidUtf8(s) { var cs := ValidIsEncoded(s); }
    forall cs | AllScalar(cs) ensures ValidUtf8(EncodeAll(cs)) { EncodedIsValid(cs); }
  }

  /** A byte-order mark is the encoding of U+FEFF. */
  lemma {:induction false} BomIs(s: Data)
    ensures HasBom(s) <==> Encode(0xFEFF) <= s
  {
    assert Encode(0xFEFF) == [0xEF, 0xBB, 0xBF];
  }

  // ---------------------------------------------------------------------- numbers

  ghost predicate AllBlank(s: Data) {
    forall i :: 0 <= i < |s| ==> 9 <= s[i] <= 13 || s[i] == 32
  }

  ghost predicate AllPadding(s: Data) {
    forall i :: 0 <= i < |s| ==> s[i] == 0 || s[i] == 32
  }

  /** Octal digits of this value, blanks on both sides of them, and then NULs and spaces. */
  ghost predicate IsNumber(text: Data, front: Data, digits: Data, back: Data, padding: Data, value: nat) {
    AllBlank(front) && OctalDigits(digits) && AllBlank(back) && AllPadding(padding) &&
    text == front + digits + back + padding && value == OctalValue(digits)
  }

  lemma {:induction false} StripIs(s: Data) returns (padding: Data)
    ensures AllPadding(padding) && s == StripEnd(s) + padding
  {
    if s != [] && IsNulOrSpace(s[|s| - 1]) {
      var rest := StripIs(s[..|s| - 1]);
      padding := rest + [s[|s| - 1]];
      assert s == s[..|s| - 1] + [s[|s| - 1]];
    } else {
      padding := [];
      assert s + [] == s;
    }
  }

  lemma {:induction false} TrimEndIs(s: Data) returns (back: Data)
    ensures AllBlank(back) && s == TrimEnd(s) + back
  {
    if s != [] && IsWhitespace(s[|s| - 1]) {
      var rest := TrimEndIs(s[..|s| - 1]);
      back := rest + [s[|s| - 1]];
      assert s == s[..|s| - 1] + [s[|s| - 1]];
    } else {
      back := [];
      assert s + [] == s;
    }
  }

  lemma {:induction false} TrimStartIs(s: Data) returns (front: Data)
    ensures AllBlank(front) && s == front + TrimStart(s)
  {
    if s != [] && IsWhitespace(s[0]) {
      var rest := TrimStartIs(s[1..]);
      front := [s[0]] + rest;
      assert s == [s[0]] + s[1..];
    } else {
      front := [];
      assert [] + s == s;
    }
  }

  lemma {:induction false} ParsedIsNumber(field: Data) returns (front: Data, digits: Data, back: Data, padding: Data)
    requires ParseOctal(field).Some?
    ensures IsNumber(Ascii(field), front, digits, back, padding, ParseOctal(field).value)
    ensures ParseOctal(field).value <= 9007199254740991
  {
    hide StripEnd, TrimEnd, TrimStart, OctalValue;
    var text := Ascii(field);
    padding := StripIs(text);
    front := TrimStartIs(StripEnd(text));
    digits := TrimEnd(TrimStart(StripEnd(text)));
    back := TrimEndIs(TrimStart(StripEnd(text)));
    NoDigits();
    assert text == front + (digits + back) + padding;
    assert text == front + digits + back + padding;
  }

  lemma {:induction false} NoDigits()
    ensures OctalValue([]) == 0
  {
  }

  lemma {:induction false} StripsPadding(s: Data, padding: Data)
    requires AllPadding(padding)
    ensures StripEnd(s + padding) == StripEnd(s)
  {
    if padding == [] {
      assert s + padding == s;
    } else {
      assert (s + padding)[..|s + padding| - 1] == s + padding[..|padding| - 1];
      StripsPadding(s, padding[..|padding| - 1]);
    }
  }

  lemma {:induction false} TrimsBack(s: Data, back: Data)
    requires AllBlank(back)
    ensures TrimEnd(s + back) == TrimEnd(s)
  {
    if back == [] {
      assert s + back == s;
    } else {
      assert (s + back)[..|s + back| - 1] == s + back[..|back| - 1];
      TrimsBack(s, back[..|back| - 1]);
    }
  }

  lemma {:induction false} TrimsFront(front: Data, s: Data)
    requires AllBlank(front)
    ensures TrimStart(front + s) == TrimStart(s)
  {
    if front == [] {
      assert front + s == s;
    } else {
      assert (front + s)[1..] == front[1..] + s;
      TrimsFront(front[1..], s);
    }
  }

  /** What stripping leaves of some blanks is blank. */
  lemma {:induction false} StripLeavesBlanks(s: Data, back: Data) returns (rest: Data)
    requires AllBlank(back) && (s == [] || !IsNulOrSpace(s[|s| - 1]))
    ensures AllBlank(rest) && StripEnd(s + back) == s + rest
  {
    if back == [] {
      rest := [];
      assert s + back == s && s + rest == s;
    } else if IsNulOrSpace(back[|back| - 1]) {
      assert (s + back)[..|s + back| - 1] == s + back[..|back| - 1];
      rest := StripLeavesBlanks(s, back[..|back| - 1]);
    } else {
      rest := back;
      assert (s + back)[|s + back| - 1] == back[|back| - 1];
    }
  }

  lemma {:induction false} NumberIsParsed(field: Data, front: Data, digits: Data, back: Data, padding: Data, value: nat)
    requires IsNumber(Ascii(field), front, digits, back, padding, value) && value <= 9007199254740991
    ensures ParseOctal(field) == Some(value)
  {
    hide StripEnd, TrimEnd, TrimStart, OctalValue;
    NoDigits();
    StripsPadding(front + digits + back, padding);
    if digits == [] {
      assert front + digits + back == [] + (front + back) && AllBlank(front + back);
      var rest := StripLeavesBlanks([], front + back);
      TrimsFront(rest, []);
      assert rest + [] == rest == [] + rest;
      NothingLeft();
    } else {
      var s := front + digits;
      assert s[|s| - 1] == digits[|digits| - 1];
      var rest := StripLeavesBlanks(s, back);
      TrimsFront(front, digits + rest);
      assert s + rest == front + (digits + rest);
      DigitsStay(digits, rest);
    }
  }

  lemma {:induction false} NothingLeft()
    ensures TrimStart([]) == [] && TrimEnd([]) == []
  {
  }

  lemma {:induction false} DigitsStay(digits: Data, rest: Data)
    requires digits != [] && OctalDigits(digits) && AllBlank(rest)
    ensures TrimEnd(TrimStart(digits + rest)) == digits
  {
    TrimsBack(digits, rest);
    assert (digits + rest)[0] == digits[0];
  }

  /** A field is read as a number exactly if it is one, below the largest safe integer; blanks alone are zero. */
  lemma {:induction false} ParsedIff(field: Data, value: nat)
    ensures ParseOctal(field) == Some(value) <==>
      value <= 9007199254740991 &&
      exists front, digits, back, padding :: IsNumber(Ascii(field), front, digits, back, padding, value)
  {
    hide ParseOctal, IsNumber, Ascii;
    if ParseOctal(field) == Some(value) {
      var front, digits, back, padding := ParsedIsNumber(field);
    }
    forall front, digits, back, padding | value <= 9007199254740991 && IsNumber(Ascii(field), front, digits, back, padding, value)
      ensures ParseOctal(field) == Some(value)
    {
      NumberIsParsed(field, front, digits, back, padding, value);
    }
  }

  // ---------------------------------------------------------------------- modes and paths

  lemma {:induction false} WriteBit(q: nat, d: nat)
    requires d < 8
    ensures (8 * q + d) / 2 % 2 == 0 <==> d in {0, 1, 4, 5}
  {
    assert (8 * q + d) / 2 == 2 * (2 * q) + d / 2;
  }

  lemma {:induction false} HasDigits(mode: nat)
    requires mode <= 511
    ensures IsMode(mode, mode / 8 / 8, mode / 8 % 8, mode % 8)
  {
    var q := mode / 8;
    assert mode == 8 * q + mode % 8 && q == 8 * (q / 8) + q % 8;
  }

  /** Three octal digits of permissions, with none to write for others. */
  lemma {:induction false} SafeModeIff(mode: nat)
    ensures SafeMode(mode) <==>
      exists user: nat, group: nat, others: nat :: IsMode(mode, user, group, others) && others in {0, 1, 4, 5}
  {
    if SafeMode(mode) {
      HasDigits(mode);
      WriteBit(mode / 8, mode % 8);
    }
    forall user: nat, group: nat, others: nat | IsMode(mode, user, group, others) && others in {0, 1, 4, 5} ensures SafeMode(mode) {
      WriteBit(8 * user + group, others);
    }
  }

  ghost predicate IsMode(mode: nat, user: nat, group: nat, others: nat) {
    user < 8 && group < 8 && others < 8 && mode == 64 * user + 8 * group + others
  }

  /** The segments with a slash in front of each. */
  ghost function Slashed(segments: seq<Data>): (s: Data) {
    if segments == [] then [] else [47] + segments[0] + Slashed(segments[1..])
  }

  /** A name without slash, backslash or NUL that is not empty, `.` or `..`. */
  ghost predicate IsName(s: Data) {
    s != [] && s != [46] && s != [46, 46] && 47 !in s && 92 !in s && 0 !in s
  }

  ghost predicate AllNames(segments: seq<Data>) {
    forall i :: 0 <= i < |segments| ==> IsName(segments[i])
  }

  lemma {:induction false} SplitSlashed(head: Data, segments: seq<Data>)
    requires 47 !in head && forall i :: 0 <= i < |segments| ==> 47 !in segments[i]
    ensures Split(head + Slashed(segments), 47) == [head] + segments
    decreases |segments|
  {
    hide Split;
    if segments == [] {
      assert head + Slashed(segments) == head;
      OnePart(head, 47);
    } else {
      var rest := segments[0] + Slashed(segments[1..]);
      assert head + Slashed(segments) == head + [47] + rest;
      SplitCut(head, 47, rest);
      OnePart(head, 47);
      SplitSlashed(segments[0], segments[1..]);
      assert [segments[0]] + segments[1..] == segments;
    }
  }

  lemma {:induction false} SlashedParts(s: Data) returns (head: Data, segments: seq<Data>)
    ensures s == head + Slashed(segments) && Split(s, 47) == [head] + segments
  {
    if s == [] {
      head, segments := [], [];
    } else {
      var h, rest := SlashedParts(s[1..]);
      if s[0] == 47 {
        head, segments := [], [h] + rest;
        assert segments[1..] == rest && s == [47] + s[1..];
      } else {
        head, segments := [s[0]] + h, rest;
        assert s == [s[0]] + s[1..];
      }
    }
  }

  lemma {:induction false} NotIn(head: Data, segments: seq<Data>, b: int)
    requires b != 47
    ensures b !in head + Slashed(segments) <==> b !in head && forall i :: 0 <= i < |segments| ==> b !in segments[i]
    decreases |segments|
  {
    if segments != [] {
      NotIn(segments[0], segments[1..], b);
      var rest := segments[0] + Slashed(segments[1..]);
      assert head + Slashed(segments) == head + [47] + rest;
      assert forall i :: 0 < i < |segments| ==> segments[i] == segments[1..][i - 1];
    }
  }

  /** `path` is `package` and names below it. */
  ghost predicate IsBelow(path: Data, segments: seq<Data>) {
    AllNames(segments) && path == [112, 97, 99, 107, 97, 103, 101] + Slashed(segments)
  }

  lemma {:induction false} BelowIsSafe(path: Data, segments: seq<Data>)
    requires IsBelow(path, segments)
    ensures (path == PACKAGE || PACKAGE + [SLASH] <= path) && 92 !in path && 0 !in path && forall s | s in Split(path, SLASH) :: SafeSegment(s)
  {
    hide Split;
    SplitSlashed(PACKAGE, segments);
    NotIn(PACKAGE, segments, 92);
    NotIn(PACKAGE, segments, 0);
    if segments == [] {
      assert path == PACKAGE;
    } else {
      assert path == PACKAGE + [47] + (segments[0] + Slashed(segments[1..]));
    }
    forall s | s in [PACKAGE] + segments ensures SafeSegment(s) {
      if s != PACKAGE {
        var i :| 0 <= i < |segments| && segments[i] == s;
        assert IsName(segments[i]);
      }
    }
  }

  lemma {:induction false} SafeIsBelow(path: Data) returns (segments: seq<Data>)
    requires path == PACKAGE || PACKAGE + [SLASH] <= path
    requires 92 !in path && 0 !in path && forall s | s in Split(path, SLASH) :: SafeSegment(s)
    ensures IsBelow(path, segments)
  {
    hide Split;
    var head, rest := SlashedParts(path);
    segments := rest;
    PackageIsFirst(path, head);
    NotIn(head, segments, 92);
    NotIn(head, segments, 0);
    forall i | 0 <= i < |segments| ensures IsName(segments[i]) {
      assert Split(path, 47)[i + 1] == segments[i];
      PartsAreClean(path, 47, i + 1);
      assert segments[i] in Split(path, SLASH);
    }
  }

  lemma {:induction false} PackageIsFirst(path: Data, head: Data)
    requires path == PACKAGE || PACKAGE + [SLASH] <= path
    requires Split(path, 47)[0] == head
    ensures head == PACKAGE
  {
    hide Split;
    OnePart(PACKAGE, 47);
    if path != PACKAGE {
      var rest := path[8..];
      assert path == PACKAGE + [47] + rest;
      SplitCut(PACKAGE, 47, rest);
    }
  }

  /** A path is safe exactly if it is `package` followed by names, with a slash before each and perhaps one at the end. */
  lemma {:induction false} SafePathIff(path: Data)
    ensures SafePath(path) <==> exists segments, end :: (end == [] || end == [47]) && IsSafeText(path, segments, end)
  {
    hide SafePath, IsSafeText;
    if SafePath(path) {
      var segments, end := SafeHasText(path);
    }
    forall segments, end | (end == [] || end == [47]) && IsSafeText(path, segments, end) ensures SafePath(path) {
      SafeText(path, segments, end);
    }
  }

  lemma {:induction false} SafeHasText(path: Data) returns (segments: seq<Data>, end: Data)
    requires SafePath(path)
    ensures (end == [] || end == [47]) && IsSafeText(path, segments, end)
  {
    hide Split, AllNames, Slashed;
    var slash := path != [] && path[|path| - 1] == SLASH;
    var normalized := if slash then path[..|path| - 1] else path;
    segments := SafeIsBelow(normalized);
    end := if slash then [47] else [];
    assert path == normalized + end;
  }

  ghost predicate IsSafeText(path: Data, segments: seq<Data>, end: Data) {
    AllNames(segments) && path == [112, 97, 99, 107, 97, 103, 101] + Slashed(segments) + end
  }

  lemma {:induction false} SafeText(path: Data, segments: seq<Data>, end: Data)
    requires (end == [] || end == [47]) && IsSafeText(path, segments, end)
    ensures SafePath(path)
  {
    hide Split;
    var normalized := PACKAGE + Slashed(segments);
    BelowIsSafe(normalized, segments);
    EndsPlain(PACKAGE, segments);
    assert end == [] ==> path == normalized;
    assert end != [] ==> path[..|path| - 1] == normalized;
  }

  lemma {:induction false} EndsPlain(head: Data, segments: seq<Data>)
    requires head != [] && 47 !in head && AllNames(segments)
    ensures var s := head + Slashed(segments); s[|s| - 1] != 47
    decreases |segments|
  {
    if segments == [] {
      assert head + Slashed(segments) == head && head[|head| - 1] in head;
    } else {
      EndsPlain(segments[0], segments[1..]);
      assert head + Slashed(segments) == head + [47] + (segments[0] + Slashed(segments[1..]));
    }
  }
}
