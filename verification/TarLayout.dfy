/** The bytes of a written header, at the places where the ustar format has them. */
module TarLayout {
  import opened Common
  import opened TarFields
  import opened TarPaths
  import opened TarParser
  import opened TarWriter

  /** `text` starts at `offset`, and there are only zeros from its end to `end`. */
  ghost predicate HasText(h: Data, offset: nat, end: nat, text: Data) {
    offset + |text| <= end <= |h| && h[offset..offset + |text|] == text && ZerosIn(h, offset + |text|, end)
  }

  ghost predicate ZerosIn(h: Data, from: nat, to: nat) {
    from <= to <= |h| && forall i :: from <= i < to ==> h[i] == 0
  }

  /** Octal digits from `offset` to `end` that come to `value`, and then a zero. */
  ghost predicate HasNumber(h: Data, offset: nat, end: nat, value: int) {
    offset <= end < |h| && OctalDigits(h[offset..end]) && OctalValue(h[offset..end]) == value && h[end] == 0
  }

  ghost predicate HasStart(h: Data, name: Data, mode: int, size: int) {
    |h| >= 148 && HasText(h, 0, 100, name) && HasNumber(h, 100, 107, mode) &&
    h[108..116] == [48, 48, 48, 48, 48, 48, 48, 0] && h[116..124] == [48, 48, 48, 48, 48, 48, 48, 0] &&
    HasNumber(h, 124, 135, size) &&
    h[136..148] == [48, 48, 48, 48, 48, 48, 48, 48, 48, 48, 48, 0]
  }

  ghost predicate HasEnd(h: Data, typeByte: int, prefix: Data) {
    |h| == 512 && h[156] == typeByte && ZerosIn(h, 157, 257) &&
    h[257..265] == [117, 115, 116, 97, 114, 0, 48, 48] && ZerosIn(h, 265, 345) &&
    HasText(h, 345, 500, prefix) && ZerosIn(h, 500, 512)
  }

  /** The digits of the checksum come to the sum of all bytes, the checksum's own eight counted as spaces. */
  ghost predicate HasChecksum(h: Data) {
    |h| == 512 && HasNumber(h, 148, 154, Sum(h[..148]) + 8 * 32 + Sum(h[156..])) && h[155] == 32
  }

  lemma {:induction false} ZeroDigits(n: nat)
    ensures forall i :: 0 <= i < n ==> PadOctal(0, n)[i] == 48
  {
    if n > 0 { ZeroDigits(n - 1); }
  }

  lemma {:induction false} TextPart(h: Data, a: Data, text: Data, length: nat)
    requires |text| <= length && |a| + length <= |h| && h[|a|..|a| + length] == PadRight(text, length)
    ensures HasText(h, |a|, |a| + length, text)
  {
    var field := h[|a|..|a| + length];
    assert forall i :: 0 <= i < length ==> h[|a| + i] == field[i];
    forall i | |a| + |text| <= i < |a| + length ensures h[i] == 0 { assert h[i] == field[i - |a|]; }
    assert h[|a|..|a| + |text|] == field[..|text|];
  }

  lemma {:induction false} NumberPart(h: Data, offset: nat, length: nat, value: nat)
    requires offset + length + 1 <= |h| && h[offset..offset + length + 1] == OctalField(value, length + 1) && value < Power8(length)
    ensures HasNumber(h, offset, offset + length, value)
  {
    PadOctalValue(value, length);
    var field := h[offset..offset + length + 1];
    assert h[offset..offset + length] == field[..length] && h[offset + length] == field[length];
  }

  lemma {:induction false} StartParts(name: Data, mode: int, size: int)
    requires |name| <= 100
    ensures var h := HeaderStart(name, mode, size);
      h[0..100] == PadRight(name, 100) && h[100..108] == OctalField(mode, 8) && h[108..116] == OctalField(0, 8) &&
      h[116..124] == OctalField(0, 8) && h[124..136] == OctalField(size, 12) && h[136..148] == OctalField(0, 12)
  {
    hide PadRight, OctalField;
  }

  /** The first 148 bytes of a header. */
  lemma {:induction false} StartLayout(h: Data, name: Data, mode: nat, size: nat)
    requires |name| <= 100 && mode < Power8(7) && size < Power8(11)
    requires |h| >= 148 && h[..148] == HeaderStart(name, mode, size)
    ensures HasStart(h, name, mode, size)
  {
    hide PadRight, OctalField, HeaderStart, HasText, HasNumber;
    StartParts(name, mode, size);
    var start := h[..148];
    assert h[0..100] == start[0..100] && h[100..108] == start[100..108] && h[108..116] == start[108..116];
    assert h[116..124] == start[116..124] && h[124..136] == start[124..136] && h[136..148] == start[136..148];
    TextPart(h, [], name, 100);
    NumberPart(h, 100, 7, mode);
    NumberPart(h, 124, 11, size);
    ZeroField(7);
    ZeroField(11);
  }

  lemma {:induction false} ZeroField(n: nat)
    ensures OctalField(0, n + 1) == seq(n, _ => 48) + [0]
  {
    ZeroDigits(n);
  }

  lemma {:induction false} EndParts(typeByte: int, prefix: Data)
    requires |prefix| <= 155
    ensures var h := HeaderEnd(typeByte, prefix);
      h[0] == typeByte && h[1..101] == Zeros(100) && h[101..109] == [117, 115, 116, 97, 114, 0, 48, 48] &&
      h[109..189] == Zeros(80) && h[189..344] == PadRight(prefix, 155) && h[344..356] == Zeros(12)
  {
    hide PadRight;
  }

  /** The bytes after the checksum. */
  lemma {:induction false} EndLayout(h: Data, typeByte: int, prefix: Data)
    requires |prefix| <= 155 && |h| == 512 && h[156..] == HeaderEnd(typeByte, prefix)
    ensures HasEnd(h, typeByte, prefix)
  {
    hide PadRight, HeaderEnd, HasText;
    EndParts(typeByte, prefix);
    var end := h[156..];
    assert forall i :: 0 <= i < 356 ==> h[156 + i] == end[i];
    ZerosAt(h, end, 1, 101);
    ZerosAt(h, end, 109, 189);
    ZerosAt(h, end, 344, 356);
    assert h[257..265] == end[101..109] && h[345..500] == end[189..344];
    TextPart(h, h[..345], prefix, 155);
  }

  lemma {:induction false} ZerosAt(h: Data, end: Data, from: nat, to: nat)
    requires |h| == 512 && end == h[156..] && from <= to <= 356 && end[from..to] == Zeros(to - from)
    ensures ZerosIn(h, 156 + from, 156 + to)
  {
    forall i | 156 + from <= i < 156 + to ensures h[i] == 0 { assert h[i] == end[from..to][i - 156 - from]; }
  }

  /** A header block is laid out as ustar says, field by field. */
  lemma {:induction false} BlockLayout(name: Data, mode: nat, size: nat, typeByte: int, prefix: Data)
    requires |name| <= 100 && |prefix| <= 155 && mode < Power8(7) && size < Power8(11)
    requires HeaderBlock(name, mode, size, typeByte, prefix).Some?
    ensures var h := HeaderBlock(name, mode, size, typeByte, prefix).value;
      HasStart(h, name, mode, size) && HasChecksum(h) && HasEnd(h, typeByte, prefix)
  {
    hide HeaderStart, HeaderEnd, HasStart, HasEnd, PadOctal;
    var h := HeaderBlock(name, mode, size, typeByte, prefix).value;
    var start, end := HeaderStart(name, mode, size), HeaderEnd(typeByte, prefix);
    var sum := HeaderSum(name, mode, size, typeByte, prefix);
    assert h[..148] == start && h[156..] == end && h[148..156] == PadOctal(sum, 6) + [0, 32];
    StartLayout(h, name, mode, size);
    EndLayout(h, typeByte, prefix);
    assert h[148..155] == OctalField(sum, 7) by { assert h[148..155] == h[148..156][..7]; }
    NumberPart(h, 148, 6, sum);
    assert h[155] == h[148..156][7];
  }

  /** The two parts of a path: all of it in the name, or cut at a slash where both parts fit. */
  ghost predicate Parts(path: Data, name: Data, prefix: Data) {
    |name| <= 100 && |prefix| <= 155 &&
    if |path| <= 100 then name == path && prefix == [] else prefix != [] && path == prefix + [47] + name
  }

  /**
   * The header of an entry: its path in the name and prefix fields, its mode and the length of its data in octal, user,
   * group and time zero, type `0` or `5`, no link name, the ustar magic and version, and the checksum of it all.
   */
  lemma {:induction false} CanonicalLayout(e: Entry) returns (name: Data, prefix: Data)
    requires CanonicalHeader(e).Some?
    ensures Parts(e.path, name, prefix)
    ensures var h := CanonicalHeader(e).value;
      HasStart(h, name, e.mode % 512, if e.directory then 0 else |e.data|) && HasChecksum(h) &&
      HasEnd(h, if e.directory then 53 else 48, prefix)
  {
    hide HeaderBlock, HasStart, HasEnd, HasChecksum, SplitPath;
    var split := SplitPath(e.path).value;
    name, prefix := split.name, split.prefix;
    PathIsCut(e.path);
    SplitFits(e.path);
    ModeFits();
    BlockLayout(name, e.mode % 512, |Payload(e)|, TypeByte(e), prefix);
  }

  lemma {:induction false} ModeFits()
    ensures 512 <= Power8(7)
  {
    assert Power8(3) == 512;
  }

  lemma {:induction false} PathIsCut(path: Data)
    requires SplitPath(path).Some?
    ensures Parts(path, SplitPath(path).value.name, SplitPath(path).value.prefix)
  {
    if |path| > 100 {
      SplitIsLast(path, |path| - 1);
      var at := |SplitPath(path).value.prefix|;
      assert path == path[..at] + [path[at]] + path[at + 1..];
    }
  }
}
