/** The fields of a ustar header: octal numbers, text and checksums, over bytes as numbers. */
module TarFields {
  import opened Common

  /** A byte is a number below 256. */
  type Data = seq<int>

  ghost predicate Bytes(s: Data) {
    forall i :: 0 <= i < |s| ==> 0 <= s[i] < 256
  }

  function Zeros(n: nat): (r: Data)
    ensures |r| == n && forall i :: 0 <= i < n ==> r[i] == 0
  {
    seq(n, _ => 0)
  }

  predicate AllZero(s: Data) {
    s == [] || (s[|s| - 1] == 0 && AllZero(s[..|s| - 1]))
  }

  lemma {:induction false} AllZeroAt(s: Data, k: nat)
    requires AllZero(s) && k < |s|
    ensures s[k] == 0
  {
    if k < |s| - 1 { AllZeroAt(s[..|s| - 1], k); }
  }

  lemma {:induction false} AllZeroIf(s: Data)
    requires forall i :: 0 <= i < |s| ==> s[i] == 0
    ensures AllZero(s)
  {
    if s != [] { AllZeroIf(s[..|s| - 1]); }
  }

  lemma {:induction false} AllZeroConcat(a: Data, b: Data)
    ensures AllZero(a + b) <==> AllZero(a) && AllZero(b)
  {
    if b == [] {
      assert a + b == a;
    } else {
      assert (a + b)[..|a + b| - 1] == a + b[..|b| - 1];
      AllZeroConcat(a, b[..|b| - 1]);
    }
  }

  // ---------------------------------------------------------------------- octal numbers

  predicate IsOctalDigit(b: int) {
    48 <= b <= 55
  }

  predicate OctalDigits(s: Data) {
    forall i :: 0 <= i < |s| ==> IsOctalDigit(s[i])
  }

  function OctalValue(s: Data): (v: nat)
    requires OctalDigits(s)
  {
    if s == [] then 0 else 8 * OctalValue(s[..|s| - 1]) + (s[|s| - 1] - 48)
  }

  function Power8(n: nat): (p: nat)
    ensures p >= 1
  {
    if n == 0 then 1 else 8 * Power8(n - 1)
  }

  /** `value` in octal, padded on the left with zeros to `n` digits. */
  function PadOctal(value: int, n: nat): (s: Data)
    ensures |s| == n && OctalDigits(s)
    decreases n
  {
    if n == 0 then [] else PadOctal(value / 8, n - 1) + [48 + value % 8]
  }

  lemma {:induction false} PadOctalValue(value: nat, n: nat)
    requires value < Power8(n)
    ensures OctalValue(PadOctal(value, n)) == value
  {
    if n > 0 {
      PadOctalValue(value / 8, n - 1);
      assert PadOctal(value, n)[..n - 1] == PadOctal(value / 8, n - 1);
    }
  }

  /** Decoding as ASCII drops the highest bit of each byte. */
  function Ascii(s: Data): (r: Data)
    ensures |r| == |s|
  {
    seq(|s|, i requires 0 <= i < |s| => s[i] % 128)
  }

  predicate IsNulOrSpace(b: int) {
    b == 0 || b == 32
  }

  predicate IsWhitespace(b: int) {
    9 <= b <= 13 || b == 32
  }

  /** Without the NULs and spaces at the end. */
  function StripEnd(s: Data): (r: Data) {
    if s != [] && IsNulOrSpace(s[|s| - 1]) then StripEnd(s[..|s| - 1]) else s
  }

  function TrimEnd(s: Data): (r: Data) {
    if s != [] && IsWhitespace(s[|s| - 1]) then TrimEnd(s[..|s| - 1]) else s
  }

  function TrimStart(s: Data): (r: Data) {
    if s != [] && IsWhitespace(s[0]) then TrimStart(s[1..]) else s
  }

  const MAX_SAFE_INTEGER := 9007199254740991

  /** An octal header field: blank is zero, anything but octal digits is rejected. */
  function ParseOctal(field: Data): (r: Option<nat>) {
    var raw := TrimEnd(TrimStart(StripEnd(Ascii(field))));
    if raw == [] then Some(0)
    else if !OctalDigits(raw) then None
    else if OctalValue(raw) > MAX_SAFE_INTEGER then None
    else Some(OctalValue(raw))
  }

  /** Digits followed by NULs and spaces read back as their value. */
  lemma {:induction false} ParsePadded(digits: Data, tail: Data)
    requires |digits| > 0 && OctalDigits(digits) && OctalValue(digits) <= MAX_SAFE_INTEGER
    requires forall i :: 0 <= i < |tail| ==> IsNulOrSpace(tail[i])
    ensures ParseOctal(digits + tail) == Some(OctalValue(digits))
  {
    assert Ascii(digits + tail) == digits + tail;
    StripTail(digits, tail);
    assert TrimStart(digits) == digits && TrimEnd(digits) == digits;
  }

  lemma {:induction false} StripTail(s: Data, tail: Data)
    requires s != [] && !IsNulOrSpace(s[|s| - 1]) && forall i :: 0 <= i < |tail| ==> IsNulOrSpace(tail[i])
    ensures StripEnd(s + tail) == s
  {
    if tail == [] {
      assert s + tail == s;
    } else {
      assert (s + tail)[..|s + tail| - 1] == s + tail[..|tail| - 1];
      StripTail(s, tail[..|tail| - 1]);
    }
  }

  // ---------------------------------------------------------------------- text

  predicate IsContinuation(b: int) {
    0x80 <= b <= 0xBF
  }

  /** The length of the UTF-8 character at the front of `s`; zero if there is no valid one. */
  function CharLength(s: Data): (n: nat)
    ensures n <= |s|
  {
    if s == [] then 0
    else if 0 <= s[0] < 0x80 then 1
    else if 0xC2 <= s[0] <= 0xDF && |s| >= 2 && IsContinuation(s[1]) then 2
    else if 0xE0 <= s[0] <= 0xEF && |s| >= 3 && IsContinuation(s[1]) && IsContinuation(s[2]) &&
            (s[0] == 0xE0 ==> s[1] >= 0xA0) && (s[0] == 0xED ==> s[1] <= 0x9F) then 3
    else if 0xF0 <= s[0] <= 0xF4 && |s| >= 4 && IsContinuation(s[1]) && IsContinuation(s[2]) && IsContinuation(s[3]) &&
            (s[0] == 0xF0 ==> s[1] >= 0x90) && (s[0] == 0xF4 ==> s[1] <= 0x8F) then 4
    else 0
  }

  predicate ValidUtf8(s: Data)
    decreases |s|
  {
    s == [] || (CharLength(s) > 0 && ValidUtf8(s[CharLength(s)..]))
  }

  /** An ASCII byte never lies inside a character, so text may be cut there. */
  lemma {:induction false} CutAtAscii(a: Data, c: int, b: Data)
    requires 0 <= c < 0x80
    ensures ValidUtf8(a + [c] + b) <==> ValidUtf8(a) && ValidUtf8(b)
    decreases |a|
  {
    var s := a + [c] + b;
    if a == [] {
      assert s[1..] == b;
    } else {
      var n := CharLength(s);
      if n == 0 {
        assert CharLength(a) == 0;
      } else if n <= |a| {
        assert CharLength(a) == n;
        assert s[n..] == a[n..] + [c] + b;
        CutAtAscii(a[n..], c, b);
      }
    }
  }

  predicate HasBom(s: Data) {
    |s| >= 3 && s[0] == 0xEF && s[1] == 0xBB && s[2] == 0xBF
  }

  /** The text decoder: invalid UTF-8 is rejected, and a leading byte-order mark is dropped. */
  function Decode(s: Data): (r: Option<Data>)
    ensures r.Some? <==> ValidUtf8(s)
    ensures r.Some? && !HasBom(s) ==> r.value == s
    ensures r.Some? && HasBom(s) ==> |r.value| == |s| - 3
    ensures r.Some? ==> ValidUtf8(r.value)
  {
    if !ValidUtf8(s) then None
    else if HasBom(s) then
      assert CharLength(s) == 3;
      Some(s[3..])
    else Some(s)
  }

  /** The bytes before the first NUL. */
  function UpToNul(s: Data): (r: Data) {
    if s == [] || s[0] == 0 then [] else [s[0]] + UpToNul(s[1..])
  }

  lemma {:induction false} UpToNulOf(s: Data, k: nat)
    requires forall i :: 0 <= i < |s| ==> s[i] != 0
    ensures UpToNul(s + Zeros(k)) == s
  {
    if s == [] {
      assert s + Zeros(k) == Zeros(k);
    } else {
      assert (s + Zeros(k))[1..] == s[1..] + Zeros(k);
      UpToNulOf(s[1..], k);
    }
  }

  // ---------------------------------------------------------------------- checksum

  ghost function Sum(s: Data): (n: int) {
    if s == [] then 0 else Sum(s[..|s| - 1]) + s[|s| - 1]
  }

  lemma {:induction false} SumConcat(a: Data, b: Data)
    ensures Sum(a + b) == Sum(a) + Sum(b)
  {
    if b == [] {
      assert a + b == a;
    } else {
      assert (a + b)[..|a + b| - 1] == a + b[..|b| - 1];
      SumConcat(a, b[..|b| - 1]);
    }
  }

  lemma {:induction false} SumBound(s: Data)
    requires Bytes(s)
    ensures 0 <= Sum(s) <= 255 * |s|
  {
    if s != [] { SumBound(s[..|s| - 1]); }
  }

  /** The sum of a header's bytes, with its checksum field counted as eight spaces. */
  ghost function Checksum(h: Data): (n: int)
    requires |h| == 512
  {
    Sum(h[..148]) + 256 + Sum(h[156..])
  }

  method CalculateChecksum(h: Data) returns (n: int)
    requires |h| == 512
    ensures n == Checksum(h)
  {
    n := 0;
    for index := 0 to 512
      invariant n == if index <= 148 then Sum(h[..index])
                     else if index <= 156 then Sum(h[..148]) + 32 * (index - 148)
                     else Sum(h[..148]) + 256 + Sum(h[156..index])
    {
      if 148 <= index < 156 {
        n := n + 32;
      } else {
        n := n + h[index];
        if index < 148 {
          assert h[..index + 1][..index] == h[..index];
        } else {
          assert h[156..index + 1][..index - 156] == h[156..index];
        }
      }
    }
    assert h[156..512] == h[156..];
  }
}
