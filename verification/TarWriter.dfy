/** Writing the canonical form of a package tarball, before compression. */
module TarWriter {
  import opened Common
  import opened TarFields
  import opened TarPaths
  import opened TarParser

  // ---------------------------------------------------------------------- splitting a long path

  datatype PathParts = PathParts(name: Data, prefix: Data)

  /** The slash at `index` splits the path into a prefix and a name that fit in their header fields. */
  predicate Fits(path: Data, index: nat) {
    0 < index < |path| && path[index] == SLASH && index <= 155 && |path| - index - 1 <= 100
  }

  function SplitAt(path: Data, index: nat): (r: PathParts)
    requires index < |path|
  {
    PathParts(path[index + 1..], path[..index])
  }

  function SplitFrom(path: Data, index: nat): (r: Option<PathParts>)
    requires index < |path|
  {
    if index == 0 then None
    else if Fits(path, index) then Some(SplitAt(path, index))
    else SplitFrom(path, index - 1)
  }

  function SplitPath(path: Data): (r: Option<PathParts>) {
    if |path| <= 100 then Some(PathParts(path, [])) else SplitFrom(path, |path| - 1)
  }

  /** A long path is split at the last slash that fits, and at none if there is no such slash. */
  lemma {:induction false} SplitIsLast(path: Data, index: nat)
    requires index < |path|
    ensures var r := SplitFrom(path, index);
      if r.None? then forall k: nat {:trigger Fits(path, k)} :: k <= index ==> !Fits(path, k)
      else var at := |r.value.prefix|;
        at <= index && Fits(path, at) && r.value == SplitAt(path, at) &&
        forall k: nat {:trigger Fits(path, k)} :: at < k <= index ==> !Fits(path, k)
  {
    if index > 0 && !Fits(path, index) { SplitIsLast(path, index - 1); }
  }

  method SplitUstarPath(path: Data) returns (r: Option<PathParts>)
    ensures r == SplitPath(path)
  {
    if |path| <= 100 {
      return Some(PathParts(path, []));
    }
    var index := |path| - 1;
    while index > 0
      invariant 0 <= index < |path|
      invariant SplitPath(path) == SplitFrom(path, index)
    {
      if path[index] == SLASH {
        var prefix, name := path[..index], path[index + 1..];
        if |prefix| <= 155 && |name| <= 100 {
          return Some(PathParts(name, prefix));
        }
      }
      index := index - 1;
    }
    return None;
  }

  // ---------------------------------------------------------------------- headers

  const USTAR: Data := [117, 115, 116, 97, 114, 0, 48, 48]
  const SPACES: Data := [32, 32, 32, 32, 32, 32, 32, 32]

  function PadRight(s: Data, length: nat): (r: Data)
    requires |s| <= length
    ensures |r| == length
  {
    s + Zeros(length - |s|)
  }

  function OctalField(value: int, length: nat): (r: Data)
    requires length > 0
    ensures |r| == length
  {
    PadOctal(value, length - 1) + [0]
  }

  /** The header up to its checksum. */
  function HeaderStart(name: Data, mode: int, size: int): (r: Data)
    requires |name| <= 100
    ensures |r| == 148
  {
    PadRight(name, 100) + OctalField(mode, 8) + OctalField(0, 8) + OctalField(0, 8) +
    OctalField(size, 12) + OctalField(0, 12)
  }

  /** The header after its checksum. */
  function HeaderEnd(typeByte: int, prefix: Data): (r: Data)
    requires |prefix| <= 155
    ensures |r| == 356
  {
    [typeByte] + Zeros(100) + USTAR + Zeros(80) + PadRight(prefix, 155) + Zeros(12)
  }

  function Payload(e: Entry): (r: Data) {
    if e.directory then [] else e.data
  }

  function TypeByte(e: Entry): (r: int) {
    if e.directory then 53 else 48
  }

  ghost function HeaderSum(name: Data, mode: int, size: int, typeByte: int, prefix: Data): (n: int)
    requires |name| <= 100 && |prefix| <= 155
  {
    Sum(HeaderStart(name, mode, size)) + 256 + Sum(HeaderEnd(typeByte, prefix))
  }

  lemma {:induction false} SplitFits(path: Data)
    requires SplitPath(path).Some?
    ensures |SplitPath(path).value.name| <= 100 && |SplitPath(path).value.prefix| <= 155
  {
    if |path| > 100 { SplitIsLast(path, |path| - 1); }
  }

  ghost function HeaderBlock(name: Data, mode: int, size: int, typeByte: int, prefix: Data): (r: Option<Data>)
    requires |name| <= 100 && |prefix| <= 155
    ensures r.Some? ==> |r.value| == 512
  {
    var sum := HeaderSum(name, mode, size, typeByte, prefix);
    if 0 <= sum < Power8(6) then
      Some(HeaderStart(name, mode, size) + (PadOctal(sum, 6) + [0, 32]) + HeaderEnd(typeByte, prefix))
    else None
  }

  ghost function CanonicalHeader(e: Entry): (r: Option<Data>)
    ensures r.Some? ==> |r.value| == 512
  {
    var split := SplitPath(e.path);
    if split.None? || |Payload(e)| >= Power8(11) then None
    else
      SplitFits(e.path);
      HeaderBlock(split.value.name, e.mode % 512, |Payload(e)|, TypeByte(e), split.value.prefix)
  }

  /** Copies `bytes` into the block. */
  method Write(header: array<int>, offset: nat, bytes: Data)
    requires offset + |bytes| <= header.Length
    modifies header
    ensures header[..] == old(header[..offset]) + bytes + old(header[offset + |bytes|..])
  {
    for i := 0 to |bytes|
      invariant header[..offset + i] == old(header[..offset]) + bytes[..i]
      invariant header[offset + i..] == old(header[offset + i..])
    {
      header[offset + i] := bytes[i];
    }
  }

  ghost predicate Filled(header: array<int>, done: Data)
    reads header
  {
    |done| <= header.Length && header[..] == done + Zeros(header.Length - |done|)
  }

  /** Writes a field after `gap` zeros, into a block that is zero after `done`. */
  method WriteNext(header: array<int>, ghost done: Data, offset: nat, bytes: Data)
    requires |done| <= offset && offset + |bytes| <= header.Length && Filled(header, done)
    modifies header
    ensures Filled(header, done + Zeros(offset - |done|) + bytes)
  {
    assert header[..offset] == done + Zeros(offset - |done|);
    Write(header, offset, bytes);
  }

  method WriteField(header: array<int>, ghost done: Data, offset: nat, bytes: Data)
    requires |done| == offset && offset + |bytes| <= header.Length && Filled(header, done)
    modifies header
    ensures Filled(header, done + bytes)
  {
    assert done + Zeros(0) + bytes == done + bytes;
    WriteNext(header, done, offset, bytes);
  }

  method WriteStart(header: array<int>, name: Data, mode: nat, size: nat)
    requires header.Length == 512 && Filled(header, []) && |name| <= 100
    modifies header
    ensures Filled(header, HeaderStart(name, mode, size))
  {
    WriteNext(header, [], 0, name);
    assert Filled(header, PadRight(name, 100)) by { assert [] + Zeros(0) + name == name; }
    WriteField(header, PadRight(name, 100), 100, OctalField(mode, 8));
    ghost var done := PadRight(name, 100) + OctalField(mode, 8);
    WriteField(header, done, 108, OctalField(0, 8));
    done := done + OctalField(0, 8);
    WriteField(header, done, 116, OctalField(0, 8));
    done := done + OctalField(0, 8);
    WriteField(header, done, 124, OctalField(size, 12));
    done := done + OctalField(size, 12);
    WriteField(header, done, 136, OctalField(0, 12));
  }

  method WriteEnd(header: array<int>, ghost start: Data, typeByte: int, prefix: Data)
    requires header.Length == 512 && |start| == 156 && Filled(header, start) && |prefix| <= 155
    modifies header
    ensures header[..] == start + HeaderEnd(typeByte, prefix)
  {
    WriteField(header, start, 156, [typeByte]);
    WriteNext(header, start + [typeByte], 257, USTAR);
    WriteNext(header, start + [typeByte] + Zeros(100) + USTAR, 345, prefix);
    assert start + HeaderEnd(typeByte, prefix) ==
      start + [typeByte] + Zeros(100) + USTAR + Zeros(80) + prefix + (Zeros(155 - |prefix|) + Zeros(12));
    assert Zeros(155 - |prefix|) + Zeros(12) == Zeros(167 - |prefix|);
  }

  method SumOf(header: array<int>) returns (n: int)
    ensures n == Sum(header[..])
  {
    n := 0;
    for i := 0 to header.Length
      invariant n == Sum(header[..i])
    {
      n := n + header[i];
      assert header[..i + 1][..i] == header[..i];
    }
    assert header[..header.Length] == header[..];
  }

  lemma {:induction false} SumWithSpaces(a: Data, b: Data)
    ensures Sum(a + SPACES + b) == Sum(a) + 256 + Sum(b)
  {
    SumConcat(a + SPACES, b);
    SumConcat(a, SPACES);
    assert SPACES[..7] == [32, 32, 32, 32, 32, 32, 32] && SPACES[..7][..6] == [32, 32, 32, 32, 32, 32];
    SumConcat([32, 32, 32, 32], [32, 32, 32, 32]);
    assert SPACES == [32, 32, 32, 32] + [32, 32, 32, 32];
    assert Sum([32, 32, 32, 32]) == 128 by {
      SumConcat([32, 32], [32, 32]);
      assert [32, 32, 32, 32] == [32, 32] + [32, 32];
      SumConcat([32], [32]);
      assert [32, 32] == [32] + [32];
    }
  }

  /** Fills in a header block, field by field, the checksum last. */
  method FillHeader(name: Data, mode: nat, size: nat, typeByte: int, prefix: Data) returns (r: Option<Data>)
    requires |name| <= 100 && |prefix| <= 155
    ensures r == HeaderBlock(name, mode, size, typeByte, prefix)
  {
    ghost var start, end := HeaderStart(name, mode, size), HeaderEnd(typeByte, prefix);
    var header := new int[512](_ => 0);
    assert Filled(header, []);
    WriteStart(header, name, mode, size);
    WriteField(header, start, 148, SPACES);
    WriteEnd(header, start + SPACES, typeByte, prefix);
    var checksum := SumOf(header);
    SumWithSpaces(start, end);
    if checksum < 0 || checksum >= Power8(6) {
      return None;
    }
    WriteChecksum(header, start, PadOctal(checksum, 6) + [0, 32], end);
    return Some(header[..]);
  }

  method CanonicalTarHeader(e: Entry) returns (r: Option<Data>)
    ensures r == CanonicalHeader(e)
  {
    var split := SplitUstarPath(e.path);
    if split.None? || |Payload(e)| >= Power8(11) {
      return None;
    }
    SplitFits(e.path);
    r := FillHeader(split.value.name, e.mode % 512, |Payload(e)|, TypeByte(e), split.value.prefix);
  }

  method WriteChecksum(header: array<int>, ghost start: Data, field: Data, ghost end: Data)
    requires header.Length == 512 && |start| == 148 && |field| == 8 && header[..] == start + SPACES + end
    modifies header
    ensures header[..] == start + field + end
  {
    assert header[..148] == start && header[156..] == end;
    Write(header, 148, field);
  }

  // ---------------------------------------------------------------------- the order of entries

  /** Byte by byte comparison; a proper prefix comes first. */
  predicate AtMost(a: Data, b: Data) {
    a == [] || (b != [] && (a[0] < b[0] || (a[0] == b[0] && AtMost(a[1..], b[1..]))))
  }

  lemma {:induction false} AtMostTotal(a: Data, b: Data)
    ensures AtMost(a, b) || AtMost(b, a)
    ensures AtMost(a, b) && AtMost(b, a) ==> a == b
  {
    if a != [] && b != [] && a[0] == b[0] {
      AtMostTotal(a[1..], b[1..]);
      assert a == [a[0]] + a[1..] && b == [b[0]] + b[1..];
    }
  }

  lemma {:induction false} AtMostTransitive(a: Data, b: Data, c: Data)
    requires AtMost(a, b) && AtMost(b, c)
    ensures AtMost(a, c)
  {
    if a != [] && a[0] == b[0] == c[0] { AtMostTransitive(a[1..], b[1..], c[1..]); }
  }

  /** At the first place where two byte strings differ, the smaller byte comes first. */
  ghost predicate DiffersAt(a: Data, b: Data, k: nat) {
    k < |a| && k < |b| && a[..k] == b[..k] && a[k] != b[k]
  }

  lemma {:induction false} SameFirst(a: Data, b: Data, k: nat)
    requires k <= |a| && k <= |b| && a[..k] == b[..k]
    ensures k > 0 ==> a[0] == b[0]
  {
    if k > 0 { assert a[0] == a[..k][0] == b[..k][0] == b[0]; }
  }

  lemma {:induction false} AtMostIff(a: Data, b: Data)
    ensures a <= b ==> AtMost(a, b)
    ensures b <= a && a != b ==> !AtMost(a, b)
    ensures forall k: nat :: DiffersAt(a, b, k) ==> (AtMost(a, b) <==> a[k] < b[k])
    ensures a <= b || b <= a || exists k: nat :: DiffersAt(a, b, k)
  {
    if a != [] && b != [] {
      assert a == [a[0]] + a[1..] && b == [b[0]] + b[1..];
      if a[0] == b[0] {
        AtMostIff(a[1..], b[1..]);
        forall k: nat | DiffersAt(a, b, k) ensures k > 0 && DiffersAt(a[1..], b[1..], k - 1) {
          assert a[1..][..k - 1] == a[..k][1..] && b[1..][..k - 1] == b[..k][1..];
        }
        forall k: nat | DiffersAt(a[1..], b[1..], k) ensures DiffersAt(a, b, k + 1) {
          assert a[..k + 1] == [a[0]] + a[1..][..k] && b[..k + 1] == [b[0]] + b[1..][..k];
        }
      } else {
        assert DiffersAt(a, b, 0);
        forall k: nat | DiffersAt(a, b, k) ensures k == 0 { SameFirst(a, b, k); }
      }
    }
  }

  function InsertEntry(e: Entry, es: seq<Entry>): (r: seq<Entry>)
    ensures |r| == |es| + 1
  {
    if es == [] then [e]
    else if AtMost(e.path, es[0].path) then [e] + es
    else [es[0]] + InsertEntry(e, es[1..])
  }

  /** The entries in the order of their paths; entries with equal paths keep their order. */
  function Ordered(es: seq<Entry>): (r: seq<Entry>)
    ensures |r| == |es|
  {
    if es == [] then [] else InsertEntry(es[0], Ordered(es[1..]))
  }

  ghost predicate InOrder(es: seq<Entry>) {
    forall i, j :: 0 <= i < j < |es| ==> AtMost(es[i].path, es[j].path)
  }

  lemma {:induction false} InsertPermutes(e: Entry, es: seq<Entry>)
    ensures multiset(InsertEntry(e, es)) == multiset(es) + multiset{e}
  {
    if es != [] && !AtMost(e.path, es[0].path) {
      InsertPermutes(e, es[1..]);
      assert es == [es[0]] + es[1..];
    }
  }

  lemma {:induction false} InsertInOrder(e: Entry, es: seq<Entry>)
    requires InOrder(es)
    ensures InOrder(InsertEntry(e, es))
  {
    if es != [] {
      AtMostTotal(e.path, es[0].path);
      if AtMost(e.path, es[0].path) {
        forall j | 0 <= j < |es| ensures AtMost(e.path, es[j].path) {
          if j > 0 { AtMostTransitive(e.path, es[0].path, es[j].path); }
        }
      } else {
        InsertInOrder(e, es[1..]);
        InsertAbove(es[0].path, e, es[1..]);
      }
    }
  }

  lemma {:induction false} InsertAbove(low: Data, e: Entry, es: seq<Entry>)
    requires AtMost(low, e.path) && forall j :: 0 <= j < |es| ==> AtMost(low, es[j].path)
    ensures forall j :: 0 <= j < |InsertEntry(e, es)| ==> AtMost(low, InsertEntry(e, es)[j].path)
  {
    if es != [] && !AtMost(e.path, es[0].path) { InsertAbove(low, e, es[1..]); }
  }

  lemma {:induction false} OrderedIsSorted(es: seq<Entry>)
    ensures InOrder(Ordered(es)) && multiset(Ordered(es)) == multiset(es)
  {
    if es != [] {
      OrderedIsSorted(es[1..]);
      InsertInOrder(es[0], Ordered(es[1..]));
      InsertPermutes(es[0], Ordered(es[1..]));
      assert es == [es[0]] + es[1..];
    }
  }

  lemma {:induction false} OrderedOfSorted(es: seq<Entry>)
    requires InOrder(es)
    ensures Ordered(es) == es
  {
    if es != [] {
      OrderedOfSorted(es[1..]);
      assert es == [es[0]] + es[1..];
    }
  }

  // ---------------------------------------------------------------------- tarballs

  ghost predicate Writable(e: Entry) {
    CanonicalHeader(e).Some?
  }

  ghost predicate AllWritable(es: seq<Entry>) {
    es == [] || (Writable(es[0]) && AllWritable(es[1..]))
  }

  ghost function MemberFor(e: Entry): (m: Member)
    requires Writable(e)
  {
    Member(CanonicalHeader(e).value, Payload(e), Zeros(Padded(|Payload(e)|) - |Payload(e)|))
  }

  ghost function MembersFor(es: seq<Entry>): (ms: seq<Member>)
    requires AllWritable(es)
    ensures |ms| == |es|
  {
    if es == [] then [] else [MemberFor(es[0])] + MembersFor(es[1..])
  }

  ghost function PrintTar(es: seq<Entry>): (r: Option<Data>) {
    if AllWritable(Ordered(es)) then Some(MembersBytes(MembersFor(Ordered(es))) + Zeros(1024)) else None
  }

  /** A header and, for a file, its data filled up to whole blocks. */
  method WriteMember(e: Entry) returns (r: Option<Data>)
    ensures r.Some? <==> Writable(e)
    ensures r.Some? ==> r.value == MemberBytes(MemberFor(e))
  {
    var header := CanonicalTarHeader(e);
    if header.None? {
      return None;
    }
    if e.directory {
      assert header.value == MemberBytes(MemberFor(e));
      return header;
    }
    PaddedIsRoundedUp(|e.data|);
    return Some(header.value + e.data + Zeros((512 - |e.data| % 512) % 512));
  }

  /** `output` is what the first `i` entries come to. */
  ghost predicate WrittenTo(es: seq<Entry>, i: nat, output: Data) {
    i <= |es| && (AllWritable(es) <==> AllWritable(es[i..])) &&
    (AllWritable(es) ==> MembersBytes(MembersFor(es)) == output + MembersBytes(MembersFor(es[i..])))
  }

  /** Writes the entries one after another in order, and then the end. */
  method CreateCanonicalTarball(es: seq<Entry>) returns (r: Option<Data>)
    ensures r == PrintTar(es)
  {
    hide CanonicalHeader;
    var ordered := Ordered(es);
    var output := [];
    assert ordered[0..] == ordered;
    for i := 0 to |ordered|
      invariant WrittenTo(ordered, i, output)
    {
      var bytes := WriteMember(ordered[i]);
      if bytes.None? {
        return None;
      }
      output := output + bytes.value;
    }
    assert ordered[|ordered|..] == [] && output + [] == output;
    return Some(output + Zeros(1024));
  }
}
