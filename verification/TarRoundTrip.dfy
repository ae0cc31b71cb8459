/** Writing entries and reading them back: what is kept, and the one thing that is not. */
module TarRoundTrip {
  import opened Common
  import opened TarFields
  import opened TarPaths
  import opened TarParser
  import opened TarEntries
  import opened TarWriter

  // ---------------------------------------------------------------------- one header

  lemma {:induction false} Utf8IsBytes(s: Data)
    requires ValidUtf8(s)
    ensures Bytes(s)
    decreases |s|
  {
    if s != [] {
      var n := CharLength(s);
      Utf8IsBytes(s[n..]);
      assert s == s[..n] + s[n..];
    }
  }

  lemma {:induction false} BytesConcat(a: Data, b: Data)
    requires Bytes(a) && Bytes(b)
    ensures Bytes(a + b)
  {
  }

  lemma {:induction false} StartIsBytes(name: Data, mode: nat, size: nat)
    requires |name| <= 100 && Bytes(name)
    ensures Bytes(HeaderStart(name, mode, size))
  {
    var a := PadRight(name, 100) + OctalField(mode, 8);
    var b := a + OctalField(0, 8) + OctalField(0, 8);
    BytesConcat(PadRight(name, 100), OctalField(mode, 8));
    BytesConcat(a, OctalField(0, 8));
    BytesConcat(a + OctalField(0, 8), OctalField(0, 8));
    BytesConcat(b, OctalField(size, 12));
    BytesConcat(b + OctalField(size, 12), OctalField(0, 12));
  }

  lemma {:induction false} EndIsBytes(typeByte: int, prefix: Data)
    requires |prefix| <= 155 && Bytes(prefix) && 0 <= typeByte < 256
    ensures Bytes(HeaderEnd(typeByte, prefix))
  {
  }

  /** The checksum always fits in its six digits. */
  lemma {:induction false} ChecksumFits(name: Data, mode: nat, size: nat, typeByte: int, prefix: Data)
    requires |name| <= 100 && |prefix| <= 155 && Bytes(name) && Bytes(prefix) && 0 <= typeByte < 256
    ensures 0 <= HeaderSum(name, mode, size, typeByte, prefix) < Power8(6)
  {
    StartIsBytes(name, mode, size);
    SumBound(HeaderStart(name, mode, size));
    EndIsBytes(typeByte, prefix);
    SumBound(HeaderEnd(typeByte, prefix));
    assert Power8(6) == 262144;
  }

  lemma {:induction false} Middle(a: Data, b: Data, c: Data)
    ensures (a + b + c)[|a|..|a| + |b|] == b && (a + b + c)[..|a| + |b|] == a + b
  {
  }

  lemma {:induction false} StartFields(name: Data, mode: nat, size: nat)
    requires |name| <= 100
    ensures var start := HeaderStart(name, mode, size);
      start[..100] == PadRight(name, 100) && start[100..108] == OctalField(mode, 8) &&
      start[124..136] == OctalField(size, 12)
  {
    var a := PadRight(name, 100) + OctalField(mode, 8);
    var b := a + OctalField(0, 8) + OctalField(0, 8);
    Middle(b, OctalField(size, 12), OctalField(0, 12));
    Middle(a, OctalField(0, 8), OctalField(0, 8));
    var start := HeaderStart(name, mode, size);
    assert start[..124] == b && b[..108] == a;
    assert start[..108] == a;
  }

  lemma {:induction false} EndFields(typeByte: int, prefix: Data)
    requires |prefix| <= 155
    ensures HeaderEnd(typeByte, prefix)[0] == typeByte && HeaderEnd(typeByte, prefix)[189..344] == PadRight(prefix, 155)
  {
  }

  lemma {:induction false} BlockFields(start: Data, sum: Data, end: Data)
    requires |start| == 148 && |sum| == 8 && |end| == 356
    ensures var h := start + sum + end;
      |h| == 512 && Field(h, 0, 100) == start[..100] && Field(h, 100, 8) == start[100..108] &&
      Field(h, 124, 12) == start[124..136] && Field(h, 148, 8) == sum && h[156] == end[0] &&
      Field(h, 345, 155) == end[189..344] && h[..148] == start && h[156..] == end
  {
  }

  lemma {:induction false} OctalFieldReads(value: nat, length: nat)
    requires 1 < length <= 12 && value < Power8(length - 1)
    ensures ParseOctal(OctalField(value, length)) == Some(value)
  {
    PadOctalValue(value, length - 1);
    PowerBelow(length - 1);
    ParsePadded(PadOctal(value, length - 1), [0]);
  }

  lemma {:induction false} PowerBelow(n: nat)
    requires n <= 11
    ensures Power8(n) <= MAX_SAFE_INTEGER
  {
    if n < 11 {
      PowerGrows(n, 11);
    }
    assert Power8(11) == 8589934592;
  }

  lemma {:induction false} PowerGrows(n: nat, m: nat)
    requires n <= m
    ensures Power8(n) <= Power8(m)
  {
    if n < m { PowerGrows(n, m - 1); }
  }

  ghost predicate Text(s: Data) {
    ValidUtf8(s) && 0 !in s
  }

  lemma {:induction false} TextFieldReads(s: Data, length: nat)
    requires Text(s) && |s| <= length
    ensures Decode(UpToNul(PadRight(s, length))) == Decode(s)
  {
    UpToNulOf(s, length - |s|);
  }

  ghost predicate Fields(name: Data, mode: nat, size: nat, typeByte: int, prefix: Data) {
    |name| <= 100 && |prefix| <= 155 && Text(name) && Text(prefix) && mode < 512 && size < Power8(11) && 0 < typeByte < 256
  }

  lemma {:induction false} BlockIsThere(name: Data, mode: nat, size: nat, typeByte: int, prefix: Data)
    requires Fields(name, mode, size, typeByte, prefix)
    ensures HeaderBlock(name, mode, size, typeByte, prefix).Some?
  {
    Utf8IsBytes(name);
    Utf8IsBytes(prefix);
    ChecksumFits(name, mode, size, typeByte, prefix);
  }

  ghost predicate HasFields(h: Data, name: Data, mode: nat, size: nat, typeByte: int, prefix: Data) {
    |h| == 512 && |name| <= 100 && |prefix| <= 155 &&
    Field(h, 0, 100) == PadRight(name, 100) && Field(h, 100, 8) == OctalField(mode, 8) &&
    Field(h, 124, 12) == OctalField(size, 12) && h[156] == typeByte && Field(h, 345, 155) == PadRight(prefix, 155)
  }

  lemma {:induction false} BlockHasFields(name: Data, mode: nat, size: nat, typeByte: int, prefix: Data, sum: nat)
    requires |name| <= 100 && |prefix| <= 155 && HeaderSum(name, mode, size, typeByte, prefix) == sum
    ensures var h := HeaderStart(name, mode, size) + (PadOctal(sum, 6) + [0, 32]) + HeaderEnd(typeByte, prefix);
      HasFields(h, name, mode, size, typeByte, prefix) &&
      Field(h, 148, 8) == PadOctal(sum, 6) + [0, 32] && Checksum(h) == sum
  {
    BlockFields(HeaderStart(name, mode, size), PadOctal(sum, 6) + [0, 32], HeaderEnd(typeByte, prefix));
    StartFields(name, mode, size);
    EndFields(typeByte, prefix);
  }

  lemma {:induction false} FieldsRead(h: Data, name: Data, mode: nat, size: nat, typeByte: int, prefix: Data)
    requires Fields(name, mode, size, typeByte, prefix) && HasFields(h, name, mode, size, typeByte, prefix)
    ensures !AllZero(h)
    ensures HeaderFields(h) == Some(Header(Decode(name).value, Decode(prefix).value, size, Some(mode), typeByte))
  {
    TextFieldReads(name, 100);
    TextFieldReads(prefix, 155);
    assert Power8(7) == 2097152;
    OctalFieldReads(mode, 8);
    OctalFieldReads(size, 12);
    if AllZero(h) { AllZeroAt(h, 156); }
  }

  /** A header block reads back as the fields that were written, its texts decoded. */
  lemma {:induction false} BlockReads(name: Data, mode: nat, size: nat, typeByte: int, prefix: Data)
    requires Fields(name, mode, size, typeByte, prefix) && HeaderBlock(name, mode, size, typeByte, prefix).Some?
    ensures !AllZero(HeaderBlock(name, mode, size, typeByte, prefix).value)
    ensures ReadHeader(HeaderBlock(name, mode, size, typeByte, prefix).value) ==
      Some(Header(Decode(name).value, Decode(prefix).value, size, Some(mode), typeByte))
  {
    var sum := HeaderSum(name, mode, size, typeByte, prefix);
    BlockHasFields(name, mode, size, typeByte, prefix, sum);
    ChecksumReads(sum);
    FieldsRead(HeaderBlock(name, mode, size, typeByte, prefix).value, name, mode, size, typeByte, prefix);
  }

  lemma {:induction false} ChecksumReads(sum: nat)
    requires sum < Power8(6)
    ensures ParseOctal(PadOctal(sum, 6) + [0, 32]) == Some(sum)
  {
    PadOctalValue(sum, 6);
    PowerBelow(6);
    ParsePadded(PadOctal(sum, 6), [0, 32]);
  }

  // ---------------------------------------------------------------------- one entry

  lemma {:induction false} SplitText(path: Data)
    requires Text(path) && SplitPath(path).Some?
    ensures var split := SplitPath(path).value;
      Text(split.name) && Text(split.prefix) &&
      path == (if split.prefix == [] then split.name else split.prefix + [SLASH] + split.name)
  {
    if |path| > 100 {
      SplitIsLast(path, |path| - 1);
      var split := SplitPath(path).value;
      var at := |split.prefix|;
      assert path == path[..at] + [SLASH] + path[at + 1..];
      CutAtAscii(split.prefix, SLASH, split.name);
    }
  }

  /** The path that is read back: both of its parts are decoded by themselves. */
  ghost function Reread(path: Data): (r: Data)
    requires Text(path) && SplitPath(path).Some?
  {
    SplitText(path);
    var split := SplitPath(path).value;
    var name, prefix := Decode(split.name).value, Decode(split.prefix).value;
    if prefix == [] then name else prefix + [SLASH] + name
  }

  ghost predicate Printable(e: Entry, limits: Limits) {
    Text(e.path) && SafeMode(e.mode) && (e.directory ==> e.data == []) && |e.data| <= limits.maxEntryBytes &&
    SplitPath(e.path).Some? && |e.data| < Power8(11)
  }

  lemma {:induction false} ModeKept(mode: nat)
    requires SafeMode(mode)
    ensures mode % 512 == mode
  {
  }

  lemma {:induction false} PrintableIsWritable(e: Entry, limits: Limits)
    requires Printable(e, limits)
    ensures Writable(e)
  {
    hide HeaderBlock, SplitPath;
    SplitText(e.path);
    SplitFits(e.path);
    var split := SplitPath(e.path).value;
    ModeKept(e.mode);
    BlockIsThere(split.name, e.mode, |Payload(e)|, TypeByte(e), split.prefix);
  }

  ghost function RereadHeader(e: Entry): (h: Header)
    requires Text(e.path) && SplitPath(e.path).Some?
  {
    SplitText(e.path);
    var split := SplitPath(e.path).value;
    Header(Decode(split.name).value, Decode(split.prefix).value, |Payload(e)|, Some(e.mode), TypeByte(e))
  }

  lemma {:induction false} HeaderRereads(e: Entry, limits: Limits)
    requires Printable(e, limits) && Writable(e)
    ensures !AllZero(CanonicalHeader(e).value) && ReadHeader(CanonicalHeader(e).value) == Some(RereadHeader(e))
  {
    SplitText(e.path);
    SplitFits(e.path);
    var split := SplitPath(e.path).value;
    ModeKept(e.mode);
    BlockReads(split.name, e.mode, |Payload(e)|, TypeByte(e), split.prefix);
  }

  lemma {:induction false} AddReread(st: State, e: Entry, limits: Limits)
    requires Printable(e, limits) && st.pending.None?
    ensures AddMember(st, RereadHeader(e), Payload(e), limits) == AddEntry(st, e.(path := Reread(e.path)), limits)
  {
    AddPlain(st, RereadHeader(e), Payload(e), limits);
    RereadEntry(st, e, limits);
  }

  lemma {:induction false} AddPlain(st: State, header: Header, data: Data, limits: Limits)
    requires header.size <= limits.maxEntryBytes && header.mode.Some? && (header.typeByte == 48 || header.typeByte == 53)
    ensures AddMember(st, header, data, limits) ==
      AddEntry(st, Entry(MemberPath(st, header), header.mode.value, header.typeByte == 53, data), limits)
  {
  }

  lemma {:induction false} RereadEntry(st: State, e: Entry, limits: Limits)
    requires Printable(e, limits) && st.pending.None?
    ensures e.(path := Reread(e.path)) == Entry(MemberPath(st, RereadHeader(e)), e.mode, TypeByte(e) == 53, Payload(e))
  {
  }

  /** Reading back a member that was written adds its entry, under the path that is read back. */
  lemma {:induction false} MemberRereads(st: State, e: Entry, limits: Limits)
    requires Printable(e, limits) && Writable(e) && st.pending.None?
    ensures ValidMember(MemberFor(e))
    ensures AddMember(st, ReadHeader(MemberFor(e).header).value, MemberFor(e).data, limits) ==
      AddEntry(st, e.(path := Reread(e.path)), limits)
  {
    HeaderRereads(e, limits);
    AddReread(st, e, limits);
  }

  lemma {:induction false} RereadIsText(path: Data)
    requires Text(path) && SplitPath(path).Some?
    ensures Text(Reread(path))
  {
    SplitText(path);
    var split := SplitPath(path).value;
    var name, prefix := Decode(split.name).value, Decode(split.prefix).value;
    CutAtAscii(prefix, SLASH, name);
  }

  // ---------------------------------------------------------------------- a list of entries

  ghost predicate AllPrintable(es: seq<Entry>, limits: Limits) {
    es == [] || (Printable(es[0], limits) && AllPrintable(es[1..], limits))
  }

  lemma {:induction false} AllPrintableWritable(es: seq<Entry>, limits: Limits)
    requires AllPrintable(es, limits)
    ensures AllWritable(es)
  {
    if es != [] {
      PrintableIsWritable(es[0], limits);
      AllPrintableWritable(es[1..], limits);
    }
  }

  ghost function RereadAll(es: seq<Entry>, limits: Limits): (r: seq<Entry>)
    requires AllPrintable(es, limits)
    ensures |r| == |es|
  {
    if es == [] then [] else [es[0].(path := Reread(es[0].path))] + RereadAll(es[1..], limits)
  }

  lemma {:induction false} GoodPrefix(a: seq<Entry>, b: seq<Entry>, limits: Limits)
    requires GoodEntries(a + b, limits)
    ensures GoodEntries(a, limits)
  {
    if b == [] {
      assert a + b == a;
    } else {
      var c := a + b[..|b| - 1];
      assert a + b == c + [b[|b| - 1]];
      Appended(c, b[|b| - 1], limits);
      GoodPrefix(a, b[..|b| - 1], limits);
    }
  }

  ghost function IfGood(es: seq<Entry>, limits: Limits): (r: Option<seq<Entry>>) {
    if GoodEntries(es, limits) then Some(es) else None
  }

  lemma {:induction false} MembersForValid(es: seq<Entry>, limits: Limits)
    requires AllPrintable(es, limits) && AllWritable(es)
    ensures ValidMembers(MembersFor(es))
  {
    hide CanonicalHeader, ReadHeader, AddMember, AddEntry, SplitPath;
    if es != [] {
      MemberRereads(START, es[0], limits);
      MembersForValid(es[1..], limits);
    }
  }

  lemma {:induction false} StateIsGood(st: State, limits: Limits)
    ensures GoodState(START, limits)
    ensures GoodState(st, limits) ==> GoodEntries(st.entries, limits)
  {
  }

  lemma {:induction false} RereadFits(e: Entry, limits: Limits)
    requires Printable(e, limits)
    ensures ValidUtf8(Reread(e.path)) && |e.data| <= limits.maxEntryBytes
  {
    RereadIsText(e.path);
  }

  /** Reading back what was written gives the entries under their paths as read back, if those are acceptable. */
  lemma {:induction false} MembersReread(st: State, es: seq<Entry>, limits: Limits)
    requires GoodState(st, limits) && st.pending.None? && AllPrintable(es, limits) && AllWritable(es)
    requires ValidMembers(MembersFor(es))
    ensures Finish(AddMembers(st, MembersFor(es), limits)) == IfGood(st.entries + RereadAll(es, limits), limits)
    decreases |es|
  {
    hide CanonicalHeader, ReadHeader, AddMember, AddEntry, SplitPath, Reread, GoodState, GoodEntries;
    if es == [] {
      assert st.entries + [] == st.entries;
      StateIsGood(st, limits);
    } else {
      var reread := es[0].(path := Reread(es[0].path));
      var rest := RereadAll(es[1..], limits);
      var ms := MembersFor(es);
      assert ms[0] == MemberFor(es[0]) && ms[1..] == MembersFor(es[1..]);
      MemberRereads(st, es[0], limits);
      RereadFits(es[0], limits);
      AddEntryIff(st, reread, limits);
      assert st.entries + RereadAll(es, limits) == st.entries + [reread] + rest;
      match AddEntry(st, reread, limits)
      case None =>
        if GoodEntries(st.entries + [reread] + rest, limits) { GoodPrefix(st.entries + [reread], rest, limits); }
      case Some(next) =>
        MembersReread(next, es[1..], limits);
    }
  }

  // ---------------------------------------------------------------------- order does not matter to what is good

  ghost function PathBytes(es: seq<Entry>): (n: nat) {
    if es == [] then 0 else PathBytes(es[..|es| - 1]) + |es[|es| - 1].path|
  }

  ghost predicate SameTotals(a: seq<Entry>, b: seq<Entry>, limits: Limits) {
    FileCount(a) == FileCount(b) && FileBytes(a) == FileBytes(b) && SpaceOf(a) == SpaceOf(b) &&
    PathBytes(a) == PathBytes(b) && PathSet(a) == PathSet(b) && (EachGood(a, limits) <==> EachGood(b, limits))
  }

  ghost predicate AddedInFront(whole: seq<Entry>, e: Entry, es: seq<Entry>, limits: Limits) {
    FileCount(whole) == FileCount(es) + (if e.directory then 0 else 1) &&
    FileBytes(whole) == FileBytes(es) + (if e.directory then 0 else |e.data|) &&
    SpaceOf(whole) == SpaceOf(es) + 512 + Padded(|e.data|) && PathBytes(whole) == PathBytes(es) + |e.path| &&
    PathSet(whole) == {e.path} + PathSet(es) &&
    (EachGood(whole, limits) <==> EachGood(es, limits) && GoodEntry(e, limits) && e.path !in PathSet(es))
  }

  lemma {:induction false} InFront(e: Entry, es: seq<Entry>, limits: Limits)
    ensures AddedInFront([e] + es, e, es, limits)
  {
    hide GoodEntry;
    var whole := [e] + es;
    if es == [] {
      assert whole[..0] == [];
    } else {
      InFront(e, es[..|es| - 1], limits);
      assert whole[..|es|] == [e] + es[..|es| - 1] && whole[|es|] == es[|es| - 1];
    }
  }

  lemma {:induction false} InsertKeeps(e: Entry, es: seq<Entry>, limits: Limits)
    ensures SameTotals(InsertEntry(e, es), [e] + es, limits)
  {
    hide GoodEntry, AtMost;
    if es != [] && !AtMost(e.path, es[0].path) {
      var h, t := es[0], es[1..];
      InsertKeeps(e, t, limits);
      InFront(h, InsertEntry(e, t), limits);
      InFront(e, t, limits);
      InFront(e, es, limits);
      InFront(h, t, limits);
      assert es == [h] + t;
    }
  }

  lemma {:induction false} OrderedKeeps(es: seq<Entry>, limits: Limits)
    ensures SameTotals(Ordered(es), es, limits)
  {
    hide GoodEntry, InsertEntry;
    if es != [] {
      OrderedKeeps(es[1..], limits);
      InsertKeeps(es[0], Ordered(es[1..]), limits);
      InFront(es[0], Ordered(es[1..]), limits);
      InFront(es[0], es[1..], limits);
      assert es == [es[0]] + es[1..];
    }
  }

  lemma {:induction false} PrintedLength(es: seq<Entry>, limits: Limits)
    requires AllWritable(es) && AllPrintable(es, limits)
    ensures |MembersBytes(MembersFor(es))| == SpaceOf(es)
  {
    hide CanonicalHeader;
    if es != [] {
      PrintedLength(es[1..], limits);
      InFront(es[0], es[1..], limits);
      assert es == [es[0]] + es[1..];
      var ms := MembersFor(es);
      assert ms[0] == MemberFor(es[0]) && ms[1..] == MembersFor(es[1..]);
    }
  }

  // ---------------------------------------------------------------------- the round trip

  /** The path does not fit in one field, and the part of it that goes into the name field starts with a byte-order mark. */
  predicate Marked(path: Data) {
    SplitPath(path).Some? && HasBom(SplitPath(path).value.name)
  }

  lemma {:induction false} SafePathStart(path: Data)
    requires SafePath(path)
    ensures path != [] && path[0] == 112 && 0 !in path
  {
  }

  lemma {:induction false} RereadIff(path: Data)
    requires SafePath(path) && ValidUtf8(path) && SplitPath(path).Some?
    ensures Text(path)
    ensures if Marked(path) then |Reread(path)| < |path| else Reread(path) == path
  {
    SafePathStart(path);
    SplitText(path);
    if |path| > 100 { SplitIsLast(path, |path| - 1); }
  }

  lemma {:induction false} GoodIsPrintable(e: Entry, limits: Limits)
    requires GoodEntry(e, limits) && Writable(e)
    ensures Printable(e, limits)
  {
    SafePathStart(e.path);
  }

  lemma {:induction false} GoodArePrintable(es: seq<Entry>, limits: Limits)
    requires EachGood(es, limits) && AllWritable(es)
    ensures AllPrintable(es, limits)
  {
    hide Writable, GoodEntry, Printable;
    if es != [] {
      InFront(es[0], es[1..], limits);
      assert es == [es[0]] + es[1..];
      GoodIsPrintable(es[0], limits);
      GoodArePrintable(es[1..], limits);
    }
  }

  /** What reading gives after writing: the entries in order, under their paths as read back, if acceptable. */
  lemma {:induction false} WrittenThenRead(es: seq<Entry>, limits: Limits)
    requires ValidLimits(limits) && GoodEntries(es, limits) && PrintTar(es).Some?
    requires |PrintTar(es).value| <= limits.maxUnpackedBytes
    ensures AllPrintable(Ordered(es), limits) && GoodEntries(Ordered(es), limits)
    ensures ParseTar(PrintTar(es).value, limits) == IfGood(RereadAll(Ordered(es), limits), limits)
  {
    hide Ordered, ParseRest, ReadMember, AddMembers, MembersFor, MembersBytes, GoodState, EachGood;
    StateIsGood(START, limits);
    var ordered := Ordered(es);
    OrderedKeeps(es, limits);
    GoodArePrintable(ordered, limits);
    MembersForValid(ordered, limits);
    MembersReread(START, ordered, limits);
    MembersAreRead(MembersFor(ordered), 1024, START, limits);
    assert START.entries + RereadAll(ordered, limits) == RereadAll(ordered, limits);
  }

  ghost predicate NoneMarked(es: seq<Entry>) {
    forall k :: 0 <= k < |es| ==> !Marked(es[k].path)
  }

  lemma {:induction false} OrderedMarks(es: seq<Entry>)
    ensures NoneMarked(Ordered(es)) <==> NoneMarked(es)
  {
    hide Marked, Ordered;
    OrderedIsSorted(es);
    var ordered := Ordered(es);
    forall k | 0 <= k < |es| ensures es[k] in ordered { assert es[k] in multiset(ordered); }
    forall k | 0 <= k < |es| ensures ordered[k] in es { assert ordered[k] in multiset(es); }
  }

  /** Without a mark nothing changes; with one, a path gets shorter. */
  lemma {:induction false} RereadAllIff(es: seq<Entry>, limits: Limits)
    requires EachGood(es, limits) && AllPrintable(es, limits)
    ensures if NoneMarked(es) then RereadAll(es, limits) == es
            else PathBytes(RereadAll(es, limits)) < PathBytes(es)
    ensures PathBytes(RereadAll(es, limits)) <= PathBytes(es)
  {
    hide Marked, Reread, SplitPath, SafePath, ValidUtf8, SafeMode, EachGood, PathSet, FileCount, FileBytes, SpaceOf;
    if es != [] {
      var e, rest := es[0], es[1..];
      assert es == [e] + rest;
      InFront(e, rest, limits);
      RereadIff(e.path);
      RereadAllIff(rest, limits);
      InFront(e.(path := Reread(e.path)), RereadAll(rest, limits), limits);
      assert NoneMarked(es) <==> !Marked(e.path) && NoneMarked(rest);
    }
  }

  /**
   * Writing acceptable entries and reading them back gives the same entries, in the order of their paths, if and
   * only if no path is split so that its name part starts with a byte-order mark.
   */
  lemma {:induction false} RoundTripIff(es: seq<Entry>, limits: Limits)
    requires ValidLimits(limits) && GoodEntries(es, limits) && PrintTar(es).Some?
    requires |PrintTar(es).value| <= limits.maxUnpackedBytes
    ensures ParseTar(PrintTar(es).value, limits) == Some(Ordered(es)) <==> NoneMarked(es)
  {
    hide Ordered, ParseTar, PrintTar, Marked, RereadAll, EachGood, AllPrintable;
    WrittenThenRead(es, limits);
    RereadAllIff(Ordered(es), limits);
    OrderedMarks(es);
  }
}
