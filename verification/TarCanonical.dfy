/** Canonicalizing a package tarball: reading it and writing what was read. */
module TarCanonical {
  import opened Common
  import opened TarFields
  import opened TarPaths
  import opened TarParser
  import opened TarEntries
  import opened TarWriter
  import opened TarRoundTrip

  ghost function Canonicalize(tar: Data, limits: Limits): (r: Option<Data>) {
    match ParseTar(tar, limits)
    case None => None
    case Some(es) => PrintTar(es)
  }

  method CanonicalizePackageTarball(tar: Data, limits: Limits) returns (r: Option<Data>)
    ensures r == Canonicalize(tar, limits)
  {
    hide ParseTar, PrintTar;
    var es := ParseTarEntries(tar, limits);
    if es.None? {
      return None;
    }
    r := CreateCanonicalTarball(es.value);
  }

  /** The canonical form is never longer than what it was made from, so it is within the limit again. */
  lemma {:induction false} CanonicalIsNoLonger(tar: Data, limits: Limits)
    requires Canonicalize(tar, limits).Some?
    ensures |Canonicalize(tar, limits).value| <= |tar| <= limits.maxUnpackedBytes
  {
    hide ParseTar, Ordered, MembersFor, MembersBytes, EachGood;
    var es := ParseTar(tar, limits).value;
    AcceptedEntries(tar, limits);
    OrderedKeeps(es, limits);
    GoodArePrintable(Ordered(es), limits);
    PrintedLength(Ordered(es), limits);
  }

  // ---------------------------------------------------------------------- the bytes determine the entries

  lemma {:induction false} WrittenParts(e: Entry, limits: Limits)
    requires Printable(e, limits) && Writable(e)
    ensures UpToNul(Field(CanonicalHeader(e).value, 0, 100)) == SplitPath(e.path).value.name
    ensures UpToNul(Field(CanonicalHeader(e).value, 345, 155)) == SplitPath(e.path).value.prefix
  {
    hide SplitPath, HeaderBlock, UpToNul;
    SplitText(e.path);
    SplitFits(e.path);
    var split := SplitPath(e.path).value;
    ModeKept(e.mode);
    BlockParts(split.name, e.mode, |Payload(e)|, TypeByte(e), split.prefix);
  }

  lemma {:induction false} BlockParts(name: Data, mode: nat, size: nat, typeByte: int, prefix: Data)
    requires |name| <= 100 && |prefix| <= 155 && 0 !in name && 0 !in prefix
    requires HeaderBlock(name, mode, size, typeByte, prefix).Some?
    ensures UpToNul(Field(HeaderBlock(name, mode, size, typeByte, prefix).value, 0, 100)) == name
    ensures UpToNul(Field(HeaderBlock(name, mode, size, typeByte, prefix).value, 345, 155)) == prefix
  {
    hide HeaderSum, HeaderStart, HeaderEnd, UpToNul;
    BlockHasFields(name, mode, size, typeByte, prefix, HeaderSum(name, mode, size, typeByte, prefix));
    UpToNulOf(name, 100 - |name|);
    UpToNulOf(prefix, 155 - |prefix|);
  }

  lemma {:induction false} SameHeader(a: Entry, b: Entry, limits: Limits)
    requires Printable(a, limits) && Writable(a) && Printable(b, limits) && Writable(b)
    requires CanonicalHeader(a) == CanonicalHeader(b)
    ensures a.path == b.path && a.mode == b.mode && a.directory == b.directory && |Payload(a)| == |Payload(b)|
  {
    hide CanonicalHeader, SplitPath;
    WrittenParts(a, limits);
    WrittenParts(b, limits);
    SplitText(a.path);
    SplitText(b.path);
    HeaderRereads(a, limits);
    HeaderRereads(b, limits);
  }

  lemma {:induction false} SameMembers(m: Member, s: Data, n: Member, t: Data)
    requires |m.header| == |n.header| == 512 && MemberBytes(m) + s == MemberBytes(n) + t
    ensures m.header == n.header
    ensures |m.data| == |n.data| && |m.padding| == |n.padding| ==> m.data == n.data && s == t
  {
    var whole := MemberBytes(m) + s;
    assert whole[..512] == m.header && whole[..512] == n.header;
    if |m.data| == |n.data| && |m.padding| == |n.padding| {
      assert whole[512..512 + |m.data|] == m.data && whole[512..512 + |n.data|] == n.data;
      assert whole[|MemberBytes(m)|..] == s && whole[|MemberBytes(n)|..] == t;
    }
  }

  ghost function Printed(es: seq<Entry>): (r: Data)
    requires AllWritable(es)
  {
    MembersBytes(MembersFor(es)) + Zeros(1024)
  }

  lemma {:induction false} PrintedFront(es: seq<Entry>, limits: Limits)
    requires es != [] && AllPrintable(es, limits) && AllWritable(es)
    ensures Printed(es) == MemberBytes(MemberFor(es[0])) + Printed(es[1..])
    ensures Printed(es)[..512] == CanonicalHeader(es[0]).value && !AllZero(Printed(es)[..512])
  {
    hide CanonicalHeader;
    var ms := MembersFor(es);
    assert ms[0] == MemberFor(es[0]) && ms[1..] == MembersFor(es[1..]);
    var bytes := MemberBytes(MemberFor(es[0]));
    assert Printed(es) == bytes + Printed(es[1..]);
    assert bytes[..512] == CanonicalHeader(es[0]).value;
    HeaderRereads(es[0], limits);
  }

  lemma {:induction false} SameEntry(a: Entry, b: Entry, limits: Limits)
    requires Printable(a, limits) && Printable(b, limits)
    requires a.path == b.path && a.mode == b.mode && a.directory == b.directory && Payload(a) == Payload(b)
    ensures a == b
  {
  }

  /** Writing is injective: lists of entries that are written alike are the same. */
  lemma {:induction false} PrintedDetermines(a: seq<Entry>, b: seq<Entry>, limits: Limits)
    requires AllPrintable(a, limits) && AllWritable(a) && AllPrintable(b, limits) && AllWritable(b)
    requires Printed(a) == Printed(b)
    ensures a == b
  {
    hide CanonicalHeader, Printed, Printable, Payload;
    if a == [] && b == [] {
    } else if a == [] || b == [] {
      EmptyPrinted();
      if a == [] { PrintedFront(b, limits); } else { PrintedFront(a, limits); }
    } else {
      PrintedFront(a, limits);
      PrintedFront(b, limits);
      SameHeader(a[0], b[0], limits);
      SameMembers(MemberFor(a[0]), Printed(a[1..]), MemberFor(b[0]), Printed(b[1..]));
      SameEntry(a[0], b[0], limits);
      PrintedDetermines(a[1..], b[1..], limits);
      assert a == [a[0]] + a[1..] && b == [b[0]] + b[1..];
    }
  }

  lemma {:induction false} EmptyPrinted()
    ensures AllZero(Printed([])[..512])
  {
    AllZeroIf(Printed([])[..512]);
  }

  /**
   * Canonicalizing a canonical form changes nothing, and reads the same entries, if and only if no path is split so
   * that its name part starts with a byte-order mark.
   */
  lemma {:induction false} CanonicalIsStableIff(tar: Data, limits: Limits)
    requires Canonicalize(tar, limits).Some?
    ensures var es := ParseTar(tar, limits).value;
      var canonical := Canonicalize(tar, limits).value;
      (ParseTar(canonical, limits) == Some(Ordered(es)) <==> NoneMarked(es)) &&
      (Canonicalize(canonical, limits) == Some(canonical) <==> NoneMarked(es))
  {
    hide ParseTar, Ordered, PrintTar, Marked, EachGood, AllPrintable;
    var es := ParseTar(tar, limits).value;
    var canonical := Canonicalize(tar, limits).value;
    AcceptedEntries(tar, limits);
    ParsedLimits(tar, limits);
    CanonicalIsNoLonger(tar, limits);
    RoundTripIff(es, limits);
    OrderedIsSorted(es);
    OrderedOfSorted(Ordered(es));
    OrderedAgain(es);
    if Canonicalize(canonical, limits) == Some(canonical) {
      StableIsUnmarked(es, canonical, limits);
    }
  }

  lemma {:induction false} ParsedLimits(tar: Data, limits: Limits)
    requires ParseTar(tar, limits).Some?
    ensures ValidLimits(limits)
  {
  }

  lemma {:induction false} OrderedAgain(es: seq<Entry>)
    requires Ordered(Ordered(es)) == Ordered(es)
    ensures PrintTar(Ordered(es)) == PrintTar(es)
  {
  }

  lemma {:induction false} StableIsUnmarked(es: seq<Entry>, canonical: Data, limits: Limits)
    requires ValidLimits(limits) && GoodEntries(es, limits) && PrintTar(es) == Some(canonical)
    requires |canonical| <= limits.maxUnpackedBytes && Canonicalize(canonical, limits) == Some(canonical)
    ensures NoneMarked(es)
  {
    hide ParseTar, Ordered, Marked, EachGood, AllPrintable, AllWritable, RereadAll, MembersFor, MembersBytes;
    var first := Ordered(es);
    WrittenThenRead(es, limits);
    var again := RereadAll(first, limits);
    var second := Ordered(again);
    OrderedKeeps(again, limits);
    GoodArePrintable(second, limits);
    PrintedDetermines(first, second, limits);
    RereadAllIff(first, limits);
    OrderedMarks(es);
  }
}
