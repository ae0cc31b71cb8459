/** An accepted file whose canonical form names a different member: a path whose split name starts with a byte-order mark. */
module TarExample {
  import opened Common
  import opened Splitting
  import opened TarFields
  import opened TarPaths
  import opened TarParser
  import opened TarEntries
  import opened TarWriter
  import opened TarRoundTrip
  import opened TarCanonical

  function Folder(): (r: Data)
    ensures |r| == 93 && forall i :: 0 <= i < 93 ==> r[i] == 97
  {
    seq(93, _ => 97)
  }

  function Prefix(): (r: Data)
    ensures |r| == 101
  {
    PACKAGE + [SLASH] + Folder()
  }

  /** `package/aaa…/name`, too long for one field. */
  function PathTo(name: Data): (r: Data) {
    Prefix() + [SLASH] + name
  }

  const PLAIN: Data := [120]
  const WITH_MARK: Data := [0xEF, 0xBB, 0xBF, 120]

  lemma {:induction false} AsciiIsValid(s: Data)
    requires forall i :: 0 <= i < |s| ==> 0 <= s[i] < 0x80
    ensures ValidUtf8(s)
  {
    if s != [] { AsciiIsValid(s[1..]); }
  }

  ghost predicate PlainName(name: Data) {
    0 < |name| <= 10 && ValidUtf8(name) && SafeSegment(name) && SLASH !in name && 92 !in name && 0 !in name
  }

  lemma {:induction false} PathIsValid(name: Data)
    requires PlainName(name)
    ensures ValidUtf8(PathTo(name))
  {
    hide Folder;
    PrefixHasNoMark();
    CutAtAscii(Prefix(), SLASH, name);
  }

  lemma {:induction false} PathSegments(name: Data)
    requires PlainName(name)
    ensures Split(PathTo(name), SLASH) == [PACKAGE, Folder(), name]
  {
    hide Folder, Split;
    SplitCut(Prefix(), SLASH, name);
    SplitCut(PACKAGE, SLASH, Folder());
    OnePart(PACKAGE, SLASH);
    OnePart(Folder(), SLASH);
    OnePart(name, SLASH);
  }

  lemma {:induction false} PathIsSafe(name: Data)
    requires PlainName(name)
    ensures SafePath(PathTo(name))
  {
    hide Split, ValidUtf8, Folder;
    PathSegments(name);
    var path := PathTo(name);
    assert path[|path| - 1] == name[|name| - 1];
    assert PACKAGE + [SLASH] <= path;
  }

  lemma {:induction false} PathIsSplit(name: Data)
    requires PlainName(name)
    ensures SplitPath(PathTo(name)) == Some(PathParts(name, Prefix()))
  {
    var path := PathTo(name);
    SplitIsLast(path, |path| - 1);
    assert Fits(path, 101);
    var at := |SplitPath(path).value.prefix|;
    assert forall k :: 101 < k < |path| ==> path[k] in name;
    assert path[..101] == Prefix() && path[102..] == name;
  }

  lemma {:induction false} NamesArePlain()
    ensures PlainName(PLAIN) && PlainName(WITH_MARK) && Decode(WITH_MARK) == Some(PLAIN)
  {
    assert CharLength(WITH_MARK) == 3 && WITH_MARK[3..] == PLAIN;
    assert CharLength(PLAIN) == 1 && PLAIN[1..] == [];
  }

  function FileAt(name: Data): (e: Entry) {
    Entry(PathTo(name), 0x1A4, false, [])
  }

  const LIMITS := Limits(4096, 128, 1)

  lemma {:induction false} FileIsGood(name: Data)
    requires PlainName(name)
    ensures GoodEntries([FileAt(name)], LIMITS) && Printable(FileAt(name), LIMITS)
  {
    hide SafePath, SplitPath;
    PathIsSafe(name);
    PathIsValid(name);
    PathIsSplit(name);
    SafePathStart(PathTo(name));
    var e := FileAt(name);
    assert [e][..0] == [] && [e] == [] + [e];
    Appended([], e, LIMITS);
    assert Power8(11) == 8589934592;
  }

  lemma {:induction false} PrefixHasNoMark()
    ensures ValidUtf8(Prefix()) && !HasBom(Prefix())
  {
    AsciiIsValid(Prefix());
  }

  lemma {:induction false} MarkedReread()
    ensures AllPrintable([FileAt(WITH_MARK)], LIMITS)
    ensures RereadAll([FileAt(WITH_MARK)], LIMITS) == [FileAt(PLAIN)]
  {
    hide ValidUtf8, PlainName;
    NamesArePlain();
    FileIsGood(WITH_MARK);
    PathIsSplit(WITH_MARK);
    PrefixHasNoMark();
    assert Reread(PathTo(WITH_MARK)) == PathTo(PLAIN);
  }

  /** The file is acceptable and can be written, but what is read back is a file with another path. */
  lemma {:induction false} MarkIsLost()
    ensures ValidLimits(LIMITS) && GoodEntries([FileAt(WITH_MARK)], LIMITS) && PrintTar([FileAt(WITH_MARK)]).Some?
    ensures ParseTar(PrintTar([FileAt(WITH_MARK)]).value, LIMITS) == Some([FileAt(PLAIN)])
    ensures FileAt(PLAIN) != FileAt(WITH_MARK)
  {
    hide ParseTar, MembersFor, MembersBytes, GoodEntries, Printable, PlainName, CanonicalHeader, AllPrintable, RereadAll;
    NamesArePlain();
    var e := FileAt(WITH_MARK);
    FileIsGood(WITH_MARK);
    FileIsGood(PLAIN);
    MarkedReread();
    assert Ordered([e]) == [e];
    AllPrintableWritable([e], LIMITS);
    PrintedLength([e], LIMITS);
    WrittenThenRead([e], LIMITS);
    assert |PathTo(PLAIN)| < |PathTo(WITH_MARK)|;
  }

  // ---------------------------------------------------------------------- such a file can be read

  /** A path extension carrying the marked path. */
  ghost function Extension(): (m: Member)
    requires HeaderBlock(PACKAGE, 0, |PathTo(WITH_MARK)|, 76, []).Some?
  {
    var path := PathTo(WITH_MARK);
    Member(HeaderBlock(PACKAGE, 0, |path|, 76, []).value, path, Zeros(Padded(|path|) - |path|))
  }

  lemma {:induction false} ExtensionReads()
    ensures HeaderBlock(PACKAGE, 0, |PathTo(WITH_MARK)|, 76, []).Some? && ValidMember(Extension())
    ensures ReadHeader(Extension().header) == Some(Header(PACKAGE, [], |PathTo(WITH_MARK)|, Some(0), 76))
  {
    hide HeaderBlock, ValidUtf8;
    AsciiIsValid(PACKAGE);
    AsciiIsValid([]);
    assert Power8(11) == 8589934592;
    BlockIsThere(PACKAGE, 0, |PathTo(WITH_MARK)|, 76, []);
    BlockReads(PACKAGE, 0, |PathTo(WITH_MARK)|, 76, []);
  }

  lemma {:induction false} ExtensionPath()
    ensures GnuPath(PathTo(WITH_MARK)) == Some(PathTo(WITH_MARK))
  {
    hide ValidUtf8, PlainName, SafePath;
    NamesArePlain();
    PathIsValid(WITH_MARK);
    PathIsSafe(WITH_MARK);
    var path := PathTo(WITH_MARK);
    SafePathStart(path);
    UpToNulOf(path, 0);
    assert path + Zeros(0) == path;
    assert path[|path| - 1] == 120;
  }

  ghost function Source(): (ms: seq<Member>)
    requires HeaderBlock(PACKAGE, 0, |PathTo(WITH_MARK)|, 76, []).Some? && Writable(FileAt(PLAIN))
  {
    [Extension(), MemberFor(FileAt(PLAIN))]
  }

  const PENDING := START.(pending := Some(PathTo(WITH_MARK)))

  lemma {:induction false} AddsExtension()
    ensures AddMember(START, Header(PACKAGE, [], |PathTo(WITH_MARK)|, Some(0), 76), PathTo(WITH_MARK), LIMITS) == Some(PENDING)
  {
    hide GnuPath;
    ExtensionPath();
  }

  lemma {:induction false} AddsFile()
    ensures Text(FileAt(PLAIN).path) && SplitPath(FileAt(PLAIN).path).Some?
    ensures Finish(AddMember(PENDING, RereadHeader(FileAt(PLAIN)), [], LIMITS)) == Some([FileAt(WITH_MARK)])
  {
    hide SafePath, SplitPath, ValidUtf8, PlainName, Decode;
    NamesArePlain();
    FileIsGood(PLAIN);
    PathIsSafe(WITH_MARK);
    AddPlain(PENDING, RereadHeader(FileAt(PLAIN)), [], LIMITS);
    var e := FileAt(WITH_MARK);
    assert AddEntry(PENDING, e, LIMITS) == Some(State([] + [e], {} + {e.path}, None, 0, 1));
    assert [] + [e] == [e];
  }

  lemma {:induction false} SourceAdds()
    requires HeaderBlock(PACKAGE, 0, |PathTo(WITH_MARK)|, 76, []).Some? && Writable(FileAt(PLAIN))
    ensures ValidMembers(Source())
    ensures Finish(AddMembers(START, Source(), LIMITS)) == Some([FileAt(WITH_MARK)])
  {
    hide CanonicalHeader, HeaderBlock, ReadHeader, AddMember, PlainName, Printable, RereadHeader;
    NamesArePlain();
    FileIsGood(PLAIN);
    ExtensionReads();
    AddsExtension();
    AddsFile();
    var file := MemberFor(FileAt(PLAIN));
    HeaderRereads(FileAt(PLAIN), LIMITS);
    MemberRereads(START, FileAt(PLAIN), LIMITS);
    assert Source()[1..] == [file] && [file][1..] == [];
  }

  /** A file can be read whose entry has such a path. */
  lemma {:induction false} MarkedFileIsRead() returns (tar: Data)
    ensures ParseTar(tar, LIMITS) == Some([FileAt(WITH_MARK)])
  {
    hide CanonicalHeader, HeaderBlock, ReadHeader, ParseRest, AddMembers, PlainName, Printable, ValidMembers, Finish, Padded,
      ValidMember;
    NamesArePlain();
    FileIsGood(PLAIN);
    PrintableIsWritable(FileAt(PLAIN), LIMITS);
    ExtensionReads();
    SourceAdds();
    var ms := Source();
    MembersAreRead(ms, 1024, START, LIMITS);
    tar := MembersBytes(ms) + Zeros(1024);
    assert ms[1..] == [ms[1]] && ms[1..][1..] == [];
  }

  /** That file can be canonicalized, and canonicalizing the result gives something else. */
  lemma {:induction false} CanonicalIsNotStable() returns (tar: Data)
    ensures Canonicalize(tar, LIMITS).Some?
    ensures Canonicalize(Canonicalize(tar, LIMITS).value, LIMITS) != Canonicalize(tar, LIMITS)
  {
    hide ParseTar, PrintTar, GoodEntries, SplitPath, PlainName;
    tar := MarkedFileIsRead();
    MarkIsLost();
    NamesArePlain();
    PathIsSplit(WITH_MARK);
    assert Marked([FileAt(WITH_MARK)][0].path);
    CanonicalIsStableIff(tar, LIMITS);
  }
}
