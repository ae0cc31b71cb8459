/**
 * Reading a package tarball, after decompression. A tar file is a run of members, each a header block followed by
 * its data padded to whole blocks, ended by two zero blocks. A rejected file is `None`.
 */
module TarParser {
  import opened Common
  import opened TarFields
  import opened TarPaths

  datatype Limits = Limits(maxUnpackedBytes: nat, maxEntryBytes: nat, maxFileCount: nat)

  predicate ValidLimits(limits: Limits) {
    limits.maxUnpackedBytes > 0 && limits.maxEntryBytes > 0 && limits.maxFileCount > 0 &&
    limits.maxEntryBytes <= limits.maxUnpackedBytes
  }

  datatype Entry = Entry(path: Data, mode: nat, directory: bool, data: Data)

  /** The size of `size` bytes in whole blocks. */
  function Padded(size: nat): (r: nat)
    ensures size <= r < size + 512
  {
    if size == 0 then 0 else if size <= 512 then 512 else 512 + Padded(size - 512)
  }

  lemma {:induction false} PaddedIsRoundedUp(size: nat)
    ensures Padded(size) == (size + 511) / 512 * 512
    ensures Padded(size) - size == (512 - size % 512) % 512
  {
    if size > 512 {
      PaddedIsRoundedUp(size - 512);
      OneBlockMore(size - 1);
      OneBlockMore(size - 512);
    } else if 0 < size < 512 {
      assert size % 512 == size;
    }
  }

  lemma {:induction false} OneBlockMore(n: nat)
    ensures (n + 512) / 512 == n / 512 + 1 && (n + 512) % 512 == n % 512
  {
  }

  // ---------------------------------------------------------------------- headers

  datatype Header = Header(path: Data, prefix: Data, size: nat, mode: Option<nat>, typeByte: int)

  function Field(h: Data, offset: nat, length: nat): (f: Data)
    requires offset + length <= |h|
    ensures |f| == length
  {
    h[offset..offset + length]
  }

  function HeaderFields(h: Data): (r: Option<Header>)
    requires |h| == 512
  {
    var path := Decode(UpToNul(Field(h, 0, 100)));
    var prefix := Decode(UpToNul(Field(h, 345, 155)));
    var size := ParseOctal(Field(h, 124, 12));
    if path.None? || prefix.None? || size.None? then None
    else Some(Header(path.value, prefix.value, size.value, ParseOctal(Field(h, 100, 8)), h[156]))
  }

  /** A header whose checksum is right and whose path, prefix and size can be read. */
  ghost function ReadHeader(h: Data): (r: Option<Header>)
    requires |h| == 512
  {
    if ParseOctal(Field(h, 148, 8)) != Some(Checksum(h)) then None else HeaderFields(h)
  }

  method ParseHeader(h: Data) returns (r: Option<Header>)
    requires |h| == 512
    ensures r == ReadHeader(h)
  {
    var stored := ParseOctal(Field(h, 148, 8));
    var calculated := CalculateChecksum(h);
    if stored.None? || stored.value != calculated {
      return None;
    }
    return HeaderFields(h);
  }

  // ---------------------------------------------------------------------- members

  datatype State = State(entries: seq<Entry>, seen: set<Data>, pending: Option<Data>, bytes: nat, files: nat)

  const START := State([], {}, None, 0, 0)

  /** What happens to a file or directory, once its path is known. */
  function AddEntry(st: State, e: Entry, limits: Limits): (r: Option<State>) {
    if !SafePath(e.path) || !SafeMode(e.mode) || (e.directory && e.data != []) || e.path in st.seen then None
    else
      var added := State(st.entries + [e], st.seen + {e.path}, None, st.bytes, st.files);
      if e.directory then Some(added)
      else if st.files + 1 > limits.maxFileCount || st.bytes + |e.data| > limits.maxUnpackedBytes then None
      else Some(added.(files := st.files + 1, bytes := st.bytes + |e.data|))
  }

  function MemberPath(st: State, header: Header): (path: Data) {
    if st.pending.Some? then st.pending.value
    else if header.prefix != [] then header.prefix + [SLASH] + header.path
    else header.path
  }

  /** The effect of one member: an extension sets the next path, anything else is a file or directory. */
  function AddMember(st: State, header: Header, data: Data, limits: Limits): (r: Option<State>) {
    if header.size > limits.maxEntryBytes then None
    else if header.typeByte == 120 || header.typeByte == 103 then
      var path := PaxPath(data, None);
      if path.None? || (header.typeByte == 103 && path.value.Some?) then None
      else if path.value.Some? then Some(st.(pending := path.value))
      else Some(st)
    else if header.typeByte == 76 then
      var path := GnuPath(data);
      if path.None? then None else Some(st.(pending := path))
    else if header.mode.None? || header.typeByte !in {0, 48, 53} then None
    else AddEntry(st, Entry(MemberPath(st, header), header.mode.value, header.typeByte == 53, data), limits)
  }

  /** Either the whole answer, or the state after one more member and the length of that member. */
  datatype Progress = Done(result: Option<seq<Entry>>) | More(next: State, length: nat)

  /** Reads one member, or the end, at the front of what is left. */
  ghost function ReadMember(rest: Data, st: State, limits: Limits): (r: Progress)
    requires |rest| >= 512
    ensures r.More? ==> 0 < r.length <= |rest|
  {
    if AllZero(rest[..512]) then
      Done(if st.pending.None? && |rest| >= 1024 && AllZero(rest) then Some(st.entries) else None)
    else
      match ReadHeader(rest[..512])
      case None => Done(None)
      case Some(header) =>
        if 512 + Padded(header.size) > |rest| then Done(None)
        else
          match AddMember(st, header, rest[512..512 + header.size], limits)
          case None => Done(None)
          case Some(next) => More(next, 512 + Padded(header.size))
  }

  /** Reads the rest of a tar file from its first unread block. */
  ghost function ParseRest(rest: Data, st: State, limits: Limits): (r: Option<seq<Entry>>)
    decreases |rest|
  {
    if |rest| < 512 then None
    else
      match ReadMember(rest, st, limits)
      case Done(result) => result
      case More(next, length) => ParseRest(rest[length..], next, limits)
  }

  ghost function ParseTar(tar: Data, limits: Limits): (r: Option<seq<Entry>>) {
    if !ValidLimits(limits) || |tar| > limits.maxUnpackedBytes then None else ParseRest(tar, START, limits)
  }

  method ParseMember(rest: Data, st: State, limits: Limits) returns (r: Progress)
    requires |rest| >= 512
    ensures r == ReadMember(rest, st, limits)
  {
    hide AddMember, ReadHeader;
    if AllZero(rest[..512]) {
      if st.pending.Some? || |rest| < 1024 {
        return Done(None);
      }
      ZerosInTwo(rest);
      if !AllZero(rest[..1024]) || !AllZero(rest[1024..]) {
        return Done(None);
      }
      return Done(Some(st.entries));
    }
    var header := ParseHeader(rest[..512]);
    if header.None? || 512 + Padded(header.value.size) > |rest| {
      return Done(None);
    }
    var next := AddMember(st, header.value, rest[512..512 + header.value.size], limits);
    if next.None? {
      return Done(None);
    }
    return More(next.value, 512 + Padded(header.value.size));
  }

  /** What is left of the tar file from `offset`, in state `st`, decides the answer for the whole. */
  ghost predicate Decides(tar: Data, offset: nat, st: State, limits: Limits) {
    offset <= |tar| && ParseRest(tar, START, limits) == ParseRest(tar[offset..], st, limits)
  }

  method ParseTarEntries(tar: Data, limits: Limits) returns (r: Option<seq<Entry>>)
    ensures r == ParseTar(tar, limits)
  {
    hide ReadMember;
    if !ValidLimits(limits) || |tar| > limits.maxUnpackedBytes {
      return None;
    }
    var st := START;
    var offset := 0;
    assert tar[0..] == tar;
    while offset + 512 <= |tar|
      invariant Decides(tar, offset, st, limits)
    {
      var progress := ParseMember(tar[offset..], st, limits);
      match progress
      case Done(result) => return result;
      case More(next, n) => st, offset := next, offset + n;
    }
    return None;
  }

  lemma {:induction false} ZerosInTwo(rest: Data)
    requires |rest| >= 1024
    ensures AllZero(rest) <==> AllZero(rest[..1024]) && AllZero(rest[1024..])
  {
    assert rest == rest[..1024] + rest[1024..];
    AllZeroConcat(rest[..1024], rest[1024..]);
  }

  // ---------------------------------------------------------------------- the grammar of accepted files

  datatype Member = Member(header: Data, data: Data, padding: Data)

  ghost predicate ValidMember(m: Member) {
    |m.header| == 512 && !AllZero(m.header) &&
    ReadHeader(m.header).Some? && ReadHeader(m.header).value.size == |m.data| &&
    |m.data| + |m.padding| == Padded(|m.data|)
  }

  ghost predicate ValidMembers(ms: seq<Member>) {
    forall i :: 0 <= i < |ms| ==> ValidMember(ms[i])
  }

  function MemberBytes(m: Member): (s: Data)
    ensures |s| == |m.header| + |m.data| + |m.padding|
  {
    m.header + m.data + m.padding
  }

  function MembersBytes(ms: seq<Member>): (s: Data) {
    if ms == [] then [] else MemberBytes(ms[0]) + MembersBytes(ms[1..])
  }

  /** Taking the members in order. */
  ghost function AddMembers(st: State, ms: seq<Member>, limits: Limits): (r: Option<State>)
    requires ValidMembers(ms)
    decreases |ms|
  {
    if ms == [] then Some(st)
    else
      match AddMember(st, ReadHeader(ms[0].header).value, ms[0].data, limits)
      case None => None
      case Some(next) => AddMembers(next, ms[1..], limits)
  }

  ghost function Finish(st: Option<State>): (r: Option<seq<Entry>>) {
    if st.Some? && st.value.pending.None? then Some(st.value.entries) else None
  }

  /** Members followed by two zero blocks are read member by member. */
  lemma {:induction false} MembersAreRead(ms: seq<Member>, zeros: nat, st: State, limits: Limits)
    requires ValidMembers(ms) && zeros >= 1024
    ensures ParseRest(MembersBytes(ms) + Zeros(zeros), st, limits) == Finish(AddMembers(st, ms, limits))
    decreases |ms|
  {
    hide AddMember, ReadHeader, ReadMember;
    var rest := MembersBytes(ms) + Zeros(zeros);
    if ms == [] {
      assert rest == Zeros(zeros);
      EndIsRead(zeros, st, limits);
    } else {
      var m := ms[0];
      var tail := MembersBytes(ms[1..]) + Zeros(zeros);
      assert rest == MemberBytes(m) + tail;
      MemberIsRead(m, tail, st, limits);
      match AddMember(st, ReadHeader(m.header).value, m.data, limits)
      case None =>
      case Some(next) => MembersAreRead(ms[1..], zeros, next, limits);
    }
  }

  lemma {:induction false} EndIsRead(zeros: nat, st: State, limits: Limits)
    requires zeros >= 1024
    ensures ReadMember(Zeros(zeros), st, limits) == Done(Finish(Some(st)))
  {
    AllZeroIf(Zeros(zeros));
    AllZeroIf(Zeros(zeros)[..512]);
  }

  lemma {:induction false} MemberIsRead(m: Member, tail: Data, st: State, limits: Limits)
    requires ValidMember(m)
    ensures |MemberBytes(m) + tail| >= |MemberBytes(m)| >= 512
    ensures (MemberBytes(m) + tail)[|MemberBytes(m)|..] == tail
    ensures ReadMember(MemberBytes(m) + tail, st, limits) ==
      match AddMember(st, ReadHeader(m.header).value, m.data, limits)
      case None => Done(None)
      case Some(next) => More(next, |MemberBytes(m)|)
  {
    MemberParts(m, tail);
  }

  lemma {:induction false} MemberParts(m: Member, tail: Data)
    requires |m.header| == 512 && |m.data| + |m.padding| == Padded(|m.data|)
    ensures |MemberBytes(m) + tail| >= |MemberBytes(m)| == 512 + Padded(|m.data|)
    ensures (MemberBytes(m) + tail)[..512] == m.header
    ensures (MemberBytes(m) + tail)[512..512 + |m.data|] == m.data
    ensures (MemberBytes(m) + tail)[|MemberBytes(m)|..] == tail
  {
  }

  ghost predicate IsArchive(tar: Data, ms: seq<Member>, zeros: nat) {
    ValidMembers(ms) && zeros >= 1024 && tar == MembersBytes(ms) + Zeros(zeros)
  }

  ghost predicate Describes(ms: seq<Member>, zeros: nat, tar: Data, st: State, limits: Limits, es: seq<Entry>) {
    IsArchive(tar, ms, zeros) && Finish(AddMembers(st, ms, limits)) == Some(es)
  }

  /** What is accepted is tiled exactly by its members and the zero blocks. */
  lemma {:induction false} MembersOf(rest: Data, st: State, limits: Limits) returns (ms: seq<Member>, zeros: nat)
    requires ParseRest(rest, st, limits).Some?
    ensures Describes(ms, zeros, rest, st, limits, ParseRest(rest, st, limits).value)
    decreases |rest|
  {
    match ReadMember(rest, st, limits)
    case Done(_) =>
      OnlyZeros(rest);
      ms, zeros := [], |rest|;
    case More(next, length) =>
      hide ReadMember, AddMember, ReadHeader;
      var m := FirstMember(rest, st, limits);
      ms, zeros := MembersOf(rest[length..], next, limits);
      AddMembersMore(st, m, next, ms, limits);
      ms := [m] + ms;
  }

  lemma {:induction false} OnlyZeros(rest: Data)
    requires AllZero(rest)
    ensures rest == MembersBytes([]) + Zeros(|rest|)
  {
    forall k | 0 <= k < |rest| ensures rest[k] == 0 { AllZeroAt(rest, k); }
  }

  lemma {:induction false} FirstMember(rest: Data, st: State, limits: Limits) returns (m: Member)
    requires |rest| >= 512 && ReadMember(rest, st, limits).More?
    ensures ValidMember(m) && |MemberBytes(m)| == ReadMember(rest, st, limits).length
    ensures rest == MemberBytes(m) + rest[|MemberBytes(m)|..]
    ensures AddMember(st, ReadHeader(m.header).value, m.data, limits) == Some(ReadMember(rest, st, limits).next)
  {
    hide AddMember, ReadHeader, AllZero;
    m := MemberAtFront(rest, ReadHeader(rest[..512]).value.size);
  }

  ghost function MemberAtFront(rest: Data, size: nat): (m: Member)
    requires |rest| >= 512 + Padded(size)
    ensures m.header == rest[..512] && m.data == rest[512..512 + size]
    ensures |m.padding| == Padded(size) - size && rest == MemberBytes(m) + rest[512 + Padded(size)..]
  {
    Member(rest[..512], rest[512..512 + size], rest[512 + size..512 + Padded(size)])
  }

  lemma {:induction false} AddMembersMore(st: State, m: Member, next: State, ms: seq<Member>, limits: Limits)
    requires ValidMember(m) && ValidMembers(ms)
    requires AddMember(st, ReadHeader(m.header).value, m.data, limits) == Some(next)
    ensures ValidMembers([m] + ms) && AddMembers(st, [m] + ms, limits) == AddMembers(next, ms, limits)
  {
    assert ([m] + ms)[1..] == ms;
  }

  /**
   * A tar file is accepted exactly if it is a run of members followed by nothing but at least two blocks of zeros,
   * the members are acceptable one after another, and no path extension is left over; the entries are theirs.
   */
  lemma {:induction false} AcceptedIffTiled(tar: Data, limits: Limits, es: seq<Entry>)
    requires ValidLimits(limits) && |tar| <= limits.maxUnpackedBytes
    ensures ParseTar(tar, limits) == Some(es) <==> exists ms, zeros :: Describes(ms, zeros, tar, START, limits, es)
  {
    if ParseTar(tar, limits) == Some(es) {
      var ms, zeros := MembersOf(tar, START, limits);
      assert Describes(ms, zeros, tar, START, limits, es);
    }
    if ms, zeros :| Describes(ms, zeros, tar, START, limits, es) {
      MembersAreRead(ms, zeros, START, limits);
    }
  }

  /** What an extension carries: a run of PAX records, global ones setting no path, or a long path. */
  ghost predicate ExtensionCarries(typeByte: int, data: Data) {
    (typeByte == 120 || typeByte == 103 ==> exists rs :: Carries(typeByte, data, rs)) &&
    (typeByte == 76 ==> ValidUtf8(UpToNul(data)))
  }

  ghost predicate Carries(typeByte: int, data: Data, rs: seq<PaxRecord>) {
    IsPayload(data, rs) && (typeByte == 103 ==> LastPath(rs, None).None?)
  }

  /** An extension is taken exactly if it is within the limit and carries that. */
  lemma {:induction false} ExtensionTakenIff(st: State, header: Header, data: Data, limits: Limits)
    requires header.typeByte == 120 || header.typeByte == 103 || header.typeByte == 76
    ensures AddMember(st, header, data, limits).Some? <==>
      header.size <= limits.maxEntryBytes && ExtensionCarries(header.typeByte, data)
  {
    hide ValidUtf8, PaxPath, LastPath, ValidRecords;
    PaxAccepts(data, None);
    forall rs | IsPayload(data, rs) ensures PaxPath(data, None) == Some(LastPath(rs, None)) {
      PayloadReads(data, rs);
    }
    if header.typeByte != 76 && PaxPath(data, None).Some? {
      var rs :| IsPayload(data, rs);
      assert Carries(header.typeByte, data, rs) <==> !(header.typeByte == 103 && LastPath(rs, None).Some?);
    }
  }

  lemma {:induction false} PayloadReads(data: Data, rs: seq<PaxRecord>)
    requires IsPayload(data, rs)
    ensures PaxPath(data, None) == Some(LastPath(rs, None))
  {
    PaxReads(rs, None);
  }

  /** Every extension of an accepted file carries what it should. */
  lemma {:induction false} AcceptedExtensions(ms: seq<Member>, st: State, limits: Limits, k: nat)
    requires ValidMembers(ms) && AddMembers(st, ms, limits).Some? && k < |ms|
    ensures ExtensionCarries(ReadHeader(ms[k].header).value.typeByte, ms[k].data)
    decreases |ms|
  {
    hide ReadHeader, AddMember, ExtensionCarries;
    var header := ReadHeader(ms[0].header).value;
    if k > 0 {
      AcceptedExtensions(ms[1..], AddMember(st, header, ms[0].data, limits).value, limits, k - 1);
    } else if header.typeByte == 120 || header.typeByte == 103 || header.typeByte == 76 {
      ExtensionTakenIff(st, header, ms[0].data, limits);
    } else {
      NoExtension(header.typeByte, ms[0].data);
    }
  }

  lemma {:induction false} NoExtension(typeByte: int, data: Data)
    requires typeByte != 120 && typeByte != 103 && typeByte != 76
    ensures ExtensionCarries(typeByte, data)
  {
  }
}
