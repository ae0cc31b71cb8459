/** What can be said of the entries of every accepted tar file. */
module TarEntries {
  import opened Common
  import opened TarFields
  import opened TarPaths
  import opened TarParser

  ghost predicate GoodEntry(e: Entry, limits: Limits) {
    SafePath(e.path) && ValidUtf8(e.path) && SafeMode(e.mode) && (e.directory ==> e.data == []) &&
    |e.data| <= limits.maxEntryBytes
  }

  ghost function PathSet(es: seq<Entry>): (r: set<Data>) {
    if es == [] then {} else PathSet(es[..|es| - 1]) + {es[|es| - 1].path}
  }

  ghost function FileCount(es: seq<Entry>): (n: nat) {
    if es == [] then 0 else FileCount(es[..|es| - 1]) + (if es[|es| - 1].directory then 0 else 1)
  }

  ghost function FileBytes(es: seq<Entry>): (n: nat) {
    if es == [] then 0 else FileBytes(es[..|es| - 1]) + (if es[|es| - 1].directory then 0 else |es[|es| - 1].data|)
  }

  ghost predicate EachGood(es: seq<Entry>, limits: Limits) {
    es == [] || (EachGood(es[..|es| - 1], limits) && GoodEntry(es[|es| - 1], limits) &&
                 es[|es| - 1].path !in PathSet(es[..|es| - 1]))
  }

  /** Good entries, with distinct paths, within the limits on their number and size. */
  ghost predicate GoodEntries(es: seq<Entry>, limits: Limits) {
    EachGood(es, limits) && FileCount(es) <= limits.maxFileCount && FileBytes(es) <= limits.maxUnpackedBytes
  }

  ghost predicate GoodState(st: State, limits: Limits) {
    GoodEntries(st.entries, limits) && st.seen == PathSet(st.entries) &&
    st.bytes == FileBytes(st.entries) && st.files == FileCount(st.entries) &&
    (st.pending.Some? ==> ValidUtf8(st.pending.value))
  }

  lemma {:induction false} Appended(es: seq<Entry>, e: Entry, limits: Limits)
    ensures PathSet(es + [e]) == PathSet(es) + {e.path}
    ensures FileCount(es + [e]) == FileCount(es) + (if e.directory then 0 else 1)
    ensures FileBytes(es + [e]) == FileBytes(es) + (if e.directory then 0 else |e.data|)
    ensures EachGood(es + [e], limits) <==> EachGood(es, limits) && GoodEntry(e, limits) && e.path !in PathSet(es)
  {
    assert (es + [e])[..|es|] == es;
  }

  /** A file or directory is taken exactly if the entries stay good with it. */
  lemma {:induction false} AddEntryIff(st: State, e: Entry, limits: Limits)
    requires GoodState(st, limits) && ValidUtf8(e.path) && |e.data| <= limits.maxEntryBytes
    ensures AddEntry(st, e, limits).Some? <==> GoodEntries(st.entries + [e], limits)
    ensures AddEntry(st, e, limits).Some? ==>
      var next := AddEntry(st, e, limits).value;
      next.entries == st.entries + [e] && next.pending.None? && GoodState(next, limits)
  {
    Appended(st.entries, e, limits);
  }

  ghost predicate ValidText(header: Header) {
    ValidUtf8(header.path) && ValidUtf8(header.prefix)
  }

  lemma {:induction false} MemberPathValid(st: State, header: Header)
    requires ValidText(header) && (st.pending.Some? ==> ValidUtf8(st.pending.value))
    ensures ValidUtf8(MemberPath(st, header))
  {
    CutAtAscii(header.prefix, SLASH, header.path);
  }

  lemma {:induction false} AddMemberKeeps(st: State, header: Header, data: Data, limits: Limits)
    requires GoodState(st, limits) && ValidText(header) && header.size == |data|
    requires AddMember(st, header, data, limits).Some?
    ensures GoodState(AddMember(st, header, data, limits).value, limits)
  {
    if header.typeByte == 120 || header.typeByte == 103 {
      PaxPathValid(data, None);
    } else if header.typeByte != 76 {
      MemberPathValid(st, header);
      AddEntryIff(st, Entry(MemberPath(st, header), header.mode.value, header.typeByte == 53, data), limits);
    }
  }

  /** Bytes a list of entries takes in a tar file: a header and whole blocks of data each. */
  ghost function SpaceOf(es: seq<Entry>): (n: nat) {
    if es == [] then 0 else SpaceOf(es[..|es| - 1]) + 512 + Padded(|es[|es| - 1].data|)
  }

  lemma {:induction false} AddMemberSpace(st: State, header: Header, data: Data, limits: Limits)
    requires header.size == |data|
    ensures var next := AddMember(st, header, data, limits);
      next.Some? ==> SpaceOf(next.value.entries) <= SpaceOf(st.entries) + 512 + Padded(|data|)
  {
    var next := AddMember(st, header, data, limits);
    if next.Some? && next.value.entries != st.entries {
      assert next.value.entries[..|st.entries|] == st.entries;
    }
  }

  lemma {:induction false} ReadMemberKeeps(rest: Data, st: State, limits: Limits)
    requires |rest| >= 512 && GoodState(st, limits) && ReadMember(rest, st, limits).More?
    ensures var r := ReadMember(rest, st, limits);
      GoodState(r.next, limits) && SpaceOf(r.next.entries) <= SpaceOf(st.entries) + r.length
  {
    var m := FirstMember(rest, st, limits);
    var header := ReadHeader(m.header).value;
    AddMemberKeeps(st, header, m.data, limits);
    AddMemberSpace(st, header, m.data, limits);
  }

  lemma {:induction false} ParseRestKeeps(rest: Data, st: State, limits: Limits)
    requires GoodState(st, limits) && ParseRest(rest, st, limits).Some?
    ensures GoodEntries(ParseRest(rest, st, limits).value, limits)
    ensures SpaceOf(ParseRest(rest, st, limits).value) + 1024 <= SpaceOf(st.entries) + |rest|
    decreases |rest|
  {
    match ReadMember(rest, st, limits)
    case Done(_) =>
    case More(next, n) =>
      ReadMemberKeeps(rest, st, limits);
      ParseRestKeeps(rest[n..], next, limits);
  }

  lemma {:induction false} InPathSet(es: seq<Entry>, k: nat)
    requires k < |es|
    ensures es[k].path in PathSet(es)
  {
    if k < |es| - 1 { InPathSet(es[..|es| - 1], k); }
  }

  lemma {:induction false} GoodAt(es: seq<Entry>, limits: Limits, i: nat, j: nat)
    requires EachGood(es, limits) && i < j < |es|
    ensures es[i].path != es[j].path
  {
    hide GoodEntry, PathSet;
    var init := es[..|es| - 1];
    if j < |es| - 1 { GoodAt(init, limits, i, j); } else { InPathSet(init, i); }
  }

  lemma {:induction false} EachGoodAt(es: seq<Entry>, limits: Limits, k: nat)
    requires EachGood(es, limits) && k < |es|
    ensures GoodEntry(es[k], limits)
  {
    if k < |es| - 1 { EachGoodAt(es[..|es| - 1], limits, k); }
  }

  /**
   * Every entry of an accepted file is a safe, valid path inside `package` with a safe mode, directories have no
   * data, no two entries share a path, and the limits hold; the entries fit in the file with its two end blocks.
   */
  lemma {:induction false} AcceptedEntries(tar: Data, limits: Limits)
    requires ParseTar(tar, limits).Some?
    ensures var es := ParseTar(tar, limits).value;
      GoodEntries(es, limits) && SpaceOf(es) + 1024 <= |tar| <= limits.maxUnpackedBytes &&
      (forall k :: 0 <= k < |es| ==> GoodEntry(es[k], limits)) &&
      (forall i, j :: 0 <= i < j < |es| ==> es[i].path != es[j].path)
  {
    ParseRestKeeps(tar, START, limits);
    var es := ParseTar(tar, limits).value;
    forall k | 0 <= k < |es| ensures GoodEntry(es[k], limits) { EachGoodAt(es, limits, k); }
    forall i, j | 0 <= i < j < |es| ensures es[i].path != es[j].path { GoodAt(es, limits, i, j); }
  }

  // ---------------------------------------------------------------------- what a file says, member by member

  ghost function HeaderOf(m: Member): (h: Header)
    requires ValidMember(m)
  {
    ReadHeader(m.header).value
  }

  ghost predicate IsExtension(m: Member)
    requires ValidMember(m)
  {
    HeaderOf(m).typeByte == 120 || HeaderOf(m).typeByte == 103 || HeaderOf(m).typeByte == 76
  }

  /** The path that a member carries for the file or directory after it. */
  ghost function Carried(m: Member): (path: Option<Data>)
    requires ValidMember(m)
  {
    if HeaderOf(m).typeByte == 120 && PaxPath(m.data, None).Some? then PaxPath(m.data, None).value
    else if HeaderOf(m).typeByte == 76 then GnuPath(m.data)
    else None
  }

  /** A local PAX header carries the value of its last `path` record, a global one never a path. */
  lemma {:induction false} CarriedIs(m: Member, rs: seq<PaxRecord>)
    requires ValidMember(m) && IsPayload(m.data, rs)
    ensures HeaderOf(m).typeByte == 120 ==> Carried(m) == LastPath(rs, None)
    ensures HeaderOf(m).typeByte == 103 ==> Carried(m) == None
  {
    hide ReadHeader;
    PayloadReads(m.data, rs);
  }

  /** The path left over by the extensions at the end of some members: the last one carried since the last file. */
  ghost function LeftOver(ms: seq<Member>): (path: Option<Data>)
    requires ValidMembers(ms)
  {
    if ms == [] || !IsExtension(ms[|ms| - 1]) then None
    else if Carried(ms[|ms| - 1]).Some? then Carried(ms[|ms| - 1])
    else LeftOver(ms[..|ms| - 1])
  }

  /** The entry of a file or directory member: under the path carried for it, or else the one in its header. */
  ghost function EntryFor(m: Member, carried: Option<Data>): (e: Entry)
    requires ValidMember(m)
  {
    var h := HeaderOf(m);
    var named := if h.prefix == [] then h.path else h.prefix + [47] + h.path;
    Entry(if carried.Some? then carried.value else named, if h.mode.Some? then h.mode.value else 0, h.typeByte == 53, m.data)
  }

  ghost function EntriesOf(ms: seq<Member>): (es: seq<Entry>)
    requires ValidMembers(ms)
  {
    if ms == [] then []
    else
      var before, last := ms[..|ms| - 1], ms[|ms| - 1];
      EntriesOf(before) + (if IsExtension(last) then [] else [EntryFor(last, LeftOver(before))])
  }

  /** An extension carries what it should; anything else is a file or directory with a mode. */
  ghost predicate MemberOk(m: Member, limits: Limits)
    requires ValidMember(m)
  {
    |m.data| <= limits.maxEntryBytes &&
    if IsExtension(m) then ExtensionCarries(HeaderOf(m).typeByte, m.data)
    else HeaderOf(m).mode.Some? && HeaderOf(m).typeByte in {0, 48, 53}
  }

  ghost predicate MembersOk(ms: seq<Member>, limits: Limits)
    requires ValidMembers(ms)
  {
    forall k :: 0 <= k < |ms| ==> MemberOk(ms[k], limits)
  }

  lemma {:induction false} AddMembersLast(st: State, ms: seq<Member>, m: Member, limits: Limits)
    requires ValidMembers(ms) && ValidMember(m)
    ensures ValidMembers(ms + [m])
    ensures AddMembers(st, ms + [m], limits) ==
      match AddMembers(st, ms, limits)
      case None => None
      case Some(next) => AddMember(next, HeaderOf(m), m.data, limits)
    decreases |ms|
  {
    hide AddMember, ReadHeader, ValidMember;
    if ms == [] {
      assert ms + [m] == [m] && [m][1..] == [];
    } else {
      assert (ms + [m])[1..] == ms[1..] + [m];
      match AddMember(st, HeaderOf(ms[0]), ms[0].data, limits)
      case None =>
      case Some(next) => AddMembersLast(next, ms[1..], m, limits);
    }
  }

  lemma {:induction false} TextOf(m: Member)
    requires ValidMember(m)
    ensures ValidText(HeaderOf(m))
  {
    hide ValidUtf8;
  }

  /** One member more: when it is taken, and the state it leads to. */
  lemma {:induction false} OneMember(st: State, m: Member, limits: Limits)
    requires ValidMember(m) && GoodState(st, limits)
    ensures var next := AddMember(st, HeaderOf(m), m.data, limits);
      var es := st.entries + (if IsExtension(m) then [] else [EntryFor(m, st.pending)]);
      var pending := if !IsExtension(m) then None else if Carried(m).Some? then Carried(m) else st.pending;
      (next.Some? <==> MemberOk(m, limits) && GoodEntries(es, limits)) &&
      (next.Some? ==> GoodState(next.value, limits) && next.value.entries == es && next.value.pending == pending)
  {
    hide ReadHeader, ValidUtf8, PaxPath, GnuPath, ExtensionCarries, GoodEntries, PathSet, FileCount, FileBytes;
    var h := HeaderOf(m);
    TextOf(m);
    assert st.entries + [] == st.entries;
    if AddMember(st, h, m.data, limits).Some? { AddMemberKeeps(st, h, m.data, limits); }
    if IsExtension(m) {
      ExtensionTakenIff(st, h, m.data, limits);
    } else {
      MemberPathValid(st, h);
      if h.mode.Some? && |m.data| <= limits.maxEntryBytes { AddEntryIff(st, EntryFor(m, st.pending), limits); }
    }
  }

  lemma {:induction false} GoodBefore(es: seq<Entry>, more: seq<Entry>, limits: Limits)
    requires GoodEntries(es + more, limits) && |more| <= 1
    ensures GoodEntries(es, limits)
  {
    if more == [] {
      assert es + more == es;
    } else {
      Appended(es, more[0], limits);
    }
  }

  /** Which members are taken, and the state they lead to. */
  ghost predicate Taken(ms: seq<Member>, limits: Limits)
    requires ValidMembers(ms)
  {
    var r := AddMembers(START, ms, limits);
    (r.Some? <==> MembersOk(ms, limits) && GoodEntries(EntriesOf(ms), limits)) &&
    (r.Some? ==> GoodState(r.value, limits) && r.value.entries == EntriesOf(ms) && r.value.pending == LeftOver(ms))
  }

  lemma {:induction false} TakenIff(ms: seq<Member>, limits: Limits)
    requires ValidMembers(ms)
    ensures Taken(ms, limits)
  {
    hide Taken, ValidMember;
    if ms == [] {
      NoneTaken(limits);
    } else {
      var before, last := ms[..|ms| - 1], ms[|ms| - 1];
      assert ms == before + [last];
      TakenIff(before, limits);
      TakenLast(ms, before, last, limits);
    }
  }

  lemma {:induction false} NoneTaken(limits: Limits)
    ensures Taken([], limits)
  {
  }

  lemma {:induction false} LastOk(before: seq<Member>, last: Member, limits: Limits)
    requires ValidMembers(before) && ValidMember(last)
    ensures ValidMembers(before + [last])
    ensures MembersOk(before + [last], limits) <==> MembersOk(before, limits) && MemberOk(last, limits)
  {
    hide ValidMember, MemberOk;
    var ms := before + [last];
    assert ms[|before|] == last && forall k :: 0 <= k < |before| ==> ms[k] == before[k];
    if MembersOk(ms, limits) {
      forall k | 0 <= k < |before| ensures MemberOk(before[k], limits) { assert MemberOk(ms[k], limits); }
      assert MemberOk(ms[|before|], limits);
    }
  }

  lemma {:induction false} TakenLast(ms: seq<Member>, before: seq<Member>, last: Member, limits: Limits)
    requires ValidMembers(before) && ValidMember(last) && ms == before + [last] && Taken(before, limits)
    ensures ValidMembers(ms) && Taken(ms, limits)
  {
    hide ReadHeader, ValidMember, IsExtension, Carried, EntryFor, MemberOk, AddMember, AddMembers, GoodEntries, GoodState;
    assert ms[..|ms| - 1] == before;
    AddMembersLast(START, before, last, limits);
    LastOk(before, last, limits);
    if AddMembers(START, before, limits).Some? {
      OneMember(AddMembers(START, before, limits).value, last, limits);
    } else if GoodEntries(EntriesOf(ms), limits) {
      GoodBefore(EntriesOf(before), if IsExtension(last) then [] else [EntryFor(last, LeftOver(before))], limits);
    }
  }

  /** The file is made of these members, all of them acceptable, and these are the entries they stand for. */
  ghost predicate Says(tar: Data, ms: seq<Member>, zeros: nat, limits: Limits, es: seq<Entry>) {
    IsArchive(tar, ms, zeros) && MembersOk(ms, limits) && LeftOver(ms).None? &&
    es == EntriesOf(ms) && GoodEntries(es, limits)
  }

  /**
   * A file is accepted exactly if it is within the limit and made of acceptable members that leave no path over, whose
   * entries are good; and each entry then stands under the path carried for it, or else the path of its header.
   */
  lemma {:induction false} AcceptedIff(tar: Data, limits: Limits, es: seq<Entry>)
    ensures ParseTar(tar, limits) == Some(es) <==>
      ValidLimits(limits) && |tar| <= limits.maxUnpackedBytes && exists ms, zeros :: Says(tar, ms, zeros, limits, es)
  {
    hide ParseRest, AddMembers, MembersOk, GoodEntries, EntriesOf, LeftOver, ValidMembers, GoodState;
    if ValidLimits(limits) && |tar| <= limits.maxUnpackedBytes {
      AcceptedIffTiled(tar, limits, es);
      if ms, zeros :| Describes(ms, zeros, tar, START, limits, es) {
        TakenIff(ms, limits);
        assert Says(tar, ms, zeros, limits, es);
      }
      if ms, zeros :| Says(tar, ms, zeros, limits, es) {
        TakenIff(ms, limits);
        assert Describes(ms, zeros, tar, START, limits, es);
      }
    }
  }
}
