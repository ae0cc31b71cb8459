/** The paths of tar members: which are safe, and the two kinds of extension records that set one. */
module TarPaths {
  import opened Common
  import opened Splitting
  import opened TarFields

  // ---------------------------------------------------------------------- paths

  const SLASH := 47
  const PACKAGE: Data := [112, 97, 99, 107, 97, 103, 101]

  predicate SafeSegment(s: Data) {
    s != [] && s != [46] && s != [46, 46]
  }

  /** Inside `package`, with no backslash, NUL, empty, `.` or `..` segment; one slash may end the path. */
  predicate SafePath(path: Data) {
    var normalized := if path != [] && path[|path| - 1] == SLASH then path[..|path| - 1] else path;
    (normalized == PACKAGE || PACKAGE + [SLASH] <= normalized) &&
    92 !in normalized && 0 !in normalized &&
    forall s | s in Split(normalized, SLASH) :: SafeSegment(s)
  }

  predicate SafeMode(mode: nat) {
    mode <= 0x1FF && mode / 2 % 2 == 0
  }

  // ---------------------------------------------------------------------- path extensions

  predicate IsDecimal(s: Data) {
    s != [] && s[0] != 48 && forall i :: 0 <= i < |s| ==> 48 <= s[i] <= 57
  }

  function DecimalValue(s: Data): (v: nat)
    requires forall i :: 0 <= i < |s| ==> 48 <= s[i] <= 57
  {
    if s == [] then 0 else 10 * DecimalValue(s[..|s| - 1]) + (s[|s| - 1] - 48)
  }

  /** A PAX record: its length in decimal, a space, a key, `=`, a value and a newline. */
  datatype PaxRecord = PaxRecord(lengthText: Data, key: Data, value: Data)

  function RecordBytes(r: PaxRecord): (s: Data) {
    r.lengthText + [32] + (r.key + [61] + r.value + [10])
  }

  predicate ValidRecord(r: PaxRecord) {
    32 !in r.lengthText && IsDecimal(Ascii(r.lengthText)) &&
    DecimalValue(Ascii(r.lengthText)) == |RecordBytes(r)| &&
    r.key != [] && 61 !in r.key && ValidUtf8(r.value)
  }

  /** The record at the front of a PAX payload. */
  function NextRecord(data: Data): (r: Option<PaxRecord>) {
    var space := IndexOf(data, 32);
    if space == -1 then None
    else if !IsDecimal(Ascii(data[..space])) then None
    else
      var length := DecimalValue(Ascii(data[..space]));
      if length > |data| || length <= space + 1 then None
      else
        var record := data[space + 1..length];
        var equals := IndexOf(record, 61);
        if record[|record| - 1] != 10 || equals <= 0 then None
        else if !ValidUtf8(record[equals + 1..|record| - 1]) then None
        else Some(PaxRecord(data[..space], record[..equals], record[equals + 1..|record| - 1]))
  }

  const PATH_KEY: Data := [112, 97, 116, 104]

  function AfterRecord(path: Option<Data>, r: PaxRecord): (p: Option<Data>)
    requires ValidUtf8(r.value)
  {
    if Ascii(r.key) == PATH_KEY then Decode(r.value) else path
  }

  /** The `path` attribute of a PAX payload, if it sets one; `path` is what earlier records set. */
  function PaxPath(data: Data, path: Option<Data>): (r: Option<Option<Data>>)
    decreases |data|
  {
    if data == [] then Some(path)
    else
      match NextRecord(data)
      case None => None
      case Some(record) =>
        NextRecordIsExact(data, record);
        PaxPath(data[|RecordBytes(record)|..], AfterRecord(path, record))
  }

  ghost predicate IsRecordAt(data: Data, r: PaxRecord) {
    ValidRecord(r) && RecordBytes(r) <= data
  }

  lemma {:induction false} KeyAndValue(record: Data, equals: nat)
    requires equals < |record| - 1 && record[equals] == 61 && record[|record| - 1] == 10
    ensures record == record[..equals] + [61] + record[equals + 1..|record| - 1] + [10]
  {
  }

  lemma {:induction false} LengthAndRecord(data: Data, space: nat, length: nat)
    requires space < length <= |data| && data[space] == 32
    ensures data[..space] + [32] + data[space + 1..length] <= data
  {
  }

  /** Reading a record is the inverse of writing one. */
  lemma {:induction false} NextRecordIsExact(data: Data, r: PaxRecord)
    ensures NextRecord(data) == Some(r) <==> IsRecordAt(data, r)
  {
    if NextRecord(data) == Some(r) {
      RecordIsThere(data, r);
    }
    if IsRecordAt(data, r) {
      RecordIsFound(data, r);
    }
  }

  lemma {:induction false} RecordIsThere(data: Data, r: PaxRecord)
    requires NextRecord(data) == Some(r)
    ensures IsRecordAt(data, r)
  {
    var space := IndexOf(data, 32);
    var length := DecimalValue(Ascii(data[..space]));
    var record := data[space + 1..length];
    KeyAndValue(record, IndexOf(record, 61));
    LengthAndRecord(data, space, length);
  }

  lemma {:induction false} RecordIsFound(data: Data, r: PaxRecord)
    requires IsRecordAt(data, r)
    ensures NextRecord(data) == Some(r)
  {
    var space := |r.lengthText|;
    var rest := r.key + [61] + r.value + [10];
    var bytes := RecordBytes(r);
    assert data[..|bytes|] == bytes;
    assert data[..space] == r.lengthText;
    FirstAt(data, 32, space);
    assert data[space + 1..|bytes|] == rest;
    assert rest[..|r.key|] == r.key;
    FirstAt(rest, 61, |r.key|);
    assert rest[|r.key| + 1..|rest| - 1] == r.value;
  }

  ghost function RecordsBytes(rs: seq<PaxRecord>): (s: Data) {
    if rs == [] then [] else RecordBytes(rs[0]) + RecordsBytes(rs[1..])
  }

  ghost predicate ValidRecords(rs: seq<PaxRecord>) {
    forall i :: 0 <= i < |rs| ==> ValidRecord(rs[i])
  }

  /** The decoded value of the last record whose key is `path`. */
  ghost function LastPath(rs: seq<PaxRecord>, path: Option<Data>): (p: Option<Data>)
    requires ValidRecords(rs)
  {
    if rs == [] then path else LastPath(rs[1..], AfterRecord(path, rs[0]))
  }

  ghost predicate IsPayload(data: Data, rs: seq<PaxRecord>) {
    ValidRecords(rs) && data == RecordsBytes(rs)
  }

  /** A payload is accepted exactly if it is a run of well-formed records, each as long as it says. */
  lemma {:induction false} PaxAccepts(data: Data, path: Option<Data>)
    ensures PaxPath(data, path).Some? <==> exists rs :: IsPayload(data, rs)
    decreases |data|
  {
    if PaxPath(data, path).Some? {
      var rs := RecordsOf(data, path);
    }
    if rs :| IsPayload(data, rs) {
      PaxReads(rs, path);
    }
  }

  lemma {:induction false} PayloadCons(data: Data, r: PaxRecord, rest: seq<PaxRecord>)
    requires IsRecordAt(data, r) && IsPayload(data[|RecordBytes(r)|..], rest)
    ensures IsPayload(data, [r] + rest)
  {
    assert ([r] + rest)[1..] == rest;
    var bytes := RecordBytes(r);
    assert data == bytes + data[|bytes|..];
  }

  ghost function RecordsOf(data: Data, path: Option<Data>): (rs: seq<PaxRecord>)
    requires PaxPath(data, path).Some?
    ensures IsPayload(data, rs)
    decreases |data|
  {
    if data == [] then []
    else
      var record := NextRecord(data).value;
      NextRecordIsExact(data, record);
      var rest := RecordsOf(data[|RecordBytes(record)|..], AfterRecord(path, record));
      PayloadCons(data, record, rest);
      [record] + rest
  }

  /** And then the path it sets is the value of its last `path` record. */
  lemma {:induction false} PaxReads(rs: seq<PaxRecord>, path: Option<Data>)
    requires ValidRecords(rs)
    ensures PaxPath(RecordsBytes(rs), path) == Some(LastPath(rs, path))
    decreases |rs|
  {
    if rs != [] {
      var data := RecordsBytes(rs);
      assert IsRecordAt(data, rs[0]);
      NextRecordIsExact(data, rs[0]);
      assert data[|RecordBytes(rs[0])|..] == RecordsBytes(rs[1..]);
      PaxReads(rs[1..], AfterRecord(path, rs[0]));
    }
  }

  lemma {:induction false} PaxPathValid(data: Data, path: Option<Data>)
    requires path.Some? ==> ValidUtf8(path.value)
    ensures var r := PaxPath(data, path); r.Some? && r.value.Some? ==> ValidUtf8(r.value.value)
    decreases |data|
  {
    if data != [] && NextRecord(data).Some? {
      var record := NextRecord(data).value;
      NextRecordIsExact(data, record);
      PaxPathValid(data[|RecordBytes(record)|..], AfterRecord(path, record));
    }
  }

  method ParsePaxAttributes(data: Data) returns (r: Option<Option<Data>>)
    ensures r == PaxPath(data, None)
  {
    hide NextRecord, ValidUtf8;
    var path: Option<Data> := None;
    var offset := 0;
    while offset < |data|
      invariant 0 <= offset <= |data|
      invariant PaxPath(data, None) == PaxPath(data[offset..], path)
    {
      match NextRecord(data[offset..])
      case None => return None;
      case Some(record) =>
        NextRecordIsExact(data[offset..], record);
        var n := |RecordBytes(record)|;
        assert data[offset..][n..] == data[offset + n..];
        path := AfterRecord(path, record);
        offset := offset + n;
    }
    return Some(path);
  }

  /** The bytes before the first NUL, or all of them. */
  lemma {:induction false} UpToNulIs(s: Data)
    ensures UpToNul(s) <= s && 0 !in UpToNul(s) && (|UpToNul(s)| < |s| ==> s[|UpToNul(s)|] == 0)
  {
    if s != [] && s[0] != 0 {
      UpToNulIs(s[1..]);
      assert s == [s[0]] + s[1..];
    }
  }

  const MARK: Data := [0xEF, 0xBB, 0xBF]

  /** `path` is `raw` without a byte-order mark in front and without one newline at the end. */
  ghost predicate IsGnuText(raw: Data, path: Data) {
    var text := (if HasBom(raw) then MARK else []) + path;
    raw == text + [10] || (raw == text && (path == [] || path[|path| - 1] != 10))
  }

  lemma {:induction false} WithoutMark(raw: Data)
    requires ValidUtf8(raw)
    ensures raw == (if HasBom(raw) then MARK else []) + Decode(raw).value
  {
    hide ValidUtf8;
  }

  lemma {:induction false} WithoutNewline(text: Data)
    requires ValidUtf8(text) && text != [] && text[|text| - 1] == 10
    ensures ValidUtf8(text[..|text| - 1]) && text == text[..|text| - 1] + [10]
  {
    hide ValidUtf8;
    assert text == text[..|text| - 1] + [10] + [];
    CutAtAscii(text[..|text| - 1], 10, []);
  }

  lemma {:induction false} IsGnuPath(raw: Data, text: Data)
    requires Decode(raw) == Some(text)
    ensures if text != [] && text[|text| - 1] == 10
      then ValidUtf8(text[..|text| - 1]) && IsGnuText(raw, text[..|text| - 1])
      else ValidUtf8(text) && IsGnuText(raw, text)
  {
    hide ValidUtf8, Decode, HasBom;
    WithoutMark(raw);
    var mark := if HasBom(raw) then MARK else [];
    if text != [] && text[|text| - 1] == 10 {
      WithoutNewline(text);
      assert mark + (text[..|text| - 1] + [10]) == mark + text[..|text| - 1] + [10];
    }
  }

  /** A long path is accepted exactly if the bytes before the first NUL are valid text. */
  function GnuPath(data: Data): (r: Option<Data>)
    ensures r.Some? <==> ValidUtf8(UpToNul(data))
    ensures r.Some? ==> ValidUtf8(r.value) && IsGnuText(UpToNul(data), r.value)
  {
    match Decode(UpToNul(data))
    case None => None
    case Some(text) =>
      IsGnuPath(UpToNul(data), text);
      if text != [] && text[|text| - 1] == 10 then Some(text[..|text| - 1]) else Some(text)
  }
}
