/**
 * Searching a file for a byte string through one reused buffer. The file does not change while it is read, and a read
 * may return fewer bytes than asked for, as `sizes` decides. An empty needle makes the buffer too short for a read,
 * which then throws; the original answers false.
 */
module ByteSearch {

  const CHUNK_BYTES := 65536

  predicate MatchesAt(s: seq<int>, needle: seq<int>, k: nat) {
    k + |needle| <= |s| && s[k..k + |needle|] == needle
  }

  ghost predicate Occurs(s: seq<int>, needle: seq<int>) {
    exists k: nat :: MatchesAt(s, needle, k)
  }

  /** The bytes a read returns, at most `limit`. */
  function ReadLength(wanted: nat, limit: nat): (n: nat) {
    if wanted < limit then wanted else limit
  }

  method IndexOf(s: seq<int>, needle: seq<int>) returns (found: bool)
    ensures found <==> Occurs(s, needle)
  {
    var k := 0;
    while k + |needle| <= |s|
      invariant forall j: nat :: j < k ==> !MatchesAt(s, needle, j)
    {
      if MatchesAt(s, needle, k) {
        return true;
      }
      k := k + 1;
    }
    return false;
  }

  /** Reads part of the file into the buffer. */
  method ReadSync(file: seq<int>, buffer: array<int>, offset: nat, position: nat, length: nat)
    requires offset + length <= buffer.Length && position + length <= |file|
    modifies buffer
    ensures buffer[..offset] == old(buffer[..offset])
    ensures buffer[offset..offset + length] == file[position..position + length]
  {
    for i := 0 to length
      invariant buffer[..offset] == old(buffer[..offset])
      invariant buffer[offset..offset + i] == file[position..position + i]
    {
      buffer[offset + i] := file[position + i];
    }
  }

  /** Moves the bytes from `start` to the front; the two places may overlap. */
  method MoveToFront(buffer: array<int>, start: nat, length: nat)
    requires start + length <= buffer.Length
    modifies buffer
    ensures buffer[..length] == old(buffer[start..start + length])
  {
    for i := 0 to length
      invariant buffer[..i] == old(buffer[start..start + i])
      invariant buffer[start + i..] == old(buffer[start + i..])
    {
      buffer[i] := buffer[start + i];
    }
  }

  /** Nothing is found in what has been read, and the buffer starts with the last bytes of it. */
  ghost predicate Searched(file: seq<int>, needle: seq<int>, position: nat, kept: seq<int>) {
    position <= |file| && !Occurs(file[..position], needle) &&
    |kept| == (if position < |needle| - 1 then position else |needle| - 1) &&
    kept == file[position - |kept|..position]
  }

  lemma {:induction false} EarlierMatch(file: seq<int>, needle: seq<int>, position: nat, length: nat, k: nat)
    requires position + length <= |file| && MatchesAt(file[..position + length], needle, k)
    ensures k + |needle| <= position ==> Occurs(file[..position], needle)
  {
    if k + |needle| <= position {
      assert file[..position][k..k + |needle|] == file[..position + length][k..k + |needle|];
      assert MatchesAt(file[..position], needle, k);
    }
  }

  lemma {:induction false} SameSlice(file: seq<int>, start: nat, end: nat, k: nat, n: nat)
    requires start <= k && k + n <= end <= |file|
    ensures file[start..end][k - start..k - start + n] == file[..end][k..k + n]
  {
  }

  /** A match in the longer stretch either was there before or lies in the buffer. */
  lemma {:induction false} OccursInWindow(file: seq<int>, needle: seq<int>, position: nat, kept: seq<int>, length: nat)
    requires needle != [] && Searched(file, needle, position, kept) && position + length <= |file|
    ensures Occurs(file[..position + length], needle) <==> Occurs(kept + file[position..position + length], needle)
  {
    var start := position - |kept|;
    var window := kept + file[position..position + length];
    var longer := file[..position + length];
    assert window == file[start..position + length];
    if k: nat :| MatchesAt(longer, needle, k) {
      EarlierMatch(file, needle, position, length, k);
      assert k + |needle| > position;
      SameSlice(file, start, position + length, k, |needle|);
      assert MatchesAt(window, needle, k - start);
    }
    if k: nat :| MatchesAt(window, needle, k) {
      SameSlice(file, start, position + length, start + k, |needle|);
      assert MatchesAt(longer, needle, start + k);
    }
  }

  lemma {:induction false} OccursInLonger(file: seq<int>, needle: seq<int>, n: nat)
    requires n <= |file| && Occurs(file[..n], needle)
    ensures Occurs(file, needle)
  {
    var k: nat :| MatchesAt(file[..n], needle, k);
    assert file[k..k + |needle|] == file[..n][k..k + |needle|];
    assert MatchesAt(file, needle, k);
  }

  lemma {:induction false} KeptNext(file: seq<int>, needle: seq<int>, position: nat, kept: seq<int>, length: nat, window: seq<int>, next: seq<int>)
    requires needle != [] && Searched(file, needle, position, kept) && position + length <= |file|
    requires window == kept + file[position..position + length] && !Occurs(window, needle)
    requires |next| == (if |window| < |needle| - 1 then |window| else |needle| - 1) && next == window[|window| - |next|..]
    ensures Searched(file, needle, position + length, next)
  {
    OccursInWindow(file, needle, position, kept, length);
    assert window == file[position - |kept|..position + length];
    assert next == file[position + length - |next|..position + length];
  }

  /** One round: reads behind the kept bytes, searches, and keeps what a match could still start in. */
  method SearchChunk(file: seq<int>, needle: seq<int>, buffer: array<int>, overlap: nat, position: nat, read: nat)
    returns (found: bool, next: nat)
    requires needle != [] && overlap <= buffer.Length && Searched(file, needle, position, buffer[..overlap])
    requires overlap + read <= buffer.Length && position + read <= |file|
    modifies buffer
    ensures found ==> Occurs(file, needle)
    ensures !found ==> next <= buffer.Length && Searched(file, needle, position + read, buffer[..next])
  {
    hide Occurs, MatchesAt, Searched;
    ghost var kept := buffer[..overlap];
    ReadSync(file, buffer, overlap, position, read);
    var total := overlap + read;
    ghost var window := buffer[..total];
    assert window == kept + file[position..position + read];
    OccursInWindow(file, needle, position, kept, read);
    next := if |needle| - 1 < total then |needle| - 1 else total;
    found := IndexOf(buffer[..total], needle);
    if found {
      OccursInLonger(file, needle, position + read);
    } else {
      MoveToFront(buffer, total - next, next);
      assert buffer[..next] == window[total - next..];
      KeptNext(file, needle, position, kept, read, window, buffer[..next]);
    }
  }

  /**
   * With reads that never come back empty, the answer is whether a non-empty needle occurs anywhere in the file,
   * however long the needle is and wherever the reads stop; with any reads, a match that is reported is there.
   */
  method FileContainsBytes(file: seq<int>, needle: seq<int>, sizes: nat -> nat) returns (found: bool)
    ensures found ==> needle != [] && Occurs(file, needle)
    ensures (forall i :: sizes(i) > 0) ==> (found <==> needle != [] && Occurs(file, needle))
  {
    if |file| < |needle| {
      return false;
    }
    var buffer := new int[CHUNK_BYTES + |needle| - 1];
    var overlap: nat, position: nat, round: nat := 0, 0, 0;
    while position < |file|
      invariant position <= |file| && (needle == [] ==> overlap == 0)
      invariant needle != [] ==> overlap <= buffer.Length && Searched(file, needle, position, buffer[..overlap])
    {
      if overlap + CHUNK_BYTES > buffer.Length {
        return false; // the read throws
      }
      var limit := if |file| - position < CHUNK_BYTES then |file| - position else CHUNK_BYTES;
      var read := ReadLength(sizes(round), limit);
      if read == 0 {
        return false;
      }
      var here, next := SearchChunk(file, needle, buffer, overlap, position, read);
      if here {
        return true;
      }
      overlap, position, round := next, position + read, round + 1;
    }
    assert file[..position] == file;
    return false;
  }
}
