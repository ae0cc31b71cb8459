/** Finding an element in a sequence, and splitting a sequence at a separator. */
module Splitting {

  /** The first place of `x` in `s`, or -1. */
  function IndexOf<T(==)>(s: seq<T>, x: T): (k: int)
    ensures k == -1 ==> x !in s
    ensures k != -1 ==> 0 <= k < |s| && s[k] == x && x !in s[..k]
  {
    if s == [] then -1
    else if s[0] == x then 0
    else
      var k := IndexOf(s[1..], x);
      if k == -1 then -1
      else
        assert s[..k + 1] == [s[0]] + s[1..][..k];
        k + 1
  }

  lemma {:induction false} FirstAt<T>(s: seq<T>, x: T, k: nat)
    requires k < |s| && s[k] == x && x !in s[..k]
    ensures IndexOf(s, x) == k
  {
  }

  /** The parts of `s` between the separators; there is always at least one. */
  function Split<T(==)>(s: seq<T>, separator: T): (parts: seq<seq<T>>)
    ensures |parts| > 0
  {
    if s == [] then [[]]
    else
      var rest := Split(s[1..], separator);
      if s[0] == separator then [[]] + rest else [[s[0]] + rest[0]] + rest[1..]
  }

  lemma {:induction false} PartsAreClean<T>(s: seq<T>, separator: T, k: nat)
    requires k < |Split(s, separator)|
    ensures separator !in Split(s, separator)[k]
  {
    if s != [] {
      var rest := Split(s[1..], separator);
      if s[0] == separator {
        if k > 0 { PartsAreClean(s[1..], separator, k - 1); }
      } else {
        PartsAreClean(s[1..], separator, k);
      }
    }
  }

  lemma {:induction false} OnePart<T>(s: seq<T>, separator: T)
    requires separator !in s
    ensures Split(s, separator) == [s]
  {
    if s != [] {
      OnePart(s[1..], separator);
      assert s == [s[0]] + s[1..];
    }
  }

  /** Cutting at a separator cuts the parts. */
  lemma {:induction false} SplitCut<T>(a: seq<T>, separator: T, b: seq<T>)
    ensures Split(a + [separator] + b, separator) == Split(a, separator) + Split(b, separator)
  {
    var s := a + [separator] + b;
    if a == [] {
      assert s[1..] == b;
    } else {
      assert s[1..] == a[1..] + [separator] + b;
      SplitCut(a[1..], separator, b);
    }
  }

  /** The last part of one sequence runs on into the first part of the other. */
  function Join<T>(a: seq<seq<T>>, b: seq<seq<T>>): (r: seq<seq<T>>)
    requires a != [] && b != []
    ensures r != []
  {
    a[..|a| - 1] + [a[|a| - 1] + b[0]] + b[1..]
  }

  lemma {:induction false} SplitJoin<T>(s: seq<T>, separator: T, t: seq<T>)
    ensures Split(s + t, separator) == Join(Split(s, separator), Split(t, separator))
  {
    if s == [] {
      assert s + t == t && [] + Split(t, separator)[0] == Split(t, separator)[0];
    } else {
      assert (s + t)[1..] == s[1..] + t;
      SplitJoin(s[1..], separator, t);
      JoinInFront(s[0], Split(s[1..], separator), Split(t, separator));
    }
  }

  lemma {:induction false} JoinInFront<T>(c: T, a: seq<seq<T>>, b: seq<seq<T>>)
    requires a != [] && b != []
    ensures Join([[]] + a, b) == [[]] + Join(a, b)
    ensures Join([[c] + a[0]] + a[1..], b) == [[c] + Join(a, b)[0]] + Join(a, b)[1..]
  {
    var first := [c] + a[0];
    if |a| == 1 {
      assert first + b[0] == [c] + (a[0] + b[0]);
    } else {
      var x := [first] + a[1..];
      assert x[..|x| - 1] == [first] + a[1..|a| - 1];
      assert Join(a, b)[1..] == a[1..|a| - 1] + [a[|a| - 1] + b[0]] + b[1..];
    }
  }
}
