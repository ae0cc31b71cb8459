/**
 * The verdict on a recursive deletion, on POSIX paths compared with their case. Paths are text; what the verdict means
 * is said in lists of segments. What the file system answers during one call is given: whether the target exists, its
 * real path, whether it still exists if that fails, and the owners of paths; `None` is a call that throws.
 */
module SafeCleanup {
  import opened Common
  import opened Splitting

  // ---------------------------------------------------------------------- paths

  predicate IsSegment(s: string) {
    s != "" && s != "." && s != ".." && '/' !in s
  }

  ghost predicate Segments(segments: seq<string>) {
    forall i :: 0 <= i < |segments| ==> IsSegment(segments[i])
  }

  /** Drops empty and `.` parts; `..` takes back the part before it. */
  function Walk(parts: seq<string>): (r: seq<string>)
    requires forall i :: 0 <= i < |parts| ==> '/' !in parts[i]
    ensures Segments(r)
  {
    if parts == [] then []
    else
      var before, last := Walk(parts[..|parts| - 1]), parts[|parts| - 1];
      if last == "" || last == "." then before
      else if last == ".." then (if before == [] then [] else before[..|before| - 1])
      else before + [last]
  }

  function SegmentsOf(s: string): (r: seq<string>)
    ensures Segments(r)
  {
    CleanParts(s);
    Walk(Split(s, '/'))
  }

  lemma {:induction false} CleanParts(s: string)
    ensures forall i :: 0 <= i < |Split(s, '/')| ==> '/' !in Split(s, '/')[i]
  {
    forall i | 0 <= i < |Split(s, '/')| ensures '/' !in Split(s, '/')[i] { PartsAreClean(s, '/', i); }
  }

  lemma {:induction false} WalkOn(parts: seq<string>, part: string)
    requires (forall i :: 0 <= i < |parts| ==> '/' !in parts[i]) && '/' !in part
    ensures Walk(parts + [part]) ==
      if part == "" || part == "." then Walk(parts)
      else if part != ".." then Walk(parts) + [part]
      else if Walk(parts) == [] then [] else Walk(parts)[..|Walk(parts)| - 1]
  {
    assert (parts + [part])[..|parts|] == parts;
  }

  /** One more part at the end of a path. */
  lemma {:induction false} PartAfter(s: string, part: string)
    requires '/' !in part
    ensures part == "" || part == "." ==> SegmentsOf(s + "/" + part) == SegmentsOf(s)
    ensures IsSegment(part) ==> SegmentsOf(s + "/" + part) == SegmentsOf(s) + [part]
    ensures part == ".." && SegmentsOf(s) == [] ==> SegmentsOf(s + "/" + part) == []
    ensures part == ".." && SegmentsOf(s) != [] ==>
      SegmentsOf(s + "/" + part) == SegmentsOf(s)[..|SegmentsOf(s)| - 1]
  {
    hide Split, Walk;
    SplitCut(s, '/', part);
    OnePart(part, '/');
    CleanParts(s);
    WalkOn(Split(s, '/'), part);
  }

  /** Going up from a segment undoes going down to it, and at the root there is nothing above. */
  lemma {:induction false} UpUndoesDown(s: string, part: string)
    requires IsSegment(part)
    ensures SegmentsOf(s + "/" + part + "/..") == SegmentsOf(s)
    ensures SegmentsOf("") == [] && SegmentsOf("/..") == []
  {
    hide SegmentsOf, Split;
    PartAfter(s, part);
    PartAfter(s + "/" + part, "..");
    assert s + "/" + part + "/" + ".." == s + "/" + part + "/..";
    EmptyPath();
    PartAfter("", "..");
    assert "" + "/" + ".." == "/..";
  }

  lemma {:induction false} EmptyPath()
    ensures SegmentsOf("") == []
  {
    OnePart("", '/');
    assert [""][..0] == [];
  }

  function Flat(segments: seq<string>): (s: string) {
    if segments == [] then "" else "/" + segments[0] + Flat(segments[1..])
  }

  /** The absolute path of some segments. */
  function Text(segments: seq<string>): (s: string) {
    if segments == [] then "/" else Flat(segments)
  }

  predicate EndsWithSlash(s: string) {
    s != "" && s[|s| - 1] == '/'
  }

  /** Normalizes an absolute path; a slash at the end stays. */
  function Normalize(s: string): (r: string) {
    var segments := SegmentsOf(s);
    if segments == [] then "/" else Flat(segments) + (if EndsWithSlash(s) then "/" else "")
  }

  /** An absolute path in normal form without a slash at the end. */
  predicate IsPlain(s: string) {
    s == Text(SegmentsOf(s))
  }

  function WithSeparator(s: string): (r: string) {
    if EndsWithSlash(s) then s else s + "/"
  }

  predicate Equal(a: string, b: string) {
    Normalize(a) == Normalize(b)
  }

  predicate IsAncestorOrEqual(ancestor: string, descendant: string) {
    Normalize(ancestor) == Normalize(descendant) || WithSeparator(Normalize(ancestor)) <= Normalize(descendant)
  }

  predicate StrictlyInside(child: string, root: string) {
    Normalize(child) != Normalize(root) && WithSeparator(Normalize(root)) <= Normalize(child)
  }

  // ---------------------------------------------------------------------- text prefixes are segment prefixes

  lemma {:induction false} SameHead(a: string, x: string, d: string, y: string)
    requires '/' !in a && '/' !in d && x != "" && x[0] == '/' && (y == "" || y[0] == '/')
    ensures a + x <= d + y <==> a == d && x <= y
  {
    if a == "" {
      assert a + x == x;
      assert d == "" ==> d + y == y;
      assert d != "" ==> (d + y)[0] == d[0] && d[0] in d;
    } else if d == "" {
      assert d + y == y && (a + x)[0] == a[0] && a[0] in a;
    } else {
      SameHead(a[1..], x, d[1..], y);
      assert a + x == [a[0]] + (a[1..] + x) && d + y == [d[0]] + (d[1..] + y);
      PrefixBehind(a[0], a[1..] + x, d[1..] + y);
      assert (a + x)[0] == a[0] && (d + y)[0] == d[0];
      assert a == [a[0]] + a[1..] && d == [d[0]] + d[1..];
    }
  }

  lemma {:induction false} FlatStarts(segments: seq<string>)
    ensures segments != [] ==> Flat(segments) != "" && Flat(segments)[0] == '/'
  {
  }

  lemma {:induction false} FlatCons(a: seq<string>, end: string)
    requires a != []
    ensures Flat(a) + end == ['/'] + (a[0] + (Flat(a[1..]) + end))
  {
  }

  lemma {:induction false} PrefixEmpty(d: seq<string>, end: string)
    requires end == "" || end == "/"
    ensures "" + "/" <= Flat(d) + end <==> d != [] || end != ""
  {
    FlatStarts(d);
  }

  lemma {:induction false} PrefixLonger(a: seq<string>, end: string)
    requires a != [] && (end == "" || end == "/")
    ensures !(Flat(a) + "/" <= "" + end)
  {
    assert |Flat(a) + "/"| >= 2;
  }

  /** One path with a slash behind it is a prefix of another exactly if its segments are the first ones of the other. */
  lemma {:induction false} PrefixIff(a: seq<string>, d: seq<string>, end: string)
    requires Segments(a) && Segments(d) && (end == "" || end == "/")
    ensures Flat(a) + "/" <= Flat(d) + end <==> a <= d && (end == "/" || a != d)
    decreases |a|
  {
    hide Flat;
    if a == [] {
      EmptyFlat();
      PrefixEmpty(d, end);
    } else if d == [] {
      EmptyFlat();
      PrefixLonger(a, end);
    } else {
      var x, y := Flat(a[1..]) + "/", Flat(d[1..]) + end;
      FlatStarts(a[1..]);
      FlatStarts(d[1..]);
      EmptyFlat();
      SameHead(a[0], x, d[0], y);
      PrefixIff(a[1..], d[1..], end);
      FlatCons(a, "/");
      FlatCons(d, end);
      PrefixBehind('/', a[0] + x, d[0] + y);
    }
  }

  lemma {:induction false} EmptyFlat()
    ensures Flat([]) == ""
  {
  }

  lemma {:induction false} PrefixBehind(c: char, s: string, t: string)
    ensures [c] + s <= [c] + t <==> s <= t
  {
    assert ([c] + t)[1..] == t && ([c] + s)[1..] == s;
    if [c] + s <= [c] + t {
      assert forall i :: 0 <= i < |s| ==> s[i] == ([c] + s)[i + 1] == ([c] + t)[i + 1] == t[i];
    }
  }

  // ---------------------------------------------------------------------- what the tests mean

  lemma {:induction false} FlatEndsPlain(segments: seq<string>)
    requires Segments(segments)
    ensures !EndsWithSlash(Flat(segments))
  {
    if segments != [] {
      FlatEndsPlain(segments[1..]);
      var s := segments[0];
      assert s[|s| - 1] in s;
      assert Flat(segments) == ("/" + s) + Flat(segments[1..]);
    }
  }

  lemma {:induction false} PlainIsNormal(s: string)
    requires IsPlain(s)
    ensures Normalize(s) == s && WithSeparator(s) == Flat(SegmentsOf(s)) + "/"
  {
    hide SegmentsOf;
    FlatEndsPlain(SegmentsOf(s));
    if SegmentsOf(s) == [] { EmptyFlat(); }
  }

  /** A slash at the end that normalization keeps. */
  predicate Slashed(s: string) {
    SegmentsOf(s) != [] && EndsWithSlash(s)
  }

  lemma {:induction false} NormalForms(s: string)
    ensures Normalize(s) == if Slashed(s) then Flat(SegmentsOf(s)) + "/" else Text(SegmentsOf(s))
    ensures WithSeparator(Normalize(s)) == Flat(SegmentsOf(s)) + "/"
  {
    hide SegmentsOf;
    var segments := SegmentsOf(s);
    FlatEndsPlain(segments);
    EmptyFlat();
    assert Flat(segments) + "" == Flat(segments);
  }

  /** Ancestry of a plain path to any other is being the first segments of it. */
  lemma {:induction false} AncestorIff(ancestor: string, descendant: string)
    requires IsPlain(ancestor)
    ensures IsAncestorOrEqual(ancestor, descendant) <==> SegmentsOf(ancestor) <= SegmentsOf(descendant)
  {
    hide SegmentsOf, Normalize, Flat;
    PlainIsNormal(ancestor);
    NormalForms(descendant);
    var a, d := SegmentsOf(ancestor), SegmentsOf(descendant);
    PrefixIff(a, d, "");
    PrefixIff(a, d, "/");
    EmptyFlat();
    assert Flat(d) + "" == Flat(d);
  }

  ghost predicate Below(child: seq<string>, root: seq<string>) {
    root <= child && root != child
  }

  /** Being strictly inside a root is having its segments first, and more. */
  lemma {:induction false} InsideIff(child: string, root: string)
    requires IsPlain(child)
    ensures StrictlyInside(child, root) <==> Below(SegmentsOf(child), SegmentsOf(root))
  {
    hide SegmentsOf, Normalize, Flat;
    PlainIsNormal(child);
    NormalForms(root);
    PrefixIff(SegmentsOf(root), SegmentsOf(child), "");
    PrefixIff(SegmentsOf(root), SegmentsOf(child), "/");
    EmptyFlat();
    assert Flat(SegmentsOf(child)) + "" == Flat(SegmentsOf(child));
    if SegmentsOf(child) == [] { assert child == "" + "/"; }
  }

  /** A slash at the end of one path makes it different from the other. */
  lemma {:induction false} EqualIff(a: string, b: string)
    requires IsPlain(a)
    ensures Equal(a, b) <==> SegmentsOf(a) == SegmentsOf(b) && !Slashed(b)
  {
    hide SegmentsOf, Flat, Normalize;
    PlainIsNormal(a);
    NormalForms(b);
    FlatEndsPlain(SegmentsOf(a));
    FlatStarts(SegmentsOf(b));
    TextIsPlain(SegmentsOf(b));
  }

  lemma {:induction false} SplitFlat(segments: seq<string>)
    requires Segments(segments)
    ensures Split(Flat(segments), '/') == [""] + segments
  {
    if segments == [] {
      OnePart("", '/');
    } else {
      hide Split;
      SplitFlat(segments[1..]);
      var head, rest := segments[0], Flat(segments[1..]);
      assert Flat(segments) == "" + "/" + (head + rest);
      SplitInFront(head, rest, segments[1..]);
      assert segments == [head] + segments[1..];
    }
  }

  lemma {:induction false} SplitInFront(head: string, rest: string, parts: seq<string>)
    requires '/' !in head && Split(rest, '/') == [""] + parts
    ensures Split("" + "/" + (head + rest), '/') == [""] + ([head] + parts)
  {
    hide Split;
    SplitCut("", '/', head + rest);
    OnePart("", '/');
    SplitJoin(head, '/', rest);
    OnePart(head, '/');
    assert head + "" == head;
  }

  /** The text of some segments has these segments. */
  lemma {:induction false} TextIsPlain(segments: seq<string>)
    requires Segments(segments)
    ensures SegmentsOf(Text(segments)) == segments && IsPlain(Text(segments))
  {
    if segments == [] {
      OnePart("", '/');
      SplitCut("", '/', "");
      assert "/" == "" + "/" + "" && [""] + [""] == ["", ""];
      assert ["", ""][..1] == [""] && [""][..0] == [];
    } else {
      SplitFlat(segments);
      WalkFrom(segments);
    }
  }

  lemma {:induction false} WalkFrom(segments: seq<string>)
    requires Segments(segments)
    ensures Walk([""] + segments) == segments
  {
    var parts := [""] + segments;
    if segments == [] {
      assert parts[..0] == [];
    } else {
      assert parts[..|segments|] == [""] + segments[..|segments| - 1];
      WalkFrom(segments[..|segments| - 1]);
      assert IsSegment(segments[|segments| - 1]);
    }
  }

  // ---------------------------------------------------------------------- the verdict

  datatype World = World(homeAliases: seq<string>, allowedRoots: seq<string>, uid: Option<int>)

  /** `owners` holds the paths whose owner can be read. */
  datatype Observed = Observed(found: Option<bool>, realPath: Option<string>, still: Option<bool>, owners: map<string, int>)

  datatype Reason =
    | EmptyTarget | RelativeTarget | FilesystemRoot | TooShallow | RealHome | RealHomeAncestor | OutsideAllowedRoots
    | SymlinkEscape | UnownedPath

  datatype Verdict = Approved(canonical: string, root: string) | Refused(reason: Reason)

  predicate IsAbsolute(s: string) {
    s != "" && s[0] == '/'
  }

  /** What the world promises: absolute home paths and roots, and canonical real paths. */
  predicate ValidWorld(w: World, o: Observed) {
    (forall h :: h in w.homeAliases ==> IsAbsolute(h)) && (forall r :: r in w.allowedRoots ==> IsAbsolute(r)) &&
    (o.realPath.Some? ==> IsPlain(o.realPath.value))
  }

  /** An answer that could not be had counts as yes. */
  predicate Seen(answer: Option<bool>) {
    answer.None? || answer.value
  }

  /** The target is there, as far as the verdict is concerned. */
  predicate Present(o: Observed) {
    Seen(o.found) && (o.realPath.Some? || Seen(o.still))
  }

  /** No home is this path or below it, it is at least two segments deep, and no allowed root is written like it. */
  ghost predicate Removable(w: World, path: seq<string>) {
    |path| >= 2 && (forall h :: h in w.homeAliases ==> !(path <= SegmentsOf(h))) &&
    forall r :: r in w.allowedRoots && !Slashed(r) ==> SegmentsOf(r) != path
  }

  /** The first allowed root that the path is below. */
  ghost function FirstRoot(path: seq<string>, roots: seq<string>): (r: Option<string>)
    ensures r.Some? <==> exists root :: root in roots && Below(path, SegmentsOf(root))
    ensures r.Some? ==> r.value in roots && Below(path, SegmentsOf(r.value))
  {
    if roots == [] then None
    else if Below(path, SegmentsOf(roots[0])) then Some(roots[0])
    else FirstRoot(path, roots[1..])
  }

  /** Every component of the path below the root belongs to the process. */
  ghost predicate Owned(o: Observed, uid: int, root: seq<string>, path: seq<string>) {
    forall k :: |root| < k <= |path| ==> Text(path[..k]) in o.owners && o.owners[Text(path[..k])] == uid
  }

  function FirstInside(path: string, roots: seq<string>): (r: Option<string>) {
    if roots == [] then None
    else if StrictlyInside(path, roots[0]) then Some(roots[0])
    else FirstInside(path, roots[1..])
  }

  lemma {:induction false} FirstInsideIs(path: string, roots: seq<string>)
    requires IsPlain(path)
    ensures FirstInside(path, roots) == FirstRoot(SegmentsOf(path), roots)
  {
    hide SegmentsOf, StrictlyInside, IsPlain, Below;
    if roots != [] {
      InsideIff(path, roots[0]);
      FirstInsideIs(path, roots[1..]);
    }
  }

  /** Refuses a path that no deletion may touch, whatever else is known. */
  method RefuseLexically(w: World, path: string) returns (reason: Option<Reason>)
    requires IsPlain(path)
    ensures reason.None? <==> Removable(w, SegmentsOf(path))
  {
    hide SegmentsOf, IsPlain, Slashed, Equal, IsAncestorOrEqual;
    for i := 0 to |w.homeAliases|
      invariant forall j :: 0 <= j < i ==> !(SegmentsOf(path) <= SegmentsOf(w.homeAliases[j]))
    {
      var home := w.homeAliases[i];
      AncestorIff(path, home);
      EqualIsAncestor(path, home);
      if Equal(path, home) {
        return Some(RealHome);
      }
      if IsAncestorOrEqual(path, home) {
        return Some(RealHomeAncestor);
      }
    }
    if SegmentsOf(path) == [] {
      return Some(FilesystemRoot);
    }
    if |SegmentsOf(path)| < 2 {
      return Some(TooShallow);
    }
    for i := 0 to |w.allowedRoots|
      invariant forall j :: 0 <= j < i && !Slashed(w.allowedRoots[j]) ==> SegmentsOf(w.allowedRoots[j]) != SegmentsOf(path)
    {
      EqualIff(path, w.allowedRoots[i]);
      if Equal(path, w.allowedRoots[i]) {
        return Some(OutsideAllowedRoots);
      }
    }
    return None;
  }

  lemma {:induction false} EqualIsAncestor(a: string, b: string)
    ensures Equal(a, b) ==> IsAncestorOrEqual(a, b)
  {
  }

  function SharedLength(a: seq<string>, b: seq<string>): (n: nat)
    ensures n <= |a| && n <= |b|
    ensures a <= b ==> n == |a|
  {
    if a == [] || b == [] || a[0] != b[0] then 0
    else
      assert a <= b ==> a[1..] <= b[1..];
      1 + SharedLength(a[1..], b[1..])
  }

  /** The way from one absolute path to another: up to what they share, and down from there. */
  function Relative(from: string, to: string): (r: string) {
    var a, b := SegmentsOf(from), SegmentsOf(to);
    var n := SharedLength(a, b);
    var steps := seq(|a| - n, _ => "..") + b[n..];
    if steps == [] then "" else Flat(steps)[1..]
  }

  /** Appending to an absolute path. */
  function Joined(path: string, part: string): (r: string) {
    Normalize(path + "/" + part)
  }

  function Named(parts: seq<string>): (r: seq<string>) {
    if parts == [] then []
    else (if parts[0] == "" || parts[0] == "." then [] else [parts[0]]) + Named(parts[1..])
  }

  lemma {:induction false} NamedSegments(segments: seq<string>)
    requires Segments(segments)
    ensures Named(segments) == segments
  {
    if segments != [] {
      NamedSegments(segments[1..]);
      assert IsSegment(segments[0]) && segments == [segments[0]] + segments[1..];
    }
  }

  /** Below a root, the way down is what the target has after the root. */
  lemma {:induction false} RelativeBelow(root: string, target: string)
    requires Below(SegmentsOf(target), SegmentsOf(root))
    ensures Named(Split(Relative(root, target), '/')) == SegmentsOf(target)[|SegmentsOf(root)|..]
  {
    hide SegmentsOf, Split, Flat;
    var rest := SegmentsOf(target)[|SegmentsOf(root)|..];
    assert seq(0, _ => "..") + rest == rest;
    FlatStarts(rest);
    var way := Flat(rest)[1..];
    SplitFlat(rest);
    SplitCut("", '/', way);
    OnePart("", '/');
    assert Flat(rest) == "" + "/" + way;
    assert ([""] + rest)[1..] == ([""] + Split(way, '/'))[1..];
    NamedSegments(rest);
  }

  /** Appending a segment to a path appends it to its segments, also after a slash. */
  lemma {:induction false} JoinedIsText(s: string, part: string)
    requires IsSegment(part)
    ensures Joined(s, part) == Text(SegmentsOf(s) + [part])
  {
    hide SegmentsOf, Flat;
    PartAfter(s, part);
    assert part[|part| - 1] in part;
    assert Flat(SegmentsOf(s) + [part]) + "" == Flat(SegmentsOf(s) + [part]);
  }

  lemma {:induction false} SlashedSegments(segments: seq<string>)
    requires Segments(segments)
    ensures SegmentsOf(Flat(segments) + "/") == segments
  {
    hide Split, Flat;
    SplitFlat(segments);
    SplitCut(Flat(segments), '/', "");
    OnePart("", '/');
    assert Flat(segments) + "/" + "" == Flat(segments) + "/";
    var parts := [""] + segments;
    assert (parts + [""])[..|parts|] == parts;
    WalkFrom(segments);
  }

  lemma {:induction false} NormalizeKeeps(s: string)
    ensures SegmentsOf(Normalize(s)) == SegmentsOf(s)
  {
    hide SegmentsOf, Normalize;
    NormalForms(s);
    SlashedSegments(SegmentsOf(s));
    TextIsPlain(SegmentsOf(s));
  }

  /** The paths from just below a root down to the target. */
  method ComponentsBetween(root: string, target: string) returns (components: seq<string>)
    requires IsPlain(target) && Below(SegmentsOf(target), SegmentsOf(root))
    ensures |components| == |SegmentsOf(target)| - |SegmentsOf(root)|
    ensures forall k :: 0 <= k < |components| ==> components[k] == Text(SegmentsOf(target)[..|SegmentsOf(root)| + k + 1])
  {
    hide SegmentsOf, Relative, Joined, Text, Normalize;
    ghost var path, n := SegmentsOf(target), |SegmentsOf(root)|;
    NormalizeKeeps(root);
    NormalizeKeeps(target);
    var parts := Named(Split(Relative(Normalize(root), Normalize(target)), '/'));
    RelativeBelow(Normalize(root), Normalize(target));
    components := [];
    var current := Normalize(root);
    assert path[..n] == SegmentsOf(root);
    for k := 0 to |parts|
      invariant |components| == k && SegmentsOf(current) == path[..n + k]
      invariant forall j :: 0 <= j < k ==> components[j] == Text(path[..n + j + 1])
    {
      assert path[..n + k] + [parts[k]] == path[..n + k + 1];
      JoinedIsText(current, parts[k]);
      TextIsPlain(path[..n + k + 1]);
      current := Joined(current, parts[k]);
      components := components + [current];
    }
  }

  method CheckOwned(o: Observed, uid: int, root: string, path: string) returns (owned: bool)
    requires IsPlain(path) && Below(SegmentsOf(path), SegmentsOf(root))
    ensures owned <==> Owned(o, uid, SegmentsOf(root), SegmentsOf(path))
  {
    hide Text, SegmentsOf;
    ghost var n := |SegmentsOf(root)|;
    var components := ComponentsBetween(root, path);
    for k := 0 to |components|
      invariant forall j :: n < j <= n + k ==>
        Text(SegmentsOf(path)[..j]) in o.owners && o.owners[Text(SegmentsOf(path)[..j])] == uid
    {
      assert components[k] == Text(SegmentsOf(path)[..n + k + 1]);
      if components[k] !in o.owners || o.owners[components[k]] != uid {
        return false;
      }
    }
    return true;
  }

  predicate IsBlank(s: string) {
    forall c :: c in s ==> c in " \t\n\r"
  }

  /** The path that a deletion would remove: the real one if the target is there. */
  function Canonical(target: string, o: Observed): (r: string) {
    if Present(o) && o.realPath.Some? then o.realPath.value else Text(SegmentsOf(target))
  }

  /** What a deletion may be approved for, in segments. */
  ghost predicate Permitted(target: string, w: World, o: Observed) {
    var canonical := SegmentsOf(Canonical(target, o));
    var root := FirstRoot(canonical, w.allowedRoots);
    !IsBlank(target) && IsAbsolute(target) && Removable(w, SegmentsOf(target)) && root.Some? &&
    (Present(o) ==> o.realPath.Some? && Removable(w, canonical)) &&
    (Present(o) && w.uid.Some? ==> Owned(o, w.uid.value, SegmentsOf(root.value), canonical))
  }

  /** The deletion is approved exactly if it is permitted, for the canonical path and the first root it is inside of. */
  method AssessDeletionTarget(target: string, w: World, o: Observed) returns (v: Verdict)
    requires ValidWorld(w, o)
    ensures v.Approved? <==> Permitted(target, w, o)
    ensures v.Approved? ==> v.canonical == Canonical(target, o) && Some(v.root) == FirstRoot(SegmentsOf(v.canonical), w.allowedRoots)
  {
    hide SegmentsOf, IsPlain, Removable, FirstRoot, Owned, Text, Below, FirstInside;
    if IsBlank(target) {
      return Refused(EmptyTarget);
    }
    if !IsAbsolute(target) {
      return Refused(RelativeTarget);
    }
    var path := SegmentsOf(target);
    var resolved := Text(path);
    TextIsPlain(path);
    RootIsKept(w, path);
    if path == [] {
      return Refused(FilesystemRoot);
    }
    var refusal := RefuseLexically(w, resolved);
    if refusal.Some? {
      return Refused(refusal.value);
    }
    var canonical, present := resolved, Seen(o.found);
    if present {
      if o.realPath.None? {
        if Seen(o.still) {
          return Refused(SymlinkEscape);
        }
        present := false;
      } else {
        canonical := o.realPath.value;
      }
    }
    if present {
      refusal := RefuseLexically(w, canonical);
      if refusal.Some? {
        return Refused(refusal.value);
      }
    }
    var lexicalRoot := FirstInside(resolved, w.allowedRoots);
    FirstInsideIs(resolved, w.allowedRoots);
    FirstInsideIs(canonical, w.allowedRoots);
    if present {
      var root := FirstInside(canonical, w.allowedRoots);
      if root.None? {
        return Refused(if lexicalRoot.Some? then SymlinkEscape else OutsideAllowedRoots);
      }
      if w.uid.Some? {
        var owned := CheckOwned(o, w.uid.value, root.value, canonical);
        if !owned {
          return Refused(UnownedPath);
        }
      }
      return Approved(canonical, root.value);
    }
    if lexicalRoot.None? {
      return Refused(OutsideAllowedRoots);
    }
    return Approved(canonical, lexicalRoot.value);
  }

  lemma {:induction false} RootIsKept(w: World, path: seq<string>)
    ensures path == [] ==> !Removable(w, path)
  {
  }

  /**
   * Whatever is approved is strictly below an allowed root, is at least two segments deep, holds no home and is not an
   * allowed root unless that is written with a slash at the end; if the target is there and the user is known, every
   * component below the root belongs to it.
   */
  lemma {:induction false} ApprovedIsSafe(target: string, w: World, o: Observed)
    requires ValidWorld(w, o) && Permitted(target, w, o)
    ensures var canonical := SegmentsOf(Canonical(target, o));
      |canonical| >= 2 && (forall h :: h in w.homeAliases ==> !(canonical <= SegmentsOf(h))) &&
      (forall r :: r in w.allowedRoots && !Slashed(r) ==> SegmentsOf(r) != canonical) &&
      exists r :: r in w.allowedRoots && Below(canonical, SegmentsOf(r)) &&
        (Present(o) && w.uid.Some? ==> Owned(o, w.uid.value, SegmentsOf(r), canonical))
  {
    hide SegmentsOf, Owned, Text, Below, IsPlain, Slashed;
    TextIsPlain(SegmentsOf(target));
  }

  // ---------------------------------------------------------------------- allowed roots as targets

  ghost predicate ApprovesRoot(target: string, w: World, o: Observed) {
    ValidWorld(w, o) && Permitted(target, w, o) &&
    exists r :: r in w.allowedRoots && SegmentsOf(r) == SegmentsOf(Canonical(target, o))
  }

  /** A removable root inside another one, written with a slash at the end. */
  ghost predicate SlashedInside(w: World, r: string) {
    r in w.allowedRoots && Slashed(r) && Removable(w, SegmentsOf(r)) && FirstRoot(SegmentsOf(r), w.allowedRoots).Some?
  }

  /** No allowed root is ever approved, exactly if the world has no such root. */
  lemma {:induction false} RootsAreKeptIff(w: World)
    requires forall h :: h in w.homeAliases ==> IsAbsolute(h)
    requires forall r :: r in w.allowedRoots ==> IsAbsolute(r)
    ensures (forall target, o :: !ApprovesRoot(target, w, o)) <==> (forall r :: !SlashedInside(w, r))
  {
    hide ApprovesRoot, SlashedInside;
    forall target, o | ApprovesRoot(target, w, o) ensures exists r :: SlashedInside(w, r) {
      var r := RootApproved(target, w, o);
    }
    forall r | SlashedInside(w, r) ensures exists target, o :: ApprovesRoot(target, w, o) {
      var target, o := ApprovedFor(w, r);
    }
  }

  lemma {:induction false} RootApproved(target: string, w: World, o: Observed) returns (r: string)
    requires ApprovesRoot(target, w, o)
    ensures SlashedInside(w, r)
  {
    hide SegmentsOf, FirstRoot, Owned, Text, Below, IsPlain, Slashed;
    TextIsPlain(SegmentsOf(target));
    r :| r in w.allowedRoots && SegmentsOf(r) == SegmentsOf(Canonical(target, o));
  }

  lemma {:induction false} ApprovedFor(w: World, r: string) returns (target: string, o: Observed)
    requires forall h :: h in w.homeAliases ==> IsAbsolute(h)
    requires forall r :: r in w.allowedRoots ==> IsAbsolute(r)
    requires SlashedInside(w, r)
    ensures ApprovesRoot(target, w, o)
  {
    hide SegmentsOf, FirstRoot, Owned, Below, IsPlain, Slashed, Removable, Flat;
    target, o := Text(SegmentsOf(r)), Observed(Some(false), None, None, map[]);
    TextIsPlain(SegmentsOf(r));
    FlatStarts(SegmentsOf(r));
    assert target[0] == '/' && target[0] in target;
    assert !Present(o) && Canonical(target, o) == Text(SegmentsOf(target));
  }

  /** The root `/a/b/` below the root `/a` is such a root, so `/a/b` can be approved. */
  lemma {:induction false} SlashedRootIsApproved() returns (target: string, w: World, o: Observed)
    ensures ApprovesRoot(target, w, o)
  {
    hide SegmentsOf, ApprovesRoot;
    w := World([], ["/a", "/a/b/"], None);
    var one, two := ["a"], ["a", "b"];
    assert Flat(one) == "/a" && Flat(two) == "/a/b" by { assert two[1..] == ["b"] && one[1..] == [] && ["b"][1..] == []; }
    TextIsPlain(one);
    SlashedSegments(two);
    assert Flat(two) + "/" == "/a/b/";
    assert Below(two, one);
    assert w.allowedRoots[0] == "/a" && w.allowedRoots[1] == "/a/b/";
    assert SlashedInside(w, "/a/b/");
    target, o := ApprovedFor(w, "/a/b/");
  }

  // ---------------------------------------------------------------------- going up and out

  lemma {:induction false} Outside()
    ensures SegmentsOf("/tmp/../..") == []
  {
    hide SegmentsOf;
    EmptyPath();
    PartAfter("", "tmp");
    assert "" + "/" + "tmp" == "/tmp";
    PartAfter("/tmp", "..");
    assert "/tmp" + "/" + ".." == "/tmp/..";
    PartAfter("/tmp/..", "..");
    assert "/tmp/.." + "/" + ".." == "/tmp/../..";
  }

  lemma {:induction false} HomeBelow(s: string, home: string, target: string)
    requires SegmentsOf(s) == [] && home == s + "/" + "home" && target == home + "/" + "op"
    ensures SegmentsOf(target) == ["home", "op"]
  {
    hide SegmentsOf;
    PartAfter(s, "home");
    PartAfter(home, "op");
  }

  /** `/tmp/../../home/op` is the home `/home/op`, so it may not go, whatever is on disk. */
  lemma {:induction false} HomeIsKept(o: Observed, uid: Option<int>)
    ensures SegmentsOf("/tmp/../../home/op") == ["home", "op"]
    ensures !Permitted("/tmp/../../home/op", World(["/home/op"], ["/tmp"], uid), o)
  {
    hide SegmentsOf, FirstRoot, Owned, Canonical, IsBlank;
    Outside();
    EmptyPath();
    HomeBelow("/tmp/../..", "/tmp/../../home", "/tmp/../../home/op");
    HomeBelow("", "/home", "/home/op");
    HomeRefused("/tmp/../../home/op", World(["/home/op"], ["/tmp"], uid), "/home/op");
  }

  lemma {:induction false} HomeRefused(target: string, w: World, home: string)
    requires home in w.homeAliases && SegmentsOf(target) <= SegmentsOf(home)
    ensures forall o :: !Permitted(target, w, o)
  {
    hide SegmentsOf, FirstRoot, Owned, Canonical, IsBlank;
  }
}
