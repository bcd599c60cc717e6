/**
 * The content browser's folder paths (src/Editor/EditorLayout.cpp).
 *
 * A path is read as the pieces between its '/' separators. Normalising a
 * path turns every backslash into a slash, strips slashes at both ends and
 * collapses runs of slashes, so what is left is the non-empty pieces joined
 * by single slashes. Splitting, the parent folder, the leaf name and the
 * "folder contains" test are stated over those segments.
 */
module BrowserPath {
  import opened Common
  import opened Text

  /** The pieces between '/' separators, empty ones included; there is always at least one. */
  function Pieces(s: string): (r: seq<string>)
    ensures |r| >= 1
    ensures forall k :: 0 <= k < |r| ==> '/' !in r[k]
  {
    if s == [] then [""]
    else
      var rest := Pieces(s[1..]);
      if s[0] == '/' then [""] + rest else [[s[0]] + rest[0]] + rest[1..]
  }

  /** The pieces glued back together with one '/' between neighbours. */
  function Join(parts: seq<string>): string {
    if parts == [] then ""
    else if |parts| == 1 then parts[0]
    else parts[0] + "/" + Join(parts[1..])
  }

  /** The pieces that are not empty, in order. */
  function NonEmpty(parts: seq<string>): seq<string> {
    if parts == [] then []
    else (if parts[0] == [] then [] else [parts[0]]) + NonEmpty(parts[1..])
  }

  /** The folder names a path stands for. */
  function Segments(s: string): seq<string> {
    NonEmpty(Pieces(s))
  }

  /** std::replace(begin, end, '\\', '/'). */
  function Slashed(s: string): (r: string)
    ensures |r| == |s| && '\\' !in r
    ensures forall k :: 0 <= k < |s| && s[k] != '\\' ==> r[k] == s[k]
    ensures forall k :: 0 <= k < |s| && s[k] == '\\' ==> r[k] == '/'
  {
    if s == [] then [] else [if s[0] == '\\' then '/' else s[0]] + Slashed(s[1..])
  }

  /** What NormalizeBrowserPath returns: the segments joined by single slashes. */
  function Normalized(s: string): string {
    Join(Segments(Slashed(s)))
  }

  /** A normalised path: no backslash, no slash at either end, no two slashes in a row. */
  predicate Clean(p: string) {
    && '\\' !in p
    && (p != [] ==> p[0] != '/' && p[|p| - 1] != '/')
    && !Contains(p, "//")
  }

  /** The segments a list of folder names stands for, each non-empty without separators. */
  predicate Names(parts: seq<string>) {
    forall k :: 0 <= k < |parts| ==> parts[k] != [] && '/' !in parts[k] && '\\' !in parts[k]
  }

  // ---------------------------------------------------------------------
  // Pieces, Join and NonEmpty
  // ---------------------------------------------------------------------

  /** A separator splits the pieces in two. */
  lemma {:induction false} PiecesSplit(x: string, y: string)
    ensures Pieces(x + "/" + y) == Pieces(x) + Pieces(y)
    decreases |x|, 1
  {
    if x == [] {
      assert x + "/" + y == ['/'] + y;
      PiecesCons('/', y);
    } else {
      assert x == [x[0]] + x[1..];
      PiecesSplitCons(x[0], x[1..], y);
    }
  }

  /** PiecesSplit for text that starts with `c`. */
  lemma {:induction false} PiecesSplitCons(c: char, t: string, y: string)
    ensures Pieces([c] + t + "/" + y) == Pieces([c] + t) + Pieces(y)
    decreases |t| + 1, 0
  {
    assert [c] + t + "/" + y == [c] + (t + "/" + y);
    PiecesSplit(t, y);
    if c == '/' {
      PiecesSplitSlash(t, y);
    } else {
      PiecesSplitChar(c, t, y);
    }
  }

  lemma PiecesSplitSlash(t: string, y: string)
    requires Pieces(t + "/" + y) == Pieces(t) + Pieces(y)
    ensures Pieces(['/'] + (t + "/" + y)) == Pieces(['/'] + t) + Pieces(y)
  {
    PiecesCons('/', t);
    PiecesCons('/', t + "/" + y);
    assert [""] + (Pieces(t) + Pieces(y)) == ([""] + Pieces(t)) + Pieces(y);
  }

  lemma PiecesSplitChar(c: char, t: string, y: string)
    requires c != '/' && Pieces(t + "/" + y) == Pieces(t) + Pieces(y)
    ensures Pieces([c] + (t + "/" + y)) == Pieces([c] + t) + Pieces(y)
  {
    PiecesCons(c, t + "/" + y);
    PiecesCons(c, t);
    GrowFirst([c], Pieces(t + "/" + y), Pieces(t), Pieces(y));
  }

  /** Prefixing the first piece of `a + b` with `c` is prefixing the first piece of `a`, then appending `b`. */
  lemma GrowFirst(c: string, ab: seq<string>, a: seq<string>, b: seq<string>)
    requires ab == a + b && |a| >= 1
    ensures [c + ab[0]] + ab[1..] == ([c + a[0]] + a[1..]) + b
  {
    assert ab[0] == a[0] && ab[1..] == a[1..] + b;
  }

  /** The pieces of text that starts with `c`. */
  lemma PiecesCons(c: char, t: string)
    ensures Pieces([c] + t) == if c == '/' then [""] + Pieces(t) else [[c] + Pieces(t)[0]] + Pieces(t)[1..]
  {
    assert ([c] + t)[0] == c && ([c] + t)[1..] == t;
  }

  /** Text without a separator is one piece. */
  lemma {:induction false} PiecesNoSlash(s: string)
    requires '/' !in s
    ensures Pieces(s) == [s]
  {
    if s != [] {
      PiecesNoSlash(s[1..]);
      assert [s[0]] + s[1..] == s;
    }
  }

  /** Splitting and joining gives the text back. */
  lemma {:induction false} JoinPieces(s: string)
    ensures Join(Pieces(s)) == s
  {
    if s != [] {
      JoinPieces(s[1..]);
      var rest := Pieces(s[1..]);
      if s[0] == '/' {
        assert Join([""] + rest) == "" + "/" + Join(rest);
        assert s == "/" + s[1..];
      } else {
        JoinConsChar(s[0], rest);
        assert s == [s[0]] + s[1..];
      }
    }
  }

  lemma {:induction false} JoinConsChar(c: char, parts: seq<string>)
    requires |parts| >= 1
    ensures Join([[c] + parts[0]] + parts[1..]) == [c] + Join(parts)
  {
    var q := [[c] + parts[0]] + parts[1..];
    assert q[1..] == parts[1..];
  }

  /** Joining two non-empty lists puts one separator between them. */
  lemma {:induction false} JoinAppend(a: seq<string>, b: seq<string>)
    requires a != [] && b != []
    ensures Join(a + b) == Join(a) + "/" + Join(b)
  {
    if |a| > 1 {
      JoinAppend(a[1..], b);
      assert (a + b)[1..] == a[1..] + b;
    } else {
      assert (a + b)[1..] == b;
    }
  }

  lemma {:induction false} NonEmptyAppend(a: seq<string>, b: seq<string>)
    ensures NonEmpty(a + b) == NonEmpty(a) + NonEmpty(b)
  {
    if a != [] {
      NonEmptyAppend(a[1..], b);
      assert (a + b)[1..] == a[1..] + b;
    } else {
      assert a + b == b;
    }
  }

  lemma {:induction false} NonEmptyOfNonEmpty(parts: seq<string>)
    requires forall k :: 0 <= k < |parts| ==> parts[k] != []
    ensures NonEmpty(parts) == parts
  {
    if parts != [] {
      NonEmptyOfNonEmpty(parts[1..]);
    }
  }

  /** Folder names joined and split again are the same names. */
  lemma {:induction false} PiecesJoin(parts: seq<string>)
    requires parts != [] && forall k :: 0 <= k < |parts| ==> '/' !in parts[k]
    ensures Pieces(Join(parts)) == parts
  {
    if |parts| == 1 {
      PiecesNoSlash(parts[0]);
    } else {
      PiecesJoin(parts[1..]);
      PiecesSplit(parts[0], Join(parts[1..]));
      PiecesNoSlash(parts[0]);
    }
  }

  lemma SegmentsJoin(parts: seq<string>)
    requires Names(parts)
    ensures Segments(Join(parts)) == parts
  {
    if parts != [] {
      PiecesJoin(parts);
      NonEmptyOfNonEmpty(parts);
    }
  }

  lemma {:induction false} JoinNoBackslash(parts: seq<string>)
    requires Names(parts)
    ensures '\\' !in Join(parts)
  {
    if |parts| > 1 {
      JoinNoBackslash(parts[1..]);
    }
  }

  lemma {:induction false} SlashedUnchanged(s: string)
    requires '\\' !in s
    ensures Slashed(s) == s
  {
    if s != [] {
      SlashedUnchanged(s[1..]);
    }
  }

  /** Every segment is a non-empty name without separators. */
  lemma {:induction false} NonEmptyNames(parts: seq<string>)
    requires forall k :: 0 <= k < |parts| ==> '/' !in parts[k] && '\\' !in parts[k]
    ensures Names(NonEmpty(parts))
  {
    if parts != [] {
      NonEmptyNames(parts[1..]);
    }
  }

  lemma {:induction false} PiecesNoBackslash(s: string)
    requires '\\' !in s
    ensures forall k :: 0 <= k < |Pieces(s)| ==> '\\' !in Pieces(s)[k]
  {
    if s != [] {
      PiecesNoBackslash(s[1..]);
    }
  }

  lemma SegmentsAreNames(s: string)
    requires '\\' !in s
    ensures Names(Segments(s))
  {
    PiecesNoBackslash(s);
    NonEmptyNames(Pieces(s));
  }

  // ---------------------------------------------------------------------
  // Clean paths
  // ---------------------------------------------------------------------

  lemma {:induction false} CleanPiecesNonEmpty(p: string)
    requires p != [] && p[0] != '/' && p[|p| - 1] != '/' && !Contains(p, "//")
    ensures forall k :: 0 <= k < |Pieces(p)| ==> Pieces(p)[k] != []
    decreases |p|
  {
    var q := p[1..];
    if q != [] && q[0] == '/' {
      var q2 := q[1..];
      assert q2 != [];
      assert !OccursAt(p, "//", 1);
      assert p[1..3] == [p[1], p[2]];
      forall i: nat | i <= |q2| ensures !OccursAt(q2, "//", i) {
        if i + 2 <= |q2| {
          assert p[i + 2..i + 4] == q2[i..i + 2];
        }
        assert !OccursAt(p, "//", i + 2);
      }
      CleanPiecesNonEmpty(q2);
      assert q == [q[0]] + q2;
      assert Pieces(q) == [""] + Pieces(q2);
      assert Pieces(p) == [[p[0]] + ""] + Pieces(q2);
    } else if q != [] {
      forall i: nat | i <= |q| ensures !OccursAt(q, "//", i) {
        if i + 2 <= |q| {
          assert p[i + 1..i + 3] == q[i..i + 2];
        }
        assert !OccursAt(p, "//", i + 1);
      }
      CleanPiecesNonEmpty(q);
    }
  }

  /** A clean path is the join of its own segments. */
  lemma CleanIsJoin(p: string)
    requires Clean(p)
    ensures Join(Segments(p)) == p
  {
    if p != [] {
      CleanPiecesNonEmpty(p);
      NonEmptyOfNonEmpty(Pieces(p));
      JoinPieces(p);
    }
  }

  /** Names joined by single slashes form a clean path. */
  lemma {:induction false} JoinClean(parts: seq<string>)
    requires Names(parts)
    ensures Clean(Join(parts))
    ensures parts != [] ==> Join(parts) != []
  {
    if |parts| == 1 {
      NoSlashNoDouble(parts[0]);
    } else if |parts| > 1 {
      JoinClean(parts[1..]);
      var a := parts[0];
      var j := Join(parts[1..]);
      var p := a + "/" + j;
      assert p == Join(parts);
      JoinNoBackslash(parts);
      forall i: nat | i <= |p| ensures !OccursAt(p, "//", i) {
        if i + 2 <= |p| {
          if i + 1 < |a| {
            assert p[i] == a[i];
          } else if i + 1 == |a| {
            assert p[i] == a[i];
          } else if i == |a| {
            assert p[i + 1] == j[0];
          } else {
            assert p[i..i + 2] == j[i - |a| - 1..i - |a| + 1];
            assert !OccursAt(j, "//", i - |a| - 1);
          }
        }
      }
    }
  }

  lemma {:induction false} NoSlashNoDouble(a: string)
    requires '/' !in a
    ensures !Contains(a, "//")
  {
    forall i: nat | i <= |a| ensures !OccursAt(a, "//", i) {
      if i + 2 <= |a| {
        assert a[i] != '/';
      }
    }
  }

  /** The normalised form is clean. */
  lemma NormalizedClean(s: string)
    ensures Clean(Normalized(s))
  {
    SegmentsAreNames(Slashed(s));
    JoinClean(Segments(Slashed(s)));
  }

  /** Normalising twice is normalising once. */
  lemma NormalizedIdempotent(s: string)
    ensures Normalized(Normalized(s)) == Normalized(s)
  {
    var parts := Segments(Slashed(s));
    SegmentsAreNames(Slashed(s));
    JoinNoBackslash(parts);
    SlashedUnchanged(Join(parts));
    SegmentsJoin(parts);
  }

  /** A clean path normalises to itself. */
  lemma CleanNormalized(p: string)
    requires Clean(p)
    ensures Normalized(p) == p
  {
    SlashedUnchanged(p);
    CleanIsJoin(p);
  }

  // ---------------------------------------------------------------------
  // The loops of NormalizeBrowserPath
  // ---------------------------------------------------------------------

  lemma DropTrailingSlash(p: string)
    requires p != [] && p[|p| - 1] == '/'
    ensures Segments(p[..|p| - 1]) == Segments(p)
  {
    var x := p[..|p| - 1];
    assert x + "/" + "" == p;
    PiecesSplit(x, "");
    NonEmptyAppend(Pieces(x), [""]);
  }

  lemma CollapseDoubleSlash(p: string, k: nat)
    requires OccursAt(p, "//", k)
    ensures Segments(p[..k] + "/" + p[k + 2..]) == Segments(p)
  {
    var x := p[..k];
    var y := p[k + 2..];
    assert p == x + "/" + ("/" + y);
    assert "" + "/" + y == "/" + y;
    PiecesSplit(x, "/" + y);
    PiecesSplit("", y);
    PiecesSplit(x, y);
    NonEmptyAppend(Pieces(x), Pieces("/" + y));
    NonEmptyAppend(Pieces(x), Pieces(y));
    NonEmptyAppend([""], Pieces(y));
  }

  /**
   * NormalizeBrowserPath: backslashes become slashes, leading slashes are
   * erased one at a time, trailing ones popped, then the first "//" is
   * replaced by "/" until none is left.
   */
  method NormalizeBrowserPath(value: string) returns (path: string)
    ensures path == Normalized(value)
    ensures Clean(path)
  {
    path := Slashed(value);
    path := EraseLeadingSlashes(path);
    path := PopTrailingSlashes(path);
    path := CollapseDoubleSlashes(path);
    CleanIsJoin(path);
  }

  /** NormalizeBrowserPath's first loop: erase the leading slashes. */
  method EraseLeadingSlashes(p: string) returns (path: string)
    requires '\\' !in p
    ensures Segments(path) == Segments(p) && '\\' !in path
    ensures path != [] ==> path[0] != '/'
  {
    path := p;
    while path != [] && path[0] == '/'
      invariant Segments(path) == Segments(p) && '\\' !in path
      decreases |path|
    {
      assert path == [path[0]] + path[1..];
      path := path[1..];
    }
  }

  /** NormalizeBrowserPath's second loop: pop the trailing slashes. */
  method PopTrailingSlashes(p: string) returns (path: string)
    requires '\\' !in p && (p != [] ==> p[0] != '/')
    ensures Segments(path) == Segments(p) && '\\' !in path
    ensures path != [] ==> path[0] != '/' && path[|path| - 1] != '/'
  {
    path := p;
    while path != [] && path[|path| - 1] == '/'
      invariant Segments(path) == Segments(p) && '\\' !in path
      invariant path != [] ==> path[0] != '/'
      decreases |path|
    {
      DropTrailingSlash(path);
      path := path[..|path| - 1];
    }
  }

  /** NormalizeBrowserPath's third loop: replace the first "//" by "/" until none is left. */
  method CollapseDoubleSlashes(p: string) returns (path: string)
    requires '\\' !in p && (p != [] ==> p[0] != '/' && p[|p| - 1] != '/')
    ensures Segments(path) == Segments(p) && Clean(path)
  {
    path := p;
    var at := FirstOccurrence(path, "//");
    while at.Some?
      invariant Segments(path) == Segments(p) && '\\' !in path
      invariant path != [] ==> path[0] != '/' && path[|path| - 1] != '/'
      invariant at == FirstOccurrence(path, "//")
      decreases |path|
    {
      var k := at.value;
      assert path[k] == '/' && path[k + 1] == '/' by {
        assert path[k..k + 2] == "//";
      }
      CollapseDoubleSlash(path, k);
      var next := path[..k] + "/" + path[k + 2..];
      assert k > 0 && k + 2 < |path|;
      assert next[0] == path[0] && next[|next| - 1] == path[|path| - 1];
      path := next;
      at := FirstOccurrence(path, "//");
    }
  }

  // ---------------------------------------------------------------------
  // Splitting, parent and leaf
  // ---------------------------------------------------------------------

  /** std::string::find(c, from). */
  function FindChar(s: string, c: char, from: nat): (r: Option<nat>)
    requires from <= |s|
    ensures r.Some? ==> from <= r.value < |s| && s[r.value] == c
    ensures r.Some? ==> forall j :: from <= j < r.value ==> s[j] != c
    ensures r.None? ==> forall j :: from <= j < |s| ==> s[j] != c
    decreases |s| - from
  {
    if from == |s| then None else if s[from] == c then Some(from) else FindChar(s, c, from + 1)
  }

  /**
   * SplitBrowserPath: the separator-free parts of the normalised path,
   * empty parts skipped; joined again they give the normalised path.
   */
  method SplitBrowserPath(path: string) returns (parts: seq<string>)
    ensures parts == Segments(Normalized(path))
    ensures Join(parts) == Normalized(path)
    ensures Names(parts)
  {
    var normalized := NormalizeBrowserPath(path);
    parts := [];
    var start := 0;
    while start < |normalized|
      invariant start <= |normalized|
      invariant parts + Segments(normalized[start..]) == Segments(normalized)
    {
      var delimiter := FindChar(normalized, '/', start);
      var part := if delimiter.None? then normalized[start..] else normalized[start..delimiter.value];
      SplitStep(normalized, start, delimiter, parts);
      if part != [] {
        parts := parts + [part];
      }
      if delimiter.None? {
        break;
      }
      start := delimiter.value + 1;
    }
    CleanIsJoin(normalized);
    SegmentsAreNames(normalized);
  }

  /** One round of the split loop: the part before the next separator is kept when not empty. */
  lemma SplitStep(s: string, start: nat, delimiter: Option<nat>, parts: seq<string>)
    requires start <= |s| && delimiter == FindChar(s, '/', start)
    requires parts + Segments(s[start..]) == Segments(s)
    ensures delimiter.None? ==>
              (if s[start..] != [] then parts + [s[start..]] else parts) == Segments(s)
    ensures delimiter.Some? ==>
              var part := s[start..delimiter.value];
              (if part != [] then parts + [part] else parts) + Segments(s[delimiter.value + 1..]) == Segments(s)
  {
    var part := if delimiter.None? then s[start..] else s[start..delimiter.value];
    SplitSegments(s, start, delimiter);
    assert [part][1..] == [];
    var kept := if part != [] then parts + [part] else parts;
    assert kept == parts + NonEmpty([part]);
    if delimiter.Some? {
      ConcatAssoc(parts, NonEmpty([part]), Segments(s[delimiter.value + 1..]));
    }
  }

  lemma ConcatAssoc<T>(a: seq<T>, b: seq<T>, c: seq<T>)
    ensures (a + b) + c == a + (b + c)
  {
  }

  /** The segments from `start` on: the part before the next separator, then those after it. */
  lemma SplitSegments(s: string, start: nat, delimiter: Option<nat>)
    requires start <= |s| && delimiter == FindChar(s, '/', start)
    ensures delimiter.None? ==> Segments(s[start..]) == NonEmpty([s[start..]])
    ensures delimiter.Some? ==>
              Segments(s[start..]) == NonEmpty([s[start..delimiter.value]]) + Segments(s[delimiter.value + 1..])
  {
    var part := if delimiter.None? then s[start..] else s[start..delimiter.value];
    assert forall k :: 0 <= k < |part| ==> part[k] == s[start + k];
    PiecesNoSlash(part);
    if delimiter.Some? {
      var rest := s[delimiter.value + 1..];
      assert s[start..] == part + "/" + rest;
      PiecesSplit(part, rest);
      NonEmptyAppend([part], Pieces(rest));
    }
  }

  /** The text before the last '/', or nothing when there is none. */
  function ParentOf(n: string): (r: string)
    ensures |r| <= |n|
  {
    match LastOccurrence(n, "/")
    case None => ""
    case Some(d) => n[..d]
  }

  /** The text after the last '/', or all of it when there is none. */
  function LeafOf(n: string): (r: string)
    ensures '/' !in r
  {
    LeafNoSlash(n);
    match LastOccurrence(n, "/")
    case None => n
    case Some(d) => n[d + 1..]
  }

  lemma LeafNoSlash(n: string)
    ensures match LastOccurrence(n, "/")
            case None => '/' !in n
            case Some(d) => '/' !in n[d + 1..]
  {
    match LastOccurrence(n, "/")
    case None =>
      forall k | 0 <= k < |n| ensures n[k] != '/' {
        assert !OccursAt(n, "/", k);
      }
    case Some(d) =>
      forall k | d + 1 <= k < |n| ensures n[k] != '/' {
        assert !OccursAt(n, "/", k);
      }
  }

  /** The parent and the leaf are the path split at its last separator. */
  lemma ParentLeafSplit(n: string)
    ensures '/' in n ==> ParentOf(n) + "/" + LeafOf(n) == n
    ensures '/' !in n ==> ParentOf(n) == "" && LeafOf(n) == n
  {
    LeafNoSlash(n);
    match LastOccurrence(n, "/")
    case None =>
    case Some(d) =>
      assert n[d..d + 1] == "/";
      assert n == n[..d] + "/" + n[d + 1..];
  }

  /** On a non-empty clean path the parent has every segment but the last, which is the leaf. */
  lemma ParentLeafSegments(n: string)
    requires Clean(n) && n != []
    ensures Segments(ParentOf(n)) + [LeafOf(n)] == Segments(n)
  {
    ParentLeafSplit(n);
    var leaf := LeafOf(n);
    if '/' in n {
      var parent := ParentOf(n);
      assert leaf != [] by {
        assert n[|n| - 1] == ("/" + leaf)[|"/" + leaf| - 1];
      }
      PiecesSplit(parent, leaf);
      PiecesNoSlash(leaf);
      NonEmptyAppend(Pieces(parent), [leaf]);
    } else {
      PiecesNoSlash(n);
      PiecesNoSlash("");
    }
  }

  /** ParentBrowserPath: the normalised path up to its last separator. */
  method ParentBrowserPath(path: string) returns (parent: string)
    ensures parent == ParentOf(Normalized(path))
    ensures Clean(parent)
  {
    var normalized := NormalizeBrowserPath(path);
    var delimiter := LastOccurrence(normalized, "/");
    if delimiter.None? {
      parent := "";
    } else {
      parent := normalized[..delimiter.value];
    }
    ParentOfCleanIsClean(normalized);
  }

  lemma ParentOfCleanIsClean(n: string)
    requires Clean(n)
    ensures Clean(ParentOf(n))
  {
    if n != [] {
      ParentLeafSegments(n);
      var segs := Segments(n);
      var parents := segs[..|segs| - 1];
      assert Segments(ParentOf(n)) == parents;
      SegmentsAreNames(n);
      assert Names(parents);
      JoinClean(parents);
      var parent := ParentOf(n);
      ParentLeafSplit(n);
      if '/' in n {
        ParentPrefixClean(n, parent);
      }
    }
  }

  lemma ParentPrefixClean(n: string, parent: string)
    requires Clean(n) && '/' in n && parent == ParentOf(n)
    ensures Clean(parent)
  {
    ParentLeafSplit(n);
    var leaf := LeafOf(n);
    assert n == parent + "/" + leaf;
    assert n[..|parent|] == parent;
    if parent != [] {
      assert !OccursAt(n, "//", |parent| - 1);
      assert n[|parent| - 1..|parent| + 1] == [parent[|parent| - 1], '/'];
    }
    forall i: nat | i <= |parent| ensures !OccursAt(parent, "//", i) {
      if i + 2 <= |parent| {
        assert parent[i..i + 2] == n[i..i + 2];
      }
      assert !OccursAt(n, "//", i);
    }
  }

  /** LeafBrowserName: the normalised path after its last separator. */
  method LeafBrowserName(path: string) returns (leaf: string)
    ensures leaf == LeafOf(Normalized(path))
    ensures '/' !in leaf
  {
    var normalized := NormalizeBrowserPath(path);
    var delimiter := LastOccurrence(normalized, "/");
    if delimiter.None? {
      leaf := normalized;
    } else {
      leaf := normalized[delimiter.value + 1..];
    }
  }

  /** FolderContainsAsset: the root holds everything, a folder itself and whatever lies under "folder/". */
  predicate FolderContainsAsset(folder: string, assetFolder: string) {
    folder == [] || assetFolder == folder || StartsWith(assetFolder, folder + "/")
  }

  /** The test is a prefix test on segments, both ways for clean paths. */
  lemma FolderContainsSegments(folder: string, assetFolder: string)
    ensures FolderContainsAsset(folder, assetFolder) ==> Segments(folder) <= Segments(assetFolder)
    ensures Clean(folder) && Clean(assetFolder) && Segments(folder) <= Segments(assetFolder) ==>
              FolderContainsAsset(folder, assetFolder)
  {
    if folder != [] && assetFolder != folder && StartsWith(assetFolder, folder + "/") {
      var y := assetFolder[|folder| + 1..];
      assert assetFolder == folder + "/" + y;
      PiecesSplit(folder, y);
      NonEmptyAppend(Pieces(folder), Pieces(y));
    }
    if Clean(folder) && Clean(assetFolder) && Segments(folder) <= Segments(assetFolder) && folder != [] {
      PrefixSegmentsContain(folder, assetFolder);
    }
  }

  lemma PrefixSegmentsContain(folder: string, assetFolder: string)
    requires Clean(folder) && Clean(assetFolder) && folder != []
    requires Segments(folder) <= Segments(assetFolder)
    ensures assetFolder == folder || StartsWith(assetFolder, folder + "/")
  {
    var f := Segments(folder);
    var a := Segments(assetFolder);
    CleanPiecesNonEmpty(folder);
    NonEmptyOfNonEmpty(Pieces(folder));
    CleanIsJoin(folder);
    CleanIsJoin(assetFolder);
    assert f != [];
    if |a| > |f| {
      var rest := a[|f|..];
      assert a == f + rest;
      JoinAppend(f, rest);
      assert assetFolder == folder + "/" + Join(rest);
      assert assetFolder[..|folder + "/"|] == folder + "/";
    } else {
      assert a == f;
    }
  }
}
