/**
 * Character and string helpers shared by several files of the framework:
 * the C-locale isspace/tolower tests, the two-loop TrimCopy of
 * include/AssetRef.h and src/UIPropertyPanel.cpp, the case-insensitive
 * comparison of src/UIPropertyPanel.cpp and src/GameRuntime.cpp, and the
 * lexicographic std::string ordering that the std::sort calls of the
 * editor and of AssetRef compare with.
 */
module Text {
  import opened Common

  /** std::isspace in the "C" locale: space, \t, \n, \v, \f and \r. */
  predicate IsSpace(c: char) {
    c == ' ' || '\t' <= c <= '\r'
  }

  predicate IsUpper(c: char) {
    'A' <= c <= 'Z'
  }

  predicate IsLower(c: char) {
    'a' <= c <= 'z'
  }

  predicate IsDigit(c: char) {
    '0' <= c <= '9'
  }

  /** std::tolower in the "C" locale: only A-Z change. */
  function ToLower(c: char): (r: char)
    ensures IsUpper(c) ==> r as int == c as int + 32 && IsLower(r)
    ensures !IsUpper(c) ==> r == c
  {
    if IsUpper(c) then (c as int + 32) as char else c
  }

  /** ToLowerCopy: tolower applied to every character. */
  function LowerCopy(s: string): (r: string)
    ensures |r| == |s| && forall k :: 0 <= k < |s| ==> r[k] == ToLower(s[k])
  {
    if s == [] then [] else [ToLower(s[0])] + LowerCopy(s[1..])
  }

  /** The first index of `s` that is not whitespace (|s| when there is none). */
  function TrimBegin(s: string): (b: nat)
    ensures b <= |s|
    ensures forall k :: 0 <= k < b ==> IsSpace(s[k])
    ensures b < |s| ==> !IsSpace(s[b])
  {
    if s == [] || !IsSpace(s[0]) then 0 else 1 + TrimBegin(s[1..])
  }

  /** One past the last index at or after `b` that is not whitespace (`b` when there is none). */
  function TrimEnd(s: string, b: nat): (e: nat)
    requires b <= |s|
    ensures b <= e <= |s|
    ensures forall k :: e <= k < |s| ==> IsSpace(s[k])
    ensures e > b ==> !IsSpace(s[e - 1])
  {
    if |s| == b || !IsSpace(s[|s| - 1]) then |s| else TrimEnd(s[..|s| - 1], b)
  }

  /** The text with leading and trailing whitespace removed. */
  function Trimmed(s: string): (r: string)
  {
    s[TrimBegin(s)..TrimEnd(s, TrimBegin(s))]
  }

  /**
   * The trimmed text is a contiguous slice with only whitespace cut on each
   * side, and neither its first nor its last character is whitespace.
   */
  lemma TrimmedShape(s: string)
    ensures Trimmed(s) == s[TrimBegin(s)..TrimEnd(s, TrimBegin(s))]
    ensures Trimmed(s) != [] ==> !IsSpace(Trimmed(s)[0]) && !IsSpace(Trimmed(s)[|Trimmed(s)| - 1])
    ensures (forall k :: 0 <= k < |s| ==> IsSpace(s[k])) ==> Trimmed(s) == []
  {
    var b := TrimBegin(s);
    var e := TrimEnd(s, b);
    if b < e {
      assert Trimmed(s)[0] == s[b];
      assert Trimmed(s)[|Trimmed(s)| - 1] == s[e - 1];
    }
  }

  /** TrimCopy is idempotent. */
  lemma {:induction false} TrimmedIdempotent(s: string)
    ensures Trimmed(Trimmed(s)) == Trimmed(s)
  {
    var t := Trimmed(s);
    TrimmedShape(s);
    if t == [] {
    } else {
      assert TrimBegin(t) == 0;
      assert TrimEnd(t, 0) == |t|;
      assert t[0..|t|] == t;
    }
  }

  /** TrimCopy: skip whitespace from the front, then from the back, and copy what lies between. */
  method TrimCopy(s: string) returns (r: string)
    ensures r == Trimmed(s)
  {
    var begin := 0;
    while begin < |s| && IsSpace(s[begin])
      invariant 0 <= begin <= |s|
      invariant forall k :: 0 <= k < begin ==> IsSpace(s[k])
    {
      begin := begin + 1;
    }
    assert begin == TrimBegin(s);
    var end := |s|;
    while end > begin && IsSpace(s[end - 1])
      invariant begin <= end <= |s|
      invariant forall k :: end <= k < |s| ==> IsSpace(s[k])
    {
      end := end - 1;
    }
    assert end == TrimEnd(s, begin);
    r := s[begin..end];
  }

  /** Equal length and equal after tolower, character by character. */
  predicate SameIgnoringCase(a: string, b: string) {
    |a| == |b| && forall k :: 0 <= k < |a| ==> ToLower(a[k]) == ToLower(b[k])
  }

  /** Comparing ignoring case is comparing the lower-cased copies. */
  lemma SameIgnoringCaseLower(a: string, b: string)
    ensures SameIgnoringCase(a, b) <==> LowerCopy(a) == LowerCopy(b)
  {
    if LowerCopy(a) == LowerCopy(b) {
      forall k | 0 <= k < |a|
        ensures ToLower(a[k]) == ToLower(b[k])
      {
        assert LowerCopy(a)[k] == LowerCopy(b)[k];
      }
    }
  }

  /** `s` equals one of `words` ignoring ASCII case. */
  predicate MatchesAnyIgnoringCase(s: string, words: seq<string>) {
    exists k :: 0 <= k < |words| && SameIgnoringCase(s, words[k])
  }

  /** EqualsIgnoreCase: a length check, then one tolower comparison per index. */
  method EqualsIgnoreCase(a: string, b: string) returns (equal: bool)
    ensures equal <==> SameIgnoringCase(a, b)
    ensures equal <==> LowerCopy(a) == LowerCopy(b)
  {
    if |a| != |b| {
      return false;
    }
    var i := 0;
    while i < |a|
      invariant 0 <= i <= |a|
      invariant forall k :: 0 <= k < i ==> ToLower(a[k]) == ToLower(b[k])
    {
      if ToLower(a[i]) != ToLower(b[i]) {
        assert LowerCopy(a)[i] != LowerCopy(b)[i];
        return false;
      }
      i := i + 1;
    }
    assert LowerCopy(a) == LowerCopy(b);
    return true;
  }

  /** `p` is a prefix of `s` (std::string::rfind(p, 0) == 0, or compare on the first |p| characters). */
  predicate StartsWith(s: string, p: string) {
    |p| <= |s| && s[..|p|] == p
  }

  /** `p` occurs in `s` starting at index `i`. */
  predicate OccursAt(s: string, p: string, i: nat) {
    i + |p| <= |s| && s[i..i + |p|] == p
  }

  /** `p` occurs somewhere in `s` (std::string::find(p) != npos). */
  predicate Contains(s: string, p: string) {
    exists i: nat :: i <= |s| && OccursAt(s, p, i)
  }

  /** std::string::find(p): where the first occurrence of `p` in `s` starts, none when there is none. */
  function FirstOccurrence(s: string, p: string): (r: Option<nat>)
    ensures r.Some? ==> r.value <= |s| && OccursAt(s, p, r.value) && forall j :: 0 <= j < r.value ==> !OccursAt(s, p, j)
    ensures r.None? ==> forall j :: 0 <= j <= |s| ==> !OccursAt(s, p, j)
  {
    FirstOccurrenceFrom(s, p, 0)
  }

  function FirstOccurrenceFrom(s: string, p: string, i: nat): (r: Option<nat>)
    requires i <= |s|
    ensures r.Some? ==> i <= r.value <= |s| && OccursAt(s, p, r.value) && forall j :: i <= j < r.value ==> !OccursAt(s, p, j)
    ensures r.None? ==> forall j :: i <= j <= |s| ==> !OccursAt(s, p, j)
    decreases |s| - i
  {
    if OccursAt(s, p, i) then Some(i)
    else if i == |s| then None
    else FirstOccurrenceFrom(s, p, i + 1)
  }

  /** std::string::rfind(p): where the last occurrence of `p` in `s` starts, none when there is none. */
  function LastOccurrence(s: string, p: string): (r: Option<nat>)
    ensures r.Some? ==> OccursAt(s, p, r.value) && forall j :: r.value < j <= |s| ==> !OccursAt(s, p, j)
    ensures r.None? ==> forall j :: 0 <= j <= |s| ==> !OccursAt(s, p, j)
  {
    LastOccurrenceAtOrBelow(s, p, |s|)
  }

  function LastOccurrenceAtOrBelow(s: string, p: string, i: nat): (r: Option<nat>)
    requires i <= |s|
    ensures r.Some? ==> r.value <= i && OccursAt(s, p, r.value) && forall j :: r.value < j <= i ==> !OccursAt(s, p, j)
    ensures r.None? ==> forall j :: 0 <= j <= i ==> !OccursAt(s, p, j)
  {
    if OccursAt(s, p, i) then Some(i)
    else if i == 0 then None
    else LastOccurrenceAtOrBelow(s, p, i - 1)
  }

  /**
   * The text after the last occurrence of `sep`, or all of `s` when `sep`
   * does not occur (the rfind-and-substr idiom of ShortTypeLabel and of
   * the enum short names).
   */
  function AfterLast(s: string, sep: string): (r: string)
    ensures LastOccurrence(s, sep).None? ==> r == s
    ensures LastOccurrence(s, sep).Some? ==> s == s[..LastOccurrence(s, sep).value] + sep + r
  {
    match LastOccurrence(s, sep)
    case None => s
    case Some(d) =>
      assert s == s[..d] + s[d..d + |sep|] + s[d + |sep|..];
      s[d + |sep|..]
  }

  /** What follows the last separator holds no separator. */
  lemma AfterLastHasNoSeparator(s: string, sep: string)
    requires |sep| > 0
    ensures !Contains(AfterLast(s, sep), sep)
  {
    var r := AfterLast(s, sep);
    if Contains(r, sep) {
      var j: nat :| j <= |r| && OccursAt(r, sep, j);
      match LastOccurrence(s, sep)
      case None =>
      case Some(d) =>
        assert s[d + |sep| + j..d + |sep| + j + |sep|] == r[j..j + |sep|];
        assert OccursAt(s, sep, d + |sep| + j);
    }
  }

  predicate AllDigits(s: string) {
    forall k :: 0 <= k < |s| ==> IsDigit(s[k])
  }

  /** The value of a run of decimal digits, most significant first. */
  function DecimalValue(s: string): (r: nat)
    requires AllDigits(s)
  {
    if s == [] then 0 else DecimalValue(s[..|s| - 1]) * 10 + (s[|s| - 1] as int - '0' as int)
  }

  /** The shortest decimal text of a number. */
  function DecimalText(n: nat): (r: string)
    ensures |r| > 0 && AllDigits(r)
  {
    if n < 10 then [(('0' as int) + n) as char] else DecimalText(n / 10) + [(('0' as int) + n % 10) as char]
  }

  lemma {:induction false} DecimalTextValue(n: nat)
    ensures DecimalValue(DecimalText(n)) == n
  {
    if n >= 10 {
      DecimalTextValue(n / 10);
      var s := DecimalText(n);
      assert s[..|s| - 1] == DecimalText(n / 10);
    }
  }

  /** Text without whitespace at either end is its own trimmed form. */
  lemma TrimmedNoSpaceEnds(s: string)
    requires s != [] && !IsSpace(s[0]) && !IsSpace(s[|s| - 1])
    ensures Trimmed(s) == s
  {
    assert TrimBegin(s) == 0;
    assert TrimEnd(s, 0) == |s|;
    assert s[0..|s|] == s;
  }

  /** std::string operator<: lexicographic by character code, a proper prefix first. */
  predicate StrLess(a: string, b: string) {
    if a == [] then b != []
    else if b == [] then false
    else if a[0] != b[0] then a[0] < b[0]
    else StrLess(a[1..], b[1..])
  }

  lemma {:induction false} StrLessIrreflexive(a: string)
    ensures !StrLess(a, a)
  {
    if a != [] {
      StrLessIrreflexive(a[1..]);
    }
  }

  lemma {:induction false} StrLessTransitive(a: string, b: string, c: string)
    requires StrLess(a, b) && StrLess(b, c)
    ensures StrLess(a, c)
  {
    if a != [] && b != [] && c != [] && a[0] == b[0] && b[0] == c[0] {
      StrLessTransitive(a[1..], b[1..], c[1..]);
    }
  }

  lemma {:induction false} StrLessTotal(a: string, b: string)
    ensures a == b || StrLess(a, b) || StrLess(b, a)
    ensures !(StrLess(a, b) && StrLess(b, a))
  {
    if a != [] && b != [] && a[0] == b[0] {
      StrLessTotal(a[1..], b[1..]);
      if a[1..] == b[1..] {
        assert a == [a[0]] + a[1..] && b == [b[0]] + b[1..];
      }
    }
  }

  /**
   * What std::sort demands of its comparator: a strict weak ordering
   * (irreflexive, transitive, and "a < b" puts every c above a or below b).
   */
  ghost predicate StrictWeakOrder<T(!new)>(less: (T, T) -> bool) {
    && (forall a :: !less(a, a))
    && (forall a, b, c :: less(a, b) && less(b, c) ==> less(a, c))
    && (forall a, b, c :: less(a, b) ==> less(a, c) || less(c, b))
  }

  /** Ascending: no later element is below an earlier one. */
  ghost predicate SortedBy<T>(s: seq<T>, less: (T, T) -> bool) {
    forall i, j :: 0 <= i < j < |s| ==> !less(s[j], s[i])
  }

  /** Insert `x` before the first element above it. */
  function InsertBy<T>(x: T, s: seq<T>, less: (T, T) -> bool): (r: seq<T>)
  {
    if s == [] then [x]
    else if less(x, s[0]) then [x] + s
    else [s[0]] + InsertBy(x, s[1..], less)
  }

  /**
   * The comparison sort the std::sort calls stand for: elements neither
   * below nor above each other keep their input order, which std::sort
   * leaves unspecified.
   */
  function SortBy<T>(s: seq<T>, less: (T, T) -> bool): (r: seq<T>)
  {
    if s == [] then [] else InsertBy(s[|s| - 1], SortBy(s[..|s| - 1], less), less)
  }

  /** Where InsertBy puts `x`. */
  function InsertPos<T>(x: T, s: seq<T>, less: (T, T) -> bool): (p: nat)
    ensures p <= |s|
  {
    if s == [] || less(x, s[0]) then 0 else 1 + InsertPos(x, s[1..], less)
  }

  /** The insertion point is the first element above `x`. */
  lemma {:induction false} InsertPosFirstAbove<T>(x: T, s: seq<T>, less: (T, T) -> bool)
    ensures forall k :: 0 <= k < InsertPos(x, s, less) ==> !less(x, s[k])
    ensures InsertPos(x, s, less) < |s| ==> less(x, s[InsertPos(x, s, less)])
  {
    if s != [] && !less(x, s[0]) {
      InsertPosFirstAbove(x, s[1..], less);
      forall k | 1 <= k < InsertPos(x, s, less)
        ensures !less(x, s[k])
      {
        assert s[k] == s[1..][k - 1];
      }
    }
  }

  lemma {:induction false} InsertBySplit<T>(x: T, s: seq<T>, less: (T, T) -> bool)
    ensures InsertBy(x, s, less) == s[..InsertPos(x, s, less)] + [x] + s[InsertPos(x, s, less)..]
  {
    if s != [] && !less(x, s[0]) {
      InsertBySplit(x, s[1..], less);
      var p := InsertPos(x, s[1..], less);
      assert s[1..][..p] == s[1..p + 1];
      assert s[1..][p..] == s[p + 1..];
      assert [s[0]] + s[1..p + 1] == s[..p + 1];
    }
  }

  lemma InsertedAt<T>(s: seq<T>, p: nat, x: T, k: nat)
    requires p <= |s| && k <= |s|
    ensures (s[..p] + [x] + s[p..])[k] == if k < p then s[k] else if k == p then x else s[k - 1]
  {
  }

  lemma {:induction false} InsertByCorrect<T(!new)>(x: T, s: seq<T>, less: (T, T) -> bool)
    requires StrictWeakOrder(less) && SortedBy(s, less)
    ensures SortedBy(InsertBy(x, s, less), less)
    ensures multiset(InsertBy(x, s, less)) == multiset(s) + multiset{x}
  {
    var p := InsertPos(x, s, less);
    InsertBySplit(x, s, less);
    InsertedMultiset(x, s, p);
    InsertPosFirstAbove(x, s, less);
    InsertedSorted(x, s, p, less);
  }

  lemma InsertedMultiset<T>(x: T, s: seq<T>, p: nat)
    requires p <= |s|
    ensures multiset(s[..p] + [x] + s[p..]) == multiset(s) + multiset{x}
  {
    assert s == s[..p] + s[p..];
  }

  /** Inserting `x` at a position with nothing above it before and the first element above it after keeps a sorted list sorted. */
  lemma InsertedSorted<T(!new)>(x: T, s: seq<T>, p: nat, less: (T, T) -> bool)
    requires StrictWeakOrder(less) && SortedBy(s, less) && p <= |s|
    requires forall k :: 0 <= k < p ==> !less(x, s[k])
    requires p < |s| ==> less(x, s[p])
    ensures SortedBy(s[..p] + [x] + s[p..], less)
  {
    var r := s[..p] + [x] + s[p..];
    forall i, j | 0 <= i < j < |r|
      ensures !less(r[j], r[i])
    {
      InsertedAt(s, p, x, i);
      InsertedAt(s, p, x, j);
      if i == p && j - 1 > p {
        assert less(x, s[p]) && !less(s[j - 1], s[p]);
      }
    }
  }

  /** The sort yields an ascending permutation of its input. */
  lemma {:induction false} SortByCorrect<T(!new)>(s: seq<T>, less: (T, T) -> bool)
    requires StrictWeakOrder(less)
    ensures SortedBy(SortBy(s, less), less)
    ensures multiset(SortBy(s, less)) == multiset(s)
    ensures |SortBy(s, less)| == |s|
  {
    if s != [] {
      var p := s[..|s| - 1];
      SortByCorrect(p, less);
      InsertByCorrect(s[|s| - 1], SortBy(p, less), less);
      assert s == p + [s[|s| - 1]];
    }
    assert |multiset(SortBy(s, less))| == |multiset(s)|;
  }

  /** StrLess is a strict total order, so a strict weak ordering. */
  lemma StrLessWeakOrder()
    ensures StrictWeakOrder(StrLess)
  {
    forall a ensures !StrLess(a, a) {
      StrLessIrreflexive(a);
    }
    forall a, b, c | StrLess(a, b) && StrLess(b, c) ensures StrLess(a, c) {
      StrLessTransitive(a, b, c);
    }
    forall a, b, c | StrLess(a, b) ensures StrLess(a, c) || StrLess(c, b) {
      StrLessTotal(a, c);
      StrLessTotal(c, b);
      if StrLess(c, a) {
        StrLessTransitive(c, a, b);
      }
    }
  }
}
