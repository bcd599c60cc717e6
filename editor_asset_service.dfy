/**
 * The editor's asset service (src/Editor/EditorAssetService.cpp): the pack
 * search-path list read from the environment, the discovery pass that turns
 * the asset manager's listing into the sorted, de-duplicated asset list and
 * its key index, and the selection and placement keys that refer into it.
 * The asset manager itself (pack mounting, loading, cooking, writing) is not
 * part of this model: its listing is a parameter, its presence a flag, and
 * the outcome of the per-kind instantiation a parameter.
 */
module EditorAssets {
  import opened Common
  import opened Text

  // ---------------------------------------------------------------------
  // Pack search paths from the environment
  // ---------------------------------------------------------------------

  /** Both ';' and ':' separate search paths. */
  predicate IsSeparator(c: char) {
    c == ';' || c == ':'
  }

  predicate NoSeparator(t: string) {
    forall k :: 0 <= k < |t| ==> !IsSeparator(t[k])
  }

  /**
   * The fields of `s` between separators, empty ones included: a string
   * with n separators has n + 1 fields.
   */
  function Fields(s: string): (r: seq<string>)
    ensures |r| >= 1
    ensures forall k :: 0 <= k < |r| ==> NoSeparator(r[k])
  {
    if s == [] then [""]
    else
      var f := Fields(s[..|s| - 1]);
      var c := s[|s| - 1];
      if IsSeparator(c) then f + [""] else f[..|f| - 1] + [f[|f| - 1] + [c]]
  }

  /** The non-empty strings of `parts`, in order. */
  function DropEmpty(parts: seq<string>): (r: seq<string>)
    ensures forall k :: 0 <= k < |r| ==> r[k] != []
  {
    if parts == [] then []
    else DropEmpty(parts[..|parts| - 1]) + (if parts[|parts| - 1] == [] then [] else [parts[|parts| - 1]])
  }

  /** The search paths a raw environment value names. */
  function PackSearchPaths(raw: string): seq<string> {
    DropEmpty(Fields(raw))
  }

  /** `s` with every separator removed. */
  function WithoutSeparators(s: string): (r: string) {
    if s == [] then []
    else WithoutSeparators(s[..|s| - 1]) + (if IsSeparator(s[|s| - 1]) then [] else [s[|s| - 1]])
  }

  function Concat(parts: seq<string>): string {
    if parts == [] then [] else Concat(parts[..|parts| - 1]) + parts[|parts| - 1]
  }

  /** The paths joined with ';', the form the environment value takes. */
  function JoinPaths(parts: seq<string>): string {
    if |parts| <= 1 then (if parts == [] then [] else parts[0])
    else JoinPaths(parts[..|parts| - 1]) + ";" + parts[|parts| - 1]
  }

  /** A list of search paths the environment variable can express. */
  predicate PathTokens(parts: seq<string>) {
    forall k :: 0 <= k < |parts| ==> parts[k] != [] && NoSeparator(parts[k])
  }

  /** The loop of ParsePackSearchPathEnv: one token at a time, empty tokens skipped. */
  method ParsePackSearchPathEnv(raw: string) returns (paths: seq<string>)
    ensures paths == PackSearchPaths(raw)
    ensures PathTokens(paths)
  {
    paths := [];
    var token := "";
    ghost var closed: seq<string> := [];
    var i := 0;
    while i < |raw|
      invariant 0 <= i <= |raw|
      invariant Fields(raw[..i]) == closed + [token]
      invariant paths == DropEmpty(closed)
    {
      var c := raw[i];
      assert raw[..i + 1][..i] == raw[..i];
      assert (closed + [token])[..|closed|] == closed;
      if IsSeparator(c) {
        assert (closed + [token]) + [""] == (closed + [token]) + [""];
        if token != [] {
          paths := paths + [token];
        }
        closed := closed + [token];
        token := "";
      } else {
        token := token + [c];
      }
      i := i + 1;
    }
    assert raw[..i] == raw;
    assert (closed + [token])[..|closed|] == closed;
    if token != [] {
      paths := paths + [token];
    }
    PackSearchPathsAreTokens(raw);
  }

  lemma PackSearchPathsAreTokens(raw: string)
    ensures PathTokens(PackSearchPaths(raw))
  {
    DropEmptyKeepsTokens(Fields(raw));
  }

  lemma {:induction false} DropEmptyKeepsTokens(parts: seq<string>)
    requires forall k :: 0 <= k < |parts| ==> NoSeparator(parts[k])
    ensures PathTokens(DropEmpty(parts))
  {
    if parts != [] {
      DropEmptyKeepsTokens(parts[..|parts| - 1]);
    }
  }

  /** Empty strings add nothing to a concatenation. */
  lemma {:induction false} ConcatDropEmpty(parts: seq<string>)
    ensures Concat(DropEmpty(parts)) == Concat(parts)
  {
    if parts != [] {
      var p := parts[..|parts| - 1];
      ConcatDropEmpty(p);
      var d := DropEmpty(p);
      if parts[|parts| - 1] != [] {
        assert (d + [parts[|parts| - 1]])[..|d|] == d;
      } else {
        assert d + [] == d;
      }
    }
  }

  lemma {:induction false} ConcatFields(s: string)
    ensures Concat(Fields(s)) == WithoutSeparators(s)
  {
    if s != [] {
      var f := Fields(s[..|s| - 1]);
      ConcatFields(s[..|s| - 1]);
      var c := s[|s| - 1];
      if IsSeparator(c) {
        assert (f + [""])[..|f|] == f;
      } else {
        var g := f[..|f| - 1];
        assert (g + [f[|f| - 1] + [c]])[..|g|] == g;
        assert f == g + [f[|f| - 1]];
        assert f[..|f| - 1] == g;
      }
    }
  }

  /** Concatenating the tokens gives back the raw value without its separators. */
  lemma PackSearchPathsConcat(raw: string)
    ensures Concat(PackSearchPaths(raw)) == WithoutSeparators(raw)
  {
    ConcatDropEmpty(Fields(raw));
    ConcatFields(raw);
  }

  lemma {:induction false} FieldsOfToken(t: string)
    requires NoSeparator(t)
    ensures Fields(t) == [t]
  {
    if t != [] {
      FieldsOfToken(t[..|t| - 1]);
      assert t == t[..|t| - 1] + [t[|t| - 1]];
    }
  }

  /** One more character either opens a new field or extends the last one. */
  lemma FieldsSnoc(s: string, c: char)
    ensures Fields(s + [c]) == FieldStep(Fields(s), c)
  {
    assert (s + [c])[..|s|] == s;
    assert (s + [c])[|s|] == c;
  }

  /** The field step of FieldsSnoc, applied after a prefix of whole fields. */
  function FieldStep(f: seq<string>, c: char): seq<string>
    requires |f| >= 1
  {
    if IsSeparator(c) then f + [""] else f[..|f| - 1] + [f[|f| - 1] + [c]]
  }

  lemma FieldStepAppend(fa: seq<string>, fb: seq<string>, c: char)
    requires |fb| >= 1
    ensures FieldStep(fa + fb, c) == fa + FieldStep(fb, c)
  {
    var f := fa + fb;
    if !IsSeparator(c) {
      assert f[..|f| - 1] == fa + fb[..|fb| - 1];
    }
  }

  /** A separator splits the fields of the two sides. */
  lemma {:induction false} FieldsSplit(a: string, b: string)
    ensures Fields(a + ";" + b) == Fields(a) + Fields(b)
    decreases |b|
  {
    if b == [] {
      assert a + ";" + b == a + [';'];
      FieldsSnoc(a, ';');
    } else {
      var b', c := b[..|b| - 1], b[|b| - 1];
      FieldsSplit(a, b');
      assert b == b' + [c];
      assert a + ";" + b == (a + ";" + b') + [c];
      FieldsSnoc(a + ";" + b', c);
      FieldsSnoc(b', c);
      FieldStepAppend(Fields(a), Fields(b'), c);
    }
  }

  lemma {:induction false} FieldsJoin(parts: seq<string>)
    requires |parts| >= 1 && PathTokens(parts)
    ensures Fields(JoinPaths(parts)) == parts
  {
    if |parts| == 1 {
      FieldsOfToken(parts[0]);
    } else {
      var p, last := parts[..|parts| - 1], parts[|parts| - 1];
      var jp := JoinPaths(p);
      calc {
        Fields(JoinPaths(parts));
      == { assert JoinPaths(parts) == jp + ";" + last; }
        Fields(jp + ";" + last);
      == { FieldsSplit(jp, last); }
        Fields(jp) + Fields(last);
      == { assert PathTokens(p); FieldsJoin(p); FieldsOfToken(last); }
        p + [last];
      == { assert parts == p + [last]; }
        parts;
      }
    }
  }

  lemma {:induction false} DropEmptyOfTokens(parts: seq<string>)
    requires PathTokens(parts)
    ensures DropEmpty(parts) == parts
  {
    if parts != [] {
      DropEmptyOfTokens(parts[..|parts| - 1]);
      assert parts == parts[..|parts| - 1] + [parts[|parts| - 1]];
    }
  }

  /** Parsing a ';'-joined list of search paths returns exactly that list. */
  lemma PackSearchPathsJoin(parts: seq<string>)
    requires PathTokens(parts)
    ensures PackSearchPaths(JoinPaths(parts)) == parts
  {
    if parts != [] {
      FieldsJoin(parts);
      DropEmptyOfTokens(parts);
    }
  }

  // ---------------------------------------------------------------------
  // Asset kinds and discovered assets
  // ---------------------------------------------------------------------

  /** The asset kind type ids the service recognises, and every other kind. */
  datatype AssetKind = WorldKind | LevelKind | NodeGraphKind | OtherKind(id: TypeId)

  function AssetKindToLabel(kind: AssetKind): (r: string)
    ensures r == "Asset" <==> kind.OtherKind?
  {
    match kind
    case WorldKind => "World"
    case LevelKind => "Level"
    case NodeGraphKind => "NodeGraph"
    case OtherKind(_) => "Asset"
  }

  /** The label tells the three recognised kinds apart. */
  lemma AssetKindLabelDistinct(a: AssetKind, b: AssetKind)
    requires !a.OtherKind? && AssetKindToLabel(a) == AssetKindToLabel(b)
    ensures a == b
  {
  }

  /** One entry of the asset manager's listing; `key` is the asset id as text. */
  datatype AssetInfo = AssetInfo(key: string, name: string, kind: AssetKind, variant: string)

  /** One entry of the editor's asset list. */
  datatype DiscoveredAsset = DiscoveredAsset(key: string, name: string, typeLabel: string, variant: string, kind: AssetKind)

  /** The entry made from a listing item: an unnamed asset is named by its key. */
  function Discover(info: AssetInfo): (r: DiscoveredAsset)
    ensures r.key == info.key && r.variant == info.variant && r.kind == info.kind
    ensures r.typeLabel == AssetKindToLabel(info.kind)
    ensures r.name == (if info.name == [] then info.key else info.name)
    ensures r.name != [] || info.key == []
  {
    DiscoveredAsset(info.key, if info.name == [] then info.key else info.name, AssetKindToLabel(info.kind), info.variant, info.kind)
  }

  function InfoKeys(raw: seq<AssetInfo>): set<string> {
    set i | 0 <= i < |raw| :: raw[i].key
  }

  function AssetKeys(assets: seq<DiscoveredAsset>): set<string> {
    set i | 0 <= i < |assets| :: assets[i].key
  }

  predicate KeysDistinct(assets: seq<DiscoveredAsset>) {
    forall i, j :: 0 <= i < j < |assets| ==> assets[i].key != assets[j].key
  }

  /** Listing item `j` is the first one with its key. */
  predicate FirstWithKey(raw: seq<AssetInfo>, j: nat)
    requires j < |raw|
  {
    raw[j].key !in InfoKeys(raw[..j])
  }

  /** The discovery loop: listing order, the first item per key kept. */
  function FirstPerKey(raw: seq<AssetInfo>): seq<DiscoveredAsset> {
    if raw == [] then []
    else
      var p := raw[..|raw| - 1];
      if raw[|raw| - 1].key in InfoKeys(p) then FirstPerKey(p) else FirstPerKey(p) + [Discover(raw[|raw| - 1])]
  }

  /** One more listing item: kept when its key is new. */
  lemma FirstPerKeySnoc(p: seq<AssetInfo>, x: AssetInfo)
    ensures FirstPerKey(p + [x]) == if x.key in InfoKeys(p) then FirstPerKey(p) else FirstPerKey(p) + [Discover(x)]
    ensures InfoKeys(p + [x]) == InfoKeys(p) + {x.key}
  {
    var r := p + [x];
    assert r[..|p|] == p;
    assert r[|p|] == x;
    assert forall k :: 0 <= k < |p| ==> r[k] == p[k];
  }

  lemma AssetKeysSnoc(a: seq<DiscoveredAsset>, x: DiscoveredAsset)
    ensures AssetKeys(a + [x]) == AssetKeys(a) + {x.key}
  {
    var r := a + [x];
    assert r[|a|] == x;
    assert forall k :: 0 <= k < |a| ==> r[k] == a[k];
  }

  /** Listing item `j` before the last is first with its key in the whole listing iff it is in the listing without the last. */
  lemma FirstWithKeySnoc(p: seq<AssetInfo>, x: AssetInfo, j: nat)
    requires j < |p|
    ensures FirstWithKey(p + [x], j) == FirstWithKey(p, j)
    ensures (p + [x])[j] == p[j]
  {
    assert (p + [x])[..j] == p[..j];
  }

  /** There is one entry per key, and the listing's keys are exactly the entries' keys. */
  lemma {:induction false} FirstPerKeyKeys(raw: seq<AssetInfo>)
    ensures KeysDistinct(FirstPerKey(raw))
    ensures AssetKeys(FirstPerKey(raw)) == InfoKeys(raw)
  {
    if raw != [] {
      var p, last := raw[..|raw| - 1], raw[|raw| - 1];
      assert raw == p + [last];
      FirstPerKeyKeys(p);
      FirstPerKeySnoc(p, last);
      var fp := FirstPerKey(p);
      if last.key !in InfoKeys(p) {
        AssetKeysSnoc(fp, Discover(last));
        forall i | 0 <= i < |fp|
          ensures fp[i].key != last.key
        {
          assert fp[i].key in AssetKeys(fp);
        }
      }
    }
  }

  /** Every listing item that is first with its key has its entry. */
  lemma {:induction false} FirstPerKeyComplete(raw: seq<AssetInfo>)
    ensures forall j :: 0 <= j < |raw| && FirstWithKey(raw, j) ==> Discover(raw[j]) in FirstPerKey(raw)
  {
    if raw != [] {
      var n := |raw| - 1;
      var p, last := raw[..n], raw[n];
      assert raw == p + [last];
      FirstPerKeyComplete(p);
      FirstPerKeySnoc(p, last);
      forall j | 0 <= j < |raw| && FirstWithKey(raw, j)
        ensures Discover(raw[j]) in FirstPerKey(raw)
      {
        if j < n {
          FirstWithKeySnoc(p, last, j);
        } else {
          assert raw[..j] == p;
        }
      }
    }
  }

  /** `e` is the entry of a listing item that is first with its key. */
  ghost predicate FromFirstWithKey(raw: seq<AssetInfo>, e: DiscoveredAsset) {
    exists j :: 0 <= j < |raw| && FirstWithKey(raw, j) && e == Discover(raw[j])
  }

  /** Every entry is made from a listing item that is first with its key. */
  lemma {:induction false} FirstPerKeySound(raw: seq<AssetInfo>)
    ensures forall i :: 0 <= i < |FirstPerKey(raw)| ==> FromFirstWithKey(raw, FirstPerKey(raw)[i])
  {
    if raw != [] {
      var n := |raw| - 1;
      var p, last := raw[..n], raw[n];
      assert raw == p + [last];
      FirstPerKeySound(p);
      FirstPerKeySnoc(p, last);
      var fp := FirstPerKey(p);
      var r := FirstPerKey(raw);
      forall i | 0 <= i < |r|
        ensures FromFirstWithKey(raw, r[i])
      {
        if i < |fp| {
          assert r[i] == fp[i];
          assert FromFirstWithKey(p, fp[i]);
          var j :| 0 <= j < |p| && FirstWithKey(p, j) && fp[i] == Discover(p[j]);
          FirstWithKeySnoc(p, last, j);
        } else {
          assert raw[..n] == p;
          assert FirstWithKey(raw, n) && r[i] == Discover(raw[n]);
        }
      }
    }
  }

  /** There is one entry per key, and it is made from the first listing item with that key. */
  lemma FirstPerKeyShape(raw: seq<AssetInfo>)
    ensures KeysDistinct(FirstPerKey(raw))
    ensures AssetKeys(FirstPerKey(raw)) == InfoKeys(raw)
    ensures forall j :: 0 <= j < |raw| && FirstWithKey(raw, j) ==> Discover(raw[j]) in FirstPerKey(raw)
    ensures forall i :: 0 <= i < |FirstPerKey(raw)| ==> FromFirstWithKey(raw, FirstPerKey(raw)[i])
  {
    FirstPerKeyKeys(raw);
    FirstPerKeyComplete(raw);
    FirstPerKeySound(raw);
  }

  // ---------------------------------------------------------------------
  // Discovery order
  // ---------------------------------------------------------------------

  /** The discovery sort: by name, then type label, then variant, then key. */
  predicate AssetLess(a: DiscoveredAsset, b: DiscoveredAsset) {
    if a.name != b.name then StrLess(a.name, b.name)
    else if a.typeLabel != b.typeLabel then StrLess(a.typeLabel, b.typeLabel)
    else if a.variant != b.variant then StrLess(a.variant, b.variant)
    else StrLess(a.key, b.key)
  }

  /** Fields the comparator looks at; assets that agree on them compare equal. */
  predicate SameSortKey(a: DiscoveredAsset, b: DiscoveredAsset) {
    a.name == b.name && a.typeLabel == b.typeLabel && a.variant == b.variant && a.key == b.key
  }

  lemma AssetLessTotal(a: DiscoveredAsset, b: DiscoveredAsset)
    ensures AssetLess(a, b) || AssetLess(b, a) || SameSortKey(a, b)
    ensures !(AssetLess(a, b) && AssetLess(b, a))
  {
    StrLessTotal(a.name, b.name);
    StrLessTotal(a.typeLabel, b.typeLabel);
    StrLessTotal(a.variant, b.variant);
    StrLessTotal(a.key, b.key);
  }

  lemma AssetLessTransitive(a: DiscoveredAsset, b: DiscoveredAsset, c: DiscoveredAsset)
    requires AssetLess(a, b) && AssetLess(b, c)
    ensures AssetLess(a, c)
  {
    AssetLessTotal(a, c);
    if AssetLess(c, a) || SameSortKey(a, c) {
      if a.name != b.name {
        if b.name != c.name {
          StrLessTransitive(a.name, b.name, c.name);
        }
        StrLessTransitive(a.name, b.name, a.name);
        StrLessIrreflexive(a.name);
      } else if b.name != c.name {
        StrLessTransitive(b.name, c.name, b.name);
        StrLessIrreflexive(b.name);
      } else if a.typeLabel != b.typeLabel {
        if b.typeLabel != c.typeLabel {
          StrLessTransitive(a.typeLabel, b.typeLabel, c.typeLabel);
        }
        StrLessTransitive(a.typeLabel, b.typeLabel, a.typeLabel);
        StrLessIrreflexive(a.typeLabel);
      } else if b.typeLabel != c.typeLabel {
        StrLessTransitive(b.typeLabel, c.typeLabel, b.typeLabel);
        StrLessIrreflexive(b.typeLabel);
      } else if a.variant != b.variant {
        if b.variant != c.variant {
          StrLessTransitive(a.variant, b.variant, c.variant);
        }
        StrLessTransitive(a.variant, b.variant, a.variant);
        StrLessIrreflexive(a.variant);
      } else if b.variant != c.variant {
        StrLessTransitive(b.variant, c.variant, b.variant);
        StrLessIrreflexive(b.variant);
      } else {
        StrLessTransitive(a.key, b.key, c.key);
        StrLessTransitive(a.key, b.key, a.key);
        StrLessIrreflexive(a.key);
      }
    }
  }

  lemma AssetLessWeakOrder()
    ensures StrictWeakOrder(AssetLess)
  {
    forall a: DiscoveredAsset ensures !AssetLess(a, a) {
      StrLessIrreflexive(a.key);
    }
    forall a: DiscoveredAsset, b: DiscoveredAsset, c: DiscoveredAsset | AssetLess(a, b) && AssetLess(b, c)
      ensures AssetLess(a, c)
    {
      AssetLessTransitive(a, b, c);
    }
    forall a: DiscoveredAsset, b: DiscoveredAsset, c: DiscoveredAsset | AssetLess(a, b)
      ensures AssetLess(a, c) || AssetLess(c, b)
    {
      AssetLessTotal(a, c);
      if AssetLess(c, a) {
        AssetLessTransitive(c, a, b);
      }
    }
  }

  /** The asset list a discovery pass over `raw` produces. */
  function Discovered(raw: seq<AssetInfo>): seq<DiscoveredAsset> {
    SortBy(FirstPerKey(raw), AssetLess)
  }

  /** A permutation keeps the keys and their distinctness. */
  lemma {:induction false} PermutationKeys(s: seq<DiscoveredAsset>, t: seq<DiscoveredAsset>)
    requires multiset(s) == multiset(t) && KeysDistinct(s)
    ensures KeysDistinct(t) && AssetKeys(t) == AssetKeys(s)
  {
    forall i | 0 <= i < |t| ensures t[i] in s {
      assert t[i] in multiset(t);
    }
    forall i | 0 <= i < |s| ensures s[i] in t {
      assert s[i] in multiset(s);
    }
    forall i, j | 0 <= i < j < |t|
      ensures t[i].key != t[j].key
    {
      DistinctKeysOnce(s, t[i]);
      CountOnceDistinct(t, i, j);
      var p :| 0 <= p < |s| && s[p] == t[i];
      var q :| 0 <= q < |s| && s[q] == t[j];
      if p < q {
        assert s[p].key != s[q].key;
      } else {
        assert s[q].key != s[p].key;
      }
    }
    forall x | x in AssetKeys(t) ensures x in AssetKeys(s) {
      var i :| 0 <= i < |t| && t[i].key == x;
      var p :| 0 <= p < |s| && s[p] == t[i];
    }
    forall x | x in AssetKeys(s) ensures x in AssetKeys(t) {
      var i :| 0 <= i < |s| && s[i].key == x;
      var p :| 0 <= p < |t| && t[p] == s[i];
    }
  }

  /** An element counted once occurs at one position only. */
  lemma CountOnceDistinct<T>(t: seq<T>, i: nat, j: nat)
    requires i < j < |t| && multiset(t)[t[i]] <= 1
    ensures t[i] != t[j]
  {
    assert t == t[..j] + t[j..];
    assert t[i] in t[..j];
    assert t[j] in t[j..];
  }

  /** With distinct keys no asset occurs twice. */
  lemma DistinctKeysOnce(s: seq<DiscoveredAsset>, x: DiscoveredAsset)
    requires KeysDistinct(s)
    ensures multiset(s)[x] <= 1
  {
    if x in multiset(s) {
      var p := IndexOf(s, x);
      var rest := s[p + 1..];
      assert s == s[..p] + [x] + rest;
      assert multiset(s[..p])[x] == 0;
      forall q | 0 <= q < |rest|
        ensures rest[q] != x
      {
        assert rest[q] == s[p + 1 + q];
        assert s[p].key != s[p + 1 + q].key;
      }
      assert x !in rest;
    }
  }

  /** The discovered list is sorted, holds exactly the de-duplicated entries, and has one entry per key. */
  lemma DiscoveredShape(raw: seq<AssetInfo>)
    ensures SortedBy(Discovered(raw), AssetLess)
    ensures multiset(Discovered(raw)) == multiset(FirstPerKey(raw))
    ensures KeysDistinct(Discovered(raw))
    ensures AssetKeys(Discovered(raw)) == InfoKeys(raw)
  {
    AssetLessWeakOrder();
    SortByCorrect(FirstPerKey(raw), AssetLess);
    FirstPerKeyShape(raw);
    PermutationKeys(FirstPerKey(raw), Discovered(raw));
  }

  // ---------------------------------------------------------------------
  // The key index
  // ---------------------------------------------------------------------

  /** `index` maps every key of `assets` to its position, and nothing else. */
  predicate IndexMatches(assets: seq<DiscoveredAsset>, index: map<string, nat>) {
    && index.Keys == AssetKeys(assets)
    && (forall i :: 0 <= i < |assets| ==> index[assets[i].key] == i)
    && (forall key :: key in index ==> index[key] < |assets| && assets[index[key]].key == key)
  }

  /** The index loop: each key maps to the last position holding it. */
  method BuildKeyIndex(assets: seq<DiscoveredAsset>) returns (index: map<string, nat>)
    ensures index.Keys == AssetKeys(assets)
    ensures forall key :: key in index ==> index[key] < |assets| && assets[index[key]].key == key
    ensures forall key, k :: key in index && index[key] < k < |assets| ==> assets[k].key != key
  {
    index := map[];
    var i := 0;
    while i < |assets|
      invariant 0 <= i <= |assets|
      invariant index.Keys == AssetKeys(assets[..i])
      invariant forall key :: key in index ==> index[key] < i && assets[index[key]].key == key
      invariant forall key, k :: key in index && index[key] < k < i ==> assets[k].key != key
    {
      IndexStep(assets, i, index);
      index := index[assets[i].key := i];
      i := i + 1;
    }
    assert assets[..i] == assets;
  }

  /** One turn of the index loop keeps its invariants. */
  lemma IndexStep(assets: seq<DiscoveredAsset>, i: nat, index: map<string, nat>)
    requires i < |assets|
    requires index.Keys == AssetKeys(assets[..i])
    requires forall key :: key in index ==> index[key] < i && assets[index[key]].key == key
    requires forall key, k :: key in index && index[key] < k < i ==> assets[k].key != key
    ensures var index' := index[assets[i].key := i];
      && index'.Keys == AssetKeys(assets[..i + 1])
      && (forall key :: key in index' ==> index'[key] < i + 1 && assets[index'[key]].key == key)
      && (forall key, k :: key in index' && index'[key] < k < i + 1 ==> assets[k].key != key)
  {
    assert assets[..i + 1] == assets[..i] + [assets[i]];
    AssetKeysSnoc(assets[..i], assets[i]);
  }

  /** With distinct keys the last position of a key is its only one. */
  lemma IndexOfDistinct(assets: seq<DiscoveredAsset>, index: map<string, nat>)
    requires KeysDistinct(assets)
    requires index.Keys == AssetKeys(assets)
    requires forall key :: key in index ==> index[key] < |assets| && assets[index[key]].key == key
    ensures IndexMatches(assets, index)
  {
    forall i | 0 <= i < |assets|
      ensures index[assets[i].key] == i
    {
      assert assets[i].key in AssetKeys(assets);
      var j := index[assets[i].key];
      assert assets[j].key == assets[i].key;
    }
  }

  // ---------------------------------------------------------------------
  // The service
  // ---------------------------------------------------------------------

  class AssetService {
    /** Whether the asset manager exists (it is created by Initialize and destroyed by Shutdown). */
    var managerReady: bool
    var assets: seq<DiscoveredAsset>
    var assetIndexByKey: map<string, nat>
    var selectedAssetKey: string
    var placementAssetKey: string

    /** The index matches the list, and a non-empty selection or placement key names a listed asset. */
    predicate Valid()
      reads this
    {
      && IndexMatches(assets, assetIndexByKey)
      && (selectedAssetKey == [] || selectedAssetKey in assetIndexByKey)
      && (placementAssetKey == [] || placementAssetKey in assetIndexByKey)
    }

    /** A service with no discovered assets and nothing selected or armed. */
    constructor(managerReady: bool)
      ensures Valid()
      ensures this.managerReady == managerReady
      ensures assets == [] && assetIndexByKey == map[]
      ensures selectedAssetKey == [] && placementAssetKey == []
    {
      this.managerReady := managerReady;
      assets := [];
      assetIndexByKey := map[];
      selectedAssetKey := [];
      placementAssetKey := [];
    }

    /** The position of the asset with that key; none when absent or when the index is stale. */
    function FindAssetByKey(key: string): (r: Option<nat>)
      reads this
      ensures r.Some? ==> r.value < |assets|
      ensures Valid() ==> (r.Some? <==> key in AssetKeys(assets))
      ensures Valid() && r.Some? ==> assets[r.value].key == key
    {
      if key in assetIndexByKey && assetIndexByKey[key] < |assets| then Some(assetIndexByKey[key]) else None
    }

    /** Select the asset with that key; false, with nothing changed, when there is none. */
    method SelectAssetByKey(key: string) returns (found: bool)
      requires Valid()
      modifies this`selectedAssetKey
      ensures Valid()
      ensures found <==> key in AssetKeys(assets)
      ensures selectedAssetKey == if found then key else old(selectedAssetKey)
    {
      var asset := FindAssetByKey(key);
      if asset.None? {
        return false;
      }
      selectedAssetKey := assets[asset.value].key;
      return true;
    }

    /** Arm placement of the asset with that key, selecting it too; NotFound when there is none. */
    method ArmPlacementByKey(key: string) returns (r: Outcome)
      requires Valid()
      modifies this`selectedAssetKey, this`placementAssetKey
      ensures Valid()
      ensures r == if key in AssetKeys(assets) then Done else Fail(NotFound)
      ensures selectedAssetKey == (if r == Done then key else old(selectedAssetKey))
      ensures placementAssetKey == (if r == Done then key else old(placementAssetKey))
    {
      var asset := FindAssetByKey(key);
      if asset.None? {
        return Fail(NotFound);
      }
      selectedAssetKey := assets[asset.value].key;
      placementAssetKey := assets[asset.value].key;
      return Done;
    }

    /**
     * Instantiate the asset with that key. The world, level and node graph
     * kinds hand over to their own instantiation, whose outcome is
     * `delegated`; other kinds are refused.
     */
    function InstantiateAssetByKey(key: string, delegated: Outcome): (r: Outcome)
      reads this
      ensures FindAssetByKey(key).None? ==> r == Fail(NotFound)
      ensures FindAssetByKey(key).Some? && !managerReady ==> r == Fail(NotReady)
      ensures r == Done ==> delegated == Done && key in assetIndexByKey
    {
      var asset := FindAssetByKey(key);
      if asset.None? then Fail(NotFound)
      else if !managerReady then Fail(NotReady)
      else if assets[asset.value].kind.OtherKind? then Fail(InvalidArgument)
      else delegated
    }

    /** Instantiate the armed asset; the placement key is cleared only when that succeeds. */
    method InstantiateArmedAsset(delegated: Outcome) returns (r: Outcome)
      requires Valid()
      modifies this`placementAssetKey
      ensures Valid()
      ensures old(placementAssetKey) == [] ==> r == Fail(NotReady)
      ensures old(placementAssetKey) != [] ==> r == InstantiateAssetByKey(old(placementAssetKey), delegated)
      ensures placementAssetKey == if r == Done then [] else old(placementAssetKey)
    {
      if placementAssetKey == [] {
        return Fail(NotReady);
      }
      var placementKey := placementAssetKey;
      r := InstantiateAssetByKey(placementKey, delegated);
      if r != Done {
        return r;
      }
      placementAssetKey := [];
    }

    /**
     * Rebuild the asset list from the asset manager's listing `raw`, sorted
     * and keyed; a selection or placement key whose asset disappeared is
     * cleared. NotReady, with nothing changed, without an asset manager.
     */
    method RefreshDiscovery(raw: seq<AssetInfo>) returns (r: Outcome)
      requires Valid()
      modifies this`assets, this`assetIndexByKey, this`selectedAssetKey, this`placementAssetKey
      ensures Valid()
      ensures r == if managerReady then Done else Fail(NotReady)
      ensures r == Done ==> assets == Discovered(raw) && AssetKeys(assets) == InfoKeys(raw)
      ensures r == Done ==> selectedAssetKey == (if old(selectedAssetKey) in InfoKeys(raw) then old(selectedAssetKey) else [])
      ensures r == Done ==> placementAssetKey == (if old(placementAssetKey) in InfoKeys(raw) then old(placementAssetKey) else [])
      ensures r != Done ==> assets == old(assets) && assetIndexByKey == old(assetIndexByKey)
      ensures r != Done ==> selectedAssetKey == old(selectedAssetKey) && placementAssetKey == old(placementAssetKey)
    {
      if !managerReady {
        return Fail(NotReady);
      }
      var nextAssets := DiscoverFirstPerKey(raw);
      DiscoveredShape(raw);
      assets := SortBy(nextAssets, AssetLess);
      assetIndexByKey := BuildKeyIndex(assets);
      IndexOfDistinct(assets, assetIndexByKey);
      if selectedAssetKey != [] && selectedAssetKey !in assetIndexByKey {
        selectedAssetKey := [];
      }
      if placementAssetKey != [] && placementAssetKey !in assetIndexByKey {
        placementAssetKey := [];
      }
      return Done;
    }
  }

  /** The listing loop of RefreshDiscovery, with its set of keys already seen. */
  method DiscoverFirstPerKey(raw: seq<AssetInfo>) returns (nextAssets: seq<DiscoveredAsset>)
    ensures nextAssets == FirstPerKey(raw)
  {
    nextAssets := [];
    var seenKeys: set<string> := {};
    var i := 0;
    while i < |raw|
      invariant 0 <= i <= |raw|
      invariant seenKeys == InfoKeys(raw[..i])
      invariant nextAssets == FirstPerKey(raw[..i])
    {
      var info := raw[i];
      assert raw[..i + 1] == raw[..i] + [info];
      FirstPerKeySnoc(raw[..i], info);
      if info.key !in seenKeys {
        nextAssets := nextAssets + [Discover(info)];
      }
      seenKeys := seenKeys + {info.key};
      i := i + 1;
    }
    assert raw[..i] == raw;
  }
}
