/**
 * TAssetRef of include/AssetRef.h: a reference to an asset by name and
 * id, with the tag's default name as fallback, its display label and the
 * sorted list of compatible catalog entries.
 *
 * The tag's default name (TNameTag::Value, or "" without one) is a value
 * fixed per reference type, given to the constructors. The asset
 * manager's catalog is a sequence of entries with the outcome of the
 * preview load and of the type check already decided.
 */
module AssetRefs {
  import opened Text

  /** The first 8 characters of an id, or the whole id when it is no longer. */
  function ShortAssetId(id: string): (r: string)
    ensures |r| == if |id| <= 8 then |id| else 8
    ensures StartsWith(id, r)
  {
    if |id| <= 8 then id else id[..8]
  }

  /** ResolvedAssetName: the stored name, else the default name. */
  function ResolvedName(name: string, defaultName: string): (r: string)
  {
    if name != "" then name else defaultName
  }

  /** DisplayLabel, over the stored name and id. */
  function Label(name: string, id: string, defaultName: string): (r: string)
  {
    var n := ResolvedName(name, defaultName);
    var i := Trimmed(id);
    if n != "" && i != "" then n + " [" + ShortAssetId(i) + "]"
    else if n != "" then n
    else i
  }

  /** IsNull, over the stored name and id. */
  predicate NullRef(name: string, id: string, defaultName: string) {
    name == "" && id == "" && defaultName == ""
  }

  /**
   * The label starts with the resolved name whenever there is one, and it
   * is the trimmed id otherwise; it is empty exactly when both are.
   */
  lemma LabelParts(name: string, id: string, defaultName: string)
    ensures ResolvedName(name, defaultName) != "" ==> StartsWith(Label(name, id, defaultName), ResolvedName(name, defaultName))
    ensures ResolvedName(name, defaultName) == "" ==> Label(name, id, defaultName) == Trimmed(id)
    ensures Label(name, id, defaultName) == "" <==> ResolvedName(name, defaultName) == "" && Trimmed(id) == ""
  {
    var n := ResolvedName(name, defaultName);
    var i := Trimmed(id);
    if n != "" && i != "" {
      assert (n + " [" + ShortAssetId(i) + "]")[..|n|] == n;
    }
  }

  /** A null reference resolves no name and shows an empty label; a non-null one shows something unless its id is only whitespace. */
  lemma NullRefLabel(name: string, id: string, defaultName: string)
    ensures NullRef(name, id, defaultName) ==> ResolvedName(name, defaultName) == "" && Label(name, id, defaultName) == ""
    ensures !NullRef(name, id, defaultName) && (ResolvedName(name, defaultName) != "" || Trimmed(id) != "") ==> Label(name, id, defaultName) != ""
  {
    LabelParts(name, id, defaultName);
    if id == "" {
      assert Trimmed(id) == "";
    }
  }

  /** An AssetRef's stored name and id. */
  class AssetRef {
    var assetName: string
    var assetId: string
    const defaultName: string

    /** TAssetRef(): the default name when the tag has one, and no id. */
    constructor (defaultName: string)
      ensures this.defaultName == defaultName && assetName == defaultName && assetId == ""
    {
      this.defaultName := defaultName;
      assetName := defaultName;
      assetId := "";
    }

    /** TAssetRef(name, id): the trimmed name and id replace the defaults. */
    constructor WithAsset(defaultName: string, name: string, id: string)
      ensures this.defaultName == defaultName && assetName == Trimmed(name) && assetId == Trimmed(id)
    {
      this.defaultName := defaultName;
      var n := TrimCopy(name);
      var i := TrimCopy(id);
      assetName, assetId := n, i;
    }

    /** SetAsset: stores the trimmed name and id. */
    method SetAsset(name: string, id: string)
      modifies this
      ensures assetName == Trimmed(name) && assetId == Trimmed(id)
    {
      var n := TrimCopy(name);
      var i := TrimCopy(id);
      assetName, assetId := n, i;
    }

    /** Clear: empties both; the reference is then null exactly when the tag has no default name. */
    method Clear()
      modifies this
      ensures assetName == "" && assetId == ""
      ensures IsNull() <==> defaultName == ""
      ensures ResolvedAssetName() == defaultName
    {
      assetName, assetId := "", "";
    }

    predicate IsNull()
      reads this
    {
      NullRef(assetName, assetId, defaultName)
    }

    function ResolvedAssetName(): (r: string)
      reads this
    {
      ResolvedName(assetName, defaultName)
    }

    function DisplayLabel(): (r: string)
      reads this
    {
      Label(assetName, assetId, defaultName)
    }
  }

  /** One catalog entry, with the preview load and the type check decided. */
  datatype CatalogInfo = CatalogInfo(name: string, idText: string, kind: string, loads: bool, compatible: bool)

  /** TEntry: the label shown, the name and the id text. */
  datatype Entry = Entry(labelText: string, name: string, assetId: string)

  /**
   * The catalog filter: for a node reference the asset must be of the node
   * kind, load as a node and pass the type check; otherwise it must load.
   */
  predicate Listed(info: CatalogInfo, nodeBase: bool, nodeKind: string) {
    if nodeBase then info.kind == nodeKind && info.loads && info.compatible else info.loads
  }

  /** The entry built for a listed asset: the name falls back to the id text. */
  function EntryFor(info: CatalogInfo): (e: Entry)
    ensures e.assetId == info.idText
    ensures e.name == if info.name == "" then info.idText else info.name
    ensures e.labelText == e.name + " [" + ShortAssetId(e.assetId) + "]"
  {
    var name := if info.name == "" then info.idText else info.name;
    Entry(name + " [" + ShortAssetId(info.idText) + "]", name, info.idText)
  }

  /** The entries of the listed assets, in catalog order. */
  function Collected(catalog: seq<CatalogInfo>, nodeBase: bool, nodeKind: string): (r: seq<Entry>)
  {
    if catalog == [] then []
    else
      var rest := Collected(catalog[..|catalog| - 1], nodeBase, nodeKind);
      var last := catalog[|catalog| - 1];
      if Listed(last, nodeBase, nodeKind) then rest + [EntryFor(last)] else rest
  }

  /** The std::sort comparator: by name, then by id text. */
  predicate EntryLess(a: Entry, b: Entry) {
    if a.name != b.name then StrLess(a.name, b.name) else StrLess(a.assetId, b.assetId)
  }

  lemma EntryLessWeakOrder()
    ensures StrictWeakOrder(EntryLess)
  {
    forall a: Entry ensures !EntryLess(a, a) {
      StrLessIrreflexive(a.assetId);
    }
    forall a: Entry, b: Entry, c: Entry | EntryLess(a, b) && EntryLess(b, c)
      ensures EntryLess(a, c)
    {
      StrLessTotal(a.name, b.name);
      StrLessTotal(b.name, c.name);
      StrLessTotal(a.name, c.name);
      if a.name != b.name && b.name != c.name {
        StrLessTransitive(a.name, b.name, c.name);
      }
      if a.name == b.name && b.name == c.name {
        StrLessTransitive(a.assetId, b.assetId, c.assetId);
      }
    }
    forall a: Entry, b: Entry, c: Entry | EntryLess(a, b)
      ensures EntryLess(a, c) || EntryLess(c, b)
    {
      StrLessTotal(a.name, c.name);
      StrLessTotal(c.name, b.name);
      StrLessTotal(a.assetId, c.assetId);
      StrLessTotal(c.assetId, b.assetId);
      if StrLess(c.name, a.name) && a.name != b.name {
        StrLessTransitive(c.name, a.name, b.name);
      }
      if StrLess(b.name, c.name) && a.name != b.name {
        StrLessTransitive(a.name, b.name, c.name);
      }
      if a.name == b.name && a.name == c.name && StrLess(c.assetId, a.assetId) {
        StrLessTransitive(c.assetId, a.assetId, b.assetId);
      }
    }
  }

  /**
   * EnumerateCompatibleAssets: one entry per listed catalog asset, built in
   * catalog order, then sorted by (name, id); each label is the name and
   * the first eight characters of the id in brackets.
   */
  method EnumerateCompatibleAssets(catalog: seq<CatalogInfo>, nodeBase: bool, nodeKind: string)
    returns (entries: seq<Entry>)
    ensures entries == SortBy(Collected(catalog, nodeBase, nodeKind), EntryLess)
    ensures SortedBy(entries, EntryLess)
    ensures multiset(entries) == multiset(Collected(catalog, nodeBase, nodeKind))
    ensures forall k :: 0 <= k < |entries| ==> entries[k].labelText == entries[k].name + " [" + ShortAssetId(entries[k].assetId) + "]"
  {
    var built := CollectEntries(catalog, nodeBase, nodeKind);
    EntryLessWeakOrder();
    SortByCorrect(built, EntryLess);
    entries := SortBy(built, EntryLess);
    CollectedLabels(catalog, nodeBase, nodeKind);
    SortedLabels(built, entries);
  }

  /** The building loop of EnumerateCompatibleAssets: one entry per listed asset, in catalog order. */
  method CollectEntries(catalog: seq<CatalogInfo>, nodeBase: bool, nodeKind: string) returns (built: seq<Entry>)
    ensures built == Collected(catalog, nodeBase, nodeKind)
  {
    built := [];
    var i := 0;
    while i < |catalog|
      invariant 0 <= i <= |catalog|
      invariant built == Collected(catalog[..i], nodeBase, nodeKind)
    {
      assert catalog[..i + 1][..i] == catalog[..i];
      if Listed(catalog[i], nodeBase, nodeKind) {
        built := built + [EntryFor(catalog[i])];
      }
      i := i + 1;
    }
    assert catalog[..|catalog|] == catalog;
  }

  /** Sorting keeps every entry's bracketed label. */
  lemma SortedLabels(built: seq<Entry>, entries: seq<Entry>)
    requires multiset(entries) == multiset(built)
    requires forall e :: e in built ==> e.labelText == e.name + " [" + ShortAssetId(e.assetId) + "]"
    ensures forall k :: 0 <= k < |entries| ==> entries[k].labelText == entries[k].name + " [" + ShortAssetId(entries[k].assetId) + "]"
  {
    forall k | 0 <= k < |entries|
      ensures entries[k].labelText == entries[k].name + " [" + ShortAssetId(entries[k].assetId) + "]"
    {
      assert entries[k] in multiset(built);
    }
  }

  /** Every collected entry comes from a listed catalog asset and carries the bracketed label. */
  lemma {:induction false} CollectedLabels(catalog: seq<CatalogInfo>, nodeBase: bool, nodeKind: string)
    ensures forall e :: e in Collected(catalog, nodeBase, nodeKind) ==>
              e.labelText == e.name + " [" + ShortAssetId(e.assetId) + "]"
    ensures forall e :: e in Collected(catalog, nodeBase, nodeKind) ==>
              exists k :: 0 <= k < |catalog| && Listed(catalog[k], nodeBase, nodeKind) && e == EntryFor(catalog[k])
    ensures |Collected(catalog, nodeBase, nodeKind)| <= |catalog|
  {
    if catalog != [] {
      var p := catalog[..|catalog| - 1];
      CollectedLabels(p, nodeBase, nodeKind);
      forall e | e in Collected(p, nodeBase, nodeKind)
        ensures exists k :: 0 <= k < |catalog| && Listed(catalog[k], nodeBase, nodeKind) && e == EntryFor(catalog[k])
      {
        var k :| 0 <= k < |p| && Listed(p[k], nodeBase, nodeKind) && e == EntryFor(p[k]);
        assert catalog[k] == p[k];
      }
    }
  }
}
