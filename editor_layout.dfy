/**
 * The editor layout's text helpers and its content browser
 * (src/Editor/EditorLayout.cpp): short type labels, the prefixed indices
 * of context-menu item ids, the lower-case caption filter, the listing of
 * the current folder's assets and child folders, and the breadcrumb that
 * climbs back up the folder path.
 */
module EditorLayout {
  import opened Common
  import opened Text
  import opened BrowserPath

  /** 2^64: std::size_t arithmetic wraps modulo this. */
  const SizeRange: nat := 0x1_0000_0000_0000_0000

  /** ShortTypeLabel: the part of a qualified type name after its last "::". */
  function ShortTypeLabel(qualifiedName: string): (r: string)
    ensures !Contains(r, "::")
    ensures !Contains(qualifiedName, "::") ==> r == qualifiedName
    ensures Contains(qualifiedName, "::") ==>
              |r| + 2 <= |qualifiedName| && qualifiedName[|qualifiedName| - |r| - 2..] == "::" + r
  {
    AfterLastHasNoSeparator(qualifiedName, "::");
    match LastOccurrence(qualifiedName, "::")
    case None => AfterLast(qualifiedName, "::")
    case Some(d) =>
      var r := AfterLast(qualifiedName, "::");
      assert qualifiedName[|qualifiedName| - |r| - 2..] == "::" + r;
      r
  }

  /** The index a menu item id carries after `prefix`: its decimal digits, wrapped to 64 bits. */
  function PrefixedIndex(value: string, prefix: string): Option<nat> {
    if StartsWith(value, prefix) && |value| > |prefix| && AllDigits(value[|prefix|..])
    then Some(DecimalValue(value[|prefix|..]) % SizeRange)
    else None
  }

  /**
   * TryParsePrefixedIndex: nothing unless `value` starts with `prefix` and
   * a non-empty run of decimal digits follows; the index accumulates as
   * `Index * 10 + digit` in std::size_t.
   */
  method TryParsePrefixedIndex(value: string, prefix: string) returns (index: Option<nat>)
    ensures index == PrefixedIndex(value, prefix)
    ensures index.Some? ==> index.value < SizeRange
  {
    if !(|prefix| <= |value| && value[..|prefix|] == prefix) {
      return None;
    }
    var indexText := value[|prefix|..];
    if indexText == [] {
      return None;
    }
    var accumulated: nat := 0;
    var i := 0;
    while i < |indexText|
      invariant 0 <= i <= |indexText|
      invariant AllDigits(indexText[..i]) && accumulated == DecimalValue(indexText[..i]) % SizeRange
    {
      var character := indexText[i];
      if character < '0' || character > '9' {
        assert !AllDigits(indexText);
        return None;
      }
      assert indexText[..i + 1][..i] == indexText[..i];
      WrappedDigitStep(DecimalValue(indexText[..i]), character as int - '0' as int);
      accumulated := (accumulated * 10 + (character as int - '0' as int)) % SizeRange;
      i := i + 1;
    }
    assert indexText[..i] == indexText;
    index := Some(accumulated);
  }

  /** Wrapping after every step is wrapping once at the end. */
  lemma WrappedDigitStep(a: nat, d: nat)
    ensures ((a % SizeRange) * 10 + d) % SizeRange == (a * 10 + d) % SizeRange
  {
    var q := a / SizeRange;
    var m := a % SizeRange;
    assert a == q * SizeRange + m;
    assert a * 10 + d == (q * 10) * SizeRange + (m * 10 + d);
    ModAddMultiple(m * 10 + d, q * 10);
  }

  lemma ModAddMultiple(x: nat, k: nat)
    ensures (k * SizeRange + x) % SizeRange == x % SizeRange
  {
    var r := x % SizeRange;
    assert x == (x / SizeRange) * SizeRange + r;
    assert k * SizeRange + x == (k + x / SizeRange) * SizeRange + r;
  }

  /** An id spelt as the prefix and an index's decimal text parses back to that index. */
  lemma PrefixedIndexRoundTrip(prefix: string, n: nat)
    requires n < SizeRange
    ensures PrefixedIndex(prefix + DecimalText(n), prefix) == Some(n)
  {
    var value := prefix + DecimalText(n);
    assert value[..|prefix|] == prefix;
    assert value[|prefix|..] == DecimalText(n);
    DecimalTextValue(n);
  }

  /** An id that does not start with the prefix carries no index. */
  lemma PrefixedIndexNeedsPrefix(value: string, prefix: string)
    requires !StartsWith(value, prefix) || |value| == |prefix|
    ensures PrefixedIndex(value, prefix) == None
  {
  }

  // ---------------------------------------------------------------------
  // Lower-case filtering
  // ---------------------------------------------------------------------

  /** LabelMatchesFilter: an empty filter passes everything, otherwise it must occur in the lowered caption. */
  predicate LabelMatchesFilter(caption: string, filterLower: string) {
    filterLower == [] || Contains(LowerCopy(caption), filterLower)
  }

  lemma {:induction false} LowerCopyIdempotent(s: string)
    ensures LowerCopy(LowerCopy(s)) == LowerCopy(s)
  {
    if s != [] {
      LowerCopyIdempotent(s[1..]);
    }
  }

  /** Every caption passes the lowered copy of itself, and so of any part of it. */
  lemma LabelMatchesItsLowerCopy(caption: string, i: nat, j: nat)
    requires i <= j <= |caption|
    ensures LabelMatchesFilter(caption, LowerCopy(caption[i..j]))
  {
    var lowered := LowerCopy(caption);
    assert lowered[i..j] == LowerCopy(caption[i..j]);
    assert OccursAt(lowered, LowerCopy(caption[i..j]), i);
  }

  /** A filter with an upper-case letter in it passes no caption but through being empty: lowering the filter is the caller's job. */
  lemma UpperCaseFilterMatchesNone(caption: string, filter: string, k: nat)
    requires k < |filter| && IsUpper(filter[k])
    ensures !LabelMatchesFilter(caption, filter)
  {
    var lowered := LowerCopy(caption);
    forall i: nat | i <= |lowered| ensures !OccursAt(lowered, filter, i) {
      if i + |filter| <= |lowered| {
        assert lowered[i..i + |filter|][k] == lowered[i + k];
      }
    }
  }

  /** Filtering ignores the case of the caption. */
  lemma LabelFilterIgnoresCase(caption: string, filterLower: string)
    ensures LabelMatchesFilter(LowerCopy(caption), filterLower) == LabelMatchesFilter(caption, filterLower)
  {
    LowerCopyIdempotent(caption);
  }

  // ---------------------------------------------------------------------
  // Content browser entries
  // ---------------------------------------------------------------------

  /** One asset of the browser's catalog. */
  datatype ContentAsset = ContentAsset(key: string, name: string, typeName: string, variant: string)

  /** One card of the browser: a child folder, or an asset of the current folder. */
  datatype BrowserEntry = BrowserEntry(isFolder: bool, assetIndex: nat, folderPath: string, displayName: string)

  /** The path of a child folder of `current`. */
  function ChildPath(current: string, child: string): string {
    if current == [] then child else current + "/" + child
  }

  /** The first folder name of `folder` below `current`, `folder` lying under `current` and not being it. */
  function ChildName(current: string, folder: string): (r: string)
    requires FolderContainsAsset(current, folder) && folder != current
    ensures '/' !in r
  {
    var remaining := if current == [] then folder else folder[|current| + 1..];
    match FindChar(remaining, '/', 0)
    case None => remaining
    case Some(d) => remaining[..d]
  }

  /** The folder an asset lies in. */
  function AssetFolder(asset: ContentAsset): string {
    ParentOf(Normalized(asset.name))
  }

  /** The asset's name after its folder. */
  function AssetLeaf(asset: ContentAsset): string {
    LeafOf(Normalized(asset.name))
  }

  /** Where an asset in `folder` lies relative to the current folder. */
  datatype Placement = Outside | InFolder | Nested(child: string)

  function PlaceOf(current: string, folder: string): Placement {
    if !FolderContainsAsset(current, folder) then Outside
    else if folder == current then InFolder
    else Nested(ChildName(current, folder))
  }

  /** The name an asset card shows: the leaf name, or the asset's full name when the leaf is empty. */
  function DisplayName(asset: ContentAsset, leaf: string): string {
    if leaf == [] then asset.name else leaf
  }

  /** An asset card shows when its leaf name, its type or its variant passes the filter. */
  predicate Visible(asset: ContentAsset, leaf: string, filter: string) {
    || LabelMatchesFilter(leaf, filter)
    || LabelMatchesFilter(asset.typeName, filter)
    || LabelMatchesFilter(asset.variant, filter)
  }

  /**
   * One round of the rebuild loop over asset `index`, whose path splits
   * into `folder` and `leaf`: the card it adds, if any, and the set of
   * child folder paths seen so far, which grows before the filter is
   * applied to the folder's name.
   */
  function StepFor(asset: ContentAsset, folder: string, leaf: string, index: nat, current: string, filter: string,
                   added: set<string>): (Option<BrowserEntry>, set<string>)
  {
    match PlaceOf(current, folder)
    case Outside => (None, added)
    case InFolder =>
      if filter != [] && !Visible(asset, leaf, filter) then (None, added)
      else (Some(BrowserEntry(false, index, current, DisplayName(asset, leaf))), added)
    case Nested(child) =>
      if child == [] then (None, added)
      else if ChildPath(current, child) in added then (None, added)
      else if filter != [] && !LabelMatchesFilter(child, filter) then (None, added + {ChildPath(current, child)})
      else (Some(BrowserEntry(true, U64Max, ChildPath(current, child), child)), added + {ChildPath(current, child)})
  }

  /** An asset with the folder and leaf name its path splits into. */
  datatype AssetView = AssetView(asset: ContentAsset, folder: string, leaf: string)

  function ViewOf(asset: ContentAsset): AssetView {
    AssetView(asset, AssetFolder(asset), AssetLeaf(asset))
  }

  function Views(assets: seq<ContentAsset>): (r: seq<AssetView>)
    ensures |r| == |assets|
  {
    seq(|assets|, i requires 0 <= i < |assets| => ViewOf(assets[i]))
  }

  /** The cards the rebuild loop builds over the viewed assets, in catalog order, with the folder paths it saw. */
  function CollectViews(views: seq<AssetView>, current: string, filter: string): (seq<BrowserEntry>, set<string>) {
    if views == [] then ([], {})
    else
      var v := views[|views| - 1];
      var before := CollectViews(views[..|views| - 1], current, filter);
      var step := StepFor(v.asset, v.folder, v.leaf, |views| - 1, current, filter, before.1);
      (before.0 + (if step.0.Some? then [step.0.value] else []), step.1)
  }

  /** The cards RebuildContentBrowserEntries builds before sorting, with the folder paths it saw. */
  function Collect(assets: seq<ContentAsset>, current: string, filter: string): (seq<BrowserEntry>, set<string>) {
    CollectViews(Views(assets), current, filter)
  }

  /** The std::sort comparator: folders first, then by lowered name, then by folder path. */
  predicate EntryLess(a: BrowserEntry, b: BrowserEntry) {
    if a.isFolder != b.isFolder then a.isFolder
    else if LowerCopy(a.displayName) != LowerCopy(b.displayName) then StrLess(LowerCopy(a.displayName), LowerCopy(b.displayName))
    else StrLess(a.folderPath, b.folderPath)
  }

  /** Two cards the comparator cannot tell apart. */
  predicate SameKey(a: BrowserEntry, b: BrowserEntry) {
    a.isFolder == b.isFolder && LowerCopy(a.displayName) == LowerCopy(b.displayName) && a.folderPath == b.folderPath
  }

  lemma EntryLessTotal(a: BrowserEntry, b: BrowserEntry)
    ensures EntryLess(a, b) || EntryLess(b, a) || SameKey(a, b)
  {
    StrLessTotal(LowerCopy(a.displayName), LowerCopy(b.displayName));
    StrLessTotal(a.folderPath, b.folderPath);
  }

  lemma EntryLessTransitive(a: BrowserEntry, b: BrowserEntry, c: BrowserEntry)
    requires EntryLess(a, b) && EntryLess(b, c)
    ensures EntryLess(a, c)
  {
    var la, lb, lc := LowerCopy(a.displayName), LowerCopy(b.displayName), LowerCopy(c.displayName);
    if a.isFolder == b.isFolder && b.isFolder == c.isFolder {
      StrLessTotal(la, lc);
      if la != lb && lb != lc {
        StrLessTransitive(la, lb, lc);
      } else if la == lb && lb == lc {
        StrLessTransitive(a.folderPath, b.folderPath, c.folderPath);
      }
      if la == lc && la != lb {
        StrLessTransitive(la, lb, la);
        StrLessIrreflexive(la);
      }
    }
  }

  /** The comparator is a strict weak ordering, as std::sort requires. */
  lemma EntryLessWeakOrder()
    ensures StrictWeakOrder(EntryLess)
  {
    forall a: BrowserEntry ensures !EntryLess(a, a) {
      StrLessIrreflexive(a.folderPath);
    }
    forall a: BrowserEntry, b: BrowserEntry, c: BrowserEntry | EntryLess(a, b) && EntryLess(b, c)
      ensures EntryLess(a, c)
    {
      EntryLessTransitive(a, b, c);
    }
    forall a: BrowserEntry, b: BrowserEntry, c: BrowserEntry | EntryLess(a, b)
      ensures EntryLess(a, c) || EntryLess(c, b)
    {
      EntryLessTotal(a, c);
      if EntryLess(c, a) {
        EntryLessTransitive(c, a, b);
      }
    }
  }

  /** In a list sorted by the comparator no asset card comes before a folder card. */
  lemma FoldersFirst(entries: seq<BrowserEntry>)
    requires SortedBy(entries, EntryLess)
    ensures forall i, j :: 0 <= i < j < |entries| && entries[j].isFolder ==> entries[i].isFolder
  {
  }

  // ---------------------------------------------------------------------
  // What the rebuild lists
  // ---------------------------------------------------------------------

  /** A child folder path names one more folder below `current`. */
  lemma ChildPathSegments(current: string, child: string)
    requires Clean(current) && child != [] && '/' !in child
    ensures Segments(ChildPath(current, child)) == Segments(current) + [child]
  {
    PiecesNoSlash(child);
    if current == [] {
      assert Segments(current) == [];
    } else {
      PiecesSplit(current, child);
      NonEmptyAppend(Pieces(current), [child]);
    }
  }

  /** What one round adds: an asset card of the current folder, or a folder card for a path not seen before. */
  lemma StepForSound(asset: ContentAsset, folder: string, leaf: string, index: nat, current: string, filter: string,
                     added: set<string>)
    ensures added <= StepFor(asset, folder, leaf, index, current, filter, added).1
    ensures var (e, now) := StepFor(asset, folder, leaf, index, current, filter, added);
            e.Some? && !e.value.isFolder ==>
              e.value.assetIndex == index && e.value.folderPath == current && folder == current
              && e.value.displayName == DisplayName(asset, leaf) && now == added
    ensures var (e, now) := StepFor(asset, folder, leaf, index, current, filter, added);
            e.Some? && e.value.isFolder ==>
              e.value.displayName != [] && '/' !in e.value.displayName && e.value.assetIndex == U64Max
              && e.value.folderPath == ChildPath(current, e.value.displayName)
              && e.value.folderPath !in added && now == added + {e.value.folderPath}
    ensures filter == [] && folder == current ==>
              StepFor(asset, folder, leaf, index, current, filter, added).0
              == Some(BrowserEntry(false, index, current, DisplayName(asset, leaf)))
    ensures PlaceOf(current, folder).Nested? && PlaceOf(current, folder).child != [] ==>
              ChildPath(current, PlaceOf(current, folder).child) in StepFor(asset, folder, leaf, index, current, filter, added).1
  {
  }

  /** Every asset card names an asset of the current folder. */
  ghost predicate AssetCardsSound(assets: seq<ContentAsset>, current: string, entries: seq<BrowserEntry>) {
    forall k :: 0 <= k < |entries| && !entries[k].isFolder ==>
      entries[k].assetIndex < |assets| && entries[k].folderPath == current
      && AssetFolder(assets[entries[k].assetIndex]) == current
      && entries[k].displayName == DisplayName(assets[entries[k].assetIndex], AssetLeaf(assets[entries[k].assetIndex]))
  }

  /** Every folder card names a child folder of the current folder, among the paths seen. */
  ghost predicate FolderCardsSound(current: string, entries: seq<BrowserEntry>, added: set<string>) {
    forall k :: 0 <= k < |entries| && entries[k].isFolder ==>
      entries[k].displayName != [] && '/' !in entries[k].displayName
      && entries[k].folderPath == ChildPath(current, entries[k].displayName)
      && entries[k].folderPath in added
  }

  /** No two folder cards share a path. */
  ghost predicate FolderCardsDistinct(entries: seq<BrowserEntry>) {
    forall i, j :: 0 <= i < j < |entries| && entries[i].isFolder && entries[j].isFolder ==>
      entries[i].folderPath != entries[j].folderPath
  }

  /** The card list before the last viewed asset, and what that asset adds. */
  lemma CollectViewsLast(views: seq<AssetView>, current: string, filter: string)
    requires views != []
    ensures var p := views[..|views| - 1];
            var v := views[|views| - 1];
            var step := StepFor(v.asset, v.folder, v.leaf, |p|, current, filter, CollectViews(p, current, filter).1);
            && CollectViews(views, current, filter).0
               == CollectViews(p, current, filter).0 + (if step.0.Some? then [step.0.value] else [])
            && CollectViews(views, current, filter).1 == step.1
  {
  }

  /** Every asset card names a viewed asset whose folder is the current one. */
  ghost predicate ViewCardsSound(views: seq<AssetView>, current: string, es: seq<BrowserEntry>) {
    forall k :: 0 <= k < |es| && !es[k].isFolder ==>
      es[k].assetIndex < |views| && es[k].folderPath == current && views[es[k].assetIndex].folder == current
      && es[k].displayName == DisplayName(views[es[k].assetIndex].asset, views[es[k].assetIndex].leaf)
  }

  lemma {:induction false} ViewAssetCards(views: seq<AssetView>, current: string, filter: string)
    ensures ViewCardsSound(views, current, CollectViews(views, current, filter).0)
  {
    if views != [] {
      var p := views[..|views| - 1];
      ViewAssetCards(p, current, filter);
      CollectViewsLast(views, current, filter);
      var v := views[|p|];
      StepForSound(v.asset, v.folder, v.leaf, |p|, current, filter, CollectViews(p, current, filter).1);
      var before := CollectViews(p, current, filter).0;
      var es := CollectViews(views, current, filter).0;
      forall k | 0 <= k < |before| ensures es[k] == before[k] {
      }
    }
  }

  /** Every folder card of the viewed assets names a child folder, with its path among those seen. */
  lemma {:induction false} ViewFolderCards(views: seq<AssetView>, current: string, filter: string)
    ensures FolderCardsSound(current, CollectViews(views, current, filter).0, CollectViews(views, current, filter).1)
  {
    if views != [] {
      var p := views[..|views| - 1];
      ViewFolderCards(p, current, filter);
      CollectViewsLast(views, current, filter);
      var v := views[|p|];
      StepForSound(v.asset, v.folder, v.leaf, |p|, current, filter, CollectViews(p, current, filter).1);
      var before := CollectViews(p, current, filter).0;
      var es := CollectViews(views, current, filter).0;
      forall k | 0 <= k < |before| ensures es[k] == before[k] {
      }
    }
  }

  /** No two folder cards of the viewed assets share a path. */
  lemma {:induction false} ViewFolderCardsDistinct(views: seq<AssetView>, current: string, filter: string)
    ensures FolderCardsDistinct(CollectViews(views, current, filter).0)
  {
    if views != [] {
      var p := views[..|views| - 1];
      ViewFolderCardsDistinct(p, current, filter);
      ViewFolderCards(p, current, filter);
      CollectViewsLast(views, current, filter);
      var v := views[|p|];
      StepForSound(v.asset, v.folder, v.leaf, |p|, current, filter, CollectViews(p, current, filter).1);
      var before := CollectViews(p, current, filter).0;
      var es := CollectViews(views, current, filter).0;
      forall k | 0 <= k < |before| ensures es[k] == before[k] {
      }
    }
  }

  /** With no filter every viewed asset of the current folder has its card. */
  lemma {:induction false} ViewListsFolderAssets(views: seq<AssetView>, current: string)
    ensures var es := CollectViews(views, current, "").0;
            forall i :: 0 <= i < |views| && views[i].folder == current ==>
              exists k :: 0 <= k < |es| && !es[k].isFolder && es[k].assetIndex == i
  {
    if views != [] {
      var p := views[..|views| - 1];
      ViewListsFolderAssets(p, current);
      CollectViewsLast(views, current, "");
      var v := views[|p|];
      StepForSound(v.asset, v.folder, v.leaf, |p|, current, "", CollectViews(p, current, "").1);
      var before := CollectViews(p, current, "").0;
      var es := CollectViews(views, current, "").0;
      forall i | 0 <= i < |views| && views[i].folder == current
        ensures exists k :: 0 <= k < |es| && !es[k].isFolder && es[k].assetIndex == i
      {
        if i < |p| {
          assert p[i] == views[i];
          var k :| 0 <= k < |before| && !before[k].isFolder && before[k].assetIndex == i;
          assert es[k] == before[k];
        } else {
          assert es[|before|].assetIndex == i;
        }
      }
    }
  }

  /** With no filter every child folder path seen has its card. */
  lemma {:induction false} ViewListsSeenFolders(views: seq<AssetView>, current: string)
    ensures var (es, added) := CollectViews(views, current, "");
            forall path :: path in added ==> exists k :: 0 <= k < |es| && es[k].isFolder && es[k].folderPath == path
  {
    if views != [] {
      var p := views[..|views| - 1];
      ViewListsSeenFolders(p, current);
      CollectViewsLast(views, current, "");
      var v := views[|p|];
      var before := CollectViews(p, current, "");
      StepForSound(v.asset, v.folder, v.leaf, |p|, current, "", before.1);
      var es := CollectViews(views, current, "").0;
      forall path | path in CollectViews(views, current, "").1
        ensures exists k :: 0 <= k < |es| && es[k].isFolder && es[k].folderPath == path
      {
        if path in before.1 {
          var k :| 0 <= k < |before.0| && before.0[k].isFolder && before.0[k].folderPath == path;
          assert es[k] == before.0[k];
        } else {
          assert es[|before.0|].folderPath == path;
        }
      }
    }
  }

  /** Every viewed asset below the current folder, but not in it, puts its child folder's path among those seen. */
  lemma {:induction false} ViewSeesNestedFolders(views: seq<AssetView>, current: string, filter: string)
    ensures forall i :: (0 <= i < |views| && PlaceOf(current, views[i].folder).Nested?
              && PlaceOf(current, views[i].folder).child != []) ==>
              ChildPath(current, PlaceOf(current, views[i].folder).child) in CollectViews(views, current, filter).1
  {
    if views != [] {
      var p := views[..|views| - 1];
      ViewSeesNestedFolders(p, current, filter);
      CollectViewsLast(views, current, filter);
      var v := views[|p|];
      StepForSound(v.asset, v.folder, v.leaf, |p|, current, filter, CollectViews(p, current, filter).1);
      forall i | 0 <= i < |p| ensures views[i] == p[i] {
      }
    }
  }

  /** The rebuild lists only assets of the current folder, each under its display name. */
  lemma CollectAssetCardsSound(assets: seq<ContentAsset>, current: string, filter: string)
    ensures AssetCardsSound(assets, current, Collect(assets, current, filter).0)
  {
    var views := Views(assets);
    ViewAssetCards(views, current, filter);
    var es := CollectViews(views, current, filter).0;
    assert es == Collect(assets, current, filter).0;
    forall k | 0 <= k < |es| && !es[k].isFolder
      ensures AssetFolder(assets[es[k].assetIndex]) == current
      ensures es[k].displayName == DisplayName(assets[es[k].assetIndex], AssetLeaf(assets[es[k].assetIndex]))
    {
      assert es[k].assetIndex < |views|;
      assert views[es[k].assetIndex] == ViewOf(assets[es[k].assetIndex]);
    }
  }

  /** The rebuild's folder cards are child folders of the current folder, each listed at most once. */
  lemma CollectFolderCards(assets: seq<ContentAsset>, current: string, filter: string)
    ensures FolderCardsSound(current, Collect(assets, current, filter).0, Collect(assets, current, filter).1)
    ensures FolderCardsDistinct(Collect(assets, current, filter).0)
  {
    ViewFolderCards(Views(assets), current, filter);
    ViewFolderCardsDistinct(Views(assets), current, filter);
  }

  /** With no filter the rebuild lists every asset of the current folder and every child folder it saw. */
  lemma CollectListsEverything(assets: seq<ContentAsset>, current: string)
    ensures var (es, added) := Collect(assets, current, "");
            && (forall i :: 0 <= i < |assets| && AssetFolder(assets[i]) == current ==>
                  exists k :: 0 <= k < |es| && !es[k].isFolder && es[k].assetIndex == i)
            && (forall path :: path in added ==> exists k :: 0 <= k < |es| && es[k].isFolder && es[k].folderPath == path)
  {
    var views := Views(assets);
    ViewListsFolderAssets(views, current);
    ViewListsSeenFolders(views, current);
    var es := CollectViews(views, current, "").0;
    assert CollectViews(views, current, "") == Collect(assets, current, "");
    forall i | 0 <= i < |assets| && AssetFolder(assets[i]) == current
      ensures exists k :: 0 <= k < |es| && !es[k].isFolder && es[k].assetIndex == i
    {
      assert views[i] == ViewOf(assets[i]);
    }
  }

  /** Every asset below the current folder, but not in it, puts its child folder's path among those seen. */
  lemma CollectSeesNestedFolders(assets: seq<ContentAsset>, current: string, filter: string)
    ensures forall i :: (0 <= i < |assets| && PlaceOf(current, AssetFolder(assets[i])).Nested?
              && PlaceOf(current, AssetFolder(assets[i])).child != []) ==>
              ChildPath(current, PlaceOf(current, AssetFolder(assets[i])).child) in Collect(assets, current, filter).1
  {
    var views := Views(assets);
    ViewSeesNestedFolders(views, current, filter);
    forall i | 0 <= i < |assets| ensures views[i].folder == AssetFolder(assets[i]) {
    }
  }

  // ---------------------------------------------------------------------
  // The browser
  // ---------------------------------------------------------------------

  /** The breadcrumb target: the root for the first two crumbs, otherwise the first `index - 1` folders. */
  function CrumbFolder(folder: string, index: U32): (r: string)
    ensures Clean(r)
    ensures index <= 1 ==> r == []
    ensures index > 1 ==>
              var segments := Segments(Normalized(folder));
              Segments(r) == segments[..Min(|segments|, index - 1)]
  {
    var segments := Segments(Normalized(folder));
    NormalizedClean(folder);
    SegmentsAreNames(Normalized(folder));
    if index <= 1 then ""
    else
      var count := Min(|segments|, index - 1);
      assert Names(segments[..count]);
      JoinClean(segments[..count]);
      SegmentsJoin(segments[..count]);
      Join(segments[..count])
  }

  function Min(a: nat, b: nat): nat {
    if a <= b then a else b
  }

  /** Joining one more folder name onto a non-empty join. */
  lemma JoinSnoc(parts: seq<string>, last: string)
    requires parts != []
    ensures Join(parts + [last]) == Join(parts) + "/" + last
  {
    JoinAppend(parts, [last]);
  }

  /** The content browser's state: the folder shown, the catalog, the lowered filter and the built cards. */
  class ContentBrowser {
    var currentFolder: string
    var assets: seq<ContentAsset>
    var filterText: string
    var entries: seq<BrowserEntry>

    constructor (catalog: seq<ContentAsset>)
      ensures currentFolder == [] && assets == catalog && filterText == [] && entries == []
    {
      currentFolder := [];
      assets := catalog;
      filterText := [];
      entries := [];
    }

    /** The filter text's set hook keeps the lowered copy. */
    method SetFilterText(value: string)
      modifies this`filterText
      ensures filterText == LowerCopy(value)
      ensures forall k :: 0 <= k < |filterText| ==> !IsUpper(filterText[k])
    {
      filterText := LowerCopy(value);
    }

    /**
     * RebuildContentBrowserEntries: normalise the current folder, build one
     * card per visible asset of it and per child folder, then sort.
     */
    method RebuildContentBrowserEntries()
      modifies this`currentFolder, this`entries
      ensures currentFolder == Normalized(old(currentFolder))
      ensures entries == SortBy(Collect(assets, currentFolder, filterText).0, EntryLess)
      ensures SortedBy(entries, EntryLess)
      ensures multiset(entries) == multiset(Collect(assets, currentFolder, filterText).0)
    {
      currentFolder := NormalizeBrowserPath(currentFolder);
      var built := BuildCards(assets, currentFolder, filterText);
      EntryLessWeakOrder();
      SortByCorrect(built, EntryLess);
      entries := SortBy(built, EntryLess);
    }

    /** The breadcrumb's click handler: it moves the current folder up to the clicked crumb. */
    method OnCrumbClicked(index: U32)
      modifies this`currentFolder
      ensures currentFolder == CrumbFolder(old(currentFolder), index)
    {
      var segments := SplitBrowserPath(currentFolder);
      if index <= 1 {
        currentFolder := [];
      } else {
        var segmentCount := Min(|segments|, index - 1);
        currentFolder := JoinCrumbs(segments, segmentCount);
      }
    }
  }

  /** The click handler's loop: the first `segmentCount` folder names, a '/' before each but the first. */
  method JoinCrumbs(segments: seq<string>, segmentCount: nat) returns (nextPath: string)
    requires Names(segments) && segmentCount <= |segments|
    ensures nextPath == Join(segments[..segmentCount])
  {
    nextPath := "";
    var segmentIndex := 0;
    while segmentIndex < segmentCount
      invariant 0 <= segmentIndex <= segmentCount
      invariant nextPath == Join(segments[..segmentIndex])
      invariant segmentIndex > 0 ==> nextPath != []
    {
      if nextPath != [] {
        JoinSnoc(segments[..segmentIndex], segments[segmentIndex]);
        nextPath := nextPath + "/";
      }
      assert segments[..segmentIndex + 1] == segments[..segmentIndex] + [segments[segmentIndex]];
      nextPath := nextPath + segments[segmentIndex];
      segmentIndex := segmentIndex + 1;
    }
  }

  /** The loop of RebuildContentBrowserEntries: one round per asset, in catalog order. */
  method BuildCards(assets: seq<ContentAsset>, current: string, filter: string) returns (built: seq<BrowserEntry>)
    ensures built == Collect(assets, current, filter).0
  {
    built := [];
    var added: set<string> := {};
    ghost var views := Views(assets);
    var i := 0;
    while i < |assets|
      invariant 0 <= i <= |assets|
      invariant (built, added) == CollectViews(views[..i], current, filter)
    {
      var entry, now := RebuildStep(assets[i], i, current, filter, added);
      BuildCardsStep(assets, i, current, filter, built, added, entry, now);
      if entry.Some? {
        built := built + [entry.value];
      }
      added := now;
      i := i + 1;
    }
    assert views[..|assets|] == views;
  }

  /** What one round of the loop adds is what the card list over one more asset adds. */
  lemma BuildCardsStep(assets: seq<ContentAsset>, i: nat, current: string, filter: string, built: seq<BrowserEntry>,
                       added: set<string>, entry: Option<BrowserEntry>, now: set<string>)
    requires i < |assets|
    requires (built, added) == CollectViews(Views(assets)[..i], current, filter)
    requires (entry, now) == StepFor(assets[i], AssetFolder(assets[i]), AssetLeaf(assets[i]), i, current, filter, added)
    ensures ((if entry.Some? then built + [entry.value] else built), now) == CollectViews(Views(assets)[..i + 1], current, filter)
  {
    var views := Views(assets);
    var q := views[..i + 1];
    assert q[..|q| - 1] == views[..i];
    var v := q[|q| - 1];
    assert v == views[i] == ViewOf(assets[i]);
    assert v.asset == assets[i] && v.folder == AssetFolder(assets[i]) && v.leaf == AssetLeaf(assets[i]);
    CollectViewsLast(q, current, filter);
    var step := StepFor(v.asset, v.folder, v.leaf, i, current, filter, added);
    assert step == (entry, now);
    assert CollectViews(q, current, filter).0 == built + (if step.0.Some? then [step.0.value] else []);
    assert CollectViews(q, current, filter).1 == now;
    assert built + [] == built;
  }

  /** The body of the rebuild loop for one asset, with the path helpers the source calls. */
  method RebuildStep(asset: ContentAsset, index: nat, current: string, filter: string, added: set<string>)
    returns (entry: Option<BrowserEntry>, now: set<string>)
    ensures (entry, now) == StepFor(asset, AssetFolder(asset), AssetLeaf(asset), index, current, filter, added)
  {
    var assetPath := NormalizeBrowserPath(asset.name);
    CleanNormalized(assetPath);
    var assetFolder := ParentBrowserPath(assetPath);
    var assetLeaf := LeafBrowserName(assetPath);
    entry, now := PlaceAsset(asset, assetFolder, assetLeaf, index, current, filter, added);
  }

  /** The rest of the loop body, once the asset's folder and leaf name are known. */
  method PlaceAsset(asset: ContentAsset, assetFolder: string, assetLeaf: string, index: nat, current: string,
                    filter: string, added: set<string>)
    returns (entry: Option<BrowserEntry>, now: set<string>)
    ensures (entry, now) == StepFor(asset, assetFolder, assetLeaf, index, current, filter, added)
  {
    now := added;
    if !FolderContainsAsset(current, assetFolder) {
      return None, now;
    }
    if assetFolder == current {
      var visibleByName := LabelMatchesFilter(assetLeaf, filter);
      var visibleByType := LabelMatchesFilter(asset.typeName, filter);
      var visibleByVariant := LabelMatchesFilter(asset.variant, filter);
      if filter != [] && !(visibleByName || visibleByType || visibleByVariant) {
        return None, now;
      }
      var displayName := if assetLeaf == [] then asset.name else assetLeaf;
      return Some(BrowserEntry(false, index, assetFolder, displayName)), now;
    }
    var childFolderName := ChildFolderName(current, assetFolder);
    if childFolderName == [] {
      return None, now;
    }
    var childFolderPath := if current == [] then childFolderName else current + "/" + childFolderName;
    if childFolderPath in now {
      return None, now;
    }
    now := now + {childFolderPath};
    if filter != [] && !LabelMatchesFilter(childFolderName, filter) {
      return None, now;
    }
    return Some(BrowserEntry(true, U64Max, childFolderPath, childFolderName)), now;
  }

  /** The folder path after the current folder and its separator, up to the next separator. */
  method ChildFolderName(current: string, assetFolder: string) returns (childFolderName: string)
    requires FolderContainsAsset(current, assetFolder) && assetFolder != current
    ensures childFolderName == ChildName(current, assetFolder)
  {
    var remainingPath := assetFolder;
    if current != [] {
      remainingPath := assetFolder[|current| + 1..];
    }
    var delimiter := FindChar(remainingPath, '/', 0);
    childFolderName := if delimiter.None? then remainingPath else remainingPath[..delimiter.value];
  }
}
