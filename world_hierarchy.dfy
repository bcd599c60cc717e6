/**
 * WorldNodeRuntime of include/WorldEcsRuntime.h: node identity lives in a
 * dense runtime storage, and a per-slot hierarchy table records each live
 * node's parent handle and child handles. Nodes without a parent are listed
 * in the root list. Transforms are not part of this model.
 *
 * A ghost rank map orders every live parent strictly below its live
 * children; it is what makes the hierarchy acyclic, and it is the measure
 * under which the ancestor walk of AttachChild terminates.
 */
module WorldHierarchy {
  import opened Common
  import opened DenseRuntime

  /** RuntimeNodeRecord: name, type, and the Active / Replicated flags. */
  datatype NodeRecord = NodeRecord(name: string, typ: TypeId, active: bool, replicated: bool)

  /** HierarchyEntry without its transform and dirty-flag fields. */
  datatype Entry = Entry(parent: DenseHandle, children: seq<DenseHandle>, generation: U32, alive: bool)

  /** A value-initialised HierarchyEntry. */
  const BlankEntry: Entry := Entry(NullDenseHandle, [], 0, false)

  /** The handle the node storage issues for slot `s`. */
  function Canon(slots: seq<SlotMeta>, token: U32, s: nat): (h: DenseHandle)
    requires s < |slots| <= U32Max
    ensures h.index as nat == s && h.generation == slots[s].generation && h.id == slots[s].id
  {
    DenseHandle(slots[s].id, token, s as U32, slots[s].generation)
  }

  /**
   * EntryForHandle: the hierarchy slot of a non-null handle with a valid
   * index whose entry is alive at the handle's generation. The UUID and the
   * storage token are not compared.
   */
  function EntryFor(hier: seq<Entry>, h: DenseHandle): (r: Option<nat>)
    ensures r.Some? ==> r.value == h.index as nat && r.value < |hier| && hier[r.value].alive
    ensures r.Some? <==>
      !IsNull(h) && h.index != InvalidIndex && (h.index as nat) < |hier| &&
      hier[h.index].alive && hier[h.index].generation == h.generation
  {
    if IsNull(h) || h.index == InvalidIndex then None
    else if h.index as nat >= |hier| then None
    else if !hier[h.index].alive || hier[h.index].generation != h.generation then None
    else Some(h.index as nat)
  }

  /** `h` is the current handle of a live node. */
  ghost predicate Live(hier: seq<Entry>, slots: seq<SlotMeta>, token: U32, h: DenseHandle) {
    && (h.index as nat) < |hier| && (h.index as nat) < |slots| <= U32Max
    && hier[h.index].alive && h == Canon(slots, token, h.index as nat)
  }

  /** The hierarchy table tracks exactly the live slots of the node storage, at their generations. */
  ghost predicate Synced(hier: seq<Entry>, slots: seq<SlotMeta>) {
    && |hier| <= |slots| <= U32Max
    && (forall s :: 0 <= s < |slots| ==> (slots[s].alive <==> s < |hier| && hier[s].alive))
    && (forall s :: 0 <= s < |hier| && hier[s].alive ==>
          hier[s].generation == slots[s].generation && !IsNil(slots[s].id))
  }

  /** Live nodes have ranks, and a live node's parent is live and ranked strictly lower. */
  ghost predicate Ranked(hier: seq<Entry>, rank: map<nat, nat>) {
    && (forall s :: 0 <= s < |hier| && hier[s].alive ==> s in rank)
    && (forall s {:trigger hier[s].parent} :: 0 <= s < |hier| && hier[s].alive && !IsNull(hier[s].parent) ==>
          && (hier[s].parent.index as nat) < |hier| && hier[hier[s].parent.index].alive
          && hier[s].parent.index as nat in rank
          && rank[hier[s].parent.index as nat] < rank[s])
  }

  /** A live node's parent handle is current, and the parent lists the node among its children. */
  ghost predicate ParentsLinked(hier: seq<Entry>, slots: seq<SlotMeta>, token: U32) {
    && |hier| <= |slots| <= U32Max
    && forall s {:trigger hier[s].parent} :: 0 <= s < |hier| && hier[s].alive && !IsNull(hier[s].parent) ==>
         Live(hier, slots, token, hier[s].parent) && Canon(slots, token, s) in hier[hier[s].parent.index].children
  }

  /** A live node's children are distinct current handles of live nodes whose parent is that node. */
  ghost predicate ChildrenLinked(hier: seq<Entry>, slots: seq<SlotMeta>, token: U32) {
    && |hier| <= |slots| <= U32Max
    && (forall s :: 0 <= s < |hier| && hier[s].alive ==> NoDuplicates(hier[s].children))
    && (forall s, k :: 0 <= s < |hier| && hier[s].alive && 0 <= k < |hier[s].children| ==>
          Live(hier, slots, token, hier[s].children[k]) &&
          hier[hier[s].children[k].index].parent == Canon(slots, token, s))
  }

  /** Roots(): each live parentless node exactly once, and nothing else. */
  ghost predicate RootsExact(hier: seq<Entry>, slots: seq<SlotMeta>, token: U32, roots: seq<DenseHandle>) {
    && |hier| <= |slots| <= U32Max
    && NoDuplicates(roots)
    && (forall k :: 0 <= k < |roots| ==>
          Live(hier, slots, token, roots[k]) && IsNull(hier[roots[k].index].parent))
    && (forall s {:trigger hier[s].parent} :: 0 <= s < |hier| && hier[s].alive && IsNull(hier[s].parent) ==>
          Canon(slots, token, s) in roots)
  }

  ghost predicate ForestInv(hier: seq<Entry>, slots: seq<SlotMeta>, token: U32, roots: seq<DenseHandle>, rank: map<nat, nat>) {
    && Synced(hier, slots) && Ranked(hier, rank)
    && ParentsLinked(hier, slots, token) && ChildrenLinked(hier, slots, token)
    && RootsExact(hier, slots, token, roots)
  }

  /** The hierarchy table and root list together. */
  datatype Forest = Forest(hier: seq<Entry>, roots: seq<DenseHandle>)

  ghost predicate ForestOk(f: Forest, slots: seq<SlotMeta>, token: U32, rank: map<nat, nat>) {
    match f
    case Forest(hier, roots) => ForestInv(hier, slots, token, roots, rank)
  }

  /** `s` is `r` or a descendant of `r`: the live ancestor chain of `s` reaches `r`. */
  ghost predicate InSubtree(hier: seq<Entry>, rank: map<nat, nat>, s: nat, r: nat)
    requires Ranked(hier, rank)
    decreases if s < |hier| && hier[s].alive then rank[s] else 0
  {
    && s < |hier| && hier[s].alive
    && (s == r || (!IsNull(hier[s].parent) && InSubtree(hier, rank, hier[s].parent.index as nat, r)))
  }

  /** A descendant is ranked at least as high as its ancestor. */
  lemma {:induction false} SubtreeRankBound(hier: seq<Entry>, rank: map<nat, nat>, s: nat, r: nat)
    requires Ranked(hier, rank) && InSubtree(hier, rank, s, r)
    ensures s in rank && r in rank && rank[r] <= rank[s]
    decreases rank[s]
  {
    if s != r {
      SubtreeRankBound(hier, rank, hier[s].parent.index as nat, r);
    }
  }

  /** Every element of `s` that is not `x`, in order (std::remove then erase). */
  function RemoveAll(s: seq<DenseHandle>, x: DenseHandle): (r: seq<DenseHandle>)
    ensures x !in r && |r| <= |s|
    ensures forall y :: y in r <==> y in s && y != x
    ensures x !in s ==> r == s
    ensures NoDuplicates(s) ==> NoDuplicates(r)
  {
    if s == [] then []
    else if s[0] == x then RemoveAll(s[1..], x)
    else
      assert NoDuplicates(s) ==> NoDuplicates(s[1..]) && s[0] !in s[1..];
      [s[0]] + RemoveAll(s[1..], x)
  }

  /** EnsureHierarchySlot: grow the table with blank entries until slot `s` exists. */
  function Grow(hier: seq<Entry>, s: nat): (r: seq<Entry>)
    ensures |r| == if s < |hier| then |hier| else s + 1
    ensures forall t :: 0 <= t < |r| ==> r[t] == if t < |hier| then hier[t] else BlankEntry
  {
    if s < |hier| then hier else hier + seq(s + 1 - |hier|, _ => BlankEntry)
  }

  /** A node created in slot `s` is a live, parentless root; no other node changes. */
  function CreatedHier(hier: seq<Entry>, s: nat, generation: U32): (r: seq<Entry>)
    ensures |r| == if s < |hier| then |hier| else s + 1
  {
    Grow(hier, s)[s := Entry(NullDenseHandle, [], generation, true)]
  }

  /** The node storage moved from `slots` to `slots1` by creating slot `s`; nothing else changed. */
  ghost predicate CreateStep(hier: seq<Entry>, slots: seq<SlotMeta>, slots1: seq<SlotMeta>, s: nat) {
    && Synced(hier, slots)
    && |slots| <= |slots1| <= U32Max && s < |slots1| && (|slots1| > |slots| ==> s == |slots| && |slots1| == |slots| + 1)
    && (s < |slots| ==> !slots[s].alive)
    && slots1[s].alive && !IsNil(slots1[s].id)
    && (forall t :: 0 <= t < |slots| && t != s ==> slots1[t] == slots[t])
  }

  lemma CreateKeepsLive(hier: seq<Entry>, slots: seq<SlotMeta>, token: U32, slots1: seq<SlotMeta>, s: nat, g: DenseHandle)
    requires CreateStep(hier, slots, slots1, s) && g.index as nat != s
    ensures Live(CreatedHier(hier, s, slots1[s].generation), slots1, token, g) == Live(hier, slots, token, g)
  {
  }

  /** Creating a node in a previously dead slot keeps the forest invariant, the new handle becoming a root. */
  lemma CreateKeepsForest(hier: seq<Entry>, slots: seq<SlotMeta>, token: U32, roots: seq<DenseHandle>, rank: map<nat, nat>,
                          slots1: seq<SlotMeta>, s: nat)
    requires ForestInv(hier, slots, token, roots, rank) && CreateStep(hier, slots, slots1, s)
    ensures Canon(slots1, token, s) !in roots
    ensures ForestInv(CreatedHier(hier, s, slots1[s].generation), slots1, token,
                      roots + [Canon(slots1, token, s)], rank[s := 0])
  {
    var hier1 := CreatedHier(hier, s, slots1[s].generation);
    var h := Canon(slots1, token, s);
    forall k | 0 <= k < |roots| ensures roots[k] != h {
      assert Live(hier, slots, token, roots[k]);
    }
    CreateKeepsParents(hier, slots, token, rank, slots1, s);
    CreateKeepsChildren(hier, slots, token, slots1, s);
    CreateKeepsRoots(hier, slots, token, roots, slots1, s);
  }

  lemma CreateKeepsParents(hier: seq<Entry>, slots: seq<SlotMeta>, token: U32, rank: map<nat, nat>, slots1: seq<SlotMeta>, s: nat)
    requires Ranked(hier, rank) && ParentsLinked(hier, slots, token) && CreateStep(hier, slots, slots1, s)
    ensures var hier1 := CreatedHier(hier, s, slots1[s].generation);
      Synced(hier1, slots1) && Ranked(hier1, rank[s := 0]) && ParentsLinked(hier1, slots1, token)
  {
    var hier1 := CreatedHier(hier, s, slots1[s].generation);
    forall t | 0 <= t < |hier1| && hier1[t].alive && !IsNull(hier1[t].parent)
      ensures Live(hier1, slots1, token, hier1[t].parent) && Canon(slots1, token, t) in hier1[hier1[t].parent.index].children
    {
      assert t != s && t < |hier| && hier1[t] == hier[t];
      CreateKeepsLive(hier, slots, token, slots1, s, hier[t].parent);
      assert Canon(slots1, token, t) == Canon(slots, token, t);
    }
  }

  lemma CreateKeepsChildren(hier: seq<Entry>, slots: seq<SlotMeta>, token: U32, slots1: seq<SlotMeta>, s: nat)
    requires ChildrenLinked(hier, slots, token) && CreateStep(hier, slots, slots1, s)
    ensures ChildrenLinked(CreatedHier(hier, s, slots1[s].generation), slots1, token)
  {
    var hier1 := CreatedHier(hier, s, slots1[s].generation);
    forall t, k | 0 <= t < |hier1| && hier1[t].alive && 0 <= k < |hier1[t].children|
      ensures Live(hier1, slots1, token, hier1[t].children[k]) &&
              hier1[hier1[t].children[k].index].parent == Canon(slots1, token, t)
    {
      assert t != s && t < |hier| && hier1[t] == hier[t];
      var c := hier[t].children[k];
      assert Live(hier, slots, token, c);
      CreateKeepsLive(hier, slots, token, slots1, s, c);
      assert Canon(slots1, token, t) == Canon(slots, token, t);
    }
  }

  lemma CreateKeepsRoots(hier: seq<Entry>, slots: seq<SlotMeta>, token: U32, roots: seq<DenseHandle>, slots1: seq<SlotMeta>, s: nat)
    requires RootsExact(hier, slots, token, roots) && CreateStep(hier, slots, slots1, s)
    requires Canon(slots1, token, s) !in roots
    ensures RootsExact(CreatedHier(hier, s, slots1[s].generation), slots1, token, roots + [Canon(slots1, token, s)])
  {
    var hier1 := CreatedHier(hier, s, slots1[s].generation);
    var roots1 := roots + [Canon(slots1, token, s)];
    forall k | 0 <= k < |roots1|
      ensures Live(hier1, slots1, token, roots1[k]) && IsNull(hier1[roots1[k].index].parent)
    {
      if k < |roots| {
        assert Live(hier, slots, token, roots[k]);
        CreateKeepsLive(hier, slots, token, slots1, s, roots[k]);
      }
    }
    forall t | 0 <= t < |hier1| && hier1[t].alive && IsNull(hier1[t].parent)
      ensures Canon(slots1, token, t) in roots1
    {
      if t != s {
        assert Canon(slots1, token, t) == Canon(slots, token, t);
      }
    }
  }

  /** AttachChild's edit: `c` gains parent `p`, and `p` lists `c` last among its children. */
  function AttachedHier(hier: seq<Entry>, slots: seq<SlotMeta>, token: U32, p: nat, c: nat): (r: seq<Entry>)
    requires p < |hier| && c < |hier| && |hier| <= |slots| <= U32Max && p != c
    ensures |r| == |hier| && forall t :: 0 <= t < |r| ==> r[t].alive == hier[t].alive && r[t].generation == hier[t].generation
    ensures r[c].parent == Canon(slots, token, p) && r[p].children == hier[p].children + [Canon(slots, token, c)]
    ensures forall t :: 0 <= t < |r| && t != c ==> r[t].parent == hier[t].parent
    ensures forall t :: 0 <= t < |r| && t != p ==> r[t].children == hier[t].children
  {
    hier[p := hier[p].(children := hier[p].children + [Canon(slots, token, c)])][c := hier[c].(parent := Canon(slots, token, p))]
  }

  /** The ranks after attaching under a parent of rank `k - 1`: the moved subtree is raised by `k`. */
  ghost function Shifted(hier: seq<Entry>, rank: map<nat, nat>, c: nat, k: nat): (r: map<nat, nat>)
    requires Ranked(hier, rank)
    ensures r.Keys == rank.Keys
  {
    map x | x in rank :: if InSubtree(hier, rank, x, c) then rank[x] + k else rank[x]
  }

  /** What AttachChild has established before it edits the hierarchy. */
  ghost predicate AttachStep(hier: seq<Entry>, slots: seq<SlotMeta>, token: U32, roots: seq<DenseHandle>, rank: map<nat, nat>, p: nat, c: nat) {
    && ForestInv(hier, slots, token, roots, rank)
    && p < |hier| && c < |hier| && p != c && hier[p].alive && hier[c].alive
    && IsNull(hier[c].parent) && !InSubtree(hier, rank, p, c)
  }

  /** Attaching a parentless node under a node outside its subtree keeps the forest invariant. */
  lemma AttachKeepsForest(hier: seq<Entry>, slots: seq<SlotMeta>, token: U32, roots: seq<DenseHandle>, rank: map<nat, nat>, p: nat, c: nat)
    requires AttachStep(hier, slots, token, roots, rank, p, c)
    ensures Canon(slots, token, c) !in hier[p].children && Canon(slots, token, c) in roots
    ensures ForestInv(AttachedHier(hier, slots, token, p, c), slots, token,
                      RemoveFirst(roots, Canon(slots, token, c)), Shifted(hier, rank, c, rank[p] + 1))
  {
    var ch := Canon(slots, token, c);
    forall k | 0 <= k < |hier[p].children| ensures hier[p].children[k] != ch {
      assert hier[hier[p].children[k].index].parent == Canon(slots, token, p);
    }
    AttachKeepsRanked(hier, slots, token, roots, rank, p, c);
    AttachKeepsLinks(hier, slots, token, roots, rank, p, c);
    AttachKeepsRoots(hier, slots, token, roots, rank, p, c);
  }

  /** The preconditions of the attach edit, over the hierarchy table and root list together. */
  ghost predicate CanLink(f: Forest, slots: seq<SlotMeta>, token: U32, rank: map<nat, nat>, p: nat, c: nat) {
    match f
    case Forest(hier, roots) => AttachStep(hier, slots, token, roots, rank, p, c)
  }

  /** AttachChild's edit over the hierarchy table and root list: the child leaves the roots. */
  function Linked(f: Forest, slots: seq<SlotMeta>, token: U32, p: nat, c: nat): (r: Forest)
    requires p < |f.hier| && c < |f.hier| && |f.hier| <= |slots| <= U32Max && p != c
  {
    match f
    case Forest(hier, roots) => Forest(AttachedHier(hier, slots, token, p, c), RemoveFirst(roots, Canon(slots, token, c)))
  }

  /** AttachKeepsForest over a Forest, with the new ranks returned rather than spelled out. */
  lemma LinkKeepsForest(f: Forest, slots: seq<SlotMeta>, token: U32, rank: map<nat, nat>, p: nat, c: nat)
    returns (rank1: map<nat, nat>)
    requires CanLink(f, slots, token, rank, p, c)
    ensures ForestOk(Linked(f, slots, token, p, c), slots, token, rank1)
  {
    AttachKeepsForest(f.hier, slots, token, f.roots, rank, p, c);
    rank1 := Shifted(f.hier, rank, c, rank[p] + 1);
  }

  /**
   * What the attach edit does: the child's parent is the parent's handle, the
   * child is listed last among the parent's children, it is no longer a root,
   * and no other entry and no other root changes.
   */
  lemma LinkedEffect(f: Forest, slots: seq<SlotMeta>, token: U32, rank: map<nat, nat>, p: nat, c: nat)
    requires CanLink(f, slots, token, rank, p, c)
    ensures var r := Linked(f, slots, token, p, c);
      && |r.hier| == |f.hier|
      && r.hier[c] == f.hier[c].(parent := Canon(slots, token, p))
      && r.hier[p] == f.hier[p].(children := f.hier[p].children + [Canon(slots, token, c)])
      && (forall t :: 0 <= t < |r.hier| && t != p && t != c ==> r.hier[t] == f.hier[t])
      && Canon(slots, token, c) !in r.roots
      && (forall g :: g in r.roots <==> g in f.roots && g != Canon(slots, token, c))
  {
    AttachKeepsForest(f.hier, slots, token, f.roots, rank, p, c);
    RemoveFirstDistinct(f.roots, Canon(slots, token, c));
  }

  lemma AttachKeepsRanked(hier: seq<Entry>, slots: seq<SlotMeta>, token: U32, roots: seq<DenseHandle>, rank: map<nat, nat>, p: nat, c: nat)
    requires AttachStep(hier, slots, token, roots, rank, p, c)
    ensures Ranked(AttachedHier(hier, slots, token, p, c), Shifted(hier, rank, c, rank[p] + 1))
  {
    var hier1 := AttachedHier(hier, slots, token, p, c);
    var k := rank[p] + 1;
    var rank1 := Shifted(hier, rank, c, k);
    assert rank1[p] == rank[p];
    forall s | 0 <= s < |hier1| && hier1[s].alive && !IsNull(hier1[s].parent)
      ensures hier1[s].parent.index as nat in rank1 && rank1[hier1[s].parent.index as nat] < rank1[s]
    {
      if s == c {
        assert InSubtree(hier, rank, c, c);
      } else {
        var q := hier[s].parent.index as nat;
        assert hier1[s].parent == hier[s].parent;
        assert InSubtree(hier, rank, s, c) <==> InSubtree(hier, rank, q, c);
      }
    }
  }

  lemma AttachKeepsLinks(hier: seq<Entry>, slots: seq<SlotMeta>, token: U32, roots: seq<DenseHandle>, rank: map<nat, nat>, p: nat, c: nat)
    requires AttachStep(hier, slots, token, roots, rank, p, c)
    requires Canon(slots, token, c) !in hier[p].children
    ensures var hier1 := AttachedHier(hier, slots, token, p, c);
      Synced(hier1, slots) && ParentsLinked(hier1, slots, token) && ChildrenLinked(hier1, slots, token)
  {
    var hier1 := AttachedHier(hier, slots, token, p, c);
    var ch := Canon(slots, token, c);
    forall g: DenseHandle ensures Live(hier1, slots, token, g) == Live(hier, slots, token, g) {
    }
    forall s | 0 <= s < |hier1| && hier1[s].alive && !IsNull(hier1[s].parent)
      ensures Canon(slots, token, s) in hier1[hier1[s].parent.index].children
    {
      if s != c {
        assert Canon(slots, token, s) in hier[hier[s].parent.index].children;
      }
    }
    forall s, k | 0 <= s < |hier1| && hier1[s].alive && 0 <= k < |hier1[s].children|
      ensures Live(hier1, slots, token, hier1[s].children[k]) &&
              hier1[hier1[s].children[k].index].parent == Canon(slots, token, s)
    {
      if s != p || k < |hier[s].children| {
        var g := hier[s].children[k];
        assert hier1[s].children[k] == g;
        assert hier[g.index].parent == Canon(slots, token, s);
        assert g.index as nat != c;
      }
    }
    assert NoDuplicates(hier1[p].children);
  }

  lemma AttachKeepsRoots(hier: seq<Entry>, slots: seq<SlotMeta>, token: U32, roots: seq<DenseHandle>, rank: map<nat, nat>, p: nat, c: nat)
    requires AttachStep(hier, slots, token, roots, rank, p, c)
    ensures Canon(slots, token, c) in roots
    ensures RootsExact(AttachedHier(hier, slots, token, p, c), slots, token, RemoveFirst(roots, Canon(slots, token, c)))
  {
    var hier1 := AttachedHier(hier, slots, token, p, c);
    var ch := Canon(slots, token, c);
    var roots1 := RemoveFirst(roots, ch);
    RemoveFirstDistinct(roots, ch);
    forall k | 0 <= k < |roots1|
      ensures Live(hier1, slots, token, roots1[k]) && IsNull(hier1[roots1[k].index].parent)
    {
      assert roots1[k] in roots;
      var j :| 0 <= j < |roots| && roots[j] == roots1[k];
      assert Live(hier, slots, token, roots[j]);
      assert roots1[k].index as nat != c;
    }
  }

  /** DetachChild's edit: the parent (when its entry resolves) drops `c` from its children, and `c` loses its parent. */
  function DetachedHier(hier: seq<Entry>, slots: seq<SlotMeta>, token: U32, c: nat): (r: seq<Entry>)
    requires c < |hier| <= |slots| <= U32Max
    ensures |r| == |hier| && forall t :: 0 <= t < |r| ==> r[t].alive == hier[t].alive && r[t].generation == hier[t].generation
    ensures IsNull(r[c].parent) && forall t :: 0 <= t < |r| && t != c ==> r[t].parent == hier[t].parent
  {
    var ph := hier[c].parent;
    var h1 := if !IsNull(ph) && EntryFor(hier, ph).Some?
      then hier[ph.index := hier[ph.index].(children := RemoveAll(hier[ph.index].children, Canon(slots, token, c)))]
      else hier;
    h1[c := h1[c].(parent := NullDenseHandle)]
  }

  /** AddRootIfMissing. */
  function AddIfMissing(roots: seq<DenseHandle>, h: DenseHandle): (r: seq<DenseHandle>)
    ensures h in r && forall g :: g in r <==> g in roots || g == h
    ensures NoDuplicates(roots) ==> NoDuplicates(r)
  {
    if h in roots then roots else roots + [h]
  }

  /** Detaching any live node keeps the forest invariant; the node becomes a root. */
  lemma DetachKeepsForest(hier: seq<Entry>, slots: seq<SlotMeta>, token: U32, roots: seq<DenseHandle>, rank: map<nat, nat>, c: nat)
    requires ForestInv(hier, slots, token, roots, rank) && c < |hier| && hier[c].alive
    ensures ForestInv(DetachedHier(hier, slots, token, c), slots, token, AddIfMissing(roots, Canon(slots, token, c)), rank)
  {
    DetachKeepsParents(hier, slots, token, roots, rank, c);
    DetachKeepsChildren(hier, slots, token, roots, rank, c);
    DetachKeepsRoots(hier, slots, token, roots, rank, c);
  }

  /** Liveness and generations are untouched by the detach edit, and only the parent's child list changes. */
  lemma DetachView(hier: seq<Entry>, slots: seq<SlotMeta>, token: U32, c: nat)
    requires c < |hier| <= |slots| <= U32Max
    ensures var hier1 := DetachedHier(hier, slots, token, c);
      && (forall g: DenseHandle :: Live(hier1, slots, token, g) == Live(hier, slots, token, g))
      && (forall t :: 0 <= t < |hier1| ==>
            hier1[t].children == hier[t].children ||
            (t == hier[c].parent.index as nat && hier1[t].children == RemoveAll(hier[t].children, Canon(slots, token, c))))
  {
  }

  lemma DetachKeepsParents(hier: seq<Entry>, slots: seq<SlotMeta>, token: U32, roots: seq<DenseHandle>, rank: map<nat, nat>, c: nat)
    requires ForestInv(hier, slots, token, roots, rank) && c < |hier| && hier[c].alive
    ensures var hier1 := DetachedHier(hier, slots, token, c);
      Synced(hier1, slots) && Ranked(hier1, rank) && ParentsLinked(hier1, slots, token)
  {
    var hier1 := DetachedHier(hier, slots, token, c);
    var ch := Canon(slots, token, c);
    DetachView(hier, slots, token, c);
    forall s | 0 <= s < |hier1| && hier1[s].alive && !IsNull(hier1[s].parent)
      ensures Live(hier1, slots, token, hier1[s].parent) && Canon(slots, token, s) in hier1[hier1[s].parent.index].children
    {
      assert s != c;
      assert Live(hier, slots, token, hier[s].parent);
      assert Canon(slots, token, s) in hier[hier[s].parent.index].children;
      assert Canon(slots, token, s) != ch;
    }
  }

  lemma DetachKeepsChildren(hier: seq<Entry>, slots: seq<SlotMeta>, token: U32, roots: seq<DenseHandle>, rank: map<nat, nat>, c: nat)
    requires ForestInv(hier, slots, token, roots, rank) && c < |hier| && hier[c].alive
    ensures ChildrenLinked(DetachedHier(hier, slots, token, c), slots, token)
  {
    var hier1 := DetachedHier(hier, slots, token, c);
    var ch := Canon(slots, token, c);
    DetachView(hier, slots, token, c);
    forall s, k | 0 <= s < |hier1| && hier1[s].alive && 0 <= k < |hier1[s].children|
      ensures Live(hier1, slots, token, hier1[s].children[k]) &&
              hier1[hier1[s].children[k].index].parent == Canon(slots, token, s)
    {
      var g := hier1[s].children[k];
      assert g in hier[s].children && g != ch;
      var j :| 0 <= j < |hier[s].children| && hier[s].children[j] == g;
      assert Live(hier, slots, token, g);
    }
  }

  lemma DetachKeepsRoots(hier: seq<Entry>, slots: seq<SlotMeta>, token: U32, roots: seq<DenseHandle>, rank: map<nat, nat>, c: nat)
    requires ForestInv(hier, slots, token, roots, rank) && c < |hier| && hier[c].alive
    ensures RootsExact(DetachedHier(hier, slots, token, c), slots, token, AddIfMissing(roots, Canon(slots, token, c)))
  {
    var hier1 := DetachedHier(hier, slots, token, c);
    var ch := Canon(slots, token, c);
    var roots1 := AddIfMissing(roots, ch);
    DetachView(hier, slots, token, c);
    forall k | 0 <= k < |roots1|
      ensures Live(hier1, slots, token, roots1[k]) && IsNull(hier1[roots1[k].index].parent)
    {
      if roots1[k] != ch {
        assert roots1[k] in roots;
        var j :| 0 <= j < |roots| && roots[j] == roots1[k];
      }
    }
  }

  /** The destroy step of DestroyNodeIterative: unlink from the parent, then blank the entry. */
  function LeafRemovedHier(hier: seq<Entry>, slots: seq<SlotMeta>, token: U32, x: nat): (r: seq<Entry>)
    requires x < |hier| <= |slots| <= U32Max
    ensures |r| == |hier| && r[x] == BlankEntry
    ensures forall t :: 0 <= t < |r| && t != x ==>
      r[t].alive == hier[t].alive && r[t].generation == hier[t].generation && r[t].parent == hier[t].parent
  {
    DetachedHier(hier, slots, token, x)[x := BlankEntry]
  }

  /** The node storage moved from `slots` to `slots1` by destroying slot `x`. */
  ghost predicate DestroyStep(slots: seq<SlotMeta>, slots1: seq<SlotMeta>, x: nat) {
    && |slots1| == |slots| && x < |slots| && !slots1[x].alive
    && forall t :: 0 <= t < |slots| && t != x ==>
         slots1[t].id == slots[t].id && slots1[t].generation == slots[t].generation && slots1[t].alive == slots[t].alive
  }

  /** Destroying a live childless node keeps the forest invariant. */
  lemma DestroyLeafKeepsForest(hier: seq<Entry>, slots: seq<SlotMeta>, token: U32, roots: seq<DenseHandle>, rank: map<nat, nat>,
                               x: nat, slots1: seq<SlotMeta>)
    requires ForestInv(hier, slots, token, roots, rank) && x < |hier| && hier[x].alive && hier[x].children == []
    requires DestroyStep(slots, slots1, x)
    ensures ForestInv(LeafRemovedHier(hier, slots, token, x), slots1, token,
                      RemoveFirst(roots, Canon(slots, token, x)), rank)
  {
    DestroyLeafKeepsLinks(hier, slots, token, roots, rank, x, slots1);
    DestroyLeafKeepsRoots(hier, slots, token, roots, rank, x, slots1);
  }

  lemma DestroyLeafKeepsLinks(hier: seq<Entry>, slots: seq<SlotMeta>, token: U32, roots: seq<DenseHandle>, rank: map<nat, nat>,
                              x: nat, slots1: seq<SlotMeta>)
    requires ForestInv(hier, slots, token, roots, rank) && x < |hier| && hier[x].alive && hier[x].children == []
    requires DestroyStep(slots, slots1, x)
    ensures var hier1 := LeafRemovedHier(hier, slots, token, x);
      ParentsLinked(hier1, slots1, token) && ChildrenLinked(hier1, slots1, token)
  {
    var hd := DetachedHier(hier, slots, token, x);
    DetachKeepsForest(hier, slots, token, roots, rank, x);
    var hier1 := LeafRemovedHier(hier, slots, token, x);
    var xh := Canon(slots, token, x);
    forall g: DenseHandle | g.index as nat != x
      ensures Live(hier1, slots1, token, g) == Live(hd, slots, token, g)
    {
    }
    forall t | 0 <= t < |hier1| && t != x ensures Canon(slots1, token, t) == Canon(slots, token, t) {
    }
    forall s | 0 <= s < |hd| && hd[s].alive ensures xh !in hd[s].children {
    }
    forall s | 0 <= s < |hier1| && hier1[s].alive && !IsNull(hier1[s].parent)
      ensures Live(hier1, slots1, token, hier1[s].parent) && Canon(slots1, token, s) in hier1[hier1[s].parent.index].children
    {
      assert s != x;
      assert Live(hd, slots, token, hd[s].parent);
      assert hd[s].parent != xh by {
        assert hier[x].children == [];
        assert Canon(slots, token, s) in hier[hier[s].parent.index].children;
      }
    }
    forall s, k | 0 <= s < |hier1| && hier1[s].alive && 0 <= k < |hier1[s].children|
      ensures Live(hier1, slots1, token, hier1[s].children[k]) &&
              hier1[hier1[s].children[k].index].parent == Canon(slots1, token, s)
    {
      assert hier1[s] == hd[s];
      var g := hd[s].children[k];
      assert Live(hd, slots, token, g) && g != xh;
    }
  }

  lemma DestroyLeafKeepsRoots(hier: seq<Entry>, slots: seq<SlotMeta>, token: U32, roots: seq<DenseHandle>, rank: map<nat, nat>,
                              x: nat, slots1: seq<SlotMeta>)
    requires ForestInv(hier, slots, token, roots, rank) && x < |hier| && hier[x].alive && hier[x].children == []
    requires DestroyStep(slots, slots1, x)
    ensures var hier1 := LeafRemovedHier(hier, slots, token, x);
      && Synced(hier1, slots1) && Ranked(hier1, rank)
      && RootsExact(hier1, slots1, token, RemoveFirst(roots, Canon(slots, token, x)))
  {
    DestroyLeafKeepsRanked(hier, slots, token, roots, rank, x, slots1);
    DestroyLeafKeepsRootList(hier, slots, token, roots, rank, x, slots1);
  }

  lemma DestroyLeafKeepsRanked(hier: seq<Entry>, slots: seq<SlotMeta>, token: U32, roots: seq<DenseHandle>, rank: map<nat, nat>,
                               x: nat, slots1: seq<SlotMeta>)
    requires ForestInv(hier, slots, token, roots, rank) && x < |hier| && hier[x].alive && hier[x].children == []
    requires DestroyStep(slots, slots1, x)
    ensures var hier1 := LeafRemovedHier(hier, slots, token, x);
      Synced(hier1, slots1) && Ranked(hier1, rank)
  {
    DetachKeepsForest(hier, slots, token, roots, rank, x);
  }

  lemma DestroyLeafKeepsRootList(hier: seq<Entry>, slots: seq<SlotMeta>, token: U32, roots: seq<DenseHandle>, rank: map<nat, nat>,
                                 x: nat, slots1: seq<SlotMeta>)
    requires ForestInv(hier, slots, token, roots, rank) && x < |hier| && hier[x].alive && hier[x].children == []
    requires DestroyStep(slots, slots1, x)
    ensures RootsExact(LeafRemovedHier(hier, slots, token, x), slots1, token, RemoveFirst(roots, Canon(slots, token, x)))
  {
    var hd := DetachedHier(hier, slots, token, x);
    DetachKeepsForest(hier, slots, token, roots, rank, x);
    var rootsD := AddIfMissing(roots, Canon(slots, token, x));
    var hier1 := LeafRemovedHier(hier, slots, token, x);
    var xh := Canon(slots, token, x);
    var roots1 := RemoveFirst(roots, xh);
    forall g: DenseHandle | g.index as nat != x
      ensures Live(hier1, slots1, token, g) == Live(hd, slots, token, g)
    {
    }
    forall t | 0 <= t < |hier1| && t != x ensures Canon(slots1, token, t) == Canon(slots, token, t) {
    }
    RemoveFirstDistinct(roots, xh);
    forall k | 0 <= k < |roots1|
      ensures Live(hier1, slots1, token, roots1[k]) && IsNull(hier1[roots1[k].index].parent)
    {
      assert roots1[k] in rootsD;
      var j :| 0 <= j < |rootsD| && rootsD[j] == roots1[k];
      assert Live(hd, slots, token, roots1[k]);
    }
    forall s | 0 <= s < |hier1| && hier1[s].alive && IsNull(hier1[s].parent)
      ensures Canon(slots1, token, s) in roots1
    {
      assert Canon(slots, token, s) in rootsD && Canon(slots, token, s) != xh;
    }
  }

  /** CreateNodeWithId's edit: slot `s` holds a live parentless entry at `h`'s generation, and `h` joins the roots. */
  function Created(f: Forest, s: nat, h: DenseHandle): (r: Forest)
  {
    match f
    case Forest(hier, roots) => Forest(CreatedHier(hier, s, h.generation), AddIfMissing(roots, h))
  }

  /** CreateKeepsForest over a Forest: the new handle is appended to the roots, and the invariant holds again. */
  lemma CreateKeepsForestOk(f: Forest, slots: seq<SlotMeta>, token: U32, rank: map<nat, nat>, slots1: seq<SlotMeta>, s: nat)
    returns (rank1: map<nat, nat>)
    requires ForestOk(f, slots, token, rank) && CreateStep(f.hier, slots, slots1, s)
    ensures Created(f, s, Canon(slots1, token, s)).roots == f.roots + [Canon(slots1, token, s)]
    ensures ForestOk(Created(f, s, Canon(slots1, token, s)), slots1, token, rank1)
  {
    CreateKeepsForest(f.hier, slots, token, f.roots, rank, slots1, s);
    rank1 := rank[s := 0];
  }

  /** What the create edit does: a live, parentless, childless entry in slot `s`; older entries are untouched. */
  lemma CreatedEffect(f: Forest, s: nat, h: DenseHandle)
    ensures var r := Created(f, s, h);
      && |r.hier| == (if s < |f.hier| then |f.hier| else s + 1)
      && r.hier[s] == Entry(NullDenseHandle, [], h.generation, true)
      && (forall t :: 0 <= t < |r.hier| && t != s ==> r.hier[t] == if t < |f.hier| then f.hier[t] else BlankEntry)
      && (forall g :: g in r.roots <==> g in f.roots || g == h)
  {
  }

  /** DetachChild's edit over the hierarchy table and root list: the child becomes a root. */
  function Unlinked(f: Forest, slots: seq<SlotMeta>, token: U32, c: nat): (r: Forest)
    requires c < |f.hier| <= |slots| <= U32Max
  {
    match f
    case Forest(hier, roots) => Forest(DetachedHier(hier, slots, token, c), AddIfMissing(roots, Canon(slots, token, c)))
  }

  lemma UnlinkKeepsForest(f: Forest, slots: seq<SlotMeta>, token: U32, rank: map<nat, nat>, c: nat)
    requires ForestOk(f, slots, token, rank) && c < |f.hier| && f.hier[c].alive
    ensures ForestOk(Unlinked(f, slots, token, c), slots, token, rank)
  {
    DetachKeepsForest(f.hier, slots, token, f.roots, rank, c);
  }

  /**
   * What the detach edit does: the child has no parent, its former parent
   * no longer lists it, it is a root, and no other entry and no other root
   * changes.
   */
  lemma UnlinkedEffect(f: Forest, slots: seq<SlotMeta>, token: U32, rank: map<nat, nat>, c: nat)
    requires ForestOk(f, slots, token, rank) && c < |f.hier| && f.hier[c].alive
    ensures var r := Unlinked(f, slots, token, c);
      var ph := f.hier[c].parent;
      && |r.hier| == |f.hier|
      && r.hier[c] == f.hier[c].(parent := NullDenseHandle)
      && (!IsNull(ph) ==> r.hier[ph.index] == f.hier[ph.index].(children := RemoveAll(f.hier[ph.index].children, Canon(slots, token, c))))
      && (forall t :: 0 <= t < |r.hier| && t != c && (IsNull(ph) || t != ph.index as nat) ==> r.hier[t] == f.hier[t])
      && (forall g :: g in r.roots <==> g in f.roots || g == Canon(slots, token, c))
      && NoDuplicates(r.roots)
  {
    DetachKeepsForest(f.hier, slots, token, f.roots, rank, c);
  }

  /** The destroy step of DestroyNodeIterative over a Forest: the node also leaves the roots. */
  function LeafRemoved(f: Forest, slots: seq<SlotMeta>, token: U32, x: nat): (r: Forest)
    requires x < |f.hier| <= |slots| <= U32Max
  {
    match f
    case Forest(hier, roots) => Forest(LeafRemovedHier(hier, slots, token, x), RemoveFirst(roots, Canon(slots, token, x)))
  }

  lemma LeafRemovedKeepsForest(f: Forest, slots: seq<SlotMeta>, token: U32, rank: map<nat, nat>, x: nat, slots1: seq<SlotMeta>)
    requires ForestOk(f, slots, token, rank) && x < |f.hier| && f.hier[x].alive && f.hier[x].children == []
    requires DestroyStep(slots, slots1, x)
    ensures ForestOk(LeafRemoved(f, slots, token, x), slots1, token, rank)
  {
    DestroyLeafKeepsForest(f.hier, slots, token, f.roots, rank, x, slots1);
  }

  /** A live node is listed in the roots exactly when it has no parent. */
  lemma RootIffParentless(hier: seq<Entry>, slots: seq<SlotMeta>, token: U32, roots: seq<DenseHandle>, rank: map<nat, nat>, h: DenseHandle)
    requires ForestInv(hier, slots, token, roots, rank) && Live(hier, slots, token, h)
    ensures IsNull(hier[h.index].parent) <==> h in roots
  {
    if h in roots {
      var k :| 0 <= k < |roots| && roots[k] == h;
    }
  }
}
