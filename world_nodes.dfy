/** WorldNodeRuntime of include/WorldEcsRuntime.h as a class over the hierarchy model. */
module WorldNodes {
  import opened Common
  import opened DenseRuntime
  import opened WorldHierarchy
  import opened WorldDestroy

  /** WorldNodeRuntime: the node storage, the hierarchy table and the root list. */
  class NodeRuntime {
    const nodes: Storage<NodeRecord>
    var forest: Forest
    ghost var rank: map<nat, nat>

    ghost predicate Valid()
      reads this, nodes
    {
      nodes.Valid() && ForestOk(forest, nodes.slots, nodes.token, rank)
    }

    constructor ()
      ensures Valid() && fresh(nodes)
      ensures forest == Forest([], []) && nodes.slots == []
    {
      var storage := new Storage<NodeRecord>(1);
      nodes := storage;
      forest, rank := Forest([], []), map[];
    }

    /** The node storage resolves exactly the current handles of live nodes. */
    lemma ResolvesIffLive(h: DenseHandle)
      requires Valid()
      ensures nodes.ResolveSlot(h).Some? <==> Live(forest.hier, nodes.slots, nodes.token, h)
      ensures Live(forest.hier, nodes.slots, nodes.token, h) ==> !IsNull(h) && EntryFor(forest.hier, h) == Some(h.index as nat)
    {
    }

    /** The conditions under which AttachChild edits the hierarchy. */
    ghost predicate CanAttach(parent: DenseHandle, child: DenseHandle)
      requires Valid()
      reads this, nodes
    {
      && !IsNull(parent) && !IsNull(child) && parent != child
      && nodes.ResolveSlot(parent).Some? && nodes.ResolveSlot(child).Some?
      && IsNull(forest.hier[child.index].parent)
      && !InSubtree(forest.hier, rank, parent.index as nat, child.index as nat)
    }

    /**
     * CreateNodeWithId: InvalidArgument for a nil type; the node storage's
     * errors for a nil or live UUID; otherwise a live parentless node that
     * is appended to the roots.
     */
    method CreateNodeWithId(id: Uuid, name: string, typ: TypeId) returns (r: Result<DenseHandle>)
      requires Valid()
      modifies this, nodes
      ensures Valid()
      ensures r.Err? ==> forest == old(forest) && unchanged(nodes)
      ensures IsNil(typ) ==> r == Err(InvalidArgument)
      ensures !IsNil(typ) && IsNil(id) ==> r == Err(InvalidArgument)
      ensures !IsNil(typ) && !IsNil(id) && id in old(nodes.idToSlot) ==> r == Err(AlreadyExists)
      ensures r.Ok? ==>
        && !IsNil(typ) && r.value.id == id
        && nodes.Resolve(r.value) == Some(NodeRecord(name, typ, true, false))
        && forest == Created(old(forest), r.value.index as nat, r.value)
        && forest.roots == old(forest.roots) + [r.value]
    {
      if IsNil(typ) {
        return Err(InvalidArgument);
      }
      var rec := NodeRecord(name, typ, true, false);
      ghost var S0 := nodes.slots;
      assert nodes.NextSlot() < |S0| ==> !S0[nodes.NextSlot()].alive;
      var created := nodes.CreateWithId(id, Some(rec));
      if created.Err? {
        return Err(created.code);
      }
      var h := created.value;
      var s := h.index as nat;
      ghost var rank1 := CreateKeepsForestOk(forest, S0, nodes.token, rank, nodes.slots, s);
      forest := Created(forest, s, h);
      rank := rank1;
      r := Ok(h);
    }

    /**
     * The ancestor walk of AttachChild: follow parent links from `from` while
     * the handle resolves to a hierarchy entry; true when `target` is met.
     */
    method WalkReaches(from: DenseHandle, target: DenseHandle) returns (found: bool)
      requires Valid()
      requires Live(forest.hier, nodes.slots, nodes.token, from) && Live(forest.hier, nodes.slots, nodes.token, target)
      ensures found <==> InSubtree(forest.hier, rank, from.index as nat, target.index as nat)
    {
      var hier := forest.hier;
      var t := target.index as nat;
      var cursor := from;
      while !IsNull(cursor)
        invariant !IsNull(cursor) ==> Live(hier, nodes.slots, nodes.token, cursor)
        invariant InSubtree(hier, rank, from.index as nat, t) <==> !IsNull(cursor) && InSubtree(hier, rank, cursor.index as nat, t)
        decreases if !IsNull(cursor) && Live(hier, nodes.slots, nodes.token, cursor) then rank[cursor.index as nat] + 1 else 0
      {
        if cursor == target {
          return true;
        }
        var e := EntryFor(hier, cursor);
        if e.None? {
          break;
        }
        cursor := hier[e.value].parent;
      }
      return false;
    }

    /**
     * AttachChild: InvalidArgument for a null handle or a node attached to
     * itself, NotFound when either node does not resolve, InvalidArgument for
     * a child that already has a parent or that is an ancestor of the parent
     * (a cycle). Otherwise the attach edit (LinkedEffect says what it does).
     */
    method AttachChild(parent: DenseHandle, child: DenseHandle) returns (r: Outcome)
      requires Valid()
      modifies this
      ensures Valid()
      ensures r.Done? <==> old(CanAttach(parent, child))
      ensures r.Fail? ==> forest == old(forest)
      ensures IsNull(parent) || IsNull(child) || parent == child ==> r == Fail(InvalidArgument)
      ensures !IsNull(parent) && !IsNull(child) && parent != child &&
              (old(nodes.ResolveSlot(parent)).None? || old(nodes.ResolveSlot(child)).None?)
              ==> r == Fail(NotFound)
      ensures old(nodes.ResolveSlot(parent)).Some? && old(nodes.ResolveSlot(child)).Some? && parent != child ==>
        && (!IsNull(old(forest.hier[child.index].parent)) ==> r == Fail(InvalidArgument))
        && (InSubtree(old(forest.hier), old(rank), parent.index as nat, child.index as nat) ==> r == Fail(InvalidArgument))
      ensures r.Done? ==> forest == Linked(old(forest), nodes.slots, nodes.token, parent.index as nat, child.index as nat)
    {
      if IsNull(parent) || IsNull(child) {
        return Fail(InvalidArgument);
      }
      if parent == child {
        return Fail(InvalidArgument);
      }
      if nodes.Resolve(parent).None? {
        return Fail(NotFound);
      }
      if nodes.Resolve(child).None? {
        return Fail(NotFound);
      }
      ResolvesIffLive(parent);
      ResolvesIffLive(child);
      if !IsNull(forest.hier[child.index].parent) {
        return Fail(InvalidArgument);
      }
      var cycle := WalkReaches(parent, child);
      if cycle {
        return Fail(InvalidArgument);
      }
      Link(parent.index as nat, child.index as nat);
      return Done;
    }

    /** The edit of AttachChild once every check has passed. */
    method Link(p: nat, c: nat)
      requires Valid() && CanLink(forest, nodes.slots, nodes.token, rank, p, c)
      modifies this
      ensures Valid() && forest == Linked(old(forest), nodes.slots, nodes.token, p, c)
    {
      ghost var rank1 := LinkKeepsForest(forest, nodes.slots, nodes.token, rank, p, c);
      forest := Linked(forest, nodes.slots, nodes.token, p, c);
      rank := rank1;
    }

    /**
     * DetachChild: InvalidArgument for a null handle, NotFound when the child
     * does not resolve; otherwise the detach edit (UnlinkedEffect says what
     * it does).
     */
    method DetachChild(child: DenseHandle) returns (r: Outcome)
      requires Valid()
      modifies this
      ensures Valid()
      ensures IsNull(child) ==> r == Fail(InvalidArgument)
      ensures !IsNull(child) ==> (r.Done? <==> old(nodes.ResolveSlot(child)).Some?)
      ensures r.Fail? ==> forest == old(forest) && r.code in {InvalidArgument, NotFound}
      ensures r.Done? ==> forest == Unlinked(old(forest), nodes.slots, nodes.token, child.index as nat) && child in forest.roots
    {
      if IsNull(child) {
        return Fail(InvalidArgument);
      }
      if nodes.Resolve(child).None? {
        return Fail(NotFound);
      }
      ResolvesIffLive(child);
      var c := child.index as nat;
      UnlinkKeepsForest(forest, nodes.slots, nodes.token, rank, c);
      forest := Unlinked(forest, nodes.slots, nodes.token, c);
      return Done;
    }

    /**
     * DestroyNode: InvalidArgument for a null handle, NotFound when the node
     * does not resolve. Otherwise DestroyNodeIterative removes the node's
     * whole subtree: every node in it is destroyed in the node storage and
     * its entry blanked, the root leaves its parent's children and the roots
     * (SubtreeRemoved).
     */
    method DestroyNode(h: DenseHandle) returns (r: Outcome)
      requires Valid()
      modifies this, nodes
      ensures Valid()
      ensures IsNull(h) ==> r == Fail(InvalidArgument)
      ensures !IsNull(h) ==> (r.Done? <==> old(nodes.ResolveSlot(h)).Some?)
      ensures r.Fail? ==> forest == old(forest) && unchanged(nodes) && r.code in {InvalidArgument, NotFound}
      ensures r.Done? ==>
        && old(Live(forest.hier, nodes.slots, nodes.token, h))
        && forest == SubtreeRemoved(old(forest), old(nodes.slots), nodes.token, old(rank), h.index as nat)
    {
      if IsNull(h) {
        return Fail(InvalidArgument);
      }
      if nodes.Resolve(h).None? {
        return Fail(NotFound);
      }
      ResolvesIffLive(h);
      ghost var c := Ctx(forest.hier, forest.roots, nodes.slots, nodes.token, rank, h.index as nat);
      DfsStart(c);
      var stack := [Frame(h, false)];
      ghost var pend := Below(|forest.hier|);
      while stack != []
        invariant Valid() && rank == c.rank && nodes.token == c.token
        invariant DfsInv(c, forest, nodes.slots, stack, pend)
        decreases pend, |stack|
      {
        stack, pend := DestroyLoopStep(c, stack, pend);
      }
      DfsDone(c, forest, nodes.slots, pend);
      return Done;
    }

    /** One iteration of DestroyNodeIterative's loop: pop the top frame and skip, expand or destroy it. */
    method DestroyLoopStep(ghost c: Ctx, stack: seq<Frame>, ghost pend: set<nat>) returns (stack1: seq<Frame>, ghost pend1: set<nat>)
      requires Valid() && rank == c.rank && nodes.token == c.token && |stack| > 0
      requires DfsInv(c, forest, nodes.slots, stack, pend)
      modifies this, nodes
      ensures Valid() && rank == c.rank && nodes.token == c.token
      ensures DfsInv(c, forest, nodes.slots, stack1, pend1)
      ensures pend1 < pend || (pend1 == pend && |stack1| < |stack|)
    {
      if !stack[|stack| - 1].expanded {
        stack1, pend1 := VisitTop(c, stack, pend);
      } else {
        stack1 := LeaveTop(c, stack, pend);
        pend1 := pend;
      }
    }

    /** An unexpanded top frame: skipped when its handle no longer resolves, else expanded. */
    method VisitTop(ghost c: Ctx, stack: seq<Frame>, ghost pend: set<nat>) returns (stack1: seq<Frame>, ghost pend1: set<nat>)
      requires Valid() && rank == c.rank && nodes.token == c.token && |stack| > 0
      requires DfsInv(c, forest, nodes.slots, stack, pend) && !stack[|stack| - 1].expanded
      ensures DfsInv(c, forest, nodes.slots, stack1, pend1)
      ensures pend1 < pend || (pend1 == pend && |stack1| < |stack|)
    {
      var n := |stack| - 1;
      assert FrameSound(c, forest, nodes.slots, stack[n]);
      var resolves := ResolvesLive(stack[n].h);
      if !resolves {
        DfsSkip(c, forest, nodes.slots, stack, pend);
        stack1, pend1 := stack[..n], pend;
      } else {
        stack1 := ExpandTop(c, stack, pend);
        pend1 := pend - {stack[n].h.index as nat};
      }
    }

    /** An expanded top frame: skipped when its node lost its entry, else destroyed. */
    method LeaveTop(ghost c: Ctx, stack: seq<Frame>, ghost pend: set<nat>) returns (stack1: seq<Frame>)
      requires Valid() && rank == c.rank && nodes.token == c.token && |stack| > 0
      requires DfsInv(c, forest, nodes.slots, stack, pend) && stack[|stack| - 1].expanded
      modifies this, nodes
      ensures Valid() && rank == c.rank && nodes.token == c.token
      ensures stack1 == stack[..|stack| - 1]
      ensures DfsInv(c, forest, nodes.slots, stack1, pend)
    {
      var n := |stack| - 1;
      assert FrameSound(c, forest, nodes.slots, stack[n]);
      var entry := HasEntry(stack[n].h);
      if !entry {
        DfsSkip(c, forest, nodes.slots, stack, pend);
      } else {
        DfsDestroyAny(c, forest, nodes.slots, stack, pend, stack[n].h.index as nat);
        DestroyLeaf(stack[n].h);
      }
      stack1 := stack[..n];
    }

    /** The loop's resolve test on the node storage: a handle resolves exactly when it is live. */
    method ResolvesLive(h: DenseHandle) returns (b: bool)
      requires Valid()
      ensures b <==> Live(forest.hier, nodes.slots, nodes.token, h)
    {
      ResolvesIffLive(h);
      b := nodes.Resolve(h).Some?;
    }

    /**
     * The loop's EntryFor test on the hierarchy table, for a handle that is
     * live whenever its entry is: it has an entry exactly when its entry is alive.
     */
    method HasEntry(h: DenseHandle) returns (b: bool)
      requires Valid() && (h.index as nat) < |forest.hier|
      requires forest.hier[h.index].alive ==> Live(forest.hier, nodes.slots, nodes.token, h)
      ensures b <==> forest.hier[h.index].alive
    {
      ResolvesIffLive(h);
      b := EntryFor(forest.hier, h).Some?;
    }

    /** The expand step: the top frame goes back as expanded, with a pending frame for each resolving child above it. */
    method ExpandTop(ghost c: Ctx, stack: seq<Frame>, ghost pend: set<nat>) returns (stack1: seq<Frame>)
      requires Valid() && rank == c.rank && nodes.token == c.token && |stack| > 0
      requires DfsInv(c, forest, nodes.slots, stack, pend)
      requires !stack[|stack| - 1].expanded && Live(forest.hier, nodes.slots, nodes.token, stack[|stack| - 1].h)
      ensures stack[|stack| - 1].h.index as nat in pend
      ensures DfsInv(c, forest, nodes.slots, stack1, pend - {stack[|stack| - 1].h.index as nat})
    {
      var n := |stack| - 1;
      var top := stack[n];
      var pushed := PushChildren(top.h);
      DfsExpand(c, forest, nodes.slots, stack, pend);
      stack1 := stack[..n] + [Frame(top.h, true)] + pushed;
      assert stack1 == Expanded(stack, forest.hier[top.h.index].children);
    }

    /** The frames the expand step pushes for a live node: one pending frame per child, in order. */
    method PushChildren(h: DenseHandle) returns (pushed: seq<Frame>)
      requires Valid() && Live(forest.hier, nodes.slots, nodes.token, h)
      ensures pushed == Pending(forest.hier[h.index].children)
    {
      var kids := forest.hier[h.index].children;
      forall k | 0 <= k < |kids| ensures nodes.ResolveSlot(kids[k]).Some? {
        ResolvesIffLive(kids[k]);
      }
      pushed := PushResolving(kids);
    }

    /**
     * The destroy step on a live node: the node leaves its parent's children
     * and the roots, its entry is blanked and its slot destroyed in the node
     * storage (LeafRemoved, DestroyStep).
     */
    method DestroyLeaf(h: DenseHandle)
      requires Valid() && Live(forest.hier, nodes.slots, nodes.token, h)
      modifies this, nodes
      ensures rank == old(rank)
      ensures nodes.Valid() && DestroyStep(old(nodes.slots), nodes.slots, h.index as nat)
      ensures forest == LeafRemoved(old(forest), old(nodes.slots), nodes.token, h.index as nat)
    {
      var F, S := forest, nodes.slots;
      ResolvesIffLive(h);
      ghost var I := nodes.denseSlotIndices;
      var destroyed := nodes.Destroy(h);
      DestroyedSlotsView(S, I, h.index as nat);
      forest := LeafRemoved(F, S, nodes.token, h.index as nat);
    }

    /** The inner loop of the expand step: a pending frame for each child handle that resolves, in order. */
    method PushResolving(kids: seq<DenseHandle>) returns (fs: seq<Frame>)
      requires nodes.Valid()
      ensures |fs| <= |kids|
      ensures forall j :: 0 <= j < |fs| ==> !fs[j].expanded && fs[j].h in kids && nodes.ResolveSlot(fs[j].h).Some?
      ensures (forall k :: 0 <= k < |kids| ==> nodes.ResolveSlot(kids[k]).Some?) ==> fs == Pending(kids)
    {
      fs := [];
      var k := 0;
      while k < |kids|
        invariant 0 <= k <= |kids| && |fs| <= k
        invariant forall j :: 0 <= j < |fs| ==> !fs[j].expanded && fs[j].h in kids[..k] && nodes.ResolveSlot(fs[j].h).Some?
        invariant (forall i :: 0 <= i < k ==> nodes.ResolveSlot(kids[i]).Some?) ==> fs == Pending(kids[..k])
      {
        if nodes.Resolve(kids[k]).Some? {
          fs := fs + [Frame(kids[k], false)];
        }
        assert kids[..k + 1] == kids[..k] + [kids[k]];
        k := k + 1;
      }
      assert kids[..k] == kids;
    }

    /** Parent: the parent handle of a node, or null for an unknown node or one without a resolving parent. */
    function Parent(h: DenseHandle): (r: DenseHandle)
      reads this
      ensures !IsNull(r) ==> EntryFor(forest.hier, h).Some? && r == forest.hier[h.index].parent && EntryFor(forest.hier, r).Some?
    {
      match EntryFor(forest.hier, h)
      case None => NullDenseHandle
      case Some(s) =>
        var ph := forest.hier[s].parent;
        if EntryFor(forest.hier, ph).Some? then ph else NullDenseHandle
    }

    /** For a live node, Parent is the stored parent handle, and it is null exactly for the nodes listed in Roots(). */
    lemma ParentOfLive(h: DenseHandle)
      requires Valid() && Live(forest.hier, nodes.slots, nodes.token, h)
      ensures IsNull(Parent(h)) <==> IsNull(forest.hier[h.index].parent)
      ensures !IsNull(Parent(h)) ==> Parent(h) == forest.hier[h.index].parent
      ensures IsNull(Parent(h)) <==> h in Roots()
    {
      RootIffParentless(forest.hier, nodes.slots, nodes.token, forest.roots, rank, h);
    }

    /** Children: the child handles of a node whose hierarchy entries resolve, in list order. */
    method Children(h: DenseHandle) returns (kids: seq<DenseHandle>)
      requires Valid()
      ensures EntryFor(forest.hier, h).None? ==> kids == []
      ensures EntryFor(forest.hier, h).Some? ==> kids == forest.hier[h.index].children
      ensures Live(forest.hier, nodes.slots, nodes.token, h) ==> forall k :: 0 <= k < |kids| ==> Live(forest.hier, nodes.slots, nodes.token, kids[k])
    {
      var hier := forest.hier;
      var e := EntryFor(hier, h);
      if e.None? {
        return [];
      }
      var all := hier[e.value].children;
      forall j | 0 <= j < |all| ensures EntryFor(hier, all[j]).Some? {
        ResolvesIffLive(all[j]);
      }
      kids := KeepWithEntry(hier, all);
    }

    /** Each child of a live node is live, and Parent gives back the node. */
    lemma ChildOfLive(h: DenseHandle, k: nat)
      requires Valid() && Live(forest.hier, nodes.slots, nodes.token, h) && k < |forest.hier[h.index].children|
      ensures var g := forest.hier[h.index].children[k];
        Live(forest.hier, nodes.slots, nodes.token, g) && Parent(g) == h && g !in Roots()
    {
      var g := forest.hier[h.index].children[k];
      ParentOfLive(g);
    }

    /** Roots: the handles of the parentless nodes. */
    function Roots(): (r: seq<DenseHandle>)
      reads this
      ensures r == forest.roots
    {
      forest.roots
    }

    /** Clear: no nodes, no hierarchy, no roots; every node handle issued so far goes stale. */
    method Clear()
      requires Valid()
      modifies this, nodes
      ensures Valid()
      ensures forest == Forest([], []) && nodes.idToSlot == map[]
      ensures nodes.slots == AllRetired(old(nodes.slots))
    {
      forest, rank := Forest([], []), map[];
      nodes.Clear();
    }
  }

  /** The loop of Children: the handles of `all` that have a hierarchy entry, in order. */
  method KeepWithEntry(hier: seq<Entry>, all: seq<DenseHandle>) returns (kids: seq<DenseHandle>)
    ensures forall g :: g in kids ==> g in all && EntryFor(hier, g).Some?
    ensures (forall j :: 0 <= j < |all| ==> EntryFor(hier, all[j]).Some?) ==> kids == all
  {
    kids := [];
    var k := 0;
    while k < |all|
      invariant 0 <= k <= |all|
      invariant forall g :: g in kids ==> g in all[..k] && EntryFor(hier, g).Some?
      invariant (forall j :: 0 <= j < k ==> EntryFor(hier, all[j]).Some?) ==> kids == all[..k]
    {
      if EntryFor(hier, all[k]).Some? {
        kids := kids + [all[k]];
      }
      assert all[..k + 1] == all[..k] + [all[k]];
      k := k + 1;
    }
    assert all[..k] == all;
  }
}
