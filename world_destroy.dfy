/**
 * DestroyNodeIterative of include/WorldEcsRuntime.h: an explicit stack of
 * (handle, expanded) frames. A frame seen for the first time is pushed back
 * as expanded together with its resolving children; an expanded frame is
 * destroyed: unlinked from its parent, dropped from the roots, its entry
 * blanked and its slot destroyed in the node storage.
 *
 * This module states the traversal's invariant over values and proves that
 * each step keeps it and that the empty stack means exactly the old subtree
 * is gone. The class method in WorldNodes only performs the steps.
 */
module WorldDestroy {
  import opened Common
  import opened DenseRuntime
  import opened WorldHierarchy

  /** An entry of the traversal stack. */
  datatype Frame = Frame(h: DenseHandle, expanded: bool)

  /** Unexpanded frames for `kids`, in order. */
  function Pending(kids: seq<DenseHandle>): (r: seq<Frame>)
    ensures |r| == |kids| && forall j :: 0 <= j < |kids| ==> r[j] == Frame(kids[j], false)
  {
    seq(|kids|, j requires 0 <= j < |kids| => Frame(kids[j], false))
  }

  // ---------------------------------------------------------------------
  // Subtrees

  /** Only a live node has a subtree. */
  lemma {:induction false} SubtreeTopAlive(hier: seq<Entry>, rank: map<nat, nat>, s: nat, x: nat)
    requires Ranked(hier, rank) && InSubtree(hier, rank, s, x)
    ensures x < |hier| && hier[x].alive
    decreases rank[s]
  {
    if s != x {
      SubtreeTopAlive(hier, rank, hier[s].parent.index as nat, x);
    }
  }

  /** A node strictly below `u` lies in the subtree of one of `u`'s children. */
  lemma {:induction false} BelowSomeChild(hier: seq<Entry>, slots: seq<SlotMeta>, token: U32, rank: map<nat, nat>, s: nat, u: nat)
    returns (g: DenseHandle)
    requires Ranked(hier, rank) && ParentsLinked(hier, slots, token)
    requires InSubtree(hier, rank, s, u) && s != u
    ensures u < |hier| && g in hier[u].children && InSubtree(hier, rank, s, g.index as nat)
    decreases rank[s]
  {
    SubtreeTopAlive(hier, rank, s, u);
    var p := hier[s].parent.index as nat;
    if p == u {
      g := Canon(slots, token, s);
    } else {
      g := BelowSomeChild(hier, slots, token, rank, p, u);
    }
  }

  /** The subtree of a childless node is the node itself. */
  lemma LeafSubtree(hier: seq<Entry>, slots: seq<SlotMeta>, token: U32, rank: map<nat, nat>, s: nat, x: nat)
    requires Ranked(hier, rank) && ParentsLinked(hier, slots, token)
    requires InSubtree(hier, rank, s, x) && x < |hier| && hier[x].children == []
    ensures s == x
  {
    if s != x {
      var g := BelowSomeChild(hier, slots, token, rank, s, x);
    }
  }

  /** The destroy step changes the node's own entry and, when its parent resolves, the parent's child list. */
  lemma LeafRemovedView(hier: seq<Entry>, slots: seq<SlotMeta>, token: U32, x: nat)
    requires x < |hier| <= |slots| <= U32Max
    ensures var r := LeafRemovedHier(hier, slots, token, x);
      var ph := hier[x].parent;
      forall t :: 0 <= t < |r| && t != x ==>
        r[t] == if !IsNull(ph) && EntryFor(hier, ph).Some? && t == ph.index as nat
                then hier[t].(children := RemoveAll(hier[t].children, Canon(slots, token, x)))
                else hier[t]
  {
  }

  /** Removing a childless node leaves every other node's ancestry as it was. */
  lemma {:induction false} LeafRemovedKeepsSubtree(hier: seq<Entry>, slots: seq<SlotMeta>, token: U32, rank: map<nat, nat>,
                                                   x: nat, s: nat, y: nat)
    requires Ranked(hier, rank) && ParentsLinked(hier, slots, token)
    requires x < |hier| && hier[x].alive && hier[x].children == []
    requires Ranked(LeafRemovedHier(hier, slots, token, x), rank)
    requires s != x
    ensures InSubtree(LeafRemovedHier(hier, slots, token, x), rank, s, y) <==> InSubtree(hier, rank, s, y)
    decreases if s < |hier| && hier[s].alive then rank[s] else 0
  {
    if s < |hier| && hier[s].alive && s != y && !IsNull(hier[s].parent) {
      var p := hier[s].parent.index as nat;
      assert p != x by {
        assert Canon(slots, token, s) in hier[p].children;
      }
      LeafRemovedKeepsSubtree(hier, slots, token, rank, x, p, y);
    }
  }

  // ---------------------------------------------------------------------
  // The traversal's context and invariant

  /** The state when the traversal starts: hierarchy, roots, slots, token, ranks and the root slot. */
  datatype Ctx = Ctx(H0: seq<Entry>, R0: seq<DenseHandle>, slots0: seq<SlotMeta>, token: U32, rank: map<nat, nat>, r: nat)

  ghost predicate CtxOk(c: Ctx) {
    && ForestInv(c.H0, c.slots0, c.token, c.R0, c.rank)
    && c.r < |c.H0| && c.H0[c.r].alive
  }

  /** The handle of the destroyed subtree's root. */
  function RootHandle(c: Ctx): (h: DenseHandle)
    requires c.r < |c.slots0| <= U32Max
  {
    Canon(c.slots0, c.token, c.r)
  }

  /** Slot `s` was in the subtree of the root when the traversal started. */
  ghost predicate InOld(c: Ctx, s: nat)
    requires CtxOk(c)
  {
    InSubtree(c.H0, c.rank, s, c.r)
  }

  /** The hierarchy once the subtree of slot `r` is gone: its entries blank, and `r`'s parent no longer listing it. */
  ghost function SubtreeRemovedHier(H0: seq<Entry>, slots0: seq<SlotMeta>, token: U32, rank: map<nat, nat>, r: nat): (h: seq<Entry>)
    requires Ranked(H0, rank) && r < |H0| <= |slots0| <= U32Max
    ensures |h| == |H0|
  {
    var d := DetachedHier(H0, slots0, token, r);
    seq(|H0|, t requires 0 <= t < |H0| => if InSubtree(H0, rank, t, r) then BlankEntry else d[t])
  }

  /** DestroyNode's edit: the subtree's entries blanked, the root unlinked from its parent and dropped from the roots. */
  ghost function SubtreeRemoved(f: Forest, slots0: seq<SlotMeta>, token: U32, rank: map<nat, nat>, r: nat): (g: Forest)
    requires Ranked(f.hier, rank) && r < |f.hier| <= |slots0| <= U32Max
  {
    Forest(SubtreeRemovedHier(f.hier, slots0, token, rank, r), RemoveFirst(f.roots, Canon(slots0, token, r)))
  }

  /** A node that is live now was live at the start, with the same parent, generation and slot identity. */
  ghost predicate SameLive(c: Ctx, F: Forest, slots: seq<SlotMeta>, t: nat)
    requires t < |F.hier| == |c.H0| && t < |slots| == |c.slots0|
  {
    F.hier[t].alive ==>
      && c.H0[t].alive && F.hier[t].parent == c.H0[t].parent && F.hier[t].generation == c.H0[t].generation
      && slots[t].id == c.slots0[t].id && slots[t].generation == c.slots0[t].generation
  }

  /** The entry of a slot outside the subtree: as at the start until the root goes, then as after DetachChild(root). */
  ghost function Outside(c: Ctx, rootAlive: bool, t: nat): Entry
    requires CtxOk(c) && t < |c.H0|
  {
    if rootAlive then c.H0[t] else DetachedHier(c.H0, c.slots0, c.token, c.r)[t]
  }

  /** The forest has the starting size, and whatever is live now was live then, with the same parent, generation and slot identity. */
  ghost predicate AgreeLive(c: Ctx, F: Forest, slots: seq<SlotMeta>) {
    && |F.hier| == |c.H0| && |slots| == |c.slots0| && |c.H0| <= |c.slots0|
    && (forall t :: 0 <= t < |F.hier| ==> SameLive(c, F, slots, t))
  }

  /**
   * Entries outside the old subtree are as at the start until the root goes,
   * then as after DetachChild(root); dead entries inside it are blank; the
   * roots lose the root handle when the root goes.
   */
  ghost predicate AgreeRest(c: Ctx, F: Forest)
    requires CtxOk(c) && |F.hier| == |c.H0|
  {
    && (forall t :: 0 <= t < |F.hier| && !InOld(c, t) ==> F.hier[t] == Outside(c, F.hier[c.r].alive, t))
    && (forall t :: 0 <= t < |F.hier| && InOld(c, t) && !F.hier[t].alive ==> F.hier[t] == BlankEntry)
    && F.roots == if F.hier[c.r].alive then c.R0 else RemoveFirst(c.R0, RootHandle(c))
  }

  /** A frame names a slot of the old subtree, by its current handle while the slot is live. */
  ghost predicate FrameSound(c: Ctx, F: Forest, slots: seq<SlotMeta>, f: Frame)
    requires CtxOk(c) && |F.hier| == |c.H0|
  {
    && (f.h.index as nat) < |F.hier| && InOld(c, f.h.index as nat)
    && (F.hier[f.h.index].alive ==> Live(F.hier, slots, c.token, f.h))
  }

  ghost predicate FramesSound(c: Ctx, F: Forest, slots: seq<SlotMeta>, st: seq<Frame>)
    requires CtxOk(c) && |F.hier| == |c.H0|
  {
    forall j :: 0 <= j < |st| ==> FrameSound(c, F, slots, st[j])
  }

  /** The frame names a live slot and has not been expanded. */
  ghost predicate LiveUnexpanded(F: Forest, f: Frame) {
    (f.h.index as nat) < |F.hier| && !f.expanded && F.hier[f.h.index].alive
  }

  /** A live unexpanded frame is still pending, and its parent is not (unless it is the root). */
  ghost predicate PendOk(c: Ctx, F: Forest, f: Frame, pend: set<nat>) {
    LiveUnexpanded(F, f) ==>
      && f.h.index as nat in pend
      && (f.h.index as nat == c.r || F.hier[f.h.index].parent.index as nat !in pend)
  }

  ghost predicate FramesPending(c: Ctx, F: Forest, st: seq<Frame>, pend: set<nat>) {
    forall j :: 0 <= j < |st| ==> PendOk(c, F, st[j], pend)
  }

  /** No two unexpanded frames hold the same live handle. */
  ghost predicate Distinct(F: Forest, st: seq<Frame>) {
    forall i, j :: 0 <= i < j < |st| && LiveUnexpanded(F, st[i]) && !st[j].expanded ==> st[i].h != st[j].h
  }

  /** Some frame above position `i` holds `g`. */
  ghost predicate HandleAbove(st: seq<Frame>, i: nat, g: DenseHandle) {
    exists j :: i < j < |st| && st[j].h == g
  }

  /** Every child of a live expanded frame is held by a frame above it. */
  ghost predicate KidsAbove(F: Forest, st: seq<Frame>, i: nat)
    requires i < |st|
  {
    (st[i].h.index as nat) < |F.hier| && st[i].expanded && F.hier[st[i].h.index].alive ==>
      forall g :: g in F.hier[st[i].h.index].children ==> HandleAbove(st, i, g)
  }

  ghost predicate KidsAboveAll(F: Forest, st: seq<Frame>) {
    forall i :: 0 <= i < |st| ==> KidsAbove(F, st, i)
  }

  /** Outside the pending set the old subtree is closed upwards: an expanded node's parent was expanded first. */
  ghost predicate PendClosed(c: Ctx, F: Forest, pend: set<nat>)
    requires CtxOk(c)
  {
    forall s :: 0 <= s < |F.hier| && F.hier[s].alive && InOld(c, s) && s != c.r && s !in pend ==>
      F.hier[s].parent.index as nat !in pend
  }

  /** Slot `s` is in the current subtree of some frame. */
  ghost predicate Covered(F: Forest, rank: map<nat, nat>, st: seq<Frame>, s: nat)
    requires Ranked(F.hier, rank)
  {
    exists j :: 0 <= j < |st| && InSubtree(F.hier, rank, s, st[j].h.index as nat)
  }

  /** Every live node of the old subtree is still to be reached from some frame. */
  ghost predicate AllCovered(c: Ctx, F: Forest, st: seq<Frame>)
    requires CtxOk(c) && Ranked(F.hier, c.rank)
  {
    forall s :: 0 <= s < |F.hier| && F.hier[s].alive && InOld(c, s) ==> Covered(F, c.rank, st, s)
  }

  /** The loop invariant of DestroyNodeIterative. */
  ghost predicate DfsInv(c: Ctx, F: Forest, slots: seq<SlotMeta>, st: seq<Frame>, pend: set<nat>) {
    && CtxOk(c) && ForestOk(F, slots, c.token, c.rank)
    && AgreeLive(c, F, slots) && AgreeRest(c, F)
    && FramesSound(c, F, slots, st) && FramesPending(c, F, st, pend) && Distinct(F, st)
    && KidsAboveAll(F, st) && PendClosed(c, F, pend) && AllCovered(c, F, st)
  }

  // ---------------------------------------------------------------------
  // Start and finish

  /** The stack holds only the root frame, unexpanded; every slot is pending. */
  lemma DfsStart(c: Ctx)
    requires CtxOk(c)
    ensures DfsInv(c, Forest(c.H0, c.R0), c.slots0, [Frame(RootHandle(c), false)], Below(|c.H0|))
  {
    var F := Forest(c.H0, c.R0);
    var st := [Frame(RootHandle(c), false)];
    forall s | 0 <= s < |F.hier| && F.hier[s].alive && InOld(c, s) ensures Covered(F, c.rank, st, s) {
      assert InSubtree(F.hier, c.rank, s, st[0].h.index as nat);
    }
  }

  /** With the stack empty, exactly the old subtree is gone. */
  lemma DfsDone(c: Ctx, F: Forest, slots: seq<SlotMeta>, pend: set<nat>)
    requires DfsInv(c, F, slots, [], pend)
    ensures F == SubtreeRemoved(Forest(c.H0, c.R0), c.slots0, c.token, c.rank, c.r)
  {
    assert forall s :: 0 <= s < |F.hier| && InOld(c, s) ==> !F.hier[s].alive;
    assert InOld(c, c.r);
    var G := SubtreeRemoved(Forest(c.H0, c.R0), c.slots0, c.token, c.rank, c.r);
    forall t | 0 <= t < |F.hier| ensures F.hier[t] == G.hier[t] {
    }
    assert F.hier == G.hier;
  }

  // ---------------------------------------------------------------------
  // Popping a frame whose slot is dead

  lemma SkipKids(c: Ctx, F: Forest, slots: seq<SlotMeta>, st: seq<Frame>)
    requires CtxOk(c) && ForestOk(F, slots, c.token, c.rank) && |F.hier| == |c.H0|
    requires KidsAboveAll(F, st) && |st| > 0
    requires (st[|st| - 1].h.index as nat) < |F.hier| && !F.hier[st[|st| - 1].h.index].alive
    ensures KidsAboveAll(F, st[..|st| - 1])
  {
    var n := |st| - 1;
    var st1 := st[..n];
    forall i | 0 <= i < |st1| ensures KidsAbove(F, st1, i) {
      assert KidsAbove(F, st, i);
      var y := st1[i].h.index as nat;
      if y < |F.hier| && st1[i].expanded && F.hier[y].alive {
        forall g | g in F.hier[y].children ensures HandleAbove(st1, i, g) {
          assert HandleAbove(st, i, g);
          var j :| i < j < |st| && st[j].h == g;
          var k :| 0 <= k < |F.hier[y].children| && F.hier[y].children[k] == g;
          assert Live(F.hier, slots, c.token, g);
          assert st1[j].h == g;
        }
      }
    }
  }

  lemma SkipCovered(c: Ctx, F: Forest, st: seq<Frame>)
    requires CtxOk(c) && Ranked(F.hier, c.rank) && AllCovered(c, F, st) && |st| > 0
    requires (st[|st| - 1].h.index as nat) < |F.hier| && !F.hier[st[|st| - 1].h.index].alive
    ensures AllCovered(c, F, st[..|st| - 1])
  {
    var n := |st| - 1;
    var st1 := st[..n];
    forall s | 0 <= s < |F.hier| && F.hier[s].alive && InOld(c, s) ensures Covered(F, c.rank, st1, s) {
      assert Covered(F, c.rank, st, s);
      var j :| 0 <= j < |st| && InSubtree(F.hier, c.rank, s, st[j].h.index as nat);
      if j == n {
        SubtreeTopAlive(F.hier, c.rank, s, st[j].h.index as nat);
      }
      assert InSubtree(F.hier, c.rank, s, st1[j].h.index as nat);
    }
  }

  /** Popping a frame whose slot is no longer live keeps the invariant. */
  lemma DfsSkip(c: Ctx, F: Forest, slots: seq<SlotMeta>, st: seq<Frame>, pend: set<nat>)
    requires DfsInv(c, F, slots, st, pend) && |st| > 0
    requires !F.hier[st[|st| - 1].h.index].alive
    ensures DfsInv(c, F, slots, st[..|st| - 1], pend)
  {
    SkipKids(c, F, slots, st);
    SkipCovered(c, F, st);
  }

  // ---------------------------------------------------------------------
  // Expanding a live unexpanded frame

  /** The stack after expanding its top frame. */
  function Expanded(st: seq<Frame>, kids: seq<DenseHandle>): (r: seq<Frame>)
    requires |st| > 0
    ensures |r| == |st| + |kids|
    ensures forall j :: 0 <= j < |st| ==> r[j].h == st[j].h
    ensures forall j :: 0 <= j < |st| - 1 ==> r[j] == st[j]
    ensures r[|st| - 1] == Frame(st[|st| - 1].h, true)
    ensures forall k :: 0 <= k < |kids| ==> r[|st| + k] == Frame(kids[k], false)
  {
    st[..|st| - 1] + [Frame(st[|st| - 1].h, true)] + Pending(kids)
  }

  /** What the invariant says about the `k`-th child of a live unexpanded frame. */
  lemma ExpandFacts(c: Ctx, F: Forest, slots: seq<SlotMeta>, top: Frame, pend: set<nat>, k: nat)
    requires CtxOk(c) && ForestOk(F, slots, c.token, c.rank) && AgreeLive(c, F, slots) && PendClosed(c, F, pend)
    requires FrameSound(c, F, slots, top) && PendOk(c, F, top, pend)
    requires !top.expanded && F.hier[top.h.index].alive && k < |F.hier[top.h.index].children|
    ensures var u := top.h;
      var g := F.hier[u.index].children[k];
      && u.index as nat in pend && Live(F.hier, slots, c.token, u)
      && Live(F.hier, slots, c.token, g) && F.hier[g.index].parent == u
      && InOld(c, g.index as nat) && g.index as nat != c.r && g.index != u.index
      && g.index as nat in pend
  {
    var u := top.h;
    var ui := u.index as nat;
    var g := F.hier[ui].children[k];
    var gi := g.index as nat;
    assert Live(F.hier, slots, c.token, g) && F.hier[gi].parent == Canon(slots, c.token, ui);
    assert SameLive(c, F, slots, gi);
    assert InOld(c, gi);
    SubtreeRankBound(c.H0, c.rank, ui, c.r);
  }

  /** A frame below the top stays pending where needed once the top leaves the pending set. */
  lemma ExpandKeepsFrame(c: Ctx, F: Forest, slots: seq<SlotMeta>, fj: Frame, fn: Frame, pend: set<nat>)
    requires CtxOk(c) && |F.hier| == |c.H0|
    requires FrameSound(c, F, slots, fj) && FrameSound(c, F, slots, fn) && PendOk(c, F, fj, pend)
    requires F.hier[fn.h.index].alive
    requires LiveUnexpanded(F, fj) ==> fj.h != fn.h
    ensures PendOk(c, F, fj, pend - {fn.h.index as nat})
  {
  }

  /** The frames below the top keep their facts once the top's slot leaves the pending set. */
  lemma LowerFrames(c: Ctx, F: Forest, slots: seq<SlotMeta>, st: seq<Frame>, pend: set<nat>)
    requires CtxOk(c) && |F.hier| == |c.H0|
    requires FramesSound(c, F, slots, st) && FramesPending(c, F, st, pend) && Distinct(F, st) && |st| > 0
    requires !st[|st| - 1].expanded && F.hier[st[|st| - 1].h.index].alive
    ensures FramesSound(c, F, slots, st[..|st| - 1]) && FramesPending(c, F, st[..|st| - 1], pend)
    ensures FramesPending(c, F, st[..|st| - 1], pend - {st[|st| - 1].h.index as nat})
  {
    var n := |st| - 1;
    assert FrameSound(c, F, slots, st[n]);
    forall j | 0 <= j < n ensures PendOk(c, F, st[j], pend - {st[n].h.index as nat}) {
      assert FrameSound(c, F, slots, st[j]) && PendOk(c, F, st[j], pend);
      ExpandKeepsFrame(c, F, slots, st[j], st[n], pend);
    }
  }

  /** The child frames pushed by the expansion are sound and pending. */
  lemma KidFrames(c: Ctx, F: Forest, slots: seq<SlotMeta>, top: Frame, pend: set<nat>)
    requires CtxOk(c) && ForestOk(F, slots, c.token, c.rank) && AgreeLive(c, F, slots) && PendClosed(c, F, pend)
    requires FrameSound(c, F, slots, top) && PendOk(c, F, top, pend)
    requires !top.expanded && F.hier[top.h.index].alive
    ensures FramesSound(c, F, slots, Pending(F.hier[top.h.index].children))
    ensures FramesPending(c, F, Pending(F.hier[top.h.index].children), pend - {top.h.index as nat})
  {
    var kids := F.hier[top.h.index].children;
    var fs := Pending(kids);
    forall k | 0 <= k < |fs|
      ensures FrameSound(c, F, slots, fs[k]) && PendOk(c, F, fs[k], pend - {top.h.index as nat})
    {
      ExpandFacts(c, F, slots, top, pend, k);
    }
  }

  /** Frame facts carry over to the expanded stack, whose parts are the lower frames, the top and the child frames. */
  lemma ExpandSound(c: Ctx, F: Forest, slots: seq<SlotMeta>, st: seq<Frame>, kids: seq<DenseHandle>, pend1: set<nat>)
    requires CtxOk(c) && |F.hier| == |c.H0| && |st| > 0
    requires FrameSound(c, F, slots, st[|st| - 1])
    requires FramesSound(c, F, slots, st[..|st| - 1]) && FramesPending(c, F, st[..|st| - 1], pend1)
    requires FramesSound(c, F, slots, Pending(kids)) && FramesPending(c, F, Pending(kids), pend1)
    ensures FramesSound(c, F, slots, Expanded(st, kids)) && FramesPending(c, F, Expanded(st, kids), pend1)
  {
    var n := |st| - 1;
    var st1 := Expanded(st, kids);
    var lower, fs := st[..n], Pending(kids);
    forall j | 0 <= j < |st1| ensures FrameSound(c, F, slots, st1[j]) && PendOk(c, F, st1[j], pend1) {
      if j < n {
        assert st1[j] == lower[j];
      } else if j > n {
        assert st1[j] == fs[j - |st|];
      }
    }
  }

  /** A child frame pushed by the expansion differs from every live unexpanded frame already on the stack. */
  lemma ExpandChildFresh(c: Ctx, F: Forest, slots: seq<SlotMeta>, fi: Frame, top: Frame, pend: set<nat>, k: nat)
    requires CtxOk(c) && ForestOk(F, slots, c.token, c.rank) && AgreeLive(c, F, slots) && PendClosed(c, F, pend)
    requires FrameSound(c, F, slots, top) && PendOk(c, F, top, pend)
    requires !top.expanded && F.hier[top.h.index].alive && k < |F.hier[top.h.index].children|
    requires FrameSound(c, F, slots, fi) && PendOk(c, F, fi, pend) && LiveUnexpanded(F, fi)
    ensures fi.h != F.hier[top.h.index].children[k]
  {
    ExpandFacts(c, F, slots, top, pend, k);
  }

  /** A live node's children are distinct. */
  lemma KidsDistinct(F: Forest, slots: seq<SlotMeta>, token: U32, rank: map<nat, nat>, u: nat)
    requires ForestOk(F, slots, token, rank) && u < |F.hier| && F.hier[u].alive
    ensures NoDuplicates(F.hier[u].children)
  {
  }

  /** No handle of `kids` is held by a live unexpanded frame of `lower`. */
  ghost predicate FreshKids(F: Forest, lower: seq<Frame>, kids: seq<DenseHandle>) {
    forall i, k :: 0 <= i < |lower| && 0 <= k < |kids| && LiveUnexpanded(F, lower[i]) ==> lower[i].h != kids[k]
  }

  /** No child of the top frame is held by a live unexpanded frame below it. */
  lemma KidsFresh(c: Ctx, F: Forest, slots: seq<SlotMeta>, st: seq<Frame>, pend: set<nat>)
    requires DfsInv(c, F, slots, st, pend) && |st| > 0
    requires !st[|st| - 1].expanded && F.hier[st[|st| - 1].h.index].alive
    ensures FreshKids(F, st[..|st| - 1], F.hier[st[|st| - 1].h.index].children)
  {
    KidsFreshBelow(c, F, slots, st, st[..|st| - 1], pend);
  }

  /** KidsFresh, from the parts of the traversal invariant it needs. */
  lemma KidsFreshBelow(c: Ctx, F: Forest, slots: seq<SlotMeta>, st: seq<Frame>, lower: seq<Frame>, pend: set<nat>)
    requires CtxOk(c) && ForestOk(F, slots, c.token, c.rank) && AgreeLive(c, F, slots) && PendClosed(c, F, pend)
    requires |F.hier| == |c.H0| && FramesSound(c, F, slots, st) && FramesPending(c, F, st, pend)
    requires |st| > 0 && lower == st[..|st| - 1]
    requires !st[|st| - 1].expanded && F.hier[st[|st| - 1].h.index].alive
    ensures FreshKids(F, lower, F.hier[st[|st| - 1].h.index].children)
  {
    var top := st[|st| - 1];
    var kids := F.hier[top.h.index].children;
    forall i, k | 0 <= i < |lower| && 0 <= k < |kids| && LiveUnexpanded(F, lower[i]) ensures lower[i].h != kids[k] {
      assert lower[i] == st[i];
      ExpandChildFresh(c, F, slots, st[i], top, pend, k);
    }
  }

  /** The expanded stack keeps its live unexpanded frames distinct. */
  lemma ExpandDistinct(F: Forest, st: seq<Frame>)
    requires Distinct(F, st) && |st| > 0 && (st[|st| - 1].h.index as nat) < |F.hier|
    requires NoDuplicates(F.hier[st[|st| - 1].h.index].children)
    requires FreshKids(F, st[..|st| - 1], F.hier[st[|st| - 1].h.index].children)
    ensures Distinct(F, Expanded(st, F.hier[st[|st| - 1].h.index].children))
  {
    var n := |st| - 1;
    var kids := F.hier[st[n].h.index].children;
    var st1 := Expanded(st, kids);
    forall i, j | 0 <= i < j < |st1| && LiveUnexpanded(F, st1[i]) && !st1[j].expanded ensures st1[i].h != st1[j].h {
      if j >= |st| && i < n {
        assert st1[i] == st[..n][i] && st1[j].h == kids[j - |st|];
      } else if i > n {
        assert st1[i].h == kids[i - |st|] && st1[j].h == kids[j - |st|];
      }
    }
  }

  lemma ExpandKids(F: Forest, st: seq<Frame>)
    requires KidsAboveAll(F, st) && |st| > 0 && (st[|st| - 1].h.index as nat) < |F.hier|
    ensures KidsAboveAll(F, Expanded(st, F.hier[st[|st| - 1].h.index].children))
  {
    var n := |st| - 1;
    var kids := F.hier[st[n].h.index].children;
    var st1 := Expanded(st, kids);
    forall i | 0 <= i < |st1| ensures KidsAbove(F, st1, i) {
      if i < n {
        assert KidsAbove(F, st, i);
        var y := st1[i].h.index as nat;
        if y < |F.hier| && st1[i].expanded && F.hier[y].alive {
          forall g | g in F.hier[y].children ensures HandleAbove(st1, i, g) {
            assert HandleAbove(st, i, g);
            var j :| i < j < |st| && st[j].h == g;
            assert st1[j].h == g;
          }
        }
      } else if i == n {
        forall g | g in kids ensures HandleAbove(st1, i, g) {
          var k :| 0 <= k < |kids| && kids[k] == g;
          assert st1[|st| + k].h == g;
        }
      }
    }
  }

  lemma ExpandClosed(c: Ctx, F: Forest, top: Frame, pend: set<nat>)
    requires CtxOk(c) && PendClosed(c, F, pend) && PendOk(c, F, top, pend) && LiveUnexpanded(F, top)
    ensures PendClosed(c, F, pend - {top.h.index as nat})
  {
  }

  lemma ExpandCovered(c: Ctx, F: Forest, st: seq<Frame>, kids: seq<DenseHandle>)
    requires CtxOk(c) && Ranked(F.hier, c.rank) && AllCovered(c, F, st) && |st| > 0
    ensures AllCovered(c, F, Expanded(st, kids))
  {
    var st1 := Expanded(st, kids);
    forall s | 0 <= s < |F.hier| && F.hier[s].alive && InOld(c, s) ensures Covered(F, c.rank, st1, s) {
      assert Covered(F, c.rank, st, s);
      var j :| 0 <= j < |st| && InSubtree(F.hier, c.rank, s, st[j].h.index as nat);
      assert InSubtree(F.hier, c.rank, s, st1[j].h.index as nat);
    }
  }

  /** Expanding the top frame keeps the frames sound and pending. */
  lemma ExpandFrames(c: Ctx, F: Forest, slots: seq<SlotMeta>, st: seq<Frame>, pend: set<nat>)
    requires DfsInv(c, F, slots, st, pend) && |st| > 0
    requires !st[|st| - 1].expanded && F.hier[st[|st| - 1].h.index].alive
    ensures st[|st| - 1].h.index as nat in pend
    ensures var u := st[|st| - 1].h; var st1 := Expanded(st, F.hier[u.index].children);
      FramesSound(c, F, slots, st1) && FramesPending(c, F, st1, pend - {u.index as nat})
  {
    var n := |st| - 1;
    assert FrameSound(c, F, slots, st[n]) && PendOk(c, F, st[n], pend);
    var kids := F.hier[st[n].h.index].children;
    LowerFrames(c, F, slots, st, pend);
    KidFrames(c, F, slots, st[n], pend);
    ExpandSound(c, F, slots, st, kids, pend - {st[n].h.index as nat});
  }

  /** Expanding the top frame keeps the pending frames distinct. */
  lemma ExpandStaysDistinct(c: Ctx, F: Forest, slots: seq<SlotMeta>, st: seq<Frame>, pend: set<nat>)
    requires DfsInv(c, F, slots, st, pend) && |st| > 0
    requires !st[|st| - 1].expanded && F.hier[st[|st| - 1].h.index].alive
    ensures Distinct(F, Expanded(st, F.hier[st[|st| - 1].h.index].children))
  {
    var n := |st| - 1;
    KidsFresh(c, F, slots, st, pend);
    KidsDistinct(F, slots, c.token, c.rank, st[n].h.index as nat);
    ExpandDistinct(F, st);
  }

  /** Expanding the top frame keeps the children above their parents, the pending set closed and every old node covered. */
  lemma ExpandShape(c: Ctx, F: Forest, slots: seq<SlotMeta>, st: seq<Frame>, pend: set<nat>)
    requires DfsInv(c, F, slots, st, pend) && |st| > 0
    requires !st[|st| - 1].expanded && F.hier[st[|st| - 1].h.index].alive
    ensures var u := st[|st| - 1].h; var st1 := Expanded(st, F.hier[u.index].children);
      KidsAboveAll(F, st1) && PendClosed(c, F, pend - {u.index as nat}) && AllCovered(c, F, st1)
  {
    var n := |st| - 1;
    assert FrameSound(c, F, slots, st[n]) && PendOk(c, F, st[n], pend);
    ExpandKids(F, st);
    ExpandClosed(c, F, st[n], pend);
    ExpandCovered(c, F, st, F.hier[st[n].h.index].children);
  }

  /** Expanding the top frame keeps the invariant, and its slot leaves the pending set. */
  lemma DfsExpand(c: Ctx, F: Forest, slots: seq<SlotMeta>, st: seq<Frame>, pend: set<nat>)
    requires DfsInv(c, F, slots, st, pend) && |st| > 0
    requires !st[|st| - 1].expanded && F.hier[st[|st| - 1].h.index].alive
    ensures st[|st| - 1].h.index as nat in pend
    ensures var u := st[|st| - 1].h;
      DfsInv(c, F, slots, Expanded(st, F.hier[u.index].children), pend - {u.index as nat})
  {
    ExpandFrames(c, F, slots, st, pend);
    ExpandStaysDistinct(c, F, slots, st, pend);
    ExpandShape(c, F, slots, st, pend);
  }

  // ---------------------------------------------------------------------
  // Destroying an expanded frame's node

  /** The top frame, expanded and live, names a live leaf of the old subtree. */
  lemma DestroyLeafFacts(c: Ctx, F: Forest, slots: seq<SlotMeta>, st: seq<Frame>)
    requires CtxOk(c) && |F.hier| == |c.H0| && FramesSound(c, F, slots, st) && KidsAboveAll(F, st) && |st| > 0
    requires st[|st| - 1].expanded && F.hier[st[|st| - 1].h.index].alive
    ensures var x := st[|st| - 1].h;
      && F.hier[x.index].children == [] && Live(F.hier, slots, c.token, x) && InOld(c, x.index as nat)
  {
    var n := |st| - 1;
    assert FrameSound(c, F, slots, st[n]);
    assert KidsAbove(F, st, n);
    var kids := F.hier[st[n].h.index].children;
    assert forall g :: !HandleAbove(st, n, g);
    NoMemberEmpty(kids);
  }

  /** A sequence with no members is empty. */
  lemma NoMemberEmpty<T>(s: seq<T>)
    requires forall x :: x !in s
    ensures s == []
  {
    forall x ensures multiset(s)[x] == 0 {
      assert x !in s;
    }
    assert multiset(s) == multiset{};
  }

  /** After the destroy step, the live slots are the old live slots but `x`, with their parents; handles other than `x`'s are unchanged. */
  lemma DestroyKeepsLive(F: Forest, slots: seq<SlotMeta>, token: U32, x: nat, slots1: seq<SlotMeta>, h: DenseHandle)
    requires x < |F.hier| <= |slots| <= U32Max && DestroyStep(slots, slots1, x)
    requires Live(F.hier, slots, token, h) && h.index as nat != x
    ensures Live(LeafRemoved(F, slots, token, x).hier, slots1, token, h)
  {
  }

  lemma DestroyAgreeLive(c: Ctx, F: Forest, slots: seq<SlotMeta>, x: nat, slots1: seq<SlotMeta>)
    requires AgreeLive(c, F, slots) && x < |F.hier| <= |slots| <= U32Max && DestroyStep(slots, slots1, x)
    ensures AgreeLive(c, LeafRemoved(F, slots, c.token, x), slots1)
  {
    var F1 := LeafRemoved(F, slots, c.token, x);
    forall t | 0 <= t < |F1.hier| ensures SameLive(c, F1, slots1, t) {
      assert SameLive(c, F, slots, t);
    }
  }

  /** Removing the old root itself: every entry outside the old subtree becomes DetachChild(root)'s. */
  lemma RootGoneOutside(c: Ctx, F: Forest, slots: seq<SlotMeta>, t: nat)
    requires CtxOk(c) && AgreeLive(c, F, slots) && AgreeRest(c, F) && F.hier[c.r].alive
    requires t < |F.hier| && !InOld(c, t)
    ensures LeafRemovedHier(F.hier, slots, c.token, c.r)[t] == DetachedHier(c.H0, c.slots0, c.token, c.r)[t]
  {
    assert InOld(c, c.r);
    assert SameLive(c, F, slots, c.r);
    LeafRemovedView(F.hier, slots, c.token, c.r);
    var ph := F.hier[c.r].parent;
    assert ph == c.H0[c.r].parent;
    assert F.hier[t] == c.H0[t];
    if !IsNull(ph) {
      var p := ph.index as nat;
      assert p < |c.H0| && c.H0[p].alive && p in c.rank && c.rank[p] < c.rank[c.r];
      if InOld(c, p) {
        SubtreeRankBound(c.H0, c.rank, p, c.r);
      }
      assert F.hier[p] == c.H0[p];
      assert EntryFor(F.hier, ph) == EntryFor(c.H0, ph);
    }
    assert Canon(slots, c.token, c.r) == Canon(c.slots0, c.token, c.r);
  }

  /** A node of the old subtree other than its root has a parent in the old subtree. */
  lemma OldParent(c: Ctx, F: Forest, slots: seq<SlotMeta>, x: nat)
    requires CtxOk(c) && AgreeLive(c, F, slots) && x < |F.hier| && F.hier[x].alive && InOld(c, x) && x != c.r
    ensures !IsNull(F.hier[x].parent) && InOld(c, F.hier[x].parent.index as nat)
  {
    assert SameLive(c, F, slots, x);
  }

  lemma DestroyAgreeRest(c: Ctx, F: Forest, slots: seq<SlotMeta>, x: nat)
    requires CtxOk(c) && ForestOk(F, slots, c.token, c.rank) && AgreeLive(c, F, slots) && AgreeRest(c, F)
    requires x < |F.hier| && F.hier[x].alive && InOld(c, x)
    ensures AgreeRest(c, LeafRemoved(F, slots, c.token, x))
  {
    var F1 := LeafRemoved(F, slots, c.token, x);
    var ph := F.hier[x].parent;
    var xh := Canon(slots, c.token, x);
    LeafRemovedView(F.hier, slots, c.token, x);
    if x != c.r {
      OldParent(c, F, slots, x);
      forall t | 0 <= t < |F1.hier| && !InOld(c, t) ensures F1.hier[t] == Outside(c, F1.hier[c.r].alive, t) {
        assert t != x && t != ph.index as nat;
      }
      forall k | 0 <= k < |F.roots| ensures F.roots[k] != xh {
      }
      assert F1.roots == F.roots;
    } else {
      forall t | 0 <= t < |F1.hier| && !InOld(c, t) ensures F1.hier[t] == Outside(c, F1.hier[c.r].alive, t) {
        RootGoneOutside(c, F, slots, t);
      }
      assert SameLive(c, F, slots, c.r);
      assert xh == RootHandle(c);
    }
    forall t | 0 <= t < |F1.hier| && InOld(c, t) && !F1.hier[t].alive ensures F1.hier[t] == BlankEntry {
      if t != x {
        assert !F.hier[t].alive;
      }
    }
  }

  /** One frame's facts carry over to the forest after the destroy step. */
  lemma DestroyKeepsFrame(c: Ctx, F: Forest, slots: seq<SlotMeta>, slots1: seq<SlotMeta>, x: nat, f: Frame, pend: set<nat>)
    requires CtxOk(c) && |F.hier| == |c.H0| && x < |F.hier| <= |slots| <= U32Max && DestroyStep(slots, slots1, x)
    requires FrameSound(c, F, slots, f) && PendOk(c, F, f, pend)
    ensures var F1 := LeafRemoved(F, slots, c.token, x);
      FrameSound(c, F1, slots1, f) && PendOk(c, F1, f, pend)
  {
    var F1 := LeafRemoved(F, slots, c.token, x);
    var y := f.h.index as nat;
    if F1.hier[y].alive {
      assert y != x && F.hier[y].alive;
      DestroyKeepsLive(F, slots, c.token, x, slots1, f.h);
    }
  }

  /** Frame facts carry over to the forest after the destroy step. */
  lemma DestroySound(c: Ctx, F: Forest, slots: seq<SlotMeta>, slots1: seq<SlotMeta>, st: seq<Frame>, pend: set<nat>)
    requires CtxOk(c) && |F.hier| == |c.H0| && |F.hier| <= |slots| <= U32Max && |st| > 0
    requires FramesSound(c, F, slots, st) && FramesPending(c, F, st, pend)
    requires (st[|st| - 1].h.index as nat) < |F.hier| && DestroyStep(slots, slots1, st[|st| - 1].h.index as nat)
    ensures var F1 := LeafRemoved(F, slots, c.token, st[|st| - 1].h.index as nat);
      FramesSound(c, F1, slots1, st[..|st| - 1]) && FramesPending(c, F1, st[..|st| - 1], pend)
  {
    var x := st[|st| - 1].h.index as nat;
    var F1 := LeafRemoved(F, slots, c.token, x);
    DestroySoundFrames(c, F, F1, slots, slots1, x, st, st[..|st| - 1], pend);
  }

  /** DestroySound over a prefix of the stack, with the new forest named. */
  lemma DestroySoundFrames(c: Ctx, F: Forest, F1: Forest, slots: seq<SlotMeta>, slots1: seq<SlotMeta>, x: nat, st: seq<Frame>,
                           st1: seq<Frame>, pend: set<nat>)
    requires CtxOk(c) && |F.hier| == |c.H0| && x < |F.hier| <= |slots| <= U32Max && DestroyStep(slots, slots1, x)
    requires F1 == LeafRemoved(F, slots, c.token, x) && |F1.hier| == |c.H0|
    requires FramesSound(c, F, slots, st) && FramesPending(c, F, st, pend)
    requires |st1| <= |st| && forall j :: 0 <= j < |st1| ==> st1[j] == st[j]
    ensures FramesSound(c, F1, slots1, st1) && FramesPending(c, F1, st1, pend)
  {
    forall j | 0 <= j < |st1|
      ensures FrameSound(c, F1, slots1, st1[j]) && PendOk(c, F1, st1[j], pend)
    {
      DestroyKeepsFrame(c, F, slots, slots1, x, st[j], pend);
    }
  }

  /** Distinctness and the pending closure carry over to the forest after the destroy step. */
  lemma DestroyDistinct(c: Ctx, F: Forest, slots: seq<SlotMeta>, st: seq<Frame>, pend: set<nat>)
    requires CtxOk(c) && |F.hier| <= |slots| <= U32Max && |st| > 0
    requires Distinct(F, st) && PendClosed(c, F, pend) && (st[|st| - 1].h.index as nat) < |F.hier|
    ensures var F1 := LeafRemoved(F, slots, c.token, st[|st| - 1].h.index as nat);
      Distinct(F1, st[..|st| - 1]) && PendClosed(c, F1, pend)
  {
    var n := |st| - 1;
    var F1 := LeafRemoved(F, slots, c.token, st[n].h.index as nat);
    var st1 := st[..n];
    forall i, j | 0 <= i < j < |st1| && LiveUnexpanded(F1, st1[i]) && !st1[j].expanded ensures st1[i].h != st1[j].h {
      assert st1[i] == st[i] && st1[j] == st[j];
    }
  }

  /** A child of a surviving node after the destroy step was its child before, and is not the destroyed node. */
  lemma KidAfterDestroy(F: Forest, slots: seq<SlotMeta>, token: U32, rank: map<nat, nat>, x: nat, y: nat, g: DenseHandle)
    requires ForestOk(F, slots, token, rank) && x < |F.hier| && F.hier[x].alive
    requires y < |F.hier| && y != x && F.hier[y].alive && g in LeafRemovedHier(F.hier, slots, token, x)[y].children
    ensures g in F.hier[y].children && g != Canon(slots, token, x)
  {
    LeafRemovedView(F.hier, slots, token, x);
    assert g in F.hier[y].children;
    ChildLinked(F.hier, slots, token, y, g);
  }

  /** A child of a live node is live and names that node as its parent. */
  lemma ChildLinked(hier: seq<Entry>, slots: seq<SlotMeta>, token: U32, y: nat, g: DenseHandle)
    requires ChildrenLinked(hier, slots, token) && y < |hier| && hier[y].alive && g in hier[y].children
    ensures Live(hier, slots, token, g) && hier[g.index].parent == Canon(slots, token, y)
  {
    var k :| 0 <= k < |hier[y].children| && hier[y].children[k] == g;
  }

  /** After removing the node at slot `x`, held by handle `h`, every surviving entry's children were its children before, and none is `h`. */
  ghost predicate KidsKept(hier: seq<Entry>, hier1: seq<Entry>, x: nat, h: DenseHandle) {
    && |hier1| == |hier| && x < |hier| && !hier1[x].alive
    && forall y :: 0 <= y < |hier| && y != x && hier1[y].alive ==>
         hier[y].alive && forall g :: g in hier1[y].children ==> g in hier[y].children && g != h
  }

  lemma LeafRemovedKidsKept(F: Forest, slots: seq<SlotMeta>, token: U32, rank: map<nat, nat>, x: nat)
    requires ForestOk(F, slots, token, rank) && x < |F.hier| && F.hier[x].alive
    ensures KidsKept(F.hier, LeafRemovedHier(F.hier, slots, token, x), x, Canon(slots, token, x))
  {
    var hier1 := LeafRemovedHier(F.hier, slots, token, x);
    forall y | 0 <= y < |F.hier| && y != x && hier1[y].alive
      ensures F.hier[y].alive && forall g :: g in hier1[y].children ==> g in F.hier[y].children && g != Canon(slots, token, x)
    {
      forall g | g in hier1[y].children ensures g in F.hier[y].children && g != Canon(slots, token, x) {
        KidAfterDestroy(F, slots, token, rank, x, y, g);
      }
    }
  }

  lemma DestroyKids(c: Ctx, F: Forest, slots: seq<SlotMeta>, st: seq<Frame>)
    requires CtxOk(c) && ForestOk(F, slots, c.token, c.rank) && |F.hier| == |c.H0|
    requires KidsAboveAll(F, st) && |st| > 0
    requires Live(F.hier, slots, c.token, st[|st| - 1].h)
    ensures KidsAboveAll(LeafRemoved(F, slots, c.token, st[|st| - 1].h.index as nat), st[..|st| - 1])
  {
    var n := |st| - 1;
    var x := st[n].h.index as nat;
    var F1 := LeafRemoved(F, slots, c.token, x);
    var st1 := st[..n];
    LeafRemovedKidsKept(F, slots, c.token, c.rank, x);
    forall i | 0 <= i < |st1| ensures KidsAbove(F1, st1, i) {
      DestroyKidsAt(F, F1, st, i);
    }
  }

  /** DestroyKids for the frame at position `i`. */
  lemma DestroyKidsAt(F: Forest, F1: Forest, st: seq<Frame>, i: nat)
    requires |st| > 0 && i < |st| - 1 && KidsAbove(F, st, i)
    requires KidsKept(F.hier, F1.hier, st[|st| - 1].h.index as nat, st[|st| - 1].h)
    ensures KidsAbove(F1, st[..|st| - 1], i)
  {
    var n := |st| - 1;
    var st1 := st[..n];
    assert st1[i] == st[i];
    var y := st[i].h.index as nat;
    if y < |F1.hier| && st[i].expanded && F1.hier[y].alive {
      forall g | g in F1.hier[y].children ensures HandleAbove(st1, i, g) {
        assert HandleAbove(st, i, g);
        var j :| i < j < |st| && st[j].h == g;
        assert st1[j].h == g;
      }
    }
  }

  lemma DestroyCovered(c: Ctx, F: Forest, slots: seq<SlotMeta>, st: seq<Frame>)
    requires CtxOk(c) && ForestOk(F, slots, c.token, c.rank) && |st| > 0
    requires var x := st[|st| - 1].h.index as nat;
      && x < |F.hier| && F.hier[x].alive && F.hier[x].children == []
      && Ranked(LeafRemovedHier(F.hier, slots, c.token, x), c.rank)
    requires AllCovered(c, F, st)
    ensures AllCovered(c, LeafRemoved(F, slots, c.token, st[|st| - 1].h.index as nat), st[..|st| - 1])
  {
    var n := |st| - 1;
    var x := st[n].h.index as nat;
    var F1 := LeafRemoved(F, slots, c.token, x);
    var st1 := st[..n];
    forall s | 0 <= s < |F1.hier| && F1.hier[s].alive && InOld(c, s) ensures Covered(F1, c.rank, st1, s) {
      assert s != x && F.hier[s].alive;
      assert Covered(F, c.rank, st, s);
      CoveredAfterLeaf(F.hier, slots, c.token, c.rank, st, st1, s);
    }
  }

  /** DestroyCovered for the old node `s`, on the hierarchy table alone. */
  lemma CoveredAfterLeaf(hier: seq<Entry>, slots: seq<SlotMeta>, token: U32, rank: map<nat, nat>, st: seq<Frame>, st1: seq<Frame>, s: nat)
    requires |st| > 0 && st1 == st[..|st| - 1]
    requires Ranked(hier, rank) && ParentsLinked(hier, slots, token) && |hier| <= |slots| <= U32Max && |st| > 0
    requires var x := st[|st| - 1].h.index as nat;
      && x < |hier| && hier[x].alive && hier[x].children == []
      && Ranked(LeafRemovedHier(hier, slots, token, x), rank) && s != x
    requires exists j :: 0 <= j < |st| && InSubtree(hier, rank, s, st[j].h.index as nat)
    ensures var hier1 := LeafRemovedHier(hier, slots, token, st[|st| - 1].h.index as nat);
      exists j :: 0 <= j < |st1| && InSubtree(hier1, rank, s, st1[j].h.index as nat)
  {
    var n := |st| - 1;
    var x := st[n].h.index as nat;
    var j :| 0 <= j < |st| && InSubtree(hier, rank, s, st[j].h.index as nat);
    if j == n {
      LeafSubtree(hier, slots, token, rank, s, x);
    }
    LeafRemovedKeepsSubtree(hier, slots, token, rank, x, s, st[j].h.index as nat);
    assert InSubtree(LeafRemovedHier(hier, slots, token, x), rank, s, st1[j].h.index as nat);
  }

  /** The destroy step keeps the forest invariant, the agreement with the old forest and the frame facts. */
  lemma DestroyFrames(c: Ctx, F: Forest, slots: seq<SlotMeta>, slots1: seq<SlotMeta>, st: seq<Frame>, pend: set<nat>)
    requires DfsInv(c, F, slots, st, pend) && |st| > 0
    requires st[|st| - 1].expanded && F.hier[st[|st| - 1].h.index].alive
    requires DestroyStep(slots, slots1, st[|st| - 1].h.index as nat)
    ensures var F1 := LeafRemoved(F, slots, c.token, st[|st| - 1].h.index as nat);
      && ForestOk(F1, slots1, c.token, c.rank) && AgreeLive(c, F1, slots1) && AgreeRest(c, F1)
      && FramesSound(c, F1, slots1, st[..|st| - 1]) && FramesPending(c, F1, st[..|st| - 1], pend)
  {
    var x := st[|st| - 1].h.index as nat;
    DestroyLeafFacts(c, F, slots, st);
    LeafRemovedKeepsForest(F, slots, c.token, c.rank, x, slots1);
    DestroyAgreeLive(c, F, slots, x, slots1);
    DestroyAgreeRest(c, F, slots, x);
    DestroySound(c, F, slots, slots1, st, pend);
  }

  /** The destroy step keeps the frames distinct, the children above their parents, the pending set closed and every old node covered. */
  lemma DestroyShape(c: Ctx, F: Forest, slots: seq<SlotMeta>, slots1: seq<SlotMeta>, st: seq<Frame>, pend: set<nat>)
    requires DfsInv(c, F, slots, st, pend) && |st| > 0
    requires st[|st| - 1].expanded && F.hier[st[|st| - 1].h.index].alive
    requires DestroyStep(slots, slots1, st[|st| - 1].h.index as nat)
    ensures var F1 := LeafRemoved(F, slots, c.token, st[|st| - 1].h.index as nat);
      && Ranked(F1.hier, c.rank) && Distinct(F1, st[..|st| - 1]) && PendClosed(c, F1, pend)
      && KidsAboveAll(F1, st[..|st| - 1]) && AllCovered(c, F1, st[..|st| - 1])
  {
    var x := st[|st| - 1].h.index as nat;
    DestroyLeafFacts(c, F, slots, st);
    LeafRemovedKeepsForest(F, slots, c.token, c.rank, x, slots1);
    DestroyDistinct(c, F, slots, st, pend);
    DestroyKids(c, F, slots, st);
    DestroyCovered(c, F, slots, st);
  }

  /** Destroying the top frame's node is a leaf removal, and keeps the invariant on the popped stack. */
  lemma DfsDestroy(c: Ctx, F: Forest, slots: seq<SlotMeta>, slots1: seq<SlotMeta>, st: seq<Frame>, pend: set<nat>)
    requires DfsInv(c, F, slots, st, pend) && |st| > 0
    requires st[|st| - 1].expanded && F.hier[st[|st| - 1].h.index].alive
    requires DestroyStep(slots, slots1, st[|st| - 1].h.index as nat)
    ensures F.hier[st[|st| - 1].h.index].children == [] && Live(F.hier, slots, c.token, st[|st| - 1].h)
    ensures DfsInv(c, LeafRemoved(F, slots, c.token, st[|st| - 1].h.index as nat), slots1, st[..|st| - 1], pend)
  {
    DestroyLeafFacts(c, F, slots, st);
    DestroyFrames(c, F, slots, slots1, st, pend);
    DestroyShape(c, F, slots, slots1, st, pend);
  }

  /** DfsDestroy for whatever slot table the node storage's Destroy leaves. */
  lemma DfsDestroyAny(c: Ctx, F: Forest, slots: seq<SlotMeta>, st: seq<Frame>, pend: set<nat>, x: nat)
    requires DfsInv(c, F, slots, st, pend) && |st| > 0
    requires st[|st| - 1].expanded && x == st[|st| - 1].h.index as nat && F.hier[x].alive
    ensures forall slots1 {:trigger DestroyStep(slots, slots1, x)} :: DestroyStep(slots, slots1, x) ==>
      DfsInv(c, LeafRemoved(F, slots, c.token, x), slots1, st[..|st| - 1], pend)
  {
    forall slots1 | DestroyStep(slots, slots1, x)
      ensures DfsInv(c, LeafRemoved(F, slots, c.token, x), slots1, st[..|st| - 1], pend)
    {
      DfsDestroy(c, F, slots, slots1, st, pend);
    }
  }
}
