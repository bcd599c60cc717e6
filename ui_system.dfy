/**
 * UISystem's context registry (src/UISystem.cpp): contexts created under
 * a parent with increasing ids, the recursive destruction of a subtree,
 * the one-to-one binding of viewports to contexts, the ContextIds
 * listing and pointer and keyboard routing.
 *
 * The UIContext objects themselves are outside this model: a context is
 * its node (parent, children, address), a new context's address is a
 * parameter (Null when creating it failed), and a hit test of a context's
 * screen rectangle at a position is a predicate on context ids. Settings
 * validation is given as its verdict.
 */
module UiRegistry {
  import opened Common
  import opened UiTree

  /** The elements of `s` other than `x` (the erase-remove idiom). */
  function Without(s: seq<nat>, x: nat): (r: seq<nat>)
    ensures forall y :: y in r <==> y in s && y != x
  {
    if s == [] then []
    else
      var rest := Without(s[..|s| - 1], x);
      var last := s[|s| - 1];
      assert forall y :: y in s <==> y in s[..|s| - 1] || y == last;
      if last == x then rest else rest + [last]
  }

  lemma {:induction false} WithoutDistinct(s: seq<nat>, x: nat)
    requires NoDuplicates(s)
    ensures NoDuplicates(Without(s, x))
  {
    if s != [] {
      var p := s[..|s| - 1];
      assert NoDuplicates(p);
      WithoutDistinct(p, x);
      assert s[|s| - 1] !in p;
    }
  }

  /** Removing the first element of a list without repeats leaves the rest. */
  lemma {:induction false} WithoutHead(s: seq<nat>)
    requires |s| > 0 && NoDuplicates(s)
    ensures Without(s, s[0]) == s[1..]
  {
    if |s| > 1 {
      var p := s[..|s| - 1];
      assert NoDuplicates(p) && p[0] == s[0];
      WithoutHead(p);
      assert s[|s| - 1] != s[0];
      assert s[1..] == p[1..] + [s[|s| - 1]];
    }
  }

  /**
   * What DestroyContextRecursiveLocked edits: the context nodes, the
   * pointer-to-id map, both viewport maps, the active input context and
   * the pointer capture context.
   */
  datatype Registry = Registry(nodes: Nodes, pointers: map<Ptr, nat>, viewportToContext: map<nat, nat>,
                               contextToViewport: map<nat, nat>, active: nat, capture: nat)

  /** Viewport to context and context to viewport are inverse one-to-one maps over live contexts and non-zero ids. */
  ghost predicate Bindings(n: Nodes, v2c: map<nat, nat>, c2v: map<nat, nat>) {
    && 0 !in v2c && 0 !in c2v
    && (forall v :: v in v2c ==> v2c[v] in c2v && c2v[v2c[v]] == v)
    && (forall c :: c in c2v ==> c in n && c2v[c] in v2c && v2c[c2v[c]] == c)
  }

  /** Each live context's address maps to its id, and only those addresses are mapped. */
  ghost predicate PointerIndex(n: Nodes, pointers: map<Ptr, nat>) {
    && (forall k :: k in n ==> n[k].ptr != Null && n[k].ptr in pointers && pointers[n[k].ptr] == k)
    && (forall q :: q in pointers ==> pointers[q] in n && n[pointers[q]].ptr == q)
  }

  ghost predicate RegistryOk(g: Registry, bound: nat) {
    Tree(g.nodes, bound) && Bindings(g.nodes, g.viewportToContext, g.contextToViewport) && PointerIndex(g.nodes, g.pointers)
  }

  /** The addresses of the live contexts among `d`. */
  function PtrsOf(n: Nodes, d: set<nat>): (r: set<Ptr>)
  {
    set x | x in d && x in n :: n[x].ptr
  }

  /** The nodes outside `d`, with node `edited` given the child list `kids`. */
  function RemoveNodes(n: Nodes, d: set<nat>, edited: nat, kids: seq<nat>): (r: Nodes)
  {
    map k | k in n && k !in d :: if k == edited then n[k].(children := kids) else n[k]
  }

  /** The address map without the addresses of the contexts `d`. */
  function RemovePointers(pointers: map<Ptr, nat>, n: Nodes, d: set<nat>): (r: map<Ptr, nat>)
  {
    map q | q in pointers && q !in PtrsOf(n, d) :: pointers[q]
  }

  /** The viewport map without the viewports bound to the contexts `d`. */
  function DropBoundTo(m: map<nat, nat>, d: set<nat>): (r: map<nat, nat>)
  {
    map v | v in m && m[v] !in d :: m[v]
  }

  /** The context map without the contexts `d`. */
  function DropKeys(m: map<nat, nat>, d: set<nat>): (r: map<nat, nat>)
  {
    map k | k in m && k !in d :: m[k]
  }

  /**
   * The registry without the contexts `d`: their nodes, addresses and
   * bindings are gone, node `edited` gets the child list `kids`, and an
   * active or capturing context in `d` falls back to the root or to 0.
   */
  function Removed(g: Registry, d: set<nat>, edited: nat, kids: seq<nat>, root: nat): (r: Registry)
  {
    Registry(
      RemoveNodes(g.nodes, d, edited, kids),
      RemovePointers(g.pointers, g.nodes, d),
      DropBoundTo(g.viewportToContext, d),
      DropKeys(g.contextToViewport, d),
      if g.active in d then root else g.active,
      if g.capture in d then 0 else g.capture)
  }

  /** The child list context `c`'s parent keeps once `c` is destroyed. */
  function SiblingsLeft(n: Nodes, c: nat): (r: seq<nat>)
    requires c in n
  {
    var p := n[c].parent;
    if p in n then Without(n[p].children, c) else []
  }

  /** The registry once context `c` and its whole subtree are destroyed; `c` leaves its parent's child list. */
  function Destroyed(g: Registry, c: nat, root: nat, bound: nat): (r: Registry)
    requires c <= bound && c in g.nodes
  {
    Removed(g, Desc(g.nodes, c, bound), g.nodes[c].parent, SiblingsLeft(g.nodes, c), root)
  }

  lemma RemoveNodesTwice(n: Nodes, d1: set<nat>, d2: set<nat>, e1: nat, e2: nat, a: seq<nat>, b: seq<nat>)
    requires e1 == e2 || e1 in d2
    ensures RemoveNodes(RemoveNodes(n, d1, e1, a), d2, e2, b) == RemoveNodes(n, d1 + d2, e2, b)
  {
  }

  lemma RemovePointersTwice(pointers: map<Ptr, nat>, n: Nodes, d1: set<nat>, d2: set<nat>, e1: nat, a: seq<nat>)
    requires d1 !! d2
    ensures RemovePointers(RemovePointers(pointers, n, d1), RemoveNodes(n, d1, e1, a), d2) == RemovePointers(pointers, n, d1 + d2)
  {
    assert PtrsOf(RemoveNodes(n, d1, e1, a), d2) == PtrsOf(n, d2);
    assert PtrsOf(n, d1 + d2) == PtrsOf(n, d1) + PtrsOf(n, d2);
  }

  /** Two removals in a row are one removal of both sets, when the second edits the same node or removes the first one's. */
  lemma RemovedTwice(g: Registry, d1: set<nat>, d2: set<nat>, e1: nat, e2: nat, a: seq<nat>, b: seq<nat>, root: nat)
    requires d1 !! d2 && root !in d2 && 0 !in d2
    requires e1 == e2 || e1 in d2
    ensures Removed(Removed(g, d1, e1, a, root), d2, e2, b, root) == Removed(g, d1 + d2, e2, b, root)
  {
    RemoveNodesTwice(g.nodes, d1, d2, e1, e2, a, b);
    RemovePointersTwice(g.pointers, g.nodes, d1, d2, e1, a);
    assert DropBoundTo(DropBoundTo(g.viewportToContext, d1), d2) == DropBoundTo(g.viewportToContext, d1 + d2);
    assert DropKeys(DropKeys(g.contextToViewport, d1), d2) == DropKeys(g.contextToViewport, d1 + d2);
  }

  lemma EraseNodes(n: Nodes, c: nat)
    requires c in n && 0 !in n && n[c].parent != c
    ensures var p := n[c].parent;
            (if p != 0 && p in n then n[p := n[p].(children := Without(n[p].children, c))] else n) - {c}
              == RemoveNodes(n, {c}, p, SiblingsLeft(n, c))
  {
  }

  lemma EraseBindings(n: Nodes, v2c: map<nat, nat>, c2v: map<nat, nat>, c: nat)
    requires Bindings(n, v2c, c2v)
    ensures (if c in c2v then v2c - {c2v[c]} else v2c) == DropBoundTo(v2c, {c})
    ensures (if c in c2v then c2v - {c} else c2v) == DropKeys(c2v, {c})
  {
  }

  lemma ErasePointer(pointers: map<Ptr, nat>, n: Nodes, c: nat)
    requires c in n && PointerIndex(n, pointers)
    ensures n[c].ptr != Null && pointers - {n[c].ptr} == RemovePointers(pointers, n, {c})
  {
    assert PtrsOf(n, {c}) == {n[c].ptr};
  }

  /** The non-recursive part of DestroyContextRecursiveLocked, for a context whose children are already gone. */
  method EraseContext(g: Registry, c: nat, root: nat) returns (g': Registry)
    requires c in g.nodes && c != 0 && 0 !in g.nodes && g.nodes[c].parent != c
    requires Bindings(g.nodes, g.viewportToContext, g.contextToViewport) && PointerIndex(g.nodes, g.pointers)
    ensures g' == Removed(g, {c}, g.nodes[c].parent, SiblingsLeft(g.nodes, c), root)
  {
    var nodes, pointers, v2c, c2v, active, capture := g.nodes, g.pointers, g.viewportToContext, g.contextToViewport, g.active, g.capture;
    EraseNodes(nodes, c);
    EraseBindings(nodes, v2c, c2v, c);
    ErasePointer(pointers, nodes, c);
    var parentId := nodes[c].parent;
    var ptr := nodes[c].ptr;
    if c in c2v {
      v2c := v2c - {c2v[c]};
      c2v := c2v - {c};
    }
    if parentId != 0 && parentId in nodes {
      nodes := nodes[parentId := nodes[parentId].(children := Without(nodes[parentId].children, c))];
    }
    if ptr != Null {
      pointers := pointers - {ptr};
    }
    if active == c {
      active := root;
    }
    if capture == c {
      capture := 0;
    }
    nodes := nodes - {c};
    g' := Registry(nodes, pointers, v2c, c2v, active, capture);
  }

  /** Destroying a subtree leaves a well-formed tree. */
  lemma DestroyedTree(n: Nodes, c: nat, bound: nat)
    requires Tree(n, bound) && c <= bound && c in n
    ensures Tree(RemoveNodes(n, Desc(n, c, bound), n[c].parent, SiblingsLeft(n, c)), bound)
  {
    var n' := RemoveNodes(n, Desc(n, c, bound), n[c].parent, SiblingsLeft(n, c));
    DestroyedIds(n, c, bound, n');
    DestroyedChildren(n, c, bound, n');
    DestroyedParents(n, c, bound, n');
    TreeFromParts(n', bound);
  }

  lemma TreeFromParts(n: Nodes, bound: nat)
    requires forall q :: q in n ==> 1 <= q <= bound && NoDuplicates(n[q].children)
    requires forall q, k :: q in n && k in n[q].children ==> k in n && n[k].parent == q && q < k
    requires forall k :: k in n && n[k].parent != 0 ==> n[k].parent in n && k in n[n[k].parent].children
    ensures Tree(n, bound)
  {
  }

  lemma DestroyedIds(n: Nodes, c: nat, bound: nat, n': Nodes)
    requires Tree(n, bound) && c <= bound && c in n
    requires n' == RemoveNodes(n, Desc(n, c, bound), n[c].parent, SiblingsLeft(n, c))
    ensures forall q :: q in n' ==> 1 <= q <= bound && NoDuplicates(n'[q].children)
  {
    var p := n[c].parent;
    forall q | q in n'
      ensures 1 <= q <= bound && NoDuplicates(n'[q].children)
    {
      if q == p {
        WithoutDistinct(n[p].children, c);
      }
    }
  }

  lemma DestroyedChildren(n: Nodes, c: nat, bound: nat, n': Nodes)
    requires Tree(n, bound) && c <= bound && c in n
    requires n' == RemoveNodes(n, Desc(n, c, bound), n[c].parent, SiblingsLeft(n, c))
    ensures forall q, k :: q in n' && k in n'[q].children ==> k in n' && n'[k].parent == q && q < k
  {
    var d := Desc(n, c, bound);
    forall q, k | q in n' && k in n'[q].children
      ensures k in n' && n'[k].parent == q && q < k
    {
      if q == n[c].parent {
        assert n'[q].children == Without(n[q].children, c);
      }
      assert k in n[q].children;
      if k in d && k != c {
        DescUp(n, c, bound, k);
      }
    }
  }

  lemma DestroyedParents(n: Nodes, c: nat, bound: nat, n': Nodes)
    requires Tree(n, bound) && c <= bound && c in n
    requires n' == RemoveNodes(n, Desc(n, c, bound), n[c].parent, SiblingsLeft(n, c))
    ensures forall k :: k in n' && n'[k].parent != 0 ==> n'[k].parent in n' && k in n'[n'[k].parent].children
  {
    var d := Desc(n, c, bound);
    assert c in d;
    forall k | k in n' && n'[k].parent != 0
      ensures n'[k].parent in n' && k in n'[n'[k].parent].children
    {
      var q := n[k].parent;
      if q in d {
        DescAbove(n, c, bound, q);
        ChildDesc(n, q, k, bound);
        DescTransitive(n, c, q, bound);
      }
    }
  }

  /** Destroying a subtree keeps the viewport bindings one-to-one and the address index exact. */
  lemma DestroyedIndexes(g: Registry, c: nat, root: nat, bound: nat)
    requires RegistryOk(g, bound) && c <= bound && c in g.nodes
    ensures var g' := Destroyed(g, c, root, bound);
            Bindings(g'.nodes, g'.viewportToContext, g'.contextToViewport) && PointerIndex(g'.nodes, g'.pointers)
  {
    var n := g.nodes;
    var d := Desc(n, c, bound);
    var g' := Destroyed(g, c, root, bound);
    var gone := PtrsOf(n, d);
    forall k | k in g'.nodes
      ensures g'.nodes[k].ptr in g'.pointers && g'.pointers[g'.nodes[k].ptr] == k
    {
      forall x | x in d && x in n
        ensures n[x].ptr != n[k].ptr
      {
        assert g.pointers[n[x].ptr] == x;
      }
    }
    forall q | q in g'.pointers
      ensures g'.pointers[q] in g'.nodes && g'.nodes[g'.pointers[q]].ptr == q
    {
      var x := g.pointers[q];
      assert x in d ==> q in gone;
    }
  }

  /** Removing each child's subtree in turn leaves the other children's subtrees as they were. */
  lemma KidUntouched(g: Registry, c: nat, i: nat, root: nat, bound: nat)
    requires Tree(g.nodes, bound) && c <= bound && c in g.nodes && i < |g.nodes[c].children|
    ensures var kids := g.nodes[c].children;
            var d := DescKids(g.nodes, kids[..i], c, bound);
            var cur := Removed(g, d, c, kids[i..], root);
            && c < kids[i] <= bound && kids[i] in g.nodes && g.nodes[kids[i]].parent == c
            && Desc(g.nodes, kids[i], bound) !! d && c !in d
            && kids[i] in cur.nodes && cur.nodes[c].children == kids[i..]
            && Desc(cur.nodes, kids[i], bound) == Desc(g.nodes, kids[i], bound)
  {
    var n := g.nodes;
    var kids := n[c].children;
    var k := kids[i];
    var d := DescKids(n, kids[..i], c, bound);
    var cur := Removed(g, d, c, kids[i..], root);
    assert k in kids;
    assert k in n[c].children;
    assert k in n && c < k;
    assert k <= bound;
    assert c !in d by {
      DescKidsMember(n, kids[..i], c, bound, c);
      forall j | j in kids[..i] && c < j <= bound
        ensures c !in Desc(n, j, bound)
      {
        if c in Desc(n, j, bound) {
          DescAbove(n, j, bound, c);
        }
      }
    }
    forall x | x in Desc(n, k, bound)
      ensures x !in d && x in n && x in cur.nodes && cur.nodes[x].children == n[x].children
    {
      DescAbove(n, k, bound, x);
      DescKidsMember(n, kids[..i], c, bound, x);
      if x in d {
        var j :| j in kids[..i] && c < j <= bound && x in Desc(n, j, bound);
        assert j != k by {
          var m :| 0 <= m < i && kids[m] == j;
          assert kids[m] != kids[i];
        }
        SiblingsDisjoint(n, c, j, k, bound, x);
      }
    }
    assert k in Desc(n, k, bound);
    DescFrame(n, cur.nodes, k, bound);
  }

  /** After child `i`'s subtree is destroyed, the first `i + 1` children's subtrees are gone. */
  lemma DestroyedKid(g: Registry, c: nat, i: nat, root: nat, bound: nat, cur: Registry, next: Registry)
    requires Tree(g.nodes, bound) && c <= bound && c in g.nodes && i < |g.nodes[c].children|
    requires root !in Desc(g.nodes, c, bound)
    requires cur == Removed(g, DescKids(g.nodes, g.nodes[c].children[..i], c, bound), c, g.nodes[c].children[i..], root)
    requires g.nodes[c].children[i] in cur.nodes && g.nodes[c].children[i] <= bound
    requires next == Destroyed(cur, g.nodes[c].children[i], root, bound)
    ensures next == Removed(g, DescKids(g.nodes, g.nodes[c].children[..i + 1], c, bound), c, g.nodes[c].children[i + 1..], root)
  {
    var n := g.nodes;
    var kids := n[c].children;
    var k := kids[i];
    var d := DescKids(n, kids[..i], c, bound);
    var dk := Desc(n, k, bound);
    assert next == Removed(cur, dk, c, kids[i + 1..], root) by {
      KidUntouched(g, c, i, root, bound);
      assert NoDuplicates(kids);
      WithoutHead(kids[i..]);
      assert kids[i..][1..] == kids[i + 1..];
    }
    assert d !! dk && root !in dk && 0 !in dk by {
      KidUntouched(g, c, i, root, bound);
      ChildDesc(n, c, k, bound);
      if 0 in dk {
        DescAbove(n, k, bound, 0);
      }
    }
    assert DescKids(n, kids[..i + 1], c, bound) == d + dk by {
      assert kids[..i + 1][..i] == kids[..i];
      assert c < k <= bound by {
        KidUntouched(g, c, i, root, bound);
      }
    }
    RemovedTwice(g, d, dk, c, c, kids[i..], kids[i + 1..], root);
  }

  lemma KidsAbove(n: Nodes, c: nat, bound: nat)
    requires Tree(n, bound) && c in n
    ensures forall j :: j in n[c].children ==> j in n && c < j <= bound
  {
    forall j | j in n[c].children
      ensures j in n && c < j <= bound
    {
      assert j in n;
    }
  }

  lemma RemovedNothing(g: Registry, c: nat, root: nat)
    requires c in g.nodes
    ensures Removed(g, {}, c, g.nodes[c].children, root) == g
  {
    assert RemoveNodes(g.nodes, {}, c, g.nodes[c].children) == g.nodes;
    assert PtrsOf(g.nodes, {}) == {};
    assert RemovePointers(g.pointers, g.nodes, {}) == g.pointers;
    assert DropBoundTo(g.viewportToContext, {}) == g.viewportToContext;
    assert DropKeys(g.contextToViewport, {}) == g.contextToViewport;
  }

  lemma RemovedKeeps(g: Registry, d: set<nat>, e: nat, kids: seq<nat>, root: nat, k: nat)
    requires k in g.nodes && k !in d
    ensures var r := Removed(g, d, e, kids, root);
            k in r.nodes && r.nodes[k] == if k == e then g.nodes[k].(children := kids) else g.nodes[k]
  {
  }

  /** The subtrees below a context's children hold only larger ids, so neither the context nor its parent. */
  lemma KidsDescAbove(n: Nodes, c: nat, bound: nat)
    requires Tree(n, bound) && c <= bound && c in n
    ensures forall x :: x in DescKids(n, n[c].children, c, bound) ==> c < x
  {
    var kids := n[c].children;
    forall x | x in DescKids(n, kids, c, bound)
      ensures c < x
    {
      DescKidsMember(n, kids, c, bound, x);
      var j :| j in kids && c < j <= bound && x in Desc(n, j, bound);
      DescAbove(n, j, bound, x);
    }
  }

  /** A context's parent is not in its subtree and has a smaller id. */
  lemma ParentBelow(n: Nodes, c: nat, bound: nat)
    requires Tree(n, bound) && c in n
    ensures n[c].parent < c
  {
    var p := n[c].parent;
    if p != 0 {
      assert c in n[p].children;
    }
  }

  /** Erasing the context itself once its children's subtrees are gone completes the destruction. */
  lemma DestroyedLast(g: Registry, c: nat, root: nat, bound: nat, cur: Registry, last: Registry)
    requires Tree(g.nodes, bound) && c <= bound && c in g.nodes && c != root
    requires cur == Removed(g, DescKids(g.nodes, g.nodes[c].children, c, bound), c, [], root)
    requires c in cur.nodes
    requires last == Removed(cur, {c}, cur.nodes[c].parent, SiblingsLeft(cur.nodes, c), root)
    ensures last == Destroyed(g, c, root, bound)
  {
    var n := g.nodes;
    var p := n[c].parent;
    var d := DescKids(n, n[c].children, c, bound);
    KidsDescAbove(n, c, bound);
    ParentBelow(n, c, bound);
    assert p !in d && c !in d;
    assert cur.nodes[c].parent == p;
    assert p in cur.nodes <==> p in n;
    assert p in n ==> cur.nodes[p] == n[p];
    assert SiblingsLeft(cur.nodes, c) == SiblingsLeft(n, c);
    RemovedTwice(g, d, {c}, c, p, [], SiblingsLeft(n, c), root);
    assert Desc(n, c, bound) == d + {c};
  }

  /**
   * DestroyContextRecursiveLocked: destroy each child's subtree in turn,
   * then drop the context's own binding, its entry in its parent's child
   * list, its address, and the active or capture roles it held.
   */
  method DestroyTree(g: Registry, c: nat, root: nat, bound: nat) returns (g': Registry)
    requires RegistryOk(g, bound) && c in g.nodes && c <= bound
    requires root !in Desc(g.nodes, c, bound)
    ensures g' == Destroyed(g, c, root, bound) && RegistryOk(g', bound)
    decreases bound - c, 1
  {
    var cur := DestroyChildren(g, c, root, bound);
    KidsDescAbove(g.nodes, c, bound);
    RemovedKeeps(g, DescKids(g.nodes, g.nodes[c].children, c, bound), c, [], root, c);
    ParentBelow(g.nodes, c, bound);
    g' := EraseContext(cur, c, root);
    DestroyedLast(g, c, root, bound, cur, g');
    DestroyedTree(g.nodes, c, bound);
    DestroyedIndexes(g, c, root, bound);
  }

  /** The loop of DestroyContextRecursiveLocked over a copy of the context's child list. */
  method DestroyChildren(g: Registry, c: nat, root: nat, bound: nat) returns (cur: Registry)
    requires RegistryOk(g, bound) && c in g.nodes && c <= bound
    requires root !in Desc(g.nodes, c, bound)
    ensures cur == Removed(g, DescKids(g.nodes, g.nodes[c].children, c, bound), c, [], root)
    ensures RegistryOk(cur, bound)
    decreases bound - c, 0
  {
    var kids := g.nodes[c].children;
    ghost var n := g.nodes;
    cur := g;
    var i := 0;
    assert kids[..0] == [];
    RemovedNothing(g, c, root);
    while i < |kids|
      invariant 0 <= i <= |kids|
      invariant cur == Removed(g, DescKids(n, kids[..i], c, bound), c, kids[i..], root)
      invariant RegistryOk(cur, bound)
    {
      KidUntouched(g, c, i, root, bound);
      ChildDesc(n, c, kids[i], bound);
      var next := DestroyTree(cur, kids[i], root, bound);
      DestroyedKid(g, c, i, root, bound, cur, next);
      cur := next;
      i := i + 1;
    }
    assert kids[..i] == kids && kids[i..] == [];
  }
  /**
   * What destroying context `c` means: its subtree is gone, nothing refers
   * to a removed context any more (no child list, binding or address), the
   * remaining contexts are unchanged but for the parent's child list, and
   * the active and capture roles fall back.
   */
  lemma DestroyedMeaning(g: Registry, c: nat, root: nat, bound: nat)
    requires RegistryOk(g, bound) && c <= bound && c in g.nodes
    ensures var d := Desc(g.nodes, c, bound);
            var g' := Destroyed(g, c, root, bound);
            var p := g.nodes[c].parent;
            && c in d
            && g'.nodes.Keys == g.nodes.Keys - d
            && (forall k :: k in g'.nodes ==> forall x :: x in g'.nodes[k].children ==> x !in d)
            && (forall k :: k in g'.nodes && k != p ==> g'.nodes[k] == g.nodes[k])
            && (p in g'.nodes ==> g'.nodes[p] == g.nodes[p].(children := Without(g.nodes[p].children, c)))
            && (forall v :: v in g'.viewportToContext ==> g'.viewportToContext[v] !in d)
            && (forall x :: x in d ==> x !in g'.contextToViewport)
            && (forall q :: q in g'.pointers ==> g'.pointers[q] !in d)
            && g'.active == (if g.active in d then root else g.active)
            && g'.capture == (if g.capture in d then 0 else g.capture)
  {
    var n := g.nodes;
    var d := Desc(n, c, bound);
    var g' := Destroyed(g, c, root, bound);
    assert c in d;
    ParentBelow(n, c, bound);
    if n[c].parent in d {
      DescAbove(n, c, bound, n[c].parent);
    }
    DestroyedTree(n, c, bound);
    DestroyedIndexes(g, c, root, bound);
    assert g'.nodes.Keys == n.Keys - d;
  }

  /**
   * The map edits of BindViewportContext: drop the viewport's previous
   * context and the context's previous viewport, then bind the pair.
   */
  method Rebind(n: Nodes, v2c: map<nat, nat>, c2v: map<nat, nat>, v: nat, c: nat) returns (v2c': map<nat, nat>, c2v': map<nat, nat>)
    requires Bindings(n, v2c, c2v) && v != 0 && c != 0 && c in n
    ensures v2c' == DropBoundTo(v2c - {v}, {c})[v := c]
    ensures c2v' == DropBoundTo(c2v - {c}, {v})[c := v]
    ensures Bindings(n, v2c', c2v')
  {
    v2c', c2v' := v2c, c2v;
    if v in v2c' {
      c2v' := c2v' - {v2c'[v]};
      v2c' := v2c' - {v};
    }
    if c in c2v' {
      v2c' := v2c' - {c2v'[c]};
      c2v' := c2v' - {c};
    }
    v2c' := v2c'[v := c];
    c2v' := c2v'[c := v];
  }

  /** The map edits of UnbindViewportContext. */
  method UnbindViewport(n: Nodes, v2c: map<nat, nat>, c2v: map<nat, nat>, v: nat) returns (v2c': map<nat, nat>, c2v': map<nat, nat>)
    requires Bindings(n, v2c, c2v)
    ensures v2c' == v2c - {v}
    ensures c2v' == DropBoundTo(c2v, {v})
    ensures Bindings(n, v2c', c2v')
  {
    v2c', c2v' := v2c, c2v;
    if v in v2c' {
      c2v' := c2v' - {v2c'[v]};
      v2c' := v2c' - {v};
    }
  }

  /** The map edits of UnbindContext. */
  method UnbindContextMaps(n: Nodes, v2c: map<nat, nat>, c2v: map<nat, nat>, c: nat) returns (v2c': map<nat, nat>, c2v': map<nat, nat>)
    requires Bindings(n, v2c, c2v)
    ensures c2v' == c2v - {c}
    ensures v2c' == DropBoundTo(v2c, {c})
    ensures Bindings(n, v2c', c2v')
  {
    v2c', c2v' := v2c, c2v;
    if c in c2v' {
      v2c' := v2c' - {c2v'[c]};
      c2v' := c2v' - {c};
    }
  }

  /** The running system has a parentless root, and every other context has a parent. */
  ghost predicate Rooted(n: Nodes, root: nat, initialized: bool) {
    && (initialized <==> root != 0)
    && (root == 0 ==> n == map[])
    && (root != 0 ==> root in n && n[root].parent == 0)
    && (forall k {:trigger n[k].parent} :: k in n && k != root ==> n[k].parent != 0)
  }

  ghost predicate StateOk(g: Registry, next: nat, root: nat, initialized: bool) {
    RegistryOk(g, next) && Rooted(g.nodes, root, initialized)
  }

  /** The nodes once context `id` is added under `parent` and appended to a live parent's child list. */
  function Attach(n: Nodes, parent: nat, id: nat, ptr: Ptr): (r: Nodes)
  {
    var added := n[id := ContextNode(parent, [], ptr)];
    if parent != 0 && parent in n then added[parent := n[parent].(children := n[parent].children + [id])] else added
  }

  /** Adding a fresh, larger id under a live parent or none keeps the tree well formed. */
  lemma AttachTree(n: Nodes, bound: nat, parent: nat, id: nat, ptr: Ptr)
    requires Tree(n, bound) && id == bound + 1 && (parent == 0 || parent in n)
    ensures Tree(Attach(n, parent, id, ptr), id)
  {
    var n' := Attach(n, parent, id, ptr);
    assert id !in n;
    forall q | q in n'
      ensures 1 <= q <= id && NoDuplicates(n'[q].children)
    {
      if q == parent && parent != 0 {
        DistinctConcat(n[q].children, [id]);
      }
    }
    forall q, k | q in n' && k in n'[q].children
      ensures k in n' && n'[k].parent == q && q < k
    {
      if q == parent && parent != 0 {
        if k != id {
          assert k in n[q].children;
        }
      } else if q != id {
        assert k in n[q].children;
      }
    }
    forall k | k in n' && n'[k].parent != 0
      ensures n'[k].parent in n' && k in n'[n'[k].parent].children
    {
      if k != id {
        assert k in n && n'[k].parent == n[k].parent;
        var q := n[k].parent;
        assert q in n && k in n[q].children;
      }
    }
    TreeFromParts(n', id);
  }

  /** A new address mapped to the new id keeps the address index exact. */
  lemma AttachPointers(n: Nodes, pointers: map<Ptr, nat>, parent: nat, id: nat, ptr: Ptr)
    requires PointerIndex(n, pointers) && id !in n && ptr != Null && ptr !in pointers
    ensures PointerIndex(Attach(n, parent, id, ptr), pointers[ptr := id])
  {
  }

  /** The node and index edits of CreateContextLocked for a context object that exists. */
  method AddContext(g: Registry, next: nat, parent: nat, ptr: Ptr) returns (g': Registry, id: nat)
    requires RegistryOk(g, next) && ptr != Null && ptr !in g.pointers
    requires parent == 0 || parent in g.nodes
    ensures id == next + 1 && id !in g.nodes
    ensures g' == g.(nodes := Attach(g.nodes, parent, id, ptr), pointers := g.pointers[ptr := id])
    ensures RegistryOk(g', id)
  {
    id := next + 1;
    assert id !in g.nodes;
    var nodes := g.nodes[id := ContextNode(parent, [], ptr)];
    if parent != 0 && parent in nodes {
      nodes := nodes[parent := nodes[parent].(children := nodes[parent].children + [id])];
    }
    assert nodes == Attach(g.nodes, parent, id, ptr);
    AttachTree(g.nodes, next, parent, id, ptr);
    AttachPointers(g.nodes, g.pointers, parent, id, ptr);
    g' := g.(nodes := nodes, pointers := g.pointers[ptr := id]);
  }

  /** New viewport maps that are still inverse keep the registry well formed. */
  lemma RebindOk(g0: Registry, g1: Registry, next: nat, root: nat, initialized: bool)
    requires StateOk(g0, next, root, initialized) && Bindings(g1.nodes, g1.viewportToContext, g1.contextToViewport)
    requires g1.nodes == g0.nodes && g1.pointers == g0.pointers && g1.active == g0.active && g1.capture == g0.capture
    ensures StateOk(g1, next, root, initialized)
  {
  }

  lemma EmptyOk()
    ensures StateOk(Registry(map[], map[], map[], map[], 0, 0), 0, 0, false)
  {
  }

  /** AddContext under a live parent of an initialised system keeps the whole state well formed. */
  method CreateWithinState(g: Registry, next: nat, root: nat, parent: nat, ptr: Ptr) returns (g': Registry, id: nat)
    requires StateOk(g, next, root, true) && ptr != Null && ptr !in g.pointers && parent in g.nodes && parent != 0
    ensures id == next + 1 && id !in g.nodes
    ensures g' == g.(nodes := Attach(g.nodes, parent, id, ptr), pointers := g.pointers[ptr := id])
    ensures StateOk(g', id, root, true)
  {
    g', id := AddContext(g, next, parent, ptr);
    AttachRooted(g.nodes, root, parent, id, ptr);
  }

  /** CreateContext on the registry alone: the checks in order, then AddContext under the parent. */
  method CreateIn(g: Registry, next: nat, root: nat, initialized: bool, parent: nat, ptr: Ptr) returns (r: Outcome, g': Registry, id: nat)
    requires StateOk(g, next, root, initialized) && (ptr == Null || ptr !in g.pointers)
    ensures r == (if parent == 0 then Fail(InvalidArgument)
                  else if !initialized then Fail(NotReady)
                  else if parent !in g.nodes then Fail(NotFound)
                  else if ptr == Null then Fail(InternalError)
                  else Done)
    ensures id == (if r == Done then next + 1 else 0)
    ensures g' == if r == Done then g.(nodes := Attach(g.nodes, parent, id, ptr), pointers := g.pointers[ptr := id]) else g
    ensures StateOk(g', if r == Done then id else next, root, initialized)
  {
    r := if parent == 0 then Fail(InvalidArgument)
         else if !initialized || root == 0 then Fail(NotReady)
         else if parent !in g.nodes then Fail(NotFound)
         else if ptr == Null then Fail(InternalError)
         else Done;
    if r != Done {
      return r, g, 0;
    }
    g', id := CreateWithinState(g, next, root, parent, ptr);
  }

  /** DestroyContext on the registry alone: the checks in order, then the subtree's destruction. */
  method DestroyIn(g: Registry, bound: nat, root: nat, initialized: bool, c: nat) returns (r: Outcome, g': Registry)
    requires StateOk(g, bound, root, initialized)
    ensures r == (if c == 0 then Fail(InvalidArgument)
                  else if !initialized then Fail(NotReady)
                  else if c == root then Fail(InvalidArgument)
                  else if c !in g.nodes then Fail(NotFound)
                  else Done)
    ensures g' == if r == Done then Destroyed(g, c, root, bound) else g
    ensures StateOk(g', bound, root, initialized)
  {
    r := if c == 0 then Fail(InvalidArgument)
         else if !initialized || root == 0 then Fail(NotReady)
         else if c == root then Fail(InvalidArgument)
         else if c !in g.nodes then Fail(NotFound)
         else Done;
    if r != Done {
      return r, g;
    }
    g' := DestroyWithinState(g, c, root, bound);
  }

  lemma AttachRooted(n: Nodes, root: nat, parent: nat, id: nat, ptr: Ptr)
    requires Rooted(n, root, true) && parent in n && parent != 0 && id !in n
    ensures Rooted(Attach(n, parent, id, ptr), root, true)
  {
  }

  /** The root, which has no parent, is not below any other context. */
  lemma RootOutside(g: Registry, c: nat, root: nat, bound: nat)
    requires StateOk(g, bound, root, true) && c <= bound && c in g.nodes && c != root
    ensures root !in Desc(g.nodes, c, bound)
  {
    if root in Desc(g.nodes, c, bound) {
      DescUp(g.nodes, c, bound, root);
      DescAbove(g.nodes, c, bound, g.nodes[root].parent);
    }
  }

  /** Destroying a context other than the root keeps the registry state sound. */
  method DestroyWithinState(g: Registry, c: nat, root: nat, bound: nat) returns (g': Registry)
    requires StateOk(g, bound, root, true) && c <= bound && c in g.nodes && c != root
    ensures g' == Destroyed(g, c, root, bound) && StateOk(g', bound, root, true)
  {
    RootOutside(g, c, root, bound);
    g' := DestroyTree(g, c, root, bound);
    DestroyedRooted(g, c, root, bound);
  }

  lemma DestroyedRooted(g: Registry, c: nat, root: nat, bound: nat)
    requires StateOk(g, bound, root, true) && c <= bound && c in g.nodes && c != root
    requires root !in Desc(g.nodes, c, bound)
    ensures Rooted(Destroyed(g, c, root, bound).nodes, root, true)
  {
    var d := Desc(g.nodes, c, bound);
    assert Destroyed(g, c, root, bound).nodes == RemoveNodes(g.nodes, d, g.nodes[c].parent, SiblingsLeft(g.nodes, c));
    RemoveNodesParents(g.nodes, d, g.nodes[c].parent, SiblingsLeft(g.nodes, c));
  }

  /** Removing nodes keeps every other node, with its parent. */
  lemma RemoveNodesParents(n: Nodes, d: set<nat>, edited: nat, kids: seq<nat>)
    ensures var r := RemoveNodes(n, d, edited, kids);
      r.Keys == n.Keys - d && forall k :: k in r ==> r[k].parent == n[k].parent
  {
  }

  /** The pointer routing's hit test reaches the same answer; `hits` is the hit test at the pointer position. */
  method FindDeepestPointerTarget(n: Nodes, bound: nat, c: nat, hits: nat -> bool) returns (r: nat)
    requires Tree(n, bound) && c <= bound
    ensures r == Deepest(n, c, bound, hits)
    ensures r == 0 <==> c == 0 || c !in n || !hits(c)
    ensures r != 0 ==> r in Desc(n, c, bound) && r in n && hits(r) && forall k :: k in n[r].children ==> !hits(k)
    decreases bound - c
  {
    DeepestSound(n, c, bound, hits);
    if c == 0 || c !in n || !hits(c) {
      return 0;
    }
    var kids := n[c].children;
    KidsAbove(n, c, bound);
    var i := |kids|;
    assert kids[..i] == kids;
    while i > 0
      invariant 0 <= i <= |kids|
      invariant DeepestKids(n, kids[..i], c, bound, hits) == DeepestKids(n, kids, c, bound, hits)
    {
      assert kids[..i][..i - 1] == kids[..i - 1];
      assert kids[i - 1] in kids;
      var hit := FindDeepestPointerTarget(n, bound, kids[i - 1], hits);
      if hit != 0 {
        return hit;
      }
      i := i - 1;
    }
    assert kids[..0] == [];
    r := c;
  }

  /** BuildContextOrderLocked: `acc` followed by the pre-order listing of `c`'s subtree. */
  method BuildContextOrder(n: Nodes, bound: nat, c: nat, acc: seq<nat>) returns (out: seq<nat>)
    requires Tree(n, bound) && c <= bound
    ensures out == acc + Order(n, c, bound)
    decreases bound - c
  {
    if c == 0 || c !in n {
      return acc;
    }
    var kids := n[c].children;
    KidsAbove(n, c, bound);
    out := acc + [c];
    var i := 0;
    while i < |kids|
      invariant 0 <= i <= |kids|
      invariant out == acc + [c] + OrderKids(n, kids[..i], c, bound)
    {
      assert kids[i] in kids;
      var before := out;
      out := BuildContextOrder(n, bound, kids[i], out);
      OrderKidsStep(n, kids, i, c, bound, acc + [c], before);
      i := i + 1;
    }
    assert kids[..i] == kids;
    SeqAppendAssoc(acc, [c], OrderKids(n, kids, c, bound));
  }

  /** One more child of `c` adds that child's listing. */
  lemma OrderKidsStep(n: Nodes, kids: seq<nat>, i: nat, c: nat, bound: nat, front: seq<nat>, before: seq<nat>)
    requires c <= bound && i < |kids| && forall j :: j in kids ==> c < j <= bound
    requires before == front + OrderKids(n, kids[..i], c, bound)
    ensures c < kids[i] <= bound
    ensures before + Order(n, kids[i], bound) == front + OrderKids(n, kids[..i + 1], c, bound)
  {
    assert kids[i] in kids;
    OrderKidsSnoc(n, kids, i, c, bound);
    SeqAppendAssoc(front, OrderKids(n, kids[..i], c, bound), Order(n, kids[i], bound));
  }

  lemma SeqAppendAssoc(a: seq<nat>, b: seq<nat>, c: seq<nat>)
    ensures (a + b) + c == a + (b + c)
  {
  }

  lemma OrderKidsSnoc(n: Nodes, kids: seq<nat>, i: nat, c: nat, bound: nat)
    requires c <= bound && i < |kids| && c < kids[i] <= bound
    ensures OrderKids(n, kids[..i + 1], c, bound) == OrderKids(n, kids[..i], c, bound) + Order(n, kids[i], bound)
  {
    assert kids[..i + 1][..i] == kids[..i];
  }

  lemma ContextIdsFacts(n: Nodes, root: nat, bound: nat, initialized: bool, ids: seq<nat>)
    requires Tree(n, bound) && Rooted(n, root, initialized) && root <= bound && ids == Order(n, root, bound)
    ensures forall x :: x in ids <==> x in n
    ensures NoDuplicates(ids)
    ensures initialized ==> |ids| > 0 && ids[0] == root
    ensures forall i :: 0 < i < |ids| ==> n[ids[i]].parent in ids[..i]
  {
    OrderMembers(n, root, bound);
    OrderDistinct(n, root, bound);
    OrderParentsFirst(n, root, bound);
    if root != 0 {
      forall x | x in n
        ensures x in Desc(n, root, bound)
      {
        DescCoversAll(n, root, bound, x);
      }
    }
  }
}

/** The UISystem object: its context registry fields and the operations on them. */
module UiSystem {
  import opened Common
  import opened UiTree
  import opened UiRegistry

  class UISystem {
    /**
     * The registry fields the context operations edit together:
     * contextNodes, contextIdsByPointer, viewportToContext,
     * contextToViewport, activeInputContext and pointerCaptureContext.
     */
    var contexts: Registry
    var rootContextId: nat
    var nextContextId: nat
    var hasLastPointerPosition: bool
    var initialized: bool

    /**
     * The context tree is well formed with ids up to the counter, the
     * indexes are exact, and a running system has a parentless root every
     * other context descends from.
     */
    ghost predicate Valid()
      reads this
    {
      StateOk(contexts, nextContextId, rootContextId, initialized)
    }

    constructor ()
      ensures Valid() && !initialized && contexts == Registry(map[], map[], map[], map[], 0, 0) && nextContextId == 0
    {
      contexts := Registry(map[], map[], map[], map[], 0, 0);
      rootContextId, nextContextId := 0, 0;
      hasLastPointerPosition, initialized := false, false;
      EmptyOk();
    }

    /** ShutdownUnlocked: every map is cleared and every id and flag reset. */
    method ShutdownUnlocked()
      modifies this
      ensures Valid()
      ensures contexts == Registry(map[], map[], map[], map[], 0, 0)
      ensures rootContextId == 0 && nextContextId == 0 && !hasLastPointerPosition && !initialized
    {
      contexts := Registry(map[], map[], map[], map[], 0, 0);
      rootContextId, nextContextId := 0, 0;
      hasLastPointerPosition, initialized := false, false;
      EmptyOk();
    }

    /**
     * CreateContextLocked: a missing context object gives 0; otherwise the
     * next id, a childless node under `parent` appended to a live parent's
     * child list, and its address indexed.
     */
    method CreateContextLocked(parent: nat, ptr: Ptr) returns (id: nat)
      requires RegistryOk(contexts, nextContextId)
      requires ptr == Null || ptr !in contexts.pointers
      requires parent == 0 || parent in contexts.nodes
      modifies this`contexts, this`nextContextId
      ensures RegistryOk(contexts, nextContextId)
      ensures ptr == Null ==> id == 0 && unchanged(this)
      ensures ptr != Null ==>
                && id == old(nextContextId) + 1 && nextContextId == id && id !in old(contexts.nodes)
                && contexts == old(contexts).(nodes := Attach(old(contexts.nodes), parent, id, ptr),
                                              pointers := old(contexts.pointers)[ptr := id])
    {
      if ptr == Null {
        return 0;
      }
      var g;
      g, id := AddContext(contexts, nextContextId, parent, ptr);
      contexts, nextContextId := g, id;
    }

    /**
     * Initialize: invalid settings are rejected before anything changes;
     * otherwise the system is shut down and restarted with a fresh root
     * context 1, which becomes the active input context.
     */
    method Initialize(viewportSizeValid: bool, dpiOverrideValid: bool, rootPtr: Ptr) returns (r: Outcome)
      requires Valid()
      modifies this
      ensures Valid()
      ensures r == (if !viewportSizeValid || !dpiOverrideValid then Fail(InvalidArgument)
                    else if rootPtr == Null then Fail(InternalError)
                    else Done)
      ensures r == Fail(InvalidArgument) ==> unchanged(this)
      ensures r == Fail(InternalError) ==> !initialized && contexts == Registry(map[], map[], map[], map[], 0, 0)
      ensures r == Done ==>
                && initialized && rootContextId == 1 && nextContextId == 1
                && contexts == Registry(map[1 := ContextNode(0, [], rootPtr)], map[rootPtr := 1], map[], map[], 1, 0)
    {
      if !viewportSizeValid || !dpiOverrideValid {
        return Fail(InvalidArgument);
      }
      ShutdownUnlocked();
      if rootPtr == Null {
        return Fail(InternalError);
      }
      rootContextId := CreateContextLocked(0, rootPtr);
      assert contexts.nodes == map[1 := ContextNode(0, [], rootPtr)];
      contexts := contexts.(active := rootContextId);
      initialized := true;
      r := Done;
    }

    /** Shutdown: the public entry point to ShutdownUnlocked. */
    method Shutdown()
      modifies this
      ensures Valid() && !initialized && contexts == Registry(map[], map[], map[], map[], 0, 0)
    {
      ShutdownUnlocked();
    }

    /**
     * CreateContext: parent 0 is an invalid argument, an uninitialised
     * system is not ready, a missing parent is not found, and a failed
     * context allocation is an internal error; otherwise the new context is
     * the parent's last child.
     */
    method CreateContext(parent: nat, ptr: Ptr) returns (r: Outcome, id: nat)
      requires Valid() && (ptr == Null || ptr !in contexts.pointers)
      modifies this`contexts, this`nextContextId
      ensures Valid()
      ensures r == (if parent == 0 then Fail(InvalidArgument)
                    else if !initialized then Fail(NotReady)
                    else if parent !in old(contexts.nodes) then Fail(NotFound)
                    else if ptr == Null then Fail(InternalError)
                    else Done)
      ensures id == (if r == Done then old(nextContextId) + 1 else 0)
      ensures nextContextId == (if r == Done then id else old(nextContextId))
      ensures contexts == if r == Done then
                            old(contexts).(nodes := Attach(old(contexts.nodes), parent, id, ptr),
                                           pointers := old(contexts.pointers)[ptr := id])
                          else old(contexts)
    {
      var g;
      r, g, id := CreateIn(contexts, nextContextId, rootContextId, initialized, parent, ptr);
      contexts := g;
      if r == Done {
        nextContextId := id;
      }
    }

    /**
     * DestroyContext: 0 and the root are invalid arguments, an
     * uninitialised system is not ready and an unknown id is not found;
     * otherwise the context's whole subtree is destroyed.
     */
    method DestroyContext(c: nat) returns (r: Outcome)
      requires Valid()
      modifies this`contexts
      ensures Valid()
      ensures r == (if c == 0 then Fail(InvalidArgument)
                    else if !initialized then Fail(NotReady)
                    else if c == rootContextId then Fail(InvalidArgument)
                    else if c !in old(contexts.nodes) then Fail(NotFound)
                    else Done)
      ensures contexts == if r == Done then Destroyed(old(contexts), c, rootContextId, nextContextId) else old(contexts)
    {
      var g;
      r, g := DestroyIn(contexts, nextContextId, rootContextId, initialized, c);
      contexts := g;
    }

    /**
     * BindViewportContext: zero ids are invalid, an uninitialised system is
     * not ready and an unknown context is not found; otherwise the pair is
     * bound and any earlier binding of either side is dropped.
     */
    method BindViewportContext(v: nat, c: nat) returns (r: Outcome)
      requires Valid()
      modifies this`contexts
      ensures Valid()
      ensures r == (if v == 0 || c == 0 then Fail(InvalidArgument)
                    else if !initialized then Fail(NotReady)
                    else if c !in contexts.nodes then Fail(NotFound)
                    else Done)
      ensures contexts == if r == Done then
                            old(contexts).(viewportToContext := DropBoundTo(old(contexts.viewportToContext) - {v}, {c})[v := c],
                                           contextToViewport := DropBoundTo(old(contexts.contextToViewport) - {c}, {v})[c := v])
                          else old(contexts)
    {
      if v == 0 || c == 0 {
        return Fail(InvalidArgument);
      }
      if !initialized || rootContextId == 0 {
        return Fail(NotReady);
      }
      if c !in contexts.nodes {
        return Fail(NotFound);
      }
      var g0 := contexts;
      var v2c, c2v := Rebind(g0.nodes, g0.viewportToContext, g0.contextToViewport, v, c);
      var g1 := Registry(g0.nodes, g0.pointers, v2c, c2v, g0.active, g0.capture);
      RebindOk(g0, g1, nextContextId, rootContextId, initialized);
      contexts := g1;
      r := Done;
    }

    /** UnbindViewportContext: succeeds whether or not the viewport was bound. */
    method UnbindViewportContext(v: nat) returns (r: Outcome)
      requires Valid()
      modifies this`contexts
      ensures Valid()
      ensures r == (if v == 0 then Fail(InvalidArgument) else if !initialized then Fail(NotReady) else Done)
      ensures contexts == if r == Done then
                            old(contexts).(viewportToContext := old(contexts.viewportToContext) - {v},
                                           contextToViewport := DropBoundTo(old(contexts.contextToViewport), {v}))
                          else old(contexts)
    {
      if v == 0 {
        return Fail(InvalidArgument);
      }
      if !initialized || rootContextId == 0 {
        return Fail(NotReady);
      }
      var g0 := contexts;
      var v2c, c2v := UnbindViewport(g0.nodes, g0.viewportToContext, g0.contextToViewport, v);
      var g1 := Registry(g0.nodes, g0.pointers, v2c, c2v, g0.active, g0.capture);
      RebindOk(g0, g1, nextContextId, rootContextId, initialized);
      contexts := g1;
      r := Done;
    }

    /** UnbindContext: succeeds whether or not the context was bound. */
    method UnbindContext(c: nat) returns (r: Outcome)
      requires Valid()
      modifies this`contexts
      ensures Valid()
      ensures r == (if c == 0 then Fail(InvalidArgument) else if !initialized then Fail(NotReady) else Done)
      ensures contexts == if r == Done then
                            old(contexts).(viewportToContext := DropBoundTo(old(contexts.viewportToContext), {c}),
                                           contextToViewport := old(contexts.contextToViewport) - {c})
                          else old(contexts)
    {
      if c == 0 {
        return Fail(InvalidArgument);
      }
      if !initialized || rootContextId == 0 {
        return Fail(NotReady);
      }
      var g0 := contexts;
      var v2c, c2v := UnbindContextMaps(g0.nodes, g0.viewportToContext, g0.contextToViewport, c);
      var g1 := Registry(g0.nodes, g0.pointers, v2c, c2v, g0.active, g0.capture);
      RebindOk(g0, g1, nextContextId, rootContextId, initialized);
      contexts := g1;
      r := Done;
    }

    /** ContextIdFor: the id registered for a context address, 0 for none. */
    function ContextIdFor(ptr: Ptr): (r: nat)
      reads this
      requires Valid()
      ensures r != 0 ==> r in contexts.nodes && contexts.nodes[r].ptr == ptr
      ensures forall k :: k in contexts.nodes && contexts.nodes[k].ptr == ptr ==> r == k
      ensures ptr == Null ==> r == 0
    {
      if ptr == Null then 0
      else if ptr in contexts.pointers then contexts.pointers[ptr]
      else 0
    }

    /**
     * IsContextKeyboardEligibleLocked: a live context that no viewport is
     * bound to always takes keyboard input; a bound one only while the last
     * recorded pointer position hits it.
     */
    predicate KeyboardEligible(c: nat, hitsLastPointer: nat -> bool)
      reads this
      ensures KeyboardEligible(c, hitsLastPointer) <==>
                c != 0 && c in contexts.nodes && (c in contexts.contextToViewport ==> hasLastPointerPosition && hitsLastPointer(c))
    {
      if c == 0 || c !in contexts.nodes then false
      else if c !in contexts.contextToViewport then true
      else if !hasLastPointerPosition then false
      else c in contexts.nodes && hitsLastPointer(c)
    }

    /**
     * ContextIds: every live context exactly once, the root first and each
     * context after its parent.
     */
    method ContextIds() returns (ids: seq<nat>)
      requires Valid()
      ensures ids == Order(contexts.nodes, rootContextId, nextContextId)
      ensures forall x :: x in ids <==> x in contexts.nodes
      ensures NoDuplicates(ids)
      ensures initialized ==> |ids| > 0 && ids[0] == rootContextId
      ensures forall i :: 0 < i < |ids| ==> contexts.nodes[ids[i]].parent in ids[..i]
    {
      var n, root, bound := contexts.nodes, rootContextId, nextContextId;
      assert root <= bound by {
        if root != 0 {
          assert root in n;
        }
      }
      ids := BuildContextOrder(n, bound, root, []);
      ContextIdsFacts(n, root, bound, initialized, ids);
    }
  }
}
