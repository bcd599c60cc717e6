/**
 * The context tree of UISystem (src/UISystem.cpp): each context node has
 * a parent id (0 for none), its children in insertion order and the
 * address of its UIContext. This module defines a context's subtree, the
 * pre-order listing ContextIds returns and the deepest pointer target, and
 * proves the facts the system's operations rely on: subtrees of siblings
 * are disjoint, a subtree only depends on the nodes in it, and the listing
 * names every context under the root exactly once, parents first.
 */
module UiTree {
  import opened Common

  datatype ContextNode = ContextNode(parent: nat, children: seq<nat>, ptr: Ptr)

  type Nodes = map<nat, ContextNode>

  /**
   * The shape the system keeps: ids are between 1 and the last id handed
   * out, a child is a live node whose parent is the node listing it and
   * whose id is larger, a node with a parent is listed by it exactly once.
   */
  ghost predicate Tree(n: Nodes, bound: nat) {
    && (forall p :: p in n ==> 1 <= p <= bound && NoDuplicates(n[p].children))
    && (forall p, k {:trigger k in n[p].children} :: p in n && k in n[p].children ==> k in n && n[k].parent == p && p < k)
    && (forall k :: k in n && n[k].parent != 0 ==> n[k].parent in n && k in n[n[k].parent].children)
  }

  /** The ids of a context and its descendants. */
  function Desc(n: Nodes, c: nat, bound: nat): (r: set<nat>)
    requires c <= bound
    decreases bound - c, 1
  {
    if c !in n then {} else {c} + DescKids(n, n[c].children, c, bound)
  }

  function DescKids(n: Nodes, kids: seq<nat>, p: nat, bound: nat): (r: set<nat>)
    requires p <= bound
    decreases bound - p, 0, |kids|
  {
    if kids == [] then {}
    else
      var k := kids[|kids| - 1];
      DescKids(n, kids[..|kids| - 1], p, bound) + (if p < k <= bound then Desc(n, k, bound) else {})
  }

  /** ContextIds / BuildContextOrderLocked: the context, then each child's listing in insertion order. */
  function Order(n: Nodes, c: nat, bound: nat): (r: seq<nat>)
    requires c <= bound
    decreases bound - c, 1
  {
    if c !in n then [] else [c] + OrderKids(n, n[c].children, c, bound)
  }

  function OrderKids(n: Nodes, kids: seq<nat>, p: nat, bound: nat): (r: seq<nat>)
    requires p <= bound
    decreases bound - p, 0, |kids|
  {
    if kids == [] then []
    else
      var k := kids[|kids| - 1];
      OrderKids(n, kids[..|kids| - 1], p, bound) + (if p < k <= bound then Order(n, k, bound) else [])
  }

  lemma {:induction false} DescKidsMember(n: Nodes, kids: seq<nat>, p: nat, bound: nat, x: nat)
    requires p <= bound
    ensures x in DescKids(n, kids, p, bound) <==> exists k :: k in kids && p < k <= bound && x in Desc(n, k, bound)
    decreases |kids|
  {
    if kids != [] {
      var front := kids[..|kids| - 1];
      var k := kids[|kids| - 1];
      DescKidsMember(n, front, p, bound, x);
      assert forall j :: j in kids <==> j in front || j == k;
      if x in DescKids(n, kids, p, bound) && x !in DescKids(n, front, p, bound) {
        assert k in kids && p < k <= bound && x in Desc(n, k, bound);
      }
    }
  }

  /** Every member of a subtree is a live node with an id at least the subtree root's. */
  lemma {:induction false} DescAbove(n: Nodes, c: nat, bound: nat, x: nat)
    requires c <= bound && x in Desc(n, c, bound)
    ensures x in n && c <= x <= bound
    decreases bound - c
  {
    if x != c {
      DescKidsMember(n, n[c].children, c, bound, x);
      var k :| k in n[c].children && c < k <= bound && x in Desc(n, k, bound);
      DescAbove(n, k, bound, x);
    }
  }

  /** A member of a subtree other than its root has its parent in the subtree. */
  lemma {:induction false} DescUp(n: Nodes, c: nat, bound: nat, x: nat)
    requires Tree(n, bound) && c <= bound && x in Desc(n, c, bound) && x != c
    ensures x in n && n[x].parent in Desc(n, c, bound)
    decreases bound - c
  {
    DescAbove(n, c, bound, x);
    DescKidsMember(n, n[c].children, c, bound, x);
    var k :| k in n[c].children && c < k <= bound && x in Desc(n, k, bound);
    DescKidsMember(n, n[c].children, c, bound, n[x].parent);
    if x == k {
      assert n[x].parent == c;
    } else {
      DescUp(n, k, bound, x);
    }
  }

  /** A child's subtree lies within its parent's. */
  lemma ChildDesc(n: Nodes, c: nat, k: nat, bound: nat)
    requires c <= bound && c in n && k in n[c].children && c < k <= bound
    ensures Desc(n, k, bound) <= Desc(n, c, bound)
  {
    forall x | x in Desc(n, k, bound)
      ensures x in Desc(n, c, bound)
    {
      DescKidsMember(n, n[c].children, c, bound, x);
    }
  }

  /** A subtree contains the subtree of each of its members. */
  lemma {:induction false} DescTransitive(n: Nodes, c: nat, p: nat, bound: nat)
    requires Tree(n, bound) && c <= bound && p in Desc(n, c, bound)
    ensures p <= bound && Desc(n, p, bound) <= Desc(n, c, bound)
    decreases p
  {
    DescAbove(n, c, bound, p);
    if p != c {
      DescUp(n, c, bound, p);
      var q := n[p].parent;
      DescAbove(n, c, bound, q);
      DescTransitive(n, c, q, bound);
      ChildDesc(n, q, p, bound);
    }
  }

  /** The subtrees of two different children of one node share no context. */
  lemma {:induction false} SiblingsDisjoint(n: Nodes, c: nat, a: nat, b: nat, bound: nat, x: nat)
    requires Tree(n, bound) && c in n && a in n[c].children && b in n[c].children && a != b
    requires a <= bound && b <= bound
    ensures !(x in Desc(n, a, bound) && x in Desc(n, b, bound))
    decreases x
  {
    if x in Desc(n, a, bound) && x in Desc(n, b, bound) {
      if x == a {
        DescUp(n, b, bound, a);
        DescAbove(n, b, bound, c);
      } else if x == b {
        DescUp(n, a, bound, b);
        DescAbove(n, a, bound, c);
      } else {
        DescUp(n, a, bound, x);
        DescUp(n, b, bound, x);
        DescAbove(n, a, bound, x);
        SiblingsDisjoint(n, c, a, b, bound, n[x].parent);
      }
    }
  }

  /** A subtree only depends on its own nodes' children. */
  lemma {:induction false} DescFrame(n1: Nodes, n2: Nodes, c: nat, bound: nat)
    requires Tree(n1, bound) && c <= bound && c in n1
    requires forall x :: x in Desc(n1, c, bound) ==> x in n1 && x in n2 && n2[x].children == n1[x].children
    ensures Desc(n2, c, bound) == Desc(n1, c, bound)
    decreases bound - c, 1
  {
    DescKidsFrame(n1, n2, n1[c].children, c, bound);
  }

  lemma {:induction false} DescKidsFrame(n1: Nodes, n2: Nodes, kids: seq<nat>, p: nat, bound: nat)
    requires Tree(n1, bound) && p <= bound && p in n1
    requires forall k :: k in kids ==> k in n1[p].children
    requires forall x :: x in Desc(n1, p, bound) ==> x in n1 && x in n2 && n2[x].children == n1[x].children
    ensures DescKids(n2, kids, p, bound) == DescKids(n1, kids, p, bound)
    decreases bound - p, 0, |kids|
  {
    if kids != [] {
      var k := kids[|kids| - 1];
      DescKidsFrame(n1, n2, kids[..|kids| - 1], p, bound);
      if p < k <= bound {
        ChildDesc(n1, p, k, bound);
        DescFrame(n1, n2, k, bound);
      }
    }
  }

  /** The listing names exactly the subtree's contexts. */
  lemma {:induction false} OrderMembers(n: Nodes, c: nat, bound: nat)
    requires c <= bound
    ensures forall x :: x in Order(n, c, bound) <==> x in Desc(n, c, bound)
    decreases bound - c, 1
  {
    if c in n {
      OrderKidsMembers(n, n[c].children, c, bound);
    }
  }

  lemma {:induction false} OrderKidsMembers(n: Nodes, kids: seq<nat>, p: nat, bound: nat)
    requires p <= bound
    ensures forall x :: x in OrderKids(n, kids, p, bound) <==> x in DescKids(n, kids, p, bound)
    decreases bound - p, 0, |kids|
  {
    if kids != [] {
      var k := kids[|kids| - 1];
      OrderKidsMembers(n, kids[..|kids| - 1], p, bound);
      if p < k <= bound {
        OrderMembers(n, k, bound);
      }
    }
  }

  /** The listing names no context twice. */
  lemma {:induction false} OrderDistinct(n: Nodes, c: nat, bound: nat)
    requires Tree(n, bound) && c <= bound
    ensures NoDuplicates(Order(n, c, bound))
    decreases bound - c, 1
  {
    if c in n {
      var kids := n[c].children;
      OrderKidsDistinct(n, kids, c, bound);
      OrderKidsMembers(n, kids, c, bound);
      forall x | x in DescKids(n, kids, c, bound)
        ensures x != c
      {
        DescKidsMember(n, kids, c, bound, x);
        var k :| k in kids && c < k <= bound && x in Desc(n, k, bound);
        DescAbove(n, k, bound, x);
      }
      DistinctConcat([c], OrderKids(n, kids, c, bound));
    }
  }

  lemma {:induction false} OrderKidsDistinct(n: Nodes, kids: seq<nat>, p: nat, bound: nat)
    requires Tree(n, bound) && p <= bound && p in n
    requires NoDuplicates(kids) && forall k :: k in kids ==> k in n[p].children
    ensures NoDuplicates(OrderKids(n, kids, p, bound))
    decreases bound - p, 0, |kids|
  {
    if kids != [] {
      var k := kids[|kids| - 1];
      var front := kids[..|kids| - 1];
      assert NoDuplicates(front);
      OrderKidsDistinct(n, front, p, bound);
      if p < k <= bound {
        OrderDistinct(n, k, bound);
        OrderKidsMembers(n, front, p, bound);
        OrderMembers(n, k, bound);
        forall x | x in DescKids(n, front, p, bound)
          ensures x !in Desc(n, k, bound)
        {
          DescKidsMember(n, front, p, bound, x);
          var j :| j in front && p < j <= bound && x in Desc(n, j, bound);
          assert j != k;
          SiblingsDisjoint(n, p, j, k, bound, x);
        }
        DistinctConcat(OrderKids(n, front, p, bound), Order(n, k, bound));
      }
    }
  }

  lemma DistinctConcat(a: seq<nat>, b: seq<nat>)
    requires NoDuplicates(a) && NoDuplicates(b)
    requires forall x :: x in a ==> x !in b
    ensures NoDuplicates(a + b)
  {
    forall i, j | 0 <= i < j < |a + b|
      ensures (a + b)[i] != (a + b)[j]
    {
      if i < |a| && j >= |a| {
        assert (a + b)[i] in a && (a + b)[j] == b[j - |a|];
      }
    }
  }

  /** A subtree that contains every node's parent contains every node. */
  lemma {:induction false} DescCoversAll(n: Nodes, root: nat, bound: nat, x: nat)
    requires Tree(n, bound) && root <= bound && root in n
    requires forall k :: k in n && k != root ==> n[k].parent != 0
    requires x in n
    ensures x in Desc(n, root, bound)
    decreases x
  {
    if x != root {
      var p := n[x].parent;
      assert p in n && x in n[p].children;
      DescCoversAll(n, root, bound, p);
      DescTransitive(n, root, p, bound);
      ChildDesc(n, p, x, bound);
    }
  }

  /** Every context of `s` is live, and its parent is `p` or comes earlier in `s`. */
  ghost predicate ParentsFirst(n: Nodes, s: seq<nat>, p: nat) {
    forall i :: 0 <= i < |s| ==> s[i] in n && (n[s[i]].parent == p || n[s[i]].parent in s[..i])
  }

  /** Every entry after the first is a context whose parent comes earlier. */
  ghost predicate ParentsBefore(n: Nodes, s: seq<nat>) {
    forall i :: 0 < i < |s| ==> s[i] in n && n[s[i]].parent in s[..i]
  }

  /** The listing puts every context after its parent. */
  lemma {:induction false} OrderParentsFirst(n: Nodes, c: nat, bound: nat)
    requires Tree(n, bound) && c <= bound
    ensures c in n ==> |Order(n, c, bound)| > 0 && Order(n, c, bound)[0] == c
    ensures ParentsBefore(n, Order(n, c, bound))
    decreases bound - c, 1
  {
    if c in n {
      OrderKidsParentsFirst(n, n[c].children, c, bound);
      HeadThenParentsFirst(n, c, OrderKids(n, n[c].children, c, bound));
    }
  }

  /** A context followed by a listing of its descendants that puts parents first puts parents before children. */
  lemma HeadThenParentsFirst(n: Nodes, c: nat, rest: seq<nat>)
    requires ParentsFirst(n, rest, c)
    ensures ParentsBefore(n, [c] + rest)
  {
    var o := [c] + rest;
    forall i | 0 < i < |o|
      ensures o[i] in n && n[o[i]].parent in o[..i]
    {
      assert o[i] == rest[i - 1];
      assert o[..i] == [c] + rest[..i - 1];
      assert o[0] == c;
    }
  }

  lemma {:induction false} OrderKidsParentsFirst(n: Nodes, kids: seq<nat>, p: nat, bound: nat)
    requires Tree(n, bound) && p <= bound && p in n
    requires forall k :: k in kids ==> k in n[p].children
    ensures ParentsFirst(n, OrderKids(n, kids, p, bound), p)
    decreases bound - p, 0, |kids|
  {
    if kids != [] {
      var k := kids[|kids| - 1];
      var front := OrderKids(n, kids[..|kids| - 1], p, bound);
      OrderKidsParentsFirst(n, kids[..|kids| - 1], p, bound);
      assert k in kids && k in n[p].children;
      if p < k <= bound {
        OrderParentsFirst(n, k, bound);
        ParentsFirstAppend(n, front, Order(n, k, bound), p);
      }
    }
  }

  /** A listing that starts with a child of `p` and puts parents first extends one that does. */
  lemma ParentsFirstAppend(n: Nodes, front: seq<nat>, tail: seq<nat>, p: nat)
    requires ParentsFirst(n, front, p)
    requires |tail| > 0 && tail[0] in n && n[tail[0]].parent == p
    requires ParentsBefore(n, tail)
    ensures ParentsFirst(n, front + tail, p)
  {
    var all := front + tail;
    forall i | 0 <= i < |all|
      ensures all[i] in n && (n[all[i]].parent == p || n[all[i]].parent in all[..i])
    {
      if i < |front| {
        assert all[..i] == front[..i];
      } else {
        var j := i - |front|;
        assert all[i] == tail[j];
        if j > 0 {
          assert all[..i] == front + tail[..j];
        }
      }
    }
  }

  /**
   * FindDeepestPointerTargetLocked: 0 for a missing or ineligible
   * context; otherwise the first non-zero answer among the children tried
   * last to first, or the context itself.
   */
  function Deepest(n: Nodes, c: nat, bound: nat, eligible: nat -> bool): (r: nat)
    requires c <= bound
    decreases bound - c, 1
  {
    if c == 0 || c !in n || !eligible(c) then 0
    else
      var hit := DeepestKids(n, n[c].children, c, bound, eligible);
      if hit != 0 then hit else c
  }

  /** The children tried from the last one back. */
  function DeepestKids(n: Nodes, kids: seq<nat>, p: nat, bound: nat, eligible: nat -> bool): (r: nat)
    requires p <= bound
    decreases bound - p, 0, |kids|
  {
    if kids == [] then 0
    else
      var k := kids[|kids| - 1];
      var hit := if p < k <= bound then Deepest(n, k, bound, eligible) else 0;
      if hit != 0 then hit else DeepestKids(n, kids[..|kids| - 1], p, bound, eligible)
  }

  /**
   * The pointer target is 0 exactly when the context is missing or
   * ineligible; otherwise it is an eligible context of the subtree none of
   * whose children is an eligible live context.
   */
  lemma {:induction false} DeepestSound(n: Nodes, c: nat, bound: nat, eligible: nat -> bool)
    requires Tree(n, bound) && c <= bound
    ensures var r := Deepest(n, c, bound, eligible);
            && (r == 0 <==> c == 0 || c !in n || !eligible(c))
            && (r != 0 ==> r in Desc(n, c, bound) && eligible(r) && r in n
                           && forall k :: k in n[r].children ==> !eligible(k))
    decreases bound - c, 1
  {
    if c != 0 && c in n && eligible(c) {
      var kids := n[c].children;
      DeepestKidsSound(n, kids, c, bound, eligible);
      var hit := DeepestKids(n, kids, c, bound, eligible);
      if hit != 0 {
        DescKidsMember(n, kids, c, bound, hit);
      }
    }
  }

  lemma {:induction false} DeepestKidsSound(n: Nodes, kids: seq<nat>, p: nat, bound: nat, eligible: nat -> bool)
    requires Tree(n, bound) && p <= bound && p in n
    requires forall k :: k in kids ==> k in n[p].children
    ensures var r := DeepestKids(n, kids, p, bound, eligible);
            && (r == 0 <==> forall k :: k in kids ==> !eligible(k))
            && (r != 0 ==> (exists k :: k in kids && p < k <= bound && r in Desc(n, k, bound)) && eligible(r) && r in n
                           && forall j :: j in n[r].children ==> !eligible(j))
    decreases bound - p, 0, |kids|
  {
    if kids != [] {
      var k := kids[|kids| - 1];
      assert k in kids && k in n[p].children;
      assert k in n && p < k <= bound;
      DeepestSound(n, k, bound, eligible);
      DeepestKidsSound(n, kids[..|kids| - 1], p, bound, eligible);
      assert forall j :: j in kids <==> j in kids[..|kids| - 1] || j == k;
      var hit := Deepest(n, k, bound, eligible);
      if hit != 0 {
        DescAbove(n, k, bound, hit);
      }
    }
  }
}
