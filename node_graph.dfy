/**
 * NodeGraph of include/NodeGraph.h and src/NodeGraph.cpp: the graph's
 * nodes as BaseNode objects keyed by UUID (what Handle::Borrowed reaches
 * through the object registry), the root and pending-destroy lists, the
 * pool's pending-destroy flags, one component storage per type (modelled
 * as the set of owners holding a component), the Active flags of the
 * relevance components and the relevance budget.
 */
module NodeGraphs {
  import opened Common
  import opened Handles
  import opened BaseNodes
  import opened Rpc
  import ComponentStorage

  /* ---------- component masks ---------- */

  /** std::vector<uint64_t>::resize(n, 0): truncate or pad with zero words. */
  function Resized(mask: seq<Word>, n: nat): (r: seq<Word>)
    ensures |r| == n
    ensures forall k :: 0 <= k < n ==> r[k] == if k < |mask| then mask[k] else ZeroWord
  {
    if n <= |mask| then mask[..n] else mask + seq(n - |mask|, _ => ZeroWord)
  }

  /** Bit `i` of the mask: bit i % 64 of word i / 64, false past the end. */
  predicate MaskBit(mask: seq<Word>, i: nat) {
    i / 64 < |mask| && mask[i / 64][i % 64]
  }

  /** The mask grown to cover bit `i` (resize to i / 64 + 1 words when short), with that bit set. */
  function WithBit(mask: seq<Word>, i: nat): (r: seq<Word>)
  {
    var m := if i / 64 >= |mask| then Resized(mask, i / 64 + 1) else mask;
    m[i / 64 := m[i / 64][i % 64 := true]]
  }

  /** The mask with bit `i` cleared when its word exists. */
  function WithoutBit(mask: seq<Word>, i: nat): (r: seq<Word>)
  {
    if i / 64 < |mask| then mask[i / 64 := mask[i / 64][i % 64 := false]] else mask
  }

  /** Setting a bit sets exactly that bit, growing the mask only as far as its word. */
  lemma WithBitEffect(mask: seq<Word>, i: nat, j: nat)
    ensures MaskBit(WithBit(mask, i), j) <==> j == i || MaskBit(mask, j)
    ensures |WithBit(mask, i)| == if i / 64 < |mask| then |mask| else i / 64 + 1
  {
    if j / 64 == i / 64 && j != i {
      assert j % 64 != i % 64;
    }
  }

  /** Clearing a bit clears exactly that bit and keeps the mask's length. */
  lemma WithoutBitEffect(mask: seq<Word>, i: nat, j: nat)
    ensures MaskBit(WithoutBit(mask, i), j) <==> j != i && MaskBit(mask, j)
    ensures |WithoutBit(mask, i)| == |mask|
  {
    if j / 64 == i / 64 && j != i {
      assert j % 64 != i % 64;
    }
  }

  lemma WithBitAll(mask: seq<Word>, i: nat)
    ensures forall j :: MaskBit(WithBit(mask, i), j) <==> j == i || MaskBit(mask, j)
  {
    forall j ensures MaskBit(WithBit(mask, i), j) <==> j == i || MaskBit(mask, j) {
      WithBitEffect(mask, i, j);
    }
  }

  lemma WithoutBitAll(mask: seq<Word>, i: nat)
    ensures forall j :: MaskBit(WithoutBit(mask, i), j) <==> j != i && MaskBit(mask, j)
    ensures |WithoutBit(mask, i)| == |mask|
  {
    forall j ensures MaskBit(WithoutBit(mask, i), j) <==> j != i && MaskBit(mask, j) {
      WithoutBitEffect(mask, i, j);
    }
  }

  /** The node's mask after the version check of RegisterComponentOnNode. */
  function SyncedMask(mask: seq<Word>, maskVersion: U32, version: U32, words: nat): (r: seq<Word>)
  {
    if maskVersion != version then Resized(mask, words) else mask
  }

  /* ---------- type lists ---------- */

  /** Whether `t` is already in the node's type list (the early-return loop of RegisterComponentOnNode). */
  method ContainsType(types: seq<TypeId>, t: TypeId) returns (b: bool)
    ensures b <==> t in types
  {
    var i := 0;
    while i < |types|
      invariant 0 <= i <= |types|
      invariant forall k :: 0 <= k < i ==> types[k] != t
    {
      if types[i] == t {
        return true;
      }
      i := i + 1;
    }
    return false;
  }

  /** The first-match erase of UnregisterComponentOnNode. */
  method EraseType(types: seq<TypeId>, t: TypeId) returns (r: seq<TypeId>)
    ensures r == RemoveFirst(types, t)
  {
    var i := 0;
    while i < |types|
      invariant 0 <= i <= |types|
      invariant forall k :: 0 <= k < i ==> types[k] != t
    {
      if types[i] == t {
        RemoveFirstSplit(types, t, i);
        return types[..i] + types[i + 1..];
      }
      i := i + 1;
    }
    return types;
  }

  lemma {:induction false} RemoveFirstSplit(s: seq<TypeId>, t: TypeId, i: nat)
    requires i < |s| && s[i] == t && forall k :: 0 <= k < i ==> s[k] != t
    ensures RemoveFirst(s, t) == s[..i] + s[i + 1..]
  {
    if i > 0 {
      RemoveFirstSplit(s[1..], t, i - 1);
      assert s[1..][..i - 1] == s[1..i];
      assert s[1..][i..] == s[i + 1..];
      assert [s[0]] + s[1..i] == s[..i];
    }
  }

  /* ---------- end-of-frame bookkeeping as functions of the pending list ---------- */

  /** A parent's child list after EndFrame has erased, in pending order, each pending child whose parent it is. */
  function Unlinked(kids: seq<Handle>, ps: seq<Handle>, parentOf: map<Uuid, Uuid>, me: Uuid): (r: seq<Handle>)
    decreases |ps|
  {
    if ps == [] then kids
    else
      var prev := Unlinked(kids, ps[..|ps| - 1], parentOf, me);
      var h := ps[|ps| - 1];
      if h.id in parentOf && parentOf[h.id] == me then WithoutFirst(prev, h.id) else prev
  }

  /** The root list after EndFrame has erased, in pending order, each pending parentless node. */
  function RootsAfter(roots: seq<Handle>, ps: seq<Handle>, parentless: set<Uuid>): (r: seq<Handle>)
    decreases |ps|
  {
    if ps == [] then roots
    else
      var prev := RootsAfter(roots, ps[..|ps| - 1], parentless);
      var h := ps[|ps| - 1];
      if h.id in parentless then WithoutFirst(prev, h.id) else prev
  }

  /** Parent UUIDs of the nodes whose parent is itself a node of the graph. */
  function ParentIdsOf(parents: map<Uuid, Handle>): (r: map<Uuid, Uuid>)
    ensures forall v :: v in r <==> v in parents && !IsNull(parents[v]) && parents[v].id in parents
  {
    map v | v in parents && !IsNull(parents[v]) && parents[v].id in parents :: parents[v].id
  }

  /** The nodes without a parent. */
  function ParentlessOf(parents: map<Uuid, Handle>): (r: set<Uuid>)
    ensures forall v :: v in r <==> v in parents && IsNull(parents[v])
  {
    set v | v in parents && IsNull(parents[v])
  }

  /** Owners whose component of type `t` EndFrame removes: the pending nodes listing `t`. */
  function RemovedOwners(t: TypeId, ps: seq<Handle>, typesOf: map<Uuid, seq<TypeId>>): (r: set<Uuid>)
  {
    set j | 0 <= j < |ps| && ps[j].id in typesOf && t in typesOf[ps[j].id] :: ps[j].id
  }

  /** Every parent's child list after the erases of the queued handles `ps`. */
  function UnlinkedAll(kids: map<Uuid, seq<Handle>>, ps: seq<Handle>, parentOf: map<Uuid, Uuid>): (r: map<Uuid, seq<Handle>>)
    ensures r.Keys == kids.Keys
    ensures forall u :: u in r ==> r[u] == Unlinked(kids[u], ps, parentOf, u)
  {
    map u | u in kids :: Unlinked(kids[u], ps, parentOf, u)
  }

  /** One more queued handle changes only its parent's list, by a first-match erase. */
  lemma UnlinkedAllNext(kids: map<Uuid, seq<Handle>>, ps: seq<Handle>, k: nat, parentOf: map<Uuid, Uuid>)
    requires k < |ps|
    ensures var before := UnlinkedAll(kids, ps[..k], parentOf);
            var h := ps[k];
            UnlinkedAll(kids, ps[..k + 1], parentOf) ==
              if h.id in parentOf && parentOf[h.id] in kids then before[parentOf[h.id] := WithoutFirst(before[parentOf[h.id]], h.id)]
              else before
  {
    assert ps[..k + 1][..k] == ps[..k];
  }

  lemma RootsAfterNext(roots: seq<Handle>, ps: seq<Handle>, k: nat, parentless: set<Uuid>)
    requires k < |ps|
    ensures RootsAfter(roots, ps[..k + 1], parentless) ==
              if ps[k].id in parentless then WithoutFirst(RootsAfter(roots, ps[..k], parentless), ps[k].id)
              else RootsAfter(roots, ps[..k], parentless)
  {
    assert ps[..k + 1][..k] == ps[..k];
  }

  /** Erasing a handle that is not in a list leaves the list alone, so RootsAfter only drops nodes that were roots. */
  lemma {:induction false} RootsAfterShrinks(roots: seq<Handle>, ps: seq<Handle>, parentless: set<Uuid>)
    ensures |RootsAfter(roots, ps, parentless)| <= |roots|
    ensures forall h :: h in RootsAfter(roots, ps, parentless) ==> h in roots
    decreases |ps|
  {
    if ps != [] {
      var prev := RootsAfter(roots, ps[..|ps| - 1], parentless);
      RootsAfterShrinks(roots, ps[..|ps| - 1], parentless);
      WithoutFirstSubset(prev, ps[|ps| - 1].id);
    }
  }

  lemma {:induction false} WithoutFirstSubset(s: seq<Handle>, id: Uuid)
    ensures |WithoutFirst(s, id)| <= |s|
    ensures forall h :: h in WithoutFirst(s, id) ==> h in s
  {
    if s != [] {
      WithoutFirstSubset(s[1..], id);
    }
  }

  /** Which constructor CreateNode(TypeId) uses: the first one without parameters. */
  method FirstDefaultConstructor(ctors: seq<seq<TypeId>>) returns (r: Option<nat>)
    ensures r.None? <==> forall k :: 0 <= k < |ctors| ==> ctors[k] != []
    ensures r.Some? ==> r.value < |ctors| && ctors[r.value] == [] && forall k :: 0 <= k < r.value ==> ctors[k] != []
  {
    var i := 0;
    while i < |ctors|
      invariant 0 <= i <= |ctors|
      invariant forall k :: 0 <= k < i ==> ctors[k] != []
    {
      if ctors[i] == [] {
        return Some(i);
      }
      i := i + 1;
    }
    return None;
  }

  class NodeGraph {
    /** The graph's nodes by UUID, as the registry resolves them. */
    var nodes: map<Uuid, BaseNode>
    /** UUIDs whose pool entry is flagged for end-of-frame destruction. */
    var poolPending: set<Uuid>
    var roots: seq<Handle>
    var pendingDestroy: seq<Handle>
    /** m_storages: per component type, the owners that hold a component. */
    var storages: map<TypeId, set<Uuid>>
    /** The Active flag of each owner's RelevanceComponent. */
    var relevanceActive: map<Uuid, bool>
    var relevanceCursor: nat
    var relevanceBudget: nat
    /** This graph and its world, as the pointers nodes keep. */
    const graphPtr: Ptr
    const worldPtr: Ptr
    /** StaticTypeId<RelevanceComponent>() and StaticTypeId<BaseNode>(). */
    const relevanceType: TypeId
    const baseNodeType: TypeId

    /**
     * Each node knows its own UUID, so distinct UUIDs are distinct node
     * objects.
     */
    ghost predicate Valid()
      reads this`nodes, nodes.Values
    {
      forall a :: a in nodes ==> nodes[a].self.id == a
    }

    constructor (graphPtr: Ptr, worldPtr: Ptr, relevanceType: TypeId, baseNodeType: TypeId)
      ensures Valid() && nodes == map[] && roots == [] && pendingDestroy == [] && poolPending == {}
      ensures storages == map[] && relevanceActive == map[] && relevanceCursor == 0 && relevanceBudget == 0
    {
      this.graphPtr, this.worldPtr := graphPtr, worldPtr;
      this.relevanceType, this.baseNodeType := relevanceType, baseNodeType;
      nodes, poolPending, roots, pendingDestroy := map[], {}, [], [];
      storages, relevanceActive, relevanceCursor, relevanceBudget := map[], map[], 0, 0;
    }

    /**
     * The shared tail of every CreateNode overload: the pool refuses a nil
     * UUID (InvalidArgument) and one still indexed (AlreadyExists);
     * otherwise the node gets its handle, name, graph, world and type, is
     * registered and is appended to the roots. The pool's runtime key for
     * the new slot is given as `token`, `index` and `generation`.
     */
    method CreateNode(id: Uuid, name: string, typ: TypeId, token: U32, index: U32, generation: U32)
      returns (r: Result<Handle>)
      requires Valid()
      modifies this`nodes, this`roots
      ensures Valid()
      ensures IsNil(id) ==> r == Err(InvalidArgument)
      ensures !IsNil(id) && id in old(nodes) ==> r == Err(AlreadyExists)
      ensures r.Err? ==> nodes == old(nodes) && roots == old(roots)
      ensures !IsNil(id) && id !in old(nodes) ==> r == Ok(Handle(id, token, index, generation))
      ensures r.Ok? ==> roots == old(roots) + [r.value] && nodes.Keys == old(nodes).Keys + {id}
      ensures r.Ok? ==> fresh(nodes[id]) && nodes[id].self == r.value && nodes[id].name == name
      ensures r.Ok? ==> nodes[id].typeKey == typ && nodes[id].ownerGraph == graphPtr && nodes[id].world == worldPtr
      ensures r.Ok? ==> IsNull(nodes[id].parent) && nodes[id].children == [] && nodes[id].active
      ensures r.Ok? ==> forall u :: u in old(nodes) ==> nodes[u] == old(nodes)[u]
      ensures pendingDestroy == old(pendingDestroy) && storages == old(storages) && poolPending == old(poolPending)
    {
      if IsNil(id) {
        return Err(InvalidArgument);
      }
      if id in nodes {
        return Err(AlreadyExists);
      }
      var h := Handle(id, token, index, generation);
      var node := NewNode(h, name, graphPtr, worldPtr, typ, baseNodeType);
      nodes := nodes[id := node];
      roots := roots + [h];
      r := Ok(h);
    }

    /** A default-constructed node given its handle, name, graph, world and type. */
    static method NewNode(h: Handle, name: string, graphPtr: Ptr, worldPtr: Ptr, typ: TypeId, baseNodeType: TypeId)
      returns (node: BaseNode)
      ensures fresh(node) && node.self == h && node.name == name && node.typeKey == typ
      ensures node.ownerGraph == graphPtr && node.world == worldPtr
      ensures IsNull(node.parent) && node.children == [] && node.active
    {
      node := new BaseNode(baseNodeType);
      node.self, node.name, node.ownerGraph, node.world, node.typeKey := h, name, graphPtr, worldPtr, typ;
    }

    /**
     * CreateNode(TypeId, ...): NotFound for an unregistered type,
     * InvalidArgument for a type that is not a node type (`isNodeType` is
     * the registry's IsA answer), NotFound without a zero-parameter
     * constructor, the constructor's error (`constructed`), then the
     * shared creation path.
     */
    method CreateNodeOfType(table: TypeTable, typ: TypeId, isNodeType: bool, constructed: Outcome,
                            id: Uuid, name: string, token: U32, index: U32, generation: U32)
      returns (r: Result<Handle>)
      requires Valid()
      modifies this
      ensures Valid()
      ensures typ !in table ==> r == Err(NotFound)
      ensures typ in table && !isNodeType ==> r == Err(InvalidArgument)
      ensures (typ in table && isNodeType && (forall k :: 0 <= k < |table[typ].constructors| ==> table[typ].constructors[k] != []))
                ==> r == Err(NotFound)
      ensures (typ in table && isNodeType && (exists k :: 0 <= k < |table[typ].constructors| && table[typ].constructors[k] == []))
                ==> r == (if constructed.Fail? then Err(constructed.code)
                          else if IsNil(id) then Err(InvalidArgument)
                          else if id in old(nodes) then Err(AlreadyExists)
                          else Ok(Handle(id, token, index, generation)))
      ensures r.Err? ==> nodes == old(nodes) && roots == old(roots)
      ensures r.Ok? ==> roots == old(roots) + [r.value] && id in nodes && nodes[id].typeKey == typ && nodes[id].name == name
    {
      if typ !in table {
        return Err(NotFound);
      }
      if !isNodeType {
        return Err(InvalidArgument);
      }
      var ctor := FirstDefaultConstructor(table[typ].constructors);
      if ctor.None? {
        return Err(NotFound);
      }
      if constructed.Fail? {
        return Err(constructed.code);
      }
      r := CreateNode(id, name, typ, token, index, generation);
    }

    /**
     * DestroyNode: NotFound when the handle does not resolve; otherwise the
     * handle is queued and its pool entry flagged for end-of-frame
     * destruction.
     */
    method DestroyNode(h: Handle) returns (r: Outcome)
      modifies this
      ensures h.id !in old(nodes) ==> r == Fail(NotFound) && pendingDestroy == old(pendingDestroy) && poolPending == old(poolPending)
      ensures h.id in old(nodes) ==> r == Done && pendingDestroy == old(pendingDestroy) + [h] && poolPending == old(poolPending) + {h.id}
      ensures nodes == old(nodes) && roots == old(roots) && storages == old(storages)
    {
      if h.id !in nodes {
        return Fail(NotFound);
      }
      pendingDestroy := pendingDestroy + [h];
      poolPending := poolPending + {h.id};
      r := Done;
    }

    /**
     * AttachChild: NotFound when either node is missing, InvalidArgument
     * when the child already has a parent; otherwise the child is appended
     * to the parent's children, takes the parent and its world, and its
     * first root entry is erased.
     */
    method AttachChild(parent: Handle, child: Handle) returns (r: Outcome)
      requires Valid()
      modifies this, nodes.Values
      ensures Valid() && nodes == old(nodes)
      ensures parent.id !in nodes || child.id !in nodes ==> r == Fail(NotFound) && roots == old(roots)
      ensures parent.id in nodes && child.id in nodes && !IsNull(old(nodes[child.id].parent)) ==>
                r == Fail(InvalidArgument) && roots == old(roots)
      ensures r.Fail? ==> forall u :: u in nodes ==> unchanged(nodes[u])
      ensures parent.id in nodes && child.id in nodes && IsNull(old(nodes[child.id].parent)) ==>
                && r == Done
                && nodes[parent.id].children == old(nodes[parent.id].children) + [child]
                && nodes[child.id].parent == parent
                && nodes[child.id].world == old(nodes[parent.id].world)
                && roots == WithoutFirst(old(roots), child.id)
      ensures forall u :: u in nodes && u != parent.id && u != child.id ==> unchanged(nodes[u])
      ensures pendingDestroy == old(pendingDestroy) && storages == old(storages)
    {
      if parent.id !in nodes || child.id !in nodes {
        return Fail(NotFound);
      }
      var p, c := nodes[parent.id], nodes[child.id];
      if !IsNull(c.parent) {
        return Fail(InvalidArgument);
      }
      var kids := p.children;
      var w := p.world;
      p.children := kids + [child];
      c.parent := parent;
      c.world := w;
      roots := EraseFirst(roots, child.id);
      r := Done;
    }

    /**
     * DetachChild: NotFound when the child is missing; otherwise a parented
     * child leaves its parent's children (first match) and loses its
     * parent, and the child is appended to the roots in every case.
     */
    method DetachChild(child: Handle) returns (r: Outcome)
      requires Valid()
      modifies this, nodes.Values
      ensures Valid() && nodes == old(nodes)
      ensures child.id !in nodes ==> r == Fail(NotFound) && roots == old(roots)
      ensures child.id in nodes ==> r == Done && roots == old(roots) + [child]
      ensures child.id in nodes && !IsNull(old(nodes[child.id].parent)) ==> IsNull(nodes[child.id].parent)
      ensures forall pid :: (child.id in nodes && !IsNull(old(nodes[child.id].parent)) && pid == old(nodes[child.id].parent.id) &&
                             pid in nodes && pid != child.id)
                ==> nodes[pid].children == WithoutFirst(old(nodes[pid].children), child.id)
      ensures forall u :: u in nodes && u != child.id && (child.id in nodes ==> u != old(nodes[child.id].parent.id)) ==> unchanged(nodes[u])
      ensures pendingDestroy == old(pendingDestroy) && storages == old(storages)
    {
      if child.id !in nodes {
        return Fail(NotFound);
      }
      var c := nodes[child.id];
      if !IsNull(c.parent) {
        if c.parent.id in nodes {
          var p := nodes[c.parent.id];
          p.RemoveChild(child);
        }
        c.parent := NullHandle;
      }
      roots := roots + [child];
      r := Done;
    }

    /** StorageFor: creates the storage of a type the first time only. */
    method StorageFor(t: TypeId)
      modifies this
      ensures t in storages
      ensures storages == if t in old(storages) then old(storages) else old(storages)[t := {}]
      ensures nodes == old(nodes) && roots == old(roots) && relevanceActive == old(relevanceActive)
    {
      if t !in storages {
        storages := storages[t := {}];
      }
    }

    /** HasComponent: false when the type has no storage, else whether its storage holds the owner. */
    function HasComponent(owner: Handle, t: TypeId): (b: bool)
      reads this
      ensures t !in storages ==> !b
      ensures t in storages ==> (b <==> owner.id in storages[t])
    {
      t in storages && owner.id in storages[t]
    }

    /**
     * IsNodeActive: false for a pending-destroy, missing or inactive node;
     * true without a relevance component; otherwise that component's
     * Active flag.
     */
    function IsNodeActive(h: Handle): (b: bool)
      reads this, nodes.Values
      ensures b ==> h.id !in poolPending && h.id in nodes && nodes[h.id].active
      ensures h.id !in poolPending && h.id in nodes && nodes[h.id].active && !HasComponent(h, relevanceType) ==> b
      ensures (h.id !in poolPending && h.id in nodes && nodes[h.id].active && HasComponent(h, relevanceType) && h.id in relevanceActive)
                ==> b == relevanceActive[h.id]
    {
      if h.id in poolPending then false
      else if h.id !in nodes || !nodes[h.id].active then false
      else if !HasComponent(h, relevanceType) then true
      else if h.id !in relevanceActive then true
      else relevanceActive[h.id]
    }

    /**
     * EvaluateRelevance over the pool's visit order `order` (live nodes
     * not pending destruction, in slot order). `verdict` holds, for the
     * owners whose relevance policy is registered and has data, what the
     * policy evaluates to. With a non-zero budget at most `budget` nodes
     * are evaluated in one call.
     */
    method EvaluateRelevance(order: seq<Uuid>, verdict: map<Uuid, bool>) returns (evaluated: nat)
      modifies this
      ensures relevanceBudget > 0 ==> evaluated <= relevanceBudget
      ensures relevanceActive.Keys == old(relevanceActive).Keys
      ensures forall u :: u in relevanceActive && relevanceActive[u] != old(relevanceActive)[u] ==>
                u in order && u in verdict && relevanceActive[u] == verdict[u]
      ensures relevanceBudget == 0 ==> forall k :: (0 <= k < |order| && order[k] in relevanceActive && order[k] in verdict &&
                relevanceType in storages && order[k] in storages[relevanceType]) ==> relevanceActive[order[k]] == verdict[order[k]]
      ensures nodes == old(nodes) && storages == old(storages) && roots == old(roots) && relevanceBudget == old(relevanceBudget)
    {
      evaluated := 0;
      var i := 0;
      while i < |order|
        invariant 0 <= i <= |order|
        invariant nodes == old(nodes) && storages == old(storages) && roots == old(roots) && relevanceBudget == old(relevanceBudget)
        invariant relevanceBudget > 0 ==> evaluated <= relevanceBudget
        invariant relevanceActive.Keys == old(relevanceActive).Keys
        invariant forall u :: u in relevanceActive && relevanceActive[u] != old(relevanceActive)[u] ==>
                    u in order[..i] && u in verdict && relevanceActive[u] == verdict[u]
        invariant relevanceBudget == 0 ==> forall k :: (0 <= k < i && order[k] in relevanceActive && order[k] in verdict &&
                    relevanceType in storages && order[k] in storages[relevanceType]) ==> relevanceActive[order[k]] == verdict[order[k]]
      {
        var u := order[i];
        if (relevanceBudget > 0 && evaluated >= relevanceBudget) || !(relevanceType in storages && u in storages[relevanceType])
           || u !in relevanceActive || u !in verdict {
          i := i + 1;
          continue;
        }
        relevanceActive := relevanceActive[u := verdict[u]];
        evaluated := evaluated + 1;
        i := i + 1;
      }
    }

    /** RegisterComponentOnNode: syncs the mask to the registry version, sets the type's bit, lists the type once. */
    method RegisterComponentOnNode(node: BaseNode, t: TypeId, reg: ComponentStorage.ComponentTypeRegistry)
      requires reg.Valid()
      modifies node, reg
      ensures reg.Valid() && t in reg.typeToIndex
      ensures node.maskVersion == reg.version
      ensures MaskBit(node.componentMask, reg.typeToIndex[t])
      ensures forall j :: j != reg.typeToIndex[t] ==>
                (MaskBit(node.componentMask, j) <==> MaskBit(SyncedMask(old(node.componentMask), old(node.maskVersion), reg.version, reg.WordCount()), j))
      ensures node.componentTypes == if t in old(node.componentTypes) then old(node.componentTypes) else old(node.componentTypes) + [t]
      ensures node.children == old(node.children) && node.parent == old(node.parent) && node.self == old(node.self)
    {
      var index := reg.TypeIndex(t);
      MarkComponent(node, t, index, reg.version, reg.WordCount());
    }

    /** The node half of RegisterComponentOnNode, once the type's bit index and the registry's version are known. */
    method MarkComponent(node: BaseNode, t: TypeId, index: nat, version: U32, words: nat)
      modifies node
      ensures node.maskVersion == version
      ensures forall j :: MaskBit(node.componentMask, j) <==> j == index || MaskBit(SyncedMask(old(node.componentMask), old(node.maskVersion), version, words), j)
      ensures node.componentTypes == if t in old(node.componentTypes) then old(node.componentTypes) else old(node.componentTypes) + [t]
      ensures node.children == old(node.children) && node.parent == old(node.parent) && node.self == old(node.self)
    {
      var synced := SyncedMask(node.componentMask, node.maskVersion, version, words);
      WithBitAll(synced, index);
      var present := ContainsType(node.componentTypes, t);
      node.componentMask, node.maskVersion := WithBit(synced, index), version;
      if !present {
        node.componentTypes := node.componentTypes + [t];
      }
    }

    /** UnregisterComponentOnNode: clears the type's bit when its word exists and erases the first listing of the type. */
    method UnregisterComponentOnNode(node: BaseNode, t: TypeId, reg: ComponentStorage.ComponentTypeRegistry)
      requires reg.Valid()
      modifies node, reg
      ensures reg.Valid() && t in reg.typeToIndex
      ensures !MaskBit(node.componentMask, reg.typeToIndex[t]) && |node.componentMask| == old(|node.componentMask|)
      ensures forall j :: j != reg.typeToIndex[t] ==> (MaskBit(node.componentMask, j) <==> MaskBit(old(node.componentMask), j))
      ensures node.componentTypes == RemoveFirst(old(node.componentTypes), t)
      ensures node.maskVersion == old(node.maskVersion)
      ensures node.children == old(node.children) && node.parent == old(node.parent) && node.self == old(node.self)
    {
      var index := reg.TypeIndex(t);
      UnmarkComponent(node, t, index);
    }

    /** The node half of UnregisterComponentOnNode, once the type's bit index is known. */
    method UnmarkComponent(node: BaseNode, t: TypeId, index: nat)
      modifies node
      ensures forall j :: MaskBit(node.componentMask, j) <==> j != index && MaskBit(old(node.componentMask), j)
      ensures |node.componentMask| == old(|node.componentMask|)
      ensures node.componentTypes == RemoveFirst(old(node.componentTypes), t)
      ensures node.maskVersion == old(node.maskVersion)
      ensures node.children == old(node.children) && node.parent == old(node.parent) && node.self == old(node.self)
    {
      var mask := node.componentMask;
      WithoutBitAll(mask, index);
      var types := EraseType(node.componentTypes, t);
      node.componentMask, node.componentTypes := WithoutBit(mask, index), types;
    }

    /** Each node's parent handle, component types and children, as ghost snapshots. */
    ghost function Parents(): (p: map<Uuid, Handle>)
      reads this`nodes, nodes.Values
      ensures p.Keys == nodes.Keys
    {
      map u | u in nodes :: nodes[u].parent
    }

    ghost function Types(): (t: map<Uuid, seq<TypeId>>)
      reads this`nodes, nodes.Values
      ensures t.Keys == nodes.Keys
    {
      map u | u in nodes :: nodes[u].componentTypes
    }

    ghost function Children(): (c: map<Uuid, seq<Handle>>)
      reads this`nodes, nodes.Values
      ensures c.Keys == nodes.Keys
    {
      map u | u in nodes :: nodes[u].children
    }

    /** The UUIDs queued for destruction. */
    function PendingIds(): (ids: set<Uuid>)
      reads this`pendingDestroy
      ensures forall h :: h in pendingDestroy ==> h.id in ids
    {
      set h | h in pendingDestroy :: h.id
    }

    /**
     * EndFrame: for each queued handle that still resolves, its components
     * leave their storages and it is unlinked from its parent's children,
     * or from the roots when it has no parent; then every queued UUID is
     * unregistered, the pool's pending entries are released and the queue
     * is emptied.
     */
    method EndFrame()
      requires Valid()
      modifies this, nodes.Values
      ensures Valid()
      ensures pendingDestroy == [] && poolPending == {}
      ensures nodes == old(nodes) - old(PendingIds())
      ensures roots == RootsAfter(old(roots), old(pendingDestroy), ParentlessOf(old(Parents())))
      ensures storages.Keys == old(storages).Keys
      ensures forall t :: t in storages ==> storages[t] == old(storages)[t] - RemovedOwners(t, old(pendingDestroy), old(Types()))
      ensures Agrees(old(Parents()), old(Types()), UnlinkedAll(old(Children()), old(pendingDestroy), ParentIdsOf(old(Parents()))))
    {
      FlushPending();
      var gone := PendingIds();
      Unregister(gone, old(Parents()), old(Types()), UnlinkedAll(old(Children()), old(pendingDestroy), ParentIdsOf(old(Parents()))));
      poolPending := {};
      pendingDestroy := [];
    }

    /** The registry side of EndFrame: the queued UUIDs stop resolving; the other nodes are untouched. */
    method Unregister(gone: set<Uuid>, ghost parents: map<Uuid, Handle>, ghost types: map<Uuid, seq<TypeId>>,
                      ghost kids: map<Uuid, seq<Handle>>)
      requires Valid() && Agrees(parents, types, kids)
      modifies this`nodes
      ensures Valid() && Agrees(parents, types, kids) && nodes == old(nodes) - gone
    {
      nodes := nodes - gone;
    }

    /** The loop of EndFrame over the queued handles, before anything is unregistered. */
    method FlushPending()
      requires Valid()
      modifies this, nodes.Values
      ensures Valid() && nodes == old(nodes) && pendingDestroy == old(pendingDestroy)
      ensures roots == RootsAfter(old(roots), pendingDestroy, ParentlessOf(old(Parents())))
      ensures storages.Keys == old(storages).Keys
      ensures forall t :: t in storages ==> storages[t] == old(storages)[t] - RemovedOwners(t, pendingDestroy, old(Types()))
      ensures Links(old(Parents()), old(Types()), UnlinkedAll(old(Children()), pendingDestroy, ParentIdsOf(old(Parents()))))
    {
      ghost var N0, P0, T0, K0 := nodes, Parents(), Types(), Children();
      ghost var S0, R0 := storages, roots;
      var ps := pendingDestroy;
      var k := 0;
      assert UnlinkedAll(K0, ps[..0], ParentIdsOf(P0)) == K0;
      while k < |ps|
        invariant 0 <= k <= |ps|
        invariant nodes == N0 && Valid() && storages.Keys == S0.Keys && pendingDestroy == ps
        invariant Links(P0, T0, UnlinkedAll(K0, ps[..k], ParentIdsOf(P0)))
        invariant roots == RootsAfter(R0, ps[..k], ParentlessOf(P0))
        invariant forall t :: t in storages ==> storages[t] == S0[t] - RemovedOwners(t, ps[..k], T0)
      {
        FlushStep(ps, k, P0, T0, K0, S0, R0);
        k := k + 1;
      }
      assert ps[..k] == ps;
    }

    /** One queued handle of EndFrame: its storages, then its hierarchy links. */
    method FlushStep(ps: seq<Handle>, k: nat, ghost P0: map<Uuid, Handle>, ghost T0: map<Uuid, seq<TypeId>>,
                     ghost K0: map<Uuid, seq<Handle>>, ghost S0: map<TypeId, set<Uuid>>, ghost R0: seq<Handle>)
      requires k < |ps| && Valid() && storages.Keys == S0.Keys
      requires Links(P0, T0, UnlinkedAll(K0, ps[..k], ParentIdsOf(P0)))
      requires roots == RootsAfter(R0, ps[..k], ParentlessOf(P0))
      requires forall t :: t in storages ==> storages[t] == S0[t] - RemovedOwners(t, ps[..k], T0)
      modifies this`storages, this`roots, nodes.Values
      ensures nodes == old(nodes) && pendingDestroy == old(pendingDestroy)
      ensures Valid() && storages.Keys == S0.Keys
      ensures Links(P0, T0, UnlinkedAll(K0, ps[..k + 1], ParentIdsOf(P0)))
      ensures roots == RootsAfter(R0, ps[..k + 1], ParentlessOf(P0))
      ensures forall t :: t in storages ==> storages[t] == S0[t] - RemovedOwners(t, ps[..k + 1], T0)
    {
      DropStep(ps, k, T0, S0);
      UnlinkStep(ps, k, P0, T0, K0, R0);
    }

    /** Every node's parent, component types and children are as the three maps say. */
    ghost predicate Agrees(parents: map<Uuid, Handle>, types: map<Uuid, seq<TypeId>>, kids: map<Uuid, seq<Handle>>)
      reads this`nodes, nodes.Values
    {
      forall u :: u in nodes ==> (u in parents && u in types && u in kids &&
        nodes[u].parent == parents[u] && nodes[u].componentTypes == types[u] && nodes[u].children == kids[u])
    }

    /** Agrees, over exactly the nodes the maps describe. */
    ghost predicate Links(parents: map<Uuid, Handle>, types: map<Uuid, seq<TypeId>>, kids: map<Uuid, seq<Handle>>)
      reads this`nodes, nodes.Values
    {
      parents.Keys == nodes.Keys && types.Keys == nodes.Keys && kids.Keys == nodes.Keys && Agrees(parents, types, kids)
    }

    /** The storage half of one queued handle of EndFrame. */
    method DropStep(ps: seq<Handle>, k: nat, ghost T0: map<Uuid, seq<TypeId>>, ghost S0: map<TypeId, set<Uuid>>)
      requires k < |ps| && T0.Keys == nodes.Keys && storages.Keys == S0.Keys
      requires forall u :: u in nodes ==> nodes[u].componentTypes == T0[u]
      requires forall t :: t in storages ==> storages[t] == S0[t] - RemovedOwners(t, ps[..k], T0)
      modifies this`storages
      ensures storages.Keys == S0.Keys
      ensures forall t :: t in storages ==> storages[t] == S0[t] - RemovedOwners(t, ps[..k + 1], T0)
      ensures nodes == old(nodes) && roots == old(roots) && pendingDestroy == old(pendingDestroy) && poolPending == old(poolPending)
    {
      var h := ps[k];
      StepOwners(ps, k, T0);
      if h.id in nodes {
        var types := nodes[h.id].componentTypes;
        DropComponents(h.id, types, ps, k, T0, S0);
      }
    }

    /**
     * The hierarchy half of one queued handle of EndFrame: a resolving node
     * with a resolving parent leaves that parent's children, a parentless
     * one leaves the roots.
     */
    method UnlinkStep(ps: seq<Handle>, k: nat, ghost P0: map<Uuid, Handle>, ghost T0: map<Uuid, seq<TypeId>>,
                      ghost K0: map<Uuid, seq<Handle>>, ghost R0: seq<Handle>)
      requires k < |ps| && Valid() && Links(P0, T0, UnlinkedAll(K0, ps[..k], ParentIdsOf(P0)))
      requires roots == RootsAfter(R0, ps[..k], ParentlessOf(P0))
      modifies this`roots, nodes.Values
      ensures nodes == old(nodes) && Valid() && storages == old(storages) && pendingDestroy == old(pendingDestroy)
      ensures Links(P0, T0, UnlinkedAll(K0, ps[..k + 1], ParentIdsOf(P0)))
      ensures roots == RootsAfter(R0, ps[..k + 1], ParentlessOf(P0))
    {
      var h := ps[k];
      ghost var parentOf, parentless := ParentIdsOf(P0), ParentlessOf(P0);
      ghost var before := UnlinkedAll(K0, ps[..k], parentOf);
      UnlinkedAllNext(K0, ps, k, parentOf);
      RootsAfterNext(R0, ps, k, parentless);
      if h.id !in nodes {
        assert h.id !in parentOf && h.id !in parentless;
        return;
      }
      var parent := nodes[h.id].parent;
      assert parent == P0[h.id];
      if !IsNull(parent) {
        assert h.id !in parentless;
        if parent.id in nodes {
          assert parentOf[h.id] == parent.id;
          RemoveChildOf(parent.id, h, P0, T0, before);
        } else {
          assert h.id !in parentOf;
        }
      } else {
        assert h.id in parentless && h.id !in parentOf;
        EraseRoot(h.id, P0, T0, before);
      }
    }

    /** The root-list erase of EndFrame for a parentless node. */
    method EraseRoot(id: Uuid, ghost parents: map<Uuid, Handle>, ghost types: map<Uuid, seq<TypeId>>,
                     ghost kids: map<Uuid, seq<Handle>>)
      requires Valid() && Links(parents, types, kids)
      modifies this`roots
      ensures roots == WithoutFirst(old(roots), id)
      ensures nodes == old(nodes) && storages == old(storages) && pendingDestroy == old(pendingDestroy)
      ensures Valid() && Links(parents, types, kids)
    {
      roots := EraseFirst(roots, id);
    }

    /** RemoveChild on the node `pid`, seen from the graph: only that node's children change. */
    method RemoveChildOf(pid: Uuid, h: Handle, ghost parents: map<Uuid, Handle>, ghost types: map<Uuid, seq<TypeId>>,
                         ghost kids: map<Uuid, seq<Handle>>)
      requires Valid() && pid in nodes && Links(parents, types, kids)
      modifies nodes[pid]
      ensures nodes == old(nodes) && storages == old(storages) && roots == old(roots) && pendingDestroy == old(pendingDestroy)
      ensures Valid() && Links(parents, types, kids[pid := WithoutFirst(kids[pid], h.id)])
    {
      var target := nodes[pid];
      ghost var kids' := kids[pid := WithoutFirst(kids[pid], h.id)];
      assert forall u :: u in nodes && u != pid ==> nodes[u] != target;
      target.RemoveChild(h);
      forall u | u in nodes
        ensures nodes[u].self.id == u && nodes[u].parent == parents[u]
        ensures nodes[u].componentTypes == types[u] && nodes[u].children == kids'[u]
      {
        if u != pid {
          assert old(nodes[u]) != target;
        }
      }
    }

    /** The component loop of one EndFrame step: the owner leaves the storage of each type it lists. */
    method DropComponents(owner: Uuid, types: seq<TypeId>, ghost ps: seq<Handle>, ghost k: nat,
                          ghost typesOf: map<Uuid, seq<TypeId>>, ghost S0: map<TypeId, set<Uuid>>)
      requires k < |ps| && ps[k].id == owner && owner in typesOf && typesOf[owner] == types
      requires storages.Keys == S0.Keys
      requires forall t :: t in storages ==> storages[t] == S0[t] - RemovedOwners(t, ps[..k], typesOf)
      requires forall t :: RemovedOwners(t, ps[..k + 1], typesOf) == RemovedOwners(t, ps[..k], typesOf) + (if t in types then {owner} else {})
      modifies this`storages
      ensures storages.Keys == S0.Keys
      ensures forall t :: t in storages ==> storages[t] == S0[t] - RemovedOwners(t, ps[..k + 1], typesOf)
      ensures nodes == old(nodes) && roots == old(roots) && pendingDestroy == old(pendingDestroy) && poolPending == old(poolPending)
    {
      var i := 0;
      while i < |types|
        invariant 0 <= i <= |types|
        invariant storages.Keys == S0.Keys
        invariant nodes == old(nodes) && roots == old(roots) && pendingDestroy == old(pendingDestroy) && poolPending == old(poolPending)
        invariant forall t :: t in storages ==> (storages[t] ==
                    S0[t] - RemovedOwners(t, ps[..k], typesOf) - (if t in types[..i] then {owner} else {}))
      {
        var t := types[i];
        assert types[..i + 1] == types[..i] + [t];
        if t in storages {
          storages := storages[t := storages[t] - {owner}];
        }
        i := i + 1;
      }
      assert types[..i] == types;
    }
    /**
     * Clear: empties the storages, the nodes, the roots and the pending
     * lists and resets the relevance cursor, keeping the budget.
     */
    method Clear()
      modifies this
      ensures Valid()
      ensures storages == map[] && nodes == map[] && roots == [] && pendingDestroy == [] && poolPending == {}
      ensures relevanceActive == map[] && relevanceCursor == 0 && relevanceBudget == old(relevanceBudget)
    {
      var budget := relevanceBudget;
      storages, relevanceActive := map[], map[];
      nodes, poolPending := map[], {};
      roots, pendingDestroy := [], [];
      relevanceCursor, relevanceBudget := 0, budget;
    }
  }

  /** One more queued handle removes its UUID from the storages of exactly the types it lists. */
  lemma StepOwners(ps: seq<Handle>, k: nat, typesOf: map<Uuid, seq<TypeId>>)
    requires k < |ps|
    ensures forall t :: RemovedOwners(t, ps[..k + 1], typesOf) ==
              RemovedOwners(t, ps[..k], typesOf) + (if ps[k].id in typesOf && t in typesOf[ps[k].id] then {ps[k].id} else {})
  {
    var a := ps[..k + 1];
    assert forall j :: 0 <= j < k ==> a[j] == ps[..k][j];
    assert a[k] == ps[k];
  }
}
