/**
 * include/ComponentStorage.h: the global component-type registry that hands
 * out mask bit positions, and TComponentStorage, one storage per component
 * type: a pool of components, a dense array of (owner, component) entries
 * kept compact by swap-remove, an owner-UUID map and a sparse
 * owner-slot -> dense-index fast path checked against generations.
 */
module ComponentStorage {
  import opened Common
  import opened Handles
  import ObjectPool
  import ObjectRegistry

  /** ComponentTypeRegistry: TypeId -> bit index, plus a version counter. */
  class ComponentTypeRegistry {
    var typeToIndex: map<TypeId, nat>
    var version: U32

    /** Indices are exactly 0 .. count-1, one per registered type. */
    ghost predicate Valid()
      reads this
    {
      && (forall t :: t in typeToIndex ==> typeToIndex[t] < |typeToIndex|)
      && (forall t, u :: t in typeToIndex && u in typeToIndex && t != u ==> typeToIndex[t] != typeToIndex[u])
    }

    constructor ()
      ensures Valid() && typeToIndex == map[] && version == 0
    {
      typeToIndex := map[];
      version := 0;
    }

    /** TypeIndex: the existing index of a known type, else the current count; the version moves only on insertion. */
    method TypeIndex(id: TypeId) returns (index: nat)
      requires Valid()
      modifies this
      ensures Valid()
      ensures id in old(typeToIndex) ==>
        index == old(typeToIndex)[id] && typeToIndex == old(typeToIndex) && version == old(version)
      ensures id !in old(typeToIndex) ==>
        index == old(|typeToIndex|) && typeToIndex == old(typeToIndex)[id := index] &&
        version == (old(version) + 1) % 0x1_0000_0000
      ensures id in typeToIndex && typeToIndex[id] == index
    {
      if id in typeToIndex {
        return typeToIndex[id];
      }
      index := |typeToIndex|;
      NewIndexIsUnused(typeToIndex, index);
      typeToIndex := typeToIndex[id := index];
      version := (version + 1) % 0x1_0000_0000;
    }

    /** WordCount: the number of 64-bit mask words, ceil(types / 64). */
    function WordCount(): (words: nat)
      reads this
      ensures words * 64 >= |typeToIndex|
      ensures words == 0 || (words - 1) * 64 < |typeToIndex|
    {
      (|typeToIndex| + 63) / 64
    }
  }

  /** With indices below the count and injective, the count itself is unused. */
  lemma NewIndexIsUnused(m: map<TypeId, nat>, n: nat)
    requires n == |m| && forall t :: t in m ==> m[t] < |m|
    ensures forall t :: t in m ==> m[t] != n
  {
  }

  /** Sentinel dense index (size_t max). */
  const InvalidDenseIndex: nat := U64Max

  datatype ComponentEntry = ComponentEntry(owner: Handle, ownerNode: Ptr, id: Uuid, component: Ptr)

  datatype PendingDestroyEntry = PendingDestroyEntry(id: Uuid, component: Ptr)

  /** Callbacks and registry calls the storage issues, in order. */
  datatype Event = OnCreateCalled(c: Ptr) | OnDestroyCalled(c: Ptr) | Unregistered(id: Uuid)

  /** The sparse arrays after SetSparseOwnerIndex(owner, dense). */
  function SparseSet(sparse: seq<nat>, gens: seq<U32>, owner: Handle, dense: nat): (r: (seq<nat>, seq<U32>))
    requires |sparse| == |gens|
    ensures |r.0| == |r.1| && |r.0| >= |sparse|
    ensures HasRuntimeKey(owner) ==>
      owner.index < |r.0| && r.0[owner.index] == dense && r.1[owner.index] == owner.generation
    ensures forall s :: 0 <= s < |sparse| && (!HasRuntimeKey(owner) || s != owner.index) ==>
      r.0[s] == sparse[s] && r.1[s] == gens[s]
    ensures forall s :: |sparse| <= s < |r.0| && s != owner.index ==> r.0[s] == InvalidDenseIndex
  {
    if !HasRuntimeKey(owner) then (sparse, gens)
    else
      var grownS := if owner.index < |sparse| then sparse else sparse + seq(owner.index + 1 - |sparse|, _ => InvalidDenseIndex);
      var grownG := if owner.index < |gens| then gens else gens + seq(owner.index + 1 - |gens|, _ => 0);
      (grownS[owner.index := dense], grownG[owner.index := owner.generation])
  }

  /** The sparse arrays after ClearSparseOwnerIndex(owner). */
  function SparseCleared(sparse: seq<nat>, gens: seq<U32>, owner: Handle): (r: (seq<nat>, seq<U32>))
    requires |sparse| == |gens|
    ensures |r.0| == |sparse| && |r.1| == |gens|
    ensures HasRuntimeKey(owner) && owner.index < |sparse| ==>
      r.0[owner.index] == InvalidDenseIndex && r.1[owner.index] == 0
    ensures forall s :: 0 <= s < |sparse| && (!HasRuntimeKey(owner) || s != owner.index) ==>
      r.0[s] == sparse[s] && r.1[s] == gens[s]
  {
    if !HasRuntimeKey(owner) || owner.index >= |sparse| then (sparse, gens)
    else (sparse[owner.index := InvalidDenseIndex], gens[owner.index := 0])
  }

  /** OnDestroy for every pending component that has one, then every unregistration, in queue order. */
  function EndFrameEvents(ps: seq<PendingDestroyEntry>): seq<Event> {
    DestroyCalls(ps) + UnregisterCalls(ps)
  }

  function DestroyCalls(ps: seq<PendingDestroyEntry>): (r: seq<Event>)
    ensures forall k :: 0 <= k < |r| ==> r[k].OnDestroyCalled?
    ensures |r| <= |ps|
  {
    if ps == [] then []
    else DestroyCall(ps[0]) + DestroyCalls(ps[1..])
  }

  /** OnDestroy for one pending entry, when its component pointer is live. */
  function DestroyCall(p: PendingDestroyEntry): seq<Event> {
    if p.component != Null then [OnDestroyCalled(p.component)] else []
  }

  /** The calls for a queue extended by one entry are the calls before it, then that entry's. */
  lemma {:induction false} DestroyCallsSnoc(ps: seq<PendingDestroyEntry>, p: PendingDestroyEntry)
    ensures DestroyCalls(ps + [p]) == DestroyCalls(ps) + DestroyCall(p)
  {
    if ps == [] {
      assert DestroyCalls([p]) == DestroyCall(p) + DestroyCalls([]);
    } else {
      assert (ps + [p])[1..] == ps[1..] + [p];
      DestroyCallsSnoc(ps[1..], p);
    }
  }

  function UnregisterCalls(ps: seq<PendingDestroyEntry>): (r: seq<Event>)
    ensures |r| == |ps| && forall k :: 0 <= k < |r| ==> r[k] == Unregistered(ps[k].id)
  {
    if ps == [] then [] else [Unregistered(ps[0].id)] + UnregisterCalls(ps[1..])
  }

  /** In the EndFrame trace every OnDestroy comes before every unregistration. */
  lemma OnDestroyPrecedesUnregister(ps: seq<PendingDestroyEntry>)
    ensures var t := EndFrameEvents(ps);
      forall i, j :: 0 <= i < |t| && 0 <= j < |t| && t[i].Unregistered? && t[j].OnDestroyCalled? ==> j < i
  {
  }

  /** Every pending component with a non-null pointer gets its OnDestroy, in queue order. */
  lemma {:induction false} DestroyCallsInOrder(ps: seq<PendingDestroyEntry>, a: nat, b: nat)
    requires a < b < |ps| && ps[a].component != Null && ps[b].component != Null
    ensures exists i, j ::
      && 0 <= i < j < |DestroyCalls(ps)|
      && DestroyCalls(ps)[i] == OnDestroyCalled(ps[a].component)
      && DestroyCalls(ps)[j] == OnDestroyCalled(ps[b].component)
  {
    if a == 0 {
      DestroyCallPresent(ps[1..], b - 1);
      var j :| 0 <= j < |DestroyCalls(ps[1..])| && DestroyCalls(ps[1..])[j] == OnDestroyCalled(ps[b].component);
      assert DestroyCalls(ps)[0] == OnDestroyCalled(ps[a].component);
      assert DestroyCalls(ps)[j + 1] == OnDestroyCalled(ps[b].component);
    } else {
      DestroyCallsInOrder(ps[1..], a - 1, b - 1);
      var i, j :| 0 <= i < j < |DestroyCalls(ps[1..])| &&
        DestroyCalls(ps[1..])[i] == OnDestroyCalled(ps[a].component) &&
        DestroyCalls(ps[1..])[j] == OnDestroyCalled(ps[b].component);
      var d := if ps[0].component != Null then 1 else 0;
      assert DestroyCalls(ps)[i + d] == OnDestroyCalled(ps[a].component);
      assert DestroyCalls(ps)[j + d] == OnDestroyCalled(ps[b].component);
    }
  }

  lemma {:induction false} DestroyCallPresent(ps: seq<PendingDestroyEntry>, b: nat)
    requires b < |ps| && ps[b].component != Null
    ensures exists j :: 0 <= j < |DestroyCalls(ps)| && DestroyCalls(ps)[j] == OnDestroyCalled(ps[b].component)
  {
    if b == 0 {
      assert DestroyCalls(ps)[0] == OnDestroyCalled(ps[b].component);
    } else {
      DestroyCallPresent(ps[1..], b - 1);
      var j :| 0 <= j < |DestroyCalls(ps[1..])| && DestroyCalls(ps[1..])[j] == OnDestroyCalled(ps[b].component);
      var d := if ps[0].component != Null then 1 else 0;
      assert DestroyCalls(ps)[j + d] == OnDestroyCalled(ps[b].component);
    }
  }

  /** The owner map and the dense array agree on every owner with a real UUID. */
  ghost predicate OwnerMapSound(dense: seq<ComponentEntry>, ownerToDense: map<Uuid, nat>) {
    && (forall i :: 0 <= i < |dense| && !IsNil(dense[i].owner.id) ==>
          dense[i].owner.id in ownerToDense && ownerToDense[dense[i].owner.id] == i)
    && (forall id :: id in ownerToDense && !IsNil(id) ==>
          ownerToDense[id] < |dense| && dense[ownerToDense[id]].owner.id == id)
  }

  class Storage {
    const typeKey: TypeId
    const pool: ObjectPool.Pool<Ptr>
    var ownerToDense: map<Uuid, nat>
    var sparseOwnerToDense: seq<nat>
    var sparseOwnerGeneration: seq<U32>
    var dense: seq<ComponentEntry>
    var pendingDestroy: seq<PendingDestroyEntry>

    ghost predicate Valid()
      reads this, pool
    {
      && pool.Valid()
      && |sparseOwnerToDense| == |sparseOwnerGeneration|
      && OwnerMapSound(dense, ownerToDense)
    }

    constructor (typeKey: TypeId, registry: ObjectRegistry.Registry)
      requires registry.Valid()
      modifies registry
      ensures Valid() && registry.Valid()
      ensures this.typeKey == typeKey && fresh(pool)
      ensures pool.entries == [] && ownerToDense == map[] && dense == [] && pendingDestroy == []
      ensures sparseOwnerToDense == [] && sparseOwnerGeneration == []
    {
      this.typeKey := typeKey;
      pool := new ObjectPool.Pool(registry);
      ownerToDense := map[];
      sparseOwnerToDense := [];
      sparseOwnerGeneration := [];
      dense := [];
      pendingDestroy := [];
    }

    /** Sparse fast path: the owner's runtime slot names a dense entry of that UUID and generation. */
    function ResolveFromSparse(owner: Handle): (r: Option<nat>)
      reads this
      ensures r.Some? ==>
        HasRuntimeKey(owner) && owner.index < |sparseOwnerToDense| &&
        r.value == sparseOwnerToDense[owner.index] &&
        r.value < |dense| && dense[r.value].owner.id == owner.id &&
        (owner.index < |sparseOwnerGeneration| ==> sparseOwnerGeneration[owner.index] == owner.generation)
    {
      if !HasRuntimeKey(owner) || owner.index >= |sparseOwnerToDense| then None
      else
        var d := sparseOwnerToDense[owner.index];
        if d == InvalidDenseIndex || d >= |dense| then None
        else if dense[d].owner.id != owner.id then None
        else if owner.index < |sparseOwnerGeneration| && sparseOwnerGeneration[owner.index] != owner.generation then None
        else Some(d)
    }

    /** Fallback: the owner-UUID map. */
    function ResolveFromOwnerId(owner: Handle): (r: Option<nat>)
      reads this
      ensures r.Some? ==> !IsNil(owner.id) && owner.id in ownerToDense && r.value == ownerToDense[owner.id]
      ensures r.Some? ==> r.value < |dense| && dense[r.value].owner.id == owner.id
    {
      if IsNil(owner.id) || owner.id !in ownerToDense then None
      else
        var d := ownerToDense[owner.id];
        if d >= |dense| || dense[d].owner.id != owner.id then None else Some(d)
    }

    /**
     * ResolveDenseIndex: sparse path first, then the owner map. Whatever path
     * answers, the dense entry found belongs to that owner UUID, and for a
     * real UUID it is the one entry the owner map names.
     */
    function ResolveDenseIndex(owner: Handle): (r: Option<nat>)
      requires Valid()
      reads this, pool
      ensures r.Some? ==> r.value < |dense| && dense[r.value].owner.id == owner.id
      ensures r.Some? && !IsNil(owner.id) ==> owner.id in ownerToDense && r.value == ownerToDense[owner.id]
      ensures !IsNil(owner.id) && owner.id in ownerToDense ==> r.Some?
    {
      var fast := ResolveFromSparse(owner);
      if fast.Some? then fast else ResolveFromOwnerId(owner)
    }

    predicate Has(owner: Handle)
      requires Valid()
      reads this, pool
    {
      ResolveDenseIndex(owner).Some?
    }

    /** Borrowed(owner): the owner's component pointer, or nullptr. */
    function Borrowed(owner: Handle): (c: Ptr)
      requires Valid()
      reads this, pool
      ensures c != Null ==> Has(owner)
    {
      match ResolveDenseIndex(owner)
      case None => Null
      case Some(d) => dense[d].component
    }

    method SetSparseOwnerIndex(owner: Handle, d: nat)
      requires Valid()
      modifies this
      ensures Valid()
      ensures (sparseOwnerToDense, sparseOwnerGeneration) ==
        SparseSet(old(sparseOwnerToDense), old(sparseOwnerGeneration), owner, d)
      ensures ownerToDense == old(ownerToDense) && dense == old(dense) && pendingDestroy == old(pendingDestroy)
    {
      var r := SparseSet(sparseOwnerToDense, sparseOwnerGeneration, owner, d);
      sparseOwnerToDense, sparseOwnerGeneration := r.0, r.1;
    }

    method ClearSparseOwnerIndex(owner: Handle)
      requires Valid()
      modifies this
      ensures Valid()
      ensures (sparseOwnerToDense, sparseOwnerGeneration) ==
        SparseCleared(old(sparseOwnerToDense), old(sparseOwnerGeneration), owner)
      ensures ownerToDense == old(ownerToDense) && dense == old(dense) && pendingDestroy == old(pendingDestroy)
    {
      var r := SparseCleared(sparseOwnerToDense, sparseOwnerGeneration, owner);
      sparseOwnerToDense, sparseOwnerGeneration := r.0, r.1;
    }

    /**
     * AddWithId: AlreadyExists when the owner already has a component of this
     * type, the pool's error when creation fails; otherwise the component is
     * registered, appended to the dense array and announced with OnCreate.
     * `component` is the newly constructed object and `ownerNode` what the
     * owner handle resolves to at this moment.
     */
    method AddWithId(owner: Handle, id: Uuid, component: Ptr, ownerNode: Ptr, registry: ObjectRegistry.Registry)
      returns (r: Result<Ptr>, events: seq<Event>)
      requires Valid() && registry.Valid()
      modifies this, pool, registry
      ensures Valid() && registry.Valid()
      ensures old(Has(owner)) ==> r == Err(AlreadyExists) && events == [] && unchanged(this, pool, registry)
      ensures r.Ok? ==>
        && !old(Has(owner))
        && r.value == component && events == [OnCreateCalled(component)]
        && dense == old(dense) + [ComponentEntry(owner, ownerNode, id, component)]
        && ownerToDense == (if owner.id in old(ownerToDense) then old(ownerToDense)
                            else old(ownerToDense)[owner.id := old(|dense|)])
        && (sparseOwnerToDense, sparseOwnerGeneration) ==
           SparseSet(old(sparseOwnerToDense), old(sparseOwnerGeneration), owner, old(|dense|))
        && id in registry.entries && registry.entries[id].target.component == component
        && registry.entries[id].target.kind == ObjectRegistry.ComponentKind
        && pendingDestroy == old(pendingDestroy)
      ensures r.Err? ==> events == [] && dense == old(dense) && ownerToDense == old(ownerToDense)
      ensures r.Err? && !old(Has(owner)) ==>
        r.code in {InvalidArgument, AlreadyExists, InternalError}
    {
      events := [];
      if Has(owner) {
        return Err(AlreadyExists), [];
      }
      var created := pool.CreateWithId(id, component);
      if created.Err? {
        return Err(created.code), [];
      }
      var h := created.value;
      if pool.Borrowed(h).None? {
        return Err(InternalError), [];
      }
      registry.RegisterInternal(id,
        ObjectRegistry.Target(ObjectRegistry.ComponentKind, Null, component, Null, ObjectRegistry.VoidType),
        h.token, h.index, h.generation);
      AppendEntry(ComponentEntry(owner, ownerNode, id, component));
      events := [OnCreateCalled(component)];
      r := Ok(component);
    }

    /** The bookkeeping half of AddWithId: owner map (insert-if-absent), dense append, sparse slot. */
    method AppendEntry(entry: ComponentEntry)
      requires Valid() && ResolveDenseIndex(entry.owner).None?
      modifies this
      ensures Valid()
      ensures dense == old(dense) + [entry]
      ensures ownerToDense == (if entry.owner.id in old(ownerToDense) then old(ownerToDense)
                               else old(ownerToDense)[entry.owner.id := old(|dense|)])
      ensures (sparseOwnerToDense, sparseOwnerGeneration) ==
        SparseSet(old(sparseOwnerToDense), old(sparseOwnerGeneration), entry.owner, old(|dense|))
      ensures pendingDestroy == old(pendingDestroy)
    {
      var d := |dense|;
      var map1 := if entry.owner.id in ownerToDense then ownerToDense else ownerToDense[entry.owner.id := d];
      AppendKeepsOwnerMap(dense, ownerToDense, entry, map1);
      var sp := SparseSet(sparseOwnerToDense, sparseOwnerGeneration, entry.owner, d);
      dense, ownerToDense := dense + [entry], map1;
      sparseOwnerToDense, sparseOwnerGeneration := sp.0, sp.1;
    }

    /**
     * Remove: a no-op for an owner without a component; otherwise the dense
     * entry is swap-removed, the moved entry's owner map and sparse slot
     * re-pointed, and the component queued for EndFrame if the pool accepts it.
     */
    method Remove(owner: Handle)
      requires Valid()
      modifies this, pool
      ensures Valid()
      ensures old(ResolveDenseIndex(owner)).None? ==> unchanged(this, pool)
      ensures old(ResolveDenseIndex(owner)).Some? ==>
        var d := old(ResolveDenseIndex(owner)).value;
        var removed := old(dense[d]);
        var cleared := SparseCleared(old(sparseOwnerToDense), old(sparseOwnerGeneration), removed.owner);
        && dense == SwapRemove(old(dense), d)
        && (d + 1 < old(|dense|) ==>
              var moved := old(dense[|dense| - 1]);
              && ownerToDense == (old(ownerToDense) - {removed.owner.id})[moved.owner.id := d]
              && (sparseOwnerToDense, sparseOwnerGeneration) == SparseSet(cleared.0, cleared.1, moved.owner, d))
        && (d + 1 == old(|dense|) ==>
              && ownerToDense == old(ownerToDense) - {removed.owner.id}
              && (sparseOwnerToDense, sparseOwnerGeneration) == cleared)
        && pool.index == old(pool.index)
        && pendingDestroy == old(pendingDestroy) +
             (if removed.id in old(pool.index) then [PendingDestroyEntry(removed.id, removed.component)] else [])
    {
      var found := ResolveDenseIndex(owner);
      if found.None? {
        return;
      }
      var d := found.value;
      var removed := dense[d];
      SwapRemoveAt(d);
      var destroyed := pool.DestroyLaterById(removed.id);
      if destroyed == Done {
        pendingDestroy := pendingDestroy + [PendingDestroyEntry(removed.id, removed.component)];
      }
    }

    /** The swap-remove of dense entry `d`, with the owner map and sparse slots of the removed and the moved entry. */
    method SwapRemoveAt(d: nat)
      requires Valid() && d < |dense|
      modifies this`dense, this`ownerToDense, this`sparseOwnerToDense, this`sparseOwnerGeneration
      ensures Valid()
      ensures var removed := old(dense[d]);
        var cleared := SparseCleared(old(sparseOwnerToDense), old(sparseOwnerGeneration), removed.owner);
        && dense == SwapRemove(old(dense), d)
        && (d + 1 < old(|dense|) ==>
              var moved := old(dense[|dense| - 1]);
              && ownerToDense == (old(ownerToDense) - {removed.owner.id})[moved.owner.id := d]
              && (sparseOwnerToDense, sparseOwnerGeneration) == SparseSet(cleared.0, cleared.1, moved.owner, d))
        && (d + 1 == old(|dense|) ==>
              && ownerToDense == old(ownerToDense) - {removed.owner.id}
              && (sparseOwnerToDense, sparseOwnerGeneration) == cleared)
    {
      var removed := dense[d];
      var cleared := SparseCleared(sparseOwnerToDense, sparseOwnerGeneration, removed.owner);
      var map1 := ownerToDense - {removed.owner.id};
      var sp := cleared;
      if d + 1 < |dense| {
        var moved := dense[|dense| - 1];
        map1 := map1[moved.owner.id := d];
        sp := SparseSet(cleared.0, cleared.1, moved.owner, d);
      }
      var dense1 := SwapRemove(dense, d);
      SwapRemoveKeepsOwnerMap(dense, ownerToDense, d, dense1, map1);
      dense, ownerToDense := dense1, map1;
      sparseOwnerToDense, sparseOwnerGeneration := sp.0, sp.1;
    }

    /**
     * EndFrame: OnDestroy for every queued component, in queue order, before
     * any of them is unregistered; then the queue is emptied and the pool flushed.
     */
    method EndFrame(registry: ObjectRegistry.Registry) returns (events: seq<Event>)
      requires Valid() && registry.Valid()
      modifies this, pool, registry
      ensures Valid() && registry.Valid()
      ensures events == EndFrameEvents(old(pendingDestroy))
      ensures pendingDestroy == [] && dense == old(dense) && ownerToDense == old(ownerToDense)
      ensures sparseOwnerToDense == old(sparseOwnerToDense) && sparseOwnerGeneration == old(sparseOwnerGeneration)
      ensures registry.entries.Keys == old(registry.entries.Keys) - PendingIds(old(pendingDestroy))
      ensures pool.pending == [] && pool.freeList == old(pool.freeList) + old(pool.pending)
    {
      var ps := pendingDestroy;
      var destroyed := CallOnDestroy(ps);
      var unregistered := UnregisterAll(ps, registry);
      events := destroyed + unregistered;
      pendingDestroy := [];
      pool.EndFrame();
    }
  }

  /** The first EndFrame pass: OnDestroy for each queued component with a live pointer. */
  method CallOnDestroy(ps: seq<PendingDestroyEntry>) returns (calls: seq<Event>)
    ensures calls == DestroyCalls(ps)
  {
    calls := [];
    var k := 0;
    while k < |ps|
      invariant 0 <= k <= |ps|
      invariant calls == DestroyCalls(ps[..k])
    {
      assert ps[..k + 1] == ps[..k] + [ps[k]];
      DestroyCallsSnoc(ps[..k], ps[k]);
      if ps[k].component != Null {
        calls := calls + [OnDestroyCalled(ps[k].component)];
      }
      k := k + 1;
    }
    assert ps[..k] == ps;
  }

  /** The second EndFrame pass: unregister every queued id from the object registry. */
  method UnregisterAll(ps: seq<PendingDestroyEntry>, registry: ObjectRegistry.Registry) returns (calls: seq<Event>)
    requires registry.Valid()
    modifies registry
    ensures registry.Valid()
    ensures calls == UnregisterCalls(ps)
    ensures registry.entries.Keys == old(registry.entries.Keys) - PendingIds(ps)
  {
    ghost var K0 := registry.entries.Keys;
    calls := [];
    var k := 0;
    while k < |ps|
      invariant 0 <= k <= |ps| && registry.Valid()
      invariant calls == UnregisterCalls(ps[..k])
      invariant registry.entries.Keys == K0 - PendingIds(ps[..k])
    {
      ghost var keys := registry.entries.Keys;
      registry.Unregister(ps[k].id);
      assert registry.entries.Keys == keys - {ps[k].id};
      assert ps[..k + 1] == ps[..k] + [ps[k]];
      UnregisterCallsAppend(ps[..k], ps[k]);
      PendingIdsAppend(ps[..k], ps[k]);
      assert registry.entries.Keys == K0 - PendingIds(ps[..k + 1]);
      calls := calls + [Unregistered(ps[k].id)];
      k := k + 1;
    }
    assert ps[..k] == ps;
  }

  /** The ids of a pending-destroy queue. */
  function PendingIds(ps: seq<PendingDestroyEntry>): (ids: set<Uuid>)
    ensures forall k :: 0 <= k < |ps| ==> ps[k].id in ids
    ensures forall id :: id in ids ==> exists k :: 0 <= k < |ps| && ps[k].id == id
  {
    set k | 0 <= k < |ps| :: ps[k].id
  }

  lemma PendingIdsAppend(ps: seq<PendingDestroyEntry>, p: PendingDestroyEntry)
    ensures PendingIds(ps + [p]) == PendingIds(ps) + {p.id}
  {
    var l, r := PendingIds(ps + [p]), PendingIds(ps) + {p.id};
    forall id | id in l ensures id in r {
      var k :| 0 <= k < |ps + [p]| && (ps + [p])[k].id == id;
      if k < |ps| { assert ps[k].id == id; }
    }
    forall id | id in r ensures id in l {
      if id == p.id { assert (ps + [p])[|ps|].id == id; }
      else {
        var k :| 0 <= k < |ps| && ps[k].id == id;
        assert (ps + [p])[k].id == id;
      }
    }
  }

  lemma {:induction false} UnregisterCallsAppend(ps: seq<PendingDestroyEntry>, p: PendingDestroyEntry)
    ensures UnregisterCalls(ps + [p]) == UnregisterCalls(ps) + [Unregistered(p.id)]
  {
  }

  /** Appending an entry whose owner is new to the map (or nil) keeps the owner map sound. */
  lemma AppendKeepsOwnerMap(D0: seq<ComponentEntry>, M0: map<Uuid, nat>, e: ComponentEntry, M1: map<Uuid, nat>)
    requires OwnerMapSound(D0, M0)
    requires M1 == if e.owner.id in M0 then M0 else M0[e.owner.id := |D0|]
    requires !IsNil(e.owner.id) ==> e.owner.id !in M0
    ensures OwnerMapSound(D0 + [e], M1)
  {
  }

  /** Swap-remove with the matching owner-map edits keeps the owner map and the dense array in step. */
  lemma SwapRemoveKeepsOwnerMap(D0: seq<ComponentEntry>, M0: map<Uuid, nat>, d: nat,
                                D1: seq<ComponentEntry>, M1: map<Uuid, nat>)
    requires OwnerMapSound(D0, M0) && d < |D0|
    requires D1 == SwapRemove(D0, d)
    requires d + 1 < |D0| ==> M1 == (M0 - {D0[d].owner.id})[D0[|D0| - 1].owner.id := d]
    requires d + 1 == |D0| ==> M1 == M0 - {D0[d].owner.id}
    ensures OwnerMapSound(D1, M1)
  {
  }
}
