/**
 * TDenseRuntimeStorage of include/WorldEcsRuntime.h: a typed, contiguous
 * storage whose objects live in a dense array kept compact by swap-remove,
 * addressed through generation-checked slots and a UUID -> slot map.
 */
module DenseRuntime {
  import opened Common
  import ObjectPool

  const InvalidStorageToken: U32 := 0
  const InvalidIndex: U32 := U32Max

  /** TDenseRuntimeHandle; its defaulted == compares all four fields. */
  datatype DenseHandle = DenseHandle(id: Uuid, token: U32, index: U32, generation: U32)

  const NullDenseHandle: DenseHandle := DenseHandle(NilUuid, InvalidStorageToken, InvalidIndex, 0)

  predicate IsNull(h: DenseHandle) {
    IsNil(h.id)
  }

  predicate HasRuntimeKey(h: DenseHandle) {
    h.token != InvalidStorageToken && h.index != InvalidIndex
  }

  /** SlotMeta: the slot's current UUID, generation, dense position and liveness. */
  datatype SlotMeta = SlotMeta(id: Uuid, generation: U32, denseIndex: nat, alive: bool)

  /** A slot as emplace_back creates it. */
  const NewSlot: SlotMeta := SlotMeta(NilUuid, 1, InvalidIndex, false)

  /** A slot after destroy or Clear: dead, nil UUID, generation bumped (wrapping past u32 max to 1). */
  function Retired(m: SlotMeta): (r: SlotMeta)
    ensures !r.alive && IsNil(r.id) && r.denseIndex == InvalidIndex
    ensures r.generation != 0 && r.generation != m.generation
  {
    SlotMeta(NilUuid, ObjectPool.NextGeneration(m.generation), InvalidIndex, false)
  }

  /** AcquireSlot's guard: a generation of 0 is bumped to 1. */
  function NonZero(g: U32): (r: U32)
    ensures r != 0 && (g != 0 ==> r == g)
  {
    if g == 0 then 1 else g
  }

  /** Both directions of the dense <-> slot back-pointers. */
  ghost predicate DenseLinked(n: nat, dsi: seq<nat>, slots: seq<SlotMeta>) {
    && |dsi| == n
    && (forall d :: 0 <= d < n ==> dsi[d] < |slots| && slots[dsi[d]].alive && slots[dsi[d]].denseIndex == d)
    && (forall s :: 0 <= s < |slots| && slots[s].alive ==> slots[s].denseIndex < n && dsi[slots[s].denseIndex] == s)
  }

  /** Slot indices fit below the invalid index; generations are never 0; dead slots are blank. */
  ghost predicate SlotsSound(slots: seq<SlotMeta>) {
    && |slots| <= U32Max
    && forall s :: 0 <= s < |slots| ==>
         slots[s].generation != 0 &&
         (!slots[s].alive ==> IsNil(slots[s].id) && slots[s].denseIndex == InvalidIndex)
  }

  /** The UUID map names exactly the live slots, under their own UUID. */
  ghost predicate IdsSound(slots: seq<SlotMeta>, ids: map<Uuid, nat>) {
    && (forall id :: id in ids ==> !IsNil(id) && ids[id] < |slots| && slots[ids[id]].alive && slots[ids[id]].id == id)
    && (forall s :: 0 <= s < |slots| && slots[s].alive ==> slots[s].id in ids && ids[slots[s].id] == s)
  }

  /** The free list holds every dead slot, once. */
  ghost predicate FreeSound(slots: seq<SlotMeta>, free: seq<nat>) {
    && NoDuplicates(free)
    && (forall k :: 0 <= k < |free| ==> free[k] < |slots| && !slots[free[k]].alive)
    && (forall s :: 0 <= s < |slots| && !slots[s].alive ==> s in free)
  }

  ghost predicate StorageInv(n: nat, dsi: seq<nat>, slots: seq<SlotMeta>, free: seq<nat>, ids: map<Uuid, nat>) {
    DenseLinked(n, dsi, slots) && SlotsSound(slots) && IdsSound(slots, ids) && FreeSound(slots, free)
  }

  /** The slot table after DestroyBySlot(s): the moved entry re-pointed at `d`, then `s` retired. */
  function SlotsAfterDestroy(slots: seq<SlotMeta>, dsi: seq<nat>, s: nat): seq<SlotMeta>
    requires s < |slots| && slots[s].denseIndex < |dsi| && dsi[|dsi| - 1] < |slots|
  {
    var d := slots[s].denseIndex;
    var moved := dsi[|dsi| - 1];
    var t := if d != |dsi| - 1 then slots[moved := slots[moved].(denseIndex := d)] else slots;
    t[s := Retired(slots[s])]
  }

  /** Destroying slot `s` retires it and leaves every other slot's UUID, generation and liveness as they were. */
  lemma DestroyedSlotsView(slots: seq<SlotMeta>, dsi: seq<nat>, s: nat)
    requires s < |slots| && slots[s].denseIndex < |dsi| && dsi[|dsi| - 1] < |slots|
    ensures var r := SlotsAfterDestroy(slots, dsi, s);
      && |r| == |slots| && r[s] == Retired(slots[s])
      && forall t :: 0 <= t < |r| && t != s ==>
           r[t].id == slots[t].id && r[t].generation == slots[t].generation && r[t].alive == slots[t].alive
  {
  }

  /** DestroyBySlot keeps the invariant; each conjunct has its own lemma below. */
  lemma DestroyKeepsInv(n: nat, dsi: seq<nat>, slots: seq<SlotMeta>, free: seq<nat>, ids: map<Uuid, nat>, s: nat)
    requires StorageInv(n, dsi, slots, free, ids)
    requires s < |slots| && slots[s].alive
    ensures n > 0 && slots[s].denseIndex < n && dsi[n - 1] < |slots|
    ensures StorageInv(n - 1, SwapRemove(dsi, slots[s].denseIndex), SlotsAfterDestroy(slots, dsi, s),
                       free + [s], ids - {slots[s].id})
  {
    DestroyKeepsLinks(n, dsi, slots, s);
    DestroyKeepsIds(n, dsi, slots, ids, s);
    DestroyKeepsFree(n, dsi, slots, free, s);
  }

  lemma DestroyKeepsLinks(n: nat, dsi: seq<nat>, slots: seq<SlotMeta>, s: nat)
    requires DenseLinked(n, dsi, slots) && SlotsSound(slots)
    requires s < |slots| && slots[s].alive
    ensures n > 0 && slots[s].denseIndex < n && dsi[n - 1] < |slots|
    ensures DenseLinked(n - 1, SwapRemove(dsi, slots[s].denseIndex), SlotsAfterDestroy(slots, dsi, s))
    ensures SlotsSound(SlotsAfterDestroy(slots, dsi, s))
  {
    var d := slots[s].denseIndex;
    var dsi1 := SwapRemove(dsi, d);
    var slots1 := SlotsAfterDestroy(slots, dsi, s);
    var moved := dsi[n - 1];
    assert moved == s <==> d == n - 1;
    forall e | 0 <= e < n - 1
      ensures dsi1[e] < |slots1| && slots1[dsi1[e]].alive && slots1[dsi1[e]].denseIndex == e
    {
      if e == d {
        assert dsi1[e] == moved && moved != s;
      } else {
        assert dsi1[e] == dsi[e] && dsi[e] != s && dsi[e] != moved;
      }
    }
    forall t | 0 <= t < |slots1| && slots1[t].alive
      ensures slots1[t].denseIndex < n - 1 && dsi1[slots1[t].denseIndex] == t
    {
      assert t != s;
      if t == moved {
        assert slots1[t].denseIndex == d;
      } else {
        assert slots1[t] == slots[t] && slots[t].denseIndex != d && slots[t].denseIndex != n - 1;
      }
    }
  }

  lemma DestroyKeepsIds(n: nat, dsi: seq<nat>, slots: seq<SlotMeta>, ids: map<Uuid, nat>, s: nat)
    requires DenseLinked(n, dsi, slots) && IdsSound(slots, ids)
    requires s < |slots| && slots[s].alive
    requires slots[s].denseIndex < n && dsi[n - 1] < |slots|
    ensures IdsSound(SlotsAfterDestroy(slots, dsi, s), ids - {slots[s].id})
  {
    var slots1 := SlotsAfterDestroy(slots, dsi, s);
    forall t | 0 <= t < |slots1| ensures slots1[t].alive == (slots[t].alive && t != s) && (t != s ==> slots1[t].id == slots[t].id) {
    }
  }

  lemma DestroyKeepsFree(n: nat, dsi: seq<nat>, slots: seq<SlotMeta>, free: seq<nat>, s: nat)
    requires FreeSound(slots, free)
    requires s < |slots| && slots[s].alive
    requires slots[s].denseIndex < n == |dsi| && dsi[n - 1] < |slots|
    ensures FreeSound(SlotsAfterDestroy(slots, dsi, s), free + [s])
  {
    var slots1 := SlotsAfterDestroy(slots, dsi, s);
    var free1 := free + [s];
    forall t | 0 <= t < |slots1| ensures slots1[t].alive == (slots[t].alive && t != s) {
    }
    forall a, b | 0 <= a < b < |free1| ensures free1[a] != free1[b] {
    }
    forall t | 0 <= t < |slots1| && !slots1[t].alive ensures t in free1 {
      if t != s {
        assert t in free;
      }
    }
  }

  /** The slot table after Clear: every slot retired. */
  function AllRetired(slots: seq<SlotMeta>): (r: seq<SlotMeta>)
    ensures |r| == |slots| && forall s :: 0 <= s < |r| ==> r[s] == Retired(slots[s])
  {
    seq(|slots|, s requires 0 <= s < |slots| => Retired(slots[s]))
  }

  class Storage<T> {
    const token: U32
    var denseObjects: seq<T>
    var denseSlotIndices: seq<nat>
    var slots: seq<SlotMeta>
    var freeSlotIndices: seq<nat>
    var idToSlot: map<Uuid, nat>

    ghost predicate Valid()
      reads this
    {
      token != InvalidStorageToken &&
      StorageInv(|denseObjects|, denseSlotIndices, slots, freeSlotIndices, idToSlot)
    }

    /** A requested token of 0 (invalid) is replaced by 1. */
    constructor (storageToken: U32)
      ensures Valid()
      ensures token == if storageToken == InvalidStorageToken then 1 else storageToken
      ensures denseObjects == [] && denseSlotIndices == [] && slots == [] && freeSlotIndices == [] && idToSlot == map[]
    {
      token := if storageToken == InvalidStorageToken then 1 else storageToken;
      denseObjects, denseSlotIndices, slots, freeSlotIndices, idToSlot := [], [], [], [], map[];
    }

    /** The handle of slot `s` as MakeHandle builds it. */
    function MakeHandle(s: nat): (h: DenseHandle)
      requires s < |slots| && |slots| <= U32Max
      reads this
      ensures h.index as nat == s && h.token == token
    {
      DenseHandle(slots[s].id, token, s as U32, slots[s].generation)
    }

    /** ResolveSlot: a handle resolves exactly when it is the current handle of a live slot. */
    function ResolveSlot(h: DenseHandle): (r: Option<nat>)
      requires Valid()
      reads this
      ensures r.Some? <==> h.index as nat < |slots| && slots[h.index].alive && h == MakeHandle(h.index as nat)
      ensures r.Some? ==> r.value == h.index as nat && slots[r.value].denseIndex < |denseObjects|
    {
      if h.token != token || h.index == InvalidIndex then None
      else if h.index as nat >= |slots| then None
      else if !slots[h.index].alive || slots[h.index].generation != h.generation || slots[h.index].id != h.id then None
      else Some(h.index as nat)
    }

    /** Resolve: the object of a resolving handle, else nullptr. */
    function Resolve(h: DenseHandle): (r: Option<T>)
      requires Valid()
      reads this
      ensures r.Some? <==> ResolveSlot(h).Some?
      ensures r.Some? ==> r.value == denseObjects[slots[h.index].denseIndex]
    {
      match ResolveSlot(h)
      case None => None
      case Some(s) => Some(denseObjects[slots[s].denseIndex])
    }

    /** ResolveSlowById: the object of a live UUID, else nullptr. */
    function ResolveSlowById(id: Uuid): (r: Option<T>)
      reads this
      ensures r.Some? ==>
        id in idToSlot && idToSlot[id] < |slots| && slots[idToSlot[id]].alive &&
        slots[idToSlot[id]].denseIndex < |denseObjects|
      ensures r.Some? ==> r.value == denseObjects[slots[idToSlot[id]].denseIndex]
      ensures Valid() ==> (r.Some? <==> id in idToSlot)
    {
      if id !in idToSlot then None
      else
        var s := idToSlot[id];
        if s >= |slots| || !slots[s].alive || slots[s].denseIndex >= |denseObjects| then None
        else Some(denseObjects[slots[s].denseIndex])
    }

    /** HandleById: NotFound for an unknown UUID; otherwise a handle that resolves to that object. */
    function HandleById(id: Uuid): (r: Result<DenseHandle>)
      reads this
      ensures r.Ok? ==> id in idToSlot && r.value.index as nat == idToSlot[id]
      ensures Valid() ==> (r.Ok? <==> id in idToSlot)
      ensures Valid() && r.Ok? ==> r.value.id == id
      ensures Valid() && r.Err? ==> r.code == NotFound
      ensures Valid() && r.Ok? ==> ResolveSlot(r.value) == Some(idToSlot[id])
    {
      if id !in idToSlot then Err(NotFound)
      else
        var s := idToSlot[id];
        if s >= |slots| then Err(InternalError)
        else if !slots[s].alive then Err(NotFound)
        else if |slots| > U32Max then Err(InternalError)
        else Ok(MakeHandle(s))
    }

    /** The slot AcquireSlot takes: the last freed one, else a new one at the end. */
    function NextSlot(): nat
      reads this
    {
      if |freeSlotIndices| > 0 then freeSlotIndices[|freeSlotIndices| - 1] else |slots|
    }

    /**
     * CreateWithId: InvalidArgument for a nil UUID, AlreadyExists for a live
     * one. `obj` is None when the object's constructor throws: the slot is
     * then rolled back and InternalError returned. Otherwise the object is
     * appended densely and the new handle resolves to it. No existing slot's
     * generation changes, so handles to destroyed slots stay stale.
     */
    method CreateWithId(id: Uuid, obj: Option<T>) returns (r: Result<DenseHandle>)
      requires Valid()
      modifies this
      ensures Valid()
      ensures IsNil(id) ==> r == Err(InvalidArgument) && unchanged(this)
      ensures !IsNil(id) && id in old(idToSlot) ==> r == Err(AlreadyExists) && unchanged(this)
      ensures |slots| >= old(|slots|)
      ensures forall s :: 0 <= s < old(|slots|) ==> slots[s].generation == old(slots[s].generation)
      ensures obj.Some? && r.Err? ==> unchanged(this)
      ensures r.Ok? ==>
        && !IsNil(id) && id !in old(idToSlot) && obj.Some?
        && r.value.id == id && r.value.index as nat == old(NextSlot())
        && |slots| == (if old(|freeSlotIndices|) > 0 then old(|slots|) else old(|slots|) + 1)
        && (forall t :: 0 <= t < old(|slots|) && t != r.value.index as nat ==> slots[t] == old(slots[t]))
        && denseObjects == old(denseObjects) + [obj.value]
        && idToSlot == old(idToSlot)[id := r.value.index as nat]
        && Resolve(r.value) == Some(obj.value)
      ensures !IsNil(id) && id !in old(idToSlot) && obj.None? ==>
        && r == Err(InternalError)
        && denseObjects == old(denseObjects) && idToSlot == old(idToSlot)
        && (old(|freeSlotIndices|) > 0 ==> slots == old(slots) && freeSlotIndices == old(freeSlotIndices))
      ensures r.Err? ==> r.code in {InvalidArgument, AlreadyExists, InternalError}
    {
      if IsNil(id) {
        return Err(InvalidArgument);
      }
      if id in idToSlot {
        return Err(AlreadyExists);
      }
      if |freeSlotIndices| == 0 && |slots| == U32Max {
        return Err(InternalError);
      }
      r := CreateInFreshSlot(id, obj);
    }

    /** CreateWithId past its argument checks: claim a slot, then commit or roll back. */
    method CreateInFreshSlot(id: Uuid, obj: Option<T>) returns (r: Result<DenseHandle>)
      requires Valid() && !IsNil(id) && id !in idToSlot
      requires |freeSlotIndices| > 0 || |slots| < U32Max
      modifies this
      ensures Valid()
      ensures |slots| >= old(|slots|)
      ensures forall s :: 0 <= s < old(|slots|) ==> slots[s].generation == old(slots[s].generation)
      ensures obj.Some? ==>
        && r.Ok? && r.value.id == id && r.value.index as nat == old(NextSlot())
        && |slots| == (if old(|freeSlotIndices|) > 0 then old(|slots|) else old(|slots|) + 1)
        && (forall t :: 0 <= t < old(|slots|) && t != r.value.index as nat ==> slots[t] == old(slots[t]))
        && denseObjects == old(denseObjects) + [obj.value]
        && idToSlot == old(idToSlot)[id := r.value.index as nat]
        && Resolve(r.value) == Some(obj.value)
      ensures obj.None? ==>
        && r == Err(InternalError)
        && denseObjects == old(denseObjects) && idToSlot == old(idToSlot)
        && (old(|freeSlotIndices|) > 0 ==> slots == old(slots) && freeSlotIndices == old(freeSlotIndices))
    {
      if obj.None? {
        AcquireAndRollBack(id);
        return Err(InternalError);
      }
      ghost var S0, F0 := slots, freeSlotIndices;
      var s := AcquireSlot(id);
      var d := |denseObjects|;
      denseObjects := denseObjects + [obj.value];
      denseSlotIndices := denseSlotIndices + [s];
      slots := slots[s := slots[s].(alive := true, denseIndex := d)];
      CreateKeepsInv(d, old(denseSlotIndices), S0, F0, old(idToSlot), id, s, slots, freeSlotIndices);
      r := Ok(MakeHandle(s));
    }

    /** The construction-failure path: the claimed slot goes straight back to the free list. */
    method AcquireAndRollBack(id: Uuid)
      requires Valid() && !IsNil(id) && id !in idToSlot
      requires |freeSlotIndices| > 0 || |slots| < U32Max
      modifies this
      ensures Valid()
      ensures denseObjects == old(denseObjects) && idToSlot == old(idToSlot)
      ensures old(|freeSlotIndices|) > 0 ==>
        slots == old(slots) && freeSlotIndices == old(freeSlotIndices) && denseSlotIndices == old(denseSlotIndices)
      ensures old(|freeSlotIndices|) == 0 ==>
        slots == old(slots) + [NewSlot] && freeSlotIndices == [old(|slots|)] &&
        denseSlotIndices == old(denseSlotIndices)
    {
      ghost var S0, F0 := slots, freeSlotIndices;
      var s := AcquireSlot(id);
      RollbackCreate(s);
      if |F0| > 0 {
        assert slots == S0;
        assert F0 == F0[..|F0| - 1] + [s];
        assert idToSlot == old(idToSlot);
      } else {
        assert slots == S0 + [NewSlot];
        GrowBlankKeepsInv(|denseObjects|, denseSlotIndices, S0, F0, old(idToSlot));
      }
    }

    /** AcquireSlot: pop the free list or grow by a fresh slot; claim it for `id`, still dead. */
    method AcquireSlot(id: Uuid) returns (s: nat)
      requires Valid() && !IsNil(id) && id !in idToSlot
      requires |freeSlotIndices| > 0 || |slots| < U32Max
      modifies this
      ensures s == old(NextSlot()) && s < |slots| && s < U32Max
      ensures old(|freeSlotIndices|) > 0 ==>
        slots == old(slots)[s := old(slots[s]).(id := id)] &&
        freeSlotIndices == old(freeSlotIndices[..|freeSlotIndices| - 1])
      ensures old(|freeSlotIndices|) == 0 ==>
        slots == old(slots) + [NewSlot.(id := id)] && freeSlotIndices == []
      ensures idToSlot == old(idToSlot)[id := s]
      ensures denseObjects == old(denseObjects) && denseSlotIndices == old(denseSlotIndices)
    {
      if |freeSlotIndices| > 0 {
        s := freeSlotIndices[|freeSlotIndices| - 1];
        freeSlotIndices := freeSlotIndices[..|freeSlotIndices| - 1];
      } else {
        s := |slots|;
        slots := slots + [NewSlot];
      }
      slots := slots[s := SlotMeta(id, NonZero(slots[s].generation), InvalidIndex, false)];
      idToSlot := idToSlot[id := s];
    }

    /** RollbackCreate: release the slot a failed construction claimed. */
    method RollbackCreate(s: nat)
      modifies this
      ensures s >= old(|slots|) ==> unchanged(this)
      ensures s < old(|slots|) ==>
        && slots == old(slots)[s := old(slots[s]).(id := NilUuid, denseIndex := InvalidIndex, alive := false)]
        && idToSlot == old(idToSlot) - {old(slots[s].id)}
        && freeSlotIndices == old(freeSlotIndices) + [s]
        && denseObjects == old(denseObjects) && denseSlotIndices == old(denseSlotIndices)
    {
      if s >= |slots| {
        return;
      }
      idToSlot := idToSlot - {slots[s].id};
      slots := slots[s := slots[s].(id := NilUuid, denseIndex := InvalidIndex, alive := false)];
      freeSlotIndices := freeSlotIndices + [s];
    }

    /** Destroy: false unless the handle resolves; otherwise the slot is destroyed and the handle goes stale. */
    method Destroy(h: DenseHandle) returns (destroyed: bool)
      requires Valid()
      modifies this
      ensures Valid()
      ensures destroyed <==> old(ResolveSlot(h)).Some?
      ensures !destroyed ==> unchanged(this)
      ensures destroyed ==>
        && IsDestroyed(old(denseObjects), old(denseSlotIndices), old(slots), old(freeSlotIndices), old(idToSlot), h.index as nat)
        && ResolveSlot(h).None?
        && slots[h.index].generation == ObjectPool.NextGeneration(h.generation)
    {
      if ResolveSlot(h).None? {
        return false;
      }
      DestroyBySlot(h.index as nat);
      destroyed := true;
    }

    /** DestroySlow: the same by UUID; false for an unknown UUID. */
    method DestroySlow(id: Uuid) returns (destroyed: bool)
      requires Valid()
      modifies this
      ensures Valid()
      ensures destroyed <==> id in old(idToSlot)
      ensures !destroyed ==> unchanged(this)
      ensures destroyed ==>
        IsDestroyed(old(denseObjects), old(denseSlotIndices), old(slots), old(freeSlotIndices), old(idToSlot), old(idToSlot[id]))
    {
      if id !in idToSlot {
        return false;
      }
      var s := idToSlot[id];
      if s >= |slots| || !slots[s].alive {
        return false;
      }
      DestroyBySlot(s);
      destroyed := true;
    }

    /** The state DestroyBySlot(s) leaves, in terms of the state before. */
    ghost predicate IsDestroyed(D0: seq<T>, I0: seq<nat>, S0: seq<SlotMeta>, F0: seq<nat>, M0: map<Uuid, nat>, s: nat)
      reads this
    {
      && s < |S0| && S0[s].alive && S0[s].denseIndex < |D0| && |I0| == |D0| && I0[|I0| - 1] < |S0|
      && denseObjects == SwapRemove(D0, S0[s].denseIndex)
      && denseSlotIndices == SwapRemove(I0, S0[s].denseIndex)
      && slots == SlotsAfterDestroy(S0, I0, s)
      && freeSlotIndices == F0 + [s]
      && idToSlot == M0 - {S0[s].id}
    }

    /** DestroyBySlot: swap-remove the dense entry, re-point the moved slot, retire `s` onto the free list. */
    method DestroyBySlot(s: nat)
      requires Valid()
      modifies this
      ensures Valid()
      ensures !(s < old(|slots|) && old(slots[s].alive)) ==> unchanged(this)
      ensures s < old(|slots|) && old(slots[s].alive) ==>
        IsDestroyed(old(denseObjects), old(denseSlotIndices), old(slots), old(freeSlotIndices), old(idToSlot), s)
    {
      if s >= |slots| {
        return;
      }
      var slot := slots[s];
      DenseBound(|denseObjects|, denseSlotIndices, slots);
      if !slot.alive || slot.denseIndex == InvalidIndex as nat || slot.denseIndex >= |denseObjects| {
        return;
      }
      DestroyKeepsInv(|denseObjects|, denseSlotIndices, slots, freeSlotIndices, idToSlot, s);
      var d := slot.denseIndex;
      denseObjects := SwapRemove(denseObjects, d);
      slots := SlotsAfterDestroy(slots, denseSlotIndices, s);
      denseSlotIndices := SwapRemove(denseSlotIndices, d);
      idToSlot := idToSlot - {slot.id};
      freeSlotIndices := freeSlotIndices + [s];
    }

    /**
     * Clear: every object dropped and every slot retired (so every handle
     * issued so far goes stale); all slots return to the free list in index order.
     */
    method Clear()
      requires Valid()
      modifies this
      ensures Valid()
      ensures denseObjects == [] && denseSlotIndices == [] && idToSlot == map[]
      ensures slots == AllRetired(old(slots))
      ensures freeSlotIndices == seq(|slots|, i => i)
    {
      denseObjects, denseSlotIndices, idToSlot, freeSlotIndices := [], [], map[], [];
      var i := 0;
      while i < |slots|
        invariant 0 <= i <= |slots| && |slots| == old(|slots|)
        invariant denseObjects == [] && denseSlotIndices == [] && idToSlot == map[]
        invariant forall k :: 0 <= k < i ==> slots[k] == Retired(old(slots[k]))
        invariant forall k :: i <= k < |slots| ==> slots[k] == old(slots[k])
        invariant freeSlotIndices == seq(i, k => k)
      {
        slots := slots[i := Retired(slots[i])];
        freeSlotIndices := freeSlotIndices + [i];
        i := i + 1;
      }
      assert slots == AllRetired(old(slots));
      assert FreeSound(slots, freeSlotIndices) by {
        forall t | 0 <= t < |slots| ensures t in freeSlotIndices {
          assert freeSlotIndices[t] == t;
        }
      }
    }
  }

  /** The live count never exceeds the slot count, so a live dense index is below InvalidIndex. */
  lemma DenseBound(n: nat, dsi: seq<nat>, slots: seq<SlotMeta>)
    requires DenseLinked(n, dsi, slots)
    ensures n <= |slots|
  {
    forall a, b | 0 <= a < b < |dsi| ensures dsi[a] != dsi[b] {
      assert slots[dsi[a]].denseIndex == a && slots[dsi[b]].denseIndex == b;
    }
    DistinctBelowBound(dsi, |slots|);
  }

  /** A failed construction on a grown table leaves one more blank slot, on the free list. */
  lemma GrowBlankKeepsInv(n: nat, dsi: seq<nat>, S0: seq<SlotMeta>, F0: seq<nat>, M0: map<Uuid, nat>)
    requires StorageInv(n, dsi, S0, F0, M0) && |S0| < U32Max
    ensures StorageInv(n, dsi, S0 + [NewSlot], F0 + [|S0|], M0)
  {
    var S1, F1 := S0 + [NewSlot], F0 + [|S0|];
    forall a, b | 0 <= a < b < |F1| ensures F1[a] != F1[b] {
    }
    forall t | 0 <= t < |S1| && !S1[t].alive ensures t in F1 {
      if t < |S0| {
        assert t in F0;
      }
    }
  }

  /** Claiming the next slot for a new UUID and marking it live at dense position `n` keeps the invariant. */
  lemma CreateKeepsInv(n: nat, dsi: seq<nat>, S0: seq<SlotMeta>, F0: seq<nat>, M0: map<Uuid, nat>,
                       id: Uuid, s: nat, S1: seq<SlotMeta>, F1: seq<nat>)
    requires StorageInv(n, dsi, S0, F0, M0) && !IsNil(id) && id !in M0
    requires |F0| > 0 ==> s == F0[|F0| - 1] && S1 == S0[s := S0[s].(id := id, alive := true, denseIndex := n)] && F1 == F0[..|F0| - 1]
    requires |F0| == 0 ==> s == |S0| && |S0| < U32Max && S1 == S0 + [SlotMeta(id, 1, n, true)] && F1 == []
    ensures StorageInv(n + 1, dsi + [s], S1, F1, M0[id := s])
  {
    if |F0| > 0 {
      assert S0[s].alive == false;
      forall t | 0 <= t < |S1| && !S1[t].alive ensures t in F1 {
        assert t in F0 && t != s;
        var k :| 0 <= k < |F0| && F0[k] == t;
        assert k < |F0| - 1;
        assert F1[k] == t;
      }
      forall k | 0 <= k < |F1| ensures F1[k] < |S1| && !S1[F1[k]].alive {
        assert F1[k] == F0[k] && F0[k] != F0[|F0| - 1];
      }
    }
    assert DenseLinked(n + 1, dsi + [s], S1);
  }
}
