/**
 * TObjectPool of include/ObjectPool.h: slot-based storage keyed by UUID with
 * a generation per slot, a LIFO free list and deferred destruction that takes
 * effect at EndFrame.
 */
module ObjectPool {
  import opened Common
  import opened Handles
  import ObjectRegistry

  /** One slot; `obj` is None when the slot holds no object (free). */
  datatype PoolEntry<T> = PoolEntry(id: Uuid, generation: U32, obj: Option<T>, pendingDestroy: bool)

  /** Generation after `prev`: u32 increment, with 0 skipped on wrap-around. */
  function NextGeneration(prev: U32): (g: U32)
    ensures g != 0 && g != prev
    ensures prev < U32Max ==> g == prev + 1
    ensures prev == U32Max ==> g == 1
  {
    var next := (prev + 1) % 0x1_0000_0000;
    if next == 0 then 1 else next
  }

  /** A slot index the runtime key can carry (the index range ends before u32 max). */
  predicate IndexFitsRuntimeKey(i: nat) {
    i <= U32Max - 1
  }

  /** The handle ForEach and HandleByIdSlow report for slot `i`. */
  function MakeHandle<T>(token: U32, i: nat, e: PoolEntry<T>): (h: Handle)
    ensures h.id == e.id
    ensures IndexFitsRuntimeKey(i) ==> h.index == i && h.generation == e.generation && h.token == token
  {
    if !IndexFitsRuntimeKey(i) then FromId(e.id) else Handle(e.id, token, i, e.generation)
  }

  /** Whether ForEach (includePending false) or ForEachAll (true) visits `e`. */
  predicate Visible<T>(e: PoolEntry<T>, includePending: bool) {
    e.obj.Some? && (includePending || !e.pendingDestroy)
  }

  /** The visited slot indices below `n`, in slot order. */
  function VisibleSlots<T>(entries: seq<PoolEntry<T>>, n: nat, includePending: bool): (s: seq<nat>)
    requires n <= |entries|
    ensures forall k :: 0 <= k < |s| ==> s[k] < n
  {
    if n == 0 then []
    else VisibleSlots(entries, n - 1, includePending)
         + (if Visible(entries[n - 1], includePending) then [n - 1] else [])
  }

  /** VisibleSlots lists exactly the visible slots, each once, in increasing order. */
  lemma VisibleSlotsExact<T>(entries: seq<PoolEntry<T>>, n: nat, includePending: bool)
    requires n <= |entries|
    ensures var s := VisibleSlots(entries, n, includePending);
      && (forall k :: 0 <= k < |s| ==> Visible(entries[s[k]], includePending))
      && (forall i :: 0 <= i < n && Visible(entries[i], includePending) ==> i in s)
      && (forall a, b :: 0 <= a < b < |s| ==> s[a] < s[b])
  {
    VisibleSlotsSound(entries, n, includePending);
    VisibleSlotsComplete(entries, n, includePending);
    VisibleSlotsIncreasing(entries, n, includePending);
  }

  lemma {:induction false} VisibleSlotsSound<T>(entries: seq<PoolEntry<T>>, n: nat, includePending: bool)
    requires n <= |entries|
    ensures forall k :: 0 <= k < |VisibleSlots(entries, n, includePending)| ==>
      Visible(entries[VisibleSlots(entries, n, includePending)[k]], includePending)
  {
    if n > 0 {
      VisibleSlotsSound(entries, n - 1, includePending);
      var front := VisibleSlots(entries, n - 1, includePending);
      var tail := if Visible(entries[n - 1], includePending) then [n - 1] else [];
      var s := VisibleSlots(entries, n, includePending);
      assert s == front + tail;
      forall k | 0 <= k < |s| ensures Visible(entries[s[k]], includePending) {
        if k < |front| {
          assert s[k] == front[k];
        } else {
          assert s[k] == tail[k - |front|] == n - 1;
        }
      }
    }
  }

  lemma {:induction false} VisibleSlotsComplete<T>(entries: seq<PoolEntry<T>>, n: nat, includePending: bool)
    requires n <= |entries|
    ensures forall i :: 0 <= i < n && Visible(entries[i], includePending) ==> i in VisibleSlots(entries, n, includePending)
  {
    if n > 0 {
      VisibleSlotsComplete(entries, n - 1, includePending);
      var front := VisibleSlots(entries, n - 1, includePending);
      var tail := if Visible(entries[n - 1], includePending) then [n - 1] else [];
      var s := VisibleSlots(entries, n, includePending);
      assert s == front + tail;
      forall i | 0 <= i < n && Visible(entries[i], includePending) ensures i in s {
        if i < n - 1 {
          assert i in front;
          var j :| 0 <= j < |front| && front[j] == i;
          assert s[j] == i;
        } else {
          assert s[|front|] == i;
        }
      }
    }
  }

  lemma {:induction false} VisibleSlotsIncreasing<T>(entries: seq<PoolEntry<T>>, n: nat, includePending: bool)
    requires n <= |entries|
    ensures forall a, b :: 0 <= a < b < |VisibleSlots(entries, n, includePending)| ==>
      VisibleSlots(entries, n, includePending)[a] < VisibleSlots(entries, n, includePending)[b]
  {
    if n > 0 {
      VisibleSlotsIncreasing(entries, n - 1, includePending);
      var front := VisibleSlots(entries, n - 1, includePending);
      var tail := if Visible(entries[n - 1], includePending) then [n - 1] else [];
      var s := VisibleSlots(entries, n, includePending);
      assert s == front + tail;
      forall a, b | 0 <= a < b < |s| ensures s[a] < s[b] {
        assert s[a] == front[a] && front[a] < n - 1;
        if b < |front| {
          assert s[b] == front[b];
        } else {
          assert s[b] == tail[b - |front|] == n - 1;
        }
      }
    }
  }

  /** ForEach visits a subset of what ForEachAll visits: exactly the entries not pending destruction. */
  lemma {:induction false} ForEachSkipsPending<T>(entries: seq<PoolEntry<T>>, n: nat)
    requires n <= |entries|
    ensures forall i :: i in VisibleSlots(entries, n, false) ==> i in VisibleSlots(entries, n, true)
    ensures forall i :: i in VisibleSlots(entries, n, true) ==>
      i < n && (!entries[i].pendingDestroy ==> i in VisibleSlots(entries, n, false))
  {
    if n > 0 {
      ForEachSkipsPending(entries, n - 1);
    }
  }

  /** UUID index entries point at live slots carrying that UUID. */
  ghost predicate IndexSound<T>(entries: seq<PoolEntry<T>>, index: map<Uuid, nat>) {
    forall id :: id in index ==>
      !IsNil(id) && index[id] < |entries| && entries[index[id]].id == id && entries[index[id]].obj.Some?
  }

  /** Live slots are indexed under their UUID and have a non-zero generation. */
  ghost predicate LiveIndexed<T>(entries: seq<PoolEntry<T>>, index: map<Uuid, nat>) {
    forall i :: 0 <= i < |entries| && entries[i].obj.Some? ==>
      entries[i].id in index && index[entries[i].id] == i && entries[i].generation != 0
  }

  /** Empty slots have a nil UUID, are not pending, and are on the free list exactly once. */
  ghost predicate FreeSound<T>(entries: seq<PoolEntry<T>>, freeList: seq<nat>) {
    && (forall i :: 0 <= i < |entries| && entries[i].obj.None? ==>
          IsNil(entries[i].id) && !entries[i].pendingDestroy && i in freeList)
    && (forall k :: 0 <= k < |freeList| ==> freeList[k] < |entries| && entries[freeList[k]].obj.None?)
    && NoDuplicates(freeList)
  }

  /** The pending queue holds each slot flagged pendingDestroy exactly once. */
  ghost predicate PendingSound<T>(entries: seq<PoolEntry<T>>, pending: seq<nat>) {
    && (forall k :: 0 <= k < |pending| ==> pending[k] < |entries| && entries[pending[k]].pendingDestroy)
    && NoDuplicates(pending)
    && (forall i :: 0 <= i < |entries| && entries[i].pendingDestroy ==> i in pending)
  }

  ghost predicate PoolInv<T>(entries: seq<PoolEntry<T>>, index: map<Uuid, nat>, freeList: seq<nat>, pending: seq<nat>) {
    IndexSound(entries, index) && LiveIndexed(entries, index) && FreeSound(entries, freeList) && PendingSound(entries, pending)
  }

  /** A slot after EndFrame released it: nil UUID, no object, generation kept. */
  function Freed<T>(e: PoolEntry<T>): PoolEntry<T> {
    PoolEntry(NilUuid, e.generation, None, false)
  }

  lemma EndFrameKeepsInv<T>(E0: seq<PoolEntry<T>>, I0: map<Uuid, nat>, F0: seq<nat>, P0: seq<nat>,
                            E1: seq<PoolEntry<T>>, I1: map<Uuid, nat>)
    requires PoolInv(E0, I0, F0, P0)
    requires |E1| == |E0|
    requires forall i :: 0 <= i < |E1| ==> E1[i] == (if i in P0 then Freed(E0[i]) else E0[i])
    requires forall id :: id in I1 <==> id in I0 && I0[id] !in P0
    requires forall id :: id in I1 ==> I1[id] == I0[id]
    ensures PoolInv(E1, I1, F0 + P0, [])
  {
    var F1 := F0 + P0;
    forall a, b | 0 <= a < b < |F1| ensures F1[a] != F1[b] {
      if b >= |F0| && a < |F0| {
        assert E0[F1[a]].obj.None? && E0[F1[b]].pendingDestroy;
      }
    }
    forall i | 0 <= i < |E1| && E1[i].obj.None? ensures i in F1 {
      if i !in P0 {
        assert i in F0;
      }
    }
  }

  /** One EndFrame step: releasing the k-th pending slot extends the loop's description to k + 1 slots. */
  lemma EndFrameStep<T>(E0: seq<PoolEntry<T>>, I0: map<Uuid, nat>, F0: seq<nat>, P0: seq<nat>, k: nat,
                        E: seq<PoolEntry<T>>, I: map<Uuid, nat>)
    requires PoolInv(E0, I0, F0, P0) && k < |P0|
    requires |E| == |E0|
    requires forall i :: 0 <= i < |E| ==> E[i] == (if i in P0[..k] then Freed(E0[i]) else E0[i])
    requires forall id :: id in I <==> id in I0 && I0[id] !in P0[..k]
    requires forall id :: id in I ==> I[id] == I0[id]
    ensures P0[k] < |E| && E[P0[k]] == E0[P0[k]]
    ensures P0[..k + 1] == P0[..k] + [P0[k]]
    ensures forall j :: 0 <= j < |E| ==>
      E[P0[k] := Freed(E[P0[k]])][j] == (if j in P0[..k + 1] then Freed(E0[j]) else E0[j])
    ensures forall id :: id in I - {E[P0[k]].id} <==> id in I0 && I0[id] !in P0[..k + 1]
    ensures forall id :: id in I - {E[P0[k]].id} ==> (I - {E[P0[k]].id})[id] == I0[id]
  {
    var i := P0[k];
    assert P0[..k + 1] == P0[..k] + [i];
    assert i !in P0[..k] by {
      assert NoDuplicates(P0);
    }
    assert E0[i].obj.Some?;
    forall id | id in I0 ensures I0[id] == i <==> id == E0[i].id {
    }
  }

  /**
   * After AllocateSlot the table holds the invariant with `slot` taken off the
   * free list: pushing it back restores PoolInv.
   */
  lemma AllocateKeepsShape<T>(E0: seq<PoolEntry<T>>, I: map<Uuid, nat>, F0: seq<nat>, P: seq<nat>,
                              E1: seq<PoolEntry<T>>, F1: seq<nat>, slot: nat)
    requires PoolInv(E0, I, F0, P)
    requires |F0| > 0 ==> slot == F0[|F0| - 1] && E1 == E0 && F1 == F0[..|F0| - 1]
    requires |F0| == 0 ==> slot == |E0| && E1 == E0 + [PoolEntry(NilUuid, 0, None, false)] && F1 == []
    ensures slot < |E1| && E1[slot].obj.None? && slot !in F1
    ensures PoolInv(E1, I, F1 + [slot], P)
    ensures F1 + [slot] == (if |F0| > 0 then F0 else [|E0|])
    ensures IndexSound(E1, I) && LiveIndexed(E1, I) && PendingSound(E1, P)
    ensures forall k :: 0 <= k < |F1| ==> F1[k] < |E1| && E1[F1[k]].obj.None?
    ensures NoDuplicates(F1)
    ensures forall i :: 0 <= i < |E1| && E1[i].obj.None? && i != slot ==> i in F1
    ensures forall i :: 0 <= i < |E1| && E1[i].obj.None? ==> IsNil(E1[i].id) && !E1[i].pendingDestroy
  {
    if |F0| > 0 {
      assert F0 == F1 + [slot];
    }
  }

  /** Filling a free slot with a live entry for an unindexed UUID keeps the invariant. */
  lemma FillKeepsInv<T>(E: seq<PoolEntry<T>>, I: map<Uuid, nat>, F: seq<nat>, P: seq<nat>, slot: nat, e: PoolEntry<T>)
    requires slot < |E| && E[slot].obj.None? && slot !in F
    requires IndexSound(E, I) && LiveIndexed(E, I) && PendingSound(E, P)
    requires forall k :: 0 <= k < |F| ==> F[k] < |E| && E[F[k]].obj.None?
    requires NoDuplicates(F)
    requires forall i :: 0 <= i < |E| && E[i].obj.None? && i != slot ==> i in F
    requires forall i :: 0 <= i < |E| && E[i].obj.None? ==> IsNil(E[i].id) && !E[i].pendingDestroy
    requires !IsNil(e.id) && e.id !in I && e.obj.Some? && !e.pendingDestroy && e.generation != 0
    ensures PoolInv(E[slot := e], I[e.id := slot], F, P)
  {
  }

  class Pool<T> {
    var entries: seq<PoolEntry<T>>
    var index: map<Uuid, nat>
    var freeList: seq<nat>
    var pending: seq<nat>
    const token: U32

    ghost predicate Valid()
      reads this
    {
      PoolInv(entries, index, freeList, pending)
    }

    /** A pool takes a fresh token from the registry. */
    constructor (registry: ObjectRegistry.Registry)
      requires registry.Valid()
      modifies registry
      ensures Valid() && registry.Valid()
      ensures entries == [] && index == map[] && freeList == [] && pending == []
      ensures token != 0 ==> token !in old(registry.issued)
    {
      var t := registry.AcquireRuntimePoolToken();
      entries := [];
      index := map[];
      freeList := [];
      pending := [];
      token := t;
    }

    /** The slot AllocateSlot hands out: the last freed one, else a new one at the end. */
    function NextSlot(): nat
      reads this
    {
      if |freeList| > 0 then freeList[|freeList| - 1] else |entries|
    }

    method AllocateSlot() returns (slot: nat)
      requires Valid()
      modifies this
      ensures slot == old(NextSlot())
      ensures index == old(index) && pending == old(pending)
      ensures old(|freeList|) > 0 ==> entries == old(entries) && freeList == old(freeList[..|freeList| - 1])
      ensures old(|freeList|) == 0 ==>
        entries == old(entries) + [PoolEntry(NilUuid, 0, None, false)] && freeList == []
    {
      if |freeList| > 0 {
        slot := freeList[|freeList| - 1];
        freeList := freeList[..|freeList| - 1];
        return;
      }
      slot := |entries|;
      entries := entries + [PoolEntry(NilUuid, 0, None, false)];
    }

    /**
     * CreateWithId: InvalidArgument for a nil UUID, AlreadyExists for a UUID
     * still indexed (pending ones included); otherwise the allocated slot gets
     * the next generation and the object.
     */
    method CreateWithId(id: Uuid, obj: T) returns (r: Result<Handle>)
      requires Valid()
      modifies this
      ensures Valid()
      ensures IsNil(id) ==> r == Err(InvalidArgument) && unchanged(this)
      ensures !IsNil(id) && id in old(index) ==> r == Err(AlreadyExists) && unchanged(this)
      ensures !IsNil(id) && id !in old(index) && !IndexFitsRuntimeKey(old(NextSlot())) ==>
        && r == Err(InternalError) && index == old(index) && pending == old(pending)
        && (old(|freeList|) > 0 ==> entries == old(entries) && freeList == old(freeList))
        && (old(|freeList|) == 0 ==>
              entries == old(entries) + [PoolEntry(NilUuid, 0, None, false)] && freeList == [old(|entries|)])
      ensures !IsNil(id) && id !in old(index) && IndexFitsRuntimeKey(old(NextSlot())) ==>
        var slot := old(NextSlot());
        var gen := NextGeneration(if slot < old(|entries|) then old(entries[slot].generation) else 0);
        && r == Ok(Handle(id, token, slot, gen))
        && |entries| == (if slot < old(|entries|) then old(|entries|) else old(|entries|) + 1)
        && entries[slot] == PoolEntry(id, gen, Some(obj), false)
        && (forall i :: 0 <= i < old(|entries|) && i != slot ==> entries[i] == old(entries[i]))
        && index == old(index)[id := slot]
        && pending == old(pending)
        && freeList == (if old(|freeList|) > 0 then old(freeList[..|freeList| - 1]) else [])
        && Borrowed(r.value) == (if token != 0 then Some(obj) else None)
    {
      if IsNil(id) {
        return Err(InvalidArgument);
      }
      if id in index {
        return Err(AlreadyExists);
      }
      ghost var E0, F0 := entries, freeList;
      var slot := AllocateSlot();
      AllocateKeepsShape(E0, index, F0, pending, entries, freeList, slot);
      if !IndexFitsRuntimeKey(slot) {
        freeList := freeList + [slot];
        return Err(InternalError);
      }
      r := Occupy(id, obj, slot);
    }

    /** The filling half of CreateWithId: the allocated slot gets the next generation and the object, and is indexed. */
    method Occupy(id: Uuid, obj: T, slot: nat) returns (r: Result<Handle>)
      requires slot < |entries| && entries[slot].obj.None? && slot !in freeList
      requires IndexSound(entries, index) && LiveIndexed(entries, index) && PendingSound(entries, pending)
      requires forall k :: 0 <= k < |freeList| ==> freeList[k] < |entries| && entries[freeList[k]].obj.None?
      requires NoDuplicates(freeList)
      requires forall i :: 0 <= i < |entries| && entries[i].obj.None? && i != slot ==> i in freeList
      requires forall i :: 0 <= i < |entries| && entries[i].obj.None? ==> IsNil(entries[i].id) && !entries[i].pendingDestroy
      requires !IsNil(id) && id !in index && IndexFitsRuntimeKey(slot)
      modifies this
      ensures Valid()
      ensures var gen := NextGeneration(old(entries[slot].generation));
        && entries == old(entries)[slot := PoolEntry(id, gen, Some(obj), false)]
        && r == Ok(Handle(id, token, slot, gen))
      ensures index == old(index)[id := slot] && freeList == old(freeList) && pending == old(pending)
      ensures Borrowed(r.value) == (if token != 0 then Some(obj) else None)
    {
      var gen := NextGeneration(entries[slot].generation);
      FillKeepsInv(entries, index, freeList, pending, slot, PoolEntry(id, gen, Some(obj), false));
      entries := entries[slot := PoolEntry(id, gen, Some(obj), false)];
      index := index[id := slot];
      r := Ok(Handle(id, token, slot, gen));
    }

    /** CreateFromSharedWithId: a null object is InvalidArgument, otherwise as CreateWithId. */
    method CreateFromSharedWithId(obj: Option<T>, id: Uuid) returns (r: Result<Handle>)
      requires Valid()
      modifies this
      ensures Valid()
      ensures obj.None? ==> r == Err(InvalidArgument) && unchanged(this)
      ensures obj.Some? && IsNil(id) ==> r == Err(InvalidArgument) && unchanged(this)
      ensures obj.Some? && !IsNil(id) && id in old(index) ==> r == Err(AlreadyExists) && unchanged(this)
      ensures r.Ok? ==>
        r.value.id == id && index == old(index)[id := r.value.index] &&
        (token != 0 ==> Borrowed(r.value) == obj)
    {
      if obj.None? {
        return Err(InvalidArgument);
      }
      r := CreateWithId(id, obj.value);
    }

    /** The slot a handle names: right pool, index in range, generation and UUID both match. */
    function ResolveIndex(h: Handle): (r: Option<nat>)
      reads this
      ensures r.Some? <==>
        HasRuntimeKey(h) && h.token == token && h.index < |entries| &&
        entries[h.index].generation == h.generation && entries[h.index].id == h.id
      ensures r.Some? ==> r.value == h.index
    {
      if HasRuntimeKey(h) && h.token == token && h.index < |entries|
         && entries[h.index].generation == h.generation && entries[h.index].id == h.id
      then Some(h.index)
      else None
    }

    /** Borrowed(handle): the object, unless the handle is stale or the object is pending destruction. */
    function Borrowed(h: Handle): (r: Option<T>)
      reads this
      ensures r.Some? ==>
        ResolveIndex(h).Some? && !entries[h.index].pendingDestroy && entries[h.index].obj == r
      ensures ResolveIndex(h).None? ==> r.None?
    {
      match ResolveIndex(h)
      case None => None
      case Some(i) => if entries[i].obj.None? || entries[i].pendingDestroy then None else entries[i].obj
    }

    /** IsValid(handle), taken as "Borrowed succeeds". */
    predicate IsValid(h: Handle)
      reads this
    {
      Borrowed(h).Some?
    }

    /** Borrowed(uuid): by index lookup, again hiding pending objects. */
    function BorrowedById(id: Uuid): (r: Option<T>)
      requires Valid()
      reads this
      ensures r.Some? <==> id in index && !entries[index[id]].pendingDestroy
    {
      if id !in index then None
      else
        var e := entries[index[id]];
        if e.obj.None? || e.pendingDestroy then None else e.obj
    }

    /** HandleByIdSlow: NotFound for an unknown or pending UUID, else the runtime-key handle. */
    function HandleByIdSlow(id: Uuid): (r: Result<Handle>)
      requires Valid()
      reads this
      ensures r.Ok? <==> id in index && !entries[index[id]].pendingDestroy
      ensures r.Err? ==> r.code == NotFound
      ensures r.Ok? && token != 0 && IndexFitsRuntimeKey(index[id]) ==> Borrowed(r.value).Some?
    {
      if id !in index then Err(NotFound)
      else
        var i := index[id];
        var e := entries[i];
        if e.obj.None? || e.pendingDestroy then Err(NotFound) else Ok(MakeHandle(token, i, e))
    }

    function IsPendingDestroy(h: Handle): (r: bool)
      reads this
      ensures r ==> ResolveIndex(h).Some?
    {
      match ResolveIndex(h)
      case None => false
      case Some(i) => entries[i].pendingDestroy
    }

    /**
     * DestroyLater(handle): NotFound for a handle that does not resolve or a
     * free slot; otherwise the slot is queued once, however often this is called.
     */
    method DestroyLater(h: Handle) returns (r: Outcome)
      requires Valid()
      modifies this
      ensures Valid()
      ensures index == old(index) && freeList == old(freeList)
      ensures r == Done <==> old(ResolveIndex(h)).Some? && old(entries[h.index].obj).Some?
      ensures r.Fail? ==> r.code == NotFound && unchanged(this)
      ensures r == Done && old(entries[h.index].pendingDestroy) ==> unchanged(this)
      ensures r == Done && !old(entries[h.index].pendingDestroy) ==>
        entries == old(entries)[h.index := old(entries[h.index]).(pendingDestroy := true)] &&
        pending == old(pending) + [h.index]
      ensures r == Done ==> Borrowed(h).None? && IsPendingDestroy(h)
    {
      var slot := ResolveIndex(h);
      if slot.None? {
        return Fail(NotFound);
      }
      r := MarkPending(slot.value);
    }

    /** DestroyLater(uuid): the same, looked up by UUID. */
    method DestroyLaterById(id: Uuid) returns (r: Outcome)
      requires Valid()
      modifies this
      ensures Valid()
      ensures index == old(index) && freeList == old(freeList)
      ensures r == Done <==> id in old(index)
      ensures r.Fail? ==> r.code == NotFound && unchanged(this)
      ensures r == Done ==> entries[index[id]].pendingDestroy && index[id] in pending && BorrowedById(id).None?
      ensures r == Done && !old(entries[index[id]].pendingDestroy) ==>
        entries == old(entries)[index[id] := old(entries[index[id]]).(pendingDestroy := true)] &&
        pending == old(pending) + [index[id]]
      ensures r == Done && old(entries[index[id]].pendingDestroy) ==> unchanged(this)
    {
      if id !in index {
        return Fail(NotFound);
      }
      r := MarkPending(index[id]);
    }

    method MarkPending(i: nat) returns (r: Outcome)
      requires Valid() && i < |entries|
      modifies this
      ensures Valid()
      ensures index == old(index) && freeList == old(freeList)
      ensures r == Done <==> old(entries[i].obj).Some?
      ensures r.Fail? ==> r.code == NotFound && unchanged(this)
      ensures r == Done && old(entries[i].pendingDestroy) ==> unchanged(this)
      ensures r == Done && !old(entries[i].pendingDestroy) ==>
        entries == old(entries)[i := old(entries[i]).(pendingDestroy := true)] && pending == old(pending) + [i]
      ensures r == Done ==> entries[i].pendingDestroy
    {
      if entries[i].obj.None? {
        return Fail(NotFound);
      }
      if !entries[i].pendingDestroy {
        entries := entries[i := entries[i].(pendingDestroy := true)];
        pending := pending + [i];
      }
      r := Done;
    }

    /**
     * EndFrame: every pending slot is unindexed, emptied and pushed on the
     * free list in queue order; the queue is emptied.
     */
    method EndFrame()
      requires Valid()
      modifies this
      ensures Valid()
      ensures pending == []
      ensures |entries| == old(|entries|)
      ensures freeList == old(freeList) + old(pending)
      ensures forall i :: 0 <= i < |entries| ==>
        entries[i] == (if i in old(pending) then Freed(old(entries[i])) else old(entries[i]))
      ensures forall id :: id in index <==> id in old(index) && old(index)[id] !in old(pending)
      ensures forall id :: id in index ==> index[id] == old(index)[id]
    {
      ghost var E0, I0, F0, P0 := entries, index, freeList, pending;
      var k := 0;
      while k < |pending|
        invariant 0 <= k <= |pending| && pending == P0
        invariant |entries| == |E0|
        invariant freeList == F0 + P0[..k]
        invariant forall i :: 0 <= i < |entries| ==>
          entries[i] == (if i in P0[..k] then Freed(E0[i]) else E0[i])
        invariant forall id :: id in index <==> id in I0 && I0[id] !in P0[..k]
        invariant forall id :: id in index ==> index[id] == I0[id]
      {
        var i := pending[k];
        var e := entries[i];
        EndFrameStep(E0, I0, F0, P0, k, entries, index);
        index := index - {e.id};
        entries := entries[i := Freed(e)];
        freeList := freeList + [i];
        assert P0[..k + 1] == P0[..k] + [i];
        k := k + 1;
      }
      assert P0[..k] == P0;
      pending := [];
      EndFrameKeepsInv(E0, I0, F0, P0, entries, index);
    }

    /** Clear: every slot, index entry, free slot and queued destroy is dropped at once. */
    method Clear()
      requires Valid()
      modifies this
      ensures Valid()
      ensures entries == [] && index == map[] && freeList == [] && pending == []
    {
      entries := [];
      index := map[];
      freeList := [];
      pending := [];
    }

    /** ForEach / ForEachAll: the handles of the visited slots, in slot order. */
    method ForEach(includePending: bool) returns (visited: seq<Handle>)
      ensures var s := VisibleSlots(entries, |entries|, includePending);
        |visited| == |s| && forall k :: 0 <= k < |s| ==> visited[k] == MakeHandle(token, s[k], entries[s[k]])
    {
      visited := [];
      var i := 0;
      while i < |entries|
        invariant 0 <= i <= |entries|
        invariant var s := VisibleSlots(entries, i, includePending);
          |visited| == |s| && forall k :: 0 <= k < |s| ==> visited[k] == MakeHandle(token, s[k], entries[s[k]])
      {
        if Visible(entries[i], includePending) {
          visited := visited + [MakeHandle(token, i, entries[i])];
        }
        i := i + 1;
      }
    }
  }

  /** A slot that is reused gets a different generation, so handles to its previous occupant stop resolving. */
  lemma ReusedSlotRejectsOldHandle<T>(pool: Pool<T>, old_h: Handle, gen: U32)
    requires old_h.index < |pool.entries| && gen == NextGeneration(old_h.generation)
    requires pool.entries[old_h.index].generation == gen
    ensures pool.ResolveIndex(old_h).None?
  {
  }

  /** EndFrame sets a freed slot's UUID to nil, so no handle with a real UUID resolves to it. */
  lemma FreedSlotRejectsHandles<T>(pool: Pool<T>, h: Handle)
    requires !IsNull(h) && h.index < |pool.entries| && IsNil(pool.entries[h.index].id)
    ensures pool.ResolveIndex(h).None? && pool.Borrowed(h).None?
  {
  }
}
