/**
 * THandle of include/Handle.h: a UUID, the canonical identity, plus an
 * optional runtime key (pool token, slot index, generation) that lets the
 * registry resolve the handle without a UUID lookup.
 */
module Handles {
  import opened Common
  import ObjectRegistry

  const InvalidRuntimePoolToken: U32 := 0
  const InvalidRuntimeIndex: U32 := U32Max

  datatype Handle = Handle(id: Uuid, token: U32, index: U32, generation: U32)

  /** THandle(): the nil UUID and no runtime key. */
  const NullHandle := Handle(NilUuid, InvalidRuntimePoolToken, InvalidRuntimeIndex, 0)

  /** THandle(Uuid): a UUID without a runtime key. */
  function FromId(id: Uuid): (h: Handle)
    ensures h.id == id && !HasRuntimeKey(h)
  {
    Handle(id, InvalidRuntimePoolToken, InvalidRuntimeIndex, 0)
  }

  predicate IsNull(h: Handle) {
    IsNil(h.id)
  }

  /** `explicit operator bool`. */
  predicate IsSet(h: Handle) {
    !IsNull(h)
  }

  predicate HasRuntimeKey(h: Handle) {
    h.token != InvalidRuntimePoolToken && h.index != InvalidRuntimeIndex
  }

  /** `operator==`: handles are equal when their UUIDs are. */
  predicate Same(a: Handle, b: Handle) {
    a.id == b.id
  }

  /** The null handle is null, and a handle is set exactly when it is not null. */
  lemma NullHandleFacts(h: Handle)
    ensures IsNull(NullHandle) && !HasRuntimeKey(NullHandle)
    ensures IsSet(h) <==> !IsNull(h)
    ensures IsNull(h) <==> Same(h, NullHandle)
  {
  }

  /** Equality ignores the runtime key entirely. */
  lemma SameIgnoresRuntimeKey(id: Uuid, t1: U32, i1: U32, g1: U32, t2: U32, i2: U32, g2: U32)
    ensures Same(Handle(id, t1, i1, g1), Handle(id, t2, i2, g2))
    ensures Same(Handle(id, t1, i1, g1), FromId(id))
  {
  }

  /** A key is present exactly when the token is not 0 and the index is not u32 max. */
  lemma RuntimeKeyPresence(h: Handle)
    ensures HasRuntimeKey(h) <==> h.token != 0 && h.index != U32Max
    ensures h.token == 0 ==> !HasRuntimeKey(h)
  {
  }

  /**
   * `Borrowed()`: resolve through the registry, the fast path first and the
   * UUID entry on a miss, and, only on success, refresh the runtime key of the
   * handle (returned as `refreshed`): kept on a fast hit, the entry's key (or
   * no key) on a fallback hit.
   */
  method Borrowed(registry: ObjectRegistry.Registry, h: Handle, want: ObjectRegistry.Want)
    returns (p: Ptr, refreshed: Handle)
    requires registry.Valid()
    modifies registry`fallbackCounts
    ensures registry.Valid()
    ensures refreshed.id == h.id
    ensures p == Null ==> refreshed == h
    ensures IsNull(h) ==> p == Null
    ensures p == (if IsNull(h) then Null
                  else if old(registry.FastResolve(h.id, h.token, h.index, h.generation, want)) != Null
                  then old(registry.FastResolve(h.id, h.token, h.index, h.generation, want))
                  else old(registry.Resolve(h.id, want)))
    ensures p != Null && old(registry.FastResolve(h.id, h.token, h.index, h.generation, want)) != Null ==>
      refreshed == h
    ensures p != Null && old(registry.FastResolve(h.id, h.token, h.index, h.generation, want)) == Null ==>
      var e := old(registry.entries)[h.id];
      refreshed == if ObjectRegistry.EntryHasRuntimeKey(e) then Handle(h.id, e.token, e.index, e.generation)
                   else Handle(h.id, InvalidRuntimePoolToken, InvalidRuntimeIndex, 0)
  {
    var identity, warn;
    p, identity, warn := registry.ResolveFastOrFallback(h.id, h.token, h.index, h.generation, want);
    refreshed := h;
    if p != Null {
      refreshed := Handle(h.id, identity.token, identity.index, identity.generation);
    }
  }
}
