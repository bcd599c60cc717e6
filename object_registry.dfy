/**
 * The global UUID -> object registry of include/ObjectRegistry.h: a map from
 * UUID to entry (the slow path), per-pool vectors of runtime slots addressed by
 * (pool token, slot index, generation) (the fast path), and per-object
 * counters of fast-path misses that rate-limit a diagnostic.
 */
module ObjectRegistry {
  import opened Common

  datatype ObjectKind = NodeKind | ComponentKind | OtherKind

  /** std::type_index of a registered object; VoidType is typeid(void). */
  type TypeTag = nat

  const VoidType: TypeTag := 0

  /** The static type a caller resolves to: BaseNode, IComponent or any other T. */
  datatype Want = WantNode | WantComponent | WantOther(typ: TypeTag)

  /** What an entry or a slot points at. */
  datatype Target = Target(kind: ObjectKind, node: Ptr, component: Ptr, other: Ptr, typ: TypeTag)

  const NoTarget := Target(OtherKind, Null, Null, Null, VoidType)

  datatype Entry = Entry(id: Uuid, target: Target, token: U32, index: U32, generation: U32)

  datatype RuntimeSlot = RuntimeSlot(id: Uuid, generation: U32, target: Target, occupied: bool)

  const EmptySlot := RuntimeSlot(NilUuid, 0, NoTarget, false)

  datatype RuntimeIdentity = RuntimeIdentity(token: U32, index: U32, generation: U32)

  /** The identity reported when no runtime key is known. */
  const NoIdentity := RuntimeIdentity(0, U32Max, 0)

  predicate HasRuntimeKey(token: U32, index: U32) {
    token != 0 && index != U32Max
  }

  predicate EntryHasRuntimeKey(e: Entry) {
    HasRuntimeKey(e.token, e.index)
  }

  /** Typed pointer extraction: a kind mismatch, or for Other a type mismatch, gives nullptr. */
  function ResolveTarget(t: Target, want: Want): (p: Ptr)
    ensures p != Null && want.WantNode? ==> t.kind == NodeKind && p == t.node
    ensures p != Null && want.WantComponent? ==> t.kind == ComponentKind && p == t.component
    ensures p != Null && want.WantOther? ==> t.kind == OtherKind && t.typ == want.typ && p == t.other
  {
    match want
    case WantNode => if t.kind == NodeKind then t.node else Null
    case WantComponent => if t.kind == ComponentKind then t.component else Null
    case WantOther(typ) => if t.kind != OtherKind || t.typ != typ then Null else t.other
  }

  /** Bitwise AND of two naturals, bit by bit from the lowest. */
  function BitAnd(a: nat, b: nat): (r: nat)
    ensures r <= a && r <= b
  {
    if a == 0 || b == 0 then 0
    else 2 * BitAnd(a / 2, b / 2) + (if a % 2 == 1 && b % 2 == 1 then 1 else 0)
  }

  /** The fallback diagnostic's test on the incremented count: `Count <= 4 || (Count & (Count - 1)) == 0`. */
  predicate ShouldWarn(count: nat) {
    count <= 4 || BitAnd(count, count - 1) == 0
  }

  predicate IsPowerOfTwo(n: nat) {
    n == 1 || (n > 1 && n % 2 == 0 && IsPowerOfTwo(n / 2))
  }

  /** The slot table after `e`'s runtime slot was cleared, if it still holds `e`'s generation. */
  function WithSlotCleared(slots: seq<seq<RuntimeSlot>>, e: Entry): (r: seq<seq<RuntimeSlot>>)
    ensures |r| == |slots|
    ensures forall p :: 0 <= p < |r| ==> |r[p]| == |slots[p]|
  {
    if !EntryHasRuntimeKey(e) || e.token >= |slots| || e.index >= |slots[e.token]| then slots
    else
      var s := slots[e.token][e.index];
      if s.occupied && s.generation == e.generation
      then slots[e.token := slots[e.token][e.index := EmptySlot]]
      else slots
  }

  /** The slot table after binding `e` into its runtime slot, growing the table as needed. */
  function WithSlotBound(slots: seq<seq<RuntimeSlot>>, e: Entry): (r: seq<seq<RuntimeSlot>>)
    ensures |r| >= |slots|
    ensures EntryHasRuntimeKey(e) ==>
      e.token < |r| && e.index < |r[e.token]| &&
      r[e.token][e.index] == RuntimeSlot(e.id, e.generation, e.target, true)
    ensures forall p, q :: 0 <= p < |slots| && 0 <= q < |slots[p]| && (p, q) != (e.token, e.index) ==>
      q < |r[p]| && r[p][q] == slots[p][q]
  {
    if !EntryHasRuntimeKey(e) then slots
    else
      var grown := if e.token < |slots| then slots else slots + seq(e.token + 1 - |slots|, _ => []);
      var pool := grown[e.token];
      var pool' := if e.index < |pool| then pool else pool + seq(e.index + 1 - |pool|, _ => EmptySlot);
      grown[e.token := pool'[e.index := RuntimeSlot(e.id, e.generation, e.target, true)]]
  }

  class Registry {
    var entries: map<Uuid, Entry>
    var slotsByPool: seq<seq<RuntimeSlot>>
    var fallbackCounts: map<Uuid, nat>
    /** Every pool token handed out so far. */
    ghost var issued: set<U32>

    ghost predicate Valid()
      reads this
    {
      && |slotsByPool| >= 1
      && (forall id :: id in entries ==> entries[id].id == id && !IsNil(id))
      && (forall t :: t in issued ==> 0 < t < |slotsByPool|)
    }

    constructor ()
      ensures Valid()
      ensures entries == map[] && slotsByPool == [[]] && fallbackCounts == map[] && issued == {}
    {
      entries := map[];
      slotsByPool := [[]];
      fallbackCounts := map[];
      issued := {};
    }

    /** A fresh pool token: never 0 and never one handed out before. */
    method AcquireRuntimePoolToken() returns (token: U32)
      requires Valid()
      modifies this
      ensures Valid()
      ensures entries == old(entries) && fallbackCounts == old(fallbackCounts)
      ensures old(|slotsByPool|) > U32Max ==>
        token == 0 && slotsByPool == old(slotsByPool) && issued == old(issued)
      ensures old(|slotsByPool|) <= U32Max ==>
        token == old(|slotsByPool|) && slotsByPool == old(slotsByPool) + [[]] &&
        issued == old(issued) + {token}
      ensures token != 0 ==> token !in old(issued)
    {
      var next := |slotsByPool|;
      if next > U32Max {
        token := 0;
        return;
      }
      slotsByPool := slotsByPool + [[]];
      token := next;
      issued := issued + {token};
    }

    /** Resets every slot of a pool; the token itself is never reused. */
    method ReleaseRuntimePoolToken(token: U32)
      requires Valid()
      modifies this
      ensures Valid()
      ensures entries == old(entries) && fallbackCounts == old(fallbackCounts) && issued == old(issued)
      ensures |slotsByPool| == old(|slotsByPool|)
      ensures token == 0 || token >= |slotsByPool| ==> slotsByPool == old(slotsByPool)
      ensures 0 < token < |slotsByPool| ==>
        slotsByPool == old(slotsByPool)[token := seq(old(|slotsByPool[token]|), _ => EmptySlot)]
    {
      if token == 0 || token >= |slotsByPool| {
        return;
      }
      var pool := slotsByPool[token];
      var i := 0;
      while i < |pool|
        invariant 0 <= i <= |pool|
        invariant |pool| == old(|slotsByPool[token]|)
        invariant forall k :: 0 <= k < i ==> pool[k] == EmptySlot
      {
        pool := pool[i := EmptySlot];
        i := i + 1;
      }
      assert pool == seq(|pool|, _ => EmptySlot);
      slotsByPool := slotsByPool[token := pool];
    }

    /** Register (or replace) the entry for `id`; a nil UUID is ignored. */
    method RegisterInternal(id: Uuid, target: Target, token: U32, index: U32, generation: U32)
      requires Valid()
      modifies this
      ensures Valid()
      ensures fallbackCounts == old(fallbackCounts) && issued == old(issued)
      ensures IsNil(id) ==> entries == old(entries) && slotsByPool == old(slotsByPool)
      ensures !IsNil(id) ==>
        var e := Entry(id, target, token, index, generation);
        && entries == old(entries)[id := e]
        && slotsByPool == WithSlotBound(
             if id in old(entries) then WithSlotCleared(old(slotsByPool), old(entries)[id]) else old(slotsByPool),
             e)
    {
      if IsNil(id) {
        return;
      }
      var e := Entry(id, target, token, index, generation);
      if id in entries {
        ClearRuntimeSlot(entries[id]);
      }
      entries := entries[id := e];
      BindRuntimeSlot(e);
    }

    method ClearRuntimeSlot(e: Entry)
      requires Valid()
      modifies this
      ensures Valid()
      ensures entries == old(entries) && fallbackCounts == old(fallbackCounts) && issued == old(issued)
      ensures slotsByPool == WithSlotCleared(old(slotsByPool), e)
    {
      if !EntryHasRuntimeKey(e) || e.token >= |slotsByPool| || e.index >= |slotsByPool[e.token]| {
        return;
      }
      var s := slotsByPool[e.token][e.index];
      if s.occupied && s.generation == e.generation {
        slotsByPool := slotsByPool[e.token := slotsByPool[e.token][e.index := EmptySlot]];
      }
    }

    method BindRuntimeSlot(e: Entry)
      requires Valid()
      modifies this
      ensures Valid()
      ensures entries == old(entries) && fallbackCounts == old(fallbackCounts) && issued == old(issued)
      ensures slotsByPool == WithSlotBound(old(slotsByPool), e)
    {
      if !EntryHasRuntimeKey(e) {
        return;
      }
      if e.token >= |slotsByPool| {
        slotsByPool := slotsByPool + seq(e.token + 1 - |slotsByPool|, _ => []);
      }
      var pool := slotsByPool[e.token];
      if e.index >= |pool| {
        pool := pool + seq(e.index + 1 - |pool|, _ => EmptySlot);
      }
      slotsByPool := slotsByPool[e.token := pool[e.index := RuntimeSlot(e.id, e.generation, e.target, true)]];
    }

    /** Remove the entry for `id`, clearing its runtime slot only if the slot generation still matches. */
    method Unregister(id: Uuid)
      requires Valid()
      modifies this
      ensures Valid()
      ensures fallbackCounts == old(fallbackCounts) && issued == old(issued)
      ensures entries.Keys == old(entries.Keys) - {id}
      ensures id !in old(entries) ==> entries == old(entries) && slotsByPool == old(slotsByPool)
      ensures id in old(entries) ==>
        entries == old(entries) - {id} &&
        slotsByPool == WithSlotCleared(old(slotsByPool), old(entries)[id])
    {
      if id !in entries {
        return;
      }
      ClearRuntimeSlot(entries[id]);
      entries := entries - {id};
    }

    /** UUID-only lookup: nullptr for a nil or unknown id and for a kind or type mismatch. */
    function Resolve(id: Uuid, want: Want): (p: Ptr)
      reads this
      ensures IsNil(id) || id !in entries ==> p == Null
      ensures p != Null ==> id in entries && p == ResolveTarget(entries[id].target, want)
      ensures p != Null && want.WantOther? ==>
        entries[id].target.kind == OtherKind && entries[id].target.typ == want.typ
    {
      if IsNil(id) || id !in entries then Null else ResolveTarget(entries[id].target, want)
    }

    /** The runtime slot a key names, when it is occupied by `id` at `generation`. */
    predicate FastSlotMatches(id: Uuid, token: U32, index: U32, generation: U32)
      reads this
    {
      && HasRuntimeKey(token, index)
      && token < |slotsByPool|
      && index < |slotsByPool[token]|
      && slotsByPool[token][index].occupied
      && slotsByPool[token][index].generation == generation
      && slotsByPool[token][index].id == id
    }

    /** The pointer the fast path yields, nullptr when it misses. */
    function FastResolve(id: Uuid, token: U32, index: U32, generation: U32, want: Want): (p: Ptr)
      reads this
      ensures p != Null ==> FastSlotMatches(id, token, index, generation)
    {
      if FastSlotMatches(id, token, index, generation)
      then ResolveTarget(slotsByPool[token][index].target, want)
      else Null
    }

    /**
     * Fast runtime-key lookup with UUID fallback. On a fallback hit the miss
     * counter of `id` is incremented and `warn` says whether the diagnostic is
     * emitted; the identity to refresh the caller's handle with is returned.
     */
    method ResolveFastOrFallback(id: Uuid, token: U32, index: U32, generation: U32, want: Want)
      returns (p: Ptr, identity: RuntimeIdentity, warn: bool)
      requires Valid()
      modifies this`fallbackCounts
      ensures Valid()
      ensures IsNil(id) ==> p == Null && identity == NoIdentity && !warn && fallbackCounts == old(fallbackCounts)
      ensures !IsNil(id) && FastResolve(id, token, index, generation, want) != Null ==>
        && p == FastResolve(id, token, index, generation, want)
        && identity == RuntimeIdentity(token, index, generation)
        && !warn && fallbackCounts == old(fallbackCounts)
      ensures !IsNil(id) && FastResolve(id, token, index, generation, want) == Null ==>
        && p == Resolve(id, want)
        && (p == Null ==> identity == NoIdentity && !warn && fallbackCounts == old(fallbackCounts))
        && (p != Null ==>
              var e := entries[id];
              var n := (if id in old(fallbackCounts) then old(fallbackCounts)[id] else 0) + 1;
              && identity == (if EntryHasRuntimeKey(e) then RuntimeIdentity(e.token, e.index, e.generation) else NoIdentity)
              && fallbackCounts == old(fallbackCounts)[id := n]
              && warn == ShouldWarn(n))
    {
      identity := NoIdentity;
      warn := false;
      if IsNil(id) {
        p := Null;
        return;
      }
      p := FastResolve(id, token, index, generation, want);
      if p != Null {
        identity := RuntimeIdentity(token, index, generation);
        return;
      }
      if id in entries {
        var e := entries[id];
        p := ResolveTarget(e.target, want);
        if p != Null {
          if EntryHasRuntimeKey(e) {
            identity := RuntimeIdentity(e.token, e.index, e.generation);
          }
          var n := (if id in fallbackCounts then fallbackCounts[id] else 0) + 1;
          fallbackCounts := fallbackCounts[id := n];
          warn := ShouldWarn(n);
        }
      }
    }
  }

  /** A registration with a runtime key makes that key hit the fast path with the new object. */
  lemma {:induction false} BoundEntryHitsFastPath(slots: seq<seq<RuntimeSlot>>, e: Entry, want: Want)
    requires EntryHasRuntimeKey(e)
    ensures var r := WithSlotBound(slots, e);
      e.token < |r| && e.index < |r[e.token]| && r[e.token][e.index].occupied &&
      r[e.token][e.index].id == e.id && r[e.token][e.index].generation == e.generation &&
      ResolveTarget(r[e.token][e.index].target, want) == ResolveTarget(e.target, want)
  {
  }

  /** Clearing for an entry whose generation no longer owns the slot leaves the slot alone. */
  lemma StaleClearKeepsSlot(slots: seq<seq<RuntimeSlot>>, e: Entry)
    requires EntryHasRuntimeKey(e) && e.token < |slots| && e.index < |slots[e.token]|
    requires slots[e.token][e.index].generation != e.generation
    ensures WithSlotCleared(slots, e) == slots
  {
  }

  /** After a clear that applies, the slot no longer answers any fast lookup. */
  lemma ClearedSlotMisses(slots: seq<seq<RuntimeSlot>>, e: Entry)
    requires EntryHasRuntimeKey(e) && e.token < |slots| && e.index < |slots[e.token]|
    requires slots[e.token][e.index].occupied && slots[e.token][e.index].generation == e.generation
    ensures !WithSlotCleared(slots, e)[e.token][e.index].occupied
  {
  }

  /** A number ANDed with itself is itself. */
  lemma {:induction false} BitAndSelf(a: nat)
    ensures BitAnd(a, a) == a
  {
    if a != 0 {
      BitAndSelf(a / 2);
    }
  }

  /** For a positive count, the bit test `n & (n - 1) == 0` holds exactly for powers of two. */
  lemma {:induction false} BitTestIsPowerOfTwo(n: nat)
    requires n >= 1
    ensures BitAnd(n, n - 1) == 0 <==> IsPowerOfTwo(n)
  {
    if n > 1 {
      if n % 2 == 0 {
        assert (n - 1) / 2 == n / 2 - 1 && (n - 1) % 2 == 1;
        BitTestIsPowerOfTwo(n / 2);
      } else {
        assert (n - 1) / 2 == n / 2 && (n - 1) % 2 == 0;
        BitAndSelf(n / 2);
      }
    }
  }

  /** 2 to the power `k`. */
  function Pow2(k: nat): (r: nat)
    ensures r >= 1
  {
    if k == 0 then 1 else 2 * Pow2(k - 1)
  }

  /** Every 2^k is a power of two. */
  lemma {:induction false} Pow2IsPowerOfTwo(k: nat)
    ensures IsPowerOfTwo(Pow2(k))
  {
    if k > 0 {
      Pow2IsPowerOfTwo(k - 1);
      assert Pow2(k) / 2 == Pow2(k - 1);
    }
  }

  /** Every power of two is some 2^k. */
  lemma {:induction false} PowerOfTwoExponent(n: nat) returns (k: nat)
    requires IsPowerOfTwo(n)
    ensures Pow2(k) == n
  {
    if n == 1 {
      k := 0;
    } else {
      var j := PowerOfTwoExponent(n / 2);
      k := j + 1;
    }
  }

  /** `IsPowerOfTwo` holds exactly for the numbers 2^k. */
  lemma PowersOfTwo(n: nat)
    ensures IsPowerOfTwo(n) <==> exists k: nat :: Pow2(k) == n
  {
    if IsPowerOfTwo(n) {
      var k := PowerOfTwoExponent(n);
    }
    if k: nat :| Pow2(k) == n {
      Pow2IsPowerOfTwo(k);
    }
  }

  /**
   * The warning schedule over every count: the diagnostic fires for the
   * first four misses and afterwards exactly at the powers of two.
   */
  lemma WarningSchedule(n: nat)
    ensures ShouldWarn(n) <==> n <= 4 || IsPowerOfTwo(n)
    ensures ShouldWarn(n) <==> n <= 4 || exists k: nat :: Pow2(k) == n
  {
    if n > 4 {
      BitTestIsPowerOfTwo(n);
    }
    PowersOfTwo(n);
  }

  /** A power of two above 4 is even, so an odd count above 4 never emits. */
  lemma OddCountsAboveFourAreSilent(n: nat)
    requires n > 4 && n % 2 == 1
    ensures !ShouldWarn(n)
  {
    WarningSchedule(n);
  }
}
