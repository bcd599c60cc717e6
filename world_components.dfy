/**
 * The per-node component attachment table of WorldEcsRuntime
 * (include/WorldEcsRuntime.h): for each node slot, the generation it was
 * attached for and one (type, component handle) link per component type.
 * Whether the owner handle resolves in the node runtime is passed in as
 * `ownerResolves`; what the component storages do on create and destroy is
 * passed in as their outcome.
 */
module WorldComponents {
  import opened Common
  import opened DenseRuntime
  import ObjectRegistry

  /** NodeComponentLink: a component type and the handle of its instance. */
  datatype Link = Link(typ: TypeId, handle: DenseHandle)

  /** NodeComponentAttachment of one node slot. */
  datatype Attachment = Attachment(generation: U32, alive: bool, components: seq<Link>)

  /** A default-constructed attachment. */
  const Blank: Attachment := Attachment(0, false, [])

  /** No two links of one node share a type. */
  predicate TypesDistinct(links: seq<Link>) {
    forall i, j :: 0 <= i < j < |links| ==> links[i].typ != links[j].typ
  }

  /** Some link of `links` has type `typ`. */
  predicate HasType(links: seq<Link>, typ: TypeId) {
    exists k :: 0 <= k < |links| && links[k].typ == typ
  }

  /** The owner handle passes the checks every attachment lookup starts with. */
  predicate OwnerUsable(owner: DenseHandle, ownerResolves: bool) {
    !IsNull(owner) && owner.index != InvalidIndex && ownerResolves
  }

  /** FindNodeComponentIndex: the position of the first link of type `typ`. */
  method FindComponentIndex(links: seq<Link>, typ: TypeId) returns (r: Option<nat>)
    ensures r.None? <==> !HasType(links, typ)
    ensures r.Some? ==> r.value < |links| && links[r.value].typ == typ
    ensures r.Some? ==> forall k :: 0 <= k < r.value ==> links[k].typ != typ
  {
    var i := 0;
    while i < |links|
      invariant 0 <= i <= |links|
      invariant forall k :: 0 <= k < i ==> links[k].typ != typ
    {
      if links[i].typ == typ {
        return Some(i);
      }
      i := i + 1;
    }
    return None;
  }

  /** The link of type `typ`; with distinct types it is the only one. */
  function LinkOfType(links: seq<Link>, typ: TypeId): (l: Link)
    requires HasType(links, typ)
    ensures l in links && l.typ == typ
  {
    if links[0].typ == typ then links[0]
    else
      assert exists k :: 0 <= k < |links[1..]| && links[1..][k].typ == typ by {
        var k :| 0 <= k < |links| && links[k].typ == typ;
        assert links[1..][k - 1] == links[k];
      }
      LinkOfType(links[1..], typ)
  }

  /** RemoveNodeComponentAt: swap-remove position `i`, or nothing when it is past the end. */
  function RemoveAt(links: seq<Link>, i: nat): (r: seq<Link>)
  {
    if i < |links| then SwapRemove(links, i) else links
  }

  /**
   * Removing a link keeps the types distinct, drops exactly the removed
   * link's type and keeps every other link.
   */
  lemma {:induction false} RemoveAtEffect(links: seq<Link>, i: nat)
    requires TypesDistinct(links) && i < |links|
    ensures |RemoveAt(links, i)| == |links| - 1
    ensures TypesDistinct(RemoveAt(links, i))
    ensures !HasType(RemoveAt(links, i), links[i].typ)
    ensures forall k :: 0 <= k < |links| && k != i ==> links[k] in RemoveAt(links, i)
    ensures forall l :: l in RemoveAt(links, i) ==> l in links
  {
    var r := RemoveAt(links, i);
    var n := |links| - 1;
    assert forall k :: 0 <= k < |r| ==> r[k] == (if k == i then links[n] else links[k]);
    forall k | 0 <= k < |links| && k != i
      ensures links[k] in r
    {
      if k == n {
        assert r[i] == links[k];
      } else {
        assert r[k] == links[k];
      }
    }
  }

  /** Past the end, RemoveNodeComponentAt changes nothing. */
  lemma RemoveAtPastEnd(links: seq<Link>, i: nat)
    requires i >= |links|
    ensures RemoveAt(links, i) == links
  {
  }

  /** Appending a link of an absent type keeps the types distinct. */
  lemma AppendFreshType(links: seq<Link>, l: Link)
    requires TypesDistinct(links) && !HasType(links, l.typ)
    ensures TypesDistinct(links + [l]) && HasType(links + [l], l.typ)
  {
    var r := links + [l];
    assert r[|links|].typ == l.typ;
  }

  /** m_nodeComponentsBySlot with its invariant: one link per type on every slot. */
  class Attachments {
    var bySlot: seq<Attachment>

    ghost predicate Valid()
      reads this
    {
      forall s :: 0 <= s < |bySlot| ==> TypesDistinct(bySlot[s].components)
    }

    constructor ()
      ensures Valid() && bySlot == []
    {
      bySlot := [];
    }

    /** The attachment slot the owner's current generation owns, if any (FindNodeAttachment). */
    function FindAttachment(owner: DenseHandle, ownerResolves: bool): (r: Option<nat>)
      reads this
      ensures r.Some? ==> r.value == owner.index as nat && r.value < |bySlot|
      ensures r.Some? <==> (OwnerUsable(owner, ownerResolves) && owner.index as nat < |bySlot|
                            && bySlot[owner.index].alive && bySlot[owner.index].generation == owner.generation)
    {
      if !OwnerUsable(owner, ownerResolves) || owner.index as nat >= |bySlot| then None
      else if !bySlot[owner.index].alive || bySlot[owner.index].generation != owner.generation then None
      else Some(owner.index as nat)
    }

    /** The components the world currently lists for `owner`. */
    ghost function LinksOf(owner: DenseHandle, ownerResolves: bool): (r: seq<Link>)
      reads this
    {
      match FindAttachment(owner, ownerResolves)
      case None => []
      case Some(s) => bySlot[s].components
    }

    /**
     * EnsureNodeAttachment: for a usable owner, grows the table to cover its
     * slot and resets a dead or stale attachment to an empty one of the
     * owner's generation, keeping a current one as it is.
     */
    method EnsureAttachment(owner: DenseHandle, ownerResolves: bool) returns (r: Option<nat>)
      requires Valid()
      modifies this
      ensures Valid()
      ensures r.None? <==> !OwnerUsable(owner, ownerResolves)
      ensures r.None? ==> bySlot == old(bySlot)
      ensures r.Some? ==> r == FindAttachment(owner, ownerResolves)
      ensures r.Some? ==> bySlot[r.value].components == old(LinksOf(owner, ownerResolves))
      ensures r.Some? ==> |bySlot| == if owner.index as nat < |old(bySlot)| then |old(bySlot)| else owner.index as nat + 1
      ensures r.Some? ==> forall s :: 0 <= s < |bySlot| && s != r.value ==>
                            bySlot[s] == if s < |old(bySlot)| then old(bySlot)[s] else Blank
    {
      if !OwnerUsable(owner, ownerResolves) {
        return None;
      }
      var s := owner.index as nat;
      if s >= |bySlot| {
        bySlot := bySlot + seq(s + 1 - |bySlot|, _ => Blank);
      }
      if !bySlot[s].alive || bySlot[s].generation != owner.generation {
        bySlot := bySlot[s := Attachment(owner.generation, true, [])];
      }
      return Some(s);
    }

    /**
     * AddComponentWithId (generic, by type id). `hasStorage` says whether a
     * storage model is registered for the type and `created` is what its
     * CreateDefault returned. InvalidArgument for a nil type; NotFound for
     * an owner that does not resolve; AlreadyExists when the owner has a
     * component of this type; NotFound with no storage; the storage's error
     * otherwise; on success the new link is appended.
     */
    method AddComponentWithId(owner: DenseHandle, ownerResolves: bool, typ: TypeId, hasStorage: bool,
                              created: Result<DenseHandle>) returns (r: Result<DenseHandle>)
      requires Valid()
      modifies this
      ensures Valid()
      ensures IsNil(typ) ==> r == Err(InvalidArgument) && bySlot == old(bySlot)
      ensures !IsNil(typ) && !OwnerUsable(owner, ownerResolves) ==> r == Err(NotFound) && bySlot == old(bySlot)
      ensures (!IsNil(typ) && OwnerUsable(owner, ownerResolves) && HasType(old(LinksOf(owner, ownerResolves)), typ))
        ==> r == Err(AlreadyExists)
      ensures (!IsNil(typ) && OwnerUsable(owner, ownerResolves) && !HasType(old(LinksOf(owner, ownerResolves)), typ))
        ==> r == (if !hasStorage then Err(NotFound) else created)
      ensures r.Ok? ==> LinksOf(owner, ownerResolves) == old(LinksOf(owner, ownerResolves)) + [Link(typ, r.value)]
      ensures r.Err? && OwnerUsable(owner, ownerResolves) ==> LinksOf(owner, ownerResolves) == old(LinksOf(owner, ownerResolves))
      ensures OwnerUsable(owner, ownerResolves) ==> forall s :: 0 <= s < |bySlot| && s != owner.index as nat ==>
                bySlot[s] == if s < |old(bySlot)| then old(bySlot)[s] else Blank
    {
      if IsNil(typ) {
        return Err(InvalidArgument);
      }
      var a := EnsureAttachment(owner, ownerResolves);
      if a.None? {
        return Err(NotFound);
      }
      var s := a.value;
      var links := bySlot[s].components;
      var existing := FindComponentIndex(links, typ);
      if existing.Some? {
        return Err(AlreadyExists);
      }
      if !hasStorage {
        return Err(NotFound);
      }
      if created.Err? {
        return created;
      }
      AppendFreshType(links, Link(typ, created.value));
      bySlot := bySlot[s := bySlot[s].(components := links + [Link(typ, created.value)])];
      return created;
    }

    /**
     * RemoveComponent (generic, by type id). `destroyed` is what the
     * component's storage reported for Destroy (false when no storage is
     * found). InvalidArgument for a nil type, NotFound for a missing
     * attachment or link; otherwise the link is removed whether or not the
     * storage destroyed the instance, and the result is NotFound when it did
     * not. The removed component's non-nil UUID is then unregistered from
     * the object registry, so it no longer resolves there.
     */
    method RemoveComponent(owner: DenseHandle, ownerResolves: bool, typ: TypeId, destroyed: bool,
                           registry: ObjectRegistry.Registry) returns (r: Outcome)
      requires Valid() && registry.Valid()
      modifies this, registry
      ensures Valid() && |bySlot| == |old(bySlot)| && registry.Valid()
      ensures IsNil(typ) || !HasType(old(LinksOf(owner, ownerResolves)), typ) ==> unchanged(registry)
      ensures !IsNil(typ) && HasType(old(LinksOf(owner, ownerResolves)), typ) ==>
                var id := old(LinkOfType(LinksOf(owner, ownerResolves), typ)).handle.id;
                && registry.entries == old(registry.entries) - {id}
                && registry.slotsByPool == (if id in old(registry.entries)
                                            then ObjectRegistry.WithSlotCleared(old(registry.slotsByPool), old(registry.entries)[id])
                                            else old(registry.slotsByPool))
                && registry.fallbackCounts == old(registry.fallbackCounts) && registry.issued == old(registry.issued)
      ensures IsNil(typ) ==> r == Fail(InvalidArgument) && bySlot == old(bySlot)
      ensures !IsNil(typ) && !HasType(old(LinksOf(owner, ownerResolves)), typ) ==> r == Fail(NotFound) && bySlot == old(bySlot)
      ensures !IsNil(typ) && HasType(old(LinksOf(owner, ownerResolves)), typ) ==>
                && r == (if destroyed then Done else Fail(NotFound))
                && !HasType(LinksOf(owner, ownerResolves), typ)
                && |LinksOf(owner, ownerResolves)| == |old(LinksOf(owner, ownerResolves))| - 1
                && (forall l :: l in old(LinksOf(owner, ownerResolves)) && l.typ != typ ==> l in LinksOf(owner, ownerResolves))
                && (forall l :: l in LinksOf(owner, ownerResolves) ==> l in old(LinksOf(owner, ownerResolves)))
      ensures forall s :: 0 <= s < |bySlot| && s != owner.index as nat ==> bySlot[s] == old(bySlot)[s]
    {
      if IsNil(typ) {
        return Fail(InvalidArgument);
      }
      var removed := DetachLink(owner, ownerResolves, typ);
      if removed.None? {
        return Fail(NotFound);
      }
      if !IsNil(removed.value.handle.id) {
        registry.Unregister(removed.value.handle.id);
      }
      r := if destroyed then Done else Fail(NotFound);
    }

    /** The link half of RemoveComponent: the owner's link of this type is taken out and returned. */
    method DetachLink(owner: DenseHandle, ownerResolves: bool, typ: TypeId) returns (removed: Option<Link>)
      requires Valid()
      modifies this
      ensures Valid() && |bySlot| == |old(bySlot)|
      ensures removed.None? <==> !HasType(old(LinksOf(owner, ownerResolves)), typ)
      ensures removed.None? ==> bySlot == old(bySlot)
      ensures removed.Some? ==>
                && removed.value == old(LinkOfType(LinksOf(owner, ownerResolves), typ))
                && !HasType(LinksOf(owner, ownerResolves), typ)
                && |LinksOf(owner, ownerResolves)| == |old(LinksOf(owner, ownerResolves))| - 1
                && (forall l :: l in old(LinksOf(owner, ownerResolves)) && l.typ != typ ==> l in LinksOf(owner, ownerResolves))
                && (forall l :: l in LinksOf(owner, ownerResolves) ==> l in old(LinksOf(owner, ownerResolves)))
      ensures forall s :: 0 <= s < |bySlot| && s != owner.index as nat ==> bySlot[s] == old(bySlot)[s]
    {
      var a := FindAttachment(owner, ownerResolves);
      if a.None? {
        return None;
      }
      var s := a.value;
      var links := bySlot[s].components;
      var found := FindComponentIndex(links, typ);
      if found.None? {
        return None;
      }
      removed := Some(links[found.value]);
      assert removed.value == LinkOfType(links, typ);
      RemoveAtEffect(links, found.value);
      bySlot := bySlot[s := bySlot[s].(components := RemoveAt(links, found.value))];
    }

    /** HasComponent: the owner's attachment lists a component of this type. */
    method HasComponent(owner: DenseHandle, ownerResolves: bool, typ: TypeId) returns (b: bool)
      ensures b <==> HasType(LinksOf(owner, ownerResolves), typ)
    {
      var a := FindAttachment(owner, ownerResolves);
      if a.None? {
        return false;
      }
      var found := FindComponentIndex(bySlot[a.value].components, typ);
      b := found.Some?;
    }

    /** ComponentHandle: the handle of the owner's component of this type, or NotFound. */
    method ComponentHandle(owner: DenseHandle, ownerResolves: bool, typ: TypeId) returns (r: Result<DenseHandle>)
      requires Valid()
      ensures r.Err? ==> r.code == NotFound
      ensures r.Ok? <==> HasType(LinksOf(owner, ownerResolves), typ)
      ensures r.Ok? ==> Link(typ, r.value) in LinksOf(owner, ownerResolves)
      ensures r.Ok? ==> forall l :: l in LinksOf(owner, ownerResolves) && l.typ == typ ==> l.handle == r.value
    {
      var a := FindAttachment(owner, ownerResolves);
      if a.None? {
        return Err(NotFound);
      }
      var links := bySlot[a.value].components;
      var found := FindComponentIndex(links, typ);
      if found.None? {
        return Err(NotFound);
      }
      assert links[found.value] == Link(typ, links[found.value].handle);
      r := Ok(links[found.value].handle);
    }

    /** ClearNodeAttachment: resets the owner's slot to a blank attachment when it exists. */
    method ClearAttachment(owner: DenseHandle)
      requires Valid()
      modifies this
      ensures Valid() && |bySlot| == |old(bySlot)|
      ensures IsNull(owner) || owner.index == InvalidIndex || owner.index as nat >= |bySlot| ==> bySlot == old(bySlot)
      ensures !IsNull(owner) && owner.index != InvalidIndex && owner.index as nat < |bySlot| ==>
                bySlot == old(bySlot)[owner.index as nat := Blank]
    {
      if IsNull(owner) || owner.index == InvalidIndex || owner.index as nat >= |bySlot| {
        return;
      }
      bySlot := bySlot[owner.index as nat := Blank];
    }
  }

  /** After a clear, no generation of the owner's slot lists a component until it is re-attached. */
  lemma ClearedHasNoLinks(a: Attachments, owner: DenseHandle, other: DenseHandle, ownerResolves: bool)
    requires owner.index as nat < |a.bySlot| && a.bySlot[owner.index] == Blank
    requires other.index == owner.index
    ensures a.FindAttachment(other, ownerResolves).None?
  {
  }
}
