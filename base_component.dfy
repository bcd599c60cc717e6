/**
 * BaseComponent of src/BaseComponent.cpp: the owner-node cache behind
 * OwnerNode and World, and the component's view of its networking role.
 * RPC lookup and routing are those of module Rpc, with target kind 1.
 */
module BaseComponents {
  import opened Common
  import opened Handles
  import opened Rpc

  class BaseComponent {
    var owner: Handle
    /** The mutable owner-node cache; Null when empty. */
    var ownerNode: Ptr

    constructor (owner: Handle)
      ensures this.owner == owner && ownerNode == Null
    {
      this.owner := owner;
      ownerNode := Null;
    }

    /**
     * Owner(NodeHandle): the owner handle is replaced and the cache is
     * refilled at once, with Null for a null handle and otherwise what
     * Borrowed returns (`borrowed`).
     */
    method SetOwner(h: Handle, borrowed: Ptr)
      modifies this
      ensures owner == h
      ensures ownerNode == if IsNull(h) then Null else borrowed
    {
      owner := h;
      ownerNode := if IsNull(h) then Null else borrowed;
    }

    /**
     * OwnerNode: when the cache is empty and the owner handle is set, the
     * handle is resolved (`borrowed` is what Borrowed returns) and the
     * result cached; otherwise the cache is returned as it is.
     */
    method OwnerNode(borrowed: Ptr) returns (node: Ptr)
      modifies this
      ensures owner == old(owner) && node == ownerNode
      ensures old(ownerNode) != Null || IsNull(owner) ==> ownerNode == old(ownerNode)
      ensures old(ownerNode) == Null && !IsNull(owner) ==> ownerNode == borrowed
    {
      if ownerNode == Null && !IsNull(owner) {
        ownerNode := borrowed;
      }
      node := ownerNode;
    }

    /** World: the owner node's world (`nodeWorld`), or Null when no owner node resolves. */
    method World(borrowed: Ptr, nodeWorld: Ptr) returns (w: Ptr)
      modifies this
      ensures owner == old(owner)
      ensures old(ownerNode) != Null || IsNull(owner) ==> ownerNode == old(ownerNode)
      ensures old(ownerNode) == Null && !IsNull(owner) ==> ownerNode == borrowed
      ensures w == if ownerNode == Null then Null else nodeWorld
    {
      var node := OwnerNode(borrowed);
      if node == Null {
        return Null;
      }
      w := nodeWorld;
    }
  }

  /** The networking a component sees: none without a world. */
  function ComponentNetworking(world: Ptr, net: Networking): (n: Networking)
    ensures world == Null ==> n == NoWorld
    ensures world != Null ==> n == net
  {
    if world == Null then NoWorld else net
  }

  /** Without a world a component is a server and not a client or listen-server. */
  lemma ComponentRolesWithoutWorld(net: Networking)
    ensures IsServer(ComponentNetworking(Null, net))
    ensures !IsClient(ComponentNetworking(Null, net)) && !IsListenServer(ComponentNetworking(Null, net))
  {
  }
}
