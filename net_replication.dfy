/**
 * The replication bridge of src/NetReplication.cpp: the 49-byte object
 * header, entity ids, snapshots and deltas, the client-side application
 * of spawn/update payloads with the queues of parent links and components
 * that arrive before what they depend on, and the server-side gathering
 * of the replicated entities.
 *
 * The world the bridge talks to is seen by id: ReplicaWorld holds the
 * nodes the object registry resolves (with their type keys), each node's
 * parent id and the components that resolve. The reflected field codec,
 * node/component factories and the net type-id hash are outside; their
 * outcomes are parameters.
 */
module NetReplication {
  import opened Common
  import opened Wire

  /** ENetObjectKind. */
  const NodeKind: Byte := 0
  const ComponentKind: Byte := 1

  /** NetReplicationHeader: kind, object id, object type, owner id. */
  datatype Header = Header(kind: Byte, objectId: Uuid, objectType: TypeId, ownerId: Uuid)

  /** EncodeHeader: the kind byte, then the three UUIDs. */
  function EncodeHeader(h: Header): (r: seq<Byte>)
    ensures |r| == 49
  {
    [h.kind] + UuidBytes(h.objectId) + UuidBytes(h.objectType) + UuidBytes(h.ownerId)
  }

  /** DecodeHeader: the same fields; the kind byte is taken as is, any short read fails. */
  function DecodeHeader(data: seq<Byte>, pos: nat): (r: Option<Read<Header>>)
    ensures r.Some? <==> pos + 49 <= |data|
    ensures r.Some? ==> r.value.next == pos + 49
  {
    match ReadU8(data, pos)
    case None => None
    case Some(k) =>
      match ReadUuid(data, k.next)
      case None => None
      case Some(id) =>
        match ReadUuid(data, id.next)
        case None => None
        case Some(ty) =>
          match ReadUuid(data, ty.next)
          case None => None
          case Some(owner) => Some(Read(Header(k.value, id.value, ty.value, owner.value), owner.next))
  }

  /** DecodeHeader inverts EncodeHeader, wherever the header sits in the stream. */
  lemma HeaderRoundTrip(pre: seq<Byte>, h: Header, rest: seq<Byte>)
    ensures DecodeHeader(pre + EncodeHeader(h) + rest, |pre|) == Some(Read(h, |pre| + 49))
  {
    var data := pre + EncodeHeader(h) + rest;
    var a := pre + [h.kind];
    var b := a + UuidBytes(h.objectId);
    var c := b + UuidBytes(h.objectType);
    assert data == pre + [h.kind] + (UuidBytes(h.objectId) + UuidBytes(h.objectType) + UuidBytes(h.ownerId) + rest);
    ReadU8Written(pre, h.kind, UuidBytes(h.objectId) + UuidBytes(h.objectType) + UuidBytes(h.ownerId) + rest);
    assert data == a + UuidBytes(h.objectId) + (UuidBytes(h.objectType) + UuidBytes(h.ownerId) + rest);
    ReadUuidWritten(a, h.objectId, UuidBytes(h.objectType) + UuidBytes(h.ownerId) + rest);
    assert data == b + UuidBytes(h.objectType) + (UuidBytes(h.ownerId) + rest);
    ReadUuidWritten(b, h.objectType, UuidBytes(h.ownerId) + rest);
    assert data == c + UuidBytes(h.ownerId) + rest;
    ReadUuidWritten(c, h.ownerId, rest);
  }

  /**
   * MakeEntityId: high ^ (low + 0x9e3779b97f4a7c15 + (high << 6) + (high >> 2)),
   * all in wrapping 64-bit arithmetic.
   */
  function MakeEntityId(u: Uuid): (e: U64)
  {
    var h := u.high as bv64;
    var l := u.low as bv64;
    (h ^ (l + 0x9e37_79b9_7f4a_7c15 + (h << 6) + (h >> 2))) as U64
  }

  /** The mixing on sample ids: the nil id maps to the constant itself; high 1 adds 64 and flips the low bit. */
  lemma EntityIdSamples()
    ensures MakeEntityId(NilUuid) == 0x9e37_79b9_7f4a_7c15
    ensures MakeEntityId(Uuid(1, 0)) == 0x9e37_79b9_7f4a_7c54
  {
  }

  /** What m_entityRefs holds for an entity: kind, reflected type and the object it maps to. */
  datatype EntityRef = EntityRef(kind: Byte, typeId: TypeId, objectId: Uuid)

  /** The header BuildSnapshot writes for a mapped object: node kind for a node, component kind otherwise. */
  function SnapshotHeader(r: EntityRef, ownerId: Uuid): (h: Header)
  {
    Header(if r.kind == NodeKind then NodeKind else ComponentKind, r.objectId, r.typeId, ownerId)
  }

  /**
   * BuildSnapshot: nothing for an unmapped entity or when serialising the
   * replicated fields fails; otherwise the header followed by the field
   * bytes (none when the object is not flagged Replicated). `ownerId` is
   * the node's parent id or the component's owner id at snapshot time.
   */
  function BuildSnapshot(refs: map<U64, EntityRef>, entity: U64, ownerId: Uuid, replicated: bool,
                         fields: Option<seq<Byte>>): (r: Option<seq<Byte>>)
    ensures r.None? <==> entity !in refs || (replicated && fields.None?)
  {
    if entity !in refs then None
    else if replicated && fields.None? then None
    else Some(EncodeHeader(SnapshotHeader(refs[entity], ownerId)) + (if replicated then fields.value else []))
  }

  /** A snapshot decodes to its header at offset 49, and what follows is the field bytes. */
  lemma SnapshotDecodes(refs: map<U64, EntityRef>, entity: U64, ownerId: Uuid, replicated: bool, fields: Option<seq<Byte>>)
    requires BuildSnapshot(refs, entity, ownerId, replicated, fields).Some?
    ensures DecodeHeader(BuildSnapshot(refs, entity, ownerId, replicated, fields).value, 0)
         == Some(Read(SnapshotHeader(refs[entity], ownerId), 49))
    ensures BuildSnapshot(refs, entity, ownerId, replicated, fields).value[49..] == if replicated then fields.value else []
  {
    var body := if replicated then fields.value else [];
    HeaderRoundTrip([], SnapshotHeader(refs[entity], ownerId), body);
    assert [] + EncodeHeader(SnapshotHeader(refs[entity], ownerId)) + body == BuildSnapshot(refs, entity, ownerId, replicated, fields).value;
  }

  /** ReplicationDelta: the bytes to send and the new baseline. */
  datatype Delta = Delta(delta: seq<Byte>, baseline: seq<Byte>)

  /** The size test and memcmp BuildDelta makes. */
  predicate SameBytes(a: seq<Byte>, b: seq<Byte>) {
    |a| == |b| && (|a| == 0 || forall i :: 0 <= i < |a| ==> a[i] == b[i])
  }

  /** BuildDelta: nothing without a snapshot or when it equals the baseline; otherwise the snapshot is both delta and baseline. */
  function BuildDelta(snapshot: Option<seq<Byte>>, baseline: seq<Byte>): (r: Option<Delta>)
    ensures r.None? <==> snapshot.None? || snapshot.value == baseline
    ensures r.Some? ==> r.value.delta == snapshot.value && r.value.baseline == snapshot.value
  {
    if snapshot.None? then None
    else if SameBytes(snapshot.value, baseline) then
      assert snapshot.value == baseline;
      None
    else Some(Delta(snapshot.value, snapshot.value))
  }

  /** A delta built against its own baseline is empty: sending one delta makes the next identical snapshot a no-op. */
  lemma {:induction false} DeltaThenSame(snapshot: Option<seq<Byte>>, baseline: seq<Byte>)
    requires BuildDelta(snapshot, baseline).Some?
    ensures BuildDelta(snapshot, BuildDelta(snapshot, baseline).value.baseline).None?
    ensures BuildDelta(snapshot, baseline).value.delta != baseline
  {
  }

  /** EntityInfo: kind, object id and type of an applied entity. */
  datatype EntityInfo = EntityInfo(kind: Byte, objectId: Uuid, objectType: TypeId)

  /** PendingComponent: a component whose owner node has not arrived yet. */
  datatype PendingComponent = PendingComponent(componentId: Uuid, ownerId: Uuid, componentType: TypeId, fieldBytes: seq<Byte>)

  /** The parent links that resolve: child and parent both name live nodes. */
  function ResolvedLinks(pending: map<Uuid, Uuid>, nodes: set<Uuid>): (r: map<Uuid, Uuid>)
  {
    map c | c in pending && c in nodes && pending[c] in nodes :: pending[c]
  }

  /** The parent links that stay queued. */
  function StillPending(pending: map<Uuid, Uuid>, nodes: set<Uuid>): (r: map<Uuid, Uuid>)
  {
    map c | c in pending && !(c in nodes && pending[c] in nodes) :: pending[c]
  }

  /** The loop of ResolvePendingAttachments over the queued links `p0`, starting from the parent table `par0`. */
  method ApplyResolvableLinks(p0: map<Uuid, Uuid>, par0: map<Uuid, Uuid>, nodes: set<Uuid>)
    returns (parents: map<Uuid, Uuid>, pending: map<Uuid, Uuid>)
    ensures pending == StillPending(p0, nodes)
    ensures parents == par0 + ResolvedLinks(p0, nodes)
  {
    parents, pending := par0, p0;
    var keys := p0.Keys;
    ghost var resolved: map<Uuid, Uuid> := map[];
    assert LinksSplit(p0, nodes, keys, pending, resolved);
    while keys != {}
      invariant keys <= p0.Keys
      invariant LinksSplit(p0, nodes, keys, pending, resolved)
      invariant parents == par0 + resolved
      decreases keys
    {
      var child :| child in keys;
      var parent := p0[child];
      LinksSplitStep(p0, nodes, keys, pending, resolved, child);
      if child in nodes && parent in nodes {
        if child !in parents || parents[child] != parent {
          parents := parents[child := parent];
        }
        resolved := resolved[child := parent];
        pending := pending - {child};
      }
      keys := keys - {child};
    }
    assert pending == StillPending(p0, nodes) && resolved == ResolvedLinks(p0, nodes);
  }

  /** Mid-loop state of ApplyResolvableLinks: links not yet visited (`keys`) or unresolvable are pending, the visited resolvable ones resolved. */
  ghost predicate LinksSplit(p0: map<Uuid, Uuid>, nodes: set<Uuid>, keys: set<Uuid>, pending: map<Uuid, Uuid>, resolved: map<Uuid, Uuid>) {
    && pending == (map c | c in p0 && (c in keys || !(c in nodes && p0[c] in nodes)) :: p0[c])
    && resolved == (map c | c in p0 && c !in keys && c in nodes && p0[c] in nodes :: p0[c])
  }

  lemma LinksSplitStep(p0: map<Uuid, Uuid>, nodes: set<Uuid>, keys: set<Uuid>, pending: map<Uuid, Uuid>, resolved: map<Uuid, Uuid>, child: Uuid)
    requires keys <= p0.Keys && child in keys && LinksSplit(p0, nodes, keys, pending, resolved)
    ensures var ok := child in nodes && p0[child] in nodes;
      LinksSplit(p0, nodes, keys - {child}, if ok then pending - {child} else pending,
                 if ok then resolved[child := p0[child]] else resolved)
  {
  }

  /** Every queued link is either resolved or kept, never both, and keeps its parent id. */
  lemma LinksPartition(pending: map<Uuid, Uuid>, nodes: set<Uuid>)
    ensures ResolvedLinks(pending, nodes).Keys !! StillPending(pending, nodes).Keys
    ensures ResolvedLinks(pending, nodes) + StillPending(pending, nodes) == pending
    ensures forall c :: c in StillPending(pending, nodes) <==> c in pending && (c !in nodes || pending[c] !in nodes)
  {
    assert (ResolvedLinks(pending, nodes) + StillPending(pending, nodes)).Keys == pending.Keys;
  }

  /** Once resolved, nothing of the queue resolves a second time. */
  lemma StillPendingSettled(pending: map<Uuid, Uuid>, nodes: set<Uuid>)
    ensures ResolvedLinks(StillPending(pending, nodes), nodes) == map[]
    ensures StillPending(StillPending(pending, nodes), nodes) == StillPending(pending, nodes)
  {
    assert ResolvedLinks(StillPending(pending, nodes), nodes).Keys == {};
  }

  /** Whether a queued component is done: its owner resolves, creation succeeds and its fields (if any) apply. */
  predicate ComponentSettles(p: PendingComponent, nodes: set<Uuid>, creates: PendingComponent -> bool,
                             applies: PendingComponent -> bool) {
    p.ownerId in nodes && creates(p) && (|p.fieldBytes| == 0 || applies(p))
  }

  /** The components that stay queued, in queue order. */
  function KeptComponents(q: seq<PendingComponent>, nodes: set<Uuid>, creates: PendingComponent -> bool,
                          applies: PendingComponent -> bool): (r: seq<PendingComponent>)
  {
    if q == [] then []
    else
      var rest := KeptComponents(q[..|q| - 1], nodes, creates, applies);
      if ComponentSettles(q[|q| - 1], nodes, creates, applies) then rest else rest + [q[|q| - 1]]
  }

  /** The component ids whose creation succeeded. */
  function CreatedComponents(q: seq<PendingComponent>, nodes: set<Uuid>, creates: PendingComponent -> bool): (r: set<Uuid>)
  {
    set p | p in q && p.ownerId in nodes && creates(p) :: p.componentId
  }

  /**
   * A component stays queued exactly when it does not settle; the kept
   * queue is no longer than the old one and settling it again keeps it.
   */
  lemma {:induction false} KeptExactly(q: seq<PendingComponent>, nodes: set<Uuid>, creates: PendingComponent -> bool,
                                       applies: PendingComponent -> bool)
    ensures forall p :: p in KeptComponents(q, nodes, creates, applies) <==> p in q && !ComponentSettles(p, nodes, creates, applies)
    ensures |KeptComponents(q, nodes, creates, applies)| <= |q|
    ensures KeptComponents(KeptComponents(q, nodes, creates, applies), nodes, creates, applies) == KeptComponents(q, nodes, creates, applies)
  {
    if q != [] {
      var p := q[..|q| - 1];
      KeptExactly(p, nodes, creates, applies);
      assert q == p + [q[|q| - 1]];
      var k := KeptComponents(p, nodes, creates, applies);
      if !ComponentSettles(q[|q| - 1], nodes, creates, applies) {
        assert (k + [q[|q| - 1]])[..|k|] == k;
      }
    }
  }

  /** A node payload's effect on the type keys: a created node gets the header type, an existing one only a non-nil type. */
  function NodeTypesAfter(nodeTypes: map<Uuid, TypeId>, h: Header): (r: map<Uuid, TypeId>)
    ensures h.objectId in r && r.Keys == nodeTypes.Keys + {h.objectId}
    ensures forall id :: id in nodeTypes && id != h.objectId ==> r[id] == nodeTypes[id]
  {
    if h.objectId !in nodeTypes || !IsNil(h.objectType) then nodeTypes[h.objectId := h.objectType] else nodeTypes
  }

  /** A node payload's effect on the parent links: a nil owner detaches, a live owner becomes the parent, an unknown one changes nothing yet. */
  function ParentsAfter(parents: map<Uuid, Uuid>, nodes: set<Uuid>, h: Header): (r: map<Uuid, Uuid>)
  {
    if IsNil(h.ownerId) then parents - {h.objectId}
    else if h.ownerId in nodes then parents[h.objectId := h.ownerId]
    else parents
  }

  /** An owner that does not resolve yet is queued under the node's id, replacing any earlier link. */
  function PendingParentsAfter(pending: map<Uuid, Uuid>, nodes: set<Uuid>, h: Header): (r: map<Uuid, Uuid>)
  {
    if !IsNil(h.ownerId) && h.ownerId !in nodes then pending[h.objectId := h.ownerId] else pending
  }

  /** After a node payload the node has its owner as parent, or no parent, or its owner queued. */
  lemma NodeLinkAfter(parents: map<Uuid, Uuid>, pending: map<Uuid, Uuid>, nodes: set<Uuid>, h: Header)
    ensures IsNil(h.ownerId) ==> h.objectId !in ParentsAfter(parents, nodes, h)
    ensures !IsNil(h.ownerId) && h.ownerId in nodes ==> ParentsAfter(parents, nodes, h)[h.objectId] == h.ownerId
    ensures !IsNil(h.ownerId) && h.ownerId !in nodes ==> PendingParentsAfter(pending, nodes, h)[h.objectId] == h.ownerId
    ensures forall c :: c != h.objectId && c in parents ==> c in ParentsAfter(parents, nodes, h) && ParentsAfter(parents, nodes, h)[c] == parents[c]
  {
  }

  /** A component as the server's graph shows it: id, type, whether BorrowedComponent finds it, its Replicated flag. */
  datatype ComponentView = ComponentView(id: Uuid, typeId: TypeId, present: bool, replicated: bool)

  /** A node as the server's graph shows it: type key, Replicated flag, parent id (nil for none), components in ComponentTypes order. */
  datatype NodeView = NodeView(typeKey: TypeId, replicated: bool, parent: Uuid, components: seq<ComponentView>)

  /** ReplicationEntityState: entity id and net type id. */
  datatype EntityState = EntityState(entityId: U64, netType: U32)

  /** The parent walk goes on: the parent handle is not null and borrows a live node. */
  predicate HasParent(graph: map<Uuid, NodeView>, id: Uuid)
    requires id in graph
  {
    !IsNil(graph[id].parent) && graph[id].parent in graph
  }

  /** Parent chains end: each parent ranks below its child. */
  ghost predicate ParentsRanked(graph: map<Uuid, NodeView>, rank: map<Uuid, nat>) {
    forall id :: id in graph ==> id in rank && (HasParent(graph, id) ==> graph[id].parent in rank && rank[graph[id].parent] < rank[id])
  }

  /** A component that is replicated: present and flagged Replicated. */
  predicate Counts(c: ComponentView) {
    c.present && c.replicated
  }

  /** A node is gathered when it is Replicated or has a replicated component. */
  predicate Qualifies(n: NodeView) {
    n.replicated || exists k :: 0 <= k < |n.components| && Counts(n.components[k])
  }

  function NodeEntity(graph: map<Uuid, NodeView>, id: Uuid, idOf: Uuid -> U64, netTypeOf: (TypeId, Byte) -> U32): (e: EntityState)
    requires id in graph
  {
    EntityState(idOf(id), netTypeOf(graph[id].typeKey, NodeKind))
  }

  /** The entity ids of a node and of every ancestor AddNodeWithParents walks to. */
  ghost function LineageIds(graph: map<Uuid, NodeView>, rank: map<Uuid, nat>, idOf: Uuid -> U64, id: Uuid): (r: set<U64>)
    requires ParentsRanked(graph, rank) && id in graph
    ensures idOf(id) in r
    decreases rank[id]
  {
    {idOf(id)} + if HasParent(graph, id) then LineageIds(graph, rank, idOf, graph[id].parent) else {}
  }

  /** The lineage ids of the nodes of `order` that are gathered. */
  ghost function GatheredLineage(order: seq<Uuid>, graph: map<Uuid, NodeView>, rank: map<Uuid, nat>, idOf: Uuid -> U64): (r: set<U64>)
    requires forall i :: 0 <= i < |order| ==> order[i] in graph
    requires ParentsRanked(graph, rank)
  {
    if order == [] then {}
    else
      var last := order[|order| - 1];
      GatheredLineage(order[..|order| - 1], graph, rank, idOf) + (if Qualifies(graph[last]) then LineageIds(graph, rank, idOf, last) else {})
  }

  /** Each gathered node contributes its whole lineage, and only gathered nodes contribute. */
  lemma {:induction false} GatheredLineageCovers(order: seq<Uuid>, graph: map<Uuid, NodeView>, rank: map<Uuid, nat>, idOf: Uuid -> U64)
    requires forall i :: 0 <= i < |order| ==> order[i] in graph
    requires ParentsRanked(graph, rank)
    ensures forall k :: 0 <= k < |order| && Qualifies(graph[order[k]]) ==> LineageIds(graph, rank, idOf, order[k]) <= GatheredLineage(order, graph, rank, idOf)
    ensures forall x :: x in GatheredLineage(order, graph, rank, idOf) ==>
              exists k :: 0 <= k < |order| && Qualifies(graph[order[k]]) && x in LineageIds(graph, rank, idOf, order[k])
  {
    if order != [] {
      var p := order[..|order| - 1];
      GatheredLineageCovers(p, graph, rank, idOf);
      forall k | 0 <= k < |p|
        ensures order[k] == p[k]
      {
      }
    }
  }

  function ComponentEntity(c: ComponentView, idOf: Uuid -> U64, netTypeOf: (TypeId, Byte) -> U32): (e: EntityState)
  {
    EntityState(idOf(c.id), netTypeOf(c.typeId, ComponentKind))
  }

  /** The entities of a node's replicated components, in order. */
  function ComponentEntities(cs: seq<ComponentView>, idOf: Uuid -> U64, netTypeOf: (TypeId, Byte) -> U32): (r: seq<EntityState>)
  {
    if cs == [] then []
    else ComponentEntities(cs[..|cs| - 1], idOf, netTypeOf) + (if Counts(cs[|cs| - 1]) then [ComponentEntity(cs[|cs| - 1], idOf, netTypeOf)] else [])
  }

  /** The gathered nodes, in pool order. */
  function Qualified(order: seq<Uuid>, graph: map<Uuid, NodeView>): (r: seq<Uuid>)
    requires forall i :: 0 <= i < |order| ==> order[i] in graph
    ensures forall i :: 0 <= i < |r| ==> r[i] in graph
  {
    if order == [] then []
    else Qualified(order[..|order| - 1], graph) + (if Qualifies(graph[order[|order| - 1]]) then [order[|order| - 1]] else [])
  }

  /** The component entities of the gathered nodes, node by node. */
  function ComponentsOf(ids: seq<Uuid>, graph: map<Uuid, NodeView>, idOf: Uuid -> U64, netTypeOf: (TypeId, Byte) -> U32): (r: seq<EntityState>)
    requires forall i :: 0 <= i < |ids| ==> ids[i] in graph
  {
    if ids == [] then []
    else ComponentsOf(ids[..|ids| - 1], graph, idOf, netTypeOf) + ComponentEntities(graph[ids[|ids| - 1]].components, idOf, netTypeOf)
  }

  lemma ComponentEntitiesStep(cs: seq<ComponentView>, k: nat, idOf: Uuid -> U64, netTypeOf: (TypeId, Byte) -> U32)
    requires k < |cs|
    ensures ComponentEntities(cs[..k + 1], idOf, netTypeOf)
            == ComponentEntities(cs[..k], idOf, netTypeOf) + (if Counts(cs[k]) then [ComponentEntity(cs[k], idOf, netTypeOf)] else [])
  {
    assert cs[..k + 1][..k] == cs[..k];
  }

  /** Every component entity comes from a present, Replicated component. */
  lemma {:induction false} ComponentEntitiesSound(cs: seq<ComponentView>, idOf: Uuid -> U64, netTypeOf: (TypeId, Byte) -> U32)
    ensures forall e :: e in ComponentEntities(cs, idOf, netTypeOf) ==>
              exists k :: 0 <= k < |cs| && Counts(cs[k]) && e == ComponentEntity(cs[k], idOf, netTypeOf)
    ensures forall k :: 0 <= k < |cs| && Counts(cs[k]) ==> ComponentEntity(cs[k], idOf, netTypeOf) in ComponentEntities(cs, idOf, netTypeOf)
  {
    if cs != [] {
      var p := cs[..|cs| - 1];
      ComponentEntitiesSound(p, idOf, netTypeOf);
      forall e | e in ComponentEntities(p, idOf, netTypeOf)
        ensures exists k :: 0 <= k < |cs| && Counts(cs[k]) && e == ComponentEntity(cs[k], idOf, netTypeOf)
      {
        var k :| 0 <= k < |p| && Counts(p[k]) && e == ComponentEntity(p[k], idOf, netTypeOf);
        assert cs[k] == p[k];
      }
      forall k | 0 <= k < |cs| && Counts(cs[k])
        ensures ComponentEntity(cs[k], idOf, netTypeOf) in ComponentEntities(cs, idOf, netTypeOf)
      {
        if k < |p| {
          assert cs[k] == p[k];
        }
      }
    }
  }

  /** The entity ids in a list of entity states. */
  function IdSet(s: seq<EntityState>): (r: set<U64>)
  {
    if s == [] then {} else IdSet(s[..|s| - 1]) + {s[|s| - 1].entityId}
  }

  lemma IdSetSnoc(s: seq<EntityState>, e: EntityState)
    ensures IdSet(s + [e]) == IdSet(s) + {e.entityId}
  {
    assert (s + [e])[..|s|] == s;
  }

  lemma {:induction false} IdSetAppend(s: seq<EntityState>, t: seq<EntityState>)
    ensures IdSet(s + t) == IdSet(s) + IdSet(t)
    decreases |t|
  {
    if t == [] {
      assert s + t == s;
    } else {
      assert (s + t)[..|s + t| - 1] == s + t[..|t| - 1];
      assert (s + t)[|s + t| - 1] == t[|t| - 1];
      IdSetAppend(s, t[..|t| - 1]);
    }
  }

  lemma {:induction false} IdSetMembers(s: seq<EntityState>)
    ensures forall i :: 0 <= i < |s| ==> s[i].entityId in IdSet(s)
  {
    if s != [] {
      IdSetMembers(s[..|s| - 1]);
      assert forall i :: 0 <= i < |s| - 1 ==> s[i] == s[..|s| - 1][i];
    }
  }

  /**
   * What the node pass of GatherEntities keeps: `nodes` are the node
   * entities of the graph nodes `ids`, with distinct entity ids, and
   * `refs` maps exactly those ids to their nodes.
   */
  ghost predicate NodePhase(graph: map<Uuid, NodeView>, idOf: Uuid -> U64, netTypeOf: (TypeId, Byte) -> U32, nodes: seq<EntityState>,
                            ids: seq<Uuid>, added: set<U64>, refs: map<U64, EntityRef>)
  {
    |ids| == |nodes| && added == IdSet(nodes) && refs.Keys == added
    && (forall i :: 0 <= i < |nodes| ==>
          (ids[i] in graph && nodes[i] == NodeEntity(graph, ids[i], idOf, netTypeOf)
           && nodes[i].entityId in refs && refs[nodes[i].entityId] == EntityRef(NodeKind, graph[ids[i]].typeKey, ids[i])))
    && (forall i, j :: 0 <= i < j < |nodes| ==> nodes[i].entityId != nodes[j].entityId)
  }

  /** AddNodeEntity: a node whose entity id is already taken is skipped. */
  method AddNodeEntity(graph: map<Uuid, NodeView>, idOf: Uuid -> U64, netTypeOf: (TypeId, Byte) -> U32, id: Uuid,
                       nodes: seq<EntityState>, ghost ids: seq<Uuid>, added: set<U64>, refs: map<U64, EntityRef>)
    returns (nodes': seq<EntityState>, ghost ids': seq<Uuid>, added': set<U64>, refs': map<U64, EntityRef>)
    requires id in graph && NodePhase(graph, idOf, netTypeOf, nodes, ids, added, refs)
    ensures NodePhase(graph, idOf, netTypeOf, nodes', ids', added', refs')
    ensures added' == added + {idOf(id)}
  {
    var e := NodeEntity(graph, id, idOf, netTypeOf);
    if e.entityId in added {
      return nodes, ids, added, refs;
    }
    IdSetMembers(nodes);
    nodes', ids', added' := nodes + [e], ids + [id], added + {e.entityId};
    refs' := refs[e.entityId := EntityRef(NodeKind, graph[id].typeKey, id)];
    assert nodes'[..|nodes|] == nodes;
  }

  /** AddNodeWithParents: the node, then each ancestor while the parent borrows a live node. */
  method AddNodeWithParents(graph: map<Uuid, NodeView>, ghost rank: map<Uuid, nat>, idOf: Uuid -> U64, netTypeOf: (TypeId, Byte) -> U32, start: Uuid,
                            nodes: seq<EntityState>, ghost ids: seq<Uuid>, added: set<U64>, refs: map<U64, EntityRef>)
    returns (nodes': seq<EntityState>, ghost ids': seq<Uuid>, added': set<U64>, refs': map<U64, EntityRef>)
    requires ParentsRanked(graph, rank) && start in graph && NodePhase(graph, idOf, netTypeOf, nodes, ids, added, refs)
    ensures NodePhase(graph, idOf, netTypeOf, nodes', ids', added', refs')
    ensures added' == added + LineageIds(graph, rank, idOf, start)
  {
    nodes', ids', added', refs' := nodes, ids, added, refs;
    var cur := start;
    ghost var walked: set<U64> := {};
    while true
      invariant cur in graph && LineageIds(graph, rank, idOf, start) == walked + LineageIds(graph, rank, idOf, cur)
      invariant NodePhase(graph, idOf, netTypeOf, nodes', ids', added', refs')
      invariant added' == added + walked
      decreases rank[cur]
    {
      nodes', ids', added', refs' := AddNodeEntity(graph, idOf, netTypeOf, cur, nodes', ids', added', refs');
      walked := walked + {idOf(cur)};
      if !HasParent(graph, cur) {
        return;
      }
      cur := graph[cur].parent;
    }
  }

  /** The loop over a node's component types that looks for a replicated one. */
  method HasReplicatedComponent(cs: seq<ComponentView>) returns (found: bool)
    ensures found <==> exists k :: 0 <= k < |cs| && Counts(cs[k])
  {
    var k := 0;
    while k < |cs|
      invariant 0 <= k <= |cs|
      invariant forall j :: 0 <= j < k ==> !Counts(cs[j])
    {
      if cs[k].present && cs[k].replicated {
        return true;
      }
      k := k + 1;
    }
    return false;
  }

  /** The node pass of GatherEntities, over the pool in order. */
  method GatherNodes(order: seq<Uuid>, graph: map<Uuid, NodeView>, ghost rank: map<Uuid, nat>, idOf: Uuid -> U64, netTypeOf: (TypeId, Byte) -> U32)
    returns (nodes: seq<EntityState>, ghost ids: seq<Uuid>, replicatedNodes: seq<Uuid>, added: set<U64>, refs: map<U64, EntityRef>)
    requires forall i :: 0 <= i < |order| ==> order[i] in graph
    requires ParentsRanked(graph, rank)
    ensures NodePhase(graph, idOf, netTypeOf, nodes, ids, added, refs)
    ensures replicatedNodes == Qualified(order, graph)
    ensures GatheredLineage(order, graph, rank, idOf) == added
  {
    nodes, ids, replicatedNodes, added, refs := [], [], [], {}, map[];
    var i := 0;
    while i < |order|
      invariant 0 <= i <= |order|
      invariant NodePhase(graph, idOf, netTypeOf, nodes, ids, added, refs)
      invariant replicatedNodes == Qualified(order[..i], graph)
      invariant GatheredLineage(order[..i], graph, rank, idOf) == added
    {
      GatherStep(order, i, graph, rank, idOf);
      nodes, ids, replicatedNodes, added, refs := GatherNode(graph, rank, idOf, netTypeOf, order[i], nodes, ids, replicatedNodes, added, refs);
      i := i + 1;
    }
    assert order[..|order|] == order;
  }

  /** One step of the node pass: a qualifying node is added with its parents and listed as replicated. */
  method GatherNode(graph: map<Uuid, NodeView>, ghost rank: map<Uuid, nat>, idOf: Uuid -> U64, netTypeOf: (TypeId, Byte) -> U32, id: Uuid,
                    nodes: seq<EntityState>, ghost ids: seq<Uuid>, replicatedNodes: seq<Uuid>, added: set<U64>, refs: map<U64, EntityRef>)
    returns (nodes': seq<EntityState>, ghost ids': seq<Uuid>, replicatedNodes': seq<Uuid>, added': set<U64>, refs': map<U64, EntityRef>)
    requires ParentsRanked(graph, rank) && id in graph && NodePhase(graph, idOf, netTypeOf, nodes, ids, added, refs)
    ensures NodePhase(graph, idOf, netTypeOf, nodes', ids', added', refs')
    ensures replicatedNodes' == replicatedNodes + (if Qualifies(graph[id]) then [id] else [])
    ensures added' == added + (if Qualifies(graph[id]) then LineageIds(graph, rank, idOf, id) else {})
  {
    var n := graph[id];
    var anyComponent := HasReplicatedComponent(n.components);
    assert Qualifies(n) <==> n.replicated || anyComponent;
    if n.replicated || anyComponent {
      nodes', ids', added', refs' := AddNodeWithParents(graph, rank, idOf, netTypeOf, id, nodes, ids, added, refs);
      replicatedNodes' := replicatedNodes + [id];
    } else {
      nodes', ids', replicatedNodes', added', refs' := nodes, ids, replicatedNodes, added, refs;
    }
  }

  /** One more node of the pool order extends the qualified nodes and their lineage by that node's, when it qualifies. */
  lemma GatherStep(order: seq<Uuid>, i: nat, graph: map<Uuid, NodeView>, rank: map<Uuid, nat>, idOf: Uuid -> U64)
    requires i < |order| && (forall k :: 0 <= k < |order| ==> order[k] in graph) && ParentsRanked(graph, rank)
    ensures Qualified(order[..i + 1], graph) ==
      Qualified(order[..i], graph) + (if Qualifies(graph[order[i]]) then [order[i]] else [])
    ensures GatheredLineage(order[..i + 1], graph, rank, idOf) ==
      GatheredLineage(order[..i], graph, rank, idOf) + (if Qualifies(graph[order[i]]) then LineageIds(graph, rank, idOf, order[i]) else {})
  {
    assert order[..i + 1][..i] == order[..i];
  }

  /** The component pass of GatherEntities; emplace keeps the entry already there. */
  method GatherComponents(graph: map<Uuid, NodeView>, idOf: Uuid -> U64, netTypeOf: (TypeId, Byte) -> U32, replicatedNodes: seq<Uuid>,
                          refs: map<U64, EntityRef>)
    returns (comps: seq<EntityState>, refs': map<U64, EntityRef>)
    requires forall i :: 0 <= i < |replicatedNodes| ==> replicatedNodes[i] in graph
    ensures comps == ComponentsOf(replicatedNodes, graph, idOf, netTypeOf)
    ensures refs'.Keys == refs.Keys + IdSet(comps)
    ensures forall x :: x in refs ==> refs'[x] == refs[x]
  {
    comps, refs' := [], refs;
    var j := 0;
    while j < |replicatedNodes|
      invariant 0 <= j <= |replicatedNodes|
      invariant comps == ComponentsOf(replicatedNodes[..j], graph, idOf, netTypeOf)
      invariant refs'.Keys == refs.Keys + IdSet(comps)
      invariant forall x :: x in refs ==> refs'[x] == refs[x]
    {
      assert replicatedNodes[..j + 1][..j] == replicatedNodes[..j];
      var more;
      more, refs' := AddComponentEntities(graph[replicatedNodes[j]].components, idOf, netTypeOf, refs');
      IdSetAppend(comps, more);
      comps := comps + more;
      j := j + 1;
    }
    assert replicatedNodes[..|replicatedNodes|] == replicatedNodes;
  }

  /** `emplace`: the key is added with the value unless it is already there. */
  function Emplace(m: map<U64, EntityRef>, k: U64, v: EntityRef): (r: map<U64, EntityRef>)
    ensures r.Keys == m.Keys + {k}
    ensures forall x :: x in m ==> r[x] == m[x]
    ensures k !in m ==> r[k] == v
  {
    if k in m then m else m[k := v]
  }

  /** One node's component types: each replicated component is appended, and its entity id emplaced. */
  method AddComponentEntities(cs: seq<ComponentView>, idOf: Uuid -> U64, netTypeOf: (TypeId, Byte) -> U32, refs: map<U64, EntityRef>)
    returns (more: seq<EntityState>, refs': map<U64, EntityRef>)
    ensures more == ComponentEntities(cs, idOf, netTypeOf)
    ensures refs'.Keys == refs.Keys + IdSet(more)
    ensures forall x :: x in refs ==> refs'[x] == refs[x]
  {
    more, refs' := [], refs;
    var k := 0;
    while k < |cs|
      invariant 0 <= k <= |cs|
      invariant more == ComponentEntities(cs[..k], idOf, netTypeOf)
      invariant refs'.Keys == refs.Keys + IdSet(more)
      invariant forall x :: x in refs ==> refs'[x] == refs[x]
    {
      ComponentEntitiesStep(cs, k, idOf, netTypeOf);
      var c := cs[k];
      if c.present && c.replicated {
        var e := ComponentEntity(c, idOf, netTypeOf);
        IdSetSnoc(more, e);
        more := more + [e];
        refs' := Emplace(refs', e.entityId, EntityRef(ComponentKind, c.typeId, c.id));
      }
      k := k + 1;
    }
    assert cs[..|cs|] == cs;
  }

  /** The client's view of the world, by id. */
  class ReplicaWorld {
    var nodeTypes: map<Uuid, TypeId>
    var parentOf: map<Uuid, Uuid>
    var components: set<Uuid>

    constructor ()
      ensures nodeTypes == map[] && parentOf == map[] && components == {}
    {
      nodeTypes, parentOf, components := map[], map[], {};
    }
  }

  /** NetReplicationBridge's state: whether a graph is bound, and its four tables. */
  class NetReplicationBridge {
    var hasGraph: bool
    var entityInfo: map<U64, EntityInfo>
    var pendingParents: map<Uuid, Uuid>
    var pendingComponents: seq<PendingComponent>
    var entityRefs: map<U64, EntityRef>
    const world: ReplicaWorld

    constructor (world: ReplicaWorld, hasGraph: bool)
      ensures this.world == world && this.hasGraph == hasGraph
      ensures entityInfo == map[] && pendingParents == map[] && pendingComponents == [] && entityRefs == map[]
    {
      this.world := world;
      this.hasGraph := hasGraph;
      entityInfo, pendingParents, pendingComponents, entityRefs := map[], map[], [], map[];
    }

    /** The outcome of a node payload with header `h` and field bytes `fields`. */
    twostate predicate NodeApplied(entity: U64, h: Header, fields: seq<Byte>, createNode: bool, fieldsApply: bool,
                                   creates: PendingComponent -> bool, applies: PendingComponent -> bool, ok: bool)
      reads this, world
    {
      if h.objectId !in old(world.nodeTypes) && !createNode then
        !ok && Unchanged()
      else
        var types := NodeTypesAfter(old(world.nodeTypes), h);
        var parents := ParentsAfter(old(world.parentOf), types.Keys, h);
        var pending := PendingParentsAfter(old(pendingParents), types.Keys, h);
        world.nodeTypes == types
        && (ok <==> |fields| == 0 || fieldsApply)
        && (!ok ==> world.parentOf == parents && pendingParents == pending && entityInfo == old(entityInfo)
                    && pendingComponents == old(pendingComponents) && world.components == old(world.components))
        && (ok ==> entityInfo == old(entityInfo)[entity := EntityInfo(NodeKind, h.objectId, h.objectType)]
                   && world.parentOf == parents + ResolvedLinks(pending, types.Keys)
                   && pendingParents == StillPending(pending, types.Keys)
                   && pendingComponents == KeptComponents(old(pendingComponents), types.Keys, creates, applies)
                   && world.components == old(world.components) + CreatedComponents(old(pendingComponents), types.Keys, creates))
    }

    /** The outcome of a component payload with header `h` and field bytes `fields`. */
    twostate predicate ComponentApplied(entity: U64, h: Header, fields: seq<Byte>, createComponent: bool, fieldsApply: bool, ok: bool)
      reads this, world
    {
      world.nodeTypes == old(world.nodeTypes) && world.parentOf == old(world.parentOf) && pendingParents == old(pendingParents)
      && if h.objectId !in old(world.components) && h.ownerId !in old(world.nodeTypes) then
           ok && pendingComponents == old(pendingComponents) + [PendingComponent(h.objectId, h.ownerId, h.objectType, fields)]
           && entityInfo == old(entityInfo) && world.components == old(world.components)
         else if h.objectId !in old(world.components) && !createComponent then
           !ok && entityInfo == old(entityInfo) && pendingComponents == old(pendingComponents) && world.components == old(world.components)
         else
           world.components == old(world.components) + {h.objectId} && pendingComponents == old(pendingComponents)
           && (ok <==> |fields| == 0 || fieldsApply)
           && entityInfo == if ok then old(entityInfo)[entity := EntityInfo(ComponentKind, h.objectId, h.objectType)] else old(entityInfo)
    }

    twostate predicate Unchanged()
      reads this, world
    {
      entityInfo == old(entityInfo) && pendingParents == old(pendingParents) && pendingComponents == old(pendingComponents)
      && world.nodeTypes == old(world.nodeTypes) && world.parentOf == old(world.parentOf) && world.components == old(world.components)
    }

    /**
     * ApplyPayload: refused without a graph, for a header that does not
     * decode and for an unknown kind. A node payload finds or creates the
     * node, sets its type and parent (or queues the parent), applies the
     * fields, records the entity and then retries both queues. A component
     * payload whose owner is missing is queued; otherwise the component is
     * found or created and its fields applied.
     *
     * `createNode` and `createComponent` are the factories' verdicts,
     * `fieldsApply` the field codec's on the bytes after the header, and
     * `creates`/`applies` the same verdicts for queued components.
     */
    method ApplyPayload(entity: U64, payload: seq<Byte>, createNode: bool, createComponent: bool, fieldsApply: bool,
                        creates: PendingComponent -> bool, applies: PendingComponent -> bool) returns (ok: bool)
      modifies this`entityInfo, this`pendingParents, this`pendingComponents, world`nodeTypes, world`parentOf, world`components
      ensures !hasGraph || |payload| < 49 || payload[0] > ComponentKind ==> !ok && Unchanged()
      ensures hasGraph && |payload| >= 49 && payload[0] == NodeKind ==>
                NodeApplied(entity, DecodeHeader(payload, 0).value.value, payload[49..], createNode, fieldsApply, creates, applies, ok)
      ensures hasGraph && |payload| >= 49 && payload[0] == ComponentKind ==>
                ComponentApplied(entity, DecodeHeader(payload, 0).value.value, payload[49..], createComponent, fieldsApply, ok)
    {
      if !hasGraph {
        return false;
      }
      var decoded := DecodeHeader(payload, 0);
      if decoded.None? {
        return false;
      }
      var h := decoded.value.value;
      var fields := payload[decoded.value.next..];
      if h.kind == NodeKind {
        ok := ApplyNode(entity, h, fields, createNode, fieldsApply, creates, applies);
      } else if h.kind == ComponentKind {
        ok := ApplyComponent(entity, h, fields, createComponent, fieldsApply);
      } else {
        ok := false;
      }
    }

    /** The node branch of ApplyPayload. */
    method ApplyNode(entity: U64, h: Header, fields: seq<Byte>, createNode: bool, fieldsApply: bool,
                     creates: PendingComponent -> bool, applies: PendingComponent -> bool) returns (ok: bool)
      requires hasGraph
      modifies this`entityInfo, this`pendingParents, this`pendingComponents, world`nodeTypes, world`parentOf, world`components
      ensures NodeApplied(entity, h, fields, createNode, fieldsApply, creates, applies, ok)
    {
      var present := ApplyNodeHeader(h, createNode);
      if !present {
        return false;
      }
      if |fields| > 0 && !fieldsApply {
        return false;
      }
      ghost var types := world.nodeTypes;
      ghost var pending := pendingParents;
      entityInfo := entityInfo[entity := EntityInfo(NodeKind, h.objectId, h.objectType)];
      ResolvePendingAttachments();
      assert pendingParents == StillPending(pending, types.Keys);
      ResolvePendingComponents(creates, applies);
      return true;
    }

    /** Finding or creating the node, then its type key and its parent link (or the queued link). */
    method ApplyNodeHeader(h: Header, createNode: bool) returns (present: bool)
      modifies this`pendingParents, world`nodeTypes, world`parentOf
      ensures present <==> h.objectId in old(world.nodeTypes) || createNode
      ensures !present ==> world.nodeTypes == old(world.nodeTypes) && world.parentOf == old(world.parentOf)
                           && pendingParents == old(pendingParents)
      ensures present ==> world.nodeTypes == NodeTypesAfter(old(world.nodeTypes), h)
                          && world.parentOf == ParentsAfter(old(world.parentOf), world.nodeTypes.Keys, h)
                          && pendingParents == PendingParentsAfter(old(pendingParents), world.nodeTypes.Keys, h)
    {
      var types := world.nodeTypes;
      if h.objectId !in types {
        if !createNode {
          return false;
        }
        types := types[h.objectId := h.objectType];
      }
      if !IsNil(h.objectType) && types[h.objectId] != h.objectType {
        types := types[h.objectId := h.objectType];
      }
      var parents := world.parentOf;
      var pending := pendingParents;
      if !IsNil(h.ownerId) {
        if h.ownerId in types {
          if h.objectId !in parents || parents[h.objectId] != h.ownerId {
            parents := parents[h.objectId := h.ownerId];
          }
        } else {
          pending := pending[h.objectId := h.ownerId];
        }
      } else if h.objectId in parents {
        parents := parents - {h.objectId};
      }
      world.nodeTypes, world.parentOf, pendingParents := types, parents, pending;
      return true;
    }

    /** The component branch of ApplyPayload. */
    method ApplyComponent(entity: U64, h: Header, fields: seq<Byte>, createComponent: bool, fieldsApply: bool) returns (ok: bool)
      modifies this`entityInfo, this`pendingComponents, world`components
      ensures ComponentApplied(entity, h, fields, createComponent, fieldsApply, ok)
    {
      if h.objectId !in world.components {
        if h.ownerId !in world.nodeTypes {
          pendingComponents := pendingComponents + [PendingComponent(h.objectId, h.ownerId, h.objectType, fields)];
          return true;
        }
        if !createComponent {
          return false;
        }
        world.components := world.components + {h.objectId};
      }
      if |fields| > 0 && !fieldsApply {
        return false;
      }
      entityInfo := entityInfo[entity := EntityInfo(ComponentKind, h.objectId, h.objectType)];
      return true;
    }

    /**
     * GatherEntities: the node pass walks the pool in order and adds every
     * node that is Replicated or has a replicated component, together with
     * its ancestors, each entity id at most once; the component pass then
     * adds each replicated component of those nodes. m_entityRefs is
     * rebuilt, the first entry for an entity id winning. The first
     * `nodeCount` entities are nodes (graph nodes `nodeIds`), the rest
     * components.
     */
    method GatherEntities(order: seq<Uuid>, graph: map<Uuid, NodeView>, ghost rank: map<Uuid, nat>, netTypeOf: (TypeId, Byte) -> U32)
      returns (entities: seq<EntityState>, ghost nodeCount: nat, ghost nodeIds: seq<Uuid>)
      requires forall i :: 0 <= i < |order| ==> order[i] in graph
      requires ParentsRanked(graph, rank)
      modifies this`entityRefs
      ensures !hasGraph ==> entities == [] && entityRefs == map[]
      ensures nodeCount <= |entities| && |nodeIds| == nodeCount
      ensures forall i, j :: 0 <= i < j < nodeCount ==> entities[i].entityId != entities[j].entityId
      ensures forall i :: 0 <= i < nodeCount ==>
                (nodeIds[i] in graph && entities[i] == NodeEntity(graph, nodeIds[i], MakeEntityId, netTypeOf)
                 && entities[i].entityId in entityRefs
                 && entityRefs[entities[i].entityId] == EntityRef(NodeKind, graph[nodeIds[i]].typeKey, nodeIds[i]))
      ensures hasGraph ==> IdSet(entities[..nodeCount]) == GatheredLineage(order, graph, rank, MakeEntityId)
      ensures hasGraph ==> entities[nodeCount..] == ComponentsOf(Qualified(order, graph), graph, MakeEntityId, netTypeOf)
      ensures entityRefs.Keys == IdSet(entities)
    {
      if !hasGraph {
        entityRefs := map[];
        return [], 0, [];
      }
      var nodes, replicatedNodes, added, refs;
      nodes, nodeIds, replicatedNodes, added, refs := GatherNodes(order, graph, rank, MakeEntityId, netTypeOf);
      var comps, refs' := GatherComponents(graph, MakeEntityId, netTypeOf, replicatedNodes, refs);
      entityRefs := refs';
      entities, nodeCount := nodes + comps, |nodes|;
      assert entities[..nodeCount] == nodes && entities[nodeCount..] == comps;
      IdSetAppend(nodes, comps);
    }

    /**
     * ResolvePendingAttachments: every queued link whose child and parent
     * both resolve is applied (the child is detached from any other parent
     * and attached) and erased; the rest stay queued.
     */
    method ResolvePendingAttachments()
      modifies this`pendingParents, world`parentOf
      ensures !hasGraph ==> pendingParents == old(pendingParents) && world.parentOf == old(world.parentOf)
      ensures hasGraph ==> pendingParents == StillPending(old(pendingParents), world.nodeTypes.Keys)
      ensures hasGraph ==> world.parentOf == old(world.parentOf) + ResolvedLinks(old(pendingParents), world.nodeTypes.Keys)
    {
      if !hasGraph || pendingParents == map[] {
        return;
      }
      var parents, pending := ApplyResolvableLinks(pendingParents, world.parentOf, world.nodeTypes.Keys);
      world.parentOf := parents;
      pendingParents := pending;
    }

    /**
     * ResolvePendingComponents: each queued component whose owner resolves
     * is created; it leaves the queue when creation and the field apply
     * succeed, and stays otherwise. A created component resolves from then
     * on, even when its fields failed to apply.
     */
    method ResolvePendingComponents(creates: PendingComponent -> bool, applies: PendingComponent -> bool)
      modifies this`pendingComponents, world`components
      ensures !hasGraph ==> pendingComponents == old(pendingComponents) && world.components == old(world.components)
      ensures hasGraph ==> pendingComponents == KeptComponents(old(pendingComponents), world.nodeTypes.Keys, creates, applies)
      ensures hasGraph ==> world.components == old(world.components) + CreatedComponents(old(pendingComponents), world.nodeTypes.Keys, creates)
    {
      if !hasGraph || pendingComponents == [] {
        return;
      }
      var nodes := world.nodeTypes.Keys;
      var q := pendingComponents;
      var kept: seq<PendingComponent> := [];
      var i := 0;
      ghost var c0 := world.components;
      while i < |q|
        invariant 0 <= i <= |q|
        invariant kept == KeptComponents(q[..i], nodes, creates, applies)
        invariant world.components == c0 + CreatedComponents(q[..i], nodes, creates)
      {
        var p := q[i];
        assert q[..i + 1] == q[..i] + [p];
        if p.ownerId in nodes && creates(p) {
          world.components := world.components + {p.componentId};
        }
        if !ComponentSettles(p, nodes, creates, applies) {
          kept := kept + [p];
        }
        i := i + 1;
      }
      assert q[..|q|] == q;
      pendingComponents := kept;
    }
  }
}
