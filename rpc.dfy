/**
 * RPC lookup and routing shared by BaseNode (src/BaseNode.cpp) and
 * BaseComponent (src/BaseComponent.cpp): the reflected type table, the
 * own-methods-then-bases search for an RPC method whose parameter types
 * match the arguments exactly, and the decision CallRPC takes from the
 * method's flags and the world's networking role.
 */
module Rpc {
  import opened Common

  /** The method flag bits RPC code reads (EMethodFlagBits). */
  datatype MethodFlags = MethodFlags(server: bool, client: bool, multicast: bool, reliable: bool, unreliable: bool)

  /** MethodInfo: name, flags and parameter types. */
  datatype MethodInfo = MethodInfo(name: string, flags: MethodFlags, paramTypes: seq<TypeId>)

  /**
   * TypeInfo: the reflected methods, the base types in declaration order
   * and the parameter types of each registered constructor.
   */
  datatype TypeInfo = TypeInfo(methods: seq<MethodInfo>, bases: seq<TypeId>, constructors: seq<seq<TypeId>>)

  /** TypeRegistry::Find as a table. */
  type TypeTable = map<TypeId, TypeInfo>

  /** IsRpcMethod: the method carries one of the three network flags. */
  predicate IsRpcFlags(f: MethodFlags) {
    f.server || f.client || f.multicast
  }

  /**
   * A method `FindRpcMethod` accepts: same name, an RPC flag, and one
   * parameter per argument with exactly the argument's type (the
   * element-wise comparison of the source is sequence equality).
   */
  predicate Accepts(m: MethodInfo, name: string, args: seq<TypeId>) {
    m.name == name && IsRpcFlags(m.flags) && m.paramTypes == args
  }

  /**
   * Every registered base of a registered type has a smaller rank: the
   * inheritance graph is acyclic, which the source's unbounded recursion
   * relies on.
   */
  ghost predicate BasesRanked(table: TypeTable, rank: map<TypeId, nat>) {
    forall t :: t in table ==> t in rank && forall k :: 0 <= k < |table[t].bases| && table[t].bases[k] in table ==>
      table[t].bases[k] in rank && rank[table[t].bases[k]] < rank[t]
  }

  function RankOf(rank: map<TypeId, nat>, t: TypeId): nat {
    if t in rank then rank[t] else 0
  }

  /** The first own method at or after `i` that accepts the call. */
  function FirstOwn(methods: seq<MethodInfo>, name: string, args: seq<TypeId>, i: nat): (r: Option<nat>)
    requires i <= |methods|
    ensures r.Some? ==> i <= r.value < |methods| && Accepts(methods[r.value], name, args)
    ensures r.Some? ==> forall k :: i <= k < r.value ==> !Accepts(methods[k], name, args)
    ensures r.None? ==> forall k :: i <= k < |methods| ==> !Accepts(methods[k], name, args)
    decreases |methods| - i
  {
    if i == |methods| then None
    else if Accepts(methods[i], name, args) then Some(i)
    else FirstOwn(methods, name, args, i + 1)
  }

  /**
   * FindRpcMethod: nothing for an unregistered type; the first own method
   * that accepts the call, reported with this type as its declarer;
   * otherwise the first base, in declaration order, whose own search
   * succeeds.
   */
  function FindRpcMethod(table: TypeTable, ghost rank: map<TypeId, nat>, t: TypeId, name: string, args: seq<TypeId>)
    : (r: Option<(TypeId, MethodInfo)>)
    requires BasesRanked(table, rank)
    ensures r.Some? ==> r.value.0 in table && r.value.1 in table[r.value.0].methods && Accepts(r.value.1, name, args)
    decreases RankOf(rank, t), 1, 0
  {
    if t !in table then None
    else
      match FirstOwn(table[t].methods, name, args, 0)
      case Some(k) => Some((t, table[t].methods[k]))
      case None => FindInBases(table, rank, t, name, args, 0)
  }

  /** The base-type loop of FindRpcMethod, from base `i` of `t` on. */
  function FindInBases(table: TypeTable, ghost rank: map<TypeId, nat>, t: TypeId, name: string, args: seq<TypeId>, i: nat)
    : (r: Option<(TypeId, MethodInfo)>)
    requires BasesRanked(table, rank) && t in table && i <= |table[t].bases|
    ensures r.Some? ==> r.value.0 in table && r.value.1 in table[r.value.0].methods && Accepts(r.value.1, name, args)
    decreases RankOf(rank, t), 0, |table[t].bases| - i
  {
    if i == |table[t].bases| then None
    else
      var b := table[t].bases[i];
      var found := if b in table then FindRpcMethod(table, rank, b, name, args) else None;
      if found.Some? then found else FindInBases(table, rank, t, name, args, i + 1)
  }

  /** A type's own accepting method wins over anything its bases declare, and the first such method is taken. */
  lemma OwnMethodsFirst(table: TypeTable, rank: map<TypeId, nat>, t: TypeId, name: string, args: seq<TypeId>, k: nat)
    requires BasesRanked(table, rank) && t in table
    requires k < |table[t].methods| && Accepts(table[t].methods[k], name, args)
    requires forall j :: 0 <= j < k ==> !Accepts(table[t].methods[j], name, args)
    ensures FindRpcMethod(table, rank, t, name, args) == Some((t, table[t].methods[k]))
  {
    var f := FirstOwn(table[t].methods, name, args, 0);
    assert f.Some? && f.value == k;
  }

  /** With no own match, the result is that of the first base whose search succeeds, in declaration order. */
  lemma {:induction false} BasesInOrder(table: TypeTable, rank: map<TypeId, nat>, t: TypeId, name: string, args: seq<TypeId>, i: nat)
    requires BasesRanked(table, rank) && t in table && i < |table[t].bases|
    requires forall j :: 0 <= j < |table[t].methods| ==> !Accepts(table[t].methods[j], name, args)
    requires forall j :: 0 <= j < i ==> FindRpcMethod(table, rank, table[t].bases[j], name, args).None?
    requires FindRpcMethod(table, rank, table[t].bases[i], name, args).Some?
    ensures FindRpcMethod(table, rank, t, name, args) == FindRpcMethod(table, rank, table[t].bases[i], name, args)
  {
    assert FirstOwn(table[t].methods, name, args, 0).None?;
    SkipFailingBases(table, rank, t, name, args, 0, i);
  }

  lemma {:induction false} SkipFailingBases(table: TypeTable, rank: map<TypeId, nat>, t: TypeId, name: string, args: seq<TypeId>, j: nat, i: nat)
    requires BasesRanked(table, rank) && t in table && j <= i < |table[t].bases|
    requires forall m :: j <= m < i ==> FindRpcMethod(table, rank, table[t].bases[m], name, args).None?
    ensures FindInBases(table, rank, t, name, args, j) == FindInBases(table, rank, t, name, args, i)
    decreases i - j
  {
    if j < i {
      SkipFailingBases(table, rank, t, name, args, j + 1, i);
    }
  }

  /** An unregistered type has no RPC method. */
  lemma UnregisteredHasNoRpc(table: TypeTable, rank: map<TypeId, nat>, t: TypeId, name: string, args: seq<TypeId>)
    requires BasesRanked(table, rank) && t !in table
    ensures FindRpcMethod(table, rank, t, name, args).None?
  {
  }

  /**
   * What the network layer looks like from a node or component: no world,
   * or a world's NetworkSystem with its role flags, whether a session, an
   * RPC service and an RPC bridge exist, and its primary connection.
   */
  datatype Networking =
    | NoWorld
    | Net(isServer: bool, isClient: bool, isListenServer: bool,
          session: bool, rpcService: bool, bridge: bool, primary: Option<nat>)

  /** IsServer: true without a world. */
  predicate IsServer(n: Networking) {
    n.NoWorld? || n.isServer
  }

  /** IsClient: false without a world. */
  predicate IsClient(n: Networking) {
    n.Net? && n.isClient
  }

  /** IsListenServer: false without a world. */
  predicate IsListenServer(n: Networking) {
    n.Net? && n.isListenServer
  }

  /** The networking world can carry an RPC: a session, an RPC service and a bridge exist. */
  predicate CanForward(n: Networking) {
    n.Net? && n.session && n.rpcService && n.bridge
  }

  /** Without a world, a node or component answers as a server that is neither client nor listen-server. */
  lemma NoWorldRoles()
    ensures IsServer(NoWorld) && !IsClient(NoWorld) && !IsListenServer(NoWorld)
  {
  }

  /** Where CallRPC sends a call: nowhere (false), the local method, or the bridge on a connection. */
  datatype Route = Refuse | Local | Forward(connection: nat)

  /**
   * The routing table of CallRPC, checked in the order Server, Client,
   * Multicast.
   */
  function RouteFor(f: MethodFlags, n: Networking): (r: Route)
  {
    if f.server then
      if IsServer(n) then Local
      else if !CanForward(n) || n.primary.None? then Refuse
      else Forward(n.primary.value)
    else if f.client then
      if IsServer(n) then
        if CanForward(n) && n.primary.Some? then Forward(n.primary.value)
        else if CanForward(n) && !IsListenServer(n) then Refuse
        else Local
      else if IsClient(n) then Local
      else Refuse
    else if f.multicast then
      if IsServer(n) then
        if CanForward(n) then Forward(0) else Local
      else if IsClient(n) then Local
      else Refuse
    else Refuse
  }

  /** Server-flagged: a server runs it; a client forwards only with session, service, bridge and primary connection. */
  lemma ServerMethodRouting(f: MethodFlags, n: Networking)
    requires f.server
    ensures RouteFor(f, n) == Local <==> IsServer(n)
    ensures RouteFor(f, n).Forward? <==> !IsServer(n) && CanForward(n) && n.primary.Some?
    ensures RouteFor(f, n).Forward? ==> RouteFor(f, n).connection == n.primary.value
  {
  }

  /**
   * Client-flagged (and not Server): a client runs it; a server with a
   * session forwards to its primary connection; with a session but no
   * connection only a listen-server runs it; without a session a server
   * runs it.
   */
  lemma ClientMethodRouting(f: MethodFlags, n: Networking)
    requires !f.server && f.client
    ensures !IsServer(n) ==> (RouteFor(f, n) == Local <==> IsClient(n))
    ensures IsServer(n) && CanForward(n) && n.primary.Some? ==> RouteFor(f, n) == Forward(n.primary.value)
    ensures IsServer(n) && CanForward(n) && n.primary.None? ==> RouteFor(f, n) == (if IsListenServer(n) then Local else Refuse)
    ensures IsServer(n) && !CanForward(n) ==> RouteFor(f, n) == Local
  {
  }

  /** Multicast-flagged (only): a server with a session forwards on connection 0, otherwise runs it; a client runs it. */
  lemma MulticastMethodRouting(f: MethodFlags, n: Networking)
    requires !f.server && !f.client && f.multicast
    ensures IsServer(n) ==> RouteFor(f, n) == (if CanForward(n) then Forward(0) else Local)
    ensures !IsServer(n) ==> RouteFor(f, n) == (if IsClient(n) then Local else Refuse)
  {
  }

  /**
   * CallRPC of a node (target kind 0) or a component (target kind 1):
   * false without an accepting method; otherwise the outcome of the route,
   * where `invokeOk` is whether the local invocation succeeded and
   * `bridgeCall` what the bridge returned for the call on a connection
   * with the caller's target kind.
   */
  function CallRpc(table: TypeTable, ghost rank: map<TypeId, nat>, typeKey: TypeId, name: string, args: seq<TypeId>,
                   n: Networking, target: Byte, invokeOk: bool, bridgeCall: (nat, Byte) -> nat): (ok: bool)
    requires BasesRanked(table, rank)
  {
    match FindRpcMethod(table, rank, typeKey, name, args)
    case None => false
    case Some((_, m)) =>
      match RouteFor(m.flags, n)
      case Refuse => false
      case Local => invokeOk
      case Forward(c) => bridgeCall(c, target) != 0
  }

  /** CallRPC is false when no method accepts the call, and otherwise follows the method's route. */
  lemma CallRpcOutcome(table: TypeTable, rank: map<TypeId, nat>, typeKey: TypeId, name: string, args: seq<TypeId>,
                       n: Networking, target: Byte, invokeOk: bool, bridgeCall: (nat, Byte) -> nat)
    requires BasesRanked(table, rank)
    ensures FindRpcMethod(table, rank, typeKey, name, args).None? ==> !CallRpc(table, rank, typeKey, name, args, n, target, invokeOk, bridgeCall)
    ensures FindRpcMethod(table, rank, typeKey, name, args).Some? &&
            RouteFor(FindRpcMethod(table, rank, typeKey, name, args).value.1.flags, n) == Refuse
            ==> !CallRpc(table, rank, typeKey, name, args, n, target, invokeOk, bridgeCall)
    ensures FindRpcMethod(table, rank, typeKey, name, args).Some? &&
            RouteFor(FindRpcMethod(table, rank, typeKey, name, args).value.1.flags, n) == Local
            ==> CallRpc(table, rank, typeKey, name, args, n, target, invokeOk, bridgeCall) == invokeOk
    ensures FindRpcMethod(table, rank, typeKey, name, args).Some? &&
            RouteFor(FindRpcMethod(table, rank, typeKey, name, args).value.1.flags, n).Forward?
            ==> CallRpc(table, rank, typeKey, name, args, n, target, invokeOk, bridgeCall) ==
                (bridgeCall(RouteFor(FindRpcMethod(table, rank, typeKey, name, args).value.1.flags, n).connection, target) != 0)
  {
  }

  /** Node and component RPCs differ only in the target kind they hand the bridge (kRpcTargetNode, kRpcTargetComponent). */
  const NodeTargetKind: Byte := 0
  const ComponentTargetKind: Byte := 1
}
