/**
 * The reflection RPC bridge of src/NetRpc.cpp: the wire codec of requests
 * and responses, the direction and reliability chosen from method flags,
 * the argument checks of EncodeArgs, the lazy method-table registration
 * and the status a request handler reports.
 *
 * The value codec registry (cereal), the method-id hash and the invoked
 * method are outside: their outcomes are parameters.
 */
module NetRpc {
  import opened Common
  import opened Wire
  import opened Rpc
  import opened Variants

  /** A request: target kind (0 node, 1 component), target id and type, method id, argument bytes. */
  datatype Request = Request(targetKind: Byte, targetId: Uuid, targetType: TypeId, methodId: U32, payload: seq<Byte>)

  /** A response: the status byte and the return-value bytes. */
  datatype Response = Response(status: Byte, payload: seq<Byte>)

  /** ERpcReflectionStatus. */
  datatype Status = Success | TargetNotFound | MethodNotFound | DecodeFailed | EncodeFailed | InvokeFailed

  function StatusByte(s: Status): (b: Byte)
  {
    match s
    case Success => 0
    case TargetNotFound => 1
    case MethodNotFound => 2
    case DecodeFailed => 3
    case EncodeFailed => 4
    case InvokeFailed => 5
  }

  /** The six statuses have six distinct wire values. */
  lemma StatusByteInjective(s: Status, t: Status)
    ensures StatusByte(s) == StatusByte(t) ==> s == t
  {
  }

  /** EncodePayload: a u32 length, then the bytes; payloads longer than u32 max are refused. */
  function EncodePayload(payload: seq<Byte>): (r: Option<seq<Byte>>)
    ensures r.None? <==> |payload| > U32Max
  {
    if |payload| > U32Max then None else Some(U32Bytes(|payload|) + payload)
  }

  /** DecodePayload: read the u32 length, refuse it when fewer bytes remain, then read that many. */
  function DecodePayload(data: seq<Byte>, pos: nat): (r: Option<Read<seq<Byte>>>)
  {
    match ReadU32(data, pos)
    case None => None
    case Some(n) =>
      if |data| - n.next < n.value then None
      else if n.value == 0 then Some(Read([], n.next))
      else ReadBytes(data, n.next, n.value)
  }

  /** Decoding what EncodePayload wrote gives back exactly the bytes, wherever they sit in the stream. */
  lemma PayloadRoundTrip(pre: seq<Byte>, payload: seq<Byte>, rest: seq<Byte>)
    requires |payload| <= U32Max
    ensures EncodePayload(payload).Some?
    ensures DecodePayload(pre + EncodePayload(payload).value + rest, |pre|)
         == Some(Read(payload, |pre| + 4 + |payload|))
  {
    var data := pre + EncodePayload(payload).value + rest;
    assert data == pre + U32Bytes(|payload|) + (payload + rest);
    ReadU32Written(pre, |payload|, payload + rest);
    assert data == (pre + U32Bytes(|payload|)) + payload + rest;
    ReadBytesWritten(pre + U32Bytes(|payload|), payload, rest);
  }

  /** A declared length beyond the remaining bytes fails; length 0 gives an empty payload. */
  lemma DecodePayloadEdges(data: seq<Byte>, pos: nat)
    requires ReadU32(data, pos).Some?
    ensures ReadU32(data, pos).value.value > |data| - (pos + 4) ==> DecodePayload(data, pos).None?
    ensures ReadU32(data, pos).value.value == 0 ==> DecodePayload(data, pos) == Some(Read([], pos + 4))
    ensures DecodePayload(data, pos).Some? ==>
              |DecodePayload(data, pos).value.value| == ReadU32(data, pos).value.value
  {
  }

  /** NetRpcCodec::EncodeRequest: u8 kind, target id, target type, u32 method id, payload. */
  function EncodeRequest(r: Request): (out: Option<seq<Byte>>)
    ensures out.Some? <==> |r.payload| <= U32Max
    ensures out.Some? ==> |out.value| == 1 + 16 + 16 + 4 + 4 + |r.payload|
  {
    match EncodePayload(r.payload)
    case None => None
    case Some(p) => Some(RequestHead(r) + p)
  }

  /** NetRpcCodec::DecodeRequest: the same fields in the same order; any short read fails. */
  function DecodeRequest(data: seq<Byte>, pos: nat): (r: Option<Read<Request>>)
  {
    match ReadU8(data, pos)
    case None => None
    case Some(k) =>
      match ReadUuid(data, k.next)
      case None => None
      case Some(id) =>
        match ReadUuid(data, id.next)
        case None => None
        case Some(ty) =>
          match ReadU32(data, ty.next)
          case None => None
          case Some(m) =>
            match DecodePayload(data, m.next)
            case None => None
            case Some(p) => Some(Read(Request(k.value, id.value, ty.value, m.value, p.value), p.next))
  }

  /** The fixed fields of a request, as EncodeRequest lays them out. */
  function RequestHead(r: Request): (h: seq<Byte>)
    ensures |h| == 37
  {
    [r.targetKind] + UuidBytes(r.targetId) + UuidBytes(r.targetType) + U32Bytes(r.methodId)
  }

  /** Each fixed field reads back from where RequestHead put it. */
  lemma RequestHeadReads(pre: seq<Byte>, r: Request, tail: seq<Byte>)
    ensures ReadU8(pre + RequestHead(r) + tail, |pre|) == Some(Read(r.targetKind, |pre| + 1))
    ensures ReadUuid(pre + RequestHead(r) + tail, |pre| + 1) == Some(Read(r.targetId, |pre| + 17))
    ensures ReadUuid(pre + RequestHead(r) + tail, |pre| + 17) == Some(Read(r.targetType, |pre| + 33))
    ensures ReadU32(pre + RequestHead(r) + tail, |pre| + 33) == Some(Read(r.methodId, |pre| + 37))
  {
    var data := pre + RequestHead(r) + tail;
    var a := pre + [r.targetKind];
    var b := a + UuidBytes(r.targetId);
    var c := b + UuidBytes(r.targetType);
    assert data == pre + [r.targetKind] + (UuidBytes(r.targetId) + UuidBytes(r.targetType) + U32Bytes(r.methodId) + tail);
    ReadU8Written(pre, r.targetKind, UuidBytes(r.targetId) + UuidBytes(r.targetType) + U32Bytes(r.methodId) + tail);
    assert data == a + UuidBytes(r.targetId) + (UuidBytes(r.targetType) + U32Bytes(r.methodId) + tail);
    ReadUuidWritten(a, r.targetId, UuidBytes(r.targetType) + U32Bytes(r.methodId) + tail);
    assert data == b + UuidBytes(r.targetType) + (U32Bytes(r.methodId) + tail);
    ReadUuidWritten(b, r.targetType, U32Bytes(r.methodId) + tail);
    assert data == c + U32Bytes(r.methodId) + tail;
    ReadU32Written(c, r.methodId, tail);
  }

  /** DecodeRequest inverts EncodeRequest and consumes exactly the encoded bytes. */
  lemma RequestRoundTrip(pre: seq<Byte>, r: Request, rest: seq<Byte>)
    requires |r.payload| <= U32Max
    ensures EncodeRequest(r).Some?
    ensures DecodeRequest(pre + EncodeRequest(r).value + rest, |pre|)
         == Some(Read(r, |pre| + |EncodeRequest(r).value|))
  {
    var p := EncodePayload(r.payload).value;
    var data := pre + EncodeRequest(r).value + rest;
    assert EncodeRequest(r).value == RequestHead(r) + p;
    assert data == pre + RequestHead(r) + (p + rest);
    RequestHeadReads(pre, r, p + rest);
    assert data == (pre + RequestHead(r)) + p + rest;
    PayloadRoundTrip(pre + RequestHead(r), r.payload, rest);
  }

  /** Fewer than the 41 bytes of the fixed fields can never decode as a request. */
  lemma ShortRequestFails(data: seq<Byte>, pos: nat)
    requires pos + 41 > |data|
    ensures DecodeRequest(data, pos).None?
  {
  }

  /** NetRpcCodec::EncodeResponse: the status byte, then the payload. */
  function EncodeResponse(r: Response): (out: Option<seq<Byte>>)
    ensures out.Some? <==> |r.payload| <= U32Max
    ensures out.Some? ==> |out.value| == 1 + 4 + |r.payload|
  {
    match EncodePayload(r.payload)
    case None => None
    case Some(p) => Some([r.status] + p)
  }

  /** NetRpcCodec::DecodeResponse: the status byte is taken as is, then the payload. */
  function DecodeResponse(data: seq<Byte>, pos: nat): (r: Option<Read<Response>>)
  {
    match ReadU8(data, pos)
    case None => None
    case Some(s) =>
      match DecodePayload(data, s.next)
      case None => None
      case Some(p) => Some(Read(Response(s.value, p.value), p.next))
  }

  lemma ResponseRoundTrip(pre: seq<Byte>, r: Response, rest: seq<Byte>)
    requires |r.payload| <= U32Max
    ensures EncodeResponse(r).Some?
    ensures DecodeResponse(pre + EncodeResponse(r).value + rest, |pre|)
         == Some(Read(r, |pre| + |EncodeResponse(r).value|))
  {
    var p := EncodePayload(r.payload).value;
    var data := pre + EncodeResponse(r).value + rest;
    assert data == pre + [r.status] + (p + rest);
    ReadU8Written(pre, r.status, p + rest);
    assert data == (pre + [r.status]) + p + rest;
    PayloadRoundTrip(pre + [r.status], r.payload, rest);
  }

  /** Fewer than the 5 bytes of the status and the length prefix can never decode as a response. */
  lemma ShortResponseFails(data: seq<Byte>, pos: nat)
    requires pos + 5 > |data|
    ensures DecodeResponse(data, pos).None?
  {
  }

  /** ERpcDirection. */
  datatype Direction = ToServer | ToClient | ToMulticast

  /** DirectionFor: Client wins over Multicast, which wins over the server default. */
  function DirectionFor(f: MethodFlags): (d: Direction)
  {
    if f.client then ToClient else if f.multicast then ToMulticast else ToServer
  }

  /** ReliableFor: Unreliable wins over Reliable, which wins over the caller's default. */
  function ReliableFor(f: MethodFlags, defaultReliable: bool): (b: bool)
  {
    if f.unreliable then false else if f.reliable then true else defaultReliable
  }

  /** The direction is ToServer exactly when neither Client nor Multicast is set; each flag's direction is reached only through it. */
  lemma DirectionCases(f: MethodFlags)
    ensures DirectionFor(f) == ToServer <==> !f.client && !f.multicast
    ensures DirectionFor(f) == ToClient <==> f.client
    ensures DirectionFor(f) == ToMulticast <==> !f.client && f.multicast
  {
  }

  /** The default only matters when neither reliability flag is set. */
  lemma ReliableCases(f: MethodFlags, defaultReliable: bool)
    ensures ReliableFor(f, defaultReliable) == ReliableFor(f, !defaultReliable) <==> f.unreliable || f.reliable
    ensures f.unreliable ==> !ReliableFor(f, defaultReliable)
  {
  }

  /**
   * EncodeArgs' verdict: InvalidArgument on a count mismatch; otherwise the
   * first argument whose type differs (TypeMismatch) or whose value codec
   * fails (that error), in argument order.
   */
  function ArgsOutcome(types: seq<TypeId>, args: seq<Variant>, encode: (TypeId, Variant) -> Outcome): (r: Outcome)
  {
    if |types| != |args| then Fail(InvalidArgument) else ArgsFrom(types, args, encode, 0)
  }

  function ArgsFrom(types: seq<TypeId>, args: seq<Variant>, encode: (TypeId, Variant) -> Outcome, i: nat): (r: Outcome)
    requires |types| == |args| && i <= |args|
    decreases |args| - i
  {
    if i == |args| then Done
    else if args[i].typeId != types[i] then Fail(TypeMismatch)
    else if encode(types[i], args[i]).Fail? then encode(types[i], args[i])
    else ArgsFrom(types, args, encode, i + 1)
  }

  /** The argument bytes are written only when every type matches and every codec succeeds. */
  lemma {:induction false} ArgsFromDone(types: seq<TypeId>, args: seq<Variant>, encode: (TypeId, Variant) -> Outcome, i: nat)
    requires |types| == |args| && i <= |args|
    ensures ArgsFrom(types, args, encode, i) == Done <==>
              forall k :: i <= k < |args| ==> args[k].typeId == types[k] && encode(types[k], args[k]) == Done
    decreases |args| - i
  {
    if i < |args| {
      ArgsFromDone(types, args, encode, i + 1);
    }
  }

  /** A type mismatch at index `j` is what EncodeArgs reports when every earlier argument passed. */
  lemma {:induction false} ArgsFromMismatch(types: seq<TypeId>, args: seq<Variant>, encode: (TypeId, Variant) -> Outcome, i: nat, j: nat)
    requires |types| == |args| && i <= j < |args|
    requires args[j].typeId != types[j]
    requires forall k :: i <= k < j ==> args[k].typeId == types[k] && encode(types[k], args[k]) == Done
    ensures ArgsFrom(types, args, encode, i) == Fail(TypeMismatch)
    decreases j - i
  {
    if i < j {
      ArgsFromMismatch(types, args, encode, i + 1, j);
    }
  }

  /** EncodeArgs: the count check, then one type check and one codec call per argument. */
  method EncodeArgs(types: seq<TypeId>, args: seq<Variant>, encode: (TypeId, Variant) -> Outcome) returns (r: Outcome)
    ensures r == ArgsOutcome(types, args, encode)
  {
    if |types| != |args| {
      return Fail(InvalidArgument);
    }
    var i := 0;
    while i < |types|
      invariant 0 <= i <= |types|
      invariant ArgsFrom(types, args, encode, 0) == ArgsFrom(types, args, encode, i)
    {
      if args[i].typeId != types[i] {
        return Fail(TypeMismatch);
      }
      var e := encode(types[i], args[i]);
      if e.Fail? {
        return e;
      }
      i := i + 1;
    }
    return Done;
  }

  /** CallInternal's decision: refuse with an error, or send the request in a direction with a reliability. */
  datatype CallPlan = Refused(error: ErrorCode) | Send(direction: Direction, reliable: bool, request: Request)

  /**
   * CallInternal: refused when no RPC service is bound or the method is not
   * RPC-flagged (InvalidArgument), or with EncodeArgs' error; otherwise the
   * request carries the target, the method id and the argument bytes.
   */
  function PlanCall(serviceBound: bool, kind: Byte, targetId: Uuid, targetType: TypeId, methodId: U32, m: MethodInfo,
                    args: Outcome, argBytes: seq<Byte>, defaultReliable: bool): (p: CallPlan)
  {
    if !serviceBound || !IsRpcFlags(m.flags) then Refused(InvalidArgument)
    else if args.Fail? then Refused(args.code)
    else Send(DirectionFor(m.flags), ReliableFor(m.flags, defaultReliable), Request(kind, targetId, targetType, methodId, argBytes))
  }

  /** A call is sent exactly when the service is bound, the method is an RPC and the arguments encoded; the request is the one asked for. */
  lemma PlanCallSends(serviceBound: bool, kind: Byte, targetId: Uuid, targetType: TypeId, methodId: U32, m: MethodInfo,
                      args: Outcome, argBytes: seq<Byte>, defaultReliable: bool)
    ensures PlanCall(serviceBound, kind, targetId, targetType, methodId, m, args, argBytes, defaultReliable).Send? <==>
              serviceBound && IsRpcFlags(m.flags) && args == Done
    ensures PlanCall(serviceBound, kind, targetId, targetType, methodId, m, args, argBytes, defaultReliable).Send? ==>
              PlanCall(serviceBound, kind, targetId, targetType, methodId, m, args, argBytes, defaultReliable).request
                == Request(kind, targetId, targetType, methodId, argBytes)
    ensures serviceBound && IsRpcFlags(m.flags) && args.Fail? ==>
              PlanCall(serviceBound, kind, targetId, targetType, methodId, m, args, argBytes, defaultReliable) == Refused(args.code)
  {
  }

  /**
   * The completion wrapper: a failed transport or a non-Success status
   * becomes InternalError; otherwise the decoded return value is delivered.
   */
  function CallCompletion(transportOk: bool, status: Byte, decoded: Result<Variant>): (r: Result<Variant>)
  {
    if !transportOk || status != StatusByte(Success) then Err(InternalError) else decoded
  }

  lemma CallCompletionCases(transportOk: bool, status: Byte, decoded: Result<Variant>)
    ensures CallCompletion(transportOk, status, decoded) == decoded <==> (transportOk && status == 0) || decoded == Err(InternalError)
    ensures status != 0 ==> CallCompletion(transportOk, status, decoded) == Err(InternalError)
  {
  }

  /** RpcMethodEntry: the declaring type and the method. */
  datatype MethodEntry = MethodEntry(owner: TypeId, info: MethodInfo)

  /** unordered_map::emplace: an existing key keeps its entry. */
  function Emplace(m: map<U32, MethodEntry>, k: U32, v: MethodEntry): (r: map<U32, MethodEntry>)
  {
    if k in m then m else m[k := v]
  }

  /** The own-method loop of RegisterType, from method `i` of `t` on. */
  function RegisterOwn(m: map<U32, MethodEntry>, t: TypeId, methods: seq<MethodInfo>, idOf: (TypeId, MethodInfo) -> U32, i: nat)
    : (r: map<U32, MethodEntry>)
    requires i <= |methods|
    decreases |methods| - i
  {
    if i == |methods| then m
    else
      var m1 := if IsRpcFlags(methods[i].flags) then Emplace(m, idOf(t, methods[i]), MethodEntry(t, methods[i])) else m;
      RegisterOwn(m1, t, methods, idOf, i + 1)
  }

  /** RegisterType: nothing for an unregistered type; every base first, in order, then the type's own RPC methods. */
  function Registered(m: map<U32, MethodEntry>, table: TypeTable, ghost rank: map<TypeId, nat>, t: TypeId,
                      idOf: (TypeId, MethodInfo) -> U32): (r: map<U32, MethodEntry>)
    requires BasesRanked(table, rank)
    decreases RankOf(rank, t), 1, 0
  {
    if t !in table then m
    else RegisterOwn(RegisteredBases(m, table, rank, t, idOf, 0), t, table[t].methods, idOf, 0)
  }

  function RegisteredBases(m: map<U32, MethodEntry>, table: TypeTable, ghost rank: map<TypeId, nat>, t: TypeId,
                           idOf: (TypeId, MethodInfo) -> U32, i: nat): (r: map<U32, MethodEntry>)
    requires BasesRanked(table, rank) && t in table && i <= |table[t].bases|
    decreases RankOf(rank, t), 0, |table[t].bases| - i
  {
    if i == |table[t].bases| then m
    else
      var b := table[t].bases[i];
      var m1 := if b in table then Registered(m, table, rank, b, idOf) else m;
      RegisteredBases(m1, table, rank, t, idOf, i + 1)
  }

  /** Entries are only ever added, never replaced, and every added entry is an RPC method. */
  predicate Extends(m: map<U32, MethodEntry>, r: map<U32, MethodEntry>) {
    (forall k :: k in m ==> k in r && r[k] == m[k])
    && (forall k :: k in r && k !in m ==> IsRpcFlags(r[k].info.flags))
  }

  lemma ExtendsTransitive(a: map<U32, MethodEntry>, b: map<U32, MethodEntry>, c: map<U32, MethodEntry>)
    requires Extends(a, b) && Extends(b, c)
    ensures Extends(a, c)
  {
  }

  lemma {:induction false} RegisterOwnExtends(m: map<U32, MethodEntry>, t: TypeId, methods: seq<MethodInfo>,
                                              idOf: (TypeId, MethodInfo) -> U32, i: nat)
    requires i <= |methods|
    ensures Extends(m, RegisterOwn(m, t, methods, idOf, i))
    ensures forall k :: i <= k < |methods| && IsRpcFlags(methods[k].flags) ==> idOf(t, methods[k]) in RegisterOwn(m, t, methods, idOf, i)
    decreases |methods| - i
  {
    if i < |methods| {
      var m1 := if IsRpcFlags(methods[i].flags) then Emplace(m, idOf(t, methods[i]), MethodEntry(t, methods[i])) else m;
      RegisterOwnExtends(m1, t, methods, idOf, i + 1);
      ExtendsTransitive(m, m1, RegisterOwn(m1, t, methods, idOf, i + 1));
    }
  }

  /**
   * Registering a type keeps every entry already in the table, adds only
   * RPC methods, and leaves an entry under the id of each of the type's
   * own RPC methods.
   */
  lemma {:induction false} RegisteredExtends(m: map<U32, MethodEntry>, table: TypeTable, rank: map<TypeId, nat>, t: TypeId,
                                             idOf: (TypeId, MethodInfo) -> U32)
    requires BasesRanked(table, rank)
    ensures Extends(m, Registered(m, table, rank, t, idOf))
    ensures t in table ==> forall k :: 0 <= k < |table[t].methods| && IsRpcFlags(table[t].methods[k].flags) ==>
              idOf(t, table[t].methods[k]) in Registered(m, table, rank, t, idOf)
    decreases RankOf(rank, t), 1, 0
  {
    if t in table {
      var mb := RegisteredBases(m, table, rank, t, idOf, 0);
      RegisteredBasesExtends(m, table, rank, t, idOf, 0);
      RegisterOwnExtends(mb, t, table[t].methods, idOf, 0);
      ExtendsTransitive(m, mb, Registered(m, table, rank, t, idOf));
    }
  }

  lemma {:induction false} RegisteredBasesExtends(m: map<U32, MethodEntry>, table: TypeTable, rank: map<TypeId, nat>, t: TypeId,
                                                  idOf: (TypeId, MethodInfo) -> U32, i: nat)
    requires BasesRanked(table, rank) && t in table && i <= |table[t].bases|
    ensures Extends(m, RegisteredBases(m, table, rank, t, idOf, i))
    decreases RankOf(rank, t), 0, |table[t].bases| - i
  {
    if i < |table[t].bases| {
      var b := table[t].bases[i];
      var m1 := if b in table then Registered(m, table, rank, b, idOf) else m;
      if b in table {
        RegisteredExtends(m, table, rank, b, idOf);
      }
      RegisteredBasesExtends(m1, table, rank, t, idOf, i + 1);
      ExtendsTransitive(m, m1, RegisteredBases(m1, table, rank, t, idOf, i + 1));
    }
  }

  /**
   * HandleRequest's status: the first stage that fails, in the order graph,
   * method lookup, target resolution, argument decoding, invocation and
   * return-value encoding.
   */
  function StatusFor(hasGraph: bool, methodFound: bool, targetResolves: bool, decodeOk: bool, invokeOk: bool, encodeOk: bool)
    : (s: Status)
  {
    if !hasGraph then TargetNotFound
    else if !methodFound then MethodNotFound
    else if !targetResolves then TargetNotFound
    else if !decodeOk then DecodeFailed
    else if !invokeOk then InvokeFailed
    else if !encodeOk then EncodeFailed
    else Success
  }

  /** Success exactly when every stage passes; a later stage's failure is reported only when every earlier stage passed. */
  lemma StatusOrder(hasGraph: bool, methodFound: bool, targetResolves: bool, decodeOk: bool, invokeOk: bool, encodeOk: bool)
    ensures StatusFor(hasGraph, methodFound, targetResolves, decodeOk, invokeOk, encodeOk) == Success <==>
              hasGraph && methodFound && targetResolves && decodeOk && invokeOk && encodeOk
    ensures StatusFor(hasGraph, methodFound, targetResolves, decodeOk, invokeOk, encodeOk) == MethodNotFound ==> hasGraph
    ensures StatusFor(hasGraph, methodFound, targetResolves, decodeOk, invokeOk, encodeOk) == DecodeFailed ==>
              hasGraph && methodFound && targetResolves
    ensures StatusFor(hasGraph, methodFound, targetResolves, decodeOk, invokeOk, encodeOk) == InvokeFailed ==>
              hasGraph && methodFound && targetResolves && decodeOk
    ensures StatusFor(hasGraph, methodFound, targetResolves, decodeOk, invokeOk, encodeOk) == EncodeFailed ==>
              hasGraph && methodFound && targetResolves && decodeOk && invokeOk
  {
  }

  /** What EncodeReturnValue produced: whether it succeeded and the bytes it left in the response. */
  datatype Encoded = Encoded(ok: bool, bytes: seq<Byte>)

  /** NetRpcBridge: whether a graph is bound, and the method table keyed by method id. */
  class NetRpcBridge {
    var hasGraph: bool
    var methods: map<U32, MethodEntry>

    constructor (hasGraph: bool)
      ensures this.hasGraph == hasGraph && methods == map[]
    {
      this.hasGraph := hasGraph;
      methods := map[];
    }

    /** RegisterType: bases first, then the own RPC methods, each emplaced under its method id. */
    method RegisterType(table: TypeTable, ghost rank: map<TypeId, nat>, t: TypeId, idOf: (TypeId, MethodInfo) -> U32)
      requires BasesRanked(table, rank)
      modifies this`methods
      ensures methods == Registered(old(methods), table, rank, t, idOf)
      decreases RankOf(rank, t)
    {
      if t !in table {
        return;
      }
      var info := table[t];
      var i := 0;
      ghost var m0 := methods;
      while i < |info.bases|
        invariant 0 <= i <= |info.bases|
        invariant RegisteredBases(m0, table, rank, t, idOf, 0) == RegisteredBases(methods, table, rank, t, idOf, i)
      {
        var b := info.bases[i];
        if b in table {
          RegisterType(table, rank, b, idOf);
        }
        i := i + 1;
      }
      var j := 0;
      ghost var mb := methods;
      while j < |info.methods|
        invariant 0 <= j <= |info.methods|
        invariant RegisterOwn(mb, t, info.methods, idOf, 0) == RegisterOwn(methods, t, info.methods, idOf, j)
      {
        var meth := info.methods[j];
        if IsRpcFlags(meth.flags) {
          methods := Emplace(methods, idOf(t, meth), MethodEntry(t, meth));
        }
        j := j + 1;
      }
    }

    /**
     * HandleRequest: the method table is consulted, and on a miss with a
     * non-nil target type that type is registered once and the table
     * consulted again. `targetResolves` is whether the registry resolves
     * the target as a node (kind 0) or component (kind 1); the decode,
     * invoke and encode outcomes are those of the method found.
     */
    method HandleRequest(req: Request, table: TypeTable, ghost rank: map<TypeId, nat>, idOf: (TypeId, MethodInfo) -> U32,
                         targetResolves: bool, decodeOk: bool, invokeOk: bool, encoded: Encoded)
      returns (resp: Response)
      requires BasesRanked(table, rank)
      modifies this`methods
      ensures methods == (if hasGraph && req.methodId !in old(methods) && !IsNil(req.targetType)
                          then Registered(old(methods), table, rank, req.targetType, idOf) else old(methods))
      ensures resp.status == StatusByte(StatusFor(hasGraph, req.methodId in methods,
                                                  (req.targetKind == 0 || req.targetKind == 1) && targetResolves,
                                                  decodeOk, invokeOk, encoded.ok))
      ensures resp.payload == if hasGraph && req.methodId in methods && (req.targetKind == 0 || req.targetKind == 1)
                                 && targetResolves && decodeOk && invokeOk then encoded.bytes else []
    {
      if !hasGraph {
        return Response(StatusByte(TargetNotFound), []);
      }
      if req.methodId !in methods && !IsNil(req.targetType) {
        RegisterType(table, rank, req.targetType, idOf);
      }
      if req.methodId !in methods {
        return Response(StatusByte(MethodNotFound), []);
      }
      var instance := (req.targetKind == 0 || req.targetKind == 1) && targetResolves;
      if !instance {
        return Response(StatusByte(TargetNotFound), []);
      }
      if !decodeOk {
        return Response(StatusByte(DecodeFailed), []);
      }
      if !invokeOk {
        return Response(StatusByte(InvokeFailed), []);
      }
      if !encoded.ok {
        return Response(StatusByte(EncodeFailed), encoded.bytes);
      }
      return Response(StatusByte(Success), encoded.bytes);
    }
  }
}
