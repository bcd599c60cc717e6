/**
 * The listener bookkeeping and event queue of PhysicsSystem
 * (src/PhysicsSystem.cpp): drained events wait in a FIFO queue, event
 * listeners and per-body sleep/wake listeners are registered under
 * increasing tokens, and each step plans which callbacks receive which
 * event.
 *
 * The physics backend is outside this model: whether the backend
 * registers, whether a scene is created, whether Simulate and FetchResults
 * succeed and which events the scene yields are parameters. A callback is
 * an opaque identity; calling it is represented by the planned call list
 * a step returns.
 */
module Physics {
  import opened Common

  /** The physics library's error categories. */
  datatype PhysicsError = PhysInvalidArgument | PhysNotFound | PhysAlreadyExists | PhysNotInitialized
                        | PhysNotSupported | PhysBackendError | PhysInternalError

  /** MapPhysicsError: the framework error code for a physics library error. */
  function MapPhysicsError(e: PhysicsError): (r: ErrorCode)
    ensures r in {InvalidArgument, NotFound, AlreadyExists, NotReady, InternalError}
    ensures r == NotReady <==> e == PhysNotInitialized || e == PhysNotSupported
    ensures r == InternalError <==> e == PhysBackendError || e == PhysInternalError
  {
    match e
    case PhysInvalidArgument => InvalidArgument
    case PhysNotFound => NotFound
    case PhysAlreadyExists => AlreadyExists
    case PhysNotInitialized => NotReady
    case PhysNotSupported => NotReady
    case PhysBackendError => InternalError
    case PhysInternalError => InternalError
  }

  /** A body handle: whether it is valid, and its 64-bit value. */
  datatype BodyHandle = BodyHandle(valid: bool, value: U64)

  datatype EventType = BodySleep | BodyWake | OtherEvent(code: nat)

  /** A physics event: its type and the one or two bodies involved. */
  datatype PhysicsEvent = PhysicsEvent(kind: EventType, bodyA: BodyHandle, bodyB: BodyHandle)

  /** A listener callback; NoCallback is an empty std::function. */
  datatype Callback = NoCallback | Callback(id: nat)

  /** BodySleepListenerEntry: the body value and its callback. */
  datatype SleepEntry = SleepEntry(body: U64, listener: Callback)

  /** PendingBodySleepDispatch: the index of the step event and the callback to call with it. */
  datatype Dispatch = Dispatch(eventIndex: nat, listener: Callback)

  /** One planned callback invocation. */
  datatype Call = Call(listener: Callback, event: PhysicsEvent)

  /** The elements of `s` other than `x` (the erase-remove idiom). */
  function Without(s: seq<nat>, x: nat): (r: seq<nat>)
    ensures forall y :: y in r <==> y in s && y != x
    ensures |r| <= |s|
  {
    if s == [] then []
    else
      var rest := Without(s[..|s| - 1], x);
      var last := s[|s| - 1];
      assert forall y :: y in s <==> y in s[..|s| - 1] || y == last;
      if last == x then rest else rest + [last]
  }

  /** Dropping a token keeps a token list free of repeats. */
  lemma {:induction false} WithoutDistinct(s: seq<nat>, x: nat)
    requires NoDuplicates(s)
    ensures NoDuplicates(Without(s, x))
  {
    if s != [] {
      var p := s[..|s| - 1];
      assert NoDuplicates(p);
      WithoutDistinct(p, x);
      assert s[|s| - 1] !in p;
    }
  }

  /** The values of an ordered map with keys below `bound`, in ascending key order. */
  function InKeyOrder(m: map<nat, Callback>, bound: nat): (r: seq<Callback>)
    ensures |r| <= bound
  {
    if bound == 0 then []
    else InKeyOrder(m, bound - 1) + (if bound - 1 in m then [m[bound - 1]] else [])
  }

  /** Every value of the map is listed, and only values of the map are. */
  lemma {:induction false} InKeyOrderValues(m: map<nat, Callback>, bound: nat)
    requires forall t :: t in m ==> t < bound
    ensures forall c :: c in InKeyOrder(m, bound) <==> exists t :: t in m && m[t] == c
    ensures |InKeyOrder(m, bound)| == |m.Keys|
  {
    InKeyOrderBelow(m, bound);
    InKeyOrderCount(m, bound);
    assert m.Keys == KeysBelow(m, bound);
  }

  lemma {:induction false} InKeyOrderBelow(m: map<nat, Callback>, bound: nat)
    ensures forall c :: c in InKeyOrder(m, bound) <==> exists t :: t in m && t < bound && m[t] == c
  {
    if bound > 0 {
      InKeyOrderBelow(m, bound - 1);
    }
  }

  /** The keys of `m` below `bound`. */
  function KeysBelow(m: map<nat, Callback>, bound: nat): (r: set<nat>)
    ensures forall t :: t in r <==> t in m && t < bound
  {
    if bound == 0 then {} else KeysBelow(m, bound - 1) + (if bound - 1 in m then {bound - 1} else {})
  }

  lemma {:induction false} InKeyOrderCount(m: map<nat, Callback>, bound: nat)
    ensures |InKeyOrder(m, bound)| == |KeysBelow(m, bound)|
  {
    if bound > 0 {
      InKeyOrderCount(m, bound - 1);
      assert bound - 1 !in KeysBelow(m, bound - 1);
    }
  }

  /** The dispatches the listeners of one token list queue for one event. */
  function TokenDispatches(index: nat, tokens: seq<nat>, listeners: map<nat, SleepEntry>): (r: seq<Dispatch>)
    ensures forall d :: d in r ==> d.eventIndex == index && d.listener != NoCallback
  {
    if tokens == [] then []
    else
      var t := tokens[|tokens| - 1];
      TokenDispatches(index, tokens[..|tokens| - 1], listeners)
      + (if t in listeners && listeners[t].listener != NoCallback then [Dispatch(index, listeners[t].listener)] else [])
  }

  /** QueueBodySleepDispatches: nothing for an invalid body or one without listeners. */
  function BodyDispatches(index: nat, body: BodyHandle, byBody: map<U64, seq<nat>>, listeners: map<nat, SleepEntry>): (r: seq<Dispatch>)
  {
    if !body.valid || body.value !in byBody then [] else TokenDispatches(index, byBody[body.value], listeners)
  }

  /** The dispatches one event queues: none unless it is a sleep or wake event; BodyB's only when valid and not BodyA. */
  function EventDispatches(index: nat, e: PhysicsEvent, byBody: map<U64, seq<nat>>, listeners: map<nat, SleepEntry>): (r: seq<Dispatch>)
  {
    if e.kind != BodySleep && e.kind != BodyWake then []
    else
      BodyDispatches(index, e.bodyA, byBody, listeners)
      + (if e.bodyB.valid && e.bodyB != e.bodyA then BodyDispatches(index, e.bodyB, byBody, listeners) else [])
  }

  /** The sleep and wake dispatches of a step's events, in event order. */
  function SleepDispatches(events: seq<PhysicsEvent>, byBody: map<U64, seq<nat>>, listeners: map<nat, SleepEntry>): (r: seq<Dispatch>)
  {
    if events == [] then []
    else SleepDispatches(events[..|events| - 1], byBody, listeners) + EventDispatches(|events| - 1, events[|events| - 1], byBody, listeners)
  }

  /** A body's dispatches are exactly the non-empty callbacks of its registered tokens. */
  lemma {:induction false} TokenDispatchesExactly(index: nat, tokens: seq<nat>, listeners: map<nat, SleepEntry>)
    ensures forall d :: d in TokenDispatches(index, tokens, listeners) <==>
              d.eventIndex == index && exists t :: t in tokens && t in listeners && listeners[t].listener == d.listener && d.listener != NoCallback
  {
    if tokens != [] {
      var p := tokens[..|tokens| - 1];
      TokenDispatchesExactly(index, p, listeners);
      assert forall t :: t in tokens <==> t in p || t == tokens[|tokens| - 1];
    }
  }

  /**
   * Every queued dispatch refers to a sleep or wake event of the step and
   * to a non-empty callback registered for its BodyA, or for its BodyB when
   * that is valid and differs from BodyA.
   */
  lemma {:induction false} SleepDispatchesSound(events: seq<PhysicsEvent>, byBody: map<U64, seq<nat>>, listeners: map<nat, SleepEntry>)
    ensures forall d :: d in SleepDispatches(events, byBody, listeners) ==>
              d.eventIndex < |events| && d.listener != NoCallback
              && (events[d.eventIndex].kind == BodySleep || events[d.eventIndex].kind == BodyWake)
              && (d in BodyDispatches(d.eventIndex, events[d.eventIndex].bodyA, byBody, listeners)
                  || (events[d.eventIndex].bodyB.valid && events[d.eventIndex].bodyB != events[d.eventIndex].bodyA
                      && d in BodyDispatches(d.eventIndex, events[d.eventIndex].bodyB, byBody, listeners)))
  {
    if events != [] {
      var p := events[..|events| - 1];
      SleepDispatchesSound(p, byBody, listeners);
      forall d | d in SleepDispatches(p, byBody, listeners)
        ensures events[d.eventIndex] == p[d.eventIndex]
      {
      }
    }
  }

  /** Each listener snapshot entry is called with every step event in order, then each dispatch with its event. */
  function PlannedCalls(events: seq<PhysicsEvent>, listeners: seq<Callback>, dispatches: seq<Dispatch>): (r: seq<Call>)
    requires forall d :: d in dispatches ==> d.eventIndex < |events|
    ensures |r| == |events| * |listeners| + |dispatches|
  {
    ListenerCalls(events, listeners) + DispatchCalls(events, dispatches)
  }

  function ListenerCalls(events: seq<PhysicsEvent>, listeners: seq<Callback>): (r: seq<Call>)
    ensures |r| == |events| * |listeners|
  {
    if events == [] then []
    else ListenerCalls(events[..|events| - 1], listeners) + EachListener(events[|events| - 1], listeners)
  }

  function EachListener(e: PhysicsEvent, listeners: seq<Callback>): (r: seq<Call>)
    ensures |r| == |listeners|
    ensures forall k :: 0 <= k < |r| ==> r[k] == Call(listeners[k], e)
  {
    if listeners == [] then [] else EachListener(e, listeners[..|listeners| - 1]) + [Call(listeners[|listeners| - 1], e)]
  }

  function DispatchCalls(events: seq<PhysicsEvent>, dispatches: seq<Dispatch>): (r: seq<Call>)
    requires forall d :: d in dispatches ==> d.eventIndex < |events|
    ensures |r| == |dispatches|
    ensures forall k :: 0 <= k < |r| ==> r[k] == Call(dispatches[k].listener, events[dispatches[k].eventIndex])
  {
    if dispatches == [] then []
    else
      var last := dispatches[|dispatches| - 1];
      assert last in dispatches;
      DispatchCalls(events, dispatches[..|dispatches| - 1]) + [Call(last.listener, events[last.eventIndex])]
  }

  class PhysicsSystem {
    /** Whether a scene exists (m_scene). */
    var hasScene: bool
    var pendingEvents: seq<PhysicsEvent>
    var eventListeners: map<nat, Callback>
    var nextEventListenerToken: nat
    var bodySleepListeners: map<nat, SleepEntry>
    var tokensByBody: map<U64, seq<nat>>
    var nextBodySleepListenerToken: nat

    /**
     * The bookkeeping invariant: tokens in use are below the next token, a
     * token is listed under a body exactly when a sleep listener entry for
     * that body exists, and a body's token list is never empty and has no
     * repeats.
     */
    ghost predicate Valid()
      reads this
    {
      && nextEventListenerToken >= 1
      && (forall t :: t in eventListeners ==> 1 <= t < nextEventListenerToken)
      && nextBodySleepListenerToken >= 1
      && (forall t :: t in bodySleepListeners ==> 1 <= t < nextBodySleepListenerToken)
      && TokensListed(bodySleepListeners, tokensByBody)
    }

    static ghost predicate TokensListed(listeners: map<nat, SleepEntry>, byBody: map<U64, seq<nat>>) {
      && (forall b :: b in byBody ==> byBody[b] != [] && NoDuplicates(byBody[b]))
      && (forall b, t :: b in byBody && t in byBody[b] ==> t in listeners && listeners[t].body == b)
      && (forall t :: t in listeners ==> listeners[t].body in byBody && t in byBody[listeners[t].body])
    }

    /** A default-constructed system: no scene, empty queue and maps, both counters at 1. */
    constructor ()
      ensures Valid() && !hasScene && pendingEvents == [] && eventListeners == map[] && bodySleepListeners == map[]
      ensures tokensByBody == map[] && nextEventListenerToken == 1 && nextBodySleepListenerToken == 1
    {
      hasScene := false;
      pendingEvents := [];
      eventListeners := map[];
      nextEventListenerToken := 1;
      bodySleepListeners := map[];
      tokensByBody := map[];
      nextBodySleepListenerToken := 1;
    }

    /** The state Initialize and Shutdown both start from. */
    predicate Cleared()
      reads this
    {
      pendingEvents == [] && eventListeners == map[] && nextEventListenerToken == 1
      && bodySleepListeners == map[] && tokensByBody == map[] && nextBodySleepListenerToken == 1
    }

    /**
     * Initialize: drops the scene, clears the queue and both listener
     * registries and resets both counters to 1; then registers the backend
     * (AlreadyExists is not a failure) and creates the scene.
     */
    method Initialize(registerError: Option<PhysicsError>, sceneError: Option<PhysicsError>) returns (r: Outcome)
      modifies this
      ensures Valid() && Cleared()
      ensures registerError.Some? && registerError.value != PhysAlreadyExists ==>
                r == Fail(MapPhysicsError(registerError.value)) && !hasScene
      ensures (registerError.None? || registerError.value == PhysAlreadyExists) && sceneError.Some? ==>
                r == Fail(MapPhysicsError(sceneError.value)) && !hasScene
      ensures (registerError.None? || registerError.value == PhysAlreadyExists) && sceneError.None? ==> r == Done && hasScene
    {
      hasScene := false;
      Reset();
      if registerError.Some? && registerError.value != PhysAlreadyExists {
        return Fail(MapPhysicsError(registerError.value));
      }
      if sceneError.Some? {
        return Fail(MapPhysicsError(sceneError.value));
      }
      hasScene := true;
      return Done;
    }

    /** Shutdown: drops the scene and resets the queue, the registries and the counters. */
    method Shutdown()
      modifies this
      ensures Valid() && Cleared() && !hasScene
    {
      hasScene := false;
      Reset();
    }

    method Reset()
      modifies this`pendingEvents, this`eventListeners, this`nextEventListenerToken, this`bodySleepListeners,
               this`tokensByBody, this`nextBodySleepListenerToken
      ensures Valid() && Cleared()
    {
      pendingEvents := [];
      eventListeners := map[];
      nextEventListenerToken := 1;
      bodySleepListeners := map[];
      tokensByBody := map[];
      nextBodySleepListenerToken := 1;
    }

    /**
     * DrainEvents: copies the first min(capacity, pending) queued events,
     * oldest first, into the caller's buffer and removes exactly those from
     * the queue; the rest of the buffer is left alone.
     */
    method DrainEvents(outEvents: array<PhysicsEvent>) returns (count: nat)
      modifies this`pendingEvents, outEvents
      ensures count == if outEvents.Length < |old(pendingEvents)| then outEvents.Length else |old(pendingEvents)|
      ensures outEvents[..count] == old(pendingEvents)[..count]
      ensures outEvents[count..] == old(outEvents[count..])
      ensures pendingEvents == old(pendingEvents)[count..]
      ensures old(pendingEvents) == outEvents[..count] + pendingEvents
    {
      var pending := pendingEvents;
      count := if outEvents.Length < |pending| then outEvents.Length else |pending|;
      var i := 0;
      while i < count
        invariant 0 <= i <= count
        invariant outEvents[..i] == pending[..i] && pendingEvents == pending
        invariant outEvents[count..] == old(outEvents[count..])
      {
        outEvents[i] := pending[i];
        assert outEvents[..i + 1] == outEvents[..i] + [pending[i]];
        i := i + 1;
      }
      if count > 0 {
        pendingEvents := pending[count..];
      } else {
        assert pending[count..] == pending;
      }
      assert pending == pending[..count] + pending[count..];
    }

    /** AddEventListener: the next token, which then advances; the listener is stored under it. */
    method AddEventListener(listener: Callback) returns (token: nat)
      requires Valid()
      modifies this`eventListeners, this`nextEventListenerToken
      ensures Valid()
      ensures token == old(nextEventListenerToken) && token >= 1 && token !in old(eventListeners)
      ensures nextEventListenerToken == token + 1
      ensures eventListeners == old(eventListeners)[token := listener]
    {
      token := nextEventListenerToken;
      nextEventListenerToken := nextEventListenerToken + 1;
      eventListeners := eventListeners[token := listener];
    }

    /** RemoveEventListener: true exactly when a listener was erased. */
    method RemoveEventListener(token: nat) returns (removed: bool)
      requires Valid()
      modifies this`eventListeners
      ensures Valid()
      ensures removed <==> token in old(eventListeners)
      ensures eventListeners == old(eventListeners) - {token}
    {
      removed := token in eventListeners;
      eventListeners := eventListeners - {token};
    }

    /**
     * AddBodySleepListener: 0 for an invalid body or an empty callback, with
     * nothing changed; otherwise the next token, stored with the body and
     * appended to the body's token list.
     */
    method AddBodySleepListener(body: BodyHandle, listener: Callback) returns (token: nat)
      requires Valid()
      modifies this`bodySleepListeners, this`tokensByBody, this`nextBodySleepListenerToken
      ensures Valid()
      ensures !body.valid || listener == NoCallback ==>
                token == 0 && bodySleepListeners == old(bodySleepListeners) && tokensByBody == old(tokensByBody)
                && nextBodySleepListenerToken == old(nextBodySleepListenerToken)
      ensures body.valid && listener != NoCallback ==>
                && token == old(nextBodySleepListenerToken) && token >= 1 && token !in old(bodySleepListeners)
                && nextBodySleepListenerToken == token + 1
                && bodySleepListeners == old(bodySleepListeners)[token := SleepEntry(body.value, listener)]
                && tokensByBody == old(tokensByBody)[body.value := TokensOf(old(tokensByBody), body.value) + [token]]
    {
      if !body.valid || listener == NoCallback {
        return 0;
      }
      token := nextBodySleepListenerToken;
      nextBodySleepListenerToken := nextBodySleepListenerToken + 1;
      bodySleepListeners, tokensByBody := AddedSleepListener(bodySleepListeners, tokensByBody, token, body.value, listener);
    }

    /** The token list of a body; a missing entry reads as empty (operator[]). */
    static function TokensOf(byBody: map<U64, seq<nat>>, b: U64): (r: seq<nat>)
      ensures b !in byBody ==> r == []
    {
      if b in byBody then byBody[b] else []
    }

    static method AddedSleepListener(listeners: map<nat, SleepEntry>, byBody: map<U64, seq<nat>>, token: nat, b: U64, listener: Callback)
      returns (listeners': map<nat, SleepEntry>, byBody': map<U64, seq<nat>>)
      requires TokensListed(listeners, byBody) && token !in listeners
      ensures TokensListed(listeners', byBody')
      ensures listeners' == listeners[token := SleepEntry(b, listener)]
      ensures byBody' == byBody[b := TokensOf(byBody, b) + [token]]
    {
      var listed := TokensOf(byBody, b);
      assert token !in listed;
      listeners' := listeners[token := SleepEntry(b, listener)];
      byBody' := byBody[b := listed + [token]];
    }

    /**
     * RemoveBodySleepListener: false for an unknown token, with nothing
     * changed; otherwise the entry is erased, the token leaves its body's
     * list, and a list left empty is erased.
     */
    method RemoveBodySleepListener(token: nat) returns (removed: bool)
      requires Valid()
      modifies this`bodySleepListeners, this`tokensByBody
      ensures Valid()
      ensures removed <==> token in old(bodySleepListeners)
      ensures !removed ==> bodySleepListeners == old(bodySleepListeners) && tokensByBody == old(tokensByBody)
      ensures removed ==>
                var b := old(bodySleepListeners)[token].body;
                && bodySleepListeners == old(bodySleepListeners) - {token}
                && tokensByBody == (if Without(old(tokensByBody)[b], token) == [] then old(tokensByBody) - {b}
                                    else old(tokensByBody)[b := Without(old(tokensByBody)[b], token)])
      ensures forall b :: b in tokensByBody ==> token !in tokensByBody[b]
    {
      if token !in bodySleepListeners {
        return false;
      }
      var b := bodySleepListeners[token].body;
      bodySleepListeners, tokensByBody := RemovedSleepListener(bodySleepListeners, tokensByBody, token, b);
      return true;
    }

    static method RemovedSleepListener(listeners: map<nat, SleepEntry>, byBody: map<U64, seq<nat>>, token: nat, b: U64)
      returns (listeners': map<nat, SleepEntry>, byBody': map<U64, seq<nat>>)
      requires TokensListed(listeners, byBody) && token in listeners && listeners[token].body == b
      ensures TokensListed(listeners', byBody')
      ensures listeners' == listeners - {token}
      ensures byBody' == if Without(byBody[b], token) == [] then byBody - {b} else byBody[b := Without(byBody[b], token)]
      ensures forall c :: c in byBody' ==> token !in byBody'[c]
    {
      listeners' := listeners - {token};
      var rest := Without(byBody[b], token);
      WithoutDistinct(byBody[b], token);
      if rest == [] {
        byBody' := byBody - {b};
      } else {
        byBody' := byBody[b := rest];
      }
    }

    /**
     * Step's bookkeeping: refused for a non-positive delta, without a scene,
     * or when Simulate or FetchResults fails; otherwise the scene's events
     * join the queue and the call plan is each event listener, in token
     * order, for each event, then the queued sleep and wake dispatches.
     */
    method Step(deltaPositive: bool, simulateError: Option<PhysicsError>, fetchError: Option<PhysicsError>,
                stepEvents: seq<PhysicsEvent>)
      returns (r: Outcome, calls: seq<Call>)
      requires Valid()
      modifies this`pendingEvents
      ensures Valid()
      ensures !deltaPositive ==> r == Fail(InvalidArgument)
      ensures deltaPositive && !hasScene ==> r == Fail(NotReady)
      ensures deltaPositive && hasScene && simulateError.Some? ==> r == Fail(MapPhysicsError(simulateError.value))
      ensures deltaPositive && hasScene && simulateError.None? && fetchError.Some? ==> r == Fail(MapPhysicsError(fetchError.value))
      ensures r.Fail? ==> pendingEvents == old(pendingEvents) && calls == []
      ensures r == Done <==> deltaPositive && hasScene && simulateError.None? && fetchError.None?
      ensures r == Done ==>
                && pendingEvents == old(pendingEvents) + stepEvents
                && (SleepDispatchesSound(stepEvents, tokensByBody, bodySleepListeners);
                    calls == PlannedCalls(stepEvents, InKeyOrder(eventListeners, nextEventListenerToken),
                                          SleepDispatches(stepEvents, tokensByBody, bodySleepListeners)))
    {
      if !deltaPositive {
        return Fail(InvalidArgument), [];
      }
      if !hasScene {
        return Fail(NotReady), [];
      }
      if simulateError.Some? {
        return Fail(MapPhysicsError(simulateError.value)), [];
      }
      if fetchError.Some? {
        return Fail(MapPhysicsError(fetchError.value)), [];
      }
      pendingEvents := pendingEvents + stepEvents;
      var listeners := SnapshotListeners(eventListeners, nextEventListenerToken);
      var dispatches := QueueSleepDispatches(stepEvents, tokensByBody, bodySleepListeners);
      SleepDispatchesSound(stepEvents, tokensByBody, bodySleepListeners);
      calls := PlanCalls(stepEvents, listeners, dispatches);
      r := Done;
    }

    /** The listener snapshot: the values of the ordered listener map in ascending token order. */
    static method SnapshotListeners(m: map<nat, Callback>, bound: nat) returns (listeners: seq<Callback>)
      ensures listeners == InKeyOrder(m, bound)
    {
      listeners := [];
      var t := 0;
      while t < bound
        invariant 0 <= t <= bound
        invariant listeners == InKeyOrder(m, t)
      {
        if t in m {
          listeners := listeners + [m[t]];
        }
        t := t + 1;
      }
    }

    /** The loop over the step events queueing sleep and wake dispatches. */
    static method QueueSleepDispatches(events: seq<PhysicsEvent>, byBody: map<U64, seq<nat>>, listeners: map<nat, SleepEntry>)
      returns (dispatches: seq<Dispatch>)
      ensures dispatches == SleepDispatches(events, byBody, listeners)
    {
      dispatches := [];
      var i := 0;
      while i < |events|
        invariant 0 <= i <= |events|
        invariant dispatches == SleepDispatches(events[..i], byBody, listeners)
      {
        assert events[..i + 1][..i] == events[..i];
        var more := QueueEventDispatches(i, events[i], byBody, listeners);
        dispatches := dispatches + more;
        i := i + 1;
      }
      assert events[..|events|] == events;
    }

    /** One step event: BodyA's dispatches, then BodyB's when it is valid and different, for sleep and wake events only. */
    static method QueueEventDispatches(index: nat, e: PhysicsEvent, byBody: map<U64, seq<nat>>, listeners: map<nat, SleepEntry>)
      returns (dispatches: seq<Dispatch>)
      ensures dispatches == EventDispatches(index, e, byBody, listeners)
    {
      dispatches := [];
      if e.kind == BodySleep || e.kind == BodyWake {
        dispatches := QueueBodyDispatches(index, e.bodyA, byBody, listeners);
        if e.bodyB.valid && e.bodyB != e.bodyA {
          var b := QueueBodyDispatches(index, e.bodyB, byBody, listeners);
          dispatches := dispatches + b;
        }
      }
    }

    /** QueueBodySleepDispatches: each token of the body whose listener entry exists with a non-empty callback. */
    static method QueueBodyDispatches(index: nat, body: BodyHandle, byBody: map<U64, seq<nat>>, listeners: map<nat, SleepEntry>)
      returns (dispatches: seq<Dispatch>)
      ensures dispatches == BodyDispatches(index, body, byBody, listeners)
    {
      dispatches := [];
      if !body.valid || body.value !in byBody {
        return;
      }
      var tokens := byBody[body.value];
      var k := 0;
      while k < |tokens|
        invariant 0 <= k <= |tokens|
        invariant dispatches == TokenDispatches(index, tokens[..k], listeners)
      {
        assert tokens[..k + 1][..k] == tokens[..k];
        var t := tokens[k];
        if t in listeners && listeners[t].listener != NoCallback {
          dispatches := dispatches + [Dispatch(index, listeners[t].listener)];
        }
        k := k + 1;
      }
      assert tokens[..|tokens|] == tokens;
    }

    /** The two calling loops of Step, outside the lock. */
    static method PlanCalls(events: seq<PhysicsEvent>, listeners: seq<Callback>, dispatches: seq<Dispatch>)
      returns (calls: seq<Call>)
      requires forall d :: d in dispatches ==> d.eventIndex < |events|
      ensures calls == PlannedCalls(events, listeners, dispatches)
    {
      var first := CallEventListeners(events, listeners);
      var second := CallSleepDispatches(events, dispatches);
      calls := first + second;
    }

    /** The first loop of Step: every event, to every event listener in map order. */
    static method CallEventListeners(events: seq<PhysicsEvent>, listeners: seq<Callback>) returns (calls: seq<Call>)
      ensures calls == ListenerCalls(events, listeners)
    {
      calls := [];
      var i := 0;
      while i < |events|
        invariant 0 <= i <= |events|
        invariant calls == ListenerCalls(events[..i], listeners)
      {
        assert events[..i + 1][..i] == events[..i];
        var more := CallEachListener(events[i], listeners);
        calls := calls + more;
        i := i + 1;
      }
      assert events[..|events|] == events;
    }

    /** One event, to every event listener. */
    static method CallEachListener(e: PhysicsEvent, listeners: seq<Callback>) returns (calls: seq<Call>)
      ensures calls == EachListener(e, listeners)
    {
      calls := [];
      var k := 0;
      while k < |listeners|
        invariant 0 <= k <= |listeners|
        invariant calls == EachListener(e, listeners[..k])
      {
        assert listeners[..k + 1][..k] == listeners[..k];
        calls := calls + [Call(listeners[k], e)];
        k := k + 1;
      }
      assert listeners[..|listeners|] == listeners;
    }

    /** The second loop of Step: each queued sleep dispatch, with its event. */
    static method CallSleepDispatches(events: seq<PhysicsEvent>, dispatches: seq<Dispatch>) returns (calls: seq<Call>)
      requires forall d :: d in dispatches ==> d.eventIndex < |events|
      ensures calls == DispatchCalls(events, dispatches)
    {
      calls := [];
      var j := 0;
      while j < |dispatches|
        invariant 0 <= j <= |dispatches|
        invariant forall d :: d in dispatches[..j] ==> d in dispatches
        invariant calls == DispatchCalls(events, dispatches[..j])
      {
        assert dispatches[..j + 1][..j] == dispatches[..j];
        assert dispatches[j] in dispatches;
        calls := calls + [Call(dispatches[j].listener, events[dispatches[j].eventIndex])];
        j := j + 1;
      }
      assert dispatches[..|dispatches|] == dispatches;
    }
  }

  /** A sleep listener registered and not removed is dispatched for every sleep or wake event of its body. */
  lemma SleepListenerReached(events: seq<PhysicsEvent>, byBody: map<U64, seq<nat>>, listeners: map<nat, SleepEntry>, i: nat, t: nat)
    requires PhysicsSystem.TokensListed(listeners, byBody)
    requires i < |events| && t in listeners && listeners[t].listener != NoCallback
    requires events[i].kind == BodySleep || events[i].kind == BodyWake
    requires events[i].bodyA == BodyHandle(true, listeners[t].body)
    ensures Dispatch(i, listeners[t].listener) in SleepDispatches(events, byBody, listeners)
  {
    TokenDispatchesExactly(i, byBody[listeners[t].body], listeners);
    SleepDispatchesPrefix(events, byBody, listeners, i + 1);
    assert events[..i + 1][..i] == events[..i];
  }

  /** The dispatches of a prefix of the events come first. */
  lemma {:induction false} SleepDispatchesPrefix(events: seq<PhysicsEvent>, byBody: map<U64, seq<nat>>, listeners: map<nat, SleepEntry>, n: nat)
    requires n <= |events|
    ensures forall d :: d in SleepDispatches(events[..n], byBody, listeners) ==> d in SleepDispatches(events, byBody, listeners)
    decreases |events| - n
  {
    if n < |events| {
      SleepDispatchesPrefix(events, byBody, listeners, n + 1);
      assert events[..n + 1][..n] == events[..n];
    } else {
      assert events[..n] == events;
    }
  }
}
