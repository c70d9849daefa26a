/**
 * The application-wide event emitter: a registry from event names to the
 * listeners registered for them, in registration order. Listeners are opaque
 * and stand here as identifiers; emitting returns the calls made.
 */
module ErrorEmitter {

  type EventName = string
  type ListenerId = nat
  type Registry = map<EventName, seq<ListenerId>>

  /** One invocation `listener(payload)`. */
  datatype Call<P> = Call(listener: ListenerId, payload: P)

  /** The listeners of an event; none when the event has no entry. */
  function Lookup(registry: Registry, event: EventName): (ls: seq<ListenerId>)
    ensures event !in registry ==> ls == []
  {
    if event in registry then registry[event] else []
  }

  /** `on`: create the event's list if it has none, then append the listener. */
  function Register(registry: Registry, event: EventName, listener: ListenerId): (r: Registry)
    ensures r.Keys == registry.Keys + {event}
    ensures Lookup(r, event) == Lookup(registry, event) + [listener]
    ensures event !in registry ==> r[event] == [listener]
    ensures forall other :: other != event ==> Lookup(r, other) == Lookup(registry, other)
  {
    registry[event := Lookup(registry, event) + [listener]]
  }

  /** `forEach(l => l(payload))`: each listener once, in order, with the same payload. */
  function Dispatch<P>(listeners: seq<ListenerId>, payload: P): (calls: seq<Call<P>>)
    ensures |calls| == |listeners|
    ensures forall i :: 0 <= i < |listeners| ==> calls[i] == Call(listeners[i], payload)
  {
    if listeners == [] then [] else [Call(listeners[0], payload)] + Dispatch(listeners[1..], payload)
  }

  /** Registering a listener adds exactly one call to it at the end of every later emit. */
  lemma RegisterThenDispatch<P>(registry: Registry, event: EventName, listener: ListenerId, payload: P)
    ensures Dispatch(Lookup(Register(registry, event, listener), event), payload)
         == Dispatch(Lookup(registry, event), payload) + [Call(listener, payload)]
  {
    var before := Dispatch(Lookup(registry, event), payload);
    var after := Dispatch(Lookup(Register(registry, event, listener), event), payload);
    assert |after| == |before| + 1;
    assert forall i :: 0 <= i < |before| ==> after[i] == before[i];
  }

  /** No deduplication: a listener registered twice is called twice more per emit. */
  lemma RegisterTwiceCallsTwice<P>(registry: Registry, event: EventName, listener: ListenerId, payload: P)
    ensures var twice := Register(Register(registry, event, listener), event, listener);
      multiset(Dispatch(Lookup(twice, event), payload))[Call(listener, payload)]
        == multiset(Dispatch(Lookup(registry, event), payload))[Call(listener, payload)] + 2
  {
    var once := Register(registry, event, listener);
    RegisterThenDispatch(registry, event, listener, payload);
    RegisterThenDispatch(once, event, listener, payload);
  }

  /** An event nobody listens to calls nothing. */
  lemma DispatchUnknownEvent<P>(registry: Registry, event: EventName, payload: P)
    requires event !in registry
    ensures Dispatch(Lookup(registry, event), payload) == []
  {
  }

  /** The emitter object with its private listener registry. */
  class Emitter<P> {
    var listeners: Registry

    constructor ()
      ensures listeners == map[]
    {
      listeners := map[];
    }

    /** `on(event, listener)`. */
    method On(event: EventName, listener: ListenerId)
      modifies this
      ensures listeners == Register(old(listeners), event, listener)
    {
      if event !in listeners {
        listeners := listeners[event := []];
      }
      listeners := listeners[event := listeners[event] + [listener]];
    }

    /**
     * `emit(event, payload)`: calls the event's listeners in registration
     * order, each once with the payload; the registry is left as it was.
     */
    method Emit(event: EventName, payload: P) returns (calls: seq<Call<P>>)
      ensures calls == Dispatch(Lookup(listeners, event), payload)
    {
      calls := [];
      if event in listeners {
        var registered := listeners[event];
        var i := 0;
        while i < |registered|
          invariant 0 <= i <= |registered|
          invariant |calls| == i
          invariant forall k :: 0 <= k < i ==> calls[k] == Call(registered[k], payload)
        {
          calls := calls + [Call(registered[i], payload)];
          i := i + 1;
        }
      }
    }
  }
}
