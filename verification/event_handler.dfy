/** The `EventHandler` that the worker shim uses to stand in for a DOM event
    target: `onclick`/`onmessage` properties plus, per event type, a `Set` of
    listeners kept in insertion order. Listeners are handles here; calling
    one is recorded as its appearance in the dispatch order. */
module Events {
  import opened Wrappers

  /** A listener function, compared by reference as a `Set` compares it. */
  type Listener = nat

  /** No listener occurs twice: the contents of a JavaScript `Set`. */
  predicate NoDup(s: seq<Listener>) {
    forall i, j :: 0 <= i < j < |s| ==> s[i] != s[j]
  }

  /** `Set.prototype.add`: a new listener goes to the end, a present one
      keeps its place. */
  function Added(s: seq<Listener>, x: Listener): (r: seq<Listener>)
    ensures NoDup(s) ==> NoDup(r)
    ensures x in r
    ensures forall y :: y in r <==> y in s || y == x
    ensures |s| <= |r| && r[..|s|] == s
  {
    if x in s then s else s + [x]
  }

  /** `Set.prototype.delete`: the listener is dropped, the others keep their
      order. */
  function Removed(s: seq<Listener>, x: Listener): (r: seq<Listener>)
    ensures NoDup(s) ==> NoDup(r)
    ensures x !in r
    ensures forall y :: y in r <==> y in s && y != x
    ensures |r| <= |s|
  {
    if s == [] then []
    else
      var rest := Removed(s[1..], x);
      assert NoDup(s) ==> s[0] !in s[1..];
      if s[0] == x then rest else [s[0]] + rest
  }

  /** The listeners registered for `type`; a type never added has none. */
  function Listeners(events: map<string, seq<Listener>>, eventType: string): seq<Listener> {
    if eventType in events then events[eventType] else []
  }

  /** What `dispatchEvent` calls, in order: the `on<type>` property when it
      is set, then every listener of the type's set. Only `onclick` and
      `onmessage` exist as properties. */
  function Dispatched(onclick: Option<Listener>, onmessage: Option<Listener>, events: map<string, seq<Listener>>, eventType: string): (r: seq<Listener>)
    ensures |r| == |Listeners(events, eventType)| +
      (if (eventType == "click" && onclick.Some?) || (eventType == "message" && onmessage.Some?) then 1 else 0)
    ensures r[|r| - |Listeners(events, eventType)|..] == Listeners(events, eventType)
  {
    var on := if eventType == "click" then onclick else if eventType == "message" then onmessage else None;
    (if on.Some? then [on.value] else []) + Listeners(events, eventType)
  }

  /** Adding the same listener twice registers it once. */
  lemma {:induction false} AddIdempotent(s: seq<Listener>, x: Listener)
    ensures Added(Added(s, x), x) == Added(s, x)
  {
  }

  /** A listener that was not registered is removed again without trace. */
  lemma {:induction false} RemoveUndoesAdd(s: seq<Listener>, x: Listener)
    requires x !in s
    ensures Removed(Added(s, x), x) == s
  {
    RemoveAbsent(s, x);
    RemoveLast(s, x);
  }

  /** Removing a listener that is not there changes nothing. */
  lemma {:induction false} RemoveAbsent(s: seq<Listener>, x: Listener)
    requires x !in s
    ensures Removed(s, x) == s
  {
    if s != [] {
      RemoveAbsent(s[1..], x);
    }
  }

  lemma {:induction false} RemoveLast(s: seq<Listener>, x: Listener)
    ensures Removed(s + [x], x) == Removed(s, x)
  {
    if s != [] {
      assert (s + [x])[1..] == s[1..] + [x];
      RemoveLast(s[1..], x);
    } else {
      assert [x][1..] == [];
    }
  }

  class EventHandler {
    var onclick: Option<Listener>
    var onmessage: Option<Listener>
    var events: map<string, seq<Listener>>

    /** Every listener set holds each listener once. */
    predicate Valid()
      reads this
    {
      forall t :: t in events ==> NoDup(events[t])
    }

    /** A handler with no properties set and no listeners. */
    constructor()
      ensures Valid()
      ensures onclick == None && onmessage == None && events == map[]
    {
      onclick := None;
      onmessage := None;
      events := map[];
    }

    /** `addEventListener`: the type's set is created when missing, then the
        listener is added to it. */
    method AddEventListener(eventType: string, cb: Listener)
      requires Valid()
      modifies this
      ensures Valid()
      ensures events == old(events)[eventType := Added(Listeners(old(events), eventType), cb)]
      ensures onclick == old(onclick) && onmessage == old(onmessage)
    {
      if eventType !in events {
        events := events[eventType := []];
      }
      events := events[eventType := Added(events[eventType], cb)];
    }

    /** `removeEventListener`: the listener is deleted from the type's set
        when there is one; a missing type is not created. */
    method RemoveEventListener(eventType: string, cb: Listener)
      requires Valid()
      modifies this
      ensures Valid()
      ensures events == if eventType in old(events) then old(events)[eventType := Removed(old(events)[eventType], cb)] else old(events)
      ensures onclick == old(onclick) && onmessage == old(onmessage)
    {
      if eventType in events {
        events := events[eventType := Removed(events[eventType], cb)];
      }
    }

    /** `dispatchEvent`: the listeners called, in the order they are called. */
    method DispatchEvent(eventType: string) returns (called: seq<Listener>)
      ensures called == Dispatched(onclick, onmessage, events, eventType)
    {
      var head: seq<Listener> := [];
      if eventType == "click" && onclick.Some? {
        head := [onclick.value];
      } else if eventType == "message" && onmessage.Some? {
        head := [onmessage.value];
      }
      called := head;
      if eventType in events {
        var listeners := events[eventType];
        for i := 0 to |listeners|
          invariant called == head + listeners[..i]
        {
          called := called + [listeners[i]];
        }
        assert listeners[..|listeners|] == listeners;
      }
    }
  }

  /** A listener removed from a type is no longer called for it, unless it
      is also that type's `on` property. */
  lemma {:induction false} RemovedNotDispatched(onclick: Option<Listener>, onmessage: Option<Listener>,
                                                  events: map<string, seq<Listener>>, eventType: string, cb: Listener)
    requires eventType in events
    requires onclick != Some(cb) && onmessage != Some(cb)
    ensures cb !in Dispatched(onclick, onmessage, events[eventType := Removed(events[eventType], cb)], eventType)
  {
  }
}
