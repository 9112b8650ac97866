/** `InMemoryEventBusSubscriptionManager`: the in-memory registry from
    normalised event name to the ordered list of handler registrations, plus
    the list of event types seen so far. It is mutated in place and raises
    `OnEventRemoved` when the last handler of a name goes away. */
module SubManagers {
  import opened Common
  import opened DotNet
  import opened SubscriptionInfos

  class InMemoryEventBusSubscriptionManager {
    /** Normalised event name to its registrations, in registration order. */
    var handlers: map<string, seq<SubscriptionInfo>>
    /** Event types registered through AddSubscription, in first-seen order. */
    var eventTypes: seq<TypeRef>
    /** Every `OnEventRemoved` notification raised so far, oldest first. The
        subscribers that react to it (broker unbinding) are not modelled. */
    ghost var removedEvents: seq<string>
    /** Maps a type's short name to its registry key (the bus passes its
        event-name normaliser). */
    const eventNameGetter: string -> string

    /** The registry invariant: no name maps to an empty list, no handler
        type is registered twice under one name, no event type is listed twice. */
    ghost predicate Valid()
      reads this
    {
      && (forall name :: name in handlers ==> handlers[name] != [])
      && (forall name :: name in handlers ==> NoDuplicates(handlers[name]))
      && NoDuplicates(eventTypes)
    }

    /** Whether `handlerType` is registered for `name`. */
    ghost predicate IsRegistered(name: string, handlerType: TypeRef)
      reads this
    {
      name in handlers && SubscriptionInfo(handlerType) in handlers[name]
    }

    constructor (eventNameGetter: string -> string)
      ensures Valid()
      ensures this.eventNameGetter == eventNameGetter
      ensures handlers == map[] && eventTypes == [] && removedEvents == []
    {
      this.eventNameGetter := eventNameGetter;
      handlers := map[];
      eventTypes := [];
      removedEvents := [];
    }

    /** True exactly when no event name has a registration. */
    function IsEmpty(): (r: bool)
      reads this
      ensures r <==> handlers.Keys == {}
      ensures r ==> forall name, h :: !IsRegistered(name, h)
    {
      |handlers| == 0
    }

    /** Drops every registration at once: the event-type list stays as it
        was and no removal notification is raised. */
    method Clear()
      requires Valid()
      modifies this
      ensures Valid()
      ensures handlers == map[] && IsEmpty()
      ensures eventTypes == old(eventTypes) && removedEvents == old(removedEvents)
    {
      handlers := map[];
    }

    /** The registry key of an event type: the name getter applied to the
        type's short name (`typeof(T).Name`). */
    function GetEventKey(eventType: TypeRef): (key: string)
      ensures key == eventNameGetter(eventType.name)
    {
      eventNameGetter(eventType.name)
    }

    /** Whether `name` is a key; under the invariant, whether it has at
        least one registered handler. */
    function HasSubscriptionsForEvent(name: string): (r: bool)
      reads this
      requires Valid()
      ensures r <==> name in handlers
      ensures r <==> exists h :: IsRegistered(name, h)
    {
      assert name in handlers ==> IsRegistered(name, handlers[name][0].handlerType);
      name in handlers
    }

    /** The generic overload: looks the type up under its key. */
    function HasSubscriptionsForEventType(eventType: TypeRef): (r: bool)
      reads this
      requires Valid()
      ensures r <==> eventNameGetter(eventType.name) in handlers
      ensures r <==> exists h :: IsRegistered(GetEventKey(eventType), h)
    {
      HasSubscriptionsForEvent(GetEventKey(eventType))
    }

    /** The registrations of `name`, in registration order. The dictionary
        indexer throws for a missing key, so the key must be present. */
    function GetHandlersForEvent(name: string): (r: seq<SubscriptionInfo>)
      reads this
      requires Valid() && name in handlers
      ensures r == handlers[name]
      ensures r != [] && NoDuplicates(r)
    {
      handlers[name]
    }

    /** The generic overload of GetHandlersForEvent. */
    function GetHandlersForEventType(eventType: TypeRef): (r: seq<SubscriptionInfo>)
      reads this
      requires Valid() && eventNameGetter(eventType.name) in handlers
      ensures r == handlers[eventNameGetter(eventType.name)]
      ensures r != []
    {
      GetHandlersForEvent(GetEventKey(eventType))
    }

    /** `_eventTypes.SingleOrDefault(c => c.Name == name)`: null when no
        registered type has that short name, the type when exactly one has,
        InvalidOperationException when two or more share it. */
    function GetEventTypeByName(name: string): (r: Result<Option<TypeRef>>)
      reads this
      ensures r == Ok(None) <==> forall t :: t in eventTypes ==> t.name != name
      ensures r.Ok? && r.value.Some? ==> r.value.value in eventTypes && r.value.value.name == name
      ensures r.Err? ==> r.error == InvalidOperationException && CountNamed(eventTypes, name) >= 2
      ensures r.Err? <==> CountNamed(eventTypes, name) >= 2
      ensures (r.Ok? && r.value.Some?) <==> CountNamed(eventTypes, name) == 1
    {
      SingleOrDefaultNamed(eventTypes, name)
    }

    /** The registration to remove for (`name`, `handlerType`), or null when
        the name has no key or no such handler. LINQ's SingleOrDefault would
        throw on two matches, which the invariant rules out. */
    function FindSubscriptionToRemove(name: string, handlerType: TypeRef): (r: Option<SubscriptionInfo>)
      reads this
      requires Valid()
      ensures r.Some? <==> IsRegistered(name, handlerType)
      ensures r.Some? ==> r.value.handlerType == handlerType && r.value in handlers[name]
    {
      if !HasSubscriptionsForEvent(name) then None
      else if SubscriptionInfo(handlerType) in handlers[name] then Some(SubscriptionInfo(handlerType))
      else None
    }

    /** The private `AddSubscription(handlerType, eventName)`: creates the
        key with an empty list when absent, throws ArgumentException when the
        handler type is already in the list, and appends otherwise. */
    method AddHandler(handlerType: TypeRef, eventName: string) returns (outcome: Outcome)
      requires Valid()
      modifies this`handlers
      ensures Valid()
      ensures old(IsRegistered(eventName, handlerType)) ==>
        outcome == Fail(ArgumentException("handlerType")) && handlers == old(handlers)
      ensures !old(IsRegistered(eventName, handlerType)) ==>
        outcome == Pass &&
        handlers == old(handlers)[eventName :=
          (if eventName in old(handlers) then old(handlers[eventName]) else []) + [SubscriptionInfo(handlerType)]]
    {
      if !HasSubscriptionsForEvent(eventName) {
        handlers := handlers[eventName := []];
      }
      if SubscriptionInfo(handlerType) in handlers[eventName] {
        return Fail(ArgumentException("handlerType"));
      }
      var info := Typed(Some(handlerType)).value;
      var list := handlers[eventName];
      assert NoDuplicates(list + [info]) by {
        forall i, j | 0 <= i < j < |list + [info]| ensures (list + [info])[i] != (list + [info])[j] {
          if j == |list| {
            assert (list + [info])[i] == list[i];
          } else {
            assert (list + [info])[i] == list[i] && (list + [info])[j] == list[j];
          }
        }
      }
      handlers := handlers[eventName := list + [info]];
      outcome := Pass;
    }

    /** `AddSubscription<T, TH>()`: registers `handlerType` under the key of
        `eventType`. A duplicate pair throws ArgumentException and changes
        nothing; otherwise the handler is appended at the end of its name's
        list (created if absent), no other name changes, and the event type
        is appended to the type list if it is not already there. */
    method AddSubscription(eventType: TypeRef, handlerType: TypeRef) returns (outcome: Outcome)
      requires Valid()
      modifies this`handlers, this`eventTypes
      ensures Valid()
      ensures var key := eventNameGetter(eventType.name);
        if old(IsRegistered(key, handlerType)) then
          outcome == Fail(ArgumentException("handlerType")) &&
          handlers == old(handlers) && eventTypes == old(eventTypes)
        else
          outcome == Pass && IsRegistered(key, handlerType) &&
          handlers == old(handlers)[key :=
            (if key in old(handlers) then old(handlers[key]) else []) + [SubscriptionInfo(handlerType)]] &&
          eventTypes == (if eventType in old(eventTypes) then old(eventTypes) else old(eventTypes) + [eventType])
    {
      var eventName := GetEventKey(eventType);
      outcome := AddHandler(handlerType, eventName);
      if outcome.Pass? && eventType !in eventTypes {
        assert NoDuplicates(eventTypes + [eventType]) by {
          var ts := eventTypes + [eventType];
          forall i, j | 0 <= i < j < |ts| ensures ts[i] != ts[j] {
            assert ts[i] == eventTypes[i];
          }
        }
        eventTypes := eventTypes + [eventType];
      }
    }

    /** The private `RemoveHandler(eventName, subsToRemove)`: nothing happens
        for null. Otherwise the registration is removed from its list; if the
        list is then empty the key is deleted, the event type whose short name
        equals `eventName` (if exactly one does) is dropped from the type list,
        and `OnEventRemoved(eventName)` is raised. When two registered types
        share that short name, SingleOrDefault throws after the key is gone
        and before the notification. */
    method RemoveHandler(eventName: string, subsToRemove: Option<SubscriptionInfo>) returns (outcome: Outcome)
      requires Valid()
      requires subsToRemove.Some? ==> eventName in handlers && subsToRemove.value in handlers[eventName]
      modifies this`handlers, this`eventTypes, this`removedEvents
      ensures Valid()
      ensures subsToRemove.None? ==>
        outcome == Pass && handlers == old(handlers) && eventTypes == old(eventTypes) &&
        removedEvents == old(removedEvents)
      ensures subsToRemove.Some? && |old(handlers[eventName])| > 1 ==>
        outcome == Pass &&
        handlers == old(handlers)[eventName := RemoveFirst(old(handlers[eventName]), subsToRemove.value)] &&
        eventTypes == old(eventTypes) && removedEvents == old(removedEvents)
      ensures subsToRemove.Some? && |old(handlers[eventName])| == 1 ==>
        handlers == old(handlers) - {eventName}
      ensures (subsToRemove.Some? && |old(handlers[eventName])| == 1 &&
               SingleOrDefaultNamed(old(eventTypes), eventName).Err?) ==>
        outcome == Fail(InvalidOperationException) && eventTypes == old(eventTypes) &&
        removedEvents == old(removedEvents)
      ensures (subsToRemove.Some? && |old(handlers[eventName])| == 1 &&
               SingleOrDefaultNamed(old(eventTypes), eventName) == Ok(None)) ==>
        outcome == Pass && eventTypes == old(eventTypes) && removedEvents == old(removedEvents) + [eventName]
      ensures (subsToRemove.Some? && |old(handlers[eventName])| == 1 &&
               SingleOrDefaultNamed(old(eventTypes), eventName).Ok? &&
               SingleOrDefaultNamed(old(eventTypes), eventName).value.Some?) ==>
        outcome == Pass &&
        eventTypes == RemoveFirst(old(eventTypes), SingleOrDefaultNamed(old(eventTypes), eventName).value.value) &&
        removedEvents == old(removedEvents) + [eventName]
    {
      if subsToRemove.None? {
        return Pass;
      }
      var list := handlers[eventName];
      var rest := RemoveFirst(list, subsToRemove.value);
      RemoveFirstWithoutDuplicates(list, subsToRemove.value);
      handlers := handlers[eventName := rest];
      if |handlers[eventName]| == 0 {
        handlers := handlers - {eventName};
        var eventType := GetEventTypeByName(eventName);
        if eventType.Err? {
          return Fail(eventType.error);
        }
        if eventType.value.Some? {
          RemoveFirstWithoutDuplicates(eventTypes, eventType.value.value);
          eventTypes := RemoveFirst(eventTypes, eventType.value.value);
        }
        RaiseOnEventRemoved(eventName);
      }
      outcome := Pass;
    }

    /** Raises `OnEventRemoved(eventName)`; here: records it. */
    method RaiseOnEventRemoved(eventName: string)
      modifies this`removedEvents
      ensures removedEvents == old(removedEvents) + [eventName]
    {
      removedEvents := removedEvents + [eventName];
    }

    /** `RemoveSubscription<T, TH>()`. Removing a pair that is not registered
        (unknown key or unknown handler) changes nothing and raises nothing.
        Removing one of several handlers of a name keeps the name and raises
        nothing. Removing the last handler deletes the name and raises
        `OnEventRemoved` exactly once with that name, unless two registered
        event types share the name, in which case InvalidOperationException is
        thrown instead of the notification. In every case the pair is no
        longer registered afterwards. */
    method RemoveSubscription(eventType: TypeRef, handlerType: TypeRef) returns (outcome: Outcome)
      requires Valid()
      modifies this`handlers, this`eventTypes, this`removedEvents
      ensures Valid()
      ensures !IsRegistered(GetEventKey(eventType), handlerType)
      // not registered: a silent no-op
      ensures !old(IsRegistered(GetEventKey(eventType), handlerType)) ==>
        outcome == Pass && handlers == old(handlers) && eventTypes == old(eventTypes) &&
        removedEvents == old(removedEvents)
      // one of several handlers: only that handler goes, order of the rest kept
      ensures old(IsRegistered(GetEventKey(eventType), handlerType)) && |old(handlers[GetEventKey(eventType)])| > 1 ==>
        var key := GetEventKey(eventType);
        outcome == Pass && key in handlers &&
        handlers == old(handlers)[key := RemoveFirst(old(handlers[key]), SubscriptionInfo(handlerType))] &&
        (forall s :: s in handlers[key] <==> s in old(handlers[key]) && s.handlerType != handlerType) &&
        eventTypes == old(eventTypes) && removedEvents == old(removedEvents)
      // the last handler: the name goes, and OnEventRemoved fires once unless the type lookup throws
      ensures old(IsRegistered(GetEventKey(eventType), handlerType)) && |old(handlers[GetEventKey(eventType)])| == 1 ==>
        var key := GetEventKey(eventType);
        old(handlers[key]) == [SubscriptionInfo(handlerType)] && handlers == old(handlers) - {key} &&
        (outcome.Pass? <==> CountNamed(old(eventTypes), key) <= 1) &&
        (outcome.Pass? ==> removedEvents == old(removedEvents) + [key]) &&
        (outcome.Fail? ==> outcome.error == InvalidOperationException && removedEvents == old(removedEvents)) &&
        (forall t :: t in eventTypes <==> t in old(eventTypes) && (outcome.Fail? || t.name != key))
    {
      var handlerToRemove := FindSubscriptionToRemove(GetEventKey(eventType), handlerType);
      var eventName := GetEventKey(eventType);
      if handlerToRemove.Some? {
        ghost var list := handlers[eventName];
        RemoveFirstElements(list, handlerToRemove.value);
        RemoveFirstWithoutDuplicates(list, handlerToRemove.value);
        if |list| == 1 {
          assert list == [list[0]];
        }
        var found := SingleOrDefaultNamed(eventTypes, eventName);
        if found.Ok? && found.value.Some? {
          RemoveFirstElements(eventTypes, found.value.value);
          RemoveFirstWithoutDuplicates(eventTypes, found.value.value);
          forall t | t in eventTypes && t.name == eventName ensures t == found.value.value {
            CountNamedOne(eventTypes, eventName, t, found.value.value);
          }
        }
      }
      outcome := RemoveHandler(eventName, handlerToRemove);
    }
  }

  /** RemoveSubscription undoes AddSubscription on the handler map: take a
      map `hs` where `info` is not yet registered under `key` (and no key
      holds an empty list). AddSubscription sets `key` to the old list (or
      nothing) plus `info`. RemoveSubscription then either removes `info`
      from a list that still has other entries, or deletes `key` when `info`
      was its only entry. Either way `hs` comes back unchanged. */
  lemma RemoveUndoesAdd(hs: map<string, seq<SubscriptionInfo>>, key: string, info: SubscriptionInfo)
    requires key in hs ==> hs[key] != [] && info !in hs[key]
    ensures var added := hs[key := (if key in hs then hs[key] else []) + [info]];
      && (|added[key]| > 1 ==> added[key := RemoveFirst(added[key], info)] == hs)
      && (|added[key]| == 1 ==> added - {key} == hs)
  {
    if key in hs {
      RemoveFirstAppended(hs[key], info);
      UpdateRestored(hs, key, hs[key] + [info]);
    } else {
      UpdateRemoved(hs, key, [info]);
    }
  }

  /** Overwriting a key and then writing its old value back restores the map. */
  lemma UpdateRestored<K, V>(m: map<K, V>, k: K, v: V)
    requires k in m
    ensures m[k := v][k := m[k]] == m
  {
  }

  /** Adding a fresh key and then removing it restores the map. */
  lemma UpdateRemoved<K, V>(m: map<K, V>, k: K, v: V)
    requires k !in m
    ensures m[k := v] - {k} == m
  {
  }
}
