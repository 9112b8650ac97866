/** `BaseEventBus`: the broker-independent half of every adapter. It
    normalises event names, derives queue/subscription names, and dispatches
    an incoming (name, message) pair to the registered handlers. */
module Events {
  import opened Common
  import opened DotNet
  import opened Config
  import opened SubscriptionInfos
  import opened SubManagers

  // ---------------------------------------------------------------------
  // Event names
  // ---------------------------------------------------------------------

  /** `ProcessEventName`: when a prefix is configured, strips every leading
      character that occurs in the prefix; when a suffix is configured,
      strips every trailing character that occurs in the suffix. These are
      character SETS: the literal prefix or suffix is not what is matched. */
  function ProcessEventName(config: EventBusConfig, eventName: string): (r: string)
    ensures |r| <= |eventName|
    ensures DeleteEventPrefix(config) && r != [] ==> r[0] !in config.eventNamePrefix.value
    ensures DeleteEventSuffix(config) && r != [] ==> r[|r| - 1] !in config.eventNameSuffix.value
    ensures !DeleteEventPrefix(config) && !DeleteEventSuffix(config) ==> r == eventName
  {
    var trimmedStart :=
      if DeleteEventPrefix(config) then TrimStart(eventName, config.eventNamePrefix.value) else eventName;
    if DeleteEventSuffix(config) then TrimEnd(trimmedStart, config.eventNameSuffix.value) else trimmedStart
  }

  /** The result of ProcessEventName is the slice `eventName[i..j]`; what was
      cut from the front consists of prefix characters only (nothing when no
      prefix is configured), and what was cut from the back of suffix
      characters only (nothing when no suffix is configured). */
  lemma ProcessEventNameIsSlice(config: EventBusConfig, eventName: string) returns (i: nat, j: nat)
    ensures i <= j <= |eventName| && ProcessEventName(config, eventName) == eventName[i..j]
    ensures forall k :: 0 <= k < i ==> eventName[k] in Interpolated(config.eventNamePrefix)
    ensures forall k :: j <= k < |eventName| ==> eventName[k] in Interpolated(config.eventNameSuffix)
    ensures !DeleteEventPrefix(config) ==> i == 0
    ensures !DeleteEventSuffix(config) ==> j == |eventName|
  {
    var p := Interpolated(config.eventNamePrefix);
    var q := Interpolated(config.eventNameSuffix);
    var t := eventName;
    if DeleteEventPrefix(config) {
      t := TrimStart(eventName, p);
    }
    i := |eventName| - |t|;
    assert t == eventName[i..];
    assert forall k :: 0 <= k < i ==> eventName[k] in p;
    var r := t;
    if DeleteEventSuffix(config) {
      r := TrimEnd(t, q);
    }
    assert r == ProcessEventName(config, eventName);
    j := i + |r|;
    assert r == t[..|r|];
    forall k | j <= k < |eventName| ensures eventName[k] in q {
      assert eventName[k] == t[k - i];
    }
  }


  /** ProcessEventName is idempotent: normalising a normalised name changes
      nothing, so names the callers already normalised survive the second
      normalisation in ProcessEvent and in the adapters. */
  lemma ProcessEventNameIdempotent(config: EventBusConfig, eventName: string)
    ensures ProcessEventName(config, ProcessEventName(config, eventName)) == ProcessEventName(config, eventName)
  {
    var r := ProcessEventName(config, eventName);
    if DeleteEventPrefix(config) {
      TrimStartNoop(r, config.eventNamePrefix.value);
    }
    if DeleteEventSuffix(config) {
      TrimEndNoop(r, config.eventNameSuffix.value);
    }
  }

  /** `GetSubName`: the application name, a dot, and the normalised event
      name; the part after the dot can be read back. */
  function GetSubName(config: EventBusConfig, eventName: string): (r: string)
    ensures |r| == |config.subscriberClientAppName| + 1 + |ProcessEventName(config, eventName)|
    ensures r[..|config.subscriberClientAppName|] == config.subscriberClientAppName
    ensures r[|config.subscriberClientAppName|] == '.'
    ensures r[|config.subscriberClientAppName| + 1..] == ProcessEventName(config, eventName)
  {
    config.subscriberClientAppName + "." + ProcessEventName(config, eventName)
  }

  /** The adapters pass already-normalised names to GetSubName; that gives
      the same queue name as the raw type name would. */
  lemma GetSubNameOfNormalised(config: EventBusConfig, eventName: string)
    ensures GetSubName(config, ProcessEventName(config, eventName)) == GetSubName(config, eventName)
  {
    ProcessEventNameIdempotent(config, eventName);
  }

  /** The name ProcessEvent looks the event type up under: the configured
      prefix, the normalised name and the configured suffix, with a null
      prefix or suffix contributing nothing. */
  function LookupName(config: EventBusConfig, name: string): (r: string)
    ensures |r| == |Interpolated(config.eventNamePrefix)| + |name| + |Interpolated(config.eventNameSuffix)|
    ensures r[..|Interpolated(config.eventNamePrefix)|] == Interpolated(config.eventNamePrefix)
    ensures r[|Interpolated(config.eventNamePrefix)|..|Interpolated(config.eventNamePrefix)| + |name|] == name
    ensures r[|Interpolated(config.eventNamePrefix)| + |name|..] == Interpolated(config.eventNameSuffix)
  {
    Interpolated(config.eventNamePrefix) + name + Interpolated(config.eventNameSuffix)
  }

  /** Normalisation undoes the lookup name when the name proper
      neither starts with a prefix character nor ends with a suffix
      character: then `prefix + base + suffix` is keyed as `base`, and
      ProcessEvent's lookup name for that key is the type name again. The
      repository's own event, `OrderCreatedIntegrationEvent` with suffix
      `IntegrationEvent`, is such a case ('d' is not a letter of the suffix).
      The two lemmas below give the converse for a configured prefix or
      suffix. */
  lemma AffixRoundTrip(config: EventBusConfig, base: string)
    requires base != []
    requires base[0] !in Interpolated(config.eventNamePrefix)
    requires base[|base| - 1] !in Interpolated(config.eventNameSuffix)
    ensures ProcessEventName(config, LookupName(config, base)) == base
  {
    var p := Interpolated(config.eventNamePrefix);
    var q := Interpolated(config.eventNameSuffix);
    var name := LookupName(config, base);
    assert name == p + (base + q);
    var afterStart := if DeleteEventPrefix(config) then TrimStart(name, p) else name;
    if DeleteEventPrefix(config) {
      TrimStartOfPrefixed(p, base + q);
    } else {
      assert p == [];
    }
    assert afterStart == base + q;
    if DeleteEventSuffix(config) {
      TrimEndOfSuffixed(base, q);
      assert TrimEnd(afterStart, q) == base;
    } else {
      assert q == [] && afterStart == base;
    }
  }

  /** A string that does not start with a character of `chars` differs
      from one that does. */
  lemma FirstCharacterDiffers(r: string, base: string, chars: string)
    requires r == [] || r[0] !in chars
    requires base != [] && base[0] in chars
    ensures r != base
  {
  }

  /** A string that does not end with a character of `chars` differs from
      one that does. */
  lemma LastCharacterDiffers(r: string, base: string, chars: string)
    requires r == [] || r[|r| - 1] !in chars
    requires base != [] && base[|base| - 1] in chars
    ensures r != base
  {
  }

  /** Different keys give different lookup names: the key is the middle
      of its lookup name. */
  lemma KeyDeterminesLookupName(config: EventBusConfig, a: string, b: string)
    ensures LookupName(config, a) == LookupName(config, b) <==> a == b
  {
    var p := Interpolated(config.eventNamePrefix);
    if LookupName(config, a) == LookupName(config, b) {
      assert |a| == |b|;
      assert a == LookupName(config, a)[|p|..|p| + |a|];
    }
  }

  /** Conversely, when a prefix is configured and the name proper starts
      with one of its characters, that character is trimmed too: the key is
      not the name proper, and the lookup name built from it is not the type
      name. */
  lemma PrefixTrimsIntoName(config: EventBusConfig, base: string)
    requires DeleteEventPrefix(config)
    requires base != [] && base[0] in config.eventNamePrefix.value
    ensures ProcessEventName(config, LookupName(config, base)) != base
    ensures LookupName(config, ProcessEventName(config, LookupName(config, base))) != LookupName(config, base)
  {
    var r := ProcessEventName(config, LookupName(config, base));
    FirstCharacterDiffers(r, base, config.eventNamePrefix.value);
    KeyDeterminesLookupName(config, r, base);
  }


  /** Likewise when a suffix is configured and the name proper ends with
      one of its characters, that character is trimmed too and the key is
      not the name proper (`PaymentIntegrationEvent` would be keyed as
      `Paym`): the lookup name built from the key is then a different string
      from the type name, and ProcessEvent cannot find the type. */
  lemma SuffixTrimsIntoName(config: EventBusConfig, base: string)
    requires DeleteEventSuffix(config)
    requires base != [] && base[|base| - 1] in config.eventNameSuffix.value
    ensures ProcessEventName(config, LookupName(config, base)) != base
    ensures LookupName(config, ProcessEventName(config, LookupName(config, base))) != LookupName(config, base)
  {
    var r := ProcessEventName(config, LookupName(config, base));
    LastCharacterDiffers(r, base, config.eventNameSuffix.value);
    KeyDeterminesLookupName(config, r, base);
  }


  // ---------------------------------------------------------------------
  // Dispatch
  // ---------------------------------------------------------------------

  /** One attempted handler dispatch: the registration, the instance the
      resolver gave for it, the event type the payload is decoded as, and the
      raw message. */
  datatype Invocation = Invocation(
    subscription: SubscriptionInfo, handler: HandlerInstance, eventType: TypeRef, message: string)

  /** What the runtime does with a message, outside the registry: `decode`
      is `JsonConvert.DeserializeObject(message, type)`, which accepts a null
      type and yields the exception it throws, if any; `invoke` is the awaited
      reflective call of line 65 on a resolved handler and the decoded event,
      and yields the exception it throws, if any. */
  datatype Runtime = Runtime(
    decode: (Option<TypeRef>, string) -> Option<Exception>,
    invoke: (HandlerInstance, TypeRef, string) -> Option<Exception>)

  /** The methods the closed handler interface `IIntegrationEventHandler<T>`
      declares. */
  const HandlerInterfaceMethods: seq<string> := ["HandleAsync"]

  /** The method name ProcessEvent asks reflection for. */
  const ReflectedMethodName: string := "Handle"

  /** `await (Task)concreteType.GetMethod(name)?.Invoke(handler, [event])`,
      where `handleAsync` is what awaiting a handler's HandleAsync yields: a
      method the interface declares is invoked and its task awaited; for any
      other name GetMethod gives null, `?.` gives a null task, and awaiting
      it throws NullReferenceException. */
  function AwaitReflective(
    handleAsync: (HandlerInstance, TypeRef, string) -> Option<Exception>,
    name: string, h: HandlerInstance, t: TypeRef, message: string): Option<Exception>
  {
    if name in HandlerInterfaceMethods then handleAsync(h, t, message) else Some(NullReference)
  }

  /** The reflective call as written never reaches the handler: the
      interface has no `Handle`, so the await always throws
      NullReferenceException, whereas asking for `HandleAsync` would run it. */
  lemma ReflectedMethodMissing(
    handleAsync: (HandlerInstance, TypeRef, string) -> Option<Exception>,
    h: HandlerInstance, t: TypeRef, message: string)
    ensures ReflectedMethodName !in HandlerInterfaceMethods
    ensures AwaitReflective(handleAsync, ReflectedMethodName, h, t, message) == Some(NullReference)
    ensures AwaitReflective(handleAsync, "HandleAsync", h, t, message) == handleAsync(h, t, message)
  {
    assert HandlerInterfaceMethods[0] != ReflectedMethodName;
  }

  /** The runtime ProcessEvent actually runs with: the given decoder, and
      the reflective call of `Handle`. Its `invoke` always throws
      NullReferenceException. */
  function AsWritten(
    decode: (Option<TypeRef>, string) -> Option<Exception>,
    handleAsync: (HandlerInstance, TypeRef, string) -> Option<Exception>): (rt: Runtime)
    ensures rt.decode == decode
    ensures forall h, t, m :: rt.invoke(h, t, m) == Some(NullReference)
  {
    Runtime(decode, (h, t, m) => AwaitReflective(handleAsync, ReflectedMethodName, h, t, m))
  }

  /** Lines 62-65 for a resolved handler with its event type found: decode
      the message as that type, close the handler interface over it, and
      await the reflective call; the first exception is the result. */
  function Dispatch(rt: Runtime, h: HandlerInstance, t: TypeRef, message: string): Option<Exception>
  {
    match rt.decode(Some(t), message)
    case Some(e) => Some(e)
    case None => rt.invoke(h, t, message)
  }

  /** Lines 62-64 with no event type found: the message is still decoded
      (with a null type), and if that succeeds MakeGenericType(null) throws
      ArgumentNullException. */
  function MissingTypeFailure(rt: Runtime, message: string): (e: Exception)
    ensures rt.decode(None, message).Some? ==> e == rt.decode(None, message).value
    ensures rt.decode(None, message).None? ==> e == NullTypeArgument
  {
    match rt.decode(None, message)
    case Some(d) => d
    case None => NullTypeArgument
  }

  /** Reference for the handlers that get called: the registrations whose
      handler type the resolver binds, each with its instance, in list order. */
  function Resolved(subs: seq<SubscriptionInfo>, resolve: TypeRef -> Option<HandlerInstance>)
    : (r: seq<(SubscriptionInfo, HandlerInstance)>)
    ensures |r| <= |subs|
    ensures forall p :: p in r <==> p.0 in subs && resolve(p.0.handlerType) == Some(p.1)
    ensures r == [] <==> forall s :: s in subs ==> resolve(s.handlerType).None?
  {
    if subs == [] then []
    else
      var rest := Resolved(subs[1..], resolve);
      assert subs == [subs[0]] + subs[1..];
      match resolve(subs[0].handlerType)
      case None => rest
      case Some(h) => [(subs[0], h)] + rest
  }

  /** The invocations a list of resolved handlers leads to for one event type. */
  function Calls(resolved: seq<(SubscriptionInfo, HandlerInstance)>, eventType: TypeRef, message: string)
    : (r: seq<Invocation>)
    ensures |r| == |resolved|
    ensures forall k :: 0 <= k < |r| ==>
      r[k] == Invocation(resolved[k].0, resolved[k].1, eventType, message)
  {
    if resolved == [] then []
    else [Invocation(resolved[0].0, resolved[0].1, eventType, message)] + Calls(resolved[1..], eventType, message)
  }

  /** The foreach over the registrations in ProcessEvent, from the current
      one on: an unresolved handler is skipped; for a resolved one the event
      type is looked up (`lookup`, the same on every iteration) and a failed
      lookup throws; with no type found the loop ends in MissingTypeFailure;
      with the type found the handler is dispatched (an Invocation), and an
      exception from that ends the loop. Yields the dispatches attempted and
      the exception that ended the loop, if any. */
  function RunHandlers(
    subs: seq<SubscriptionInfo>,
    resolve: TypeRef -> Option<HandlerInstance>,
    lookup: Result<Option<TypeRef>>,
    rt: Runtime,
    message: string): (r: (seq<Invocation>, Option<Exception>))
    ensures |r.0| <= |subs|
  {
    if subs == [] then ([], None)
    else
      match resolve(subs[0].handlerType)
      case None => RunHandlers(subs[1..], resolve, lookup, rt, message)
      case Some(h) =>
        match lookup
        case Err(e) => ([], Some(e))
        case Ok(None) => ([], Some(MissingTypeFailure(rt, message)))
        case Ok(Some(t)) =>
          var call := Invocation(subs[0], h, t, message);
          match Dispatch(rt, h, t, message)
          case Some(e) => ([call], Some(e))
          case None =>
            var rest := RunHandlers(subs[1..], resolve, lookup, rt, message);
            ([call] + rest.0, rest.1)
  }

  /** When the event type lookup fails or finds nothing, no handler runs:
      the loop ends with that failure at the first resolved handler, and
      completes without error only when no handler resolves at all. */
  lemma {:induction false} RunHandlersWithoutEventType(
    subs: seq<SubscriptionInfo>, resolve: TypeRef -> Option<HandlerInstance>,
    lookup: Result<Option<TypeRef>>, rt: Runtime,
    message: string)
    requires lookup.Err? || lookup == Ok(None)
    ensures RunHandlers(subs, resolve, lookup, rt, message).0 == []
    ensures RunHandlers(subs, resolve, lookup, rt, message).1 ==
      if Resolved(subs, resolve) == [] then None
      else if lookup.Err? then Some(lookup.error)
      else Some(MissingTypeFailure(rt, message))
  {
    if subs != [] {
      RunHandlersWithoutEventType(subs[1..], resolve, lookup, rt, message);
    }
  }

  /** What dispatching `call` throws, if anything. */
  function Thrown(call: Invocation, rt: Runtime): Option<Exception>
  {
    Dispatch(rt, call.handler, call.eventType, call.message)
  }

  /** Reference for running a list of calls one after another where an
      exception aborts the rest: the calls attempted, up to and including the
      first that throws, and that exception. */
  function RunToFirstFailure(calls: seq<Invocation>, rt: Runtime)
    : (r: (seq<Invocation>, Option<Exception>))
    ensures |r.0| <= |calls|
  {
    if calls == [] then ([], None)
    else match Thrown(calls[0], rt)
      case Some(e) => ([calls[0]], Some(e))
      case None =>
        var rest := RunToFirstFailure(calls[1..], rt);
        ([calls[0]] + rest.0, rest.1)
  }

  /** What RunToFirstFailure attempts is a prefix of the calls; every call
      before the last attempted one succeeded; nothing is thrown exactly when
      every call succeeds, and then all were attempted; a thrown exception is
      the last attempted call's. */
  lemma {:induction false} RunToFirstFailureStops(calls: seq<Invocation>, rt: Runtime)
    ensures var r := RunToFirstFailure(calls, rt);
      && r.0 == calls[..|r.0|]
      && (forall k :: 0 <= k < |r.0| - 1 ==> Thrown(r.0[k], rt).None?)
      && (r.1.None? <==> forall k :: 0 <= k < |calls| ==> Thrown(calls[k], rt).None?)
      && (r.1.None? ==> r.0 == calls)
      && (r.1.Some? ==> r.0 != [] && Thrown(r.0[|r.0| - 1], rt) == r.1)
  {
    if calls != [] && Thrown(calls[0], rt).None? {
      RunToFirstFailureStops(calls[1..], rt);
      var rest := RunToFirstFailure(calls[1..], rt);
      var r := RunToFirstFailure(calls, rt);
      assert r == ([calls[0]] + rest.0, rest.1);
      assert calls[..|r.0|] == [calls[0]] + calls[1..][..|rest.0|];
      assert forall k :: 1 <= k < |calls| ==> calls[k] == calls[1..][k - 1];
      assert forall k :: 1 <= k < |r.0| ==> r.0[k] == rest.0[k - 1];
    }
  }

  /** With the event type found, the loop is exactly: keep the registrations
      the resolver binds, in list order, turn each into an invocation of that
      type, and run them until the first one throws. */
  lemma {:induction false} RunHandlersWithEventType(
    subs: seq<SubscriptionInfo>, resolve: TypeRef -> Option<HandlerInstance>,
    t: TypeRef, rt: Runtime, message: string)
    ensures RunHandlers(subs, resolve, Ok(Some(t)), rt, message) ==
      RunToFirstFailure(Calls(Resolved(subs, resolve), t, message), rt)
  {
    if subs != [] {
      RunHandlersWithEventType(subs[1..], resolve, t, rt, message);
      match resolve(subs[0].handlerType)
      case None =>
      case Some(h) =>
        var all := Calls(Resolved(subs, resolve), t, message);
        assert all == [Invocation(subs[0], h, t, message)] + Calls(Resolved(subs[1..], resolve), t, message);
        assert all[1..] == Calls(Resolved(subs[1..], resolve), t, message);
    }
  }

  /** With a reflective call that always throws, as the one written does,
      the loop completes only when no handler resolves: the first
      registration the resolver binds ends it with an exception (from the
      lookup, the decoder, MakeGenericType or the call), after at most that
      one dispatch. */
  lemma {:induction false} RunHandlersFailsOnResolved(
    subs: seq<SubscriptionInfo>, resolve: TypeRef -> Option<HandlerInstance>,
    lookup: Result<Option<TypeRef>>, rt: Runtime, message: string)
    requires forall h, t, m :: rt.invoke(h, t, m).Some?
    ensures RunHandlers(subs, resolve, lookup, rt, message).1.None? <==> Resolved(subs, resolve) == []
    ensures |RunHandlers(subs, resolve, lookup, rt, message).0| <= 1
  {
    if subs != [] {
      RunHandlersFailsOnResolved(subs[1..], resolve, lookup, rt, message);
      match resolve(subs[0].handlerType)
      case None =>
        assert Resolved(subs, resolve) == Resolved(subs[1..], resolve);
      case Some(h) =>
        assert (subs[0], h) in Resolved(subs, resolve);
        match lookup
        case Ok(Some(t)) =>
          assert rt.invoke(h, t, message).Some?;
        case _ =>
    }
  }

  // One turn of the loop, seen from position `i`, one lemma per branch.

  /** A registration the resolver does not bind is skipped. */
  lemma RunHandlersSkip(
    subs: seq<SubscriptionInfo>, i: nat, resolve: TypeRef -> Option<HandlerInstance>,
    lookup: Result<Option<TypeRef>>, rt: Runtime,
    message: string)
    requires i < |subs| && resolve(subs[i].handlerType).None?
    ensures RunHandlers(subs[i..], resolve, lookup, rt, message) ==
      RunHandlers(subs[i + 1..], resolve, lookup, rt, message)
  {
    assert subs[i..][0] == subs[i] && subs[i..][1..] == subs[i + 1..];
  }

  /** A bound handler whose event type cannot be looked up stops the loop
      with the lookup's exception, or the null-type-argument one. */
  lemma RunHandlersStop(
    subs: seq<SubscriptionInfo>, i: nat, resolve: TypeRef -> Option<HandlerInstance>,
    lookup: Result<Option<TypeRef>>, rt: Runtime,
    message: string)
    requires i < |subs| && resolve(subs[i].handlerType).Some?
    requires lookup.Err? || lookup == Ok(None)
    ensures RunHandlers(subs[i..], resolve, lookup, rt, message) ==
      ([], Some(if lookup.Err? then lookup.error else MissingTypeFailure(rt, message)))
  {
    assert subs[i..][0] == subs[i];
  }

  /** A bound handler with the event type found is invoked; if it throws the
      loop stops there, otherwise it goes on with the next registration. */
  lemma RunHandlersInvoke(
    subs: seq<SubscriptionInfo>, i: nat, resolve: TypeRef -> Option<HandlerInstance>,
    h: HandlerInstance, t: TypeRef, rt: Runtime,
    message: string)
    requires i < |subs| && resolve(subs[i].handlerType) == Some(h)
    ensures var call := Invocation(subs[i], h, t, message);
      var next := RunHandlers(subs[i + 1..], resolve, Ok(Some(t)), rt, message);
      RunHandlers(subs[i..], resolve, Ok(Some(t)), rt, message) ==
        if Dispatch(rt, h, t, message).Some? then ([call], Dispatch(rt, h, t, message))
        else ([call] + next.0, next.1)
  {
    assert subs[i..][0] == subs[i] && subs[i..][1..] == subs[i + 1..];
  }

  /** No handler resolves: nothing is invoked and nothing is thrown. */
  lemma {:induction false} RunHandlersNoneResolved(
    subs: seq<SubscriptionInfo>, resolve: TypeRef -> Option<HandlerInstance>,
    lookup: Result<Option<TypeRef>>, rt: Runtime,
    message: string)
    requires forall s :: s in subs ==> resolve(s.handlerType).None?
    ensures RunHandlers(subs, resolve, lookup, rt, message) == ([], None)
  {
    if subs != [] {
      assert subs[0] in subs;
      assert forall s :: s in subs[1..] ==> s in subs;
      RunHandlersNoneResolved(subs[1..], resolve, lookup, rt, message);
    }
  }

  /** Every invocation the loop makes is of a registration in the list,
      with the handler instance the resolver bound for it. */
  lemma {:induction false} RunHandlersCallsResolved(
    subs: seq<SubscriptionInfo>, resolve: TypeRef -> Option<HandlerInstance>,
    lookup: Result<Option<TypeRef>>, rt: Runtime,
    message: string)
    ensures forall c :: c in RunHandlers(subs, resolve, lookup, rt, message).0 ==>
      c.subscription in subs && resolve(c.subscription.handlerType) == Some(c.handler)
  {
    if subs != [] {
      RunHandlersCallsResolved(subs[1..], resolve, lookup, rt, message);
      assert forall s :: s in subs[1..] ==> s in subs;
    }
  }

  /** No registration occurs in two invocations. */
  ghost predicate InvokedAtMostOnce(calls: seq<Invocation>)
  {
    forall i, j :: 0 <= i < j < |calls| ==> calls[i].subscription != calls[j].subscription
  }

  lemma InvokedAtMostOnceCons(call: Invocation, rest: seq<Invocation>)
    requires InvokedAtMostOnce(rest)
    requires forall c :: c in rest ==> c.subscription != call.subscription
    ensures InvokedAtMostOnce([call] + rest)
  {
    var calls := [call] + rest;
    forall i, j | 0 <= i < j < |calls| ensures calls[i].subscription != calls[j].subscription {
      assert calls[j] == rest[j - 1] && calls[j] in rest;
      if i > 0 {
        assert calls[i] == rest[i - 1];
      }
    }
  }

  /** Each registration is invoked at most once per message: the lists the
      registry hands out have no duplicates, and the loop visits every
      registration once. */
  lemma {:induction false} RunHandlersInvokesEachOnce(
    subs: seq<SubscriptionInfo>, resolve: TypeRef -> Option<HandlerInstance>,
    lookup: Result<Option<TypeRef>>, rt: Runtime,
    message: string)
    requires NoDuplicates(subs)
    ensures InvokedAtMostOnce(RunHandlers(subs, resolve, lookup, rt, message).0)
  {
    if subs != [] {
      NoDuplicatesTail(subs);
      RunHandlersInvokesEachOnce(subs[1..], resolve, lookup, rt, message);
      var rest := RunHandlers(subs[1..], resolve, lookup, rt, message).0;
      match resolve(subs[0].handlerType)
      case None =>
      case Some(h) =>
        match lookup
        case Err(_) =>
        case Ok(None) =>
        case Ok(Some(t)) =>
          if Dispatch(rt, h, t, message).None? {
            RunHandlersCallsResolved(subs[1..], resolve, lookup, rt, message);
            InvokedAtMostOnceCons(Invocation(subs[0], h, t, message), rest);
          }
    }
  }

  // ---------------------------------------------------------------------
  // The bus
  // ---------------------------------------------------------------------

  class BaseEventBus {
    /** The configuration; `None` once the bus has been disposed. */
    var config: Option<EventBusConfig>
    /** The registry, created by the bus with ProcessEventName as its name getter. */
    const subscriptions: InMemoryEventBusSubscriptionManager

    constructor (eventBusConfig: EventBusConfig)
      ensures config == Some(eventBusConfig)
      ensures fresh(subscriptions) && subscriptions.Valid()
      ensures subscriptions.handlers == map[] && subscriptions.eventTypes == []
      ensures subscriptions.removedEvents == []
      ensures forall n :: subscriptions.eventNameGetter(n) == ProcessEventName(eventBusConfig, n)
    {
      config := Some(eventBusConfig);
      subscriptions := new InMemoryEventBusSubscriptionManager(n => ProcessEventName(eventBusConfig, n));
    }

    /** `ProcessEvent(eventName, message)`. `resolve` stands for the service
        provider's GetService, `decode` for the JSON decoder and
        `handleAsync` for awaiting a handler's HandleAsync. The name is normalised; with no registrations for it the
        result is false and nothing is dispatched. Otherwise the registrations
        are run as RunHandlers describes, with the event type looked up under
        prefix + name + suffix, and the result is true unless an exception
        escaped. The reflective call asks for `Handle`, which the handler
        interface does not declare, so the run uses AsWritten and the result is
        true exactly when no handler resolves; at most one dispatch is
        attempted. After
        Dispose the configuration is null and normalising the name
        dereferences it. */
    method ProcessEvent(
      eventName: string, message: string,
      resolve: TypeRef -> Option<HandlerInstance>,
      decode: (Option<TypeRef>, string) -> Option<Exception>,
      handleAsync: (HandlerInstance, TypeRef, string) -> Option<Exception>)
      returns (result: Result<bool>, calls: seq<Invocation>)
      requires subscriptions.Valid()
      ensures config.None? ==> result == Err(NullReference) && calls == []
      ensures config.Some? ==>
        var name := ProcessEventName(config.value, eventName);
        name !in subscriptions.handlers ==> result == Ok(false) && calls == []
      ensures config.Some? ==>
        var name := ProcessEventName(config.value, eventName);
        name in subscriptions.handlers ==>
          var run := RunHandlers(subscriptions.handlers[name], resolve,
                                 subscriptions.GetEventTypeByName(LookupName(config.value, name)),
                                 AsWritten(decode, handleAsync), message);
          calls == run.0 && result == (if run.1.None? then Ok(true) else Err(run.1.value))
      ensures result == Ok(false) <==>
        config.Some? && ProcessEventName(config.value, eventName) !in subscriptions.handlers
      ensures config.Some? ==>
        var name := ProcessEventName(config.value, eventName);
        (name in subscriptions.handlers &&
         forall s :: s in subscriptions.handlers[name] ==> resolve(s.handlerType).None?) ==>
          result == Ok(true) && calls == []
      ensures result == Ok(true) <==>
        config.Some? &&
        var name := ProcessEventName(config.value, eventName);
        name in subscriptions.handlers &&
        forall s :: s in subscriptions.handlers[name] ==> resolve(s.handlerType).None?
      ensures |calls| <= 1 && InvokedAtMostOnce(calls)
    {
      var rt := AsWritten(decode, handleAsync);
      calls := [];
      if config.None? {
        return Err(NullReference), calls;
      }
      var name := ProcessEventName(config.value, eventName);
      if !subscriptions.HasSubscriptionsForEvent(name) {
        return Ok(false), calls;
      }
      var subs := subscriptions.GetHandlersForEvent(name);
      ghost var lookup := subscriptions.GetEventTypeByName(LookupName(config.value, name));
      if forall s :: s in subs ==> resolve(s.handlerType).None? {
        RunHandlersNoneResolved(subs, resolve, lookup, rt, message);
      }
      RunHandlersInvokesEachOnce(subs, resolve, lookup, rt, message);
      RunHandlersFailsOnResolved(subs, resolve, lookup, rt, message);
      var thrown;
      thrown, calls := InvokeHandlers(subs, LookupName(config.value, name), message, resolve, rt);
      if thrown.Some? {
        return Err(thrown.value), calls;
      }
      result := Ok(true);
    }

    /** The foreach of ProcessEvent over the registrations `subs`: resolve
        each handler, skip it when unresolved, otherwise look the event type up
        under `lookupName` and invoke the handler; the first exception aborts
        the loop and is returned with the invocations attempted so far. */
    method InvokeHandlers(
      subs: seq<SubscriptionInfo>, lookupName: string, message: string,
      resolve: TypeRef -> Option<HandlerInstance>,
      rt: Runtime)
      returns (thrown: Option<Exception>, calls: seq<Invocation>)
      ensures (calls, thrown) ==
        RunHandlers(subs, resolve, subscriptions.GetEventTypeByName(lookupName), rt, message)
    {
      ghost var lookup := subscriptions.GetEventTypeByName(lookupName);
      ghost var run := RunHandlers(subs, resolve, lookup, rt, message);
      calls := [];
      var i := 0;
      while i < |subs|
        invariant 0 <= i <= |subs|
        invariant run.0 == calls + RunHandlers(subs[i..], resolve, lookup, rt, message).0
        invariant run.1 == RunHandlers(subs[i..], resolve, lookup, rt, message).1
      {
        var handler := resolve(subs[i].handlerType);
        if handler.None? {
          RunHandlersSkip(subs, i, resolve, lookup, rt, message);
          i := i + 1;
          continue;
        }
        var eventType := subscriptions.GetEventTypeByName(lookupName);
        if eventType.Err? {
          RunHandlersStop(subs, i, resolve, lookup, rt, message);
          assert calls + [] == calls;
          return Some(eventType.error), calls;
        }
        if eventType.value.None? {
          RunHandlersStop(subs, i, resolve, lookup, rt, message);
          var decodeError := rt.decode(None, message);
          var failure := if decodeError.Some? then decodeError.value else NullTypeArgument;
          assert failure == MissingTypeFailure(rt, message);
          assert calls + [] == calls;
          return Some(failure), calls;
        }
        var t := eventType.value.value;
        RunHandlersInvoke(subs, i, resolve, handler.value, t, rt, message);
        calls := calls + [Invocation(subs[i], handler.value, t, message)];
        thrown := rt.decode(Some(t), message);
        if thrown.None? {
          thrown := rt.invoke(handler.value, t, message);
        }
        assert thrown == Dispatch(rt, handler.value, t, message);
        if thrown.Some? {
          return thrown, calls;
        }
        i := i + 1;
      }
      assert subs[i..] == [] && calls + [] == calls;
      thrown := None;
    }

    /** `Dispose`: nulls the configuration and clears the registry, which
        keeps the event-type list and raises no removal notification. */
    method Dispose()
      requires subscriptions.Valid()
      modifies this, subscriptions
      ensures config.None?
      ensures subscriptions.Valid() && subscriptions.handlers == map[]
      ensures subscriptions.eventTypes == old(subscriptions.eventTypes)
      ensures subscriptions.removedEvents == old(subscriptions.removedEvents)
    {
      config := None;
      subscriptions.Clear();
    }
  }

  /** In the registry a bus creates, the key of an event type is its
      normalised short name, and that key is a fixed point of normalisation:
      ProcessEvent finds a type's registrations both under the type's own
      name and under the already normalised key an adapter hands back. */
  lemma RegistryKeyIsProcessedName(
    subscriptions: InMemoryEventBusSubscriptionManager, config: EventBusConfig, t: TypeRef)
    requires forall n :: subscriptions.eventNameGetter(n) == ProcessEventName(config, n)
    ensures subscriptions.GetEventKey(t) == ProcessEventName(config, t.name)
    ensures ProcessEventName(config, subscriptions.GetEventKey(t)) == subscriptions.GetEventKey(t)
  {
    ProcessEventNameIdempotent(config, t.name);
  }
}
