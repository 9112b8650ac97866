# Event bus core: a Dafny model

This project models the broker-independent core of the SellingMicroservice
event bus, a .NET building block that lets services publish integration
events and subscribe handlers to them over RabbitMQ or Azure Service Bus.
The modelled core is the part every adapter shares:

- **Configuration.** `EventBusConfig` holds the retry count, topic name,
  connection string, subscriber application name, event-name prefix and
  suffix, and backend selector. Its `DeleteEventPrefix`/`DeleteEventSuffix`
  flags say whether the prefix and suffix are stripped from event names.
  The model is in module `Config`.
- **Registrations.** `SubscriptionInfo` is the record of one handler
  registration. Building one from a null handler type throws. The model is
  in module `SubscriptionInfos`.
- **The subscription registry.** `InMemoryEventBusSubscriptionManager` maps
  a normalised event name to the ordered list of its handler registrations.
  It also keeps the list of event types seen so far, and raises
  `OnEventRemoved` when the last handler of a name is removed. It is a class
  whose fields the methods update in place, under the invariant `Valid()`:
  no name maps to an empty list, no handler type occurs twice under one
  name, and no event type is listed twice. The model is
  `SubManagers.InMemoryEventBusSubscriptionManager`.
- **The base bus.** `BaseEventBus` does four things:
  - it normalises event names (`ProcessEventName`);
  - it derives subscription/queue names (`GetSubName`);
  - it dispatches an incoming (name, message) pair to the registered
    handlers (`ProcessEvent`);
  - it tears itself down (`Dispose`).

  The name normaliser and the dispatch specification are functions. The
  dispatch loop is a method proved against the specification function
  `RunHandlers`. The bus itself is the class `Events.BaseEventBus`.
- **The factory.** `EventBusFactory.Create` picks the adapter from the
  backend selector. The model is in module `Factory`.

Two helper modules support these:

- `Common`: Option/Result values, the runtime type handle `TypeRef`, and
  the exceptions the core raises.
- `DotNet`: the .NET library behaviour the core relies on:
  - `String.TrimStart(char[])` / `String.TrimEnd(char[])`;
  - `String.IsNullOrEmpty`;
  - `List<T>.Remove`, which removes the first occurrence only;
  - LINQ `SingleOrDefault` with a name predicate, which throws when two
    elements match.

A runtime type is modelled by its full name and its short `Name`. The
registry looks event types up by the short name. Two distinct types in
different namespaces can share it, and then `SingleOrDefault` throws. Both
`GetEventTypeByName` and the removal path model that exception.

**Normalisation trims character sets, not affixes.** `ProcessEventName`
calls `TrimStart`/`TrimEnd` with the prefix or suffix converted to a
character array. .NET strips every leading or trailing character that
belongs to that *set*. It does not remove the literal prefix or suffix
string. The model follows the code:

- `AffixRoundTrip` proves that `prefix + base + suffix` normalises back to
  `base` when `base` neither starts with a prefix character nor ends with a
  suffix character. The repository's `OrderCreatedIntegrationEvent` with the
  suffix `IntegrationEvent` that its unit tests configure is such a case.
- `PrefixTrimsIntoName` and `SuffixTrimsIntoName` prove the converse for a
  configured prefix or suffix: when `base` starts with a prefix character
  or ends with a suffix character, the key is not `base`. For example
  `PaymentIntegrationEvent` would be keyed as `Paym`. In that case
  ProcessEvent's lookup name differs from the type name.

Stripping exactly the configured prefix and suffix would not have this
failure.

**How the environment is modelled in ProcessEvent:**

- The dependency-injection container's `GetService` is a parameter
  `resolve: TypeRef -> Option<HandlerInstance>`.
- Decoding the JSON message is a parameter
  `decode: (Option<TypeRef>, string) -> Option<Exception>`. It returns the
  exception Newtonsoft.Json raised, if any. The type is optional because the
  decoder accepts a null type: when no event type is found, the message is
  still decoded before `MakeGenericType(null)` throws.
- Awaiting a handler's `HandleAsync` is a parameter `handleAsync`. The
  dispatch loop itself is written over a `Runtime` value whose `invoke` is
  the awaited reflective call.
- ProcessEvent asks reflection for a method named `Handle`. The closed
  handler interface `IIntegrationEventHandler<T>` declares only
  `HandleAsync`, so `GetMethod` gives null and awaiting the null task throws
  NullReferenceException. `ReflectedMethodMissing` and `AsWritten` state
  this. As a result, ProcessEvent as written never reaches a handler. The
  first registration whose handler resolves ends the loop with an exception,
  and the result is true exactly when no handler resolves
  (`RunHandlersFailsOnResolved`).
- `ProcessEvent` returns the invocations it attempted, as a sequence of
  `Invocation` values.
- The `OnEventRemoved` notifications are recorded in the ghost field
  `removedEvents`.

## Model

| member | source | states |
|---|---|---|
| DotNet.TrimStart | src/BuildingBlock/EventBus/EventBus.Base/Events/BaseEventBus.cs:24 | `TrimStart` with a character set leaves a suffix of the input. Every character removed belongs to the set, and the result does not start with one (the cut is maximal). |
| DotNet.TrimEnd | src/BuildingBlock/EventBus/EventBus.Base/Events/BaseEventBus.cs:27 | `TrimEnd` with a character set leaves a prefix of the input. Every character removed belongs to the set, and the result does not end with one. |
| DotNet.TrimStartNoop | src/BuildingBlock/EventBus/EventBus.Base/Events/BaseEventBus.cs:24 | A string that does not start with a set character is left unchanged by `TrimStart`. |
| DotNet.TrimEndNoop | src/BuildingBlock/EventBus/EventBus.Base/Events/BaseEventBus.cs:27 | A string that does not end with a set character is left unchanged by `TrimEnd`. |
| DotNet.TrimStartOfPrefixed | src/BuildingBlock/EventBus/EventBus.Base/Events/BaseEventBus.cs:24 | Trimming the characters of `chars` off `chars + s` gives `s` when `s` does not start with one of them. |
| DotNet.TrimEndOfSuffixed | src/BuildingBlock/EventBus/EventBus.Base/Events/BaseEventBus.cs:27 | Trimming the characters of `chars` off `s + chars` gives `s` when `s` does not end with one of them. |
| DotNet.RemoveFirst | src/BuildingBlock/EventBus/EventBus.Base/SubManagers/InMemoryEventBusSubscriptionManager.cs:57 | `List.Remove` drops exactly the first occurrence and keeps the order of the rest. A list without the element is returned unchanged. |
| DotNet.RemoveFirstElements | src/BuildingBlock/EventBus/EventBus.Base/SubManagers/InMemoryEventBusSubscriptionManager.cs:57 | Removal adds no element and keeps every element other than the one removed. |
| DotNet.RemoveFirstWithoutDuplicates | src/BuildingBlock/EventBus/EventBus.Base/SubManagers/InMemoryEventBusSubscriptionManager.cs:57 | On a list without duplicates, removal leaves a list without duplicates in which the element no longer occurs. |
| DotNet.RemoveFirstAppended | src/BuildingBlock/EventBus/EventBus.Base/SubManagers/InMemoryEventBusSubscriptionManager.cs:41 | Removing an element just appended to a list that lacked it gives the original list back. |
| DotNet.CountNamed | src/BuildingBlock/EventBus/EventBus.Base/SubManagers/InMemoryEventBusSubscriptionManager.cs:112 | The number of event types with a given short name is zero exactly when none has it. |
| DotNet.CountNamedOne | src/BuildingBlock/EventBus/EventBus.Base/SubManagers/InMemoryEventBusSubscriptionManager.cs:63 | When exactly one event type carries a name, any two types carrying it are the same type. |
| DotNet.SingleOrDefaultNamed | src/BuildingBlock/EventBus/EventBus.Base/SubManagers/InMemoryEventBusSubscriptionManager.cs:112 | `SingleOrDefault(c => c.Name == name)`: null iff no match, the matching element (a member of the list) iff exactly one match, InvalidOperationException iff two or more. |
| Config.DeleteEventPrefix | src/BuildingBlock/EventBus/EventBus.Base/EventBusConfig.cs:21 | The prefix is stripped iff it is non-null and non-empty. |
| Config.DeleteEventSuffix | src/BuildingBlock/EventBus/EventBus.Base/EventBusConfig.cs:22 | The suffix is stripped iff it is non-null and non-empty. |
| Config.Interpolated | src/BuildingBlock/EventBus/EventBus.Base/Events/BaseEventBus.cs:60 | A null prefix or suffix contributes the empty string to an interpolated string; otherwise its value. |
| Config.DefaultDeletesNothing | src/BuildingBlock/EventBus/EventBus.Base/EventBusConfig.cs:5-22 | A default configuration has 5 retries, topic `SellingMicroserviceEventBus` and the RabbitMQ backend, and strips neither prefix nor suffix. |
| Factory.Create | src/BuildingBlock/EventBus/EventBus.Factory/EventBusFactory.cs:8-13 | The Azure Service Bus adapter is chosen iff the backend is `AzureServiceBus`; every other value, named or not, gets the RabbitMQ adapter. Configuration and service provider are passed on unchanged. |
| Factory.DefaultSelectsRabbitMQ | src/BuildingBlock/EventBus/EventBus.Base/EventBusConfig.cs:17 | A default configuration, or an undefined enum value, selects RabbitMQ. |
| SubscriptionInfos.New | src/BuildingBlock/EventBus/EventBus.Base/SubscriptionInfo.cs:3-5 | A null handler type throws ArgumentNullException naming `handlerType`; otherwise the registration holds exactly that type. |
| SubscriptionInfos.Typed | src/BuildingBlock/EventBus/EventBus.Base/SubscriptionInfo.cs:7 | `Typed` fails exactly for null and otherwise holds the given handler type. |
| SubscriptionInfos.TypedInjective | src/BuildingBlock/EventBus/EventBus.Base/SubscriptionInfo.cs:7 | `Typed` of a non-null type succeeds, and two registrations are equal iff their handler types are. |
| SubManagers.InMemoryEventBusSubscriptionManager.constructor | src/BuildingBlock/EventBus/EventBus.Base/SubManagers/InMemoryEventBusSubscriptionManager.cs:6-12 | A new registry is empty, satisfies the invariant and keeps the given name getter. |
| SubManagers.InMemoryEventBusSubscriptionManager.IsEmpty | src/BuildingBlock/EventBus/EventBus.Base/SubManagers/InMemoryEventBusSubscriptionManager.cs:14 | True iff there is no key; then no pair is registered. |
| SubManagers.InMemoryEventBusSubscriptionManager.Clear | src/BuildingBlock/EventBus/EventBus.Base/SubManagers/InMemoryEventBusSubscriptionManager.cs:16 | Removes every key and keeps the invariant. The event-type list and the notification log are untouched. |
| SubManagers.InMemoryEventBusSubscriptionManager.HasSubscriptionsForEvent | src/BuildingBlock/EventBus/EventBus.Base/SubManagers/InMemoryEventBusSubscriptionManager.cs:110 | True iff the name is a key; under the invariant, iff some handler is registered for it. |
| SubManagers.InMemoryEventBusSubscriptionManager.HasSubscriptionsForEventType | src/BuildingBlock/EventBus/EventBus.Base/SubManagers/InMemoryEventBusSubscriptionManager.cs:103-108 | True iff some handler is registered under the event type's key; equivalently, iff the key is present. |
| SubManagers.InMemoryEventBusSubscriptionManager.GetHandlersForEvent | src/BuildingBlock/EventBus/EventBus.Base/SubManagers/InMemoryEventBusSubscriptionManager.cs:79 | The stored list for a present key: non-empty and without duplicates. |
| SubManagers.InMemoryEventBusSubscriptionManager.GetHandlersForEventType | src/BuildingBlock/EventBus/EventBus.Base/SubManagers/InMemoryEventBusSubscriptionManager.cs:72-77 | The non-empty list stored under the event type's key. |
| SubManagers.InMemoryEventBusSubscriptionManager.GetEventTypeByName | src/BuildingBlock/EventBus/EventBus.Base/SubManagers/InMemoryEventBusSubscriptionManager.cs:112 | Null iff no registered type has the short name. A type is returned iff exactly one has it, and it is that registered type. InvalidOperationException is thrown iff two or more share the name. |
| SubManagers.InMemoryEventBusSubscriptionManager.FindSubscriptionToRemove | src/BuildingBlock/EventBus/EventBus.Base/SubManagers/InMemoryEventBusSubscriptionManager.cs:95-101 | Non-null iff the pair is registered, and then it is the stored registration of that handler type. |
| SubManagers.InMemoryEventBusSubscriptionManager.AddHandler | src/BuildingBlock/EventBus/EventBus.Base/SubManagers/InMemoryEventBusSubscriptionManager.cs:30-42 | A duplicate pair throws ArgumentException(`handlerType`) and changes nothing. Otherwise the handler is appended to the name's list, created if absent, and no other key changes. The invariant is kept. |
| SubManagers.InMemoryEventBusSubscriptionManager.AddSubscription | src/BuildingBlock/EventBus/EventBus.Base/SubManagers/InMemoryEventBusSubscriptionManager.cs:18-28 | As AddHandler under the type's key. On success the pair is registered, and the event type is appended iff it was not yet listed. On the duplicate error neither field changes. |
| SubManagers.InMemoryEventBusSubscriptionManager.RemoveHandler | src/BuildingBlock/EventBus/EventBus.Base/SubManagers/InMemoryEventBusSubscriptionManager.cs:53-70 | Null does nothing. Removing one of several handlers removes only that one. Removing the last deletes the key, then: no type with that short name leaves the type list alone and notifies; one such type is removed and notifies; two or more throw InvalidOperationException without notifying. |
| SubManagers.InMemoryEventBusSubscriptionManager.RaiseOnEventRemoved | src/BuildingBlock/EventBus/EventBus.Base/SubManagers/InMemoryEventBusSubscriptionManager.cs:81-85 | Exactly one notification carrying the name is raised. |
| SubManagers.InMemoryEventBusSubscriptionManager.RemoveSubscription | src/BuildingBlock/EventBus/EventBus.Base/SubManagers/InMemoryEventBusSubscriptionManager.cs:44-51 | Afterwards the pair is not registered and the invariant holds. An unregistered pair is a no-op. One of several handlers goes with the others kept in order. The last handler deletes the key, and succeeds iff at most one type has the key as short name; success notifies exactly once with the key. Exactly the types named like the key leave the type list. |
| SubManagers.RemoveUndoesAdd | src/BuildingBlock/EventBus/EventBus.Base/SubManagers/InMemoryEventBusSubscriptionManager.cs:30-70 | Removing a registration just added restores the handler map exactly: by removal from the list when other handlers remain, by deleting the key when it was the only one. |
| Events.ProcessEventName | src/BuildingBlock/EventBus/EventBus.Base/Events/BaseEventBus.cs:21-30 | The key is no longer than the name. When stripping is configured it neither starts with a prefix character nor ends with a suffix character; with neither configured it is the name itself. |
| Events.ProcessEventNameIsSlice | src/BuildingBlock/EventBus/EventBus.Base/Events/BaseEventBus.cs:21-30 | The key is a contiguous slice of the name. Everything cut from the front is prefix characters, everything cut from the back is suffix characters, and nothing is cut from an unconfigured side. |
| Events.ProcessEventNameIdempotent | src/BuildingBlock/EventBus/EventBus.Base/Events/BaseEventBus.cs:21-30 | Normalising a normalised name changes nothing. |
| Events.GetSubName | src/BuildingBlock/EventBus/EventBus.Base/Events/BaseEventBus.cs:32-33 | The subscription name is the application name, a dot, then the normalised name, and each part can be read back. |
| Events.GetSubNameOfNormalised | src/BuildingBlock/EventBus/EventBus.Base/Events/BaseEventBus.cs:32-33 | Passing an already normalised name gives the same subscription name as the raw one. |
| Events.LookupName | src/BuildingBlock/EventBus/EventBus.Base/Events/BaseEventBus.cs:59-61 | The lookup name is the interpolated prefix, the key and the interpolated suffix, in that order: each of the three slices reads back. |
| Events.KeyDeterminesLookupName | src/BuildingBlock/EventBus/EventBus.Base/Events/BaseEventBus.cs:59-61 | Two keys give the same lookup name iff they are equal. |
| Events.AffixRoundTrip | src/BuildingBlock/EventBus/EventBus.Base/Events/BaseEventBus.cs:21-30 | Normalising the lookup name of `base` gives `base` back whenever `base` neither starts with a prefix character nor ends with a suffix character. |
| Events.PrefixTrimsIntoName | src/BuildingBlock/EventBus/EventBus.Base/Events/BaseEventBus.cs:23-24 | With a prefix configured and `base` starting with one of its characters, the key is not `base`, and the lookup name rebuilt from the key is not the original type name. |
| Events.SuffixTrimsIntoName | src/BuildingBlock/EventBus/EventBus.Base/Events/BaseEventBus.cs:26-27 | With a suffix configured and `base` ending in one of its characters, the key is not `base`, and the lookup name rebuilt from the key is not the original type name. |
| Events.Resolved | src/BuildingBlock/EventBus/EventBus.Base/Events/BaseEventBus.cs:55-57 | The handlers that run are exactly the registrations the resolver binds, each with its instance. |
| Events.Calls | src/BuildingBlock/EventBus/EventBus.Base/Events/BaseEventBus.cs:62-65 | One invocation per resolved handler, in order, all with the found event type and the raw message. |
| Events.ReflectedMethodMissing | src/BuildingBlock/EventBus/EventBus.Base/Events/BaseEventBus.cs:65 | The handler interface does not declare `Handle`, so awaiting the reflective call of `Handle` throws NullReferenceException; calling `HandleAsync` would run the handler. |
| Events.AsWritten | src/BuildingBlock/EventBus/EventBus.Base/Events/BaseEventBus.cs:62-65 | The runtime ProcessEvent runs with keeps the given decoder, and its reflective call throws NullReferenceException for every handler, type and message. |
| Events.MissingTypeFailure | src/BuildingBlock/EventBus/EventBus.Base/Events/BaseEventBus.cs:62-64 | With no event type found, the exception is the decoder's when decoding with a null type fails. Otherwise it is the null-argument exception of `MakeGenericType`. |
| Events.RunToFirstFailureStops | src/BuildingBlock/EventBus/EventBus.Base/Events/BaseEventBus.cs:53-66 | Running calls in order until one throws: what ran is a prefix of the calls, and all before the last succeeded. Nothing is thrown iff every call succeeds, and then all ran. A thrown exception is the last call's. |
| Events.RunHandlers | src/BuildingBlock/EventBus/EventBus.Base/Events/BaseEventBus.cs:53-66 | Specification of the handler loop. Its contract only bounds the invocations by the registrations; the lemmas below state its behaviour. |
| Events.RunHandlersWithEventType | src/BuildingBlock/EventBus/EventBus.Base/Events/BaseEventBus.cs:53-66 | With the event type found, the loop is exactly: resolve, keep the bound handlers in order, invoke them until the first exception. |
| Events.RunHandlersWithoutEventType | src/BuildingBlock/EventBus/EventBus.Base/Events/BaseEventBus.cs:59-64 | When the type lookup throws or finds nothing, no handler is invoked. Nothing is thrown iff no handler resolves. Otherwise the exception is the lookup's, or, with no type found, MissingTypeFailure: the decoder's on a null type, else MakeGenericType's. |
| Events.RunHandlersSkip | src/BuildingBlock/EventBus/EventBus.Base/Events/BaseEventBus.cs:55-57 | An unresolved registration is skipped. |
| Events.RunHandlersStop | src/BuildingBlock/EventBus/EventBus.Base/Events/BaseEventBus.cs:59-64 | A resolved handler whose event type cannot be obtained ends the loop, with no invocation. The exception is the lookup's, or, with no type found, MissingTypeFailure's. |
| Events.RunHandlersInvoke | src/BuildingBlock/EventBus/EventBus.Base/Events/BaseEventBus.cs:62-65 | A resolved handler with the type found is dispatched: the message is decoded as that type, then the reflective call runs. The first exception of the two ends the loop; otherwise the loop goes on. |
| Events.RunHandlersNoneResolved | src/BuildingBlock/EventBus/EventBus.Base/Events/BaseEventBus.cs:55-57 | If no handler resolves, nothing is invoked and nothing is thrown. |
| Events.RunHandlersCallsResolved | src/BuildingBlock/EventBus/EventBus.Base/Events/BaseEventBus.cs:53-65 | Every invocation is of a registration in the list, with the instance the resolver bound for it. |
| Events.InvokedAtMostOnceCons | src/BuildingBlock/EventBus/EventBus.Base/Events/BaseEventBus.cs:53-65 | Adding an invocation of a new registration in front keeps every registration invoked at most once. |
| Events.RunHandlersFailsOnResolved | src/BuildingBlock/EventBus/EventBus.Base/Events/BaseEventBus.cs:53-66 | When the reflective call always throws, as in AsWritten, the loop ends without exception iff no handler resolves, and it makes at most one invocation. |
| Events.RunHandlersInvokesEachOnce | src/BuildingBlock/EventBus/EventBus.Base/Events/BaseEventBus.cs:53-65 | Over a registration list without duplicates, no registration is invoked twice. |
| Events.BaseEventBus.constructor | src/BuildingBlock/EventBus/EventBus.Base/Events/BaseEventBus.cs:14-19 | The bus keeps the configuration and creates an empty, valid registry whose name getter is ProcessEventName. |
| Events.BaseEventBus.ProcessEvent | src/BuildingBlock/EventBus/EventBus.Base/Events/BaseEventBus.cs:41-72 | A disposed bus throws a null dereference. An unknown key gives false with no invocation. Otherwise the invocations and the exception are RunHandlers' over the registrations, with the prefix+key+suffix lookup and the as-written runtime, and the result is true iff nothing escaped. The result is false iff the key is unknown. It is true iff the key is known and no registered handler resolves. At most one invocation is made. |
| Events.BaseEventBus.InvokeHandlers | src/BuildingBlock/EventBus/EventBus.Base/Events/BaseEventBus.cs:53-66 | The foreach loop, for any runtime: its invocations and escaped exception equal RunHandlers'. |
| Events.BaseEventBus.Dispose | src/BuildingBlock/EventBus/EventBus.Base/Events/BaseEventBus.cs:35-39 | The configuration becomes null and the registry is cleared; the event-type list stays and no notification is raised. |
| Events.RegistryKeyIsProcessedName | src/BuildingBlock/EventBus/EventBus.Base/SubManagers/InMemoryEventBusSubscriptionManager.cs:114-118 | In a registry whose name getter is ProcessEventName, as the bus creates it, an event type's key is its normalised short name, and normalising the key again changes nothing. |

## Left out

- The broker adapters (RabbitMQ and Azure Service Bus publish, subscribe and
  consume loops), the persistent connection and its retry policy are not
  part of this model. `Publish`, `Subscribe` and `Unsubscribe` are abstract
  in the base bus.
- JSON decoding (Newtonsoft.Json) is the `decode` parameter and the
  handlers' `HandleAsync` is the `handleAsync` parameter. Any exception
  they raise is their `Some` result. Reflection is modelled only as far as
  the method lookup by name on the handler interface. The
  dependency-injection container is the `resolve` parameter.
- Characters are Unicode scalar values (Dafny `char`). .NET strings are
  UTF-16, and `TrimStart`/`TrimEnd` match single code units. With a prefix
  or suffix outside the Basic Multilingual Plane, .NET can trim one half of
  a surrogate pair; the model cannot express that.
- The asynchronous service scope created in ProcessEvent, and `await`
  itself, are not modelled. Handlers run one after another, as the awaited
  loop does.
- Concurrency: the registry is not thread-safe, and interleaved calls are not
  modelled.
- The subscribers of `OnEventRemoved` (the adapters unbind queues there)
  are not modelled. Each raise is recorded in the ghost `removedEvents`.
- `String.TrimStart`/`TrimEnd` with an empty character array trim white space.
  The core never passes one, because stripping is switched off for an empty
  prefix or suffix.
- Events.BaseEventBus.constructor: the registry's name getter captures the
  configuration given at construction. The source calls the virtual
  `ProcessEventName`, which reads the bus's current configuration. The two
  differ only if the public configuration property is reassigned, or after
  `Dispose` nulls it. The model nulls it only in `Dispose`.
- `SubscriptionInfo` is a class, and `List.Remove` compares registrations by
  reference. The model compares them by value. That is the same under the
  registry invariant, because a handler type occurs at most once per list
  and `FindSubscriptionToRemove` returns the stored object.
- The subscriber application name and the connection string are non-null in
  the model. The untyped `Connection` object in the configuration is passed
  through to the RabbitMQ adapter only, and is left out.
- Logging, and the overloads of the registry that differ only in taking
  the event type as a generic argument, are covered by the name-based
  members they forward to.
