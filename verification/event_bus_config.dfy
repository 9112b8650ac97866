/** The bus configuration record (`EventBusConfig`) and the backend selector
    enum (`EventBusType`). */
module Config {
  import opened Common
  import DotNet

  /** `EventBusType` is a C# enum over `int`: a cast may produce any 32-bit
      value, of which only the two below are named members. */
  newtype EventBusType = x: int | -0x8000_0000 <= x < 0x8000_0000

  const RabbitMQ: EventBusType := 0
  const AzureServiceBus: EventBusType := 1

  /** The settable configuration. The event-name prefix and suffix are
      nullable strings (`None` is null); the untyped `Connection` object is
      passed through to the RabbitMQ adapter only and is not part of this model. */
  datatype EventBusConfig = EventBusConfig(
    connectionRetryCount: int,
    defaultTopicName: string,
    eventBusConnectionString: string,
    subscriberClientAppName: string,
    eventNamePrefix: Option<string>,
    eventNameSuffix: Option<string>,
    eventBusType: EventBusType)

  /** A configuration built with `new EventBusConfig()` and no initialiser. */
  const Default: EventBusConfig := EventBusConfig(
    connectionRetryCount := 5,
    defaultTopicName := "SellingMicroserviceEventBus",
    eventBusConnectionString := "",
    subscriberClientAppName := "",
    eventNamePrefix := Some(""),
    eventNameSuffix := Some(""),
    eventBusType := RabbitMQ)

  /** Whether event names get leading prefix characters stripped. */
  predicate DeleteEventPrefix(c: EventBusConfig)
    ensures DeleteEventPrefix(c) <==> c.eventNamePrefix.Some? && |c.eventNamePrefix.value| > 0
  {
    !DotNet.IsNullOrEmpty(c.eventNamePrefix)
  }

  /** Whether event names get trailing suffix characters stripped. */
  predicate DeleteEventSuffix(c: EventBusConfig)
    ensures DeleteEventSuffix(c) <==> c.eventNameSuffix.Some? && |c.eventNameSuffix.value| > 0
  {
    !DotNet.IsNullOrEmpty(c.eventNameSuffix)
  }

  /** The text a nullable string contributes to an interpolated string:
      null interpolates as nothing. */
  function Interpolated(s: Option<string>): (r: string)
    ensures s.None? ==> r == ""
    ensures s.Some? ==> r == s.value
  {
    if s.Some? then s.value else ""
  }

  /** A default configuration strips nothing from event names. */
  lemma DefaultDeletesNothing()
    ensures !DeleteEventPrefix(Default) && !DeleteEventSuffix(Default)
    ensures Default.connectionRetryCount == 5
    ensures Default.defaultTopicName == "SellingMicroserviceEventBus"
    ensures Default.eventBusType == RabbitMQ
  {
  }
}
