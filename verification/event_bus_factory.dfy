/** `EventBusFactory.Create`: picks the broker adapter for a configuration. */
module Factory {
  import opened Config

  /** Which adapter class `Create` instantiates. */
  datatype AdapterKind = RabbitMQAdapter | AzureServiceBusAdapter

  /** The constructor call `Create` makes: the chosen adapter, and the
      configuration and service provider it hands over. */
  datatype Construction<P> = Construction(kind: AdapterKind, config: EventBusConfig, serviceProvider: P)

  /** The switch over the backend type: the Azure Service Bus member selects
      the Azure adapter, and every other value, including RabbitMQ and any
      value cast from an out-of-range integer, falls to the RabbitMQ arm.
      Both arguments reach the constructor unchanged. */
  function Create<P>(config: EventBusConfig, serviceProvider: P): (c: Construction<P>)
    ensures c.kind == AzureServiceBusAdapter <==> config.eventBusType == AzureServiceBus
    ensures c.kind == RabbitMQAdapter <==> config.eventBusType != AzureServiceBus
    ensures c.config == config && c.serviceProvider == serviceProvider
  {
    if config.eventBusType == AzureServiceBus then
      Construction(AzureServiceBusAdapter, config, serviceProvider)
    else
      Construction(RabbitMQAdapter, config, serviceProvider)
  }

  /** A configuration left at its defaults gets the RabbitMQ adapter, as does
      an undefined enum value. */
  lemma DefaultSelectsRabbitMQ<P>(serviceProvider: P)
    ensures Create(Default, serviceProvider).kind == RabbitMQAdapter
    ensures Create(Default.(eventBusType := 7), serviceProvider).kind == RabbitMQAdapter
  {
  }
}
