/** `SubscriptionInfo`: the immutable record of one handler registration. */
module SubscriptionInfos {
  import opened Common

  /** The handler type of a registration; fixed once built, since the
      datatype has no way to change it. */
  datatype SubscriptionInfo = SubscriptionInfo(handlerType: TypeRef)

  /** The validating constructor: a null handler type (`None`) raises
      ArgumentNullException naming the parameter, anything else is kept as is. */
  function New(handlerType: Option<TypeRef>): (r: Result<SubscriptionInfo>)
    ensures r.Err? <==> handlerType.None?
    ensures r.Err? ==> r.error == ArgumentNullException("handlerType")
    ensures r.Ok? ==> r.value.handlerType == handlerType.value
  {
    match handlerType
    case None => Err(ArgumentNullException("handlerType"))
    case Some(h) => Ok(SubscriptionInfo(h))
  }

  /** The static factory `Typed`, which only forwards to the constructor. */
  function Typed(handlerType: Option<TypeRef>): (r: Result<SubscriptionInfo>)
    ensures r.Err? <==> handlerType.None?
    ensures r.Ok? ==> r.value.handlerType == handlerType.value
  {
    New(handlerType)
  }

  /** Registrations of different handler types are different registrations,
      and `Typed` of a non-null type always succeeds. */
  lemma TypedInjective(h1: TypeRef, h2: TypeRef)
    ensures Typed(Some(h1)).Ok? && Typed(Some(h2)).Ok?
    ensures Typed(Some(h1)).value == Typed(Some(h2)).value <==> h1 == h2
  {
  }
}
