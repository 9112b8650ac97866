/** Values shared by every part of the event bus model: optional and failing
    results, the runtime type handles the registry stores, and the exceptions
    the modelled code can raise. */
module Common {

  datatype Option<+T> = None | Some(value: T)

  /** A computation that either yields a value or raises an exception. */
  datatype Result<+T> = Ok(value: T) | Err(error: Exception)

  /** A statement that either completes or raises an exception. */
  datatype Outcome = Pass | Fail(error: Exception)

  /** A runtime `System.Type`. Two distinct types always differ in `fullName`
      (namespace-qualified) but may share the short `name` (`Type.Name`),
      which is all the registry compares when it looks an event type up. */
  datatype TypeRef = TypeRef(fullName: string, name: string)

  /** The exceptions the modelled code raises itself. `NullTypeArgument` is
      the ArgumentNullException raised when a generic type is closed over a
      null type argument; `NullReference` is the dereference of a configuration
      that Dispose has nulled; `Raised` stands for whatever a handler or the
      deserialiser throws. */
  datatype Exception =
    | ArgumentException(paramName: string)
    | ArgumentNullException(paramName: string)
    | InvalidOperationException
    | NullTypeArgument
    | NullReference
    | Raised(description: string)

  /** A handler object handed out by the dependency-injection container. */
  datatype HandlerInstance = HandlerInstance(id: nat)
}
