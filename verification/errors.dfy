/** The exceptions the handlers throw or catch, with the message each carries. */
module Errors {

  datatype Exn =
    /** `ArgumentNullException` for the named parameter. */
    | ArgumentNull(paramName: string)
    /** `ArgumentException` with an explicit message. */
    | Argument(text: string, paramName: string)
    /** The application's `NotFoundException`. */
    | NotFound(text: string)
    /** The application's `ConflictException`. */
    | Conflict(text: string)
    /** `InvalidOperationException`, raised by `SingleOrDefault` on several matches. */
    | InvalidOperation(text: string)
    /** Anything a collaborator throws (HTTP failure, I/O, database). */
    | External(text: string)
  {
    /** `Exception.Message` as the runtime formats it. */
    function Message(): string {
      match this
      case ArgumentNull(p) => "Value cannot be null. (Parameter '" + p + "')"
      case Argument(t, p) => t + " (Parameter '" + p + "')"
      case NotFound(t) => t
      case Conflict(t) => t
      case InvalidOperation(t) => t
      case External(t) => t
    }
  }

  /** The runtime's message when `SingleOrDefault` meets a second element. */
  const MoreThanOneElement := "Sequence contains more than one element"
}
