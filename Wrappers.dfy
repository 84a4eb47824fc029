/** Option, Result and Outcome: the model's stand-ins for C# null and for thrown exceptions. */
module Wrappers {

  /** A value that may be absent (a C# null reference). */
  datatype Option<+T> = None | Some(value: T)

  /** A computation that either returns a value or throws. */
  datatype Result<+R, +E> = Success(value: R) | Failure(error: E)

  /** A computation without a value that either completes or throws. */
  datatype Outcome<+E> = Pass | Fail(error: E)
}

/** The exceptions the core throws or lets escape, with the messages .NET gives them. */
module Exceptions {

  datatype Exception =
    | ArgumentNull(paramName: string)                    // ArgumentNullException
    | Argument(message: string, paramName: string)       // ArgumentException
    | NullReference                                      // NullReferenceException
    | InvalidOperation                                   // EF identity conflict on Add
    | DbUpdate                                           // a commit the database refuses
    | Format(message: string)                            // FormatException
    | IndexOutOfRange                                    // IndexOutOfRangeException
    | PatchException(message: string)                    // JsonPatchException

  /** Exception.Message; a parameter name is appended the way ArgumentException does it. */
  function Message(e: Exception): string {
    match e
    case ArgumentNull(p) => "Value cannot be null. (Parameter '" + p + "')"
    case Argument(msg, p) => if p == "" then msg else msg + " (Parameter '" + p + "')"
    case NullReference => "Object reference not set to an instance of an object."
    case InvalidOperation => "The instance of the entity type cannot be tracked because another instance with the same key value is already being tracked."
    case DbUpdate => "An error occurred while saving the entity changes. See the inner exception for details."
    case Format(msg) => msg
    case IndexOutOfRange => "Index was outside the bounds of the array."
    case PatchException(msg) => msg
  }
}
