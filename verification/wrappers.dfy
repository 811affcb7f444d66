/** Option stands for a Java reference that may be null; Outcome for a call
    that either returns normally or throws. */
module Wrappers {

  datatype Option<+T> = None | Some(value: T)

  /** The Java exceptions the record layer raises or lets escape. */
  datatype Exception =
    | NoSuchElement(message: string)
    | Runtime(message: string)
    | ClassCast

  /** How a Java call ended: with a return value, or by throwing. */
  datatype Outcome<+T> = Normal(value: T) | Thrown(exception: Exception)
}
