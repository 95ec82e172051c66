/** Small value wrappers shared by the modules of the model. */
module Wrappers {

  /** A nullable value: `None` stands for a C# `null` (or an empty `Nullable<T>`). */
  datatype Option<+T> = None | Some(value: T)

  /** An operation that either produces a value or throws. */
  datatype Result<+T, +E> = Success(value: T) | Failure(error: E)

  /** The .NET exceptions that the modelled code can raise. */
  datatype Exception =
    | NotSupported        // System.NotSupportedException
    | InvalidCast         // System.InvalidCastException (a failed unboxing)
    | Overflow            // System.OverflowException (Convert.ChangeType out of range)
    | IndexOutOfRange     // System.IndexOutOfRangeException
    | ArgumentOutOfRange  // System.ArgumentOutOfRangeException (Marshal.Copy past a buffer)
    | NullReference       // System.NullReferenceException
}
