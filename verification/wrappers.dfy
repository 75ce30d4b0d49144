/** Failure-carrying datatypes shared by every module of the model. */
module Wrappers {

  /** An optional value. */
  datatype Option<+T> = None | Some(value: T)

  /** The Python exceptions the modelled scripts can raise. */
  datatype Error =
    | IndexError         // a subscript outside a list, tensor or array
    | TypeError          // a list subscripted by a string
    | ValueError         // int() of a non-numeric string, or unpacking an empty zip
    | ZeroDivisionError  // a percentage taken over no labels

  /** Either a value or the exception that ended the computation. */
  datatype Result<+T> = Ok(value: T) | Err(error: Error)
}
