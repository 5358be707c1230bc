/** Failure values shared by the model: an optional value, the reasons an
    operation yields no value, and a result carrying either. */
module Outcomes {

  datatype Option<+T> = None | Some(value: T)

  /** Why an operation produced no value. */
  datatype Error =
    | DimensionMismatch   // operands whose dimensions must agree do not
    | NilOperand          // a nil operand after the (skipped) leading one
    | NoOperands          // nothing is left once a leading nil is skipped
    | DivisionByZero      // a divisor whose magnitude is zero
    | Panic(msg: string)  // a Go panic, with its message

  datatype Result<+T> = Ok(value: T) | Err(error: Error)
}
