/**
 Datatypes and small helpers shared by the other modules.
 */
module Prelude {

  datatype Option<+T> = None | Some(value: T)

  datatype Result<+T, +E> = Ok(value: T) | Err(error: E)

  /** A floating-point cell: numpy's NaN, or a number (rounding is idealised away). */
  datatype Value = NaN | Num(v: real)

  function Max(x: real, y: real): real {
    if x >= y then x else y
  }
}
