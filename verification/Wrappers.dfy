/** Small datatypes shared by every module. */
module Wrappers {
  datatype Option<+T> = None | Some(value: T)

  datatype Result<+T, +E> = Ok(value: T) | Err(error: E)

  /** Where an operation's record is allocated. */
  type Addr = nat

  function Min(a: nat, b: nat): nat {
    if a < b then a else b
  }

  /** One if the condition holds, zero otherwise: used to count holders. */
  function One(b: bool): nat {
    if b then 1 else 0
  }
}
