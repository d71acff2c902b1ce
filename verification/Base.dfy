/** Types and constants that several components share. */
module Base {

  datatype Option<+T> = None | Some(value: T)

  datatype Result<+T> = Ok(value: T) | Err(error: string)

  const U32: int := 0x1_0000_0000
  const I32_HALF: int := 0x8000_0000
}
