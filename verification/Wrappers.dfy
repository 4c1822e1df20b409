/** The usual optional value, shared by the other modules. */
module Wrappers {
  datatype Option<+T> = None | Some(value: T)
}

/** Limits of the program's unsigned integer types. */
module Widths {
  const U16_LIMIT: nat := 0x1_0000
  const U32_LIMIT: nat := 0x1_0000_0000
  const U64_LIMIT: nat := 0x1_0000_0000_0000_0000
}
