/** Shared small types, the widths of machine integers, and ASCII character classes. */
module Wrappers {
  datatype Option<+T> = None | Some(value: T)

  datatype Result<+T, +E> = Ok(value: T) | Err(error: E)

  newtype byte = b: int | 0 <= b < 256

  newtype u16 = w: int | 0 <= w < 0x1_0000

  const U32_SIZE: nat := 0x1_0000_0000
  const U64_SIZE: nat := 0x1_0000_0000_0000_0000
  const NANOS_PER_MS: nat := 1_000_000

  predicate Alphanumeric(c: char) {
    '0' <= c <= '9' || 'A' <= c <= 'Z' || 'a' <= c <= 'z'
  }

  predicate WordChar(c: char) {
    Alphanumeric(c) || c == '_'
  }
}
