/**
 What several modules need.
 */
module Wrappers {

  datatype Option<T> = None | Some(value: T)

  const INT_MAX: nat := 0x7fff_ffff

  /** The int that arithmetic beyond the range of an int comes back as. */
  function Wrapped(x: int): (r: int)
    ensures -0x8000_0000 <= r <= INT_MAX
    ensures -0x8000_0000 <= x <= INT_MAX ==> r == x
    ensures INT_MAX < x <= INT_MAX + 0x1_0000_0000 ==> r == x - 0x1_0000_0000
  {
    (x + 0x8000_0000) % 0x1_0000_0000 - 0x8000_0000
  }

  /** isspace, as git defines it. */
  predicate IsSpace(c: char) {
    c == ' ' || c == '\t' || c == '\n' || c == '\r'
  }
}
