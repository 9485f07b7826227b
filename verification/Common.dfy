/** What several modules need: an option, machine widths, minimum and maximum. */
module Common {

  datatype Option<T> = None | Some(value: T)

  const UINT32: nat := 0x1_0000_0000
  const UINT64: nat := 0x1_0000_0000_0000_0000

  type Positive = n: nat | n >= 1 witness 1

  function Min(a: nat, b: nat): nat { if a <= b then a else b }

  function Max(a: nat, b: nat): nat { if a >= b then a else b }
}
