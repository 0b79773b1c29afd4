/** Bounded unsigned arithmetic (arith/uint64.go) and the Option type used for every
    operation of the node that can return an error. */
module Arith {
  const MAX_U64: nat := 0xFFFF_FFFF_FFFF_FFFF

  type u64 = x: int | 0 <= x <= 0xFFFF_FFFF_FFFF_FFFF

  /** `None` is a returned error; error texts are not modelled. */
  datatype Option<+T> = None | Some(value: T) {
    predicate IsFailure() {
      None?
    }

    function PropagateFailure<U>(): Option<U>
      requires None?
    {
      None
    }

    function Extract(): T
      requires Some?
    {
      value
    }
  }

  function Add(a: u64, b: u64): (r: Option<u64>)
  {
    if b > MAX_U64 - a then None else Some(a + b)
  }

  function Sub(a: u64, b: u64): (r: Option<u64>)
  {
    if b > a then None else Some(a - b)
  }

  function AddCap(a: u64, b: u64): (r: u64)
  {
    if b > MAX_U64 - a then MAX_U64 else a + b
  }

  /** The uint64 nearest to a natural number from below. */
  function Cap(n: nat): (r: u64)
  {
    if n <= MAX_U64 then n else MAX_U64
  }

  function Min(a: int, b: int): int
  {
    if a <= b then a else b
  }
}
