/** The `usize` helpers both editors use, on unbounded naturals. */
module Arith {

  /** `usize::saturating_sub`. */
  function SatSub(a: nat, b: nat): nat {
    if a >= b then a - b else 0
  }

  /** `cmp::min`. */
  function Min(a: nat, b: nat): nat {
    if a <= b then a else b
  }
}
