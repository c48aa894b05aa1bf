/** The smaller and the larger of two natural numbers. */
module Naturals {
  function Min(a: nat, b: nat): nat {
    if a <= b then a else b
  }

  function Max(a: nat, b: nat): nat {
    if a >= b then a else b
  }
}
