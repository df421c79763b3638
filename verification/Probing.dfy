/** The geometry of linear probing with wraparound, as ipc_hash.c and dict.c use it. */
module Probing {

  /** The probe order starts at a and steps cyclically; k is met before b. */
  predicate Before(a: nat, k: nat, b: nat) {
    if a <= b then a <= k < b else a <= k || k < b
  }

  /** The next cell in probe order. */
  function Next(h: nat, size: nat): (n: nat)
    requires h < size
    ensures n < size
  {
    if h + 1 == size then 0 else h + 1
  }

  /** How many steps the probe takes from cell a to cell b. */
  function Distance(a: nat, b: nat, size: nat): nat
    requires a < size && b < size
  {
    if a <= b then b - a else b + size - a
  }
}
