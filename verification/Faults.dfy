/** Calls of the operating system, any of which may fail. */
module Faults {
  class Calls {
    /** Whether the n-th call fails. */
    const fails: nat -> bool
    var made: nat

    constructor (fails: nat -> bool)
      ensures this.fails == fails && made == 0
    {
      this.fails := fails;
      made := 0;
    }

    /** No call from number `from` on, up to number `to`, has failed. */
    ghost predicate Quiet(from: nat, to: nat) {
      forall n: nat :: from <= n < to ==> !fails(n)
    }

    method Try() returns (ok: bool)
      modifies `made
      ensures made == old(made) + 1 && ok == !fails(old(made))
    {
      ok := !fails(made);
      made := made + 1;
    }
  }
}
