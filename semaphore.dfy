/** The chair pool: the counting semaphore `semaforo_cadeiras`.
    Its count is a non-negative integer; the compile-time upper bound of the
    semaphore is not modelled (the count is unbounded). */
module Semaphores {

  class Semaphore {
    var count: nat

    constructor (initial: nat)
      ensures count == initial
    {
      count := initial;
    }

    /** `try_acquire`: an atomic claim that takes one unit when one is available. */
    method TryAcquire() returns (ok: bool)
      modifies this
      ensures ok <==> old(count) > 0
      ensures count == if ok then old(count) - 1 else old(count)
    {
      ok := count > 0;
      if ok {
        count := count - 1;
      }
    }

    /** `release(update)`: adds `update` units; a negative update is not allowed. */
    method Release(update: int)
      requires update >= 0
      modifies this
      ensures count == old(count) + update
    {
      count := count + update;
    }
  }
}
