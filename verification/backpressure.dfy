/** The sender's credit counter (src/mani/transfer/backpressure.rs), a semaphore that is never refilled
    by releasing permits, only by credit messages. */
module Backpressure {
  import opened Types

  /** The outcome of polling a future once. */
  datatype Poll = Pending | Ready(ok: bool)

  class BackpressureBank {
    var permits: nat
    var closed: bool

    constructor (initialCredits: nat)
      ensures permits == initialCredits && !closed
    {
      permits, closed := initialCredits, false;
    }

    method IncreaseCredits(amount: nat)
      modifies this
      ensures permits == old(permits) + amount && closed == old(closed)
    {
      permits := permits + amount;
    }

    method SignalShutdown()
      modifies this
      ensures permits == old(permits) && closed
    {
      closed := true;
    }

    /** One poll of `wait_for_credit`: closed wins over available permits. */
    method PollCredit() returns (r: Poll)
      modifies this
      ensures closed == old(closed)
      ensures r == if closed then Ready(false) else if old(permits) > 0 then Ready(true) else Pending
      ensures permits == old(permits) - if r == Ready(true) then 1 else 0
    {
      if closed {
        return Ready(false);
      }
      if permits == 0 {
        return Pending;
      }
      permits := permits - 1;
      r := Ready(true);
    }
  }
}
