/**
 Calls into code outside the model: each may fail. `faults` counts the failures,
 so an operation can say that it fails only if such a call did.
 */
module Drivers {

  class Driver {
    ghost var faults: nat

    constructor ()
      ensures faults == 0
    {
      faults := 0;
    }

    /** Makes one call; nothing but this counts a fault. */
    method Call() returns (ok: bool)
      modifies this
      ensures faults == old(faults) + if ok then 0 else 1
    {
      ok := *;
      if !ok { faults := faults + 1; }
    }
  }
}
