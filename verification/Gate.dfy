/** The commit point between handshake and proxy stages (crates/sni_router/src/delivery/gate.rs). */
module Gate {
  datatype GateState = GateState(closed: bool, proxying: int)

  const OPEN_GATE := GateState(false, 0)

  /** The gate after an attempt to enter, and whether it was admitted. */
  function Enter(gate: GateState): (GateState, bool) {
    if gate.closed then (gate, false) else (gate.(proxying := gate.proxying + 1), true)
  }

  function Close(gate: GateState): GateState {
    gate.(closed := true)
  }

  function Leave(gate: GateState): GateState {
    gate.(proxying := gate.proxying - 1)
  }

  class ProxyGate {
    var closed: bool
    var proxying: nat
    var handshakesCancelled: bool

    ghost predicate Valid()
      reads this
    {
      handshakesCancelled == closed
    }

    function Model(): GateState
      reads this
    {
      GateState(closed, proxying)
    }

    constructor ()
      ensures Valid() && Model() == OPEN_GATE
    {
      closed, proxying, handshakesCancelled := false, 0, false;
    }

    /** Hands out a pass and counts it while the gate is open. */
    method TryEnter() returns (admitted: bool)
      requires Valid()
      modifies this`proxying
      ensures Valid() && (Model(), admitted) == Enter(old(Model()))
    {
      if closed {
        return false;
      }
      proxying := proxying + 1;
      admitted := true;
    }

    /** Stops admitting and cancels every handshake; returns how many are proxying. */
    method Shut() returns (remaining: nat)
      requires Valid()
      modifies this
      ensures Valid() && Model() == Close(old(Model())) && remaining == old(proxying)
    {
      closed := true;
      handshakesCancelled := true;
      remaining := proxying;
    }

    method DropPass()
      requires Valid() && proxying > 0
      modifies this`proxying
      ensures Valid() && Model() == Leave(old(Model()))
    {
      proxying := proxying - 1;
    }
  }
}
