/** The flow table of one UDP side port, as both the concurrent protocol and
    the `UdpPort` class use it. */
module FlowTable {

  /** A client's IP address and UDP port, as one number. */
  type Client = nat

  datatype Refusal = Admitted | PortClosed | PortFull | FlowsFull

  /** Why a new flow is refused (internal/sideport/forward.go, `admit`). */
  function Admission(closed: bool, size: nat, counter: int, perPort: nat, maxFlows: nat): Refusal {
    if closed then PortClosed
    else if size >= perPort then PortFull
    else if counter >= maxFlows then FlowsFull
    else Admitted
  }

  /** True when the entry under `ck` is this very flow. */
  predicate Owns<F(==)>(table: map<Client, F>, ck: Client, f: F) {
    ck in table && table[ck] == f
  }
}
