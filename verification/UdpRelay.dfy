/** The UDP relay of internal/sideport/forward.go as a concurrent protocol.

    Any number of ports run at once. Each has its own lock; all share one
    counter; dialing happens outside every lock. A step is one action that no
    other goroutine can split: a section under one port's lock is split where
    it touches the shared counter, because other ports run in between. */
module UdpRelay {
  import opened Prelude
  import opened FlowTable

  type PortId = nat
  type FlowId = nat
  type ConnId = nat
  type TaskId = nat

  /** What the holder of a port's lock is in the middle of. */
  datatype Section =
    | Free
    | Admitting(ck: Client)  // serve: admit said yes, the flow is not in the table yet
    | Inserted(f: FlowId)    // serve: in the table, the counter not yet raised
    | Deleted(t: TaskId)     // remove: entry deleted, the counter not yet lowered
    | Emptying               // Close: counter lowered, the table not yet replaced

  datatype Port = Port(flows: map<Client, FlowId>, closed: bool, section: Section)

  /** Where a flow's own goroutine (`start`) is. */
  datatype Routine =
    | Starting               // the flow exists, its goroutine does not yet
    | Dialing                // inside Manager.dial
    | Dialed(c: ConnId)      // dial returned a socket, the lock is not taken yet
    | Discarding(c: ConnId)  // the flow is gone: about to close the socket itself
    | Relaying               // attached, copying replies
    | Finished

  datatype Flow = Flow(port: PortId, key: Client, up: Option<ConnId>, routine: Routine)

  /** An upstream socket and the flow it was dialed for. */
  datatype Conn = Conn(flow: FlowId, open: bool)

  /** A call of `remove`, or a list of sockets somebody still has to close. */
  datatype Task =
    | Remove(f: FlowId)
    | CloseConns(conns: set<ConnId>)

  /** `peak` is the largest number of ports that were open at once so far. */
  datatype World = World(
    ports: seq<Port>, flows: seq<Flow>, conns: seq<Conn>, tasks: seq<Task>,
    counter: int, peak: nat)

  datatype Limits = Limits(perPort: nat, maxFlows: nat)

  datatype Step =
    | Open
    | Admit(p: PortId, ck: Client)
    | Insert(p: PortId)
    | Count(p: PortId)
    | DialOk(f: FlowId)
    | DialFail(f: FlowId)
    | Attach(f: FlowId)
    | Discard(f: FlowId)
    | UpClosed(f: FlowId)
    | Expire(p: PortId, f: FlowId)
    | Delete(t: TaskId)
    | Uncount(p: PortId)
    | CloseOne(t: TaskId, c: ConnId)
    | CloseBegin(p: PortId)
    | CloseEnd(p: PortId)

  const INITIAL := World([], [], [], [], 0, 0)

  // ---------------------------------------------------------------- steps

  predicate LockFree(w: World, p: PortId) {
    p < |w.ports| && w.ports[p].section == Free
  }

  predicate Enabled(l: Limits, w: World, s: Step) {
    match s
    case Open => true
    case Admit(p, ck) =>
      && LockFree(w, p)
      && ck !in w.ports[p].flows
      && Admission(w.ports[p].closed, |w.ports[p].flows|, w.counter, l.perPort, l.maxFlows) == Admitted
    case Insert(p) => p < |w.ports| && w.ports[p].section.Admitting?
    case Count(p) => p < |w.ports| && w.ports[p].section.Inserted? && w.ports[p].section.f < |w.flows|
    case DialOk(f) => f < |w.flows| && w.flows[f].routine == Dialing
    case DialFail(f) => f < |w.flows| && w.flows[f].routine == Dialing
    case Attach(f) => f < |w.flows| && w.flows[f].routine.Dialed? && LockFree(w, w.flows[f].port)
    case Discard(f) => f < |w.flows| && w.flows[f].routine.Discarding? && w.flows[f].routine.c < |w.conns|
    case UpClosed(f) =>
      && f < |w.flows| && w.flows[f].routine == Relaying
      && w.flows[f].up.Some? && w.flows[f].up.value < |w.conns|
      && !w.conns[w.flows[f].up.value].open
    case Expire(p, f) => LockFree(w, p) && f < |w.flows| && Owns(w.ports[p].flows, w.flows[f].key, f)
    case Delete(t) =>
      && t < |w.tasks| && w.tasks[t].Remove? && w.tasks[t].f < |w.flows|
      && LockFree(w, w.flows[w.tasks[t].f].port)
    case Uncount(p) =>
      && p < |w.ports| && w.ports[p].section.Deleted?
      && w.ports[p].section.t < |w.tasks| && w.tasks[w.ports[p].section.t].Remove?
      && w.tasks[w.ports[p].section.t].f < |w.flows|
    case CloseOne(t, c) => t < |w.tasks| && w.tasks[t].CloseConns? && c in w.tasks[t].conns && c < |w.conns|
    case CloseBegin(p) => LockFree(w, p)
    case CloseEnd(p) => p < |w.ports| && w.ports[p].section == Emptying
  }

  function UpOf(w: World, f: FlowId): set<ConnId>
    requires f < |w.flows|
  {
    if w.flows[f].up.Some? then {w.flows[f].up.value} else {}
  }

  /** The sockets attached to the flows in port p's table. */
  function UpsOf(w: World, p: PortId): set<ConnId>
    requires p < |w.ports|
  {
    set f <- w.ports[p].flows.Values | f < |w.flows| && w.flows[f].up.Some? :: w.flows[f].up.value
  }

  function Apply(l: Limits, w: World, s: Step): World
    requires Enabled(l, w, s)
  {
    match s
    case Open =>
      var ports := w.ports + [Port(map[], false, Free)];
      w.(ports := ports, peak := if OpenPorts(ports) > w.peak then OpenPorts(ports) else w.peak)
    case Admit(p, ck) =>
      SetPort(w, p, w.ports[p].(section := Admitting(ck)))
    case Insert(p) =>
      var ck, f := w.ports[p].section.ck, |w.flows|;
      var w1 := w.(flows := w.flows + [Flow(p, ck, None, Starting)]);
      SetPort(w1, p, w.ports[p].(flows := w.ports[p].flows[ck := f], section := Inserted(f)))
    case Count(p) =>
      var w1 := SetRoutine(w, w.ports[p].section.f, Dialing);
      SetPort(w1, p, w.ports[p].(section := Free)).(counter := w.counter + 1)
    case DialOk(f) =>
      SetRoutine(w.(conns := w.conns + [Conn(f, true)]), f, Dialed(|w.conns|))
    case DialFail(f) =>
      SetRoutine(w, f, Finished).(tasks := w.tasks + [Remove(f)])
    case Attach(f) =>
      var fl := w.flows[f];
      var port := w.ports[fl.port];
      if port.closed || !Owns(port.flows, fl.key, f) then
        SetRoutine(w, f, Discarding(fl.routine.c))
      else
        w.(flows := w.flows[f := fl.(up := Some(fl.routine.c), routine := Relaying)])
    case Discard(f) =>
      var c := w.flows[f].routine.c;
      SetRoutine(ShutConn(w, c), f, Finished)
    case UpClosed(f) =>
      SetRoutine(w, f, Finished).(tasks := w.tasks + [Remove(f)])
    case Expire(p, f) =>
      w.(tasks := w.tasks + [Remove(f)])
    case Delete(t) =>
      var f := w.tasks[t].f;
      var p, ck := w.flows[f].port, w.flows[f].key;
      if Owns(w.ports[p].flows, ck, f) then
        SetPort(w, p, w.ports[p].(flows := w.ports[p].flows - {ck}, section := Deleted(t)))
      else
        w.(tasks := w.tasks[t := CloseConns(UpOf(w, f))])
    case Uncount(p) =>
      var t := w.ports[p].section.t;
      var w1 := w.(counter := w.counter - 1, tasks := w.tasks[t := CloseConns(UpOf(w, w.tasks[t].f))]);
      SetPort(w1, p, w.ports[p].(section := Free))
    case CloseOne(t, c) =>
      ShutConn(w, c).(tasks := w.tasks[t := CloseConns(w.tasks[t].conns - {c})])
    case CloseBegin(p) =>
      SetPort(w, p, w.ports[p].(closed := true, section := Emptying))
        .(counter := w.counter - |w.ports[p].flows|)
    case CloseEnd(p) =>
      SetPort(w, p, w.ports[p].(flows := map[], section := Free))
        .(tasks := w.tasks + [CloseConns(UpsOf(w, p))])
  }

  function SetPort(w: World, p: PortId, port: Port): World
    requires p < |w.ports|
  {
    w.(ports := w.ports[p := port])
  }

  function SetRoutine(w: World, f: FlowId, r: Routine): World
    requires f < |w.flows|
  {
    w.(flows := w.flows[f := w.flows[f].(routine := r)])
  }

  function ShutConn(w: World, c: ConnId): World
    requires c < |w.conns|
  {
    w.(conns := w.conns[c := w.conns[c].(open := false)])
  }

  /** The world after a schedule, or None when some step of it is not enabled. */
  function Exec(l: Limits, steps: seq<Step>): Option<World> {
    if steps == [] then Some(INITIAL)
    else
      var before := Exec(l, steps[..|steps| - 1]);
      if before.Some? && Enabled(l, before.value, steps[|steps| - 1])
      then Some(Apply(l, before.value, steps[|steps| - 1]))
      else None
  }

  // ---------------------------------------------------------------- sums over the ports

  /** What the counter should hold for one port at this point of its section. */
  function Counted(port: Port): int {
    match port.section
    case Free => |port.flows|
    case Admitting(_) => |port.flows|
    case Inserted(_) => |port.flows| - 1
    case Deleted(_) => |port.flows| + 1
    case Emptying => 0
  }

  /** 1 for a port that passed the admission check and has not counted yet. */
  function Entering(port: Port): int {
    if port.section.Admitting? || port.section.Inserted? then 1 else 0
  }

  function IsOpen(port: Port): int {
    if port.closed then 0 else 1
  }

  /** What a port adds to a sum. */
  type Weight = Port -> int

  function Sum(ports: seq<Port>, weight: Weight): int {
    if ports == [] then 0 else Sum(ports[..|ports| - 1], weight) + weight(ports[|ports| - 1])
  }

  function OpenPorts(ports: seq<Port>): nat {
    if ports == [] then 0 else OpenPorts(ports[..|ports| - 1]) + IsOpen(ports[|ports| - 1])
  }

  lemma {:induction false} OpenPortsIsSum(ports: seq<Port>)
    ensures OpenPorts(ports) == Sum(ports, IsOpen)
  {
    if ports != [] { OpenPortsIsSum(ports[..|ports| - 1]); }
  }

  lemma {:induction false} SumUpdate(ports: seq<Port>, p: PortId, port: Port, weight: Weight)
    requires p < |ports|
    ensures Sum(ports[p := port], weight) == Sum(ports, weight) - weight(ports[p]) + weight(port)
  {
    var n := |ports| - 1;
    if p < n {
      assert ports[p := port][..n] == ports[..n][p := port];
      SumUpdate(ports[..n], p, port, weight);
    } else {
      assert ports[p := port][..n] == ports[..n];
    }
  }

  lemma {:induction false} SumAppend(ports: seq<Port>, port: Port, weight: Weight)
    ensures Sum(ports + [port], weight) == Sum(ports, weight) + weight(port)
  {
    assert (ports + [port])[..|ports|] == ports;
  }

  lemma {:induction false} SumMonotone(ports: seq<Port>, small: Weight, large: Weight)
    requires forall p :: 0 <= p < |ports| ==> small(ports[p]) <= large(ports[p])
    ensures Sum(ports, small) <= Sum(ports, large)
  {
    if ports != [] {
      SumMonotone(ports[..|ports| - 1], small, large);
    }
  }
}
