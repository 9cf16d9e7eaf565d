/** What every interleaving of the UDP relay keeps. */
module UdpRelaySafety {
  import opened Prelude
  import opened FlowTable
  import opened UdpRelay

  // ---------------------------------------------------------------- the invariant

  ghost predicate InTable(w: World, f: FlowId) {
    && f < |w.flows| && w.flows[f].port < |w.ports|
    && Owns(w.ports[w.flows[f].port].flows, w.flows[f].key, f)
  }

  /** Somebody's list of sockets to close names c. */
  ghost predicate Listed(w: World, c: ConnId) {
    exists t :: 0 <= t < |w.tasks| && w.tasks[t].CloseConns? && c in w.tasks[t].conns
  }

  /** A `remove` call that deleted f's entry has not yet read its socket. */
  ghost predicate BeingRemoved(w: World, f: FlowId) {
    && f < |w.flows| && w.flows[f].port < |w.ports|
    && var section := w.ports[w.flows[f].port].section;
       section.Deleted? && section.t < |w.tasks| && w.tasks[section.t] == Remove(f)
  }

  ghost predicate PortOk(l: Limits, w: World, p: PortId)
    requires p < |w.ports|
  {
    var port := w.ports[p];
    && (forall ck <- port.flows ::
          port.flows[ck] < |w.flows| && w.flows[port.flows[ck]].port == p && w.flows[port.flows[ck]].key == ck)
    && |port.flows| <= l.perPort
    && (port.closed && port.section != Emptying ==> port.flows == map[])
    && match port.section
       case Free => true
       case Admitting(ck) => !port.closed && ck !in port.flows && |port.flows| < l.perPort
       case Inserted(f) => !port.closed && f < |w.flows| && w.flows[f].routine == Starting && w.flows[f].port == p
         && InTable(w, f)
       case Deleted(t) =>
         && t < |w.tasks| && w.tasks[t].Remove? && w.tasks[t].f < |w.flows|
         && w.flows[w.tasks[t].f].port == p && !InTable(w, w.tasks[t].f)
       case Emptying => port.closed
  }

  ghost predicate FlowOk(w: World, f: FlowId)
    requires f < |w.flows|
  {
    var flow := w.flows[f];
    && flow.port < |w.ports|
    && (flow.up.Some? ==>
          && flow.up.value < |w.conns| && w.conns[flow.up.value].flow == f
          && (flow.routine == Relaying || flow.routine == Finished))
    && match flow.routine
       case Starting => w.ports[flow.port].section == Inserted(f)
       case Dialing => true
       case Dialed(c) => c < |w.conns| && w.conns[c] == Conn(f, true)
       case Discarding(c) => c < |w.conns| && w.conns[c] == Conn(f, true)
       case Relaying => flow.up.Some?
       case Finished => true
  }

  /** Where a socket is: still with the goroutine that dialed it, attached to
      its flow, or closed without ever having been attached. */
  ghost predicate ConnOk(w: World, c: ConnId)
    requires c < |w.conns|
  {
    var f := w.conns[c].flow;
    && f < |w.flows|
    && (|| w.flows[f].routine == Dialed(c)
        || w.flows[f].routine == Discarding(c)
        || w.flows[f].up == Some(c)
        || (!w.conns[c].open && w.flows[f].routine == Finished))
    && (w.conns[c].open && w.flows[f].up == Some(c) ==> InTable(w, f) || Listed(w, c) || BeingRemoved(w, f))
  }

  ghost predicate TaskOk(w: World, t: TaskId)
    requires t < |w.tasks|
  {
    match w.tasks[t]
    case Remove(f) => f < |w.flows|
    case CloseConns(cs) => forall c <- cs ::
      c < |w.conns| && w.conns[c].flow < |w.flows| && w.flows[w.conns[c].flow].up == Some(c)
  }

  /** A `remove` call for f has been issued and has not run yet. */
  ghost predicate RemovalPending(w: World, f: FlowId) {
    exists t :: 0 <= t < |w.tasks| && w.tasks[t] == Remove(f)
  }

  /** A flow in a table is still dialing, or owns an open socket, or its dial
      failed and its removal is pending. */
  ghost predicate EntryOk(w: World, f: FlowId)
    requires f < |w.flows|
  {
    InTable(w, f) ==>
      match w.flows[f].up
      case Some(c) => w.flows[f].routine == Relaying && c < |w.conns| && w.conns[c].open
      case None =>
        || w.flows[f].routine == Starting || w.flows[f].routine == Dialing || w.flows[f].routine.Dialed?
        || (w.flows[f].routine == Finished && RemovalPending(w, f))
  }

  ghost predicate Entries(w: World) {
    && (forall f :: 0 <= f < |w.flows| ==> EntryOk(w, f))
    && (forall t :: 0 <= t < |w.tasks| ==> UnlinkedList(w, t))
  }

  /** A list of sockets to close names no socket of a flow still in a table. */
  ghost predicate UnlinkedList(w: World, t: TaskId)
    requires t < |w.tasks|
  {
    w.tasks[t].CloseConns? ==> forall c <- w.tasks[t].conns :: c < |w.conns| ==> !InTable(w, w.conns[c].flow)
  }

  ghost predicate Shape(l: Limits, w: World) {
    && (forall p :: 0 <= p < |w.ports| ==> PortOk(l, w, p))
    && (forall f :: 0 <= f < |w.flows| ==> FlowOk(w, f))
    && (forall c :: 0 <= c < |w.conns| ==> ConnOk(w, c))
    && (forall t :: 0 <= t < |w.tasks| ==> TaskOk(w, t))
  }

  ghost predicate Accounts(l: Limits, w: World) {
    && w.counter == Sum(w.ports, Counted)
    && OpenPorts(w.ports) <= w.peak
    && w.counter + Sum(w.ports, Entering) <= l.maxFlows - 1 + w.peak
  }

  ghost predicate Inv(l: Limits, w: World) {
    Shape(l, w) && Entries(w) && Accounts(l, w)
  }

  // ---------------------------------------------------------------- every step keeps the shape

  /** The parts of the invariant about whatever step s acts on. */
  ghost predicate ActorOk(l: Limits, w: World, s: Step)
    requires Enabled(l, w, s)
  {
    match s
    case Open => true
    case Admit(p, _) => PortOk(l, w, p)
    case Insert(p) => PortOk(l, w, p)
    case Count(p) => PortOk(l, w, p) && FlowOk(w, w.ports[p].section.f)
    case DialOk(f) => FlowOk(w, f)
    case DialFail(f) => FlowOk(w, f)
    case Attach(f) => FlowOk(w, f) && PortOk(l, w, w.flows[f].port)
    case Discard(f) => FlowOk(w, f) && ConnOk(w, w.flows[f].routine.c)
    case UpClosed(f) => FlowOk(w, f)
    case Expire(p, f) => FlowOk(w, f)
    case Delete(t) => FlowOk(w, w.tasks[t].f) && PortOk(l, w, w.flows[w.tasks[t].f].port)
    case Uncount(p) => PortOk(l, w, p) && FlowOk(w, w.tasks[w.ports[p].section.t].f)
    case CloseOne(t, c) => TaskOk(w, t) && ConnOk(w, c) && FlowOk(w, w.conns[c].flow)
    case CloseBegin(p) => PortOk(l, w, p)
    case CloseEnd(p) => PortOk(l, w, p)
  }

  lemma ActorIsOk(l: Limits, w: World, s: Step)
    requires Shape(l, w) && Enabled(l, w, s)
    ensures ActorOk(l, w, s)
  {
    match s
    case Count(p) => var f := w.ports[p].section.f; assert FlowOk(w, f);
    case Attach(f) => var p := w.flows[f].port; assert FlowOk(w, f); assert PortOk(l, w, p);
    case Discard(f) => var c := w.flows[f].routine.c; assert ConnOk(w, c);
    case Delete(t) => var f := w.tasks[t].f; var p := w.flows[f].port; assert FlowOk(w, f) && PortOk(l, w, p);
    case Uncount(p) => var t := w.ports[p].section.t; var f := w.tasks[t].f; assert FlowOk(w, f);
    case CloseOne(t, c) => var f := w.conns[c].flow; assert ConnOk(w, c) && FlowOk(w, f);
    case _ =>
  }

  /** The port whose lock a step needs, if it needs one. */
  function Locked(l: Limits, w: World, s: Step): Option<PortId>
    requires Enabled(l, w, s)
  {
    match s
    case Admit(p, _) => Some(p)
    case Insert(p) => Some(p)
    case Count(p) => Some(p)
    case Attach(f) => Some(w.flows[f].port)
    case Expire(p, _) => Some(p)
    case Delete(t) => Some(w.flows[w.tasks[t].f].port)
    case Uncount(p) => Some(p)
    case CloseBegin(p) => Some(p)
    case CloseEnd(p) => Some(p)
    case _ => None
  }

  /** Flows never change port or key. */
  lemma FlowsStayPut(l: Limits, w: World, s: Step)
    requires Enabled(l, w, s)
    ensures SameFlows(w, Apply(l, w, s))
  {
  }

  ghost predicate SameFlows(w: World, w': World) {
    && |w.flows| <= |w'.flows|
    && forall f :: 0 <= f < |w.flows| ==> w'.flows[f].port == w.flows[f].port && w'.flows[f].key == w.flows[f].key
  }

  /** A port that a step leaves alone stays in order. */
  lemma UntouchedPort(l: Limits, w: World, w': World, p: PortId)
    requires p < |w.ports| && p < |w'.ports| && w'.ports[p] == w.ports[p] && PortOk(l, w, p) && SameFlows(w, w')
    requires w.ports[p].section.Inserted? ==> w'.flows[w.ports[p].section.f].routine == Starting
    requires w.ports[p].section.Deleted? ==>
      w.ports[p].section.t < |w'.tasks| && w'.tasks[w.ports[p].section.t] == w.tasks[w.ports[p].section.t]
    ensures PortOk(l, w', p)
  {
  }

  lemma StepKeepsOtherPort(l: Limits, w: World, s: Step, p: PortId)
    requires Enabled(l, w, s) && ActorOk(l, w, s) && p < |w.ports| && PortOk(l, w, p) && Locked(l, w, s) != Some(p)
    ensures p < |Apply(l, w, s).ports| && PortOk(l, Apply(l, w, s), p)
  {
    var w' := Apply(l, w, s);
    FlowsStayPut(l, w, s);
    assert w'.ports[p] == w.ports[p];
    if w.ports[p].section.Inserted? {
      assert w'.flows[w.ports[p].section.f].routine == Starting;
    } else if w.ports[p].section.Deleted? {
      assert w'.tasks[w.ports[p].section.t] == w.tasks[w.ports[p].section.t];
    }
    UntouchedPort(l, w, w', p);
  }

  lemma InsertKeepsPort(l: Limits, w: World, p: PortId)
    requires Enabled(l, w, Insert(p)) && PortOk(l, w, p)
    ensures PortOk(l, Apply(l, w, Insert(p)), p)
  {
    var flows' := Apply(l, w, Insert(p)).ports[p].flows;
    assert flows'.Keys == w.ports[p].flows.Keys + {w.ports[p].section.ck};
  }

  lemma DeleteKeepsPort(l: Limits, w: World, t: TaskId, p: PortId)
    requires Enabled(l, w, Delete(t)) && p == w.flows[w.tasks[t].f].port && PortOk(l, w, p)
    ensures PortOk(l, Apply(l, w, Delete(t)), p)
  {
    var flows' := Apply(l, w, Delete(t)).ports[p].flows;
    assert flows'.Keys <= w.ports[p].flows.Keys;
    SubsetSize(flows'.Keys, w.ports[p].flows.Keys);
  }

  lemma StepKeepsLockedPort(l: Limits, w: World, s: Step, p: PortId)
    requires Enabled(l, w, s) && ActorOk(l, w, s) && p < |w.ports| && PortOk(l, w, p) && Locked(l, w, s) == Some(p)
    ensures p < |Apply(l, w, s).ports| && PortOk(l, Apply(l, w, s), p)
  {
    match s
    case Insert(_) => InsertKeepsPort(l, w, p);
    case Delete(t) => DeleteKeepsPort(l, w, t, p);
    case Attach(_) => UntouchedPort(l, w, Apply(l, w, s), p);
    case Expire(_, _) => UntouchedPort(l, w, Apply(l, w, s), p);
    case _ =>
  }

  lemma StepKeepsPorts(l: Limits, w: World, s: Step)
    requires Shape(l, w) && Enabled(l, w, s)
    ensures var w' := Apply(l, w, s); forall p :: 0 <= p < |w'.ports| ==> PortOk(l, w', p)
  {
    var w' := Apply(l, w, s);
    ActorIsOk(l, w, s);
    forall p | 0 <= p < |w'.ports| ensures PortOk(l, w', p) {
      if p < |w.ports| {
        assert PortOk(l, w, p);
        if Locked(l, w, s) == Some(p) { StepKeepsLockedPort(l, w, s, p); } else { StepKeepsOtherPort(l, w, s, p); }
      }
    }
  }

  /** Steps of a flow's own goroutine. */
  predicate OnRoutine(s: Step) {
    s.Count? || s.DialOk? || s.DialFail? || s.Attach? || s.Discard? || s.UpClosed?
  }

  lemma AttachKeepsFlow(l: Limits, w: World, s: Step, f: FlowId)
    requires Enabled(l, w, s) && ActorOk(l, w, s) && f < |w.flows| && FlowOk(w, f) && s.Attach?
    ensures f < |Apply(l, w, s).flows| && FlowOk(Apply(l, w, s), f)
  {
  }

  lemma RoutineKeepsFlow(l: Limits, w: World, s: Step, f: FlowId)
    requires Enabled(l, w, s) && ActorOk(l, w, s) && f < |w.flows| && FlowOk(w, f) && OnRoutine(s)
    ensures f < |Apply(l, w, s).flows| && FlowOk(Apply(l, w, s), f)
  {
    if s.Attach? { AttachKeepsFlow(l, w, s, f); }
  }

  lemma OtherKeepsFlow(l: Limits, w: World, s: Step, f: FlowId)
    requires Enabled(l, w, s) && ActorOk(l, w, s) && f < |w.flows| && FlowOk(w, f) && !OnRoutine(s)
    ensures f < |Apply(l, w, s).flows| && FlowOk(Apply(l, w, s), f)
  {
  }

  lemma NewFlowOk(l: Limits, w: World, s: Step, f: FlowId)
    requires Enabled(l, w, s) && |w.flows| <= f < |Apply(l, w, s).flows|
    ensures FlowOk(Apply(l, w, s), f)
  {
  }

  lemma StepKeepsFlows(l: Limits, w: World, s: Step)
    requires Shape(l, w) && Enabled(l, w, s)
    ensures var w' := Apply(l, w, s); forall f :: 0 <= f < |w'.flows| ==> FlowOk(w', f)
  {
    var w' := Apply(l, w, s);
    ActorIsOk(l, w, s);
    forall f | 0 <= f < |w'.flows| ensures FlowOk(w', f) {
      if f >= |w.flows| {
        NewFlowOk(l, w, s, f);
      } else if OnRoutine(s) {
        RoutineKeepsFlow(l, w, s, f);
      } else {
        OtherKeepsFlow(l, w, s, f);
      }
    }
  }

  lemma StillListed(l: Limits, w: World, s: Step, c: ConnId)
    requires Shape(l, w) && Enabled(l, w, s) && c < |w.conns| && Listed(w, c) && Apply(l, w, s).conns[c].open
    ensures Listed(Apply(l, w, s), c)
  {
    var w' := Apply(l, w, s);
    var t :| 0 <= t < |w.tasks| && w.tasks[t].CloseConns? && c in w.tasks[t].conns;
    ActorIsOk(l, w, s);
    assert w'.tasks[t].CloseConns? && c in w'.tasks[t].conns;
  }

  /** A socket attached to a flow that leaves its table is on its way to being closed. */
  lemma LeavingTable(l: Limits, w: World, s: Step, c: ConnId, f: FlowId)
    requires Shape(l, w) && Enabled(l, w, s) && InTable(w, f) && w.flows[f].up == Some(c)
    ensures var w' := Apply(l, w, s); InTable(w', f) || Listed(w', c) || BeingRemoved(w', f)
  {
    var w', p := Apply(l, w, s), w.flows[f].port;
    ActorIsOk(l, w, s);
    assert FlowOk(w, f) && PortOk(l, w, p);
    if s == CloseEnd(p) {
      assert c in UpsOf(w, p);
      assert c in w'.tasks[|w.tasks|].conns;
    }
  }

  lemma LeavingRemoval(l: Limits, w: World, s: Step, c: ConnId, f: FlowId)
    requires Shape(l, w) && Enabled(l, w, s) && BeingRemoved(w, f) && w.flows[f].up == Some(c)
    ensures var w' := Apply(l, w, s); Listed(w', c) || BeingRemoved(w', f)
  {
    var w', p := Apply(l, w, s), w.flows[f].port;
    ActorIsOk(l, w, s);
    assert FlowOk(w, f) && PortOk(l, w, p);
    if s == Uncount(p) {
      assert c in w'.tasks[w.ports[p].section.t].conns;
    }
  }

  lemma StepKeepsConns(l: Limits, w: World, s: Step)
    requires Shape(l, w) && Enabled(l, w, s)
    ensures var w' := Apply(l, w, s); forall c :: 0 <= c < |w'.conns| ==> ConnOk(w', c)
  {
    ActorIsOk(l, w, s);
    var w' := Apply(l, w, s);
    forall c | 0 <= c < |w'.conns| ensures ConnOk(w', c) {
      if c < |w.conns| {
        var f := w.conns[c].flow;
        assert ConnOk(w, c) && FlowOk(w, f);
        if w'.conns[c].open && w.flows[f].up == Some(c) {
          if InTable(w, f) {
            LeavingTable(l, w, s, c, f);
          } else if Listed(w, c) {
            StillListed(l, w, s, c);
          } else {
            LeavingRemoval(l, w, s, c, f);
          }
        }
      }
    }
  }

  lemma RoutineKeepsTask(l: Limits, w: World, s: Step, t: TaskId)
    requires Enabled(l, w, s) && ActorOk(l, w, s) && t < |w.tasks| && TaskOk(w, t) && OnRoutine(s)
    ensures t < |Apply(l, w, s).tasks| && TaskOk(Apply(l, w, s), t)
  {
  }

  lemma OtherKeepsTask(l: Limits, w: World, s: Step, t: TaskId)
    requires Enabled(l, w, s) && ActorOk(l, w, s) && t < |w.tasks| && TaskOk(w, t) && !OnRoutine(s)
    ensures t < |Apply(l, w, s).tasks| && TaskOk(Apply(l, w, s), t)
  {
  }

  lemma NewTaskOk(l: Limits, w: World, s: Step, t: TaskId)
    requires Shape(l, w) && Enabled(l, w, s) && |w.tasks| <= t < |Apply(l, w, s).tasks|
    ensures TaskOk(Apply(l, w, s), t)
  {
    ActorIsOk(l, w, s);
    if s.CloseEnd? {
      assert forall f <- w.ports[s.p].flows.Values :: FlowOk(w, f);
    }
  }

  lemma StepKeepsTasks(l: Limits, w: World, s: Step)
    requires Shape(l, w) && Enabled(l, w, s)
    ensures var w' := Apply(l, w, s); forall t :: 0 <= t < |w'.tasks| ==> TaskOk(w', t)
  {
    var w' := Apply(l, w, s);
    ActorIsOk(l, w, s);
    forall t | 0 <= t < |w'.tasks| ensures TaskOk(w', t) {
      if t >= |w.tasks| {
        NewTaskOk(l, w, s, t);
      } else if OnRoutine(s) {
        RoutineKeepsTask(l, w, s, t);
      } else {
        OtherKeepsTask(l, w, s, t);
      }
    }
  }

  /** A flow never comes back into a table. */
  lemma NeverRelinked(l: Limits, w: World, s: Step, f: FlowId)
    requires Enabled(l, w, s) && ActorOk(l, w, s) && f < |w.flows| && FlowOk(w, f) && !InTable(w, f)
    ensures !InTable(Apply(l, w, s), f)
  {
  }

  lemma StillPending(l: Limits, w: World, s: Step, f: FlowId)
    requires Enabled(l, w, s) && ActorOk(l, w, s) && f < |w.flows| && FlowOk(w, f)
    requires RemovalPending(w, f) && InTable(Apply(l, w, s), f)
    requires InTable(w, f)
    ensures RemovalPending(Apply(l, w, s), f)
  {
    var t :| 0 <= t < |w.tasks| && w.tasks[t] == Remove(f);
    assert Apply(l, w, s).tasks[t] == Remove(f);
  }

  lemma StepKeepsEntry(l: Limits, w: World, s: Step, f: FlowId)
    requires Enabled(l, w, s) && ActorOk(l, w, s) && f < |w.flows| && FlowOk(w, f) && EntryOk(w, f)
    requires s.CloseOne? ==> UnlinkedList(w, s.t)
    ensures f < |Apply(l, w, s).flows| && EntryOk(Apply(l, w, s), f)
  {
    var w' := Apply(l, w, s);
    if InTable(w', f) {
      if !InTable(w, f) { NeverRelinked(l, w, s, f); }
      if RemovalPending(w, f) {
        StillPending(l, w, s, f);
      } else if s == DialFail(f) {
        assert w'.tasks[|w.tasks|] == Remove(f);
      }
    }
  }

  lemma StepKeepsEntries(l: Limits, w: World, s: Step)
    requires Shape(l, w) && Entries(w) && Enabled(l, w, s)
    ensures Entries(Apply(l, w, s))
  {
    var w' := Apply(l, w, s);
    ActorIsOk(l, w, s);
    forall f | 0 <= f < |w'.flows| ensures EntryOk(w', f) {
      if f < |w.flows| { StepKeepsEntry(l, w, s, f); }
    }
    forall t | 0 <= t < |w'.tasks| ensures UnlinkedList(w', t) {
      if w'.tasks[t].CloseConns? {
        forall c <- w'.tasks[t].conns | c < |w'.conns| ensures !InTable(w', w'.conns[c].flow) {
          ListedIsUnlinked(l, w, s, t, c);
        }
      }
    }
  }

  lemma ListedIsUnlinked(l: Limits, w: World, s: Step, t: TaskId, c: ConnId)
    requires Shape(l, w) && Entries(w) && Enabled(l, w, s)
    requires t < |Apply(l, w, s).tasks| && Apply(l, w, s).tasks[t].CloseConns? && c in Apply(l, w, s).tasks[t].conns
    requires c < |Apply(l, w, s).conns|
    ensures !InTable(Apply(l, w, s), Apply(l, w, s).conns[c].flow)
  {
    var w' := Apply(l, w, s);
    ActorIsOk(l, w, s);
    if t < |w.tasks| && w.tasks[t].CloseConns? {
      assert UnlinkedList(w, t) && TaskOk(w, t);
      var f := w.conns[c].flow;
      assert FlowOk(w, f);
      NeverRelinked(l, w, s, f);
    } else if s.CloseEnd? {
      assert forall f <- w.ports[s.p].flows.Values :: FlowOk(w, f);
    }
  }

  // ---------------------------------------------------------------- the counter

  lemma InsertSize(m: map<Client, FlowId>, ck: Client, f: FlowId)
    requires ck !in m
    ensures |m[ck := f]| == |m| + 1
  {
    assert m[ck := f].Keys == m.Keys + {ck};
  }

  lemma DeleteSize(m: map<Client, FlowId>, ck: Client)
    requires ck in m
    ensures |m - {ck}| == |m| - 1
  {
    assert m.Keys == (m - {ck}).Keys + {ck};
  }

  lemma EnteringPortsAreOpen(l: Limits, w: World)
    requires forall p :: 0 <= p < |w.ports| ==> PortOk(l, w, p)
    ensures Sum(w.ports, Entering) <= OpenPorts(w.ports)
  {
    OpenPortsIsSum(w.ports);
    forall p | 0 <= p < |w.ports| ensures Entering(w.ports[p]) <= IsOpen(w.ports[p]) {
      assert PortOk(l, w, p);
    }
    SumMonotone(w.ports, Entering, IsOpen);
  }

  /** One port's entry changes; the three sums follow. */
  lemma AccountsAfterPortChange(l: Limits, w: World, w': World, p: PortId)
    requires Accounts(l, w) && p < |w.ports| && p < |w'.ports| && w'.ports == w.ports[p := w'.ports[p]]
      && w'.peak == w.peak
    requires Counted(w'.ports[p]) - Counted(w.ports[p]) == w'.counter - w.counter
    requires IsOpen(w'.ports[p]) <= IsOpen(w.ports[p])
    requires (w'.counter - w.counter) + Entering(w'.ports[p]) <= Entering(w.ports[p])
          || (w'.counter < l.maxFlows && Sum(w'.ports, Entering) <= OpenPorts(w'.ports))
    ensures Accounts(l, w')
  {
    OpenPortsIsSum(w.ports);
    OpenPortsIsSum(w'.ports);
    SumUpdate(w.ports, p, w'.ports[p], Counted);
    SumUpdate(w.ports, p, w'.ports[p], Entering);
    SumUpdate(w.ports, p, w'.ports[p], IsOpen);
  }

  /** How one locked section moves its own port's share of the counter. */
  lemma SectionSizes(l: Limits, w: World, s: Step, p: PortId)
    requires Shape(l, w) && Enabled(l, w, s) && Locked(l, w, s) == Some(p) && p < |w.ports|
    ensures
      var w' := Apply(l, w, s);
      && |w'.ports| == |w.ports|
      && Counted(w'.ports[p]) - Counted(w.ports[p]) == w'.counter - w.counter
      && IsOpen(w'.ports[p]) <= IsOpen(w.ports[p])
      && (s.Admit? || (w'.counter - w.counter) + Entering(w'.ports[p]) <= Entering(w.ports[p]))
  {
    ActorIsOk(l, w, s);
    if s.Insert? {
      InsertSize(w.ports[p].flows, w.ports[p].section.ck, |w.flows|);
    } else if s.Delete? {
      var f := w.tasks[s.t].f;
      if Owns(w.ports[p].flows, w.flows[f].key, f) { DeleteSize(w.ports[p].flows, w.flows[f].key); }
    }
  }

  lemma LockedPortExists(l: Limits, w: World, s: Step)
    requires Shape(l, w) && Enabled(l, w, s) && Locked(l, w, s).Some?
    ensures
      var p := Locked(l, w, s).value;
      && p < |w.ports|
      && Apply(l, w, s).ports == w.ports[p := Apply(l, w, s).ports[p]]
  {
    ActorIsOk(l, w, s);
  }

  lemma StepKeepsAccounts(l: Limits, w: World, s: Step)
    requires Inv(l, w) && Enabled(l, w, s)
    ensures Accounts(l, Apply(l, w, s))
  {
    var w' := Apply(l, w, s);
    if s.Open? {
      var port := Port(map[], false, Free);
      SumAppend(w.ports, port, Counted);
      SumAppend(w.ports, port, Entering);
    } else if Locked(l, w, s).Some? {
      var p := Locked(l, w, s).value;
      LockedPortExists(l, w, s);
      SectionSizes(l, w, s, p);
      StepKeepsPorts(l, w, s);
      EnteringPortsAreOpen(l, w');
      AccountsAfterPortChange(l, w, w', p);
    }
  }

  // ---------------------------------------------------------------- every reachable world

  lemma {:induction false} ReachableInv(l: Limits, steps: seq<Step>)
    requires l.maxFlows >= 1 && Exec(l, steps).Some?
    ensures Inv(l, Exec(l, steps).value)
  {
    if steps != [] {
      var before, s := steps[..|steps| - 1], steps[|steps| - 1];
      ReachableInv(l, before);
      var w := Exec(l, before).value;
      StepKeepsPorts(l, w, s);
      StepKeepsFlows(l, w, s);
      StepKeepsConns(l, w, s);
      StepKeepsTasks(l, w, s);
      StepKeepsEntries(l, w, s);
      StepKeepsAccounts(l, w, s);
    }
  }

  function TableSize(port: Port): int {
    |port.flows|
  }

  ghost predicate NoSectionRunning(w: World) {
    forall p :: 0 <= p < |w.ports| ==> w.ports[p].section == Free
  }

  /** In every interleaving the shared counter is the sum of what each port has
      counted at its point of its section, so the number of table entries whenever
      no section that touches both is running; it never goes negative; no table
      exceeds its cap; and the counter exceeds the global cap by at most one less than
      the number of ports that were ever open at once. */
  lemma CounterTheorem(l: Limits, steps: seq<Step>)
    requires l.maxFlows >= 1 && Exec(l, steps).Some?
    ensures
      var w := Exec(l, steps).value;
      && w.counter == Sum(w.ports, Counted)
      && (NoSectionRunning(w) ==> w.counter == Sum(w.ports, TableSize))
      && 0 <= w.counter <= l.maxFlows - 1 + w.peak
      && (forall p :: 0 <= p < |w.ports| ==> |w.ports[p].flows| <= l.perPort)
  {
    var w := Exec(l, steps).value;
    ReachableInv(l, steps);
    forall p | 0 <= p < |w.ports| ensures |w.ports[p].flows| <= l.perPort && 0 <= Counted(w.ports[p]) {
      assert PortOk(l, w, p);
      if w.ports[p].section.Inserted? {
        assert w.flows[w.ports[p].section.f].key in w.ports[p].flows;
      }
    }
    SumNonNegative(w.ports, Counted);
    SumNonNegative(w.ports, Entering);
    if NoSectionRunning(w) { SumSame(w.ports, Counted, TableSize); }
  }

  lemma {:induction false} SumNonNegative(ports: seq<Port>, weight: Port -> int)
    requires forall p :: 0 <= p < |ports| ==> 0 <= weight(ports[p])
    ensures 0 <= Sum(ports, weight)
  {
    if ports != [] { SumNonNegative(ports[..|ports| - 1], weight); }
  }

  lemma {:induction false} SumSame(ports: seq<Port>, a: Port -> int, b: Port -> int)
    requires forall p :: 0 <= p < |ports| ==> a(ports[p]) == b(ports[p])
    ensures Sum(ports, a) == Sum(ports, b)
  {
    if ports != [] { SumSame(ports[..|ports| - 1], a, b); }
  }

  // ---------------------------------------------------------------- sockets

  /** Flow f is in its port's table and owns the open socket c. */
  ghost predicate OwnedByTable(w: World, c: ConnId)
    requires c < |w.conns|
  {
    var f := w.conns[c].flow;
    f < |w.flows| && w.flows[f].up == Some(c) && InTable(w, f)
  }

  /** The code that will close c, when no table entry owns it: the goroutine
      that dialed it, a list of sockets to close, or a `remove` in progress. */
  ghost predicate HasCloser(w: World, c: ConnId)
    requires c < |w.conns|
  {
    var f := w.conns[c].flow;
    || (f < |w.flows| && (w.flows[f].routine == Dialed(c) || w.flows[f].routine == Discarding(c)))
    || Listed(w, c)
    || BeingRemoved(w, f)
  }

  /** In every interleaving: a flow in a table is still dialing, or owns an open
      socket, or its dial failed and its removal is pending; no socket is
      attached to two flows; and every open socket is owned by a table entry or
      by code that will close it. */
  lemma SocketTheorem(l: Limits, steps: seq<Step>)
    requires l.maxFlows >= 1 && Exec(l, steps).Some?
    ensures
      var w := Exec(l, steps).value;
      && (forall f :: 0 <= f < |w.flows| ==> EntryOk(w, f))
      && (forall f, g ::
          0 <= f < |w.flows| && 0 <= g < |w.flows| && w.flows[f].up.Some? && w.flows[g].up == w.flows[f].up ==> f == g)
      && (forall c :: 0 <= c < |w.conns| && w.conns[c].open ==> OwnedByTable(w, c) || HasCloser(w, c))
  {
    var w := Exec(l, steps).value;
    ReachableInv(l, steps);
    forall f, g | 0 <= f < |w.flows| && 0 <= g < |w.flows| && w.flows[f].up.Some? && w.flows[g].up == w.flows[f].up
      ensures f == g
    {
      assert FlowOk(w, f) && FlowOk(w, g);
    }
    forall c | 0 <= c < |w.conns| && w.conns[c].open ensures OwnedByTable(w, c) || HasCloser(w, c) {
      assert ConnOk(w, c);
    }
  }

  /** A closed port whose section ended holds no flow, and a socket dialed for it
      can be open only while some code is about to close it: once nothing is
      pending, Close has closed every upstream socket of the port. */
  lemma ClosedPortTheorem(l: Limits, steps: seq<Step>, p: PortId)
    requires l.maxFlows >= 1 && Exec(l, steps).Some?
    requires var w := Exec(l, steps).value; p < |w.ports| && w.ports[p].closed && w.ports[p].section == Free
    ensures
      var w := Exec(l, steps).value;
      && w.ports[p].flows == map[]
      && forall c ::
           0 <= c < |w.conns| && w.conns[c].flow < |w.flows| && w.flows[w.conns[c].flow].port == p && w.conns[c].open
           ==> HasCloser(w, c)
  {
    var w := Exec(l, steps).value;
    ReachableInv(l, steps);
    assert PortOk(l, w, p);
    SocketTheorem(l, steps);
  }

  // ---------------------------------------------------------------- the closers are never stuck

  /** The steps `more` run from w and end in w'. */
  ghost predicate Runs(l: Limits, w: World, more: seq<Step>, w': World)
    decreases |more|
  {
    if more == [] then w' == w
    else Enabled(l, w, more[0]) && Runs(l, Apply(l, w, more[0]), more[1..], w')
  }

  lemma RunsOne(l: Limits, w: World, s: Step)
    requires Enabled(l, w, s)
    ensures Runs(l, w, [s], Apply(l, w, s))
  {
    assert [s][1..] == [];
  }

  lemma {:induction false} RunsThen(l: Limits, w: World, more: seq<Step>, w': World, rest: seq<Step>, w'': World)
    requires Runs(l, w, more, w') && Runs(l, w', rest, w'')
    ensures Runs(l, w, more + rest, w'')
    decreases |more|
  {
    if more == [] {
      assert more + rest == rest;
    } else {
      assert (more + rest)[1..] == more[1..] + rest;
      RunsThen(l, Apply(l, w, more[0]), more[1..], w', rest, w'');
    }
  }

  lemma {:induction false} RunsKeepsShape(l: Limits, w: World, more: seq<Step>, w': World)
    requires Shape(l, w) && Runs(l, w, more, w')
    ensures Shape(l, w')
    decreases |more|
  {
    if more != [] {
      StepKeepsPorts(l, w, more[0]);
      StepKeepsFlows(l, w, more[0]);
      StepKeepsConns(l, w, more[0]);
      StepKeepsTasks(l, w, more[0]);
      RunsKeepsShape(l, Apply(l, w, more[0]), more[1..], w');
    }
  }

  /** Whoever holds a port's lock can always finish, and that disturbs no
      goroutine that is waiting with a dialed socket. */
  lemma LockIsReleased(l: Limits, w: World, p: PortId) returns (more: seq<Step>, w': World)
    requires Shape(l, w) && p < |w.ports|
    ensures |more| <= 2 && Runs(l, w, more, w') && LockFree(w', p) && |w'.ports| == |w.ports|
    ensures |w'.conns| == |w.conns| && forall c :: 0 <= c < |w.conns| ==> w'.conns[c] == w.conns[c]
    ensures SameFlows(w, w')
    ensures forall f :: 0 <= f < |w.flows| && w.flows[f].routine.Dialed? ==> w'.flows[f] == w.flows[f]
  {
    assert PortOk(l, w, p);
    var section := w.ports[p].section;
    if section.Free? {
      more, w' := [], w;
    } else if section.Admitting? {
      var w1 := Apply(l, w, Insert(p));
      RunsOne(l, w, Insert(p));
      RunsOne(l, w1, Count(p));
      w' := Apply(l, w1, Count(p));
      more := [Insert(p)] + [Count(p)];
      RunsThen(l, w, [Insert(p)], w1, [Count(p)], w');
    } else {
      var s := if section.Inserted? then Count(p) else if section.Deleted? then Uncount(p) else CloseEnd(p);
      RunsOne(l, w, s);
      more, w' := [s], Apply(l, w, s);
    }
  }

  /** No open socket is leaked: one that no table entry owns can be brought, by
      at most four steps of the goroutines responsible for it and of the holder
      of its port's lock, into a world where it is closed, or where its goroutine
      has attached it to its flow in the table. */
  lemma StrayIsClosed(l: Limits, w: World, c: ConnId) returns (more: seq<Step>, w': World)
    requires Shape(l, w) && c < |w.conns| && w.conns[c].open && !OwnedByTable(w, c)
    ensures |more| <= 4 && Runs(l, w, more, w')
    ensures c < |w'.conns| && (!w'.conns[c].open || OwnedByTable(w', c))
  {
    assert ConnOk(w, c);
    var f := w.conns[c].flow;
    assert FlowOk(w, f);
    var p := w.flows[f].port;
    if w.flows[f].routine == Discarding(c) {
      RunsOne(l, w, Discard(f));
      more, w' := [Discard(f)], Apply(l, w, Discard(f));
    } else if w.flows[f].routine == Dialed(c) {
      var m1, w1 := LockIsReleased(l, w, p);
      RunsKeepsShape(l, w, m1, w1);
      var w2 := Apply(l, w1, Attach(f));
      RunsOne(l, w1, Attach(f));
      RunsThen(l, w, m1, w1, [Attach(f)], w2);
      more, w' := m1 + [Attach(f)], w2;
      if w2.flows[f].routine == Discarding(c) {
        RunsOne(l, w2, Discard(f));
        RunsThen(l, w, more, w2, [Discard(f)], Apply(l, w2, Discard(f)));
        more, w' := more + [Discard(f)], Apply(l, w2, Discard(f));
      }
    } else if Listed(w, c) {
      var t :| 0 <= t < |w.tasks| && w.tasks[t].CloseConns? && c in w.tasks[t].conns;
      RunsOne(l, w, CloseOne(t, c));
      more, w' := [CloseOne(t, c)], Apply(l, w, CloseOne(t, c));
    } else {
      var t := w.ports[p].section.t;
      var w1 := Apply(l, w, Uncount(p));
      RunsOne(l, w, Uncount(p));
      RunsOne(l, w1, CloseOne(t, c));
      w' := Apply(l, w1, CloseOne(t, c));
      RunsThen(l, w, [Uncount(p)], w1, [CloseOne(t, c)], w');
      more := [Uncount(p)] + [CloseOne(t, c)];
    }
  }
}
