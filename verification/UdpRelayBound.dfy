/** The bound of the counter theorem is exact: a schedule that reaches it. */
module UdpRelayBound {
  import opened Prelude
  import opened FlowTable
  import opened UdpRelay

  lemma ExecSnoc(l: Limits, steps: seq<Step>, s: Step)
    requires Exec(l, steps).Some? && Enabled(l, Exec(l, steps).value, s)
    ensures Exec(l, steps + [s]) == Some(Apply(l, Exec(l, steps).value, s))
  {
    assert (steps + [s])[..|steps|] == steps;
  }

  function Below(k: nat): (r: set<nat>)
    ensures forall x: nat :: x in r <==> x < k
    ensures |r| == k
  {
    if k == 0 then {} else Below(k - 1) + {k - 1}
  }

  /** n open ports; the first holds k flows, the others none; ports from `busy`
      to `done` have passed the admission check and not counted yet. */
  ghost predicate Stage(w: World, n: nat, k: nat, done: nat, busy: nat) {
    && |w.ports| == n && w.peak == n && w.counter == k + done && done <= busy <= n
    && (forall p :: 0 <= p < n ==>
          && !w.ports[p].closed
          && w.ports[p].section == (if done <= p < busy then Admitting(k) else Free))
    && (forall p :: done <= p < n ==> w.ports[p].flows.Keys == (if p == 0 then Below(k) else {}))
  }

  lemma OpenNext(l: Limits, w: World, n: nat)
    requires Stage(w, n, 0, 0, 0) && OpenPorts(w.ports) == n
    ensures Stage(Apply(l, w, Open), n + 1, 0, 0, 0) && OpenPorts(Apply(l, w, Open).ports) == n + 1
  {
    assert (w.ports + [Port(map[], false, Free)])[..n] == w.ports;
  }

  lemma {:induction false} OpenAll(l: Limits, n: nat) returns (steps: seq<Step>)
    ensures Exec(l, steps).Some? && Stage(Exec(l, steps).value, n, 0, 0, 0)
    ensures OpenPorts(Exec(l, steps).value.ports) == n
  {
    if n == 0 {
      steps := [];
    } else {
      var before := OpenAll(l, n - 1);
      steps := before + [Open];
      ExecSnoc(l, before, Open);
      OpenNext(l, Exec(l, before).value, n - 1);
    }
  }

  /** One new client goes through admission undisturbed. */
  lemma Join(l: Limits, steps: seq<Step>, p: PortId, ck: Client) returns (more: seq<Step>)
    requires Exec(l, steps).Some? && Enabled(l, Exec(l, steps).value, Admit(p, ck))
    ensures Exec(l, more).Some?
    ensures
      var w, w' := Exec(l, steps).value, Exec(l, more).value;
      && w'.ports == w.ports[p := w.ports[p].(flows := w.ports[p].flows[ck := |w.flows|])]
      && w'.counter == w.counter + 1 && w'.peak == w.peak
  {
    ExecSnoc(l, steps, Admit(p, ck));
    var s1 := steps + [Admit(p, ck)];
    ExecSnoc(l, s1, Insert(p));
    var s2 := s1 + [Insert(p)];
    ExecSnoc(l, s2, Count(p));
    more := s2 + [Count(p)];
  }

  lemma {:induction false} Fill(l: Limits, n: nat, k: nat) returns (steps: seq<Step>)
    requires 1 <= n && k < l.maxFlows <= l.perPort
    ensures Exec(l, steps).Some? && Stage(Exec(l, steps).value, n, k, 0, 0)
    decreases k
  {
    if k == 0 {
      steps := OpenAll(l, n);
    } else {
      var before := Fill(l, n, k - 1);
      var flows := Exec(l, before).value.ports[0].flows;
      assert |flows| == |flows.Keys| == k - 1;
      steps := Join(l, before, 0, k - 1);
    }
  }

  /** The next port passes the admission check; the counter has not moved. */
  lemma AdmitNext(l: Limits, w: World, n: nat, k: nat, busy: nat)
    requires Stage(w, n, k, 0, busy) && busy < n && k < l.maxFlows && k < l.perPort
    ensures Enabled(l, w, Admit(busy, k))
    ensures Stage(Apply(l, w, Admit(busy, k)), n, k, 0, busy + 1)
  {
    var flows := w.ports[busy].flows;
    assert flows.Keys == if busy == 0 then Below(k) else {};
    assert |flows| == |flows.Keys|;
  }

  lemma {:induction false} AdmitAll(l: Limits, n: nat, busy: nat) returns (steps: seq<Step>)
    requires 1 <= n && busy <= n && 1 <= l.maxFlows <= l.perPort
    ensures Exec(l, steps).Some? && Stage(Exec(l, steps).value, n, l.maxFlows - 1, 0, busy)
    decreases busy
  {
    if busy == 0 {
      steps := Fill(l, n, l.maxFlows - 1);
    } else {
      var before := AdmitAll(l, n, busy - 1);
      AdmitNext(l, Exec(l, before).value, n, l.maxFlows - 1, busy - 1);
      ExecSnoc(l, before, Admit(busy - 1, l.maxFlows - 1));
      steps := before + [Admit(busy - 1, l.maxFlows - 1)];
    }
  }

  lemma {:induction false} CountAll(l: Limits, n: nat, done: nat) returns (steps: seq<Step>)
    requires 1 <= n && done <= n && 1 <= l.maxFlows <= l.perPort
    ensures Exec(l, steps).Some? && Stage(Exec(l, steps).value, n, l.maxFlows - 1, done, n)
    decreases done
  {
    if done == 0 {
      steps := AdmitAll(l, n, n);
    } else {
      var before := CountAll(l, n, done - 1);
      ExecSnoc(l, before, Insert(done - 1));
      var s1 := before + [Insert(done - 1)];
      ExecSnoc(l, s1, Count(done - 1));
      steps := s1 + [Count(done - 1)];
    }
  }

  /** With n ports open the counter really reaches MaxUDPFlows + n - 1: every
      port can read the counter before any of them raises it. */
  lemma BoundIsReached(l: Limits, n: nat)
    requires 1 <= n && 1 <= l.maxFlows <= l.perPort
    ensures exists steps ::
      Exec(l, steps).Some? && Exec(l, steps).value.peak == n && Exec(l, steps).value.counter == l.maxFlows - 1 + n
  {
    var steps := CountAll(l, n, n);
    assert Exec(l, steps).value.counter == l.maxFlows - 1 + n;
  }
}
