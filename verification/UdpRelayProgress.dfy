/** What the steps of the UDP relay achieve: an idle flow leaves, Close closes for good,
    and `peak` is what it says. */
module UdpRelayProgress {
  import opened Prelude
  import opened FlowTable
  import opened UdpRelay
  import opened UdpRelaySafety

  // ---------------------------------------------------------------- an idle flow leaves

  /** The sweep finds flow f idle. If no section of its port is running, at most four
      steps take it out of the table and out of the counter, and close its socket;
      nothing is left to be closed, and no other entry has changed. */
  lemma IdleFlowLeaves(l: Limits, w: World, f: FlowId) returns (more: seq<Step>, w': World)
    requires Shape(l, w) && f < |w.flows| && InTable(w, f) && LockFree(w, w.flows[f].port)
    requires w.flows[f].up.Some? ==> w.flows[f].up.value < |w.conns|
    ensures 3 <= |more| <= 4 && more[0] == Expire(w.flows[f].port, f) && Runs(l, w, more, w')
    ensures w'.counter == w.counter - 1 && |w'.ports| == |w.ports| && LockFree(w', w.flows[f].port)
    ensures w'.ports[w.flows[f].port].flows == w.ports[w.flows[f].port].flows - {w.flows[f].key}
    ensures w.flows[f].up.Some? ==> |w'.conns| == |w.conns| && !w'.conns[w.flows[f].up.value].open
    ensures w'.tasks == w.tasks + [CloseConns({})]
  {
    var p, t := w.flows[f].port, |w.tasks|;
    var w1 := Apply(l, w, Expire(p, f));
    var w2 := Apply(l, w1, Delete(t));
    var w3 := Apply(l, w2, Uncount(p));
    RunsOne(l, w, Expire(p, f));
    RunsOne(l, w1, Delete(t));
    RunsOne(l, w2, Uncount(p));
    RunsThen(l, w, [Expire(p, f)], w1, [Delete(t)], w2);
    RunsThen(l, w, [Expire(p, f)] + [Delete(t)], w2, [Uncount(p)], w3);
    more, w' := [Expire(p, f)] + [Delete(t)] + [Uncount(p)], w3;
    if w.flows[f].up.Some? {
      var c := w.flows[f].up.value;
      var w4 := Apply(l, w3, CloseOne(t, c));
      RunsOne(l, w3, CloseOne(t, c));
      RunsThen(l, w, more, w3, [CloseOne(t, c)], w4);
      more, w' := more + [CloseOne(t, c)], w4;
      assert {c} - {c} == {};
    }
  }

  /** Whenever a flow's goroutine ends, other than by closing the socket it could not
      attach, it calls remove. */
  lemma GoroutineEndsInRemove(l: Limits, w: World, s: Step, f: FlowId)
    requires Enabled(l, w, s) && s != Discard(f) && f < |w.flows| && w.flows[f].routine != Finished
    requires f < |Apply(l, w, s).flows| && Apply(l, w, s).flows[f].routine == Finished
    ensures Apply(l, w, s).tasks == w.tasks + [Remove(f)]
  {
  }

  // ---------------------------------------------------------------- Close

  /** Close takes effect: its two steps, whenever no section of the port is running,
      close the port, empty its table, lower the counter by what was in it, and list
      exactly the attached sockets for closing. */
  lemma CloseTakesEffect(l: Limits, w: World, p: PortId) returns (w': World)
    requires LockFree(w, p)
    ensures Runs(l, w, [CloseBegin(p), CloseEnd(p)], w')
    ensures |w'.ports| == |w.ports| && w'.ports[p] == Port(map[], true, Free)
    ensures w'.counter == w.counter - |w.ports[p].flows| && w'.tasks == w.tasks + [CloseConns(UpsOf(w, p))]
  {
    var w1 := Apply(l, w, CloseBegin(p));
    w' := Apply(l, w1, CloseEnd(p));
    assert [CloseBegin(p), CloseEnd(p)][1..] == [CloseEnd(p)];
    RunsOne(l, w1, CloseEnd(p));
    assert UpsOf(w1, p) == UpsOf(w, p);
  }

  /** A closed port stays closed, and admits nobody. */
  lemma {:induction false} ClosedForGood(l: Limits, w: World, more: seq<Step>, w': World, p: PortId)
    requires p < |w.ports| && w.ports[p].closed && Runs(l, w, more, w')
    ensures p < |w'.ports| && w'.ports[p].closed && forall ck :: !Enabled(l, w', Admit(p, ck))
    decreases |more|
  {
    if more != [] { ClosedForGood(l, Apply(l, w, more[0]), more[1..], w', p); }
  }

  // ---------------------------------------------------------------- the peak

  function OpenSet(w: World): set<PortId> {
    set p | 0 <= p < |w.ports| && !w.ports[p].closed
  }

  lemma {:induction false} OpenPortsCounts(ports: seq<Port>)
    ensures OpenPorts(ports) == |set p | 0 <= p < |ports| && !ports[p].closed|
  {
    if ports != [] {
      var init := ports[..|ports| - 1];
      OpenPortsCounts(init);
      var before := set p | 0 <= p < |init| && !init[p].closed;
      var after := set p | 0 <= p < |ports| && !ports[p].closed;
      if ports[|ports| - 1].closed {
        assert after == before;
      } else {
        assert after == before + {|ports| - 1};
      }
    }
  }

  lemma PeakStep(l: Limits, w: World, s: Step)
    requires Enabled(l, w, s) && OpenPorts(w.ports) <= w.peak
    ensures
      var w' := Apply(l, w, s);
      && OpenPorts(w'.ports) <= w'.peak && w.peak <= w'.peak
      && (w'.peak == w.peak || OpenPorts(w'.ports) == w'.peak)
  {
    if !s.Open? {
      var w' := Apply(l, w, s);
      FewerOpen(w.ports, w'.ports);
    }
  }

  lemma {:induction false} FewerOpen(before: seq<Port>, after: seq<Port>)
    requires |before| == |after| && forall p :: 0 <= p < |before| ==> before[p].closed ==> after[p].closed
    ensures OpenPorts(after) <= OpenPorts(before)
  {
    if before != [] { FewerOpen(before[..|before| - 1], after[..|after| - 1]); }
  }

  /** How many ports were open after the first k steps. */
  function OpenAfter(l: Limits, steps: seq<Step>, k: nat): nat
    requires k <= |steps|
  {
    var w := Exec(l, steps[..k]);
    if w.Some? then |OpenSet(w.value)| else 0
  }

  /** `peak` is the largest number of ports that were open at once: no world on the way
      had more, and one had as many. */
  lemma {:induction false} PeakIsMaximum(l: Limits, steps: seq<Step>) returns (n: nat)
    requires Exec(l, steps).Some?
    ensures forall k :: 0 <= k <= |steps| ==> OpenAfter(l, steps, k) <= Exec(l, steps).value.peak
    ensures n <= |steps| && OpenAfter(l, steps, n) == Exec(l, steps).value.peak
    ensures OpenPorts(Exec(l, steps).value.ports) <= Exec(l, steps).value.peak
  {
    n := 0;
    var w' := Exec(l, steps).value;
    assert steps[..|steps|] == steps;
    OpenPortsCounts(w'.ports);
    if steps != [] {
      var init := steps[..|steps| - 1];
      n := PeakIsMaximum(l, init);
      PeakStep(l, Exec(l, init).value, steps[|steps| - 1]);
      forall k | 0 <= k <= |steps| ensures OpenAfter(l, steps, k) <= w'.peak {
        if k < |steps| { assert steps[..k] == init[..k] && OpenAfter(l, steps, k) == OpenAfter(l, init, k); }
      }
      if w'.peak == Exec(l, init).value.peak {
        assert steps[..n] == init[..n];
      } else {
        n := |steps|;
      }
    }
  }
}
