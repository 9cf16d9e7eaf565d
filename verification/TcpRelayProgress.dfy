/** What the steps of the TCP relay achieve: a connection is relayed and taken down
    again, and Close closes everything for good. */
module TcpRelayProgress {
  import opened Prelude
  import opened TcpRelay

  lemma FourSteps(cap: nat, w: World, s1: Step, s2: Step, s3: Step, s4: Step)
    requires Enabled(cap, w, s1) && Enabled(cap, Apply(cap, w, s1), s2)
    requires Enabled(cap, Apply(cap, Apply(cap, w, s1), s2), s3)
    requires Enabled(cap, Apply(cap, Apply(cap, Apply(cap, w, s1), s2), s3), s4)
    ensures Runs(cap, w, [s1, s2, s3, s4], Apply(cap, Apply(cap, Apply(cap, Apply(cap, w, s1), s2), s3), s4))
  {
    var w1 := Apply(cap, w, s1);
    var w2 := Apply(cap, w1, s2);
    var w3 := Apply(cap, w2, s3);
    var w4 := Apply(cap, w3, s4);
    RunsFrom(cap, w3, s4, [], w4);
    RunsFrom(cap, w2, s3, [s4], w4);
    RunsFrom(cap, w1, s2, [s3, s4], w4);
    RunsFrom(cap, w, s1, [s2, s3, s4], w4);
    assert [s4] + [] == [s4] && [s3] + [s4] == [s3, s4] && [s2] + [s3, s4] == [s2, s3, s4];
    assert [s1] + [s2, s3, s4] == [s1, s2, s3, s4];
  }

  /** While the port is open and a slot is free, a client that connects and whose
      backend answers is relayed after four steps: both ends open and tracked, one slot
      taken, nothing else changed. */
  lemma ConnectionIsRelayed(cap: nat, w: World) returns (w': World)
    requires w.slots < cap && !w.closed
    ensures
      var h, client := |w.handlers|, |w.conns|;
      && Runs(cap, w, [Accept, DialOk(h), Track(h), Track(h)], w')
      && w'.handlers == w.handlers + [Handler(client, Some(client + 1), Relaying)]
      && w'.conns == w.conns + [Conn(h, false, true), Conn(h, true, true)]
      && w'.tracked == w.tracked + {client, client + 1} && w'.slots == w.slots + 1
      && w'.closed == w.closed && w'.taken == w.taken
  {
    var h := |w.handlers|;
    var w1 := Apply(cap, w, Accept);
    var w2 := Apply(cap, w1, DialOk(h));
    var w3 := Apply(cap, w2, Track(h));
    w' := Apply(cap, w3, Track(h));
    FourSteps(cap, w, Accept, DialOk(h), Track(h), Track(h));
  }

  /** When relaying ends, four steps leave nothing of it: both ends closed and not
      tracked, and the slot free again; no other connection has changed. */
  lemma RelayingEnds(cap: nat, w: World, h: nat) returns (w': World)
    requires At(w, h, Relaying) && w.handlers[h].backend.Some? && w.slots > 0
    requires w.handlers[h].client < |w.conns| && w.handlers[h].backend.value < |w.conns|
    ensures
      var client, backend := w.handlers[h].client, w.handlers[h].backend.value;
      && Runs(cap, w, [End(h), Untrack(h), Shut(h), Finish(h)], w')
      && At(w', h, Done) && w'.slots == w.slots - 1
      && w'.tracked == w.tracked - {client, backend} && w'.taken == w.taken && w'.closed == w.closed
      && |w'.conns| == |w.conns| && !w'.conns[client].open && !w'.conns[backend].open
      && forall c :: 0 <= c < |w.conns| && c != client && c != backend ==> w'.conns[c] == w.conns[c]
  {
    var w1 := Apply(cap, w, End(h));
    var w2 := Apply(cap, w1, Untrack(h));
    var w3 := Apply(cap, w2, Shut(h));
    w' := Apply(cap, w3, Finish(h));
    FourSteps(cap, w, End(h), Untrack(h), Shut(h), Finish(h));
  }

  /** Close is possible at any time; from then on the port is closed, nothing is
      tracked, and Close holds what was. */
  lemma CloseTakesAll(cap: nat, w: World)
    ensures Enabled(cap, w, Close)
    ensures
      var w' := Apply(cap, w, Close);
      && w'.closed && w'.tracked == {} && w'.taken == w.taken + w.tracked
      && w'.conns == w.conns && w'.handlers == w.handlers && w'.slots == w.slots
  {
  }

  /** Its loop can run to the end in as many steps as it holds connections: then every
      one of them is closed, and no other has changed. */
  lemma {:induction false} CloseLoopEnds(cap: nat, w: World) returns (more: seq<Step>, w': World)
    requires forall c <- w.taken :: c < |w.conns|
    ensures |more| == |w.taken| && Runs(cap, w, more, w')
    ensures w'.taken == {} && w'.handlers == w.handlers && w'.tracked == w.tracked && w'.closed == w.closed
    ensures |w'.conns| == |w.conns|
    ensures forall c :: 0 <= c < |w.conns| ==>
      w'.conns[c] == if c in w.taken then w.conns[c].(open := false) else w.conns[c]
    decreases |w.taken|
  {
    more, w' := [], w;
    if w.taken != {} {
      var c :| c in w.taken;
      var next := Apply(cap, w, CloseOne(c));
      more, w' := CloseLoopEnds(cap, next);
      RunsFrom(cap, w, CloseOne(c), more, w');
      more := [CloseOne(c)] + more;
    }
  }

  /** A closed port stays closed, and no connection begins to be relayed on it. */
  lemma {:induction false} ClosedForGood(cap: nat, w: World, more: seq<Step>, w': World, h: nat)
    requires w.closed && Runs(cap, w, more, w')
    ensures w'.closed && (At(w', h, Relaying) ==> At(w, h, Relaying))
    decreases |more|
  {
    if more != [] { ClosedForGood(cap, Apply(cap, w, more[0]), more[1..], w', h); }
  }
}
