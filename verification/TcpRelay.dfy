/** A TCP side port of internal/sideport/forward.go as a concurrent protocol:
    any number of connection handlers, one Close, each lock-protected section
    one step. */
module TcpRelay {
  import opened Prelude

  type ConnId = nat

  /** Where one `handle` call is; the deferred calls run in reverse order. */
  datatype Stage =
    | Dialing
    | Dialed            // the backend connection is open, nothing tracked yet
    | ClientTracked     // the client is tracked, the backend not yet
    | Relaying          // both tracked
    | BackendUntracked  // relaying ended
    | Closing           // both untracked, or tracking was refused
    | BackendClosed     // only the client is left to close
    | Done              // the client is closed and the semaphore slot is back

  datatype Handler = Handler(client: ConnId, backend: Option<ConnId>, stage: Stage)

  /** A connection, the handler it belongs to, and which end of it this is. */
  datatype Conn = Conn(handler: nat, isBackend: bool, open: bool)

  /** `tracked` is the port's map, which
      Close replaces by nil (here: empty, together with `closed`); `taken` are
      the connections Close has taken out of it and not closed yet. */
  datatype World = World(
    handlers: seq<Handler>, conns: seq<Conn>, tracked: set<ConnId>, closed: bool, taken: set<ConnId>, slots: nat)

  datatype Step =
    | Accept              // a client connects and a slot is free; otherwise serve closes it at once
    | DialFail(h: nat)
    | DialOk(h: nat)
    | Track(h: nat)       // the next connection of h, or the refusal
    | End(h: nat)         // relaying ended; untrack the backend
    | Untrack(h: nat)     // untrack the client
    | Shut(h: nat)        // close the backend
    | Finish(h: nat)      // close the client, free the slot
    | Close               // the locked part of Close
    | CloseOne(c: ConnId) // one round of its loop

  const INITIAL := World([], [], {}, false, {}, 0)

  predicate At(w: World, h: nat, stage: Stage) {
    h < |w.handlers| && w.handlers[h].stage == stage
  }

  predicate Enabled(cap: nat, w: World, s: Step) {
    match s
    case Accept => w.slots < cap
    case DialFail(h) => At(w, h, Dialing)
    case DialOk(h) => At(w, h, Dialing)
    case Track(h) => At(w, h, Dialed) || (At(w, h, ClientTracked) && w.handlers[h].backend.Some?)
    case End(h) => At(w, h, Relaying) && w.handlers[h].backend.Some?
    case Untrack(h) => At(w, h, BackendUntracked)
    case Shut(h) => At(w, h, Closing) && w.handlers[h].backend.Some? && w.handlers[h].backend.value < |w.conns|
    case Finish(h) => At(w, h, BackendClosed) && w.handlers[h].client < |w.conns| && w.slots > 0
    case Close => true
    case CloseOne(c) => c in w.taken && c < |w.conns|
  }

  function Move(w: World, h: nat, stage: Stage): World
    requires h < |w.handlers|
  {
    w.(handlers := w.handlers[h := w.handlers[h].(stage := stage)])
  }

  function Shutdown(conns: seq<Conn>, c: ConnId): seq<Conn>
    requires c < |conns|
  {
    conns[c := conns[c].(open := false)]
  }

  function Apply(cap: nat, w: World, s: Step): World
    requires Enabled(cap, w, s)
  {
    match s
    case Accept =>
      w.(conns := w.conns + [Conn(|w.handlers|, false, true)],
         handlers := w.handlers + [Handler(|w.conns|, None, Dialing)],
         slots := w.slots + 1)
    case DialFail(h) => Move(w, h, BackendClosed)
    case DialOk(h) =>
      w.(conns := w.conns + [Conn(h, true, true)],
         handlers := w.handlers[h := w.handlers[h].(backend := Some(|w.conns|), stage := Dialed)])
    case Track(h) =>
      if w.closed then Move(w, h, Closing)
      else if w.handlers[h].stage == Dialed then
        Move(w, h, ClientTracked).(tracked := w.tracked + {w.handlers[h].client})
      else Move(w, h, Relaying).(tracked := w.tracked + {w.handlers[h].backend.value})
    case End(h) => Move(w, h, BackendUntracked).(tracked := w.tracked - {w.handlers[h].backend.value})
    case Untrack(h) => Move(w, h, Closing).(tracked := w.tracked - {w.handlers[h].client})
    case Shut(h) => Move(w, h, BackendClosed).(conns := Shutdown(w.conns, w.handlers[h].backend.value))
    case Finish(h) => Move(w, h, Done).(conns := Shutdown(w.conns, w.handlers[h].client), slots := w.slots - 1)
    case Close => w.(closed := true, taken := w.taken + w.tracked, tracked := {})
    case CloseOne(c) => w.(conns := Shutdown(w.conns, c), taken := w.taken - {c})
  }

  function Exec(cap: nat, steps: seq<Step>): Option<World> {
    if steps == [] then Some(INITIAL)
    else
      var before := Exec(cap, steps[..|steps| - 1]);
      if before.Some? && Enabled(cap, before.value, steps[|steps| - 1])
      then Some(Apply(cap, before.value, steps[|steps| - 1]))
      else None
  }

  // ---------------------------------------------------------------- invariant

  /** Handler h will close connection c. */
  ghost predicate Holds(w: World, h: nat, c: ConnId) {
    && h < |w.handlers|
    && match w.handlers[h].stage
       case Done => false
       case BackendClosed => c == w.handlers[h].client
       case _ => c == w.handlers[h].client || w.handlers[h].backend == Some(c)
  }

  ghost predicate ClientIsTracked(st: Stage) {
    st == ClientTracked || st == Relaying || st == BackendUntracked
  }

  /** Close will reach c, now or when it is called, or c is closed. */
  ghost predicate Reachable(w: World, c: ConnId) {
    c < |w.conns| && (c in w.tracked || c in w.taken || !w.conns[c].open)
  }

  ghost predicate HandlerOk(w: World, h: nat)
    requires h < |w.handlers|
  {
    var x := w.handlers[h];
    && x.client < |w.conns| && w.conns[x.client].handler == h && !w.conns[x.client].isBackend
    && (x.backend.Some? ==>
        x.backend.value < |w.conns| && w.conns[x.backend.value].handler == h && w.conns[x.backend.value].isBackend)
    && (x.stage == Dialing ==> x.backend == None)
    && (x.stage != Dialing && x.stage != BackendClosed && x.stage != Done ==> x.backend.Some?)
    && (ClientIsTracked(x.stage) ==> Reachable(w, x.client))
    && (x.stage == Relaying ==> Reachable(w, x.backend.value))
  }

  ghost predicate ConnOk(w: World, c: ConnId)
    requires c < |w.conns|
  {
    w.conns[c].open ==> Holds(w, w.conns[c].handler, c)
  }

  function Running(handlers: seq<Handler>): nat {
    if handlers == [] then 0
    else Running(handlers[..|handlers| - 1]) + if handlers[|handlers| - 1].stage == Done then 0 else 1
  }

  ghost predicate Inv(cap: nat, w: World) {
    && (forall h :: 0 <= h < |w.handlers| ==> HandlerOk(w, h))
    && (forall c :: 0 <= c < |w.conns| ==> ConnOk(w, c))
    && w.slots == Running(w.handlers) <= cap
  }

  lemma {:induction false} RunningUpdate(handlers: seq<Handler>, h: nat, x: Handler)
    requires h < |handlers|
    ensures Running(handlers[h := x]) ==
      Running(handlers) - (if handlers[h].stage == Done then 0 else 1) + (if x.stage == Done then 0 else 1)
  {
    var n := |handlers| - 1;
    if h < n {
      assert handlers[h := x][..n] == handlers[..n][h := x];
      RunningUpdate(handlers[..n], h, x);
    } else {
      assert handlers[h := x][..n] == handlers[..n];
    }
  }

  /** The handler a step belongs to is in order. */
  ghost predicate ActorOk(cap: nat, w: World, s: Step)
    requires Enabled(cap, w, s)
  {
    match s
    case Accept => true
    case Close => true
    case CloseOne(c) => true
    case _ => HandlerOk(w, s.h)
  }

  lemma StepKeepsHandler(cap: nat, w: World, s: Step, h: nat)
    requires Enabled(cap, w, s) && ActorOk(cap, w, s) && h < |w.handlers| && HandlerOk(w, h)
    ensures h < |Apply(cap, w, s).handlers| && HandlerOk(Apply(cap, w, s), h)
  {
  }

  lemma StepKeepsConn(cap: nat, w: World, s: Step, c: ConnId)
    requires Enabled(cap, w, s) && ActorOk(cap, w, s) && c < |w.conns| && ConnOk(w, c)
    ensures c < |Apply(cap, w, s).conns| && ConnOk(Apply(cap, w, s), c)
  {
  }

  lemma StepKeepsSlots(cap: nat, w: World, s: Step)
    requires Enabled(cap, w, s) && w.slots == Running(w.handlers) <= cap
    ensures var w' := Apply(cap, w, s); w'.slots == Running(w'.handlers) <= cap
  {
    var w' := Apply(cap, w, s);
    match s
    case Accept => assert w'.handlers[..|w.handlers|] == w.handlers;
    case Close =>
    case CloseOne(_) =>
    case _ => RunningUpdate(w.handlers, s.h, w'.handlers[s.h]);
  }

  lemma StepKeepsInv(cap: nat, w: World, s: Step)
    requires Inv(cap, w) && Enabled(cap, w, s)
    ensures Inv(cap, Apply(cap, w, s))
  {
    var w' := Apply(cap, w, s);
    assert ActorOk(cap, w, s);
    StepKeepsSlots(cap, w, s);
    forall h | 0 <= h < |w'.handlers| ensures HandlerOk(w', h) {
      if h < |w.handlers| { StepKeepsHandler(cap, w, s, h); }
    }
    forall c | 0 <= c < |w'.conns| ensures ConnOk(w', c) {
      if c < |w.conns| { StepKeepsConn(cap, w, s, c); }
    }
  }

  lemma {:induction false} ReachableInv(cap: nat, steps: seq<Step>)
    requires Exec(cap, steps).Some?
    ensures Inv(cap, Exec(cap, steps).value)
  {
    if steps != [] {
      ReachableInv(cap, steps[..|steps| - 1]);
      StepKeepsInv(cap, Exec(cap, steps[..|steps| - 1]).value, steps[|steps| - 1]);
    }
  }

  lemma {:induction false} ClosedMeansUntracked(cap: nat, steps: seq<Step>)
    requires Exec(cap, steps).Some? && Exec(cap, steps).value.closed
    ensures Exec(cap, steps).value.tracked == {}
  {
    var before := steps[..|steps| - 1];
    if Exec(cap, before).value.closed { ClosedMeansUntracked(cap, before); }
  }

  /** In every interleaving: at most `cap` handlers run, every open connection is
      one a running handler will close, and once Close has run its loop to the
      end no tracked connection is open: an open one belongs to a handler that
      has not tracked it yet or is about to close it. */
  lemma TcpTheorem(cap: nat, steps: seq<Step>)
    requires Exec(cap, steps).Some?
    ensures
      var w := Exec(cap, steps).value;
      && Running(w.handlers) <= cap
      && (forall c :: 0 <= c < |w.conns| && w.conns[c].open ==> Holds(w, w.conns[c].handler, c))
      && (w.closed && w.taken == {} ==> forall c :: 0 <= c < |w.conns| && w.conns[c].open ==>
            var x := w.handlers[w.conns[c].handler];
            if w.conns[c].isBackend then x.stage != Relaying else !ClientIsTracked(x.stage))
  {
    ReachableInv(cap, steps);
    var w := Exec(cap, steps).value;
    if w.closed { ClosedMeansUntracked(cap, steps); }
    forall c | 0 <= c < |w.conns| && w.conns[c].open
      ensures Holds(w, w.conns[c].handler, c)
      ensures w.closed && w.taken == {} ==>
        var x := w.handlers[w.conns[c].handler];
        if w.conns[c].isBackend then x.stage != Relaying else !ClientIsTracked(x.stage)
    {
      assert ConnOk(w, c);
      var h := w.conns[c].handler;
      assert HandlerOk(w, h);
    }
  }

  // ---------------------------------------------------------------- handlers are never stuck

  /** The steps `more` run from w and end in w'. */
  ghost predicate Runs(cap: nat, w: World, more: seq<Step>, w': World)
    decreases |more|
  {
    if more == [] then w' == w
    else Enabled(cap, w, more[0]) && Runs(cap, Apply(cap, w, more[0]), more[1..], w')
  }

  lemma RunsFrom(cap: nat, w: World, s: Step, more: seq<Step>, w': World)
    requires Enabled(cap, w, s) && Runs(cap, Apply(cap, w, s), more, w')
    ensures Runs(cap, w, [s] + more, w')
  {
    assert ([s] + more)[1..] == more;
  }

  /** How many steps a handler is away from its end. */
  function Left(st: Stage): nat {
    match st
    case Dialing => 2
    case Dialed => 6
    case ClientTracked => 5
    case Relaying => 4
    case BackendUntracked => 3
    case Closing => 2
    case BackendClosed => 1
    case Done => 0
  }

  /** The next step of a handler whose peers hang up. */
  function NextStep(w: World, h: nat): Step
    requires h < |w.handlers|
  {
    match w.handlers[h].stage
    case Dialing => DialFail(h)
    case Dialed => Track(h)
    case ClientTracked => Track(h)
    case Relaying => End(h)
    case BackendUntracked => Untrack(h)
    case Closing => Shut(h)
    case _ => Finish(h)
  }

  lemma {:induction false} RunningHasSlot(handlers: seq<Handler>, h: nat)
    requires h < |handlers| && handlers[h].stage != Done
    ensures Running(handlers) > 0
  {
    if h < |handlers| - 1 { RunningHasSlot(handlers[..|handlers| - 1], h); }
  }

  lemma {:induction false} HandlerFinishes(cap: nat, w: World, h: nat) returns (more: seq<Step>, w': World)
    requires Inv(cap, w) && h < |w.handlers|
    ensures |more| <= Left(w.handlers[h].stage) && Runs(cap, w, more, w') && Inv(cap, w') && At(w', h, Done)
    ensures |w'.conns| == |w.conns| && forall c :: 0 <= c < |w.conns| ==> w'.conns[c].handler == w.conns[c].handler
    decreases Left(w.handlers[h].stage)
  {
    if w.handlers[h].stage == Done {
      more, w' := [], w;
    } else {
      assert HandlerOk(w, h);
      RunningHasSlot(w.handlers, h);
      var s := NextStep(w, h);
      StepKeepsInv(cap, w, s);
      more, w' := HandlerFinishes(cap, Apply(cap, w, s), h);
      RunsFrom(cap, w, s, more, w');
      more := [s] + more;
    }
  }

  /** No connection leaks: in every reachable world each open one can be brought to
      closed by at most six steps of its own handler; and once Close holds it, by
      one round of Close's loop. */
  lemma OpenIsClosed(cap: nat, steps: seq<Step>, c: ConnId) returns (more: seq<Step>, w': World)
    requires Exec(cap, steps).Some? && c < |Exec(cap, steps).value.conns| && Exec(cap, steps).value.conns[c].open
    ensures |more| <= 6 && Runs(cap, Exec(cap, steps).value, more, w') && c < |w'.conns| && !w'.conns[c].open
    ensures
      var w := Exec(cap, steps).value;
      c in w.taken ==> Enabled(cap, w, CloseOne(c)) && !Apply(cap, w, CloseOne(c)).conns[c].open
  {
    var w := Exec(cap, steps).value;
    ReachableInv(cap, steps);
    assert ConnOk(w, c);
    more, w' := HandlerFinishes(cap, w, w.conns[c].handler);
    assert ConnOk(w', c);
  }
}
