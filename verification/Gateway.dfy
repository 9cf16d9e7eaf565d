/** The registry and the side ports together, as the API drives them
    (internal/api/api.go): a registration is an Upsert and then, without any lock
    held in between, a Sync, which itself changes the pool first and stores its
    answers in the registry afterwards; unregistering is a Remove and then a
    Release. Any number of such calls run at once. */
module Gateway {
  import opened Prelude
  import opened PortPool
  import opened Registry
  import Safety = PortPoolSafety

  /** What a call of the API still has to do. */
  datatype Call =
    | Syncing(id: Name, owner: Name, decls: seq<Decl>)      // after Upsert, before Sync's lock
    | Storing(id: Name, ports: seq<(Name, Proto)>)          // after the pool, before SetSidePorts
    | Releasing(id: Name)                                   // after Remove, before Release
    | Returned

  datatype World = World(servers: map<Name, Server>, pool: Pool, calls: seq<Call>)

  datatype Step =
    | Register(owner: Name, id: Name, s: Server, decls: seq<Decl>, ttl: int, now: int)
    | SyncPool(c: nat, env: Env)
    | Store(c: nat)
    | Unregister(owner: Name, id: Name)
    | ReleasePool(c: nat, now: int)
    | PruneAll(now: int)
    | SweepAll(now: int, seen: Key -> map<Name, Server>)  // the registry as each check found it

  const INITIAL := World(map[], Pool(map[], map[]), [])

  function PortsOf(decls: seq<Decl>): (ports: seq<(Name, Proto)>)
    ensures |ports| == |decls| && forall i :: 0 <= i < |decls| ==> ports[i] == (decls[i].name, decls[i].proto)
  {
    seq(|decls|, i requires 0 <= i < |decls| => (decls[i].name, decls[i].proto))
  }

  ghost predicate Enabled(w: World, step: Step) {
    match step
    case Register(_, _, s, decls, _, _) => Safety.Validated(decls) && s.ports == PortsOf(decls)
    case SyncPool(c, _) => c < |w.calls| && w.calls[c].Syncing?
    case Store(c) => c < |w.calls| && w.calls[c].Storing?
    case ReleasePool(c, _) => c < |w.calls| && w.calls[c].Releasing?
    case _ => true
  }

  ghost function Apply(cfg: Config, w: World, step: Step): World
    requires Enabled(w, step)
  {
    match step
    case Register(owner, id, s, decls, ttl, now) =>
      var (servers, outcome) := Upserted(w.servers, owner, id, s, ttl, now);
      if outcome.Stored? then w.(servers := servers, calls := w.calls + [Syncing(id, owner, decls)]) else w
    case SyncPool(c, env) =>
      var call := w.calls[c];
      w.(pool := Sync(cfg, w.pool, call.id, call.owner, call.decls, env).0,
         calls := w.calls[c := Storing(call.id, PortsOf(call.decls))])
    case Store(c) =>
      w.(servers := PortsSet(w.servers, w.calls[c].id, w.calls[c].ports), calls := w.calls[c := Returned])
    case Unregister(owner, id) =>
      var (servers, outcome) := RemovedFrom(w.servers, owner, id);
      if outcome.Removed? then w.(servers := servers, calls := w.calls + [Releasing(id)]) else w
    case ReleasePool(c, now) =>
      w.(pool := Release(cfg, w.pool, w.calls[c].id, now), calls := w.calls[c := Returned])
    case PruneAll(now) => w.(servers := Pruned(w.servers, now))
    case SweepAll(now, seen) =>
      w.(pool := Sweep(cfg, w.pool, now, (k: Key, owner: Name) => Declares(seen(k), now, k, owner)))
  }

  /** The world after a schedule, or None when some step of it is not enabled. */
  ghost function Exec(cfg: Config, w: World, steps: seq<Step>): Option<World> {
    if steps == [] then Some(w)
    else
      var before := Exec(cfg, w, steps[..|steps| - 1]);
      if before.Some? && Enabled(before.value, steps[|steps| - 1])
      then Some(Apply(cfg, before.value, steps[|steps| - 1]))
      else None
  }

  lemma ExecSnoc(cfg: Config, w: World, steps: seq<Step>, step: Step)
    requires Exec(cfg, w, steps).Some? && Enabled(Exec(cfg, w, steps).value, step)
    ensures Exec(cfg, w, steps + [step]) == Some(Apply(cfg, Exec(cfg, w, steps).value, step))
  {
    assert (steps + [step])[..|steps|] == steps;
  }

  // ------------------------------------------------------------ registrations

  /** The step is not the owner's own, and comes before the TTL has passed. */
  predicate LeavesAlone(step: Step, id: Name, s: Server) {
    match step
    case Register(owner, i, _, _, _, now) => i == id ==> owner != s.owner && !Lapsed(s, now)
    case Unregister(owner, i) => i == id ==> owner != s.owner
    case PruneAll(now) => !Lapsed(s, now)
    case _ => true
  }

  /** A schedule of other owners' calls, and of everybody's calls already begun. */
  ghost predicate Foreign(cfg: Config, w: World, steps: seq<Step>, id: Name, s: Server) {
    Exec(cfg, w, steps).Some? && forall step <- steps :: LeavesAlone(step, id, s)
  }

  ghost predicate Registered(w: World, id: Name, s: Server) {
    id in w.servers && w.servers[id] == s.(ports := w.servers[id].ports) && SameNames(s.ports, w.servers[id].ports)
  }

  /** In every interleaving of API calls, Syncs, releases, prunes and sweeps: until
      its owner acts on it or its TTL has passed an id keeps its owner, its address,
      its expiry and the names of its side ports. */
  lemma {:induction false} RegistrationIsIsolated(cfg: Config, w: World, steps: seq<Step>, id: Name, s: Server)
    requires id in w.servers && w.servers[id] == s && Foreign(cfg, w, steps, id, s)
    ensures Registered(Exec(cfg, w, steps).value, id, s)
  {
    if steps != [] {
      RegistrationIsIsolated(cfg, w, steps[..|steps| - 1], id, s);
      assert LeavesAlone(steps[|steps| - 1], id, s);
    }
  }

  /** So no binding of anybody else's is ever dialed under the id, and none counts
      as declared. */
  lemma OnlyTheHolderIsDialed(cfg: Config, w: World, steps: seq<Step>, k: Key, s: Server, now: int)
    requires k.server in w.servers && w.servers[k.server] == s && Foreign(cfg, w, steps, k.server, s) && !Lapsed(s, now)
    ensures
      var after := Exec(cfg, w, steps).value.servers;
      && Holder(after, k.server, now) == Some(s.owner)
      && forall stale :: stale != s.owner ==> !Declares(after, now, k, stale)
  {
    RegistrationIsIsolated(cfg, w, steps, k.server, s);
  }

  /** The protocols that a call begun for this id may still store under the same
      names are the declared ones. */
  predicate Harmless(call: Call, id: Name, ports: seq<(Name, Proto)>) {
    match call
    case Syncing(i, _, decls) => i == id && SameNames(ports, PortsOf(decls)) ==> PortsOf(decls) == ports
    case Storing(i, stored) => i == id && SameNames(ports, stored) ==> stored == ports
    case _ => true
  }

  ghost predicate Quiet(w: World, id: Name, ports: seq<(Name, Proto)>) {
    forall c :: 0 <= c < |w.calls| ==> Harmless(w.calls[c], id, ports)
  }

  lemma {:induction false} QuietKeepsPorts(cfg: Config, w: World, steps: seq<Step>, id: Name, s: Server)
    requires id in w.servers && w.servers[id] == s && Foreign(cfg, w, steps, id, s) && Quiet(w, id, s.ports)
    ensures
      var after := Exec(cfg, w, steps).value;
      id in after.servers && after.servers[id] == s && Quiet(after, id, s.ports)
  {
    if steps != [] {
      var before, step := Exec(cfg, w, steps[..|steps| - 1]).value, steps[|steps| - 1];
      QuietKeepsPorts(cfg, w, steps[..|steps| - 1], id, s);
      assert LeavesAlone(step, id, s);
      StepKeepsQuiet(cfg, before, step, id, s);
    }
  }

  lemma StepKeepsQuiet(cfg: Config, w: World, step: Step, id: Name, s: Server)
    requires id in w.servers && w.servers[id] == s && Quiet(w, id, s.ports) && Enabled(w, step)
      && LeavesAlone(step, id, s)
    ensures
      var after := Apply(cfg, w, step);
      id in after.servers && after.servers[id] == s && Quiet(after, id, s.ports)
  {
    var after := Apply(cfg, w, step);
    if step.SyncPool? || step.Store? { assert Harmless(w.calls[step.c], id, s.ports); }
    forall c | 0 <= c < |after.calls| ensures Harmless(after.calls[c], id, s.ports) {
      if c < |w.calls| { assert Harmless(w.calls[c], id, s.ports); }
    }
  }

  /** A call that would store other protocols can: two steps at most, none of them
      the owner's. */
  lemma HarmfulCallStores(cfg: Config, w: World, c: nat, id: Name, s: Server) returns (steps: seq<Step>)
    requires id in w.servers && w.servers[id] == s && c < |w.calls| && !Harmless(w.calls[c], id, s.ports)
    ensures Foreign(cfg, w, steps, id, s)
    ensures id in Exec(cfg, w, steps).value.servers && Exec(cfg, w, steps).value.servers[id].ports != s.ports
  {
    steps := [];
    if w.calls[c].Syncing? {
      var sync := SyncPool(c, Env(0, _ => false, _ => false));
      ExecSnoc(cfg, w, [], sync);
      steps := [] + [sync];
    }
    ExecSnoc(cfg, w, steps, Store(c));
    steps := steps + [Store(c)];
  }

  /** Whether the whole registration, protocols included, is isolated, can be told
      beforehand: it is, in every schedule of other owners, if and only if no call
      that was begun for the id earlier is still going to store other protocols
      under the same names. */
  lemma PortsAreIsolatedExactly(cfg: Config, w: World, id: Name, s: Server)
    requires id in w.servers && w.servers[id] == s
    ensures
      Quiet(w, id, s.ports)
      <==> forall steps :: Foreign(cfg, w, steps, id, s) ==>
             id in Exec(cfg, w, steps).value.servers && Exec(cfg, w, steps).value.servers[id] == s
  {
    if Quiet(w, id, s.ports) {
      forall steps | Foreign(cfg, w, steps, id, s)
        ensures id in Exec(cfg, w, steps).value.servers && Exec(cfg, w, steps).value.servers[id] == s
      {
        QuietKeepsPorts(cfg, w, steps, id, s);
      }
    } else {
      var c :| 0 <= c < |w.calls| && !Harmless(w.calls[c], id, s.ports);
      var steps := HarmfulCallStores(cfg, w, c, id, s);
      assert Foreign(cfg, w, steps, id, s);
    }
  }

  // A schedule in which the exception occurs. Server 7 is registered by owner 1, with
  // side port 3 over TCP, unregistered, and registered by owner 2, with side port 3
  // over some protocol. Only then the Sync of the first registration runs.

  const CONFIG := Config(1, 10, 5)
  const ENV := Env(0, _ => false, _ => true)
  function Over(proto: Proto): Decl {
    Decl(3, proto, 100, 1, None, NoError)
  }

  function KeyOver(proto: Proto): Key {
    Key(7, 3, proto)
  }

  function Held(owner: Name, proto: Proto): Server {
    Server(0, [(3, proto)], owner, false, 100, 0)
  }

  /** A Sync of one side port without a binding gets the port it prefers, if that is
      usable, and reserves every other port of its server. */
  lemma LoneSync(cfg: Config, pool: Pool, id: Name, owner: Name, d: Decl, env: Env)
    requires PortPool.Enabled(cfg) && KeyOf(id, d) !in pool.bindings && Usable(cfg, pool, d.proto, d.preferred, env)
    ensures
      var k := KeyOf(id, d);
      var bound := Pool(pool.bindings[k := Binding(owner, d.preferred, d.port, None)], pool.broken);
      Sync(cfg, pool, id, owner, [d], env).0 == ReleaseWhere(cfg, bound, OfServer(bound, id, {k}), env.now)
  {
    assert Drop(pool, KeyOf(id, d)) == pool;
    assert SyncLoop(cfg, pool, id, owner, [d], env, 0) == (pool, []);
    assert SyncLoop(cfg, pool, id, owner, [d], env, 1) == SyncLoop(cfg, pool, id, owner, [d], env, |[d]|);
    assert Wanted(id, [d]) == {KeyOf(id, d)} by { Safety.WantedHas(id, [d], 0); }
  }

  lemma CameAndWent() returns (steps: seq<Step>)
    ensures
      Exec(CONFIG, INITIAL, steps) == Some(World(map[], Pool(map[], map[]), [Syncing(7, 1, [Over(Tcp)]), Returned]))
  {
    assert PortsOf([Over(Tcp)]) == [(3, Tcp)];
    var w, none := INITIAL, Pool(map[], map[]);
    var registered := Register(1, 7, Held(0, Tcp), [Over(Tcp)], 100, 0);
    ExecSnoc(CONFIG, INITIAL, [], registered);
    steps, w := [] + [registered], Apply(CONFIG, w, registered);
    assert w == World(map[7 := Held(1, Tcp)], none, [Syncing(7, 1, [Over(Tcp)])]);
    ExecSnoc(CONFIG, INITIAL, steps, Unregister(1, 7));
    steps, w := steps + [Unregister(1, 7)], Apply(CONFIG, w, Unregister(1, 7));
    assert w == World(map[], none, [Syncing(7, 1, [Over(Tcp)]), Releasing(7)]);
    ExecSnoc(CONFIG, INITIAL, steps, ReleasePool(1, 0));
    steps, w := steps + [ReleasePool(1, 0)], Apply(CONFIG, w, ReleasePool(1, 0));
    assert w == World(map[], none, [Syncing(7, 1, [Over(Tcp)]), Returned]);
  }

  /** Up to the late Sync everything is as it should be. */
  lemma Handover(proto: Proto) returns (steps: seq<Step>)
    ensures
      Exec(CONFIG, INITIAL, steps)
      == Some(World(map[7 := Held(2, proto)], Pool(map[KeyOver(proto) := Binding(2, 1, 100, None)], map[]),
                    [Syncing(7, 1, [Over(Tcp)]), Returned, Returned]))
  {
    steps := CameAndWent();
    assert PortsOf([Over(proto)]) == [(3, proto)];
    var w, none := Exec(CONFIG, INITIAL, steps).value, Pool(map[], map[]);
    var registered := Register(2, 7, Held(0, proto), [Over(proto)], 100, 0);
    ExecSnoc(CONFIG, INITIAL, steps, registered);
    steps, w := steps + [registered], Apply(CONFIG, w, registered);
    assert w.servers == map[7 := Held(2, proto)];
    assert w == World(w.servers, none, [Syncing(7, 1, [Over(Tcp)]), Returned, Syncing(7, 2, [Over(proto)])]);
    LoneSync(CONFIG, none, 7, 2, Over(proto), ENV);
    ExecSnoc(CONFIG, INITIAL, steps, SyncPool(2, ENV));
    steps, w := steps + [SyncPool(2, ENV)], Apply(CONFIG, w, SyncPool(2, ENV));
    assert w.pool == Pool(map[KeyOver(proto) := Binding(2, 1, 100, None)], map[]);
    assert w.calls[2] == Storing(7, [(3, proto)]);
    ExecSnoc(CONFIG, INITIAL, steps, Store(2));
    steps, w := steps + [Store(2)], Apply(CONFIG, w, Store(2));
    assert w.servers == map[7 := Held(2, proto)] && w.calls == [Syncing(7, 1, [Over(Tcp)]), Returned, Returned];
  }

  /** What the late Sync does to the pool. */
  lemma LatePool()
    ensures
      var bound := Pool(map[KeyOver(Udp) := Binding(2, 1, 100, None)], map[]);
      Sync(CONFIG, bound, 7, 1, [Over(Tcp)], ENV).0.bindings
      == map[KeyOver(Udp) := Binding(2, 1, 100, Some(5)), KeyOver(Tcp) := Binding(1, 1, 100, None)]
  {
    LoneSync(CONFIG, Pool(map[KeyOver(Udp) := Binding(2, 1, 100, None)], map[]), 7, 1, Over(Tcp), ENV);
  }

  /** The exception occurs, from nothing: the new owner holds the id, but its
      registration declares what the first owner declared, its port is only reserved,
      and the first owner has an active port that leads nowhere. */
  lemma LateSyncReachesNewOwner() returns (steps: seq<Step>)
    ensures Exec(CONFIG, INITIAL, steps).Some?
    ensures
      var after := Exec(CONFIG, INITIAL, steps).value;
      && Holder(after.servers, 7, 0) == Some(2)
      && after.servers == map[7 := Held(2, Tcp)]
      && after.pool.bindings ==
           map[KeyOver(Udp) := Binding(2, 1, 100, Some(5)), KeyOver(Tcp) := Binding(1, 1, 100, None)]
      && !Declares(after.servers, 0, KeyOver(Udp), 2) && !Declares(after.servers, 0, KeyOver(Tcp), 1)
  {
    steps := Handover(Udp);
    var w := Exec(CONFIG, INITIAL, steps).value;
    assert PortsOf([Over(Tcp)]) == [(3, Tcp)];
    LatePool();
    ExecSnoc(CONFIG, INITIAL, steps, SyncPool(0, ENV));
    steps, w := steps + [SyncPool(0, ENV)], Apply(CONFIG, w, SyncPool(0, ENV));
    assert w.calls[0] == Storing(7, [(3, Tcp)]);
    ExecSnoc(CONFIG, INITIAL, steps, Store(0));
    steps := steps + [Store(0)];
  }

  // -------------------------------------------------------------------- ports

  ghost predicate CallsValidated(w: World) {
    forall c :: 0 <= c < |w.calls| && w.calls[c].Syncing? ==> Safety.Validated(w.calls[c].decls)
  }

  /** In every interleaving no slot belongs to two side ports, and every assigned
      port is in the pool. */
  lemma {:induction false} SlotsStayUnique(cfg: Config, w: World, steps: seq<Step>)
    requires WellFormed(cfg, w.pool) && CallsValidated(w) && Exec(cfg, w, steps).Some?
    ensures WellFormed(cfg, Exec(cfg, w, steps).value.pool) && CallsValidated(Exec(cfg, w, steps).value)
  {
    if steps != [] {
      SlotsStayUnique(cfg, w, steps[..|steps| - 1]);
      StepKeepsSlots(cfg, Exec(cfg, w, steps[..|steps| - 1]).value, steps[|steps| - 1]);
    }
  }

  lemma StepKeepsSlots(cfg: Config, w: World, step: Step)
    requires WellFormed(cfg, w.pool) && CallsValidated(w) && Enabled(w, step)
    ensures WellFormed(cfg, Apply(cfg, w, step).pool) && CallsValidated(Apply(cfg, w, step))
  {
    match step
    case SyncPool(c, env) =>
      Safety.SyncTheorem(cfg, w.pool, w.calls[c].id, w.calls[c].owner, w.calls[c].decls, env);
    case ReleasePool(c, now) => Safety.StepKeepsWellFormed(cfg, w.pool, Safety.ReleaseE(w.calls[c].id, now));
    case SweepAll(now, seen) =>
      Safety.StepKeepsWellFormed(cfg, w.pool,
                                 Safety.SweepE(now, (k: Key, owner: Name) => Declares(seen(k), now, k, owner)));
    case _ =>
  }

  lemma {:induction false} CallStays(cfg: Config, w: World, steps: seq<Step>, c: nat)
    requires Exec(cfg, w, steps).Some? && c < |w.calls| && w.calls[c].Releasing?
    requires forall step <- steps :: !(step.ReleasePool? && step.c == c)
    ensures c < |Exec(cfg, w, steps).value.calls| && Exec(cfg, w, steps).value.calls[c] == w.calls[c]
  {
    if steps != [] {
      CallStays(cfg, w, steps[..|steps| - 1], c);
      assert !(steps[|steps| - 1].ReleasePool? && steps[|steps| - 1].c == c);
    }
  }

  /** Unregistering takes effect: the id is gone at once, and when the call returns,
      whatever has happened since, every port that was still active under the id is
      closed and reserved for the grace period, and no other binding has changed. */
  lemma UnregisterTakesEffect(cfg: Config, w: World, owner: Name, id: Name, between: seq<Step>, now: int)
    requires id in w.servers && w.servers[id].owner == owner
    requires
      && Exec(cfg, Apply(cfg, w, Unregister(owner, id)), between).Some?
      && forall step <- between :: !(step.ReleasePool? && step.c == |w.calls|)
    ensures
      var w1 := Apply(cfg, w, Unregister(owner, id));
      var w2 := Exec(cfg, w1, between).value;
      && id !in w1.servers && w1.pool == w.pool
      && Enabled(w2, ReleasePool(|w.calls|, now))
      && var after := Apply(cfg, w2, ReleasePool(|w.calls|, now)).pool;
         && after.bindings.Keys == w2.pool.bindings.Keys
         && forall k <- after.bindings ::
              after.bindings[k]
              == if Safety.Active(w2.pool, k) && k.server == id
                 then w2.pool.bindings[k].(until := Some(now + cfg.grace))
                 else w2.pool.bindings[k]
  {
    RemoveTheorem(w.servers, owner, id);
    var w1 := Apply(cfg, w, Unregister(owner, id));
    CallStays(cfg, w1, between, |w.calls|);
    Safety.ReleaseTheorem(cfg, Exec(cfg, w1, between).value.pool, id, now);
  }

  /** Pruning takes effect: exactly the expired registrations go. */
  lemma PruneTakesEffect(cfg: Config, w: World, now: int)
    ensures
      var after := Apply(cfg, w, PruneAll(now));
      && after.pool == w.pool && after.calls == w.calls
      && (forall id <- w.servers :: id in after.servers <==> w.servers[id].isStatic || now <= w.servers[id].expiresAt)
      && (forall id <- after.servers :: id in w.servers && after.servers[id] == w.servers[id])
  {
  }

  /** Registering takes effect: the caller's address is the id's, and its Sync is
      under way with what it declared. */
  lemma RegisterTakesEffect(cfg: Config, w: World, owner: Name, id: Name, s: Server, decls: seq<Decl>, ttl: int,
                            now: int)
    requires Enabled(w, Register(owner, id, s, decls, ttl, now))
    ensures
      var after := Apply(cfg, w, Register(owner, id, s, decls, ttl, now));
      if Holder(w.servers, id, now).Some? && Holder(w.servers, id, now) != Some(owner) then after == w
      else
        && Holder(after.servers, id, now) == Some(owner)
        && after.servers[id].address == s.address && after.servers[id].ports == PortsOf(decls)
        && after.calls == w.calls + [Syncing(id, owner, decls)] && after.pool == w.pool
  {
    UpsertTheorem(w.servers, owner, id, s, ttl, now);
  }

  // A sweep holds the pool's lock, so the pool stands still, but not the registry's:
  // between two of its checks any calls on the registry may happen.

  /** How many registry steps come before the check of each key. */
  type Moments = Key -> nat

  predicate OnRegistry(step: Step) {
    step.Register? || step.Store? || step.Unregister? || step.PruneAll?
  }

  /** A sweep that starts in world w, checks k after the first when(k) of the steps
      made meanwhile, and ends after all of them. */
  ghost predicate Sweeping(cfg: Config, w: World, during: seq<Step>, when: Moments) {
    Exec(cfg, w, during).Some? && (forall step <- during :: OnRegistry(step)) && forall k :: when(k) <= |during|
  }

  /** The world in which the sweep checks k. */
  ghost function Found(cfg: Config, w: World, during: seq<Step>, when: Moments, k: Key): World
    requires Sweeping(cfg, w, during, when)
  {
    ExecSplit(cfg, w, during, when(k));
    Exec(cfg, w, during[..when(k)]).value
  }

  /** The registry as each check finds it. */
  ghost function Seen(cfg: Config, w: World, during: seq<Step>, when: Moments): Key -> map<Name, Server>
    requires Sweeping(cfg, w, during, when)
  {
    (k: Key) => if Sweeping(cfg, w, during, when) then Found(cfg, w, during, when, k).servers else map[]
  }

  ghost function AfterSweep(cfg: Config, w: World, during: seq<Step>, when: Moments, now: int): World
    requires Sweeping(cfg, w, during, when)
  {
    Apply(cfg, Exec(cfg, w, during).value, SweepAll(now, Seen(cfg, w, during, when)))
  }

  lemma {:induction false} ExecSplit(cfg: Config, w: World, steps: seq<Step>, n: nat)
    requires Exec(cfg, w, steps).Some? && n <= |steps|
    ensures Exec(cfg, w, steps[..n]).Some?
    ensures Exec(cfg, Exec(cfg, w, steps[..n]).value, steps[n..]) == Exec(cfg, w, steps)
    decreases |steps|
  {
    if n == |steps| {
      assert steps[..n] == steps;
    } else {
      var init := steps[..|steps| - 1];
      ExecSplit(cfg, w, init, n);
      assert init[..n] == steps[..n] && steps[n..][..|steps| - n - 1] == init[n..];
    }
  }

  lemma {:induction false} RegistryStepsKeepPool(cfg: Config, w: World, steps: seq<Step>)
    requires Exec(cfg, w, steps).Some? && forall step <- steps :: OnRegistry(step)
    ensures Exec(cfg, w, steps).value.pool == w.pool
  {
    if steps != [] {
      RegistryStepsKeepPool(cfg, w, steps[..|steps| - 1]);
      assert OnRegistry(steps[|steps| - 1]);
    }
  }

  lemma CheckedAsFound(cfg: Config, w: World, during: seq<Step>, when: Moments, now: int, k: Key)
    requires Sweeping(cfg, w, during, when)
    ensures
      var pool := AfterSweep(cfg, w, during, when, now).pool;
      && (Safety.Active(pool, k)
          <==> Safety.Active(w.pool, k)
               && Declares(Found(cfg, w, during, when, k).servers, now, k, w.pool.bindings[k].owner))
      && (Safety.Active(pool, k) ==> pool.bindings[k] == w.pool.bindings[k])
  {
    RegistryStepsKeepPool(cfg, w, during);
    SweepFollowsRegistry(cfg, w.pool, Seen(cfg, w, during, when), now);
  }

  lemma HeldToTheEnd(cfg: Config, w: World, during: seq<Step>, when: Moments, now: int, k: Key)
    requires Sweeping(cfg, w, during, when) && Safety.Active(AfterSweep(cfg, w, during, when, now).pool, k)
    requires
      var found := Found(cfg, w, during, when, k);
      k.server in found.servers && Foreign(cfg, found, during[when(k)..], k.server, found.servers[k.server])
    ensures
      var after := AfterSweep(cfg, w, during, when, now);
      Holder(after.servers, k.server, now) == Some(after.pool.bindings[k].owner)
  {
    var found, rest := Found(cfg, w, during, when, k), during[when(k)..];
    CheckedAsFound(cfg, w, during, when, now, k);
    ExecSplit(cfg, w, during, when(k));
    RegistrationIsIsolated(cfg, found, rest, k.server, found.servers[k.server]);
  }

  /** A sweep leaves active exactly the active bindings that the registry declared
      when it checked them, whatever happens on the registry meanwhile. Their owner
      still holds the id when the sweep ends, unless it acted on it after the check
      or its TTL had passed for a call that came then. */
  lemma SweepFollowsTheRegistry(cfg: Config, w: World, during: seq<Step>, when: Moments, now: int)
    requires Sweeping(cfg, w, during, when)
    ensures
      var after := AfterSweep(cfg, w, during, when, now);
      && (forall k: Key ::
            Safety.Active(after.pool, k)
            <==> Safety.Active(w.pool, k)
                 && Declares(Found(cfg, w, during, when, k).servers, now, k, w.pool.bindings[k].owner))
      && (forall k: Key ::
            var found := Found(cfg, w, during, when, k);
            && Safety.Active(after.pool, k)
            && k.server in found.servers
            && Foreign(cfg, found, during[when(k)..], k.server, found.servers[k.server])
            ==> Holder(after.servers, k.server, now) == Some(after.pool.bindings[k].owner))
  {
    var after := AfterSweep(cfg, w, during, when, now);
    forall k: Key
      ensures
        Safety.Active(after.pool, k)
        <==> Safety.Active(w.pool, k)
             && Declares(Found(cfg, w, during, when, k).servers, now, k, w.pool.bindings[k].owner)
    {
      CheckedAsFound(cfg, w, during, when, now, k);
    }
    forall k: Key |
      && Safety.Active(after.pool, k)
      && var found := Found(cfg, w, during, when, k);
         k.server in found.servers
         && Foreign(cfg, found, during[when(k)..], k.server, found.servers[k.server])
      ensures Holder(after.servers, k.server, now) == Some(after.pool.bindings[k].owner)
    {
      HeldToTheEnd(cfg, w, during, when, now, k);
    }
  }

  /** The id stays the owner's: nobody may register it after its TTL has passed, it
      is not pruned then, and the owner does not remove it. The owner may register
      it anew at any time. */
  predicate KeepsHolder(w: World, step: Step, id: Name, owner: Name)
    requires id in w.servers
  {
    match step
    case Register(other, i, _, _, _, now) => i == id ==> other == owner || !Lapsed(w.servers[id], now)
    case Unregister(other, i) => i == id ==> other != owner
    case PruneAll(now) => !Lapsed(w.servers[id], now)
    case _ => true
  }

  /** A held port of k is reopened when it is declared again, and is not swept before
      the end of its grace period. */
  ghost predicate KeepsHeld(w: World, step: Step, k: Key)
    requires k in w.pool.bindings && Enabled(w, step)
  {
    var until := w.pool.bindings[k].until;
    match step
    case SyncPool(c, env) =>
      w.calls[c].id == k.server && k in Wanted(w.calls[c].id, w.calls[c].decls) && until.Some? ==> env.reopen(k)
    case SweepAll(now, _) => until.Some? ==> now <= until.value
    case _ => true
  }

  /** No Sync of another owner that declares k is under way. */
  ghost predicate NoForeignSync(w: World, k: Key, owner: Name) {
    forall c ::
      0 <= c < |w.calls| && w.calls[c].Syncing? && k in Wanted(w.calls[c].id, w.calls[c].decls)
      ==> w.calls[c].owner == owner
  }

  ghost predicate Undisturbed(cfg: Config, w: World, steps: seq<Step>, k: Key, owner: Name) {
    steps == [] ||
    var init, step := steps[..|steps| - 1], steps[|steps| - 1];
    && Undisturbed(cfg, w, init, k, owner) && Exec(cfg, w, steps).Some?
    && var before := Exec(cfg, w, init).value;
       && k.server in before.servers && k in before.pool.bindings
       && KeepsHolder(before, step, k.server, owner) && KeepsHeld(before, step, k)
  }

  lemma StepKeepsOwnersPort(cfg: Config, w: World, step: Step, k: Key, owner: Name)
    requires Enabled(w, step) && k.server in w.servers && w.servers[k.server].owner == owner
    requires k in w.pool.bindings && w.pool.bindings[k].owner == owner && NoForeignSync(w, k, owner)
    requires KeepsHolder(w, step, k.server, owner) && KeepsHeld(w, step, k)
    ensures
      var after := Apply(cfg, w, step);
      && k.server in after.servers && after.servers[k.server].owner == owner && NoForeignSync(after, k, owner)
      && Safety.SamePort(w.pool, after.pool, k)
  {
    match step
    case SyncPool(c, env) =>
      var call := w.calls[c];
      if k in Wanted(call.id, call.decls) { assert call.id == k.server; }
      Safety.StepKeepsPort(cfg, w.pool, Safety.SyncE(call.id, call.owner, call.decls, env), k);
    case ReleasePool(c, now) => Safety.StepKeepsPort(cfg, w.pool, Safety.ReleaseE(w.calls[c].id, now), k);
    case SweepAll(now, seen) =>
      Safety.StepKeepsPort(cfg, w.pool, Safety.SweepE(now, (j: Key, o: Name) => Declares(seen(j), now, j, o)), k);
    case _ =>
  }

  /** A Sync of another owner that declares k takes k's binding away. */
  lemma ForeignSyncTakesPort(cfg: Config, w: World, c: nat, env: Env, k: Key)
    requires PortPool.Enabled(cfg) && WellFormed(cfg, w.pool) && CallsValidated(w) && Enabled(w, SyncPool(c, env))
    requires k in w.pool.bindings && w.calls[c].owner != w.pool.bindings[k].owner
    requires k in Wanted(w.calls[c].id, w.calls[c].decls)
    ensures
      var after := Apply(cfg, w, SyncPool(c, env)).pool.bindings;
      k in after ==> after[k].owner == w.calls[c].owner && after[k].until == None
  {
    var call := w.calls[c];
    var (after, out) := Sync(cfg, w.pool, call.id, call.owner, call.decls, env);
    Safety.SyncTheorem(cfg, w.pool, call.id, call.owner, call.decls, env);
    var i :| 0 <= i < |call.decls| && k == KeyOf(call.id, call.decls[i]);
    assert Safety.Settled(cfg, after, call.id, call.owner, call.decls[i], out[i], env.now);
  }

  /** The registry protects the ports: while an owner holds an id, and no Sync of
      another owner that declares the side port is still under way, it keeps its port
      through every interleaving of everybody's calls, its own heartbeats included. */
  lemma {:induction false} OwnerKeepsPort(cfg: Config, w: World, steps: seq<Step>, k: Key, owner: Name)
    requires k.server in w.servers && w.servers[k.server].owner == owner
    requires k in w.pool.bindings && w.pool.bindings[k].owner == owner && NoForeignSync(w, k, owner)
    requires Undisturbed(cfg, w, steps, k, owner)
    ensures Exec(cfg, w, steps).Some?
    ensures
      var after := Exec(cfg, w, steps).value;
      && k.server in after.servers && after.servers[k.server].owner == owner && NoForeignSync(after, k, owner)
      && Safety.SamePort(w.pool, after.pool, k)
  {
    if steps != [] {
      OwnerKeepsPort(cfg, w, steps[..|steps| - 1], k, owner);
      StepKeepsOwnersPort(cfg, Exec(cfg, w, steps[..|steps| - 1]).value, steps[|steps| - 1], k, owner);
    }
  }

  lemma OneStep(cfg: Config, w: World, step: Step, k: Key, owner: Name)
    requires Enabled(w, step) && k.server in w.servers && k in w.pool.bindings
    requires KeepsHolder(w, step, k.server, owner) && KeepsHeld(w, step, k)
    ensures Undisturbed(cfg, w, [step], k, owner) && Exec(cfg, w, [step]) == Some(Apply(cfg, w, step))
  {
    var steps := [step];
    assert steps[..0] == [];
    assert Undisturbed(cfg, w, [], k, owner);
  }

  /** Such a Sync can be under way, and then the new owner, which holds the id and had
      the port, is left without it. */
  lemma LateSyncTakesPort() returns (steps: seq<Step>, after: World)
    ensures
      Exec(CONFIG, INITIAL, steps).Some?
      && var w := Exec(CONFIG, INITIAL, steps).value;
         && Holder(w.servers, 7, 0) == Some(2)
         && w.pool.bindings == map[KeyOver(Tcp) := Binding(2, 1, 100, None)]
         && !NoForeignSync(w, KeyOver(Tcp), 2)
    ensures Exec(CONFIG, INITIAL, steps + [SyncPool(0, ENV)]) == Some(after)
    ensures Holder(after.servers, 7, 0) == Some(2)
    ensures KeyOver(Tcp) in after.pool.bindings ==> after.pool.bindings[KeyOver(Tcp)].owner == 1
  {
    steps := Handover(Tcp);
    var w := Exec(CONFIG, INITIAL, steps).value;
    after := Apply(CONFIG, w, SyncPool(0, ENV));
    assert w.calls[0] == Syncing(7, 1, [Over(Tcp)]);
    Safety.WantedHas(7, [Over(Tcp)], 0);
    SlotsStayUnique(CONFIG, INITIAL, steps);
    ForeignSyncTakesPort(CONFIG, w, 0, ENV, KeyOver(Tcp));
    ExecSnoc(CONFIG, INITIAL, steps, SyncPool(0, ENV));
  }

  /** Whether an owner's side port keeps its port can be told beforehand: it does, in
      every schedule that leaves the id with its owner, if and only if no Sync of
      another owner that declares the side port is under way. */
  lemma OwnerKeepsPortExactly(cfg: Config, w: World, k: Key, owner: Name)
    requires PortPool.Enabled(cfg) && WellFormed(cfg, w.pool) && CallsValidated(w)
    requires k.server in w.servers && w.servers[k.server].owner == owner
    requires k in w.pool.bindings && w.pool.bindings[k].owner == owner
    ensures
      NoForeignSync(w, k, owner)
      <==> forall steps :: Undisturbed(cfg, w, steps, k, owner) ==>
             Exec(cfg, w, steps).Some? && Safety.SamePort(w.pool, Exec(cfg, w, steps).value.pool, k)
  {
    if NoForeignSync(w, k, owner) {
      forall steps | Undisturbed(cfg, w, steps, k, owner)
        ensures Exec(cfg, w, steps).Some? && Safety.SamePort(w.pool, Exec(cfg, w, steps).value.pool, k)
      {
        OwnerKeepsPort(cfg, w, steps, k, owner);
      }
    } else {
      var c: nat :|
        c < |w.calls| && w.calls[c].Syncing? && k in Wanted(w.calls[c].id, w.calls[c].decls)
        && w.calls[c].owner != owner;
      var step := SyncPool(c, Env(0, _ => true, _ => true));
      ForeignSyncTakesPort(cfg, w, c, step.env, k);
      OneStep(cfg, w, step, k, owner);
    }
  }
}
