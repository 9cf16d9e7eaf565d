/** The registry of internal/registry/registry.go: who holds a server id, and
    until when. It is also the oracle the side ports ask before they forward. */
module Registry {
  import opened Prelude
  import opened PortPool

  /** A registration. `live` stands for the state health checks maintain;
      `ports` are the declared side ports, in order. */
  datatype Server = Server(
    address: Name, ports: seq<(Name, Proto)>, owner: Name, isStatic: bool, expiresAt: int, live: int)

  datatype Outcome = Stored(server: Server) | Conflict | NotFound | Removed

  predicate Lapsed(s: Server, now: int) {
    !s.isStatic && now > s.expiresAt
  }

  /** The registration a reader sees: present and not expired. */
  function Lookup(servers: map<Name, Server>, id: Name, now: int): Option<Server> {
    if id in servers && !Lapsed(servers[id], now) then Some(servers[id]) else None
  }

  function Upserted(servers: map<Name, Server>, owner: Name, id: Name, s: Server, ttl: int, now: int)
    : (map<Name, Server>, Outcome)
  {
    if id in servers && servers[id].owner != owner && !Lapsed(servers[id], now) then (servers, Conflict)
    else
      var s1 := s.(owner := owner, isStatic := ttl <= 0);
      var s2 := if ttl <= 0 then s1 else s1.(expiresAt := now + ttl);
      var s3 := if id in servers && servers[id].address == s.address then s2.(live := servers[id].live) else s2;
      (servers[id := s3], Stored(s3))
  }

  function RemovedFrom(servers: map<Name, Server>, owner: Name, id: Name): (map<Name, Server>, Outcome) {
    if id !in servers then (servers, NotFound)
    else if servers[id].owner != owner then (servers, Conflict)
    else (servers - {id}, Removed)
  }

  function Pruned(servers: map<Name, Server>, now: int): map<Name, Server> {
    map id | id in servers && !Lapsed(servers[id], now) :: servers[id]
  }

  /** The same names in the same order; the protocols may differ. */
  predicate SameNames(a: seq<(Name, Proto)>, b: seq<(Name, Proto)>) {
    |a| == |b| && forall i :: 0 <= i < |a| ==> a[i].0 == b[i].0
  }

  /** SetSidePorts: it looks at the names only, not at the owner and not at the clock. */
  function PortsSet(servers: map<Name, Server>, id: Name, ports: seq<(Name, Proto)>): map<Name, Server> {
    if id in servers && SameNames(servers[id].ports, ports) then servers[id := servers[id].(ports := ports)]
    else servers
  }

  class Registry {
    var servers: map<Name, Server>

    constructor ()
      ensures servers == map[]
    {
      servers := map[];
    }

    method Upsert(owner: Name, id: Name, s: Server, ttl: int, now: int) returns (r: Outcome)
      modifies this
      ensures (servers, r) == Upserted(old(servers), owner, id, s, ttl, now)
    {
      if id in servers && servers[id].owner != owner && !Lapsed(servers[id], now) {
        return Conflict;
      }
      var s1 := s.(owner := owner, isStatic := ttl <= 0);
      if !s1.isStatic {
        s1 := s1.(expiresAt := now + ttl);
      }
      if id in servers && servers[id].address == s.address {
        s1 := s1.(live := servers[id].live);
      }
      servers := servers[id := s1];
      r := Stored(s1);
    }

    method Remove(owner: Name, id: Name) returns (r: Outcome)
      modifies this
      ensures (servers, r) == RemovedFrom(old(servers), owner, id)
    {
      if id !in servers { return NotFound; }
      if servers[id].owner != owner { return Conflict; }
      servers := servers - {id};
      r := Removed;
    }

    /** What Sync stores at its end. */
    method SetSidePorts(id: Name, ports: seq<(Name, Proto)>)
      modifies this
      ensures servers == PortsSet(old(servers), id, ports)
    {
      if id !in servers || |servers[id].ports| != |ports| { return; }
      for i := 0 to |ports|
        invariant servers == old(servers)
        invariant forall j :: 0 <= j < i ==> servers[id].ports[j].0 == ports[j].0
      {
        if servers[id].ports[i].0 != ports[i].0 { return; }
      }
      servers := servers[id := servers[id].(ports := ports)];
    }

    /** Deleting expired registrations is invisible to every later lookup. */
    method Prune(now: int)
      modifies this
      ensures servers == Pruned(old(servers), now)
      ensures forall id, t :: t >= now ==> Lookup(servers, id, t) == Lookup(old(servers), id, t)
      ensures forall id <- servers :: servers[id].isStatic || now <= servers[id].expiresAt
    {
      var rest := servers.Keys;
      while rest != {}
        invariant rest <= servers.Keys <= old(servers).Keys
        invariant forall id <- old(servers) :: id in servers <==> id in rest || !Lapsed(old(servers)[id], now)
        invariant forall id <- servers :: servers[id] == old(servers)[id]
      {
        var id :| id in rest;
        rest := rest - {id};
        if Lapsed(servers[id], now) { servers := servers - {id}; }
      }
    }

    /** stillRegistered for a binding (k, owner): its loop over the declared ports. */
    method StillRegistered(k: Key, owner: Name, now: int) returns (r: bool)
      ensures r == Declares(servers, now, k, owner)
    {
      var s := Lookup(servers, k.server, now);
      if s.None? || s.value.owner != owner { return false; }
      for i := 0 to |s.value.ports|
        invariant (k.name, k.proto) !in s.value.ports[..i]
      {
        if s.value.ports[i] == (k.name, k.proto) { return true; }
      }
      r := false;
    }

    /** dial: whose address a binding's traffic goes to, if anybody's. */
    method DialTarget(k: Key, owner: Name, now: int) returns (address: Option<Name>)
      ensures address == Target(servers, k, owner, now)
      ensures address.Some? <==> Holder(servers, k.server, now) == Some(owner)
      ensures address.Some? ==> address == Some(servers[k.server].address)
    {
      var s := Lookup(servers, k.server, now);
      if s.None? || s.value.owner != owner { return None; }
      address := Some(s.value.address);
    }
  }

  // ---------------------------------------------------------------- ownership

  /** The owner of an id at a time, if it has one. */
  function Holder(servers: map<Name, Server>, id: Name, now: int): Option<Name> {
    match Lookup(servers, id, now) case Some(s) => Some(s.owner) case None => None
  }

  /** Where the traffic of a binding (k, owner) goes. */
  function Target(servers: map<Name, Server>, k: Key, owner: Name, now: int): Option<Name> {
    if Holder(servers, k.server, now) == Some(owner) then Some(servers[k.server].address) else None
  }

  /** The side port k of `owner` is declared by the current registration. */
  predicate Declares(servers: map<Name, Server>, now: int, k: Key, owner: Name) {
    match Lookup(servers, k.server, now)
    case None => false
    case Some(s) => s.owner == owner && (k.name, k.proto) in s.ports
  }

  /** What registering means. It is refused, without effect, exactly while another
      owner holds the id. Otherwise the id is the caller's, with the caller's address
      and side ports, until the TTL has passed, for ever without one, and no other id
      is touched. Live state survives exactly at the same address. */
  lemma UpsertTheorem(servers: map<Name, Server>, owner: Name, id: Name, s: Server, ttl: int, now: int)
    ensures
      var (after, outcome) := Upserted(servers, owner, id, s, ttl, now);
      var other := Holder(servers, id, now).Some? && Holder(servers, id, now) != Some(owner);
      && (other ==> outcome == Conflict && after == servers)
      && (!other ==>
            && id in after && outcome == Stored(after[id]) && after - {id} == servers - {id}
            && after[id].address == s.address && after[id].ports == s.ports && after[id].owner == owner
            && after[id].isStatic == (ttl <= 0)
            && after[id].expiresAt == (if ttl > 0 then now + ttl else s.expiresAt)
            && after[id].live
               == (if id in servers && servers[id].address == s.address then servers[id].live else s.live)
            && (ttl <= 0 ==> forall t :: Lookup(after, id, t) == Some(after[id]))
            && (ttl > 0 ==> forall t :: Lookup(after, id, t) == if t <= now + ttl then Some(after[id]) else None))
  {
    var after := Upserted(servers, owner, id, s, ttl, now).0;
    forall j | j != id ensures j in after <==> j in servers {}
  }

  function NamesOf(ports: seq<(Name, Proto)>): seq<Name> {
    if ports == [] then [] else [ports[0].0] + NamesOf(ports[1..])
  }

  lemma {:induction false} SameNamesAre(a: seq<(Name, Proto)>, b: seq<(Name, Proto)>)
    ensures SameNames(a, b) <==> NamesOf(a) == NamesOf(b)
  {
    if a != [] && b != [] {
      SameNamesAre(a[1..], b[1..]);
      assert NamesOf(a)[1..] == NamesOf(a[1..]) && NamesOf(b)[1..] == NamesOf(b[1..]);
      if NamesOf(a) == NamesOf(b) {
        assert NamesOf(a)[0] == NamesOf(b)[0];
        forall i | 0 <= i < |a| ensures a[i].0 == b[i].0 {
          if i > 0 { assert a[i] == a[1..][i - 1] && b[i] == b[1..][i - 1]; }
        }
      }
      if SameNames(a, b) {
        forall i | 0 <= i < |a[1..]| ensures a[1..][i].0 == b[1..][i].0 {
          assert a[1..][i] == a[i + 1] && b[1..][i] == b[i + 1];
        }
      }
    }
  }

  /** Storing Sync's answer: the ports of a registered id are replaced exactly if the
      sequence of their names is the same, and nothing else changes. */
  lemma SetSidePortsTheorem(servers: map<Name, Server>, id: Name, ports: seq<(Name, Proto)>)
    ensures
      var after := PortsSet(servers, id, ports);
      && after.Keys == servers.Keys && after - {id} == servers - {id}
      && (id in servers ==>
            && after[id] == servers[id].(ports := after[id].ports)
            && after[id].ports == if NamesOf(servers[id].ports) == NamesOf(ports) then ports else servers[id].ports)
  {
    if id in servers { SameNamesAre(servers[id].ports, ports); }
  }

  /** Unregistering: only the owner of the entry can, and then the id is gone, and
      only that one. */
  lemma RemoveTheorem(servers: map<Name, Server>, owner: Name, id: Name)
    ensures
      var (after, outcome) := RemovedFrom(servers, owner, id);
      && (outcome == Removed <==> id in servers && servers[id].owner == owner)
      && (outcome == NotFound <==> id !in servers)
      && (outcome != Removed ==> after == servers)
      && (outcome == Removed ==> forall t, j :: Lookup(after, j, t) == if j == id then None else Lookup(servers, j, t))
  {
  }

  /** One call on the registry, with the clock reading it makes. */
  datatype Event =
    | UpsertE(owner: Name, id: Name, s: Server, ttl: int, now: int)
    | RemoveE(owner: Name, id: Name, now: int)
    | PruneE(now: int)
    | SetE(id: Name, ports: seq<(Name, Proto)>, now: int)

  function Step(servers: map<Name, Server>, e: Event): map<Name, Server> {
    match e
    case UpsertE(owner, id, s, ttl, now) => Upserted(servers, owner, id, s, ttl, now).0
    case RemoveE(owner, id, _) => RemovedFrom(servers, owner, id).0
    case PruneE(now) => Pruned(servers, now)
    case SetE(id, ports, _) => PortsSet(servers, id, ports)
  }

  function Run(servers: map<Name, Server>, events: seq<Event>): map<Name, Server>
    decreases |events|
  {
    if events == [] then servers else Run(Step(servers, events[0]), events[1..])
  }

  /** The event is the owner's own re-registration or removal of the id. */
  predicate ByOwner(e: Event, owner: Name, id: Name) {
    (e.UpsertE? || e.RemoveE?) && e.owner == owner && e.id == id
  }

  /** The event writes other protocols under the names that a registration declares.
      Sync does so whoever its server belonged to when it was called. */
  predicate Rewrites(e: Event, id: Name, ports: seq<(Name, Proto)>) {
    e.SetE? && e.id == id && SameNames(ports, e.ports) && e.ports != ports
  }

  /** Isolation: whatever any number of other owners do, and whatever any Sync
      stores, an id keeps its registration until its owner acts on it or its TTL
      has passed: owner, address, expiry and the names of its side ports. Their
      protocols stay too, unless a Sync writes others under the same names. */
  lemma {:induction false} OwnerIsolation(servers: map<Name, Server>, events: seq<Event>, id: Name, s: Server)
    requires id in servers && servers[id] == s
    requires forall e <- events :: !Lapsed(s, e.now) && !ByOwner(e, s.owner, id)
    ensures
      var after := Run(servers, events);
      && id in after && after[id] == s.(ports := after[id].ports) && SameNames(s.ports, after[id].ports)
      && ((forall e <- events :: !Rewrites(e, id, s.ports)) ==> after[id] == s)
    decreases |events|
  {
    if events != [] {
      var e := events[0];
      assert e in events;
      OwnerIsolation(Step(servers, e), events[1..], id, Step(servers, e)[id]);
    }
  }

  /** The declared side ports stay throughout a run exactly when no Sync of the run
      writes other protocols under their names. */
  lemma {:induction false} PortsStayExactly(servers: map<Name, Server>, events: seq<Event>, id: Name, s: Server)
    requires id in servers && servers[id] == s
    requires forall e <- events :: !Lapsed(s, e.now) && !ByOwner(e, s.owner, id)
    ensures forall n :: 0 <= n <= |events| ==> id in Run(servers, events[..n])
    ensures
      (forall n :: 0 <= n <= |events| ==> Run(servers, events[..n])[id].ports == s.ports)
      <==> (forall e <- events :: !Rewrites(e, id, s.ports))
  {
    forall n | 0 <= n <= |events| ensures id in Run(servers, events[..n]) {
      OwnerIsolation(servers, events[..n], id, s);
    }
    if forall e <- events :: !Rewrites(e, id, s.ports) {
      forall n | 0 <= n <= |events| ensures Run(servers, events[..n])[id].ports == s.ports {
        OwnerIsolation(servers, events[..n], id, s);
      }
    } else {
      var i :| 0 <= i < |events| && Rewrites(events[i], id, s.ports);
      OwnerIsolation(servers, events[..i], id, s);
      RunOneMore(servers, events, i);
      if Run(servers, events[..i])[id].ports == s.ports {
        assert Run(servers, events[..i + 1])[id].ports == events[i].ports;
      }
    }
  }

  lemma {:induction false} RunOneMore(servers: map<Name, Server>, events: seq<Event>, i: nat)
    requires i < |events|
    ensures Run(servers, events[..i + 1]) == Step(Run(servers, events[..i]), events[i])
    decreases i
  {
    if i == 0 {
      assert events[..1][1..] == [];
    } else {
      RunOneMore(Step(servers, events[0]), events[1..], i - 1);
      assert events[..i + 1][1..] == events[1..][..i] && events[..i][1..] == events[1..][..i - 1];
    }
  }

  /** The heartbeat decides where traffic goes: for its whole TTL, through whatever
      others do and any Sync stores, bindings of the owner are dialed at the address
      that its last heartbeat gave. */
  lemma LastHeartbeatIsDialed(servers: map<Name, Server>, owner: Name, k: Key, s: Server, ttl: int, now: int,
                              events: seq<Event>, t: int)
    requires ttl > 0 && Upserted(servers, owner, k.server, s, ttl, now).1.Stored? && now <= t <= now + ttl
    requires forall e <- events :: now <= e.now <= now + ttl && !ByOwner(e, owner, k.server)
    ensures Target(Run(Upserted(servers, owner, k.server, s, ttl, now).0, events), k, owner, t) == Some(s.address)
  {
    UpsertTheorem(servers, owner, k.server, s, ttl, now);
    var stored := Upserted(servers, owner, k.server, s, ttl, now).0;
    OwnerIsolation(stored, events, k.server, stored[k.server]);
  }

  /** Once the TTL has passed the id is free: the next owner gets it, and then holds
      it until its own TTL has passed, whatever the one before and all others do. */
  lemma TakeoverAfterExpiry(servers: map<Name, Server>, id: Name, owner: Name, s: Server, ttl: int, now: int,
                            events: seq<Event>)
    requires id in servers && Lapsed(servers[id], now) && ttl > 0
    requires forall e <- events :: now <= e.now <= now + ttl && !ByOwner(e, owner, id)
    ensures Upserted(servers, owner, id, s, ttl, now).1.Stored?
    ensures
      var after := Run(Upserted(servers, owner, id, s, ttl, now).0, events);
      forall t :: now <= t <= now + ttl ==> Holder(after, id, t) == Some(owner)
  {
    var taken := Upserted(servers, owner, id, s, ttl, now).0;
    OwnerIsolation(taken, events, id, taken[id]);
  }

  // ---------------------------------------------------------------- side ports and the registry

  /** A sweep leaves active exactly the active bindings that belong to the id's holder
      and are declared by its registration, as the sweep found them when it checked
      the binding, however the bindings and the registry had drifted apart before. */
  lemma SweepFollowsRegistry(cfg: Config, pool: Pool, seen: Key -> map<Name, Server>, now: int)
    ensures
      var after := Sweep(cfg, pool, now, (k: Key, owner: Name) => Declares(seen(k), now, k, owner));
      && (forall k <- after.bindings :: after.bindings[k].until == None ==>
            && Holder(seen(k), k.server, now) == Some(after.bindings[k].owner)
            && (k.name, k.proto) in seen(k)[k.server].ports)
      && (forall k <- pool.bindings :: pool.bindings[k].until == None ==>
            (Declares(seen(k), now, k, pool.bindings[k].owner)
             <==> k in after.bindings && after.bindings[k].until == None))
      && (forall k <- after.bindings :: k in pool.bindings && (after.bindings[k].until == None ==>
            after.bindings[k] == pool.bindings[k]))
  {
    var after := Sweep(cfg, pool, now, (k: Key, owner: Name) => Declares(seen(k), now, k, owner));
    forall k <- after.bindings | after.bindings[k].until == None
      ensures Declares(seen(k), now, k, after.bindings[k].owner)
    {
      assert k in pool.bindings;
    }
  }

  /** A binding left over from an earlier owner is never dialed while somebody
      else holds the id, and the owner that does hold it keeps it through
      whatever other owners do and any Sync stores until its TTL passes: the two
      together isolate the owners' traffic. */
  lemma StaleBindingIsNeverDialed(servers: map<Name, Server>, events: seq<Event>, k: Key, stale: Name, now: int)
    requires k.server in servers && servers[k.server].owner != stale && !Lapsed(servers[k.server], now)
    requires forall e <- events :: !Lapsed(servers[k.server], e.now) && !ByOwner(e, servers[k.server].owner, k.server)
    ensures Holder(Run(servers, events), k.server, now) == Some(servers[k.server].owner)
    ensures !Declares(Run(servers, events), now, k, stale)
  {
    OwnerIsolation(servers, events, k.server, servers[k.server]);
  }
}
