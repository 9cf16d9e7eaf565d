/** The side-port allocator of internal/sideport/sideport.go as functions on
    values: what each call of `Manager` does to the set of bindings. `Manager`
    is proved to compute exactly these functions. */
module PortPool {
  import opened Prelude

  /** Server ids, side port names and owners are compared, never looked into. */
  type Name = nat

  datatype Proto = Tcp | Udp

  datatype Key = Key(server: Name, name: Name, proto: Proto)

  datatype Slot = Slot(proto: Proto, port: int)

  /** One public port given to one side port. `until` is None while the port is
      active, and the end of the grace period once it is released. */
  datatype Binding = Binding(owner: Name, public: int, backend: int, until: Option<int>)

  datatype Pool = Pool(bindings: map<Key, Binding>, broken: map<Slot, int>)

  datatype Config = Config(minPort: int, maxPort: int, grace: int)

  /** What one call sees of the outside: the clock, whether reopening the held
      port of a key succeeds, and whether listening on a slot succeeds. */
  datatype Env = Env(now: int, reopen: Key -> bool, can: Slot -> bool)

  datatype Error = NoError | Disabled | NoPort

  /** A declared side port with the answer the gateway fills in. */
  datatype Decl = Decl(name: Name, proto: Proto, port: int, preferred: int, public: Option<int>, error: Error)

  /** A port that could not be opened is not tried again for a minute. */
  const BROKEN_FOR: int := 60_000_000_000

  predicate Enabled(cfg: Config) {
    cfg.maxPort > 0
  }

  function SlotOf(k: Key, b: Binding): Slot {
    Slot(k.proto, b.public)
  }

  ghost predicate Occupied(pool: Pool, slot: Slot) {
    exists k :: k in pool.bindings && SlotOf(k, pool.bindings[k]) == slot
  }

  predicate Blocked(pool: Pool, slot: Slot, now: int) {
    slot in pool.broken && now < pool.broken[slot]
  }

  predicate InPool(cfg: Config, port: int) {
    cfg.minPort <= port <= cfg.maxPort
  }

  /** No slot belongs to two side ports, and every assigned port is in the pool. */
  ghost predicate WellFormed(cfg: Config, pool: Pool) {
    && (forall k <- pool.bindings :: InPool(cfg, pool.bindings[k].public))
    && (forall j, k :: j in pool.bindings && k in pool.bindings && j != k ==>
          SlotOf(j, pool.bindings[j]) != SlotOf(k, pool.bindings[k]))
  }

  // ---------------------------------------------------------------- operations

  function Drop(pool: Pool, k: Key): Pool {
    pool.(bindings := pool.bindings - {k})
  }

  /** The `try` closure of assign: the pool after it, and whether it bound k. */
  ghost function Try(cfg: Config, pool: Pool, k: Key, owner: Name, port: int, env: Env): (Pool, bool) {
    var slot := Slot(k.proto, port);
    if !InPool(cfg, port) || Occupied(pool, slot) || Blocked(pool, slot, env.now) then (pool, false)
    else if !env.can(slot) then (pool.(broken := pool.broken[slot := env.now + BROKEN_FOR]), false)
    else (pool.(bindings := pool.bindings[k := Binding(owner, port, 0, None)]), true)
  }

  ghost function Scan(cfg: Config, pool: Pool, k: Key, owner: Name, port: int, env: Env): (Pool, Option<int>)
    decreases cfg.maxPort - port
  {
    if port > cfg.maxPort then (pool, None)
    else
      var (pool1, bound) := Try(cfg, pool, k, owner, port, env);
      if bound then (pool1, Some(port)) else Scan(cfg, pool1, k, owner, port + 1, env)
  }

  ghost function Allocate(cfg: Config, pool: Pool, k: Key, owner: Name, preferred: int, env: Env): (Pool, Option<int>) {
    var (pool1, bound) := Try(cfg, pool, k, owner, preferred, env);
    if bound then (pool1, Some(preferred)) else Scan(cfg, pool1, k, owner, cfg.minPort, env)
  }

  /** k has a binding of this owner that is active or can be reactivated. */
  ghost predicate Reusable(pool: Pool, k: Key, owner: Name, env: Env) {
    && k in pool.bindings && pool.bindings[k].owner == owner
    && (pool.bindings[k].until == None || env.reopen(k))
  }

  ghost function Assign(cfg: Config, pool: Pool, k: Key, owner: Name, preferred: int, env: Env): (Pool, Option<int>) {
    if Reusable(pool, k, owner, env) then
      var b := pool.bindings[k];
      (pool.(bindings := pool.bindings[k := b.(until := None)]), Some(b.public))
    else
      Allocate(cfg, Drop(pool, k), k, owner, preferred, env)
  }

  function ReleaseOne(cfg: Config, b: Binding, now: int): Binding {
    if b.until.Some? then b else b.(until := Some(now + cfg.grace))
  }

  function ReleaseWhere(cfg: Config, pool: Pool, which: set<Key>, now: int): Pool {
    pool.(bindings := map k | k in pool.bindings ::
                        if k in which then ReleaseOne(cfg, pool.bindings[k], now) else pool.bindings[k])
  }

  function KeyOf(id: Name, d: Decl): Key {
    Key(id, d.name, d.proto)
  }

  /** One round of Sync's loop: the pool, and the declaration with its answer. */
  ghost function Answer(cfg: Config, pool: Pool, id: Name, owner: Name, d: Decl, env: Env): (Pool, Decl) {
    if !Enabled(cfg) then (pool, d.(error := Disabled))
    else
      var k := KeyOf(id, d);
      var (pool1, port) := Assign(cfg, pool, k, owner, d.preferred, env);
      if port.None? || k !in pool1.bindings then (pool1, d.(error := NoPort))
      else (pool1.(bindings := pool1.bindings[k := pool1.bindings[k].(backend := d.port)]), d.(public := port))
  }

  /** The pool and the answers after the first n declarations were handled. */
  ghost function SyncLoop(cfg: Config, pool: Pool, id: Name, owner: Name, decls: seq<Decl>, env: Env, n: nat)
    : (r: (Pool, seq<Decl>))
    requires n <= |decls|
    ensures |r.1| == n
  {
    if n == 0 then (pool, [])
    else
      var (pool1, out) := SyncLoop(cfg, pool, id, owner, decls, env, n - 1);
      var (pool2, d) := Answer(cfg, pool1, id, owner, decls[n - 1], env);
      (pool2, out + [d])
  }

  function Wanted(id: Name, decls: seq<Decl>): set<Key> {
    set i | 0 <= i < |decls| :: KeyOf(id, decls[i])
  }

  /** The bindings of one server except those of `kept`. */
  function OfServer(pool: Pool, id: Name, kept: set<Key>): set<Key> {
    set k | k in pool.bindings && k.server == id && k !in kept
  }

  ghost function Sync(cfg: Config, pool: Pool, id: Name, owner: Name, decls: seq<Decl>, env: Env): (Pool, seq<Decl>) {
    var (pool1, out) := SyncLoop(cfg, pool, id, owner, decls, env, |decls|);
    (ReleaseWhere(cfg, pool1, OfServer(pool1, id, Wanted(id, decls)), env.now), out)
  }

  function Release(cfg: Config, pool: Pool, id: Name, now: int): Pool {
    ReleaseWhere(cfg, pool, OfServer(pool, id, {}), now)
  }

  predicate Expired(b: Binding, now: int) {
    b.until.Some? && now > b.until.value
  }

  function Swept(cfg: Config, k: Key, b: Binding, now: int, alive: (Key, Name) -> bool): Binding {
    if b.until.None? && !alive(k, b.owner) then ReleaseOne(cfg, b, now) else b
  }

  /** `alive` answers `stillRegistered`. */
  function Sweep(cfg: Config, pool: Pool, now: int, alive: (Key, Name) -> bool): Pool {
    Pool(
      map k | k in pool.bindings && !Expired(pool.bindings[k], now) :: Swept(cfg, k, pool.bindings[k], now, alive),
      map slot | slot in pool.broken && now <= pool.broken[slot] :: pool.broken[slot])
  }

  // ---------------------------------------------------------------- allocation is complete

  /** A port that a try would bind. */
  ghost predicate Usable(cfg: Config, pool: Pool, proto: Proto, port: int, env: Env) {
    var slot := Slot(proto, port);
    InPool(cfg, port) && !Occupied(pool, slot) && !Blocked(pool, slot, env.now) && env.can(slot)
  }

  /** Every port of the pool is occupied or marked broken. */
  ghost predicate AllTaken(cfg: Config, pool: Pool, proto: Proto, now: int) {
    forall port :: InPool(cfg, port) ==> Occupied(pool, Slot(proto, port)) || Blocked(pool, Slot(proto, port), now)
  }

  /** Pools that differ only in marks on ports that cannot be opened anyway. */
  ghost predicate OnlyMarked(before: Pool, after: Pool, env: Env) {
    && after.bindings == before.bindings
    && (forall slot <- before.broken :: slot in after.broken && after.broken[slot] >= before.broken[slot])
    && (forall slot :: Blocked(after, slot, env.now) ==> Blocked(before, slot, env.now) || !env.can(slot))
  }

  lemma TryFacts(cfg: Config, pool: Pool, k: Key, owner: Name, port: int, env: Env)
    ensures
      var (after, bound) := Try(cfg, pool, k, owner, port, env);
      && bound == Usable(cfg, pool, k.proto, port, env)
      && (!bound ==> OnlyMarked(pool, after, env))
      && (!bound && InPool(cfg, port) ==>
          Occupied(after, Slot(k.proto, port)) || Blocked(after, Slot(k.proto, port), env.now))
      && (bound ==> after == pool.(bindings := pool.bindings[k := Binding(owner, port, 0, None)]))
  {
    var slot := Slot(k.proto, port);
    if Occupied(pool, slot) {
      var j :| j in pool.bindings && SlotOf(j, pool.bindings[j]) == slot;
      assert SlotOf(j, Try(cfg, pool, k, owner, port, env).0.bindings[j]) == slot;
    }
  }

  lemma MarksKeepUsable(cfg: Config, before: Pool, after: Pool, proto: Proto, env: Env)
    requires OnlyMarked(before, after, env)
    ensures forall port :: Usable(cfg, after, proto, port, env) == Usable(cfg, before, proto, port, env)
    ensures forall slot :: Occupied(after, slot) == Occupied(before, slot)
    ensures forall slot :: Blocked(before, slot, env.now) ==> Blocked(after, slot, env.now)
  {
  }

  lemma {:induction false} ScanFacts(cfg: Config, pool: Pool, k: Key, owner: Name, from: int, env: Env)
    ensures
      var (after, port) := Scan(cfg, pool, k, owner, from, env);
      match port
      case Some(p) =>
        && from <= p && Usable(cfg, pool, k.proto, p, env)
        && (forall q :: from <= q < p ==> !Usable(cfg, pool, k.proto, q, env))
        && after.bindings == pool.bindings[k := Binding(owner, p, 0, None)]
        && OnlyMarked(pool, after.(bindings := pool.bindings), env)
      case None =>
        && (forall q :: from <= q ==> !Usable(cfg, pool, k.proto, q, env))
        && OnlyMarked(pool, after, env)
        && (forall q :: from <= q && InPool(cfg, q) ==>
            Occupied(after, Slot(k.proto, q)) || Blocked(after, Slot(k.proto, q), env.now))
    decreases cfg.maxPort - from
  {
    if from <= cfg.maxPort {
      var (pool1, bound) := Try(cfg, pool, k, owner, from, env);
      TryFacts(cfg, pool, k, owner, from, env);
      if !bound {
        MarksKeepUsable(cfg, pool, pool1, k.proto, env);
        ScanFacts(cfg, pool1, k, owner, from + 1, env);
        var after := Scan(cfg, pool1, k, owner, from + 1, env).0;
        MarksKeepUsable(cfg, pool1, after.(bindings := pool1.bindings), k.proto, env);
      }
    }
  }

  /** A fresh allocation binds the preferred port if it can be opened, else the
      least openable port of the pool. It binds nothing exactly when no port of
      the pool is openable, and then every one is occupied or marked broken. */
  lemma AllocationIsComplete(cfg: Config, pool: Pool, k: Key, owner: Name, preferred: int, env: Env)
    ensures
      var (after, port) := Allocate(cfg, pool, k, owner, preferred, env);
      match port
      case Some(p) =>
        && Usable(cfg, pool, k.proto, p, env)
        && (p == preferred
            || (!Usable(cfg, pool, k.proto, preferred, env)
                && forall q :: q < p ==> !Usable(cfg, pool, k.proto, q, env)))
        && after.bindings == pool.bindings[k := Binding(owner, p, 0, None)]
        && OnlyMarked(pool, after.(bindings := pool.bindings), env)
      case None =>
        && (forall q :: !Usable(cfg, pool, k.proto, q, env))
        && AllTaken(cfg, after, k.proto, env.now)
        && OnlyMarked(pool, after, env)
  {
    var (pool1, bound) := Try(cfg, pool, k, owner, preferred, env);
    TryFacts(cfg, pool, k, owner, preferred, env);
    if !bound {
      MarksKeepUsable(cfg, pool, pool1, k.proto, env);
      ScanFacts(cfg, pool1, k, owner, cfg.minPort, env);
    }
  }

  /** The whole range is used, both ends included, and nothing outside it: a fresh
      allocation finds a port if and only if some port from minPort to maxPort is
      taken by nobody, not marked, and can be opened; and gives one of those. */
  lemma RangeIsUsed(cfg: Config, pool: Pool, k: Key, owner: Name, preferred: int, env: Env)
    ensures
      var port := Allocate(cfg, pool, k, owner, preferred, env).1;
      && (port.None? <==>
          forall p :: cfg.minPort <= p <= cfg.maxPort ==>
            var slot := Slot(k.proto, p); Occupied(pool, slot) || Blocked(pool, slot, env.now) || !env.can(slot))
      && (port.Some? ==>
            && cfg.minPort <= port.value <= cfg.maxPort && !Occupied(pool, Slot(k.proto, port.value))
            && env.can(Slot(k.proto, port.value)))
  {
    AllocationIsComplete(cfg, pool, k, owner, preferred, env);
    var port := Allocate(cfg, pool, k, owner, preferred, env).1;
    if port.None? {
      forall p | cfg.minPort <= p <= cfg.maxPort
        ensures
          var slot := Slot(k.proto, p); Occupied(pool, slot) || Blocked(pool, slot, env.now) || !env.can(slot)
      {
        assert !Usable(cfg, pool, k.proto, p, env);
      }
    } else {
      assert Usable(cfg, pool, k.proto, port.value, env);
    }
  }
}
