/** The side-port manager of internal/sideport/sideport.go as the object it is:
    two indexes onto shared binding objects, changed in place. Every method is
    proved to do to the abstract pool what PortPool says. */
module PortManager {
  import opened Prelude
  import opened PortPool

  class PortBinding {
    const key: Key
    const owner: Name
    const public: int
    var backend: int
    var until: Option<int>
    var listening: bool  // closer != nil

    constructor (key: Key, owner: Name, public: int)
      ensures this.key == key && this.owner == owner && this.public == public
      ensures backend == 0 && until == None && listening
    {
      this.key, this.owner, this.public := key, owner, public;
      backend, until, listening := 0, None, true;
    }

    function Slot(): Slot {
      PortPool.Slot.Slot(key.proto, public)
    }

    function Value(): Binding
      reads this
    {
      Binding(owner, public, backend, until)
    }
  }

  class Manager {
    const cfg: Config
    var byKey: map<Key, PortBinding>
    var byPort: map<Slot, PortBinding>
    var broken: map<Slot, int>
    ghost var pool: Pool  // the same bindings as values

    constructor (cfg: Config)
      ensures this.cfg == cfg && Valid() && pool == Pool(map[], map[])
    {
      this.cfg := cfg;
      byKey, byPort, broken := map[], map[], map[];
      pool := Pool(map[], map[]);
    }

    /** The two indexes are inverse to each other, every port is in the pool,
        exactly the active bindings have a listener, and `pool` says the same. */
    ghost predicate Valid()
      reads this, byKey.Values
    {
      && (forall k <- byKey :: KeyEntryOk(k))
      && (forall slot <- byPort ::
          byPort[slot].Slot() == slot && byPort[slot].key in byKey && byKey[byPort[slot].key] == byPort[slot])
      && pool.bindings.Keys == byKey.Keys && pool.broken == broken
    }

    ghost predicate KeyEntryOk(k: Key)
      requires k in byKey
      reads this, byKey[k]
    {
      var b := byKey[k];
      && b.key == k && b.Slot() in byPort && byPort[b.Slot()] == b
      && InPool(cfg, b.public)
      && (b.until == None <==> b.listening)
      && k in pool.bindings && pool.bindings[k] == b.Value()
    }

    /** In every state the methods can reach no slot is held twice, and a slot is
        occupied exactly when the port index has it. */
    lemma PoolIsWellFormed()
      requires Valid()
      ensures WellFormed(cfg, pool)
      ensures forall slot :: Occupied(pool, slot) <==> slot in byPort
    {
      forall j, k | j in pool.bindings && k in pool.bindings && j != k
        ensures SlotOf(j, pool.bindings[j]) != SlotOf(k, pool.bindings[k])
      {
        assert KeyEntryOk(j) && KeyEntryOk(k);
      }
      forall slot ensures Occupied(pool, slot) <==> slot in byPort {
        if slot in byPort {
          var k := byPort[slot].key;
          assert KeyEntryOk(k) && SlotOf(k, pool.bindings[k]) == slot;
        }
        if Occupied(pool, slot) {
          var k :| k in pool.bindings && SlotOf(k, pool.bindings[k]) == slot;
          assert KeyEntryOk(k);
        }
      }
    }

    method DropBinding(b: PortBinding)
      requires Valid() && b.key in byKey && byKey[b.key] == b
      modifies this`byKey, this`byPort, this`pool, b`listening
      ensures Valid() && pool == Drop(old(pool), b.key)
      ensures byKey == old(byKey) - {b.key} && !b.listening
    {
      assert KeyEntryOk(b.key);
      forall k | k in byKey && k != b.key ensures byKey[k].Slot() != b.Slot() {
        assert KeyEntryOk(k);
      }
      b.listening := false;
      byKey := byKey - {b.key};
      if b.Slot() in byPort && byPort[b.Slot()] == b {
        byPort := byPort - {b.Slot()};
      }
      pool := Drop(pool, b.key);
      forall k <- byKey ensures KeyEntryOk(k) {
        assert old(KeyEntryOk(k));
      }
    }

    /** A listener is open on a free slot: both indexes get the new binding. */
    method Bind(k: Key, owner: Name, port: int) returns (b: PortBinding)
      requires Valid() && k !in byKey && InPool(cfg, port) && PortPool.Slot.Slot(k.proto, port) !in byPort
      modifies this`byKey, this`byPort, this`pool
      ensures Valid() && fresh(b) && byKey == old(byKey)[k := b] && b.public == port
      ensures pool == old(pool).(bindings := old(pool).bindings[k := Binding(owner, port, 0, None)])
    {
      b := new PortBinding(k, owner, port);
      byKey := byKey[k := b];
      byPort := byPort[b.Slot() := b];
      pool := pool.(bindings := pool.bindings[k := Binding(owner, port, 0, None)]);
      assert KeyEntryOk(k);
      forall j | j in byKey && j != k ensures KeyEntryOk(j) {
        assert old(KeyEntryOk(j));
      }
    }

    /** The `try` closure of assign. */
    method TryPort(k: Key, owner: Name, port: int, env: Env) returns (b: PortBinding?)
      requires Valid() && k !in byKey
      modifies this
      ensures Valid()
      ensures (pool, b != null) == Try(cfg, old(pool), k, owner, port, env)
      ensures b == null ==> byKey == old(byKey)
      ensures b != null ==> fresh(b) && byKey == old(byKey)[k := b] && b.public == port
    {
      PoolIsWellFormed();
      var slot := PortPool.Slot.Slot(k.proto, port);
      if port < cfg.minPort || port > cfg.maxPort || slot in byPort {
        b := null;
      } else if slot in broken && env.now < broken[slot] {
        b := null;
      } else if env.can(slot) {
        b := Bind(k, owner, port);
      } else {
        b := null;
        MarkBroken(slot, env.now);
      }
    }

    method MarkBroken(slot: Slot, now: int)
      requires Valid()
      modifies this`broken, this`pool
      ensures Valid() && pool == old(pool).(broken := old(pool).broken[slot := now + BROKEN_FOR])
    {
      broken := broken[slot := now + BROKEN_FOR];
      pool := pool.(broken := pool.broken[slot := now + BROKEN_FOR]);
      forall k <- byKey ensures KeyEntryOk(k) {
        assert old(KeyEntryOk(k));
      }
    }

    /** The port is listening again and no longer on its grace period. */
    method Reactivate(b: PortBinding)
      requires Valid() && b.key in byKey && byKey[b.key] == b
      modifies this`pool, b`until, b`listening
      ensures Valid()
      ensures
        var k := b.key;
        && k in old(pool).bindings
        && pool == old(pool).(bindings := old(pool).bindings[k := old(pool).bindings[k].(until := None)])
    {
      var k := b.key;
      assert KeyEntryOk(k);
      b.until, b.listening := None, true;
      pool := pool.(bindings := pool.bindings[k := pool.bindings[k].(until := None)]);
      forall j <- byKey ensures KeyEntryOk(j) {
        assert old(KeyEntryOk(j));
      }
    }

    /** assign's two attempts for a side port without a binding: the preferred
        port, then the pool from its least port. */
    method AllocatePort(k: Key, owner: Name, preferred: int, env: Env) returns (b: PortBinding?)
      requires Valid() && k !in byKey
      modifies this
      ensures Valid()
      ensures (pool, if b == null then None else Some(b.public)) == Allocate(cfg, old(pool), k, owner, preferred, env)
      ensures b == null ==> byKey == old(byKey)
      ensures b != null ==> fresh(b) && byKey == old(byKey)[k := b]
    {
      b := TryPort(k, owner, preferred, env);
      if b != null { return; }
      ghost var start := pool;
      var port := cfg.minPort;
      while port <= cfg.maxPort
        invariant Valid() && b == null && byKey == old(byKey)
        invariant Scan(cfg, start, k, owner, cfg.minPort, env) == Scan(cfg, pool, k, owner, port, env)
      {
        b := TryPort(k, owner, port, env);
        if b != null { return; }
        port := port + 1;
      }
    }

    /** assign: the pool and the answer are exactly PortPool.Assign's; the binding
        returned is the one both indexes hold for k. */
    method AssignPort(k: Key, owner: Name, preferred: int, env: Env) returns (b: PortBinding?)
      requires Valid()
      modifies this, byKey.Values
      ensures Valid()
      ensures (pool, if b == null then None else Some(b.public)) == Assign(cfg, old(pool), k, owner, preferred, env)
      ensures b != null ==> k in byKey && byKey[k] == b
      ensures fresh(byKey.Values - old(byKey.Values))
    {
      if k in byKey {
        b := byKey[k];
        assert KeyEntryOk(k);
        if b.owner == owner && (b.until == None || env.reopen(k)) {
          Reactivate(b);
          return;
        }
        DropBinding(b);
      } else {
        assert Drop(pool, k) == pool;
      }
      b := AllocatePort(k, owner, preferred, env);
    }

    /** release: the listener closes; the port stays reserved for the grace
        period, and a second release does not extend it. */
    method ReleaseBinding(b: PortBinding, now: int)
      requires Valid() && b.key in byKey && byKey[b.key] == b
      modifies this`pool, b
      ensures Valid() && !b.listening
      ensures
        var k := b.key;
        && k in old(pool).bindings
        && pool == old(pool).(bindings := old(pool).bindings[k := ReleaseOne(cfg, old(pool).bindings[k], now)])
    {
      var k := b.key;
      assert KeyEntryOk(k);
      pool := pool.(bindings := pool.bindings[k := ReleaseOne(cfg, pool.bindings[k], now)]);
      if b.until == None {
        b.until, b.listening := Some(now + cfg.grace), false;
      }
      forall j <- byKey ensures KeyEntryOk(j) {
        assert old(KeyEntryOk(j));
      }
    }

    /** The release loop of Sync and Release over the server's bindings. */
    method ReleaseServer(id: Name, kept: set<Key>, now: int)
      requires Valid()
      modifies this`pool, byKey.Values
      ensures Valid()
      ensures pool == ReleaseWhere(cfg, old(pool), OfServer(old(pool), id, kept), now)
    {
      ghost var start := pool;
      var rest := byKey.Keys;
      NothingReleased(start, id, kept, now);
      while rest != {}
        invariant Valid() && rest <= byKey.Keys
        invariant pool == ReleaseWhere(cfg, start, OfServer(start, id, kept + rest), now)
      {
        var k :| k in rest;
        KeptMinusOne(start, id, kept, rest, k);
        if k.server == id && k !in kept {
          ReleaseNext(start, OfServer(start, id, kept + rest), k, now);
        }
        rest := rest - {k};
      }
      assert kept + rest == kept;
    }

    lemma NothingReleased(start: Pool, id: Name, kept: set<Key>, now: int)
      ensures ReleaseWhere(cfg, start, OfServer(start, id, kept + start.bindings.Keys), now) == start
    {
      var after := ReleaseWhere(cfg, start, OfServer(start, id, kept + start.bindings.Keys), now);
      assert after.bindings == start.bindings;
    }

    lemma KeptMinusOne(start: Pool, id: Name, kept: set<Key>, rest: set<Key>, k: Key)
      requires k in rest && k in start.bindings
      ensures OfServer(start, id, kept + (rest - {k})) ==
        if k.server == id && k !in kept then OfServer(start, id, kept + rest) + {k}
        else OfServer(start, id, kept + rest)
    {
    }

    /** One round of that loop. */
    method ReleaseNext(ghost start: Pool, ghost done: set<Key>, k: Key, now: int)
      requires Valid() && k in byKey && k !in done && pool == ReleaseWhere(cfg, start, done, now)
      modifies this`pool, byKey[k]
      ensures Valid() && pool == ReleaseWhere(cfg, start, done + {k}, now)
    {
      assert KeyEntryOk(k);
      ReleaseOneMore(start, done, k, now);
      ReleaseBinding(byKey[k], now);
    }

    lemma ReleaseOneMore(start: Pool, done: set<Key>, k: Key, now: int)
      requires k in start.bindings && k !in done
      ensures
        var before := ReleaseWhere(cfg, start, done, now);
        && k in before.bindings
        && ReleaseWhere(cfg, start, done + {k}, now)
           == before.(bindings := before.bindings[k := ReleaseOne(cfg, before.bindings[k], now)])
    {
      var before, after := ReleaseWhere(cfg, start, done, now), ReleaseWhere(cfg, start, done + {k}, now);
      assert after.bindings == before.bindings[k := ReleaseOne(cfg, before.bindings[k], now)];
    }

    /** Release of an unregistered server. */
    method ReleasePorts(id: Name, now: int)
      requires Valid()
      modifies this`pool, byKey.Values
      ensures Valid() && pool == Release(cfg, old(pool), id, now)
    {
      ReleaseServer(id, {}, now);
    }

    /** b.backend.Store, on the binding just assigned. */
    method StoreBackend(b: PortBinding, port: int)
      requires Valid() && b.key in byKey && byKey[b.key] == b
      modifies this`pool, b`backend
      ensures Valid()
      ensures
        var k := b.key;
        && k in old(pool).bindings
        && pool == old(pool).(bindings := old(pool).bindings[k := old(pool).bindings[k].(backend := port)])
    {
      var k := b.key;
      assert KeyEntryOk(k);
      b.backend := port;
      pool := pool.(bindings := pool.bindings[k := pool.bindings[k].(backend := port)]);
      forall j <- byKey ensures KeyEntryOk(j) {
        assert old(KeyEntryOk(j));
      }
    }

    /** One round of Sync's loop. */
    method AnswerOne(id: Name, owner: Name, d: Decl, env: Env) returns (answer: Decl)
      requires Valid()
      modifies this, byKey.Values
      ensures Valid() && (pool, answer) == Answer(cfg, old(pool), id, owner, d, env)
      ensures fresh(byKey.Values - old(byKey.Values))
    {
      if !Enabled(cfg) {
        return d.(error := Disabled);
      }
      var k := KeyOf(id, d);
      var b := AssignPort(k, owner, d.preferred, env);
      if b == null {
        answer := d.(error := NoPort);
      } else {
        assert KeyEntryOk(k);
        StoreBackend(b, d.port);
        answer := d.(public := Some(b.public));
      }
    }

    /** Sync: the pool and the answers are exactly PortPool.Sync's. */
    method SyncPorts(id: Name, owner: Name, decls: seq<Decl>, env: Env) returns (out: seq<Decl>)
      requires Valid()
      modifies this, byKey.Values
      ensures Valid() && (pool, out) == Sync(cfg, old(pool), id, owner, decls, env)
    {
      out := [];
      var wanted: set<Key> := {};
      for i := 0 to |decls|
        invariant Valid() && fresh(byKey.Values - old(byKey.Values))
        invariant (pool, out) == SyncLoop(cfg, old(pool), id, owner, decls, env, i)
        invariant wanted == set j | 0 <= j < i :: KeyOf(id, decls[j])
      {
        wanted := wanted + {KeyOf(id, decls[i])};
        var answer := AnswerOne(id, owner, decls[i], env);
        out := out + [answer];
      }
      ReleaseServer(id, wanted, env.now);
    }

    /** The pool inside sweep's first loop: only the keys outside `rest` are done. */
    ghost function SweptExcept(start: Pool, rest: set<Key>, now: int, alive: (Key, Name) -> bool): Pool {
      start.(bindings := map k | k in start.bindings && (k in rest || !Expired(start.bindings[k], now)) ::
        if k in rest then start.bindings[k] else Swept(cfg, k, start.bindings[k], now, alive))
    }

    lemma SweepOneMore(start: Pool, rest: set<Key>, now: int, alive: (Key, Name) -> bool, k: Key)
      requires k in rest && k in start.bindings
      ensures
        var before, after := SweptExcept(start, rest, now, alive), SweptExcept(start, rest - {k}, now, alive);
        && k in before.bindings && before.bindings[k] == start.bindings[k]
        && after == if Expired(start.bindings[k], now) then Drop(before, k)
                    else before.(bindings := before.bindings[k := Swept(cfg, k, start.bindings[k], now, alive)])
    {
      var before, after := SweptExcept(start, rest, now, alive), SweptExcept(start, rest - {k}, now, alive);
      if Expired(start.bindings[k], now) {
        assert after.bindings == before.bindings - {k};
      } else {
        assert after.bindings == before.bindings[k := Swept(cfg, k, start.bindings[k], now, alive)];
      }
    }

    lemma SweepStartsAndEnds(start: Pool, now: int, alive: (Key, Name) -> bool)
      ensures SweptExcept(start, start.bindings.Keys, now, alive) == start
      ensures SweptExcept(start, {}, now, alive).bindings == Sweep(cfg, start, now, alive).bindings
    {
      assert SweptExcept(start, start.bindings.Keys, now, alive).bindings == start.bindings;
    }

    /** What sweep does to one binding. */
    method SweepBinding(k: Key, now: int, alive: (Key, Name) -> bool)
      requires Valid() && k in byKey
      modifies this`byKey, this`byPort, this`pool, byKey[k]
      ensures Valid() && byKey.Keys <= old(byKey).Keys && byKey.Values <= old(byKey).Values
      ensures byKey.Keys + {k} == old(byKey).Keys
      ensures k in old(pool).bindings
      ensures var b := old(pool).bindings[k];
        pool
        == if Expired(b, now) then Drop(old(pool), k)
           else old(pool).(bindings := old(pool).bindings[k := Swept(cfg, k, b, now, alive)])
    {
      var b := byKey[k];
      assert KeyEntryOk(k);
      if b.until.Some? {
        if now > b.until.value { DropBinding(b); }
      } else if !alive(k, b.owner) {
        ReleaseBinding(b, now);
      }
      assert old(pool).bindings[k := old(pool).bindings[k]] == old(pool).bindings;
    }

    /** sweep: the pool afterwards is exactly PortPool.Sweep's. */
    method SweepPorts(now: int, alive: (Key, Name) -> bool)
      requires Valid()
      modifies this, byKey.Values
      ensures Valid() && pool == Sweep(cfg, old(pool), now, alive)
    {
      ghost var start := pool;
      var rest := byKey.Keys;
      SweepStartsAndEnds(start, now, alive);
      while rest != {}
        modifies this`byKey, this`byPort, this`pool, byKey.Values
        invariant Valid() && rest <= byKey.Keys && byKey.Values <= old(byKey).Values
        invariant pool == SweptExcept(start, rest, now, alive)
      {
        var k :| k in rest;
        SweepOneMore(start, rest, now, alive, k);
        SweepBinding(k, now, alive);
        rest := rest - {k};
      }
      SweepMarks(now);
    }

    /** The end of Run: every binding is dropped, and every listener closed. */
    method ShutdownPorts()
      requires Valid()
      modifies this, byKey.Values
      ensures Valid() && byKey == map[] && byPort == map[] && pool == old(pool).(bindings := map[])
      ensures forall k <- old(byKey) :: !old(byKey)[k].listening
    {
      while byKey != map[]
        modifies this`byKey, this`byPort, this`pool, byKey.Values
        invariant Valid() && byKey.Keys <= old(byKey).Keys && forall k <- byKey :: byKey[k] == old(byKey)[k]
        invariant forall k <- old(byKey) :: k in byKey || !old(byKey)[k].listening
        invariant pool.broken == old(pool).broken
        decreases byKey.Keys
      {
        var k :| k in byKey;
        DropAny(k);
      }
      assert byPort == map[];
    }

    /** One round of that loop. */
    method DropAny(k: Key)
      requires Valid() && k in byKey
      modifies this`byKey, this`byPort, this`pool, byKey[k]
      ensures Valid() && pool == Drop(old(pool), k)
      ensures byKey == old(byKey) - {k} && !old(byKey)[k].listening
    {
      assert KeyEntryOk(k);
      DropBinding(byKey[k]);
    }

    /** sweep's second loop, over the marks. */
    method SweepMarks(now: int)
      requires Valid()
      modifies this`broken, this`pool
      ensures Valid()
      ensures
        var broken := old(pool).broken;
        pool == old(pool).(broken := map slot | slot in broken && now <= broken[slot] :: broken[slot])
    {
      var rest := broken.Keys;
      ghost var start := broken;
      while rest != {}
        modifies this`broken
        invariant rest <= broken.Keys
        invariant broken == map slot | slot in start && (slot in rest || now <= start[slot]) :: start[slot]
      {
        var slot :| slot in rest;
        if now > broken[slot] { broken := broken - {slot}; }
        rest := rest - {slot};
      }
      pool := pool.(broken := broken);
      forall k <- byKey ensures KeyEntryOk(k) {
        assert old(KeyEntryOk(k));
      }
    }
  }
}
