/** What the side-port allocator keeps over whole runs. */
module PortPoolSafety {
  import opened Prelude
  import opened PortPool

  // ---------------------------------------------------------------- one assignment

  /** An assignment touches no other side port's binding. */
  lemma AssignFrame(cfg: Config, pool: Pool, k: Key, owner: Name, preferred: int, env: Env)
    ensures
      var (after, port) := Assign(cfg, pool, k, owner, preferred, env);
      && after.bindings - {k} == pool.bindings - {k}
      && (port.Some? ==>
          k in after.bindings
          && (var b := after.bindings[k]; b.public == port.value && b.owner == owner && b.until == None))
      && (port.None? ==> k !in after.bindings)
  {
    if !Reusable(pool, k, owner, env) {
      AllocationIsComplete(cfg, Drop(pool, k), k, owner, preferred, env);
    }
  }

  lemma AssignKeepsWellFormed(cfg: Config, pool: Pool, k: Key, owner: Name, preferred: int, env: Env)
    requires WellFormed(cfg, pool)
    ensures WellFormed(cfg, Assign(cfg, pool, k, owner, preferred, env).0)
  {
    if !Reusable(pool, k, owner, env) {
      var dropped := Drop(pool, k);
      AllocationIsComplete(cfg, dropped, k, owner, preferred, env);
      var (after, port) := Allocate(cfg, dropped, k, owner, preferred, env);
      if port.Some? {
        forall j | j in after.bindings && j != k
          ensures SlotOf(j, after.bindings[j]) != SlotOf(k, after.bindings[k])
        {
          assert j in dropped.bindings && !Occupied(dropped, Slot(k.proto, port.value));
        }
      }
    }
  }

  /** Once every port of a protocol is taken, no assignment changes that. */
  lemma AssignKeepsTaken(cfg: Config, pool: Pool, k: Key, owner: Name, preferred: int, env: Env, proto: Proto)
    requires AllTaken(cfg, pool, proto, env.now)
    ensures AllTaken(cfg, Assign(cfg, pool, k, owner, preferred, env).0, proto, env.now)
  {
    var after := Assign(cfg, pool, k, owner, preferred, env).0;
    if Reusable(pool, k, owner, env) {
      forall port | InPool(cfg, port)
        ensures Occupied(after, Slot(proto, port)) || Blocked(after, Slot(proto, port), env.now)
      {
        if Occupied(pool, Slot(proto, port)) {
          var j :| j in pool.bindings && SlotOf(j, pool.bindings[j]) == Slot(proto, port);
          assert SlotOf(j, after.bindings[j]) == Slot(proto, port);
        }
      }
    } else {
      AllocateKeepsTaken(cfg, pool, k, owner, preferred, env, proto);
    }
  }

  lemma AllocateKeepsTaken(cfg: Config, pool: Pool, k: Key, owner: Name, preferred: int, env: Env, proto: Proto)
    requires AllTaken(cfg, pool, proto, env.now)
    ensures AllTaken(cfg, Allocate(cfg, Drop(pool, k), k, owner, preferred, env).0, proto, env.now)
  {
    var dropped := Drop(pool, k);
    var (after, got) := Allocate(cfg, dropped, k, owner, preferred, env);
    AllocationIsComplete(cfg, dropped, k, owner, preferred, env);
    forall port | InPool(cfg, port)
      ensures Occupied(after, Slot(proto, port)) || Blocked(after, Slot(proto, port), env.now)
    {
      var slot := Slot(proto, port);
      if Occupied(pool, slot) {
        var j :| j in pool.bindings && SlotOf(j, pool.bindings[j]) == slot;
        if j != k {
          assert SlotOf(j, after.bindings[j]) == slot;
        } else if got.Some? {
          // only the port k just gave up can be free, so k got it back
          OnlyFreedIsUsable(cfg, pool, k, got.value, env);
          assert SlotOf(k, after.bindings[k]) == Slot(k.proto, got.value);
        }
      } else if got.Some? {
        assert Blocked(dropped, slot, env.now);
        assert after.broken[slot] >= dropped.broken[slot];
      }
    }
  }

  lemma OnlyFreedIsUsable(cfg: Config, pool: Pool, k: Key, port: int, env: Env)
    requires AllTaken(cfg, pool, k.proto, env.now) && Usable(cfg, Drop(pool, k), k.proto, port, env)
    ensures k in pool.bindings && pool.bindings[k].public == port
  {
    var slot := Slot(k.proto, port);
    assert Occupied(pool, slot);
    var j :| j in pool.bindings && SlotOf(j, pool.bindings[j]) == slot;
    var others := Drop(pool, k).bindings;
    forall i | i in others ensures SlotOf(i, pool.bindings[i]) != slot {
      assert SlotOf(i, others[i]) == SlotOf(i, pool.bindings[i]);
    }
    assert j == k || j in others;
  }

  /** With every port taken and no binding of its own, an assignment does nothing. */
  lemma AssignWhenTaken(cfg: Config, pool: Pool, k: Key, owner: Name, preferred: int, env: Env)
    requires k !in pool.bindings && AllTaken(cfg, pool, k.proto, env.now)
    ensures Assign(cfg, pool, k, owner, preferred, env) == (pool, None)
  {
    assert Drop(pool, k) == pool;
    ScanWhenTaken(cfg, pool, k, owner, cfg.minPort, env);
  }

  lemma {:induction false} ScanWhenTaken(cfg: Config, pool: Pool, k: Key, owner: Name, from: int, env: Env)
    requires AllTaken(cfg, pool, k.proto, env.now)
    ensures Scan(cfg, pool, k, owner, from, env) == (pool, None)
    decreases cfg.maxPort - from
  {
    if from <= cfg.maxPort { ScanWhenTaken(cfg, pool, k, owner, from + 1, env); }
  }

  // ---------------------------------------------------------------- one Sync

  /** What registration checks before Sync: names are distinct, and the answers
      are empty (internal/registry/registry.go, validateSidePorts). */
  ghost predicate Validated(decls: seq<Decl>) {
    && (forall i, j :: 0 <= i < j < |decls| ==> decls[i].name != decls[j].name)
    && (forall d <- decls :: d.public == None && d.error == NoError)
  }

  /** After Sync handled it, a declaration is either answered by an active
      binding or has none because every port of its protocol is taken. */
  ghost predicate Settled(cfg: Config, pool: Pool, id: Name, owner: Name, d: Decl, answer: Decl, now: int) {
    var k := KeyOf(id, d);
    match answer.public
    case Some(port) => answer == d.(public := Some(port)) && k in pool.bindings
      && pool.bindings[k] == Binding(owner, port, d.port, None)
    case None => answer == d.(error := NoPort) && k !in pool.bindings && AllTaken(cfg, pool, d.proto, now)
  }

  lemma SettledStays(cfg: Config, pool: Pool, after: Pool, id: Name, owner: Name, d: Decl, answer: Decl, now: int,
                     k: Key)
    requires Settled(cfg, pool, id, owner, d, answer, now) && k != KeyOf(id, d)
    requires after.bindings - {k} == pool.bindings - {k}
    requires AllTaken(cfg, pool, d.proto, now) ==> AllTaken(cfg, after, d.proto, now)
    ensures Settled(cfg, after, id, owner, d, answer, now)
  {
    var j := KeyOf(id, d);
    assert j in pool.bindings <==> j in pool.bindings - {k};
    assert j in after.bindings <==> j in after.bindings - {k};
  }

  lemma {:induction false} SyncLoopFacts(cfg: Config, pool: Pool, id: Name, owner: Name, decls: seq<Decl>, env: Env,
                                         n: nat)
    requires Enabled(cfg) && WellFormed(cfg, pool) && Validated(decls) && n <= |decls|
    ensures
      var (after, out) := SyncLoop(cfg, pool, id, owner, decls, env, n);
      && WellFormed(cfg, after)
      && (forall i :: 0 <= i < n ==> Settled(cfg, after, id, owner, decls[i], out[i], env.now))
      && after.bindings - Wanted(id, decls[..n]) == pool.bindings - Wanted(id, decls[..n])
  {
    if n > 0 {
      SyncLoopFacts(cfg, pool, id, owner, decls, env, n - 1);
      var (pool1, out1) := SyncLoop(cfg, pool, id, owner, decls, env, n - 1);
      var (after, out) := SyncLoop(cfg, pool, id, owner, decls, env, n);
      var d := decls[n - 1];
      SyncOne(cfg, pool1, id, owner, d, env);
      forall i | 0 <= i < n ensures Settled(cfg, after, id, owner, decls[i], out[i], env.now) {
        if i < n - 1 {
          assert Settled(cfg, pool1, id, owner, decls[i], out1[i], env.now);
          SettledStays(cfg, pool1, after, id, owner, decls[i], out1[i], env.now, KeyOf(id, d));
        }
      }
      WantedOneMore(id, decls, n);
      UnchangedOutside(pool.bindings, pool1.bindings, after.bindings, Wanted(id, decls[..n - 1]), KeyOf(id, d));
    }
  }

  lemma WantedOneMore(id: Name, decls: seq<Decl>, n: nat)
    requires 0 < n <= |decls|
    ensures Wanted(id, decls[..n]) == Wanted(id, decls[..n - 1]) + {KeyOf(id, decls[n - 1])}
  {
    var all, some := decls[..n], decls[..n - 1];
    forall k | k in Wanted(id, some) + {KeyOf(id, decls[n - 1])} ensures k in Wanted(id, all) {
      if k in Wanted(id, some) {
        var i :| 0 <= i < |some| && k == KeyOf(id, some[i]);
        assert k == KeyOf(id, all[i]);
      } else {
        assert k == KeyOf(id, all[n - 1]);
      }
    }
    forall k | k in Wanted(id, all) ensures k in Wanted(id, some) + {KeyOf(id, decls[n - 1])} {
      var i :| 0 <= i < |all| && k == KeyOf(id, all[i]);
      if i < n - 1 { assert k == KeyOf(id, some[i]); }
    }
  }

  lemma UnchangedOutside<K, V>(a: map<K, V>, b: map<K, V>, c: map<K, V>, keys: set<K>, k: K)
    requires b - keys == a - keys && c - {k} == b - {k}
    ensures c - (keys + {k}) == a - (keys + {k})
  {
    assert c - (keys + {k}) == c - {k} - keys == b - keys - {k} == a - (keys + {k});
  }

  lemma SyncOne(cfg: Config, pool: Pool, id: Name, owner: Name, d: Decl, env: Env)
    requires Enabled(cfg) && WellFormed(cfg, pool) && d.public == None && d.error == NoError
    ensures
      var (after, answer) := Answer(cfg, pool, id, owner, d, env);
      && WellFormed(cfg, after)
      && Settled(cfg, after, id, owner, d, answer, env.now)
      && after.bindings - {KeyOf(id, d)} == pool.bindings - {KeyOf(id, d)}
      && (forall proto :: AllTaken(cfg, pool, proto, env.now) ==> AllTaken(cfg, after, proto, env.now))
  {
    var k := KeyOf(id, d);
    var (pool2, port) := Assign(cfg, pool, k, owner, d.preferred, env);
    var (after, answer) := Answer(cfg, pool, id, owner, d, env);
    AssignFrame(cfg, pool, k, owner, d.preferred, env);
    AssignKeepsWellFormed(cfg, pool, k, owner, d.preferred, env);
    SameOccupied(pool2, after);
    forall proto | AllTaken(cfg, pool, proto, env.now) ensures AllTaken(cfg, after, proto, env.now) {
      AssignKeepsTaken(cfg, pool, k, owner, d.preferred, env, proto);
    }
    if port.None? { AllocationIsComplete(cfg, Drop(pool, k), k, owner, d.preferred, env); }
  }

  lemma SameOccupied(a: Pool, b: Pool)
    requires a.bindings.Keys == b.bindings.Keys
    requires forall k <- a.bindings :: a.bindings[k].public == b.bindings[k].public
    ensures forall slot :: Occupied(a, slot) == Occupied(b, slot)
  {
    forall slot ensures Occupied(a, slot) == Occupied(b, slot) {
      if Occupied(a, slot) {
        var k :| k in a.bindings && SlotOf(k, a.bindings[k]) == slot;
        assert SlotOf(k, b.bindings[k]) == slot;
      }
      if Occupied(b, slot) {
        var k :| k in b.bindings && SlotOf(k, b.bindings[k]) == slot;
        assert SlotOf(k, a.bindings[k]) == slot;
      }
    }
  }

  lemma ReleaseKeepsSlots(cfg: Config, pool: Pool, which: set<Key>, now: int)
    ensures
      var after := ReleaseWhere(cfg, pool, which, now);
      && (WellFormed(cfg, pool) ==> WellFormed(cfg, after))
      && (forall slot :: Occupied(after, slot) == Occupied(pool, slot))
  {
    SameOccupied(pool, ReleaseWhere(cfg, pool, which, now));
  }

  predicate Active(pool: Pool, k: Key) {
    k in pool.bindings && pool.bindings[k].until == None
  }

  lemma WantedHas(id: Name, decls: seq<Decl>, i: nat)
    requires i < |decls|
    ensures KeyOf(id, decls[i]) in Wanted(id, decls)
  {
  }

  /** Without a pool the loop only answers. */
  lemma {:induction false} LoopWhenDisabled(cfg: Config, pool: Pool, id: Name, owner: Name, decls: seq<Decl>, env: Env,
                                            n: nat)
    requires !Enabled(cfg) && n <= |decls|
    ensures
      var (after, out) := SyncLoop(cfg, pool, id, owner, decls, env, n);
      after == pool && forall i :: 0 <= i < n ==> out[i] == decls[i].(error := Disabled)
  {
    if n > 0 { LoopWhenDisabled(cfg, pool, id, owner, decls, env, n - 1); }
  }

  /** What the loop does to the pool, with a pool or without one. */
  lemma LoopFrame(cfg: Config, pool: Pool, id: Name, owner: Name, decls: seq<Decl>, env: Env)
    requires WellFormed(cfg, pool) && Validated(decls)
    ensures
      var after := SyncLoop(cfg, pool, id, owner, decls, env, |decls|).0;
      WellFormed(cfg, after) && after.bindings - Wanted(id, decls) == pool.bindings - Wanted(id, decls)
  {
    assert decls[..|decls|] == decls;
    if Enabled(cfg) {
      SyncLoopFacts(cfg, pool, id, owner, decls, env, |decls|);
    } else {
      LoopWhenDisabled(cfg, pool, id, owner, decls, env, |decls|);
    }
  }

  lemma SyncAnswers(cfg: Config, pool: Pool, id: Name, owner: Name, decls: seq<Decl>, env: Env)
    requires WellFormed(cfg, pool) && Validated(decls)
    ensures
      var (after, out) := Sync(cfg, pool, id, owner, decls, env);
      && (Enabled(cfg) ==> forall i :: 0 <= i < |out| ==> Settled(cfg, after, id, owner, decls[i], out[i], env.now))
      && (!Enabled(cfg) ==> forall i :: 0 <= i < |out| ==> out[i] == decls[i].(error := Disabled))
      && (forall i :: 0 <= i < |out| ==> (out[i].public.Some? <==> out[i].error == NoError))
  {
    var n := |decls|;
    var (pool1, out) := SyncLoop(cfg, pool, id, owner, decls, env, n);
    var after := Sync(cfg, pool, id, owner, decls, env).0;
    if Enabled(cfg) {
      SyncLoopFacts(cfg, pool, id, owner, decls, env, n);
      ReleaseKeepsSlots(cfg, pool1, OfServer(pool1, id, Wanted(id, decls)), env.now);
      forall i | 0 <= i < n ensures Settled(cfg, after, id, owner, decls[i], out[i], env.now) && decls[i] in decls {
        WantedHas(id, decls, i);
        assert Settled(cfg, pool1, id, owner, decls[i], out[i], env.now);
      }
    } else {
      LoopWhenDisabled(cfg, pool, id, owner, decls, env, n);
      assert forall i :: 0 <= i < n ==> decls[i] in decls;
    }
  }

  /** Sync gives every declared side port exactly one of an address and an error;
      the addresses are active bindings of this owner, distinct per protocol;
      an error means that every port of the protocol is taken, or that there is no
      pool. Ports the server no longer declares stay reserved, and other servers
      are not touched. */
  lemma SyncTheorem(cfg: Config, pool: Pool, id: Name, owner: Name, decls: seq<Decl>, env: Env)
    requires WellFormed(cfg, pool) && Validated(decls)
    ensures
      var (after, out) := Sync(cfg, pool, id, owner, decls, env);
      && WellFormed(cfg, after)
      && |out| == |decls|
      && (Enabled(cfg) ==> forall i :: 0 <= i < |out| ==> Settled(cfg, after, id, owner, decls[i], out[i], env.now))
      && (!Enabled(cfg) ==> forall i :: 0 <= i < |out| ==> out[i] == decls[i].(error := Disabled))
      && (forall i :: 0 <= i < |out| ==> (out[i].public.Some? <==> out[i].error == NoError))
      && (forall i, j :: 0 <= i < j < |out| && out[i].proto == out[j].proto && out[i].public.Some? ==>
          out[i].public != out[j].public)
      && (forall k <- pool.bindings :: k !in Wanted(id, decls) ==>
            k in after.bindings && after.bindings[k].public == pool.bindings[k].public
            && after.bindings[k].owner == pool.bindings[k].owner)
      && (forall k <- pool.bindings :: k.server != id ==> k in after.bindings && after.bindings[k] == pool.bindings[k])
      && (forall k: Key :: Active(after, k) && k.server == id ==>
            k in Wanted(id, decls) && (!Enabled(cfg) ==> Active(pool, k)))
  {
    SyncAnswers(cfg, pool, id, owner, decls, env);
    LoopFrame(cfg, pool, id, owner, decls, env);
    var (pool1, out) := SyncLoop(cfg, pool, id, owner, decls, env, |decls|);
    if !Enabled(cfg) { LoopWhenDisabled(cfg, pool, id, owner, decls, env, |decls|); }
    var after := Sync(cfg, pool, id, owner, decls, env).0;
    ReleaseKeepsSlots(cfg, pool1, OfServer(pool1, id, Wanted(id, decls)), env.now);
    forall i, j | 0 <= i < j < |decls| && out[i].proto == out[j].proto && out[i].public.Some?
      ensures out[i].public != out[j].public
    {
      if Enabled(cfg) {
        assert Settled(cfg, after, id, owner, decls[i], out[i], env.now)
          && Settled(cfg, after, id, owner, decls[j], out[j], env.now);
        var ki, kj := KeyOf(id, decls[i]), KeyOf(id, decls[j]);
        assert ki != kj;
        if out[j].public.Some? { assert SlotOf(ki, after.bindings[ki]) != SlotOf(kj, after.bindings[kj]); }
      }
    }
    forall k | k in pool.bindings && k !in Wanted(id, decls)
      ensures k in pool1.bindings && pool1.bindings[k] == pool.bindings[k]
    {
      assert k in pool.bindings - Wanted(id, decls);
    }
    forall k | k in pool.bindings && k.server != id ensures k !in Wanted(id, decls) {}
  }

  /** The gateway has no side ports exactly when its last port is not positive: every
      declaration is answered so then, and none otherwise. */
  lemma DisabledExactly(cfg: Config, pool: Pool, id: Name, owner: Name, decls: seq<Decl>, env: Env)
    requires WellFormed(cfg, pool) && Validated(decls)
    ensures
      var out := Sync(cfg, pool, id, owner, decls, env).1;
      forall i :: 0 <= i < |decls| ==> (out[i] == decls[i].(error := Disabled) <==> cfg.maxPort <= 0)
  {
    SyncTheorem(cfg, pool, id, owner, decls, env);
    var (after, out) := Sync(cfg, pool, id, owner, decls, env);
    forall i | 0 <= i < |decls| ensures out[i] == decls[i].(error := Disabled) <==> cfg.maxPort <= 0 {
      if Enabled(cfg) { assert Settled(cfg, after, id, owner, decls[i], out[i], env.now); }
    }
  }

  // ---------------------------------------------------------------- repeating a Sync

  lemma {:induction false} SettledLoopIsIdle(cfg: Config, pool: Pool, id: Name, owner: Name, decls: seq<Decl>,
                                             out: seq<Decl>, env: Env, n: nat)
    requires Enabled(cfg) && |out| == |decls| && n <= |decls|
    requires forall i :: 0 <= i < |decls| ==> Settled(cfg, pool, id, owner, decls[i], out[i], env.now)
    ensures SyncLoop(cfg, pool, id, owner, decls, env, n) == (pool, out[..n])
  {
    if n > 0 {
      SettledLoopIsIdle(cfg, pool, id, owner, decls, out, env, n - 1);
      var d, k := decls[n - 1], KeyOf(id, decls[n - 1]);
      assert Settled(cfg, pool, id, owner, d, out[n - 1], env.now);
      if k in pool.bindings {
        assert pool.bindings[k := pool.bindings[k]] == pool.bindings;
      } else {
        AssignWhenTaken(cfg, pool, k, owner, d.preferred, env);
      }
      assert out[..n] == out[..n - 1] + [out[n - 1]];
    }
  }

  lemma SettledSyncIsIdle(cfg: Config, after: Pool, id: Name, owner: Name, decls: seq<Decl>, out: seq<Decl>, again: Env)
    requires Enabled(cfg) && |out| == |decls|
    requires forall i :: 0 <= i < |decls| ==> Settled(cfg, after, id, owner, decls[i], out[i], again.now)
    requires forall k: Key :: Active(after, k) && k.server == id ==> k in Wanted(id, decls)
    ensures Sync(cfg, after, id, owner, decls, again) == (after, out)
  {
    SettledLoopIsIdle(cfg, after, id, owner, decls, out, again, |decls|);
    assert out[..|decls|] == out;
    var gone := OfServer(after, id, Wanted(id, decls));
    forall k | k in gone ensures ReleaseOne(cfg, after.bindings[k], again.now) == after.bindings[k] {
      assert !Active(after, k);
    }
    assert ReleaseWhere(cfg, after, gone, again.now).bindings == after.bindings;
  }

  /** Repeating a Sync at the same instant changes nothing at all, whatever the
      second call could open: same answers, same bindings, same marks. */
  lemma SyncTwice(cfg: Config, pool: Pool, id: Name, owner: Name, decls: seq<Decl>, env: Env, again: Env)
    requires Enabled(cfg) && WellFormed(cfg, pool) && Validated(decls) && again.now == env.now
    ensures
      var (after, out) := Sync(cfg, pool, id, owner, decls, env);
      Sync(cfg, after, id, owner, decls, again) == (after, out)
  {
    var (after, out) := Sync(cfg, pool, id, owner, decls, env);
    SyncTheorem(cfg, pool, id, owner, decls, env);
    SettledSyncIsIdle(cfg, after, id, owner, decls, out, again);
  }

  /** A Sync that answered every declaration with a port is repeated without any
      effect at any later time, whatever could be opened then: same answers, same
      bindings, same marks. */
  lemma AnsweredSyncIsIdle(cfg: Config, pool: Pool, id: Name, owner: Name, decls: seq<Decl>, env: Env, later: Env)
    requires Enabled(cfg) && WellFormed(cfg, pool) && Validated(decls)
    requires forall answer <- Sync(cfg, pool, id, owner, decls, env).1 :: answer.public.Some?
    ensures
      var (after, out) := Sync(cfg, pool, id, owner, decls, env);
      Sync(cfg, after, id, owner, decls, later) == (after, out)
  {
    var (after, out) := Sync(cfg, pool, id, owner, decls, env);
    SyncTheorem(cfg, pool, id, owner, decls, env);
    forall i | 0 <= i < |decls| ensures Settled(cfg, after, id, owner, decls[i], out[i], later.now) {
      assert Settled(cfg, after, id, owner, decls[i], out[i], env.now) && out[i] in out;
    }
    SettledSyncIsIdle(cfg, after, id, owner, decls, out, later);
  }

  // ---------------------------------------------------------------- runs

  /** One call of the manager. */
  datatype Event =
    | SyncE(id: Name, owner: Name, decls: seq<Decl>, env: Env)
    | ReleaseE(id: Name, now: int)
    | SweepE(now: int, alive: (Key, Name) -> bool)
    | ShutdownE

  ghost function Step(cfg: Config, pool: Pool, e: Event): Pool {
    match e
    case SyncE(id, owner, decls, env) => Sync(cfg, pool, id, owner, decls, env).0
    case ReleaseE(id, now) => Release(cfg, pool, id, now)
    case SweepE(now, alive) => Sweep(cfg, pool, now, alive)
    case ShutdownE => pool.(bindings := map[])
  }

  ghost function Run(cfg: Config, pool: Pool, events: seq<Event>): Pool {
    if events == [] then pool else Step(cfg, Run(cfg, pool, events[..|events| - 1]), events[|events| - 1])
  }

  /** Declarations reach Sync only after registration validated them. */
  ghost predicate Legal(e: Event) {
    e.SyncE? ==> Validated(e.decls)
  }

  lemma StepKeepsWellFormed(cfg: Config, pool: Pool, e: Event)
    requires WellFormed(cfg, pool) && Legal(e)
    ensures WellFormed(cfg, Step(cfg, pool, e))
  {
    match e
    case SyncE(id, owner, decls, env) => SyncTheorem(cfg, pool, id, owner, decls, env);
    case ReleaseE(id, now) => ReleaseKeepsSlots(cfg, pool, OfServer(pool, id, {}), now);
    case SweepE(now, alive) =>
      var after := Sweep(cfg, pool, now, alive);
      assert forall k <- after.bindings :: SlotOf(k, after.bindings[k]) == SlotOf(k, pool.bindings[k]);
    case ShutdownE =>
  }

  /** Release takes effect at once, and on nothing else: no port of the server is
      active any more, each that was is reserved for the grace period from now on,
      and every other binding, one already released included, is what it was. */
  lemma ReleaseTheorem(cfg: Config, pool: Pool, id: Name, now: int)
    ensures
      var after := Step(cfg, pool, ReleaseE(id, now));
      && after.broken == pool.broken && after.bindings.Keys == pool.bindings.Keys
      && (forall k: Key :: Active(after, k) <==> Active(pool, k) && k.server != id)
      && (forall k <- pool.bindings ::
            after.bindings[k]
            == if Active(pool, k) && k.server == id then pool.bindings[k].(until := Some(now + cfg.grace))
               else pool.bindings[k])
  {
    var after := Step(cfg, pool, ReleaseE(id, now));
    forall k <- pool.bindings
      ensures
        after.bindings[k]
        == if Active(pool, k) && k.server == id then pool.bindings[k].(until := Some(now + cfg.grace))
           else pool.bindings[k]
    {
      assert k in after.bindings;
    }
  }

  /** So does Sync with the ports that its server no longer declares. */
  lemma SyncReleases(cfg: Config, pool: Pool, id: Name, owner: Name, decls: seq<Decl>, env: Env)
    requires WellFormed(cfg, pool) && Validated(decls)
    ensures
      var after := Step(cfg, pool, SyncE(id, owner, decls, env));
      forall k <- pool.bindings :: k !in Wanted(id, decls) ==>
        && k in after.bindings
        && after.bindings[k]
           == if Active(pool, k) && k.server == id then pool.bindings[k].(until := Some(env.now + cfg.grace))
              else pool.bindings[k]
  {
    LoopFrame(cfg, pool, id, owner, decls, env);
    var looped := SyncLoop(cfg, pool, id, owner, decls, env, |decls|).0;
    forall k <- pool.bindings | k !in Wanted(id, decls)
      ensures k in looped.bindings && looped.bindings[k] == pool.bindings[k]
    {
      assert k in pool.bindings - Wanted(id, decls);
    }
  }

  /** After the shutdown no slot is taken. */
  lemma ShutdownFreesAll(cfg: Config, pool: Pool)
    ensures forall slot :: !Occupied(Step(cfg, pool, ShutdownE), slot)
  {
  }

  /** Over every run no slot ever belongs to two side ports, and every assigned
      port is in the pool. */
  lemma {:induction false} RunsStayWellFormed(cfg: Config, events: seq<Event>)
    requires forall e <- events :: Legal(e)
    ensures WellFormed(cfg, Run(cfg, Pool(map[], map[]), events))
  {
    if events != [] {
      var before := events[..|events| - 1];
      RunsStayWellFormed(cfg, before);
      StepKeepsWellFormed(cfg, Run(cfg, Pool(map[], map[]), before), events[|events| - 1]);
    }
  }

  // ---------------------------------------------------------------- a side port keeps its port

  /** The call does not take k's port away: a Sync that declares k is by the same
      owner and, if the port is held, the listen succeeds; a sweep comes before the
      end of the grace period; the gateway does not shut down. */
  ghost predicate Spares(pool: Pool, e: Event, k: Key)
    requires k in pool.bindings
  {
    var b := pool.bindings[k];
    match e
    case SyncE(id, owner, decls, env) => k in Wanted(id, decls) ==>
      owner == b.owner && (b.until.Some? ==> env.reopen(k))
    case ReleaseE(_, _) => true
    case SweepE(now, _) => b.until.Some? ==> now <= b.until.value
    case ShutdownE => false
  }

  /** Every call of the run spares k in the state that it finds. */
  ghost predicate SparedRun(cfg: Config, pool: Pool, events: seq<Event>, k: Key) {
    events == [] ||
    var before := events[..|events| - 1];
    && SparedRun(cfg, pool, before, k) && k in Run(cfg, pool, before).bindings
    && Spares(Run(cfg, pool, before), events[|events| - 1], k)
  }

  /** k's port and owner stay; only whether it is held, and until when, may change. */
  ghost predicate SamePort(pool: Pool, after: Pool, k: Key)
    requires k in pool.bindings
  {
    && k in after.bindings
    && after.bindings[k].public == pool.bindings[k].public && after.bindings[k].owner == pool.bindings[k].owner
  }

  lemma {:induction false} LoopKeepsPort(cfg: Config, pool: Pool, id: Name, owner: Name, decls: seq<Decl>, env: Env,
                                         n: nat, k: Key)
    requires n <= |decls| && k in pool.bindings
    requires k in Wanted(id, decls) ==>
      owner == pool.bindings[k].owner && (pool.bindings[k].until.Some? ==> env.reopen(k))
    ensures
      var (after, out) := SyncLoop(cfg, pool, id, owner, decls, env, n);
      && SamePort(pool, after, k)
      && (after.bindings[k].until == None || after.bindings[k].until == pool.bindings[k].until)
      && (Enabled(cfg) ==> forall i :: 0 <= i < n && KeyOf(id, decls[i]) == k ==>
            out[i].public == Some(pool.bindings[k].public) && after.bindings[k].until == None)
  {
    if n > 0 {
      LoopKeepsPort(cfg, pool, id, owner, decls, env, n - 1, k);
      var pool1 := SyncLoop(cfg, pool, id, owner, decls, env, n - 1).0;
      var d, j := decls[n - 1], KeyOf(id, decls[n - 1]);
      if j != k {
        AssignFrame(cfg, pool1, j, owner, d.preferred, env);
        var pool2 := Assign(cfg, pool1, j, owner, d.preferred, env).0;
        assert (pool1.bindings - {j})[k] == pool1.bindings[k] && k in pool2.bindings - {j};
      } else {
        WantedHas(id, decls, n - 1);
      }
    }
  }

  function TimeOf(e: Event): int {
    match e
    case SyncE(_, _, _, env) => env.now
    case ReleaseE(_, now) => now
    case SweepE(now, _) => now
    case ShutdownE => 0
  }

  lemma StepKeepsPort(cfg: Config, pool: Pool, e: Event, k: Key)
    requires k in pool.bindings && Spares(pool, e, k)
    ensures
      var after := Step(cfg, pool, e);
      && SamePort(pool, after, k)
      && (after.bindings[k].until in {None, pool.bindings[k].until, Some(TimeOf(e) + cfg.grace)})
  {
    match e
    case SyncE(id, owner, decls, env) => LoopKeepsPort(cfg, pool, id, owner, decls, env, |decls|, k);
    case _ =>
  }

  /** A side port keeps its port and its owner through every run of calls that spare
      it: Syncs, releases and sweeps of all other servers, its own redeclarations
      and releases. Nobody else gets the slot meanwhile. */
  lemma {:induction false} PortIsStable(cfg: Config, pool: Pool, events: seq<Event>, k: Key)
    requires WellFormed(cfg, pool) && k in pool.bindings
    requires (forall e <- events :: Legal(e)) && SparedRun(cfg, pool, events, k)
    ensures
      var after := Run(cfg, pool, events);
      && WellFormed(cfg, after) && SamePort(pool, after, k)
      && (forall j <- after.bindings :: j != k ==> SlotOf(j, after.bindings[j]) != SlotOf(k, pool.bindings[k]))
  {
    if events != [] {
      var before := events[..|events| - 1];
      PortIsStable(cfg, pool, before, k);
      StepKeepsPort(cfg, Run(cfg, pool, before), events[|events| - 1], k);
      StepKeepsWellFormed(cfg, Run(cfg, pool, before), events[|events| - 1]);
    }
  }

  /** Declared again after such a run, by its owner and, if it is held, with a
      listen that succeeds, it is answered with that port. */
  lemma PortIsAnswered(cfg: Config, pool: Pool, events: seq<Event>, k: Key, decls: seq<Decl>, i: nat, env: Env)
    requires Enabled(cfg) && WellFormed(cfg, pool) && k in pool.bindings
    requires (forall e <- events :: Legal(e)) && SparedRun(cfg, pool, events, k)
    requires Validated(decls) && i < |decls| && KeyOf(k.server, decls[i]) == k
    requires Active(Run(cfg, pool, events), k) || env.reopen(k)
    ensures
      var b := pool.bindings[k];
      var (again, out) := Sync(cfg, Run(cfg, pool, events), k.server, b.owner, decls, env);
      && out[i].public == Some(b.public)
      && k in again.bindings && again.bindings[k] == Binding(b.owner, b.public, decls[i].port, None)
  {
    PortIsStable(cfg, pool, events, k);
    var after, owner := Run(cfg, pool, events), pool.bindings[k].owner;
    SyncTheorem(cfg, after, k.server, owner, decls, env);
    LoopKeepsPort(cfg, after, k.server, owner, decls, env, |decls|, k);
    var (again, out) := Sync(cfg, after, k.server, owner, decls, env);
    assert Settled(cfg, again, k.server, owner, decls[i], out[i], env.now);
  }

  /** Heartbeats: a port that one Sync gave is given by the next one, whatever the
      server and all others do in between that spares it. */
  lemma HeartbeatTheorem(cfg: Config, pool: Pool, id: Name, owner: Name, decls: seq<Decl>, env: Env, i: nat,
                         events: seq<Event>, decls': seq<Decl>, j: nat, env': Env)
    requires Enabled(cfg) && WellFormed(cfg, pool) && Validated(decls) && Validated(decls')
    requires i < |decls| && j < |decls'| && KeyOf(id, decls'[j]) == KeyOf(id, decls[i])
    requires Sync(cfg, pool, id, owner, decls, env).1[i].public.Some?
    requires
      var after := Sync(cfg, pool, id, owner, decls, env).0;
      && (forall e <- events :: Legal(e)) && SparedRun(cfg, after, events, KeyOf(id, decls[i]))
      && (Active(Run(cfg, after, events), KeyOf(id, decls[i])) || env'.reopen(KeyOf(id, decls[i])))
    ensures
      var (after, out) := Sync(cfg, pool, id, owner, decls, env);
      Sync(cfg, Run(cfg, after, events), id, owner, decls', env').1[j].public == out[i].public
  {
    var (after, out) := Sync(cfg, pool, id, owner, decls, env);
    SyncTheorem(cfg, pool, id, owner, decls, env);
    assert Settled(cfg, after, id, owner, decls[i], out[i], env.now);
    PortIsAnswered(cfg, after, events, KeyOf(id, decls[i]), decls', j, env');
  }

  /** Repeating a Sync at any later time keeps every assigned port, and the active
      set grows only by side ports that had no port before. */
  lemma HeartbeatKeepsPorts(cfg: Config, pool: Pool, id: Name, owner: Name, decls: seq<Decl>, env: Env, later: Env)
    requires Enabled(cfg) && WellFormed(cfg, pool) && Validated(decls)
    ensures
      var (after, out) := Sync(cfg, pool, id, owner, decls, env);
      var (after2, out2) := Sync(cfg, after, id, owner, decls, later);
      && (forall i :: 0 <= i < |decls| && out[i].public.Some? ==> out2[i].public == out[i].public)
      && (forall k: Key :: Active(after, k) ==>
          Active(after2, k) && after2.bindings[k].public == after.bindings[k].public)
      && (forall k: Key :: Active(after2, k) && !Active(after, k) ==>
            exists i :: 0 <= i < |decls| && KeyOf(id, decls[i]) == k && out[i].public == None && out2[i].public.Some?)
  {
    var (after, out) := Sync(cfg, pool, id, owner, decls, env);
    var (after2, out2) := Sync(cfg, after, id, owner, decls, later);
    SyncTheorem(cfg, pool, id, owner, decls, env);
    SyncTheorem(cfg, after, id, owner, decls, later);
    forall i | 0 <= i < |decls|
      ensures Settled(cfg, after, id, owner, decls[i], out[i], env.now)
        && Settled(cfg, after2, id, owner, decls[i], out2[i], later.now)
      ensures out[i].public.Some? ==> out2[i].public == out[i].public
    {
      if out[i].public.Some? { HeartbeatTheorem(cfg, pool, id, owner, decls, env, i, [], decls, i, later); }
    }
    forall k: Key | Active(after, k)
      ensures Active(after2, k) && after2.bindings[k].public == after.bindings[k].public
    {
      if k.server == id {
        var i :| 0 <= i < |decls| && k == KeyOf(id, decls[i]);
        assert Settled(cfg, after, id, owner, decls[i], out[i], env.now)
          && Settled(cfg, after2, id, owner, decls[i], out2[i], later.now);
      }
    }
    forall k: Key | Active(after2, k) && !Active(after, k)
      ensures exists i :: 0 <= i < |decls| && KeyOf(id, decls[i]) == k && out[i].public == None && out2[i].public.Some?
    {
      if k.server == id {
        var i :| 0 <= i < |decls| && k == KeyOf(id, decls[i]);
        assert Settled(cfg, after, id, owner, decls[i], out[i], env.now)
          && Settled(cfg, after2, id, owner, decls[i], out2[i], later.now);
      } else {
        ForeignBindings(cfg, after, id, owner, decls, later, k);
      }
    }
  }

  /** A Sync brings no binding of another server into being. */
  lemma ForeignBindings(cfg: Config, pool: Pool, id: Name, owner: Name, decls: seq<Decl>, env: Env, k: Key)
    requires WellFormed(cfg, pool) && Validated(decls) && k.server != id
    ensures k in Sync(cfg, pool, id, owner, decls, env).0.bindings <==> k in pool.bindings
    ensures k in pool.bindings ==> Sync(cfg, pool, id, owner, decls, env).0.bindings[k] == pool.bindings[k]
  {
    LoopFrame(cfg, pool, id, owner, decls, env);
    var pool1 := SyncLoop(cfg, pool, id, owner, decls, env, |decls|).0;
    assert k !in Wanted(id, decls);
    assert k in pool1.bindings <==> k in pool1.bindings - Wanted(id, decls);
    assert k in pool.bindings <==> k in pool.bindings - Wanted(id, decls);
  }

  // ---------------------------------------------------------------- the grace period

  /** The event happens no later than `end`, is no shutdown, and does not declare k. */
  ghost predicate LeavesAlone(e: Event, k: Key, end: int) {
    match e
    case SyncE(id, _, decls, env) => env.now <= end && k !in Wanted(id, decls)
    case ReleaseE(_, now) => now <= end
    case SweepE(now, _) => now <= end
    case ShutdownE => false
  }

  lemma StepKeepsReservation(cfg: Config, pool: Pool, e: Event, k: Key, end: int)
    requires WellFormed(cfg, pool) && Legal(e) && LeavesAlone(e, k, end)
    requires k in pool.bindings && pool.bindings[k].until == Some(end)
    ensures var after := Step(cfg, pool, e); k in after.bindings && after.bindings[k] == pool.bindings[k]
  {
    match e
    case SyncE(id, owner, decls, env) =>
      LoopFrame(cfg, pool, id, owner, decls, env);
      assert k in pool.bindings - Wanted(id, decls);
    case _ =>
  }

  lemma {:induction false} RunKeepsReservation(cfg: Config, pool: Pool, events: seq<Event>, k: Key, end: int)
    requires WellFormed(cfg, pool) && k in pool.bindings && pool.bindings[k].until == Some(end)
    requires forall e <- events :: Legal(e) && LeavesAlone(e, k, end)
    ensures
      var after := Run(cfg, pool, events);
      WellFormed(cfg, after) && k in after.bindings && after.bindings[k] == pool.bindings[k]
  {
    if events != [] {
      var before := events[..|events| - 1];
      RunKeepsReservation(cfg, pool, before, k, end);
      StepKeepsReservation(cfg, Run(cfg, pool, before), events[|events| - 1], k, end);
      StepKeepsWellFormed(cfg, Run(cfg, pool, before), events[|events| - 1]);
    }
  }

  /** Calls that a caller can recognise as sparing a port released for `end`: all at
      times from its release until `end`, redeclared only by its owner and with a
      listen that succeeds. */
  ghost predicate Gentle(cfg: Config, e: Event, k: Key, owner: Name, end: int) {
    && !e.ShutdownE? && TimeOf(e) <= end <= TimeOf(e) + cfg.grace
    && (e.SyncE? && k in Wanted(e.id, e.decls) ==> e.owner == owner && e.env.reopen(k))
  }

  lemma {:induction false} GentleIsSpared(cfg: Config, pool: Pool, events: seq<Event>, k: Key, end: int)
    requires k in pool.bindings && (pool.bindings[k].until.None? || pool.bindings[k].until.value >= end)
    requires forall e <- events :: Gentle(cfg, e, k, pool.bindings[k].owner, end)
    ensures SparedRun(cfg, pool, events, k)
    ensures
      var after := Run(cfg, pool, events);
      SamePort(pool, after, k) && (after.bindings[k].until.None? || after.bindings[k].until.value >= end)
  {
    if events != [] {
      var before := events[..|events| - 1];
      GentleIsSpared(cfg, pool, before, k, end);
      assert Gentle(cfg, events[|events| - 1], k, pool.bindings[k].owner, end);
      StepKeepsPort(cfg, Run(cfg, pool, before), events[|events| - 1], k);
    }
  }

  lemma {:induction false} LeftAloneIsSpared(cfg: Config, pool: Pool, events: seq<Event>, k: Key, end: int)
    requires WellFormed(cfg, pool) && k in pool.bindings && pool.bindings[k].until == Some(end)
    requires forall e <- events :: Legal(e) && LeavesAlone(e, k, end)
    ensures SparedRun(cfg, pool, events, k)
  {
    if events != [] {
      var before := events[..|events| - 1];
      LeftAloneIsSpared(cfg, pool, before, k, end);
      RunKeepsReservation(cfg, pool, before, k, end);
      assert LeavesAlone(events[|events| - 1], k, end);
    }
  }

  /** A released port stays with its side port for the whole grace period,
      whatever every other side port does meanwhile and whether or not it is
      redeclared and released again: nobody else gets the slot, and redeclaring it
      with the same owner gives the same port back when the listen succeeds. */
  lemma GracePeriodTheorem(cfg: Config, pool: Pool, events: seq<Event>, k: Key, end: int, decls: seq<Decl>, i: nat,
                           env: Env)
    requires Enabled(cfg) && WellFormed(cfg, pool) && k in pool.bindings && pool.bindings[k].until == Some(end)
    requires forall e <- events :: Legal(e)
    requires
      || (forall e <- events :: LeavesAlone(e, k, end))
      || (forall e <- events :: Gentle(cfg, e, k, pool.bindings[k].owner, end))
    requires Validated(decls) && i < |decls| && KeyOf(k.server, decls[i]) == k
    requires Active(Run(cfg, pool, events), k) || env.reopen(k)
    ensures
      var b := pool.bindings[k];
      var after := Run(cfg, pool, events);
      var (again, out) := Sync(cfg, after, k.server, b.owner, decls, env);
      && (forall j <- after.bindings :: j != k ==> SlotOf(j, after.bindings[j]) != SlotOf(k, b))
      && out[i].public == Some(b.public)
      && k in again.bindings && again.bindings[k] == Binding(b.owner, b.public, decls[i].port, None)
  {
    if forall e <- events :: LeavesAlone(e, k, end) {
      LeftAloneIsSpared(cfg, pool, events, k, end);
    } else {
      GentleIsSpared(cfg, pool, events, k, end);
    }
    PortIsStable(cfg, pool, events, k);
    PortIsAnswered(cfg, pool, events, k, decls, i, env);
  }

  /** After a sweep every active binding is one that was active before and whose
      registration still declared it when the sweep asked; nothing is freed
      before its grace period has passed. */
  lemma SweepTheorem(cfg: Config, pool: Pool, now: int, alive: (Key, Name) -> bool)
    ensures
      var after := Sweep(cfg, pool, now, alive);
      && (forall k: Key :: Active(after, k) <==> Active(pool, k) && alive(k, pool.bindings[k].owner))
      && (forall k <- pool.bindings ::
            k !in after.bindings
            <==> pool.bindings[k].until.Some? && pool.bindings[k].until.value < now)
      && (forall k <- pool.bindings :: Active(pool, k) && !Active(after, k) ==>
          k in after.bindings && after.bindings[k].until == Some(now + cfg.grace))
      && (forall slot <- pool.broken :: slot !in after.broken <==> pool.broken[slot] < now)
  {
  }

  /** A side port that its registration no longer declares, the server being gone or
      changed, keeps its port reserved for exactly the grace period: through
      whatever happens meanwhile, unless it is declared again, and not beyond the
      first sweep after that, which frees the slot for everybody. */
  lemma UndeclaredIsFreed(cfg: Config, pool: Pool, k: Key, now: int, alive: (Key, Name) -> bool,
                          events: seq<Event>, later: int, alive': (Key, Name) -> bool)
    requires WellFormed(cfg, pool) && Active(pool, k) && !alive(k, pool.bindings[k].owner)
    requires forall e <- events :: Legal(e) && LeavesAlone(e, k, now + cfg.grace)
    requires later > now + cfg.grace
    ensures
      var b := pool.bindings[k];
      var after := Run(cfg, Sweep(cfg, pool, now, alive), events);
      var freed := Sweep(cfg, after, later, alive');
      && k in after.bindings && after.bindings[k] == b.(until := Some(now + cfg.grace))
      && k !in freed.bindings && !Occupied(freed, SlotOf(k, b))
  {
    SweepTheorem(cfg, pool, now, alive);
    var swept := Sweep(cfg, pool, now, alive);
    StepKeepsWellFormed(cfg, pool, SweepE(now, alive));
    RunKeepsReservation(cfg, swept, events, k, now + cfg.grace);
    var after := Run(cfg, swept, events);
    var freed := Sweep(cfg, after, later, alive');
    SweepTheorem(cfg, after, later, alive');
    forall j | j in freed.bindings ensures SlotOf(j, freed.bindings[j]) != SlotOf(k, pool.bindings[k]) {
      assert SlotOf(j, freed.bindings[j]) == SlotOf(j, after.bindings[j]);
    }
  }

  // ---------------------------------------------------------------- ports that could not be opened

  /** A sweep looks at a mark only to see whether its time has passed. */
  lemma SweepKeepsMarks(cfg: Config, pool: Pool, now: int, alive: (Key, Name) -> bool, slot: Slot, at: int)
    requires now <= at
    ensures Blocked(Sweep(cfg, pool, now, alive), slot, at) == Blocked(pool, slot, at)
  {
  }

  /** A port of the pool that is free but could not be opened is left alone for
      exactly a minute, sweeps and releases in between included, and tried again
      from then on. */
  lemma BrokenForAMinute(cfg: Config, pool: Pool, k: Key, owner: Name, port: int, env: Env, events: seq<Event>, at: int)
    requires InPool(cfg, port) && !Occupied(pool, Slot(k.proto, port)) && !Blocked(pool, Slot(k.proto, port), env.now)
    requires !env.can(Slot(k.proto, port)) && env.now <= at
    requires forall e <- events :: (e.ReleaseE? || e.SweepE?) && e.now <= at
    ensures
      var (marked, bound) := Try(cfg, pool, k, owner, port, env);
      && !bound && marked.bindings == pool.bindings
      && (Blocked(Run(cfg, marked, events), Slot(k.proto, port), at) <==> at - env.now < 60_000_000_000)
  {
    MarksStay(cfg, Try(cfg, pool, k, owner, port, env).0, events, Slot(k.proto, port), at);
  }

  lemma {:induction false} MarksStay(cfg: Config, pool: Pool, events: seq<Event>, slot: Slot, at: int)
    requires forall e <- events :: (e.ReleaseE? || e.SweepE?) && e.now <= at
    ensures Blocked(Run(cfg, pool, events), slot, at) == Blocked(pool, slot, at)
  {
    if events != [] {
      var e, before := events[|events| - 1], Run(cfg, pool, events[..|events| - 1]);
      MarksStay(cfg, pool, events[..|events| - 1], slot, at);
      assert (e.ReleaseE? || e.SweepE?) && e.now <= at;
      if e.SweepE? { SweepKeepsMarks(cfg, before, e.now, e.alive, slot, at); }
    }
  }
}
