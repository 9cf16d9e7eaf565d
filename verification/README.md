# Verification of the vecta gateway's algorithms

A Dafny model of the stateful algorithms and byte codecs of the gateway (Go), of
the universal server jar (Java) and of the NBT generator (Python), with proofs of
what they keep, over all inputs, all runs and all interleavings.

- **Side ports.** The UDP and TCP relays are state machines whose steps are the
  actions that no other goroutine can split (`UdpRelay`, `TcpRelay`, with
  `UdpRelaySafety`, `UdpRelayBound`, `UdpRelayProgress`, `TcpRelayProgress`); the UDP port
  is also the object it is (`UdpPort`). The allocator is a set of functions on
  values (`PortPool`, `PortPoolSafety`) that the object with its two indexes
  computes in place (`PortManager`); `Registry` is its oracle of owners; `Gateway`
  puts the two together, with API calls that overlap in time.
- **State that forgets.** The token-bucket limiter (`RateLimit`, `ConnLimiter`), the
  expiring store and its flush protocol (`ExpiringStore`, `Snapshot`), the Forge
  probe on top of the store (`ForgeProbe`) and the jar's nonce cache (`Nonces`)
  each drop things, and each is shown to behave as if it did not, up to an exact
  bound.
- **Codecs.** Forge's 15-bit packing and its payload (`ForgeBits`, `ForgeStatus`),
  VarInts, frames and the handshake (`Codec`, `Handshake`, `PacketLanguage`), the jar's JSON (`Json`,
  `JsonRoundTrip`, `JsonGrammar`, `JsonLanguage`, `JsonText`), NBT with modified UTF-8 and the generator's walker
  (`Mutf8`, `Nbt`, `NbtWalker`, `NbtReader`, `GoStrings`).
- **The signed PROXY v2 header**, in both implementations (`Guard`, `GuardTheorems`,
  `GuardCodec`), with HMAC-SHA256 as a parameter.

Loops and objects are modelled as loops and objects; each is proved to compute a
function on values, and the theorems are about those functions. Clocks, the results
of dialing and listening, what a client answers and the order in which maps are
walked are parameters or free choices. `dafny verify dfyconfig.toml` checks all of
it.

Seven properties hold only up to an exact condition, which the theorems name:

- the packing keeps the bytes if and only if there are fewer than 2^30;
- an id's declared side ports are isolated from earlier owners if and only if no Sync
  that an earlier one began is still going to store other protocols, because
  SetSidePorts compares names only;
- an owner's side port keeps its port if and only if no Sync of another owner that
  declares it is under way;
- the two verifiers agree if and only if the header is not authentic, or its stamp is
  neither at a distance where Java's `Math.abs` or the subtraction of longs goes astray
  nor exactly 120 seconds before a second of which a fraction has passed;
- no header is let through twice while the clock is read in whole seconds, and in
  milliseconds up to 999 ms after the TTL;
- JSON that was written is read back if and only if no double is written as a text that
  is none to the reader, as Java does with infinity;
- the gateway writes different strings differently as far as they are well-formed UTF-8.

A lemma shows for each but the first, where the length says it, that the exception
occurs.

## Model

| member | source | states |
|---|---|---|
| `UdpRelaySafety.CounterTheorem` | internal/sideport/forward.go:149-282 | In every interleaving of serve, start, expire, remove and Close over any number of ports: no table exceeds its cap; the shared counter is the sum of what the ports have counted, hence the sum of the table sizes when no section is running, and it is never negative; it stays at most MaxUDPFlows - 1 + the largest number of ports open at once. |
| `UdpRelayBound.BoundIsReached` | internal/sideport/forward.go:178-190 | That bound is exact: for every n some schedule with n ports brings the counter to MaxUDPFlows - 1 + n. |
| `UdpRelaySafety.SocketTheorem` | internal/sideport/forward.go:192-282 | In every interleaving no upstream socket is shared between flows, a flow in a table is dialing, owns an open socket, or its removal is pending, and every open socket is owned by a table entry or by identified code that will close it. |
| `UdpRelaySafety.ClosedPortTheorem` | internal/sideport/forward.go:265-282 | After Close a port holds no flow, and a socket dialed for it is open only while some code is about to close it. |
| `UdpRelaySafety.StrayIsClosed` | internal/sideport/forward.go:192-246 | No socket leaks: from every reachable world, at most four steps of the goroutines responsible close a socket that no table entry owns, or attach it to its flow. |
| `UdpRelaySafety.LockIsReleased` | internal/sideport/forward.go:149-176 | Whoever holds a port's lock can always finish its section within two steps. |
| `UdpRelayProgress.IdleFlowLeaves` | internal/sideport/forward.go:234-263 | An idle flow leaves: at most four steps take it out of its table and out of the counter and close its socket, and change no other entry. |
| `UdpRelayProgress.GoroutineEndsInRemove` | internal/sideport/forward.go:192-232 | A flow's goroutine that does not end by closing an unattached socket ends by calling remove. |
| `UdpRelayProgress.CloseTakesEffect` | internal/sideport/forward.go:265-282 | Close's two steps close the port, empty its table, lower the counter by its size and list exactly the attached sockets for closing. |
| `UdpRelayProgress.ClosedForGood` | internal/sideport/forward.go:178-190 | A closed port stays closed and admits nobody, whatever runs. |
| `UdpRelayProgress.PeakIsMaximum` | internal/sideport/forward.go:178-190 | The peak in the counter's bound is the largest number of ports open at once: never exceeded on the way, and reached. |
| `UdpRelaySafety.ReachableInv` | internal/sideport/forward.go:117-282 | The invariant behind these theorems holds in every reachable world: tables, flows, sockets, pending removals and the counter agree. |
| `UdpPort.UdpPort.Enter` | internal/sideport/forward.go:149-190 | A new address gets a flow, an entry and a place in the counter exactly when admit allows it; a refusal names its reason and changes nothing. |
| `UdpPort.UdpPort.Touch` | internal/sideport/forward.go:149-176 | A datagram of a known flow only restarts its idle time and goes to its socket, if it has one yet. |
| `UdpPort.UdpPort.Attach` | internal/sideport/forward.go:192-232 | A dialed socket goes to its flow exactly when the port is open and the table still holds that very flow; otherwise it is closed. |
| `UdpPort.UdpPort.Remove` | internal/sideport/forward.go:234-246 | A stale call changes neither table nor counter; counter minus table size never changes; the flow's socket is closed either way. |
| `UdpPort.UdpPort.Expire` | internal/sideport/forward.go:248-263 | Exactly the flows idle since before the cutoff leave, each with its socket and its place in the counter. |
| `UdpPort.UdpPort.Close` | internal/sideport/forward.go:265-282 | The table empties, the counter falls by its size, and exactly the attached sockets are closed. |
| `TcpRelay.TcpTheorem` | internal/sideport/forward.go:25-104 | In every interleaving at most the cap of handlers run, every open connection is one that a running handler will close, and once Close has run no tracked connection is open. |
| `TcpRelay.OpenIsClosed` | internal/sideport/forward.go:25-104 | No connection leaks: from every reachable world at most six steps of its own handler close an open connection, and one round of Close's loop closes one that Close holds. |
| `TcpRelayProgress.ConnectionIsRelayed` | internal/sideport/forward.go:55-100 | While the port is open and a slot is free, a client whose backend answers is relayed after four steps: both ends open and tracked, one slot taken. |
| `TcpRelayProgress.RelayingEnds` | internal/sideport/forward.go:71-104 | Four steps after relaying ends both ends are closed and untracked and the slot is free. |
| `TcpRelayProgress.CloseTakesAll` | internal/sideport/forward.go:25-37 | Close is possible at any time: from then on the port is closed, nothing is tracked, and Close holds what was. |
| `TcpRelayProgress.CloseLoopEnds` | internal/sideport/forward.go:25-37 | Its loop ends after as many steps as it holds connections, with exactly those closed. |
| `TcpRelayProgress.ClosedForGood` | internal/sideport/forward.go:39-47 | A closed port stays closed, and no connection begins to be relayed on it. |
| `TcpRelay.ReachableInv` | internal/sideport/forward.go:25-104 | The invariant behind it: tracked connections, handler stages and the semaphore agree in every reachable world. |
| `PortPool.AllocationIsComplete` | internal/sideport/sideport.go:214-241 | A fresh allocation binds the preferred port if it can be opened, else the least openable port of the pool; it binds nothing exactly when no port is openable, and then every one is occupied or marked broken. |
| `PortPool.RangeIsUsed` | internal/sideport/sideport.go:214-241 | A fresh allocation finds a port if and only if one from minPort to maxPort, both included, is taken by nobody, not marked, and can be opened. |
| `PortPool.ScanFacts` | internal/sideport/sideport.go:229-239 | The scan of the pool finds the least openable port from where it starts, or none exists. |
| `PortPoolSafety.SyncTheorem` | internal/sideport/sideport.go:154-184 | Sync gives every declared side port exactly one of an address and an error; addresses are active bindings of this owner, distinct per protocol; an error means every port is taken, or that there is no pool; ports no longer declared stay reserved; other servers are untouched. |
| `PortPoolSafety.DisabledExactly` | internal/sideport/sideport.go:162-165 | Side ports are answered as disabled exactly when the last port of the pool is not positive. |
| `PortPoolSafety.SyncTwice` | internal/sideport/sideport.go:154-184 | Repeating a Sync at the same instant changes nothing: same answers, bindings and marks. |
| `PortPoolSafety.AnsweredSyncIsIdle` | internal/sideport/sideport.go:154-184 | A Sync that answered every declaration with a port has no effect at all when it is repeated, at any later time and whatever could be opened then. |
| `PortPoolSafety.PortIsStable` | internal/sideport/sideport.go:154-343 | A side port keeps its port and owner, and nobody else gets the slot, through every run of Syncs, releases and sweeps of any servers, its own included, in which it is redeclared only by its owner (with a listen that succeeds, if it is held) and no sweep finds its grace period over. |
| `PortPoolSafety.PortIsAnswered` | internal/sideport/sideport.go:154-241 | Declared again by its owner after such a run, it is answered with that very port. |
| `PortPoolSafety.HeartbeatTheorem` | internal/sideport/sideport.go:154-343 | A port that one heartbeat gave is given by the next one, whatever all servers do in between that spares it. |
| `PortPoolSafety.HeartbeatKeepsPorts` | internal/sideport/sideport.go:154-241 | Repeating a Sync at any later time keeps every assigned port and every active binding, and the active set grows only by declarations that had no port before and get one now. |
| `PortPoolSafety.RunsStayWellFormed` | internal/sideport/sideport.go:154-343 | Over all runs of Sync, Release, sweep and shutdown no slot belongs to two side ports and every assigned port is in the pool. |
| `PortPoolSafety.GracePeriodTheorem` | internal/sideport/sideport.go:244-266 | Until its grace period ends a released port goes to no other side port, whatever the others do and whether it stays released or is redeclared and released again; redeclaring it with the same owner gives it back when the listen succeeds. |
| `PortPoolSafety.RunKeepsReservation` | internal/sideport/sideport.go:244-343 | A reservation, its end included, is left as it is by every run of calls up to that end that do not redeclare it; PortIsStable is for runs that do. |
| `PortPoolSafety.UndeclaredIsFreed` | internal/sideport/sideport.go:314-343 | A port whose registration is gone or changed is reserved by the next sweep for exactly the grace period, through whatever happens that does not redeclare it, and freed for everybody by the first sweep after that. |
| `PortPoolSafety.ReleaseTheorem` | internal/sideport/sideport.go:187-197 | After Release no port of the server is active; each that was is reserved for the grace period from now; every other binding, one already released included, is unchanged. |
| `PortPoolSafety.SyncReleases` | internal/sideport/sideport.go:154-184 | Sync does the same with the ports that its server no longer declares, and leaves every other undeclared binding alone. |
| `PortPoolSafety.BrokenForAMinute` | internal/sideport/sideport.go:214-241 | A free port that could not be opened is passed over for exactly 60 seconds, sweeps and releases in between included, and tried again from then on. |
| `PortPoolSafety.ShutdownFreesAll` | internal/sideport/sideport.go:296-312 | After the shutdown no slot is taken. |
| `PortManager.Manager.PoolIsWellFormed` | internal/sideport/sideport.go:75-90 | The two indexes are inverse and describe one set of bindings: a slot is occupied exactly when the port index has it, and no slot twice. |
| `PortManager.Manager.AssignPort` | internal/sideport/sideport.go:199-241 | The in-place assign does to the bindings exactly what the abstract assignment does: reuse, reactivation, takeover, or a fresh allocation. |
| `PortManager.Manager.SyncPorts` | internal/sideport/sideport.go:154-184 | The in-place Sync computes exactly the abstract Sync, answers included, so the theorems about it hold of the object. |
| `PortManager.Manager.ReleasePorts` | internal/sideport/sideport.go:187-197 | The in-place Release reserves exactly the server's bindings. |
| `PortManager.Manager.SweepPorts` | internal/sideport/sideport.go:314-343 | The in-place sweep, with its two loops, computes exactly the abstract sweep. |
| `PortManager.Manager.ShutdownPorts` | internal/sideport/sideport.go:296-312 | The loop empties both indexes and closes every listener. |
| `Registry.OwnerIsolation` | internal/registry/registry.go:202-340 | Whatever other owners do and whatever any Sync stores, an id keeps owner, address, expiry and side port names until its owner acts on it or its TTL passes; the whole registration stays unless a Sync stores other protocols under the same names. |
| `Registry.PortsStayExactly` | internal/registry/registry.go:314-329 | The declared protocols stay throughout a run of others if and only if no Sync of the run stores others under the same names. |
| `Registry.UpsertTheorem` | internal/registry/registry.go:202-225 | An Upsert is refused, without effect, exactly while another owner holds the id; otherwise the id is found with the caller's address and side ports under the caller until the TTL has passed (for ever without one), live state survives exactly at the same address, and no other id is touched. |
| `Registry.RemoveTheorem` | internal/registry/registry.go:227-239 | Only the owner of the entry can remove it; then that id, and no other, is not found any more at any time. |
| `Registry.SetSidePortsTheorem` | internal/registry/registry.go:314-329 | Sync's answer replaces the ports of a registered id exactly if the sequence of their names is the same, and nothing else. |
| `Registry.LastHeartbeatIsDialed` | internal/sideport/sideport.go:359-375 | For its whole TTL, through whatever others do and any Sync stores, an owner's bindings are dialed at the address that its last heartbeat gave. |
| `Registry.TakeoverAfterExpiry` | internal/registry/registry.go:202-254 | Once the TTL has passed the next owner gets the id, and then holds it for its own TTL whatever the one before and all others do. |
| `Registry.StaleBindingIsNeverDialed` | internal/sideport/sideport.go:345-375 | A binding left by an earlier owner is never dialed while somebody else holds the id, through whatever other owners do and any Sync stores. |
| `Registry.Registry.Upsert` | internal/registry/registry.go:202-225 | A live id of another owner is refused without change; otherwise the registration is stored, inheriting live state only at the same address. |
| `Registry.Registry.Prune` | internal/registry/registry.go:332-340 | Exactly the expired registrations go, invisibly to every later lookup. |
| `Registry.Registry.SetSidePorts` | internal/registry/registry.go:314-329 | The ports are stored exactly if the id is there with the same names in the same order, whoever owns it; the loop changes nothing else. |
| `Registry.Registry.StillRegistered` | internal/sideport/sideport.go:345-357 | Answers exactly whether the id's current registration is the owner's and declares the side port. |
| `Registry.Registry.DialTarget` | internal/sideport/sideport.go:359-375 | A backend address is given exactly when the binding's owner is the current registrant. |
| `Gateway.RegistrationIsIsolated` | internal/api/api.go:139-204 | In every interleaving of API calls, Syncs in flight, releases, prunes and sweeps an id keeps owner, address, expiry and side port names until its owner acts on it or its TTL passes. |
| `Gateway.OnlyTheHolderIsDialed` | internal/sideport/sideport.go:345-375 | In all of them only the holder's address is dialed under the id, and no other owner's binding counts as declared. |
| `Gateway.RegisterTakesEffect` | internal/api/api.go:139-178 | Registering either changes nothing, because another owner holds the id, or makes the caller the holder with its address and its side ports and starts a Sync of them. |
| `Gateway.PruneTakesEffect` | internal/registry/registry.go:331-340 | Pruning takes out exactly the expired registrations. |
| `Gateway.UnregisterTakesEffect` | internal/api/api.go:180-204 | Unregistering takes the id out at once; when the call returns, whatever happened in between, every port still active under the id is reserved for the grace period and no other binding has changed. |
| `Gateway.PortsAreIsolatedExactly` | internal/registry/registry.go:314-329 | The whole registration, protocols included, is isolated in every schedule of other owners if and only if no call begun for the id earlier is still going to store other protocols under the same names. |
| `Gateway.LateSyncReachesNewOwner` | internal/sideport/sideport.go:154-184 | That exception occurs, from nothing: a Sync that runs after its owner's unregistration and the next owner's registration puts the old protocol into the new registration, reserves the new owner's port and opens one that leads nowhere. |
| `Gateway.SlotsStayUnique` | internal/sideport/sideport.go:154-343 | In every interleaving no slot belongs to two side ports and every assigned port is in the pool. |
| `Gateway.SweepFollowsTheRegistry` | internal/sideport/sideport.go:314-357 | While a sweep holds the pool's lock the registry moves on: it leaves active exactly the active bindings that the registry declared in the world in which each was checked, and their owner still holds the id when it ends, unless it acted on the id, or its TTL passed, after the check. |
| `Gateway.OwnerKeepsPort` | internal/api/api.go:139-204 | While an owner holds an id and no Sync of another owner that declares the side port is under way, it keeps its port through every interleaving of everybody's calls, its own heartbeats included, as long as a held port reopens when it is declared again and no sweep finds its grace period over. |
| `Gateway.OwnerKeepsPortExactly` | internal/sideport/sideport.go:154-241 | The side port keeps its port in every such schedule if and only if no Sync of another owner that declares it is under way. |
| `Gateway.ForeignSyncTakesPort` | internal/sideport/sideport.go:199-241 | A Sync of another owner that declares the side port takes the binding away. |
| `Gateway.LateSyncTakesPort` | internal/sideport/sideport.go:154-241 | Such a Sync can be under way, from nothing: after a handover of the id the first owner's late Sync leaves the new owner without its port. |
| `RateLimit.SweepIsInvisible` | internal/router/limits.go:48-98 | A limiter with sweeps anywhere answers every acquire, with its reason, like one that never sweeps. |
| `RateLimit.RefusalsLeaveNoTrace` | internal/router/limits.go:48-82 | A refused attempt changes no later decision. |
| `RateLimit.RateTheorem` | internal/router/limits.go:48-82 | In any window of length d one IP is admitted at most burst + rate * d times. |
| `RateLimit.BurstIsReached` | internal/router/limits.go:48-82 | The burst is exact: a bucket of n tokens admits n connections at once. |
| `RateLimit.RunIsSound` | internal/router/limits.go:48-98 | Over every run tokens stay within 0..burst, active equals admissions minus releases (repeated releases included), and the concurrency cap holds. |
| `RateLimit.AnswersExactly` | internal/router/limits.go:48-82 | Every answer after any run, by the books: refused for the rate if and only if that limit is on and the admissions so far leave less than one token; else for concurrency if and only if that limit is on and as many connections are open; else admitted. |
| `RateLimit.CapIsReached` | internal/router/limits.go:48-82 | The cap is exact: as many connections as it has room for are admitted at one instant, and the next one is refused. |
| `RateLimit.ReleaseActive` | internal/router/limits.go:74-82 | A release lowers exactly its own address's count, exactly the first time. |
| `RateLimit.SweepForgets` | internal/router/limits.go:85-98 | A sweep forgets exactly the addresses without an open connection whose bucket is full again, by the books. |
| `ConnLimiter.ConnLimiter.AcquireConn` | internal/router/limits.go:48-82 | The shared mutable states move exactly as the model's, and an admission hands out a release function for its state; with both limits off everything is admitted and nothing recorded. |
| `ConnLimiter.ConnLimiter.ReleaseConn` | internal/router/limits.go:74-82 | The first call lowers the captured state's count; every later call does nothing. |
| `ConnLimiter.ConnLimiter.SweepIdle` | internal/router/limits.go:85-98 | Exactly the idle IPs with a full bucket are forgotten; a state that an unused release still points at never is. |
| `ExpiringStore.ForgettingIsInvisible` | internal/store/store.go:55-122 | Every run of reads and counts is answered as if nothing were ever dropped for its age. |
| `ExpiringStore.LastWriteWins` | internal/store/store.go:55-84 | After a Set and calls that do not write the key, Get gives the value exactly until the second in which it expires. |
| `ExpiringStore.DeletedIsGone` | internal/store/store.go:86-93 | A deleted key is not found until it is written again, whatever else is called. |
| `ExpiringStore.LenCountsWhatGetFinds` | internal/store/store.go:95-108 | Len is the number of keys that a Get at that time would find. |
| `ExpiringStore.ReopenIsInvisible` | internal/store/store.go:33-53 | Reopening from the file's content gives every later call the same answer. |
| `ExpiringStore.Store.Get` | internal/store/store.go:71-84 | A live value or nothing; an expired entry, and only that, is removed and makes the store dirty. |
| `ExpiringStore.Store.Prune` | internal/store/store.go:110-122 | Exactly the expired entries go; the store is dirty exactly if one did. |
| `Snapshot.SnapshotTheorem` | internal/store/store.go:124-163 | With concurrent writers and flushes and a failure or crash at any step: the file is missing or a complete snapshot of a past state; a clean store with no flush in flight equals the file; every Flush that returned nil has all earlier writes on disk. |
| `Snapshot.FlushIsDurable` | internal/store/store.go:127-163 | A crash at any later point recovers a state at least as new as memory was when a successful Flush was called. |
| `Snapshot.FailedFlushStaysDirty` | internal/store/store.go:127-150 | A Flush that returns an error leaves the store dirty; one that returns nil has its state on disk. |
| `Snapshot.FlushCompletes` | internal/store/store.go:127-163 | Whenever a flush waits and the lock is free, at most five steps bring it to its end: it returns nil, nothing is pending, and the file holds exactly what memory holds. |
| `Snapshot.DirtyIsExact` | internal/store/store.go:55-150 | In every interleaving the store is dirty exactly if the last write or failed flush came after the last snapshot and the last start, and memory is what was written last. |
| `Snapshot.TempCanBeTorn` | internal/store/store.go:152-163 | The danger is real: a crash can leave a torn temp file behind, with the file as it was. |
| `Snapshot.ReopenAfterFlush` | internal/store/store.go:33-53 | Stopping after a successful flush loses nothing: the reopened store answers like the one that stopped. |
| `ForgeProbe.NotPresentedAgain` | internal/router/lobby.go:124-149 | A server whose probe failed for a player is not presented to that player again before its rejection expires, whatever else uses the store. |
| `ForgeProbe.AtMostOneFailureEach` | internal/router/lobby.go:124-149 | Before any expiry at most n probes of a player fail against n probe-able servers, and then the next join ends without a probe (or with empty lists, if configured). |
| `ForgeProbe.SelectFacts` | internal/router/lobby.go:124-149 | The server presented is the first probe-able one, in rank order, that is not refused; with none presented, all are refused. |
| `ForgeProbe.RefusedOnlyAfterFailure` | internal/router/pending.go:47-54 | A server is passed over only because its probe failed for that very player not too long ago. |
| `ForgeProbe.KeyIsInjective` | internal/router/pending.go:47-54 | A rejection key belongs to one player, up to case, and one server, whatever the player's name holds. |
| `ForgeProbe.ForgeModQuery` | internal/router/lobby.go:124-149 | The loop presents the first ranked probe-able server that is not rejected and records a failure of exactly that one. |
| `ForgeBits.RoundTrip` | internal/proto/status.go:144-183 | A packed string unpacks to the bytes that were packed, cut to |data| mod 2^30 of them: to all of them if and only if there are fewer than 2^30. No error branch, the size guard included, rejects a genuine string. |
| `ForgeBits.PackingIsInjective` | internal/proto/forgedata_test.go:8-27 | Different data below 2^30 bytes are packed differently. |
| `ForgeBits.NoInflation` | internal/proto/status.go:144-183 | The size guard refuses nothing that would unpack without it; what unpacks is at most two bytes per char, of exactly the declared size. |
| `ForgeBits.Decode` | internal/proto/status.go:144-183 | The bit-buffer loops compute, on every string of runes, the base-2^15 number's low bytes or the first error that applies; nothing overflows uint32. |
| `ForgeBits.Encode` | internal/proto/forgedata_test.go:8-27 | The encoder's loop writes the same number in base 2^15 behind its length. |
| `ForgeBits.TakeFits` | internal/proto/status.go:160-172 | The bit-buffer invariant: shifting in a unit overflows no uint32 and the or is a sum. |
| `ForgeStatus.PayloadRoundTrip` | internal/proto/status.go:83-142 | The payload of a server's lists decodes to those lists without an error, each mod's channels under its id. |
| `ForgeStatus.StatusRoundTrip` | internal/proto/status.go:70-183 | From a server's lists through packing to the gateway's lists, for every payload below 2^30 bytes, whatever the plain fields hold. |
| `ForgeStatus.PlainListsAreCopied` | internal/proto/status.go:70-79 | Without a packed string every plain mod keeps its id and marker and every channel its name, version and flag, each in its place. |
| `ForgeStatus.AddedMods` | internal/proto/status.go:93-110 | The gateway learns every mod in the server's order, with its version. |
| `ForgeStatus.AddedChannels` | internal/proto/status.go:111-120 | Each channel of a mod is listed as id:name, and nothing else is added. |
| `ForgeStatus.ModChannels` | internal/proto/status.go:111-120 | The channels that a mod adds, in order: the mod's id, a colon and the channel's name, with its version and flag. |
| `ForgeStatus.ModsStay` | internal/proto/status.go:83-125 | Whatever follows some mods in a payload, broken or not, the decoded lists have every one of those mods and their channels in place. |
| `ForgeStatus.NegativeCountIsNone` | internal/proto/status.go:121-130 | A negative count of further channels stands for none. |
| `ForgeStatus.ShortPayload` | internal/proto/status.go:83-92 | Less than a flag and a count gives nothing and an error. |
| `ForgeStatus.Decode` | internal/proto/status.go:70-183 | The decoder's loops compute the reference decoding of every forgeData object: the plain lists in order when there is no packed string, else the lists in the string, partial lists and errors included. |
| `Codec.VarIntRoundTrip` | internal/proto/codec.go:26-50 | Decoding undoes encoding for every int32 and takes exactly its bytes. |
| `Codec.VarIntTurn` | internal/proto/codec.go:26-40 | One turn of the loop on uint32 is one base-128 digit modulo 2^32, the fifth byte's lost bits included. |
| `Codec.FrameRoundTrip` | internal/proto/codec.go:52-81 | Reading a built frame gives that frame and leaves the rest if and only if the payload length is 1..2097151. |
| `Codec.OnlyZeroIsABadLength` | internal/proto/codec.go:73-75 | The only length refused as invalid is zero: three bytes cannot announce more than the maximum. |
| `PacketLanguage.VarIntExactly` | internal/proto/codec.go:26-40 | A VarInt is read exactly if one of the first five bytes is below 128, as what the bytes so far spell modulo 2^32; else the input has ended or the VarInt is too long. |
| `PacketLanguage.VarIntReads` | internal/proto/codec.go:26-40 | Every spelling of an int32, the shortest or not, is read as it and taken exactly. |
| `PacketLanguage.FrameExactly` | internal/proto/codec.go:52-81 | What reading a frame gives on every stream, error by error, with its limits as numbers; a frame that is read is taken exactly. |
| `PacketLanguage.StringsAreTexts` | internal/proto/codec.go:133-154 | A string may be exactly the UTF-8 of at most max code points, none a surrogate, in at most 3 * max bytes. |
| `PacketLanguage.StringExactly` | internal/proto/codec.go:133-154 | What reading a string gives behind any spelling of its length: too long, cut off, no such text, or the text. |
| `Codec.Buffer.ReadVarInt` | internal/proto/codec.go:26-40 | On every input, short, overlong and unterminated ones included, the loop gives the reference value or error and takes exactly the bytes it looked at. |
| `Codec.Buffer.ReadFrame` | internal/proto/codec.go:52-81 | On every stream the loop gives the reference frame or error and consumes exactly what it read. |
| `Codec.Buffer.ReadString` | internal/proto/codec.go:133-154 | A length-prefixed, well-formed UTF-8 string within both limits, or the first error that applies. |
| `Codec.AppendVarInt` | internal/proto/codec.go:42-50 | The loop appends the shortest VarInt. |
| `Handshake.HandshakeRoundTrip` | internal/proto/packets.go:62-87 | A built handshake parses to itself, whatever follows, if and only if its address is one that a client could have sent. |
| `PacketLanguage.HandshakeLanguage` | internal/proto/packets.go:62-83 | A payload parses to a handshake if and only if it is laid out as one, part by part, with VarInts of any spelling, an address of at most 1024 code points and anything behind it. |
| `PacketLanguage.ForwardedIntents` | internal/router/router.go:562-568 | Intent 3 (transfer) goes on as 2 (login), every other as it came. |
| `Handshake.BackendSeesTheHandshake` | internal/router/router.go:562-568 | Whatever handshake is accepted, overlong VarInts and trailing bytes included, the backend reads one frame with the same protocol, address and port, and intent login for transfer. |
| `Handshake.RawReplays` | internal/proto/codec.go:52-54 | The raw bytes of a frame can be replayed: they are read as the same frame, whatever follows. |
| `Handshake.ParseHandshake` | internal/proto/packets.go:62-83 | The stepwise parser computes the reference decoding, with the first error that applies. |
| `Handshake.BuildFrame` | internal/proto/packets.go:85-87 | The builder's fields in order make the reference encoding. |
| `JsonRoundTrip.RoundTrip` | plugins/universal/src/main/java/group/senger/vecta/universal/Json.java:24-263 | Parsing what the writer wrote gives the same value, for every tree, if and only if keys are distinct, nesting is at most 128, and every double is written as a text that the reader takes for one. |
| `JsonRoundTrip.ReadWriteRead` | plugins/universal/src/main/java/group/senger/vecta/universal/Json.java:24-263 | Whatever lenient text a value was read from, writing it (doubles as they were read) and reading that gives the value again. |
| `JsonRoundTrip.ReadWriteReadExactly` | plugins/universal/src/main/java/group/senger/vecta/universal/Json.java:24-263 | Whatever text a value was read from, and in whatever form Java writes doubles, what is written reads as what was written if and only if every double is written as a text that the reader takes for one. |
| `JsonRoundTrip.InfinityIsNotReadBack` | plugins/universal/src/main/java/group/senger/vecta/universal/Json.java:183-197 | The exception occurs: 1e999 is read, and Infinity, the name by which Java writes it, is refused. |
| `JsonLanguage.LanguageIsExact` | plugins/universal/src/main/java/group/senger/vecta/universal/Json.java:24-198 | A text is parsed to a value if and only if it spells that value in a grammar given unit by unit: blanks and both kinds of comments between any tokens, strings with every escape, numbers, lists and objects with or without a trailing comma, repeated keys, nesting up to 128. |
| `JsonLanguage.SpellingsAreRead` | plugins/universal/src/main/java/group/senger/vecta/universal/Json.java:24-198 | Every spelling of a value is parsed to that value. |
| `JsonLanguage.OnlySpellingsAreRead` | plugins/universal/src/main/java/group/senger/vecta/universal/Json.java:24-198 | Every text that is parsed is a spelling, with its parts given. |
| `JsonLanguage.LeadingGap` | plugins/universal/src/main/java/group/senger/vecta/universal/Json.java:37-51 | A gap in front of any text changes neither its value nor its error. |
| `JsonLanguage.PutFinds` | plugins/universal/src/main/java/group/senger/vecta/universal/Json.java:79-109 | An object has the last value of each key, its keys in the order in which they first came. |
| `JsonRoundTrip.WriterFollowsRfc8259` | plugins/universal/src/main/java/group/senger/vecta/universal/Json.java:265-293 | Between quotation marks the writer puts only what section 7 of RFC 8259 allows. |
| `JsonRoundTrip.QuotedReads` | plugins/universal/src/main/java/group/senger/vecta/universal/Json.java:139-181 | Every string, lone surrogates included, is read back unit by unit. |
| `JsonRoundTrip.LongReads` | plugins/universal/src/main/java/group/senger/vecta/universal/Json.java:183-198 | Every long is read back from its decimal form, where the number ends. |
| `JsonRoundTrip.ReadFits` | plugins/universal/src/main/java/group/senger/vecta/universal/Json.java:79-137 | The reader gives only maps with distinct keys, nested no deeper than allowed, and doubles by a text that it takes for one. |
| `JsonText.Reader.Value` | plugins/universal/src/main/java/group/senger/vecta/universal/Json.java:53-71 | The cursor-moving reader computes the reference parse of what is left, advances exactly past it and restores the depth. |
| `JsonText.Reader.Space` | plugins/universal/src/main/java/group/senger/vecta/universal/Json.java:37-51 | Skips exactly the spaces, byte order marks and comments in front. |
| `JsonText.Reader.Text` | plugins/universal/src/main/java/group/senger/vecta/universal/Json.java:139-181 | The string loop computes the reference string or its first error. |
| `JsonText.ParseText` | plugins/universal/src/main/java/group/senger/vecta/universal/Json.java:24-31 | The whole parser, trailing data refused, computes the reference parse. |
| `JsonText.Write` | plugins/universal/src/main/java/group/senger/vecta/universal/Json.java:233-263 | The recursive writer with its loops appends the reference text. |
| `JsonText.WriteQuoted` | plugins/universal/src/main/java/group/senger/vecta/universal/Json.java:265-293 | The quoting loop appends the reference text. |
| `NbtWalker.WalkerConsumesPayload` | tools/limbogen/gen.py:103-163 | For every well-typed tree, at any offset and with any bytes behind it, the walker consumes exactly the encoder's output. |
| `NbtWalker.WalkerConsumesGateway` | internal/proto/nbt.go:32-61 | The walker consumes the gateway's network NBT, and the older named form, to the last byte. |
| `NbtWalker.HomogeneousIsShaped` | internal/proto/nbt.go:72-111 | The gateway's output has the shape the walker needs exactly when its lists are homogeneous. |
| `NbtWalker.AppendNbt` | internal/proto/nbt.go:72-111 | For every value the gateway's encoder writes what the generator would write for the corresponding tree. |
| `NbtWalker.NetworkNbt` | internal/proto/nbt.go:32-36 | Network NBT is the value's tag and the payload of its tree. |
| `NbtWalker.NamedRootNbt` | internal/proto/nbt.go:56-60 | The older form puts an empty root name between the compound tag and the payload. |
| `NbtWalker.Walker` | tools/limbogen/gen.py:138-163 | The walker with its loops computes the reference walk, also on malformed input. |
| `NbtWalker.ValueWalks` | tools/limbogen/gen.py:138-163 | A tree that is laid out in the bytes is walked to its end with fuel for its bytes. |
| `NbtWalker.ValueIsLaidOut` | tools/limbogen/gen.py:103-135 | The encoder's output has the layout of the tree. |
| `NbtWalker.IntReadsBack` | tools/limbogen/gen.py:108-109 | Every int32 is read back from its four bytes; the walker's lengths are a case of it. |
| `NbtReader.TreeReads` | tools/limbogen/gen.py:103-135 | Whatever well-typed tree is encoded, a reader by the format's tag numbers and byte order has its meaning back (numbers with their sign, halves joined, strings as UTF-16, items and entries in order) and leaves what follows. |
| `NbtReader.GatewayIsRead` | internal/proto/nbt.go:72-136 | Whatever homogeneous value the gateway encodes, that reader has the value back: true is the byte 1, int32 and int64 keep their value, strings, lists and compounds their contents. |
| `NbtReader.DocumentsAreRead` | internal/proto/nbt.go:32-61 | The same for both forms of a whole document. |
| `NbtWalker.StringsAreInjective` | internal/proto/nbt.go:114-136 | Strings of code points of at most 65535 encoded bytes are written alike exactly when they are the same. |
| `GoStrings.GoStringsAreInjective` | internal/proto/nbt.go:114-136 | Go strings, any bytes, are written alike exactly when they are the same up to bytes that are not well-formed UTF-8, so well-formed ones exactly when they are the same. |
| `GoStrings.WellFormedIsKept` | internal/proto/nbt.go:116 | Ranging loses nothing of a string exactly when it is well-formed UTF-8. |
| `GoStrings.BadBytesCollide` | internal/proto/nbt.go:116 | The condition is needed: two different bytes that are not well-formed are written alike. |
| `GoStrings.ModifiedExactly` | internal/proto/nbt.go:114-136 | A text is written as plain UTF-8 if and only if it holds neither NUL nor a code point from U+10000 on, and never in fewer bytes. |
| `Mutf8.EncodingIsInjective` | tools/limbogen/gen.py:80-94 | Two strings have the same encoding exactly when they are the same UTF-16 text, so exactly when equal for strings without surrogates. |
| `Mutf8.EncodedReads` | tools/limbogen/gen.py:80-94 | The encoding is read back to the same UTF-16 units, NUL and lone surrogates included. |
| `Mutf8.SurrogatesCollide` | tools/limbogen/gen.py:80-94 | The condition is needed: a surrogate pair and the character it stands for collide. |
| `Mutf8.Mutf8` | tools/limbogen/gen.py:80-94 | The loop over code points writes the unit-by-unit encoding. |
| `GuardTheorems.BuiltHeaderVerifies` | internal/guard/guard.go:61-214 | A built header verifies, in both implementations, exactly when the clock is within the skew and the nonce is new; it gives the original ends up to IPv4-mapping, or says which check failed. |
| `GuardTheorems.HeaderTravels` | internal/guard/guard.go:117-214 | What the gateway puts in front of a connection is taken off it to the byte, verifies, and gives the addresses it was built for. |
| `GuardTheorems.ReadsExactlyTheHeader` | internal/guard/guard.go:117-137 | A header is taken off a longer stream exactly, or refused as too long exactly above 1024 bytes. |
| `GuardTheorems.HeaderInNumbers` | internal/guard/guard.go:61-115 | The header byte by byte, LOCAL, over IPv4 and over IPv6: signature, command, family, lengths, address block, TLV and the message that is signed. |
| `GuardTheorems.EndsComeBack` | internal/guard/guard.go:143-214 | A built header that verifies gives back both ports and both addresses, bit by bit in their 16-byte form. |
| `GuardTheorems.MappingInNumbers` | internal/guard/guard.go:72-78 | IPv4 addresses are mapped behind ten zero bytes and two of 0xFF (section 2.5.5.2 of RFC 4291). |
| `GuardTheorems.BuildersAgree` | plugins/universal/src/main/java/group/senger/vecta/universal/GuardCodec.java:73-150 | For the same ends the gateway and the jar build the same bytes, signed and unsigned, with addresses and LOCAL; the jar holds every address without mapping, as java.net.InetAddress does. |
| `GuardTheorems.MappedFormWouldDiffer` | plugins/universal/src/main/java/group/senger/vecta/universal/GuardCodec.java:99-122 | What the jar relies on InetAddress for: if it held a mapped address as such, its bytes would differ exactly when both ends are IPv4. |
| `GuardTheorems.VerifiersAgree` | plugins/universal/src/main/java/group/senger/vecta/universal/GuardCodec.java:156-215 | On every sequence of bytes and at every instant, which the jar reads in whole seconds, both give the same verdict, unless the header is authentic and stamped at a distance where the difference of two longs goes astray, or exactly 120 seconds before the current second while a fraction of it has passed; then they differ. |
| `GuardTheorems.VerifiersDifferWithinASecond` | plugins/universal/src/main/java/group/senger/vecta/universal/GuardCodec.java:197-200 | The everyday exception occurs for every key and nonce: 120.5 seconds after its stamp a header is refused by the gateway and accepted by the jar. |
| `GuardTheorems.VerifiersDiffer` | plugins/universal/src/main/java/group/senger/vecta/universal/GuardCodec.java:197-200 | The stray exception occurs for every key and nonce: stamped 2^63 seconds away, a header is refused by the gateway and accepted by the jar. |
| `GuardTheorems.SkewIsExact` | plugins/universal/src/main/java/group/senger/vecta/universal/GuardCodec.java:197-200 | Which stamps each skew check accepts, in plain numbers, the stray ones included. |
| `GuardTheorems.OtherTlvsAreIgnored` | internal/guard/guard.go:170-190 | Inserting any TLVs of other types at any boundary of any header leaves the verdict as it was. |
| `GuardTheorems.MacInputIsInjective` | internal/guard/guard.go:87-98 | The signed message determines every signed field. |
| `GuardTheorems.AcceptedWasSigned` | internal/guard/guard.go:146-214 | A header is accepted only if it opens like one signed with the key, in time and with a new nonce. |
| `GuardTheorems.PlainReaderSeesTheSource` | internal/router/proxyproto.go:55-106 | A plain PROXY v2 reader takes the same source from a signed header as from a plain one and leaves what follows (section 2.2 of the PROXY protocol specification). |
| `GuardTheorems.PlainReaderExactly` | internal/router/proxyproto.go:55-85 | What the plain reader makes of every header, in plain numbers: version 2 only, no source and no error for LOCAL and for families other than IPv4 and IPv6, else the address and port at their places. |
| `GuardTheorems.JarPassesTheSourceOn` | plugins/universal/src/main/java/group/senger/vecta/universal/Guard.java:142-164 | Through the jar as a middleman: the unsigned header it writes for a connection it let through shows its backend the source that the gateway saw, or none if there was none. |
| `GuardCodec.GoHeader` | internal/guard/guard.go:61-115 | The gateway's appending builder makes the reference header, LOCAL ones included. |
| `GuardCodec.GoLocalHeader` | internal/guard/guard.go:82-85 | The gateway's LOCAL builder makes the reference header without addresses. |
| `GuardCodec.GoPlainHeader` | internal/router/proxyproto.go:88-106 | The gateway's unsigned builder makes the reference plain header. |
| `GuardCodec.Stream.ReadPlain` | internal/router/proxyproto.go:55-85 | The gateway's plain reader gives the reference source and leaves exactly what follows the header, or the first error that applies. |
| `GuardCodec.GoVerify` | internal/guard/guard.go:143-214 | The gateway's verifier, with its loop on slices, gives the reference verdict on all bytes. |
| `GuardCodec.JavaHeaderOf` | plugins/universal/src/main/java/group/senger/vecta/universal/GuardCodec.java:73-150 | The jar's buffer-filling builder makes the reference header for its own address block. |
| `GuardCodec.JavaLocalHeaderOf` | plugins/universal/src/main/java/group/senger/vecta/universal/GuardCodec.java:80-83 | The jar's LOCAL builder makes the reference header without addresses. |
| `GuardCodec.JavaPlainHeaderOf` | plugins/universal/src/main/java/group/senger/vecta/universal/GuardCodec.java:85-97 | The jar's unsigned builder makes the plain header for its own address block. |
| `GuardCodec.JavaVerify` | plugins/universal/src/main/java/group/senger/vecta/universal/GuardCodec.java:152-215 | The jar's verifier, with its index loop and its arithmetic of longs, gives the reference verdict on all bytes. |
| `GuardCodec.Stream.ReadHeader` | internal/guard/guard.go:117-137 | Reading consumes exactly the header, or fails with the first error that applies. |
| `Nonces.NonceTheorem` | plugins/universal/src/main/java/group/senger/vecta/universal/Guard.java:253-264 | Two acceptances of one nonce are more than 240 000 ms apart, whatever connects and is pruned in between. |
| `Nonces.NoHeaderTwice` | plugins/universal/src/main/java/group/senger/vecta/universal/Guard.java:253-264 | No header is let through twice on a clock of whole seconds; in milliseconds only within 999 ms after the TTL. |
| `Nonces.ReplayedExactly` | plugins/universal/src/main/java/group/senger/vecta/universal/Guard.java:253-264 | The next connection with an accepted header is let through exactly if its stamp is still in time and the TTL has passed. |
| `Nonces.MillisecondsLeaveAGap` | plugins/universal/src/main/java/group/senger/vecta/universal/GuardCodec.java:197-200 | Such a replay exists for every key and nonce, in milliseconds. |
| `Nonces.OthersAreInvisible` | plugins/universal/src/main/java/group/senger/vecta/universal/Guard.java:142-161 | Connections without an authentic header in time, however many, neither fill the cache nor change who else the verifier, asking it, lets through. |
| `Nonces.CacheForgets` | plugins/universal/src/main/java/group/senger/vecta/universal/Guard.java:253-264 | The cache stays small: over every run, after a header that reached it nothing in it is older than 300 000 ms, and with more than 100 000 nonces nothing older than 240 000. |
| `Nonces.NonceCache.NonceSeen` | plugins/universal/src/main/java/group/senger/vecta/universal/Guard.java:253-264 | The map and the last prune move exactly as the reference step says. |

## Left out

- Sockets, goroutine scheduling inside `io.Copy`, HTTP handlers, TLS, DNS, hook processes, logging and metrics: input and output without a decision to prove.
- Cryptography: HMAC-SHA256 is an uninterpreted function, key derivation and nonce generation are not modelled, and comparison takes no time.
- Clocks: each call reads its clock once, and runs assume that it does not go back. The jar reads its clock for the skew check and again for the nonce; `Nonces` takes both as one reading.
- UdpPort.UdpPort.Attach: is for the flow's own goroutine, so it asks that the flow has no socket yet and the dialed one is open; UdpRelay shows that this is so in every interleaving.
- PortPool: names, owners and server ids are numbers that are only compared; the syntax of ids and the other checks of `Validate` in internal/registry/registry.go, lines 128-161, are easy. Distinct names per server, which line 180 checks, are asked of Sync's declarations.
- Registry: `SetHealth`, `List` and `Online`; live state is one opaque value, and whether `online` implies a ping is not claimed, because a first registration keeps what the caller says.
- RateLimit: float64 is modelled by exact reals, and times are counted in refills (one unit is the time in which one token comes back), so rounding is not captured.
- ConnLimiter: releases take no clock reading, as in the source, so their place in a run is at the last reading.
- ExpiringStore.LastWriteWins: an entry whose expiry falls on Unix second 0 never expires, because the source uses 0 for "never"; the theorem says so.
- Snapshot: below "rename is atomic" the file system is not modelled; a torn file would not parse, and the theorem shows that the store never leaves one in place.
- ExpiringStore.ReopenIsInvisible: the file's content is taken to be what memory held, so keys and values are taken to be well-formed UTF-8, as the names and ids that are stored are; `json.Marshal` would replace other bytes by U+FFFD. The same holds of Snapshot.ReopenAfterFlush.
- ForgeProbe: joins are handled one at a time; `match.Rank` is any ordered list; `strings.ToLower` is any function. Asking the client is a free choice of success or failure.
- ForgeStatus: strings are their UTF-8 bytes, and reading the JSON object itself is left to Go's library; `modinfo` of servers before 1.13 is only a list of ids.
- ForgeBits: the Go string is its runes; converting a string of chars below 2^15 to UTF-8 and back is left to Go.
- Codec: fields that only fix a width (`Int64`, `Float32` and the like) and login or configuration packets. An error of a reader and of a buffer that ends are one error here.
- Json: error offsets; a double is the text that `Double.parseDouble` reads, and the form in which Java writes it, `Double.toString`, is a parameter. `Integer.parseInt` also accepts non-ASCII digits in `\u` escapes, which the model refuses.
- Nbt: numbers out of range, which `struct.pack` refuses, are written modulo their width here, and a string above 65535 bytes, at which the generator stops, is cut as the gateway does; both only widen what the theorems cover. Floats are their bits. A malformed input can lead the walker in circles, so NbtWalker.Walker takes fuel and may answer that it ran out; for encoded trees it never does.
- Guard: malformed `net.IP` lengths, ports outside 16 bits and nil addresses of Go; PROXY v1; the saturation of `time.Duration` for clocks centuries away. The jar's switch to plain headers and its refusal messages.
- GuardCodec.JavaHeaderOf: Java's `InetAddress` is a sum of two lengths of bytes; host names are not part of this model. That it never holds an IPv4-mapped address is how `getByAddress` and `getByName` of java.net are specified.
- Gateway: the parts of the API before Upsert (tokens, JSON, the address policy) and the gateway's shutdown, which PortPoolSafety has; a sweep is one step on the pool, but finds the registry anew for each binding it checks.
- Commands.Sniffer of the jar: it parses from the start on every read, so independence from how bytes are chunked does not hold as written.
- `match.go` beyond an ordered list, `api/global.go`, limbo packet tables, dialogs, menus, MOTD text, configuration and mod-jar scanning: tables and user interface with easy properties.
