/** The flush protocol of internal/store/store.go: concurrent writers and
    flushes, a failure or a crash of the process at any step. */
module Snapshot {
  import opened Prelude
  import opened ExpiringStore

  /** A snapshot: the index of the state it was taken of, and its content. */
  datatype Snap = Snap(version: nat, data: Data)

  /** The temp file, or the file itself. A write that stops half-way leaves it torn. */
  datatype File = Missing | Torn | Full(snap: Snap)

  /** Where one call of Flush is. `asked` is the state of memory when it was made. */
  datatype Call =
    | Waiting(asked: nat)              // for flushMu
    | Locked(asked: nat)               // holds flushMu, about to look at dirty
    | Marshalled(asked: nat, snap: Snap)
    | Writing(asked: nat, snap: Snap)  // the temp file is being written
    | Written(asked: nat, snap: Snap)  // the temp file is complete, not renamed yet
    | Failing(asked: nat)              // some step failed, dirty is not set again yet
    | Returned(asked: nat, ok: bool)

  /** `past` are all states memory ever had, over all process lives; the last one
      is the current state, and this life began with the one at `boot`. `onDisk`
      is the state the file stands for (a missing file stands for an empty store). */
  datatype World = World(
    past: seq<Data>, boot: nat, dirty: bool, lock: Option<nat>, calls: seq<Call>,
    tmp: File, disk: File, onDisk: nat)

  datatype Step =
    | Write(data: Data)      // Set, Delete, an expiring Get or Prune
    | Flush                  // a call is made
    | Lock(c: nat)
    | Clean(c: nat)          // not dirty: return nil
    | Marshal(c: nat)        // take the snapshot and clear dirty
    | MarshalFail(c: nat)
    | Begin(c: nat)          // create the temp file
    | BeginFail(c: nat)      // the directory or the temp file cannot be created
    | WriteDone(c: nat)
    | WriteFail(c: nat)
    | Rename(c: nat)
    | RenameFail(c: nat)
    | Redirty(c: nat)        // set dirty again and return the error
    | Crash                  // the process dies; the next one opens the file

  const INITIAL := World([map[]], 0, false, None, [], Missing, Missing, 0)

  predicate Holds(w: World, c: nat) {
    c < |w.calls| && w.lock == Some(c)
  }

  predicate Enabled(w: World, s: Step) {
    match s
    case Write(_) => |w.past| > 0
    case Flush => |w.past| > 0
    case Lock(c) => c < |w.calls| && w.lock == None && w.calls[c].Waiting?
    case Clean(c) => Holds(w, c) && w.calls[c].Locked? && !w.dirty
    case Marshal(c) => Holds(w, c) && w.calls[c].Locked? && w.dirty && |w.past| > 0
    case MarshalFail(c) => Holds(w, c) && w.calls[c].Locked? && w.dirty
    case Begin(c) => Holds(w, c) && w.calls[c].Marshalled?
    case BeginFail(c) => Holds(w, c) && w.calls[c].Marshalled?
    case WriteDone(c) => Holds(w, c) && w.calls[c].Writing?
    case WriteFail(c) => Holds(w, c) && w.calls[c].Writing?
    case Rename(c) => Holds(w, c) && w.calls[c].Written?
    case RenameFail(c) => Holds(w, c) && w.calls[c].Written?
    case Redirty(c) => Holds(w, c) && w.calls[c].Failing?
    case Crash => |w.past| > 0
  }

  function Current(w: World): nat
    requires |w.past| > 0
  {
    |w.past| - 1
  }

  function At(w: World, c: nat, call: Call): World
    requires c < |w.calls|
  {
    w.(calls := w.calls[c := call])
  }

  /** What opening the file gives; a torn file would not parse. */
  function Loaded(file: File): Data {
    match file
    case Full(snap) => snap.data
    case _ => map[]
  }

  function Apply(w: World, s: Step): World
    requires Enabled(w, s)
  {
    match s
    case Write(data) => w.(past := w.past + [data], dirty := true)
    case Flush => w.(calls := w.calls + [Waiting(Current(w))])
    case Lock(c) => At(w, c, Locked(w.calls[c].asked)).(lock := Some(c))
    case Clean(c) => At(w, c, Returned(w.calls[c].asked, true)).(lock := None)
    case Marshal(c) => At(w, c, Marshalled(w.calls[c].asked, Snap(Current(w), w.past[Current(w)]))).(dirty := false)
    case MarshalFail(c) => At(w, c, Failing(w.calls[c].asked)).(dirty := false)
    case Begin(c) => At(w, c, Writing(w.calls[c].asked, w.calls[c].snap)).(tmp := Torn)
    case BeginFail(c) => At(w, c, Failing(w.calls[c].asked))
    case WriteDone(c) => At(w, c, Written(w.calls[c].asked, w.calls[c].snap)).(tmp := Full(w.calls[c].snap))
    case WriteFail(c) => At(w, c, Failing(w.calls[c].asked))
    case Rename(c) =>
      At(w, c, Returned(w.calls[c].asked, true))
        .(lock := None, disk := w.tmp, tmp := Missing, onDisk := if w.tmp.Full? then w.tmp.snap.version else w.onDisk)
    case RenameFail(c) => At(w, c, Failing(w.calls[c].asked))
    case Redirty(c) => At(w, c, Returned(w.calls[c].asked, false)).(lock := None, dirty := true)
    case Crash =>
      World(w.past + [Loaded(w.disk)], |w.past|, false, None, [], w.tmp, w.disk, |w.past|)
  }

  function Exec(steps: seq<Step>): Option<World> {
    if steps == [] then Some(INITIAL)
    else
      var before := Exec(steps[..|steps| - 1]);
      if before.Some? && Enabled(before.value, steps[|steps| - 1])
      then Some(Apply(before.value, steps[|steps| - 1]))
      else None
  }

  // ---------------------------------------------------------------- invariant

  /** A snapshot is a complete copy of a state of this life. */
  ghost predicate SnapOk(w: World, snap: Snap) {
    w.boot <= snap.version < |w.past| && w.past[snap.version] == snap.data
  }

  ghost predicate InFlight(call: Call) {
    call.Marshalled? || call.Writing? || call.Written?
  }

  ghost predicate CallOk(w: World, c: nat)
    requires c < |w.calls|
  {
    var call := w.calls[c];
    && w.boot <= call.asked < |w.past|
    && (w.lock == Some(c) <==> !call.Waiting? && !call.Returned?)
    && (InFlight(call) ==>
          && SnapOk(w, call.snap) && call.asked <= call.snap.version && w.onDisk <= call.snap.version
          // nothing written since the snapshot unless dirty says so
          && (!w.dirty ==> call.snap.version == |w.past| - 1))
    && (call.Written? ==> w.tmp == Full(call.snap))
    && (call.Returned? && call.ok ==> call.asked <= w.onDisk)
  }

  ghost predicate FileOk(w: World) {
    && w.boot <= w.onDisk < |w.past|
    && w.past[w.onDisk] == Loaded(w.disk)
    && !w.disk.Torn?
    && (w.disk.Full? ==> w.disk.snap.version < |w.past| && w.past[w.disk.snap.version] == w.disk.snap.data)
  }

  /** Whenever no flush is past its check, a clean store is on disk. */
  ghost predicate CleanOk(w: World) {
    var quiet := w.lock.None? || (w.lock.value < |w.calls| && w.calls[w.lock.value].Locked?);
    quiet && !w.dirty ==> w.onDisk == |w.past| - 1
  }

  ghost predicate Inv(w: World) {
    && FileOk(w) && CleanOk(w)
    && (w.lock.Some? ==> w.lock.value < |w.calls|)
    && (forall c :: 0 <= c < |w.calls| ==> CallOk(w, c))
  }

  /** The call that holds the flush lock, if any, is in order. */
  ghost predicate HolderOk(w: World) {
    w.lock.Some? ==> w.lock.value < |w.calls| && CallOk(w, w.lock.value)
  }

  lemma StepKeepsFile(w: World, s: Step)
    requires FileOk(w) && HolderOk(w) && Enabled(w, s)
    ensures FileOk(Apply(w, s))
  {
  }

  lemma StepKeepsClean(w: World, s: Step)
    requires FileOk(w) && CleanOk(w) && HolderOk(w) && Enabled(w, s)
    ensures CleanOk(Apply(w, s))
  {
  }

  /** The holder of the lock is the only call that steps other than by waiting. */
  lemma StepKeepsWaiting(w: World, s: Step, c: nat)
    requires FileOk(w) && HolderOk(w) && Enabled(w, s) && !s.Crash?
    requires c < |w.calls| && CallOk(w, c) && w.lock != Some(c)
    ensures c < |Apply(w, s).calls| && CallOk(Apply(w, s), c)
  {
  }

  lemma StepKeepsHolder(w: World, s: Step)
    requires FileOk(w) && CleanOk(w) && HolderOk(w) && Enabled(w, s) && !s.Crash? && w.lock.Some?
    ensures w.lock.value < |Apply(w, s).calls| && CallOk(Apply(w, s), w.lock.value)
  {
  }

  lemma StepKeepsInv(w: World, s: Step)
    requires Inv(w) && Enabled(w, s)
    ensures Inv(Apply(w, s))
  {
    var w' := Apply(w, s);
    if w.lock.Some? { assert CallOk(w, w.lock.value); }
    StepKeepsFile(w, s);
    StepKeepsClean(w, s);
    forall c | 0 <= c < |w'.calls| ensures CallOk(w', c) {
      if c < |w.calls| {
        assert CallOk(w, c);
        if w.lock == Some(c) { StepKeepsHolder(w, s); } else { StepKeepsWaiting(w, s, c); }
      }
    }
  }

  lemma {:induction false} ReachableInv(steps: seq<Step>)
    requires Exec(steps).Some?
    ensures Inv(Exec(steps).value)
  {
    if steps != [] {
      ReachableInv(steps[..|steps| - 1]);
      StepKeepsInv(Exec(steps[..|steps| - 1]).value, steps[|steps| - 1]);
    }
  }

  // ---------------------------------------------------------------- theorems

  /** In every interleaving, with a failure or crash at any step: the file is
      missing or a complete snapshot of a past state, never torn; when the store
      is not dirty and no flush is in flight, what opening the file would give is
      exactly memory; and every flush that returned nil has on disk a state that
      is at least as new as memory was when it was called. */
  lemma SnapshotTheorem(steps: seq<Step>)
    requires Exec(steps).Some?
    ensures
      var w := Exec(steps).value;
      && !w.disk.Torn?
      && (w.disk.Full? ==> w.disk.snap.version < |w.past| && w.disk.snap.data == w.past[w.disk.snap.version])
      && |w.past| > 0
      && (!w.dirty && w.lock == None ==> Loaded(w.disk) == w.past[|w.past| - 1])
      && (forall c :: 0 <= c < |w.calls| && w.calls[c].Returned? && w.calls[c].ok ==> w.calls[c].asked <= w.onDisk)
      && w.onDisk < |w.past| && w.past[w.onDisk] == Loaded(w.disk)
  {
    ReachableInv(steps);
    var w := Exec(steps).value;
    forall c | 0 <= c < |w.calls| && w.calls[c].Returned? && w.calls[c].ok ensures w.calls[c].asked <= w.onDisk {
      assert CallOk(w, c);
    }
  }

  lemma {:induction false} OnDiskGrows(steps: seq<Step>, more: seq<Step>)
    requires Exec(steps + more).Some? && (forall s <- more :: !s.Crash?)
    ensures Exec(steps).Some?
    ensures Exec(steps).value.onDisk <= Exec(steps + more).value.onDisk
    ensures Exec(steps).value.past <= Exec(steps + more).value.past
    decreases |more|
  {
    if more == [] {
      assert steps + more == steps;
    } else {
      var all, init := steps + more, more[..|more| - 1];
      assert all[..|all| - 1] == steps + init && all[|all| - 1] == more[|more| - 1];
      OnDiskGrows(steps, init);
      ReachableInv(steps + init);
      var w := Exec(steps + init).value;
      if w.lock.Some? { assert CallOk(w, w.lock.value); }
    }
  }

  /** Durability: once a flush has returned nil, a crash at any later point leaves
      a store that is at least as new as memory was when that flush was called. */
  lemma FlushIsDurable(steps: seq<Step>, c: nat, more: seq<Step>)
    requires Exec(steps).Some? && Exec(steps + more).Some? && (forall s <- more :: !s.Crash?)
    requires c < |Exec(steps).value.calls| && Exec(steps).value.calls[c].Returned? && Exec(steps).value.calls[c].ok
    ensures
      exists version ::
          && Exec(steps).value.calls[c].asked <= version < |Exec(steps + more).value.past|
          && Exec(steps + more + [Crash]).Some?
          && Exec(steps + more + [Crash]).value.past
             == Exec(steps + more).value.past + [Exec(steps + more).value.past[version]]
  {
    OnDiskGrows(steps, more);
    SnapshotTheorem(steps);
    SnapshotTheorem(steps + more);
    var w := Exec(steps + more).value;
    assert (steps + more + [Crash])[..|steps + more|] == steps + more;
    assert Exec(steps + more + [Crash]).value.past == w.past + [w.past[w.onDisk]];
  }

  /** A flush that returns an error leaves the store dirty, so the next flush
      tries again instead of returning nil at once. */
  lemma FailedFlushStaysDirty(steps: seq<Step>, s: Step, c: nat)
    requires Exec(steps).Some? && Enabled(Exec(steps).value, s)
    requires c < |Exec(steps).value.calls| && !Exec(steps).value.calls[c].Returned?
    requires c < |Apply(Exec(steps).value, s).calls| && Apply(Exec(steps).value, s).calls[c].Returned?
    ensures
      var w' := Apply(Exec(steps).value, s);
      if w'.calls[c].ok then w'.calls[c].asked <= w'.onDisk
      else w'.dirty && w'.lock == None
  {
    var w := Exec(steps).value;
    ReachableInv(steps);
    StepKeepsInv(w, s);
    assert CallOk(Apply(w, s), c);
  }

  /** Stopping after a successful flush loses nothing: reopening the file gives a
      store that answers every later call like the one that was stopped. */
  lemma ReopenAfterFlush(steps: seq<Step>, now: int, events: seq<Event>)
    requires Exec(steps).Some? && !Exec(steps).value.dirty && Exec(steps).value.lock == None && Monotone(now, events)
    ensures
      var w := Exec(steps).value;
      && |w.past| > 0
      && Answers(Pruned(Loaded(w.disk), now), events) == Answers(w.past[|w.past| - 1], events)
  {
    SnapshotTheorem(steps);
    ReopenIsInvisible(Loaded(Exec(steps).value.disk), now, events);
  }

  // ---------------------------------------------------------------- what writing and flushing do

  /** Whether there is something to flush, from what happened alone: the last write or
      failed flush came after the last snapshot and the last start. */
  function Pending(steps: seq<Step>): bool {
    if steps == [] then false
    else
      match steps[|steps| - 1]
      case Write(_) => true
      case Redirty(_) => true
      case Marshal(_) => false
      case MarshalFail(_) => false
      case Crash => false
      case _ => Pending(steps[..|steps| - 1])
  }

  /** What memory holds, from what happened alone: what was written last, or what was
      in the file at the last start. */
  function Memory(steps: seq<Step>): Data
    requires Exec(steps).Some?
  {
    if steps == [] then map[]
    else
      match steps[|steps| - 1]
      case Write(data) => data
      case Crash => Loaded(Exec(steps[..|steps| - 1]).value.disk)
      case _ => Memory(steps[..|steps| - 1])
  }

  /** The store is dirty exactly when something is pending, and its memory is what was
      written last. */
  lemma {:induction false} DirtyIsExact(steps: seq<Step>)
    requires Exec(steps).Some?
    ensures
      var w := Exec(steps).value;
      && w.dirty == Pending(steps)
      && |w.past| > 0 && w.past[|w.past| - 1] == Memory(steps)
  {
    if steps != [] { DirtyIsExact(steps[..|steps| - 1]); }
  }

  lemma ExecSnoc(steps: seq<Step>, s: Step)
    requires Exec(steps).Some? && Enabled(Exec(steps).value, s)
    ensures Exec(steps + [s]) == Some(Apply(Exec(steps).value, s))
  {
    assert (steps + [s])[..|steps|] == steps;
  }

  /** A flush that nothing goes wrong with: whenever one is waiting and the lock is
      free, its steps can run to the end, and then it has returned nil, nothing is
      pending, and the file holds exactly what memory holds. */
  lemma FlushCompletes(steps: seq<Step>, c: nat) returns (more: seq<Step>)
    requires Exec(steps).Some? && Exec(steps).value.lock == None
    requires c < |Exec(steps).value.calls| && Exec(steps).value.calls[c].Waiting?
    ensures |more| <= 5 && Exec(steps + more).Some?
    ensures
      var w, w' := Exec(steps).value, Exec(steps + more).value;
      && w'.past == w.past && |w'.past| > 0 && !w'.dirty && w'.lock == None
      && w'.calls == w.calls[c := Returned(w.calls[c].asked, true)]
      && Loaded(w'.disk) == w'.past[|w'.past| - 1]
  {
    SnapshotTheorem(steps);
    var w := Exec(steps).value;
    var locked := steps + [Lock(c)];
    ExecSnoc(steps, Lock(c));
    var w1 := Exec(locked).value;
    if !w.dirty {
      ExecSnoc(locked, Clean(c));
      more := [Lock(c), Clean(c)];
      assert steps + more == locked + [Clean(c)];
      assert Apply(w1, Clean(c)).calls == w.calls[c := Returned(w.calls[c].asked, true)];
    } else {
      FlushWrites(locked, c);
      more := [Lock(c)] + WritingSteps(c);
      assert steps + more == locked + WritingSteps(c);
      assert w1.calls[c := Returned(w1.calls[c].asked, true)] == w.calls[c := Returned(w.calls[c].asked, true)];
    }
  }

  function WritingSteps(c: nat): seq<Step> {
    [Marshal(c), Begin(c), WriteDone(c), Rename(c)]
  }

  lemma FlushWrites(steps: seq<Step>, c: nat)
    requires Exec(steps).Some? && |Exec(steps).value.past| > 0
    requires Holds(Exec(steps).value, c) && Exec(steps).value.calls[c].Locked? && Exec(steps).value.dirty
    ensures Exec(steps + WritingSteps(c)).Some?
    ensures
      var w, w' := Exec(steps).value, Exec(steps + WritingSteps(c)).value;
      && w'.past == w.past && !w'.dirty && w'.lock == None
      && w'.calls == w.calls[c := Returned(w.calls[c].asked, true)]
      && Loaded(w'.disk) == w'.past[|w'.past| - 1]
  {
    var w := Exec(steps).value;
    var asked, snap := w.calls[c].asked, Snap(Current(w), w.past[Current(w)]);
    var s1, s2 := steps + [Marshal(c)], steps + [Marshal(c)] + [Begin(c)];
    var s3 := s2 + [WriteDone(c)];
    ExecSnoc(steps, Marshal(c));
    assert Exec(s1).value == At(w, c, Marshalled(asked, snap)).(dirty := false);
    ExecSnoc(s1, Begin(c));
    assert Exec(s2).value == At(w, c, Writing(asked, snap)).(dirty := false, tmp := Torn);
    ExecSnoc(s2, WriteDone(c));
    assert Exec(s3).value == At(w, c, Written(asked, snap)).(dirty := false, tmp := Full(snap));
    ExecSnoc(s3, Rename(c));
    assert steps + WritingSteps(c) == s3 + [Rename(c)];
  }

  /** The danger is real: a crash can leave the temp file torn. The file itself then is
      what it was. */
  lemma TempCanBeTorn(data: Data) returns (steps: seq<Step>)
    ensures Exec(steps).Some? && Exec(steps).value.tmp.Torn? && Exec(steps).value.disk.Missing?
    ensures steps != [] && steps[|steps| - 1] == Crash
  {
    ExecSnoc([], Write(data));
    ExecSnoc([] + [Write(data)], Flush);
    steps := [] + [Write(data)] + [Flush];
    ExecSnoc(steps, Lock(0));
    steps := steps + [Lock(0)];
    ExecSnoc(steps, Marshal(0));
    steps := steps + [Marshal(0)];
    ExecSnoc(steps, Begin(0));
    steps := steps + [Begin(0)];
    ExecSnoc(steps, Crash);
    steps := steps + [Crash];
  }
}
