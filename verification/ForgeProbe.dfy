/** The Forge probe of internal/router/lobby.go and the rejections it records
    (internal/router/pending.go), on the expiring store. Joins are handled one at a
    time; what Rank returns and whether the client refuses are inputs. */
module ForgeProbe {
  import opened Prelude
  import opened ExpiringStore

  datatype Backend = Backend(id: string, channels: nat, truncated: bool)

  const REJECTED := "forge-rejected"
  const TTL := 600 * SECOND

  /** strings.ToLower */
  type Lower = string -> string

  /** The rejection key of a player and a server. */
  function Key(lower: Lower, player: string, server: string): string {
    lower(player) + "|" + server
  }

  predicate ServerId(id: string) {
    '|' !in id
  }

  predicate Probeable(b: Backend) {
    b.channels > 0 && !b.truncated
  }

  /** Rejected of pending.go. */
  predicate Refused(data: Data, key: string, now: int) {
    Seen(Find(data, REJECTED, key), now).Some?
  }

  /** One join of a Forge client, or any other use of the store. Only the probe
      writes the bucket of rejections. */
  datatype Event =
    | Join(player: string, ranked: seq<Backend>, emptyLists: bool, refuses: bool, at: int)
    | Other(call: ExpiringStore.Event)

  datatype Outcome =
    | Probed(id: string, refused: bool)
    | Asked(refused: bool)  // with empty lists
    | NoProbe               // errNoForgeProbe
    | NotAJoin

  function At(e: Event): int {
    if e.Join? then e.at else e.call.now
  }

  predicate Legal(e: Event) {
    match e
    case Join(_, ranked, _, _, _) => forall b <- ranked :: ServerId(b.id)
    case Other(call) => call.SetE? || call.DeleteE? ==> call.bucket != REJECTED
  }

  /** The loop over the ranked servers: reading a rejection drops it if it has expired. */
  function Select(data: Data, lower: Lower, player: string, ranked: seq<Backend>, now: int): (Data, Option<Backend>)
    decreases |ranked|
  {
    if ranked == [] then (data, None)
    else if !Probeable(ranked[0]) then Select(data, lower, player, ranked[1..], now)
    else
      var read := Step(data, GetE(REJECTED, Key(lower, player, ranked[0].id), now));
      if read.1 == Value(None) then (read.0, Some(ranked[0]))
      else Select(read.0, lower, player, ranked[1..], now)
  }

  /** What an event does to the store, and how a join's probe ends. */
  function Do(data: Data, lower: Lower, e: Event): (Data, Outcome) {
    match e
    case Other(call) => (Step(data, call).0, NotAJoin)
    case Join(player, ranked, emptyLists, refuses, at) =>
      var (data1, probe) := Select(data, lower, player, ranked, at);
      if probe.Some? then
        (if refuses then Step(data1, SetE(REJECTED, Key(lower, player, probe.value.id), "1", TTL, at)).0 else data1,
         Probed(probe.value.id, refuses))
      else (data1, if emptyLists then Asked(refuses) else NoProbe)
  }

  method ForgeModQuery(st: Store, lower: Lower, player: string, ranked: seq<Backend>, emptyLists: bool, refuses: bool,
                       now: int)
    returns (r: Outcome)
    modifies st
    ensures (st.data, r) == Do(old(st.data), lower, Join(player, ranked, emptyLists, refuses, now))
  {
    var probe: Option<Backend>, i := None, 0;
    while i < |ranked|
      invariant i <= |ranked| && probe == None
      invariant Select(st.data, lower, player, ranked[i..], now) == Select(old(st.data), lower, player, ranked, now)
    {
      var b := ranked[i];
      assert ranked[i..][1..] == ranked[i + 1..];
      if Probeable(b) {
        var rejected := st.Get(REJECTED, Key(lower, player, b.id), now);
        if rejected.None? {
          probe := Some(b);
          break;
        }
      }
      i := i + 1;
    }
    if probe.None? { return if emptyLists then Asked(refuses) else NoProbe; }
    if refuses { st.Set(REJECTED, Key(lower, player, probe.value.id), "1", TTL, now); }
    r := Probed(probe.value.id, refuses);
  }

  // -------------------------------------------------------------------- the keys

  lemma LastBar(a: string, s: string, i: nat)
    requires ServerId(s) && |a| <= i <= |a| + |s| && (a + "|" + s)[i] == '|'
    ensures i == |a|
  {
  }

  lemma AfterBar(a: string, s: string, b: string, t: string)
    requires ServerId(s) && ServerId(t) && a + "|" + s == b + "|" + t
    ensures a == b && s == t
  {
    var x, y := a + "|" + s, b + "|" + t;
    assert x[|a|] == '|' && y[|b|] == '|';
    if |a| <= |b| { LastBar(a, s, |b|); }
    if |b| <= |a| { LastBar(b, t, |a|); }
    assert a == x[..|a|] && b == y[..|b|] && s == x[|a| + 1..] && t == y[|b| + 1..];
  }

  /** A rejection key belongs to one player, up to case, and one server: server ids
      hold no separator, whatever a player's name holds. */
  lemma KeyIsInjective(lower: Lower, player: string, server: string, player': string, server': string)
    requires ServerId(server) && ServerId(server')
    ensures
      Key(lower, player, server) == Key(lower, player', server')
      <==> lower(player) == lower(player') && server == server'
  {
    if Key(lower, player, server) == Key(lower, player', server') {
      AfterBar(lower(player), server, lower(player'), server');
    }
  }

  // ----------------------------------------------------------------- one event

  /** There is a rejection that lasts at least until the given second. */
  predicate Lasts(data: Data, key: string, until: int) {
    var e := Find(data, REJECTED, key);
    e.Some? && (e.value.expires == 0 || e.value.expires >= until)
  }

  /** Every server of these that has a channel and a whole list is refused. */
  predicate AllRefused(data: Data, lower: Lower, player: string, servers: seq<Backend>, now: int) {
    forall b <- servers :: b.channels >= 1 && !b.truncated ==> Refused(data, Key(lower, player, b.id), now)
  }

  /** The probe is the first probe-able server that is not refused; the reads on the
      way change no answer. */
  lemma {:induction false} SelectFacts(data: Data, lower: Lower, player: string, ranked: seq<Backend>, now: int)
    ensures
      var (data1, probe) := Select(data, lower, player, ranked, now);
      && (probe.Some? ==>
          probe.value in ranked && Probeable(probe.value) && !Refused(data, Key(lower, player, probe.value.id), now))
      && (probe.Some? ==> probe.value.channels >= 1 && !probe.value.truncated)
      && (probe.Some? ==>
            exists i :: 0 <= i < |ranked| && ranked[i] == probe.value
                        && AllRefused(data, lower, player, ranked[..i], now))
      && (probe == None ==> forall b <- ranked :: Probeable(b) ==> Refused(data, Key(lower, player, b.id), now))
      && (forall k ::
          Find(data1, REJECTED, k) == Find(data, REJECTED, k)
            || (Find(data1, REJECTED, k) == None && !Refused(data, k, now)))
    decreases |ranked|
  {
    if ranked != [] {
      var rest := ranked[1..];
      var data1 :=
        if Probeable(ranked[0]) then Step(data, GetE(REJECTED, Key(lower, player, ranked[0].id), now)).0 else data;
      SelectFacts(data1, lower, player, rest, now);
      assert forall b <- ranked :: b == ranked[0] || b in rest;
    }
  }

  lemma DoKeeps(data: Data, lower: Lower, e: Event, key: string, until: int)
    requires Lasts(data, key, until) && Legal(e) && Unix(At(e)) < until
    ensures Lasts(Do(data, lower, e).0, key, until)
  {
    if e.Join? {
      SelectFacts(data, lower, e.player, e.ranked, e.at);
    }
  }

  /** A probe is never of a refused server, and one that fails is recorded. */
  lemma ProbeFacts(data: Data, lower: Lower, e: Event)
    requires Do(data, lower, e).1.Probed?
    ensures e.Join?
    ensures
      var (data1, outcome) := Do(data, lower, e);
      var key := Key(lower, e.player, outcome.id);
      && (exists b :: b in e.ranked && Probeable(b) && b.id == outcome.id)
      && !Refused(data, key, e.at)
      && (outcome.refused ==> Lasts(data1, key, Unix(e.at + TTL)))
  {
    SelectFacts(data, lower, e.player, e.ranked, e.at);
  }

  /** A refusal after an event was there before it, or is a failed probe's. */
  lemma RefusalComesFrom(data: Data, lower: Lower, e: Event, key: string, now: int)
    requires Legal(e) && Refused(Do(data, lower, e).0, key, now)
    ensures
      var o := Do(data, lower, e).1;
      || Refused(data, key, now)
      || (e.Join? && o.Probed? && o.refused && Key(lower, e.player, o.id) == key
          && (Unix(e.at + TTL) == 0 || Unix(now) < Unix(e.at + TTL)))
  {
    if e.Join? { SelectFacts(data, lower, e.player, e.ranked, e.at); }
  }

  lemma LastingIsRefused(data: Data, key: string, until: int, now: int)
    requires Lasts(data, key, until) && Unix(now) < until
    ensures Refused(data, key, now)
  {
  }

  // ---------------------------------------------------------------------- runs

  /** The store before the k-th event. */
  function Before(data: Data, lower: Lower, run: seq<Event>, k: nat): Data
    requires k <= |run|
    decreases k
  {
    if k == 0 then data else Do(Before(data, lower, run, k - 1), lower, run[k - 1]).0
  }

  function OutcomeAt(data: Data, lower: Lower, run: seq<Event>, k: nat): Outcome
    requires k < |run|
  {
    Do(Before(data, lower, run, k), lower, run[k]).1
  }

  predicate LegalRun(run: seq<Event>) {
    && (forall k :: 0 <= k < |run| ==> Legal(run[k]))
    && (forall i, j :: 0 <= i <= j < |run| ==> At(run[i]) <= At(run[j]))
  }

  /** The k-th event is a failed probe of that server for that player, up to case. */
  predicate Fails(data: Data, lower: Lower, run: seq<Event>, k: nat, name: string, id: string)
    requires k < |run|
  {
    run[k].Join? && lower(run[k].player) == name && OutcomeAt(data, lower, run, k) == Probed(id, true)
  }

  lemma {:induction false} RejectionLasts(data: Data, lower: Lower, run: seq<Event>, i: nat, j: nat, key: string,
                                          until: int)
    requires LegalRun(run) && i <= j <= |run| && Lasts(Before(data, lower, run, i), key, until)
    requires i < j ==> Unix(At(run[j - 1])) < until
    ensures Lasts(Before(data, lower, run, j), key, until)
    decreases j
  {
    if i < j {
      if i < j - 1 { assert At(run[j - 2]) <= At(run[j - 1]); }
      RejectionLasts(data, lower, run, i, j - 1, key, until);
      DoKeeps(Before(data, lower, run, j - 1), lower, run[j - 1], key, until);
    }
  }

  lemma FailureLasts(data: Data, lower: Lower, run: seq<Event>, i: nat, j: nat, name: string, id: string, now: int)
    requires LegalRun(run) && i < j <= |run| && Fails(data, lower, run, i, name, id)
    requires At(run[j - 1]) <= now && Unix(now) < Unix(At(run[i]) + TTL)
    ensures Lasts(Before(data, lower, run, j), name + "|" + id, Unix(At(run[i]) + TTL))
    ensures Refused(Before(data, lower, run, j), name + "|" + id, now)
  {
    var until := Unix(At(run[i]) + TTL);
    ProbeFacts(Before(data, lower, run, i), lower, run[i]);
    RejectionLasts(data, lower, run, i + 1, j, name + "|" + id, until);
    LastingIsRefused(Before(data, lower, run, j), name + "|" + id, until, now);
  }

  /** A server whose probe failed for a player is not presented to that player again
      before the second in which the rejection expires, whatever else uses the store
      in between. */
  lemma NotPresentedAgain(data: Data, lower: Lower, run: seq<Event>, i: nat, j: nat, name: string, id: string)
    requires LegalRun(run) && i < j < |run| && Fails(data, lower, run, i, name, id)
    requires run[j].Join? && lower(run[j].player) == name && OutcomeAt(data, lower, run, j).Probed?
    requires OutcomeAt(data, lower, run, j).id == id
    ensures Unix(At(run[j])) >= Unix(At(run[i]) + TTL)
  {
    ProbeFacts(Before(data, lower, run, j), lower, run[j]);
    if Unix(At(run[j])) < Unix(At(run[i]) + TTL) {
      assert At(run[j - 1]) <= At(run[j]);
      FailureLasts(data, lower, run, i, j, name, id, At(run[j]));
    }
  }

  /** The servers whose probe failed for a player in the first k events, and how
      many probes failed. */
  function FailedIds(data: Data, lower: Lower, run: seq<Event>, k: nat, name: string): set<string>
    requires k <= |run|
  {
    if k == 0 then {}
    else
      var o := OutcomeAt(data, lower, run, k - 1);
      FailedIds(data, lower, run, k - 1, name)
      + if run[k - 1].Join? && lower(run[k - 1].player) == name && o.Probed? && o.refused then {o.id} else {}
  }

  function Failures(data: Data, lower: Lower, run: seq<Event>, k: nat, name: string): nat
    requires k <= |run|
  {
    if k == 0 then 0
    else
      var o := OutcomeAt(data, lower, run, k - 1);
      Failures(data, lower, run, k - 1, name)
      + if run[k - 1].Join? && lower(run[k - 1].player) == name && o.Probed? && o.refused then 1 else 0
  }

  /** The probe-able servers that a player's joins are offered are among these. */
  predicate Offered(lower: Lower, run: seq<Event>, name: string, ids: set<string>) {
    forall k, b ::
      0 <= k < |run| && run[k].Join? && lower(run[k].player) == name && b in run[k].ranked && Probeable(b) ==>
        b.id in ids
  }

  lemma {:induction false} FailedWhen(data: Data, lower: Lower, run: seq<Event>, k: nat, name: string, id: string)
      returns (i: nat)
    requires k <= |run| && id in FailedIds(data, lower, run, k, name)
    ensures i < k && Fails(data, lower, run, i, name, id)
    decreases k
  {
    if id in FailedIds(data, lower, run, k - 1, name) {
      i := FailedWhen(data, lower, run, k - 1, name, id);
    } else {
      i := k - 1;
    }
  }

  /** Before anything expires: each failure is of another server. */
  lemma {:induction false} FailuresAreDistinct(data: Data, lower: Lower, run: seq<Event>, k: nat, name: string,
                                               ids: set<string>)
    requires LegalRun(run) && k <= |run| && Offered(lower, run, name, ids)
    requires k > 0 ==> Unix(At(run[k - 1])) < Unix(At(run[0]) + TTL)
    ensures FailedIds(data, lower, run, k, name) <= ids
    ensures Failures(data, lower, run, k, name) == |FailedIds(data, lower, run, k, name)|
    decreases k
  {
    if k > 0 {
      var e := run[k - 1];
      if k > 1 { assert At(run[k - 2]) <= At(e); }
      FailuresAreDistinct(data, lower, run, k - 1, name, ids);
      var o := OutcomeAt(data, lower, run, k - 1);
      if e.Join? && lower(e.player) == name && o.Probed? && o.refused {
        ProbeFacts(Before(data, lower, run, k - 1), lower, e);
        if o.id in FailedIds(data, lower, run, k - 1, name) {
          var i := FailedWhen(data, lower, run, k - 1, name, o.id);
          assert At(run[0]) <= At(run[i]);
          NotPresentedAgain(data, lower, run, i, k - 1, name, o.id);
        }
      }
    }
  }

  /** With n probe-able servers and no rejection expired yet, at most n probes of a
      player fail; after n failures the next join finds no server to probe with, and
      is not asked at all unless the empty-list query is on. */
  lemma AtMostOneFailureEach(data: Data, lower: Lower, run: seq<Event>, name: string, ids: set<string>)
    requires LegalRun(run) && run != [] && Offered(lower, run, name, ids)
    requires Unix(At(run[|run| - 1])) < Unix(At(run[0]) + TTL)
    ensures Failures(data, lower, run, |run|, name) <= |ids|
    ensures
      var last := run[|run| - 1];
      last.Join? && lower(last.player) == name && Failures(data, lower, run, |run| - 1, name) == |ids|
      ==> OutcomeAt(data, lower, run, |run| - 1) == if last.emptyLists then Asked(last.refuses) else NoProbe
  {
    var n := |run| - 1;
    FailuresAreDistinct(data, lower, run, n + 1, name, ids);
    SubsetSize(FailedIds(data, lower, run, n + 1, name), ids);
    var o := OutcomeAt(data, lower, run, n);
    if run[n].Join? && lower(run[n].player) == name && Failures(data, lower, run, n, name) == |ids| && o.Probed? {
      if n > 0 { assert At(run[n - 1]) <= At(run[n]); }
      FailuresAreDistinct(data, lower, run, n, name, ids);
      SubsetSize(FailedIds(data, lower, run, n, name), ids);
      ProbeFacts(Before(data, lower, run, n), lower, run[n]);
      var i := FailedWhen(data, lower, run, n, name, o.id);
      assert At(run[0]) <= At(run[i]);
      NotPresentedAgain(data, lower, run, i, n, name, o.id);
    }
  }

  /** The other way round: on a store without rejections, a server is refused only
      because its probe failed for that very player, and not yet too long ago. */
  lemma {:induction false} RefusedOnlyAfterFailure(data: Data, lower: Lower, run: seq<Event>, j: nat, player: string,
                                                   id: string, now: int)
      returns (i: nat)
    requires LegalRun(run) && j <= |run| && ServerId(id) && (forall key :: Find(data, REJECTED, key) == None)
    requires Refused(Before(data, lower, run, j), Key(lower, player, id), now)
    ensures i < j && Fails(data, lower, run, i, lower(player), id)
    ensures Unix(At(run[i]) + TTL) == 0 || Unix(now) < Unix(At(run[i]) + TTL)
    decreases j
  {
    var key := Key(lower, player, id);
    var before, e, o := Before(data, lower, run, j - 1), run[j - 1], OutcomeAt(data, lower, run, j - 1);
    RefusalComesFrom(before, lower, e, key, now);
    if Refused(before, key, now) {
      i := RefusedOnlyAfterFailure(data, lower, run, j - 1, player, id, now);
    } else {
      ProbeFacts(before, lower, e);
      KeyIsInjective(lower, player, id, e.player, o.id);
      i := j - 1;
    }
  }
}
