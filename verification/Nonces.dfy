/** The jar's replay cache (nonceSeen of Guard.java) behind the check of signed
    headers: what runs of connections can get past it. A connection reads the clock
    once, in milliseconds, and is handled at one instant. */
module Nonces {
  import opened Prelude
  import opened Bits
  import opened Guard
  import opened GuardTheorems

  /** System.currentTimeMillis. */
  type Millis = x: int | 0 <= x < 0x8000_0000_0000_0000

  const NONCE_TTL := 240_000
  const PRUNE_EVERY := 60_000
  const MANY := 100_000

  /** The map from nonces to the time they were first seen, and the last prune. */
  datatype Cache = Cache(nonces: map<Nonce, Millis>, lastPrune: int)

  const EMPTY := Cache(map[], 0)

  predicate Prunes(c: Cache, now: Millis) {
    now - c.lastPrune > PRUNE_EVERY || |c.nonces| > MANY
  }

  function Pruned(nonces: map<Nonce, Millis>, now: Millis): map<Nonce, Millis> {
    map n | n in nonces && now - nonces[n] <= NONCE_TTL :: nonces[n]
  }

  function AfterPrune(c: Cache, now: Millis): Cache {
    if Prunes(c, now) then Cache(Pruned(c.nonces, now), now) else c
  }

  /** nonceSeen: the new cache, and whether the nonce was there. */
  function Seen(c: Cache, nonce: Nonce, now: Millis): (Cache, bool) {
    var p := AfterPrune(c, now);
    if nonce in p.nonces then (p, true) else (p.(nonces := p.nonces[nonce := now]), false)
  }

  class NonceCache {
    var nonces: map<Nonce, Millis>
    var lastPrune: int

    constructor ()
      ensures nonces == map[] && lastPrune == 0
    {
      nonces, lastPrune := map[], 0;
    }

    method NonceSeen(nonce: Nonce, now: Millis) returns (seen: bool)
      modifies this
      ensures (Cache(nonces, lastPrune), seen) == Seen(old(Cache(nonces, lastPrune)), nonce, now)
    {
      if now - lastPrune > PRUNE_EVERY || |nonces| > MANY {
        lastPrune := now;
        var todo := nonces.Keys;
        while todo != {}
          invariant lastPrune == now && todo <= nonces.Keys <= old(nonces).Keys
          invariant forall n <- nonces :: nonces[n] == old(nonces)[n]
          invariant forall n <- old(nonces) :: n in todo || (n in nonces <==> now - old(nonces)[n] <= NONCE_TTL)
          decreases |todo|
        {
          var n :| n in todo;
          if now - nonces[n] > NONCE_TTL { nonces := nonces - {n}; }
          todo := todo - {n};
        }
        assert nonces == Pruned(old(nonces), now);
      }
      seen := nonce in nonces;
      if !seen { nonces := nonces[nonce := now]; }
    }
  }

  // ---------------------------------------------------------- runs of connections

  /** A connection that presents a header at some time. */
  datatype Connection = Connection(header: Bytes, at: Millis)

  function SecondsAt(at: Millis): Seconds {
    at / 1000
  }

  /** The checks before the nonce: the nonce of a header that passes them. */
  function Presented(hmac: Hmac, key: Bytes, c: Connection): Option<Nonce> {
    var s := Opened(c.header);
    if s.Ok? && Authentic(hmac, key, s.value) && InTime(Java(SecondsAt(c.at)), s.value.ts)
    then Some(s.value.nonce)
    else None
  }

  /** The cache after a connection, and whether it was let through. */
  function Step(hmac: Hmac, key: Bytes, cache: Cache, c: Connection): (Cache, bool) {
    var nonce := Presented(hmac, key, c);
    if nonce.None? then (cache, false)
    else
      var r := Seen(cache, nonce.value, c.at);
      (r.0, !r.1)
  }

  function After(hmac: Hmac, key: Bytes, cache: Cache, run: seq<Connection>): Cache
    decreases |run|
  {
    if run == [] then cache else After(hmac, key, Step(hmac, key, cache, run[0]).0, run[1..])
  }

  /** The k-th connection of a run that starts from the given cache is let through. */
  predicate Accepted(hmac: Hmac, key: Bytes, cache: Cache, run: seq<Connection>, k: nat)
    requires k < |run|
    decreases |run|
  {
    if k == 0 then Step(hmac, key, cache, run[0]).1
    else Accepted(hmac, key, Step(hmac, key, cache, run[0]).0, run[1..], k - 1)
  }

  predicate Monotone(run: seq<Connection>) {
    forall i, j :: 0 <= i < j < |run| ==> run[i].at <= run[j].at
  }

  /** Being let through is what the verifier answers, given the nonce check. */
  lemma AcceptedIsVerified(hmac: Hmac, key: Bytes, cache: Cache, c: Connection)
    ensures
      Step(hmac, key, cache, c).1
      <==> Verified(hmac, key, c.header, Java(SecondsAt(c.at)), (n: Nonce) => Seen(cache, n, c.at).1).Ok?
  {
  }

  /** The connections whose header is authentic and in time. */
  function Genuine(hmac: Hmac, key: Bytes, run: seq<Connection>): seq<Connection>
    decreases |run|
  {
    if run == [] then []
    else if Presented(hmac, key, run[0]).None? then Genuine(hmac, key, run[1..])
    else [run[0]] + Genuine(hmac, key, run[1..])
  }

  /** The connections of a run that the verifier, asking this cache, lets through. */
  function Admitted(hmac: Hmac, key: Bytes, cache: Cache, run: seq<Connection>): seq<Connection>
    decreases |run|
  {
    if run == [] then []
    else
      var c, next := run[0], Step(hmac, key, cache, run[0]).0;
      var ok := Verified(hmac, key, c.header, Java(SecondsAt(c.at)), (n: Nonce) => Seen(cache, n, c.at).1).Ok?;
      (if ok then [c] else []) + Admitted(hmac, key, next, run[1..])
  }

  /** Connections without an authentic header in time, however many, neither fill
      the cache nor change who else is let through. */
  lemma {:induction false} OthersAreInvisible(hmac: Hmac, key: Bytes, cache: Cache, run: seq<Connection>)
    ensures After(hmac, key, cache, run) == After(hmac, key, cache, Genuine(hmac, key, run))
    ensures Admitted(hmac, key, cache, run) == Admitted(hmac, key, cache, Genuine(hmac, key, run))
    decreases |run|
  {
    if run != [] {
      var c := run[0];
      AcceptedIsVerified(hmac, key, cache, c);
      OthersAreInvisible(hmac, key, Step(hmac, key, cache, c).0, run[1..]);
      var g := Genuine(hmac, key, run);
      if Presented(hmac, key, c).Some? { assert g[0] == c && g[1..] == Genuine(hmac, key, run[1..]); }
    }
  }

  lemma StepRemembers(hmac: Hmac, key: Bytes, cache: Cache, c: Connection, nonce: Nonce, t: Millis)
    requires nonce in cache.nonces && cache.nonces[nonce] == t
    ensures
      var r := Step(hmac, key, cache, c);
      && (r.1 && Presented(hmac, key, c) == Some(nonce) ==> c.at - t > NONCE_TTL)
      && (c.at - t > NONCE_TTL || (nonce in r.0.nonces && r.0.nonces[nonce] == t))
  {
  }

  lemma LaterRun(run: seq<Connection>)
    requires run != [] && Monotone(run)
    ensures Monotone(run[1..]) && forall k :: 0 < k < |run| ==> run[1..][k - 1] == run[k] && run[0].at <= run[k].at
  {
  }

  lemma {:induction false} LaterAcceptance(hmac: Hmac, key: Bytes, cache: Cache, run: seq<Connection>, nonce: Nonce,
                                           t: Millis, j: nat)
    requires nonce in cache.nonces && cache.nonces[nonce] == t && Monotone(run)
    requires j < |run| && Accepted(hmac, key, cache, run, j) && Presented(hmac, key, run[j]) == Some(nonce)
    ensures run[j].at - t > NONCE_TTL
    decreases j
  {
    StepRemembers(hmac, key, cache, run[0], nonce, t);
    if j > 0 {
      var next := Step(hmac, key, cache, run[0]).0;
      LaterRun(run);
      if nonce in next.nonces && next.nonces[nonce] == t {
        LaterAcceptance(hmac, key, next, run[1..], nonce, t, j - 1);
      }
    }
  }

  lemma AcceptanceIsRecorded(hmac: Hmac, key: Bytes, cache: Cache, c: Connection)
    ensures
      var r := Step(hmac, key, cache, c);
      var nonce := Presented(hmac, key, c);
      r.1 ==> nonce.Some? && nonce.value in r.0.nonces && r.0.nonces[nonce.value] == c.at
  {
  }

  lemma AgainLater(hmac: Hmac, key: Bytes, cache: Cache, run: seq<Connection>, j: nat)
    requires Monotone(run) && 0 < j < |run| && Presented(hmac, key, run[0]) == Presented(hmac, key, run[j])
    requires Accepted(hmac, key, cache, run, 0) && Accepted(hmac, key, cache, run, j)
    ensures run[j].at - run[0].at > 240_000
  {
    LaterRun(run);
    AcceptanceIsRecorded(hmac, key, cache, run[0]);
    var next := Step(hmac, key, cache, run[0]).0;
    LaterAcceptance(hmac, key, next, run[1..], Presented(hmac, key, run[0]).value, run[0].at, j - 1);
  }

  /** Two acceptances of one nonce are always more than 240 000 ms apart, whatever
      else connects in between and whatever prunes that causes. */
  lemma {:induction false} NonceTheorem(hmac: Hmac, key: Bytes, cache: Cache, run: seq<Connection>, i: nat, j: nat)
    requires Monotone(run) && i < j < |run|
    requires Accepted(hmac, key, cache, run, i) && Accepted(hmac, key, cache, run, j)
    requires Presented(hmac, key, run[i]) == Presented(hmac, key, run[j])
    ensures run[j].at - run[i].at > 240_000
    decreases i
  {
    LaterRun(run);
    if i > 0 {
      assert run[1..][i - 1] == run[i] && run[1..][j - 1] == run[j];
      NonceTheorem(hmac, key, Step(hmac, key, cache, run[0]).0, run[1..], i - 1, j - 1);
    } else {
      AgainLater(hmac, key, cache, run, j);
    }
  }

  lemma {:induction false} AcceptedIsPresented(hmac: Hmac, key: Bytes, cache: Cache, run: seq<Connection>, k: nat)
    requires k < |run| && Accepted(hmac, key, cache, run, k)
    ensures Presented(hmac, key, run[k]).Some?
    decreases k
  {
    if k > 0 {
      AcceptedIsPresented(hmac, key, Step(hmac, key, cache, run[0]).0, run[1..], k - 1);
    }
  }

  /** Milliseconds do not come near the times at which the skew check goes astray
      twice for one stamp: two seconds that are both in time are 240 apart at most. */
  lemma SkewWindow(a: Millis, b: Millis, ts: Stamp)
    requires InTime(Java(SecondsAt(a)), ts) && InTime(Java(SecondsAt(b)), ts)
    ensures -2 * MAX_SKEW <= SecondsAt(b) - SecondsAt(a) <= 2 * MAX_SKEW
  {
    SkewIsExact(SecondsAt(a), ts, 0);
    SkewIsExact(SecondsAt(b), ts, 0);
  }

  /** No header is let through twice, if the clock is read in whole seconds. In
      milliseconds the second time is at most 999 ms after the TTL has passed: a
      header let through twice is let through so late that only the flooring of
      the clock keeps its stamp in time. */
  lemma NoHeaderTwice(hmac: Hmac, key: Bytes, cache: Cache, run: seq<Connection>, i: nat, j: nat)
    requires Monotone(run) && i < j < |run| && run[i].header == run[j].header
    requires Accepted(hmac, key, cache, run, i) && Accepted(hmac, key, cache, run, j)
    ensures 240_000 < run[j].at - run[i].at <= 240_999
    ensures run[i].at % 1000 != 0 || run[j].at % 1000 != 0
  {
    AcceptedIsPresented(hmac, key, cache, run, i);
    AcceptedIsPresented(hmac, key, cache, run, j);
    NonceTheorem(hmac, key, cache, run, i, j);
    SkewWindow(run[i].at, run[j].at, Opened(run[i].header).value.ts);
  }

  /** When the next connection after an accepted one presents the same header, it is
      let through exactly if its stamp is still in time and the TTL has passed. */
  lemma ReplayedExactly(hmac: Hmac, key: Bytes, cache: Cache, header: Bytes, a: Millis, b: Millis)
    requires cache.lastPrune <= a <= b
    ensures
      var first := Step(hmac, key, cache, Connection(header, a));
      first.1 ==>
        (Step(hmac, key, first.0, Connection(header, b)).1
         <==> Presented(hmac, key, Connection(header, b)).Some? && b - a > 240_000)
  {
    AcceptanceIsRecorded(hmac, key, cache, Connection(header, a));
  }

  /** Such a replay exists: a header shown at the first and at the last millisecond
      at which its stamp is in time. */
  lemma MillisecondsLeaveAGap(hmac: Hmac, key: Bytes, nonce: Nonce)
    ensures
      var header := Header(hmac, key, OtherAddr, OtherAddr, 1000, nonce);
      var run := [Connection(header, 880_000), Connection(header, 1_120_999)];
      Monotone(run) && Accepted(hmac, key, EMPTY, run, 0) && Accepted(hmac, key, EMPTY, run, 1)
  {
    var header := Header(hmac, key, OtherAddr, OtherAddr, 1000, nonce);
    var run := [Connection(header, 880_000), Connection(header, 1_120_999)];
    SignedHeaderOpens(hmac, key, CMD_LOCAL, FAM_UNSPEC, [], StampOf(1000), nonce);
    SkewIsExact(880, StampOf(1000), 0);
    SkewIsExact(1120, StampOf(1000), 0);
    assert Step(hmac, key, EMPTY, run[0]).1;
    ReplayedExactly(hmac, key, EMPTY, header, 880_000, 1_120_999);
    assert run[1..][0] == run[1];
  }

  // ---------------------------------------------------------- the cache stays small

  /** Nothing in the cache was too old at the last prune. */
  predicate NothingOld(c: Cache) {
    forall n <- c.nonces :: c.lastPrune - c.nonces[n] <= 240_000
  }

  lemma SeenKeepsPruned(c: Cache, nonce: Nonce, now: Millis)
    requires NothingOld(c) && c.lastPrune <= now
    ensures
      var after := Seen(c, nonce, now).0;
      && NothingOld(after) && after.lastPrune <= now && now - after.lastPrune <= 60_000
      && (|c.nonces| > 100_000 ==> after.lastPrune == now)
  {
  }

  /** Over every run the cache forgets: after a header that passes the checks before
      it, nothing in it is older than the TTL and a minute; with more than 100 000
      nonces it is pruned at once. */
  lemma {:induction false} CacheForgets(hmac: Hmac, key: Bytes, run: seq<Connection>, c: Connection)
    requires Monotone(run + [c]) && Presented(hmac, key, c).Some?
    ensures
      var before := After(hmac, key, EMPTY, run);
      var after := Step(hmac, key, before, c).0;
      && (forall n <- after.nonces :: c.at - after.nonces[n] <= 300_000)
      && (|before.nonces| > 100_000 ==> forall n <- after.nonces :: c.at - after.nonces[n] <= 240_000)
  {
    forall k | 0 <= k < |run| ensures run[k].at <= c.at {
      assert (run + [c])[k] == run[k] && (run + [c])[|run|] == c;
    }
    assert Monotone(run) by {
      forall i, j | 0 <= i < j < |run| ensures run[i].at <= run[j].at {
        assert (run + [c])[i] == run[i] && (run + [c])[j] == run[j];
      }
    }
    RunKeepsPruned(hmac, key, EMPTY, run, c.at);
    SeenKeepsPruned(After(hmac, key, EMPTY, run), Presented(hmac, key, c).value, c.at);
  }

  lemma {:induction false} RunKeepsPruned(hmac: Hmac, key: Bytes, cache: Cache, run: seq<Connection>, now: Millis)
    requires Monotone(run) && NothingOld(cache) && cache.lastPrune <= now
    requires forall k :: 0 <= k < |run| ==> cache.lastPrune <= run[k].at <= now
    ensures NothingOld(After(hmac, key, cache, run)) && After(hmac, key, cache, run).lastPrune <= now
    decreases |run|
  {
    if run != [] {
      LaterRun(run);
      var nonce := Presented(hmac, key, run[0]);
      if nonce.Some? { SeenKeepsPruned(cache, nonce.value, run[0].at); }
      var next := Step(hmac, key, cache, run[0]).0;
      forall k | 0 <= k < |run[1..]| ensures next.lastPrune <= run[1..][k].at <= now {
        assert run[1..][k] == run[k + 1] && run[0].at <= run[k + 1].at;
      }
      RunKeepsPruned(hmac, key, next, run[1..], now);
    }
  }
}
