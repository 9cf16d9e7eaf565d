/** The key-value store of internal/store/store.go: per-key expiry in whole
    seconds, entries dropped lazily. Clock readings are nanoseconds. */
module ExpiringStore {
  import opened Prelude

  /** Buckets, keys and values are compared, never looked into. */
  type Text = string

  /** `expires` is a Unix second; 0 means never. */
  datatype Entry = Entry(value: Text, expires: int)

  type Data = map<Text, map<Text, Entry>>

  const SECOND: int := 1_000_000_000

  function Unix(now: int): int {
    now / SECOND
  }

  predicate Dead(e: Entry, now: int) {
    e.expires != 0 && Unix(now) >= e.expires
  }

  function Find(data: Data, bucket: Text, key: Text): Option<Entry> {
    if bucket in data && key in data[bucket] then Some(data[bucket][key]) else None
  }

  function Put(data: Data, bucket: Text, key: Text, e: Entry): Data {
    data[bucket := (if bucket in data then data[bucket] else map[])[key := e]]
  }

  function Cut(data: Data, bucket: Text, key: Text): Data {
    if Find(data, bucket, key).Some? then data[bucket := data[bucket] - {key}] else data
  }

  function NewEntry(value: Text, ttl: int, now: int): Entry {
    Entry(value, if ttl > 0 then Unix(now + ttl) else 0)
  }

  /** What a reader is told. */
  function Seen(found: Option<Entry>, now: int): Option<Text> {
    if found.Some? && !Dead(found.value, now) then Some(found.value.value) else None
  }

  predicate IsDead(found: Option<Entry>, now: int) {
    found.Some? && Dead(found.value, now)
  }

  function PrunedBucket(b: map<Text, Entry>, now: int): map<Text, Entry> {
    map k | k in b && !Dead(b[k], now) :: b[k]
  }

  function Pruned(data: Data, now: int): Data {
    map b | b in data :: PrunedBucket(data[b], now)
  }

  function LiveKeys(data: Data, bucket: Text, now: int): set<Text> {
    if bucket in data then PrunedBucket(data[bucket], now).Keys else {}
  }

  class Store {
    var data: Data
    var dirty: bool

    /** Open: `loaded` is the file's content, empty without a file; what expired
        while the gateway was down is dropped. */
    constructor (loaded: Data, now: int)
      ensures data == Pruned(loaded, now)
      ensures !dirty ==> data == loaded
    {
      data, dirty := loaded, false;
      new;
      Prune(now);
    }

    method Set(bucket: Text, key: Text, value: Text, ttl: int, now: int)
      modifies this
      ensures data == Put(old(data), bucket, key, NewEntry(value, ttl, now)) && dirty
    {
      var b := if bucket in data then data[bucket] else map[];
      var e := Entry(value, 0);
      if ttl > 0 {
        e := e.(expires := Unix(now + ttl));
      }
      b := b[key := e];
      data := data[bucket := b];
      dirty := true;
    }

    /** A read removes what it finds expired. */
    method Get(bucket: Text, key: Text, now: int) returns (value: Option<Text>)
      modifies this
      ensures value == Seen(Find(old(data), bucket, key), now)
      ensures data == if IsDead(Find(old(data), bucket, key), now) then Cut(old(data), bucket, key) else old(data)
      ensures dirty == (old(dirty) || data != old(data))
    {
      if bucket !in data || key !in data[bucket] { return None; }
      var e := data[bucket][key];
      if e.expires != 0 && Unix(now) >= e.expires {
        data := data[bucket := data[bucket] - {key}];
        assert key !in data[bucket] && key in old(data)[bucket];
        dirty := true;
        return None;
      }
      value := Some(e.value);
    }

    method Delete(bucket: Text, key: Text)
      modifies this
      ensures data == Cut(old(data), bucket, key)
      ensures dirty == (old(dirty) || data != old(data))
    {
      if bucket in data && key in data[bucket] {
        data := data[bucket := data[bucket] - {key}];
        assert key !in data[bucket] && key in old(data)[bucket];
        dirty := true;
      }
    }

    method Len(bucket: Text, now: int) returns (n: nat)
      ensures n == |LiveKeys(data, bucket, now)|
    {
      n := 0;
      if bucket !in data { return; }
      var rest := data[bucket].Keys;
      ghost var live: set<Text> := {};
      while rest != {}
        invariant rest <= data[bucket].Keys
        invariant forall k :: k in live <==> k in data[bucket] && k !in rest && !Dead(data[bucket][k], now)
        invariant n == |live|
      {
        var k :| k in rest;
        rest := rest - {k};
        var e := data[bucket][k];
        if e.expires == 0 || Unix(now) < e.expires {
          n := n + 1;
          live := live + {k};
        }
      }
      assert live == LiveKeys(data, bucket, now);
    }

    method Prune(now: int)
      modifies this
      ensures data == Pruned(old(data), now)
      ensures dirty == (old(dirty) || data != old(data))
    {
      var buckets := data.Keys;
      while buckets != {}
        invariant buckets <= data.Keys == old(data).Keys
        invariant forall b <- data :: data[b] == if b in buckets then old(data)[b] else PrunedBucket(old(data)[b], now)
        invariant dirty == (old(dirty) || data != old(data))
      {
        var b :| b in buckets;
        buckets := buckets - {b};
        var kept, changed := PruneOne(data[b], now);
        data := data[b := kept];
        if changed {
          dirty := true;
          assert data[b] != old(data)[b];
        } else {
          assert data[b] == old(data)[b];
        }
      }
      assert data == Pruned(old(data), now);
    }
  }

  /** The inner loop of Prune. */
  method PruneOne(b: map<Text, Entry>, now: int) returns (kept: map<Text, Entry>, changed: bool)
    ensures kept == PrunedBucket(b, now)
    ensures changed <==> kept != b
  {
    kept, changed := b, false;
    var rest := b.Keys;
    while rest != {}
      invariant rest <= kept.Keys <= b.Keys
      invariant forall k <- kept :: kept[k] == b[k] && (k in rest || !Dead(b[k], now))
      invariant forall k <- b :: k in kept || Dead(b[k], now)
      invariant changed <==> kept != b
    {
      var k :| k in rest;
      rest := rest - {k};
      if kept[k].expires != 0 && Unix(now) >= kept[k].expires {
        kept := kept - {k};
        assert k in b && k !in kept;
        changed := true;
      }
    }
  }

  // ---------------------------------------------------------------- last write wins until its expiry second

  /** One call, with the clock reading it makes. */
  datatype Event =
    | SetE(bucket: Text, key: Text, value: Text, ttl: int, now: int)
    | GetE(bucket: Text, key: Text, now: int)
    | DeleteE(bucket: Text, key: Text, now: int)
    | LenE(bucket: Text, now: int)
    | PruneE(now: int)

  datatype Answer = Nothing | Value(v: Option<Text>) | Count(n: nat)

  /** What a call does to the store's map, and what it answers. */
  function Step(data: Data, e: Event): (Data, Answer) {
    match e
    case SetE(b, k, v, ttl, now) => (Put(data, b, k, NewEntry(v, ttl, now)), Nothing)
    case GetE(b, k, now) =>
      (if IsDead(Find(data, b, k), now) then Cut(data, b, k) else data, Value(Seen(Find(data, b, k), now)))
    case DeleteE(b, k, _) => (Cut(data, b, k), Nothing)
    case LenE(b, now) => (data, Count(|LiveKeys(data, b, now)|))
    case PruneE(now) => (Pruned(data, now), Nothing)
  }

  /** The reference: writes and deletions only; nothing is ever dropped for its
      age, readers just do not see what has expired. */
  function IdealStep(data: Data, e: Event): (Data, Answer) {
    match e
    case SetE(b, k, v, ttl, now) => (Put(data, b, k, NewEntry(v, ttl, now)), Nothing)
    case GetE(b, k, now) => (data, Value(Seen(Find(data, b, k), now)))
    case DeleteE(b, k, _) => (Cut(data, b, k), Nothing)
    case LenE(b, now) => (data, Count(|LiveKeys(data, b, now)|))
    case PruneE(_) => (data, Nothing)
  }

  function Answers(data: Data, events: seq<Event>): seq<Answer>
    decreases |events|
  {
    if events == [] then [] else
    var (data1, a) := Step(data, events[0]);
    [a] + Answers(data1, events[1..])
  }

  function IdealAnswers(data: Data, events: seq<Event>): seq<Answer>
    decreases |events|
  {
    if events == [] then [] else
    var (data1, a) := IdealStep(data, events[0]);
    [a] + IdealAnswers(data1, events[1..])
  }

  predicate Monotone(from: int, events: seq<Event>)
    decreases |events|
  {
    events == [] || (from <= events[0].now && Monotone(events[0].now, events[1..]))
  }

  /** An entry a reader can see, as of now. */
  function Visible(data: Data, bucket: Text, key: Text, now: int): Option<Entry> {
    var found := Find(data, bucket, key);
    if IsDead(found, now) then None else found
  }

  ghost predicate SameVisible(a: Data, b: Data, now: int) {
    forall bucket, key :: Visible(a, bucket, key, now) == Visible(b, bucket, key, now)
  }

  lemma SameVisibleLater(a: Data, b: Data, now: int, later: int)
    requires SameVisible(a, b, now) && now <= later
    ensures SameVisible(a, b, later)
  {
    forall bucket, key ensures Visible(a, bucket, key, later) == Visible(b, bucket, key, later) {
      assert Visible(a, bucket, key, now) == Visible(b, bucket, key, now);
      assert Unix(now) <= Unix(later);
    }
  }

  lemma SameLiveKeys(a: Data, b: Data, bucket: Text, now: int)
    requires SameVisible(a, b, now)
    ensures LiveKeys(a, bucket, now) == LiveKeys(b, bucket, now)
  {
    forall k ensures k in LiveKeys(a, bucket, now) <==> k in LiveKeys(b, bucket, now) {
      assert Visible(a, bucket, k, now) == Visible(b, bucket, k, now);
    }
  }

  lemma StepRefines(data: Data, ideal: Data, e: Event)
    requires SameVisible(data, ideal, e.now)
    ensures Step(data, e).1 == IdealStep(ideal, e).1
    ensures SameVisible(Step(data, e).0, IdealStep(ideal, e).0, e.now)
  {
    var data1, ideal1 := Step(data, e).0, IdealStep(ideal, e).0;
    if e.LenE? { SameLiveKeys(data, ideal, e.bucket, e.now); }
    if e.GetE? { assert Visible(data, e.bucket, e.key, e.now) == Visible(ideal, e.bucket, e.key, e.now); }
    forall b, k ensures Visible(data1, b, k, e.now) == Visible(ideal1, b, k, e.now) {
      assert Visible(data, b, k, e.now) == Visible(ideal, b, k, e.now);
    }
  }

  lemma {:induction false} RunRefines(data: Data, ideal: Data, from: int, events: seq<Event>)
    requires SameVisible(data, ideal, from) && Monotone(from, events)
    ensures Answers(data, events) == IdealAnswers(ideal, events)
    decreases |events|
  {
    if events != [] {
      var e := events[0];
      SameVisibleLater(data, ideal, from, e.now);
      StepRefines(data, ideal, e);
      RunRefines(Step(data, e).0, IdealStep(ideal, e).0, e.now, events[1..]);
    }
  }

  /** Over every run with a monotone clock the store answers every read and
      every count like one that only remembers the last write of each key and
      when it expires, whatever prunes and expiring reads come between. */
  lemma ForgettingIsInvisible(from: int, events: seq<Event>)
    requires Monotone(from, events)
    ensures Answers(map[], events) == IdealAnswers(map[], events)
  {
    RunRefines(map[], map[], from, events);
  }

  /** No event of the run writes or deletes this key. */
  predicate Untouched(e: Event, bucket: Text, key: Text) {
    !((e.SetE? || e.DeleteE?) && e.bucket == bucket && e.key == key)
  }

  function After(data: Data, events: seq<Event>): Data
    decreases |events|
  {
    if events == [] then data else After(Step(data, events[0]).0, events[1..])
  }

  lemma {:induction false} UntouchedStays(data: Data, events: seq<Event>, from: int, bucket: Text, key: Text, now: int)
    requires Monotone(from, events) && (forall e <- events :: Untouched(e, bucket, key) && e.now <= now)
    ensures Visible(After(data, events), bucket, key, now) == Visible(data, bucket, key, now)
    decreases |events|
  {
    if events != [] {
      var e := events[0];
      assert e in events && Untouched(e, bucket, key) && Unix(e.now) <= Unix(now);
      UntouchedStays(Step(data, e).0, events[1..], e.now, bucket, key, now);
    }
  }

  /** The exact answer: after a Set and any calls that do not write the key, a
      Get returns the value set exactly when the entry never expires or the
      clock's second is still before the second of set time + ttl. */
  lemma LastWriteWins(before: Data, bucket: Text, key: Text, value: Text, ttl: int, at: int, events: seq<Event>,
                      now: int)
    requires Monotone(at, events) && at <= now && (forall e <- events :: Untouched(e, bucket, key) && e.now <= now)
    ensures
      var data := After(Put(before, bucket, key, NewEntry(value, ttl, at)), events);
      Step(data, GetE(bucket, key, now)).1 == Value(
        if ttl <= 0 || Unix(at + ttl) == 0 || Unix(now) < Unix(at + ttl) then Some(value) else None)
  {
    UntouchedStays(Put(before, bucket, key, NewEntry(value, ttl, at)), events, at, bucket, key, now);
  }

  /** A deleted key is not seen again until it is written, whatever else is called. */
  lemma DeletedIsGone(before: Data, bucket: Text, key: Text, at: int, events: seq<Event>, now: int)
    requires Monotone(at, events) && at <= now && (forall e <- events :: Untouched(e, bucket, key) && e.now <= now)
    ensures
      var data := After(Step(before, DeleteE(bucket, key, at)).0, events);
      Step(data, GetE(bucket, key, now)).1 == Value(None)
  {
    UntouchedStays(Step(before, DeleteE(bucket, key, at)).0, events, at, bucket, key, now);
  }

  /** A count is the number of the keys that a Get at that time would find. */
  lemma LenCountsWhatGetFinds(data: Data, bucket: Text, now: int, found: set<Text>)
    requires forall k :: k in found <==> Step(data, GetE(bucket, k, now)).1 != Value(None)
    ensures Step(data, LenE(bucket, now)).1 == Count(|found|)
  {
    assert found == LiveKeys(data, bucket, now);
  }

  /** No call but those that name a key changes what a Get of another one gives. */
  lemma OthersAreUntouched(data: Data, e: Event, bucket: Text, key: Text, now: int)
    requires Untouched(e, bucket, key) && e.now <= now
    ensures Step(Step(data, e).0, GetE(bucket, key, now)).1 == Step(data, GetE(bucket, key, now)).1
  {
    UntouchedStays(data, [e], e.now, bucket, key, now);
    assert After(data, [e]) == Step(data, e).0 by { assert [e][1..] == []; }
  }

  /** Reopening from what the file holds gives every later call the same answer. */
  lemma ReopenIsInvisible(data: Data, now: int, events: seq<Event>)
    requires Monotone(now, events)
    ensures Answers(Pruned(data, now), events) == Answers(data, events)
  {
    RunRefines(Pruned(data, now), data, now, events);
    RunRefines(data, data, now, events);
  }
}
