/** The connection limiter of internal/router/limits.go on values: token bucket
    and concurrency cap per IP, over exact reals. Times are counted in refills:
    one unit is the time in which one token comes back, so `rate * seconds` is
    simply a duration. ConnLimiter does the conversion from seconds. */
module RateLimit {
  import opened Prelude

  type Ip = nat

  /** `limited` is false when the rate is not positive, which disables the bucket;
      cap <= 0 disables the concurrency limit. */
  datatype Config = Config(limited: bool, burst: real, cap: int)

  datatype State = State(tokens: real, last: real, active: int)

  /** A release function handed out by acquire; it works once. */
  datatype Ticket = Ticket(ip: Ip, used: bool)

  datatype Limiter = Limiter(ips: map<Ip, State>, tickets: seq<Ticket>)

  datatype Reason = Accepted | Rate | Concurrency

  /** newLimiter raises a burst below 1 to 1; acquire and sweep do nothing at all
      when both limits are off. */
  predicate Configured(cfg: Config) {
    cfg.burst >= 1.0 && (cfg.limited || cfg.cap > 0)
  }

  function RMin(a: real, b: real): real {
    if a <= b then a else b
  }

  // ---------------------------------------------------------------- operations

  function Refilled(cfg: Config, st: State, now: real): State {
    if cfg.limited then st.(tokens := RMin(cfg.burst, st.tokens + now - st.last), last := now) else st
  }

  function Admit(cfg: Config, st: State, now: real): (State, Reason) {
    var st1 := Refilled(cfg, st, now);
    if cfg.limited && st1.tokens < 1.0 then (st1, Rate)
    else if cfg.cap > 0 && st1.active >= cfg.cap then (st1, Concurrency)
    else (st1.(tokens := if cfg.limited then st1.tokens - 1.0 else st1.tokens, active := st1.active + 1), Accepted)
  }

  function StateOf(cfg: Config, l: Limiter, ip: Ip, now: real): State {
    if ip in l.ips then l.ips[ip] else State(cfg.burst, now, 0)
  }

  function Acquire(cfg: Config, l: Limiter, ip: Ip, now: real): (Limiter, Reason) {
    var (st, reason) := Admit(cfg, StateOf(cfg, l, ip, now), now);
    (Limiter(l.ips[ip := st], if reason == Accepted then l.tickets + [Ticket(ip, false)] else l.tickets), reason)
  }

  function Release(l: Limiter, n: nat): Limiter
    requires n < |l.tickets|
  {
    var t := l.tickets[n];
    if t.used || t.ip !in l.ips then l
    else Limiter(l.ips[t.ip := l.ips[t.ip].(active := l.ips[t.ip].active - 1)], l.tickets[n := t.(used := true)])
  }

  predicate Idle(cfg: Config, st: State, now: real) {
    st.active == 0 && (!cfg.limited || st.tokens + now - st.last >= cfg.burst)
  }

  function Sweep(cfg: Config, l: Limiter, now: real): Limiter {
    l.(ips := map ip | ip in l.ips && !Idle(cfg, l.ips[ip], now) :: l.ips[ip])
  }

  // ---------------------------------------------------------------- runs

  datatype Event =
    | AcquireE(ip: Ip, now: real)
    | ReleaseE(ticket: nat, now: real)
    | SweepE(now: real)

  function Step(cfg: Config, l: Limiter, e: Event): (Limiter, Option<Reason>) {
    match e
    case AcquireE(ip, now) => var (l1, reason) := Acquire(cfg, l, ip, now); (l1, Some(reason))
    case ReleaseE(n, _) => (if n < |l.tickets| then Release(l, n) else l, None)
    case SweepE(now) => (Sweep(cfg, l, now), None)
  }

  function Run(cfg: Config, l: Limiter, events: seq<Event>): Limiter
    decreases |events|
  {
    if events == [] then l else Run(cfg, Step(cfg, l, events[0]).0, events[1..])
  }

  /** The answer to every acquire of the run, in order. */
  function Decisions(cfg: Config, l: Limiter, events: seq<Event>): seq<Reason>
    decreases |events|
  {
    if events == [] then []
    else
      var (l1, answer) := Step(cfg, l, events[0]);
      (if answer.Some? then [answer.value] else []) + Decisions(cfg, l1, events[1..])
  }

  /** The clock never goes back. */
  predicate Monotone(from: real, events: seq<Event>)
    decreases |events|
  {
    events == [] || (from <= events[0].now && Monotone(events[0].now, events[1..]))
  }

  function WithoutSweeps(events: seq<Event>): seq<Event>
    decreases |events|
  {
    if events == [] then [] else (if events[0].SweepE? then [] else [events[0]]) + WithoutSweeps(events[1..])
  }

  // ---------------------------------------------------------------- invariant

  /** How many connections of ip hold an unused ticket. */
  function Outstanding(tickets: seq<Ticket>, ip: Ip): nat {
    if tickets == [] then 0
    else
      var t := tickets[|tickets| - 1];
      Outstanding(tickets[..|tickets| - 1], ip) + if t.ip == ip && !t.used then 1 else 0
  }

  /** Tokens stay within 0..burst, active is the number of connections not
      released yet, and the concurrency cap is kept. */
  ghost predicate Sound(cfg: Config, l: Limiter, now: real) {
    && (forall ip <- l.ips ::
          && 0.0 <= l.ips[ip].tokens <= cfg.burst && l.ips[ip].last <= now
          && l.ips[ip].active == Outstanding(l.tickets, ip)
          && (cfg.cap > 0 ==> l.ips[ip].active <= cfg.cap))
    && (forall ip :: Outstanding(l.tickets, ip) > 0 ==> ip in l.ips)
  }

  lemma {:induction false} OutstandingUpdate(tickets: seq<Ticket>, n: nat, ip: Ip)
    requires n < |tickets| && !tickets[n].used
    ensures
      Outstanding(tickets[n := tickets[n].(used := true)], ip)
      == Outstanding(tickets, ip) - if tickets[n].ip == ip then 1 else 0
    ensures tickets[n].ip == ip ==> Outstanding(tickets, ip) > 0
  {
    var last := |tickets| - 1;
    var after := tickets[n := tickets[n].(used := true)];
    if n < last {
      assert after[..last] == tickets[..last][n := tickets[n].(used := true)];
      OutstandingUpdate(tickets[..last], n, ip);
    } else {
      assert after[..last] == tickets[..last];
    }
  }

  lemma AdmitIsSound(cfg: Config, st: State, now: real)
    requires Configured(cfg) && 0.0 <= st.tokens <= cfg.burst && st.last <= now
      && (cfg.cap > 0 ==> st.active <= cfg.cap)
    ensures
      var (after, reason) := Admit(cfg, st, now);
      && 0.0 <= after.tokens <= cfg.burst && after.last <= now
      && after.active == st.active + (if reason == Accepted then 1 else 0)
      && (cfg.cap > 0 ==> after.active <= cfg.cap)
  {
    if cfg.limited {
      RefillGrows(cfg, st, now);
    }
  }

  lemma RefillGrows(cfg: Config, st: State, now: real)
    requires cfg.limited && st.last <= now && st.tokens <= cfg.burst
    ensures st.tokens <= Refilled(cfg, st, now).tokens <= cfg.burst
  {
  }

  lemma StepIsSound(cfg: Config, l: Limiter, from: real, e: Event)
    requires Configured(cfg) && Sound(cfg, l, from) && from <= e.now
    ensures Sound(cfg, Step(cfg, l, e).0, e.now)
  {
    var after := Step(cfg, l, e).0;
    match e
    case AcquireE(ip, now) =>
      var st := StateOf(cfg, l, ip, now);
      AdmitIsSound(cfg, st, now);
      if after.tickets != l.tickets { assert after.tickets[..|l.tickets|] == l.tickets; }
    case ReleaseE(n, _) =>
      if n < |l.tickets| && !l.tickets[n].used {
        forall ip { OutstandingUpdate(l.tickets, n, ip); }
      }
    case SweepE(now) =>
  }

  function EndOf(from: real, events: seq<Event>): real {
    if events == [] then from else events[|events| - 1].now
  }

  /** After every run the books are right: tokens within 0..burst, active equal
      to admissions minus releases, the concurrency cap kept. */
  lemma {:induction false} RunIsSound(cfg: Config, l: Limiter, from: real, events: seq<Event>)
    requires Configured(cfg) && Sound(cfg, l, from) && Monotone(from, events)
    ensures Sound(cfg, Run(cfg, l, events), EndOf(from, events))
    decreases |events|
  {
    if events != [] {
      StepIsSound(cfg, l, from, events[0]);
      RunIsSound(cfg, Step(cfg, l, events[0]).0, events[0].now, events[1..]);
    }
  }

  // ---------------------------------------------------------------- what a limiter looks like from outside

  /** The tokens an acquire at `now` would find: full for an unknown IP. */
  function Level(cfg: Config, l: Limiter, ip: Ip, now: real): real {
    Refilled(cfg, StateOf(cfg, l, ip, now), now).tokens
  }

  function ActiveOf(l: Limiter, ip: Ip): int {
    if ip in l.ips then l.ips[ip].active else 0
  }

  /** No acquire or release from `now` on can tell the two limiters apart. */
  ghost predicate Alike(cfg: Config, a: Limiter, b: Limiter, now: real) {
    && a.tickets == b.tickets
    && (forall ip :: ActiveOf(a, ip) == ActiveOf(b, ip))
    && (cfg.limited ==> forall ip :: Level(cfg, a, ip, now) == Level(cfg, b, ip, now))
  }

  /** Refill is path independent: refilling at `now` and then at `later` gives
      what refilling once at `later` gives. */
  lemma RefillInTwoSteps(cfg: Config, st: State, now: real, later: real)
    requires cfg.limited && st.last <= now <= later && st.tokens <= cfg.burst
    ensures Refilled(cfg, Refilled(cfg, st, now), later) == Refilled(cfg, st, later)
  {
  }

  lemma LevelLater(cfg: Config, l: Limiter, ip: Ip, now: real, later: real)
    requires cfg.limited && Sound(cfg, l, now) && now <= later
    ensures Level(cfg, l, ip, later) == RMin(cfg.burst, Level(cfg, l, ip, now) + (later - now))
  {
    if ip in l.ips {
      RefillInTwoSteps(cfg, l.ips[ip], now, later);
    }
  }

  lemma AlikeLater(cfg: Config, a: Limiter, b: Limiter, now: real, later: real)
    requires Sound(cfg, a, now) && Sound(cfg, b, now) && Alike(cfg, a, b, now) && now <= later
    ensures Alike(cfg, a, b, later)
  {
    if cfg.limited {
      forall ip ensures Level(cfg, a, ip, later) == Level(cfg, b, ip, later) {
        LevelLater(cfg, a, ip, now, later);
        LevelLater(cfg, b, ip, now, later);
      }
    }
  }

  lemma AlikeAcquire(cfg: Config, a: Limiter, b: Limiter, ip: Ip, now: real)
    requires Configured(cfg) && Alike(cfg, a, b, now)
    ensures Acquire(cfg, a, ip, now).1 == Acquire(cfg, b, ip, now).1
    ensures Alike(cfg, Acquire(cfg, a, ip, now).0, Acquire(cfg, b, ip, now).0, now)
  {
    var a', b' := Acquire(cfg, a, ip, now).0, Acquire(cfg, b, ip, now).0;
    assert ActiveOf(a, ip) == ActiveOf(b, ip);
    if cfg.limited {
      assert Level(cfg, a, ip, now) == Level(cfg, b, ip, now);
      assert a'.ips[ip] == b'.ips[ip];
      forall j ensures Level(cfg, a', j, now) == Level(cfg, b', j, now) {
        assert Level(cfg, a, j, now) == Level(cfg, b, j, now);
      }
    }
    forall j ensures ActiveOf(a', j) == ActiveOf(b', j) {
      assert ActiveOf(a, j) == ActiveOf(b, j);
    }
  }

  /** A release moves no token. */
  lemma ReleaseLevel(cfg: Config, l: Limiter, n: nat, ip: Ip, now: real)
    requires n < |l.tickets|
    ensures Level(cfg, Release(l, n), ip, now) == Level(cfg, l, ip, now)
  {
  }

  lemma ReleaseActive(cfg: Config, l: Limiter, n: nat, ip: Ip, now: real)
    requires Sound(cfg, l, now) && n < |l.tickets|
    ensures
      ActiveOf(Release(l, n), ip)
      == ActiveOf(l, ip) - if l.tickets[n].ip == ip && !l.tickets[n].used then 1 else 0
    ensures Release(l, n).tickets == l.tickets[n := l.tickets[n].(used := true)]
  {
    if !l.tickets[n].used { OutstandingUpdate(l.tickets, n, l.tickets[n].ip); }
  }

  lemma AlikeRelease(cfg: Config, a: Limiter, b: Limiter, n: nat, now: real)
    requires Sound(cfg, a, now) && Sound(cfg, b, now) && Alike(cfg, a, b, now) && n < |a.tickets|
    ensures Alike(cfg, Release(a, n), Release(b, n), now)
  {
    forall j ensures ActiveOf(Release(a, n), j) == ActiveOf(Release(b, n), j) {
      ReleaseActive(cfg, a, n, j, now);
      ReleaseActive(cfg, b, n, j, now);
      assert ActiveOf(a, j) == ActiveOf(b, j);
    }
    ReleaseActive(cfg, a, n, 0, now);
    ReleaseActive(cfg, b, n, 0, now);
    if cfg.limited {
      forall j ensures Level(cfg, Release(a, n), j, now) == Level(cfg, Release(b, n), j, now) {
        ReleaseLevel(cfg, a, n, j, now);
        ReleaseLevel(cfg, b, n, j, now);
        assert Level(cfg, a, j, now) == Level(cfg, b, j, now);
      }
    }
  }

  lemma AlikeStep(cfg: Config, a: Limiter, b: Limiter, from: real, e: Event)
    requires Configured(cfg) && Sound(cfg, a, from) && Sound(cfg, b, from) && Alike(cfg, a, b, from) && from <= e.now
      && !e.SweepE?
    ensures Step(cfg, a, e).1 == Step(cfg, b, e).1
    ensures Alike(cfg, Step(cfg, a, e).0, Step(cfg, b, e).0, e.now)
  {
    AlikeLater(cfg, a, b, from, e.now);
    SoundLater(cfg, a, from, e.now);
    SoundLater(cfg, b, from, e.now);
    match e
    case AcquireE(ip, now) => AlikeAcquire(cfg, a, b, ip, now);
    case ReleaseE(n, now) => if n < |a.tickets| { AlikeRelease(cfg, a, b, n, now); }
  }

  lemma SweepIsAlike(cfg: Config, l: Limiter, now: real)
    requires Configured(cfg) && Sound(cfg, l, now)
    ensures Alike(cfg, Sweep(cfg, l, now), l, now)
  {
  }

  /** Limiters that look alike give the same answers for ever, even when only one
      of them is swept. */
  lemma {:induction false} AlikeRuns(cfg: Config, a: Limiter, b: Limiter, from: real, events: seq<Event>)
    requires Configured(cfg) && Sound(cfg, a, from) && Sound(cfg, b, from) && Alike(cfg, a, b, from)
      && Monotone(from, events)
    ensures Decisions(cfg, a, events) == Decisions(cfg, b, WithoutSweeps(events))
    decreases |events|
  {
    if events != [] {
      var e, rest := events[0], events[1..];
      var a1 := Step(cfg, a, e).0;
      StepIsSound(cfg, a, from, e);
      if e.SweepE? {
        AlikeLater(cfg, a, b, from, e.now);
        SoundLater(cfg, a, from, e.now);
        SoundLater(cfg, b, from, e.now);
        SweepIsAlike(cfg, a, e.now);
        AlikeRuns(cfg, a1, b, e.now, rest);
        assert [] + Decisions(cfg, a1, rest) == Decisions(cfg, a1, rest);
        assert [] + WithoutSweeps(rest) == WithoutSweeps(rest);
      } else {
        StepIsSound(cfg, b, from, e);
        AlikeStep(cfg, a, b, from, e);
        AlikeRuns(cfg, a1, Step(cfg, b, e).0, e.now, rest);
        assert ([e] + WithoutSweeps(rest))[1..] == WithoutSweeps(rest);
      }
    }
  }

  lemma SoundLater(cfg: Config, l: Limiter, from: real, later: real)
    requires Sound(cfg, l, from) && from <= later
    ensures Sound(cfg, l, later)
  {
  }

  const EMPTY := Limiter(map[], [])

  /** Sweeping is invisible: a limiter with sweeps interleaved anywhere gives
      every acquire the same answer, with the same reason, as one that never
      sweeps, through any mix of releases, also repeated ones. */
  lemma SweepIsInvisible(cfg: Config, from: real, events: seq<Event>)
    requires Configured(cfg) && Monotone(from, events)
    ensures Decisions(cfg, EMPTY, events) == Decisions(cfg, EMPTY, WithoutSweeps(events))
  {
    AlikeRuns(cfg, EMPTY, EMPTY, from, events);
  }

  // ---------------------------------------------------------------- refusals leave no trace

  /** A refused acquire changes nothing that any later event can see. */
  lemma RefusalIsAlike(cfg: Config, l: Limiter, ip: Ip, now: real)
    requires Configured(cfg) && Sound(cfg, l, now) && Acquire(cfg, l, ip, now).1 != Accepted
    ensures Alike(cfg, Acquire(cfg, l, ip, now).0, l, now)
  {
    var after := Acquire(cfg, l, ip, now).0;
    if cfg.limited {
      forall j ensures Level(cfg, after, j, now) == Level(cfg, l, j, now) {}
    }
  }

  /** Retrying while refused costs nothing: with or without the refused attempt,
      every later acquire gets the same answer. */
  lemma RefusalsLeaveNoTrace(cfg: Config, from: real, before: seq<Event>, ip: Ip, now: real, later: seq<Event>)
    requires Configured(cfg) && Monotone(from, before) && EndOf(from, before) <= now && Monotone(now, later)
    requires Acquire(cfg, Run(cfg, EMPTY, before), ip, now).1 != Accepted
    ensures
      var l := Run(cfg, EMPTY, before);
      Decisions(cfg, Acquire(cfg, l, ip, now).0, later) == Decisions(cfg, l, later)
  {
    var l := Run(cfg, EMPTY, before);
    RunIsSound(cfg, EMPTY, from, before);
    SoundLater(cfg, l, EndOf(from, before), now);
    StepIsSound(cfg, l, now, AcquireE(ip, now));
    RefusalIsAlike(cfg, l, ip, now);
    AlikeRuns(cfg, Acquire(cfg, l, ip, now).0, l, now, later);
    AlikeRuns(cfg, l, l, now, later);
  }

  // ---------------------------------------------------------------- the rate

  /** How often the run admits ip. */
  function Admissions(cfg: Config, l: Limiter, events: seq<Event>, ip: Ip): nat
    decreases |events|
  {
    if events == [] then 0
    else Hit(cfg, l, events[0], ip) + Admissions(cfg, Step(cfg, l, events[0]).0, events[1..], ip)
  }

  lemma AcquireLevel(cfg: Config, l: Limiter, ip: Ip, other: Ip, now: real)
    requires Configured(cfg) && cfg.limited && Sound(cfg, l, now)
    ensures
      var (l1, reason) := Acquire(cfg, l, ip, now);
      Level(cfg, l1, other, now) == Level(cfg, l, other, now) - if ip == other && reason == Accepted then 1.0 else 0.0
  {
    if ip in l.ips { RefillGrows(cfg, l.ips[ip], now); }
  }

  /** The tokens ip has after a step, in terms of what it had before. */
  lemma StepLevel(cfg: Config, l: Limiter, from: real, e: Event, ip: Ip)
    requires Configured(cfg) && cfg.limited && Sound(cfg, l, from) && from <= e.now
    ensures
      var l1 := Step(cfg, l, e).0;
      Level(cfg, l1, ip, e.now) <= Level(cfg, l, ip, from) + (e.now - from)
        - Hit(cfg, l, e, ip) as real
  {
    SoundLater(cfg, l, from, e.now);
    LevelLater(cfg, l, ip, from, e.now);
    match e
    case AcquireE(j, now) => AcquireLevel(cfg, l, j, ip, now);
    case ReleaseE(n, now) => if n < |l.tickets| { ReleaseLevel(cfg, l, n, ip, now); }
    case SweepE(now) => SweepIsAlike(cfg, l, now);
  }

  /** 1 when the step admits ip. */
  function Hit(cfg: Config, l: Limiter, e: Event, ip: Ip): nat {
    if e.AcquireE? && e.ip == ip && Step(cfg, l, e).1 == Some(Accepted) then 1 else 0
  }

  /** Each admission costs a token and tokens come back at the rate. */
  lemma {:induction false} AdmissionsCost(cfg: Config, l: Limiter, from: real, events: seq<Event>, ip: Ip, budget: real)
    requires Configured(cfg) && cfg.limited && Sound(cfg, l, from) && Monotone(from, events)
    requires Level(cfg, l, ip, from) <= budget
    ensures Admissions(cfg, l, events, ip) as real <= budget + (EndOf(from, events) - from)
    decreases |events|
  {
    if events == [] {
      LevelBounds(cfg, l, ip, from);
    } else {
      var e := events[0];
      StepIsSound(cfg, l, from, e);
      StepLevel(cfg, l, from, e, ip);
      AdmissionsCost(cfg, Step(cfg, l, e).0, e.now, events[1..], ip,
                     budget + (e.now - from) - Hit(cfg, l, e, ip) as real);
    }
  }

  /** In any window of a run, however sweeps, releases and other addresses
      interleave, one IP is admitted at most burst + rate * seconds times: burst
      plus the duration of the window in refills. */
  lemma RateTheorem(cfg: Config, from: real, before: seq<Event>, window: seq<Event>, start: real, ip: Ip)
    requires Configured(cfg) && cfg.limited && Monotone(from, before) && EndOf(from, before) <= start
      && Monotone(start, window)
    ensures
      Admissions(cfg, Run(cfg, EMPTY, before), window, ip) as real <= cfg.burst + (EndOf(start, window) - start)
  {
    var l := Run(cfg, EMPTY, before);
    RunIsSound(cfg, EMPTY, from, before);
    SoundLater(cfg, l, EndOf(from, before), start);
    LevelBounds(cfg, l, ip, start);
    AdmissionsCost(cfg, l, start, window, ip, cfg.burst);
  }

  lemma LevelBounds(cfg: Config, l: Limiter, ip: Ip, now: real)
    requires Configured(cfg) && cfg.limited && Sound(cfg, l, now)
    ensures 0.0 <= Level(cfg, l, ip, now) <= cfg.burst
  {
    if ip in l.ips { RefillGrows(cfg, l.ips[ip], now); }
  }

  /** The bound is exact: a full bucket of whole size really admits burst
      connections at one instant. */
  lemma {:induction false} BurstIsReached(cfg: Config, l: Limiter, ip: Ip, now: real, n: nat)
    requires Configured(cfg) && cfg.limited && cfg.cap <= 0
    requires Level(cfg, l, ip, now) >= n as real
    ensures Admissions(cfg, l, seq(n, _ => AcquireE(ip, now)), ip) == n
    decreases n
  {
    if n > 0 {
      var events := seq(n, _ => AcquireE(ip, now));
      assert events[1..] == seq(n - 1, _ => AcquireE(ip, now));
      BurstIsReached(cfg, Acquire(cfg, l, ip, now).0, ip, now, n - 1);
    }
  }

  lemma RoomForOne(cfg: Config, l: Limiter, ip: Ip, now: real)
    requires Configured(cfg) && Sound(cfg, l, now) && cfg.cap > 0
    requires cfg.limited ==> Level(cfg, l, ip, now) >= 1.0
    ensures
      var (next, answer) := Acquire(cfg, l, ip, now);
      if Outstanding(l.tickets, ip) >= cfg.cap then answer == Concurrency
      else
        && answer == Accepted && Sound(cfg, next, now)
        && Outstanding(next.tickets, ip) == Outstanding(l.tickets, ip) + 1
        && (cfg.limited ==> Level(cfg, next, ip, now) == Level(cfg, l, ip, now) - 1.0)
  {
    StepIsSound(cfg, l, now, AcquireE(ip, now));
    assert ActiveOf(l, ip) == Outstanding(l.tickets, ip);
    if cfg.limited { AcquireLevel(cfg, l, ip, ip, now); }
    var next := Acquire(cfg, l, ip, now).0;
    if next.tickets != l.tickets { assert next.tickets[..|l.tickets|] == l.tickets; }
  }

  /** The burst is exact for the cap as well: n connections at one instant are
      admitted if the cap has room for them, and the next one is refused if it has
      not. */
  lemma {:induction false} CapIsReached(cfg: Config, l: Limiter, ip: Ip, now: real, n: nat)
    requires Configured(cfg) && cfg.cap > 0 && Sound(cfg, l, now)
    requires cfg.limited ==> Level(cfg, l, ip, now) >= n as real + 1.0
    requires Outstanding(l.tickets, ip) + n <= cfg.cap
    ensures Admissions(cfg, l, seq(n, _ => AcquireE(ip, now)), ip) == n
    ensures
      var after := Run(cfg, l, seq(n, _ => AcquireE(ip, now)));
      Acquire(cfg, after, ip, now).1 == if Outstanding(l.tickets, ip) + n < cfg.cap then Accepted else Concurrency
    decreases n
  {
    RoomForOne(cfg, l, ip, now);
    if n > 0 {
      var events := seq(n, _ => AcquireE(ip, now));
      assert events[1..] == seq(n - 1, _ => AcquireE(ip, now));
      CapIsReached(cfg, Acquire(cfg, l, ip, now).0, ip, now, n - 1);
    }
  }

  // ---------------------------------------------------------------- the limiter by its books

  // What the answers should be, from what happened alone: when an IP was admitted,
  // and which connections have been released.

  /** The tokens of an IP that was admitted at these times: a full bucket at first, one
      token less for each admission, one more with each unit of time, never above the
      burst. */
  function Tokens(cfg: Config, admitted: seq<real>, now: real): real {
    if admitted == [] then cfg.burst
    else
      var last := admitted[|admitted| - 1];
      RMin(cfg.burst, Tokens(cfg, admitted[..|admitted| - 1], last) - 1.0 + (now - last))
  }

  /** When a run from the beginning admitted an IP. */
  function AdmittedAt(cfg: Config, events: seq<Event>, ip: Ip): seq<real> {
    if events == [] then []
    else
      var before, e := events[..|events| - 1], events[|events| - 1];
      AdmittedAt(cfg, before, ip) + if Hit(cfg, Run(cfg, EMPTY, before), e, ip) == 1 then [e.now] else []
  }

  lemma {:induction false} RunSnoc(cfg: Config, l: Limiter, events: seq<Event>, e: Event)
    ensures Run(cfg, l, events + [e]) == Step(cfg, Run(cfg, l, events), e).0
    decreases |events|
  {
    if events == [] {
      assert (events + [e])[1..] == [];
    } else {
      assert (events + [e])[1..] == events[1..] + [e];
      RunSnoc(cfg, Step(cfg, l, events[0]).0, events[1..], e);
    }
  }

  lemma {:induction false} MonotoneInit(from: real, events: seq<Event>)
    requires events != [] && Monotone(from, events)
    ensures
      var before := events[..|events| - 1];
      Monotone(from, before) && from <= EndOf(from, before) <= events[|events| - 1].now
    decreases |events|
  {
    if |events| > 1 {
      var before := events[..|events| - 1];
      MonotoneInit(events[0].now, events[1..]);
      assert events[1..][..|events| - 2] == before[1..];
    }
  }

  lemma {:induction false} AdmittedInOrder(cfg: Config, from: real, events: seq<Event>, ip: Ip)
    requires Monotone(from, events)
    ensures
      var times := AdmittedAt(cfg, events, ip);
      times != [] ==> times[|times| - 1] <= EndOf(from, events)
    decreases |events|
  {
    if events != [] {
      MonotoneInit(from, events);
      AdmittedInOrder(cfg, from, events[..|events| - 1], ip);
    }
  }

  lemma TokensLater(cfg: Config, times: seq<real>, now: real, later: real)
    requires times != [] ==> times[|times| - 1] <= now
    requires now <= later
    ensures Tokens(cfg, times, later) == RMin(cfg.burst, Tokens(cfg, times, now) + (later - now))
  {
  }

  lemma TokensAfter(cfg: Config, times: seq<real>, hit: bool, at: real, now: real)
    requires times != [] ==> times[|times| - 1] <= at
    requires at <= now
    ensures
      Tokens(cfg, times + (if hit then [at] else []), now)
      == RMin(cfg.burst, Tokens(cfg, times, at) - (if hit then 1.0 else 0.0) + (now - at))
  {
    if hit {
      assert (times + [at])[..|times|] == times;
    } else {
      assert times + [] == times;
      TokensLater(cfg, times, at, now);
    }
  }

  /** The level after one step, exactly. */
  lemma LevelAfterStep(cfg: Config, l: Limiter, from: real, e: Event, ip: Ip)
    requires Configured(cfg) && cfg.limited && Sound(cfg, l, from) && from <= e.now
    ensures
      Level(cfg, Step(cfg, l, e).0, ip, e.now)
      == Level(cfg, l, ip, e.now) - if Hit(cfg, l, e, ip) == 1 then 1.0 else 0.0
  {
    SoundLater(cfg, l, from, e.now);
    match e
    case AcquireE(j, now) => AcquireLevel(cfg, l, j, ip, now);
    case ReleaseE(n, now) => if n < |l.tickets| { ReleaseLevel(cfg, l, n, ip, now); }
    case SweepE(now) => SweepIsAlike(cfg, l, now);
  }

  lemma AdmittedSnoc(cfg: Config, events: seq<Event>, ip: Ip)
    requires events != []
    ensures
      var before, e := events[..|events| - 1], events[|events| - 1];
      AdmittedAt(cfg, events, ip)
      == AdmittedAt(cfg, before, ip) + if Hit(cfg, Run(cfg, EMPTY, before), e, ip) == 1 then [e.now] else []
  {
  }

  lemma LevelStep(cfg: Config, l: Limiter, from: real, e: Event, times: seq<real>, ip: Ip, now: real)
    requires Configured(cfg) && cfg.limited && Sound(cfg, l, from) && from <= e.now <= now
    requires Level(cfg, l, ip, e.now) == Tokens(cfg, times, e.now)
    requires times != [] ==> times[|times| - 1] <= e.now
    ensures
      Level(cfg, Step(cfg, l, e).0, ip, now)
      == Tokens(cfg, times + if Hit(cfg, l, e, ip) == 1 then [e.now] else [], now)
  {
    StepIsSound(cfg, l, from, e);
    LevelAfterStep(cfg, l, from, e, ip);
    SameLater(cfg, Step(cfg, l, e).0, times, Hit(cfg, l, e, ip) == 1, e.now, ip, now);
  }

  lemma SameLater(cfg: Config, after: Limiter, times: seq<real>, hit: bool, at: real, ip: Ip, now: real)
    requires cfg.limited && Sound(cfg, after, at) && at <= now && (times != [] ==> times[|times| - 1] <= at)
    requires Level(cfg, after, ip, at) == Tokens(cfg, times, at) - if hit then 1.0 else 0.0
    ensures Level(cfg, after, ip, now) == Tokens(cfg, times + (if hit then [at] else []), now)
  {
    LevelLater(cfg, after, ip, at, now);
    TokensAfter(cfg, times, hit, at, now);
  }

  lemma {:induction false} LevelIsTokens(cfg: Config, from: real, events: seq<Event>, ip: Ip, now: real)
    requires Configured(cfg) && cfg.limited && Monotone(from, events) && EndOf(from, events) <= now
    ensures Level(cfg, Run(cfg, EMPTY, events), ip, now) == Tokens(cfg, AdmittedAt(cfg, events, ip), now)
    decreases |events|
  {
    if events != [] {
      var before, e := events[..|events| - 1], events[|events| - 1];
      assert before + [e] == events;
      RunSnoc(cfg, EMPTY, before, e);
      MonotoneInit(from, events);
      RunIsSound(cfg, EMPTY, from, before);
      LevelIsTokens(cfg, from, before, ip, e.now);
      AdmittedInOrder(cfg, from, before, ip);
      LevelStep(cfg, Run(cfg, EMPTY, before), EndOf(from, before), e, AdmittedAt(cfg, before, ip), ip, now);
      AdmittedSnoc(cfg, events, ip);
    }
  }

  /** Every answer, exactly: after any run, an IP is refused for its rate if and only
      if that limit is on and less than one token is left; else for concurrency if and
      only if that limit is on and as many of its connections are open; else admitted,
      and the books have one more open connection. */
  lemma AnswersExactly(cfg: Config, from: real, events: seq<Event>, ip: Ip, now: real)
    requires Configured(cfg) && Monotone(from, events) && EndOf(from, events) <= now
    ensures
      var l := Run(cfg, EMPTY, events);
      var (after, answer) := Acquire(cfg, l, ip, now);
      && answer == (if cfg.limited && Tokens(cfg, AdmittedAt(cfg, events, ip), now) < 1.0 then Rate
                    else if cfg.cap > 0 && Outstanding(l.tickets, ip) >= cfg.cap then Concurrency
                    else Accepted)
      && after.tickets == l.tickets + if answer == Accepted then [Ticket(ip, false)] else []
  {
    var l := Run(cfg, EMPTY, events);
    RunIsSound(cfg, EMPTY, from, events);
    if cfg.limited { LevelIsTokens(cfg, from, events, ip, now); }
    assert ActiveOf(l, ip) == Outstanding(l.tickets, ip);
  }

  /** What a sweep leaves: exactly the IPs it knew that have an open connection or,
      with the rate on, are not back at a full bucket. */
  lemma SweepForgets(cfg: Config, from: real, events: seq<Event>, ip: Ip, now: real)
    requires Configured(cfg) && Monotone(from, events) && EndOf(from, events) <= now
    ensures
      var l := Run(cfg, EMPTY, events);
      ip in Sweep(cfg, l, now).ips
      <==> ip in l.ips && (Outstanding(l.tickets, ip) > 0
                           || (cfg.limited && Tokens(cfg, AdmittedAt(cfg, events, ip), now) < cfg.burst))
  {
    RunIsSound(cfg, EMPTY, from, events);
    if cfg.limited { LevelIsTokens(cfg, from, events, ip, now); }
  }
}
