/** The limiter of internal/router/limits.go as the object it is: states shared
    between the map and the release functions that still point at them. Clock
    readings are seconds. Every method is proved to do what RateLimit says. */
module ConnLimiter {
  import opened Prelude
  import opened RateLimit

  class IpState {
    ghost const ip: Ip
    var tokens: real
    var last: real
    var active: int

    constructor (ghost ip: Ip, tokens: real, last: real)
      ensures this.ip == ip && this.tokens == tokens && this.last == last && active == 0
    {
      this.ip := ip;
      this.tokens, this.last, active := tokens, last, 0;
    }
  }

  /** The function acquire returns: it decrements the state it captured, once. */
  class Handle {
    ghost const index: nat
    const st: IpState
    var used: bool

    constructor (ghost index: nat, st: IpState)
      ensures this.index == index && this.st == st && !used
    {
      this.index, this.st, used := index, st, false;
    }
  }

  class ConnLimiter {
    const rate: real
    const burst: real
    const cap: int
    var ips: map<Ip, IpState>

    ghost var model: Limiter
    ghost var issued: seq<Handle>
    ghost var clock: real  // the latest reading, in refills

    constructor (rate: real, burst: int, cap: int, ghost now: real)
      ensures Valid() && this.rate == rate && this.cap == cap && this.burst >= 1.0
      ensures model == EMPTY && clock == Refills(now)
    {
      this.rate, this.cap := rate, cap;
      this.burst := (if burst < 1 then 1 else burst) as real;
      ips := map[];
      model, issued := EMPTY, [];
      clock := if rate > 0.0 then now * rate else now;
    }

    function Cfg(): Config {
      Config(rate > 0.0, burst, cap)
    }

    ghost function Refills(seconds: real): real {
      if rate > 0.0 then seconds * rate else seconds
    }

    predicate IsEnabled() {
      rate > 0.0 || cap > 0
    }

    ghost predicate IpOk(ip: Ip)
      requires ip in ips
      reads this, ips[ip]
    {
      && ips[ip].ip == ip && ip in model.ips
      && model.ips[ip] == State(ips[ip].tokens, Refills(ips[ip].last), ips[ip].active)
    }

    ghost predicate HandleOk(n: nat)
      requires n < |issued|
      reads this, issued[n]
    {
      && n < |model.tickets| && issued[n].index == n
      && model.tickets[n] == Ticket(issued[n].st.ip, issued[n].used)
      && (!issued[n].used ==> issued[n].st.ip in ips && ips[issued[n].st.ip] == issued[n].st)
    }

    ghost predicate Valid()
      reads this, ips.Values, issued
    {
      && burst >= 1.0 && (issued != [] ==> IsEnabled())
      && model.ips.Keys == ips.Keys && |issued| == |model.tickets|
      && (forall ip <- ips :: IpOk(ip))
      && (forall n :: 0 <= n < |issued| ==> HandleOk(n))
      && Sound(Cfg(), model, clock)
    }

    lemma RefillsAgree(tokens: real, last: real, now: real)
      ensures rate > 0.0 ==> tokens + Refills(now) - Refills(last) == tokens + (now - last) * rate
    {
      if rate > 0.0 { assert (now - last) * rate == now * rate - last * rate; }
    }

    /** The refill of the model, in seconds. */
    lemma RefilledInSeconds(tokens: real, last: real, active: int, now: real)
      ensures
        Refilled(Cfg(), State(tokens, Refills(last), active), Refills(now))
        == if rate > 0.0 then State(RMin(burst, tokens + (now - last) * rate), Refills(now), active)
           else State(tokens, Refills(last), active)
    {
      RefillsAgree(tokens, last, now);
    }

    /** The body of acquire on one state. */
    method AdmitOn(st: IpState, now: real) returns (reason: Reason)
      requires burst >= 1.0
      modifies st
      ensures
        (State(st.tokens, Refills(st.last), st.active), reason)
        == Admit(Cfg(), State(old(st.tokens), Refills(old(st.last)), old(st.active)), Refills(now))
    {
      ghost var was := State(st.tokens, Refills(st.last), st.active);
      ghost var refilled := Refilled(Cfg(), was, Refills(now));
      RefilledInSeconds(st.tokens, st.last, st.active, now);
      if rate > 0.0 {
        var tokens := RMin(burst, st.tokens + (now - st.last) * rate);
        assert refilled == State(tokens, Refills(now), st.active);
        st.tokens, st.last := tokens, now;
        if st.tokens < 1.0 { return Rate; }
      }
      assert State(st.tokens, Refills(st.last), st.active) == refilled;
      if cap > 0 && st.active >= cap { return Concurrency; }
      if rate > 0.0 { st.tokens := st.tokens - 1.0; }
      st.active := st.active + 1;
      reason := Accepted;
    }

    /** Everything but the books about one IP is in order. */
    ghost predicate ValidExcept(ip: Ip)
      reads this, ips.Values, issued
    {
      && burst >= 1.0 && IsEnabled()
      && ip in ips && ips[ip].ip == ip
      && model.ips.Keys + {ip} == ips.Keys && |issued| == |model.tickets|
      && (forall j <- ips :: j != ip ==> IpOk(j))
      && (forall n :: 0 <= n < |issued| ==> HandleOk(n))
    }

    /** acquire's lookup: an unknown IP starts with a full bucket. */
    method StateFor(ip: Ip, now: real) returns (st: IpState)
      requires Valid() && IsEnabled()
      modifies this`ips
      ensures ValidExcept(ip) && ips == old(ips)[ip := st] && (if ip in old(ips) then st == old(ips)[ip] else fresh(st))
      ensures State(st.tokens, Refills(st.last), st.active) == StateOf(Cfg(), model, ip, Refills(now))
    {
      if ip in ips {
        assert IpOk(ip);
        st := ips[ip];
      } else {
        st := new IpState(ip, burst, now);
        ips := ips[ip := st];
        forall j | j in ips && j != ip ensures IpOk(j) {
          assert old(IpOk(j));
        }
        forall n | 0 <= n < |issued| ensures HandleOk(n) {
          assert old(HandleOk(n));
        }
      }
    }

    /** acquire's end: the books take over the new state, and an admission hands
        out its release function. */
    method Record(ip: Ip, reason: Reason, ghost after: Limiter, ghost now: real) returns (h: Handle?)
      requires ValidExcept(ip)
      requires after.ips == model.ips[ip := State(ips[ip].tokens, Refills(ips[ip].last), ips[ip].active)]
      requires after.tickets == if reason == Accepted then model.tickets + [Ticket(ip, false)] else model.tickets
      requires Sound(Cfg(), after, now)
      modifies this`model, this`issued, this`clock
      ensures Valid() && clock == now && model == after
      ensures reason == Accepted ==> h != null && fresh(h) && issued == old(issued) + [h]
      ensures reason != Accepted ==> h == null && issued == old(issued)
    {
      h := null;
      if reason == Accepted {
        h := new Handle(|issued|, ips[ip]);
        issued := issued + [h];
      }
      model, clock := after, now;
      forall j <- ips ensures IpOk(j) {
        if j != ip { assert old(IpOk(j)); }
      }
      forall n | 0 <= n < |issued| ensures HandleOk(n) {
        if n < |old(issued)| { assert old(HandleOk(n)); }
      }
    }

    /** acquire: with both limits off everything is admitted and nothing recorded
        (the release function does nothing); otherwise the answer and the new state
        are exactly RateLimit.Acquire's. */
    method AcquireConn(ip: Ip, now: real) returns (h: Handle?, reason: Reason)
      requires Valid() && clock <= Refills(now)
      modifies this, ips.Values
      ensures Valid() && clock == (if IsEnabled() then Refills(now) else old(clock))
      ensures
        (model, reason)
        == if IsEnabled() then Acquire(Cfg(), old(model), ip, Refills(now)) else (old(model), Accepted)
      ensures IsEnabled() && reason == Accepted ==> h != null && fresh(h) && issued == old(issued) + [h]
      ensures !IsEnabled() || reason != Accepted ==> h == null && issued == old(issued)
    {
      if !IsEnabled() { return null, Accepted; }
      h, reason := AcquireEnabled(ip, now);
    }

    /** The rest of acquire, once a limit is on. */
    method AcquireEnabled(ip: Ip, now: real) returns (h: Handle?, reason: Reason)
      requires Valid() && IsEnabled() && clock <= Refills(now)
      modifies this, ips.Values
      ensures Valid() && clock == Refills(now)
      ensures (model, reason) == Acquire(Cfg(), old(model), ip, Refills(now))
      ensures reason == Accepted ==> h != null && fresh(h) && issued == old(issued) + [h]
      ensures reason != Accepted ==> h == null && issued == old(issued)
    {
      ghost var after := Acquire(Cfg(), model, ip, Refills(now)).0;
      StepIsSound(Cfg(), model, clock, AcquireE(ip, Refills(now)));
      var st := StateFor(ip, now);
      label looked:
      reason := AdmitOn(st, now);
      forall j | j in ips && j != ip ensures IpOk(j) {
        assert old@looked(IpOk(j));
      }
      forall n | 0 <= n < |issued| ensures HandleOk(n) {
        assert old@looked(HandleOk(n));
      }
      h := Record(ip, reason, after, Refills(now));
    }

    /** A release: RateLimit.Release, the second and later calls included. */
    method ReleaseConn(h: Handle)
      requires Valid() && h.index < |issued| && issued[h.index] == h
      modifies this`model, h, h.st
      ensures Valid() && model == Release(old(model), h.index)
      ensures h.used && h.st.active == old(h.st.active) - if old(h.used) then 0 else 1
    {
      var n := h.index;
      assert HandleOk(n);
      if !h.used {
        StepIsSound(Cfg(), model, clock, ReleaseE(n, clock));
        h.used := true;
        assert IpOk(h.st.ip);
        h.st.active := h.st.active - 1;
        model := Release(model, n);
        forall j <- ips ensures IpOk(j) {
          assert old(IpOk(j));
        }
        forall m | 0 <= m < |issued| ensures HandleOk(m) {
          assert old(HandleOk(m));
        }
      }
    }

    /** sweep's condition on one state. */
    method IsIdle(st: IpState, now: real) returns (idle: bool)
      ensures idle == Idle(Cfg(), State(st.tokens, Refills(st.last), st.active), Refills(now))
    {
      RefillsAgree(st.tokens, st.last, now);
      idle := st.active == 0 && (rate <= 0.0 || st.tokens + (now - st.last) * rate >= burst);
    }

    /** sweep's loop. */
    method ForgetIdle(now: real)
      requires Valid()
      modifies this`ips
      ensures ips.Keys == Sweep(Cfg(), model, Refills(now)).ips.Keys
      ensures forall ip <- ips :: ip in old(ips) && ips[ip] == old(ips)[ip]
    {
      var rest := ips.Keys;
      while rest != {}
        invariant rest <= ips.Keys <= old(ips).Keys
        invariant forall ip <- ips :: ips[ip] == old(ips)[ip]
        invariant forall ip <- old(ips) :: ip in ips <==> ip in rest || !Idle(Cfg(), model.ips[ip], Refills(now))
      {
        var ip :| ip in rest;
        rest := rest - {ip};
        assert old(IpOk(ip));
        var idle := IsIdle(ips[ip], now);
        if idle { ips := ips - {ip}; }
      }
    }

    /** sweep: exactly the idle IPs whose bucket is full again are forgotten. */
    method SweepIdle(now: real)
      requires Valid() && clock <= Refills(now)
      modifies this
      ensures Valid() && clock == (if IsEnabled() then Refills(now) else old(clock))
      ensures model == if IsEnabled() then Sweep(Cfg(), old(model), Refills(now)) else old(model)
      ensures issued == old(issued)
    {
      if IsEnabled() {
        StepIsSound(Cfg(), model, clock, SweepE(Refills(now)));
        UnusedAreKept(Sweep(Cfg(), model, Refills(now)));
        ForgetIdle(now);
        model, clock := Sweep(Cfg(), model, Refills(now)), Refills(now);
        forall ip <- ips ensures IpOk(ip) {
          assert old(IpOk(ip));
        }
        forall n | 0 <= n < |issued| ensures HandleOk(n) {
          assert old(HandleOk(n));
        }
      }
    }

    /** A state some unused release function points at is never forgotten. */
    lemma UnusedAreKept(after: Limiter)
      requires Valid() && after.tickets == model.tickets
      requires forall ip :: Outstanding(after.tickets, ip) > 0 ==> ip in after.ips
      ensures forall n :: 0 <= n < |issued| && !issued[n].used ==> issued[n].st.ip in after.ips
    {
      forall n | 0 <= n < |issued| && !issued[n].used ensures issued[n].st.ip in after.ips {
        assert HandleOk(n);
        OutstandingUpdate(model.tickets, n, issued[n].st.ip);
      }
    }
  }
}
