/** The UDP side port of internal/sideport/forward.go as the object it is: one
    lock-protected section per method, run without interference. UdpRelay says
    what interleaving these sections keeps. */
module UdpPort {
  import opened Prelude
  import opened FlowTable

  /** The gateway's open sockets, by number. Closing twice is harmless. */
  class Sockets {
    var open: set<nat>

    constructor ()
      ensures open == {}
    {
      open := {};
    }

    method Close(up: nat)
      modifies this
      ensures open == old(open) - {up}
    {
      open := open - {up};
    }
  }

  /** The atomic counter all UDP ports share. */
  class Counter {
    var n: int

    constructor ()
      ensures n == 0
    {
      n := 0;
    }
  }

  class Flow {
    const client: Client
    var up: Option<nat>  // None while dialing
    var last: int

    constructor (client: Client, now: int)
      ensures this.client == client && up == None && last == now
    {
      this.client, up, last := client, None, now;
    }
  }

  /** The sockets that `attached` gives to the addresses `keys`. */
  ghost function Pick(attached: map<Client, nat>, keys: set<Client>): set<nat> {
    set ck | ck in keys && ck in attached :: attached[ck]
  }

  lemma PickOneMore(attached: map<Client, nat>, keys: set<Client>, ck: Client)
    ensures Pick(attached, keys + {ck}) == Pick(attached, keys) + if ck in attached then {attached[ck]} else {}
  {
    if ck in attached { assert attached[ck] in Pick(attached, keys + {ck}); }
  }

  lemma PrefixStep<T>(s: seq<T>, i: nat)
    requires i < |s|
    ensures forall x :: x in s[..i + 1] <==> x in s[..i] || x == s[i]
  {
    assert s[..i + 1] == s[..i] + [s[i]];
  }

  lemma RemoveOneMore<F>(table: map<Client, F>, gone: set<Client>, ck: Client)
    requires ck in table && ck !in gone
    ensures table - gone - {ck} == table - (gone + {ck})
  {
  }

  class UdpPort {
    const counter: Counter
    const sockets: Sockets
    const perPort: nat
    const maxFlows: nat
    var flows: map<Client, Flow>
    var closed: bool

    constructor (counter: Counter, sockets: Sockets, perPort: nat, maxFlows: nat)
      ensures this.counter == counter && this.sockets == sockets && this.perPort == perPort && this.maxFlows == maxFlows
      ensures Valid() && flows == map[] && !closed
    {
      this.counter, this.sockets, this.perPort, this.maxFlows := counter, sockets, perPort, maxFlows;
      flows, closed := map[], false;
    }

    /** A flow stands only under its own address, the table is within its cap,
        and a closed port's table is empty. */
    ghost predicate Valid()
      reads this
    {
      && (forall ck <- flows :: flows[ck].client == ck)
      && |flows| <= perPort
      && (closed ==> flows == map[])
    }

    /** Which socket each relaying flow of the table owns. */
    ghost function Attached(): map<Client, nat>
      reads this, flows.Values
    {
      map ck | ck in flows && flows[ck].up.Some? :: flows[ck].up.value
    }

    /** serve, for an address without a flow: the new flow enters the table and
        the counter, unless admit refuses it. */
    method Enter(ck: Client, now: int) returns (f: Flow?, refusal: Refusal)
      requires Valid() && ck !in flows
      modifies this`flows, counter
      ensures Valid()
      ensures refusal == Admission(closed, |old(flows)|, old(counter.n), perPort, maxFlows)
      ensures refusal == Admitted ==>
        && f != null && fresh(f) && f.up == None && f.last == now
        && flows == old(flows)[ck := f] && counter.n == old(counter.n) + 1
      ensures refusal != Admitted ==> f == null && flows == old(flows) && counter.n == old(counter.n)
    {
      f := null;
      refusal := Admission(closed, |flows|, counter.n, perPort, maxFlows);
      if refusal == Admitted {
        f := new Flow(ck, now);
        assert flows[ck := f].Keys == flows.Keys + {ck};
        flows := flows[ck := f];
        counter.n := counter.n + 1;
      }
    }

    /** serve, for an address with a flow: only its idle time starts over. The
        datagram is dropped while the flow is still dialing. */
    method Touch(ck: Client, f: Flow, now: int) returns (up: Option<nat>)
      requires Valid() && Owns(flows, ck, f)
      modifies f`last
      ensures Valid()
      ensures flows[ck].last == now && up == flows[ck].up
    {
      up := f.up;
      f.last := now;
    }

    /** start, after a successful dial: the socket goes to the flow if the flow is
        still in the table, and is closed otherwise. */
    method Attach(ck: Client, f: Flow, up: nat) returns (attached: bool)
      requires Valid() && up in sockets.open && f.up == None
      modifies f`up, sockets
      ensures Valid()
      ensures attached <==> !closed && Owns(flows, ck, f)
      ensures attached ==> f.up == Some(up) && sockets.open == old(sockets.open)
      ensures !attached ==> f.up == None && sockets.open == old(sockets.open) - {up}
    {
      if closed || !Owns(flows, ck, f) {
        sockets.Close(up);
        attached := false;
      } else {
        f.up := Some(up);
        attached := true;
      }
    }

    /** A stale call, for a flow that already left the table, changes neither the
        table nor the counter. Either way the flow's socket is closed. */
    method Remove(ck: Client, f: Flow)
      requires Valid()
      modifies this`flows, counter, sockets
      ensures Valid()
      ensures flows == if Owns(old(flows), ck, f) then old(flows) - {ck} else old(flows)
      ensures counter.n - |flows| == old(counter.n - |flows|)
      ensures sockets.open == old(sockets.open) - if f.up.Some? then {f.up.value} else {}
    {
      if Owns(flows, ck, f) {
        assert flows.Keys == (flows - {ck}).Keys + {ck};
        flows := flows - {ck};
        counter.n := counter.n - 1;
      }
      if f.up.Some? {
        sockets.Close(f.up.value);
      }
    }

    /** The entries idle since before the cutoff, in some order. */
    method Idle(cutoff: int) returns (keys: seq<Client>)
      requires Valid()
      ensures forall ck :: ck in keys <==> ck in flows && flows[ck].last < cutoff
      ensures forall i, j :: 0 <= i < j < |keys| ==> keys[i] != keys[j]
    {
      keys := [];
      var rest := flows.Keys;
      while rest != {}
        invariant rest <= flows.Keys
        invariant forall ck :: ck in keys <==> ck in flows && ck !in rest && flows[ck].last < cutoff
        invariant forall i, j :: 0 <= i < j < |keys| ==> keys[i] != keys[j]
      {
        var ck :| ck in rest;
        rest := rest - {ck};
        if flows[ck].last < cutoff {
          keys := keys + [ck];
        }
      }
    }

    /** Inside expire: of the table `was`, the addresses `gone` are removed so
        far, and of the sockets open before, theirs are closed. */
    ghost predicate Expiring(was: map<Client, Flow>, attached: map<Client, nat>, gone: set<Client>, open: set<nat>)
      reads this, sockets, was.Values
    {
      && Valid()
      && flows == was - gone
      && sockets.open == open - Pick(attached, gone)
      && forall ck <- was :: was[ck].up == if ck in attached then Some(attached[ck]) else None
    }

    /** One round of expire's second loop. */
    method RemoveNext(was: map<Client, Flow>, ghost attached: map<Client, nat>, ghost gone: set<Client>,
                      ghost open: set<nat>, key: Client)
      requires Expiring(was, attached, gone, open) && key in flows
      modifies this`flows, counter, sockets
      ensures Expiring(was, attached, gone + {key}, open)
      ensures counter.n - |flows| == old(counter.n - |flows|)
    {
      RemoveOneMore(was, gone, key);
      PickOneMore(attached, gone, key);
      Remove(key, was[key]);
    }

    /** expire's second loop. */
    method RemoveAll(keys: seq<Client>)
      requires Valid()
      requires forall ck <- keys :: ck in flows
      requires forall i, j :: 0 <= i < j < |keys| ==> keys[i] != keys[j]
      modifies this`flows, counter, sockets
      ensures Valid()
      ensures forall ck :: ck in flows <==> ck in old(flows) && ck !in keys
      ensures forall ck <- flows :: flows[ck] == old(flows)[ck]
      ensures counter.n - |flows| == old(counter.n - |flows|)
      ensures sockets.open == old(sockets.open) - Pick(old(Attached()), old(flows).Keys - flows.Keys)
    {
      var was := flows;
      ghost var attached, open := Attached(), sockets.open;
      ghost var gone: set<Client> := {};
      for i := 0 to |keys|
        modifies this`flows, counter, sockets
        invariant forall ck :: ck in gone <==> ck in keys[..i]
        invariant Expiring(was, attached, gone, open)
        invariant counter.n - |flows| == old(counter.n - |flows|)
      {
        PrefixStep(keys, i);
        RemoveNext(was, attached, gone, open, keys[i]);
        gone := gone + {keys[i]};
      }
      assert keys[..|keys|] == keys;
      assert gone == was.Keys - flows.Keys;
    }

    /** Exactly the flows idle since before the cutoff go, each with its socket
        and its place in the counter. */
    method Expire(cutoff: int)
      requires Valid()
      modifies this`flows, counter, sockets
      ensures Valid()
      ensures forall ck :: ck in flows <==> ck in old(flows) && old(flows)[ck].last >= cutoff
      ensures forall ck <- flows :: flows[ck] == old(flows)[ck]
      ensures counter.n - |flows| == old(counter.n - |flows|)
      ensures sockets.open == old(sockets.open) - Pick(old(Attached()), old(flows).Keys - flows.Keys)
    {
      var keys := Idle(cutoff);
      RemoveAll(keys);
    }

    /** The attached sockets, in some order. */
    method Upstreams() returns (ups: seq<nat>)
      requires Valid()
      ensures forall up :: up in ups <==> up in Attached().Values
    {
      ups := [];
      var rest := flows.Keys;
      while rest != {}
        invariant rest <= flows.Keys
        invariant forall up <- ups :: up in Attached().Values
        invariant forall ck :: ck in flows && ck !in rest && flows[ck].up.Some? ==> flows[ck].up.value in ups
      {
        var ck :| ck in rest;
        rest := rest - {ck};
        if flows[ck].up.Some? {
          assert Attached()[ck] in Attached().Values;
          ups := ups + [flows[ck].up.value];
        }
      }
    }

    /** Every flow leaves the table and the counter, and every attached socket is
        closed. */
    method Close()
      requires Valid()
      modifies this, counter, sockets
      ensures Valid() && closed && flows == map[]
      ensures counter.n == old(counter.n - |flows|)
      ensures forall up :: up in sockets.open <==> up in old(sockets.open) && up !in old(Attached()).Values
    {
      ghost var was := sockets.open;
      var ups := Upstreams();
      closed := true;
      counter.n := counter.n - |flows|;
      flows := map[];
      for i := 0 to |ups|
        modifies sockets
        invariant forall up :: up in sockets.open <==> up in was && up !in ups[..i]
      {
        PrefixStep(ups, i);
        sockets.Close(ups[i]);
      }
      assert ups[..|ups|] == ups;
    }
  }
}
