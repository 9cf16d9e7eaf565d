/** What the signed header guarantees: the two implementations agree, a built
    header is read and verified, and only what was signed is trusted. */
module GuardTheorems {
  import opened Prelude
  import opened Bits
  import opened Guard

  // ------------------------------------------------------- the parts of a header

  lemma WireParts(verCmd: Byte, fam: Byte, addr: Bytes, tlvs: Bytes, rest: Bytes)
    requires |addr| + |tlvs| < 0x1_0000
    ensures
      var h := Wire(verCmd, fam, addr, tlvs) + rest;
      && |Wire(verCmd, fam, addr, tlvs)| == 16 + |addr| + |tlvs| && |h| >= 16
      && HasSignature(h) && h[12] == verCmd && h[13] == fam && BodyLen(h) == |addr| + |tlvs|
      && h[..16 + BodyLen(h)] == Wire(verCmd, fam, addr, tlvs)
      && h[16..16 + BodyLen(h)] == addr + tlvs && h[16 + BodyLen(h)..] == rest
  {
    var h := Wire(verCmd, fam, addr, tlvs) + rest;
    assert h[14..16] == U16(|addr| + |tlvs|);
    Read16Of(|addr| + |tlvs|);
  }

  /** Reading takes exactly the header off a longer stream. */
  lemma ReadsExactlyTheHeader(verCmd: Byte, fam: Byte, addr: Bytes, tlvs: Bytes, rest: Bytes)
    requires |addr| + |tlvs| < 0x1_0000
    ensures
      HeaderOf(Wire(verCmd, fam, addr, tlvs) + rest)
      == if |addr| + |tlvs| <= 1024 then Ok((Wire(verCmd, fam, addr, tlvs), rest)) else Err(HeaderTooLong)
  {
    WireParts(verCmd, fam, addr, tlvs, rest);
  }

  lemma WireOpens(verCmd: Byte, fam: Byte, addr: Bytes, tlvs: Bytes)
    requires |addr| + |tlvs| < 0x1_0000 && AddrLen(verCmd, fam) == Some(|addr|)
    ensures Opened(Wire(verCmd, fam, addr, tlvs)) == OpenedBody(verCmd, fam, addr, tlvs)
  {
    var h := Wire(verCmd, fam, addr, tlvs);
    WireParts(verCmd, fam, addr, tlvs, []);
    assert h + [] == h;
    var body := h[16..];
    assert body == addr + tlvs;
    assert body[..|addr|] == addr && body[|addr|..] == tlvs;
  }

  lemma ScanStep(t: Byte, v: Bytes, rest: Bytes, value: Option<Bytes>)
    requires |v| < 0x1_0000
    ensures
      Scan(Tlv(t, v) + rest, value)
      == if t != TLV_TYPE then Scan(rest, value)
         else if value.Some? then Err(DuplicateSignature)
         else Scan(rest, Some(v))
  {
    var s := Tlv(t, v) + rest;
    assert s[0] == t && s[1..3] == U16(|v|);
    assert Read16(s[1..3]) == |v| by { Read16Of(|v|); }
    assert s[3..3 + |v|] == v;
    assert s[3 + |v|..] == rest;
  }

  // ----------------------------------------------------- a built header verifies

  lemma SignedValueParts(hmac: Hmac, key: Bytes, verCmd: Byte, fam: Byte, addr: Bytes, ts: Stamp, nonce: Nonce)
    ensures
      var v := SignedValue(hmac, key, verCmd, fam, addr, ts, nonce);
      && v[0] == VERSION && Read64(v[1..9]) == ts && v[9..21] == nonce
      && v[21..] == hmac(key, MacInput(verCmd, fam, addr, ts, nonce))
  {
    var v := SignedValue(hmac, key, verCmd, fam, addr, ts, nonce);
    assert v[1..9] == U64(ts);
    Read64Of(ts);
  }

  lemma SignedHeaderOpens(hmac: Hmac, key: Bytes, verCmd: Byte, fam: Byte, addr: Bytes, ts: Stamp, nonce: Nonce)
    requires AddrLen(verCmd, fam) == Some(|addr|)
    ensures
      Opened(SignedHeader(hmac, key, verCmd, fam, addr, ts, nonce))
      == Ok(Signed(verCmd, fam, addr, ts, nonce, hmac(key, MacInput(verCmd, fam, addr, ts, nonce))))
  {
    var v := SignedValue(hmac, key, verCmd, fam, addr, ts, nonce);
    WireOpens(verCmd, fam, addr, Tlv(TLV_TYPE, v));
    ScanStep(TLV_TYPE, v, [], None);
    assert Tlv(TLV_TYPE, v) + [] == Tlv(TLV_TYPE, v);
    SignedValueParts(hmac, key, verCmd, fam, addr, ts, nonce);
  }

  lemma BlockParts(src: TcpAddr, dst: TcpAddr)
    ensures
      var (fam, addr) := Block(src, dst);
      && AddrLen(CMD_PROXY, fam) == Some(|addr|)
      && Addresses(Go(0), fam, addr).Proxied?
      && SameAddr(Addresses(Go(0), fam, addr).src, src) && SameAddr(Addresses(Go(0), fam, addr).dst, dst)
  {
    var (fam, addr) := Block(src, dst);
    var n := if fam == FAM_TCP4 then 4 else 16;
    assert addr[2 * n..2 * n + 2] == U16(src.port) && addr[2 * n + 2..2 * n + 4] == U16(dst.port);
    Read16Of(src.port);
    Read16Of(dst.port);
    CanonicalBytes(src.ip);
    CanonicalBytes(dst.ip);
    if n == 4 {
      assert addr[..4] == To4(src.ip).value && addr[4..8] == To4(dst.ip).value;
    } else {
      assert addr[..16] == To16(src.ip) && addr[16..32] == To16(dst.ip);
    }
  }

  lemma UnmappedIsSame(a: TcpAddr, b: TcpAddr)
    ensures SameAddr(CanonicalAddr(a), b) <==> SameAddr(a, b)
  {
    CanonicalBytes(a.ip);
  }

  /** The original ends, up to IPv4-mapping, or no address. */
  predicate Recovers(v: Verdict, src: Addr, dst: Addr) {
    if src.Tcp? && dst.Tcp? then v.Proxied? && SameAddr(v.src, src.addr) && SameAddr(v.dst, dst.addr)
    else v == Local
  }

  /** A header that was built with a key verifies with that key, on the gateway and
      in the jar, exactly when the clock is within the skew of the time it was
      built at and its nonce is new; it then gives the original addresses. */
  lemma BuiltHeaderVerifies(hmac: Hmac, key: Bytes, src: Addr, dst: Addr, built: Seconds, nonce: Nonce,
                            clock: Clock, replayed: Nonce -> bool)
    ensures
      var r := Verified(hmac, key, Header(hmac, key, src, dst, built, nonce), clock, replayed);
      && (r.Ok? <==> InTime(clock, StampOf(built)) && !replayed(nonce))
      && (r.Ok? ==> Recovers(r.value, src, dst))
      && (r.Err? ==> r.error == if InTime(clock, StampOf(built)) then ReplayedNonce else SkewedTimestamp)
  {
    var ts := StampOf(built);
    if src.Tcp? && dst.Tcp? {
      var (fam, addr) := Block(src.addr, dst.addr);
      BlockParts(src.addr, dst.addr);
      SignedHeaderOpens(hmac, key, CMD_PROXY, fam, addr, ts, nonce);
      var v := Addresses(Go(0), fam, addr);
      UnmappedIsSame(v.src, src.addr);
      UnmappedIsSame(v.dst, dst.addr);
    } else {
      SignedHeaderOpens(hmac, key, CMD_LOCAL, FAM_UNSPEC, [], ts, nonce);
    }
  }

  /** The differences of two longs that the jar takes for small ones, although they
      are not: the one that has no absolute value, and those that wrap around. */
  predicate Stray(d: int) {
    d == 0x8000_0000_0000_0000 || d == -0x8000_0000_0000_0000
    || d >= 0x1_0000_0000_0000_0000 - 120 || d <= -0x1_0000_0000_0000_0000 + 120
  }

  /** The skew in plain numbers. The gateway's check is exact to the nanosecond, the
      jar's to the second, but for the stray differences. */
  lemma SkewIsExact(now: Seconds, ts: Stamp, fraction: nat)
    requires fraction < NANOS
    ensures
      InTime(Go(now * NANOS + fraction), ts)
      <==> -120 <= now - SecondsOf(ts) <= 120 && (now - SecondsOf(ts) == 120 ==> fraction == 0)
    ensures
      InTime(Java(now), ts) <==> -120 <= now - SecondsOf(ts) <= 120 || Stray(now - SecondsOf(ts))
  {
    var d: int := now - SecondsOf(ts);
    WrapOf(d);
  }

  lemma WrapOf(d: int)
    requires -0x1_0000_0000_0000_0000 < d < 0x1_0000_0000_0000_0000
    ensures
      Wrap(d) == if d < -0x8000_0000_0000_0000 then d + 0x1_0000_0000_0000_0000
                 else if d < 0x8000_0000_0000_0000 then d
                 else d - 0x1_0000_0000_0000_0000
  {
    if d >= 0 {
      Mod64(d, 0, d);
    } else {
      Mod64(d, -1, d + 0x1_0000_0000_0000_0000);
    }
  }

  // -------------------------------------------------------- Go and Java agree

  /** The jar's address block: by the type of its addresses, not their content. */
  function JavaBlock(src: TcpAddr, dst: TcpAddr): (Byte, Bytes) {
    if src.ip.V4? && dst.ip.V4? then (FAM_TCP4, src.ip.b4 + dst.ip.b4 + Ports(src.port, dst.port))
    else (FAM_TCP6, To16(src.ip) + To16(dst.ip) + Ports(src.port, dst.port))
  }

  function JavaHeader(hmac: Hmac, key: Bytes, src: TcpAddr, dst: TcpAddr, now: Seconds, nonce: Nonce): Bytes {
    var (fam, addr) := JavaBlock(src, dst);
    SignedHeader(hmac, key, CMD_PROXY, fam, addr, StampOf(now), nonce)
  }

  /** The jar's unsigned header; OtherAddr stands for null. */
  function JavaPlain(src: Addr, dst: Addr): Bytes {
    if src.Tcp? && dst.Tcp? then
      var (fam, addr) := JavaBlock(src.addr, dst.addr);
      Wire(CMD_PROXY, fam, addr, [])
    else Wire(CMD_LOCAL, FAM_UNSPEC, [], [])
  }

  /** The address as the jar holds it: java.net.InetAddress turns an IPv4-mapped
      address into an Inet4Address wherever it makes one. */
  function InJava(a: Addr): Addr {
    if a.Tcp? then Tcp(CanonicalAddr(a.addr)) else a
  }

  lemma BlocksAgree(src: TcpAddr, dst: TcpAddr)
    ensures Block(src, dst) == JavaBlock(CanonicalAddr(src), CanonicalAddr(dst))
  {
    CanonicalBytes(src.ip);
    CanonicalBytes(dst.ip);
  }

  /** For the same two ends the gateway and the jar build the same bytes, signed and
      unsigned, with addresses and without: the one by what its addresses are worth,
      the other by what type they have. */
  lemma BuildersAgree(hmac: Hmac, key: Bytes, src: Addr, dst: Addr, now: Seconds, nonce: Nonce)
    ensures
      Header(hmac, key, src, dst, now, nonce)
      == if src.Tcp? && dst.Tcp? then
           JavaHeader(hmac, key, CanonicalAddr(src.addr), CanonicalAddr(dst.addr), now, nonce)
         else LocalHeader(hmac, key, now, nonce)
    ensures PlainHeader(src, dst) == JavaPlain(InJava(src), InJava(dst))
  {
    if src.Tcp? && dst.Tcp? { BlocksAgree(src.addr, dst.addr); }
  }

  /** What the jar relies on InetAddress for: if it could hold an IPv4-mapped address
      as such, its bytes would differ exactly when both ends are IPv4. */
  lemma MappedFormWouldDiffer(hmac: Hmac, key: Bytes, src: TcpAddr, dst: TcpAddr, now: Seconds, nonce: Nonce)
    ensures
      Header(hmac, key, Tcp(src), Tcp(dst), now, nonce) == JavaHeader(hmac, key, src, dst, now, nonce)
      <==> (To4(src.ip).Some? && To4(dst.ip).Some? ==> src.ip.V4? && dst.ip.V4?)
  {
    var (fam, addr) := Block(src, dst);
    var (fam', addr') := JavaBlock(src, dst);
    if fam != fam' {
      var h := Header(hmac, key, Tcp(src), Tcp(dst), now, nonce);
      assert h[13] == fam && JavaHeader(hmac, key, src, dst, now, nonce)[13] == fam';
    }
  }

  /** The distances at which the skew checks part: the stray ones, and, when the
      instant is not a whole second, the last one the jar allows, which the gateway
      then finds exceeded by the fraction. */
  predicate Parted(d: int, fraction: nat) {
    Stray(d) || (d == 120 && fraction != 0)
  }

  /** On every sequence of bytes, and at every instant, the jar reading it in whole
      seconds, the two implementations give the same verdict (addresses up to
      IPv4-mapping), unless the header is authentic and stamped at a distance at
      which the skew checks part. */
  lemma VerifiersAgree(hmac: Hmac, key: Bytes, header: Bytes, now: Seconds, fraction: nat, replayed: Nonce -> bool)
    requires fraction < NANOS
    ensures
      var go := Verified(hmac, key, header, Go(now * NANOS + fraction), replayed);
      var java := Verified(hmac, key, header, Java(now), replayed);
      (if go.Ok? then java == Ok(Unmapped(go.value)) else java == go)
      <==> !(Opened(header).Ok? && Authentic(hmac, key, Opened(header).value)
             && Parted(now - SecondsOf(Opened(header).value.ts), fraction))
  {
    if Opened(header).Ok? {
      SkewIsExact(now, Opened(header).value.ts, fraction);
    }
  }

  /** The everyday exception, whatever the key and the nonce: half a second past the
      last whole second at which a stamp is in time, the gateway refuses the header
      and the jar still accepts it. */
  lemma VerifiersDifferWithinASecond(hmac: Hmac, key: Bytes, nonce: Nonce)
    ensures
      var header := LocalHeader(hmac, key, 1000, nonce);
      && Verified(hmac, key, header, Go(1120 * NANOS + 500_000_000), _ => false) == Err(SkewedTimestamp)
      && Verified(hmac, key, header, Java(1120), _ => false) == Ok(Local)
  {
    SignedHeaderOpens(hmac, key, CMD_LOCAL, FAM_UNSPEC, [], StampOf(1000), nonce);
    SkewIsExact(1120, StampOf(1000), 500_000_000);
  }

  /** The stray exception, whatever the key and the nonce: a signed header whose
      stamp is 2^63 seconds away is refused by the gateway and accepted by the jar,
      because Math.abs leaves that difference negative. */
  lemma VerifiersDiffer(hmac: Hmac, key: Bytes, nonce: Nonce)
    ensures
      var ts: Stamp := 0x8000_0000_0000_0000 + 1000;
      var header := SignedHeader(hmac, key, CMD_LOCAL, FAM_UNSPEC, [], ts, nonce);
      && Verified(hmac, key, header, Go(1000 * NANOS), _ => false) == Err(SkewedTimestamp)
      && Verified(hmac, key, header, Java(1000), _ => false) == Ok(Local)
  {
    var ts: Stamp := 0x8000_0000_0000_0000 + 1000;
    SignedHeaderOpens(hmac, key, CMD_LOCAL, FAM_UNSPEC, [], ts, nonce);
    SkewIsExact(1000, ts, 0);
  }

  // ------------------------------------------------------------ what is trusted

  /** Whole TLVs of other types than the signature. */
  predicate OtherTlvs(s: Bytes)
    decreases |s|
  {
    s == [] || (|s| >= 3 && |s| >= 3 + Read16(s[1..3]) && s[0] != TLV_TYPE && OtherTlvs(s[3 + Read16(s[1..3])..]))
  }

  /** Whole TLVs. */
  predicate WholeTlvs(s: Bytes)
    decreases |s|
  {
    s == [] || (|s| >= 3 && |s| >= 3 + Read16(s[1..3]) && WholeTlvs(s[3 + Read16(s[1..3])..]))
  }

  lemma {:induction false} ScanOthers(others: Bytes, rest: Bytes, value: Option<Bytes>)
    requires OtherTlvs(others)
    ensures Scan(others + rest, value) == Scan(rest, value)
    decreases |others|
  {
    if others == [] {
      assert others + rest == rest;
    } else {
      var l := Read16(others[1..3]);
      var s := others + rest;
      assert s[1..3] == others[1..3];
      assert s[3 + l..] == others[3 + l..] + rest;
      ScanOthers(others[3 + l..], rest, value);
    }
  }

  /** The first of some whole TLVs, whatever follows them. */
  lemma ScanHead(s: Bytes, rest: Bytes, value: Option<Bytes>)
    requires s != [] && WholeTlvs(s)
    ensures
      var l := Read16(s[1..3]);
      Scan(s + rest, value)
      == if s[0] != TLV_TYPE then Scan(s[3 + l..] + rest, value)
         else if value.Some? then Err(DuplicateSignature)
         else Scan(s[3 + l..] + rest, Some(s[3..3 + l]))
  {
    var l, t := Read16(s[1..3]), s + rest;
    assert t[1..3] == s[1..3] && t[3..3 + l] == s[3..3 + l] && t[3 + l..] == s[3 + l..] + rest;
  }

  lemma {:induction false} ScanInserted(before: Bytes, others: Bytes, after: Bytes, value: Option<Bytes>)
    requires WholeTlvs(before) && OtherTlvs(others)
    ensures Scan(before + (others + after), value) == Scan(before + after, value)
    decreases |before|
  {
    if before == [] {
      assert before + (others + after) == others + after && before + after == after;
      ScanOthers(others, after, value);
    } else {
      var rest := before[3 + Read16(before[1..3])..];
      ScanHead(before, others + after, value);
      ScanHead(before, after, value);
      if before[0] != TLV_TYPE {
        ScanInserted(rest, others, after, value);
      } else {
        ScanInserted(rest, others, after, Some(before[3..3 + Read16(before[1..3])]));
      }
    }
  }

  /** The verdict depends on the TLVs only by what the scan of them gives. */
  lemma SameScanSameVerdict(hmac: Hmac, key: Bytes, verCmd: Byte, fam: Byte, addr: Bytes,
                            tlvs: Bytes, tlvs': Bytes, clock: Clock, replayed: Nonce -> bool)
    requires AddrLen(verCmd, fam) == Some(|addr|) && |addr| + |tlvs| < 0x1_0000 && |addr| + |tlvs'| < 0x1_0000
    requires Scan(tlvs, None) == Scan(tlvs', None)
    ensures
      Verified(hmac, key, Wire(verCmd, fam, addr, tlvs), clock, replayed)
      == Verified(hmac, key, Wire(verCmd, fam, addr, tlvs'), clock, replayed)
  {
    WireOpens(verCmd, fam, addr, tlvs);
    WireOpens(verCmd, fam, addr, tlvs');
  }

  /** Inserting any TLVs of other types, at any boundary between TLVs of any header,
      leaves the verdict as it was. */
  lemma OtherTlvsAreIgnored(hmac: Hmac, key: Bytes, verCmd: Byte, fam: Byte, addr: Bytes,
                            before: Bytes, others: Bytes, after: Bytes, clock: Clock, replayed: Nonce -> bool)
    requires AddrLen(verCmd, fam) == Some(|addr|)
    requires WholeTlvs(before) && OtherTlvs(others) && |addr| + |before| + |others| + |after| < 0x1_0000
    ensures
      Verified(hmac, key, Wire(verCmd, fam, addr, before + others + after), clock, replayed)
      == Verified(hmac, key, Wire(verCmd, fam, addr, before + after), clock, replayed)
  {
    ScanInserted(before, others, after, None);
    assert before + others + after == before + (others + after);
    SameScanSameVerdict(hmac, key, verCmd, fam, addr, before + others + after, before + after, clock, replayed);
  }

  lemma MiddleOf(head: Bytes, middle: Bytes, tail: Bytes)
    ensures
      var m, n := head + middle + tail, |head|;
      && (forall i, j :: 0 <= i <= j <= n ==> m[i..j] == head[i..j]) && (forall i :: 0 <= i < n ==> m[i] == head[i])
      && m[n..n + |middle|] == middle && m[n + |middle|..] == tail
  {
  }

  lemma MacInputParts(verCmd: Byte, fam: Byte, addr: Bytes, ts: Stamp, nonce: Nonce)
    ensures
      var m, n := MacInput(verCmd, fam, addr, ts, nonce), 16 + |addr|;
      && |m| == n + 21 && m[14] == verCmd && m[15] == fam && m[16..n] == addr
      && Read64(m[n + 1..n + 9]) == ts && m[n + 9..] == nonce
  {
    var head := CONTEXT + [verCmd, fam] + addr + [VERSION];
    assert head[14] == verCmd && head[15] == fam && head[16..16 + |addr|] == addr;
    MiddleOf(head, U64(ts), nonce);
    Read64Of(ts);
  }

  /** The signed message determines every signed field. */
  lemma MacInputIsInjective(verCmd: Byte, fam: Byte, addr: Bytes, ts: Stamp, nonce: Nonce,
                            verCmd': Byte, fam': Byte, addr': Bytes, ts': Stamp, nonce': Nonce)
    requires MacInput(verCmd, fam, addr, ts, nonce) == MacInput(verCmd', fam', addr', ts', nonce')
    ensures verCmd == verCmd' && fam == fam' && addr == addr' && ts == ts' && nonce == nonce'
  {
    MacInputParts(verCmd, fam, addr, ts, nonce);
    MacInputParts(verCmd', fam', addr', ts', nonce');
  }

  /** A header is accepted only for what was signed: whenever one verifies, its MAC
      is that of a message that determines its command, addresses, time and nonce. */
  lemma AcceptedWasSigned(hmac: Hmac, key: Bytes, header: Bytes, clock: Clock, replayed: Nonce -> bool)
    ensures
      Verified(hmac, key, header, clock, replayed).Ok?
      ==> exists verCmd, fam, addr, ts, nonce ::
            && Opened(header) == Opened(SignedHeader(hmac, key, verCmd, fam, addr, ts, nonce))
            && InTime(clock, ts) && !replayed(nonce)
  {
    if Verified(hmac, key, header, clock, replayed).Ok? {
      var s := Opened(header).value;
      SignedHeaderOpens(hmac, key, s.verCmd, s.fam, s.addr, s.ts, s.nonce);
      assert Opened(header) == Opened(SignedHeader(hmac, key, s.verCmd, s.fam, s.addr, s.ts, s.nonce));
    }
  }

  // ------------------------------------------------------- the plain reader

  lemma PlainReads(verCmd: Byte, fam: Byte, addr: Bytes, tlvs: Bytes, rest: Bytes)
    requires |addr| + |tlvs| < 0x1_0000 && AddrLen(verCmd, fam) == Some(|addr|)
    ensures
      PlainSource(Wire(verCmd, fam, addr, tlvs) + rest)
      == Ok((if verCmd == CMD_LOCAL then None else Some(Addresses(Go(0), fam, addr).src), rest))
  {
    WireParts(verCmd, fam, addr, tlvs, rest);
    var body := addr + tlvs;
    if verCmd != CMD_LOCAL {
      var n := if fam == FAM_TCP4 then 4 else 16;
      assert body[..n] == addr[..n] && body[2 * n..2 * n + 2] == addr[2 * n..2 * n + 2];
    }
  }

  /** The plain reader on every header, in plain numbers: version 2 only; no source
      for LOCAL and for families other than IPv4 and IPv6; else the address and the
      port at their places, if they are there. */
  lemma PlainReaderExactly(verCmd: Byte, fam: Byte, body: Bytes, rest: Bytes)
    requires |body| < 0x1_0000
    ensures
      PlainSource(Wire(verCmd, fam, body, []) + rest)
      == if verCmd < 0x20 || verCmd >= 0x30 then Err(BadVersion)
         else if verCmd == 0x20 || fam < 0x10 || fam >= 0x30 then Ok((None, rest))
         else if |body| < (if fam < 0x20 then 12 else 36) then Err(ShortAddress)
         else if fam < 0x20 then Ok((Some(TcpAddr(V4(body[..4]), 256 * body[8] as int + body[9])), rest))
         else Ok((Some(TcpAddr(V6(body[..16]), 256 * body[32] as int + body[33])), rest))
  {
    WireParts(verCmd, fam, body, [], rest);
    assert body + [] == body;
    var v: int, f: int := verCmd, fam;
    assert v / 16 == 2 <==> 0x20 <= v < 0x30;
    assert v / 16 == 2 ==> (v % 16 == 0 <==> v == 0x20);
    assert (f / 16 == 1 <==> 0x10 <= f < 0x20) && (f / 16 == 2 <==> 0x20 <= f < 0x30);
  }

  /** A reader that knows nothing of the signature takes the same source, up to
      IPv4-mapping, from a signed header as from a plain one, and leaves what
      follows it on the stream (section 2.2 of the PROXY protocol specification). */
  lemma PlainReaderSeesTheSource(hmac: Hmac, key: Bytes, src: Addr, dst: Addr, now: Seconds, nonce: Nonce, rest: Bytes)
    ensures
      var signed := PlainSource(Header(hmac, key, src, dst, now, nonce) + rest);
      && signed == PlainSource(PlainHeader(src, dst) + rest)
      && signed.Ok? && signed.value.1 == rest
      && (if src.Tcp? && dst.Tcp? then signed.value.0.Some? && SameAddr(signed.value.0.value, src.addr)
          else signed.value.0 == None)
  {
    var ts := StampOf(now);
    if src.Tcp? && dst.Tcp? {
      var (fam, addr) := Block(src.addr, dst.addr);
      BlockParts(src.addr, dst.addr);
      PlainReads(CMD_PROXY, fam, addr, [], rest);
      PlainReads(CMD_PROXY, fam, addr, Tlv(TLV_TYPE, SignedValue(hmac, key, CMD_PROXY, fam, addr, ts, nonce)), rest);
    } else {
      PlainReads(CMD_LOCAL, FAM_UNSPEC, [], [], rest);
      PlainReads(CMD_LOCAL, FAM_UNSPEC, [],
                 Tlv(TLV_TYPE, SignedValue(hmac, key, CMD_LOCAL, FAM_UNSPEC, [], ts, nonce)), rest);
    }
  }

  /** The whole way: what the gateway puts in front of a connection is taken off it
      to the byte, verifies, and gives the addresses it was built for. */
  lemma HeaderTravels(hmac: Hmac, key: Bytes, src: Addr, dst: Addr, built: Seconds, nonce: Nonce, rest: Bytes,
                      clock: Clock, replayed: Nonce -> bool)
    requires InTime(clock, StampOf(built)) && !replayed(nonce)
    ensures
      var h := HeaderOf(Header(hmac, key, src, dst, built, nonce) + rest);
      && h.Ok? && h.value.1 == rest
      && Verified(hmac, key, h.value.0, clock, replayed).Ok?
      && Recovers(Verified(hmac, key, h.value.0, clock, replayed).value, src, dst)
  {
    BuiltHeaderVerifies(hmac, key, src, dst, built, nonce, clock, replayed);
    var ts := StampOf(built);
    if src.Tcp? && dst.Tcp? {
      var (fam, addr) := Block(src.addr, dst.addr);
      ReadsExactlyTheHeader(CMD_PROXY, fam, addr,
                            Tlv(TLV_TYPE, SignedValue(hmac, key, CMD_PROXY, fam, addr, ts, nonce)), rest);
    } else {
      ReadsExactlyTheHeader(CMD_LOCAL, FAM_UNSPEC, [],
                            Tlv(TLV_TYPE, SignedValue(hmac, key, CMD_LOCAL, FAM_UNSPEC, [], ts, nonce)), rest);
    }
  }

  /** The jar as a middleman: the unsigned header it writes for a connection it let
      through shows its backend the source that the gateway saw, up to IPv4-mapping,
      or none if the gateway announced none. */
  lemma JarPassesTheSourceOn(hmac: Hmac, key: Bytes, src: Addr, dst: Addr, built: Seconds, nonce: Nonce, rest: Bytes,
                             now: Seconds, replayed: Nonce -> bool)
    requires Verified(hmac, key, Header(hmac, key, src, dst, built, nonce), Java(now), replayed).Ok?
    ensures
      var v := Verified(hmac, key, Header(hmac, key, src, dst, built, nonce), Java(now), replayed).value;
      var plain := if v.Local? then JavaPlain(OtherAddr, OtherAddr) else JavaPlain(Tcp(v.src), Tcp(v.dst));
      var read := PlainSource(plain + rest);
      && read.Ok? && read.value.1 == rest
      && (if src.Tcp? && dst.Tcp? then read.value.0.Some? && SameAddr(read.value.0.value, src.addr)
          else read.value.0 == None)
  {
    BuiltHeaderVerifies(hmac, key, src, dst, built, nonce, Java(now), replayed);
    var v := Verified(hmac, key, Header(hmac, key, src, dst, built, nonce), Java(now), replayed).value;
    if src.Tcp? && dst.Tcp? {
      JavaBlockParts(v.src, v.dst);
      var (fam, addr) := JavaBlock(v.src, v.dst);
      PlainReads(CMD_PROXY, fam, addr, [], rest);
    } else {
      PlainReads(CMD_LOCAL, FAM_UNSPEC, [], [], rest);
    }
  }

  lemma JavaBlockParts(src: TcpAddr, dst: TcpAddr)
    ensures
      var (fam, addr) := JavaBlock(src, dst);
      && AddrLen(CMD_PROXY, fam) == Some(|addr|)
      && Addresses(Go(0), fam, addr).Proxied? && SameAddr(Addresses(Go(0), fam, addr).src, src)
  {
    var (fam, addr) := JavaBlock(src, dst);
    var n := if fam == FAM_TCP4 then 4 else 16;
    assert addr[2 * n..2 * n + 2] == U16(src.port);
    Read16Of(src.port);
    CanonicalBytes(src.ip);
    if n == 4 {
      assert addr[..4] == src.ip.b4;
    } else {
      assert addr[..16] == To16(src.ip);
    }
  }

  // ------------------------------------------------------- the format in numbers

  /** The signature of section 2.2 of the PROXY protocol specification. */
  const PROXY2: Bytes := [0x0D, 0x0A, 0x0D, 0x0A, 0x00, 0x0D, 0x0A, 0x51, 0x55, 0x49, 0x54, 0x0A]

  /** What is signed: the text vecta-guard-v1, the command and the family, the address
      block, the version, the time and the nonce. */
  function Message(verCmd: Byte, fam: Byte, addr: Bytes, time: Bytes, nonce: Bytes): Bytes {
    [0x76, 0x65, 0x63, 0x74, 0x61, 0x2D, 0x67, 0x75, 0x61, 0x72, 0x64, 0x2D, 0x76, 0x31]
    + ([verCmd, fam] + (addr + ([0x01] + (time + nonce))))
  }

  /** The TLV of type 0xE0 with 53 bytes: version, time, nonce and MAC. */
  function SignatureTlv(time: Bytes, nonce: Bytes, mac: Bytes): Bytes {
    [0xE0, 0x00, 0x35, 0x01] + (time + (nonce + mac))
  }

  lemma MessageInNumbers(verCmd: Byte, fam: Byte, addr: Bytes, ts: Stamp, nonce: Nonce)
    ensures MacInput(verCmd, fam, addr, ts, nonce) == Message(verCmd, fam, addr, U64(ts), nonce)
  {
    Nested6(CONTEXT, [verCmd, fam], addr, [VERSION], U64(ts), nonce);
  }

  lemma Nested6(a: Bytes, b: Bytes, c: Bytes, d: Bytes, e: Bytes, f: Bytes)
    ensures a + b + c + d + e + f == a + (b + (c + (d + (e + f))))
  {
  }

  lemma TlvInNumbers(time: Bytes, nonce: Bytes, mac: Bytes)
    requires |time| == 8 && |nonce| == 12 && |mac| == 32
    ensures Tlv(TLV_TYPE, [VERSION] + time + nonce + mac) == SignatureTlv(time, nonce, mac)
  {
    var v := [VERSION] + time + nonce + mac;
    assert |v| == 53 && U16(53) == [0x00, 0x35];
    assert v == [0x01] + (time + (nonce + mac));
    var rest := time + (nonce + mac);
    assert [0xE0] + [0x00, 0x35] + ([0x01] + rest) == [0xE0, 0x00, 0x35, 0x01] + rest;
  }

  lemma SignedInNumbers(hmac: Hmac, key: Bytes, verCmd: Byte, fam: Byte, addr: Bytes, ts: Stamp, nonce: Nonce)
    requires |addr| + 56 < 256
    ensures
      SignedHeader(hmac, key, verCmd, fam, addr, ts, nonce)
      == PROXY2 + [verCmd, fam, 0, |addr| + 56]
         + (addr + SignatureTlv(U64(ts), nonce, hmac(key, Message(verCmd, fam, addr, U64(ts), nonce))))
  {
    MessageInNumbers(verCmd, fam, addr, ts, nonce);
    var mac := hmac(key, MacInput(verCmd, fam, addr, ts, nonce));
    TlvInNumbers(U64(ts), nonce, mac);
    assert |SignatureTlv(U64(ts), nonce, mac)| == 56;
    assert U16(|addr| + 56) == [0, |addr| + 56];
    assert [verCmd, fam] + [0, |addr| + 56] == [verCmd, fam, 0, |addr| + 56];
    Assoc(PROXY2, [verCmd, fam], [0, |addr| + 56]);
  }

  /** The header that the gateway sends, byte by byte: LOCAL, over IPv4, over IPv6 with
      an IPv4 end mapped. */
  lemma HeaderInNumbers(hmac: Hmac, key: Bytes, src: Addr, dst: Addr, now: Seconds, nonce: Nonce)
    ensures
      var h, time := Header(hmac, key, src, dst, now, nonce), U64(StampOf(now));
      if !src.Tcp? || !dst.Tcp? then
        h == PROXY2 + [0x20, 0x00, 0x00, 0x38]
             + ([] + SignatureTlv(time, nonce, hmac(key, Message(0x20, 0x00, [], time, nonce))))
      else if To4(src.addr.ip).Some? && To4(dst.addr.ip).Some? then
        var block := To4(src.addr.ip).value + To4(dst.addr.ip).value + (U16(src.addr.port) + U16(dst.addr.port));
        h == PROXY2 + [0x21, 0x11, 0x00, 0x44]
             + (block + SignatureTlv(time, nonce, hmac(key, Message(0x21, 0x11, block, time, nonce))))
      else
        var block := To16(src.addr.ip) + To16(dst.addr.ip) + (U16(src.addr.port) + U16(dst.addr.port));
        h == PROXY2 + [0x21, 0x21, 0x00, 0x5C]
             + (block + SignatureTlv(time, nonce, hmac(key, Message(0x21, 0x21, block, time, nonce))))
  {
    if src.Tcp? && dst.Tcp? {
      var (fam, addr) := Block(src.addr, dst.addr);
      SignedInNumbers(hmac, key, CMD_PROXY, fam, addr, StampOf(now), nonce);
    } else {
      SignedInNumbers(hmac, key, CMD_LOCAL, FAM_UNSPEC, [], StampOf(now), nonce);
    }
  }

  /** The mapped form of section 2.5.5.2 of RFC 4291. */
  lemma MappingInNumbers(b: Ip4)
    ensures To16(V4(b)) == [0, 0, 0, 0, 0, 0, 0, 0, 0, 0, 0xFF, 0xFF] + b
    ensures To4(V6([0, 0, 0, 0, 0, 0, 0, 0, 0, 0, 0xFF, 0xFF] + b)) == Some(b)
  {
    CanonicalBytes(V4(b));
    CanonicalBytes(V6([0, 0, 0, 0, 0, 0, 0, 0, 0, 0, 0xFF, 0xFF] + b));
  }

  /** What a built header that verifies gives back, in full. */
  lemma EndsComeBack(hmac: Hmac, key: Bytes, src: TcpAddr, dst: TcpAddr, built: Seconds, nonce: Nonce,
                     clock: Clock, replayed: Nonce -> bool)
    requires InTime(clock, StampOf(built)) && !replayed(nonce)
    ensures
      var r := Verified(hmac, key, Header(hmac, key, Tcp(src), Tcp(dst), built, nonce), clock, replayed);
      && r.Ok? && r.value.Proxied?
      && r.value.src.port == src.port && r.value.dst.port == dst.port
      && To16(r.value.src.ip) == To16(src.ip) && To16(r.value.dst.ip) == To16(dst.ip)
  {
    BuiltHeaderVerifies(hmac, key, Tcp(src), Tcp(dst), built, nonce, clock, replayed);
  }
}
