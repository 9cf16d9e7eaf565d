/** The two implementations of the signed header as they run, the gateway's by
    appending and slicing, the jar's by filling buffers and moving an index, proved
    against the one meaning in Guard. */
module GuardCodec {
  import opened Prelude
  import opened Bits
  import opened Guard
  import opened GuardTheorems

  // --------------------------------------------------- internal/guard/guard.go

  method GoMac(hmac: Hmac, key: Bytes, verCmd: Byte, fam: Byte, addr: Bytes, ts: Stamp, nonce: Nonce) returns (m: Mac)
    ensures m == hmac(key, MacInput(verCmd, fam, addr, ts, nonce))
  {
    var h := CONTEXT;
    h := h + [verCmd, fam];
    h := h + addr;
    h := h + [VERSION];
    h := h + U64(ts);
    h := h + nonce;
    m := hmac(key, h);
  }

  method GoBuild(hmac: Hmac, key: Bytes, verCmd: Byte, fam: Byte, addr: Bytes, now: Seconds, nonce: Nonce)
      returns (out: Bytes)
    ensures out == SignedHeader(hmac, key, verCmd, fam, addr, StampOf(now), nonce)
  {
    var ts := StampOf(now);
    var tlv: Bytes := [TLV_TYPE, 0, VALUE_LEN, VERSION];
    tlv := tlv + U64(ts);
    tlv := tlv + nonce;
    var m := GoMac(hmac, key, verCmd, fam, addr, ts, nonce);
    tlv := tlv + m;
    assert tlv == Tlv(TLV_TYPE, SignedValue(hmac, key, verCmd, fam, addr, ts, nonce));
    out := SIGNATURE;
    out := out + [verCmd, fam];
    out := out + U16(|addr| + |tlv|);
    out := out + addr;
    out := out + tlv;
  }

  method GoLocalHeader(hmac: Hmac, key: Bytes, now: Seconds, nonce: Nonce) returns (out: Bytes)
    ensures out == LocalHeader(hmac, key, now, nonce)
  {
    out := GoBuild(hmac, key, CMD_LOCAL, FAM_UNSPEC, [], now, nonce);
  }

  method GoHeader(hmac: Hmac, key: Bytes, src: Addr, dst: Addr, now: Seconds, nonce: Nonce) returns (out: Bytes)
    ensures out == Header(hmac, key, src, dst, now, nonce)
  {
    if !src.Tcp? || !dst.Tcp? {
      out := GoLocalHeader(hmac, key, now, nonce);
      return;
    }
    var s, d := src.addr, dst.addr;
    var addr: Bytes, fam := [], FAM_TCP4;
    var s4, d4 := To4(s.ip), To4(d.ip);
    if s4.Some? && d4.Some? {
      addr := s4.value;
      addr := addr + d4.value;
    } else {
      fam := FAM_TCP6;
      addr := To16(s.ip);
      addr := addr + To16(d.ip);
    }
    ghost var ips := addr;
    addr := addr + U16(s.port);
    addr := addr + U16(d.port);
    assert addr == ips + Ports(s.port, d.port);
    assert (fam, addr) == Block(s, d);
    out := GoBuild(hmac, key, CMD_PROXY, fam, addr, now, nonce);
  }

  /** proxyV2Header of internal/router/proxyproto.go. */
  method GoPlainHeader(src: Addr, dst: Addr) returns (out: Bytes)
    ensures out == PlainHeader(src, dst)
  {
    out := SIGNATURE;
    if !src.Tcp? || !dst.Tcp? {
      out := out + [CMD_LOCAL, 0, 0, 0];
      return;
    }
    var s, d := src.addr, dst.addr;
    var s4, d4 := To4(s.ip), To4(d.ip);
    if s4.Some? && d4.Some? {
      out := out + [CMD_PROXY, FAM_TCP4, 0, 12];
      out := out + s4.value;
      out := out + d4.value;
      InPlainBlock(FAM_TCP4, s4.value, d4.value, U16(s.port), U16(d.port));
    } else {
      out := out + [CMD_PROXY, FAM_TCP6, 0, 36];
      out := out + To16(s.ip);
      out := out + To16(d.ip);
      InPlainBlock(FAM_TCP6, To16(s.ip), To16(d.ip), U16(s.port), U16(d.port));
    }
    out := out + U16(s.port);
    out := out + U16(d.port);
  }

  lemma InPlainBlock(fam: Byte, s: Bytes, d: Bytes, p: Bytes, q: Bytes)
    requires |s| + |d| + |p| + |q| < 256
    ensures
      SIGNATURE + [CMD_PROXY, fam, 0, |s| + |d| + |p| + |q|] + s + d + p + q
      == Wire(CMD_PROXY, fam, s + d + (p + q), [])
  {
    var addr := s + d + (p + q);
    assert U16(|addr|) == [0, |addr|];
    assert [CMD_PROXY, fam] + [0, |addr|] == [CMD_PROXY, fam, 0, |addr|];
    Rearranged(SIGNATURE, [CMD_PROXY, fam], U16(|addr|), s + d + (p + q));
    Flattened(SIGNATURE + [CMD_PROXY, fam, 0, |addr|], s, d, p, q);
  }

  lemma Rearranged(a: Bytes, b: Bytes, c: Bytes, d: Bytes)
    ensures a + b + c + (d + []) == a + (b + c) + d
  {
  }

  lemma Flattened(a: Bytes, s: Bytes, d: Bytes, p: Bytes, q: Bytes)
    ensures a + s + d + p + q == a + (s + d + (p + q))
  {
  }

  class Stream {
    const bytes: Bytes
    var off: nat

    ghost predicate Valid() reads this { off <= |bytes| }

    ghost function Rest(): Bytes
      reads this
      requires Valid()
    {
      bytes[off..]
    }

    constructor (bytes: Bytes)
      ensures Valid() && this.bytes == bytes && off == 0
    {
      this.bytes := bytes;
      off := 0;
    }

    /** io.ReadFull, DataInputStream.readFully: at the end, what there is is gone. */
    method ReadFull(n: nat) returns (r: Result<Bytes, Error>)
      requires Valid()
      modifies this
      ensures Valid()
      ensures
        if n <= |old(Rest())| then r == Ok(old(Rest())[..n]) && Rest() == old(Rest())[n..]
        else r == Err(UnexpectedEnd)
    {
      if off + n > |bytes| {
        off := |bytes|;
        return Err(UnexpectedEnd);
      }
      r := Ok(bytes[off..off + n]);
      assert r.value == Rest()[..n];
      off := off + n;
    }

    /** ReadHeader of both implementations. */
    method ReadHeader() returns (r: Result<Bytes, Error>)
      requires Valid()
      modifies this
      ensures Valid()
      ensures
        var h := HeaderOf(old(Rest()));
        if h.Ok? then r == Ok(h.value.0) && Rest() == h.value.1 else r == Err(h.error)
    {
      ghost var s := Rest();
      var head := ReadFull(16);
      if head.Err? { return head; }
      var hdr := head.value;
      assert hdr[..12] == s[..12] && hdr[14..16] == s[14..16];
      if hdr[..12] != SIGNATURE { return Err(NotProxyHeader); }
      var n := Read16(hdr[14..16]);
      if 16 + n > MAX_HEADER { return Err(HeaderTooLong); }
      var body := ReadFull(n);
      if body.Err? { return body; }
      assert hdr + body.value == s[..16 + n] && Rest() == s[16 + n..];
      r := Ok(hdr + body.value);
    }

    /** readProxyV2 of internal/router/proxyproto.go. */
    method ReadPlain() returns (r: Result<Option<TcpAddr>, Error>)
      requires Valid()
      modifies this
      ensures Valid()
      ensures
        var h := PlainSource(old(Rest()));
        if h.Ok? then r == Ok(h.value.0) && Rest() == h.value.1 else r == Err(h.error)
    {
      ghost var s := Rest();
      var head := ReadFull(16);
      if head.Err? { return Err(head.error); }
      var hdr := head.value;
      assert hdr[12] == s[12] && hdr[13] == s[13] && hdr[14..16] == s[14..16];
      var verCmd: int, fam: int, n := hdr[12], hdr[13], Read16(hdr[14..16]);
      var read := ReadFull(n);
      if read.Err? { return Err(read.error); }
      var body := read.value;
      assert body == s[16..16 + n] && Rest() == s[16 + n..];
      if verCmd / 16 != 2 { return Err(BadVersion); }
      if verCmd % 16 == 0 { return Ok(None); }
      if fam / 16 == 1 {
        if |body| < 12 { return Err(ShortAddress); }
        return Ok(Some(TcpAddr(V4(body[..4]), Read16(body[8..10]))));
      }
      if fam / 16 == 2 {
        if |body| < 36 { return Err(ShortAddress); }
        return Ok(Some(TcpAddr(V6(body[..16]), Read16(body[32..34]))));
      }
      r := Ok(None);
    }
  }

  /** The loop over the TLVs, on slices. */
  method GoScan(all: Bytes) returns (r: Result<Option<Bytes>, Error>)
    ensures r == Scan(all, None)
  {
    var tlvs, value: Option<Bytes> := all, None;
    while |tlvs| > 0
      invariant Scan(tlvs, value) == Scan(all, None)
      decreases |tlvs|
    {
      if |tlvs| < 3 { return Err(TruncatedTlv); }
      var t, l := tlvs[0], Read16(tlvs[1..3]);
      if |tlvs| < 3 + l { return Err(TruncatedTlv); }
      if t == TLV_TYPE {
        if value.Some? { return Err(DuplicateSignature); }
        value := Some(tlvs[3..3 + l]);
      }
      tlvs := tlvs[3 + l..];
    }
    r := Ok(value);
  }

  method GoVerify(hmac: Hmac, key: Bytes, header: Bytes, nanos: int, replayed: Nonce -> bool)
      returns (r: Result<Verdict, Error>)
    ensures r == Verified(hmac, key, header, Go(nanos), replayed)
  {
    if |header| < 16 || header[..12] != SIGNATURE { return Err(NotProxyHeader); }
    var verCmd, fam, body := header[12], header[13], header[16..];
    if Read16(header[14..16]) != |body| { return Err(LengthMismatch); }
    var addrLen := 0;
    if verCmd == CMD_LOCAL {
    } else if verCmd == CMD_PROXY && fam == FAM_TCP4 {
      addrLen := 12;
    } else if verCmd == CMD_PROXY && fam == FAM_TCP6 {
      addrLen := 36;
    } else {
      return Err(Unsupported);
    }
    if |body| < addrLen { return Err(ShortAddress); }
    var addr, tlvs := body[..addrLen], body[addrLen..];
    assert Opened(header) == OpenedBody(verCmd, fam, addr, tlvs);
    var found := GoScan(tlvs);
    if found.Err? { return Err(found.error); }
    if found.value.None? || |found.value.value| != VALUE_LEN || found.value.value[0] != VERSION {
      return Err(MissingSignature);
    }
    var value := found.value.value;
    var ts, nonce, got := Read64(value[1..9]), value[9..21], value[21..];
    r := GoJudge(hmac, key, Signed(verCmd, fam, addr, ts, nonce, got), nanos, replayed);
  }

  /** Verify, once the header is taken apart. */
  method GoJudge(hmac: Hmac, key: Bytes, s: Signed, nanos: int, replayed: Nonce -> bool)
      returns (r: Result<Verdict, Error>)
    requires AddrLen(s.verCmd, s.fam) == Some(|s.addr|)
    ensures r == Judged(hmac, key, s, Go(nanos), replayed)
  {
    var m := GoMac(hmac, key, s.verCmd, s.fam, s.addr, s.ts, s.nonce);
    if s.mac != m { return Err(BadSignature); }
    var d := nanos - SecondsOf(s.ts) * NANOS;
    if d > MAX_SKEW * NANOS || d < -MAX_SKEW * NANOS { return Err(SkewedTimestamp); }
    if replayed(s.nonce) { return Err(ReplayedNonce); }
    if s.verCmd == CMD_LOCAL { return Ok(Local); }
    r := Ok(Addresses(Go(nanos), s.fam, s.addr));
  }

  // ------------------------------------------------------------ GuardCodec.java

  /** java.nio.ByteBuffer, filled from the front. */
  class ByteBuffer {
    const data: array<Byte>
    var position: nat

    ghost predicate Valid()
      reads this
    {
      position <= data.Length
    }

    ghost function Written(): Bytes
      reads this, data
      requires Valid()
    {
      data[..position]
    }

    constructor Allocate(n: nat)
      ensures Valid() && fresh(data) && data.Length == n && Written() == []
    {
      data := new Byte[n](_ => 0);
      position := 0;
    }

    method Put(s: Bytes)
      requires Valid() && position + |s| <= data.Length
      modifies this`position, data
      ensures Valid() && position == old(position) + |s| && Written() == old(Written()) + s
    {
      for k := 0 to |s|
        invariant position == old(position)
        invariant data[..position] == old(data[..position]) && data[position..position + k] == s[..k]
      {
        data[position + k] := s[k];
      }
      position := position + |s|;
    }
  }

  method JavaBlockOf(src: TcpAddr, dst: TcpAddr) returns (fam: Byte, addr: Bytes)
    ensures (fam, addr) == JavaBlock(src, dst)
  {
    var b: ByteBuffer, s: Bytes, d: Bytes;
    if src.ip.V4? && dst.ip.V4? {
      fam, s, d := FAM_TCP4, src.ip.b4, dst.ip.b4;
      b := new ByteBuffer.Allocate(12);
    } else {
      fam, s, d := FAM_TCP6, To16(src.ip), To16(dst.ip);
      b := new ByteBuffer.Allocate(36);
    }
    b.Put(s);
    b.Put(d);
    b.Put(U16(src.port));
    b.Put(U16(dst.port));
    addr := b.data[..];
    assert addr == b.Written();
    InBlock(s, d, U16(src.port), U16(dst.port));
  }

  lemma InBlock(s: Bytes, d: Bytes, p: Bytes, q: Bytes)
    ensures [] + s + d + p + q == s + d + (p + q)
  {
  }

  method JavaBuild(hmac: Hmac, key: Bytes, verCmd: Byte, fam: Byte, addr: Bytes, ts: Seconds, nonce: Nonce)
      returns (out: Bytes)
    ensures out == SignedHeader(hmac, key, verCmd, fam, addr, StampOf(ts), nonce)
  {
    var stamp := StampOf(ts);
    var b := new ByteBuffer.Allocate(16 + |addr| + 3 + VALUE_LEN);
    b.Put(SIGNATURE);
    b.Put([verCmd, fam]);
    b.Put(U16(|addr| + 3 + VALUE_LEN));
    b.Put(addr);
    JavaPutTlv(b, hmac, key, verCmd, fam, addr, stamp, nonce);
    out := b.data[..];
    assert out == b.Written();
    InWire(verCmd, fam, addr, Tlv(TLV_TYPE, SignedValue(hmac, key, verCmd, fam, addr, stamp, nonce)));
  }

  lemma InWire(verCmd: Byte, fam: Byte, addr: Bytes, tlvs: Bytes)
    ensures [] + SIGNATURE + [verCmd, fam] + U16(|addr| + |tlvs|) + addr + tlvs == Wire(verCmd, fam, addr, tlvs)
  {
  }

  method JavaPutTlv(b: ByteBuffer, hmac: Hmac, key: Bytes, verCmd: Byte, fam: Byte, addr: Bytes, stamp: Stamp,
                    nonce: Nonce)
    requires b.Valid() && b.position + 3 + VALUE_LEN <= b.data.Length
    modifies b`position, b.data
    ensures b.Valid() && b.position == old(b.position) + 3 + VALUE_LEN
    ensures b.Written() == old(b.Written()) + Tlv(TLV_TYPE, SignedValue(hmac, key, verCmd, fam, addr, stamp, nonce))
  {
    var m := GoMac(hmac, key, verCmd, fam, addr, stamp, nonce);
    ghost var before := b.Written();
    b.Put([TLV_TYPE]);
    b.Put(U16(VALUE_LEN));
    JavaPutValue(b, stamp, nonce, m);
    InTlv(before, [VERSION] + U64(stamp) + nonce + m);
  }

  lemma InTlv(before: Bytes, v: Bytes)
    requires |v| == VALUE_LEN
    ensures before + [TLV_TYPE] + U16(VALUE_LEN) + v == before + Tlv(TLV_TYPE, v)
  {
  }

  method JavaPutValue(b: ByteBuffer, stamp: Stamp, nonce: Nonce, m: Mac)
    requires b.Valid() && b.position + VALUE_LEN <= b.data.Length
    modifies b`position, b.data
    ensures b.Valid() && b.position == old(b.position) + VALUE_LEN
    ensures b.Written() == old(b.Written()) + ([VERSION] + U64(stamp) + nonce + m)
  {
    ghost var before := b.Written();
    b.Put([VERSION]);
    b.Put(U64(stamp));
    b.Put(nonce);
    b.Put(m);
    assert b.Written() == before + ([VERSION] + U64(stamp) + nonce + m);
  }

  method JavaHeaderOf(hmac: Hmac, key: Bytes, src: TcpAddr, dst: TcpAddr, unixSeconds: Seconds, nonce: Nonce)
      returns (out: Bytes)
    ensures out == JavaHeader(hmac, key, src, dst, unixSeconds, nonce)
  {
    var fam, addr := JavaBlockOf(src, dst);
    out := JavaBuild(hmac, key, CMD_PROXY, fam, addr, unixSeconds, nonce);
  }

  method JavaLocalHeaderOf(hmac: Hmac, key: Bytes, unixSeconds: Seconds, nonce: Nonce) returns (out: Bytes)
    ensures out == LocalHeader(hmac, key, unixSeconds, nonce)
  {
    out := JavaBuild(hmac, key, CMD_LOCAL, FAM_UNSPEC, [], unixSeconds, nonce);
  }

  /** plainHeader; OtherAddr is null. */
  method JavaPlainHeaderOf(src: Addr, dst: Addr) returns (out: Bytes)
    ensures out == JavaPlain(src, dst)
  {
    if !src.Tcp? || !dst.Tcp? {
      out := SIGNATURE + [0, 0, 0, 0]; // Arrays.copyOf
      out := out[12 := CMD_LOCAL];
      assert out == SIGNATURE + [CMD_LOCAL, 0, 0, 0];
      return;
    }
    var fam, addr := JavaBlockOf(src.addr, dst.addr);
    var b := new ByteBuffer.Allocate(16 + |addr|);
    b.Put(SIGNATURE);
    b.Put([CMD_PROXY]);
    b.Put([fam]);
    b.Put(U16(|addr|));
    b.Put(addr);
    out := b.data[..];
    assert out == b.Written();
    InPlain(fam, addr);
  }

  lemma InPlain(fam: Byte, addr: Bytes)
    ensures [] + SIGNATURE + [CMD_PROXY] + [fam] + U16(|addr|) + addr == Wire(CMD_PROXY, fam, addr, [])
  {
    assert addr + [] == addr;
  }

  /** The loop over the TLVs, by an index into the header. */
  method JavaScan(h: Bytes, start: nat) returns (r: Result<Option<Bytes>, Error>)
    requires start <= |h|
    ensures r == Scan(h[start..], None)
  {
    var p, value: Option<Bytes> := start, None;
    while p < |h|
      invariant start <= p <= |h| && Scan(h[p..], value) == Scan(h[start..], None)
    {
      ghost var s := h[p..];
      if |h| - p < 3 { return Err(TruncatedTlv); }
      assert h[p + 1..p + 3] == s[1..3];
      var t, l := h[p], Read16(h[p + 1..p + 3]);
      if |h| - p - 3 < l { return Err(TruncatedTlv); }
      if t == TLV_TYPE {
        if value.Some? { return Err(DuplicateSignature); }
        value := Some(h[p + 3..p + 3 + l]);
        assert value.value == s[3..3 + l];
      }
      assert h[p + 3 + l..] == s[3 + l..];
      p := p + 3 + l;
    }
    r := Ok(value);
  }

  method JavaVerify(hmac: Hmac, key: Bytes, h: Bytes, now: Seconds, replayed: Nonce -> bool)
      returns (r: Result<Verdict, Error>)
    ensures r == Verified(hmac, key, h, Java(now), replayed)
  {
    if |h| < 16 || h[..12] != SIGNATURE { return Err(NotProxyHeader); }
    var verCmd, fam, len := h[12], h[13], Read16(h[14..16]);
    if len != |h| - 16 { return Err(LengthMismatch); }
    var addrLen := 0;
    if verCmd == CMD_LOCAL {
    } else if verCmd == CMD_PROXY && fam == FAM_TCP4 {
      addrLen := 12;
    } else if verCmd == CMD_PROXY && fam == FAM_TCP6 {
      addrLen := 36;
    } else {
      return Err(Unsupported);
    }
    if len < addrLen { return Err(ShortAddress); }
    var addr := h[16..16 + addrLen];
    assert addr == h[16..][..addrLen] && h[16 + addrLen..] == h[16..][addrLen..];
    assert Opened(h) == OpenedBody(verCmd, fam, addr, h[16 + addrLen..]);
    var found := JavaScan(h, 16 + addrLen);
    if found.Err? { return Err(found.error); }
    if found.value.None? || |found.value.value| != VALUE_LEN || found.value.value[0] != VERSION {
      return Err(MissingSignature);
    }
    var value := found.value.value;
    var s := Signed(verCmd, fam, addr, Read64(value[1..9]), value[9..21], value[21..]);
    r := JavaJudge(hmac, key, s, now, replayed);
  }

  method JavaJudge(hmac: Hmac, key: Bytes, s: Signed, now: Seconds, replayed: Nonce -> bool)
      returns (r: Result<Verdict, Error>)
    requires AddrLen(s.verCmd, s.fam) == Some(|s.addr|)
    ensures r == Judged(hmac, key, s, Java(now), replayed)
  {
    var m := GoMac(hmac, key, s.verCmd, s.fam, s.addr, s.ts, s.nonce);
    if s.mac != m { return Err(BadSignature); }
    // the subtraction and Math.abs of longs
    var d: int := Wrap(now - SecondsOf(s.ts));
    var abs: int := if d >= 0 then d else Wrap(-d);
    WrapOf(-d);
    if abs > MAX_SKEW { return Err(SkewedTimestamp); }
    if replayed(s.nonce) { return Err(ReplayedNonce); }
    if s.verCmd == CMD_LOCAL { return Ok(Local); }
    r := Ok(Addresses(Java(now), s.fam, s.addr));
  }
}
