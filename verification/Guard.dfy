/** The signed PROXY v2 header: its format, and what building, reading and
    verifying it mean (internal/guard/guard.go, GuardCodec.java). HMAC-SHA256 is a
    parameter. */
module Guard {
  import opened Prelude
  import opened Bits

  type Bytes = seq<Byte>
  type Mac = m: Bytes | |m| == 32 witness seq(32, _ => 0)
  type Nonce = n: Bytes | |n| == 12 witness seq(12, _ => 0)

  /** HMAC-SHA256 of a key and a message. */
  type Hmac = (Bytes, Bytes) -> Mac

  /** The 64 bits of a timestamp, and Unix seconds. */
  type Stamp = x: int | 0 <= x < 0x1_0000_0000_0000_0000
  type Seconds = x: int | -0x8000_0000_0000_0000 <= x < 0x8000_0000_0000_0000

  type Port = x: int | 0 <= x < 0x1_0000

  datatype Error =
    | UnexpectedEnd | NotProxyHeader | HeaderTooLong | LengthMismatch | Unsupported
    | ShortAddress | TruncatedTlv | DuplicateSignature | MissingSignature
    | BadSignature | SkewedTimestamp | ReplayedNonce | BadVersion

  const SIGNATURE: Bytes := [0x0D, 0x0A, 0x0D, 0x0A, 0x00, 0x0D, 0x0A, 0x51, 0x55, 0x49, 0x54, 0x0A]
  const TLV_TYPE: Byte := 0xE0
  const VERSION: Byte := 1
  const VALUE_LEN := 53
  const MAX_HEADER := 1040
  const MAX_SKEW := 120
  const CMD_LOCAL: Byte := 0x20
  const CMD_PROXY: Byte := 0x21
  const FAM_UNSPEC: Byte := 0x00
  const FAM_TCP4: Byte := 0x11
  const FAM_TCP6: Byte := 0x21

  /** "vecta-guard-v1" */
  const CONTEXT: Bytes := [0x76, 0x65, 0x63, 0x74, 0x61, 0x2D, 0x67, 0x75, 0x61, 0x72, 0x64, 0x2D, 0x76, 0x31]

  // ---------------------------------------------------------------- addresses

  type Ip4 = b: Bytes | |b| == 4 witness [0, 0, 0, 0]
  type Ip16 = b: Bytes | |b| == 16 witness seq(16, _ => 0)

  datatype Ip = V4(b4: Ip4) | V6(b16: Ip16)

  datatype TcpAddr = TcpAddr(ip: Ip, port: Port)

  /** A net.Addr of the gateway. */
  datatype Addr = Tcp(addr: TcpAddr) | OtherAddr

  const MAPPED: Bytes := [0, 0, 0, 0, 0, 0, 0, 0, 0, 0, 0xFF, 0xFF]

  /** net.IP.To4: also of an IPv4-mapped address. */
  function To4(ip: Ip): Option<Ip4> {
    match ip
    case V4(b) => Some(b)
    case V6(b) => if b[..12] == MAPPED then Some(b[12..]) else None
  }

  function To16(ip: Ip): Ip16 {
    match ip
    case V4(b) => MAPPED + b
    case V6(b) => b
  }

  /** The same address, up to IPv4-mapping. */
  predicate SameIp(a: Ip, b: Ip) {
    To16(a) == To16(b)
  }

  predicate SameAddr(a: TcpAddr, b: TcpAddr) {
    SameIp(a.ip, b.ip) && a.port == b.port
  }

  /** The form without mapping. */
  function Canonical(ip: Ip): Ip {
    if To4(ip).Some? then V4(To4(ip).value) else ip
  }

  function CanonicalAddr(a: TcpAddr): TcpAddr {
    a.(ip := Canonical(a.ip))
  }

  lemma CanonicalBytes(a: Ip)
    ensures To16(Canonical(a)) == To16(a)
    ensures To4(Canonical(a)) == To4(a)
    ensures To4(a).Some? <==> To16(a)[..12] == MAPPED
    ensures To4(a).Some? ==> To16(a)[12..] == To4(a).value
  {
    match a
    case V4(b) => assert (MAPPED + b)[..12] == MAPPED && (MAPPED + b)[12..] == b;
    case V6(b) => if b[..12] == MAPPED { assert MAPPED + b[12..] == b; }
  }

  // --------------------------------------------------------- what is on the wire

  function Ports(src: Port, dst: Port): Bytes {
    U16(src) + U16(dst)
  }

  /** The address block and its family: IPv4 when both ends are. */
  function Block(src: TcpAddr, dst: TcpAddr): (r: (Byte, Bytes)) {
    if To4(src.ip).Some? && To4(dst.ip).Some? then
      (FAM_TCP4, To4(src.ip).value + To4(dst.ip).value + Ports(src.port, dst.port))
    else (FAM_TCP6, To16(src.ip) + To16(dst.ip) + Ports(src.port, dst.port))
  }

  function Tlv(t: Byte, value: Bytes): Bytes {
    [t] + U16(|value|) + value
  }

  /** A header around an address block and TLVs. */
  function Wire(verCmd: Byte, fam: Byte, addr: Bytes, tlvs: Bytes): Bytes {
    SIGNATURE + [verCmd, fam] + U16(|addr| + |tlvs|) + (addr + tlvs)
  }

  function MacInput(verCmd: Byte, fam: Byte, addr: Bytes, ts: Stamp, nonce: Nonce): Bytes {
    CONTEXT + [verCmd, fam] + addr + [VERSION] + U64(ts) + nonce
  }

  function SignedValue(hmac: Hmac, key: Bytes, verCmd: Byte, fam: Byte, addr: Bytes, ts: Stamp,
                       nonce: Nonce): (v: Bytes)
    ensures |v| == VALUE_LEN
  {
    [VERSION] + U64(ts) + nonce + hmac(key, MacInput(verCmd, fam, addr, ts, nonce))
  }

  function SignedHeader(hmac: Hmac, key: Bytes, verCmd: Byte, fam: Byte, addr: Bytes, ts: Stamp, nonce: Nonce): Bytes {
    Wire(verCmd, fam, addr, Tlv(TLV_TYPE, SignedValue(hmac, key, verCmd, fam, addr, ts, nonce)))
  }

  /** The two's complement of Unix seconds. */
  function StampOf(seconds: Seconds): Stamp {
    var s: int := seconds;
    if s < 0 then s + 0x1_0000_0000_0000_0000 else s
  }

  function SecondsOf(ts: Stamp): Seconds {
    var t: int := ts;
    if t < 0x8000_0000_0000_0000 then t else t - 0x1_0000_0000_0000_0000
  }

  /** The header without addresses. */
  function LocalHeader(hmac: Hmac, key: Bytes, now: Seconds, nonce: Nonce): Bytes {
    SignedHeader(hmac, key, CMD_LOCAL, FAM_UNSPEC, [], StampOf(now), nonce)
  }

  /** The header the gateway sends. */
  function Header(hmac: Hmac, key: Bytes, src: Addr, dst: Addr, now: Seconds, nonce: Nonce): Bytes {
    if src.Tcp? && dst.Tcp? then
      var (fam, addr) := Block(src.addr, dst.addr);
      SignedHeader(hmac, key, CMD_PROXY, fam, addr, StampOf(now), nonce)
    else LocalHeader(hmac, key, now, nonce)
  }

  /** The unsigned header of the gateway. */
  function PlainHeader(src: Addr, dst: Addr): Bytes {
    if src.Tcp? && dst.Tcp? then
      var (fam, addr) := Block(src.addr, dst.addr);
      Wire(CMD_PROXY, fam, addr, [])
    else Wire(CMD_LOCAL, FAM_UNSPEC, [], [])
  }

  // ------------------------------------------------------------------ reading

  /** The first 16 bytes announce the length of the others. */
  function BodyLen(s: Bytes): (n: nat)
    requires |s| >= 16
    ensures n < 0x1_0000
  {
    Read16(s[14..16])
  }

  predicate HasSignature(s: Bytes) {
    |s| >= 12 && s[..12] == SIGNATURE
  }

  /** The header at the head of a stream, and what is left of the stream. */
  function HeaderOf(s: Bytes): Result<(Bytes, Bytes), Error> {
    if |s| < 16 then Err(UnexpectedEnd)
    else if !HasSignature(s) then Err(NotProxyHeader)
    else if 16 + BodyLen(s) > MAX_HEADER then Err(HeaderTooLong)
    else if |s| < 16 + BodyLen(s) then Err(UnexpectedEnd)
    else Ok((s[..16 + BodyLen(s)], s[16 + BodyLen(s)..]))
  }

  /** The source that the gateway's reader of plain PROXY v2 headers takes from a
      stream that starts with the signature; None when the header carries no address. */
  function PlainSource(s: Bytes): Result<(Option<TcpAddr>, Bytes), Error> {
    if |s| < 16 || |s| < 16 + BodyLen(s) then Err(UnexpectedEnd)
    else
      var body, rest := s[16..16 + BodyLen(s)], s[16 + BodyLen(s)..];
      var verCmd: int, fam: int := s[12], s[13];
      if verCmd / 16 != 2 then Err(BadVersion)
      else if verCmd % 16 == 0 then Ok((None, rest))
      else if fam / 16 == 1 then
        if |body| < 12 then Err(ShortAddress) else Ok((Some(TcpAddr(V4(body[..4]), Read16(body[8..10]))), rest))
      else if fam / 16 == 2 then
        if |body| < 36 then Err(ShortAddress) else Ok((Some(TcpAddr(V6(body[..16]), Read16(body[32..34]))), rest))
      else Ok((None, rest))
  }

  // ---------------------------------------------------------------- verifying

  /** The length of the address block, for the commands and families there are. */
  function AddrLen(verCmd: Byte, fam: Byte): Option<nat> {
    if verCmd == CMD_LOCAL then Some(0)
    else if verCmd == CMD_PROXY && fam == FAM_TCP4 then Some(12)
    else if verCmd == CMD_PROXY && fam == FAM_TCP6 then Some(36)
    else None
  }

  /** The value of the one TLV of the signature type, `value` being what was found
      before. */
  function Scan(tlvs: Bytes, value: Option<Bytes>): Result<Option<Bytes>, Error>
    decreases |tlvs|
  {
    if tlvs == [] then Ok(value)
    else if |tlvs| < 3 || |tlvs| < 3 + Read16(tlvs[1..3]) then Err(TruncatedTlv)
    else
      var l := Read16(tlvs[1..3]);
      if tlvs[0] != TLV_TYPE then Scan(tlvs[3 + l..], value)
      else if value.Some? then Err(DuplicateSignature)
      else Scan(tlvs[3 + l..], Some(tlvs[3..3 + l]))
  }

  /** What a well-formed header says. */
  datatype Signed = Signed(verCmd: Byte, fam: Byte, addr: Bytes, ts: Stamp, nonce: Nonce, mac: Mac)

  function Opened(header: Bytes): Result<Signed, Error> {
    if |header| < 16 || !HasSignature(header) then Err(NotProxyHeader)
    else if BodyLen(header) != |header| - 16 then Err(LengthMismatch)
    else
      var verCmd, fam, body := header[12], header[13], header[16..];
      var n := AddrLen(verCmd, fam);
      if n.None? then Err(Unsupported)
      else if |body| < n.value then Err(ShortAddress)
      else OpenedBody(verCmd, fam, body[..n.value], body[n.value..])
  }

  function OpenedBody(verCmd: Byte, fam: Byte, addr: Bytes, tlvs: Bytes): Result<Signed, Error> {
    var value := Scan(tlvs, None);
    if value.Err? then Err(value.error)
    else if value.value.None? || |value.value.value| != VALUE_LEN || value.value.value[0] != VERSION then
      Err(MissingSignature)
    else
      var v := value.value.value;
      Ok(Signed(verCmd, fam, addr, Read64(v[1..9]), v[9..21], v[21..]))
  }

  /** Which implementation looks at the clock, and what it reads: the gateway's
      has nanoseconds, the jar's whole seconds. */
  datatype Clock = Go(nanos: int) | Java(now: Seconds)

  const NANOS := 1_000_000_000

  /** Wrap-around of a Java long. */
  function Wrap(x: int): Seconds {
    SecondsOf(x % 0x1_0000_0000_0000_0000)
  }

  /** The check of the clock skew. Math.abs leaves the smallest long negative. */
  predicate InTime(clock: Clock, ts: Stamp) {
    match clock
    case Go(nanos) =>
      var d := nanos - SecondsOf(ts) * NANOS;
      !(d > MAX_SKEW * NANOS || d < -MAX_SKEW * NANOS)
    case Java(now) =>
      var d: int := Wrap(now - SecondsOf(ts));
      !((if d < 0 && d != -0x8000_0000_0000_0000 then -d else d) > MAX_SKEW)
  }

  datatype Verdict = Local | Proxied(src: TcpAddr, dst: TcpAddr)

  /** The addresses of a block; Java's InetAddress has no mapped form. */
  function Addresses(clock: Clock, fam: Byte, addr: Bytes): Verdict
    requires |addr| == if fam == FAM_TCP4 then 12 else 36
  {
    var n := if fam == FAM_TCP4 then 4 else 16;
    var src := if n == 4 then V4(addr[..4]) else V6(addr[..16]);
    var dst := if n == 4 then V4(addr[4..8]) else V6(addr[16..32]);
    var verdict := Proxied(TcpAddr(src, Read16(addr[2 * n..2 * n + 2])),
                           TcpAddr(dst, Read16(addr[2 * n + 2..2 * n + 4])));
    if clock.Go? then verdict else Unmapped(verdict)
  }

  /** A verdict with its addresses in the form without mapping. */
  function Unmapped(v: Verdict): Verdict {
    if v.Local? then v else Proxied(CanonicalAddr(v.src), CanonicalAddr(v.dst))
  }

  predicate Authentic(hmac: Hmac, key: Bytes, s: Signed) {
    s.mac == hmac(key, MacInput(s.verCmd, s.fam, s.addr, s.ts, s.nonce))
  }

  /** `replayed` is what the nonce check answers. */
  function Judged(hmac: Hmac, key: Bytes, s: Signed, clock: Clock, replayed: Nonce -> bool): Result<Verdict, Error>
    requires AddrLen(s.verCmd, s.fam) == Some(|s.addr|)
  {
    if !Authentic(hmac, key, s) then Err(BadSignature)
    else if !InTime(clock, s.ts) then Err(SkewedTimestamp)
    else if replayed(s.nonce) then Err(ReplayedNonce)
    else if s.verCmd == CMD_LOCAL then Ok(Local)
    else Ok(Addresses(clock, s.fam, s.addr))
  }

  function Verified(hmac: Hmac, key: Bytes, header: Bytes, clock: Clock,
                    replayed: Nonce -> bool): Result<Verdict, Error> {
    var s := Opened(header);
    if s.Err? then Err(s.error) else Judged(hmac, key, s.value, clock, replayed)
  }
}
