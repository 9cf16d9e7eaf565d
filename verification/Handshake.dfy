/** The handshake of internal/proto/packets.go and what internal/router/router.go
    sends to a backend in its place. */
module Handshake {
  import opened Prelude
  import opened Bits
  import opened Codec

  type Port = x: int | 0 <= x < 0x1_0000

  datatype Packet = Packet(protocol: Int32, address: seq<Byte>, port: Port, intent: Int32)

  const INTENT_LOGIN: Int32 := 2
  const INTENT_TRANSFER: Int32 := 3
  const MAX_ADDRESS := 1024

  /** What the builder puts into the frame. */
  function Encoded(h: Packet): seq<Byte> {
    VarIntBytes(0)
      + (VarIntBytes(h.protocol) + (AddressBytes(h.address) + ([h.port / 256, h.port % 256] + VarIntBytes(h.intent))))
  }

  function AddressBytes(address: seq<Byte>): seq<Byte> {
    VarIntBytes(Truncate32(|address|)) + address
  }

  function Encode(h: Packet): seq<Byte> { FrameBytes(Encoded(h)) }

  /** The handshake at the head of a payload; bytes after it are ignored. */
  function Decoded(payload: seq<Byte>): Result<Packet, Error> {
    var id := VarIntOf(payload);
    if id.Err? then Err(id.error)
    else if id.value != 0 then Err(NotAHandshake)
    else
      var s := payload[Span(payload, 5)..];
      var protocol := VarIntOf(s);
      if protocol.Err? then Err(protocol.error) else DecodedAddress(protocol.value, s[Span(s, 5)..])
  }

  function DecodedAddress(protocol: Int32, s: seq<Byte>): Result<Packet, Error> {
    var address := StringOf(s, MAX_ADDRESS);
    if address.Err? then Err(address.error)
    else DecodedEnd(protocol, address.value.0, s[address.value.1..])
  }

  function DecodedEnd(protocol: Int32, address: seq<Byte>, s: seq<Byte>): Result<Packet, Error> {
    var port := Uint16Of(s);
    if port.Err? then Err(port.error)
    else
      var intent := VarIntOf(s[2..]);
      if intent.Err? then Err(intent.error) else Ok(Packet(protocol, address, port.value, intent.value))
  }

  method ParseHandshake(payload: seq<Byte>) returns (r: Result<Packet, Error>)
    ensures r == Decoded(payload)
  {
    var b := new Buffer(payload);
    assert b.Rest() == payload;
    var id := b.ReadVarInt();
    if id.Err? { return Err(id.error); }
    if id.value != 0 { return Err(NotAHandshake); }
    ghost var s := b.Rest();
    var protocol := b.ReadVarInt();
    if protocol.Err? { return Err(protocol.error); }
    assert b.Rest() == s[Span(s, 5)..];
    r := ParseAddress(b, protocol.value);
  }

  /** The rest of ParseHandshake, from the address on. */
  method ParseAddress(b: Buffer, protocol: Int32) returns (r: Result<Packet, Error>)
    requires b.Valid()
    modifies b
    ensures r == DecodedAddress(protocol, old(b.Rest()))
  {
    ghost var s := b.Rest();
    var address := b.ReadString(MAX_ADDRESS);
    if address.Err? { return Err(address.error); }
    ghost var t := s[StringOf(s, MAX_ADDRESS).value.1..];
    assert b.Rest() == t;
    var port := b.Uint16();
    if port.Err? { return Err(port.error); }
    assert b.Rest() == t[2..];
    var intent := b.ReadVarInt();
    if intent.Err? { return Err(intent.error); }
    r := Ok(Packet(protocol, address.value, port.value, intent.value));
  }

  /** The fields in the order in which the builder appends them. */
  lemma EncodedInOrder(h: Packet)
    ensures
      VarIntBytes(0) + VarIntBytes(h.protocol) + VarIntBytes(Truncate32(|h.address|)) + h.address
        + [h.port / 256, h.port % 256] + VarIntBytes(h.intent) == Encoded(h)
  {
    var p, a, w, i :=
      VarIntBytes(h.protocol), AddressBytes(h.address), [h.port / 256, h.port % 256], VarIntBytes(h.intent);
    assert VarIntBytes(0) + (p + (a + (w + i))) == VarIntBytes(0) + p + a + w + i;
  }

  method BuildFrame(h: Packet) returns (out: seq<Byte>)
    ensures out == Encode(h)
  {
    var p := new Builder(0);
    p.VarInt(h.protocol);
    p.ByteArray(h.address);
    p.Uint16(h.port);
    p.VarInt(h.intent);
    EncodedInOrder(h);
    out := p.Frame();
  }

  /** What the backend is sent: the client's own bytes, but a transfer is turned
      into a login. */
  function Forwarded(h: Packet, raw: seq<Byte>): seq<Byte> {
    if h.intent == INTENT_TRANSFER then Encode(h.(intent := INTENT_LOGIN)) else raw
  }

  function ForwardedIntent(intent: Int32): Int32 {
    if intent == INTENT_TRANSFER then INTENT_LOGIN else intent
  }

  // ----------------------------------------------------------------- theorems

  lemma DecodedIsValid(payload: seq<Byte>)
    ensures Decoded(payload).Ok? ==> ValidString(Decoded(payload).value.address, MAX_ADDRESS)
  {
  }

  lemma EndRoundTrip(h: Packet, trail: seq<Byte>)
    ensures
      DecodedEnd(h.protocol, h.address, [h.port / 256, h.port % 256] + VarIntBytes(h.intent) + trail) == Ok(h)
  {
    var s := [h.port / 256, h.port % 256] + VarIntBytes(h.intent) + trail;
    assert s[2..] == VarIntBytes(h.intent) + trail;
    VarIntRoundTrip(h.intent, trail);
    assert Word(s[0], s[1]) == h.port;
  }

  lemma AddressRoundTrip(h: Packet, trail: seq<Byte>)
    requires ValidString(h.address, MAX_ADDRESS)
    ensures
      DecodedAddress(h.protocol,
                     AddressBytes(h.address) + ([h.port / 256, h.port % 256] + VarIntBytes(h.intent) + trail))
      == Ok(h)
  {
    var rest := [h.port / 256, h.port % 256] + VarIntBytes(h.intent) + trail;
    ArrayRoundTrip(h.address, rest, 3 * MAX_ADDRESS);
    assert (AddressBytes(h.address) + rest)[|AddressBytes(h.address)|..] == rest;
    EndRoundTrip(h, trail);
  }

  lemma HeadRoundTrip(protocol: Int32, s: seq<Byte>)
    ensures Decoded(VarIntBytes(0) + (VarIntBytes(protocol) + s)) == DecodedAddress(protocol, s)
  {
    var t := VarIntBytes(protocol) + s;
    VarIntRoundTrip(0, t);
    assert (VarIntBytes(0) + t)[|VarIntBytes(0)|..] == t;
    VarIntRoundTrip(protocol, s);
    assert t[|VarIntBytes(protocol)|..] == s;
  }

  lemma EncodedParts(h: Packet, trail: seq<Byte>)
    ensures
      Encoded(h) + trail == VarIntBytes(0) + (VarIntBytes(h.protocol)
        + (AddressBytes(h.address) + ([h.port / 256, h.port % 256] + VarIntBytes(h.intent) + trail)))
  {
    var end := [h.port / 256, h.port % 256] + VarIntBytes(h.intent);
    var tail := AddressBytes(h.address) + end;
    assert tail + trail == AddressBytes(h.address) + (end + trail);
    assert VarIntBytes(h.protocol) + tail + trail == VarIntBytes(h.protocol) + (tail + trail);
    assert VarIntBytes(0) + (VarIntBytes(h.protocol) + tail) + trail
      == VarIntBytes(0) + (VarIntBytes(h.protocol) + tail + trail);
  }

  /** A built handshake parses to the same handshake, whatever follows it, exactly
      when its address is one that a client could have sent. */
  lemma HandshakeRoundTrip(h: Packet, trail: seq<Byte>)
    ensures Decoded(Encoded(h) + trail) == Ok(h) <==> ValidString(h.address, MAX_ADDRESS)
  {
    DecodedIsValid(Encoded(h) + trail);
    if ValidString(h.address, MAX_ADDRESS) {
      EncodedParts(h, trail);
      HeadRoundTrip(h.protocol,
                    AddressBytes(h.address) + ([h.port / 256, h.port % 256] + VarIntBytes(h.intent) + trail));
      AddressRoundTrip(h, trail);
    }
  }

  lemma EncodedFits(h: Packet)
    requires ValidString(h.address, MAX_ADDRESS)
    ensures 1 <= |Encoded(h)| <= MAX_FRAME_LEN
  {
    VarIntRoundTrip(0, []);
    VarIntRoundTrip(h.protocol, []);
    VarIntRoundTrip(h.intent, []);
    VarIntRoundTrip(Truncate32(|h.address|), []);
  }

  lemma FrameParts(s: seq<Byte>)
    requires FrameOf(s).Ok?
    ensures
      var f, k := FrameOf(s).value, Span(s, 3);
      && f.raw == s[..k] + f.payload && 0 < k <= 3 && s[k - 1] < 128
      && 1 <= |f.payload| <= MAX_FRAME_LEN && Base128(s[..k]) == |f.payload|
  {
    Slices(s, Span(s, 3), Base128(s[..Span(s, 3)]));
  }

  /** The raw bytes of a frame that was read can be replayed: whatever follows
      them, they are read as the same frame. */
  lemma RawReplays(s: seq<Byte>, rest: seq<Byte>)
    requires FrameOf(s).Ok?
    ensures FrameOf(FrameOf(s).value.raw + rest) == FrameOf(s)
  {
    FrameParts(s);
    PrefixedIsFrame(s[..Span(s, 3)], FrameOf(s).value.payload, rest);
  }

  /** Whatever handshake the gateway accepts (overlong VarInts and trailing bytes
      included), the backend reads exactly one frame, which parses to the same
      protocol, address and port, and to intent login in place of transfer. */
  lemma BackendSeesTheHandshake(s: seq<Byte>, rest: seq<Byte>)
    ensures
      FrameOf(s).Ok? && Decoded(FrameOf(s).value.payload).Ok?
      ==> var f := FrameOf(s).value;
          var h := Decoded(f.payload).value;
          var seen := FrameOf(Forwarded(h, f.raw) + rest);
          && seen.Ok? && seen.value.raw == Forwarded(h, f.raw)
          && Decoded(seen.value.payload) == Ok(h.(intent := ForwardedIntent(h.intent)))
  {
    if FrameOf(s).Ok? && Decoded(FrameOf(s).value.payload).Ok? {
      var f := FrameOf(s).value;
      var h := Decoded(f.payload).value;
      if h.intent == INTENT_TRANSFER {
        var h' := h.(intent := INTENT_LOGIN);
        DecodedIsValid(f.payload);
        EncodedFits(h');
        FrameRoundTrip(Encoded(h'), rest);
        HandshakeRoundTrip(h', []);
        assert Encoded(h') + [] == Encoded(h');
      } else {
        RawReplays(s, rest);
      }
    }
  }
}
