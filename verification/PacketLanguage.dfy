/** What the packet readers accept, exactly, with every limit as a number: VarInts,
    frames, strings and the handshake (internal/proto/codec.go, packets.go). */
module PacketLanguage {
  import opened Prelude
  import opened Bits
  import opened Codec
  import opened Handshake
  import Mutf8
  import GoStrings

  // ------------------------------------------------------------------ VarInts

  /** Up to `most` bytes of which only the last is below 128. */
  predicate Ended(b: seq<Byte>, most: nat) {
    0 < |b| <= most && b[|b| - 1] < 128 && forall i :: 0 <= i < |b| - 1 ==> b[i] >= 128
  }

  /** The bytes spell an int32, the shortest way or not; bits past 32 are lost. */
  predicate Spells(b: seq<Byte>, v: Int32) {
    Ended(b, 5) && ToUint32(v) == Base128(b) % 0x1_0000_0000
  }

  lemma {:induction false} SpanIs(s: seq<Byte>, n: nat, k: nat)
    requires 0 < k <= n && k <= |s| && s[k - 1] < 128 && forall i :: 0 <= i < k - 1 ==> s[i] >= 128
    ensures Span(s, n) == k && Terminated(s, n)
    decreases k
  {
    if k > 1 { SpanIs(s[1..], n - 1, k - 1); }
  }

  /** A VarInt is read exactly if one of the first five bytes ends it, and is then what
      its bytes spell; else the input has ended or the VarInt is too long. */
  lemma VarIntExactly(s: seq<Byte>)
    ensures
      var k := Span(s, 5);
      match VarIntOf(s)
      case Ok(v) => k <= |s| && Spells(s[..k], v)
      case Err(e) =>
        && (forall i :: 0 <= i < 5 && i < |s| ==> s[i] >= 128)
        && e == if |s| < 5 then UnexpectedEnd else VarIntTooBig
  {
    var k := Span(s, 5);
    if Terminated(s, 5) {
      assert forall i :: 0 <= i < k - 1 ==> s[..k][i] == s[i];
    } else {
      forall i | 0 <= i < 5 && i < |s| ensures s[i] >= 128 {
        assert k == 5 || k == |s|;
        if i == k - 1 { assert s[k - 1] >= 128; }
      }
    }
  }

  lemma VarIntReads(b: seq<Byte>, v: Int32, rest: seq<Byte>)
    requires Spells(b, v)
    ensures VarIntOf(b + rest) == Ok(v) && Span(b + rest, 5) == |b| && (b + rest)[|b|..] == rest
  {
    var s := b + rest;
    assert forall i :: 0 <= i < |b| ==> s[i] == b[i];
    SpanIs(s, 5, |b|);
    assert s[..|b|] == b;
  }

  // ------------------------------------------------------------------- frames

  /** What reading a frame gives, exactly, and that it takes exactly the frame. */
  lemma FrameExactly(s: seq<Byte>)
    ensures
      match FrameOf(s)
      case Ok(f) =>
        exists head, rest ::
          && Ended(head, 3) && Base128(head) == |f.payload| && 1 <= |f.payload| <= 2097151
          && f.raw == head + f.payload && s == f.raw + rest && FrameSpan(s) == |f.raw|
      case Err(e) =>
        if forall i :: 0 <= i < 3 && i < |s| ==> s[i] >= 128 then e == if |s| < 3 then UnexpectedEnd else FrameTooBig
        else
          exists k :: 0 < k <= |s| && Ended(s[..k], 3)
                      && if Base128(s[..k]) == 0 then e == BadFrameLength
                         else e == UnexpectedEnd && |s| < k + Base128(s[..k])
  {
    var k := Span(s, 3);
    if Terminated(s, 3) {
      assert Ended(s[..k], 3);
      if FrameOf(s).Ok? {
        FrameParts(s);
        var f := FrameOf(s).value;
        assert s == f.raw + s[|f.raw|..];
        assert Ended(s[..k], 3) && f.raw == s[..k] + f.payload;
      } else {
        OnlyZeroIsABadLength(s);
        assert !(forall i :: 0 <= i < 3 && i < |s| ==> s[i] >= 128) by { assert s[k - 1] < 128; }
      }
    } else {
      forall i | 0 <= i < 3 && i < |s| ensures s[i] >= 128 {
        if i == k - 1 { assert s[k - 1] >= 128; }
      }
    }
  }

  // ------------------------------------------------------------------ strings

  lemma {:induction false} RunesOfUtf8(r: seq<Mutf8.Rune>)
    requires Mutf8.Scalar(r)
    ensures Runes(GoStrings.Utf8(r)) == Some(|r|)
  {
    if r != [] {
      var s := GoStrings.Utf8(r);
      GoStrings.Utf8Head(r[0], GoStrings.Utf8(r[1..]));
      assert s[|GoStrings.Utf8Of(r[0])|..] == GoStrings.Utf8(r[1..]);
      RunesOfUtf8(r[1..]);
    }
  }

  lemma {:induction false} RunesCount(s: seq<Byte>)
    requires Runes(s).Some?
    ensures |GoStrings.Ranged(s)| == Runes(s).value
  {
    if s != [] { RunesCount(s[GoStrings.Width(s)..]); }
  }

  /** The text of at most `max` code points, none of them a surrogate. */
  ghost predicate Text(s: seq<Byte>, max: nat) {
    exists r :: Mutf8.Scalar(r) && GoStrings.Utf8(r) == s && |r| <= max
  }

  /** What a string may be: the UTF-8 of at most `max` code points, in at most three
      times as many bytes. */
  lemma StringsAreTexts(s: seq<Byte>, max: nat)
    ensures ValidString(s, max) <==> |s| <= 3 * max && Text(s, max)
  {
    if ValidString(s, max) {
      GoStrings.WellFormedIsKept(s);
      GoStrings.RangedIsRepaired(s);
      RunesCount(s);
    }
    if Text(s, max) {
      var r :| Mutf8.Scalar(r) && GoStrings.Utf8(r) == s && |r| <= max;
      RunesOfUtf8(r);
    }
  }

  /** A byte array behind its length, however that is spelled. */
  lemma ArrayExactly(head: seq<Byte>, v: Int32, t: seq<Byte>, max: nat)
    requires Spells(head, v)
    ensures
      ArrayOf(head + t, max)
      == if v > max then Err(ArrayTooLong)
         else if v < 0 || v > |t| then Err(UnexpectedEnd)
         else Ok((t[..v], |head| + v))
  {
    VarIntReads(head, v, t);
    var s := head + t;
    if 0 <= v <= |t| { assert s[|head|..|head| + v] == t[..v]; }
  }

  /** A string likewise. */
  lemma StringExactly(head: seq<Byte>, v: Int32, t: seq<Byte>, max: nat)
    requires Spells(head, v)
    ensures
      StringOf(head + t, max)
      == if v > 3 * max then Err(ArrayTooLong)
         else if v < 0 || v > |t| then Err(UnexpectedEnd)
         else if Text(t[..v], max) then Ok((t[..v], |head| + v))
         else Err(InvalidString)
  {
    ArrayExactly(head, v, t, max * 3);
    if 0 <= v <= |t| && v <= 3 * max { StringsAreTexts(t[..v], max); }
  }

  // ---------------------------------------------------------------- handshake

  function PortBytes(port: Port): seq<Byte> {
    [port / 256, port % 256]
  }

  /** A handshake payload, part by part, with anything behind it; the address is a
      text of at most 1024 code points (StringsAreTexts). */
  ghost predicate HandshakeText(p: seq<Byte>, h: Packet, id: seq<Byte>, protocol: seq<Byte>, length: seq<Byte>,
                                intent: seq<Byte>, trail: seq<Byte>)
  {
    && Spells(id, 0) && Spells(protocol, h.protocol) && Spells(intent, h.intent)
    && |h.address| <= 3 * 1024 && Spells(length, |h.address|) && ValidString(h.address, 1024)
    && p == id + (protocol + (length + (h.address + (PortBytes(h.port) + (intent + trail)))))
  }

  lemma PortReads(port: Port, s: seq<Byte>)
    ensures
      var t := PortBytes(port) + s;
      Uint16Of(t) == Ok(port as nat) && |t| >= 2 && t[2..] == s
  {
  }

  lemma EndReads(h: Packet, intent: seq<Byte>, trail: seq<Byte>)
    requires Spells(intent, h.intent)
    ensures DecodedEnd(h.protocol, h.address, PortBytes(h.port) + (intent + trail)) == Ok(h)
  {
    PortReads(h.port, intent + trail);
    VarIntReads(intent, h.intent, trail);
  }

  lemma ValidReads(head: seq<Byte>, address: seq<Byte>, s: seq<Byte>)
    requires |address| <= 3 * 1024 && Spells(head, |address|) && ValidString(address, 1024)
    ensures StringOf(head + (address + s), 1024) == Ok((address, |head| + |address|))
  {
    Joined(head, address, s);
    ArrayExactly(head, |address|, address + s, 3072);
  }

  lemma MiddleReads(protocol: Int32, length: seq<Byte>, address: seq<Byte>, s: seq<Byte>)
    requires |address| <= 3 * 1024 && Spells(length, |address|) && ValidString(address, 1024)
    ensures DecodedAddress(protocol, length + (address + s)) == DecodedEnd(protocol, address, s)
  {
    ValidReads(length, address, s);
    Joined(length, address, s);
    AddressReads(protocol, address, length + (address + s), |length| + |address|, s);
  }

  lemma AddressReads(protocol: Int32, address: seq<Byte>, u: seq<Byte>, n: nat, s: seq<Byte>)
    requires StringOf(u, 1024) == Ok((address, n)) && n <= |u| && u[n..] == s
    ensures DecodedAddress(protocol, u) == DecodedEnd(protocol, address, s)
  {
  }

  lemma Joined(a: seq<Byte>, b: seq<Byte>, c: seq<Byte>)
    ensures (b + c)[..|b|] == b && (a + (b + c))[|a| + |b|..] == c
  {
  }

  lemma HeadReads(id: seq<Byte>, protocol: seq<Byte>, v: Int32, s: seq<Byte>)
    requires Spells(id, 0) && Spells(protocol, v)
    ensures Decoded(id + (protocol + s)) == DecodedAddress(v, s)
  {
    VarIntReads(id, 0, protocol + s);
    VarIntReads(protocol, v, s);
  }

  /** Whatever is laid out so parses to what it says. */
  lemma HandshakeReads(p: seq<Byte>, h: Packet, id: seq<Byte>, protocol: seq<Byte>, length: seq<Byte>,
                       intent: seq<Byte>, trail: seq<Byte>)
    requires HandshakeText(p, h, id, protocol, length, intent, trail)
    ensures Decoded(p) == Ok(h)
  {
    var s4 := PortBytes(h.port) + (intent + trail);
    var s2 := length + (h.address + s4);
    HeadReads(id, protocol, h.protocol, s2);
    MiddleReads(h.protocol, length, h.address, s4);
    EndReads(h, intent, trail);
  }

  /** The parts of a VarInt that is read. */
  lemma VarIntFor(s: seq<Byte>) returns (b: seq<Byte>)
    requires VarIntOf(s).Ok?
    ensures Spells(b, VarIntOf(s).value) && |b| == Span(s, 5) && s == b + s[Span(s, 5)..]
  {
    VarIntExactly(s);
    b := s[..Span(s, 5)];
  }

  lemma StringIsArray(s: seq<Byte>, max: nat)
    requires StringOf(s, max).Ok?
    ensures StringOf(s, max) == ArrayOf(s, max * 3) && ValidString(StringOf(s, max).value.0, max)
  {
  }

  lemma ArrayHasLength(s: seq<Byte>, max: nat)
    requires ArrayOf(s, max).Ok?
    ensures VarIntOf(s).Ok?
  {
  }

  lemma Cut(s: seq<Byte>, k: nat, n: nat)
    requires k + n <= |s|
    ensures s[k..k + n] == s[k..][..n] && s[k..] == s[k..][..n] + s[k + n..]
  {
  }

  lemma StringFor(s: seq<Byte>, max: nat) returns (head: seq<Byte>)
    requires StringOf(s, max).Ok?
    ensures
      var (a, n) := StringOf(s, max).value;
      && |a| <= 3 * max && |a| < 0x8000_0000 && Spells(head, |a|) && ValidString(a, max)
      && n <= |s| && s == head + (a + s[n..])
  {
    StringIsArray(s, max);
    head := ArrayFor(s, max * 3);
  }

  lemma ArrayBehind(s: seq<Byte>, head: seq<Byte>, v: Int32, t: seq<Byte>, max: nat)
    requires Spells(head, v) && s == head + t && ArrayOf(s, max).Ok?
    ensures
      var (a, n) := ArrayOf(s, max).value;
      0 <= v <= max && |a| == v && n == |head| + v <= |s| && s == head + (a + s[n..])
  {
    ArrayExactly(head, v, t, max);
    if 0 <= v <= |t| { Cut(s, |head|, v); }
  }

  lemma ArrayFor(s: seq<Byte>, max: nat) returns (head: seq<Byte>)
    requires ArrayOf(s, max).Ok?
    ensures
      var (a, n) := ArrayOf(s, max).value;
      |a| <= max && |a| < 0x8000_0000 && Spells(head, |a|) && n <= |s| && s == head + (a + s[n..])
  {
    ArrayHasLength(s, max);
    head := VarIntFor(s);
    ArrayBehind(s, head, VarIntOf(s).value, s[Span(s, 5)..], max);
  }

  lemma PortFor(s: seq<Byte>)
    requires |s| >= 2
    ensures
      Uint16Of(s).Ok? && s == PortBytes(Uint16Of(s).value) + s[2..]
  {
    var hi: int, lo: int := s[0], s[1];
    assert (256 * hi + lo) / 256 == hi && (256 * hi + lo) % 256 == lo;
  }

  lemma HeadFor(p: seq<Byte>) returns (id: seq<Byte>, protocol: seq<Byte>, v: Int32, s: seq<Byte>)
    requires Decoded(p).Ok?
    ensures Spells(id, 0) && Spells(protocol, v) && p == id + (protocol + s) && Decoded(p) == DecodedAddress(v, s)
  {
    id := VarIntFor(p);
    var s1 := p[Span(p, 5)..];
    protocol := VarIntFor(s1);
    v, s := VarIntOf(s1).value, s1[Span(s1, 5)..];
  }

  lemma AddressFor(protocol: Int32, s: seq<Byte>) returns (length: seq<Byte>, address: seq<Byte>, more: seq<Byte>)
    requires DecodedAddress(protocol, s).Ok?
    ensures |address| <= 3 * 1024 && Spells(length, |address|) && ValidString(address, 1024)
    ensures s == length + (address + more) && DecodedAddress(protocol, s) == DecodedEnd(protocol, address, more)
  {
    length := StringFor(s, 1024);
    address, more := StringOf(s, 1024).value.0, s[StringOf(s, 1024).value.1..];
  }

  lemma EndFor(protocol: Int32, address: seq<Byte>, s: seq<Byte>) returns (intent: seq<Byte>, trail: seq<Byte>)
    requires DecodedEnd(protocol, address, s).Ok?
    ensures
      var h := DecodedEnd(protocol, address, s).value;
      && h.protocol == protocol && h.address == address && Spells(intent, h.intent)
      && s == PortBytes(h.port) + (intent + trail)
  {
    PortFor(s);
    intent := VarIntFor(s[2..]);
    trail := s[2..][Span(s[2..], 5)..];
  }

  /** Exactly these payloads are handshakes, overlong VarInts included. */
  lemma HandshakeLanguage(p: seq<Byte>, h: Packet)
    ensures
      Decoded(p) == Ok(h)
      <==> exists id, protocol, length, intent, trail :: HandshakeText(p, h, id, protocol, length, intent, trail)
  {
    if Decoded(p) == Ok(h) {
      var id, protocol, v, s := HeadFor(p);
      var length, address, more := AddressFor(v, s);
      var intent, trail := EndFor(v, address, more);
      assert HandshakeText(p, h, id, protocol, length, intent, trail);
    }
    if exists id, protocol, length, intent, trail :: HandshakeText(p, h, id, protocol, length, intent, trail) {
      var id, protocol, length, intent, trail :| HandshakeText(p, h, id, protocol, length, intent, trail);
      HandshakeReads(p, h, id, protocol, length, intent, trail);
    }
  }

  /** What the backend is told: intent 2 (login) for 3 (transfer), every other intent as
      it came. */
  lemma ForwardedIntents(intent: Int32)
    ensures ForwardedIntent(intent) == if intent == 3 then 2 else intent
  {
  }
}
