/** The packet codec of internal/proto/codec.go: VarInts, frames and the fields
    of a packet, with int32 and uint32 written out. */
module Codec {
  import opened Prelude
  import opened Bits

  type Int32 = x: int | -0x8000_0000 <= x < 0x8000_0000

  const MAX_FRAME_LEN := 2097151

  datatype Error =
    | UnexpectedEnd   // io.EOF, io.ErrUnexpectedEOF, ErrShortBuffer
    | VarIntTooBig
    | FrameTooBig
    | BadFrameLength
    | ArrayTooLong
    | InvalidString
    | NotAHandshake

  function ToUint32(v: Int32): nat {
    if v < 0 then v + 0x1_0000_0000 else v
  }

  function ToInt32(u: nat): Int32
    requires u < 0x1_0000_0000
  {
    if u < 0x8000_0000 then u else u - 0x1_0000_0000
  }

  /** int32(n) of a length. */
  function Truncate32(n: nat): Int32 {
    ToInt32(n % 0x1_0000_0000)
  }

  // ------------------------------------------------- the reference definition

  /** The number that the low seven bits of each byte stand for, least significant first. */
  function Base128(s: seq<Byte>): nat {
    if s == [] then 0 else s[0] % 128 + 128 * Base128(s[1..])
  }

  /** How many bytes a reader takes that stops after the first byte below 128,
      after n bytes, or at the end. */
  function Span(s: seq<Byte>, n: nat): (k: nat)
    ensures k <= n && k <= |s|
    ensures forall i :: 0 <= i < k - 1 ==> s[i] >= 128
    ensures k == n || k == |s| || (k > 0 && s[k - 1] < 128)
    decreases n
  {
    if n == 0 || s == [] then 0
    else if s[0] < 128 then 1
    else 1 + Span(s[1..], n - 1)
  }

  /** The reader stopped because it saw a last byte. */
  predicate Terminated(s: seq<Byte>, n: nat) {
    var k := Span(s, n);
    k > 0 && s[k - 1] < 128
  }

  /** The shortest VarInt of an unsigned number. */
  function Digits(u: nat): (s: seq<Byte>)
    ensures |s| > 0 && s[|s| - 1] < 128
    ensures forall i :: 0 <= i < |s| - 1 ==> s[i] >= 128
  {
    if u < 128 then [u] else [u % 128 + 128] + Digits(u / 128)
  }

  function VarIntBytes(v: Int32): seq<Byte> {
    Digits(ToUint32(v))
  }

  /** The VarInt at the head of s: at most five bytes; bits past 32 are lost. */
  function VarIntOf(s: seq<Byte>): Result<Int32, Error> {
    if Terminated(s, 5) then Ok(ToInt32(Base128(s[..Span(s, 5)]) % 0x1_0000_0000))
    else if |s| < 5 then Err(UnexpectedEnd)
    else Err(VarIntTooBig)
  }

  datatype Frame = Frame(raw: seq<Byte>, payload: seq<Byte>)

  function FrameBytes(payload: seq<Byte>): seq<Byte> {
    VarIntBytes(Truncate32(|payload|)) + payload
  }

  /** The frame at the head of a stream. */
  function FrameOf(s: seq<Byte>): Result<Frame, Error> {
    var k := Span(s, 3);
    if !Terminated(s, 3) then Err(if |s| < 3 then UnexpectedEnd else FrameTooBig)
    else
      var n := Base128(s[..k]);
      if n == 0 || n > MAX_FRAME_LEN then Err(BadFrameLength)
      else if |s| < k + n then Err(UnexpectedEnd)
      else Ok(Frame(s[..k + n], s[k..k + n]))
  }

  /** How much of the stream reading a frame takes, also when it fails. */
  function FrameSpan(s: seq<Byte>): (k: nat)
    ensures k <= |s|
  {
    var k := Span(s, 3);
    if !Terminated(s, 3) || Base128(s[..k]) > MAX_FRAME_LEN then k
    else Min(|s|, k + Base128(s[..k]))
  }

  // ------------------------------------------------------------ VarInt proofs

  lemma {:induction false} SpanOfTerminated(s: seq<Byte>, rest: seq<Byte>, n: nat)
    requires 0 < |s| <= n && s[|s| - 1] < 128 && forall i :: 0 <= i < |s| - 1 ==> s[i] >= 128
    ensures Span(s + rest, n) == |s| && Terminated(s + rest, n)
    decreases n
  {
    if |s| > 1 {
      SpanOfTerminated(s[1..], rest, n - 1);
      assert (s + rest)[1..] == s[1..] + rest;
    }
  }

  lemma {:induction false} DigitsMeanTheNumber(u: nat)
    ensures Base128(Digits(u)) == u
  {
    if u >= 128 {
      DigitsMeanTheNumber(u / 128);
      assert Digits(u)[1..] == Digits(u / 128);
    }
  }

  /** n bytes hold the numbers below 2^(7n), and no others. */
  lemma {:induction false} DigitCount(u: nat, n: nat)
    requires n > 0
    ensures |Digits(u)| <= n <==> u < Shl(1, 7 * n)
  {
    assert Shl(1, 7 * n) == 128 * Shl(1, 7 * (n - 1)) by {
      ShlShl(1, 7 * (n - 1), 7);
      Shl7(Shl(1, 7 * (n - 1)));
    }
    if n > 1 && u >= 128 {
      DigitCount(u / 128, n - 1);
    } else if u < 128 {
      ShlGrows(1, 0, 7 * (n - 1));
    }
  }

  lemma Shl21And35()
    ensures Shl(1, 21) == MAX_FRAME_LEN + 1 && Shl(1, 35) == 0x8_0000_0000 && Shl(1, 28) == 0x1000_0000
  {
    Shl14(1);
    ShlShl(1, 14, 7);
    Shl7(Shl(1, 14));
    ShlShl(1, 21, 7);
    Shl7(Shl(1, 21));
    ShlShl(1, 28, 7);
    Shl7(Shl(1, 28));
  }

  /** A VarInt loop whose limit is not below the length of the shortest VarInt of
      u reads u from it and takes exactly its bytes, whatever follows. */
  lemma DigitsAtHead(u: nat, rest: seq<Byte>, n: nat)
    requires |Digits(u)| <= n
    ensures
      var s := Digits(u) + rest;
      Terminated(s, n) && Span(s, n) == |Digits(u)| && Base128(s[..Span(s, n)]) == u
  {
    SpanOfTerminated(Digits(u), rest, n);
    DigitsMeanTheNumber(u);
    assert (Digits(u) + rest)[..|Digits(u)|] == Digits(u);
  }

  /** Decoding undoes encoding for every int32, and takes exactly its bytes. */
  lemma VarIntRoundTrip(v: Int32, rest: seq<Byte>)
    ensures VarIntOf(VarIntBytes(v) + rest) == Ok(v)
    ensures Span(VarIntBytes(v) + rest, 5) == |VarIntBytes(v)| <= 5
  {
    var u := ToUint32(v);
    assert |Digits(u)| <= 5 by { Shl21And35(); DigitCount(u, 5); }
    DigitsAtHead(u, rest, 5);
    SignRoundTrip(v);
  }

  lemma SignRoundTrip(v: Int32)
    ensures ToInt32(ToUint32(v) % 0x1_0000_0000) == v
  {
    SmallMod(ToUint32(v));
  }

  lemma {:induction false} Base128Snoc(s: seq<Byte>, b: Byte)
    ensures Base128(s + [b]) == Base128(s) + Shl(b % 128, 7 * |s|)
  {
    if s != [] {
      Base128Snoc(s[1..], b);
      assert (s + [b])[1..] == s[1..] + [b];
      ShlShl(b % 128, 7 * |s[1..]|, 7);
      Shl7(Shl(b % 128, 7 * |s[1..]|));
    } else {
      assert Base128([b]) == b % 128 + 128 * Base128([b][1..]);
    }
  }

  lemma {:induction false} Base128Bound(s: seq<Byte>)
    ensures Base128(s) < Shl(1, 7 * |s|)
  {
    if s != [] {
      Base128Bound(s[1..]);
      ShlShl(1, 7 * |s[1..]|, 7);
      Shl7(Shl(1, 7 * |s[1..]|));
    }
  }

  lemma ShlFifth(d: nat)
    ensures Shl(d, 28) == 0x1000_0000 * d
  {
    Shl14(d);
    ShlShl(d, 14, 14);
    Shl14(Shl(d, 14));
  }

  /** Of the bits shifted by 28 the uint32 keeps the lowest four. */
  lemma ShlTop(d: nat)
    ensures Shl32(d, 28) == Shl(d % 16, 28)
  {
    ShlFifth(d);
    ShlFifth(d % 16);
    assert 0x1000_0000 * d % 0x1_0000_0000 == 0x1000_0000 * (d % 16);
  }

  lemma TopWraps(d: nat, low: nat)
    requires low < 0x1000_0000
    ensures low + 0x1000_0000 * (d % 16) == (low + 0x1000_0000 * d) % 0x1_0000_0000
  {
  }

  /** One turn of a VarInt loop: shifting and or-ing in the next seven bits on
      uint32 is reading one more base-128 digit; only the fifth loses bits. */
  lemma EarlyTurn(s: seq<Byte>, b: Byte)
    requires |s| <= 3
    ensures Or(Base128(s), Shl32(b % 128, 7 * |s|)) == Base128(s + [b]) < 0x1000_0000
  {
    var d, n := b % 128, 7 * |s|;
    Base128Snoc(s, b);
    Base128Bound(s);
    Base128Bound(s + [b]);
    assert Shl(1, n + 7) <= 0x1000_0000 by { ShlGrows(1, n + 7, 28); Shl21And35(); }
    Shl32Fits(d, n);
    OrIsPlus(Base128(s), d, n);
  }

  lemma FifthTurn(low: nat, d: nat)
    requires low < 0x1000_0000
    ensures Or(low, Shl32(d, 28)) == (low + Shl(d, 28)) % 0x1_0000_0000
  {
    ShlTop(d);
    assert low < Shl(1, 28) by { ShlFifth(1); }
    OrIsPlus(low, d % 16, 28);
    ShlFifth(d);
    ShlFifth(d % 16);
    TopWraps(d, low);
  }

  lemma SmallMod(x: nat)
    requires x < 0x1_0000_0000
    ensures x % 0x1_0000_0000 == x
  {
  }

  lemma VarIntTurn(s: seq<Byte>, b: Byte)
    requires |s| <= 4
    ensures Or(Base128(s), Shl32(b % 128, 7 * |s|)) == Base128(s + [b]) % 0x1_0000_0000
  {
    if |s| <= 3 {
      EarlyTurn(s, b);
      SmallMod(Base128(s + [b]));
    } else {
      LateTurn(s, b);
    }
  }

  lemma LateTurn(s: seq<Byte>, b: Byte)
    requires |s| == 4
    ensures Or(Base128(s), Shl32(b % 128, 28)) == Base128(s + [b]) % 0x1_0000_0000
  {
    assert Base128(s) < 0x1000_0000 by { Base128Bound(s); Shl21And35(); }
    Base128Snoc(s, b);
    FifthTurn(Base128(s), b % 128);
  }

  /** A VarInt loop with the limit n has read the first i bytes of s into v. */
  ghost predicate Reading(s: seq<Byte>, i: nat, n: nat, v: nat) {
    i <= |s| && i <= n && v == Base128(s[..i]) && forall j :: 0 <= j < i ==> s[j] >= 128
  }

  lemma {:induction false} SpanSoFar(s: seq<Byte>, i: nat, n: nat)
    requires i <= n && i <= |s| && forall j :: 0 <= j < i ==> s[j] >= 128
    ensures Span(s, n) == i + Span(s[i..], n - i)
    decreases i
  {
    if i == 0 {
      assert s[0..] == s;
    } else {
      SpanSoFar(s[1..], i - 1, n - 1);
      assert s[1..][i - 1..] == s[i..];
    }
  }

  lemma ReadDigit(s: seq<Byte>, i: nat, n: nat, v: nat)
    requires Reading(s, i, n, v) && i < n <= 5 && i < |s|
    ensures
      var v' := Or(v, Shl32(s[i] % 128, 7 * i));
      && v' == Base128(s[..i + 1]) % 0x1_0000_0000
      && (i < 4 ==> v' == Base128(s[..i + 1]))
      && (s[i] < 128 ==> Span(s, n) == i + 1 && Terminated(s, n))
      && (s[i] >= 128 && i < 4 ==> Reading(s, i + 1, n, v'))
  {
    assert s[..i] + [s[i]] == s[..i + 1];
    VarIntTurn(s[..i], s[i]);
    if i < 4 { EarlyTurn(s[..i], s[i]); }
    SpanSoFar(s, i, n);
  }

  lemma ReadToLimit(s: seq<Byte>, i: nat, n: nat)
    requires i <= |s| && i <= n && forall j :: 0 <= j < i ==> s[j] >= 128
    requires i == n || i == |s|
    ensures Span(s, n) == i && !Terminated(s, n)
  {
    SpanSoFar(s, i, n);
  }

  // ------------------------------------------------------------------- UTF-8

  /** The length of the rune at the head of s when it is well-formed UTF-8, as
      unicode/utf8 checks it: no overlong form, no surrogate, at most U+10FFFF. */
  function RuneLen(s: seq<Byte>): (k: nat)
    requires s != []
    ensures k <= 4 && k <= |s|
  {
    if s[0] < 0x80 then 1
    else if |s| >= 2 && 0xC2 <= s[0] < 0xE0 && Trail(s[1]) then 2
    else if |s| >= 3 && 0xE0 <= s[0] < 0xF0 && Trail(s[1]) && Trail(s[2])
      && (s[0] == 0xE0 ==> s[1] >= 0xA0) && (s[0] == 0xED ==> s[1] < 0xA0) then 3
    else if |s| >= 4 && 0xF0 <= s[0] < 0xF5 && Trail(s[1]) && Trail(s[2]) && Trail(s[3])
      && (s[0] == 0xF0 ==> s[1] >= 0x90) && (s[0] == 0xF4 ==> s[1] < 0x90) then 4
    else 0
  }

  predicate Trail(b: Byte) { 0x80 <= b < 0xC0 }

  /** The number of runes, when all of s is well-formed. */
  function Runes(s: seq<Byte>): Option<nat> {
    if s == [] then Some(0)
    else
      var k := RuneLen(s);
      if k == 0 then None
      else
        var more := Runes(s[k..]);
        if more.None? then None else Some(1 + more.value)
  }

  predicate ValidString(s: seq<Byte>, max: nat) {
    |s| <= 3 * max && Runes(s).Some? && Runes(s).value <= max
  }

  // ------------------------------------------------------------------ readers

  /** A byte array at the head of s, and how much of s it takes. */
  function ArrayOf(s: seq<Byte>, max: nat): Result<(seq<Byte>, nat), Error> {
    var n := VarIntOf(s);
    var k := Span(s, 5);
    if n.Err? then Err(n.error)
    else if n.value > max then Err(ArrayTooLong)
    else if n.value < 0 || k + n.value > |s| then Err(UnexpectedEnd)
    else Ok((s[k..k + n.value], k + n.value))
  }

  function StringOf(s: seq<Byte>, max: nat): Result<(seq<Byte>, nat), Error> {
    var a := ArrayOf(s, max * 3);
    if a.Ok? && !ValidString(a.value.0, max) then Err(InvalidString) else a
  }

  function Word(hi: Byte, lo: Byte): (w: nat)
    ensures w < 0x1_0000
  {
    (hi as int) * 256 + lo
  }

  function Uint16Of(s: seq<Byte>): Result<nat, Error> {
    if |s| < 2 then Err(UnexpectedEnd) else Ok(Word(s[0], s[1]))
  }

  /** Buffer of codec.go, and any other reader of bytes: `b` is all that will come. */
  lemma Slices(s: seq<Byte>, k: nat, n: nat)
    requires k + n <= |s|
    ensures s[..k] + s[k..k + n] == s[..k + n] && s[..k + n][k..] == s[k..k + n] && s[k..][..n] == s[k..k + n]
  {
  }

  lemma SliceOfRest(b: seq<Byte>, i: nat, k: nat, n: nat)
    requires i + k + n <= |b|
    ensures b[i..][k..k + n] == b[i + k..i + k + n]
  {
  }

  class Buffer {
    const b: seq<Byte>
    var off: nat

    ghost predicate Valid() reads this { off <= |b| }

    ghost function Rest(): seq<Byte>
      reads this
      requires Valid()
    {
      b[off..]
    }

    constructor (b: seq<Byte>)
      ensures Valid() && this.b == b && off == 0
    {
      this.b := b;
      off := 0;
    }

    method ReadByte() returns (r: Result<Byte, Error>)
      requires Valid()
      modifies this
      ensures Valid() && r == if old(off) < |b| then Ok(b[old(off)]) else Err(UnexpectedEnd)
      ensures off == old(off) + if r.Ok? then 1 else 0
    {
      if off >= |b| { return Err(UnexpectedEnd); }
      r := Ok(b[off]);
      off := off + 1;
    }

    method ReadVarInt() returns (r: Result<Int32, Error>)
      requires Valid()
      modifies this
      ensures Valid() && r == VarIntOf(old(Rest())) && off == old(off) + Span(old(Rest()), 5)
    {
      ghost var s := Rest();
      var v, i := 0, 0;
      while i < 5
        invariant Valid() && off == old(off) + i && i <= |s| && i <= 5
        invariant if i < 5 then Reading(s, i, 5, v) else forall j :: 0 <= j < i ==> s[j] >= 128
      {
        if off == |b| { ReadToLimit(s, i, 5); }
        var c := ReadByte();
        if c.Err? { return Err(c.error); }
        ReadDigit(s, i, 5, v);
        v := Or(v, Shl32(c.value % 128, 7 * i));
        if c.value < 128 { return Ok(ToInt32(v)); }
        i := i + 1;
      }
      ReadToLimit(s, 5, 5);
      r := Err(VarIntTooBig);
    }

    /** The prefix of ReadFrame: its bytes and the length it announces. */
    method ReadLength() returns (r: Result<(seq<Byte>, nat), Error>)
      requires Valid()
      modifies this
      ensures Valid() && off == old(off) + Span(old(Rest()), 3)
      ensures
        var s, k := old(Rest()), Span(old(Rest()), 3);
        r == if Terminated(s, 3) then Ok((s[..k], Base128(s[..k])))
             else Err(if |s| < 3 then UnexpectedEnd else FrameTooBig)
    {
      ghost var s := Rest();
      var prefix: seq<Byte>, n, i := [], 0, 0;
      while true
        invariant Valid() && off == old(off) + i && i <= 3
        invariant Reading(s, i, 3, n) && prefix == s[..i]
        decreases 3 - i
      {
        if i == 3 || off == |b| { ReadToLimit(s, i, 3); }
        if i == 3 { return Err(FrameTooBig); }
        var c := ReadByte();
        if c.Err? { return Err(c.error); }
        ReadDigit(s, i, 3, n);
        prefix := prefix + [c.value];
        n := Or(n, Shl32(c.value % 128, 7 * i));
        assert prefix == s[..i + 1];
        if c.value < 128 { return Ok((prefix, n)); }
        i := i + 1;
      }
    }

    /** ReadFrame, on a stream that ends after b. */
    method ReadFrame() returns (r: Result<Frame, Error>)
      requires Valid()
      modifies this
      ensures Valid() && r == FrameOf(old(Rest())) && off == old(off) + FrameSpan(old(Rest()))
    {
      ghost var s, k := Rest(), Span(Rest(), 3);
      var length := ReadLength();
      if length.Err? { return Err(length.error); }
      var (prefix, n) := length.value;
      if n == 0 || n > MAX_FRAME_LEN { return Err(BadFrameLength); }
      if off + n > |b| {
        off := |b|;
        return Err(UnexpectedEnd);
      }
      var raw := prefix + b[off..off + n];
      SliceOfRest(b, off - k, k, n);
      off := off + n;
      Slices(s, k, n);
      r := Ok(Frame(raw, raw[|prefix|..]));
    }

    method Bytes(n: int) returns (r: Result<seq<Byte>, Error>)
      requires Valid()
      modifies this
      ensures Valid()
      ensures r == if n < 0 || n > |old(Rest())| then Err(UnexpectedEnd) else Ok(old(Rest())[..n])
      ensures off == old(off) + if r.Ok? then n else 0
    {
      if n < 0 || off + n > |b| { return Err(UnexpectedEnd); }
      r := Ok(b[off..off + n]);
      assert r.value == Rest()[..n];
      off := off + n;
    }

    method Uint16() returns (r: Result<nat, Error>)
      requires Valid()
      modifies this
      ensures Valid() && r == Uint16Of(old(Rest())) && off == old(off) + if r.Ok? then 2 else 0
    {
      var s := Bytes(2);
      if s.Err? { return Err(s.error); }
      r := Ok(Word(s.value[0], s.value[1]));
    }

    method ByteArray(max: nat) returns (r: Result<seq<Byte>, Error>)
      requires Valid()
      modifies this
      ensures Valid() && old(off) <= off
      ensures
        var a := ArrayOf(old(Rest()), max);
        if a.Err? then r == Err(a.error) else r == Ok(a.value.0) && off == old(off) + a.value.1
    {
      ghost var s := Rest();
      var n := ReadVarInt();
      if n.Err? { return Err(n.error); }
      if n.value > max { return Err(ArrayTooLong); }
      assert Rest() == s[Span(s, 5)..];
      r := Bytes(n.value);
      if r.Ok? { assert r.value == s[Span(s, 5)..Span(s, 5) + n.value]; }
    }

    method ReadString(max: nat) returns (r: Result<seq<Byte>, Error>)
      requires Valid()
      modifies this
      ensures Valid() && old(off) <= off
      ensures
        var a := StringOf(old(Rest()), max);
        if a.Err? then r == Err(a.error) else r == Ok(a.value.0) && off == old(off) + a.value.1
    {
      r := ByteArray(max * 3);
      if r.Err? { return; }
      if Runes(r.value).None? || Runes(r.value).value > max { return Err(InvalidString); }
    }
  }

  // ------------------------------------------------------------------ builder

  method AppendVarInt(b: seq<Byte>, v: Int32) returns (r: seq<Byte>)
    ensures r == b + VarIntBytes(v)
  {
    r := b;
    var u := ToUint32(v);
    while u >= 0x80
      invariant r + Digits(u) == b + VarIntBytes(v)
    {
      MoreBit(u);
      assert r + Digits(u) == r + [u % 128 + 128] + Digits(u / 128);
      r := r + [Or(u % 256, 0x80)];
      u := u / 128;
    }
    r := r + [u % 256];
  }

  lemma MoreBit(u: nat)
    ensures Or(u % 256, 0x80) == u % 128 + 128
  {
    HighBit(u % 256);
    LowSeven(u);
  }

  lemma LowSeven(u: nat)
    ensures u % 256 % 128 == u % 128
  {
    var q, r := u / 256, u % 256;
    LastDigit(u, 2 * q + r / 128, r % 128);
  }

  lemma LastDigit(u: nat, k: nat, w: nat)
    requires u == 128 * k + w && w < 128
    ensures u % 128 == w
  {
  }

  lemma HighBit(x: nat)
    requires x < 256
    ensures Or(x, 0x80) == x % 128 + 128
  {
    assert Shl(1, 7) == 128 by { Shl7(1); }
    if x < 128 { OrIsPlus(x, 1, 7); } else { OrWithTop(x - 128, 7); }
  }

  lemma Halve(low: nat, q: nat)
    ensures (low + 2 * q) / 2 == low / 2 + q && (low + 2 * q) % 2 == low % 2
  {
  }

  lemma OrStep(low: nat, q: nat)
    requires q > 0
    ensures Or(low + 2 * q, 2 * q) == low % 2 + 2 * Or(low / 2 + q, q)
  {
    Halve(low, q);
    Halve(0, q);
  }

  lemma {:induction false} OrWithTop(low: nat, n: nat)
    requires low < Shl(1, n)
    ensures Or(low + Shl(1, n), Shl(1, n)) == low + Shl(1, n)
  {
    if n == 0 {
      assert Or(1, 1) == 1;
    } else {
      var q := Shl(1, n - 1);
      ShlGrows(1, 0, n - 1);
      OrStep(low, q);
      OrWithTop(low / 2, n - 1);
    }
  }

  class Builder {
    var b: seq<Byte>

    /** NewPacket */
    constructor (id: Int32)
      ensures b == VarIntBytes(id)
    {
      new;
      b := AppendVarInt([], id);
    }

    method VarInt(v: Int32)
      modifies this
      ensures b == old(b) + VarIntBytes(v)
    {
      b := AppendVarInt(b, v);
    }

    method Uint16(v: nat)
      requires v < 0x1_0000
      modifies this
      ensures b == old(b) + [v / 256, v % 256]
    {
      b := b + [v / 256, v % 256];
    }

    method ByteArray(v: seq<Byte>)
      modifies this
      ensures b == old(b) + VarIntBytes(Truncate32(|v|)) + v
    {
      b := AppendVarInt(b, Truncate32(|v|));
      b := b + v;
    }

    method Frame() returns (out: seq<Byte>)
      ensures out == FrameBytes(b)
    {
      out := AppendVarInt([], Truncate32(|b|));
      out := out + b;
    }
  }

  // ----------------------------------------------------------------- theorems

  /** Reading a built frame, whatever follows it, gives that frame and takes
      exactly its bytes if and only if the payload has a length a frame can have. */
  lemma FrameRoundTrip(payload: seq<Byte>, rest: seq<Byte>)
    ensures
      FrameOf(FrameBytes(payload) + rest) == Ok(Frame(FrameBytes(payload), payload))
      <==> 1 <= |payload| <= MAX_FRAME_LEN
    ensures 1 <= |payload| <= MAX_FRAME_LEN ==> FrameSpan(FrameBytes(payload) + rest) == |FrameBytes(payload)|
  {
    if 1 <= |payload| <= MAX_FRAME_LEN { FrameAtHead(payload, rest); }
    FramePayloadBound(FrameBytes(payload) + rest);
  }

  lemma PlainLength(n: nat)
    requires n < 0x8000_0000
    ensures Truncate32(n) == n && VarIntBytes(Truncate32(n)) == Digits(n)
  {
    SmallMod(n);
  }

  /** A prefix that announces the length of a payload in front of it makes a frame. */
  lemma PrefixedIsFrame(prefix: seq<Byte>, payload: seq<Byte>, rest: seq<Byte>)
    requires 0 < |prefix| <= 3 && prefix[|prefix| - 1] < 128 && forall i :: 0 <= i < |prefix| - 1 ==> prefix[i] >= 128
    requires 1 <= |payload| <= MAX_FRAME_LEN && Base128(prefix) == |payload|
    ensures FrameOf(prefix + payload + rest) == Ok(Frame(prefix + payload, payload))
    ensures FrameSpan(prefix + payload + rest) == |prefix + payload|
  {
    var t, n := prefix + payload + rest, |prefix|;
    SpanOfTerminated(prefix, payload + rest, 3);
    assert prefix + (payload + rest) == t;
    assert t[..n] == prefix;
    assert t[..n + |payload|] == prefix + payload;
    assert t[n..n + |payload|] == payload;
  }

  lemma FrameAtHead(payload: seq<Byte>, rest: seq<Byte>)
    requires 1 <= |payload| <= MAX_FRAME_LEN
    ensures FrameOf(FrameBytes(payload) + rest) == Ok(Frame(FrameBytes(payload), payload))
    ensures FrameSpan(FrameBytes(payload) + rest) == |FrameBytes(payload)|
  {
    var u := |payload|;
    PlainLength(u);
    assert |Digits(u)| <= 3 by { Shl21And35(); DigitCount(u, 3); }
    DigitsMeanTheNumber(u);
    PrefixedIsFrame(Digits(u), payload, rest);
  }

  lemma FramePayloadBound(s: seq<Byte>)
    ensures FrameOf(s).Ok? ==> 1 <= |FrameOf(s).value.payload| <= MAX_FRAME_LEN
  {
  }

  /** A header of at most three bytes cannot announce more than the maximum, so
      the only length refused as invalid is zero. */
  lemma OnlyZeroIsABadLength(s: seq<Byte>)
    ensures FrameOf(s) == Err(BadFrameLength) <==> Terminated(s, 3) && Base128(s[..Span(s, 3)]) == 0
  {
    var k := Span(s, 3);
    Base128Bound(s[..k]);
    ShlGrows(1, 7 * k, 21);
    Shl21And35();
  }

  lemma ArrayRoundTrip(v: seq<Byte>, rest: seq<Byte>, max: nat)
    requires |v| <= max < 0x8000_0000
    ensures
      var p := VarIntBytes(Truncate32(|v|));
      ArrayOf(p + v + rest, max) == Ok((v, |p| + |v|))
  {
    var p := VarIntBytes(Truncate32(|v|));
    PlainLength(|v|);
    VarIntRoundTrip(|v|, v + rest);
    assert p + (v + rest) == p + v + rest;
    assert (p + v + rest)[|p|..|p| + |v|] == v;
  }
}
