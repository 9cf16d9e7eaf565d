/** The 15-bit packing of Forge's `d` string: the decoder of
    internal/proto/status.go and the encoder it reverses
    (internal/proto/forgedata_test.go). Bytes and chars are numbers; `|`, `<<`,
    `>>` and the width of uint32 are written out. */
module ForgeBits {
  import opened Prelude
  import opened Bits

  type Rune = x: int | 0 <= x < 0x110000

  datatype Error = TooShort | SizeExceedsInput | InvalidChar | ShorterThanDeclared

  const CHAR := 0x8000 // 2^15, one more than the largest char of the packing

  // ------------------------------------------------- the reference definition

  /** The number a string of bytes stands for, least significant byte first. */
  function ByteValue(s: seq<Byte>): nat {
    if s == [] then 0 else s[0] + 256 * ByteValue(s[1..])
  }

  /** The number a string of 15-bit chars stands for, least significant first. */
  function CharValue(s: seq<Rune>): nat {
    if s == [] then 0 else s[0] + CHAR * CharValue(s[1..])
  }

  /** The n lowest bytes of a number. */
  function LowBytes(v: nat, n: nat): (s: seq<Byte>)
    ensures |s| == n
  {
    if n == 0 then [] else [v % 256] + LowBytes(v / 256, n - 1)
  }

  /** The n lowest 15-bit digits of a number. */
  function LowChars(v: nat, n: nat): (s: seq<Rune>)
    ensures |s| == n && forall k :: 0 <= k < n ==> s[k] < CHAR
  {
    if n == 0 then [] else [v % CHAR] + LowChars(v / CHAR, n - 1)
  }

  /** How many chars hold n bytes, and how many bytes m chars can fill. */
  function CharsFor(n: nat): nat { (8 * n + 14) / 15 }
  function BytesIn(m: nat): nat { (15 * m + 7) / 8 }

  /** What packing means: the length in two chars, then the same number in base 2^15. */
  function Packed(data: seq<Byte>): seq<Rune> {
    [|data| % CHAR, |data| / CHAR % CHAR] + LowChars(ByteValue(data), CharsFor(|data|))
  }

  function DeclaredSize(chars: seq<Rune>): nat
    requires |chars| >= 2
  {
    Or(chars[0], Shl(chars[1], 15))
  }

  /** What unpacking means, for every string of runes. */
  function Unpacked(chars: seq<Rune>): Result<seq<Byte>, Error> {
    if |chars| < 2 then Err(TooShort)
    else if DeclaredSize(chars) > 2 * |chars| then Err(SizeExceedsInput)
    else if exists k :: 2 <= k < |chars| && chars[k] >= CHAR then Err(InvalidChar)
    else if DeclaredSize(chars) > BytesIn(|chars| - 2) then Err(ShorterThanDeclared)
    else Ok(LowBytes(CharValue(chars[2..]), DeclaredSize(chars)))
  }

  // ---------------------------------------------------------- the bit buffer

  lemma RoomForUnit(buf: nat, bits: nat, unit: nat, width: nat)
    requires buf < Shl(1, bits) && unit < Shl(1, width)
    ensures buf + Shl(unit, bits) < Shl(1, bits + width)
  {
    ShlPlus(unit, 1, bits);
    ShlMonotone(unit + 1, Shl(1, width), bits);
    ShlShl(1, width, bits);
  }

  /** The bit buffer takes in one more unit of `width` bits: nothing overflows
      uint32, and the or is a sum. */
  lemma TakeFits(buf: nat, bits: nat, unit: nat, width: nat)
    requires buf < Shl(1, bits) && unit < Shl(1, width) && bits + width <= 22
    ensures Or(buf, Shl32(unit, bits)) == buf + Shl(unit, bits) < Shl(1, bits + width)
  {
    RoomForUnit(buf, bits, unit, width);
    assert Shl(1, bits + width) <= 0x40_0000 by { ShlGrows(1, bits + width, 22); Shl22(1); }
    Shl32Fits(unit, bits);
    OrIsPlus(buf, unit, bits);
  }

  /** The buffer with what is still to come stands for the same number as before. */
  lemma TakeKeeps(buf: nat, bits: nat, unit: nat, width: nat, rest: nat)
    ensures buf + Shl(unit, bits) + Shl(rest, bits + width) == buf + Shl(unit + Shl(rest, width), bits)
  {
    ShlPlus(unit, Shl(rest, width), bits);
    ShlShl(rest, width, bits);
  }

  lemma TakeUnit(buf: nat, bits: nat, unit: nat, width: nat, rest: nat, value: nat)
    requires buf < Shl(1, bits) && unit < Shl(1, width) && bits + width <= 22
    requires value == unit + Shl(rest, width)
    ensures
      var buf' := Or(buf, Shl32(unit, bits));
      buf' < Shl(1, bits + width) && buf' + Shl(rest, bits + width) == buf + Shl(value, bits)
  {
    TakeFits(buf, bits, unit, width);
    TakeKeeps(buf, bits, unit, width, rest);
  }

  lemma SplitByte(buf: nat, more: nat)
    ensures (buf + 256 * more) % 256 == buf % 256 && (buf + 256 * more) / 256 == buf / 256 + more
  {
  }

  lemma SplitChar(buf: nat, more: nat)
    ensures (buf + CHAR * more) % CHAR == buf % CHAR && (buf + CHAR * more) / CHAR == buf / CHAR + more
  {
  }

  /** The bit buffer gives out its 15, or its 8, lowest bits. */
  lemma GiveChar(buf: nat, bits: nat, rest: nat)
    requires buf < Shl(1, bits) && bits >= 15
    ensures (buf + Shl(rest, bits)) % CHAR == buf % CHAR
    ensures (buf + Shl(rest, bits)) / CHAR == buf / CHAR + Shl(rest, bits - 15)
    ensures buf / CHAR < Shl(1, bits - 15)
  {
    var more := Shl(rest, bits - 15);
    assert Shl(rest, bits) == CHAR * more by { ShlShl(rest, bits - 15, 15); Shl15(more); }
    assert Shl(1, bits) == CHAR * Shl(1, bits - 15) by { ShlShl(1, bits - 15, 15); Shl15(Shl(1, bits - 15)); }
    SplitChar(buf, more);
  }

  lemma GiveByte(buf: nat, bits: nat, rest: nat)
    requires buf < Shl(1, bits) && bits >= 8
    ensures (buf + Shl(rest, bits)) % 256 == buf % 256
    ensures (buf + Shl(rest, bits)) / 256 == buf / 256 + Shl(rest, bits - 8)
    ensures buf / 256 < Shl(1, bits - 8)
  {
    var more := Shl(rest, bits - 8);
    assert Shl(rest, bits) == 256 * more by { ShlShl(rest, bits - 8, 8); Shl8(more); }
    assert Shl(1, bits) == 256 * Shl(1, bits - 8) by { ShlShl(1, bits - 8, 8); Shl8(Shl(1, bits - 8)); }
    SplitByte(buf, more);
  }

  // ------------------------------------------------------------- the two loops

  lemma {:induction false} LowBytesPrefix(v: nat, n: nat, m: nat)
    requires m <= n
    ensures LowBytes(v, n)[..m] == LowBytes(v, m)
  {
    if m != 0 {
      LowBytesPrefix(v / 256, n - 1, m - 1);
    }
  }

  /** A loop has put out `done` of the n digits of `goal`; the others are in the
      buffer and in `rest`, the number that its input still stands for. */
  ghost predicate CharsOwed(done: seq<Rune>, buf: nat, bits: nat, rest: nat, n: nat, goal: seq<Rune>) {
    |done| <= n && buf < Shl(1, bits) && done + LowChars(buf + Shl(rest, bits), n - |done|) == goal
  }

  ghost predicate BytesOwed(done: seq<Byte>, buf: nat, bits: nat, rest: nat, n: nat, goal: seq<Byte>) {
    |done| <= n && buf < Shl(1, bits) && done + LowBytes(buf + Shl(rest, bits), n - |done|) == goal
  }

  lemma EmitChar(done: seq<Rune>, buf: nat, bits: nat, rest: nat, n: nat, goal: seq<Rune>)
    requires CharsOwed(done, buf, bits, rest, n, goal) && bits >= 15 && |done| < n
    ensures CharsOwed(done + [buf % CHAR], buf / CHAR, bits - 15, rest, n, goal)
  {
    GiveChar(buf, bits, rest);
    var all := buf + Shl(rest, bits);
    assert done + [all % CHAR] + LowChars(all / CHAR, n - |done| - 1) == goal;
  }

  lemma EmitByte(done: seq<Byte>, buf: nat, bits: nat, rest: nat, n: nat, goal: seq<Byte>)
    requires BytesOwed(done, buf, bits, rest, n, goal) && bits >= 8 && |done| < n
    ensures BytesOwed(done + [buf % 256], buf / 256, bits - 8, rest, n, goal)
  {
    GiveByte(buf, bits, rest);
    var all := buf + Shl(rest, bits);
    assert done + [all % 256] + LowBytes(all / 256, n - |done| - 1) == goal;
  }

  /** What is owed depends only on the number that buffer and rest stand for. */
  lemma SameCharsOwed(done: seq<Rune>, buf: nat, bits: nat, rest: nat, buf': nat, bits': nat, rest': nat, n: nat,
                      goal: seq<Rune>)
    requires CharsOwed(done, buf, bits, rest, n, goal)
    requires buf' < Shl(1, bits') && buf' + Shl(rest', bits') == buf + Shl(rest, bits)
    ensures CharsOwed(done, buf', bits', rest', n, goal)
  {
  }

  lemma SameBytesOwed(done: seq<Byte>, buf: nat, bits: nat, rest: nat, buf': nat, bits': nat, rest': nat, n: nat,
                      goal: seq<Byte>)
    requires BytesOwed(done, buf, bits, rest, n, goal)
    requires buf' < Shl(1, bits') && buf' + Shl(rest', bits') == buf + Shl(rest, bits)
    ensures BytesOwed(done, buf', bits', rest', n, goal)
  {
  }

  lemma TakeByte(done: seq<Rune>, buf: nat, bits: nat, s: seq<Byte>, n: nat, goal: seq<Rune>)
    requires CharsOwed(done, buf, bits, ByteValue(s), n, goal) && s != [] && bits < 15
    ensures CharsOwed(done, Or(buf, Shl32(s[0], bits)), bits + 8, ByteValue(s[1..]), n, goal)
  {
    var rest, unit: nat := ByteValue(s[1..]), s[0];
    assert unit < Shl(1, 8) by { Shl8(1); }
    assert ByteValue(s) == unit + Shl(rest, 8) by { Shl8(rest); }
    TakeUnit(buf, bits, unit, 8, rest, ByteValue(s));
    SameCharsOwed(done, buf, bits, ByteValue(s), Or(buf, Shl32(unit, bits)), bits + 8, rest, n, goal);
  }

  lemma TakeChar(done: seq<Byte>, buf: nat, bits: nat, s: seq<Rune>, n: nat, goal: seq<Byte>)
    requires BytesOwed(done, buf, bits, CharValue(s), n, goal) && s != [] && s[0] < CHAR && bits < 8
    ensures BytesOwed(done, Or(buf, Shl32(s[0], bits)), bits + 15, CharValue(s[1..]), n, goal)
  {
    var rest, unit: nat := CharValue(s[1..]), s[0];
    assert unit < Shl(1, 15) by { Shl15(1); }
    assert CharValue(s) == unit + Shl(rest, 15) by { Shl15(rest); }
    TakeUnit(buf, bits, unit, 15, rest, CharValue(s));
    SameBytesOwed(done, buf, bits, CharValue(s), Or(buf, Shl32(unit, bits)), bits + 15, rest, n, goal);
  }

  /** The body of the encoder's loop: one byte into the buffer, at most one char out. */
  method PutByte(b: Byte, buf: nat, bits: nat, ghost body: seq<Rune>, ghost s: seq<Byte>,
                 ghost n: nat, ghost goal: seq<Rune>)
    returns (buf': nat, bits': nat, digit: seq<Rune>)
    requires s != [] && b == s[0] && bits < 15 && 15 * |body| + bits + 8 * |s| <= 15 * n
    requires CharsOwed(body, buf, bits, ByteValue(s), n, goal)
    ensures bits' < 15 && 15 * |digit| + bits' == bits + 8
    ensures CharsOwed(body + digit, buf', bits', ByteValue(s[1..]), n, goal)
  {
    TakeByte(body, buf, bits, s, n, goal);
    buf' := Or(buf, Shl32(b, bits));
    bits' := bits + 8;
    if bits' >= 15 {
      EmitChar(body, buf', bits', ByteValue(s[1..]), n, goal);
      digit := [buf' % CHAR];
      buf' := buf' / CHAR;
      bits' := bits' - 15;
    } else {
      digit := [];
      assert body + digit == body;
    }
  }

  method Encode(data: seq<Byte>) returns (chars: seq<Rune>)
    ensures chars == Packed(data)
  {
    chars := [|data| % CHAR, |data| / CHAR % CHAR];
    ghost var header, body: seq<Rune> := chars, [];
    ghost var n := CharsFor(|data|);
    ghost var goal := LowChars(ByteValue(data), n);
    assert data[0..] == data;
    var buf: nat, bits: nat := 0, 0;
    for i := 0 to |data|
      invariant bits < 15 && 15 * |body| + bits == 8 * i && chars == header + body
      invariant CharsOwed(body, buf, bits, ByteValue(data[i..]), n, goal)
    {
      assert data[i..][1..] == data[i + 1..];
      var digit: seq<Rune>;
      buf, bits, digit := PutByte(data[i], buf, bits, body, data[i..], n, goal);
      chars, body := chars + digit, body + digit;
    }
    LastChar(body, buf, bits, n, goal);
    if bits > 0 {
      chars := chars + [buf % CHAR];
    }
  }

  lemma LastChar(body: seq<Rune>, buf: nat, bits: nat, n: nat, goal: seq<Rune>)
    requires CharsOwed(body, buf, bits, 0, n, goal) && n - |body| == (if bits > 0 then 1 else 0)
    ensures goal == if bits > 0 then body + [buf % CHAR] else body
  {
    ShlZero(bits);
  }

  /** The body of the decoder's loop: one char into the buffer, whole bytes out. */
  method PutChar(c: Rune, buf: nat, bits: nat, out: seq<Byte>, ghost s: seq<Rune>, ghost n: nat, ghost goal: seq<Byte>)
    returns (buf': nat, bits': nat, out': seq<Byte>)
    requires s != [] && c == s[0] && c < CHAR && bits < 8 && 8 * |out| + bits + 15 * |s| <= 8 * n + 7
    requires BytesOwed(out, buf, bits, CharValue(s), n, goal)
    ensures bits' < 8 && 8 * |out'| + bits' == 8 * |out| + bits + 15
    ensures BytesOwed(out', buf', bits', CharValue(s[1..]), n, goal)
  {
    TakeChar(out, buf, bits, s, n, goal);
    buf' := Or(buf, Shl32(c, bits));
    bits', out' := bits + 15, out;
    while bits' >= 8
      invariant bits' <= 22 && 8 * |out'| + bits' == 8 * |out| + bits + 15
      invariant BytesOwed(out', buf', bits', CharValue(s[1..]), n, goal)
    {
      EmitByte(out', buf', bits', CharValue(s[1..]), n, goal);
      out' := out' + [buf' % 256];
      buf' := buf' / 256;
      bits' := bits' - 8;
    }
  }

  /** The decoder's last loop: the bits left over make one more byte if it is needed. */
  method Drain(size: nat, buf: nat, bits: int, out: seq<Byte>, ghost n: nat, ghost goal: seq<Byte>)
    returns (out': seq<Byte>)
    requires 0 <= bits < 8 && |out| == (if bits > 0 then n - 1 else n)
    requires BytesOwed(out, buf, bits, 0, n, goal)
    ensures out' <= goal && |out'| == if |out| < size then n else |out|
  {
    out' := out;
    ShlZero(bits);
    var buf', bits' := buf, bits;
    while |out'| < size && bits' > 0
      invariant bits' < 8 && |out'| == (if bits' > 0 then n - 1 else n)
      invariant |out'| != |out| ==> |out'| == n && |out| < size
      invariant out' + LowBytes(buf', n - |out'|) == goal
    {
      out' := out' + [buf' % 256];
      buf' := buf' / 256;
      bits' := bits' - 8;
    }
  }

  /** The decoder's main loop over the chars after the header. */
  method Unpack(chars: seq<Rune>) returns (out: seq<Byte>, buf: nat, bits: int, valid: bool)
    requires |chars| >= 2
    ensures valid <==> forall k :: 2 <= k < |chars| ==> chars[k] < CHAR
    ensures valid ==> 0 <= bits < 8 && 8 * |out| + bits == 15 * (|chars| - 2)
    ensures
      var n := BytesIn(|chars| - 2);
      valid ==> BytesOwed(out, buf, bits, 0, n, LowBytes(CharValue(chars[2..]), n))
  {
    ghost var n := BytesIn(|chars| - 2);
    ghost var goal := LowBytes(CharValue(chars[2..]), n);
    out, buf, bits, valid := [], 0, 0, true;
    for j := 2 to |chars|
      invariant valid && 0 <= bits < 8 && 8 * |out| + bits == 15 * (j - 2)
      invariant forall k :: 2 <= k < j ==> chars[k] < CHAR
      invariant BytesOwed(out, buf, bits, CharValue(chars[j..]), n, goal)
    {
      if chars[j] > 0x7FFF { return [], 0, 0, false; }
      assert chars[j..][1..] == chars[j + 1..];
      buf, bits, out := PutChar(chars[j], buf, bits, out, chars[j..], n, goal);
    }
  }

  method Decode(chars: seq<Rune>) returns (r: Result<seq<Byte>, Error>)
    ensures r == Unpacked(chars)
  {
    if |chars| < 2 { return Err(TooShort); }
    var size := Or(chars[0], Shl(chars[1], 15));
    if size < 0 || size > |chars| * 2 { return Err(SizeExceedsInput); }
    var out, buf, bits, valid := Unpack(chars);
    if !valid { return Err(InvalidChar); }
    ghost var n := BytesIn(|chars| - 2);
    ghost var goal := LowBytes(CharValue(chars[2..]), n);
    out := Drain(size, buf, bits, out, n, goal);
    if |out| < size { return Err(ShorterThanDeclared); }
    assert out[..size] == goal[..size];
    LowBytesPrefix(CharValue(chars[2..]), n, size);
    r := Ok(out[..size]);
  }

  // ----------------------------------------------------------------- theorems

  lemma {:induction false} BytesOfValue(s: seq<Byte>, n: nat)
    requires n <= |s|
    ensures LowBytes(ByteValue(s), n) == s[..n]
  {
    if n != 0 {
      BytesOfValue(s[1..], n - 1);
      assert s[..n] == [s[0]] + s[1..][..n - 1];
    }
  }

  lemma {:induction false} ByteValueBound(s: seq<Byte>)
    ensures ByteValue(s) < Shl(1, 8 * |s|)
  {
    if s != [] {
      ByteValueBound(s[1..]);
      ShlShl(1, 8 * |s[1..]|, 8);
      Shl8(Shl(1, 8 * |s[1..]|));
    }
  }

  lemma {:induction false} CharsKeepValue(v: nat, n: nat)
    requires v < Shl(1, 15 * n)
    ensures CharValue(LowChars(v, n)) == v
  {
    if n != 0 {
      ShlShl(1, 15 * (n - 1), 15);
      Shl15(Shl(1, 15 * (n - 1)));
      CharsKeepValue(v / CHAR, n - 1);
    }
  }

  lemma PayloadKeepsValue(data: seq<Byte>)
    ensures CharValue(LowChars(ByteValue(data), CharsFor(|data|))) == ByteValue(data)
  {
    ByteValueBound(data);
    ShlGrows(1, 8 * |data|, 15 * CharsFor(|data|));
    CharsKeepValue(ByteValue(data), CharsFor(|data|));
  }

  lemma ThirtyBits(n: nat)
    ensures n % CHAR + n / CHAR % CHAR * CHAR == n % (CHAR * CHAR)
  {
    assert n / CHAR / CHAR == n / (CHAR * CHAR);
  }

  lemma HeaderHoldsSize(data: seq<Byte>)
    ensures DeclaredSize(Packed(data)) == |data| % (CHAR * CHAR)
  {
    var lo, hi := |data| % CHAR, |data| / CHAR % CHAR;
    Shl15(1);
    Shl15(hi);
    OrIsPlus(lo, hi, 15);
    ThirtyBits(|data|);
    assert Packed(data)[0] == lo && Packed(data)[1] == hi;
  }

  /** A genuine `d` string decodes to the bytes that were packed. The two length
      chars hold 30 bits, so of longer data only the first |data| mod 2^30 bytes
      come back. The size guard and the other error branches reject none of them. */
  lemma RoundTrip(data: seq<Byte>)
    ensures Unpacked(Packed(data)) == Ok(data[..|data| % (CHAR * CHAR)])
    ensures Unpacked(Packed(data)) == Ok(data) <==> |data| < CHAR * CHAR
  {
    UnpackedIsPrefix(data);
    WholeIffShort(data);
  }

  lemma WholeIffShort(data: seq<Byte>)
    ensures data[..|data| % (CHAR * CHAR)] == data <==> |data| < CHAR * CHAR
  {
    if |data| < CHAR * CHAR {
      assert data[..|data|] == data;
    }
  }

  lemma UnpackedIsPrefix(data: seq<Byte>)
    ensures Unpacked(Packed(data)) == Ok(data[..|data| % (CHAR * CHAR)])
  {
    var n, v := |data|, ByteValue(data);
    var chars := Packed(data);
    var body := LowChars(v, CharsFor(n));
    assert chars[2..] == body;
    forall k | 2 <= k < |chars| ensures chars[k] < CHAR { assert chars[k] == body[k - 2]; }
    HeaderHoldsSize(data);
    PayloadKeepsValue(data);
    BytesOfValue(data, n % (CHAR * CHAR));
    assert n % (CHAR * CHAR) <= BytesIn(CharsFor(n));
  }

  /** Packing loses nothing but the length above 2^30: two strings of bytes that
      short with the same `d` are the same. */
  lemma PackingIsInjective(a: seq<Byte>, b: seq<Byte>)
    requires |a| < CHAR * CHAR && |b| < CHAR * CHAR && Packed(a) == Packed(b)
    ensures a == b
  {
    RoundTrip(a);
    RoundTrip(b);
  }

  /** The size guard: it refuses nothing that would unpack without it, and what
      unpacks is at most two bytes per char, exactly the declared number, so a small
      input cannot ask for a large buffer. */
  lemma NoInflation(chars: seq<Rune>)
    ensures
      Unpacked(chars).Ok?
      <==> |chars| >= 2 && DeclaredSize(chars) <= BytesIn(|chars| - 2)
           && forall k :: 2 <= k < |chars| ==> chars[k] < CHAR
    ensures
      Unpacked(chars).Ok? ==>
        |Unpacked(chars).value| == DeclaredSize(chars) <= BytesIn(|chars| - 2) <= 2 * |chars|
  {
  }
}
