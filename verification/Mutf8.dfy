/** Java's modified UTF-8 as internal/proto/nbt.go and tools/limbogen/gen.py write it. */
module Mutf8 {
  import opened Prelude
  import opened Bits

  /** A code point of a Python string; ranging over a Go string gives no surrogates. */
  type Rune = x: int | 0 <= x < 0x11_0000

  /** A UTF-16 code unit. */
  type Unit = x: int | 0 <= x < 0x1_0000

  predicate Surrogate(c: Rune) { 0xD800 <= c < 0xE000 }

  predicate Scalar(s: seq<Rune>) {
    forall k :: 0 <= k < |s| ==> !Surrogate(s[k])
  }

  // ------------------------------------------------- the reference definition

  function Utf16Of(c: Rune): seq<Unit> {
    if c < 0x1_0000 then [c]
    else [0xD800 + (c - 0x1_0000) / 0x400, 0xDC00 + (c - 0x1_0000) % 0x400]
  }

  function Utf16(s: seq<Rune>): seq<Unit> {
    if s == [] then [] else Utf16Of(s[0]) + Utf16(s[1..])
  }

  /** Modified UTF-8 of a string of UTF-16 units, unit by unit: NUL takes two bytes. */
  function UnitBytes(u: Unit): seq<Byte> {
    if 0 < u < 0x80 then [u]
    else if u < 0x800 then [0xC0 + u / 64, 0x80 + u % 64]
    else [0xE0 + u / 4096, 0x80 + u / 64 % 64, 0x80 + u % 64]
  }

  function Encoded(units: seq<Unit>): seq<Byte> {
    if units == [] then [] else UnitBytes(units[0]) + Encoded(units[1..])
  }

  /** The length that the first byte announces; 0 if none can start with it. */
  function UnitLen(first: Byte): nat {
    if first == 0 then 0
    else if first < 0x80 then 1
    else if 0xC0 <= first < 0xE0 then 2
    else if 0xE0 <= first < 0xF0 then 3
    else 0
  }

  function UnitOf(b: seq<Byte>): Unit
    requires b != [] && 0 < UnitLen(b[0]) <= |b|
  {
    var first: int := b[0];
    if UnitLen(b[0]) == 1 then first
    else
      var second: int := b[1];
      if UnitLen(b[0]) == 2 then (first - 0xC0) * 64 + second % 64
      else
        var third: int := b[2];
        (first - 0xE0) * 4096 + second % 64 * 64 + third % 64
  }

  /** A reader of modified UTF-8. */
  function Units(b: seq<Byte>): Option<seq<Unit>> {
    if b == [] then Some([])
    else
      var k := UnitLen(b[0]);
      if k == 0 || |b| < k then None
      else
        var more := Units(b[k..]);
        if more.None? then None else Some([UnitOf(b)] + more.value)
  }

  // ------------------------------------------------------------- the encoders

  /** The three bytes that both encoders write for a unit of at least 0x800. */
  function ThreeBytes(u: Unit): (s: seq<Byte>)
    requires u >= 0x800
    ensures s == UnitBytes(u)
  {
    OrFields(u);
    [Or(0xE0, u / 4096), Or(0x80, u / 64 % 64), Or(0x80, u % 64)]
  }

  method Mutf8(s: seq<Rune>) returns (out: seq<Byte>)
    ensures out == Encoded(Utf16(s))
  {
    out := [];
    for k := 0 to |s|
      invariant out + Encoded(Utf16(s[k..])) == Encoded(Utf16(s))
    {
      OneMoreRune(s[k..]);
      assert s[k..][1..] == s[k + 1..];
      Assoc(out, Encoded(Utf16Of(s[k])), Encoded(Utf16(s[k + 1..])));
      out := AppendRune(out, s[k]);
    }
  }

  /** The body of the loop: one code point. */
  method AppendRune(b: seq<Byte>, c: Rune) returns (out: seq<Byte>)
    ensures out == b + Encoded(Utf16Of(c))
  {
    OneRune(c);
    if 0 < c < 0x80 {
      out := b + [c];
    } else if c < 0x800 {
      OrFields(c);
      out := b + [Or(0xC0, c / 64), Or(0x80, c % 64)];
    } else if c < 0x1_0000 {
      out := b + ThreeBytes(c);
    } else {
      var r := c - 0x1_0000;
      out := b + ThreeBytes(0xD800 + r / 0x400);
      out := out + ThreeBytes(0xDC00 + r % 0x400);
    }
  }

  lemma {:induction false} OrCommutes(a: nat, b: nat)
    ensures Or(a, b) == Or(b, a)
  {
    if a != 0 || b != 0 { OrCommutes(a / 2, b / 2); }
  }

  /** The marker bits of a byte are free in what is or-ed to them. */
  lemma OrMarker(marker: nat, low: nat, n: nat)
    requires low < Shl(1, n)
    ensures Or(Shl(marker, n), low) == Shl(marker, n) + low
  {
    OrCommutes(Shl(marker, n), low);
    OrIsPlus(low, marker, n);
  }

  lemma OrFields(u: nat)
    requires u < 0x1_0000
    ensures Or(0x80, u % 64) == 0x80 + u % 64 && Or(0x80, u / 64 % 64) == 0x80 + u / 64 % 64
    ensures u < 0x800 ==> Or(0xC0, u / 64) == 0xC0 + u / 64
    ensures Or(0xE0, u / 4096) == 0xE0 + u / 4096
  {
    Shl6(1);
    Shl6(2);
    Shl6(3);
    assert Shl(1, 5) == 32 && Shl(7, 5) == 0xE0;
    OrMarker(2, u % 64, 6);
    OrMarker(2, u / 64 % 64, 6);
    if u < 0x800 { OrMarker(3, u / 64, 6); }
    OrMarker(7, u / 4096, 5);
  }

  lemma Shl6(x: nat)
    ensures Shl(x, 6) == 64 * x
  {
    Shl7(x);
  }

  lemma {:induction false} EncodedAppend(a: seq<Unit>, b: seq<Unit>)
    ensures Encoded(a + b) == Encoded(a) + Encoded(b)
  {
    if a == [] {
      assert a + b == b;
    } else {
      EncodedAppend(a[1..], b);
      assert (a + b)[1..] == a[1..] + b;
      Assoc(UnitBytes(a[0]), Encoded(a[1..]), Encoded(b));
    }
  }

  lemma OneMoreRune(s: seq<Rune>)
    requires s != []
    ensures Encoded(Utf16(s)) == Encoded(Utf16Of(s[0])) + Encoded(Utf16(s[1..]))
  {
    EncodedAppend(Utf16Of(s[0]), Utf16(s[1..]));
  }

  lemma OneRune(c: Rune)
    ensures c < 0x1_0000 ==> Encoded(Utf16Of(c)) == UnitBytes(c)
    ensures c >= 0x1_0000 ==> Encoded(Utf16Of(c)) == UnitBytes(Utf16Of(c)[0]) + UnitBytes(Utf16Of(c)[1])
  {
    var u := Utf16Of(c);
    EncodedOne(u[0]);
    if |u| == 2 {
      EncodedOne(u[1]);
      EncodedAppend([u[0]], [u[1]]);
      assert u == [u[0]] + [u[1]];
    }
  }

  lemma EncodedOne(u: Unit)
    ensures Encoded([u]) == UnitBytes(u)
  {
    assert [u][1..] == [];
  }

  // ----------------------------------------------------------------- theorems

  lemma UnitOfBytes(u: Unit, rest: seq<Byte>)
    ensures var e := UnitBytes(u); UnitLen(e[0]) == |e| && UnitOf(e + rest) == u
  {
    var n: int := u;
    if n >= 0x800 {
      ThreeFields(n);
    }
  }

  lemma ThreeFields(n: nat)
    ensures n / 4096 * 4096 + n / 64 % 64 * 64 + n % 64 == n
  {
    assert n / 64 / 64 == n / 4096;
  }

  lemma UnitReads(u: Unit, rest: seq<Byte>)
    ensures
      Units(UnitBytes(u) + rest) == (if Units(rest).None? then None else Some([u] + Units(rest).value))
  {
    var e := UnitBytes(u);
    assert (e + rest)[|e|..] == rest;
    UnitOfBytes(u, rest);
  }

  /** The encoding is read back to the same UTF-16 units, NUL and lone surrogates
      included. */
  lemma {:induction false} EncodedReads(units: seq<Unit>)
    ensures Units(Encoded(units)) == Some(units)
  {
    if units != [] {
      EncodedReads(units[1..]);
      UnitReads(units[0], Encoded(units[1..]));
      assert [units[0]] + units[1..] == units;
    }
  }

  lemma {:induction false} Utf16Injective(s: seq<Rune>, t: seq<Rune>)
    requires Scalar(s) && Scalar(t) && Utf16(s) == Utf16(t)
    ensures s == t
    decreases |s|
  {
    if s != [] && t != [] {
      var u, v := Utf16Of(s[0]), Utf16Of(t[0]);
      assert u[0] == Utf16(s)[0] == v[0];
      assert |u| == |v|;
      assert u == Utf16(s)[..|u|] && v == Utf16(t)[..|v|];
      assert Utf16(s[1..]) == Utf16(s)[|u|..] && Utf16(t[1..]) == Utf16(t)[|v|..];
      SameRune(s[0], t[0]);
      Utf16Injective(s[1..], t[1..]);
      assert s == [s[0]] + s[1..] && t == [t[0]] + t[1..];
    }
  }

  lemma SameRune(c: Rune, d: Rune)
    requires Utf16Of(c) == Utf16Of(d)
    ensures c == d
  {
    if c >= 0x1_0000 && d >= 0x1_0000 {
      var x, y := c - 0x1_0000, d - 0x1_0000;
      assert Utf16Of(c)[0] == Utf16Of(d)[0] && Utf16Of(c)[1] == Utf16Of(d)[1];
      assert x / 0x400 * 0x400 + x % 0x400 == x && y / 0x400 * 0x400 + y % 0x400 == y;
    } else {
      assert Utf16Of(c)[0] == Utf16Of(d)[0];
    }
  }

  /** Two strings have the same encoding exactly when they are the same UTF-16
      text; for strings without surrogates, as ranging over a Go string gives
      them, exactly when they are the same. A Python string that holds a surrogate pair as two code
      points is encoded like the character they stand for. */
  lemma EncodingIsInjective(s: seq<Rune>, t: seq<Rune>)
    ensures Encoded(Utf16(s)) == Encoded(Utf16(t)) <==> Utf16(s) == Utf16(t)
    ensures Scalar(s) && Scalar(t) ==> (Encoded(Utf16(s)) == Encoded(Utf16(t)) <==> s == t)
  {
    EncodedReads(Utf16(s));
    EncodedReads(Utf16(t));
    if Scalar(s) && Scalar(t) && Utf16(s) == Utf16(t) { Utf16Injective(s, t); }
  }

  /** The condition is needed: these two differ and are encoded alike. */
  lemma SurrogatesCollide()
    ensures
      var pair: seq<Rune>, whole: seq<Rune> := [0xD83D, 0xDE00], [0x1_F600];
      pair != whole && Encoded(Utf16(pair)) == Encoded(Utf16(whole))
  {
    var pair: seq<Rune>, whole: seq<Rune> := [0xD83D, 0xDE00], [0x1_F600];
    assert pair[1..] == [0xDE00] && pair[1..][1..] == [] && whole[1..] == [];
    assert Utf16(pair) == [0xD83D, 0xDE00] == Utf16(whole);
  }
}
