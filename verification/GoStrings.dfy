/** What a Go string, which is any sequence of bytes, loses when appendNBTString of
    internal/proto/nbt.go ranges over it. */
module GoStrings {
  import opened Prelude
  import opened Bits
  import opened Codec
  import opened Mutf8
  import opened Nbt

  /** The code point at the head: U+FFFD for a byte that is not well-formed UTF-8. */
  function RuneAt(s: seq<Byte>): Rune
    requires s != []
  {
    var k, a: int := RuneLen(s), s[0];
    if k == 0 then 0xFFFD
    else if k == 1 then a
    else
      var b: int := s[1];
      if k == 2 then (a - 0xC0) * 64 + (b - 0x80)
      else
        var c: int := s[2];
        if k == 3 then (a - 0xE0) * 4096 + (b - 0x80) * 64 + (c - 0x80)
        else
          var d: int := s[3];
          (a - 0xF0) * 0x4_0000 + (b - 0x80) * 4096 + (c - 0x80) * 64 + (d - 0x80)
  }

  /** The bytes that `range` takes for one code point. */
  function Width(s: seq<Byte>): (k: nat)
    requires s != []
    ensures 0 < k <= |s|
  {
    if RuneLen(s) == 0 then 1 else RuneLen(s)
  }

  /** The code points that `range` gives. */
  function Ranged(s: seq<Byte>): seq<Rune> {
    if s == [] then [] else [RuneAt(s)] + Ranged(s[Width(s)..])
  }

  /** The string with every such byte replaced by U+FFFD. */
  function Repaired(s: seq<Byte>): seq<Byte> {
    if s == [] then []
    else (if RuneLen(s) == 0 then [0xEF, 0xBF, 0xBD] else s[..Width(s)]) + Repaired(s[Width(s)..])
  }

  function Utf8Of(c: Rune): seq<Byte> {
    if c < 0x80 then [c]
    else if c < 0x800 then [0xC0 + c / 64, 0x80 + c % 64]
    else if c < 0x1_0000 then [0xE0 + c / 4096, 0x80 + c / 64 % 64, 0x80 + c % 64]
    else [0xF0 + c / 0x4_0000, 0x80 + c / 4096 % 64, 0x80 + c / 64 % 64, 0x80 + c % 64]
  }

  function Utf8(s: seq<Rune>): seq<Byte> {
    if s == [] then [] else Utf8Of(s[0]) + Utf8(s[1..])
  }

  lemma LastField(a: nat, b: nat)
    requires b < 64
    ensures (a * 64 + b) / 64 == a && (a * 64 + b) % 64 == b
  {
  }

  lemma FourFields(a: nat, b: nat, c: nat, d: nat)
    requires b < 64 && c < 64 && d < 64
    ensures
      var n := a * 0x4_0000 + b * 4096 + c * 64 + d;
      n / 0x4_0000 == a && n / 4096 % 64 == b && n / 64 % 64 == c && n % 64 == d
      && n / 4096 == a * 64 + b && n / 64 == a * 4096 + b * 64 + c
  {
    var n, m, p := a * 0x4_0000 + b * 4096 + c * 64 + d, a * 4096 + b * 64 + c, a * 64 + b;
    LastField(m, d);
    LastField(p, c);
    LastField(a, b);
    assert n / 64 == m && m / 64 == p && p / 64 == a;
    assert n / 4096 == n / 64 / 64 && n / 0x4_0000 == n / 64 / 64 / 64;
  }

  lemma HeadOfThree(s: seq<Byte>)
    requires s != [] && RuneLen(s) == 3
    ensures !Surrogate(RuneAt(s)) && Utf8Of(RuneAt(s)) == s[..3]
  {
    var a: int, b: int, c: int := s[0], s[1], s[2];
    FourFields(0, a - 0xE0, b - 0x80, c - 0x80);
  }

  lemma HeadOfFour(s: seq<Byte>)
    requires s != [] && RuneLen(s) == 4
    ensures !Surrogate(RuneAt(s)) && Utf8Of(RuneAt(s)) == s[..4]
  {
    var a: int, b: int, c: int, d: int := s[0], s[1], s[2], s[3];
    FourFields(a - 0xF0, b - 0x80, c - 0x80, d - 0x80);
  }

  /** The code point at the head is no surrogate, and its UTF-8 is what it was read
      from, if that was well-formed. */
  lemma HeadIsUtf8(s: seq<Byte>)
    requires s != []
    ensures !Surrogate(RuneAt(s))
    ensures Utf8Of(RuneAt(s)) == if RuneLen(s) == 0 then [0xEF, 0xBF, 0xBD] else s[..Width(s)]
  {
    var k := RuneLen(s);
    if k == 2 {
      var a: int, b: int := s[0], s[1];
      LastField(a - 0xC0, b - 0x80);
    } else if k == 3 {
      HeadOfThree(s);
    } else if k == 4 {
      HeadOfFour(s);
    }
  }

  lemma {:induction false} RangedIsRepaired(s: seq<Byte>)
    ensures Scalar(Ranged(s)) && Utf8(Ranged(s)) == Repaired(s)
  {
    if s != [] {
      HeadIsUtf8(s);
      RangedIsRepaired(s[Width(s)..]);
      assert Ranged(s)[1..] == Ranged(s[Width(s)..]);
    }
  }

  /** Well-formed strings, and no others, need no repair. */
  lemma {:induction false} WellFormedIsKept(s: seq<Byte>)
    ensures Repaired(s) == s <==> Runes(s).Some?
    ensures |Repaired(s)| >= |s|
  {
    if s != [] {
      var rest := s[Width(s)..];
      WellFormedIsKept(rest);
      assert s[..Width(s)] + rest == s;
      assert RuneLen(s) != 0 ==> Repaired(s)[Width(s)..] == Repaired(rest);
    }
  }

  /** The gateway writes two strings that fit alike exactly when they are the same up
      to bytes that are not well-formed; well-formed ones exactly when they are the
      same. */
  lemma GoStringsAreInjective(s: seq<Byte>, t: seq<Byte>)
    requires |Encoded(Utf16(Ranged(s)))| <= MAX_STRING && |Encoded(Utf16(Ranged(t)))| <= MAX_STRING
    ensures StringBytes(Ranged(s)) == StringBytes(Ranged(t)) <==> Repaired(s) == Repaired(t)
    ensures Runes(s).Some? && Runes(t).Some? ==> (StringBytes(Ranged(s)) == StringBytes(Ranged(t)) <==> s == t)
  {
    RangedIsRepaired(s);
    RangedIsRepaired(t);
    WellFormedIsKept(s);
    WellFormedIsKept(t);
    var a, b := Ranged(s), Ranged(t);
    assert StringBytes(a)[2..] == Encoded(Utf16(a)) && StringBytes(b)[2..] == Encoded(Utf16(b));
    EncodingIsInjective(a, b);
    if Utf8(a) == Utf8(b) { Utf8Injective(a, b); }
  }

  lemma {:induction false} Utf8Injective(a: seq<Rune>, b: seq<Rune>)
    requires Scalar(a) && Scalar(b) && Utf8(a) == Utf8(b)
    ensures a == b
    decreases |a|
  {
    if a != [] && b != [] {
      Utf8Head(a[0], Utf8(a[1..]));
      Utf8Head(b[0], Utf8(b[1..]));
      assert Utf8(a[1..]) == Utf8(a)[|Utf8Of(a[0])|..] && Utf8(b[1..]) == Utf8(b)[|Utf8Of(b[0])|..];
      Utf8Injective(a[1..], b[1..]);
      assert a == [a[0]] + a[1..] && b == [b[0]] + b[1..];
    }
  }

  lemma Utf8Head(c: Rune, rest: seq<Byte>)
    requires !Surrogate(c)
    ensures var s := Utf8Of(c) + rest; RuneLen(s) == |Utf8Of(c)| && RuneAt(s) == c
  {
    var n: int := c;
    assert n / 64 * 64 + n % 64 == n && n / 64 / 64 == n / 4096 && n / 4096 / 64 == n / 0x4_0000;
  }

  /** The exception occurs: two bytes that start no code point are written alike. */
  lemma BadBytesCollide()
    ensures [0xFF] != [0xFE] && StringBytes(Ranged([0xFF])) == StringBytes(Ranged([0xFE]))
  {
    var s: seq<Byte>, t: seq<Byte> := [0xFF], [0xFE];
    assert s[1..] == [] && t[1..] == [];
    assert Ranged(s) == [0xFFFD] == Ranged(t);
  }

  /** What modified UTF-8 modifies: NUL, which it writes in two bytes, and the code
      points from U+10000 on, which it writes in six. */
  lemma ModifiedRune(c: Rune)
    requires !Surrogate(c)
    ensures 0 < c < 0x1_0000 ==> Encoded(Utf16Of(c)) == Utf8Of(c)
    ensures c == 0 ==> Encoded(Utf16Of(c)) == [0xC0, 0x80]
    ensures c >= 0x1_0000 ==> |Encoded(Utf16Of(c))| == 6
  {
    OneRune(c);
    var n: int := c;
    if 0x800 <= c < 0x1_0000 { assert n / 4096 < 16; }
  }

  /** A text is written as plain UTF-8 if and only if it has none of these. */
  lemma {:induction false} ModifiedExactly(s: seq<Rune>)
    requires Scalar(s)
    ensures |Encoded(Utf16(s))| >= |Utf8(s)|
    ensures Encoded(Utf16(s)) == Utf8(s) <==> forall k :: 0 <= k < |s| ==> 0 < s[k] < 0x1_0000
  {
    if s != [] {
      ModifiedExactly(s[1..]);
      ModifiedRune(s[0]);
      OneMoreRune(s);
      var a, b := Encoded(Utf16Of(s[0])), Utf8Of(s[0]);
      var x, y := Encoded(Utf16(s[1..])), Utf8(s[1..]);
      assert |a| >= |b| && (a == b <==> 0 < s[0] < 0x1_0000) && (a != b ==> |a| > |b|);
      if a == b && x == y {
        forall k | 0 <= k < |s| ensures 0 < s[k] < 0x1_0000 {
          if k > 0 { assert s[k] == s[1..][k - 1]; }
        }
      } else if a == b {
        SameHead(a, x, y);
        var k :| 0 <= k < |s[1..]| && !(0 < s[1..][k] < 0x1_0000);
        assert s[k + 1] == s[1..][k];
      } else {
        assert |a + x| > |b + y|;
      }
    }
  }

  lemma SameHead(a: seq<Byte>, x: seq<Byte>, y: seq<Byte>)
    ensures a + x == a + y <==> x == y
  {
    if a + x == a + y { assert x == (a + x)[|a|..] == (a + y)[|a|..] == y; }
  }
}
