/** Bytes, and the `|` and `<<` of Go written out on numbers. */
module Bits {

  type Byte = x: int | 0 <= x < 256

  /** `<<` without a width. */
  function Shl(x: nat, n: nat): nat {
    if n == 0 then x else 2 * Shl(x, n - 1)
  }

  /** `<<` on uint32: bits past the width are lost. */
  function Shl32(x: nat, n: nat): nat {
    Shl(x, n) % 0x1_0000_0000
  }

  /** The bitwise or. */
  function Or(a: nat, b: nat): nat {
    if a == 0 && b == 0 then 0
    else (if a % 2 == 1 || b % 2 == 1 then 1 else 0) + 2 * Or(a / 2, b / 2)
  }

  lemma Shl32Fits(x: nat, n: nat)
    requires Shl(x, n) < 0x1_0000_0000
    ensures Shl32(x, n) == Shl(x, n)
  {
  }

  lemma {:induction false} OrZero(b: nat)
    ensures Or(0, b) == b
  {
    if b != 0 { OrZero(b / 2); }
  }

  /** `|` puts a number above bits that are free without a carry. */
  lemma {:induction false} OrIsPlus(a: nat, b: nat, n: nat)
    requires a < Shl(1, n)
    ensures Or(a, Shl(b, n)) == a + Shl(b, n)
  {
    if n == 0 {
      OrZero(b);
    } else {
      OrIsPlus(a / 2, b, n - 1);
    }
  }

  lemma {:induction false} ShlZero(n: nat)
    ensures Shl(0, n) == 0
  {
    if n != 0 { ShlZero(n - 1); }
  }

  lemma {:induction false} ShlPlus(a: nat, b: nat, n: nat)
    ensures Shl(a + b, n) == Shl(a, n) + Shl(b, n)
  {
    if n != 0 { ShlPlus(a, b, n - 1); }
  }

  lemma {:induction false} ShlShl(x: nat, m: nat, n: nat)
    ensures Shl(Shl(x, m), n) == Shl(x, m + n)
  {
    if n != 0 { ShlShl(x, m, n - 1); }
  }

  lemma {:induction false} ShlMonotone(a: nat, b: nat, n: nat)
    requires a <= b
    ensures Shl(a, n) <= Shl(b, n)
  {
    if n != 0 { ShlMonotone(a, b, n - 1); }
  }

  lemma {:induction false} ShlGrows(x: nat, m: nat, n: nat)
    requires m <= n
    ensures Shl(x, m) <= Shl(x, n)
  {
    if m < n { ShlGrows(x, m, n - 1); }
  }

  lemma Shl7(x: nat)
    ensures Shl(x, 7) == 128 * x
  {
    assert Shl(x, 1) == 2 * x;
    assert Shl(x, 2) == 4 * x;
    assert Shl(x, 3) == 8 * x;
    assert Shl(x, 4) == 16 * x;
    assert Shl(x, 5) == 32 * x;
    assert Shl(x, 6) == 64 * x;
  }

  lemma Shl8(x: nat)
    ensures Shl(x, 8) == 256 * x
  {
    Shl7(x);
  }

  lemma Shl14(x: nat)
    ensures Shl(x, 14) == 0x4000 * x
  {
    Shl7(x);
    Shl7(128 * x);
    ShlShl(x, 7, 7);
  }

  lemma Shl15(x: nat)
    ensures Shl(x, 15) == 0x8000 * x
  {
    Shl14(x);
  }

  lemma Shl22(x: nat)
    ensures Shl(x, 22) == 0x40_0000 * x
  {
    Shl15(x);
    Shl7(0x8000 * x);
    ShlShl(x, 15, 7);
  }

  // -------------------------------------------------------- big-endian numbers

  function U16(n: int): (s: seq<Byte>)
    ensures |s| == 2
  {
    [n / 0x100 % 0x100, n % 0x100]
  }

  /** The low 32 bits of a number, most significant byte first. */
  function U32(n: int): (s: seq<Byte>)
    ensures |s| == 4
  {
    U16(n / 0x1_0000) + U16(n)
  }

  function U64(n: int): (s: seq<Byte>)
    ensures |s| == 8
  {
    U32(n / 0x1_0000_0000) + U32(n)
  }

  function Read16(s: seq<Byte>): (n: nat)
    requires |s| == 2
    ensures n < 0x1_0000
  {
    (s[0] as int) * 0x100 + s[1]
  }

  function Read32(s: seq<Byte>): (n: nat)
    requires |s| == 4
    ensures n < 0x1_0000_0000
  {
    Read16(s[..2]) * 0x1_0000 + Read16(s[2..])
  }

  function Read64(s: seq<Byte>): (n: nat)
    requires |s| == 8
    ensures n < 0x1_0000_0000_0000_0000
  {
    Read32(s[..4]) * 0x1_0000_0000 + Read32(s[4..])
  }

  lemma Read16Of(n: int)
    ensures Read16(U16(n)) == n % 0x1_0000
  {
    assert n / 0x100 % 0x100 * 0x100 + n % 0x100 == n % 0x1_0000;
  }

  lemma Read32Of(n: int)
    ensures Read32(U32(n)) == n % 0x1_0000_0000
  {
    assert U32(n)[..2] == U16(n / 0x1_0000) && U32(n)[2..] == U16(n);
    Read16Of(n / 0x1_0000);
    Read16Of(n);
    Halves32(n);
  }

  lemma Halves32(n: int)
    ensures n / 0x1_0000 % 0x1_0000 * 0x1_0000 + n % 0x1_0000 == n % 0x1_0000_0000
  {
    var hi, lo := n / 0x1_0000, n % 0x1_0000;
    var k, h := hi / 0x1_0000, hi % 0x1_0000;
    Mod32(n, k, h * 0x1_0000 + lo);
  }

  lemma Mod32(n: int, k: int, w: nat)
    requires n == 0x1_0000_0000 * k + w && w < 0x1_0000_0000
    ensures n % 0x1_0000_0000 == w
  {
  }

  lemma Read64Of(n: int)
    ensures Read64(U64(n)) == n % 0x1_0000_0000_0000_0000
  {
    assert U64(n)[..4] == U32(n / 0x1_0000_0000) && U64(n)[4..] == U32(n);
    Read32Of(n / 0x1_0000_0000);
    Read32Of(n);
    Halves64(n);
  }

  lemma Halves64(n: int)
    ensures n / 0x1_0000_0000 % 0x1_0000_0000 * 0x1_0000_0000 + n % 0x1_0000_0000 == n % 0x1_0000_0000_0000_0000
  {
    var hi, lo := n / 0x1_0000_0000, n % 0x1_0000_0000;
    var k, h := hi / 0x1_0000_0000, hi % 0x1_0000_0000;
    Mod64(n, k, h * 0x1_0000_0000 + lo);
  }

  lemma Mod64(n: int, k: int, w: nat)
    requires n == 0x1_0000_0000_0000_0000 * k + w && w < 0x1_0000_0000_0000_0000
    ensures n % 0x1_0000_0000_0000_0000 == w
  {
  }
}
