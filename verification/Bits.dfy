/** Machine integers, bit operations on naturals and little-endian byte strings. */
module Bits {

  type u8 = x: int | 0 <= x < 0x100
  type u16 = x: int | 0 <= x < 0x1_0000
  type u32 = x: int | 0 <= x < 0x1_0000_0000
  type i32 = x: int | -0x8000_0000 <= x < 0x8000_0000

  /** Two's complement reduction of an integer to 32 bits. */
  function Wrap32(x: int): i32 {
    var m := x % 0x1_0000_0000;
    if m >= 0x8000_0000 then m - 0x1_0000_0000 else m
  }

  function ToU32(x: i32): u32 {
    if x < 0 then x + 0x1_0000_0000 else x
  }

  function ToI32(x: u32): i32 {
    if x >= 0x8000_0000 then x - 0x1_0000_0000 else x
  }

  function Abs(x: int): nat {
    if x < 0 then -x else x
  }

  /** Division and remainder that truncate toward zero, as in Rust and C. */
  function TruncDiv(a: int, b: int): int
    requires b != 0
  {
    if (a >= 0) == (b > 0) then Abs(a) / Abs(b) else -(Abs(a) / Abs(b))
  }

  function TruncMod(a: int, b: int): int
    requires b != 0
  {
    if a >= 0 then Abs(a) % Abs(b) else -(Abs(a) % Abs(b))
  }

  function Pow2(n: nat): (r: nat)
    ensures r > 0
  {
    if n == 0 then 1 else 2 * Pow2(n - 1)
  }

  lemma PowZero()
    ensures Pow2(0) == 1
  {
  }

  lemma PowStep(n: nat)
    ensures Pow2(n + 1) == 2 * Pow2(n)
  {
  }

  lemma MulTwice(x: int, p: int)
    ensures 2 * (x * p) == x * (2 * p)
  {
  }

  lemma Pow2At32()
    ensures Pow2(32) == 0x1_0000_0000
  {
    Pow2Add(16, 16);
    Pow2Add(8, 8);
    assert Pow2(8) == 256;
  }

  lemma {:induction false} Pow2Add(a: nat, b: nat)
    ensures Pow2(a + b) == Pow2(a) * Pow2(b)
  {
    if a > 0 {
      Pow2Add(a - 1, b);
      assert Pow2(a + b) == 2 * Pow2(a - 1 + b);
      assert 2 * (Pow2(a - 1) * Pow2(b)) == (2 * Pow2(a - 1)) * Pow2(b);
    }
  }

  lemma {:induction false} Pow2Monotone(a: nat, b: nat)
    requires a <= b
    ensures Pow2(a) <= Pow2(b)
  {
    if a < b {
      Pow2Monotone(a, b - 1);
    }
  }

  /** Bitwise operators, one bit at a time. */
  function And(a: nat, b: nat): nat {
    if a == 0 || b == 0 then 0 else (a % 2) * (b % 2) + 2 * And(a / 2, b / 2)
  }

  function Or(a: nat, b: nat): nat {
    if a == 0 then b else if b == 0 then a
    else (if a % 2 == 1 || b % 2 == 1 then 1 else 0) + 2 * Or(a / 2, b / 2)
  }

  function Xor(a: nat, b: nat): nat {
    if a == 0 then b else if b == 0 then a
    else (if a % 2 != b % 2 then 1 else 0) + 2 * Xor(a / 2, b / 2)
  }

  lemma {:induction false} BitBounds(a: nat, b: nat, k: nat)
    requires a < Pow2(k) && b < Pow2(k)
    ensures And(a, b) < Pow2(k) && Or(a, b) < Pow2(k) && Xor(a, b) < Pow2(k)
  {
    if k > 0 && a > 0 && b > 0 {
      BitBounds(a / 2, b / 2, k - 1);
      assert (a % 2) * (b % 2) <= 1;
    }
  }

  /** Masking with 2^n - 1 keeps the n low bits. */
  lemma {:induction false} AndMask(a: nat, n: nat)
    ensures And(a, Pow2(n) - 1) == a % Pow2(n)
  {
    var m := Pow2(n) - 1;
    if n == 0 {
    } else if a == 0 {
      DivModUnique(0, Pow2(n), 0, 0);
    } else {
      AndMask(a / 2, n - 1);
      ModPow2Step(a, n);
      assert m % 2 == 1 && m / 2 == Pow2(n - 1) - 1;
      assert And(a, m) == (a % 2) * (m % 2) + 2 * And(a / 2, m / 2);
    }
  }

  lemma ModPow2Step(a: nat, n: nat)
    requires n > 0
    ensures a % Pow2(n) == a % 2 + 2 * ((a / 2) % Pow2(n - 1))
  {
    var p := Pow2(n - 1);
    var q, r := (a / 2) / p, (a / 2) % p;
    assert a == 2 * (a / 2) + a % 2;
    assert a / 2 == p * q + r;
    assert a == (2 * p) * q + (2 * r + a % 2) by {
      assert 2 * (p * q) == (2 * p) * q;
    }
    DivModUnique(a, 2 * p, q, 2 * r + a % 2);
  }

  lemma DivModUnique(a: int, d: int, q: int, r: int)
    requires d > 0 && a == d * q + r && 0 <= r < d
    ensures a / d == q && a % d == r
  {
    var q', r' := a / d, a % d;
    assert a == d * q' + r';
    assert d * (q' - q) == d * q' - d * q;
    assert d * (q - q') == d * q - d * q';
    if q' > q {
      MulAtLeast(d, q' - q);
    } else if q' < q {
      MulAtLeast(d, q - q');
    }
  }

  lemma MulAtLeast(d: int, k: int)
    requires d > 0 && k >= 1
    ensures d * k >= d
  {
    assert d * k == d + d * (k - 1);
    assert d * (k - 1) >= 0;
  }

  /** Bits below position n joined with bits from position n upward do not carry. */
  lemma {:induction false} OrDisjoint(a: nat, b: nat, n: nat)
    requires a < Pow2(n)
    ensures Or(a, b * Pow2(n)) == a + b * Pow2(n)
  {
    hide Or;
    if a == 0 || b == 0 {
      OrNone(a, b * Pow2(n));
    } else if n > 0 {
      var p := Pow2(n - 1);
      OrDisjoint(a / 2, b, n - 1);
      MulAtLeast(b, p);
      DoubleRight(b, p);
      OrEven(a, b * p);
    }
  }

  lemma OrNone(a: nat, b: nat)
    requires a == 0 || b == 0
    ensures Or(a, b) == a + b
  {
  }

  lemma DoubleRight(a: nat, p: nat)
    ensures a * (2 * p) == 2 * (a * p)
  {
  }

  /** Or with an even number keeps the last bit. */
  lemma OrEven(a: nat, h: nat)
    requires a > 0 && h > 0
    ensures Or(a, 2 * h) == a % 2 + 2 * Or(a / 2, h)
  {
    assert 2 * h % 2 == 0 && 2 * h / 2 == h;
  }

  /** Little-endian bytes. */
  function Le16(x: int): (r: seq<u8>)
    ensures |r| == 2
  {
    [x % 0x100, x / 0x100 % 0x100]
  }

  function FromLe16(b0: u8, b1: u8): u16 {
    b0 + 0x100 * b1
  }

  lemma Le16RoundTrip(x: u16)
    ensures FromLe16(Le16(x)[0], Le16(x)[1]) == x
  {
  }

  function Le32(x: int): (r: seq<u8>)
    ensures |r| == 4
  {
    [x % 0x100, x / 0x100 % 0x100, x / 0x100 / 0x100 % 0x100, x / 0x100 / 0x100 / 0x100 % 0x100]
  }

  function FromLe32(b0: u8, b1: u8, b2: u8, b3: u8): u32 {
    b0 + 0x100 * b1 + 0x1_0000 * b2 + 0x100_0000 * b3
  }

  /** Reading the bytes of any integer back gives it modulo 2^32: two's complement for negative ones. */
  lemma Le32RoundTrip(x: int)
    ensures FromLe32(Le32(x)[0], Le32(x)[1], Le32(x)[2], Le32(x)[3]) == x % 0x1_0000_0000
  {
    var y := x / 0x100;
    var z := y / 0x100;
    var w := z / 0x100;
    var r := x % 0x100 + 0x100 * (y % 0x100) + 0x1_0000 * (z % 0x100) + 0x100_0000 * (w % 0x100);
    DivModUnique(x, 0x1_0000_0000, w / 0x100, r);
  }
}
