/**
 * What the operators of Helios mean: laws of 32-bit arithmetic, the order of the integers, and two's complement
 * bits, none of which mentions how an operator is computed.
 */
module HeliosValues {
  import opened Bits
  import opened Wrappers
  import opened HeliosAst

  /** Equal modulo 2^32. */
  predicate Congruent(x: int, y: int) {
    (x - y) % 0x1_0000_0000 == 0
  }

  // Arithmetic.

  lemma WrapCongruent(x: int)
    ensures Congruent(Wrap32(x), x)
  {
  }

  /** A value of 32 bits is known from its remainder. */
  lemma CongruentEqual(a: i32, b: i32)
    requires Congruent(a, b)
    ensures a == b
  {
  }

  /** Sums, differences, products and negations are right modulo 2^32, which leaves one value of 32 bits. */
  lemma ArithmeticWraps(a: i32, b: i32)
    ensures BinVal(Add, a, b).Some? && Congruent(BinVal(Add, a, b).value, a + b)
    ensures BinVal(Sub, a, b).Some? && Congruent(BinVal(Sub, a, b).value, a - b)
    ensures BinVal(Mul, a, b).Some? && Congruent(BinVal(Mul, a, b).value, a * b)
    ensures Congruent(UnVal(Neg, a), 0 - a)
  {
    WrapCongruent(a + b);
    WrapCongruent(a - b);
    WrapCongruent(a * b);
    WrapCongruent(0 - a);
  }

  /** The value of an operation that has one. */
  function Val(op: BinOp, a: i32, b: i32): i32
    requires BinVal(op, a, b).Some?
  {
    BinVal(op, a, b).value
  }

  /** Subtraction and addition undo each other, and negation is the difference from zero. */
  lemma SubUndoesAdd(a: i32, b: i32)
    ensures BinVal(Sub, Val(Add, a, b), b) == Some(a)
    ensures BinVal(Add, Val(Sub, a, b), b) == Some(a)
    ensures BinVal(Add, a, UnVal(Neg, b)) == BinVal(Sub, a, b)
    ensures BinVal(Sub, a, 0) == Some(a) && BinVal(Sub, 0, b) == Some(UnVal(Neg, b))
  {
    hide Wrap32;
    WrapSum(a, b, 0 - b);
    WrapSum(a, 0 - b, b);
    WrapSame(a);
    WrapOfSum(0 - b, a);
  }

  lemma WrapSame(a: i32)
    ensures Wrap32(a) == a
  {
  }

  lemma WrapSum(a: int, x: int, y: int)
    requires -0x8000_0000 <= a < 0x8000_0000 && x + y == 0
    ensures Wrap32(Wrap32(a + x) + y) == a
  {
    WrapOfSum(a + x, y);
    assert Wrap32(a) == a;
  }

  /** Multiplication is repeated addition. */
  lemma MulIsRepeatedAdd(a: i32, b: i32)
    ensures BinVal(Mul, a, 0) == Some(0)
    ensures b < 0x7FFF_FFFF ==> BinVal(Mul, a, b + 1) == BinVal(Add, Val(Mul, a, b), a)
  {
    assert a * (b + 1) == a * b + a;
    WrapOfSum(a * b, a);
  }

  lemma WrapOfSum(x: int, y: int)
    ensures Wrap32(Wrap32(x) + y) == Wrap32(x + y)
  {
  }

  /** Division truncates: dividend = divisor times quotient plus a remainder that is smaller than the divisor and
      has the sign of the dividend. Dividing by zero gives zero, and only i32::MIN by -1 has no value. */
  lemma DivisionTruncates(a: i32, b: i32)
    ensures BinVal(Div, a, 0) == Some(0) && BinVal(Mod, a, 0) == Some(0)
    ensures BinVal(Div, a, b).None? <==> a == -0x8000_0000 && b == -1
    ensures BinVal(Mod, a, b).None? <==> a == -0x8000_0000 && b == -1
    ensures b != 0 && !(a == -0x8000_0000 && b == -1) ==>
              var q, r := Val(Div, a, b), Val(Mod, a, b);
              a == q * b + r && Abs(r) < Abs(b) && (r == 0 || (r > 0 <==> a > 0))
  {
    if b != 0 {
      TruncParts(a, b);
    }
  }

  lemma TruncParts(a: int, b: int)
    requires b != 0
    ensures var q, r := TruncDiv(a, b), TruncMod(a, b);
            a == q * b + r && Abs(r) < Abs(b) && (r == 0 || (r > 0 <==> a > 0))
  {
    hide TruncDiv, TruncMod;
    var q, r := TruncQuotient(a, b);
    SignedParts(a, b, q, r);
  }

  lemma TruncQuotient(a: int, b: int) returns (q: int, r: nat)
    requires b != 0
    ensures Abs(a) == Abs(b) * q + r && r < Abs(b)
    ensures TruncDiv(a, b) == if (a >= 0) == (b > 0) then q else -q
    ensures TruncMod(a, b) == if a >= 0 then r else 0 - r
    ensures a == 0 ==> r == 0
  {
    q, r := Abs(a) / Abs(b), Abs(a) % Abs(b);
    assert Abs(b) > 0 && (a == 0 ==> Abs(a) == 0);
    hide Abs;
    DivParts(Abs(a), Abs(b));
  }

  lemma DivParts(m: nat, d: nat)
    requires d > 0
    ensures m == d * (m / d) + m % d && m % d < d && (m == 0 ==> m % d == 0)
  {
    if m == 0 {
      DivModUnique(0, d, 0, 0);
    }
  }

  lemma SignedParts(a: int, b: int, q: int, r: int)
    requires b != 0 && Abs(a) == Abs(b) * q + r
    ensures a == (if (a >= 0) == (b > 0) then q else -q) * b + (if a >= 0 then r else -r)
  {
    assert Abs(b) * q == if b > 0 then q * b else (-q) * b;
  }

  /** Exactly one of `<`, `==` and `>` holds, and `<` is the order of the integers. */
  lemma ComparisonsOrder(a: i32, b: i32)
    ensures forall op :: op in {Eq, Ne, BinOp.Lt, Le, BinOp.Gt, Ge} ==> BinVal(op, a, b) in {Some(0), Some(1)}
    ensures BinVal(BinOp.Lt, a, b) == Some(1) <==> b - a > 0
    ensures BinVal(Eq, a, b) == Some(1) <==> b - a == 0
    ensures BinVal(BinOp.Gt, a, b) == Some(1) <==> b - a < 0
    ensures Val(BinOp.Lt, a, b) + Val(Eq, a, b) + Val(BinOp.Gt, a, b) == 1
    ensures Val(Ne, a, b) == 1 - Val(Eq, a, b)
    ensures Val(Le, a, b) == 1 - Val(BinOp.Gt, a, b)
    ensures Val(Ge, a, b) == 1 - Val(BinOp.Lt, a, b)
  {
  }

  /** Every value but zero counts as true. */
  predicate Truth(a: i32) {
    a != 0
  }

  lemma LogicIsBoolean(a: i32, b: i32)
    ensures BinVal(LAnd, a, b) == Some(1) <==> Truth(a) && Truth(b)
    ensures BinVal(LAnd, a, b) == Some(0) <==> !Truth(a) || !Truth(b)
    ensures BinVal(LOr, a, b) == Some(1) <==> Truth(a) || Truth(b)
    ensures BinVal(LOr, a, b) == Some(0) <==> !Truth(a) && !Truth(b)
    ensures UnVal(Not, a) == 1 <==> !Truth(a)
    ensures UnVal(Not, a) == 0 <==> Truth(a)
    ensures CastVal(ToBool, a) == UnVal(Not, UnVal(Not, a)) && CastVal(ToInt, a) == a
  {
  }

  // Bits.

  /** Bit k of an integer in two's complement: bits are taken off at the low end, and the sign goes on for ever. */
  predicate Bit(x: int, k: nat)
    decreases k
  {
    if k == 0 then x % 2 == 1 else Bit(x / 2, k - 1)
  }

  /** Multiples of 2^n do not reach the bits below n. */
  lemma {:induction false} BitBelow(x: int, m: int, n: nat, k: nat)
    requires k < n
    ensures Bit(x + m * Pow2(n), k) == Bit(x, k)
    decreases k
  {
    var p := Pow2(n - 1);
    assert m * Pow2(n) == 2 * (m * p) by {
      MulTwice(m, p);
    }
    assert (x + 2 * (m * p)) % 2 == x % 2 && (x + 2 * (m * p)) / 2 == x / 2 + m * p;
    if k > 0 {
      BitBelow(x / 2, m, n - 1, k - 1);
    }
  }

  lemma CongruentBits(x: int, y: int, k: nat)
    requires Congruent(x, y) && k < 32
    ensures Bit(x, k) == Bit(y, k)
  {
    var m := (x - y) / 0x1_0000_0000;
    assert x == y + m * 0x1_0000_0000;
    Pow2At32();
    BitBelow(y, m, 32, k);
  }

  lemma {:induction false} BitsDetermine(x: nat, y: nat, n: nat)
    requires x < Pow2(n) && y < Pow2(n)
    requires forall k: nat :: k < n ==> Bit(x, k) == Bit(y, k)
    ensures x == y
  {
    if n > 0 {
      forall k: nat | k < n - 1
        ensures Bit(x / 2, k) == Bit(y / 2, k)
      {
        assert Bit(x, k + 1) == Bit(y, k + 1);
      }
      BitsDetermine(x / 2, y / 2, n - 1);
      assert Bit(x, 0) == Bit(y, 0);
    }
  }

  /** A value of 32 bits is known from its bits. */
  lemma BitsDetermineValue(a: i32, b: i32)
    requires forall k: nat :: k < 32 ==> Bit(a, k) == Bit(b, k)
    ensures a == b
  {
    Pow2At32();
    forall k: nat | k < 32
      ensures Bit(ToU32(a), k) == Bit(ToU32(b), k)
    {
      CongruentBits(ToU32(a), a, k);
      CongruentBits(ToU32(b), b, k);
    }
    BitsDetermine(ToU32(a), ToU32(b), 32);
  }

  lemma {:induction false} ZeroBits(k: nat)
    ensures !Bit(0, k)
  {
    if k > 0 {
      ZeroBits(k - 1);
    }
  }

  lemma {:induction false} AndBits(a: nat, b: nat, k: nat)
    ensures Bit(And(a, b), k) == (Bit(a, k) && Bit(b, k))
    decreases k
  {
    if a == 0 || b == 0 {
      ZeroBits(k);
    } else {
      LowBit((a % 2) * (b % 2), And(a / 2, b / 2));
      if k > 0 {
        AndBits(a / 2, b / 2, k - 1);
      }
    }
  }

  lemma {:induction false} OrBits(a: nat, b: nat, k: nat)
    ensures Bit(Or(a, b), k) == (Bit(a, k) || Bit(b, k))
    decreases k
  {
    if a == 0 || b == 0 {
      ZeroBits(k);
    } else {
      LowBit(if a % 2 == 1 || b % 2 == 1 then 1 else 0, Or(a / 2, b / 2));
      if k > 0 {
        OrBits(a / 2, b / 2, k - 1);
      }
    }
  }

  lemma {:induction false} XorBits(a: nat, b: nat, k: nat)
    ensures Bit(Xor(a, b), k) == (Bit(a, k) != Bit(b, k))
    decreases k
  {
    if a == 0 || b == 0 {
      ZeroBits(k);
    } else {
      LowBit(if a % 2 != b % 2 then 1 else 0, Xor(a / 2, b / 2));
      if k > 0 {
        XorBits(a / 2, b / 2, k - 1);
      }
    }
  }

  lemma LowBit(b: int, x: nat)
    requires b == 0 || b == 1
    ensures (b + 2 * x) % 2 == b && (b + 2 * x) / 2 == x
  {
  }

  /** The bitwise operators act on every bit alone. */
  lemma BitwiseBits(a: i32, b: i32, k: nat)
    requires k < 32
    ensures BinVal(BAnd, a, b).Some? && (Bit(Val(BAnd, a, b), k) <==> Bit(a, k) && Bit(b, k))
    ensures BinVal(BOr, a, b).Some? && (Bit(Val(BOr, a, b), k) <==> Bit(a, k) || Bit(b, k))
    ensures BinVal(BXor, a, b).Some? && (Bit(Val(BXor, a, b), k) <==> Bit(a, k) != Bit(b, k))
    ensures Bit(UnVal(BNot, a), k) <==> !Bit(a, k)
  {
    hide Bit, AndI32, OrI32, XorI32, UnVal;
    AndValue(a, b, k);
    OrValue(a, b, k);
    XorValue(a, b, k);
    NotBits(a, k);
    assert UnVal(BNot, a) == 0 - a - 1 by {
      NotValue(a);
    }
  }

  lemma NotValue(a: i32)
    ensures UnVal(BNot, a) == 0 - a - 1
  {
  }

  lemma AndValue(a: i32, b: i32, k: nat)
    requires k < 32
    ensures Bit(AndI32(a, b), k) <==> Bit(a, k) && Bit(b, k)
  {
    hide Bit, And;
    var u, v := ToU32(a), ToU32(b);
    Pow2At32();
    BitBounds(u, v, 32);
    CongruentBits(u, a, k);
    CongruentBits(v, b, k);
    AndBits(u, v, k);
    CongruentBits(AndI32(a, b), And(u, v), k);
  }

  lemma OrValue(a: i32, b: i32, k: nat)
    requires k < 32
    ensures Bit(OrI32(a, b), k) <==> Bit(a, k) || Bit(b, k)
  {
    hide Bit, Or;
    var u, v := ToU32(a), ToU32(b);
    Pow2At32();
    BitBounds(u, v, 32);
    CongruentBits(u, a, k);
    CongruentBits(v, b, k);
    OrBits(u, v, k);
    CongruentBits(OrI32(a, b), Or(u, v), k);
  }

  lemma XorValue(a: i32, b: i32, k: nat)
    requires k < 32
    ensures Bit(XorI32(a, b), k) <==> Bit(a, k) != Bit(b, k)
  {
    hide Bit, Xor;
    var u, v := ToU32(a), ToU32(b);
    Pow2At32();
    BitBounds(u, v, 32);
    CongruentBits(u, a, k);
    CongruentBits(v, b, k);
    XorBits(u, v, k);
    CongruentBits(XorI32(a, b), Xor(u, v), k);
  }

  lemma {:induction false} NotBits(a: int, k: nat)
    ensures Bit(-a - 1, k) != Bit(a, k)
    decreases k
  {
    if k > 0 {
      assert (-a - 1) / 2 == -(a / 2) - 1;
      NotBits(a / 2, k - 1);
    }
  }

  lemma {:induction false} ShiftedBits(x: int, s: nat, k: nat)
    ensures Bit(x * Pow2(s), k) == (k >= s && Bit(x, k - s))
  {
    if s > 0 {
      var p := Pow2(s - 1);
      assert x * Pow2(s) == 2 * (x * p) by {
        MulTwice(x, p);
      }
      if k > 0 {
        ShiftedBits(x, s - 1, k - 1);
      }
    }
  }

  lemma {:induction false} QuotientBits(x: nat, s: nat, k: nat)
    ensures Bit(x / Pow2(s), k) == Bit(x, k + s)
    decreases s
  {
    if s > 0 {
      HalfFirst(x, Pow2(s - 1));
      QuotientBits(x / 2, s - 1, k);
    } else {
      assert x / 1 == x;
    }
  }

  lemma HalfFirst(x: nat, p: nat)
    requires p > 0
    ensures x / (2 * p) == x / 2 / p
  {
    var q, r := x / 2 / p, x / 2 % p;
    assert x / 2 == p * q + r && x == 2 * (x / 2) + x % 2;
    assert (2 * p) * q == 2 * (p * q);
    DivModUnique(x, 2 * p, q, 2 * r + x % 2);
  }

  lemma {:induction false} HighBits(x: nat, n: nat, k: nat)
    requires x < Pow2(n) && k >= n
    ensures !Bit(x, k)
    decreases n
  {
    if n == 0 {
      ZeroBits(k);
    } else {
      HighBits(x / 2, n - 1, k - 1);
    }
  }

  /** Shifts move the bits by the shift count modulo 32 and fill up with zeros: to the right, the sign does not
      stay. */
  lemma ShiftBits(a: i32, b: i32, s: nat, k: nat)
    requires s < 32 && k < 32 && (b - s) % 32 == 0
    ensures BinVal(Shl, a, b).Some? && (Bit(Val(Shl, a, b), k) <==> k >= s && Bit(a, k - s))
    ensures BinVal(Shr, a, b).Some? && (Bit(Val(Shr, a, b), k) <==> k + s < 32 && Bit(a, k + s))
  {
    hide Bit, Pow2;
    assert b % 32 == s;
    ShiftedBits(a, s, k);
    WrapCongruent(a * Pow2(s));
    CongruentBits(Val(Shl, a, b), a * Pow2(s), k);
    var u := ToU32(a);
    QuotientBits(u, s, k);
    QuotientBound(u, Pow2(s));
    CongruentBits(Val(Shr, a, b), u / Pow2(s), k);
    if k + s < 32 {
      CongruentBits(u, a, k + s);
    } else {
      Pow2At32();
      HighBits(u, 32, k + s);
    }
  }
}
