/**
 The C++ `int` operators the virtual machine applies to its stack words
 (src/vm.cpp:47-151). Words are unbounded integers; every operation whose
 C++ behaviour is undefined — signed overflow, division or remainder by
 zero, a shift count outside 0..31, a left shift of a negative value or
 one whose value does not fit in 32 bits — yields `None` instead of
 inventing a value.
 */
module CppInt {
  import opened Wrappers

  const IntMin: int := -0x8000_0000
  const IntMax: int := 0x7FFF_FFFF

  /** 2^32, the number of 32-bit patterns. */
  const Modulus: int := 0x1_0000_0000

  predicate InRange(x: int) { IntMin <= x <= IntMax }

  function Abs(x: int): nat { if x < 0 then -x else x }

  function Pow2(k: nat): (r: nat)
    ensures r > 0
  {
    if k == 0 then 1 else 2 * Pow2(k - 1)
  }

  lemma {:induction false} Pow2Add(a: nat, b: nat)
    ensures Pow2(a + b) == Pow2(a) * Pow2(b)
  {
    if a > 0 {
      Pow2Add(a - 1, b);
    }
  }

  /** The value of a C++ `bool` converted to `int`. */
  function FromBool(c: bool): (r: int)
    ensures r == 0 || r == 1
    ensures r != 0 <==> c
  {
    if c then 1 else 0
  }

  /** `x` when it is representable, otherwise the overflow is undefined. */
  function Checked(x: int): (r: Option<int>)
    ensures r.Some? <==> InRange(x)
    ensures r.Some? ==> r.value == x
  {
    if InRange(x) then Some(x) else None
  }

  /** C++ `/`: the quotient truncated toward zero. */
  function TruncDiv(a: int, b: int): (q: int)
    requires b != 0
    ensures Abs(q) == Abs(a) / Abs(b)
    ensures q == 0 || (q > 0 <==> (a > 0 <==> b > 0))
  {
    var d: int := Abs(a) / Abs(b);
    assert d > 0 ==> a != 0 by {
      if a == 0 {
        assert d == 0;
      }
    }
    if (a >= 0) == (b > 0) then d else -d
  }

  /** C++ `%`: the remainder that goes with the truncated quotient. */
  function TruncMod(a: int, b: int): (m: int)
    requires b != 0
    ensures TruncDiv(a, b) * b + m == a
    ensures Abs(m) < Abs(b)
    ensures m == 0 || (m > 0 <==> a > 0)
  {
    TruncDivMod(a, b);
    if a >= 0 then Abs(a) % Abs(b) else -(Abs(a) % Abs(b))
  }

  /** Quotient times divisor plus signed remainder gives back the dividend. */
  lemma TruncDivMod(a: int, b: int)
    requires b != 0
    ensures TruncDiv(a, b) * b + (if a >= 0 then Abs(a) % Abs(b) else -(Abs(a) % Abs(b))) == a
  {
    var x: int, y: int := Abs(a), Abs(b);
    var d: int, r: int := x / y, x % y;
    assert x == d * y + r;
    var q := TruncDiv(a, b);
    assert q == (if (a >= 0) == (b > 0) then d else -d);
    assert b == (if b > 0 then y else -y);
    NegMul(d, y);
    if a >= 0 {
      assert q * b == d * y;
    } else {
      assert q * b == -(d * y);
    }
  }

  lemma NegMul(d: int, y: int)
    ensures (-d) * y == -(d * y) && d * (-y) == -(d * y) && (-d) * (-y) == d * y
  {
  }

  /** Two's complement pattern of `x` (taken modulo 2^32). */
  function ToBits(x: int): bv32
  {
    (x % Modulus) as bv32
  }

  /** The signed `int` whose pattern is `b`. */
  function FromBits(b: bv32): (r: int)
    ensures InRange(r)
    ensures r == b as int || r == b as int - Modulus
    ensures 0 <= r <==> b as int <= IntMax
  {
    if b as int <= IntMax then b as int else b as int - Modulus
  }

  function Add(a: int, b: int): Option<int> { Checked(a + b) }

  function Sub(a: int, b: int): Option<int> { Checked(a - b) }

  function Mul(a: int, b: int): Option<int> { Checked(a * b) }

  function Div(a: int, b: int): (r: Option<int>)
    ensures r.Some? <==> b != 0 && InRange(TruncDiv(a, b))
    ensures r.Some? ==> r.value == TruncDiv(a, b)
  {
    if b == 0 then None else Checked(TruncDiv(a, b))
  }

  /** Undefined exactly when the matching quotient is. */
  function Mod(a: int, b: int): (r: Option<int>)
    ensures r.Some? <==> Div(a, b).Some?
    ensures r.Some? ==> Div(a, b).value * b + r.value == a
    ensures r.Some? && InRange(b) ==> InRange(r.value)
  {
    if b == 0 || !InRange(TruncDiv(a, b)) then None else Some(TruncMod(a, b))
  }

  /**
   `a << b` as C++14 defines it for a signed left operand: a non-negative
   `a` whose shifted value fits in the unsigned 32-bit range gives that
   value converted to `int`, so a shift into the sign bit (`1 << 31`)
   wraps to a negative value.
   */
  function ShiftLeft(a: int, b: int): (r: Option<int>)
    ensures r.Some? <==> 0 <= b < 32 && 0 <= a && a * Pow2(b) < Modulus
    ensures r.Some? ==> InRange(r.value)
    ensures r.Some? ==> r.value == a * Pow2(b) || r.value == a * Pow2(b) - Modulus
  {
    if 0 <= b < 32 && 0 <= a && a * Pow2(b) < Modulus then
      var v := a * Pow2(b);
      Some(if v <= IntMax then v else v - Modulus)
    else None
  }

  /**
   Shifting 1 into the sign bit is defined and gives `INT_MIN`; shifting a
   bit out of the 32-bit range, or shifting a negative value, is not.
   */
  lemma {:induction false} ShiftIntoSignBit()
    ensures ShiftLeft(1, 31) == Some(IntMin)
    ensures ShiftLeft(2, 31) == None && ShiftLeft(-1, 0) == None
  {
    assert Pow2(10) == 1024 by {
      assert Pow2(2) == 4;
      assert Pow2(4) == 16;
      assert Pow2(6) == 64;
      assert Pow2(8) == 256;
    }
    Pow2Add(10, 10);
    Pow2Add(20, 10);
    Pow2Add(30, 1);
  }

  /** Euclidean division by a positive divisor moves toward zero or below it, never past `a`. */
  lemma FloorDivBounds(a: int, p: int)
    requires p > 0
    ensures 0 <= a ==> 0 <= a / p <= a
    ensures a < 0 ==> a <= a / p < 0
  {
    var q, r := a / p, a % p;
    assert a == q * p + r && 0 <= r < p;
    if q < 0 {
      MulSign(q + 1, p);
      MulSign(q + 1, p - 1);
      assert q * p <= -p;
      assert q * (p - 1) <= -(p - 1);
    } else {
      MulSign(q, p);
      MulSign(q, p - 1);
      assert q * p >= 0;
      assert q * p >= q;
    }
  }

  /** The sign of a product of a non-negative and an arbitrary factor. */
  lemma MulSign(x: int, y: int)
    requires y >= 0
    ensures x <= 0 ==> x * y <= 0
    ensures x >= 0 ==> x * y >= 0
  {
  }

  /**
   `a >> b`: an arithmetic shift, which rounds toward minus infinity. For a
   negative `a` C++14 leaves the result implementation-defined; this is the
   choice the compilers in use make.
   */
  function ShiftRight(a: int, b: int): (r: Option<int>)
    ensures r.Some? <==> 0 <= b < 32
    ensures r.Some? ==> r.value * Pow2(b) <= a < (r.value + 1) * Pow2(b)
    ensures r.Some? && InRange(a) ==> InRange(r.value)
  {
    if 0 <= b < 32 then
      var p := Pow2(b);
      FloorDivBounds(a, p);
      Some(a / p)
    else None
  }

  function BitAnd(a: int, b: int): (r: int)
    ensures InRange(r)
  {
    FromBits(ToBits(a) & ToBits(b))
  }

  function BitOr(a: int, b: int): (r: int)
    ensures InRange(r)
  {
    FromBits(ToBits(a) | ToBits(b))
  }

  function BitXor(a: int, b: int): (r: int)
    ensures InRange(r)
  {
    FromBits(ToBits(a) ^ ToBits(b))
  }

  /** `~a`, which is `-a - 1` in two's complement. */
  function BitNot(a: int): int { -a - 1 }

  function Neg(a: int): Option<int> { Checked(-a) }
}
