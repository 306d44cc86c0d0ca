/**
 * Bytes and the handful of C bit operations the header writer uses, on
 * unbounded integers. A byte is an integer in [0, 256); `x << k` is `x * 2^k`,
 * `x >> k` is the floor division `x / 2^k` (an arithmetic shift, which is what
 * the compiler does for a signed `int`), `x & (2^k - 1)` is `x % 2^k`, and a
 * store into `uint8_t` keeps `x % 256`. Bitwise OR is defined bit by bit.
 */
module Bits {

  type uint8 = x: int | 0 <= x < 256

  function Pow2(k: nat): (r: nat)
    ensures r >= 1
  {
    if k == 0 then 1 else 2 * Pow2(k - 1)
  }

  /** Bit `i` of a non-negative integer. */
  function Bit(x: nat, i: nat): nat {
    x / Pow2(i) % 2
  }

  /** The value a store into `uint8_t` keeps: the low eight bits, two's complement for negatives. */
  function Lo8(x: int): uint8 {
    x % 256
  }

  /** Bitwise OR of two non-negative integers. */
  function Or(a: nat, b: nat): nat
    decreases a + b
  {
    if a == 0 then b
    else if b == 0 then a
    else 2 * Or(a / 2, b / 2) + (if a % 2 == 1 || b % 2 == 1 then 1 else 0)
  }

  /** C's `|` on two bytes. */
  function Or8(a: uint8, b: uint8): uint8 {
    Pow2Eight();
    OrBound(a, b, 8);
    Or(a, b)
  }

  lemma Pow2Eight()
    ensures Pow2(8) == 256
  {
  }

  lemma BitOfDouble(r: nat, c: nat, i: nat)
    requires c < 2
    ensures Bit(2 * r + c, i) == if i == 0 then c else Bit(r, i - 1)
  {
    if i > 0 {
      HalveDivision(2 * r + c, Pow2(i - 1));
      assert (2 * r + c) / 2 == r;
    }
  }

  /** Dividing by 2^(i+1) is halving and then dividing by 2^i. */
  lemma HalveDivision(x: nat, m: nat)
    requires m >= 1
    ensures x / (2 * m) == x / 2 / m
  {
    var q := x / 2 / m;
    var s := x / 2 % m;
    assert x / 2 == q * m + s;
    assert x == 2 * q * m + 2 * s + x % 2;
    assert 0 <= 2 * s + x % 2 < 2 * m;
    DivisionUnique(x, 2 * m, q, 2 * s + x % 2);
  }

  /** Quotient and remainder are unique. */
  lemma DivisionUnique(x: int, d: int, q: int, r: int)
    requires d > 0 && 0 <= r < d && x == q * d + r
    ensures x / d == q
  {
    var q0, r0 := x / d, x % d;
    assert x == q0 * d + r0;
    assert (q - q0) * d == r0 - r;
    if q > q0 {
      MultipleAtLeast(q - q0, d);
    } else if q < q0 {
      MultipleAtLeast(q0 - q, d);
    }
  }

  lemma MultipleAtLeast(n: int, d: int)
    requires n >= 1 && d > 0
    ensures n * d >= d
  {
  }

  /** Or is the bitwise OR: bit i of the result is set exactly when bit i of either operand is. */
  lemma {:induction false} OrIsBitwise(a: nat, b: nat, i: nat)
    ensures Bit(Or(a, b), i) == if Bit(a, i) == 1 || Bit(b, i) == 1 then 1 else 0
    decreases a + b
  {
    if a == 0 {
      ZeroBit(i);
    } else if b == 0 {
      ZeroBit(i);
    } else {
      var c := if a % 2 == 1 || b % 2 == 1 then 1 else 0;
      BitOfDouble(Or(a / 2, b / 2), c, i);
      BitOfDouble(a / 2, a % 2, i);
      BitOfDouble(b / 2, b % 2, i);
      if i > 0 {
        OrIsBitwise(a / 2, b / 2, i - 1);
      } else {
        assert Pow2(0) == 1;
      }
    }
  }

  lemma ZeroBit(i: nat)
    ensures Bit(0, i) == 0
  {
  }

  /** Or stays below a power of two that bounds both operands. */
  lemma {:induction false} OrBound(a: nat, b: nat, k: nat)
    requires a < Pow2(k) && b < Pow2(k)
    ensures Or(a, b) < Pow2(k)
    decreases a + b
  {
    if a != 0 && b != 0 {
      OrBound(a / 2, b / 2, k - 1);
    }
  }

  /** The OR of a multiple of 2^j and a number below 2^j is their sum. */
  lemma {:induction false} OrDisjoint(t: nat, b: nat, j: nat)
    requires b < Pow2(j)
    ensures Or(t * Pow2(j), b) == t * Pow2(j) + b
  {
    var a := t * Pow2(j);
    if a == 0 || b == 0 {
    } else if j == 0 {
    } else {
      assert a == 2 * (t * Pow2(j - 1));
      assert a / 2 == t * Pow2(j - 1) && a % 2 == 0;
      OrDisjoint(t, b / 2, j - 1);
    }
  }

  lemma ExactQuotient(a: nat, m: nat)
    requires m >= 1 && a % m == 0
    ensures a == a / m * m
  {
  }

  /** Or8 of two bytes occupying disjoint bit ranges, split at bit j, is their sum. */
  lemma Or8Disjoint(a: uint8, b: uint8, j: nat)
    requires a % Pow2(j) == 0
    requires b < Pow2(j)
    ensures Or8(a, b) == a + b
  {
    var t := a / Pow2(j);
    ExactQuotient(a, Pow2(j));
    OrDisjoint(t, b, j);
  }
}
