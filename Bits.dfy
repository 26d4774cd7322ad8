/**
 * C#'s bitwise operators on the non-negative integers the codec handles, defined bit by
 * bit. On non-negative operands these agree with the two's-complement operators.
 */
module Bits {
  import opened Base24

  function Or(a: nat, b: nat): nat
    decreases a + b
  {
    if a == 0 && b == 0 then 0 else (if a % 2 == 1 || b % 2 == 1 then 1 else 0) + 2 * Or(a / 2, b / 2)
  }

  function Xor(a: nat, b: nat): nat
    decreases a + b
  {
    if a == 0 && b == 0 then 0 else (if a % 2 != b % 2 then 1 else 0) + 2 * Xor(a / 2, b / 2)
  }

  function And(a: nat, b: nat): nat
    decreases a + b
  {
    if a == 0 && b == 0 then 0 else (if a % 2 == 1 && b % 2 == 1 then 1 else 0) + 2 * And(a / 2, b / 2)
  }

  function ShiftLeft(a: nat, n: nat): nat
  {
    a * Pow(2, n)
  }

  function ShiftRight(a: nat, n: nat): nat
  {
    a / Pow(2, n)
  }

  /** C#'s unchecked `(byte)` cast: the low eight bits. */
  function ToByte(x: nat): (b: byte)
    ensures x < 256 ==> b as nat == x
  {
    (x % 256) as byte
  }

  lemma {:induction false} OrZero(a: nat)
    ensures Or(a, 0) == a
  {
    if a > 0 {
      OrZero(a / 2);
    }
  }

  lemma {:induction false} XorZero(a: nat)
    ensures Xor(a, 0) == a
  {
    if a > 0 {
      XorZero(a / 2);
    }
  }

  lemma {:induction false} AndZero(a: nat)
    ensures And(a, 0) == 0
  {
    if a > 0 {
      AndZero(a / 2);
    }
  }

  lemma HalfOfShifted(a: nat, n: nat)
    requires n > 0
    ensures (a * Pow(2, n)) % 2 == 0 && (a * Pow(2, n)) / 2 == a * Pow(2, n - 1)
  {
    assert a * Pow(2, n) == 2 * (a * Pow(2, n - 1));
  }

  /** OR with a value below 2^n adds it to a multiple of 2^n: the two share no set bit. */
  lemma {:induction false} OrDisjoint(a: nat, b: nat, n: nat)
    requires b < Pow(2, n)
    ensures Or(a * Pow(2, n), b) == a * Pow(2, n) + b
  {
    if n == 0 {
      OrZero(a);
    } else if a * Pow(2, n) != 0 || b != 0 {
      HalfOfShifted(a, n);
      OrDisjoint(a, b / 2, n - 1);
    }
  }

  /** XOR with a value below 2^n adds it to a multiple of 2^n. */
  lemma {:induction false} XorDisjoint(a: nat, b: nat, n: nat)
    requires b < Pow(2, n)
    ensures Xor(a * Pow(2, n), b) == a * Pow(2, n) + b
  {
    if n == 0 {
      XorZero(a);
    } else if a * Pow(2, n) != 0 || b != 0 {
      HalfOfShifted(a, n);
      XorDisjoint(a, b / 2, n - 1);
    }
  }

  /** AND with 2^n - 1 keeps a value below 2^n unchanged. */
  lemma {:induction false} AndLowOnes(x: nat, n: nat)
    requires x < Pow(2, n)
    ensures And(x, Pow(2, n) - 1) == x
  {
    if n == 0 {
      AndZero(x);
    } else {
      AndLowOnes(x / 2, n - 1);
    }
  }

  /** `x & 1` is the lowest bit. */
  lemma AndOne(x: nat)
    ensures And(x, 1) == x % 2
  {
    AndZero(x / 2);
  }

  /** `b & 0xF7` clears bit 3 of a byte and keeps the others. */
  lemma AndF7(b: nat)
    requires b < 256
    ensures And(b, 0xF7) == b - 8 * ((b / 8) % 2)
  {
    var x1, x2, x3, x4 := b / 2, b / 4, b / 8, b / 16;
    assert Pow(2, 4) == 16;
    AndLowOnes(x4, 4);
    var a3 := And(x3, 30);
    assert a3 == 2 * x4 by { assert x3 / 2 == x4; }
    var a2 := And(x2, 61);
    assert a2 == x2 % 2 + 2 * a3 by { assert x2 / 2 == x3; }
    var a1 := And(x1, 123);
    assert a1 == x1 % 2 + 2 * a2 by { assert x1 / 2 == x2; }
    assert And(b, 247) == b % 2 + 2 * a1;
    assert b == b % 2 + 2 * (x1 % 2) + 4 * (x2 % 2) + 8 * (x3 % 2) + 16 * x4;
  }
}
