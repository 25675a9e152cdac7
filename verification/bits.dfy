/** Bitwise AND, OR and XOR on natural numbers, defined bit by bit, with the
    identities OpenCV's `bitwise_and`/`bitwise_or`/`bitwise_xor` obey on
    8-bit values. */
module Bits {

  function Pow2(n: nat): (p: nat)
    ensures p >= 1
  {
    if n == 0 then 1 else 2 * Pow2(n - 1)
  }

  function BitAnd(a: nat, b: nat): nat
    decreases a
  {
    if a == 0 || b == 0 then 0
    else 2 * BitAnd(a / 2, b / 2) + (if a % 2 == 1 && b % 2 == 1 then 1 else 0)
  }

  function BitOr(a: nat, b: nat): nat
    decreases a
  {
    if a == 0 then b
    else if b == 0 then a
    else 2 * BitOr(a / 2, b / 2) + (if a % 2 == 1 || b % 2 == 1 then 1 else 0)
  }

  function BitXor(a: nat, b: nat): nat
    decreases a
  {
    if a == 0 then b
    else if b == 0 then a
    else 2 * BitXor(a / 2, b / 2) + (if a % 2 != b % 2 then 1 else 0)
  }

  /** AND with all ones keeps the other operand; OR with all ones gives all ones. */
  lemma {:induction false} AllOnesIdentities(n: nat, x: nat)
    requires x < Pow2(n)
    ensures BitAnd(Pow2(n) - 1, x) == x
    ensures BitOr(Pow2(n) - 1, x) == Pow2(n) - 1
  {
    if n > 0 && x > 0 {
      var ones := Pow2(n) - 1;
      assert ones / 2 == Pow2(n - 1) - 1 && ones % 2 == 1;
      AllOnesIdentities(n - 1, x / 2);
    }
  }

  /** The three operations stay below `2^n` on operands below `2^n`. */
  lemma {:induction false} BitOpsBounded(n: nat, a: nat, b: nat)
    requires a < Pow2(n) && b < Pow2(n)
    ensures BitAnd(a, b) < Pow2(n)
    ensures BitOr(a, b) < Pow2(n)
    ensures BitXor(a, b) < Pow2(n)
  {
    if n > 0 && a > 0 && b > 0 {
      BitOpsBounded(n - 1, a / 2, b / 2);
    } else if n == 0 {
      assert a == 0 && b == 0;
    }
  }

  lemma Pow2Eight()
    ensures Pow2(8) == 256
  {
    assert Pow2(4) == 16;
  }

  /** The 8-bit special cases: with 0 or 255 as one operand. */
  lemma ByteIdentities(x: nat)
    requires x < 256
    ensures BitAnd(255, x) == x && BitAnd(0, x) == 0
    ensures BitOr(255, x) == 255 && BitOr(0, x) == x
  {
    Pow2Eight();
    AllOnesIdentities(8, x);
  }

  /** XOR on the two binary-mask values 0 and 255. */
  lemma BinaryXor()
    ensures BitXor(0, 0) == 0 && BitXor(255, 0) == 255 && BitXor(0, 255) == 255
    ensures BitXor(255, 255) == 0
  {
    assert BitXor(15, 15) == 0;
  }

  lemma BytesClosed(a: nat, b: nat)
    requires a < 256 && b < 256
    ensures BitAnd(a, b) < 256 && BitOr(a, b) < 256 && BitXor(a, b) < 256
  {
    Pow2Eight();
    BitOpsBounded(8, a, b);
  }
}
