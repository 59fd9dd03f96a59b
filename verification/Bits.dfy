/** The bitwise operators of unsigned machine words, defined bit by bit on naturals. */
module Bits {

  function BitOr(x: nat, y: nat): nat
    decreases x + y
  {
    if x == 0 && y == 0 then 0
    else (if x % 2 == 1 || y % 2 == 1 then 1 else 0) + 2 * BitOr(x / 2, y / 2)
  }

  function BitAnd(x: nat, y: nat): nat
    decreases x + y
  {
    if x == 0 && y == 0 then 0
    else (if x % 2 == 1 && y % 2 == 1 then 1 else 0) + 2 * BitAnd(x / 2, y / 2)
  }

  function Pow2(n: nat): (p: nat)
    ensures p > 0
  {
    if n == 0 then 1 else 2 * Pow2(n - 1)
  }

  function ShiftLeft(x: nat, n: nat): nat {
    x * Pow2(n)
  }

  /** Or-ing in a number below bit `n` of a multiple of 2^n is addition. */
  lemma {:induction false} OrDisjoint(x: nat, n: nat, y: nat)
    requires y < Pow2(n)
    ensures BitOr(x * Pow2(n), y) == x * Pow2(n) + y
    decreases n
  {
    if n == 0 {
      assert x * Pow2(0) == x;
      OrZero(x);
    } else if x * Pow2(n) + y > 0 {
      var half := Pow2(n - 1);
      assert x * Pow2(n) == 2 * (x * half);
      OrDisjoint(x, n - 1, y / 2);
    }
  }

  lemma {:induction false} OrZero(x: nat)
    ensures BitOr(x, 0) == x
  {
    if x > 0 {
      OrZero(x / 2);
    }
  }

  /** A number below bit `n` has no bit in common with a multiple of 2^n. */
  lemma {:induction false} AndDisjoint(x: nat, n: nat, y: nat)
    requires y < Pow2(n)
    ensures BitAnd(y, x * Pow2(n)) == 0
    decreases n
  {
    if n == 0 {
      AndZero(x * Pow2(0));
    } else if x * Pow2(n) + y > 0 {
      var half := Pow2(n - 1);
      assert x * Pow2(n) == 2 * (x * half);
      AndDisjoint(x, n - 1, y / 2);
    }
  }

  lemma {:induction false} AndZero(x: nat)
    ensures BitAnd(0, x) == 0
  {
    if x > 0 {
      AndZero(x / 2);
    }
  }
}
