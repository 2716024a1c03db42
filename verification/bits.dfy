/** The integer bit operations that nginx/html/js/benchmark.js uses, on
    non-negative integers, and the 32-bit left shift, where the width matters. */
module Bits {
  function Exp2(m: nat): (r: nat)
    ensures r >= 1
  {
    if m == 0 then 1 else 2 * Exp2(m - 1)
  }

  /** n is a power of two. */
  ghost predicate IsExp2(n: nat) { exists m: nat :: Exp2(m) == n }

  function And(a: nat, b: nat): nat {
    if a == 0 || b == 0 then 0 else 2 * And(a / 2, b / 2) + (if a % 2 + b % 2 == 2 then 1 else 0)
  }

  function Or(a: nat, b: nat): nat
    decreases a + b
  {
    if a == 0 then b else if b == 0 then a
    else 2 * Or(a / 2, b / 2) + (if a % 2 + b % 2 > 0 then 1 else 0)
  }

  function Xor(a: nat, b: nat): nat
    decreases a + b
  {
    if a == 0 then b else if b == 0 then a
    else 2 * Xor(a / 2, b / 2) + (if a % 2 + b % 2 == 1 then 1 else 0)
  }

  lemma {:induction false} Exp2Monotone(a: nat, b: nat)
    requires a < b
    ensures Exp2(a) < Exp2(b)
  {
    if a + 1 < b { Exp2Monotone(a, b - 1); }
  }

  /** Testing, clearing and setting one bit of a number in which no higher bit is set. */
  lemma {:induction false} TopBit(j: nat, b: nat)
    requires j < Exp2(b + 1)
    ensures And(j, Exp2(b)) == if j >= Exp2(b) then Exp2(b) else 0
    ensures j >= Exp2(b) ==> Xor(j, Exp2(b)) == j - Exp2(b)
    ensures j < Exp2(b) ==> Or(j, Exp2(b)) == j + Exp2(b)
  {
    var e := Exp2(b);
    if b == 0 {
      assert Exp2(1) == 2;
      assert j == 0 || j == 1;
    } else if j != 0 {
      TopBit(j / 2, b - 1);
      assert e / 2 == Exp2(b - 1) && e % 2 == 0;
      hide Exp2;
      assert And(j, e) == 2 * And(j / 2, e / 2);
      assert Xor(j, e) == 2 * Xor(j / 2, e / 2) + j % 2;
      assert Or(j, e) == 2 * Or(j / 2, e / 2) + j % 2;
    }
  }

  /** Binary digit k of a. */
  function Digit(a: nat, k: nat): bool {
    if k == 0 then a % 2 == 1 else Digit(a / 2, k - 1)
  }

  lemma NoDigits(k: nat)
    ensures !Digit(0, k)
  {}

  /** 2a has the digits of a after a zero, 2a + 1 after a one. */
  lemma DigitIs(a: nat, k: nat)
    ensures !Digit(2 * a, 0) && Digit(2 * a + 1, 0)
    ensures Digit(2 * a, k + 1) == Digit(a, k) == Digit(2 * a + 1, k + 1)
  {
    assert (2 * a) / 2 == a == (2 * a + 1) / 2;
  }

  /** Digit by digit, & is "and", | is "or" and ^ is "not equal". */
  lemma {:induction false} Digits(a: nat, b: nat, k: nat)
    ensures Digit(And(a, b), k) <==> Digit(a, k) && Digit(b, k)
    ensures Digit(Or(a, b), k) <==> Digit(a, k) || Digit(b, k)
    ensures Digit(Xor(a, b), k) <==> Digit(a, k) != Digit(b, k)
    decreases k
  {
    NoDigits(k);
    Halves(a, b);
    hide And, Or, Xor;
    if a != 0 && b != 0 && k > 0 { Digits(a / 2, b / 2, k - 1); }
  }

  lemma Halves(a: nat, b: nat)
    ensures And(a, b) / 2 == And(a / 2, b / 2) && (And(a, b) % 2 == 1 <==> a % 2 == 1 && b % 2 == 1)
    ensures Or(a, b) / 2 == Or(a / 2, b / 2) && (Or(a, b) % 2 == 1 <==> a % 2 == 1 || b % 2 == 1)
    ensures Xor(a, b) / 2 == Xor(a / 2, b / 2) && (Xor(a, b) % 2 == 1 <==> a % 2 != b % 2)
    ensures a == 0 || b == 0 ==> And(a, b) == 0 && Or(a, b) == Xor(a, b) == a + b
  {}

  lemma {:induction false} AndSelf(a: nat)
    ensures And(a, a) == a
  {
    if a != 0 { AndSelf(a / 2); }
  }

  /** n & (n - 1), where 0 & -1 is 0. */
  function AndPredecessor(n: nat): nat { if n == 0 then 0 else And(n, n - 1) }

  /** The test `n & (n - 1)` accepts 0 and the powers of two, nothing else. */
  lemma {:induction false} PowerOfTwoTest(n: nat)
    ensures AndPredecessor(n) == 0 <==> n == 0 || IsExp2(n)
  {
    if n > 0 { PositiveTest(n); }
  }

  lemma {:induction false} PositiveTest(n: nat)
    requires n > 0
    ensures And(n, n - 1) == 0 <==> IsExp2(n)
  {
    if n == 1 {
      assert Exp2(0) == 1;
    } else if n % 2 == 1 {
      assert (n - 1) / 2 == n / 2;
      AndSelf(n / 2);
      forall m: nat ensures Exp2(m) != n {
        if m > 0 { assert Exp2(m) == 2 * Exp2(m - 1); }
      }
    } else {
      assert (n - 1) / 2 == n / 2 - 1;
      PositiveTest(n / 2);
      if IsExp2(n / 2) {
        var m: nat :| Exp2(m) == n / 2;
        assert Exp2(m + 1) == n;
      }
      if IsExp2(n) {
        var m: nat :| Exp2(m) == n;
        assert Exp2(m - 1) == n / 2;
      }
    }
  }

  // ----- 32-bit left shift ------------------------------------------------

  /** `x << 1` on a signed 32-bit integer: the double, modulo 2^32. */
  function Shl32(x: int): (r: int)
    requires -0x8000_0000 <= x < 0x8000_0000
    ensures -0x8000_0000 <= r < 0x8000_0000
    ensures r - 2 * x in {-0x1_0000_0000, 0, 0x1_0000_0000}
  {
    var u := (2 * x) % 0x1_0000_0000;
    if u < 0x8000_0000 then u else u - 0x1_0000_0000
  }

  /** The value of a 32-bit variable that starts at `start`, after k times `<<= 1`. */
  function ShlTimes(start: int, k: nat): (r: int)
    requires -0x8000_0000 <= start < 0x8000_0000
    ensures -0x8000_0000 <= r < 0x8000_0000
  {
    if k == 0 then start else Shl32(ShlTimes(start, k - 1))
  }

  lemma Exp2Table()
    ensures Exp2(29) == 0x2000_0000 && Exp2(30) == 0x4000_0000 && Exp2(31) == 0x8000_0000
  {
    assert Exp2(10) == 1024;
    assert Exp2(20) == 1048576;
    assert Exp2(30) == 0x4000_0000;
  }

  lemma Exp2Below31(k: nat)
    requires k < 31
    ensures Exp2(k) <= 0x4000_0000
  {
    Exp2Table();
    if k < 30 { Exp2Monotone(k, 30); }
  }

  lemma DoubleSmall(x: nat)
    requires x <= 0x4000_0000
    ensures Shl32(x) == if x < 0x4000_0000 then 2 * x else -0x8000_0000
    ensures Shl32(-0x8000_0000) == 0
  {}

  /** Doubling one in 32 bits: powers of two, then the sign bit, then zero for ever. */
  lemma {:induction false} ShlTimesOne(k: nat)
    ensures k <= 30 ==> ShlTimes(1, k) == Exp2(k)
    ensures k == 31 ==> ShlTimes(1, k) == -0x8000_0000
    ensures k > 31 ==> ShlTimes(1, k) == 0
  {
    hide Shl32;
    if k > 0 {
      ShlTimesOne(k - 1);
      DoubleSmall(0);
      if k <= 31 {
        Exp2Below31(k - 1);
        DoubleSmall(Exp2(k - 1));
        if k == 31 {
          Exp2Table();
        } else {
          Exp2Below31(k);
        }
      }
    }
  }
}
