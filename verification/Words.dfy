/**
 32-bit words and their exclusive or, bit by bit.
 */
module Words {
  type u32 = x: int | 0 <= x < 0x1_0000_0000

  function Pow2(n: nat): (p: nat)
    ensures p >= 1
  {
    if n == 0 then 1 else 2 * Pow2(n - 1)
  }

  function XorBits(a: nat, b: nat, n: nat): nat
  {
    if n == 0 then 0 else (a % 2 + b % 2) % 2 + 2 * XorBits(a / 2, b / 2, n - 1)
  }

  lemma {:induction false} XorBound(a: nat, b: nat, n: nat)
    ensures XorBits(a, b, n) < Pow2(n)
  {
    if n > 0 { XorBound(a / 2, b / 2, n - 1); }
  }

  lemma LowAndHigh(low: nat, high: nat)
    requires low < 2
    ensures (low + 2 * high) % 2 == low && (low + 2 * high) / 2 == high
  {
  }

  lemma LowBitTwice(a: nat, b: nat)
    requires a < 2 && b < 2
    ensures ((a + b) % 2 + b) % 2 == a
  {
  }

  lemma {:induction false} XorTwice(a: nat, b: nat, n: nat)
    requires a < Pow2(n)
    ensures XorBits(XorBits(a, b, n), b, n) == a
  {
    if n > 0 {
      var low, high := (a % 2 + b % 2) % 2, XorBits(a / 2, b / 2, n - 1);
      XorTwice(a / 2, b / 2, n - 1);
      LowAndHigh(low, high);
      LowBitTwice(a % 2, b % 2);
    }
  }

  lemma Pow2Of32()
    ensures Pow2(32) == 0x1_0000_0000
  {
    assert Pow2(8) == 256;
    assert Pow2(16) == 256 * Pow2(8);
    assert Pow2(24) == 256 * Pow2(16);
    assert Pow2(32) == 256 * Pow2(24);
  }

  function Xor(a: u32, b: u32): u32
  {
    XorBound(a, b, 32); Pow2Of32();
    XorBits(a, b, 32)
  }

  lemma XorUndoes(a: u32, key: u32)
    ensures Xor(Xor(a, key), key) == a
  {
    Pow2Of32();
    XorTwice(a, key, 32);
  }

  lemma {:induction false} XorZero(a: nat, n: nat)
    requires a < Pow2(n)
    ensures XorBits(a, 0, n) == a
  {
    if n > 0 { XorZero(a / 2, n - 1); }
  }

  /** A mask without bits changes nothing. */
  lemma XorWithZero(a: u32)
    ensures Xor(a, 0) == a
  {
    Pow2Of32();
    XorZero(a, 32);
  }

  lemma {:induction false} XorBitsCommute(a: nat, b: nat, n: nat)
    ensures XorBits(a, b, n) == XorBits(b, a, n)
  {
    if n > 0 { XorBitsCommute(a / 2, b / 2, n - 1); }
  }

  /** Different masks change one word differently. */
  lemma XorBinds(a: u32, m: u32, n: u32)
    requires Xor(a, m) == Xor(a, n)
    ensures m == n
  {
    XorBitsCommute(a, m, 32);
    XorBitsCommute(a, n, 32);
    XorUndoes(m, a);
    XorUndoes(n, a);
  }

  /** The i-th binary digit, from the least significant. */
  function BitOf(v: nat, i: nat): nat
  {
    if i == 0 then v % 2 else BitOf(v / 2, i - 1)
  }

  /** Digit by digit, the exclusive or is the sum without its carry. */
  lemma {:induction false} XorBitOf(a: nat, b: nat, n: nat, i: nat)
    requires i < n
    ensures BitOf(XorBits(a, b, n), i) == (BitOf(a, i) + BitOf(b, i)) % 2
  {
    var low, high := (a % 2 + b % 2) % 2, XorBits(a / 2, b / 2, n - 1);
    LowAndHigh(low, high);
    if i > 0 { XorBitOf(a / 2, b / 2, n - 1, i - 1); }
  }
}
