/**
 Unsigned bitmap arithmetic.  A bitmap is a natural number; shifting left multiplies
 by a power of two, and an unsigned 64-bit store keeps the remainder modulo 2^64.
 */
module BitArithmetic {
  function Pow2(n: nat): (r: nat)
    ensures r >= 1
  {
    if n == 0 then 1 else 2 * Pow2(n - 1)
  }

  /** `(bits & (1 << d)) != 0`: bit d, counted from the lowest. */
  predicate TestBit(bits: nat, d: nat) {
    if d == 0 then bits % 2 == 1 else TestBit(bits / 2, d - 1)
  }

  /** Bit d is the parity of the number without its low d bits. */
  lemma {:induction false} TestBitIsParity(bits: nat, d: nat)
    ensures TestBit(bits, d) <==> (bits / Pow2(d)) % 2 == 1
  {
    if d > 0 {
      TestBitIsParity(bits / 2, d - 1);
      HalveDiv(bits, Pow2(d - 1));
    }
  }

  /** `bits << s`, before any truncation */
  function ShiftLeft(bits: nat, s: nat): nat {
    bits * Pow2(s)
  }

  /** `bits | (1 << d)` */
  function SetBit(bits: nat, d: nat): nat {
    if TestBit(bits, d) then bits else bits + Pow2(d)
  }

  lemma {:induction false} PowAdd(a: nat, b: nat)
    ensures Pow2(a + b) == Pow2(a) * Pow2(b)
  {
    if a > 0 {
      PowAdd(a - 1, b);
    }
  }

  lemma Pow2Is64()
    ensures Pow2(64) == 0x1_0000_0000_0000_0000
  {
    assert Pow2(4) == 0x10;
    PowAdd(4, 4);
    assert Pow2(8) == 0x100;
    PowAdd(8, 8);
    assert Pow2(16) == 0x1_0000;
    PowAdd(16, 16);
    assert Pow2(32) == 0x1_0000_0000;
    PowAdd(32, 32);
  }

  lemma HalveDiv(x: nat, b: nat)
    requires b > 0
    ensures x / (2 * b) == (x / 2) / b
    ensures x % (2 * b) == 2 * ((x / 2) % b) + x % 2
  {
    var q := (x / 2) / b;
    var r := (x / 2) % b;
    assert x / 2 == b * q + r;
    assert 2 * (b * q) == (2 * b) * q;
    QuotientUnique(x, 2 * b, q, 2 * r + x % 2);
  }

  lemma MulMonotone(m: nat, a: nat, b: nat)
    requires a <= b
    ensures m * a <= m * b
  {
  }

  lemma QuotientUnique(x: nat, m: nat, q: nat, r: nat)
    requires x == m * q + r && r < m
    ensures x / m == q && x % m == r
  {
    var q1 := x / m;
    assert x == m * q1 + x % m;
    if q1 < q {
      MulMonotone(m, q1 + 1, q);
    } else if q1 > q {
      MulMonotone(m, q + 1, q1);
    }
  }

  lemma {:induction false} TestBitZero(d: nat)
    ensures !TestBit(0, d)
  {
    if d > 0 {
      TestBitZero(d - 1);
    }
  }

  lemma {:induction false} TestBitShift(bits: nat, s: nat, d: nat)
    ensures TestBit(ShiftLeft(bits, s), d) == (d >= s && TestBit(bits, d - s))
  {
    if s > 0 {
      var half := ShiftLeft(bits, s - 1);
      assert ShiftLeft(bits, s) == 2 * half;
      if d > 0 {
        TestBitShift(bits, s - 1, d - 1);
      }
    }
  }

  /** Setting the lowest bit changes no other. */
  lemma TestBitSetLowest(bits: nat, d: nat)
    requires d > 0
    ensures TestBit(SetBit(bits, 0), d) == TestBit(bits, d)
  {
    assert SetBit(bits, 0) / 2 == bits / 2;
  }

  /** Setting a higher bit is setting the bit below it in the halved number. */
  lemma SetBitHalve(bits: nat, set_: nat)
    requires set_ > 0
    ensures SetBit(bits, set_) / 2 == SetBit(bits / 2, set_ - 1)
    ensures SetBit(bits, set_) % 2 == bits % 2
  {
    HalveSum(bits, Pow2(set_ - 1));
  }

  lemma HalveSum(bits: nat, half: nat)
    ensures (bits + 2 * half) / 2 == bits / 2 + half && (bits + 2 * half) % 2 == bits % 2
  {
  }

  lemma {:induction false} TestBitSet(bits: nat, set_: nat, d: nat)
    ensures TestBit(SetBit(bits, set_), d) == (d == set_ || TestBit(bits, d))
  {
    if set_ == 0 {
      if d > 0 {
        TestBitSetLowest(bits, d);
      }
    } else {
      SetBitHalve(bits, set_);
      if d > 0 {
        TestBitSet(bits / 2, set_ - 1, d - 1);
      }
    }
  }

  /** The number made of the low n bits. */
  function LowBits(bits: nat, n: nat): nat {
    if n == 0 then 0 else 2 * LowBits(bits / 2, n - 1) + bits % 2
  }

  lemma {:induction false} LowBitsIsRemainder(bits: nat, n: nat)
    ensures bits % Pow2(n) == LowBits(bits, n)
  {
    if n > 0 {
      LowBitsIsRemainder(bits / 2, n - 1);
      HalveDiv(bits, Pow2(n - 1));
    }
  }

  lemma {:induction false} TestBitLow(bits: nat, n: nat, d: nat)
    ensures TestBit(LowBits(bits, n), d) == (d < n && TestBit(bits, d))
  {
    if n == 0 {
      TestBitZero(d);
    } else {
      HalveSum(bits % 2, LowBits(bits / 2, n - 1));
      if d > 0 {
        TestBitLow(bits / 2, n - 1, d - 1);
      }
    }
  }

  /** Truncation to n bits keeps exactly the low n bits. */
  lemma TestBitTruncate(bits: nat, n: nat, d: nat)
    ensures TestBit(bits % Pow2(n), d) == (d < n && TestBit(bits, d))
  {
    LowBitsIsRemainder(bits, n);
    TestBitLow(bits, n, d);
  }

  /** Setting one of the low n bits stays below 2^n. */
  lemma {:induction false} SetBitSmall(bits: nat, n: nat, d: nat)
    requires bits < Pow2(n) && d < n
    ensures SetBit(bits, d) < Pow2(n)
    decreases n
  {
    var p := Pow2(n - 1);
    assert Pow2(n) == 2 * p;
    if d == 0 {
      assert Pow2(0) == 1 && SetBit(bits, 0) / 2 == bits / 2;
    } else {
      SetBitHalve(bits, d);
      SetBitSmall(bits / 2, n - 1, d - 1);
    }
    BelowDouble(SetBit(bits, d), p);
  }

  lemma BelowDouble(x: nat, p: nat)
    requires x / 2 < p
    ensures x < 2 * p
  {
  }
}
